/**
 Whole `test_decoding` lines: printing a row change and reading the line back.
 */
module LineRoundTrip {
  import opened Options
  import opened Seqs
  import opened Text
  import opened ChangeLine
  import opened TestDecoding

  type Tuple = Option<seq<Column>>

  /** A row change as the output plugin prints it; `None` is a tuple without data. */
  datatype RowChange =
    | Insert(newTuple: Tuple)
    | Update(oldKey: Option<seq<Column>>, newTuple: Tuple)
    | Delete(oldTuple: Tuple)

  function Command(change: RowChange): string {
    match change
    case Insert(_) => "INSERT"
    case Update(_, _) => "UPDATE"
    case Delete(_) => "DELETE"
  }

  function Cells(columns: seq<Column>): seq<Item> {
    if columns == [] then [] else [Cell(columns[0])] + Cells(columns[1..])
  }

  function TupleItems(t: Tuple): seq<Item> {
    match t
    case Some(columns) => Cells(columns)
    case None => [NoTupleData]
  }

  function Items(change: RowChange): seq<Item> {
    match change
    case Insert(t) => TupleItems(t)
    case Delete(t) => TupleItems(t)
    case Update(None, t) => TupleItems(t)
    case Update(Some(key), t) => [OldKey] + Cells(key) + [NewTuple] + TupleItems(t)
  }

  function PrintLine(schema: string, table: string, change: RowChange): string {
    "table " + schema + "." + table + ": " + Command(change) + ":" + PrintItems(Items(change))
  }

  /** Names that the two searches for `:` and the search for `.` cannot mistake. */
  predicate PlainTable(schema: string, table: string) {
    && ':' !in schema && '.' !in schema && ':' !in table
    && (schema != "" ==> !IsSpace(schema[0]))
    && (table != "" ==> !IsSpace(table[|table| - 1]))
  }

  /**
   The command, the table and the words of the column part come back for every
   change of a plain table; the names of any other table come back wrong, if at all.
   */
  lemma LineHead(schema: string, table: string, change: RowChange)
    ensures
      var read := ParseChangeLine(PrintLine(schema, table, change));
      && (read.Some? && read.value.schema == schema && read.value.table == table <==> PlainTable(schema, table))
      && (PlainTable(schema, table) ==>
            read.value == Change(Command(change), schema, table,
                                 ReadColumns(SplitWhitespace(PrintItems(Items(change))), false)))
  {
    var full, cmd, p := schema + "." + table, Command(change), PrintItems(Items(change));
    var after := " " + cmd + ":" + TrimEnd(p);
    LineIsParts(schema, table, cmd, p);
    CutLine(full, cmd, p);
    if PlainTable(schema, table) {
      CutTable(schema, table, after);
      CommandWord(cmd);
      CommandPart(schema, table, cmd, p);
    } else {
      NamesComeFromHead(schema, table, after);
    }
  }

  lemma NamesComeFromHead(schema: string, table: string, after: string)
    ensures
      var read := ParseTable(schema + "." + table + [':'] + after);
      read.Some? && read.value.schema == schema && read.value.table == table ==> PlainTable(schema, table)
  {
    var full := schema + "." + table;
    var text := full + [':'] + after;
    var read := ParseTable(text);
    if read.Some? && read.value.schema == schema && read.value.table == table {
      NamesOf(text);
      var first := IndexOf(text, ':').value;
      FirstColonInside(full, after, first);
      NamesInHead(schema, table, full[..first]);
    }
  }

  /** The names are cut out of the text before the first colon, trimmed. */
  lemma NamesOf(text: string)
    requires ParseTable(text).Some?
    ensures IndexOf(text, ':').Some?
    ensures
      var read, named := ParseTable(text).value, Trim(text[..IndexOf(text, ':').value]);
      if '.' in named then named == read.schema + "." + read.table && '.' !in read.schema
      else read.schema == "public" && named == read.table
  {
    DotCut(Trim(text[..IndexOf(text, ':').value]));
  }

  lemma FirstColonInside(full: string, after: string, first: nat)
    requires IndexOf(full + [':'] + after, ':') == Some(first)
    ensures first <= |full| && (full + [':'] + after)[..first] == full[..first] && ':' !in full[..first]
    ensures first < |full| ==> full[first] == ':'
  {
    assert (full + [':'] + after)[|full|] == ':';
  }

  lemma NamesInHead(schema: string, table: string, head: string)
    requires var full := schema + "." + table; head <= full && (head == full || full[|head|] == ':') && ':' !in head
    requires
      var named := Trim(head);
      if '.' in named then named == schema + "." + table && '.' !in schema
      else schema == "public" && named == table
    ensures PlainTable(schema, table)
  {
    TrimIsShorter(head);
    if '.' in Trim(head) {
      NamesArePlain(schema, table);
    } else {
      DotInHead(table, head);
      TrimStartKeeps(head, '.');
      TrimEndKeeps(TrimStart(head), '.');
      assert false;
    }
  }

  lemma DotInHead(table: string, head: string)
    requires var full := "public." + table; head <= full && (head == full || full[|head|] == ':')
    ensures '.' in head
  {
    var full := "public." + table;
    assert forall i | 0 <= i < 7 :: full[i] != ':';
    assert head[6] == '.';
  }

  lemma NamesArePlain(schema: string, table: string)
    requires
      var full := schema + "." + table;
      ':' !in full && Trim(full) == full && '.' !in schema
    ensures PlainTable(schema, table)
  {
    var full := schema + "." + table;
    TrimIsShorter(full);
    assert full[..|schema|] == schema && full[|schema| + 1..] == table;
    assert forall c :: c in schema || c in table ==> c in full;
  }

  lemma {:induction false} TrimStartKeeps(s: string, c: char)
    requires c in s && !IsSpace(c)
    ensures c in TrimStart(s)
  {
    if IsSpace(s[0]) {
      TrimStartKeeps(s[1..], c);
    }
  }

  lemma {:induction false} TrimEndKeeps(s: string, c: char)
    requires c in s && !IsSpace(c)
    ensures c in TrimEnd(s)
    decreases |s|
  {
    var n := |s| - 1;
    if IsSpace(s[n]) {
      assert s == s[..n] + [s[n]];
      TrimEndKeeps(s[..n], c);
    }
  }

  lemma DotCut(named: string)
    ensures
      match IndexOf(named, '.')
      case None => '.' !in named
      case Some(dot) => named == named[..dot] + "." + named[dot + 1..] && '.' !in named[..dot]
  {
  }

  lemma {:induction false} TrimStartLength(s: string)
    ensures |TrimStart(s)| <= |s|
    ensures |TrimStart(s)| == |s| ==> TrimStart(s) == s && (s == "" || !IsSpace(s[0]))
  {
    if s != "" && IsSpace(s[0]) {
      TrimStartLength(s[1..]);
    }
  }

  lemma {:induction false} TrimEndLength(s: string)
    ensures |TrimEnd(s)| <= |s|
    ensures |TrimEnd(s)| == |s| ==> TrimEnd(s) == s && (s == "" || !IsSpace(s[|s| - 1]))
    decreases |s|
  {
    if s != "" && IsSpace(s[|s| - 1]) {
      TrimEndLength(s[..|s| - 1]);
    }
  }

  /** Trimming shortens every text it changes. */
  lemma TrimIsShorter(s: string)
    ensures |Trim(s)| <= |s|
    ensures |Trim(s)| == |s| ==> Trim(s) == s && (s == "" || (!IsSpace(s[0]) && !IsSpace(s[|s| - 1])))
  {
    TrimStartLength(s);
    TrimEndLength(TrimStart(s));
  }

  lemma LineIsParts(schema: string, table: string, cmd: string, p: string)
    ensures "table " + schema + "." + table + ": " + cmd + ":" + p
         == "table " + (schema + "." + table) + (": " + cmd + ":") + p
  {
  }

  lemma CommandPart(schema: string, table: string, cmd: string, p: string)
    requires PlainTable(schema, table) && PlainCommand(cmd)
    ensures ParseCommand(schema + "." + table, Trim(" " + cmd + ":" + TrimEnd(p)))
         == Some(Change(cmd, schema, table, ReadColumns(SplitWhitespace(p), false)))
  {
    var text := Trim(" " + cmd + ":" + TrimEnd(p));
    CutCommand(cmd, TrimEnd(p));
    CutDot(schema, table);
    SplitAfterTrims(p);
    CutParts(schema, table, schema + "." + table, text, cmd, ReadColumns(SplitWhitespace(p), false));
  }

  lemma CutParts(
      schema: string, table: string, full: string, text: string, cmd: string, columns: seq<ParsedColumn>)
    requires IndexOf(full, '.') == Some(|schema|) && full[..|schema|] == schema && full[|schema| + 1..] == table
    requires IndexOf(text, ':') == Some(|cmd|) && Trim(text[..|cmd|]) == cmd
    requires columns == ReadColumns(SplitWhitespace(Trim(text[|cmd| + 1..])), false)
    ensures ParseCommand(full, text) == Some(Change(cmd, schema, table, columns))
  {
  }

  lemma SplitAfterTrims(p: string)
    ensures SplitWhitespace(Trim(TrimEnd(TrimEnd(p)))) == SplitWhitespace(p)
  {
    SplitTrim(TrimEnd(TrimEnd(p)));
    SplitTrimEnd(TrimEnd(p));
    SplitTrimEnd(p);
  }

  lemma CutLine(full: string, cmd: string, p: string)
    ensures
      var data := Trim("table " + full + (": " + cmd + ":") + p);
      "table " <= data && data[6..] == full + [':'] + (" " + cmd + ":" + TrimEnd(p))
  {
    var head := "table " + full + (": " + cmd + ":");
    assert head[0] == 't' && head[|head| - 1] == ':';
    TrimHead(head, p);
    LineParts(full, cmd, TrimEnd(p));
  }

  /** Trimming a line that starts and whose head ends with a visible character. */
  lemma TrimHead(head: string, p: string)
    requires head != "" && !IsSpace(head[0]) && !IsSpace(head[|head| - 1])
    ensures Trim(head + p) == head + TrimEnd(p)
  {
    StartsVisible(head + p);
    TrimEndConcat(head, p);
  }

  lemma StartsVisible(s: string)
    requires s != "" && !IsSpace(s[0])
    ensures TrimStart(s) == s && TrimStart(" " + s) == s
  {
    assert (" " + s)[1..] == s;
  }

  lemma LineParts(full: string, cmd: string, p: string)
    ensures
      var line := "table " + full + (": " + cmd + ":") + p;
      "table " <= line && line[6..] == full + [':'] + (" " + cmd + ":" + p)
  {
  }

  lemma CutTable(schema: string, table: string, after: string)
    requires PlainTable(schema, table)
    ensures ParseTable(schema + "." + table + [':'] + after) == ParseCommand(schema + "." + table, Trim(after))
  {
    var full := schema + "." + table;
    CutColon(full, after);
    assert !IsSpace(full[0]) && !IsSpace(full[|full| - 1]);
    StartsVisible(full);
  }

  /** Any other command, such as TRUNCATE, is read with its table and columns too. */
  lemma OtherCommandIsRead(schema: string, table: string, cmd: string, p: string)
    requires PlainTable(schema, table) && PlainCommand(cmd)
    ensures ParseChangeLine("table " + (schema + "." + table) + (": " + cmd + ":") + p)
         == Some(Change(cmd, schema, table, ReadColumns(SplitWhitespace(p), false)))
  {
    CutLine(schema + "." + table, cmd, p);
    CutTable(schema, table, " " + cmd + ":" + TrimEnd(p));
    CommandPart(schema, table, cmd, p);
  }

  /** A table printed without its schema is taken to be in `public`. */
  lemma UnqualifiedTableIsPublic(table: string, cmd: string, p: string)
    requires table != "" && ':' !in table && '.' !in table && Trim(table) == table
    requires cmd in {"INSERT", "UPDATE", "DELETE"}
    ensures ParseChangeLine("table " + table + (": " + cmd + ":") + p)
         == Some(Change(cmd, "public", table, ReadColumns(SplitWhitespace(p), false)))
  {
    CommandWord(cmd);
    CutLine(table, cmd, p);
    CutColon(table, " " + cmd + ":" + TrimEnd(p));
    CutCommand(cmd, TrimEnd(p));
    SplitAfterTrims(p);
  }

  lemma CutDot(schema: string, table: string)
    requires PlainTable(schema, table)
    ensures
      var full := schema + "." + table;
      IndexOf(full, '.') == Some(|schema|) && full[..|schema|] == schema && full[|schema| + 1..] == table
  {
    IndexOfFirst(schema, '.', table);
    assert schema + "." + table == schema + ['.'] + table;
  }

  /** A command the searches leave whole. */
  predicate PlainCommand(cmd: string) {
    cmd != "" && ':' !in cmd && Trim(cmd) == cmd && !IsSpace(cmd[0])
  }

  lemma CommandWord(cmd: string)
    requires cmd in {"INSERT", "UPDATE", "DELETE"}
    ensures PlainCommand(cmd)
  {
    assert |cmd| == 6 && forall i | 0 <= i < 6 :: cmd[i] != ':' && !IsSpace(cmd[i]);
  }

  lemma CutCommand(cmd: string, rest: string)
    requires PlainCommand(cmd)
    ensures
      var text := Trim(" " + cmd + ":" + rest);
      && IndexOf(text, ':') == Some(|cmd|)
      && Trim(text[..|cmd|]) == cmd && text[|cmd| + 1..] == TrimEnd(rest)
  {
    TrimCommand(cmd, rest);
    CutColon(cmd, TrimEnd(rest));
  }

  lemma TrimCommand(cmd: string, rest: string)
    requires cmd != "" && !IsSpace(cmd[0])
    ensures Trim(" " + cmd + ":" + rest) == cmd + [':'] + TrimEnd(rest)
  {
    var tail := cmd + [':'] + rest;
    assert " " + cmd + ":" + rest == " " + tail;
    StartsVisible(tail);
    TrimEndConcat(cmd + [':'], rest);
  }

  lemma CutColon(cmd: string, rest: string)
    requires ':' !in cmd
    ensures
      var text := cmd + [':'] + rest;
      IndexOf(text, ':') == Some(|cmd|) && text[..|cmd|] == cmd && text[|cmd| + 1..] == rest
  {
    IndexOfFirst(cmd, ':', rest);
  }

  /**
   Reading inverts printing: a change whose columns are all readable or skipped comes
   back with its command, its table and its readable columns, white space runs in
   quoted values collapsed, if and only if the table is plain and no readable quoted
   value ends in a quote.
   */
  lemma LineRoundTrip(schema: string, table: string, change: RowChange)
    requires WellFormed(Items(change))
    ensures
      ParseChangeLine(PrintLine(schema, table, change))
        == Some(Change(Command(change), schema, table, Expected(Items(change), false)))
      <==> PlainTable(schema, table) && Faithful(Items(change))
  {
    LineHead(schema, table, change);
    ReadPrinted(Items(change), false);
  }

  // ----- old and new tuples -----

  function ReadTuple(columns: seq<Column>, isOld: bool): seq<ParsedColumn> {
    if columns == [] then []
    else (if Readable(columns[0]) then [ReadBack(columns[0], isOld)] else []) + ReadTuple(columns[1..], isOld)
  }

  function Columns(t: Tuple): seq<Column> {
    t.GetOr([])
  }

  lemma {:induction false} ExpectedCells(columns: seq<Column>, more: seq<Item>, isOld: bool)
    ensures Expected(Cells(columns) + more, isOld) == ReadTuple(columns, isOld) + Expected(more, isOld)
  {
    if columns == [] {
      assert Cells(columns) + more == more;
    } else {
      ExpectedCells(columns[1..], more, isOld);
      ExpectedCons(columns[0], Cells(columns[1..]) + more, isOld);
      assert Cells(columns) + more == [Cell(columns[0])] + (Cells(columns[1..]) + more);
      var first := if Readable(columns[0]) then [ReadBack(columns[0], isOld)] else [];
      Associate(first, ReadTuple(columns[1..], isOld), Expected(more, isOld));
    }
  }

  lemma ExpectedCons(c: Column, items: seq<Item>, isOld: bool)
    ensures Expected([Cell(c)] + items, isOld)
         == (if Readable(c) then [ReadBack(c, isOld)] else []) + Expected(items, isOld)
  {
    assert ([Cell(c)] + items)[1..] == items;
  }

  lemma ExpectedTuple(t: Tuple, isOld: bool)
    ensures Expected(TupleItems(t), isOld) == ReadTuple(Columns(t), isOld)
  {
    if t.Some? {
      ExpectedCells(t.value, [], isOld);
      assert Cells(t.value) + [] == Cells(t.value);
    }
  }

  lemma {:induction false} SectionAppend(a: seq<ParsedColumn>, b: seq<ParsedColumn>, isOld: bool)
    ensures Section(a + b, isOld) == Section(a, isOld) + Section(b, isOld)
  {
    if a == [] {
      assert a + b == b;
    } else {
      assert (a + b)[0] == a[0] && (a + b)[1..] == a[1..] + b;
      SectionAppend(a[1..], b, isOld);
    }
  }

  lemma {:induction false} SectionTuple(columns: seq<Column>, isOld: bool, wanted: bool)
    ensures Section(ReadTuple(columns, isOld), wanted) == if isOld == wanted then ReadTuple(columns, isOld) else []
  {
    if columns != [] {
      SectionTuple(columns[1..], isOld, wanted);
      var r := ReadTuple(columns, isOld);
      if Readable(columns[0]) {
        assert r[0] == ReadBack(columns[0], isOld) && r[1..] == ReadTuple(columns[1..], isOld);
      } else {
        assert r == ReadTuple(columns[1..], isOld);
      }
    }
  }

  /** The old section of a change: only an UPDATE printed with its old key has one. */
  function OldColumns(change: RowChange): seq<Column> {
    if change.Update? then Columns(change.oldKey) else []
  }

  function NewColumns(change: RowChange): seq<Column> {
    if change.Delete? then Columns(change.oldTuple) else Columns(change.newTuple)
  }

  /**
   Splitting what was read gives the two printed tuples: text inside a value that
   looks like `old-key:` or like another column changes neither section.
   */
  lemma SplitRoundTrip(schema: string, table: string, change: RowChange)
    requires PlainTable(schema, table) && WellFormed(Items(change)) && Faithful(Items(change))
    ensures
      var read := ParseChangeLine(PrintLine(schema, table, change));
      && read.Some?
      && read.value.columns == ReadTuple(OldColumns(change), true) + ReadTuple(NewColumns(change), false)
      && Section(read.value.columns, true) == ReadTuple(OldColumns(change), true)
      && Section(read.value.columns, false) == ReadTuple(NewColumns(change), false)
  {
    LineRoundTrip(schema, table, change);
    var o, n := ReadTuple(OldColumns(change), true), ReadTuple(NewColumns(change), false);
    ExpectedColumns(change);
    SectionAppend(o, n, true);
    SectionAppend(o, n, false);
    SectionTuple(OldColumns(change), true, true);
    SectionTuple(OldColumns(change), true, false);
    SectionTuple(NewColumns(change), false, true);
    SectionTuple(NewColumns(change), false, false);
    assert o + [] == o;
  }

  lemma ExpectedColumns(change: RowChange)
    ensures Expected(Items(change), false) == ReadTuple(OldColumns(change), true) + ReadTuple(NewColumns(change), false)
  {
    match change
    case Insert(t) => ExpectedTuple(t, false);
    case Delete(t) => ExpectedTuple(t, false);
    case Update(None, t) => ExpectedTuple(t, false);
    case Update(Some(key), t) => ExpectedSections(key, t);
  }

  lemma ExpectedMarker(item: Item, items: seq<Item>, isOld: bool)
    requires !item.Cell?
    ensures Expected([item] + items, isOld) == Expected(items, SectionAfter(item, isOld))
  {
    assert ([item] + items)[1..] == items;
    EmptyLeft(Expected(items, SectionAfter(item, isOld)));
  }

  lemma ExpectedSections(key: seq<Column>, t: Tuple)
    ensures Expected([OldKey] + Cells(key) + [NewTuple] + TupleItems(t), false)
         == ReadTuple(key, true) + ReadTuple(Columns(t), false)
  {
    Associate4([OldKey], Cells(key), [NewTuple], TupleItems(t));
    Associate(Cells(key), [NewTuple], TupleItems(t));
    ExpectedMarker(OldKey, Cells(key) + ([NewTuple] + TupleItems(t)), false);
    ExpectedCells(key, [NewTuple] + TupleItems(t), true);
    ExpectedMarker(NewTuple, TupleItems(t), true);
    ExpectedTuple(t, false);
  }

  // ----- white space -----

  /** A value whose only white space is single blanks. */
  predicate SingleSpaced(s: string) {
    && (forall i | 0 <= i < |s| && IsSpace(s[i]) :: s[i] == ' ')
    && (forall i | 0 < i < |s| :: !(IsSpace(s[i - 1]) && IsSpace(s[i])))
  }

  /** A quoted value comes back unchanged exactly when all its white space is single blanks. */
  lemma {:induction false} CollapseIsIdentity(s: string)
    ensures Collapse(s) == s <==> SingleSpaced(s)
    decreases |s|
  {
    if s != "" {
      var rest := Remainder(s);
      CollapseIsIdentity(rest);
      CollapseLength(rest);
      SingleSpacedCons(s);
      ConsEqual(Lead(s), Collapse(rest), s);
      assert |rest| == |s| - 1 ==> rest == s[1..];
    }
  }

  lemma ConsEqual(c: char, t: string, s: string)
    requires s != ""
    ensures [c] + t == s <==> c == s[0] && t == s[1..]
  {
    assert s == [s[0]] + s[1..];
    if [c] + t == s {
      assert s[0] == c && s[1..] == t;
    }
  }

  lemma SingleSpacedCons(s: string)
    requires s != ""
    ensures SingleSpaced(s) <==> Lead(s) == s[0] && Remainder(s) == s[1..] && SingleSpaced(Remainder(s))
  {
    var rest := Remainder(s);
    if rest == s[1..] {
      assert forall i | 0 <= i < |rest| :: rest[i] == s[i + 1];
      if SingleSpaced(rest) && Lead(s) == s[0] {
        assert forall i | 1 <= i < |s| :: s[i] == rest[i - 1];
      }
    } else {
      assert IsSpace(s[0]) && IsSpace(s[1]);
    }
  }

  lemma {:induction false} CollapseLength(s: string)
    ensures |Collapse(s)| <= |s|
    decreases |s|
  {
    if s != "" {
      CollapseLength(Remainder(s));
    }
  }

  // ----- which lines are read at all -----

  predicate TwoColons(s: string) {
    exists i, j | 0 <= i < j < |s| :: s[i] == ':' && s[j] == ':'
  }

  /** A line is read as a change exactly when it starts with `table `, white space aside, and has two colons. */
  lemma ReadExactly(line: string)
    ensures ParseChangeLine(line).Some? <==> "table " <= Trim(line) && TwoColons(Trim(line))
  {
    var data := Trim(line);
    if "table " <= data {
      var after := data[6..];
      assert forall i | 0 <= i < 6 :: data[i] != ':';
      assert forall i | 0 <= i < |after| :: after[i] == data[i + 6];
      match IndexOf(after, ':')
      case None =>
        assert forall i | 6 <= i < |data| :: data[i] == after[i - 6];
      case Some(first) =>
        ColonBehindTrim(after[first + 1..]);
        SecondColon(data, first + 6);
    }
  }

  lemma ColonBehindTrim(s: string)
    ensures ':' in Trim(s) <==> ':' in s
  {
    if ':' in s {
      TrimStartKeeps(s, ':');
      TrimEndKeeps(TrimStart(s), ':');
    } else {
      var a, b := TrimExact(s);
      assert forall c <- Trim(s) :: c in s;
    }
  }

  lemma SecondColon(s: string, first: nat)
    requires first < |s| && s[first] == ':' && ':' !in s[..first]
    ensures TwoColons(s) <==> ':' in s[first + 1..]
  {
    if ':' in s[first + 1..] {
      var j :| 0 <= j < |s[first + 1..]| && s[first + 1..][j] == ':';
      assert s[first + 1 + j] == ':';
    }
    assert forall i | 0 <= i < first :: s[i] == s[..first][i];
    if TwoColons(s) {
      var i, j :| 0 <= i < j < |s| && s[i] == ':' && s[j] == ':';
      assert s[first + 1..][j - first - 1] == ':';
    }
  }
}

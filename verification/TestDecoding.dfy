/**
 The printer of the `test_decoding` output plugin, and what reading its lines gives
 back. Printing is ` name[type]:value` per column, quotes doubled inside a quoted
 value, with section markers in an UPDATE that carries its old tuple.
 */
module TestDecoding {
  import opened Options
  import opened Seqs
  import opened Text
  import opened ChangeLine

  datatype Value = Bare(text: string) | Quoted(text: string)

  datatype Column = Column(name: string, typ: string, value: Value)

  datatype Item = OldKey | NewTuple | NoTupleData | Cell(column: Column)

  const NO_TUPLE_DATA := "(no-tuple-data)"

  // ----- printing -----

  function PrintValue(v: Value): string {
    match v
    case Bare(text) => text
    case Quoted(text) => "'" + DoubleQuotes(text) + "'"
  }

  function PrintHead(c: Column): string {
    c.name + "[" + c.typ + "]:"
  }

  function PrintItem(item: Item): string {
    match item
    case OldKey => OLD_KEY
    case NewTuple => NEW_TUPLE
    case NoTupleData => NO_TUPLE_DATA
    case Cell(c) => PrintHead(c) + PrintValue(c.value)
  }

  function PrintItems(items: seq<Item>): (s: string)
    ensures s == "" || s[0] == ' '
  {
    if items == [] then "" else " " + PrintItem(items[0]) + PrintItems(items[1..])
  }

  // ----- what a line can be read back to -----

  /** A name and a type the reader can find in one word, and a bare value of one word. */
  predicate Readable(c: Column) {
    && NoSpace(c.name) && '[' !in c.name
    && NoSpace(c.typ) && ':' !in c.typ
    && (c.value.Bare? ==> NoSpace(c.value.text) && !("'" <= c.value.text))
  }

  predicate InertWord(part: string) {
    !IsMarker(part) && ColumnHead(part).None?
  }

  /** Every word of the printed column is skipped by the reader. */
  predicate Inert(c: Column) {
    var parts := SplitWhitespace(PrintItem(Cell(c)));
    forall i | 0 <= i < |parts| :: InertWord(parts[i])
  }

  predicate WellFormed(items: seq<Item>) {
    forall i | 0 <= i < |items| && items[i].Cell? :: Readable(items[i].column) || Inert(items[i].column)
  }

  predicate EndsQuoted(item: Item) {
    item.Cell? && Readable(item.column) && item.column.value.Quoted? && EndsWithQuote(item.column.value.text)
  }

  /** No readable quoted value ends in a quote character. */
  predicate Faithful(items: seq<Item>) {
    forall i | 0 <= i < |items| :: !EndsQuoted(items[i])
  }

  /** Every run of white space becomes one blank. */
  function Collapse(s: string): string
    decreases |s|
  {
    if s == "" then "" else [Lead(s)] + Collapse(Remainder(s))
  }

  function Lead(s: string): char
    requires s != ""
  {
    if IsSpace(s[0]) then ' ' else s[0]
  }

  function Remainder(s: string): (t: string)
    requires s != ""
    ensures |t| < |s| && t == s[|s| - |t|..]
  {
    if IsSpace(s[0]) then DropSpaces(s[1..]) else s[1..]
  }

  function DropSpaces(s: string): (t: string)
    ensures |t| <= |s| && t == s[|s| - |t|..]
    ensures t != "" ==> !IsSpace(t[0])
    ensures forall i | 0 <= i < |s| - |t| :: IsSpace(s[i])
  {
    if s != "" && IsSpace(s[0]) then DropSpaces(s[1..]) else s
  }

  function ReadBack(c: Column, isOld: bool): ParsedColumn {
    ParsedColumn(c.name, if c.value.Quoted? then Collapse(c.value.text) else c.value.text, isOld)
  }

  function SectionAfter(item: Item, isOld: bool): bool {
    item.OldKey? || (isOld && !item.NewTuple?)
  }

  function SectionAfterAll(items: seq<Item>, isOld: bool): bool {
    if items == [] then isOld else SectionAfterAll(items[1..], SectionAfter(items[0], isOld))
  }

  /** What a reader should report for one item. */
  function Taken(item: Item, isOld: bool): seq<ParsedColumn> {
    if item.Cell? && Readable(item.column) then [ReadBack(item.column, isOld)] else []
  }

  /** The columns a reader should report: readable ones, in order, flagged by section. */
  function Expected(items: seq<Item>, isOld: bool): seq<ParsedColumn> {
    if items == [] then [] else Taken(items[0], isOld) + Expected(items[1..], SectionAfter(items[0], isOld))
  }

  // ----- scanning a quoted value -----

  /** How many quotes the text ends in. */
  function QuoteRun(s: string): nat {
    if EndsWithQuote(s) then 1 + QuoteRun(s[..|s| - 1]) else 0
  }

  lemma QuoteRunAppend(s: string, c: char)
    ensures QuoteRun(s + [c]) == if c == '\'' then QuoteRun(s) + 1 else 0
  {
    assert (s + [c])[..|s|] == s;
  }

  /** The closing-quote test says that the text ends in exactly one quote. */
  lemma ClosesExactly(s: string)
    ensures Closes(s) <==> QuoteRun(s) == 1
  {
  }

  /** What the inner loop returns when it has `acc` and `s` is the rest of the line. */
  function Scan(acc: string, s: string): (string, seq<string>) {
    ReadQuoted(acc + FirstWord(s), SplitWhitespace(AfterWord(s)))
  }

  lemma ScanStep(acc: string, w: string, s: string)
    requires NoSpace(w)
    ensures Scan(acc, w + s) == Scan(acc + w, s)
  {
    FirstWordPrefix(w, s);
    assert acc + (w + FirstWord(s)) == acc + w + FirstWord(s);
  }

  /** Past a run of white space the loop goes on with one blank. */
  lemma {:induction false} SplitDropSpaces(s: string)
    ensures SplitWhitespace(DropSpaces(s)) == SplitWhitespace(s)
  {
    if s != "" && IsSpace(s[0]) {
      SplitDropSpaces(s[1..]);
    }
  }

  lemma ScanSpaces(acc: string, s: string)
    requires s != "" && IsSpace(s[0]) && DropSpaces(s) != "" && !Closes(acc)
    ensures Scan(acc, s) == Scan(acc + " ", DropSpaces(s))
  {
    var t := DropSpaces(s);
    assert FirstWord(s) == "" && AfterWord(s) == s && acc + "" == acc;
    SplitDropSpaces(s);
    WordsByFirst("", t);
    assert "" + FirstWord(t) == FirstWord(t) && FirstWord(t) != "";
    var parts := SplitWhitespace(s);
    assert parts == [FirstWord(t)] + SplitWhitespace(AfterWord(t));
    assert parts[1..] == SplitWhitespace(AfterWord(t));
  }

  lemma {:induction false} DropSpacesAppend(s: string, t: string)
    requires t == "" || !IsSpace(t[0])
    ensures DropSpaces(s + t) == DropSpaces(s) + t
  {
    if s == "" {
      assert s + t == t;
    } else {
      assert (s + t)[1..] == s[1..] + t && (s + t)[0] == s[0];
      DropSpacesAppend(s[1..], t);
    }
  }

  lemma EndsAppend(s: string, t: string)
    requires t != ""
    ensures EndsWithQuote(s + t) == EndsWithQuote(t)
  {
    assert (s + t)[|s + t| - 1] == t[|t| - 1];
  }

  /** White space runs are the same before and after quotes are doubled. */
  lemma {:induction false} DoubleDropSpaces(s: string)
    ensures DropSpaces(DoubleQuotes(s)) == DoubleQuotes(DropSpaces(s))
  {
    if s != "" && IsSpace(s[0]) {
      assert DoubleQuotes(s)[1..] == DoubleQuotes(s[1..]);
      DoubleDropSpaces(s[1..]);
    }
  }

  /**
   The inner loop passes over a printed value: unless it would close before a blank
   the value starts with, it stands at the value's closing quote with the value read
   so far, white space collapsed.
   */
  lemma {:induction false} ScanPast(acc: string, v: string, tail: string)
    requires v != "" && IsSpace(v[0]) ==> !Closes(acc)
    ensures Scan(acc, DoubleQuotes(v) + "'" + tail) == Scan(acc + DoubleQuotes(Collapse(v)) + "'", tail)
    decreases |v|
  {
    if v == "" {
      ScanStep(acc, "'", tail);
      assert DoubleQuotes(v) + "'" + tail == "'" + tail && acc + DoubleQuotes(Collapse(v)) == acc;
    } else {
      var w, v' := DoubleQuotes([Lead(v)]), Remainder(v);
      ScanLead(acc, v, tail);
      NotClosedBy(acc, Lead(v));
      ScanPast(acc + w, v', tail);
      DoubleCons(Lead(v), Collapse(v'));
      Associate(acc, w, DoubleQuotes(Collapse(v')));
    }
  }

  lemma NotClosedBy(acc: string, c: char)
    ensures !Closes(acc + DoubleQuotes([c]))
  {
    DoubleCons(c, "");
    if c == '\'' {
      assert (acc + "''")[..|acc| + 1] == acc + "'";
    }
  }

  /** At every word boundary inside a printed value the quote run behind the loop is even. */
  lemma {:induction false} RunStaysEven(acc: string, v: string)
    requires QuoteRun(acc) % 2 == 0
    ensures QuoteRun(acc + DoubleQuotes(Collapse(v))) % 2 == 0
    decreases |v|
  {
    if v == "" {
      assert acc + DoubleQuotes(Collapse(v)) == acc;
    } else {
      var w, v' := DoubleQuotes([Lead(v)]), Remainder(v);
      PrintedRunEven(acc, Lead(v));
      RunStaysEven(acc + w, v');
      DoubleCons(Lead(v), Collapse(v'));
      Associate(acc, w, DoubleQuotes(Collapse(v')));
    }
  }

  lemma {:induction false} DoubleEndsWithQuote(s: string)
    ensures EndsWithQuote(DoubleQuotes(s)) == EndsWithQuote(s)
    ensures DoubleQuotes(s) == "" <==> s == ""
  {
    if s != "" {
      DoubleEndsWithQuote(s[1..]);
      EndsCons('\'', DoubleQuotes(s[1..]));
      EndsCons('\'', "'" + DoubleQuotes(s[1..]));
      EndsCons(s[0], DoubleQuotes(s[1..]));
      assert "''" + DoubleQuotes(s[1..]) == "'" + ("'" + DoubleQuotes(s[1..]));
    }
  }

  /** Behind a value as it is held, the loop has a quote exactly when the value ends in one. */
  lemma HeldEndsWithQuote(acc: string, v: string)
    ensures EndsWithQuote(acc + DoubleQuotes(Collapse(v))) == if v == "" then EndsWithQuote(acc) else EndsWithQuote(v)
  {
    CollapseEndsWithQuote(v);
    DoubleEndsWithQuote(Collapse(v));
    if v == "" {
      assert acc + DoubleQuotes(Collapse(v)) == acc;
    } else {
      EndsAppend(acc, DoubleQuotes(Collapse(v)));
    }
  }

  /**
   The inner loop stops at the true closing quote of every value that does not end
   in a quote: it returns the text read so far, the value with its white space
   collapsed, and the words after the value.
   */
  lemma ScanReadsValue(acc: string, v: string, tail: string)
    requires tail == "" || IsSpace(tail[0])
    requires QuoteRun(acc) % 2 == 0 && !EndsWithQuote(acc + v)
    ensures Scan(acc, DoubleQuotes(v) + "'" + tail) == (acc + DoubleQuotes(Collapse(v)), SplitWhitespace(tail))
  {
    var read := acc + DoubleQuotes(Collapse(v));
    EvenRunIsOpen(acc);
    ScanPast(acc, v, tail);
    HeldEndsWithQuote(acc, v);
    EndsConcat(acc, v);
    ScanAtEnd(read, tail);
  }

  lemma EvenRunIsOpen(acc: string)
    requires QuoteRun(acc) % 2 == 0
    ensures !Closes(acc)
  {
    ClosesExactly(acc);
  }

  lemma EndsConcat(s: string, t: string)
    ensures EndsWithQuote(s + t) == if t == "" then EndsWithQuote(s) else EndsWithQuote(t)
  {
    if t == "" {
      assert s + t == s;
    } else {
      EndsAppend(s, t);
    }
  }

  /** At a closing quote before a blank the loop stops. */
  lemma ScanAtEnd(read: string, tail: string)
    requires tail == "" || IsSpace(tail[0])
    requires !EndsWithQuote(read)
    ensures Scan(read + "'", tail) == (read, SplitWhitespace(tail))
  {
    assert FirstWord(tail) == "" && AfterWord(tail) == tail;
    assert read + "'" + "" == read + "'" && (read + "'")[..|read|] == read;
  }

  lemma DoubleCons(c: char, s: string)
    ensures DoubleQuotes([c]) == if c == '\'' then "''" else [c]
    ensures DoubleQuotes([c] + s) == DoubleQuotes([c]) + DoubleQuotes(s)
  {
    assert [c][1..] == "" && ([c] + s)[1..] == s;
  }

  lemma ScanLead(acc: string, v: string, tail: string)
    requires v != "" && (IsSpace(v[0]) ==> !Closes(acc))
    ensures Scan(acc, DoubleQuotes(v) + "'" + tail)
         == Scan(acc + DoubleQuotes([Lead(v)]), DoubleQuotes(Remainder(v)) + "'" + tail)
  {
    DoubleCons(' ', "");
    if IsSpace(v[0]) {
      ScanBlank(acc, v, tail);
    } else {
      ScanChar(acc, v, tail);
    }
  }

  lemma LastLead(v: string)
    requires v != ""
    ensures Remainder(v) == "" ==> EndsWithQuote(v) == (Lead(v) == '\'')
  {
    if Remainder(v) == "" && IsSpace(v[0]) && |v| > 1 {
      assert IsSpace(v[1..][|v| - 2]);
    }
  }

  lemma ScanBlank(acc: string, v: string, tail: string)
    requires !Closes(acc) && v != "" && IsSpace(v[0])
    ensures Scan(acc, DoubleQuotes(v) + "'" + tail) == Scan(acc + " ", DoubleQuotes(Remainder(v)) + "'" + tail)
  {
    PrintedBlank(v, tail);
    ScanSpaces(acc, DoubleQuotes(v) + "'" + tail);
  }

  lemma PrintedBlank(v: string, tail: string)
    requires v != "" && IsSpace(v[0])
    ensures
      var s, t := DoubleQuotes(v) + "'" + tail, DoubleQuotes(Remainder(v)) + "'" + tail;
      s != "" && IsSpace(s[0]) && DropSpaces(s) == t && t != ""
  {
    var d, t := DoubleQuotes(v), DoubleQuotes(Remainder(v));
    DoubleBlank(v);
    assert ("'" + tail)[0] == '\'';
    BlankThen(d, t, "'" + tail);
    Associate(d, "'", tail);
    Associate(t, "'", tail);
  }

  lemma DoubleBlank(v: string)
    requires v != "" && IsSpace(v[0])
    ensures DropSpaces(DoubleQuotes(v)) == DoubleQuotes(Remainder(v))
    ensures DoubleQuotes(v) != "" && DoubleQuotes(v)[0] == v[0]
  {
    DoubleDropSpaces(v);
  }

  lemma BlankThen(d: string, t: string, end: string)
    requires d != "" && IsSpace(d[0]) && DropSpaces(d) == t
    requires end != "" && !IsSpace(end[0])
    ensures DropSpaces(d + end) == t + end && IsSpace((d + end)[0]) && t + end != ""
  {
    DropSpacesAppend(d, end);
  }

  lemma ScanChar(acc: string, v: string, tail: string)
    requires v != "" && !IsSpace(v[0])
    ensures Scan(acc, DoubleQuotes(v) + "'" + tail)
         == Scan(acc + DoubleQuotes([v[0]]), DoubleQuotes(v[1..]) + "'" + tail)
  {
    var w, d := DoubleQuotes([v[0]]), DoubleQuotes(v[1..]);
    PrintedChar(v, tail);
    ScanStep(acc, w, d + "'" + tail);
  }

  lemma PrintedChar(v: string, tail: string)
    requires v != "" && !IsSpace(v[0])
    ensures DoubleQuotes(v) + "'" + tail == DoubleQuotes([v[0]]) + (DoubleQuotes(v[1..]) + "'" + tail)
    ensures NoSpace(DoubleQuotes([v[0]]))
  {
    assert v == [v[0]] + v[1..];
    DoubleCons(v[0], v[1..]);
    Associate4(DoubleQuotes([v[0]]), DoubleQuotes(v[1..]), "'", tail);
  }

  /** A printed character keeps the quote run at a word boundary even. */
  lemma PrintedRunEven(acc: string, c: char)
    requires QuoteRun(acc) % 2 == 0
    ensures QuoteRun(acc + DoubleQuotes([c])) % 2 == 0
    ensures EndsWithQuote(acc + DoubleQuotes([c])) == (c == '\'')
  {
    DoubleCons(c, "");
    QuoteRunAppend(acc, c);
    if c == '\'' {
      QuoteRunAppend(acc + "'", '\'');
      assert acc + "'" + "'" == acc + "''";
    }
  }

  // ----- one printed item -----

  lemma MarkersHaveNoBracket()
    ensures '[' !in OLD_KEY && '[' !in NEW_TUPLE
  {
    assert forall i | 0 <= i < |OLD_KEY| :: OLD_KEY[i] != '[';
    assert forall i | 0 <= i < |NEW_TUPLE| :: NEW_TUPLE[i] != '[';
  }

  /** The first bracket of a word that puts a bracket-free name before one. */
  lemma BracketAfter(name: string, rest: string)
    requires '[' !in name
    ensures
      var part := name + "[" + rest;
      && IndexOf(part, '[') == Some(|name|) && part[..|name|] == name && part[|name|..] == "[" + rest
      && !IsMarker(part)
  {
    var part := name + "[" + rest;
    IndexOfFirst(name, '[', rest);
    assert part == name + ['['] + rest;
    assert part[|name|] == '[';
    MarkersHaveNoBracket();
  }

  lemma HeadFound(c: Column, w: string)
    requires Readable(c)
    ensures ColumnHead(PrintHead(c) + w) == Some((c.name, w))
    ensures !IsMarker(PrintHead(c) + w)
  {
    HeadParts(c, w);
    BracketAfter(c.name, c.typ + "]:" + w);
    ColonAfter("[" + c.typ + "]", w);
  }

  lemma HeadParts(c: Column, w: string)
    ensures PrintHead(c) + w == c.name + "[" + (c.typ + "]:" + w)
    ensures "[" + (c.typ + "]:" + w) == "[" + c.typ + "]" + [':'] + w
  {
  }

  lemma ColonAfter(before: string, w: string)
    requires ':' !in before
    ensures
      var text := before + [':'] + w;
      IndexOf(text, ':') == Some(|before|) && text[|before| + 1..] == w
  {
    IndexOfFirst(before, ':', w);
  }

  /** The words of a readable column followed by `tail`: the first one holds its head. */
  lemma CellWords(c: Column, text: string)
    requires Readable(c)
    ensures SplitWhitespace(" " + (PrintHead(c) + text))
         == [PrintHead(c) + FirstWord(text)] + SplitWhitespace(AfterWord(text))
  {
    var h := PrintHead(c);
    assert (" " + (h + text))[1..] == h + text;
    assert NoSpace(h);
    WordsPrefix("", h, text);
    WordsByFirst("" + h, text);
    assert "" + h + FirstWord(text) == h + FirstWord(text);
  }

  lemma ReadBare(part: string, more: seq<string>, name: string, value: string, isOld: bool)
    requires !IsMarker(part) && ColumnHead(part) == Some((name, value)) && !("'" <= value)
    ensures ReadColumns([part] + more, isOld) == [ParsedColumn(name, value, isOld)] + ReadColumns(more, isOld)
  {
    assert ([part] + more)[1..] == more;
    assert ReadOne([part] + more, isOld) == Turn([ParsedColumn(name, value, isOld)], more, isOld);
  }

  lemma ReadQuotedPart(
      part: string, more: seq<string>, name: string, value: string, raw: string, rest: seq<string>, isOld: bool)
    requires !IsMarker(part) && ColumnHead(part) == Some((name, "'" + value)) && ReadQuoted(value, more) == (raw, rest)
    ensures ReadColumns([part] + more, isOld)
         == [ParsedColumn(name, UndoubleQuotes(raw), isOld)] + ReadColumns(rest, isOld)
  {
    assert ([part] + more)[1..] == more && ("'" + value)[1..] == value;
    assert ReadOne([part] + more, isOld) == Turn([ParsedColumn(name, UndoubleQuotes(raw), isOld)], rest, isOld);
  }

  lemma BareCell(c: Column, tail: string, isOld: bool)
    requires Readable(c) && c.value.Bare?
    requires tail == "" || IsSpace(tail[0])
    ensures ReadColumns(SplitWhitespace(" " + (PrintItem(Cell(c)) + tail)), isOld)
         == [ReadBack(c, isOld)] + ReadColumns(SplitWhitespace(tail), isOld)
  {
    var text := c.value.text;
    Associate(PrintHead(c), text, tail);
    CellWords(c, text + tail);
    BareWord(text, tail);
    HeadFound(c, text);
    ReadBare(PrintHead(c) + text, SplitWhitespace(tail), c.name, text, isOld);
  }

  lemma BareWord(text: string, tail: string)
    requires NoSpace(text) && (tail == "" || IsSpace(tail[0]))
    ensures FirstWord(text + tail) == text && AfterWord(text + tail) == tail
  {
    FirstWordPrefix(text, tail);
    assert FirstWord(tail) == "" && text + "" == text;
  }

  lemma QuotedStart(c: Column, tail: string)
    requires Readable(c) && c.value.Quoted?
    ensures
      var s := DoubleQuotes(c.value.text) + "'" + tail;
      && SplitWhitespace(" " + (PrintItem(Cell(c)) + tail))
         == [PrintHead(c) + ("'" + FirstWord(s))] + SplitWhitespace(AfterWord(s))
      && ColumnHead(PrintHead(c) + ("'" + FirstWord(s))) == Some((c.name, "'" + FirstWord(s)))
      && !IsMarker(PrintHead(c) + ("'" + FirstWord(s)))
  {
    var d := DoubleQuotes(c.value.text);
    var s := d + "'" + tail;
    PrintedQuoted(PrintHead(c), d, tail);
    CellWords(c, "'" + s);
    FirstWordPrefix("'", s);
    HeadFound(c, "'" + FirstWord(s));
  }

  lemma PrintedQuoted(head: string, d: string, tail: string)
    ensures head + ("'" + d + "'") + tail == head + ("'" + (d + "'" + tail))
  {
  }

  /** A quoted value that does not end in a quote is read back, white space collapsed. */
  lemma QuotedCell(c: Column, tail: string, isOld: bool)
    requires Readable(c) && c.value.Quoted? && !EndsWithQuote(c.value.text)
    requires tail == "" || IsSpace(tail[0])
    ensures ReadColumns(SplitWhitespace(" " + (PrintItem(Cell(c)) + tail)), isOld)
         == [ReadBack(c, isOld)] + ReadColumns(SplitWhitespace(tail), isOld)
  {
    var v := c.value.text;
    var w, more := FirstWord(DoubleQuotes(v) + "'" + tail), SplitWhitespace(AfterWord(DoubleQuotes(v) + "'" + tail));
    QuotedStart(c, tail);
    ScanWhole(v, tail);
    UndoubleDouble(Collapse(v));
    ReadQuotedPart(PrintHead(c) + ("'" + w), more, c.name, w, DoubleQuotes(Collapse(v)), SplitWhitespace(tail), isOld);
  }

  lemma ScanWhole(v: string, tail: string)
    requires !EndsWithQuote(v)
    requires tail == "" || IsSpace(tail[0])
    ensures
      var s := DoubleQuotes(v) + "'" + tail;
      ReadQuoted(FirstWord(s), SplitWhitespace(AfterWord(s))) == (DoubleQuotes(Collapse(v)), SplitWhitespace(tail))
  {
    EmptyLeft(v);
    EmptyLeft(FirstWord(DoubleQuotes(v) + "'" + tail));
    EmptyLeft(DoubleQuotes(Collapse(v)));
    ScanReadsValue("", v, tail);
  }

  /** A quoted value that ends in a quote is read as something that does not. */
  lemma QuotedCellMisread(c: Column, tail: string, isOld: bool)
    requires Readable(c) && c.value.Quoted? && EndsWithQuote(c.value.text)
    ensures
      var read := ReadColumns(SplitWhitespace(" " + (PrintItem(Cell(c)) + tail)), isOld);
      read != [] && read[0] != ReadBack(c, isOld)
  {
    QuotedStart(c, tail);
    QuotedValueNeverEndsInQuote(SplitWhitespace(" " + (PrintItem(Cell(c)) + tail)), isOld);
    CollapseEndsWithQuote(c.value.text);
  }

  lemma {:induction false} CollapseEndsWithQuote(s: string)
    ensures EndsWithQuote(Collapse(s)) == EndsWithQuote(s)
    ensures Collapse(s) == "" <==> s == ""
    decreases |s|
  {
    if s != "" {
      CollapseEndsWithQuote(Remainder(s));
      EndsCons(Lead(s), Collapse(Remainder(s)));
      LastLead(s);
      if Remainder(s) != "" {
        RemainderEnds(s);
      }
    }
  }

  lemma RemainderEnds(s: string)
    requires s != "" && Remainder(s) != ""
    ensures EndsWithQuote(Remainder(s)) == EndsWithQuote(s)
  {
  }

  lemma {:induction false} SkipInert(parts: seq<string>, more: seq<string>, isOld: bool)
    requires forall i | 0 <= i < |parts| :: InertWord(parts[i])
    ensures ReadColumns(parts + more, isOld) == ReadColumns(more, isOld)
  {
    if parts == [] {
      assert parts + more == more;
    } else {
      assert (parts + more)[0] == parts[0] && (parts + more)[1..] == parts[1..] + more;
      assert InertWord(parts[0]);
      SkipInert(parts[1..], more, isOld);
    }
  }

  lemma ItemWords(text: string, tail: string)
    requires tail == "" || IsSpace(tail[0])
    ensures SplitWhitespace(" " + (text + tail)) == SplitWhitespace(text) + SplitWhitespace(tail)
  {
    assert (" " + (text + tail))[1..] == text + tail;
    WordsConcat("", text, tail);
  }

  lemma OneWord(text: string)
    requires text != "" && NoSpace(text)
    ensures SplitWhitespace(text) == [text]
  {
    WordsPrefix("", text, "");
    assert text + "" == text && "" + text == text;
  }

  lemma NoTupleDataIsInert()
    ensures NoSpace(NO_TUPLE_DATA) && InertWord(NO_TUPLE_DATA)
  {
    assert NO_TUPLE_DATA[0] == '(' && OLD_KEY[0] == 'o' && NEW_TUPLE[0] == 'n';
    assert forall i | 0 <= i < |NO_TUPLE_DATA| :: NO_TUPLE_DATA[i] != '[';
  }

  lemma MarkerItem(item: Item, tail: string, isOld: bool)
    requires !item.Cell?
    requires tail == "" || IsSpace(tail[0])
    ensures ReadColumns(SplitWhitespace(" " + (PrintItem(item) + tail)), isOld)
         == ReadColumns(SplitWhitespace(tail), SectionAfter(item, isOld))
  {
    var text := PrintItem(item);
    ItemWords(text, tail);
    NoTupleDataIsInert();
    MarkersDiffer();
    OneWord(text);
    var more := SplitWhitespace(tail);
    assert ([text] + more)[1..] == more;
    assert ReadOne([text] + more, isOld) == Turn([], more, SectionAfter(item, isOld));
  }

  lemma MarkersDiffer()
    ensures OLD_KEY != NEW_TUPLE && NoSpace(OLD_KEY) && NoSpace(NEW_TUPLE)
  {
    assert OLD_KEY[0] != NEW_TUPLE[0];
  }

  // ----- the round trip -----

  /** A marker, a readable column or a skipped one, with no quoted value that ends in a quote. */
  lemma ReadItem(item: Item, tail: string, isOld: bool)
    requires item.Cell? ==> Readable(item.column) || Inert(item.column)
    requires !EndsQuoted(item)
    requires tail == "" || IsSpace(tail[0])
    ensures ReadColumns(SplitWhitespace(" " + (PrintItem(item) + tail)), isOld)
         == Taken(item, isOld) + ReadColumns(SplitWhitespace(tail), SectionAfter(item, isOld))
  {
    if !item.Cell? {
      MarkerItem(item, tail, isOld);
    } else if !Readable(item.column) {
      ItemWords(PrintItem(item), tail);
      SkipInert(SplitWhitespace(PrintItem(item)), SplitWhitespace(tail), isOld);
    } else if item.column.value.Bare? {
      BareCell(item.column, tail, isOld);
    } else {
      QuotedCell(item.column, tail, isOld);
    }
  }

  lemma PredicatesCons(items: seq<Item>)
    requires items != []
    ensures Faithful(items) <==> !EndsQuoted(items[0]) && Faithful(items[1..])
    ensures WellFormed(items) ==>
        WellFormed(items[1..]) && (items[0].Cell? ==> Readable(items[0].column) || Inert(items[0].column))
  {
    assert forall i | 1 <= i < |items| :: items[i] == items[1..][i - 1];
  }

  lemma PrintCons(items: seq<Item>)
    requires items != []
    ensures PrintItems(items) == " " + (PrintItem(items[0]) + PrintItems(items[1..]))
  {
    Associate(" ", PrintItem(items[0]), PrintItems(items[1..]));
  }

  /**
   Reading what was printed: when every column is readable or skipped, the reader
   reports exactly the readable columns, with their names, order and sections and
   with white space runs collapsed, if and only if no readable quoted value ends in
   a quote.
   */
  lemma {:induction false} ReadPrinted(items: seq<Item>, isOld: bool)
    requires WellFormed(items)
    ensures ReadColumns(SplitWhitespace(PrintItems(items)), isOld) == Expected(items, isOld) <==> Faithful(items)
  {
    if items != [] {
      var item, tail := items[0], PrintItems(items[1..]);
      PrintCons(items);
      PredicatesCons(items);
      if EndsQuoted(item) {
        QuotedCellMisread(item.column, tail, isOld);
        assert Expected(items, isOld)[0] == ReadBack(item.column, isOld);
      } else {
        ReadItem(item, tail, isOld);
        ReadPrinted(items[1..], SectionAfter(item, isOld));
        SameAfter(Taken(item, isOld), ReadColumns(SplitWhitespace(tail), SectionAfter(item, isOld)),
                  Expected(items[1..], SectionAfter(item, isOld)));
      }
    }
  }
}

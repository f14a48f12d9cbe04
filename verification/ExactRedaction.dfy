/**
 Exactly when redaction hides a value of an INSERT: where in the line's columns the
 value comes to stand, and what then becomes of it.
 */
module ExactRedaction {
  import opened Options
  import opened Seqs
  import opened Text
  import opened Json
  import opened ChangeLine
  import opened TestDecoding
  import opened LineRoundTrip
  import opened ReaderState
  import opened Sensitive
  import opened WalEvent
  import opened RedactedLines

  // ----- where a value lands -----

  /** The reader's state after the printed columns of an INSERT. */
  function RowState(columns: seq<Column>): Reading {
    After(Cells(columns), Start(false))
  }

  /** The reader can be followed through the whole row. */
  predicate Followed(columns: seq<Column>) {
    Tracked(Cells(columns), Start(false))
  }

  /** What is read of the columns that follow, with nothing open in front of them. */
  function RestOf(columns: seq<Column>): seq<ParsedColumn> {
    ReadColumns(SplitWhitespace(PrintItems(Cells(columns))), false)
  }

  /** The column in which the value of `s` is reported when `before` stands in front of it. */
  function Landing(before: seq<Column>, s: Column): ParsedColumn {
    match RowState(before).pending
    case None => ReadBack(s, false)
    case Some(open) => ParsedColumn(open.name, UndoubleQuotes(Unclosed(open.held + " " + Shown(Cell(s)))), false)
  }

  /** `s` is read, alone or inside an open column, and nothing is open after it. */
  predicate Lands(before: seq<Column>, s: Column) {
    Followed(before + [s]) && Readable(s) && !LeftOpen(Cells(before + [s]))
  }

  lemma {:induction false} CellsConcat(a: seq<Column>, b: seq<Column>)
    ensures Cells(a + b) == Cells(a) + Cells(b)
  {
    if a == [] {
      assert a + b == b;
    } else {
      assert (a + b)[0] == a[0] && (a + b)[1..] == a[1..] + b;
      CellsConcat(a[1..], b);
    }
  }

  lemma {:induction false} CellsKeepNew(columns: seq<Column>, st: Reading)
    ensures After(Cells(columns), st).isOld == st.isOld
    decreases columns
  {
    if columns != [] {
      CellsKeepNew(columns[1..], Step(st, Cell(columns[0])));
    }
  }

  lemma StateSnoc(before: seq<Column>, s: Column)
    ensures Cells(before + [s]) == Cells(before) + [Cell(s)]
    ensures RowState(before + [s]) == Step(RowState(before), Cell(s))
    ensures Followed(before + [s]) <==> Followed(before) && Follows(RowState(before), Cell(s))
    ensures !RowState(before).isOld
  {
    CellsConcat(before, [s]);
    assert [s][1..] == [] && [Cell(s)][1..] == [];
    AfterConcat(Cells(before), [Cell(s)], Start(false));
    CellsKeepNew(before, Start(false));
  }

  /** The state after a value that lands: its column is the last one reported. */
  lemma LandedState(before: seq<Column>, s: Column)
    requires Lands(before, s)
    ensures RowState(before + [s]) == Reading(RowState(before).done + [Landing(before, s)], None, false)
  {
    var st := RowState(before);
    StateSnoc(before, s);
    OpenExactly(Cells(before + [s]), false);
    if st.pending.None? {
      StepOpens(st, Cell(s));
      FaithfulStep(Cell(s), st);
    }
  }

  /** The columns read of the whole line. */
  lemma RowIsRead(schema: string, table: string, before: seq<Column>, s: Column, after: seq<Column>)
    requires PlainTable(schema, table) && Lands(before, s)
    ensures ParseChangeLine(PrintLine(schema, table, Insert(Some(before + [s] + after))))
         == Some(Change("INSERT", schema, table, RowState(before).done + [Landing(before, s)] + RestOf(after)))
  {
    LandedState(before, s);
    CellsConcat(before + [s], after);
    ReadFrom(Cells(before + [s]), Cells(after), false);
    LineHead(schema, table, Insert(Some(before + [s] + after)));
  }

  /** The line of an INSERT, taken apart at one of its columns. */
  function InsertLine(schema: string, table: string, before: seq<Column>, s: Column, after: seq<Column>): string {
    PrintLine(schema, table, Insert(Some(before + [s] + after)))
  }

  // ----- what becomes of it -----

  /**
   The exact law of two runs: for any values of a column that land, in any row, two
   INSERTs give one event if and only if, under the name the value landed at, a later
   column replaces it, a redacted column covers it, or the two cells are the same.
   */
  lemma EventsAgreeExactly(
      parse: JsonParser, registry: Registry, schema: string, table: string,
      before: seq<Column>, s1: Column, s2: Column, after: seq<Column>, from: Origin)
    requires PlainTable(schema, table) && Lands(before, s1) && Lands(before, s2) && s1.name == s2.name
    ensures
      var x, y := Landing(before, s1), Landing(before, s2);
      EventsOf(parse, registry, InsertLine(schema, table, before, s1, after), from)
        == EventsOf(parse, registry, InsertLine(schema, table, before, s2, after), from)
      <==> HasColumn(RestOf(after), x.name) || CellValue(parse, x) == CellValue(parse, y)
           || CoversName(registry, schema, table, RowState(before).done + [x] + RestOf(after), x.name)
  {
    var l1, l2 := InsertLine(schema, table, before, s1, after), InsertLine(schema, table, before, s2, after);
    RowIsRead(schema, table, before, s1, after);
    RowIsRead(schema, table, before, s2, after);
    LinesDecide(parse, registry, l1, l2, RowState(before).done, Landing(before, s1), Landing(before, s2),
                RestOf(after), from);
  }

  lemma LinesDecide(
      parse: JsonParser, registry: Registry, l1: string, l2: string,
      done: seq<ParsedColumn>, x: ParsedColumn, y: ParsedColumn, rest: seq<ParsedColumn>, from: Origin)
    requires ParseChangeLine(l1).Some? && ParseChangeLine(l2).Some? && x.name == y.name
    requires
      var c1, c2 := ParseChangeLine(l1).value, ParseChangeLine(l2).value;
      && c1.command == "INSERT" == c2.command && c1.schema == c2.schema && c1.table == c2.table
      && c1.columns == done + [x] + rest && c2.columns == done + [y] + rest
    ensures
      var c1 := ParseChangeLine(l1).value;
      EventsOf(parse, registry, l1, from) == EventsOf(parse, registry, l2, from)
      <==> HasColumn(rest, x.name) || CellValue(parse, x) == CellValue(parse, y)
           || CoversName(registry, c1.schema, c1.table, c1.columns, x.name)
  {
    TableLinesStartWithTable(l1);
    TableLinesStartWithTable(l2);
    var c1, c2 := ParseChangeLine(l1).value, ParseChangeLine(l2).value;
    OneValueDecides(parse, registry, c1, c2, done, x, y, rest, from);
  }

  /** A value that starts a word lands after every row the reader can be followed through. */
  lemma WordsLand(before: seq<Column>, s: Column)
    requires Followed(before) && Readable(s) && StartsAWord(s.value)
    ensures Lands(before, s)
  {
    StateSnoc(before, s);
    OpenExactly(Cells(before), false);
    assert (Cells(before) + [Cell(s)])[|Cells(before)|] == Cell(s);
  }

  /**
   What the value landed in is shown as text: it is not the column `data`, no later
   column has its name, nothing redacted covers it, and it is no JSON object or array.
   */
  predicate ShownAsText(
      parse: JsonParser, registry: Registry, schema: string, table: string,
      before: seq<Column>, s: Column, after: seq<Column>)
  {
    var x := Landing(before, s);
    && x.name != "data" && !HasColumn(RestOf(after), x.name) && !HoldsParts(parse, x.value)
    && !CoversName(registry, schema, table, RowState(before).done + [x] + RestOf(after), x.name)
  }

  /**
   Redaction of an INSERT is exact: two values of a redacted field give one event if
   and only if no column is open in front of it, or they are the same value up to runs
   of white space.
   */
  lemma RedactionIsExact(
      parse: JsonParser, registry: Registry, schema: string, table: string,
      before: seq<Column>, s1: Column, s2: Column, after: seq<Column>, from: Origin)
    requires PlainTable(schema, table) && Followed(before)
    requires Readable(s1) && StartsAWord(s1.value) && Readable(s2) && StartsAWord(s2.value)
    requires s1.name == s2.name && s1.typ == s2.typ
    requires !HasPathPrefix(s1.name) && Verdict(registry, schema, table, s1.name) == Some(true)
    requires LeftOpen(Cells(before)) ==>
               && ShownAsText(parse, registry, schema, table, before, s1, after)
               && ShownAsText(parse, registry, schema, table, before, s2, after)
    ensures
      EventsOf(parse, registry, InsertLine(schema, table, before, s1, after), from)
        == EventsOf(parse, registry, InsertLine(schema, table, before, s2, after), from)
      <==> !LeftOpen(Cells(before)) || Collapse(s1.value.text) == Collapse(s2.value.text)
  {
    WordsLand(before, s1);
    WordsLand(before, s2);
    OpenExactly(Cells(before), false);
    EventsAgreeExactly(parse, registry, schema, table, before, s1, s2, after, from);
    if LeftOpen(Cells(before)) {
      CarriedCells(parse, before, s1, s2);
    } else {
      OwnNameCovers(registry, schema, table, RowState(before).done, Landing(before, s1), RestOf(after));
    }
  }

  /** Inside an open column two values give one cell exactly when they are read as the same text. */
  lemma CarriedCells(parse: JsonParser, before: seq<Column>, s1: Column, s2: Column)
    requires RowState(before).pending.Some? && StartsAWord(s1.value) && StartsAWord(s2.value)
    requires s1.name == s2.name && s1.typ == s2.typ && Landing(before, s1).name != "data"
    requires !HoldsParts(parse, Landing(before, s1).value)
    ensures CellValue(parse, Landing(before, s1)) == CellValue(parse, Landing(before, s2))
       <==> Collapse(s1.value.text) == Collapse(s2.value.text)
  {
    var open := RowState(before).pending.value;
    CarriedValue(open, s1);
    CarriedValue(open, s2);
    assert Carried(open, s1) == Carried(open, s2);
    SameAfter(Carried(open, s1), Collapse(s1.value.text), Collapse(s2.value.text));
    SameCell(parse, Landing(before, s1), Landing(before, s2));
  }

  lemma OwnNameCovers(
      registry: Registry, schema: string, table: string,
      done: seq<ParsedColumn>, x: ParsedColumn, rest: seq<ParsedColumn>)
    requires !HasPathPrefix(x.name) && Verdict(registry, schema, table, x.name) == Some(true)
    ensures CoversName(registry, schema, table, done + [x] + rest, x.name)
  {
    TrimPathHasNoPrefix(x.name);
    assert (done + [x] + rest)[|done|] == x;
  }

  function WithValue(name: string, typ: string, text: string): Column {
    Column(name, typ, Quoted(text))
  }

  /** The event is the same for every value of the field that starts a word. */
  ghost predicate TellsNothing(
      parse: JsonParser, registry: Registry, schema: string, table: string,
      before: seq<Column>, name: string, typ: string, after: seq<Column>, from: Origin)
  {
    forall v: string, w: string | StartsAWord(Quoted(v)) && StartsAWord(Quoted(w)) ::
      EventsOf(parse, registry, InsertLine(schema, table, before, WithValue(name, typ, v), after), from)
        == EventsOf(parse, registry, InsertLine(schema, table, before, WithValue(name, typ, w), after), from)
  }

  /**
   For a redacted field the event tells nothing of the value if and only if no column
   is open in front of it.
   */
  lemma HiddenExactlyWhenClosed(
      parse: JsonParser, registry: Registry, schema: string, table: string,
      before: seq<Column>, name: string, typ: string, after: seq<Column>, from: Origin)
    requires PlainTable(schema, table) && Followed(before)
    requires NoSpace(name) && '[' !in name && NoSpace(typ) && ':' !in typ
    requires !HasPathPrefix(name) && Verdict(registry, schema, table, name) == Some(true)
    requires LeftOpen(Cells(before)) ==>
               && ShownAsText(parse, registry, schema, table, before, WithValue(name, typ, "a"), after)
               && ShownAsText(parse, registry, schema, table, before, WithValue(name, typ, "b"), after)
    ensures TellsNothing(parse, registry, schema, table, before, name, typ, after, from) <==> !LeftOpen(Cells(before))
  {
    if LeftOpen(Cells(before)) {
      var a, b := WithValue(name, typ, "a"), WithValue(name, typ, "b");
      TwoWords();
      RedactionIsExact(parse, registry, schema, table, before, a, b, after, from);
      assert StartsAWord(Quoted("a")) && StartsAWord(Quoted("b"));
    } else {
      forall v: string, w: string | StartsAWord(Quoted(v)) && StartsAWord(Quoted(w))
        ensures EventsOf(parse, registry, InsertLine(schema, table, before, WithValue(name, typ, v), after), from)
             == EventsOf(parse, registry, InsertLine(schema, table, before, WithValue(name, typ, w), after), from)
      {
        RedactionIsExact(parse, registry, schema, table, before,
                         WithValue(name, typ, v), WithValue(name, typ, w), after, from);
      }
    }
  }

  lemma TwoWords()
    ensures StartsAWord(Quoted("a")) && StartsAWord(Quoted("b")) && Collapse("a") != Collapse("b")
  {
    assert Collapse("a")[0] == 'a' && Collapse("b")[0] == 'b';
  }

  // ----- one open column -----

  /** The one column read from a value that ends in a quote and the column after it. */
  function CarriedColumn(a: Column, next: Column): ParsedColumn {
    ParsedColumn(a.name, Carried(Pending(a.name, Held(a.value.text)), next) + Collapse(next.value.text), false)
  }

  /** A readable value that ends in a quote, in front of a readable one that starts with a word. */
  predicate Carries(a: Column, next: Column) {
    && Readable(a) && a.value.Quoted? && EndsWithQuote(a.value.text)
    && Readable(next) && StartsAWord(next.value)
  }

  lemma OpenedState(a: Column)
    requires Readable(a) && a.value.Quoted? && EndsWithQuote(a.value.text)
    ensures Followed([a]) && LeftOpen(Cells([a]))
    ensures RowState([a]) == Reading([], Some(Pending(a.name, Held(a.value.text))), false)
  {
    StateSnoc([], a);
    assert [] + [a] == [a];
    OpensAfterQuote(a, false);
    OpenExactly(Cells([a]), false);
  }

  lemma CarriedLanding(a: Column, next: Column)
    requires Carries(a, next)
    ensures Lands([a], next) && Landing([a], next) == CarriedColumn(a, next)
    ensures Followed([a]) && LeftOpen(Cells([a])) && RowState([a]).done == [] && RestOf([]) == []
  {
    OpenedState(a);
    WordsLand([a], next);
    CarriedValue(Pending(a.name, Held(a.value.text)), next);
  }

  /** The event of such a row shows the next column's value under the name of the first. */
  lemma CarriedEvent(
      parse: JsonParser, registry: Registry, schema: string, table: string, a: Column, next: Column, from: Origin)
    requires PlainTable(schema, table) && Carries(a, next)
    requires Verdict(registry, schema, table, a.name) != Some(true)
    ensures
      var events := EventsOf(parse, registry, PrintLine(schema, table, Insert(Some([a, next]))), from);
      && events.Some? && |events.value| == 1
      && At(At(At(events.value[0], "detail"), "new_data"), a.name) == CellValue(parse, CarriedColumn(a, next))
  {
    CarriedLine(schema, table, a, next);
    OneColumnEvent(parse, registry, PrintLine(schema, table, Insert(Some([a, next]))),
                   Change("INSERT", schema, table, [CarriedColumn(a, next)]), CarriedColumn(a, next), from);
  }

  lemma CarriedLine(schema: string, table: string, a: Column, next: Column)
    requires PlainTable(schema, table) && Carries(a, next)
    ensures ParseChangeLine(PrintLine(schema, table, Insert(Some([a, next]))))
         == Some(Change("INSERT", schema, table, [CarriedColumn(a, next)]))
  {
    CarriedLanding(a, next);
    LandsAlone(schema, table, [a], next, CarriedColumn(a, next));
    TwoAsRow(schema, table, a, next);
  }

  lemma LandsAlone(schema: string, table: string, before: seq<Column>, s: Column, x: ParsedColumn)
    requires PlainTable(schema, table) && Lands(before, s) && Landing(before, s) == x
    requires RowState(before).done == [] && RestOf([]) == []
    ensures ParseChangeLine(InsertLine(schema, table, before, s, [])) == Some(Change("INSERT", schema, table, [x]))
  {
    RowIsRead(schema, table, before, s, []);
    assert [] + [x] + [] == [x];
  }

  /** An INSERT read as one column that is not redacted shows that column. */
  lemma OneColumnEvent(
      parse: JsonParser, registry: Registry, line: string, change: Change, c: ParsedColumn, from: Origin)
    requires ParseChangeLine(line) == Some(change) && change.command == "INSERT" && change.columns == [c]
    requires Verdict(registry, change.schema, change.table, c.name) != Some(true)
    ensures
      var events := EventsOf(parse, registry, line, from);
      && events.Some? && |events.value| == 1
      && At(At(At(events.value[0], "detail"), "new_data"), c.name) == CellValue(parse, c)
  {
    var docs := Documents(None, Some(ToDocument(parse, [c])));
    EventOfLine(parse, registry, line, change, docs, from);
    OneColumnKept(parse, registry, change, c);
    EventShows(registry, change, docs, from);
  }

  lemma OneColumnKept(parse: JsonParser, registry: Registry, change: Change, c: ParsedColumn)
    requires Verdict(registry, change.schema, change.table, c.name) != Some(true)
    ensures
      var doc := ToDocument(parse, [c]);
      var out := Redacted(doc, MatchesOf(registry, change, Documents(None, Some(doc))));
      At(out, c.name) == CellValue(parse, c)
  {
    var doc := ToDocument(parse, [c]);
    var docs := Documents(None, Some(doc));
    OneColumnDocument(parse, c);
    assert forall f <- ChangedFields(docs) :: f == c.name;
    RedactionCoverage(registry, change, docs, doc, c.name);
  }

  /**
   The condition that no value ends in a quote cannot be dropped from
   `PrintedRedaction`: for two INSERTs of such a value and a redacted field after it,
   all its other conditions hold, and yet the events agree only if the hidden values do.
   */
  lemma QuoteShowsHiddenValue(
      parse: JsonParser, registry: Registry, schema: string, table: string,
      a: Column, s1: Column, s2: Column, from: Origin)
    requires PlainTable(schema, table) && Carries(a, s1) && Carries(a, s2)
    requires s1.name == s2.name && s1.typ == s2.typ
    requires !HasPathPrefix(s1.name) && Verdict(registry, schema, table, s1.name) == Some(true)
    requires a.name != "data" && Verdict(registry, schema, table, a.name) != Some(true)
    requires !HoldsParts(parse, CarriedColumn(a, s1).value) && !HoldsParts(parse, CarriedColumn(a, s2).value)
    ensures
      var r1, r2 := Insert(Some([a, s1])), Insert(Some([a, s2]));
      && WellFormed(Items(r1)) && WellFormed(Items(r2)) && RowsSameBut(r1, r2, s1.name)
      && Hidden(registry, schema, table, RowDocuments(parse, r1), s1.name)
      && Hidden(registry, schema, table, RowDocuments(parse, r2), s1.name)
      && (EventsOf(parse, registry, PrintLine(schema, table, r1), from)
            == EventsOf(parse, registry, PrintLine(schema, table, r2), from)
          <==> Collapse(s1.value.text) == Collapse(s2.value.text))
  {
    RowHides(parse, registry, schema, table, a, s1);
    RowHides(parse, registry, schema, table, a, s2);
    OneValueDiffers(a, s1, s2);
    CarriedEventsAgree(parse, registry, schema, table, a, s1, s2, from);
  }

  lemma CarriedEventsAgree(
      parse: JsonParser, registry: Registry, schema: string, table: string,
      a: Column, s1: Column, s2: Column, from: Origin)
    requires PlainTable(schema, table) && Carries(a, s1) && Carries(a, s2)
    requires s1.name == s2.name && s1.typ == s2.typ
    requires !HasPathPrefix(s1.name) && Verdict(registry, schema, table, s1.name) == Some(true)
    requires a.name != "data" && Verdict(registry, schema, table, a.name) != Some(true)
    requires !HoldsParts(parse, CarriedColumn(a, s1).value) && !HoldsParts(parse, CarriedColumn(a, s2).value)
    ensures
      EventsOf(parse, registry, PrintLine(schema, table, Insert(Some([a, s1]))), from)
        == EventsOf(parse, registry, PrintLine(schema, table, Insert(Some([a, s2]))), from)
      <==> Collapse(s1.value.text) == Collapse(s2.value.text)
  {
    CarriedIsShown(parse, registry, schema, table, a, s1);
    CarriedIsShown(parse, registry, schema, table, a, s2);
    OpenedState(a);
    TwoAsRow(schema, table, a, s1);
    TwoAsRow(schema, table, a, s2);
    RedactionIsExact(parse, registry, schema, table, [a], s1, s2, [], from);
  }

  lemma TwoAsRow(schema: string, table: string, a: Column, s: Column)
    ensures InsertLine(schema, table, [a], s, []) == PrintLine(schema, table, Insert(Some([a, s])))
  {
    assert [a] + [s] + [] == [a, s];
  }

  lemma CarriedIsShown(
      parse: JsonParser, registry: Registry, schema: string, table: string, a: Column, s: Column)
    requires Carries(a, s) && a.name != "data" && Verdict(registry, schema, table, a.name) != Some(true)
    requires !HoldsParts(parse, CarriedColumn(a, s).value)
    ensures ShownAsText(parse, registry, schema, table, [a], s, [])
  {
    CarriedLanding(a, s);
    assert [] + [CarriedColumn(a, s)] + [] == [CarriedColumn(a, s)];
  }

  lemma OneValueDiffers(a: Column, s1: Column, s2: Column)
    requires Readable(s1) && Readable(s2) && s1.name == s2.name
    ensures RowsSameBut(Insert(Some([a, s1])), Insert(Some([a, s2])), s1.name)
  {
    assert CellsSameBut([a, s1], [a, s2], s1.name);
  }

  lemma TwoReadable(a: Column, s: Column)
    requires Readable(a) && Readable(s)
    ensures ReadTuple([a, s], false) == [ReadBack(a, false), ReadBack(s, false)]
    ensures Cells([a, s]) == [Cell(a), Cell(s)]
  {
    assert [a, s][1..] == [s] && [s][1..] == [];
    assert Cells([s]) == [Cell(s)] + Cells([]);
    assert ReadTuple([s], false) == [ReadBack(s, false)] + ReadTuple([], false);
  }

  lemma RowHides(
      parse: JsonParser, registry: Registry, schema: string, table: string, a: Column, s: Column)
    requires Readable(a) && Readable(s)
    requires !HasPathPrefix(s.name) && Verdict(registry, schema, table, s.name) == Some(true)
    ensures
      var r := Insert(Some([a, s]));
      WellFormed(Items(r)) && Hidden(registry, schema, table, RowDocuments(parse, r), s.name)
  {
    TwoReadable(a, s);
    var read := ReadTuple([a, s], false);
    DocumentKeys(parse, read);
    assert read[1].name == s.name;
  }

  // ----- several values, and anything after them -----

  /** The items are the same, or two readable columns of the field with nothing open in front and after them. */
  predicate DifferClear(st: Reading, x: Item, y: Item, field: string) {
    x == y
    || (x.Cell? && y.Cell? && x.column.name == field == y.column.name && Readable(x.column) && Readable(y.column)
        && st.pending.None? && !EndsQuoted(x) && !EndsQuoted(y))
  }

  predicate ClearBut(a: seq<Item>, b: seq<Item>, st: Reading, field: string)
    decreases a
  {
    |a| == |b| &&
    (a == [] || (DifferClear(st, a[0], b[0], field) && Follows(st, a[0])
                 && ClearBut(a[1..], b[1..], Step(st, a[0]), field)))
  }

  lemma StepSameBut(x: Item, y: Item, st1: Reading, st2: Reading, field: string)
    requires StatesSameBut(st1, st2, field) && DifferClear(st1, x, y, field) && Follows(st1, x)
    ensures Follows(st2, y) && StatesSameBut(Step(st1, x), Step(st2, y), field)
  {
    if x == y {
      SameStep(x, st1, st2, field);
    } else {
      FaithfulStep(x, st1);
      FaithfulStep(y, st2);
      SameButConcat(st1.done, st2.done, Taken(x, st1.isOld), Taken(y, st2.isOld), field);
    }
  }

  /** The same item adds the same columns. */
  lemma SameStep(x: Item, st1: Reading, st2: Reading, field: string)
    requires StatesSameBut(st1, st2, field)
    ensures StatesSameBut(Step(st1, x), Step(st2, x), field)
  {
    match st1.pending
    case Some(p) => SettleSameBut(st1, st2, p.name, p.held + " " + Shown(x), field);
    case None =>
      if x.Cell? && x.column.value.Bare? {
        var made := [ReadBack(x.column, st1.isOld)];
        SameButConcat(st1.done, st2.done, made, made, field);
      } else if x.Cell? {
        SettleSameBut(st1, st2, x.column.name, Held(x.column.value.text), field);
      }
  }

  lemma SettleSameBut(st1: Reading, st2: Reading, name: string, held: string, field: string)
    requires StatesSameBut(st1, st2, field)
    ensures StatesSameBut(Settle(st1, name, held), Settle(st2, name, held), field)
  {
    if Closes(held) {
      var made := [ParsedColumn(name, UndoubleQuotes(Unclosed(held)), st1.isOld)];
      SameButConcat(st1.done, st2.done, made, made, field);
    }
  }

  lemma {:induction false} ClearStates(a: seq<Item>, b: seq<Item>, st1: Reading, st2: Reading, field: string)
    requires StatesSameBut(st1, st2, field) && ClearBut(a, b, st1, field)
    ensures Tracked(a, st1) && Tracked(b, st2)
    ensures StatesSameBut(After(a, st1), After(b, st2), field)
    decreases a
  {
    if a != [] {
      StepSameBut(a[0], b[0], st1, st2, field);
      ClearStates(a[1..], b[1..], Step(st1, a[0]), Step(st2, b[0]), field);
    }
  }

  /**
   Two INSERTs that differ in values of a redacted field, with nothing open in front of
   them, give the same event whatever columns stand after them.
   */
  lemma InsertRedaction(
      parse: JsonParser, registry: Registry, schema: string, table: string,
      r1: seq<Column>, r2: seq<Column>, after: seq<Column>, field: string, from: Origin)
    requires PlainTable(schema, table) && ClearBut(Cells(r1), Cells(r2), Start(false), field)
    requires HasColumn(RowState(r1).done, field)
    requires !HasPathPrefix(field) && Verdict(registry, schema, table, field) == Some(true)
    ensures EventsOf(parse, registry, PrintLine(schema, table, Insert(Some(r1 + after))), from)
         == EventsOf(parse, registry, PrintLine(schema, table, Insert(Some(r2 + after))), from)
  {
    ClearStates(Cells(r1), Cells(r2), Start(false), Start(false), field);
    CellsConcat(r1, after);
    CellsConcat(r2, after);
    var i :| 0 <= i < |RowState(r1).done| && RowState(r1).done[i].name == field;
    assert RowState(r2).done[i].name == field;
    FrontHides(parse, registry, schema, table, r1, after, field);
    FrontHides(parse, registry, schema, table, r2, after, field);
    FrontsDecide(parse, registry, schema, table, Insert(Some(r1 + after)), Insert(Some(r2 + after)),
                 Cells(r1), Cells(r2), Cells(after), field, from);
  }

  lemma FrontHides(
      parse: JsonParser, registry: Registry, schema: string, table: string,
      r: seq<Column>, after: seq<Column>, field: string)
    requires PlainTable(schema, table) && Followed(r) && HasColumn(RowState(r).done, field)
    requires !HasPathPrefix(field) && Verdict(registry, schema, table, field) == Some(true)
    ensures HiddenInLine(parse, registry, PrintLine(schema, table, Insert(Some(r + after))), field)
  {
    var line := PrintLine(schema, table, Insert(Some(r + after)));
    CellsConcat(r, after);
    ReadFrom(Cells(r), Cells(after), false);
    LineHead(schema, table, Insert(Some(r + after)));
    var change := ParseChangeLine(line).value;
    DoneStaysNamed(RowState(r), SplitWhitespace(PrintItems(Cells(after))), field);
    OneDocumentHidesAll(parse, registry, line, change, field);
  }

  lemma DoneStaysNamed(st: Reading, parts: seq<string>, field: string)
    requires HasColumn(st.done, field)
    ensures HasColumn(Report(st, parts), field)
  {
    var i :| 0 <= i < |st.done| && st.done[i].name == field;
    assert Report(st, parts)[i] == st.done[i];
  }
}

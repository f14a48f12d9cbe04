/**
 End-to-end redaction: from the row change the database prints to the event the
 forwarder sends on.
 */
module RedactedLines {
  import opened Options
  import opened Seqs
  import opened Text
  import opened Json
  import opened ChangeLine
  import opened TestDecoding
  import opened LineRoundTrip
  import opened ReaderState
  import opened Sensitive
  import opened WalEvent

  /** The documents a row change is meant to become. */
  function RowDocuments(parse: JsonParser, change: RowChange): Documents {
    match change
    case Insert(t) => Documents(None, Some(ToDocument(parse, ReadTuple(Columns(t), false))))
    case Delete(t) => Documents(Some(ToDocument(parse, ReadTuple(Columns(t), false))), None)
    case Update(k, t) =>
      var key := ReadTuple(Columns(k), true);
      Documents(if key == [] then None else Some(ToDocument(parse, key)),
                Some(ToDocument(parse, ReadTuple(Columns(t), false))))
  }

  /** The event names its origin and its fields, and holds the documents, redacted for `matches`. */
  predicate Shows(
      event: Json, command: string, schema: string, table: string, docs: Documents,
      matches: seq<SensitiveMatch>, from: Origin)
  {
    && SaysChange(event, command, schema, table, ChangedFields(docs), matches, from)
    && At(At(event, "detail"), "old_data") == OrNull(RedactedOption(docs.before, matches))
    && At(At(event, "detail"), "new_data") == OrNull(RedactedOption(docs.after, matches))
  }

  /**
   From row to event: a printed change yields one event that names its command,
   schema and table and shows its old and new documents, redacted for the fields
   that differ between them.
   */
  lemma PrintedChangeEvent(
      parse: JsonParser, registry: Registry, schema: string, table: string, change: RowChange, from: Origin)
    requires Printable(schema, table, change)
    ensures
      var events := EventsOf(parse, registry, PrintLine(schema, table, change), from);
      var docs := RowDocuments(parse, change);
      var matches := Detected(registry, schema, table, ChangedFields(docs));
      && events.Some? && |events.value| == 1
      && Shows(events.value[0], Command(change), schema, table, docs, matches, from)
  {
    var line := PrintLine(schema, table, change);
    PrintedDocuments(parse, schema, table, change);
    EventOfLine(parse, registry, line, ParseChangeLine(line).value, RowDocuments(parse, change), from);
    EventShows(registry, ParseChangeLine(line).value, RowDocuments(parse, change), from);
  }

  lemma PrintedDocuments(parse: JsonParser, schema: string, table: string, change: RowChange)
    requires Printable(schema, table, change)
    ensures
      var read := ParseChangeLine(PrintLine(schema, table, change));
      && read.Some? && read.value.command == Command(change)
      && read.value.schema == schema && read.value.table == table
      && DocumentsOf(parse, read.value) == Some(RowDocuments(parse, change))
  {
    SplitRoundTrip(schema, table, change);
    LineHead(schema, table, change);
    ReadDocuments(parse, ParseChangeLine(PrintLine(schema, table, change)).value, change);
  }

  lemma ReadDocuments(parse: JsonParser, read: Change, change: RowChange)
    requires read.command == Command(change)
    requires read.columns == ReadTuple(OldColumns(change), true) + ReadTuple(NewColumns(change), false)
    requires Section(read.columns, true) == ReadTuple(OldColumns(change), true)
    requires Section(read.columns, false) == ReadTuple(NewColumns(change), false)
    ensures DocumentsOf(parse, read) == Some(RowDocuments(parse, change))
  {
    CommandsDiffer();
    if !change.Update? {
      assert read.columns == ReadTuple(NewColumns(change), false);
    }
  }

  lemma CommandsDiffer()
    ensures "INSERT" != "UPDATE" && "INSERT" != "DELETE" && "UPDATE" != "DELETE"
  {
    assert "INSERT"[0] == 'I' && "UPDATE"[0] == 'U' && "DELETE"[0] == 'D';
  }

  lemma EventShows(registry: Registry, change: Change, docs: Documents, from: Origin)
    ensures
      var event, matches := EventOfDocuments(registry, change, docs, from), MatchesOf(registry, change, docs);
      Shows(event, change.command, change.schema, change.table, docs, matches, from)
  {
    var matches := MatchesOf(registry, change, docs);
    EventSays(change, RedactedDocuments(docs, matches), ChangedFields(docs), matches, from);
    EventDocuments(change, RedactedDocuments(docs, matches), ChangedFields(docs), matches, from);
  }

  lemma EventDocuments(
      change: Change, docs: Documents, fields: seq<string>, matches: seq<SensitiveMatch>, from: Origin)
    ensures
      var detail := At(BuildEvent(change, docs, fields, matches, from), "detail");
      At(detail, "old_data") == OrNull(docs.before) && At(detail, "new_data") == OrNull(docs.after)
  {
    EventNulls(change, docs, fields, matches, from);
  }

  /**
   What an INSERT shows under a name, from the row and the configuration alone: the
   literal mark if a redacted column trims to the name, else the cell of the last
   column of that name.
   */
  lemma InsertShows(
      parse: JsonParser, registry: Registry, schema: string, table: string, t: Tuple, i: nat, from: Origin)
    requires Printable(schema, table, Insert(t)) && LastNamed(ReadTuple(Columns(t), false), i)
    ensures
      var read := ReadTuple(Columns(t), false);
      var events := EventsOf(parse, registry, PrintLine(schema, table, Insert(t)), from);
      && events.Some? && |events.value| == 1
      && var shown := At(At(At(events.value[0], "detail"), "new_data"), read[i].name);
         if CoversName(registry, schema, table, read, read[i].name) then shown == String("[REDACTED]")
         else IsCell(parse, read[i].name, read[i].value, shown)
  {
    var read := ReadTuple(Columns(t), false);
    var change := Change("INSERT", schema, table, read);
    var docs := RowDocuments(parse, Insert(t));
    PrintedChangeEvent(parse, registry, schema, table, Insert(t), from);
    DocumentExact(parse, read, i);
    CellIs(parse, read[i]);
    CoversExactly(parse, registry, change, read[i].name);
    KeyShown(parse, registry, change, read[i].name);
  }

  lemma KeyShown(parse: JsonParser, registry: Registry, change: Change, name: string)
    requires change.command == "INSERT" && name in DocumentFields(parse, change.columns)
    ensures
      var doc := ToDocument(parse, change.columns);
      var matches := MatchesOf(registry, change, Documents(None, Some(doc)));
      At(Redacted(doc, matches), name) == if Redacts(matches, name) then String("[REDACTED]") else doc.fields[name]
  {
  }

  /**
   A field that some configured name names, at any place in the list, is shown as the
   literal mark by every printable INSERT that has it.
   */
  lemma ConfiguredIsRedacted(
      parse: JsonParser, registry: Registry, schema: string, table: string, t: Tuple, i: nat, from: Origin)
    requires Printable(schema, table, Insert(t)) && LastNamed(ReadTuple(Columns(t), false), i)
    requires !("$." <= ReadTuple(Columns(t), false)[i].name)
    requires Configured(registry.globalFields, ReadTuple(Columns(t), false)[i].name)
    ensures
      var name := ReadTuple(Columns(t), false)[i].name;
      var events := EventsOf(parse, registry, PrintLine(schema, table, Insert(t)), from);
      && events.Some? && |events.value| == 1
      && At(At(At(events.value[0], "detail"), "new_data"), name) == String("[REDACTED]")
  {
    var name := ReadTuple(Columns(t), false)[i].name;
    PrefixIs(name);
    TrimPathHasNoPrefix(name);
    VerdictIs(registry, schema, table, name);
    InsertShows(parse, registry, schema, table, t, i, from);
  }

  /** A `data` column that parses, and that nothing redacted covers, is shown as the parsed value. */
  lemma DataIsShown(
      parse: JsonParser, registry: Registry, schema: string, table: string, t: Tuple, i: nat, from: Origin)
    requires Printable(schema, table, Insert(t)) && LastNamed(ReadTuple(Columns(t), false), i)
    requires
      var read := ReadTuple(Columns(t), false);
      && read[i].name == "data" && read[i].value != "null" && parse(read[i].value).Some?
      && !CoversName(registry, schema, table, read, "data")
    ensures
      var events := EventsOf(parse, registry, PrintLine(schema, table, Insert(t)), from);
      && events.Some? && |events.value| == 1
      && At(At(At(events.value[0], "detail"), "new_data"), "data") == parse(ReadTuple(Columns(t), false)[i].value).value
  {
    InsertShows(parse, registry, schema, table, t, i, from);
  }

  /** A line of any other command, such as TRUNCATE, yields no event. */
  lemma OtherCommandYieldsNothing(
      parse: JsonParser, registry: Registry, schema: string, table: string, cmd: string, p: string, from: Origin)
    requires PlainTable(schema, table) && PlainCommand(cmd)
    requires cmd != "INSERT" && cmd != "UPDATE" && cmd != "DELETE"
    ensures EventsOf(parse, registry, "table " + (schema + "." + table) + (": " + cmd + ":") + p, from) == None
  {
    OtherCommandIsRead(schema, table, cmd, p);
    EventsExactly(parse, registry, "table " + (schema + "." + table) + (": " + cmd + ":") + p, from);
  }

  /** Two tuples that agree but for the value of the columns called `field`. */
  predicate CellsSameBut(a: seq<Column>, b: seq<Column>, field: string) {
    |a| == |b| && forall i | 0 <= i < |a| ::
      a[i] == b[i] || (a[i].name == field && b[i].name == field && Readable(a[i]) && Readable(b[i]))
  }

  predicate RowsSameBut(a: RowChange, b: RowChange, field: string) {
    && Command(a) == Command(b)
    && CellsSameBut(OldColumns(a), OldColumns(b), field)
    && CellsSameBut(NewColumns(a), NewColumns(b), field)
  }

  predicate Printable(schema: string, table: string, change: RowChange) {
    PlainTable(schema, table) && WellFormed(Items(change)) && Faithful(Items(change))
  }

  lemma CellsTail(a: seq<Column>, b: seq<Column>, field: string)
    requires CellsSameBut(a, b, field) && a != []
    ensures CellsSameBut(a[1..], b[1..], field)
  {
  }

  lemma {:induction false} ReadTupleSameBut(a: seq<Column>, b: seq<Column>, field: string, isOld: bool)
    requires CellsSameBut(a, b, field)
    ensures ColumnsSameBut(ReadTuple(a, isOld), ReadTuple(b, isOld), field)
  {
    if a != [] {
      CellsTail(a, b, field);
      ReadTupleSameBut(a[1..], b[1..], field, isOld);
      var x := if Readable(a[0]) then [ReadBack(a[0], isOld)] else [];
      var y := if Readable(b[0]) then [ReadBack(b[0], isOld)] else [];
      SameButConcat(x, y, ReadTuple(a[1..], isOld), ReadTuple(b[1..], isOld), field);
    }
  }

  lemma ReadColumnsSameBut(r1: RowChange, r2: RowChange, field: string)
    requires RowsSameBut(r1, r2, field)
    ensures ColumnsSameBut(ReadTuple(OldColumns(r1), true) + ReadTuple(NewColumns(r1), false),
                           ReadTuple(OldColumns(r2), true) + ReadTuple(NewColumns(r2), false), field)
  {
    ReadTupleSameBut(OldColumns(r1), OldColumns(r2), field, true);
    ReadTupleSameBut(NewColumns(r1), NewColumns(r2), field, false);
    SameButConcat(ReadTuple(OldColumns(r1), true), ReadTuple(OldColumns(r2), true),
                  ReadTuple(NewColumns(r1), false), ReadTuple(NewColumns(r2), false), field);
  }

  /** Two states of the reader that agree but for the values reported under `field`. */
  predicate StatesSameBut(a: Reading, b: Reading, field: string) {
    ColumnsSameBut(a.done, b.done, field) && a.pending == b.pending && a.isOld == b.isOld
  }

  lemma ReportSameBut(a: Reading, b: Reading, parts: seq<string>, field: string)
    requires StatesSameBut(a, b, field)
    ensures ColumnsSameBut(Report(a, parts), Report(b, parts), field)
  {
    match a.pending
    case None => SameButConcat(a.done, b.done, ReadColumns(parts, a.isOld), ReadColumns(parts, a.isOld), field);
    case Some(p) =>
      var (raw, rest) := ReadQuoted(p.held, parts);
      var made := [ParsedColumn(p.name, UndoubleQuotes(raw), a.isOld)];
      SameButConcat(a.done, b.done, made, made, field);
      SameButConcat(a.done + made, b.done + made, ReadColumns(rest, a.isOld), ReadColumns(rest, a.isOld), field);
  }

  /**
   Two lines whose fronts bring the reader to states that agree but for the values of
   a field hidden in both give the same events, whatever stands after those fronts.
   */
  lemma FrontsDecide(
      parse: JsonParser, registry: Registry, schema: string, table: string, r1: RowChange, r2: RowChange,
      front1: seq<Item>, front2: seq<Item>, rest: seq<Item>, field: string, from: Origin)
    requires PlainTable(schema, table) && Command(r1) == Command(r2)
    requires Items(r1) == front1 + rest && Items(r2) == front2 + rest
    requires Tracked(front1, Start(false)) && Tracked(front2, Start(false))
    requires StatesSameBut(After(front1, Start(false)), After(front2, Start(false)), field)
    requires HiddenInLine(parse, registry, PrintLine(schema, table, r1), field)
    requires HiddenInLine(parse, registry, PrintLine(schema, table, r2), field)
    ensures EventsOf(parse, registry, PrintLine(schema, table, r1), from)
         == EventsOf(parse, registry, PrintLine(schema, table, r2), from)
  {
    ReadFrom(front1, rest, false);
    ReadFrom(front2, rest, false);
    ReportSameBut(After(front1, Start(false)), After(front2, Start(false)), SplitWhitespace(PrintItems(rest)), field);
    LineHead(schema, table, r1);
    LineHead(schema, table, r2);
    HiddenLinesAgree(parse, registry, PrintLine(schema, table, r1), PrintLine(schema, table, r2), field, from);
  }

  /**
   Two printable row changes that differ only in the value of a field hidden in both
   give the same events: nothing about that value leaves the forwarder.
   */
  lemma PrintedRedaction(
      parse: JsonParser, registry: Registry, schema: string, table: string,
      r1: RowChange, r2: RowChange, field: string, from: Origin)
    requires Printable(schema, table, r1) && Printable(schema, table, r2)
    requires RowsSameBut(r1, r2, field)
    requires Hidden(registry, schema, table, RowDocuments(parse, r1), field)
    requires Hidden(registry, schema, table, RowDocuments(parse, r2), field)
    ensures EventsOf(parse, registry, PrintLine(schema, table, r1), from)
         == EventsOf(parse, registry, PrintLine(schema, table, r2), from)
  {
    PrintedHides(parse, registry, schema, table, r1, field);
    PrintedHides(parse, registry, schema, table, r2, field);
    PrintableStates(r1, r2, field);
    StatesDecide(parse, registry, schema, table, r1, r2, Items(r1), Items(r2), field, from);
  }

  /** The fronts can be the whole lines. */
  lemma StatesDecide(
      parse: JsonParser, registry: Registry, schema: string, table: string, r1: RowChange, r2: RowChange,
      items1: seq<Item>, items2: seq<Item>, field: string, from: Origin)
    requires PlainTable(schema, table) && Command(r1) == Command(r2)
    requires Items(r1) == items1 && Items(r2) == items2
    requires Tracked(items1, Start(false)) && Tracked(items2, Start(false))
    requires StatesSameBut(After(items1, Start(false)), After(items2, Start(false)), field)
    requires HiddenInLine(parse, registry, PrintLine(schema, table, r1), field)
    requires HiddenInLine(parse, registry, PrintLine(schema, table, r2), field)
    ensures EventsOf(parse, registry, PrintLine(schema, table, r1), from)
         == EventsOf(parse, registry, PrintLine(schema, table, r2), from)
  {
    assert items1 + [] == items1 && items2 + [] == items2;
    FrontsDecide(parse, registry, schema, table, r1, r2, items1, items2, [], field, from);
  }

  /** What is hidden in a printable row is hidden in its line. */
  lemma PrintedHides(
      parse: JsonParser, registry: Registry, schema: string, table: string, change: RowChange, field: string)
    requires Printable(schema, table, change)
    requires Hidden(registry, schema, table, RowDocuments(parse, change), field)
    ensures HiddenInLine(parse, registry, PrintLine(schema, table, change), field)
  {
    PrintedDocuments(parse, schema, table, change);
  }

  lemma PrintableStates(r1: RowChange, r2: RowChange, field: string)
    requires WellFormed(Items(r1)) && Faithful(Items(r1)) && WellFormed(Items(r2)) && Faithful(Items(r2))
    requires RowsSameBut(r1, r2, field)
    ensures Tracked(Items(r1), Start(false)) && Tracked(Items(r2), Start(false))
    ensures StatesSameBut(After(Items(r1), Start(false)), After(Items(r2), Start(false)), field)
  {
    PrintableState(r1);
    PrintableState(r2);
    ReadColumnsSameBut(r1, r2, field);
  }

  lemma PrintableState(change: RowChange)
    requires WellFormed(Items(change)) && Faithful(Items(change))
    ensures Tracked(Items(change), Start(false))
    ensures After(Items(change), Start(false))
         == Reading(ReadTuple(OldColumns(change), true) + ReadTuple(NewColumns(change), false), None, false)
  {
    FaithfulIsTracked(Items(change), Start(false));
    ExpectedColumns(change);
    EmptyLeft(Expected(Items(change), false));
    EndsInNew(change);
  }

  lemma {:induction false} CellsKeepSection(columns: seq<Column>, isOld: bool)
    ensures SectionAfterAll(Cells(columns), isOld) == isOld
  {
    if columns != [] {
      CellsKeepSection(columns[1..], isOld);
    }
  }

  lemma {:induction false} SectionConcat(a: seq<Item>, b: seq<Item>, isOld: bool)
    ensures SectionAfterAll(a + b, isOld) == SectionAfterAll(b, SectionAfterAll(a, isOld))
  {
    if a == [] {
      assert a + b == b;
    } else {
      assert (a + b)[0] == a[0] && (a + b)[1..] == a[1..] + b;
      SectionConcat(a[1..], b, SectionAfter(a[0], isOld));
    }
  }

  lemma TupleKeepsNew(t: Tuple)
    ensures SectionAfterAll(TupleItems(t), false) == false
  {
    if t.Some? {
      CellsKeepSection(t.value, false);
    }
  }

  /** Every printed change ends in the new section. */
  lemma EndsInNew(change: RowChange)
    ensures SectionAfterAll(Items(change), false) == false
  {
    match change
    case Insert(t) => TupleKeepsNew(t);
    case Delete(t) => TupleKeepsNew(t);
    case Update(None, t) => TupleKeepsNew(t);
    case Update(Some(key), t) =>
      SectionConcat([OldKey] + Cells(key) + [NewTuple], TupleItems(t), false);
      SectionConcat([OldKey] + Cells(key), [NewTuple], false);
      assert [NewTuple][1..] == [];
      TupleKeepsNew(t);
  }

  /**
   When a change carries one document only (an INSERT, a DELETE, or an UPDATE
   printed without its old key), every column of it counts as changed, so a field
   is hidden exactly when it is there, the registry redacts it and its name does
   not start with `$.`.
   */
  lemma OneDocumentHidesAll(parse: JsonParser, registry: Registry, line: string, change: Change, field: string)
    requires ParseChangeLine(line) == Some(change)
    requires
      || change.command in {"INSERT", "DELETE"}
      || (change.command == "UPDATE" && Section(change.columns, true) == [])
    ensures
      var columns := if change.command == "UPDATE" then Section(change.columns, false) else change.columns;
      HiddenInLine(parse, registry, line, field)
      <==> HasColumn(columns, field) && !HasPathPrefix(field)
           && Verdict(registry, change.schema, change.table, field) == Some(true)
  {
    var columns := if change.command == "UPDATE" then Section(change.columns, false) else change.columns;
    DocumentKeys(parse, columns);
    var docs := DocumentsOf(parse, change).value;
    assert ChangedFields(docs) == AllFields(ToDocument(parse, columns));
    assert field in ChangedFields(docs) <==> field in DocumentFields(parse, columns);
  }
}

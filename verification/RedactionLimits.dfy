/**
 Where redaction ends: words of a value read as columns, and changes an UPDATE does
 not show.
 */
module RedactionLimits {
  import opened Options
  import opened Seqs
  import opened Text
  import opened Json
  import opened ChangeLine
  import opened TestDecoding
  import opened LineRoundTrip
  import opened MisreadColumns
  import opened ReaderState
  import opened Sensitive
  import opened WalEvent
  import opened RedactedLines
  import opened ExactRedaction

  // ----- words of a value -----

  /**
   A column whose type holds a blank can stand for another: a word of its value with
   `[` and then `:` is read as a column of its own. In the document its text replaces
   that of every column of its name before it, and holds exactly when no column read
   after it has that name.
   */
  lemma ValueWordOverwrites(
      parse: JsonParser, schema: string, table: string, before: seq<Column>,
      c: Column, t1: string, t2: string, u: string, word: string, w: string, after: seq<Column>)
    requires PlainTable(schema, table) && WellFormed(Cells(before)) && Faithful(Cells(before))
    requires AloneInValue(c, t1, t2, u, word, w) && !IsMarker(word) && ColumnHead(word).Some?
    ensures
      var read := ParseChangeLine(PrintLine(schema, table, Insert(Some(before + [c] + after))));
      var made := ParsedColumn(ColumnHead(word).value.0, ColumnHead(word).value.1, false);
      && read == Some(Change("INSERT", schema, table, ReadTuple(before, false) + [made] + RestOf(after)))
      && DocumentFields(parse, read.value.columns)
           == DocumentFields(parse, ReadTuple(before, false))[made.name := CellValue(parse, made)]
              + DocumentFields(parse, RestOf(after))
      && (LastNamed(read.value.columns, |ReadTuple(before, false)|) <==> !HasColumn(RestOf(after), made.name))
  {
    var made := ParsedColumn(ColumnHead(word).value.0, ColumnHead(word).value.1, false);
    WordsOfRow(before, c, t1, t2, u, word, w, after);
    LineHead(schema, table, Insert(Some(before + [c] + after)));
    DocumentAround(parse, ReadTuple(before, false), made, RestOf(after));
    LastIfNotNamedAgain(ReadTuple(before, false), made, RestOf(after));
  }

  lemma LastIfNotNamedAgain(done: seq<ParsedColumn>, made: ParsedColumn, rest: seq<ParsedColumn>)
    ensures LastNamed(done + [made] + rest, |done|) <==> !HasColumn(rest, made.name)
  {
    var all := done + [made] + rest;
    assert all[|done|] == made;
    assert forall i | 0 <= i < |rest| :: all[|done| + 1 + i] == rest[i];
    assert forall j | |done| < j < |all| :: all[j] == rest[j - |done| - 1];
  }

  lemma WordsOfRow(
      before: seq<Column>, c: Column, t1: string, t2: string, u: string, word: string, w: string, after: seq<Column>)
    requires WellFormed(Cells(before)) && Faithful(Cells(before))
    requires AloneInValue(c, t1, t2, u, word, w) && !IsMarker(word) && ColumnHead(word).Some?
    ensures ReadColumns(SplitWhitespace(PrintItems(Cells(before + [c] + after))), false)
         == ReadTuple(before, false) + [ParsedColumn(ColumnHead(word).value.0, ColumnHead(word).value.1, false)]
            + RestOf(after)
  {
    var made := ParsedColumn(ColumnHead(word).value.0, ColumnHead(word).value.1, false);
    Associate(before, [c], after);
    CellsConcat(before, [c] + after);
    assert ([c] + after)[1..] == after;
    ReadsOn(Cells(before), [Cell(c)] + Cells(after), false);
    CellsKeepSection(before, false);
    ExpectedTuple(Some(before), false);
    WordOfCell(c, t1, t2, u, word, w, Cells(after));
    Associate(ReadTuple(before, false), [made], RestOf(after));
  }

  lemma WordOfCell(c: Column, t1: string, t2: string, u: string, word: string, w: string, more: seq<Item>)
    requires AloneInValue(c, t1, t2, u, word, w) && !IsMarker(word) && ColumnHead(word).Some?
    ensures ReadColumns(SplitWhitespace(PrintItems([Cell(c)] + more)), false)
         == [ParsedColumn(ColumnHead(word).value.0, ColumnHead(word).value.1, false)]
            + ReadColumns(SplitWhitespace(PrintItems(more)), false)
  {
    PrintCons([Cell(c)] + more);
    assert ([Cell(c)] + more)[1..] == more;
    SpacedTypeValueWord(c, t1, t2, u, word, w, PrintItems(more), false);
  }

  /**
   An entry for a name with a blank in it never redacts its column: the INSERT shows the
   value under the part of the name behind the blank, if that part is not redacted.
   */
  lemma SpacedNameIsNotCovered(
      parse: JsonParser, registry: Registry, schema: string, table: string,
      c: Column, n1: string, n2: string, from: Origin)
    requires PlainTable(schema, table)
    requires c.name == n1 + " " + n2 && AllInert(SplitWhitespace(n1))
    requires Readable(c.(name := n2)) && !EndsQuoted(Cell(c.(name := n2)))
    requires Verdict(registry, schema, table, n2) != Some(true)
    ensures
      var events := EventsOf(parse, registry, PrintLine(schema, table, Insert(Some([c]))), from);
      && events.Some? && |events.value| == 1
      && At(At(At(events.value[0], "detail"), "new_data"), n2) == CellValue(parse, ReadBack(c.(name := n2), false))
  {
    var line := PrintLine(schema, table, Insert(Some([c])));
    SpacedNameRow(c, n1, n2);
    LineHead(schema, table, Insert(Some([c])));
    OneColumnEvent(parse, registry, line, ParseChangeLine(line).value, ReadBack(c.(name := n2), false), from);
  }

  lemma SpacedNameRow(c: Column, n1: string, n2: string)
    requires c.name == n1 + " " + n2 && AllInert(SplitWhitespace(n1))
    requires Readable(c.(name := n2)) && !EndsQuoted(Cell(c.(name := n2)))
    ensures ReadColumns(SplitWhitespace(PrintItems(Cells([c]))), false) == [ReadBack(c.(name := n2), false)]
  {
    assert Cells([c]) == [Cell(c)] + Cells([]) && [Cell(c)][1..] == [];
    PrintCons([Cell(c)]);
    SpacedNameIsCut(c, n1, n2, "", false);
    ReadItem(Cell(c.(name := n2)), "", false);
    assert ReadColumns(SplitWhitespace(""), false) == [];
  }

  // ----- changes an UPDATE does not show -----

  /**
   A column of an UPDATE counts as changed exactly when its last texts as read differ
   and are not one JSON object or array: a NULL and the text `null`, or two texts that
   differ only in runs of white space, are no change.
   */
  lemma PrintedFieldChanged(parse: JsonParser, change: RowChange, i: nat, j: nat)
    requires change.Update?
    requires LastNamed(ReadTuple(OldColumns(change), true), i) && LastNamed(ReadTuple(NewColumns(change), false), j)
    requires ReadTuple(OldColumns(change), true)[i].name == ReadTuple(NewColumns(change), false)[j].name
    ensures
      var o, n := ReadTuple(OldColumns(change), true)[i], ReadTuple(NewColumns(change), false)[j];
      && (o.name in ChangedFields(RowDocuments(parse, change)) <==> CellValue(parse, o) != CellValue(parse, n))
      && (o.name != "data" ==>
            (CellValue(parse, o) == CellValue(parse, n)
             <==> o.value == n.value
                  || (HoldsParts(parse, o.value) && HoldsParts(parse, n.value) && parse(o.value) == parse(n.value))))
  {
    var olds, news := ReadTuple(OldColumns(change), true), ReadTuple(NewColumns(change), false);
    DocumentExact(parse, olds, i);
    DocumentExact(parse, news, j);
    DiffExact(DocumentFields(parse, olds), DocumentFields(parse, news));
    if olds[i].name != "data" {
      SameCell(parse, olds[i], news[j]);
    }
  }

  predicate NoPrefixedAlias(columns: seq<ParsedColumn>, name: string) {
    forall c <- columns | HasPathPrefix(c.name) :: TrimPath(c.name) != name
  }

  /** Such a column reaches the event as it is, in both documents, whatever the registry says. */
  lemma UnseenChangeIsShown(
      parse: JsonParser, registry: Registry, schema: string, table: string,
      change: RowChange, i: nat, j: nat, from: Origin)
    requires Printable(schema, table, change) && change.Update?
    requires LastNamed(ReadTuple(OldColumns(change), true), i) && LastNamed(ReadTuple(NewColumns(change), false), j)
    requires
      var o, n := ReadTuple(OldColumns(change), true)[i], ReadTuple(NewColumns(change), false)[j];
      && o.name == n.name && CellValue(parse, o) == CellValue(parse, n)
      && NoPrefixedAlias(ReadTuple(OldColumns(change), true), n.name)
      && NoPrefixedAlias(ReadTuple(NewColumns(change), false), n.name)
    ensures
      var n := ReadTuple(NewColumns(change), false)[j];
      var events := EventsOf(parse, registry, PrintLine(schema, table, change), from);
      && events.Some? && |events.value| == 1
      && At(At(At(events.value[0], "detail"), "old_data"), n.name) == CellValue(parse, n)
      && At(At(At(events.value[0], "detail"), "new_data"), n.name) == CellValue(parse, n)
  {
    var olds, news := ReadTuple(OldColumns(change), true), ReadTuple(NewColumns(change), false);
    PrintedChangeEvent(parse, registry, schema, table, change, from);
    DocumentExact(parse, olds, i);
    DocumentExact(parse, news, j);
    NoPrefixedKey(parse, olds, news[j].name);
    NoPrefixedKey(parse, news, news[j].name);
    UnchangedFieldIsNotCovered(registry, Change("UPDATE", schema, table, []), DocumentFields(parse, olds),
                               DocumentFields(parse, news), news[j].name);
  }

  lemma NoPrefixedKey(parse: JsonParser, columns: seq<ParsedColumn>, name: string)
    requires NoPrefixedAlias(columns, name)
    ensures forall k | k in DocumentFields(parse, columns) && HasPathPrefix(k) :: TrimPath(k) != name
  {
    DocumentKeys(parse, columns);
  }

  /** From NULL to the text `null`, and back, nothing has changed, so nothing is redacted. */
  lemma NullAndItsTextAreOne(parse: JsonParser, name: string, t1: string, t2: string)
    requires NoSpace(name) && '[' !in name && NoSpace(t1) && ':' !in t1 && NoSpace(t2) && ':' !in t2
    ensures
      var bare, quoted := Column(name, t1, Bare("null")), Column(name, t2, Quoted("null"));
      && ChangedFields(RowDocuments(parse, Update(Some([bare]), Some([quoted])))) == []
      && ChangedFields(RowDocuments(parse, Update(Some([quoted]), Some([bare])))) == []
  {
    var bare, quoted := Column(name, t1, Bare("null")), Column(name, t2, Quoted("null"));
    NullIsOneWord();
    NullTuple(parse, bare);
    NullTuple(parse, quoted);
    SameDocumentsSameFields(parse, bare, quoted);
    SameDocumentsSameFields(parse, quoted, bare);
  }

  lemma NullIsOneWord()
    ensures Collapse("null") == "null" && NoSpace("null") && !("'" <= "null")
  {
    assert "null"[0] == 'n';
    WordIsNotCollapsed("null");
  }

  lemma WordIsNotCollapsed(s: string)
    requires NoSpace(s)
    ensures Collapse(s) == s
  {
    CollapseIsIdentity(s);
  }

  lemma SameDocumentsSameFields(parse: JsonParser, before: Column, after: Column)
    requires ReadTuple([before], true) != []
    requires ToDocument(parse, ReadTuple([before], true)) == ToDocument(parse, ReadTuple([after], false))
    ensures ChangedFields(RowDocuments(parse, Update(Some([before]), Some([after])))) == []
  {
    var m := DocumentFields(parse, ReadTuple([before], true));
    DiffLaws(m, m);
  }

  lemma NullTuple(parse: JsonParser, c: Column)
    requires Readable(c) && c.value.text == "null" == Collapse("null")
    ensures forall isOld: bool ::
      |ReadTuple([c], isOld)| == 1 && ToDocument(parse, ReadTuple([c], isOld)) == Object(map[c.name := Null])
  {
    OneColumnTuple(c);
    forall isOld: bool
      ensures |ReadTuple([c], isOld)| == 1
      ensures ToDocument(parse, ReadTuple([c], isOld)) == Object(map[c.name := Null])
    {
      OneColumnDocument(parse, ReadBack(c, isOld));
    }
  }

  lemma OneColumnTuple(c: Column)
    requires Readable(c)
    ensures forall isOld: bool :: ReadTuple([c], isOld) == [ReadBack(c, isOld)]
  {
    assert [c][1..] == [];
  }
}

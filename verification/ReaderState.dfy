/**
 The reader as a state machine over printed items: what it has reported, and the
 column whose quoted text it still holds open. The state after a row says how the
 rest of the line is read, whatever the rest is.
 */
module ReaderState {
  import opened Options
  import opened Seqs
  import opened Text
  import opened ChangeLine
  import opened TestDecoding

  /** A column whose text has not closed: its name and the doubled text so far. */
  datatype Pending = Pending(name: string, held: string)

  datatype Reading = Reading(done: seq<ParsedColumn>, pending: Option<Pending>, isOld: bool)

  function Start(isOld: bool): Reading {
    Reading([], None, isOld)
  }

  // ----- one item -----

  /** A quoted value as the reader holds it. */
  function Held(text: string): string {
    DoubleQuotes(Collapse(text)) + "'"
  }

  /** An item as it stands in a text that has taken it in. */
  function Shown(item: Item): string {
    match item
    case Cell(c) => PrintHead(c) + (if c.value.Quoted? then "'" + Held(c.value.text) else c.value.text)
    case _ => PrintItem(item)
  }

  function Unclosed(held: string): string
    requires held != ""
  {
    held[..|held| - 1]
  }

  /** The column `name` has come to the text `held`: it is reported if the text closes. */
  function Settle(st: Reading, name: string, held: string): Reading {
    if Closes(held)
    then Reading(st.done + [ParsedColumn(name, UndoubleQuotes(Unclosed(held)), st.isOld)], None, st.isOld)
    else Reading(st.done, Some(Pending(name, held)), st.isOld)
  }

  /** An open column takes the item in; otherwise a marker, a column or a skipped one is read. */
  function Step(st: Reading, item: Item): Reading {
    match st.pending
    case Some(p) => Settle(st, p.name, p.held + " " + Shown(item))
    case None =>
      if !item.Cell? then Reading(st.done, None, SectionAfter(item, st.isOld))
      else if !Readable(item.column) then st
      else if item.column.value.Bare? then Reading(st.done + [ReadBack(item.column, st.isOld)], None, st.isOld)
      else Settle(st, item.column.name, Held(item.column.value.text))
  }

  predicate StartsBlank(v: Value) {
    v.Quoted? && v.text != "" && IsSpace(v.text[0])
  }

  /** A readable column whose text, if quoted, does not start with white space. */
  predicate Tame(c: Column) {
    Readable(c) && !StartsBlank(c.value)
  }

  /** Outside a column any readable or skipped item can be followed; inside one, any tame item. */
  predicate Follows(st: Reading, item: Item) {
    item.Cell? ==>
      if st.pending.None? then Readable(item.column) || Inert(item.column) else Tame(item.column)
  }

  predicate Open(st: Reading) {
    st.pending.Some? ==> !Closes(st.pending.value.held)
  }

  /** What the reader reports when it has come to this state and the words `parts` are left. */
  function Report(st: Reading, parts: seq<string>): seq<ParsedColumn> {
    match st.pending
    case None => st.done + ReadColumns(parts, st.isOld)
    case Some(p) =>
      var (raw, rest) := ReadQuoted(p.held, parts);
      st.done + [ParsedColumn(p.name, UndoubleQuotes(raw), st.isOld)] + ReadColumns(rest, st.isOld)
  }

  lemma ScanAtBlank(acc: string, tail: string)
    requires tail == "" || IsSpace(tail[0])
    ensures Scan(acc, tail) == ReadQuoted(acc, SplitWhitespace(tail))
  {
    assert FirstWord(tail) == "" && AfterWord(tail) == tail && acc + "" == acc;
  }

  lemma ClosesAfter(read: string)
    ensures Closes(read + "'") <==> !EndsWithQuote(read)
    ensures Unclosed(read + "'") == read
  {
    assert (read + "'")[..|read|] == read;
  }

  /** A text that does not close takes in the next word, one blank before it. */
  lemma ScanToNext(held: string, word: string, rest: string)
    requires !Closes(held) && word != "" && NoSpace(word)
    ensures Scan(held, " " + (word + rest)) == Scan(held + " " + word, rest)
  {
    var s := " " + (word + rest);
    assert s[1..] == word + rest && !IsSpace((word + rest)[0]);
    assert DropSpaces(s) == word + rest;
    ScanSpaces(held, s);
    ScanStep(held + " ", word, rest);
  }

  lemma ItemInText(held: string, item: Item, tail: string)
    requires !Closes(held) && (item.Cell? ==> Tame(item.column))
    ensures Scan(held, " " + (PrintItem(item) + tail)) == Scan(held + " " + Shown(item), tail)
  {
    if item.Cell? && item.column.value.Quoted? {
      QuotedInText(held, item.column, tail);
    } else {
      OneWordItem(item);
      ScanToNext(held, PrintItem(item), tail);
    }
  }

  lemma OneWordItem(item: Item)
    requires item.Cell? ==> Readable(item.column) && item.column.value.Bare?
    ensures PrintItem(item) != "" && NoSpace(PrintItem(item))
    ensures Shown(item) == PrintItem(item)
  {
    if item.Cell? {
      BareIsOneWord(item.column);
    } else {
      NoTupleDataIsInert();
      MarkersDiffer();
    }
  }

  lemma BareIsOneWord(c: Column)
    requires Readable(c) && c.value.Bare?
    ensures NoSpace(PrintHead(c) + c.value.text)
  {
    assert NoSpace(PrintHead(c));
  }

  lemma QuotedParts(c: Column, tail: string)
    requires c.value.Quoted?
    ensures PrintItem(Cell(c)) + tail == PrintHead(c) + "'" + (DoubleQuotes(c.value.text) + "'" + tail)
  {
    PrintedQuoted(PrintHead(c), DoubleQuotes(c.value.text), tail);
    Associate(PrintHead(c), "'", DoubleQuotes(c.value.text) + "'" + tail);
  }

  lemma QuotedHeadIsWord(c: Column)
    requires Readable(c)
    ensures NoSpace(PrintHead(c) + "'")
  {
  }

  lemma QuotedInText(held: string, c: Column, tail: string)
    requires !Closes(held) && Tame(c) && c.value.Quoted?
    ensures Scan(held, " " + (PrintItem(Cell(c)) + tail)) == Scan(held + " " + Shown(Cell(c)), tail)
  {
    var h, v := PrintHead(c) + "'", c.value.text;
    var rest := DoubleQuotes(v) + "'" + tail;
    QuotedParts(c, tail);
    QuotedHeadIsWord(c);
    ScanToNext(held, h, rest);
    ScanPast(held + " " + h, v, tail);
    Regroup(held + " ", PrintHead(c), DoubleQuotes(Collapse(v)));
  }

  lemma Regroup(held: string, head: string, text: string)
    ensures held + (head + "'") + text + "'" == held + (head + ("'" + (text + "'")))
  {
  }

  lemma SettleLaw(st: Reading, name: string, held: string, parts: seq<string>)
    requires st.pending.None?
    ensures Report(Settle(st, name, held), parts) == Report(st.(pending := Some(Pending(name, held))), parts)
    ensures Open(Settle(st, name, held))
  {
  }

  /**
   Every quoted value, whatever follows it: the reader holds the value, white space
   collapsed, and its closing quote, and goes on with the words after it until the
   closing test holds. It holds at once exactly when the value does not end in a quote.
   */
  lemma QuotedReadsOn(c: Column, tail: string, isOld: bool)
    requires Readable(c) && c.value.Quoted?
    requires tail == "" || IsSpace(tail[0])
    ensures
      var (raw, rest) := ReadQuoted(Held(c.value.text), SplitWhitespace(tail));
      && ReadColumns(SplitWhitespace(" " + (PrintItem(Cell(c)) + tail)), isOld)
           == [ParsedColumn(c.name, UndoubleQuotes(raw), isOld)] + ReadColumns(rest, isOld)
      && (Closes(Held(c.value.text)) <==> !EndsWithQuote(c.value.text))
  {
    var v := c.value.text;
    var s := DoubleQuotes(v) + "'" + tail;
    var w, more := FirstWord(s), SplitWhitespace(AfterWord(s));
    var (raw, rest) := ReadQuoted(Held(v), SplitWhitespace(tail));
    QuotedStart(c, tail);
    HeldScan(v, tail);
    ReadQuotedPart(PrintHead(c) + ("'" + w), more, c.name, w, raw, rest, isOld);
    HeldCloses(v);
  }

  lemma HeldCloses(v: string)
    ensures Closes(Held(v)) <==> !EndsWithQuote(v)
  {
    HeldEndsWithQuote("", v);
    EmptyLeft(DoubleQuotes(Collapse(v)));
    ClosesAfter(DoubleQuotes(Collapse(v)));
  }

  lemma QuotedIsHeld(c: Column, tail: string, st: Reading)
    requires Readable(c) && c.value.Quoted? && st.pending.None?
    requires tail == "" || IsSpace(tail[0])
    ensures Report(st, SplitWhitespace(" " + (PrintItem(Cell(c)) + tail)))
         == Report(Settle(st, c.name, Held(c.value.text)), SplitWhitespace(tail))
  {
    var (raw, rest) := ReadQuoted(Held(c.value.text), SplitWhitespace(tail));
    QuotedReadsOn(c, tail, st.isOld);
    SettleLaw(st, c.name, Held(c.value.text), SplitWhitespace(tail));
    Associate(st.done, [ParsedColumn(c.name, UndoubleQuotes(raw), st.isOld)], ReadColumns(rest, st.isOld));
  }

  lemma HeldScan(v: string, tail: string)
    requires tail == "" || IsSpace(tail[0])
    ensures
      var s := DoubleQuotes(v) + "'" + tail;
      ReadQuoted(FirstWord(s), SplitWhitespace(AfterWord(s))) == ReadQuoted(Held(v), SplitWhitespace(tail))
  {
    EmptyLeft(FirstWord(DoubleQuotes(v) + "'" + tail));
    EmptyLeft(DoubleQuotes(Collapse(v)));
    ScanPast("", v, tail);
    ScanAtBlank(Held(v), tail);
  }

  lemma BareIsRead(c: Column, tail: string, st: Reading)
    requires Readable(c) && c.value.Bare? && st.pending.None?
    requires tail == "" || IsSpace(tail[0])
    ensures Report(st, SplitWhitespace(" " + (PrintItem(Cell(c)) + tail)))
         == Report(Step(st, Cell(c)), SplitWhitespace(tail))
  {
    BareCell(c, tail, st.isOld);
    Associate(st.done, [ReadBack(c, st.isOld)], ReadColumns(SplitWhitespace(tail), st.isOld));
  }

  lemma ItemIsTakenIn(item: Item, tail: string, st: Reading)
    requires st.pending.Some? && Open(st) && Follows(st, item)
    requires tail == "" || IsSpace(tail[0])
    ensures Report(st, SplitWhitespace(" " + (PrintItem(item) + tail)))
         == Report(Step(st, item), SplitWhitespace(tail))
  {
    var p := st.pending.value;
    ItemInWords(p.held, item, tail);
    SettleLaw(st.(pending := None), p.name, p.held + " " + Shown(item), SplitWhitespace(tail));
  }

  lemma ItemInWords(held: string, item: Item, tail: string)
    requires !Closes(held) && (item.Cell? ==> Tame(item.column))
    requires tail == "" || IsSpace(tail[0])
    ensures ReadQuoted(held, SplitWhitespace(" " + (PrintItem(item) + tail)))
         == ReadQuoted(held + " " + Shown(item), SplitWhitespace(tail))
  {
    ItemInText(held, item, tail);
    ScanAtBlank(held, " " + (PrintItem(item) + tail));
    ScanAtBlank(held + " " + Shown(item), tail);
  }

  /** One printed item: reading on from the state before it is reading on from the state after it. */
  lemma StepLaw(item: Item, tail: string, st: Reading)
    requires Open(st) && Follows(st, item)
    requires tail == "" || IsSpace(tail[0])
    ensures Report(st, SplitWhitespace(" " + (PrintItem(item) + tail)))
         == Report(Step(st, item), SplitWhitespace(tail))
    ensures Open(Step(st, item))
  {
    if st.pending.Some? {
      ItemIsTakenIn(item, tail, st);
    } else if !item.Cell? {
      MarkerItem(item, tail, st.isOld);
    } else if !Readable(item.column) {
      ItemWords(PrintItem(item), tail);
      SkipInert(SplitWhitespace(PrintItem(item)), SplitWhitespace(tail), st.isOld);
    } else if item.column.value.Bare? {
      BareIsRead(item.column, tail, st);
    } else {
      QuotedIsHeld(item.column, tail, st);
    }
  }

  /**
   A value that starts with white space closes an open column at its own opening quote:
   the column ends with this one's head, and the words of the value are read as if they
   stood between columns.
   */
  lemma BlankCloses(c: Column, tail: string, st: Reading)
    requires st.pending.Some? && Open(st) && Readable(c) && StartsBlank(c.value)
    requires tail == "" || IsSpace(tail[0])
    ensures
      var p := st.pending.value;
      Report(st, SplitWhitespace(" " + (PrintItem(Cell(c)) + tail)))
        == st.done + [ParsedColumn(p.name, UndoubleQuotes(p.held + " " + PrintHead(c)), st.isOld)]
           + ReadColumns(SplitWhitespace(DoubleQuotes(c.value.text) + "'") + SplitWhitespace(tail), st.isOld)
  {
    var p, d := st.pending.value, DoubleQuotes(c.value.text) + "'";
    HeadThenBlank(p.held, c, tail);
    ScanAtBlank(p.held, " " + (PrintItem(Cell(c)) + tail));
    ScanAtBlank(p.held + " " + PrintHead(c) + "'", d + tail);
    HeadEnds(p.held, c);
    ClosesAfter(p.held + " " + PrintHead(c));
    WordsConcat("", d, tail);
  }

  lemma HeadEnds(held: string, c: Column)
    ensures !EndsWithQuote(held + " " + PrintHead(c))
  {
    EndsAppend(held + " ", PrintHead(c));
  }

  lemma HeadThenBlank(held: string, c: Column, tail: string)
    requires !Closes(held) && Readable(c) && StartsBlank(c.value)
    ensures
      var rest := DoubleQuotes(c.value.text) + "'" + tail;
      && Scan(held, " " + (PrintItem(Cell(c)) + tail)) == Scan(held + " " + PrintHead(c) + "'", rest)
      && IsSpace(rest[0])
  {
    var h := PrintHead(c) + "'";
    QuotedParts(c, tail);
    QuotedHeadIsWord(c);
    ScanToNext(held, h, DoubleQuotes(c.value.text) + "'" + tail);
    Associate(held + " ", PrintHead(c), "'");
    BlankFirst(c.value.text, tail);
  }

  lemma BlankFirst(v: string, tail: string)
    requires v != "" && IsSpace(v[0])
    ensures IsSpace((DoubleQuotes(v) + "'" + tail)[0])
  {
    DoubleBlank(v);
  }

  // ----- many items -----

  function After(items: seq<Item>, st: Reading): Reading
    decreases items
  {
    if items == [] then st else After(items[1..], Step(st, items[0]))
  }

  /** Every item can be followed from the state the ones before it lead to. */
  predicate Tracked(items: seq<Item>, st: Reading)
    decreases items
  {
    items == [] || (Follows(st, items[0]) && Tracked(items[1..], Step(st, items[0])))
  }

  /**
   The state law: whatever stands after the items, the line is read as the rest of
   it is read from the state the items lead to.
   */
  lemma {:induction false} StateLaw(items: seq<Item>, tail: string, st: Reading)
    requires Open(st) && Tracked(items, st)
    requires tail == "" || IsSpace(tail[0])
    ensures Report(st, SplitWhitespace(PrintItems(items) + tail)) == Report(After(items, st), SplitWhitespace(tail))
    ensures Open(After(items, st))
    decreases items
  {
    if items == [] {
      assert PrintItems(items) + tail == tail;
    } else {
      var more := PrintItems(items[1..]) + tail;
      PrintCons(items);
      assert PrintItems(items) + tail == " " + (PrintItem(items[0]) + more);
      StepLaw(items[0], more, st);
      StateLaw(items[1..], tail, Step(st, items[0]));
    }
  }

  lemma {:induction false} AfterConcat(a: seq<Item>, b: seq<Item>, st: Reading)
    ensures After(a + b, st) == After(b, After(a, st))
    ensures Tracked(a + b, st) <==> Tracked(a, st) && Tracked(b, After(a, st))
    decreases a
  {
    if a == [] {
      assert a + b == b;
    } else {
      assert (a + b)[0] == a[0] && (a + b)[1..] == a[1..] + b;
      AfterConcat(a[1..], b, Step(st, a[0]));
    }
  }

  // ----- the end of the line -----

  /**
   A column still open at the end of the line is reported without the quotes it ends
   in: its value is the undoubled rest of the held text.
   */
  lemma OpenAtEnd(st: Reading, text: string)
    requires st.pending.Some? && Open(st)
    requires
      var held := st.pending.value.held;
      text <= held && !EndsWithQuote(text) && forall i | |text| <= i < |held| :: held[i] == '\''
    ensures Report(st, []) == st.done + [ParsedColumn(st.pending.value.name, UndoubleQuotes(text), st.isOld)]
  {
    var held := st.pending.value.held;
    OneTrim(held, text, TrimEndQuotes(held));
    assert st.done + [ParsedColumn(st.pending.value.name, UndoubleQuotes(text), st.isOld)] + []
        == st.done + [ParsedColumn(st.pending.value.name, UndoubleQuotes(text), st.isOld)];
  }

  /** A text ends in one run of quotes only. */
  lemma OneTrim(held: string, a: string, b: string)
    requires a <= held && !EndsWithQuote(a) && forall i | |a| <= i < |held| :: held[i] == '\''
    requires b <= held && !EndsWithQuote(b) && forall i | |b| <= i < |held| :: held[i] == '\''
    ensures a == b
  {
    assert !(|a| < |b|);
    assert !(|b| < |a|);
  }

  lemma {:induction false} CollapseQuotes(t: string, n: nat)
    ensures Collapse(t + Quotes(n)) == Collapse(t) + Quotes(n)
    decreases |t|
  {
    if t == "" {
      assert t + Quotes(n) == Quotes(n) && Collapse(t) + Quotes(n) == Quotes(n);
      CollapseRun(n);
    } else {
      var s := t + Quotes(n);
      assert s[0] == t[0] && s[1..] == t[1..] + Quotes(n);
      DropSpacesAppend(t[1..], Quotes(n));
      assert Remainder(s) == Remainder(t) + Quotes(n);
      CollapseQuotes(Remainder(t), n);
      Associate([Lead(t)], Collapse(Remainder(t)), Quotes(n));
    }
  }

  lemma {:induction false} CollapseRun(n: nat)
    ensures Collapse(Quotes(n)) == Quotes(n)
  {
    if n > 0 {
      assert Quotes(n)[1..] == Quotes(n - 1);
      CollapseRun(n - 1);
      assert Quotes(n) == ['\''] + Quotes(n - 1);
    }
  }

  lemma {:induction false} DoubleRun(s: string, n: nat)
    ensures DoubleQuotes(s + Quotes(n)) == DoubleQuotes(s) + Quotes(2 * n)
  {
    if s == "" {
      assert s + Quotes(n) == Quotes(n) && DoubleQuotes(s) + Quotes(2 * n) == Quotes(2 * n);
      RunDoubled(n);
    } else {
      var d := DoubleQuotes([s[0]]);
      DoubleRun(s[1..], n);
      assert s + Quotes(n) == [s[0]] + (s[1..] + Quotes(n)) && s == [s[0]] + s[1..];
      DoubleCons(s[0], s[1..] + Quotes(n));
      DoubleCons(s[0], s[1..]);
      Associate(d, DoubleQuotes(s[1..]), Quotes(2 * n));
    }
  }

  lemma {:induction false} RunDoubled(n: nat)
    ensures DoubleQuotes(Quotes(n)) == Quotes(2 * n)
  {
    if n > 0 {
      RunDoubled(n - 1);
      assert Quotes(n)[1..] == Quotes(n - 1);
      assert Quotes(2 * n) == "''" + Quotes(2 * (n - 1));
    }
  }

  /**
   The last value of a line, when it ends in quotes: the reader runs out of words, and
   reports the value without any of them.
   */
  lemma LastValueLosesQuotes(c: Column, t: string, n: nat, isOld: bool)
    requires Readable(c) && c.value == Quoted(t + Quotes(n)) && n > 0 && !EndsWithQuote(t)
    ensures ReadColumns(SplitWhitespace(" " + PrintItem(Cell(c))), isOld)
         == [ParsedColumn(c.name, Collapse(t), isOld)]
  {
    var v, text := t + Quotes(n), DoubleQuotes(Collapse(t));
    assert v[|v| - 1] == '\'';
    LeftAtEnd(c, isOld);
    HeldRun(t, n);
    HeldCloses(v);
    NoQuoteBehind(t);
    OpenAtEnd(Reading([], Some(Pending(c.name, Held(v))), isOld), text);
    UndoubleDouble(Collapse(t));
    EmptyLeft([ParsedColumn(c.name, Collapse(t), isOld)]);
  }

  lemma NoQuoteBehind(t: string)
    requires !EndsWithQuote(t)
    ensures !EndsWithQuote(DoubleQuotes(Collapse(t)))
  {
    CollapseEndsWithQuote(t);
    DoubleEndsWithQuote(Collapse(t));
  }

  lemma LeftAtEnd(c: Column, isOld: bool)
    requires Readable(c) && c.value.Quoted? && EndsWithQuote(c.value.text)
    ensures ReadColumns(SplitWhitespace(" " + PrintItem(Cell(c))), isOld)
         == Report(Reading([], Some(Pending(c.name, Held(c.value.text))), isOld), [])
  {
    OpensAfterQuote(c, isOld);
    StepLaw(Cell(c), "", Start(isOld));
    assert PrintItem(Cell(c)) + "" == PrintItem(Cell(c)) && SplitWhitespace("") == [];
    EmptyLeft(ReadColumns(SplitWhitespace(" " + PrintItem(Cell(c))), isOld));
  }

  lemma HeldRun(t: string, n: nat)
    ensures
      var held, text := Held(t + Quotes(n)), DoubleQuotes(Collapse(t));
      text <= held && forall i | |text| <= i < |held| :: held[i] == '\''
  {
    CollapseQuotes(t, n);
    DoubleRun(Collapse(t), n);
  }

  // ----- when a column is open -----

  /** Whether a row leaves a column open, from its last item back. */
  predicate LeftOpen(items: seq<Item>) {
    items != [] &&
    var n := |items| - 1;
    match items[n]
    case Cell(Column(_, _, Bare(text))) => LeftOpen(items[..n]) && !Closes(text)
    case Cell(c) => if Readable(c) && c.value.text != "" then EndsWithQuote(c.value.text) else LeftOpen(items[..n])
    case _ => LeftOpen(items[..n])
  }

  lemma StepOpens(st: Reading, item: Item)
    requires Follows(st, item)
    ensures Step(st, item).pending.Some? <==>
      match item
      case Cell(Column(_, _, Bare(text))) => st.pending.Some? && !Closes(text)
      case Cell(c) => if Readable(c) && c.value.text != "" then EndsWithQuote(c.value.text) else st.pending.Some?
      case _ => st.pending.Some?
  {
    if item.Cell? && item.column.value.Quoted? {
      QuotedStepOpens(st, item.column);
    } else if st.pending.Some? {
      var held := st.pending.value.held + " ";
      if item.Cell? {
        BareCloses(held + item.column.name + "[" + item.column.typ + "]", item.column.value.text);
        assert held + (PrintHead(item.column) + item.column.value.text)
            == held + item.column.name + "[" + item.column.typ + "]" + ":" + item.column.value.text;
      } else {
        MarkerKeepsOpen(held, item);
      }
    }
  }

  lemma QuotedStepOpens(st: Reading, c: Column)
    requires Follows(st, Cell(c)) && c.value.Quoted?
    ensures Step(st, Cell(c)).pending.Some? <==>
      if Readable(c) && c.value.text != "" then EndsWithQuote(c.value.text) else st.pending.Some?
  {
    var v := c.value.text;
    if Readable(c) {
      var acc := if st.pending.Some? then st.pending.value.held + " " + PrintHead(c) + "'" else "";
      HeldEndsWithQuote(acc, v);
      ClosesAfter(acc + DoubleQuotes(Collapse(v)));
      EmptyLeft(DoubleQuotes(Collapse(v)));
      if st.pending.Some? {
        Regroup(st.pending.value.held + " ", PrintHead(c), DoubleQuotes(Collapse(v)));
        Associate(st.pending.value.held + " ", PrintHead(c), "'");
      }
    }
  }

  lemma BareCloses(head: string, text: string)
    ensures Closes(head + ":" + text) <==> Closes(text)
  {
    var s := head + ":" + text;
    if text != "" {
      assert s[|s| - 1] == text[|text| - 1];
      assert s[..|s| - 1] == head + ":" + text[..|text| - 1];
      assert |text| > 1 ==> (head + ":" + text[..|text| - 1])[|s| - 2] == text[|text| - 2];
    }
  }

  lemma MarkerKeepsOpen(held: string, item: Item)
    requires !item.Cell?
    ensures !Closes(held + PrintItem(item))
  {
    var text := PrintItem(item);
    assert OLD_KEY[|OLD_KEY| - 1] == ':' && NEW_TUPLE[|NEW_TUPLE| - 1] == ':';
    assert NO_TUPLE_DATA[|NO_TUPLE_DATA| - 1] == ')';
    EndsAppend(held, text);
  }

  /**
   A column is open after a row exactly when, going back over empty values and
   unquoted ones that do not close, the first quoted value ends in a quote.
   */
  lemma {:induction false} OpenExactly(items: seq<Item>, isOld: bool)
    requires Tracked(items, Start(isOld))
    ensures After(items, Start(isOld)).pending.Some? <==> LeftOpen(items)
    decreases |items|
  {
    if items != [] {
      var n := |items| - 1;
      assert items == items[..n] + [items[n]];
      AfterConcat(items[..n], [items[n]], Start(isOld));
      OpenExactly(items[..n], isOld);
      var st := After(items[..n], Start(isOld));
      assert [items[n]][1..] == [];
      StepOpens(st, items[n]);
    }
  }

  lemma {:induction false} TameIsTracked(items: seq<Item>, st: Reading)
    requires forall i | 0 <= i < |items| && items[i].Cell? :: Tame(items[i].column)
    ensures Tracked(items, st)
    decreases items
  {
    if items != [] {
      assert forall i | 1 <= i < |items| :: items[i] == items[1..][i - 1];
      TameIsTracked(items[1..], Step(st, items[0]));
    }
  }

  /** Well-formed faithful items open nothing: the state after them has reported what it should. */
  lemma {:induction false} FaithfulIsTracked(items: seq<Item>, st: Reading)
    requires WellFormed(items) && Faithful(items) && st.pending.None?
    ensures Tracked(items, st)
    ensures After(items, st) == Reading(st.done + Expected(items, st.isOld), None, SectionAfterAll(items, st.isOld))
    decreases items
  {
    if items == [] {
      assert st.done + [] == st.done;
    } else {
      PredicatesCons(items);
      FaithfulStep(items[0], st);
      FaithfulIsTracked(items[1..], Step(st, items[0]));
      Associate(st.done, Taken(items[0], st.isOld), Expected(items[1..], SectionAfter(items[0], st.isOld)));
    }
  }

  lemma FaithfulStep(item: Item, st: Reading)
    requires st.pending.None? && !EndsQuoted(item)
    requires item.Cell? ==> Readable(item.column) || Inert(item.column)
    ensures Follows(st, item)
    ensures Step(st, item) == Reading(st.done + Taken(item, st.isOld), None, SectionAfter(item, st.isOld))
  {
    assert st.done + [] == st.done;
    if item.Cell? && Readable(item.column) && item.column.value.Quoted? {
      var v := item.column.value.text;
      HeldCloses(v);
      ClosesAfter(DoubleQuotes(Collapse(v)));
      UndoubleDouble(Collapse(v));
    }
  }

  lemma {:induction false} PrintConcat(a: seq<Item>, b: seq<Item>)
    ensures PrintItems(a + b) == PrintItems(a) + PrintItems(b)
  {
    if a == [] {
      assert a + b == b;
    } else {
      assert (a + b)[0] == a[0] && (a + b)[1..] == a[1..] + b;
      PrintConcat(a[1..], b);
      Associate(" " + PrintItem(a[0]), PrintItems(a[1..]), PrintItems(b));
    }
  }

  /** The state law from the start of a line: the items after `items` are read from the state they lead to. */
  lemma ReadFrom(items: seq<Item>, more: seq<Item>, isOld: bool)
    requires Tracked(items, Start(isOld))
    ensures ReadColumns(SplitWhitespace(PrintItems(items + more)), isOld)
         == Report(After(items, Start(isOld)), SplitWhitespace(PrintItems(more)))
  {
    PrintConcat(items, more);
    StateLaw(items, PrintItems(more), Start(isOld));
    EmptyLeft(ReadColumns(SplitWhitespace(PrintItems(items + more)), isOld));
  }

  /**
   Whatever stands after them, well-formed faithful items are read as themselves and
   leave the reader in their section: a line is read right up to its first fault.
   */
  lemma ReadsOn(items: seq<Item>, more: seq<Item>, isOld: bool)
    requires WellFormed(items) && Faithful(items)
    ensures ReadColumns(SplitWhitespace(PrintItems(items + more)), isOld)
         == Expected(items, isOld) + ReadColumns(SplitWhitespace(PrintItems(more)), SectionAfterAll(items, isOld))
  {
    FaithfulIsTracked(items, Start(isOld));
    ReadFrom(items, more, isOld);
    EmptyLeft(Expected(items, isOld));
  }

  // ----- a column inside another -----

  /** A quoted value whose first character is neither white space nor a quote and whose last one is no quote. */
  predicate StartsAWord(v: Value) {
    v.Quoted? && v.text != "" && !IsSpace(v.text[0]) && v.text[0] != '\'' && !EndsWithQuote(v.text)
  }

  /** What stands before the value of a column that an open column takes in. */
  function Carried(open: Pending, next: Column): string {
    UndoubleQuotes(open.held + " " + PrintHead(next) + "'")
  }

  /** An open column is closed by the next quoted value that starts with a word, and holds it at its end. */
  lemma CarriedValue(open: Pending, next: Column)
    requires StartsAWord(next.value)
    ensures
      var held := open.held + " " + Shown(Cell(next));
      Closes(held) && UndoubleQuotes(Unclosed(held)) == Carried(open, next) + Collapse(next.value.text)
  {
    var p := next.value.text;
    var before, text := open.held + " " + PrintHead(next) + "'", DoubleQuotes(Collapse(p));
    Regroup(open.held + " ", PrintHead(next), text);
    Associate(open.held + " ", PrintHead(next), "'");
    HeldEndsWithQuote(before, p);
    ClosesAfter(before + text);
    assert Collapse(p)[0] == p[0];
    UndoubleConcat(before, text);
    UndoubleDouble(Collapse(p));
  }

  /** From a state with an open column, such a value is reported inside that column, and nothing is open. */
  lemma TakesIn(st: Reading, next: Column)
    requires st.pending.Some? && StartsAWord(next.value)
    ensures
      var open := st.pending.value;
      var made := ParsedColumn(open.name, Carried(open, next) + Collapse(next.value.text), st.isOld);
      Step(st, Cell(next)) == Reading(st.done + [made], None, st.isOld)
  {
    CarriedValue(st.pending.value, next);
  }

  /** After a quoted value that ends in a quote its column is open. */
  lemma OpensAfterQuote(a: Column, isOld: bool)
    requires Readable(a) && a.value.Quoted? && EndsWithQuote(a.value.text)
    ensures Step(Start(isOld), Cell(a)) == Reading([], Some(Pending(a.name, Held(a.value.text))), isOld)
  {
    HeldCloses(a.value.text);
  }

  /**
   A value that ends in a quote does not close: the reader takes the next column into
   it, head and value, and reports one column for the two.
   */
  lemma QuoteCarriesNext(a: Column, next: Column, tail: string, isOld: bool)
    requires Readable(a) && a.value.Quoted? && EndsWithQuote(a.value.text)
    requires Readable(next) && StartsAWord(next.value)
    requires tail == "" || IsSpace(tail[0])
    ensures
      var made := Carried(Pending(a.name, Held(a.value.text)), next) + Collapse(next.value.text);
      ReadColumns(SplitWhitespace(" " + (PrintItem(Cell(a)) + (" " + (PrintItem(Cell(next)) + tail)))), isOld)
        == [ParsedColumn(a.name, made, isOld)] + ReadColumns(SplitWhitespace(tail), isOld)
  {
    var more := " " + (PrintItem(Cell(next)) + tail);
    OpensAfterQuote(a, isOld);
    StepLaw(Cell(a), more, Start(isOld));
    HeldCloses(a.value.text);
    NextIsTaken(Pending(a.name, Held(a.value.text)), next, tail, isOld);
    EmptyLeft(ReadColumns(SplitWhitespace(" " + (PrintItem(Cell(a)) + more)), isOld));
  }

  lemma NextIsTaken(open: Pending, next: Column, tail: string, isOld: bool)
    requires !Closes(open.held) && Readable(next) && StartsAWord(next.value)
    requires tail == "" || IsSpace(tail[0])
    ensures Report(Reading([], Some(open), isOld), SplitWhitespace(" " + (PrintItem(Cell(next)) + tail)))
         == [ParsedColumn(open.name, Carried(open, next) + Collapse(next.value.text), isOld)]
            + ReadColumns(SplitWhitespace(tail), isOld)
  {
    var st := Reading([], Some(open), isOld);
    StepLaw(Cell(next), tail, st);
    TakesIn(st, next);
    EmptyLeft([ParsedColumn(open.name, Carried(open, next) + Collapse(next.value.text), isOld)]);
  }

  /**
   A row that leaves a column open at the end of the line: that column is reported last,
   with the undoubled held text up to the quotes it ends in.
   */
  lemma RowLeftOpen(items: seq<Item>, text: string, isOld: bool)
    requires Tracked(items, Start(isOld)) && After(items, Start(isOld)).pending.Some?
    requires
      var held := After(items, Start(isOld)).pending.value.held;
      text <= held && !EndsWithQuote(text) && forall i | |text| <= i < |held| :: held[i] == '\''
    ensures
      var st := After(items, Start(isOld));
      ReadColumns(SplitWhitespace(PrintItems(items)), isOld)
        == st.done + [ParsedColumn(st.pending.value.name, UndoubleQuotes(text), st.isOld)]
  {
    StateLaw(items, "", Start(isOld));
    assert items + [] == items && SplitWhitespace(PrintItems([])) == [];
    ReadFrom(items, [], isOld);
    OpenAtEnd(After(items, Start(isOld)), text);
  }

  /**
   The last column of a line, with nothing open in front of it and a value that ends in
   quotes: it is reported without any of them.
   */
  lemma LastColumnLosesQuotes(items: seq<Item>, c: Column, t: string, n: nat, isOld: bool)
    requires Tracked(items, Start(isOld)) && After(items, Start(isOld)).pending.None?
    requires Readable(c) && c.value == Quoted(t + Quotes(n)) && n > 0 && !EndsWithQuote(t)
    ensures
      var st := After(items, Start(isOld));
      ReadColumns(SplitWhitespace(PrintItems(items + [Cell(c)])), isOld)
        == st.done + [ParsedColumn(c.name, Collapse(t), st.isOld)]
  {
    var st := After(items, Start(isOld));
    ReadFrom(items, [Cell(c)], isOld);
    PrintCons([Cell(c)]);
    assert [Cell(c)][1..] == [] && PrintItem(Cell(c)) + "" == PrintItem(Cell(c));
    LastValueLosesQuotes(c, t, n, st.isOld);
  }
}

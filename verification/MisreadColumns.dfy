/**
 The columns a reader cannot give back: those whose type holds a blank, and quoted
 values that end in a quote. What the reader makes of them, exactly.
 */
module MisreadColumns {
  import opened Options
  import opened Seqs
  import opened Text
  import opened ChangeLine
  import opened TestDecoding

  // ----- columns that are dropped -----

  /** The printed column leaves no trace, whatever follows it and in either section. */
  ghost predicate Dropped(c: Column) {
    forall tail: string, isOld: bool | tail == "" || IsSpace(tail[0]) ::
      ReadColumns(SplitWhitespace(" " + (PrintItem(Cell(c)) + tail)), isOld)
        == ReadColumns(SplitWhitespace(tail), isOld)
  }

  predicate AllInert(parts: seq<string>) {
    forall i | 0 <= i < |parts| :: InertWord(parts[i])
  }

  /** A word that starts a column makes one, whatever comes before and after it. */
  lemma {:induction false} ColumnShows(parts: seq<string>, k: nat, isOld: bool)
    requires k < |parts| && !IsMarker(parts[k]) && !InertWord(parts[k])
    requires forall i | 0 <= i < k :: IsMarker(parts[i]) || InertWord(parts[i])
    ensures ReadColumns(parts, isOld) != []
  {
    if k > 0 {
      var turn := ReadOne(parts, isOld);
      assert turn.added == [] && turn.rest == parts[1..];
      ColumnShows(parts[1..], k - 1, turn.isOld);
    }
  }

  /** Past a marker, the section before it no longer counts. */
  lemma {:induction false} MarkerForgets(parts: seq<string>, more: seq<string>, k: nat)
    requires k < |parts| && IsMarker(parts[k])
    requires forall i | 0 <= i < |parts| :: IsMarker(parts[i]) || InertWord(parts[i])
    ensures ReadColumns(parts + more, true) == ReadColumns(parts + more, false)
  {
    var all := parts + more;
    assert all[0] == parts[0] && all[1..] == parts[1..] + more;
    if !IsMarker(parts[0]) {
      MarkerForgets(parts[1..], more, k - 1);
    }
  }

  /** A column is dropped, whatever follows it, if and only if the reader skips every word of it. */
  lemma DroppedExactly(c: Column)
    ensures Dropped(c) <==> Inert(c)
  {
    var parts := SplitWhitespace(PrintItem(Cell(c)));
    if Inert(c) {
      forall tail: string, isOld: bool | tail == "" || IsSpace(tail[0])
        ensures ReadColumns(SplitWhitespace(" " + (PrintItem(Cell(c)) + tail)), isOld)
             == ReadColumns(SplitWhitespace(tail), isOld)
      {
        ItemWords(PrintItem(Cell(c)), tail);
        SkipInert(parts, SplitWhitespace(tail), isOld);
      }
    } else {
      NotDropped(c, parts);
    }
  }

  lemma NotDropped(c: Column, parts: seq<string>)
    requires parts == SplitWhitespace(PrintItem(Cell(c))) && !AllInert(parts)
    ensures !Dropped(c)
  {
    if k :| 0 <= k < |parts| && !IsMarker(parts[k]) && !InertWord(parts[k]) {
      var first := FirstColumn(parts, 0);
      ColumnShows(parts, first, false);
      ItemWords(PrintItem(Cell(c)), "");
      assert parts + SplitWhitespace("") == parts;
    } else {
      var k :| 0 <= k < |parts| && !InertWord(parts[k]);
      MarkerShows(c, parts, k);
    }
  }

  lemma MarkerShows(c: Column, parts: seq<string>, k: nat)
    requires parts == SplitWhitespace(PrintItem(Cell(c)))
    requires k < |parts| && IsMarker(parts[k])
    requires forall i | 0 <= i < |parts| :: IsMarker(parts[i]) || InertWord(parts[i])
    ensures !Dropped(c)
  {
    var probe := Column("q", "t", Bare("v"));
    var tail := " " + (PrintItem(Cell(probe)) + "");
    ItemWords(PrintItem(Cell(c)), tail);
    MarkerForgets(parts, SplitWhitespace(tail), k);
    assert probe.value.text[0] == 'v';
    ProbeShows(probe);
    if Dropped(c) {
      DroppedInBoth(c, tail);
      assert false;
    }
  }

  lemma DroppedInBoth(c: Column, tail: string)
    requires Dropped(c) && (tail == "" || IsSpace(tail[0]))
    ensures forall isOld: bool ::
      ReadColumns(SplitWhitespace(tail), isOld)
        == ReadColumns(SplitWhitespace(" " + (PrintItem(Cell(c)) + tail)), isOld)
  {
  }

  lemma ProbeShows(probe: Column)
    requires Readable(probe) && probe.value.Bare?
    ensures
      var parts := SplitWhitespace(" " + (PrintItem(Cell(probe)) + ""));
      ReadColumns(parts, true) != ReadColumns(parts, false)
  {
    BareCell(probe, "", true);
    BareCell(probe, "", false);
    var parts := SplitWhitespace(" " + (PrintItem(Cell(probe)) + ""));
    assert ReadColumns(parts, true)[0].isOld && !ReadColumns(parts, false)[0].isOld;
  }

  /** The first word from `from` on that starts a column. */
  function FirstColumn(parts: seq<string>, from: nat): (k: nat)
    requires exists i :: from <= i < |parts| && !IsMarker(parts[i]) && !InertWord(parts[i])
    ensures from <= k < |parts| && !IsMarker(parts[k]) && !InertWord(parts[k])
    ensures forall i | from <= i < k :: IsMarker(parts[i]) || InertWord(parts[i])
    decreases |parts| - from
  {
    if !IsMarker(parts[from]) && !InertWord(parts[from]) then from else FirstColumn(parts, from + 1)
  }

  // ----- types with a blank in them -----

  /** A column such as `bio[character varying]`: `t1` and `t2` are the type around its first blank. */
  predicate SpacedType(c: Column, t1: string, t2: string) {
    NoSpace(c.name) && '[' !in c.name && c.typ == t1 + " " + t2 && NoSpace(t1)
  }

  /** The words of the column after the first: the rest of the type, and the value. */
  function LaterWords(c: Column, t2: string): seq<string> {
    SplitWhitespace(t2 + "]:" + PrintValue(c.value))
  }

  lemma TwoParts(first: string, more: string)
    requires first != "" && NoSpace(first)
    ensures SplitWhitespace(first + (" " + more)) == [first] + SplitWhitespace(more)
  {
    WordsPrefix("", first, " " + more);
    assert (" " + more)[1..] == more && "" + first == first;
  }

  /** The first word of such a column: a column of its own if the type has a colon before its blank. */
  lemma FirstWordHead(name: string, t1: string)
    requires '[' !in name
    ensures !IsMarker(name + "[" + t1)
    ensures
      match IndexOf(t1, ':')
      case None => ColumnHead(name + "[" + t1).None?
      case Some(k) => ColumnHead(name + "[" + t1) == Some((name, t1[k + 1..]))
  {
    BracketAfter(name, t1);
    ColonBehind("[", t1);
  }

  /** The first colon of a text behind a text without one. */
  lemma ColonBehind(before: string, text: string)
    requires ':' !in before
    ensures
      match IndexOf(text, ':')
      case None => IndexOf(before + text, ':').None?
      case Some(k) =>
        && IndexOf(before + text, ':') == Some(|before| + k)
        && (before + text)[|before| + k + 1..] == text[k + 1..]
  {
    match IndexOf(text, ':')
    case None =>
      assert ':' !in before + text;
    case Some(k) =>
      ColonAfter(before + text[..k], text[k + 1..]);
      CutAt(before, text, k);
  }

  lemma CutAt(before: string, text: string, k: nat)
    requires k < |text|
    ensures before + text == (before + text[..k]) + [text[k]] + text[k + 1..]
    ensures |before + text[..k]| == |before| + k
  {
  }

  lemma SpacedTypeWords(c: Column, t1: string, t2: string)
    requires SpacedType(c, t1, t2)
    ensures SplitWhitespace(PrintItem(Cell(c))) == [c.name + "[" + t1] + LaterWords(c, t2)
    ensures InertWord(c.name + "[" + t1) <==> ':' !in t1
    ensures !Readable(c)
  {
    var first, more := c.name + "[" + t1, t2 + "]:" + PrintValue(c.value);
    assert c.typ[|t1|] == ' ';
    assert PrintItem(Cell(c)) == first + (" " + more);
    TwoParts(first, more);
    FirstWordHead(c.name, t1);
  }

  /**
   The reader goes on after the blank: a column whose type has one in it is not read
   as itself, and the rest of its type and its value are read as if they stood between
   columns. Only a colon before the blank makes a column of the first word, with what
   stands behind the colon for its value.
   */
  lemma SpacedTypeReadsOn(c: Column, t1: string, t2: string, tail: string, isOld: bool)
    requires SpacedType(c, t1, t2)
    requires tail == "" || IsSpace(tail[0])
    ensures !Readable(c)
    ensures
      var read := ReadColumns(SplitWhitespace(" " + (PrintItem(Cell(c)) + tail)), isOld);
      var words := LaterWords(c, t2) + SplitWhitespace(tail);
      match IndexOf(t1, ':')
      case None => read == ReadColumns(words, isOld)
      case Some(k) =>
        var value := t1[k + 1..];
        if "'" <= value then
          var (raw, rest) := ReadQuoted(value[1..], words);
          read == [ParsedColumn(c.name, UndoubleQuotes(raw), isOld)] + ReadColumns(rest, isOld)
        else read == [ParsedColumn(c.name, value, isOld)] + ReadColumns(words, isOld)
  {
    SpacedTypeWords(c, t1, t2);
    ItemWords(PrintItem(Cell(c)), tail);
    Associate([c.name + "[" + t1], LaterWords(c, t2), SplitWhitespace(tail));
    FirstWordReads(c.name, t1, LaterWords(c, t2) + SplitWhitespace(tail), isOld);
  }

  lemma FirstWordReads(name: string, t1: string, words: seq<string>, isOld: bool)
    requires '[' !in name
    ensures
      var read := ReadColumns([name + "[" + t1] + words, isOld);
      match IndexOf(t1, ':')
      case None => read == ReadColumns(words, isOld)
      case Some(k) =>
        var value := t1[k + 1..];
        if "'" <= value then
          var (raw, rest) := ReadQuoted(value[1..], words);
          read == [ParsedColumn(name, UndoubleQuotes(raw), isOld)] + ReadColumns(rest, isOld)
        else read == [ParsedColumn(name, value, isOld)] + ReadColumns(words, isOld)
  {
    var part := name + "[" + t1;
    FirstWordHead(name, t1);
    match IndexOf(t1, ':')
    case None => SkipInert([part], words, isOld);
    case Some(k) => HeadReads(part, name, t1[k + 1..], words, isOld);
  }

  lemma HeadReads(part: string, name: string, value: string, words: seq<string>, isOld: bool)
    requires !IsMarker(part) && ColumnHead(part) == Some((name, value))
    ensures
      var read := ReadColumns([part] + words, isOld);
      if "'" <= value then
        var (raw, rest) := ReadQuoted(value[1..], words);
        read == [ParsedColumn(name, UndoubleQuotes(raw), isOld)] + ReadColumns(rest, isOld)
      else read == [ParsedColumn(name, value, isOld)] + ReadColumns(words, isOld)
  {
    if "'" <= value {
      var (raw, rest) := ReadQuoted(value[1..], words);
      assert value == "'" + value[1..];
      ReadQuotedPart(part, words, name, value[1..], raw, rest, isOld);
    } else {
      ReadBare(part, words, name, value, isOld);
    }
  }

  /** Such a column is dropped without a trace if and only if the reader skips each word of it. */
  lemma SpacedTypeIsLost(c: Column, t1: string, t2: string)
    requires SpacedType(c, t1, t2)
    ensures !Readable(c)
    ensures Dropped(c) <==> ':' !in t1 && AllInert(LaterWords(c, t2))
  {
    SpacedTypeWords(c, t1, t2);
    DroppedExactly(c);
    var parts, later := SplitWhitespace(PrintItem(Cell(c))), LaterWords(c, t2);
    assert parts[0] == c.name + "[" + t1 && parts[1..] == later;
    assert forall i | 1 <= i < |parts| :: parts[i] == later[i - 1];
    assert forall i | 0 <= i < |later| :: later[i] == parts[i + 1];
  }

  /** The value is `u`, a word without quotes, and `w`; the reader skips every other word of the column. */
  predicate AloneInValue(c: Column, t1: string, t2: string, u: string, word: string, w: string) {
    && SpacedType(c, t1, t2) && ':' !in t1 && c.value == Quoted(u + " " + word + " " + w)
    && word != "" && NoSpace(word) && '\'' !in word
    && AllInert(SplitWhitespace(t2 + "]:'" + DoubleQuotes(u)))
    && AllInert(SplitWhitespace(DoubleQuotes(w) + "'"))
  }

  /**
   What one word in the value of such a column does, when the reader skips the others:
   a marker changes the section of everything after it, a word with `[` and then `:`
   makes a column of its own, and any other word does nothing.
   */
  lemma SpacedTypeValueWord(
      c: Column, t1: string, t2: string, u: string, word: string, w: string, tail: string, isOld: bool)
    requires AloneInValue(c, t1, t2, u, word, w)
    requires tail == "" || IsSpace(tail[0])
    ensures
      var read := ReadColumns(SplitWhitespace(" " + (PrintItem(Cell(c)) + tail)), isOld);
      if IsMarker(word) then read == ReadColumns(SplitWhitespace(tail), word == OLD_KEY)
      else
        match ColumnHead(word)
        case Some((name, text)) => read == [ParsedColumn(name, text, isOld)] + ReadColumns(SplitWhitespace(tail), isOld)
        case None => read == ReadColumns(SplitWhitespace(tail), isOld)
  {
    var before, after := SplitWhitespace(t2 + "]:'" + DoubleQuotes(u)), SplitWhitespace(DoubleQuotes(w) + "'");
    SpacedTypeReadsOn(c, t1, t2, tail, isOld);
    WordInValue(c, t2, u, word, w);
    AmongInert(before, word, after, SplitWhitespace(tail), isOld);
    WordTurn(word, isOld);
  }

  lemma WordTurn(word: string, isOld: bool)
    requires '\'' !in word
    ensures
      var turn := ReadOne([word], isOld);
      if IsMarker(word) then turn.added == [] && turn.isOld == (word == OLD_KEY)
      else
        && turn.isOld == isOld
        && match ColumnHead(word)
           case Some((name, text)) => turn.added == [ParsedColumn(name, text, isOld)]
           case None => turn.added == []
  {
    if ColumnHead(word).Some? {
      HeadIsInside(word);
    }
  }

  lemma AmongInert(before: seq<string>, word: string, after: seq<string>, more: seq<string>, isOld: bool)
    requires AllInert(before) && AllInert(after) && '\'' !in word
    ensures
      var turn := ReadOne([word], isOld);
      ReadColumns(before + ([word] + after) + more, isOld) == turn.added + ReadColumns(more, turn.isOld)
  {
    Associate(before, [word] + after, more);
    Associate([word], after, more);
    SkipInert(before, [word] + (after + more), isOld);
    WordAlone(word, after + more, isOld);
    SkipInert(after, more, ReadOne([word], isOld).isOld);
  }

  lemma WordAlone(word: string, more: seq<string>, isOld: bool)
    requires '\'' !in word
    ensures
      var turn := ReadOne([word], isOld);
      && turn.rest == []
      && ReadColumns([word] + more, isOld) == turn.added + ReadColumns(more, turn.isOld)
  {
    assert ([word] + more)[1..] == more && [word][1..] == [];
    if ColumnHead(word).Some? {
      HeadIsInside(word);
    }
  }

  lemma HeadIsInside(word: string)
    requires ColumnHead(word).Some?
    ensures forall c :: c in ColumnHead(word).value.1 ==> c in word
  {
  }

  lemma WordInValue(c: Column, t2: string, u: string, word: string, w: string)
    requires c.value == Quoted(u + " " + word + " " + w)
    requires word != "" && NoSpace(word) && '\'' !in word
    ensures LaterWords(c, t2)
         == SplitWhitespace(t2 + "]:'" + DoubleQuotes(u)) + ([word] + SplitWhitespace(DoubleQuotes(w) + "'"))
  {
    var before, after := t2 + "]:'" + DoubleQuotes(u), DoubleQuotes(w) + "'";
    PrintedAround(t2, u, word, w);
    WordsAround(before, word, after);
  }

  lemma WordsAround(before: string, word: string, after: string)
    requires word != "" && NoSpace(word)
    ensures SplitWhitespace(before + (" " + (word + (" " + after))))
         == SplitWhitespace(before) + ([word] + SplitWhitespace(after))
  {
    var rest := word + (" " + after);
    WordsConcat("", before, " " + rest);
    assert (" " + rest)[1..] == rest;
    TwoParts(word, after);
  }

  lemma PrintedAround(t2: string, u: string, word: string, w: string)
    requires '\'' !in word
    ensures t2 + "]:" + PrintValue(Quoted(u + " " + word + " " + w))
         == t2 + "]:'" + DoubleQuotes(u) + (" " + (word + (" " + (DoubleQuotes(w) + "'"))))
  {
    DoubledAround(u, word, w);
    Regroup(t2, DoubleQuotes(u), word, DoubleQuotes(w));
  }

  lemma DoubledAround(u: string, word: string, w: string)
    requires '\'' !in word
    ensures DoubleQuotes(u + " " + word + " " + w) == DoubleQuotes(u) + " " + word + " " + DoubleQuotes(w)
  {
    DoubleConcat(u + " " + word + " ", w);
    DoubleConcat(u + " " + word, " ");
    DoubleConcat(u + " ", word);
    DoubleConcat(u, " ");
    DoubleCons(' ', "");
    DoubleFree(word);
  }

  lemma Regroup(t2: string, u: string, word: string, w: string)
    ensures t2 + "]:" + ("'" + (u + " " + word + " " + w) + "'")
         == t2 + "]:'" + u + (" " + (word + (" " + (w + "'"))))
  {
  }

  lemma {:induction false} DoubleConcat(s: string, t: string)
    ensures DoubleQuotes(s + t) == DoubleQuotes(s) + DoubleQuotes(t)
  {
    if s == "" {
      assert s + t == t;
    } else {
      assert (s + t)[0] == s[0] && (s + t)[1..] == s[1..] + t;
      DoubleConcat(s[1..], t);
    }
  }

  // ----- names as they are printed -----

  /**
   A name with a blank in it, as a quoted identifier may have: the column is read under
   the part behind the blank, when the part before it is skipped.
   */
  lemma SpacedNameIsCut(c: Column, n1: string, n2: string, tail: string, isOld: bool)
    requires c.name == n1 + " " + n2 && AllInert(SplitWhitespace(n1))
    requires tail == "" || IsSpace(tail[0])
    ensures ReadColumns(SplitWhitespace(" " + (PrintItem(Cell(c)) + tail)), isOld)
         == ReadColumns(SplitWhitespace(" " + (PrintItem(Cell(c.(name := n2))) + tail)), isOld)
  {
    var printed := PrintItem(Cell(c.(name := n2)));
    var more := " " + (printed + tail);
    assert PrintItem(Cell(c)) + tail == n1 + more;
    ItemWords(n1, more);
    SkipInert(SplitWhitespace(n1), SplitWhitespace(more), isOld);
  }

  /** A name with a `[` in it is read up to that bracket; the rest of the name counts as type. */
  lemma BracketNameIsCut(c: Column, n1: string, n2: string, tail: string, isOld: bool)
    requires c.name == n1 + "[" + n2
    requires Readable(Column(n1, n2 + "[" + c.typ, c.value)) && !EndsQuoted(Cell(Column(n1, n2 + "[" + c.typ, c.value)))
    requires tail == "" || IsSpace(tail[0])
    ensures !Readable(c)
    ensures ReadColumns(SplitWhitespace(" " + (PrintItem(Cell(c)) + tail)), isOld)
         == [ReadBack(c.(name := n1), isOld)] + ReadColumns(SplitWhitespace(tail), isOld)
  {
    var cut := Column(n1, n2 + "[" + c.typ, c.value);
    assert c.name[|n1|] == '[';
    assert PrintHead(c) == PrintHead(cut);
    ReadItem(Cell(cut), tail, isOld);
  }
}

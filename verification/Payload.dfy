/** The text that is hashed for one event (forwarder/src/hashchain.rs, `build_payload`). */
module Payload {
  import opened Text
  import opened Json

  datatype Fields = Fields(
    eventType: string, eventTime: string, sessionUser: string,
    database: string, commandTag: string, queryText: string)

  /** Six fields joined by `|`; the query text is last. */
  function Encode(f: Fields): string {
    f.eventType + "|" + f.eventTime + "|" + f.sessionUser + "|" + f.database + "|" + f.commandTag + "|" + f.queryText
  }

  function TextAt(event: Json, key: string): string {
    AsStr(At(event, key)).GetOr("")
  }

  function FieldsOf(event: Json): Fields {
    Fields(TextAt(event, "event_type"), TextAt(event, "event_time"), TextAt(event, "session_user"),
           TextAt(event, "database"), TextAt(event, "command_tag"), TextAt(event, "query_text"))
  }

  /** `build_payload`: a missing field, or one that is no string, counts as empty. */
  function BuildPayload(event: Json): string {
    Encode(FieldsOf(event))
  }

  /** None of the first five fields holds a `|`. */
  predicate HeadIsPlain(f: Fields) {
    && '|' !in f.eventType && '|' !in f.eventTime && '|' !in f.sessionUser
    && '|' !in f.database && '|' !in f.commandTag
  }

  lemma CutAtBar(a: string, x: string, b: string, y: string)
    requires '|' !in a && '|' !in b
    requires a + "|" + x == b + "|" + y
    ensures a == b && x == y
  {
    IndexOfFirst(a, '|', x);
    IndexOfFirst(b, '|', y);
    var s := a + "|" + x;
    assert s[..|a|] == a && s[|a| + 1..] == x;
    assert s[..|b|] == b && s[|b| + 1..] == y;
  }

  /** The encoding from the `n`th field on. */
  function Tail1(f: Fields): string { f.eventTime + "|" + Tail2(f) }
  function Tail2(f: Fields): string { f.sessionUser + "|" + Tail3(f) }
  function Tail3(f: Fields): string { f.database + "|" + Tail4(f) }
  function Tail4(f: Fields): string { f.commandTag + "|" + f.queryText }

  lemma EncodeByTails(f: Fields)
    ensures Encode(f) == f.eventType + "|" + Tail1(f)
  {
    assert f.database + "|" + (f.commandTag + "|" + f.queryText) == f.database + "|" + f.commandTag + "|" + f.queryText;
  }

  /** With no `|` in the first five fields the encoding determines all six, the query text included. */
  lemma EncodeInjective(f: Fields, g: Fields)
    requires HeadIsPlain(f) && HeadIsPlain(g) && Encode(f) == Encode(g)
    ensures f == g
  {
    EncodeByTails(f);
    EncodeByTails(g);
    CutAtBar(f.eventType, Tail1(f), g.eventType, Tail1(g));
    CutAtBar(f.eventTime, Tail2(f), g.eventTime, Tail2(g));
    CutAtBar(f.sessionUser, Tail3(f), g.sessionUser, Tail3(g));
    CutAtBar(f.database, Tail4(f), g.database, Tail4(g));
    CutAtBar(f.commandTag, f.queryText, g.commandTag, g.queryText);
  }

  /** The string member of the event, or the empty text. */
  predicate IsText(event: Json, key: string, text: string) {
    if At(event, key).String? then text == At(event, key).s else text == ""
  }

  /**
   The payload read from its front: cut at its first five bars, when no bar stands in
   the first five fields, it gives the named fields of the event in this order.
   */
  lemma PayloadParts(event: Json)
    requires HeadIsPlain(FieldsOf(event))
    ensures
      var p := BuildPayload(event);
      && '|' in p && IsText(event, "event_type", Cut(p).0)
      && '|' in Cut(p).1 && IsText(event, "event_time", Cut(Cut(p).1).0)
      && var q := Cut(Cut(p).1).1;
         && '|' in q && IsText(event, "session_user", Cut(q).0)
         && '|' in Cut(q).1 && IsText(event, "database", Cut(Cut(q).1).0)
         && var r := Cut(Cut(q).1).1;
            && '|' in r && IsText(event, "command_tag", Cut(r).0) && IsText(event, "query_text", Cut(r).1)
  {
    var f := FieldsOf(event);
    EncodeByTails(f);
    CutJoined(f.eventType, Tail1(f));
    CutJoined(f.eventTime, Tail2(f));
    CutJoined(f.sessionUser, Tail3(f));
    CutJoined(f.database, Tail4(f));
    CutJoined(f.commandTag, f.queryText);
  }

  lemma CutJoined(a: string, b: string)
    requires '|' !in a
    ensures '|' in a + "|" + b && Cut(a + "|" + b) == (a, b)
  {
    IndexOfFirst(a, '|', b);
    var s := a + "|" + b;
    assert s[|a|] == '|' && s == a + ['|'] + b;
    assert s[..|a|] == a && s[|a| + 1..] == b;
  }

  // ----- which encodings are ambiguous -----

  function Bars(s: string): nat {
    if s == "" then 0 else (if s[0] == '|' then 1 else 0) + Bars(s[1..])
  }

  lemma {:induction false} BarsConcat(s: string, t: string)
    ensures Bars(s + t) == Bars(s) + Bars(t)
  {
    if s == "" {
      assert s + t == t;
    } else {
      assert (s + t)[1..] == s[1..] + t;
      BarsConcat(s[1..], t);
    }
  }

  lemma {:induction false} BarsZero(s: string)
    ensures Bars(s) == 0 <==> '|' !in s
  {
    if s != "" {
      BarsZero(s[1..]);
    }
  }

  lemma BarsJoin(s: string, t: string)
    ensures Bars(s + "|" + t) == Bars(s) + 1 + Bars(t)
  {
    BarsConcat(s + "|", t);
    BarsConcat(s, "|");
    assert Bars("|") == 1 by {
      assert "|"[1..] == "";
    }
  }

  lemma BarsEncode(f: Fields)
    ensures Bars(Encode(f)) == 5 + Bars(f.eventType) + Bars(f.eventTime) + Bars(f.sessionUser)
                                 + Bars(f.database) + Bars(f.commandTag) + Bars(f.queryText)
  {
    EncodeByTails(f);
    BarsJoin(f.eventType, Tail1(f));
    BarsJoin(f.eventTime, Tail2(f));
    BarsJoin(f.sessionUser, Tail3(f));
    BarsJoin(f.database, Tail4(f));
    BarsJoin(f.commandTag, f.queryText);
  }

  predicate HasNoBar(f: Fields) {
    HeadIsPlain(f) && '|' !in f.queryText
  }

  lemma BarsOfFields(f: Fields)
    ensures Bars(Encode(f)) == 5 <==> HasNoBar(f)
  {
    BarsEncode(f);
    BarsZero(f.eventType);
    BarsZero(f.eventTime);
    BarsZero(f.sessionUser);
    BarsZero(f.database);
    BarsZero(f.commandTag);
    BarsZero(f.queryText);
  }

  function Cut(s: string): (string, string)
    requires '|' in s
  {
    var i := IndexOf(s, '|').value;
    (s[..i], s[i + 1..])
  }

  lemma CutJoins(s: string)
    requires '|' in s
    ensures s == Cut(s).0 + "|" + Cut(s).1
    ensures '|' !in Cut(s).0 && Bars(Cut(s).1) == Bars(s) - 1
  {
    BarsJoin(Cut(s).0, Cut(s).1);
    BarsZero(Cut(s).0);
  }

  /** The fields with the first `|` of the text cut at, and so on five times. */
  lemma Resplit(s: string) returns (g: Fields)
    requires Bars(s) >= 5
    ensures HeadIsPlain(g) && Encode(g) == s
  {
    BarsZero(s);
    CutJoins(s);
    var (a, s1) := Cut(s);
    BarsZero(s1);
    CutJoins(s1);
    var (b, s2) := Cut(s1);
    BarsZero(s2);
    CutJoins(s2);
    var (c, s3) := Cut(s2);
    BarsZero(s3);
    CutJoins(s3);
    var (d, s4) := Cut(s3);
    BarsZero(s4);
    CutJoins(s4);
    var (e, q) := Cut(s4);
    g := Fields(a, b, c, d, e, q);
    EncodeByTails(g);
  }

  /**
   Fields with a `|` in the query text alone share their encoding with fields that
   have it in the event type.
   */
  lemma Shift(f: Fields) returns (g: Fields)
    requires '|' in f.queryText
    ensures Encode(g) == Encode(f) && !HeadIsPlain(g)
  {
    CutJoins(f.queryText);
    var (before, after) := Cut(f.queryText);
    var first := f.eventType + "|" + f.eventTime;
    g := Fields(first, f.sessionUser, f.database, f.commandTag, before, after);
    assert first[|f.eventType|] == '|';
    EncodeByTails(f);
    EncodeByTails(g);
    Rejoin(f.commandTag, before, after);
    Rejoin(f.eventType, f.eventTime, Tail2(f));
  }

  lemma Rejoin(a: string, b: string, c: string)
    ensures a + "|" + b + "|" + c == a + "|" + (b + "|" + c)
  {
  }

  /** A payload stands for one list of six fields exactly when none of the six holds a `|`. */
  lemma EncodingIsUnique(f: Fields)
    ensures (forall g :: Encode(g) == Encode(f) ==> g == f) <==> HasNoBar(f)
  {
    if HasNoBar(f) {
      forall g | Encode(g) == Encode(f) ensures g == f {
        BarsOfFields(f);
        BarsOfFields(g);
        EncodeInjective(f, g);
      }
    } else if HeadIsPlain(f) {
      var g := Shift(f);
      assert Encode(g) == Encode(f) && g != f;
    } else {
      BarsEncode(f);
      var g := Resplit(Encode(f));
      assert Encode(g) == Encode(f) && g != f;
    }
  }
}

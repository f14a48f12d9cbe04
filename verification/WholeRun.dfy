/**
 The whole system over one process life: what the pipeline stored, walked by the
 verifier.
 */
module WholeRun {
  import opened Options
  import opened Json
  import opened Chain
  import opened Payload
  import opened HashChains
  import opened Storage
  import opened VerifyChain
  import opened Pipeline
  import opened Writer
  import opened Processors

  /** The rows are those of the emitted events at positions `ps`. */
  predicate StoredAt(db: Database, ser: Serializer, events: seq<Json>, ps: seq<nat>, rows: seq<StoredRow>) {
    && |rows| == |ps| && Increasing(ps) && Below(ps, |events|)
    && var emitted := Emitted(db.sha, events);
       forall i | 0 <= i < |ps| :: rows[i].row == RowOf(ser, emitted[ps[i]])
  }

  predicate FaultAt(db: Database, events: seq<Json>, ps: seq<nat>, i: nat)
    requires i < |ps| && Below(ps, |events|)
  {
    ps[i] != i || !Canonical(db, events[ps[i]])
  }

  /**
   The first stored row that follows a gap in the chain, or whose event the verifier
   cannot re-create; the number of rows if there is none.
   */
  function FirstFault(db: Database, events: seq<Json>, ps: seq<nat>, from: nat): (r: nat)
    requires from <= |ps| && Below(ps, |events|)
    ensures from <= r <= |ps|
    ensures forall i | from <= i < r :: !FaultAt(db, events, ps, i)
    ensures r < |ps| ==> FaultAt(db, events, ps, r)
    decreases |ps| - from
  {
    if from == |ps| || FaultAt(db, events, ps, from) then from else FirstFault(db, events, ps, from + 1)
  }

  /**
   The texts that would have to share a digest for the first fault to go unseen. For
   a gap: where the chains up to the stored row and up to its place first differ. For
   an event that is not canonical: its hashed text and the verifier's.
   */
  function Blame(db: Database, events: seq<Json>, ps: seq<nat>, rows: seq<StoredRow>): (string, string)
    requires Increasing(ps) && Below(ps, |events|) && |rows| == |ps|
  {
    var p, f := Payloads(events), FirstFault(db, events, ps, 0);
    if f == |ps| then ("", "")
    else
      IncreasingFrom(ps, f);
      if ps[f] != f then FindCollision(db.sha, p[..ps[f]], p[..f]).GetOr(("", ""))
      else (Head(db.sha, p[..f]) + RowPayload(db, rows[f].row), Head(db.sha, p[..f]) + p[f])
  }

  lemma {:induction false} IncreasingFrom(ps: seq<nat>, i: nat)
    requires Increasing(ps) && i < |ps|
    ensures i <= ps[i]
  {
    if i > 0 {
      IncreasingFrom(ps, i - 1);
    }
  }

  lemma LinkedRow(db: Database, ser: Serializer, event: Json, prev: string, hash: string)
    requires Chainable(event)
    ensures
      var row := RowOf(ser, Linked(event, prev, hash));
      && row.prevHash == Some(prev) && row.eventHash == Some(hash)
      && (RowPayload(db, row) == BuildPayload(event) <==> Canonical(db, event))
  {
    var linked := Linked(event, prev, hash);
    PayloadAgrees(db, ser, linked);
    LinkedKeepsPayload(event, prev, hash);
    LinkedKeepsCanonical(db, event, prev, hash);
  }

  /** Linking changes the two hash columns of the row and no other. */
  lemma LinkedRowIs(ser: Serializer, event: Json, prev: string, hash: string)
    requires Chainable(event)
    ensures RowOf(ser, Linked(event, prev, hash))
         == RowOf(ser, event).(prevHash := Some(prev), eventHash := Some(hash))
  {
    var linked := Linked(event, prev, hash);
    LinkedIs(event, prev, hash);
    KeptColumns(ser, event, linked);
  }

  lemma KeptColumns(ser: Serializer, event: Json, linked: Json)
    requires forall k | k != "prev_hash" && k != "event_hash" :: At(linked, k) == At(event, k)
    ensures RowOf(ser, linked)
         == RowOf(ser, event).(prevHash := TextOf(linked, "prev_hash"), eventHash := TextOf(linked, "event_hash"))
  {
    KeyKept(event, linked, "event_type");
    KeyKept(event, linked, "event_time");
    KeyKept(event, linked, "success");
    KeyKept(event, linked, "session_user");
    KeyKept(event, linked, "client_addr");
    KeyKept(event, linked, "client_port");
    KeyKept(event, linked, "database");
    KeyKept(event, linked, "pid");
    KeyKept(event, linked, "application");
    KeyKept(event, linked, "command_tag");
    KeyKept(event, linked, "object_type");
    KeyKept(event, linked, "object_name");
    KeyKept(event, linked, "schema_name");
    KeyKept(event, linked, "query_text");
    KeyKept(event, linked, "sqlstate");
    KeyKept(event, linked, "detail");
  }

  lemma KeyKept(event: Json, linked: Json, key: string)
    requires forall k | k != "prev_hash" && k != "event_hash" :: At(linked, k) == At(event, k)
    requires |key| != 9 && (|key| == 10 ==> key[6] != 'h')
    ensures At(linked, key) == At(event, key)
  {
    assert |"prev_hash"| == 9 && |"event_hash"| == 10 && "event_hash"[6] == 'h';
  }

  /**
   A stored row is that of its event as it arrived, with the heads of the chain before
   and after it in its two hash columns.
   */
  lemma StoredRowIs(db: Database, ser: Serializer, events: seq<Json>, ps: seq<nat>, rows: seq<StoredRow>, i: nat)
    requires StoredAt(db, ser, events, ps, rows) && i < |ps|
    requires forall k | 0 <= k < |events| :: Chainable(events[k])
    ensures
      var p, k := Payloads(events), ps[i];
      rows[i].row == RowOf(ser, events[k]).(prevHash := Some(Head(db.sha, p[..k])),
                                            eventHash := Some(Head(db.sha, p[..k + 1])))
  {
    var p, k := Payloads(events), ps[i];
    EmittedAt(db.sha, events, k);
    LinkedRowIs(ser, events[k], Head(db.sha, p[..k]), Head(db.sha, p[..k + 1]));
  }

  lemma LinkedKeepsCanonical(db: Database, event: Json, prev: string, hash: string)
    requires Chainable(event)
    ensures Canonical(db, Linked(event, prev, hash)) == Canonical(db, event)
  {
    var linked := Linked(event, prev, hash);
    assert At(linked, "event_type") == At(event, "event_type");
    assert At(linked, "event_time") == At(event, "event_time");
  }

  /** What a stored row says: the heads of the chain before and after its event. */
  predicate SaysAt(db: Database, events: seq<Json>, ps: seq<nat>, rows: seq<StoredRow>, i: nat)
    requires i < |ps| == |rows| && ps[i] < |events|
  {
    var p, k := Payloads(events), ps[i];
    && rows[i].row.prevHash == Some(Head(db.sha, p[..k]))
    && rows[i].row.eventHash == Some(Head(db.sha, p[..k + 1]))
    && Head(db.sha, p[..k + 1]) == db.sha(Head(db.sha, p[..k]) + p[k])
    && (RowPayload(db, rows[i].row) == p[k] <==> Canonical(db, events[k]))
  }

  lemma EmittedAt(sha: Sha, events: seq<Json>, k: nat)
    requires k < |events|
    ensures
      var p := Payloads(events);
      && Emitted(sha, events)[k] == Linked(events[k], Head(sha, p[..k]), Head(sha, p[..k + 1]))
      && Head(sha, p[..k + 1]) == sha(Head(sha, p[..k]) + p[k])
  {
    var p := Payloads(events);
    assert Payloads(events[..k]) == p[..k];
    assert Payloads(events[..k + 1]) == p[..k + 1];
    assert p[..k + 1][..k] == p[..k];
  }

  lemma RowSays(db: Database, ser: Serializer, events: seq<Json>, ps: seq<nat>, rows: seq<StoredRow>, i: nat)
    requires StoredAt(db, ser, events, ps, rows) && i < |ps|
    requires forall k | 0 <= k < |events| :: Chainable(events[k])
    ensures SaysAt(db, events, ps, rows, i)
  {
    var p, k := Payloads(events), ps[i];
    EmittedAt(db.sha, events, k);
    LinkedRow(db, ser, events[k], Head(db.sha, p[..k]), Head(db.sha, p[..k + 1]));
  }

  /** The verdict on row `i` once every row before it stands in its own place. */
  lemma GoodInPlace(db: Database, events: seq<Json>, ps: seq<nat>, rows: seq<StoredRow>, i: nat)
    requires |rows| == |ps| && Increasing(ps) && Below(ps, |events|) && i < |ps|
    requires SaysAt(db, events, ps, rows, i)
    requires i > 0 ==> ps[i - 1] == i - 1 && SaysAt(db, events, ps, rows, i - 1)
    ensures i <= ps[i]
    ensures
      var p, k := Payloads(events), ps[i];
      GoodAt(db.sha, Select(db, rows), i)
      <==> Head(db.sha, p[..k]) == Head(db.sha, p[..i])
           && db.sha(Head(db.sha, p[..k]) + p[k]) == db.sha(Head(db.sha, p[..i]) + RowPayload(db, rows[i].row))
  {
    var p := Payloads(events);
    assert PrevAt(Select(db, rows), i) == Some(Head(db.sha, p[..i]));
  }

  /** Every stored row says so. */
  predicate RowsSay(db: Database, events: seq<Json>, ps: seq<nat>, rows: seq<StoredRow>) {
    && |rows| == |ps| && Increasing(ps) && Below(ps, |events|)
    && forall i | 0 <= i < |ps| :: SaysAt(db, events, ps, rows, i)
  }

  lemma StoredRowsSay(db: Database, ser: Serializer, events: seq<Json>, ps: seq<nat>, rows: seq<StoredRow>)
    requires StoredAt(db, ser, events, ps, rows)
    requires forall k | 0 <= k < |events| :: Chainable(events[k])
    ensures RowsSay(db, events, ps, rows)
  {
    forall i | 0 <= i < |ps| ensures SaysAt(db, events, ps, rows, i) {
      RowSays(db, ser, events, ps, rows, i);
    }
  }

  /** A row in its own place, after rows in theirs, is good if its event is canonical. */
  lemma FaultlessIsGood(db: Database, events: seq<Json>, ps: seq<nat>, rows: seq<StoredRow>, i: nat)
    requires RowsSay(db, events, ps, rows) && i < |ps|
    requires !FaultAt(db, events, ps, i) && (i > 0 ==> !FaultAt(db, events, ps, i - 1))
    ensures GoodAt(db.sha, Select(db, rows), i)
  {
    GoodInPlace(db, events, ps, rows, i);
  }

  /**
   Where the verifier stops: at the first fault, exactly, unless the two texts the
   fault points to have one digest. The first event's type must be shorter than 64
   characters; nothing else is asked of the events or of the run.
   */
  lemma VerifierFindsFirstFault(db: Database, ser: Serializer, events: seq<Json>, ps: seq<nat>, rows: seq<StoredRow>)
    requires GivesDigests(db.sha)
    requires StoredAt(db, ser, events, ps, rows)
    requires forall k | 0 <= k < |events| :: Chainable(events[k])
    requires events != [] ==> |TextAt(events[0], "event_type")| < 64
    ensures FirstBroken(db, rows) == FirstFault(db, events, ps, 0) || IsCollision(db.sha, Blame(db, events, ps, rows))
  {
    StoredRowsSay(db, ser, events, ps, rows);
    if events != [] {
      GenesisIsSafe(events);
    }
    StopsAtFirstFault(db, events, ps, rows);
  }

  lemma StopsAtFirstFault(db: Database, events: seq<Json>, ps: seq<nat>, rows: seq<StoredRow>)
    requires GivesDigests(db.sha) && RowsSay(db, events, ps, rows)
    requires events != [] ==> GenesisSafe(Payloads(events)[0])
    ensures FirstBroken(db, rows) == FirstFault(db, events, ps, 0) || IsCollision(db.sha, Blame(db, events, ps, rows))
  {
    var f := FirstFault(db, events, ps, 0);
    forall i | 0 <= i < f ensures GoodAt(db.sha, Select(db, rows), i) {
      assert !FaultAt(db, events, ps, i);
      assert i > 0 ==> !FaultAt(db, events, ps, i - 1);
      FaultlessIsGood(db, events, ps, rows, i);
    }
    if f < |ps| && GoodAt(db.sha, Select(db, rows), f) {
      assert f > 0 ==> !FaultAt(db, events, ps, f - 1);
      FaultUnseen(db, events, ps, rows, f);
    }
  }

  lemma FaultUnseen(db: Database, events: seq<Json>, ps: seq<nat>, rows: seq<StoredRow>, f: nat)
    requires GivesDigests(db.sha) && RowsSay(db, events, ps, rows)
    requires events != [] ==> GenesisSafe(Payloads(events)[0])
    requires f < |ps| && f == FirstFault(db, events, ps, 0) && GoodAt(db.sha, Select(db, rows), f)
    requires f > 0 ==> ps[f - 1] == f - 1
    ensures IsCollision(db.sha, Blame(db, events, ps, rows))
  {
    var p := Payloads(events);
    GoodInPlace(db, events, ps, rows, f);
    if ps[f] != f {
      PrefixesCollide(db.sha, p, ps[f], f);
    } else {
      SamePrefix(Head(db.sha, p[..f]), RowPayload(db, rows[f].row), p[f]);
    }
  }

  /** Two heads of one chain are equal only by a collision. */
  lemma PrefixesCollide(sha: Sha, p: seq<string>, m: nat, n: nat)
    requires GivesDigests(sha) && n < m <= |p| && GenesisSafe(p[0])
    requires Head(sha, p[..m]) == Head(sha, p[..n])
    ensures
      var found := FindCollision(sha, p[..m], p[..n]);
      found.Some? && IsCollision(sha, found.value)
  {
    SameHead(sha, p[..m], p[..n]);
    assert |p[..m]| != |p[..n]|;
  }

  lemma SamePrefix(h: string, x: string, y: string)
    ensures h + x == h + y <==> x == y
  {
    if h + x == h + y {
      assert (h + x)[|h|..] == x && (h + y)[|h|..] == y;
    }
  }

  lemma GenesisIsSafe(events: seq<Json>)
    requires events != [] && |TextAt(events[0], "event_type")| < 64
    ensures GenesisSafe(Payloads(events)[0])
  {
    var f := FieldsOf(events[0]);
    EncodeByTails(f);
    ShortTypeIsSafe(f.eventType, Tail1(f));
  }

  /** The stored events are the first of the chain, with none left out. */
  predicate IsPrefix(ps: seq<nat>) {
    forall i | 0 <= i < |ps| :: ps[i] == i
  }

  /**
   Whole-run agreement: the table is accepted exactly when what is stored is an
   unbroken prefix of the emitted chain and every stored event is canonical, or else
   there is an explicit collision.
   */
  lemma WholeRunAgreement(db: Database, ser: Serializer, events: seq<Json>, acts: seq<Act>, rows: seq<StoredRow>)
    requires GivesDigests(db.sha)
    requires Arrivals(acts) == |events|
    requires forall k | 0 <= k < |events| :: Chainable(events[k])
    requires events != [] ==> |TextAt(events[0], "event_type")| < 64
    requires Holds(ser, rows, Run(acts, Emitted(db.sha, events)).stored)
    ensures
      var ps := Run(acts, Positions(|events|)).stored;
      && StoredAt(db, ser, events, ps, rows)
      && ((Accepted(db, rows) <==> IsPrefix(ps) && forall i | 0 <= i < |ps| :: Canonical(db, events[ps[i]]))
          || IsCollision(db.sha, Blame(db, events, ps, rows)))
  {
    var ps := Run(acts, Positions(|events|)).stored;
    StoredRows(db, ser, events, acts, rows);
    VerifierFindsFirstFault(db, ser, events, ps, rows);
    AcceptedMeansUnbroken(db, rows);
    NoFaultMeansPrefix(db, events, ps);
  }

  lemma AcceptedMeansUnbroken(db: Database, rows: seq<StoredRow>)
    ensures Accepted(db, rows) <==> FirstBroken(db, rows) == |rows|
  {
    assert |Select(db, rows)| == |rows|;
  }

  lemma NoFaultMeansPrefix(db: Database, events: seq<Json>, ps: seq<nat>)
    requires Below(ps, |events|)
    ensures FirstFault(db, events, ps, 0) == |ps|
       <==> IsPrefix(ps) && forall i | 0 <= i < |ps| :: Canonical(db, events[ps[i]])
  {
    var f := FirstFault(db, events, ps, 0);
    if f < |ps| {
      assert FaultAt(db, events, ps, f);
    } else {
      forall i | 0 <= i < |ps| ensures ps[i] == i && Canonical(db, events[ps[i]]) {
        assert !FaultAt(db, events, ps, i);
      }
    }
  }

  lemma StoredRows(db: Database, ser: Serializer, events: seq<Json>, acts: seq<Act>, rows: seq<StoredRow>)
    requires Arrivals(acts) == |events|
    requires Holds(ser, rows, Run(acts, Emitted(db.sha, events)).stored)
    ensures StoredAt(db, ser, events, Run(acts, Positions(|events|)).stored, rows)
  {
    var emitted := Emitted(db.sha, events);
    RunMirrors(acts, emitted);
    RunKeepsOrder(acts, |events|);
    var p, r := Run(acts, emitted), Run(acts, Positions(|events|));
    assert forall i | 0 <= i < |r.stored| :: r.stored[i] == Content(r)[i];
  }

  /** A run that lost nothing, of canonical events, leaves a table the verifier accepts. */
  lemma LosslessRunIsAccepted(db: Database, ser: Serializer, events: seq<Json>, acts: seq<Act>, rows: seq<StoredRow>)
    requires Arrivals(acts) == |events|
    requires forall k | 0 <= k < |events| :: Chainable(events[k]) && Canonical(db, events[k])
    requires Holds(ser, rows, Run(acts, Emitted(db.sha, events)).stored)
    requires Lost(acts, Positions(|events|)) == []
    ensures Accepted(db, rows)
  {
    var n := |events|;
    var r := Run(acts, Positions(n));
    StoredRows(db, ser, events, acts, rows);
    ConservationExact(acts, Positions(n));
    assert Positions(n)[..n] == Positions(n);
    StoredRowsSay(db, ser, events, r.stored, rows);
    forall i | 0 <= i < |rows| ensures GoodAt(db.sha, Select(db, rows), i) {
      assert r.stored[i] == Content(r)[i] == i;
      assert i > 0 ==> r.stored[i - 1] == Content(r)[i - 1] == i - 1;
      FaultlessIsGood(db, events, r.stored, rows, i);
    }
  }

  /**
   A lost event shows: once any later event is stored, the verifier reports a row no
   later than the first one stored after the gap, or there is an explicit collision.
   */
  lemma LossIsReported(
      db: Database, ser: Serializer, events: seq<Json>, acts: seq<Act>, rows: seq<StoredRow>, lost: nat, later: nat)
    requires GivesDigests(db.sha)
    requires Arrivals(acts) == |events|
    requires forall k | 0 <= k < |events| :: Chainable(events[k])
    requires events != [] ==> |TextAt(events[0], "event_type")| < 64
    requires StoredAt(db, ser, events, Run(acts, Positions(|events|)).stored, rows)
    requires lost in Lost(acts, Positions(|events|))
    requires later < |rows| && lost < Run(acts, Positions(|events|)).stored[later]
    ensures
      var ps := Run(acts, Positions(|events|)).stored;
      FirstBroken(db, rows) <= later || IsCollision(db.sha, Blame(db, events, ps, rows))
  {
    var ps := Run(acts, Positions(|events|)).stored;
    VerifierFindsFirstFault(db, ser, events, ps, rows);
    LossMakesFault(db, events, acts, lost, later);
  }

  lemma LossMakesFault(db: Database, events: seq<Json>, acts: seq<Act>, lost: nat, later: nat)
    requires Arrivals(acts) == |events|
    requires lost in Lost(acts, Positions(|events|))
    requires
      var ps := Run(acts, Positions(|events|)).stored;
      Below(ps, |events|) && later < |ps| && lost < ps[later]
    ensures FirstFault(db, events, Run(acts, Positions(|events|)).stored, 0) <= later
  {
    var r := Run(acts, Positions(|events|));
    var ps := r.stored;
    LossAccounting(acts, |events|);
    assert Content(r)[..|ps|] == ps;
    assert lost !in ps by {
      assert forall i | 0 <= i < |ps| :: ps[i] == Content(r)[i];
    }
    if ps[later] != later {
      assert FaultAt(db, events, ps, later);
    } else {
      assert ps[lost] != lost;
      assert FaultAt(db, events, ps, lost);
    }
  }

  /**
   A later process life starts its chain afresh, whether or not its first events were
   stored: the verifier stops at its first stored row or before it, unless what the
   life chained up to that row is what the earlier rows hold, or there is an explicit
   collision.
   */
  lemma LaterLifeIsReported(
      db: Database, ser: Serializer, earlier: seq<StoredRow>, events: seq<Json>, ps: seq<nat>, rows: seq<StoredRow>)
    requires GivesDigests(db.sha)
    requires StoredAt(db, ser, events, ps, rows)
    requires forall k | 0 <= k < |events| :: Chainable(events[k])
    requires earlier != [] && |earlier[0].row.eventType| < 64
    requires ps != [] && events != [] && |TextAt(events[0], "event_type")| < 64
    ensures
      var p, q := RowPayloads(db, earlier), Payloads(events)[..ps[0]];
      || FirstBroken(db, earlier + rows) <= |earlier|
      || (match FindCollision(db.sha, p, q)
          case Some(pair) => IsCollision(db.sha, pair)
          case None => p == q)
  {
    if FirstBroken(db, earlier + rows) > |earlier| {
      var p, q := RowPayloads(db, earlier), Payloads(events)[..ps[0]];
      RowSays(db, ser, events, ps, rows, 0);
      MeetsEarlier(db, earlier, rows);
      FirstPayloadIsSafe(db, earlier[0].row);
      GenesisIsSafe(events);
      SameHead(db.sha, p, q);
    }
  }

  /** A good row after the earlier ones names the head of their chain. */
  lemma MeetsEarlier(db: Database, earlier: seq<StoredRow>, rows: seq<StoredRow>)
    requires rows != [] && FirstBroken(db, earlier + rows) > |earlier|
    ensures rows[0].row.prevHash == Some(Head(db.sha, RowPayloads(db, earlier)))
  {
    var all, n := earlier + rows, |earlier|;
    GoodRecordsFormChain(db.sha, Select(db, all), n);
    SelectedPayloads(db, all);
    assert GoodAt(db.sha, Select(db, all), n);
    assert RowPayloads(db, all)[..n] == RowPayloads(db, earlier);
    assert all[n] == rows[0];
  }

  /** With the first event of the later life stored, the verifier stops, and nothing is asked of the types. */
  lemma LaterLifeFromItsFirst(
      db: Database, ser: Serializer, earlier: seq<StoredRow>, events: seq<Json>, ps: seq<nat>, rows: seq<StoredRow>)
    requires GivesDigests(db.sha)
    requires StoredAt(db, ser, events, ps, rows)
    requires forall k | 0 <= k < |events| :: Chainable(events[k])
    requires earlier != [] && ps != [] && ps[0] == 0
    ensures !Accepted(db, earlier + rows) && FirstBroken(db, earlier + rows) <= |earlier|
  {
    RowSays(db, ser, events, ps, rows, 0);
    var all := earlier + rows;
    assert all[|earlier|] == rows[0];
    assert Payloads(events)[..0] == [];
    RestartIsReported(db, all, |earlier|);
    assert !GoodAt(db.sha, Select(db, all), FirstBroken(db, all));
  }

  /**
   The state the processor reaches is one the theorems above speak of: its table is
   accepted exactly when the stored part is an unbroken, canonical prefix of what it
   emitted, or there is an explicit collision.
   */
  method RunAndVerify(db: Database, ser: Serializer, inputs: seq<Input>)
    returns (p: Processor, checkedCount: nat, valid: bool, firstBrokenId: Option<int>)
    requires GivesDigests(db.sha)
    requires forall i | 0 <= i < |inputs| && inputs[i].Event? :: Chainable(inputs[i].event)
    requires Events(inputs) != [] ==> |TextAt(Events(inputs)[0], "event_type")| < 64
    ensures fresh(p) && p.Valid()
    ensures Arrivals(Acts(inputs)) == |Events(inputs)|
    ensures
      var events := Events(inputs);
      var ps := Run(Acts(inputs), Positions(|events|)).stored;
      && StoredAt(db, ser, events, ps, p.writer.table)
      && ((valid <==> IsPrefix(ps) && forall i | 0 <= i < |ps| :: Canonical(db, events[ps[i]]))
          || IsCollision(db.sha, Blame(db, events, ps, p.writer.table)))
  {
    p := Process(db.sha, ser, inputs);
    EventsChainable(inputs);
    WholeRunAgreement(db, ser, Events(inputs), Acts(inputs), p.writer.table);
    checkedCount, valid, firstBrokenId := Verify(db, p.writer.table);
  }

  lemma {:induction false} EventsChainable(inputs: seq<Input>)
    requires forall i | 0 <= i < |inputs| && inputs[i].Event? :: Chainable(inputs[i].event)
    ensures forall k | 0 <= k < |Events(inputs)| :: Chainable(Events(inputs)[k])
    decreases |inputs|
  {
    if inputs != [] {
      EventsChainable(inputs[..|inputs| - 1]);
    }
  }
}

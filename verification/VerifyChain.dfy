/** The in-database verifier (ext/vibe_audit--1.1.sql, `verify_chain`). */
module VerifyChain {
  import opened Options
  import opened Json
  import opened Chain
  import opened Payload
  import opened Storage

  /**
   What the database computes: the digest, and the UTC millisecond rendering of a
   stored event time given as the text it was cast from.
   */
  datatype Database = Database(sha: Sha, render: string -> string)

  function RowFields(db: Database, row: EventRow): Fields {
    Fields(row.eventType, db.render(row.eventTime), row.sessionUser.GetOr(""), row.database.GetOr(""),
           row.commandTag.GetOr(""), row.queryText.GetOr(""))
  }

  function RowPayload(db: Database, row: EventRow): string {
    Encode(RowFields(db, row))
  }

  function RowPayloads(db: Database, rows: seq<StoredRow>): seq<string> {
    seq(|rows|, i requires 0 <= i < |rows| => RowPayload(db, rows[i].row))
  }

  /** One record of the verifier's query: the payload is put together in the select list. */
  datatype Record = Record(id: int, eventHash: Option<string>, prevHash: Option<string>, eventPayload: string)

  function Select(db: Database, rows: seq<StoredRow>): seq<Record> {
    seq(|rows|, i requires 0 <= i < |rows| =>
        Record(rows[i].id, rows[i].row.eventHash, rows[i].row.prevHash, RowPayload(db, rows[i].row)))
  }

  /** The `prev` the loop holds at record `k`. */
  function PrevAt(recs: seq<Record>, k: nat): Option<string>
    requires k < |recs|
  {
    if k == 0 then Some("") else recs[k - 1].eventHash
  }

  function Computed(sha: Sha, prev: Option<string>, payload: string): Option<string> {
    match prev
    case Some(p) => Some(sha(p + payload))
    case None => None
  }

  /** Record `k` names its predecessor's hash and re-hashes to its own. */
  predicate GoodAt(sha: Sha, recs: seq<Record>, k: nat)
    requires k < |recs|
  {
    && recs[k].prevHash == PrevAt(recs, k)
    && recs[k].eventHash == Computed(sha, PrevAt(recs, k), recs[k].eventPayload)
  }

  /** The first record from `from` on that is not good, or the number of records. */
  function FirstBad(sha: Sha, recs: seq<Record>, from: nat): (r: nat)
    requires from <= |recs|
    ensures from <= r <= |recs|
    ensures forall k | from <= k < r :: GoodAt(sha, recs, k)
    ensures r < |recs| ==> !GoodAt(sha, recs, r)
    decreases |recs| - from
  {
    if from == |recs| || !GoodAt(sha, recs, from) then from else FirstBad(sha, recs, from + 1)
  }

  /** Every row is good. */
  predicate Accepted(db: Database, rows: seq<StoredRow>) {
    var recs := Select(db, rows);
    forall k | 0 <= k < |recs| :: GoodAt(db.sha, recs, k)
  }

  /** Row `k` links to the row before it, or to the empty text, and hashes that link and its payload. */
  predicate LinksAndHashes(db: Database, rows: seq<StoredRow>, k: nat)
    requires k < |rows|
  {
    var prev := if k == 0 then Some("") else rows[k - 1].row.eventHash;
    && rows[k].row.prevHash == prev
    && match prev
       case Some(h) => rows[k].row.eventHash == Some(db.sha(h + RowPayload(db, rows[k].row)))
       case None => rows[k].row.eventHash == None
  }

  lemma GoodIs(db: Database, rows: seq<StoredRow>, k: nat)
    requires k < |rows|
    ensures GoodAt(db.sha, Select(db, rows), k) <==> LinksAndHashes(db, rows, k)
  {
  }

  /** Acceptance, from the rows alone. */
  lemma AcceptedIs(db: Database, rows: seq<StoredRow>)
    ensures Accepted(db, rows) <==> forall k | 0 <= k < |rows| :: LinksAndHashes(db, rows, k)
  {
    assert |Select(db, rows)| == |rows|;
    forall k | 0 <= k < |rows| ensures GoodAt(db.sha, Select(db, rows), k) <==> LinksAndHashes(db, rows, k) {
      GoodIs(db, rows, k);
    }
  }

  /** The position of the first row that is not good, or the number of rows. */
  function FirstBroken(db: Database, rows: seq<StoredRow>): (r: nat)
    ensures r <= |rows|
    ensures forall k | 0 <= k < r :: GoodAt(db.sha, Select(db, rows), k)
    ensures r < |rows| ==> !GoodAt(db.sha, Select(db, rows), r)
  {
    FirstBad(db.sha, Select(db, rows), 0)
  }

  lemma GoodHere(sha: Sha, recs: seq<Record>, k: nat, prev: Option<string>)
    requires k < |recs| && prev == PrevAt(recs, k)
    ensures GoodAt(sha, recs, k)
       <==> recs[k].prevHash == prev && recs[k].eventHash == Computed(sha, prev, recs[k].eventPayload)
  {
  }

  lemma BadHere(sha: Sha, recs: seq<Record>, k: nat)
    requires k < |recs| && !GoodAt(sha, recs, k)
    requires forall j | 0 <= j < k :: GoodAt(sha, recs, j)
    ensures FirstBad(sha, recs, 0) == k
    ensures !(forall j | 0 <= j < |recs| :: GoodAt(sha, recs, j))
  {
  }

  /**
   `verify_chain`, over the rows in id order. It is exact: valid means every row is
   good; otherwise the id is that of the first bad row, all rows before it are good,
   and the count is its position.
   */
  method Verify(db: Database, rows: seq<StoredRow>)
    returns (checkedCount: nat, valid: bool, firstBrokenId: Option<int>)
    ensures valid <==> Accepted(db, rows)
    ensures valid ==> checkedCount == |rows| && firstBrokenId == None
    ensures !valid ==>
      var bad := FirstBroken(db, rows);
      && bad < |rows| && firstBrokenId == Some(rows[bad].id) && checkedCount == bad + 1
  {
    var recs := Select(db, rows);
    checkedCount, valid, firstBrokenId := WalkRecords(db.sha, recs);
  }

  /** The loop of `verify_chain`, over the records its query returns. */
  method WalkRecords(sha: Sha, recs: seq<Record>)
    returns (checkedCount: nat, valid: bool, firstBrokenId: Option<int>)
    ensures valid <==> forall k | 0 <= k < |recs| :: GoodAt(sha, recs, k)
    ensures valid ==> checkedCount == |recs| && firstBrokenId == None
    ensures !valid ==>
      var bad := FirstBad(sha, recs, 0);
      && bad < |recs| && firstBrokenId == Some(recs[bad].id) && checkedCount == bad + 1
  {
    valid := true;
    firstBrokenId := None;
    var prev: Option<string> := Some("");
    var rowCount := 0;
    while rowCount < |recs|
      invariant 0 <= rowCount <= |recs| && valid && firstBrokenId == None
      invariant rowCount < |recs| ==> prev == PrevAt(recs, rowCount)
      invariant forall k | 0 <= k < rowCount :: GoodAt(sha, recs, k)
    {
      var rec := recs[rowCount];
      GoodHere(sha, recs, rowCount, prev);
      rowCount := rowCount + 1;
      if rec.prevHash != prev {
        valid := false;
        firstBrokenId := Some(rec.id);
        checkedCount := rowCount;
        BadHere(sha, recs, rowCount - 1);
        return;
      }
      var computed := Computed(sha, prev, rec.eventPayload);
      if rec.eventHash != computed {
        valid := false;
        firstBrokenId := Some(rec.id);
        checkedCount := rowCount;
        BadHere(sha, recs, rowCount - 1);
        return;
      }
      prev := rec.eventHash;
    }
    checkedCount := rowCount;
  }

  function RecordPayloads(recs: seq<Record>): seq<string> {
    seq(|recs|, i requires 0 <= i < |recs| => recs[i].eventPayload)
  }

  /** The hash of each good record is the head of the chain of payloads up to it. */
  lemma {:induction false} GoodRecordsFormChain(sha: Sha, recs: seq<Record>, n: nat)
    requires n <= |recs| && forall k | 0 <= k < n :: GoodAt(sha, recs, k)
    ensures n > 0 ==> recs[n - 1].eventHash == Some(Head(sha, RecordPayloads(recs)[..n]))
    ensures n < |recs| ==> PrevAt(recs, n) == Some(Head(sha, RecordPayloads(recs)[..n]))
    decreases n
  {
    if n > 0 {
      GoodRecordsFormChain(sha, recs, n - 1);
      var ps := RecordPayloads(recs)[..n];
      assert ps[..n - 1] == RecordPayloads(recs)[..n - 1];
      assert GoodAt(sha, recs, n - 1);
    }
  }

  lemma SelectedPayloads(db: Database, rows: seq<StoredRow>)
    ensures RecordPayloads(Select(db, rows)) == RowPayloads(db, rows)
  {
  }

  /**
   Tamper evidence: two accepted tables with the same last hash, whose first event
   types are shorter than 64 characters, hold the same payloads row by row, or the
   walk back from the last rows exhibits two texts with one digest.
   */
  lemma TamperEvidence(db: Database, a: seq<StoredRow>, b: seq<StoredRow>)
    requires GivesDigests(db.sha) && a != [] && b != []
    requires Accepted(db, a) && Accepted(db, b)
    requires a[|a| - 1].row.eventHash == b[|b| - 1].row.eventHash
    requires |a[0].row.eventType| < 64 && |b[0].row.eventType| < 64
    ensures
      match FindCollision(db.sha, RowPayloads(db, a), RowPayloads(db, b))
      case Some(pair) => IsCollision(db.sha, pair)
      case None => RowPayloads(db, a) == RowPayloads(db, b)
  {
    AcceptedHead(db, a);
    AcceptedHead(db, b);
    SameHead(db.sha, RowPayloads(db, a), RowPayloads(db, b));
  }

  lemma AcceptedHead(db: Database, rows: seq<StoredRow>)
    requires rows != [] && Accepted(db, rows) && |rows[0].row.eventType| < 64
    ensures rows[|rows| - 1].row.eventHash == Some(Head(db.sha, RowPayloads(db, rows)))
    ensures GenesisSafe(RowPayloads(db, rows)[0])
  {
    var p := RowPayloads(db, rows);
    SelectedPayloads(db, rows);
    GoodRecordsFormChain(db.sha, Select(db, rows), |rows|);
    assert p[..|rows|] == p;
    FirstPayloadIsSafe(db, rows[0].row);
  }

  /**
   The verifier sees the six hashed columns and the two hash columns only: any other
   column can differ without changing its verdict.
   */
  lemma OnlyHashedColumnsCount(db: Database, a: seq<StoredRow>, b: seq<StoredRow>)
    requires |a| == |b|
    requires forall i | 0 <= i < |a| ::
        a[i].id == b[i].id && RowFields(db, a[i].row) == RowFields(db, b[i].row)
        && a[i].row.prevHash == b[i].row.prevHash && a[i].row.eventHash == b[i].row.eventHash
    ensures Accepted(db, a) == Accepted(db, b) && FirstBroken(db, a) == FirstBroken(db, b)
  {
    assert Select(db, a) == Select(db, b);
  }

  lemma FirstPayloadIsSafe(db: Database, row: EventRow)
    requires |row.eventType| < 64
    ensures GenesisSafe(RowPayload(db, row))
  {
    EncodeByTails(RowFields(db, row));
    ShortTypeIsSafe(row.eventType, Tail1(RowFields(db, row)));
  }

  /**
   The condition on first event types cannot be dropped: from every accepted table of
   two rows comes an accepted table of one, with the same last hash and other payloads,
   and no collision. Its row is the second one with the first one's digest in front of
   its type.
   */
  lemma UnsafeTableForges(db: Database, r1: StoredRow, r2: StoredRow)
    requires GivesDigests(db.sha) && Accepted(db, [r1, r2])
    ensures
      var digest := db.sha(RowPayload(db, r1.row));
      var forged := r2.(row := r2.row.(eventType := digest + r2.row.eventType, prevHash := Some("")));
      && Accepted(db, [forged]) && forged.row.eventHash == r2.row.eventHash
      && RowPayloads(db, [forged]) != RowPayloads(db, [r1, r2])
      && FindCollision(db.sha, RowPayloads(db, [forged]), RowPayloads(db, [r1, r2])).None?
  {
    var first, second := RowPayload(db, r1.row), RowPayload(db, r2.row);
    var digest := db.sha(first);
    var forged := r2.(row := r2.row.(eventType := digest + r2.row.eventType, prevHash := Some("")));
    LongerType(db, r2.row, digest, Some(""));
    UnsafeGenesisForges(db.sha, first, second);
    assert RowPayloads(db, [r1, r2]) == [first, second] && RowPayloads(db, [forged]) == [digest + second];
    TwoGoodRows(db, r1, r2);
    assert "" + (digest + second) == digest + second;
  }

  lemma LongerType(db: Database, row: EventRow, digest: string, prev: Option<string>)
    ensures RowPayload(db, row.(eventType := digest + row.eventType, prevHash := prev)) == digest + RowPayload(db, row)
  {
    var longer := row.(eventType := digest + row.eventType, prevHash := prev);
    EncodeByTails(RowFields(db, row));
    EncodeByTails(RowFields(db, longer));
    assert Tail1(RowFields(db, longer)) == Tail1(RowFields(db, row));
  }

  lemma TwoGoodRows(db: Database, r1: StoredRow, r2: StoredRow)
    requires Accepted(db, [r1, r2])
    ensures r2.row.eventHash == Some(db.sha(db.sha(RowPayload(db, r1.row)) + RowPayload(db, r2.row)))
  {
    var recs := Select(db, [r1, r2]);
    assert GoodAt(db.sha, recs, 0) && GoodAt(db.sha, recs, 1);
    assert "" + RowPayload(db, r1.row) == RowPayload(db, r1.row);
  }

  /**
   With no `|` in the five leading columns, accepted tables with one last hash agree
   on every hashed column of every row, or there is a collision.
   */
  lemma TamperEvidenceFields(db: Database, a: seq<StoredRow>, b: seq<StoredRow>)
    requires GivesDigests(db.sha) && a != [] && b != []
    requires Accepted(db, a) && Accepted(db, b)
    requires a[|a| - 1].row.eventHash == b[|b| - 1].row.eventHash
    requires |a[0].row.eventType| < 64 && |b[0].row.eventType| < 64
    requires forall i | 0 <= i < |a| :: HeadIsPlain(RowFields(db, a[i].row))
    requires forall i | 0 <= i < |b| :: HeadIsPlain(RowFields(db, b[i].row))
    ensures
      match FindCollision(db.sha, RowPayloads(db, a), RowPayloads(db, b))
      case Some(pair) => IsCollision(db.sha, pair)
      case None => |a| == |b| && forall i | 0 <= i < |a| :: RowFields(db, a[i].row) == RowFields(db, b[i].row)
  {
    TamperEvidence(db, a, b);
    var p, q := RowPayloads(db, a), RowPayloads(db, b);
    if FindCollision(db.sha, p, q).None? {
      assert |p| == |a| && |q| == |b|;
      forall i | 0 <= i < |a| ensures RowFields(db, a[i].row) == RowFields(db, b[i].row) {
        assert p[i] == q[i];
        EncodeInjective(RowFields(db, a[i].row), RowFields(db, b[i].row));
      }
    }
  }

  /**
   A row that starts a chain of its own, as the first event of a later process life
   does, is reported broken, or a row before it is.
   */
  lemma RestartIsReported(db: Database, rows: seq<StoredRow>, k: nat)
    requires GivesDigests(db.sha)
    requires 0 < k < |rows| && rows[k].row.prevHash == Some("")
    ensures FirstBroken(db, rows) <= k
  {
    if k <= FirstBroken(db, rows) {
      var recs := Select(db, rows);
      GoodRecordsFormChain(db.sha, recs, k);
      HeadIsDigest(db.sha, RecordPayloads(recs)[..k]);
      assert !GoodAt(db.sha, recs, k);
    }
  }

  // ----- the writer's payload and the verifier's -----

  /** The event has a string for its type, and the stored time renders as the time that was hashed. */
  predicate Canonical(db: Database, event: Json) {
    && AsStr(At(event, "event_type")).Some?
    && db.render(AsStr(At(event, "event_time")).GetOr("1970-01-01T00:00:00Z")) == TextAt(event, "event_time")
  }

  /** The verifier re-creates the hashed payload from the stored row exactly for canonical events. */
  lemma PayloadAgrees(db: Database, ser: Serializer, event: Json)
    ensures RowPayload(db, RowOf(ser, event)) == BuildPayload(event) <==> Canonical(db, event)
  {
    var row := RowOf(ser, event);
    var f, g := RowFields(db, row), FieldsOf(event);
    EncodeByTails(f);
    EncodeByTails(g);
    if AsStr(At(event, "event_type")).None? {
      assert Encode(f)[0] == 'U' && Encode(g)[0] == '|';
    } else {
      assert f.eventType == g.eventType && Tail2(f) == Tail2(g);
      CutTime(f.eventType, f.eventTime, g.eventTime, Tail2(f));
    }
  }

  lemma CutTime(before: string, t: string, u: string, after: string)
    ensures before + "|" + (t + "|" + after) == before + "|" + (u + "|" + after) <==> t == u
  {
    var x, y := before + "|" + (t + "|" + after), before + "|" + (u + "|" + after);
    if x == y {
      assert |x| == |before| + 2 + |t| + |after| && |y| == |before| + 2 + |u| + |after|;
      assert x[|before| + 1..][..|t|] == t && y[|before| + 1..][..|u|] == u;
    }
  }
}

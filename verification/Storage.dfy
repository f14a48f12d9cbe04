/**
 A row of `vibe_audit.events`: how the writer fills its parameters from an event
 (forwarder/src/writer.rs), and how the INSERT's column list turns them into a row.
 */
module Storage {
  import opened Integers
  import opened Options
  import opened Json

  /** The 18 inserted columns (ext/vibe_audit--1.1.sql). */
  datatype EventRow = EventRow(
    eventType: string, eventTime: string, success: bool, sessionUser: Option<string>,
    clientAddr: Option<string>, clientPort: Option<int>, database: Option<string>, pid: Option<int>,
    application: Option<string>, commandTag: Option<string>, objectType: Option<string>, objectName: Option<string>,
    schemaName: Option<string>, queryText: Option<string>, sqlstate: Option<string>, detail: Option<string>,
    prevHash: Option<string>, eventHash: Option<string>)

  datatype StoredRow = StoredRow(id: int, row: EventRow)

  /** `to_string` on a JSON value, which is not part of this model. */
  type Serializer = Json -> string

  const COLUMNS: nat := 18

  function IntAt(event: Json, key: string): Option<int> {
    match AsI64(At(event, key))
    case Some(v) => Some(AsInt32(v))
    case None => None
  }

  function TextOf(event: Json, key: string): Option<string> {
    AsStr(At(event, key))
  }

  function FlagAt(event: Json, key: string): bool {
    At(event, key).Bool? && At(event, key).b
  }

  /** The row the event is meant to become. */
  function RowOf(ser: Serializer, event: Json): EventRow {
    EventRow(
      TextOf(event, "event_type").GetOr("UNKNOWN"),
      TextOf(event, "event_time").GetOr("1970-01-01T00:00:00Z"),
      FlagAt(event, "success"),
      TextOf(event, "session_user"),
      TextOf(event, "client_addr"),
      IntAt(event, "client_port"),
      TextOf(event, "database"),
      IntAt(event, "pid"),
      TextOf(event, "application"),
      TextOf(event, "command_tag"),
      TextOf(event, "object_type"),
      TextOf(event, "object_name"),
      TextOf(event, "schema_name"),
      TextOf(event, "query_text"),
      TextOf(event, "sqlstate"),
      if At(event, "detail").Null? then None else Some(ser(At(event, "detail"))),
      TextOf(event, "prev_hash"),
      TextOf(event, "event_hash"))
  }

  function RowsOf(ser: Serializer, events: seq<Json>): seq<EventRow> {
    seq(|events|, i requires 0 <= i < |events| => RowOf(ser, events[i]))
  }

  function TextValue(t: Option<string>): Json {
    if t.Some? then String(t.value) else Null
  }

  function IntValue(v: Option<int>): Json {
    if v.Some? then Number(Integer(v.value)) else Null
  }

  predicate FitsInt32(v: Option<int>) {
    v.Some? ==> -0x8000_0000 <= v.value < 0x8000_0000
  }

  /** The event has, under the name of each column, the row's value for it, or null for NULL. */
  predicate FieldsAre(ser: Serializer, e: Json, r: EventRow) {
    && At(e, "event_type") == String(r.eventType) && At(e, "event_time") == String(r.eventTime)
    && At(e, "success") == Bool(r.success) && At(e, "session_user") == TextValue(r.sessionUser)
    && At(e, "client_addr") == TextValue(r.clientAddr) && At(e, "client_port") == IntValue(r.clientPort)
    && At(e, "database") == TextValue(r.database) && At(e, "pid") == IntValue(r.pid)
    && At(e, "application") == TextValue(r.application) && At(e, "command_tag") == TextValue(r.commandTag)
    && At(e, "object_type") == TextValue(r.objectType) && At(e, "object_name") == TextValue(r.objectName)
    && At(e, "schema_name") == TextValue(r.schemaName) && At(e, "query_text") == TextValue(r.queryText)
    && At(e, "sqlstate") == TextValue(r.sqlstate)
    && r.detail == (if At(e, "detail").Null? then None else Some(ser(At(e, "detail"))))
    && At(e, "prev_hash") == TextValue(r.prevHash) && At(e, "event_hash") == TextValue(r.eventHash)
  }

  /** Every column is read from the event field of its own name, without loss. */
  lemma RowOfEvent(ser: Serializer, e: Json, r: EventRow)
    requires FitsInt32(r.clientPort) && FitsInt32(r.pid)
    requires FieldsAre(ser, e, r)
    ensures RowOf(ser, e) == r
  {
    IntBack(e, "client_port", r.clientPort);
    IntBack(e, "pid", r.pid);
    TextBack(e, "session_user", r.sessionUser);
    TextBack(e, "client_addr", r.clientAddr);
    TextBack(e, "database", r.database);
    TextBack(e, "application", r.application);
    TextBack(e, "command_tag", r.commandTag);
    TextBack(e, "object_type", r.objectType);
    TextBack(e, "object_name", r.objectName);
    TextBack(e, "schema_name", r.schemaName);
    TextBack(e, "query_text", r.queryText);
    TextBack(e, "sqlstate", r.sqlstate);
    TextBack(e, "prev_hash", r.prevHash);
    TextBack(e, "event_hash", r.eventHash);
  }

  /** What a row takes for an event without any of its fields. */
  lemma MissingFields(ser: Serializer, event: Json)
    requires event.Object? && event.fields.Keys == {}
    ensures RowOf(ser, event) == EventRow(
      "UNKNOWN", "1970-01-01T00:00:00Z", false, None, None, None, None, None, None,
      None, None, None, None, None, None, None, None, None)
  {
  }

  /** A number that fits 64 bits is taken modulo 2^32, in signed range; any other value is none. */
  lemma IntIs(event: Json, key: string)
    ensures
      match At(event, key)
      case Number(Integer(i)) =>
        if -0x8000_0000_0000_0000 <= i < 0x8000_0000_0000_0000 then
          var v := IntAt(event, key);
          v.Some? && -0x8000_0000 <= v.value < 0x8000_0000 && (i - v.value) % 0x1_0000_0000 == 0
        else IntAt(event, key) == None
      case _ => IntAt(event, key) == None
  {
  }

  lemma IntBack(e: Json, key: string, v: Option<int>)
    requires FitsInt32(v) && At(e, key) == IntValue(v)
    ensures IntAt(e, key) == v
  {
  }

  lemma TextBack(e: Json, key: string, t: Option<string>)
    requires At(e, key) == TextValue(t)
    ensures TextOf(e, key) == t
  {
  }

  // ----- one multi-row INSERT -----

  /** A bound statement parameter. */
  datatype Param = Text(text: Option<string>) | Flag(flag: bool) | Int(number: Option<int>)

  /** `$index`, with the cast written after it. */
  datatype Placeholder = Placeholder(index: int, cast: string)

  /** The statement text after the column list, piece by piece. */
  datatype Piece = Comma | Values(placeholders: seq<Placeholder>)

  /** The row that one VALUES list stands for: the column list's order, types checked. */
  function FromParams(ps: seq<Param>): Option<EventRow> {
    if |ps| == COLUMNS
      && ps[0].Text? && ps[0].text.Some? && ps[1].Text? && ps[1].text.Some? && ps[2].Flag?
      && ps[3].Text? && ps[4].Text? && ps[5].Int? && ps[6].Text? && ps[7].Int?
      && ps[8].Text? && ps[9].Text? && ps[10].Text? && ps[11].Text? && ps[12].Text?
      && ps[13].Text? && ps[14].Text? && ps[15].Text? && ps[16].Text? && ps[17].Text?
    then
      Some(EventRow(
             ps[0].text.value, ps[1].text.value, ps[2].flag, ps[3].text, ps[4].text, ps[5].number,
             ps[6].text, ps[7].number, ps[8].text, ps[9].text, ps[10].text, ps[11].text,
             ps[12].text, ps[13].text, ps[14].text, ps[15].text, ps[16].text, ps[17].text))
    else None
  }

  predicate InRange(tuple: seq<Placeholder>, params: seq<Param>) {
    forall i | 0 <= i < |tuple| :: 1 <= tuple[i].index <= |params|
  }

  function Bind(tuple: seq<Placeholder>, params: seq<Param>): seq<Param>
    requires InRange(tuple, params)
  {
    seq(|tuple|, i requires 0 <= i < |tuple| => params[tuple[i].index - 1])
  }

  function Tuples(query: seq<Piece>): seq<seq<Placeholder>> {
    if query == [] then []
    else
      var last := query[|query| - 1];
      Tuples(query[..|query| - 1]) + (if last.Values? then [last.placeholders] else [])
  }

  /** The parameters each VALUES list picks, or nothing if a placeholder has none. */
  function BindAll(tuples: seq<seq<Placeholder>>, params: seq<Param>): Option<seq<seq<Param>>> {
    if tuples == [] then Some([])
    else
      var n := |tuples| - 1;
      match BindAll(tuples[..n], params)
      case Some(chunks) => if InRange(tuples[n], params) then Some(chunks + [Bind(tuples[n], params)]) else None
      case None => None
  }

  function MakeRows(chunks: seq<seq<Param>>): Option<seq<EventRow>> {
    if chunks == [] then Some([])
    else
      var n := |chunks| - 1;
      match (MakeRows(chunks[..n]), FromParams(chunks[n]))
      case (Some(rows), Some(row)) => Some(rows + [row])
      case _ => None
  }

  /** Executing the statement: one row for each VALUES list, or none at all. */
  function Execute(query: seq<Piece>, params: seq<Param>): Option<seq<EventRow>> {
    match BindAll(Tuples(query), params)
    case Some(chunks) => MakeRows(chunks)
    case None => None
  }

  /** The placeholders of event `k`: 18 consecutive numbers, and its three casts. */
  predicate IsTupleOf(tuple: seq<Placeholder>, k: nat) {
    && |tuple| == COLUMNS
    && (forall j | 0 <= j < COLUMNS :: tuple[j].index == 18 * k + j + 1)
    && HasCasts(tuple)
  }

  /** The time, the address and the detail are cast, and nothing else is. */
  predicate HasCasts(tuple: seq<Placeholder>)
    requires |tuple| == COLUMNS
  {
    && tuple[1].cast == "::timestamptz" && tuple[4].cast == "::inet" && tuple[15].cast == "::jsonb"
    && forall j | 0 <= j < COLUMNS && j != 1 && j != 4 && j != 15 :: tuple[j].cast == ""
  }

  newtype U32 = x: int | 0 <= x < 0x1_0000_0000

  function TupleFrom(idx: U32): (tuple: seq<Placeholder>)
    requires idx as int + COLUMNS < 0x1_0000_0000
    ensures |tuple| == COLUMNS
    ensures forall j | 0 <= j < COLUMNS :: tuple[j].index == idx as int + j
    ensures HasCasts(tuple)
  {
    [Placeholder(idx as int, ""), Placeholder((idx + 1) as int, "::timestamptz"), Placeholder((idx + 2) as int, ""),
     Placeholder((idx + 3) as int, ""), Placeholder((idx + 4) as int, "::inet"), Placeholder((idx + 5) as int, ""),
     Placeholder((idx + 6) as int, ""), Placeholder((idx + 7) as int, ""), Placeholder((idx + 8) as int, ""),
     Placeholder((idx + 9) as int, ""), Placeholder((idx + 10) as int, ""), Placeholder((idx + 11) as int, ""),
     Placeholder((idx + 12) as int, ""), Placeholder((idx + 13) as int, ""), Placeholder((idx + 14) as int, ""),
     Placeholder((idx + 15) as int, "::jsonb"), Placeholder((idx + 16) as int, ""), Placeholder((idx + 17) as int, "")]
  }

  /** A row's values in the order the INSERT lists its columns. */
  function ParamsOf(r: EventRow): seq<Param> {
    [Text(Some(r.eventType)), Text(Some(r.eventTime)), Flag(r.success), Text(r.sessionUser),
     Text(r.clientAddr), Int(r.clientPort), Text(r.database), Int(r.pid),
     Text(r.application), Text(r.commandTag), Text(r.objectType), Text(r.objectName),
     Text(r.schemaName), Text(r.queryText), Text(r.sqlstate), Text(r.detail),
     Text(r.prevHash), Text(r.eventHash)]
  }

  lemma ParamsMakeRow(r: EventRow)
    ensures |ParamsOf(r)| == COLUMNS && FromParams(ParamsOf(r)) == Some(r)
  {
  }

  /** The parameters of one event, in the order of the INSERT's column list. */
  lemma ColumnOrder(r: EventRow)
    ensures ParamsOf(r)
         == [Text(Some(r.eventType)), Text(Some(r.eventTime)), Flag(r.success), Text(r.sessionUser)]
            + [Text(r.clientAddr), Int(r.clientPort), Text(r.database), Int(r.pid), Text(r.application)]
            + [Text(r.commandTag), Text(r.objectType), Text(r.objectName), Text(r.schemaName), Text(r.queryText)]
            + [Text(r.sqlstate), Text(r.detail), Text(r.prevHash), Text(r.eventHash)]
  {
  }

  /** The parameters pushed for one event. */
  method EventParams(ser: Serializer, event: Json) returns (ps: seq<Param>)
    ensures ps == ParamsOf(RowOf(ser, event))
  {
    var eventType := TextOf(event, "event_type").GetOr("UNKNOWN");
    var eventTime := TextOf(event, "event_time").GetOr("1970-01-01T00:00:00Z");
    var success := FlagAt(event, "success");
    var sessionUser := TextOf(event, "session_user");
    var clientAddr := TextOf(event, "client_addr");
    var clientPort := IntAt(event, "client_port");
    var database := TextOf(event, "database");
    var pid := IntAt(event, "pid");
    var application := TextOf(event, "application");
    var commandTag := TextOf(event, "command_tag");
    var objectType := TextOf(event, "object_type");
    var objectName := TextOf(event, "object_name");
    var schemaName := TextOf(event, "schema_name");
    var queryText := TextOf(event, "query_text");
    var sqlstate := TextOf(event, "sqlstate");
    var detail := if At(event, "detail").Null? then None else Some(ser(At(event, "detail")));
    var prevHash := TextOf(event, "prev_hash");
    var eventHash := TextOf(event, "event_hash");
    ghost var row := EventRow(
      eventType, eventTime, success, sessionUser, clientAddr, clientPort, database, pid, application, commandTag,
      objectType, objectName, schemaName, queryText, sqlstate, detail, prevHash, eventHash);
    assert row == RowOf(ser, event);
    ps := [Text(Some(eventType)), Text(Some(eventTime)), Flag(success), Text(sessionUser),
           Text(clientAddr), Int(clientPort), Text(database), Int(pid),
           Text(application), Text(commandTag), Text(objectType), Text(objectName),
           Text(schemaName), Text(queryText), Text(sqlstate), Text(detail),
           Text(prevHash), Text(eventHash)];
    assert ps == ParamsOf(row);
  }

  /** The statement for `n` events numbers its placeholders 1 to 18n, in order. */
  predicate NumberedFor(query: seq<Piece>, n: nat) {
    |Tuples(query)| == n && forall k | 0 <= k < n :: IsTupleOf(Tuples(query)[k], k)
  }

  /** A VALUES list for each event, and a comma before each but the first. */
  predicate CommaSeparated(query: seq<Piece>, n: nat) {
    && |query| == (if n == 0 then 0 else 2 * n - 1)
    && forall i | 0 <= i < |query| :: query[i].Comma? <==> i % 2 == 1
  }

  /** Parameters `18i` to `18i + 17` are the columns of row `i`. */
  predicate ParamsFor(params: seq<Param>, rows: seq<EventRow>) {
    |params| == 18 * |rows|
    && forall i | 0 <= i < |rows| :: params[18 * i..18 * i + 18] == ParamsOf(rows[i])
  }

  /**
   The statement-building loop of `write_batch`. The caller keeps the placeholder
   counter within its 32 bits.
   */
  method BuildInsert(ser: Serializer, events: seq<Json>) returns (query: seq<Piece>, params: seq<Param>)
    requires 18 * |events| + COLUMNS < 0x1_0000_0000
    ensures NumberedFor(query, |events|) && CommaSeparated(query, |events|)
    ensures ParamsFor(params, RowsOf(ser, events))
    ensures Execute(query, params) == Some(RowsOf(ser, events))
  {
    query, params := [], [];
    var paramIdx: U32 := 1;
    var i := 0;
    while i < |events|
      invariant 0 <= i <= |events|
      invariant paramIdx as int == 18 * i + 1
      invariant Built(ser, query, params, events[..i])
    {
      assert events[..i + 1] == events[..i] + [events[i]];
      query, params := PushEvent(ser, query, params, paramIdx, events[i], events[..i]);
      paramIdx := paramIdx + 18;
      i := i + 1;
    }
    assert events[..|events|] == events;
    BuiltExecutes(ser, query, params, events);
  }

  /** The statement and its parameters so far. */
  predicate Built(ser: Serializer, query: seq<Piece>, params: seq<Param>, events: seq<Json>) {
    NumberedFor(query, |events|) && CommaSeparated(query, |events|) && ParamsFor(params, RowsOf(ser, events))
  }

  lemma BuiltExecutes(ser: Serializer, query: seq<Piece>, params: seq<Param>, events: seq<Json>)
    requires Built(ser, query, params, events)
    ensures Execute(query, params) == Some(RowsOf(ser, events))
  {
    ExecutesRowByRow(query, params, RowsOf(ser, events));
  }

  /** The body of the loop: a comma before every event but the first, the placeholders, the parameters. */
  method PushEvent(
      ser: Serializer, query: seq<Piece>, params: seq<Param>, paramIdx: U32, event: Json, ghost past: seq<Json>)
    returns (query': seq<Piece>, params': seq<Param>)
    requires paramIdx as int == 18 * |past| + 1 && paramIdx as int + 18 < 0x1_0000_0000
    requires Built(ser, query, params, past)
    ensures Built(ser, query', params', past + [event])
  {
    query' := query;
    if paramIdx > 1 {
      AddComma(query);
      query' := query' + [Comma];
    }
    var tuple := TupleFrom(paramIdx);
    AddTuple(query', tuple, |past|);
    CommasKept(query, |past|, tuple);
    query' := query' + [Values(tuple)];
    var ps := EventParams(ser, event);
    AddParams(params, RowsOf(ser, past), ps, RowOf(ser, event));
    RowsAppend(ser, past, event);
    params' := params + ps;
  }

  lemma RowsAppend(ser: Serializer, events: seq<Json>, event: Json)
    ensures RowsOf(ser, events + [event]) == RowsOf(ser, events) + [RowOf(ser, event)]
  {
  }

  lemma AddComma(query: seq<Piece>)
    ensures Tuples(query + [Comma]) == Tuples(query)
  {
    assert (query + [Comma])[..|query|] == query;
  }

  lemma CommasKept(query: seq<Piece>, n: nat, tuple: seq<Placeholder>)
    requires CommaSeparated(query, n)
    ensures CommaSeparated((if n > 0 then query + [Comma] else query) + [Values(tuple)], n + 1)
  {
  }

  lemma AddTuple(query: seq<Piece>, tuple: seq<Placeholder>, n: nat)
    requires NumberedFor(query, n) && IsTupleOf(tuple, n)
    ensures NumberedFor(query + [Values(tuple)], n + 1)
  {
    assert (query + [Values(tuple)])[..|query|] == query;
    assert Tuples(query + [Values(tuple)]) == Tuples(query) + [tuple];
  }

  lemma AddParams(params: seq<Param>, rows: seq<EventRow>, ps: seq<Param>, row: EventRow)
    requires ParamsFor(params, rows) && ps == ParamsOf(row)
    ensures ParamsFor(params + ps, rows + [row])
  {
    var all := params + ps;
    ParamsMakeRow(row);
    forall i | 0 <= i <= |rows|
      ensures all[18 * i..18 * i + 18] == ParamsOf((rows + [row])[i])
    {
      if i < |rows| {
        assert all[18 * i..18 * i + 18] == params[18 * i..18 * i + 18];
      } else {
        assert all[18 * i..18 * i + 18] == ps;
      }
    }
  }

  function Chunks(rows: seq<EventRow>): seq<seq<Param>> {
    seq(|rows|, i requires 0 <= i < |rows| => ParamsOf(rows[i]))
  }

  /** The bulk insert refines inserting the rows one by one. */
  lemma ExecutesRowByRow(query: seq<Piece>, params: seq<Param>, rows: seq<EventRow>)
    requires NumberedFor(query, |rows|) && ParamsFor(params, rows)
    ensures Execute(query, params) == Some(rows)
  {
    var tuples := Tuples(query);
    forall k | 0 <= k < |rows| ensures InRange(tuples[k], params) && Bind(tuples[k], params) == Chunks(rows)[k] {
      BindsOwnParams(tuples[k], params, k);
    }
    BindsChunks(tuples, params, Chunks(rows), |rows|);
    assert tuples[..|rows|] == tuples && Chunks(rows)[..|rows|] == Chunks(rows);
    MakesRows(rows);
  }

  lemma {:induction false} BindsChunks(
      tuples: seq<seq<Placeholder>>, params: seq<Param>, chunks: seq<seq<Param>>, n: nat)
    requires n <= |tuples| == |chunks|
    requires forall k | 0 <= k < |tuples| :: InRange(tuples[k], params) && Bind(tuples[k], params) == chunks[k]
    ensures BindAll(tuples[..n], params) == Some(chunks[..n])
    decreases n
  {
    if n > 0 {
      BindsChunks(tuples, params, chunks, n - 1);
      assert tuples[..n][..n - 1] == tuples[..n - 1];
      assert chunks[..n] == chunks[..n - 1] + [chunks[n - 1]];
    }
  }

  lemma {:induction false} MakesRows(rows: seq<EventRow>)
    ensures MakeRows(Chunks(rows)) == Some(rows)
    decreases |rows|
  {
    if rows != [] {
      var n := |rows| - 1;
      MakesRows(rows[..n]);
      assert Chunks(rows)[..n] == Chunks(rows[..n]);
      ParamsMakeRow(rows[n]);
      assert rows == rows[..n] + [rows[n]];
    }
  }

  lemma BindsOwnParams(tuple: seq<Placeholder>, params: seq<Param>, k: nat)
    requires IsTupleOf(tuple, k) && 18 * k + 18 <= |params|
    ensures InRange(tuple, params) && Bind(tuple, params) == params[18 * k..18 * k + 18]
  {
  }
}

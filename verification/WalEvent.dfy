/**
 From a `test_decoding` line to an audit event (forwarder/src/walcapture.rs,
 `parse_test_decoding`): documents, changed fields, sensitive matches, redaction.
 */
module WalEvent {
  import opened Options
  import opened Text
  import opened Json
  import opened KeyOrder
  import opened ChangeLine
  import opened Sensitive

  // ----- documents -----

  /** The value `insert_column_value` stores for a column. */
  function CellValue(parse: JsonParser, col: ParsedColumn): Json {
    if col.value == "null" then Null
    else
      match parse(col.value)
      case Some(parsed) =>
        if col.name == "data" || parsed.Object? || parsed.Array? then parsed else String(col.value)
      case None => String(col.value)
  }

  /** The text is one JSON value with parts of its own. */
  predicate HoldsParts(parse: JsonParser, text: string) {
    text != "null" && parse(text).Some? && (parse(text).value.Object? || parse(text).value.Array?)
  }

  /**
   Two texts of a column not called `data` give one cell exactly when they are the
   same text, or both hold the same JSON object or array.
   */
  lemma SameCell(parse: JsonParser, a: ParsedColumn, b: ParsedColumn)
    requires a.name == b.name != "data"
    ensures CellValue(parse, a) == CellValue(parse, b)
       <==> a.value == b.value
            || (HoldsParts(parse, a.value) && HoldsParts(parse, b.value) && parse(a.value) == parse(b.value))
  {
  }

  function DocumentFields(parse: JsonParser, columns: seq<ParsedColumn>): map<string, Json> {
    if columns == [] then map[]
    else
      var last := columns[|columns| - 1];
      DocumentFields(parse, columns[..|columns| - 1])[last.name := CellValue(parse, last)]
  }

  /**
   What a document holds for a column of this name and text: null for the text `null`;
   the parsed value for a column `data` that parses, and for an object or an array;
   else the text itself.
   */
  predicate IsCell(parse: JsonParser, name: string, text: string, j: Json) {
    if text == "null" then j == Null
    else
      match parse(text)
      case Some(Object(fields)) => j == Object(fields)
      case Some(Array(items)) => j == Array(items)
      case Some(other) => j == if name == "data" then other else String(text)
      case None => j == String(text)
  }

  /** `columns_to_jsonb_owned` and `columns_to_jsonb_refs`: one insertion a column. */
  method ColumnsToJson(parse: JsonParser, columns: seq<ParsedColumn>) returns (doc: Json)
    ensures doc == Object(DocumentFields(parse, columns))
    ensures forall k :: k in doc.fields <==> exists i | 0 <= i < |columns| :: columns[i].name == k
    ensures forall i | 0 <= i < |columns| && LastNamed(columns, i) ::
              var name := columns[i].name;
              name in doc.fields && IsCell(parse, name, columns[i].value, doc.fields[name])
  {
    var fields: map<string, Json> := map[];
    var i := 0;
    while i < |columns|
      invariant 0 <= i <= |columns|
      invariant fields == DocumentFields(parse, columns[..i])
    {
      assert columns[..i + 1][..i] == columns[..i];
      fields := fields[columns[i].name := CellValue(parse, columns[i])];
      i := i + 1;
    }
    assert columns[..|columns|] == columns;
    doc := Object(fields);
    DocumentIs(parse, columns);
  }

  /** The document of a row, from names and texts alone. */
  lemma DocumentIs(parse: JsonParser, columns: seq<ParsedColumn>)
    ensures
      var fields := DocumentFields(parse, columns);
      && (forall k :: k in fields <==> exists i | 0 <= i < |columns| :: columns[i].name == k)
      && (forall i | 0 <= i < |columns| && LastNamed(columns, i) ::
            columns[i].name in fields && IsCell(parse, columns[i].name, columns[i].value, fields[columns[i].name]))
  {
    DocumentKeys(parse, columns);
    forall k ensures HasColumn(columns, k) <==> exists i | 0 <= i < |columns| :: columns[i].name == k {
    }
    forall i | 0 <= i < |columns| && LastNamed(columns, i)
      ensures columns[i].name in DocumentFields(parse, columns)
      ensures IsCell(parse, columns[i].name, columns[i].value, DocumentFields(parse, columns)[columns[i].name])
    {
      DocumentExact(parse, columns, i);
      CellIs(parse, columns[i]);
    }
  }

  lemma CellIs(parse: JsonParser, col: ParsedColumn)
    ensures IsCell(parse, col.name, col.value, CellValue(parse, col))
  {
  }

  predicate LastNamed(columns: seq<ParsedColumn>, i: nat) {
    i < |columns| && forall j | i < j < |columns| :: columns[j].name != columns[i].name
  }

  predicate HasColumn(columns: seq<ParsedColumn>, name: string) {
    exists i | 0 <= i < |columns| :: columns[i].name == name
  }

  /** The document's keys are exactly the column names. */
  lemma {:induction false} DocumentKeys(parse: JsonParser, columns: seq<ParsedColumn>)
    ensures forall k :: k in DocumentFields(parse, columns) <==> HasColumn(columns, k)
    decreases |columns|
  {
    if columns != [] {
      var n := |columns| - 1;
      var front := columns[..n];
      DocumentKeys(parse, front);
      forall k ensures HasColumn(columns, k) <==> HasColumn(front, k) || columns[n].name == k {
        assert forall i | 0 <= i < n :: front[i] == columns[i];
      }
    }
  }

  /** Each name has the value of its last column. */
  lemma {:induction false} DocumentExact(parse: JsonParser, columns: seq<ParsedColumn>, i: nat)
    requires LastNamed(columns, i)
    ensures columns[i].name in DocumentFields(parse, columns)
    ensures DocumentFields(parse, columns)[columns[i].name] == CellValue(parse, columns[i])
    decreases |columns|
  {
    var n := |columns| - 1;
    if i < n {
      assert columns[n].name != columns[i].name && columns[..n][i] == columns[i];
      DocumentExact(parse, columns[..n], i);
    }
  }

  /** Later columns override earlier ones. */
  lemma {:induction false} DocumentConcat(parse: JsonParser, a: seq<ParsedColumn>, b: seq<ParsedColumn>)
    ensures DocumentFields(parse, a + b) == DocumentFields(parse, a) + DocumentFields(parse, b)
    decreases |b|
  {
    if b == [] {
      assert a + b == a;
    } else {
      var n := |b| - 1;
      assert (a + b)[..|a + b| - 1] == a + b[..n] && (a + b)[|a + b| - 1] == b[n];
      DocumentConcat(parse, a, b[..n]);
    }
  }

  lemma OneColumnDocument(parse: JsonParser, c: ParsedColumn)
    ensures DocumentFields(parse, [c]) == map[c.name := CellValue(parse, c)]
  {
    assert [c][..0] == [];
  }

  /** The document of a row, taken apart at one of its columns. */
  lemma DocumentAround(parse: JsonParser, done: seq<ParsedColumn>, x: ParsedColumn, rest: seq<ParsedColumn>)
    ensures DocumentFields(parse, done + [x] + rest)
         == DocumentFields(parse, done)[x.name := CellValue(parse, x)] + DocumentFields(parse, rest)
    ensures x.name in DocumentFields(parse, rest) <==> HasColumn(rest, x.name)
  {
    DocumentConcat(parse, done + [x], rest);
    DocumentConcat(parse, done, [x]);
    OneColumnDocument(parse, x);
    DocumentKeys(parse, rest);
  }

  datatype Documents = Documents(before: Option<Json>, after: Option<Json>)

  function ToDocument(parse: JsonParser, columns: seq<ParsedColumn>): Json {
    Object(DocumentFields(parse, columns))
  }

  function DocumentsOf(parse: JsonParser, change: Change): Option<Documents> {
    if change.command == "INSERT" then
      Some(Documents(None, Some(ToDocument(parse, change.columns))))
    else if change.command == "UPDATE" then
      var oldCols, newCols := Section(change.columns, true), Section(change.columns, false);
      var before := if oldCols == [] then None else Some(ToDocument(parse, oldCols));
      Some(Documents(before, Some(ToDocument(parse, newCols))))
    else if change.command == "DELETE" then
      Some(Documents(Some(ToDocument(parse, change.columns)), None))
    else None
  }

  function ChangedFields(docs: Documents): seq<string> {
    match docs
    case Documents(Some(o), Some(n)) => Diff(o, n)
    case Documents(None, Some(n)) => AllFields(n)
    case Documents(Some(o), None) => AllFields(o)
    case Documents(None, None) => []
  }

  // ----- the event -----

  function Strings(xs: seq<string>): seq<Json> {
    if xs == [] then [] else [String(xs[0])] + Strings(xs[1..])
  }

  function Paths(matches: seq<SensitiveMatch>): seq<Json> {
    if matches == [] then [] else [String(matches[0].jsonPath)] + Paths(matches[1..])
  }

  function OrNull(doc: Option<Json>): Json {
    doc.GetOr(Null)
  }

  /** What the line contributes besides the clock: position, transaction and text. */
  datatype Origin = Origin(now: string, xid: string, lsn: string)

  /** `build_data_change_event`. */
  function BuildEvent(
      change: Change, docs: Documents, fields: seq<string>, matches: seq<SensitiveMatch>, from: Origin): Json
  {
    Object(map[
      "event_type" := String("DATA_CHANGE"),
      "event_time" := String(from.now),
      "success" := Bool(true),
      "session_user" := Null,
      "client_addr" := Null,
      "client_port" := Null,
      "database" := Null,
      "pid" := Null,
      "application" := String("vibe_audit_forwarder"),
      "command_tag" := String(change.command),
      "object_type" := String("TABLE"),
      "object_name" := String(change.table),
      "schema_name" := String(change.schema),
      "query_text" := Null,
      "sqlstate" := Null,
      "detail" := DetailOf(docs, fields, matches, from)])
  }

  /** The `detail` member: position, transaction, documents and names. */
  function DetailOf(docs: Documents, fields: seq<string>, matches: seq<SensitiveMatch>, from: Origin): Json {
    Object(map[
      "source" := String("wal"),
      "xid" := String(from.xid),
      "lsn" := String(from.lsn),
      "old_data" := OrNull(docs.before),
      "new_data" := OrNull(docs.after),
      "changed_fields" := Array(Strings(fields)),
      "sensitive_fields_touched" := Array(Paths(matches))])
  }

  function StringArray(texts: seq<string>): Json {
    Array(seq(|texts|, i requires 0 <= i < |texts| => String(texts[i])))
  }

  lemma {:induction false} StringsAre(texts: seq<string>)
    ensures Array(Strings(texts)) == StringArray(texts)
  {
    if texts != [] {
      StringsAre(texts[1..]);
      assert StringArray(texts).items == [String(texts[0])] + StringArray(texts[1..]).items;
    }
  }

  lemma {:induction false} PathsAre(matches: seq<SensitiveMatch>)
    ensures Array(Paths(matches)) == StringArray(PathsOf(matches))
  {
    if matches != [] {
      PathsAre(matches[1..]);
      assert PathsOf(matches) == [matches[0].jsonPath] + PathsOf(matches[1..]);
      assert StringArray(PathsOf(matches)).items
          == [String(matches[0].jsonPath)] + StringArray(PathsOf(matches[1..])).items;
    }
  }

  /** What every change event says besides its two documents. */
  predicate SaysChange(
      event: Json, command: string, schema: string, table: string,
      fields: seq<string>, matches: seq<SensitiveMatch>, from: Origin)
  {
    && At(event, "event_type") == String("DATA_CHANGE") && At(event, "event_time") == String(from.now)
    && At(event, "success") == Bool(true) && At(event, "application") == String("vibe_audit_forwarder")
    && At(event, "command_tag") == String(command) && At(event, "object_type") == String("TABLE")
    && At(event, "object_name") == String(table) && At(event, "schema_name") == String(schema)
    && (forall k <- {"session_user", "client_addr", "client_port", "database", "pid", "query_text", "sqlstate"} ::
          At(event, k) == Null)
    && SaysDetail(At(event, "detail"), fields, matches, from)
  }

  predicate SaysDetail(detail: Json, fields: seq<string>, matches: seq<SensitiveMatch>, from: Origin) {
    && At(detail, "source") == String("wal")
    && At(detail, "xid") == String(from.xid) && At(detail, "lsn") == String(from.lsn)
    && At(detail, "changed_fields") == StringArray(fields)
    && At(detail, "sensitive_fields_touched") == StringArray(PathsOf(matches))
  }

  lemma EventSays(
      change: Change, docs: Documents, fields: seq<string>, matches: seq<SensitiveMatch>, from: Origin)
    ensures SaysChange(BuildEvent(change, docs, fields, matches, from),
                       change.command, change.schema, change.table, fields, matches, from)
  {
    StringsAre(fields);
    PathsAre(matches);
    DetailSays(docs, fields, matches, from);
    EventHead(change, docs, fields, matches, from);
    EventTexts(change, docs, fields, matches, from);
    EventNulls(change, docs, fields, matches, from);
  }

  lemma EventHead(
      change: Change, docs: Documents, fields: seq<string>, matches: seq<SensitiveMatch>, from: Origin)
    ensures
      var event := BuildEvent(change, docs, fields, matches, from);
      && At(event, "event_type") == String("DATA_CHANGE") && At(event, "event_time") == String(from.now)
      && At(event, "success") == Bool(true)
  {
  }

  lemma EventTexts(
      change: Change, docs: Documents, fields: seq<string>, matches: seq<SensitiveMatch>, from: Origin)
    ensures
      var event := BuildEvent(change, docs, fields, matches, from);
      && At(event, "application") == String("vibe_audit_forwarder")
      && At(event, "command_tag") == String(change.command) && At(event, "object_type") == String("TABLE")
      && At(event, "object_name") == String(change.table) && At(event, "schema_name") == String(change.schema)
  {
  }

  lemma EventNulls(
      change: Change, docs: Documents, fields: seq<string>, matches: seq<SensitiveMatch>, from: Origin)
    ensures
      var event := BuildEvent(change, docs, fields, matches, from);
      && At(event, "session_user") == Null && At(event, "client_addr") == Null && At(event, "client_port") == Null
      && At(event, "database") == Null && At(event, "pid") == Null && At(event, "query_text") == Null
      && At(event, "sqlstate") == Null
      && At(event, "detail") == DetailOf(docs, fields, matches, from)
  {
  }

  lemma DetailSays(docs: Documents, fields: seq<string>, matches: seq<SensitiveMatch>, from: Origin)
    ensures SaysDetail(DetailOf(docs, fields, matches, from), fields, matches, from)
  {
    StringsAre(fields);
    PathsAre(matches);
  }

  function RedactedOption(doc: Option<Json>, matches: seq<SensitiveMatch>): Option<Json> {
    match doc
    case Some(d) => Some(Redacted(d, matches))
    case None => None
  }

  function RedactedDocuments(docs: Documents, matches: seq<SensitiveMatch>): Documents {
    Documents(RedactedOption(docs.before, matches), RedactedOption(docs.after, matches))
  }

  function MatchesOf(registry: Registry, change: Change, docs: Documents): seq<SensitiveMatch> {
    Detected(registry, change.schema, change.table, ChangedFields(docs))
  }

  function EventOfDocuments(registry: Registry, change: Change, docs: Documents, from: Origin): Json {
    var matches := MatchesOf(registry, change, docs);
    BuildEvent(change, RedactedDocuments(docs, matches), ChangedFields(docs), matches, from)
  }

  function EventsOf(parse: JsonParser, registry: Registry, line: string, from: Origin): Option<seq<Json>> {
    if "BEGIN" <= line || "COMMIT" <= line then None
    else
      match ParseChangeLine(line)
      case None => None
      case Some(change) =>
        match DocumentsOf(parse, change)
        case None => None
        case Some(docs) => Some([EventOfDocuments(registry, change, docs, from)])
  }

  /** `parse_test_decoding`. */
  method ParseTestDecoding(parse: JsonParser, registry: Registry, line: string, from: Origin)
    returns (events: Option<seq<Json>>)
    ensures events == EventsOf(parse, registry, line, from)
  {
    if "BEGIN" <= line || "COMMIT" <= line {
      return None;
    }
    var parsed := ReadChangeLine(line);
    if parsed.None? {
      return None;
    }
    var change := parsed.value;
    var oldData: Option<Json>, newData: Option<Json> := None, None;
    if change.command == "INSERT" {
      var doc := ColumnsToJson(parse, change.columns);
      newData := Some(doc);
    } else if change.command == "UPDATE" {
      var oldCols, newCols := Section(change.columns, true), Section(change.columns, false);
      if oldCols != [] {
        var doc := ColumnsToJson(parse, oldCols);
        oldData := Some(doc);
      }
      var doc := ColumnsToJson(parse, newCols);
      newData := Some(doc);
    } else if change.command == "DELETE" {
      var doc := ColumnsToJson(parse, change.columns);
      oldData := Some(doc);
    } else {
      return None;
    }
    ghost var docs := Documents(oldData, newData);
    assert DocumentsOf(parse, change) == Some(docs);
    var fields: seq<string>;
    match (oldData, newData)
    {
      case (Some(o), Some(n)) => fields := DiffFields(o, n);
      case (None, Some(n)) => fields := AllFields(n);
      case (Some(o), None) => fields := AllFields(o);
      case (None, None) => fields := [];
    }
    var matches := Detect(registry, change.schema, change.table, fields);
    if matches != [] {
      oldData := RedactIn(oldData, matches);
      newData := RedactIn(newData, matches);
    } else {
      RedactedByNone(docs);
    }
    events := Some([BuildEvent(change, Documents(oldData, newData), fields, matches, from)]);
  }

  method RedactIn(doc: Option<Json>, matches: seq<SensitiveMatch>) returns (out: Option<Json>)
    ensures out == RedactedOption(doc, matches)
  {
    out := doc;
    if doc.Some? {
      var document := new Document(doc.value);
      document.Redact(matches);
      out := Some(document.value);
    }
  }

  lemma RedactedByNone(docs: Documents)
    ensures RedactedDocuments(docs, []) == docs
  {
    assert docs.before.Some? && docs.before.value.Object? ==>
        Redacted(docs.before.value, []).fields == docs.before.value.fields;
    assert docs.after.Some? && docs.after.value.Object? ==>
        Redacted(docs.after.value, []).fields == docs.after.value.fields;
  }

  // ----- what redaction covers -----

  /**
   Exactly which values leave the process overwritten: a key of a document is
   `[REDACTED]` in the event when some changed field trims to it and the registry
   redacts that field; every other key keeps its value.
   */
  lemma RedactionCoverage(registry: Registry, change: Change, docs: Documents, doc: Json, key: string)
    requires doc.Object? && key in doc.fields
    ensures
      var out := Redacted(doc, MatchesOf(registry, change, docs));
      var covered := exists f <- ChangedFields(docs) ::
        TrimPath(f) == key && Verdict(registry, change.schema, change.table, f) == Some(true);
      && out.Object? && out.fields.Keys == doc.fields.Keys
      && out.fields[key] == if covered then String("[REDACTED]") else doc.fields[key]
  {
    RedactionExact(registry, change.schema, change.table, ChangedFields(docs), key);
  }

  /**
   A sensitive field that an UPDATE leaves alone is not covered: its value reaches
   the event in both documents, whatever the registry says about the field.
   */
  lemma UnchangedFieldIsNotCovered(
      registry: Registry, change: Change, o: map<string, Json>, n: map<string, Json>, key: string)
    requires key in o && key in n && o[key] == n[key]
    requires forall k | k in o.Keys + n.Keys && HasPathPrefix(k) :: TrimPath(k) != key
    ensures
      var out := RedactedDocuments(Documents(Some(Object(o)), Some(Object(n))),
                                   MatchesOf(registry, change, Documents(Some(Object(o)), Some(Object(n)))));
      && out.before.value.fields[key] == o[key]
      && out.after.value.fields[key] == n[key]
  {
    var docs := Documents(Some(Object(o)), Some(Object(n)));
    DiffExact(o, n);
    forall f | f in ChangedFields(docs) ensures TrimPath(f) != key {
      TrimPathHasNoPrefix(f);
      assert Lookup(o, f) != Lookup(n, f) && f in o.Keys + n.Keys;
    }
    RedactionCoverage(registry, change, docs, Object(o), key);
    RedactionCoverage(registry, change, docs, Object(n), key);
  }

  /**
   A field inside a JSONB column is not covered: the diff knows the column only. With
   no redacting verdict on `data` itself, the event shows all of it, whatever the
   registry says of the names inside.
   */
  lemma NestedFieldIsNotCovered(registry: Registry, change: Change, docs: Documents, doc: Json)
    requires doc.Object? && "data" in doc.fields
    requires forall f <- ChangedFields(docs) | TrimPath(f) == "data" ::
               Verdict(registry, change.schema, change.table, f) != Some(true)
    ensures
      var out := Redacted(doc, MatchesOf(registry, change, docs));
      out.Object? && "data" in out.fields && out.fields["data"] == doc.fields["data"]
  {
    RedactionCoverage(registry, change, docs, doc, "data");
  }

  /**
   So an entry `$.card_number` that asks for redaction, alone on its table and with no
   configured name for `data`, redacts nothing inside `data`.
   */
  lemma CardNumberIsNotCovered(registry: Registry, change: Change, docs: Documents, doc: Json)
    requires doc.Object? && "data" in doc.fields
    requires Entries(registry, change.schema, change.table) == [DbField("$.card_number", true)]
    requires forall g <- registry.globalFields :: TrimPath(g) != "data"
    ensures Verdict(registry, change.schema, change.table, "card_number") == Some(true)
    ensures
      var out := Redacted(doc, MatchesOf(registry, change, docs));
      out.Object? && "data" in out.fields && out.fields["data"] == doc.fields["data"]
  {
    var entry := DbField("$.card_number", true);
    CardNumberEntry(entry);
    assert [entry][1..] == [];
    forall f | f in ChangedFields(docs) && TrimPath(f) == "data"
      ensures Verdict(registry, change.schema, change.table, f) != Some(true)
    {
      assert !EntryHit(entry, f);
      assert FirstFlag([entry], f) == FirstFlag([], f) == None;
    }
    NestedFieldIsNotCovered(registry, change, docs, doc);
  }

  lemma CardNumberEntry(entry: DbField)
    requires entry.jsonPath == "$.card_number"
    ensures EntryHit(entry, "card_number") && TrimPath(entry.jsonPath) == "card_number" != "data"
    ensures TrimPath("data") == "data"
    ensures forall f | TrimPath(f) == "data" :: !EntryHit(entry, f)
  {
    assert "$.card_number"[2..] == "card_number" && "card_number"[0] == 'c' && "data"[0] == 'd';
    assert TrimPath("$.card_number") == TrimPath("card_number") == "card_number";
  }

  // ----- two runs -----

  /** Two documents with the same keys that agree on every key but one. */
  predicate SameBut(a: Json, b: Json, key: string) {
    a.Object? && b.Object? && a.fields.Keys == b.fields.Keys
    && forall k | k in a.fields && k != key :: a.fields[k] == b.fields[k]
  }

  predicate OptionsSameBut(a: Option<Json>, b: Option<Json>, key: string) {
    match (a, b)
    case (Some(x), Some(y)) => SameBut(x, y, key)
    case (None, None) => true
    case _ => false
  }

  predicate DocumentsSameBut(a: Documents, b: Documents, key: string) {
    OptionsSameBut(a.before, b.before, key) && OptionsSameBut(a.after, b.after, key)
  }

  /** The field is one whose value the event must not show. */
  predicate Hidden(registry: Registry, schema: string, table: string, docs: Documents, field: string) {
    && !HasPathPrefix(field)
    && field in ChangedFields(docs)
    && Verdict(registry, schema, table, field) == Some(true)
  }

  lemma {:induction false} DifferingSameBut(
      o1: map<string, Json>, n1: map<string, Json>, o2: map<string, Json>, n2: map<string, Json>,
      keys: seq<string>, key: string)
    requires forall k | k != key :: Lookup(o1, k) == Lookup(o2, k) && Lookup(n1, k) == Lookup(n2, k)
    requires Lookup(o1, key) == Lookup(n1, key) <==> Lookup(o2, key) == Lookup(n2, key)
    ensures Differing(o1, n1, keys) == Differing(o2, n2, keys)
  {
    if keys != [] {
      DifferingSameBut(o1, n1, o2, n2, keys[1..], key);
      var k := keys[0];
      assert k != key ==> Lookup(o1, k) == Lookup(o2, k) && Lookup(n1, k) == Lookup(n2, k);
    }
  }

  lemma {:induction false} MissingSameKeys(m1: map<string, Json>, m2: map<string, Json>, keys: seq<string>)
    requires m1.Keys == m2.Keys
    ensures Missing(m1, keys) == Missing(m2, keys)
  {
    if keys != [] {
      MissingSameKeys(m1, m2, keys[1..]);
      assert keys[0] in m1.Keys <==> keys[0] in m2.Keys;
    }
  }

  lemma ChangedFieldsSameBut(a: Documents, b: Documents, key: string)
    requires DocumentsSameBut(a, b, key)
    requires key in ChangedFields(a) && key in ChangedFields(b)
    ensures ChangedFields(a) == ChangedFields(b)
  {
    if a.before.Some? && a.after.Some? {
      var o1, n1, o2, n2 := a.before.value.fields, a.after.value.fields, b.before.value.fields, b.after.value.fields;
      DiffExact(o1, n1);
      DiffExact(o2, n2);
      forall k | k != key ensures Lookup(o1, k) == Lookup(o2, k) && Lookup(n1, k) == Lookup(n2, k) {
        assert k in o1.Keys <==> k in o2.Keys;
        assert k in n1.Keys <==> k in n2.Keys;
      }
      DifferingSameBut(o1, n1, o2, n2, SortedKeys(n1.Keys), key);
      MissingSameKeys(n1, n2, SortedKeys(o1.Keys));
    }
  }

  lemma RedactedSameBut(a: Json, b: Json, key: string, matches: seq<SensitiveMatch>)
    requires SameBut(a, b, key) && Redacts(matches, key)
    ensures Redacted(a, matches) == Redacted(b, matches)
  {
    var x, y := Redacted(a, matches).fields, Redacted(b, matches).fields;
    assert x.Keys == a.fields.Keys && y.Keys == b.fields.Keys;
    forall k | k in x ensures x[k] == y[k] {
      assert k in a.fields;
    }
    assert x == y;
  }

  /**
   Non-interference over documents: two changes that differ only in the value of a
   hidden field give the same event, everything in it included.
   */
  lemma HiddenValueIsNotInEvent(
      registry: Registry, change: Change, other: Change, a: Documents, b: Documents, field: string, from: Origin)
    requires other.command == change.command && other.schema == change.schema && other.table == change.table
    requires DocumentsSameBut(a, b, field)
    requires Hidden(registry, change.schema, change.table, a, field)
    requires Hidden(registry, change.schema, change.table, b, field)
    ensures EventOfDocuments(registry, change, a, from) == EventOfDocuments(registry, other, b, from)
  {
    ChangedFieldsSameBut(a, b, field);
    var matches := MatchesOf(registry, change, a);
    TrimPathHasNoPrefix(field);
    RedactionExact(registry, change.schema, change.table, ChangedFields(a), field);
    if a.before.Some? {
      RedactedSameBut(a.before.value, b.before.value, field, matches);
    }
    if a.after.Some? {
      RedactedSameBut(a.after.value, b.after.value, field, matches);
    }
    assert RedactedDocuments(a, matches) == RedactedDocuments(b, matches);
  }

  // ----- one column of two INSERTs -----

  /** Some column of the row is redacted and trims to the name: the name's value is overwritten. */
  predicate CoversName(
      registry: Registry, schema: string, table: string, columns: seq<ParsedColumn>, name: string)
  {
    exists i | 0 <= i < |columns| ::
      TrimPath(columns[i].name) == name && Verdict(registry, schema, table, columns[i].name) == Some(true)
  }

  lemma CoversExactly(parse: JsonParser, registry: Registry, change: Change, name: string)
    requires change.command == "INSERT"
    ensures
      var docs := Documents(None, Some(ToDocument(parse, change.columns)));
      Redacts(MatchesOf(registry, change, docs), name)
      <==> CoversName(registry, change.schema, change.table, change.columns, name)
  {
    var fields := AllFields(ToDocument(parse, change.columns));
    RedactionExact(registry, change.schema, change.table, fields, name);
    DocumentKeys(parse, change.columns);
    assert forall f :: f in fields <==> HasColumn(change.columns, f);
    assert forall i | 0 <= i < |change.columns| :: HasColumn(change.columns, change.columns[i].name);
  }

  lemma RedactedAgree(a: map<string, Json>, b: map<string, Json>, name: string, matches: seq<SensitiveMatch>)
    requires a.Keys == b.Keys && forall k | k in a && k != name :: a[k] == b[k]
    ensures Redacted(Object(a), matches) == Redacted(Object(b), matches) <==> a == b || Redacts(matches, name)
  {
    var x, y := Redacted(Object(a), matches).fields, Redacted(Object(b), matches).fields;
    assert x.Keys == a.Keys && y.Keys == b.Keys;
    if Redacts(matches, name) {
      assert forall k | k in x :: x[k] == y[k];
      assert x == y;
    } else if x == y {
      assert forall k | k in a :: k == name ==> x[k] == a[k] && y[k] == b[k];
      assert a == b;
    }
  }

  lemma EventShowsAfter(
      change: Change, other: Change, a: Json, b: Json, fields: seq<string>, matches: seq<SensitiveMatch>, from: Origin)
    requires other.command == change.command && other.schema == change.schema && other.table == change.table
    ensures
      BuildEvent(change, Documents(None, Some(a)), fields, matches, from)
        == BuildEvent(other, Documents(None, Some(b)), fields, matches, from)
      <==> a == b
  {
    var e := BuildEvent(change, Documents(None, Some(a)), fields, matches, from);
    var f := BuildEvent(other, Documents(None, Some(b)), fields, matches, from);
    assert At(At(e, "detail"), "new_data") == a && At(At(f, "detail"), "new_data") == b;
  }

  lemma CellsDecide(
      parse: JsonParser, done: seq<ParsedColumn>, x: ParsedColumn, y: ParsedColumn, rest: seq<ParsedColumn>)
    requires x.name == y.name
    ensures
      var a, b := DocumentFields(parse, done + [x] + rest), DocumentFields(parse, done + [y] + rest);
      && a.Keys == b.Keys && (forall k | k in a && k != x.name :: a[k] == b[k])
      && (a == b <==> HasColumn(rest, x.name) || CellValue(parse, x) == CellValue(parse, y))
  {
    DocumentAround(parse, done, x, rest);
    DocumentAround(parse, done, y, rest);
    var a, b := DocumentFields(parse, done + [x] + rest), DocumentFields(parse, done + [y] + rest);
    assert !HasColumn(rest, x.name) ==> a[x.name] == CellValue(parse, x) && b[x.name] == CellValue(parse, y);
  }

  /**
   Two INSERTs read alike but for one value give one event exactly when a later column
   of the same name replaces it, a redacted column covers its name, or the two cells
   are the same.
   */
  lemma OneValueDecides(
      parse: JsonParser, registry: Registry, c1: Change, c2: Change,
      done: seq<ParsedColumn>, x: ParsedColumn, y: ParsedColumn, rest: seq<ParsedColumn>, from: Origin)
    requires c1.command == "INSERT" == c2.command && c1.schema == c2.schema && c1.table == c2.table
    requires x.name == y.name
    requires c1.columns == done + [x] + rest && c2.columns == done + [y] + rest
    ensures
      var a := Documents(None, Some(ToDocument(parse, c1.columns)));
      var b := Documents(None, Some(ToDocument(parse, c2.columns)));
      EventOfDocuments(registry, c1, a, from) == EventOfDocuments(registry, c2, b, from)
      <==> HasColumn(rest, x.name) || CellValue(parse, x) == CellValue(parse, y)
           || CoversName(registry, c1.schema, c1.table, c1.columns, x.name)
  {
    var a, b := ToDocument(parse, c1.columns), ToDocument(parse, c2.columns);
    var docs := Documents(None, Some(a));
    var matches := MatchesOf(registry, c1, docs);
    CellsDecide(parse, done, x, y, rest);
    RedactedAgree(a.fields, b.fields, x.name, matches);
    CoversExactly(parse, registry, c1, x.name);
    assert AllFields(a) == AllFields(b);
    EventShowsAfter(c1, c2, Redacted(a, matches), Redacted(b, matches), AllFields(a), matches, from);
  }

  predicate ColumnsSameBut(a: seq<ParsedColumn>, b: seq<ParsedColumn>, field: string) {
    |a| == |b| && forall i | 0 <= i < |a| ::
      a[i].name == b[i].name && a[i].isOld == b[i].isOld && (a[i].name != field ==> a[i].value == b[i].value)
  }

  predicate ChangesSameBut(a: Change, b: Change, field: string) {
    a.command == b.command && a.schema == b.schema && a.table == b.table && ColumnsSameBut(a.columns, b.columns, field)
  }

  lemma {:induction false} DocumentSameBut(parse: JsonParser, a: seq<ParsedColumn>, b: seq<ParsedColumn>, field: string)
    requires ColumnsSameBut(a, b, field)
    ensures SameBut(ToDocument(parse, a), ToDocument(parse, b), field)
    decreases |a|
  {
    if a != [] {
      var n := |a| - 1;
      assert forall i | 0 <= i < n :: a[..n][i] == a[i] && b[..n][i] == b[i];
      DocumentSameBut(parse, a[..n], b[..n], field);
    }
  }

  lemma SameButConcat(
      a: seq<ParsedColumn>, b: seq<ParsedColumn>, x: seq<ParsedColumn>, y: seq<ParsedColumn>, field: string)
    requires ColumnsSameBut(a, b, field) && ColumnsSameBut(x, y, field)
    ensures ColumnsSameBut(a + x, b + y, field)
  {
  }

  lemma SameButTail(a: seq<ParsedColumn>, b: seq<ParsedColumn>, field: string)
    requires ColumnsSameBut(a, b, field) && a != []
    ensures ColumnsSameBut(a[1..], b[1..], field) && ColumnsSameBut([a[0]], [b[0]], field)
  {
  }

  lemma {:induction false} SectionSameBut(a: seq<ParsedColumn>, b: seq<ParsedColumn>, field: string, isOld: bool)
    requires ColumnsSameBut(a, b, field)
    ensures ColumnsSameBut(Section(a, isOld), Section(b, isOld), field)
  {
    if a != [] {
      SameButTail(a, b, field);
      SectionSameBut(a[1..], b[1..], field, isOld);
      var x := if a[0].isOld == isOld then [a[0]] else [];
      var y := if b[0].isOld == isOld then [b[0]] else [];
      SameButConcat(x, y, Section(a[1..], isOld), Section(b[1..], isOld), field);
    }
  }

  lemma DocumentsOfSameBut(parse: JsonParser, a: Change, b: Change, field: string)
    requires ChangesSameBut(a, b, field)
    ensures DocumentsOf(parse, a).Some? <==> DocumentsOf(parse, b).Some?
    ensures DocumentsOf(parse, a).Some? ==>
        DocumentsSameBut(DocumentsOf(parse, a).value, DocumentsOf(parse, b).value, field)
  {
    DocumentSameBut(parse, a.columns, b.columns, field);
    SectionSameBut(a.columns, b.columns, field, true);
    SectionSameBut(a.columns, b.columns, field, false);
    DocumentSameBut(parse, Section(a.columns, true), Section(b.columns, true), field);
    DocumentSameBut(parse, Section(a.columns, false), Section(b.columns, false), field);
  }

  /** The field is hidden in the event made of this line. */
  predicate HiddenInLine(parse: JsonParser, registry: Registry, line: string, field: string) {
    var read := ParseChangeLine(line);
    read.Some? &&
    var docs := DocumentsOf(parse, read.value);
    docs.Some? && Hidden(registry, read.value.schema, read.value.table, docs.value, field)
  }

  /**
   Non-interference over lines: two lines that are read alike but for the values of
   one field, hidden in both, produce the same events.
   */
  lemma HiddenLinesAgree(parse: JsonParser, registry: Registry, l1: string, l2: string, field: string, from: Origin)
    requires ParseChangeLine(l1).Some? && ParseChangeLine(l2).Some?
    requires ChangesSameBut(ParseChangeLine(l1).value, ParseChangeLine(l2).value, field)
    requires HiddenInLine(parse, registry, l1, field) && HiddenInLine(parse, registry, l2, field)
    ensures EventsOf(parse, registry, l1, from) == EventsOf(parse, registry, l2, from)
  {
    var c1, c2 := ParseChangeLine(l1).value, ParseChangeLine(l2).value;
    DocumentsOfSameBut(parse, c1, c2, field);
    HiddenValueIsNotInEvent(registry, c1, c2, DocumentsOf(parse, c1).value, DocumentsOf(parse, c2).value, field, from);
    TableLinesStartWithTable(l1);
    TableLinesStartWithTable(l2);
  }

  lemma EventOfLine(
      parse: JsonParser, registry: Registry, line: string, change: Change, docs: Documents, from: Origin)
    requires ParseChangeLine(line) == Some(change) && DocumentsOf(parse, change) == Some(docs)
    ensures EventsOf(parse, registry, line, from) == Some([EventOfDocuments(registry, change, docs, from)])
  {
    TableLinesStartWithTable(line);
  }

  /**
   Which lines yield an event: those read as an INSERT, an UPDATE or a DELETE, and each
   of them yields one.
   */
  lemma EventsExactly(parse: JsonParser, registry: Registry, line: string, from: Origin)
    ensures
      var events, read := EventsOf(parse, registry, line, from), ParseChangeLine(line);
      && (events.Some? <==> read.Some? && read.value.command in {"INSERT", "UPDATE", "DELETE"})
      && (events.Some? ==> |events.value| == 1)
  {
    if ParseChangeLine(line).Some? {
      TableLinesStartWithTable(line);
    }
  }

  /** A line read as a change is not mistaken for a transaction boundary. */
  lemma TableLinesStartWithTable(line: string)
    requires ParseChangeLine(line).Some?
    ensures !("BEGIN" <= line) && !("COMMIT" <= line)
  {
    if "BEGIN" <= line || "COMMIT" <= line {
      assert line[0] == 'B' || line[0] == 'C';
      assert TrimStart(line) == line;
      TrimEndKeepsStart(line);
    }
  }

  lemma {:induction false} TrimEndKeepsStart(s: string)
    ensures TrimEnd(s) <= s
    decreases |s|
  {
    if s != "" && IsSpace(s[|s| - 1]) {
      TrimEndKeepsStart(s[..|s| - 1]);
    }
  }
}

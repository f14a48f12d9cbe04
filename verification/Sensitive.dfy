/**
 Changed fields, sensitive fields and redaction (forwarder/src/sensitive.rs).
 */
module Sensitive {
  import opened Options
  import opened Text
  import opened Json
  import opened KeyOrder

  datatype SensitiveMatch = SensitiveMatch(jsonPath: string, redact: bool)

  datatype DbField = DbField(jsonPath: string, redactInLog: bool)

  /** The registry: names from the configuration and table entries by `schema.table`. */
  datatype Registry = Registry(globalFields: seq<string>, dbFields: map<string, seq<DbField>>)

  const REDACTED := String("[REDACTED]")

  // ----- diff_fields and all_fields -----

  function Differing(before: map<string, Json>, after: map<string, Json>, keys: seq<string>): seq<string> {
    if keys == [] then []
    else (if Lookup(before, keys[0]) == Lookup(after, keys[0]) then [] else [keys[0]])
         + Differing(before, after, keys[1..])
  }

  function Missing(m: map<string, Json>, keys: seq<string>): seq<string> {
    if keys == [] then [] else (if keys[0] in m then [] else [keys[0]]) + Missing(m, keys[1..])
  }

  function Diff(before: Json, after: Json): seq<string> {
    match (before, after)
    case (Object(o), Object(n)) => Differing(o, n, SortedKeys(n.Keys)) + Missing(n, SortedKeys(o.Keys))
    case _ => []
  }

  method DiffFields(before: Json, after: Json) returns (changed: seq<string>)
    ensures changed == Diff(before, after)
  {
    changed := [];
    if before.Object? && after.Object? {
      var newKeys, oldKeys := SortedKeys(after.fields.Keys), SortedKeys(before.fields.Keys);
      changed := PushDiffering(before.fields, after.fields, newKeys);
      changed := PushMissing(changed, after.fields, oldKeys);
    }
  }

  /** The first loop of `diff_fields`, over the new document. */
  method PushDiffering(oldMap: map<string, Json>, newMap: map<string, Json>, keys: seq<string>)
    returns (changed: seq<string>)
    requires forall i | 0 <= i < |keys| :: keys[i] in newMap
    ensures changed == Differing(oldMap, newMap, keys)
  {
    changed := [];
    assert keys[0..] == keys;
    ghost var all := Differing(oldMap, newMap, keys);
    var i := 0;
    while i < |keys|
      invariant 0 <= i <= |keys|
      invariant changed + Differing(oldMap, newMap, keys[i..]) == all
    {
      var key := keys[i];
      DifferingStep(changed, oldMap, newMap, keys, i);
      if !(key in oldMap && oldMap[key] == newMap[key]) {
        changed := changed + [key];
      }
      i := i + 1;
    }
  }

  lemma DifferingStep(
      changed: seq<string>, oldMap: map<string, Json>, newMap: map<string, Json>, keys: seq<string>, i: nat)
    requires i < |keys| && keys[i] in newMap
    ensures
      var same := keys[i] in oldMap && oldMap[keys[i]] == newMap[keys[i]];
      changed + Differing(oldMap, newMap, keys[i..])
        == (if same then changed else changed + [keys[i]]) + Differing(oldMap, newMap, keys[i + 1..])
  {
    assert keys[i..][0] == keys[i] && keys[i..][1..] == keys[i + 1..];
  }

  /** The second loop of `diff_fields`, over the old document. */
  method PushMissing(first: seq<string>, newMap: map<string, Json>, keys: seq<string>) returns (changed: seq<string>)
    ensures changed == first + Missing(newMap, keys)
  {
    changed := first;
    assert keys[0..] == keys;
    var i := 0;
    while i < |keys|
      invariant 0 <= i <= |keys|
      invariant changed + Missing(newMap, keys[i..]) == first + Missing(newMap, keys)
    {
      var key := keys[i];
      assert keys[i..][0] == key && keys[i..][1..] == keys[i + 1..];
      if key !in newMap {
        changed := changed + [key];
      }
      i := i + 1;
    }
  }

  function AllFields(doc: Json): seq<string> {
    if doc.Object? then SortedKeys(doc.fields.Keys) else []
  }

  lemma {:induction false} DifferingExact(before: map<string, Json>, after: map<string, Json>, keys: seq<string>)
    requires Distinct(keys)
    ensures Distinct(Differing(before, after, keys))
    ensures forall k :: k in Differing(before, after, keys) <==> k in keys && Lookup(before, k) != Lookup(after, k)
  {
    if keys != [] {
      DifferingExact(before, after, keys[1..]);
      assert forall k :: k in keys <==> k == keys[0] || k in keys[1..];
    }
  }

  lemma {:induction false} MissingExact(m: map<string, Json>, keys: seq<string>)
    requires Distinct(keys)
    ensures Distinct(Missing(m, keys))
    ensures forall k :: k in Missing(m, keys) <==> k in keys && k !in m
  {
    if keys != [] {
      MissingExact(m, keys[1..]);
      assert forall k :: k in keys <==> k == keys[0] || k in keys[1..];
    }
  }

  /**
   For object documents the diff lists, once each, exactly the keys whose lookup
   (a value, or absent) differs.
   */
  lemma DiffExact(o: map<string, Json>, n: map<string, Json>)
    ensures Distinct(Diff(Object(o), Object(n)))
    ensures forall k :: k in Diff(Object(o), Object(n)) <==> Lookup(o, k) != Lookup(n, k)
  {
    var newKeys, oldKeys := SortedKeys(n.Keys), SortedKeys(o.Keys);
    var a, b := Differing(o, n, newKeys), Missing(n, oldKeys);
    DifferingExact(o, n, newKeys);
    MissingExact(n, oldKeys);
    DistinctConcat(a, b);
  }

  lemma DistinctConcat(a: seq<string>, b: seq<string>)
    requires Distinct(a) && Distinct(b) && forall k :: !(k in a && k in b)
    ensures Distinct(a + b)
    ensures forall k :: k in a + b <==> k in a || k in b
  {
    assert forall i | 0 <= i < |a| :: a[i] in a;
    assert forall i | 0 <= i < |b| :: b[i] in b;
  }

  /**
   The order of the diff: first the keys of the new document, then the missing ones,
   each part in key order.
   */
  lemma DiffOrder(o: map<string, Json>, n: map<string, Json>, i: nat, j: nat)
    requires i < j < |Diff(Object(o), Object(n))|
    ensures
      var d := Diff(Object(o), Object(n));
      (d[i] in n <== d[j] in n) && ((d[i] in n <==> d[j] in n) ==> Leq(d[i], d[j]))
  {
    var newKeys, oldKeys := SortedKeys(n.Keys), SortedKeys(o.Keys);
    DifferingOrder(o, n, newKeys);
    MissingOrder(n, oldKeys);
    DifferingExact(o, n, newKeys);
    MissingExact(n, oldKeys);
    PartsInOrder(Differing(o, n, newKeys), Missing(n, oldKeys), n.Keys, i, j);
  }

  lemma PartsInOrder(a: seq<string>, b: seq<string>, keys: set<string>, i: nat, j: nat)
    requires Ascends(a) && Ascends(b) && i < j < |a + b|
    requires (forall k <- a :: k in keys) && forall k <- b :: k !in keys
    ensures
      var d := a + b;
      (d[i] in keys <== d[j] in keys) && ((d[i] in keys <==> d[j] in keys) ==> Leq(d[i], d[j]))
  {
    if j < |a| {
      assert (a + b)[i] == a[i] && (a + b)[j] == a[j];
    } else if i < |a| {
      assert (a + b)[i] == a[i] && (a + b)[j] == b[j - |a|];
    } else {
      assert (a + b)[i] == b[i - |a|] && (a + b)[j] == b[j - |a|];
    }
  }

  predicate Ascends(keys: seq<string>) {
    forall i, j | 0 <= i < j < |keys| :: Leq(keys[i], keys[j])
  }

  lemma {:induction false} DifferingOrder(o: map<string, Json>, n: map<string, Json>, keys: seq<string>)
    requires Ascends(keys) && Distinct(keys)
    ensures Ascends(Differing(o, n, keys))
  {
    if keys != [] {
      DifferingOrder(o, n, keys[1..]);
      DifferingExact(o, n, keys[1..]);
      var rest := Differing(o, n, keys[1..]);
      assert forall i | 0 <= i < |rest| :: rest[i] in rest && rest[i] in keys[1..];
    }
  }

  lemma {:induction false} MissingOrder(m: map<string, Json>, keys: seq<string>)
    requires Ascends(keys) && Distinct(keys)
    ensures Ascends(Missing(m, keys))
  {
    if keys != [] {
      MissingOrder(m, keys[1..]);
      MissingExact(m, keys[1..]);
      var rest := Missing(m, keys[1..]);
      assert forall i | 0 <= i < |rest| :: rest[i] in rest && rest[i] in keys[1..];
    }
  }

  /** The diff is empty exactly for equal documents, and as a set it does not depend on direction. */
  lemma DiffLaws(o: map<string, Json>, n: map<string, Json>)
    ensures Diff(Object(o), Object(n)) == [] <==> o == n
    ensures multiset(Diff(Object(o), Object(n))) == multiset(Diff(Object(n), Object(o)))
  {
    EmptyDiff(o, n);
    DiffExact(o, n);
    DiffExact(n, o);
    SameKeysSameMultiset(Diff(Object(o), Object(n)), Diff(Object(n), Object(o)));
  }

  lemma EmptyDiff(o: map<string, Json>, n: map<string, Json>)
    ensures Diff(Object(o), Object(n)) == [] <==> o == n
  {
    DiffExact(o, n);
    var d := Diff(Object(o), Object(n));
    if d == [] {
      forall k ensures Lookup(o, k) == Lookup(n, k) {
        assert k !in d;
      }
      assert forall k | k in o || k in n :: k in o && k in n && o[k] == n[k] by {
        assert forall k | k in o || k in n :: Lookup(o, k) == Lookup(n, k);
      }
      assert o.Keys == n.Keys;
    } else {
      assert d[0] in d;
    }
  }

  lemma SameKeysSameMultiset(d: seq<string>, e: seq<string>)
    requires Distinct(d) && Distinct(e) && forall k :: k in d <==> k in e
    ensures multiset(d) == multiset(e)
  {
    DistinctMultiset(d);
    DistinctMultiset(e);
    assert forall k :: multiset(d)[k] == multiset(e)[k];
  }

  lemma {:induction false} DistinctMultiset(keys: seq<string>)
    requires Distinct(keys)
    ensures forall k :: multiset(keys)[k] == if k in keys then 1 else 0
  {
    if keys != [] {
      assert keys == [keys[0]] + keys[1..];
      DistinctMultiset(keys[1..]);
      assert forall k :: k in keys <==> k == keys[0] || k in keys[1..];
    }
  }

  // ----- detect -----

  /** A configured name is the field's name, with or without its `$.` prefixes. */
  predicate GlobalHit(globals: seq<string>, field: string) {
    TrimPath(field) in globals || field in globals
  }

  predicate EntryHit(entry: DbField, field: string) {
    TrimPath(entry.jsonPath) == TrimPath(field) || TrimPath(entry.jsonPath) == field
  }

  /** The flag of the first table entry that matches. */
  function FirstFlag(entries: seq<DbField>, field: string): Option<bool> {
    if entries == [] then None
    else if EntryHit(entries[0], field) then Some(entries[0].redactInLog)
    else FirstFlag(entries[1..], field)
  }

  function Entries(registry: Registry, schema: string, table: string): seq<DbField> {
    var key := schema + "." + table;
    if key in registry.dbFields then registry.dbFields[key] else []
  }

  /** The registry's verdict on one field: not sensitive, or whether its value is redacted. */
  function Verdict(registry: Registry, schema: string, table: string, field: string): Option<bool> {
    if GlobalHit(registry.globalFields, field) then Some(true)
    else FirstFlag(Entries(registry, schema, table), field)
  }

  predicate Listed(matches: seq<SensitiveMatch>, field: string) {
    exists i | 0 <= i < |matches| :: matches[i].jsonPath == field
  }

  function GlobalMatches(globals: seq<string>, fields: seq<string>): seq<SensitiveMatch> {
    if fields == [] then []
    else (if GlobalHit(globals, fields[0]) then [SensitiveMatch(fields[0], true)] else [])
         + GlobalMatches(globals, fields[1..])
  }

  function AddTableMatch(matches: seq<SensitiveMatch>, field: string, entries: seq<DbField>): seq<SensitiveMatch> {
    match FirstFlag(entries, field)
    case Some(flag) => if Listed(matches, field) then matches else matches + [SensitiveMatch(field, flag)]
    case None => matches
  }

  function AddTableMatches(matches: seq<SensitiveMatch>, fields: seq<string>, entries: seq<DbField>)
    : seq<SensitiveMatch>
    decreases fields
  {
    if fields == [] then matches
    else AddTableMatches(AddTableMatch(matches, fields[0], entries), fields[1..], entries)
  }

  function Detected(registry: Registry, schema: string, table: string, fields: seq<string>): seq<SensitiveMatch> {
    AddTableMatches(GlobalMatches(registry.globalFields, fields), fields, Entries(registry, schema, table))
  }

  method Detect(registry: Registry, schema: string, table: string, fields: seq<string>)
    returns (matches: seq<SensitiveMatch>)
    ensures matches == Detected(registry, schema, table, fields)
  {
    matches := [];
    ghost var first := GlobalMatches(registry.globalFields, fields);
    var i := 0;
    while i < |fields|
      invariant 0 <= i <= |fields|
      invariant matches + GlobalMatches(registry.globalFields, fields[i..]) == first
    {
      var field := fields[i];
      assert fields[i..][0] == field && fields[i..][1..] == fields[i + 1..];
      if GlobalHit(registry.globalFields, field) {
        matches := matches + [SensitiveMatch(field, true)];
      }
      i := i + 1;
    }
    var key := schema + "." + table;
    if key in registry.dbFields {
      var entries := registry.dbFields[key];
      i := 0;
      assert fields[0..] == fields && matches == first;
      while i < |fields|
        invariant 0 <= i <= |fields|
        invariant AddTableMatches(matches, fields[i..], entries) == AddTableMatches(first, fields, entries)
      {
        var field := fields[i];
        assert fields[i..][0] == field && fields[i..][1..] == fields[i + 1..];
        matches := MatchEntries(matches, field, entries);
        i := i + 1;
      }
    } else {
      NoEntries(first, fields);
    }
  }

  /** The innermost loop of `detect`, over the entries of the table. */
  method MatchEntries(before: seq<SensitiveMatch>, field: string, entries: seq<DbField>)
    returns (matches: seq<SensitiveMatch>)
    ensures matches == AddTableMatch(before, field, entries)
  {
    matches := before;
    var i := 0;
    while i < |entries|
      invariant 0 <= i <= |entries|
      invariant AddTableMatch(matches, field, entries[i..]) == AddTableMatch(before, field, entries)
    {
      var entry := entries[i];
      assert entries[i..][0] == entry && entries[i..][1..] == entries[i + 1..];
      if EntryHit(entry, field) {
        if !Listed(matches, field) {
          matches := matches + [SensitiveMatch(field, entry.redactInLog)];
          assert matches[|matches| - 1].jsonPath == field;
        }
        assert Listed(matches, field);
      }
      i := i + 1;
    }
  }

  lemma {:induction false} NoEntries(matches: seq<SensitiveMatch>, fields: seq<string>)
    ensures AddTableMatches(matches, fields, []) == matches
  {
    if fields != [] {
      NoEntries(matches, fields[1..]);
    }
  }

  lemma {:induction false} GlobalMatchesExact(globals: seq<string>, fields: seq<string>)
    ensures forall m :: m in GlobalMatches(globals, fields)
                   <==> m.jsonPath in fields && GlobalHit(globals, m.jsonPath) && m.redact
  {
    if fields != [] {
      GlobalMatchesExact(globals, fields[1..]);
      assert forall f :: f in fields <==> f == fields[0] || f in fields[1..];
    }
  }

  lemma {:induction false} AddTableMatchesExact(
      matches: seq<SensitiveMatch>, fields: seq<string>, entries: seq<DbField>)
    ensures forall m :: m in AddTableMatches(matches, fields, entries) <==>
        (m in matches
        || (m.jsonPath in fields && !Listed(matches, m.jsonPath) && FirstFlag(entries, m.jsonPath) == Some(m.redact)))
    decreases fields
  {
    if fields != [] {
      var next := AddTableMatch(matches, fields[0], entries);
      AddTableMatchesExact(next, fields[1..], entries);
      assert forall f :: f in fields <==> f == fields[0] || f in fields[1..];
      assert forall m :: m in next <==>
        (m in matches
        || (m.jsonPath == fields[0] && !Listed(matches, fields[0]) && FirstFlag(entries, fields[0]) == Some(m.redact)));
      forall f ensures Listed(next, f) <==> Listed(matches, f) || (f == fields[0] && FirstFlag(entries, f).Some?) {
        assert forall i | 0 <= i < |matches| :: next[i] == matches[i];
        if f == fields[0] && FirstFlag(entries, f).Some? && !Listed(matches, f) {
          assert next[|matches|].jsonPath == f;
        }
      }
    }
  }

  /**
   `detect` reports a field exactly when it was asked about it and the registry
   has a verdict on it, and the match carries that verdict: redact if any
   configured name matches, else the flag of the first matching table entry.
   */
  lemma DetectExact(registry: Registry, schema: string, table: string, fields: seq<string>)
    ensures forall m :: m in Detected(registry, schema, table, fields)
                   <==> m.jsonPath in fields && Verdict(registry, schema, table, m.jsonPath) == Some(m.redact)
  {
    var globals := registry.globalFields;
    var first := GlobalMatches(globals, fields);
    GlobalMatchesExact(globals, fields);
    AddTableMatchesExact(first, fields, Entries(registry, schema, table));
    forall f | f in fields ensures Listed(first, f) <==> GlobalHit(globals, f) {
      if GlobalHit(globals, f) {
        assert SensitiveMatch(f, true) in first;
      }
      if Listed(first, f) {
        var i :| 0 <= i < |first| && first[i].jsonPath == f;
        assert first[i] in first;
      }
    }
  }

  /** Some configured name, at any place in the list, is the field's, with or without its `$.` prefixes. */
  predicate Configured(globals: seq<string>, field: string) {
    exists i | 0 <= i < |globals| :: globals[i] == field || globals[i] == TrimPath(field)
  }

  /** The entry names the field, with or without their `$.` prefixes. */
  predicate Names(entry: DbField, field: string) {
    var name := TrimPath(entry.jsonPath);
    name == field || name == TrimPath(field)
  }

  /** Entry `j` is the first of the list that names the field. */
  predicate FirstToName(entries: seq<DbField>, j: nat, field: string) {
    j < |entries| && Names(entries[j], field) && forall k | 0 <= k < j :: !Names(entries[k], field)
  }

  function TableEntries(registry: Registry, schema: string, table: string): (entries: seq<DbField>)
    ensures
      var key := schema + "." + table;
      (key in registry.dbFields ==> entries == registry.dbFields[key]) && (key !in registry.dbFields ==> entries == [])
  {
    Entries(registry, schema, table)
  }

  /**
   What `detect` reports, from the configuration alone: a listed field that some
   configured name names, to be redacted; else one that an entry of its table names,
   with the flag of the first such entry.
   */
  lemma DetectedFields(registry: Registry, schema: string, table: string, fields: seq<string>, f: string, r: bool)
    ensures
      var entries := TableEntries(registry, schema, table);
      SensitiveMatch(f, r) in Detected(registry, schema, table, fields) <==>
        f in fields &&
        if Configured(registry.globalFields, f) then r
        else exists j | 0 <= j < |entries| :: FirstToName(entries, j, f) && entries[j].redactInLog == r
  {
    DetectExact(registry, schema, table, fields);
    VerdictIs(registry, schema, table, f);
  }

  lemma VerdictIs(registry: Registry, schema: string, table: string, f: string)
    ensures
      var entries := TableEntries(registry, schema, table);
      forall r: bool :: Verdict(registry, schema, table, f) == Some(r) <==>
        if Configured(registry.globalFields, f) then r
        else exists j | 0 <= j < |entries| :: FirstToName(entries, j, f) && entries[j].redactInLog == r
  {
    var entries := TableEntries(registry, schema, table);
    ConfiguredIsHit(registry.globalFields, f);
    FirstFlagIs(entries, f);
    if Configured(registry.globalFields, f) {
      assert Verdict(registry, schema, table, f) == Some(true);
    } else {
      assert Verdict(registry, schema, table, f) == FirstFlag(entries, f);
    }
  }

  lemma ConfiguredIsHit(globals: seq<string>, f: string)
    ensures GlobalHit(globals, f) <==> Configured(globals, f)
  {
  }

  lemma {:induction false} FirstFlagIs(entries: seq<DbField>, f: string)
    ensures forall r: bool :: FirstFlag(entries, f) == Some(r) <==>
      exists j | 0 <= j < |entries| :: FirstToName(entries, j, f) && entries[j].redactInLog == r
  {
    if entries != [] {
      if Names(entries[0], f) {
        assert FirstToName(entries, 0, f);
      } else {
        FirstFlagIs(entries[1..], f);
        forall j | 1 <= j < |entries| ensures FirstToName(entries, j, f) <==> FirstToName(entries[1..], j - 1, f) {
          FirstLater(entries, j, f);
        }
        forall j | 0 <= j < |entries| - 1 ensures FirstToName(entries[1..], j, f) <==> FirstToName(entries, j + 1, f) {
          FirstLater(entries, j + 1, f);
        }
      }
    }
  }

  lemma FirstLater(entries: seq<DbField>, j: nat, f: string)
    requires 1 <= j < |entries| && !Names(entries[0], f)
    ensures FirstToName(entries, j, f) <==> FirstToName(entries[1..], j - 1, f)
  {
    assert forall k | 0 <= k < |entries| - 1 :: entries[1..][k] == entries[k + 1];
    if FirstToName(entries[1..], j - 1, f) {
      forall k | 0 <= k < j ensures !Names(entries[k], f) {
        assert k > 0 ==> entries[k] == entries[1..][k - 1];
      }
    }
  }

  function PathsOf(matches: seq<SensitiveMatch>): seq<string> {
    seq(|matches|, i requires 0 <= i < |matches| => matches[i].jsonPath)
  }

  /** The fields of the list that satisfy `p`, in order. */
  function Kept(fields: seq<string>, p: string -> bool): seq<string> {
    if fields == [] then [] else (if p(fields[0]) then [fields[0]] else []) + Kept(fields[1..], p)
  }

  lemma {:induction false} GlobalPaths(globals: seq<string>, fields: seq<string>)
    ensures PathsOf(GlobalMatches(globals, fields)) == Kept(fields, f => Configured(globals, f))
  {
    if fields != [] {
      GlobalPaths(globals, fields[1..]);
      ConfiguredIsHit(globals, fields[0]);
      PathsConcat(if GlobalHit(globals, fields[0]) then [SensitiveMatch(fields[0], true)] else [],
                  GlobalMatches(globals, fields[1..]));
    }
  }

  lemma PathsConcat(a: seq<SensitiveMatch>, b: seq<SensitiveMatch>)
    ensures PathsOf(a + b) == PathsOf(a) + PathsOf(b)
  {
  }

  lemma {:induction false} TablePaths(
      globals: seq<string>, matches: seq<SensitiveMatch>, fields: seq<string>, entries: seq<DbField>)
    requires Distinct(fields)
    requires forall f <- fields :: Listed(matches, f) <==> Configured(globals, f)
    ensures PathsOf(AddTableMatches(matches, fields, entries))
         == PathsOf(matches) + Kept(fields, f => !Configured(globals, f) && FirstFlag(entries, f).Some?)
    decreases fields
  {
    if fields != [] {
      var next := AddTableMatch(matches, fields[0], entries);
      forall f | f in fields[1..] ensures Listed(next, f) <==> Configured(globals, f) {
        assert f in fields && f != fields[0];
        ListedNext(matches, next, f);
      }
      TablePaths(globals, next, fields[1..], entries);
      assert fields[0] in fields;
      TableStep(globals, matches, fields[0], entries);
    }
  }

  lemma TableStep(globals: seq<string>, matches: seq<SensitiveMatch>, field: string, entries: seq<DbField>)
    requires Listed(matches, field) <==> Configured(globals, field)
    ensures PathsOf(AddTableMatch(matches, field, entries))
         == PathsOf(matches)
            + if !Configured(globals, field) && FirstFlag(entries, field).Some? then [field] else []
  {
    assert PathsOf(matches) + [] == PathsOf(matches);
    if FirstFlag(entries, field).Some? {
      PathsConcat(matches, [SensitiveMatch(field, FirstFlag(entries, field).value)]);
    }
  }

  lemma ListedNext(matches: seq<SensitiveMatch>, next: seq<SensitiveMatch>, f: string)
    requires next == matches || (next != [] && next[..|next| - 1] == matches && next[|next| - 1].jsonPath != f)
    ensures Listed(next, f) <==> Listed(matches, f)
  {
    if next != matches {
      assert forall i | 0 <= i < |matches| :: next[i] == matches[i];
    }
  }

  /**
   The order of the matches, for fields listed once: those of configured names, then
   those of the table's entries, each in the order the fields were listed.
   */
  lemma DetectOrder(registry: Registry, schema: string, table: string, fields: seq<string>)
    requires Distinct(fields)
    ensures
      var entries := TableEntries(registry, schema, table);
      PathsOf(Detected(registry, schema, table, fields))
        == Kept(fields, f => Configured(registry.globalFields, f))
           + Kept(fields, f => !Configured(registry.globalFields, f)
                               && exists j | 0 <= j < |entries| :: Names(entries[j], f))
  {
    var globals, entries := registry.globalFields, Entries(registry, schema, table);
    var first := GlobalMatches(globals, fields);
    GlobalMatchesExact(globals, fields);
    forall f | f in fields ensures Listed(first, f) <==> Configured(globals, f) {
      ConfiguredIsHit(globals, f);
      if Configured(globals, f) {
        assert SensitiveMatch(f, true) in first;
      }
      if Listed(first, f) {
        var i :| 0 <= i < |first| && first[i].jsonPath == f;
        assert first[i] in first;
      }
    }
    GlobalPaths(globals, fields);
    TablePaths(globals, first, fields, entries);
    forall f | f in fields
      ensures FirstFlag(entries, f).Some? <==> exists j | 0 <= j < |entries| :: Names(entries[j], f)
    {
      FlagExists(entries, f);
    }
    KeptSame(fields, f => !Configured(globals, f) && FirstFlag(entries, f).Some?,
             f => !Configured(globals, f) && exists j | 0 <= j < |entries| :: Names(entries[j], f));
  }

  lemma {:induction false} FlagExists(entries: seq<DbField>, f: string)
    ensures FirstFlag(entries, f).Some? <==> exists j | 0 <= j < |entries| :: Names(entries[j], f)
  {
    if entries != [] {
      FlagExists(entries[1..], f);
      assert forall k | 0 <= k < |entries| - 1 :: entries[1..][k] == entries[k + 1];
      assert forall k | 1 <= k < |entries| :: entries[k] == entries[1..][k - 1];
    }
  }

  lemma {:induction false} KeptSame(fields: seq<string>, p: string -> bool, q: string -> bool)
    requires forall f <- fields :: p(f) == q(f)
    ensures Kept(fields, p) == Kept(fields, q)
  {
    if fields != [] {
      assert fields[0] in fields;
      KeptSame(fields[1..], p, q);
    }
  }

  predicate OnePerField(matches: seq<SensitiveMatch>) {
    forall i, j | 0 <= i < j < |matches| :: matches[i].jsonPath != matches[j].jsonPath
  }

  lemma {:induction false} GlobalMatchesOnce(globals: seq<string>, fields: seq<string>)
    requires Distinct(fields)
    ensures OnePerField(GlobalMatches(globals, fields))
  {
    if fields != [] {
      GlobalMatchesOnce(globals, fields[1..]);
      GlobalMatchesExact(globals, fields[1..]);
      var rest := GlobalMatches(globals, fields[1..]);
      assert forall i | 0 <= i < |rest| :: rest[i] in rest && rest[i].jsonPath in fields[1..];
    }
  }

  lemma {:induction false} AddTableMatchesOnce(matches: seq<SensitiveMatch>, fields: seq<string>, entries: seq<DbField>)
    requires OnePerField(matches)
    ensures OnePerField(AddTableMatches(matches, fields, entries))
    decreases fields
  {
    if fields != [] {
      AddTableMatchesOnce(AddTableMatch(matches, fields[0], entries), fields[1..], entries);
    }
  }

  /** Fields listed once are matched at most once. */
  lemma DetectOnce(registry: Registry, schema: string, table: string, fields: seq<string>)
    requires Distinct(fields)
    ensures OnePerField(Detected(registry, schema, table, fields))
  {
    GlobalMatchesOnce(registry.globalFields, fields);
    AddTableMatchesOnce(GlobalMatches(registry.globalFields, fields), fields, Entries(registry, schema, table));
  }

  // ----- redact -----

  predicate Redacts(matches: seq<SensitiveMatch>, key: string) {
    exists i | 0 <= i < |matches| :: matches[i].redact && TrimPath(matches[i].jsonPath) == key
  }

  /** The document with exactly the redacted keys overwritten; no key appears or disappears. */
  function Redacted(doc: Json, matches: seq<SensitiveMatch>): Json {
    if doc.Object? then Object(map k <- doc.fields :: if Redacts(matches, k) then REDACTED else doc.fields[k])
    else doc
  }

  /** A document that `redact` overwrites in place. */
  class Document {
    var value: Json

    constructor (value: Json)
      ensures this.value == value
    {
      this.value := value;
    }

    method Redact(matches: seq<SensitiveMatch>)
      modifies this
      ensures value == Redacted(old(value), matches)
    {
      if value.Object? {
        var i := 0;
        assert value.fields == Redacted(value, []).fields;
        while i < |matches|
          invariant 0 <= i <= |matches|
          invariant value == Redacted(old(value), matches[..i])
        {
          var m := matches[i];
          RedactedOne(old(value), matches[..i], m);
          assert matches[..i + 1] == matches[..i] + [m];
          if m.redact {
            var key := TrimPath(m.jsonPath);
            if key in value.fields {
              value := Object(value.fields[key := REDACTED]);
            }
          }
          i := i + 1;
        }
        assert matches[..|matches|] == matches;
      }
    }
  }

  lemma RedactedOne(doc: Json, matches: seq<SensitiveMatch>, m: SensitiveMatch)
    requires doc.Object?
    ensures
      var before, after, key := Redacted(doc, matches), Redacted(doc, matches + [m]), TrimPath(m.jsonPath);
      after == if m.redact && key in before.fields then Object(before.fields[key := REDACTED]) else before
  {
    var more := matches + [m];
    forall k ensures Redacts(more, k) <==> Redacts(matches, k) || (m.redact && TrimPath(m.jsonPath) == k) {
      assert more[|matches|] == m;
      assert forall i | 0 <= i < |matches| :: more[i] == matches[i];
    }
    var before, after, key := Redacted(doc, matches), Redacted(doc, more), TrimPath(m.jsonPath);
    if m.redact && key in before.fields {
      assert after.fields == before.fields[key := REDACTED];
    } else {
      assert after.fields == before.fields;
    }
  }

  /**
   The two passes together: a key is overwritten exactly when some listed field has
   that key as its trimmed path and the registry redacts that field.
   */
  lemma RedactionExact(registry: Registry, schema: string, table: string, fields: seq<string>, key: string)
    ensures Redacts(Detected(registry, schema, table, fields), key)
       <==> exists f <- fields :: TrimPath(f) == key && Verdict(registry, schema, table, f) == Some(true)
  {
    var matches := Detected(registry, schema, table, fields);
    DetectExact(registry, schema, table, fields);
    if Redacts(matches, key) {
      var i :| 0 <= i < |matches| && matches[i].redact && TrimPath(matches[i].jsonPath) == key;
      assert matches[i] in matches;
    }
    if f :| f in fields && TrimPath(f) == key && Verdict(registry, schema, table, f) == Some(true) {
      assert SensitiveMatch(f, true) in matches;
    }
  }

  /** A key that itself starts with `$.` is never overwritten, whatever the registry says. */
  lemma PrefixedKeyIsNeverRedacted(matches: seq<SensitiveMatch>, key: string)
    requires HasPathPrefix(key)
    ensures !Redacts(matches, key)
  {
    forall i | 0 <= i < |matches| ensures TrimPath(matches[i].jsonPath) != key {
      TrimPathHasNoPrefix(matches[i].jsonPath);
    }
  }

  lemma {:induction false} TrimPathHasNoPrefix(s: string)
    ensures !HasPathPrefix(TrimPath(s))
    ensures !HasPathPrefix(s) ==> TrimPath(s) == s
  {
    if HasPathPrefix(s) {
      TrimPathHasNoPrefix(s[2..]);
    }
  }
}

/** JSON documents as `serde_json::Value` holds them. */
module Json {
  import opened Options

  datatype Numeral = Integer(i: int) | Float(text: string)

  datatype Json =
    | Null
    | Bool(b: bool)
    | Number(value: Numeral)
    | String(s: string)
    | Array(items: seq<Json>)
    | Object(fields: map<string, Json>)

  /** `serde_json::from_str`, which is not part of this model. */
  type JsonParser = string -> Option<Json>

  /** `event[key]`: a missing key, or a value that is no object, reads as null. */
  function At(j: Json, key: string): Json {
    if j.Object? && key in j.fields then j.fields[key] else Null
  }

  /** `as_str`. */
  function AsStr(j: Json): Option<string> {
    if j.String? then Some(j.s) else None
  }

  /** `as_i64`. */
  function AsI64(j: Json): Option<int> {
    if j.Number? && j.value.Integer? && -0x8000_0000_0000_0000 <= j.value.i < 0x8000_0000_0000_0000
    then Some(j.value.i) else None
  }

  /** `get` on an object's map. */
  function Lookup(m: map<string, Json>, key: string): Option<Json> {
    if key in m then Some(m[key]) else None
  }
}

/** The iteration order of `serde_json::Map`: a B-tree, ordered by key. */
module KeyOrder {
  predicate Leq(a: string, b: string) {
    a == "" || (b != "" && (a[0] < b[0] || (a[0] == b[0] && Leq(a[1..], b[1..]))))
  }

  lemma {:induction false} LeqTotal(a: string, b: string)
    ensures Leq(a, b) || Leq(b, a)
  {
    if a != "" && b != "" && a[0] == b[0] {
      LeqTotal(a[1..], b[1..]);
    }
  }

  lemma {:induction false} LeqAntisymmetric(a: string, b: string)
    requires Leq(a, b) && Leq(b, a)
    ensures a == b
  {
    if a != "" && b != "" {
      LeqAntisymmetric(a[1..], b[1..]);
      assert a == [a[0]] + a[1..] && b == [b[0]] + b[1..];
    }
  }

  lemma {:induction false} LeqTransitive(a: string, b: string, c: string)
    requires Leq(a, b) && Leq(b, c)
    ensures Leq(a, c)
  {
    if a != "" && a[0] == b[0] && b[0] == c[0] {
      LeqTransitive(a[1..], b[1..], c[1..]);
    }
  }

  /** A prefix comes first; else the first differing character decides. */
  lemma LeqExact(p: string, a: string, b: string)
    requires a == "" || b == "" || a[0] != b[0]
    ensures Leq(p + a, p + b) <==> a == "" || (b != "" && a[0] < b[0])
  {
    LeqPrefix(p, a, b);
  }

  lemma {:induction false} LeqPrefix(p: string, a: string, b: string)
    ensures Leq(p + a, p + b) == Leq(a, b)
  {
    if p == "" {
      assert p + a == a && p + b == b;
    } else {
      assert (p + a)[1..] == p[1..] + a && (p + b)[1..] == p[1..] + b;
      LeqPrefix(p[1..], a, b);
    }
  }

  predicate IsLeast(k: string, keys: set<string>) {
    k in keys && forall x <- keys :: Leq(k, x)
  }

  lemma {:induction false} LeastExists(keys: set<string>)
    requires keys != {}
    ensures exists k :: IsLeast(k, keys)
    decreases |keys|
  {
    var k :| k in keys;
    var others := keys - {k};
    LeqTotal(k, k);
    assert forall x <- keys :: x == k || x in others;
    if others == {} {
      assert IsLeast(k, keys);
    } else {
      LeastExists(others);
      var m :| IsLeast(m, others);
      LeqTotal(k, m);
      if Leq(m, k) {
        assert IsLeast(m, keys);
      } else {
        forall x <- others ensures Leq(k, x) {
          LeqTransitive(k, m, x);
        }
        assert IsLeast(k, keys);
      }
    }
  }

  predicate Distinct(keys: seq<string>) {
    forall i, j | 0 <= i < j < |keys| :: keys[i] != keys[j]
  }

  /** Every key once, smallest first. */
  function SortedKeys(keys: set<string>): (r: seq<string>)
    ensures forall k :: k in r <==> k in keys
    ensures Distinct(r)
    ensures forall i, j | 0 <= i < j < |r| :: Leq(r[i], r[j])
  {
    if keys == {} then []
    else
      LeastExists(keys);
      assert forall a, b | IsLeast(a, keys) && IsLeast(b, keys) :: a == b by {
        forall a, b | IsLeast(a, keys) && IsLeast(b, keys) ensures a == b {
          LeqAntisymmetric(a, b);
        }
      }
      var k :| IsLeast(k, keys);
      [k] + SortedKeys(keys - {k})
  }
}

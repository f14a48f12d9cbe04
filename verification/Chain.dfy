/**
 The hash chain as a function of the payloads that were chained, and what two
 chains with one head have in common. SHA-256 (FIPS 180-4, section 6.2) is a
 parameter: any function whose values are 64 lower-case hexadecimal digits. It is
 nowhere taken to be injective.
 */
module Chain {
  import opened Options

  predicate IsHex(c: char) {
    '0' <= c <= '9' || 'a' <= c <= 'f'
  }

  ghost predicate IsDigest(d: string) {
    |d| == 64 && forall i | 0 <= i < 64 :: IsHex(d[i])
  }

  /** `hex::encode` of SHA-256, and PostgreSQL's `encode(digest(…, 'sha256'), 'hex')`. */
  type Sha = string -> string

  /** All that is known of the digest. */
  ghost predicate GivesDigests(sha: Sha) {
    forall s :: IsDigest(sha(s))
  }

  /** The text hashed for the last payload: the head before it, then the payload, with nothing between. */
  function Input(sha: Sha, payloads: seq<string>): string
    requires payloads != []
    decreases |payloads|, 0
  {
    var n := |payloads| - 1;
    Head(sha, payloads[..n]) + payloads[n]
  }

  /** The last hash after the payloads have been chained, starting from the empty text. */
  function Head(sha: Sha, payloads: seq<string>): string
    decreases |payloads|, 1
  {
    if payloads == [] then "" else sha(Input(sha, payloads))
  }

  predicate IsCollision(sha: Sha, pair: (string, string)) {
    pair.0 != pair.1 && sha(pair.0) == sha(pair.1)
  }

  /** A first payload that no digest followed by a payload can be mistaken for. */
  ghost predicate GenesisSafe(payload: string) {
    |payload| < 64 || !IsDigest(payload[..64])
  }

  /** An event type shorter than 64 characters puts a `|` where a digest has a digit. */
  lemma ShortTypeIsSafe(eventType: string, rest: string)
    requires |eventType| < 64
    ensures GenesisSafe(eventType + "|" + rest)
  {
    var payload := eventType + "|" + rest;
    assert payload[|eventType|] == '|';
    if |payload| >= 64 {
      assert !IsHex(payload[..64][|eventType|]);
    }
  }

  /**
   Walks two chains back from their heads to the first pair of hashed texts that
   differ. `None`: the walk reached the start of one of them.
   */
  function FindCollision(sha: Sha, p: seq<string>, q: seq<string>): Option<(string, string)>
    decreases |p|
  {
    if p == [] || q == [] then None
    else
      var x, y := Input(sha, p), Input(sha, q);
      if x != y then Some((x, y)) else FindCollision(sha, p[..|p| - 1], q[..|q| - 1])
  }

  lemma HeadIsDigest(sha: Sha, p: seq<string>)
    requires GivesDigests(sha)
    ensures p != [] ==> IsDigest(Head(sha, p))
  {
  }

  /** A hashed text is cut in one place only: after no characters, or after 64. */
  lemma SplitInput(a: string, x: string, b: string, y: string)
    requires a + x == b + y
    requires if a == "" then GenesisSafe(x) else IsDigest(a)
    requires if b == "" then GenesisSafe(y) else IsDigest(b)
    ensures a == b && x == y
  {
    var s := a + x;
    assert s[..|a|] == a && s[|a|..] == x;
    assert s[..|b|] == b && s[|b|..] == y;
    assert a == "" ==> s == x;
    assert b == "" ==> s == y;
  }

  /**
   Tamper evidence by reduction: two payload sequences with the same head, whose
   first payloads cannot pass for a digest and a payload, are the same sequence, or
   the walk back finds two different texts with one digest.
   */
  lemma {:induction false} SameHead(sha: Sha, p: seq<string>, q: seq<string>)
    requires GivesDigests(sha) && Head(sha, p) == Head(sha, q)
    requires p != [] ==> GenesisSafe(p[0])
    requires q != [] ==> GenesisSafe(q[0])
    ensures
      match FindCollision(sha, p, q)
      case Some(pair) => IsCollision(sha, pair)
      case None => p == q
    decreases |p|
  {
    HeadIsDigest(sha, p);
    HeadIsDigest(sha, q);
    if p != [] && q != [] && Input(sha, p) == Input(sha, q) {
      var front, back := p[..|p| - 1], q[..|q| - 1];
      HeadIsDigest(sha, front);
      HeadIsDigest(sha, back);
      SplitInput(Head(sha, front), p[|front|], Head(sha, back), q[|back|]);
      SameHead(sha, front, back);
      assert p == front + [p[|front|]] && q == back + [q[|back|]];
    }
  }

  /** Every text the walk reports was hashed by the chain it came from. */
  lemma {:induction false} FoundInputsWereHashed(sha: Sha, p: seq<string>, q: seq<string>)
    requires FindCollision(sha, p, q).Some?
    ensures
      var pair := FindCollision(sha, p, q).value;
      && (exists i | 0 < i <= |p| :: pair.0 == Input(sha, p[..i]))
      && (exists j | 0 < j <= |q| :: pair.1 == Input(sha, q[..j]))
    decreases |p|
  {
    assert p[..|p|] == p && q[..|q|] == q;
    if Input(sha, p) == Input(sha, q) {
      var front, back := p[..|p| - 1], q[..|q| - 1];
      FoundInputsWereHashed(sha, front, back);
      assert forall i | 0 < i <= |front| :: front[..i] == p[..i];
      assert forall j | 0 < j <= |back| :: back[..j] == q[..j];
    }
  }

  lemma HeadOfOne(sha: Sha, payload: string)
    ensures Input(sha, [payload]) == payload && Head(sha, [payload]) == sha(payload)
  {
    assert [payload][..0] == [] && "" + payload == payload;
  }

  /**
   The condition on first payloads cannot be dropped: a first payload that starts
   with the digest of another one has the head of a longer chain, with no collision.
   */
  lemma UnsafeGenesisForges(sha: Sha, first: string, second: string)
    requires GivesDigests(sha)
    ensures
      var long, short := [first, second], [sha(first) + second];
      && Head(sha, short) == Head(sha, long) && short != long
      && FindCollision(sha, short, long).None?
      && !GenesisSafe(short[0])
  {
    var long, short := [first, second], [sha(first) + second];
    HeadOfOne(sha, first);
    HeadOfOne(sha, short[0]);
    assert long[..1] == [first];
    assert Input(sha, long) == sha(first) + second;
    assert short[0][..64] == sha(first);
  }
}

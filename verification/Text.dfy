/**
 Strings as Rust's `str` sees them: searching, trimming, splitting on Unicode
 white space, and the single-quote conventions of SQL literals.
 */
module Text {
  import opened Options

  /** The Unicode property White_Space, which `split_whitespace` and `trim` use. */
  predicate IsSpace(c: char) {
    var n := c as int;
    || 9 <= n <= 13 || n == 32 || n == 0x85 || n == 0xA0 || n == 0x1680
    || 0x2000 <= n <= 0x200A || n == 0x2028 || n == 0x2029
    || n == 0x202F || n == 0x205F || n == 0x3000
  }

  predicate NoSpace(s: string) {
    forall i | 0 <= i < |s| :: !IsSpace(s[i])
  }

  /** `find(c)`: the first position of `c`. */
  function IndexOf(s: string, c: char): (r: Option<nat>)
    ensures r.None? ==> c !in s
    ensures r.Some? ==> r.value < |s| && s[r.value] == c && c !in s[..r.value]
  {
    if s == "" then None
    else if s[0] == c then Some(0)
    else
      match IndexOf(s[1..], c)
      case None => None
      case Some(i) => assert s[..i + 1] == [s[0]] + s[1..][..i]; Some(i + 1)
  }

  lemma IndexOfFirst(pre: string, c: char, post: string)
    requires c !in pre
    ensures IndexOf(pre + [c] + post, c) == Some(|pre|)
  {
    var s := pre + [c] + post;
    assert s[|pre|] == c;
    assert forall i | |pre| < i < |s| :: s[..i][|pre|] == c;
  }

  function TrimStart(s: string): string {
    if s != "" && IsSpace(s[0]) then TrimStart(s[1..]) else s
  }

  function TrimEnd(s: string): string {
    if s != "" && IsSpace(s[|s| - 1]) then TrimEnd(s[..|s| - 1]) else s
  }

  function Trim(s: string): string {
    TrimEnd(TrimStart(s))
  }

  /** `trim_end_matches('\'')`: what is cut off is quotes, and all of them. */
  function TrimEndQuotes(s: string): (r: string)
    ensures !EndsWithQuote(r)
    ensures r <= s && forall i | |r| <= i < |s| :: s[i] == '\''
  {
    if EndsWithQuote(s) then TrimEndQuotes(s[..|s| - 1]) else s
  }

  /** The characters of the property, one by one. */
  lemma WhiteSpaceIs(c: char)
    ensures IsSpace(c) <==>
      c in "\t\n\U{0B}\U{0C}\r \U{85}\U{A0}\U{1680}\U{2000}\U{2001}\U{2002}\U{2003}\U{2004}\U{2005}"
           + "\U{2006}\U{2007}\U{2008}\U{2009}\U{200A}\U{2028}\U{2029}\U{202F}\U{205F}\U{3000}"
  {
  }

  predicate AllSpace(s: string) {
    forall i | 0 <= i < |s| :: IsSpace(s[i])
  }

  /** Trimming cuts white space off both ends, and all of it. */
  lemma TrimExact(s: string) returns (a: string, b: string)
    ensures s == a + Trim(s) + b && AllSpace(a) && AllSpace(b)
    ensures Trim(s) != "" ==> !IsSpace(Trim(s)[0]) && !IsSpace(Trim(s)[|Trim(s)| - 1])
  {
    a := CutStart(s);
    b := CutEnd(TrimStart(s));
    assert s == a + (Trim(s) + b);
  }

  lemma {:induction false} CutStart(s: string) returns (a: string)
    ensures s == a + TrimStart(s) && AllSpace(a)
    ensures TrimStart(s) != "" ==> !IsSpace(TrimStart(s)[0])
  {
    a := "";
    if s != "" && IsSpace(s[0]) {
      var rest := CutStart(s[1..]);
      a := [s[0]] + rest;
    }
  }

  lemma {:induction false} CutEnd(s: string) returns (b: string)
    ensures s == TrimEnd(s) + b && AllSpace(b)
    ensures TrimEnd(s) != "" ==> !IsSpace(TrimEnd(s)[|TrimEnd(s)| - 1]) && TrimEnd(s)[0] == s[0]
    decreases |s|
  {
    b := "";
    if s != "" && IsSpace(s[|s| - 1]) {
      var rest := CutEnd(s[..|s| - 1]);
      b := rest + [s[|s| - 1]];
    }
  }

  predicate EndsWithQuote(s: string) {
    s != "" && s[|s| - 1] == '\''
  }

  /** `split_whitespace`. */
  function SplitWhitespace(s: string): seq<string> {
    Words("", s)
  }

  /** The words of `s` when `word` has been collected so far. */
  function Words(word: string, s: string): seq<string>
    decreases |s|
  {
    if s == "" then Emit(word)
    else if IsSpace(s[0]) then Emit(word) + Words("", s[1..])
    else Words(word + [s[0]], s[1..])
  }

  function Emit(word: string): seq<string> {
    if word == "" then [] else [word]
  }

  /** The text up to the first white space, and what follows it. */
  function FirstWord(s: string): (w: string)
    ensures |w| <= |s| && w == s[..|w|] && NoSpace(w)
    ensures |w| < |s| ==> IsSpace(s[|w|])
  {
    if s == "" || IsSpace(s[0]) then "" else [s[0]] + FirstWord(s[1..])
  }

  function AfterWord(s: string): string {
    s[|FirstWord(s)|..]
  }

  /** A space-free text starts the first word of what it is put in front of. */
  lemma {:induction false} WordsPrefix(word: string, w: string, s: string)
    requires NoSpace(w)
    ensures Words(word, w + s) == Words(word + w, s)
    decreases |w|
  {
    if w == "" {
      assert w + s == s && word + w == word;
    } else {
      assert (w + s)[1..] == w[1..] + s && (w + s)[0] == w[0];
      WordsPrefix(word + [w[0]], w[1..], s);
      assert word + [w[0]] + w[1..] == word + w;
    }
  }

  lemma {:induction false} FirstWordConcat(w: string, s: string)
    requires NoSpace(w)
    ensures FirstWord(w + s) == w + FirstWord(s)
  {
    if w == "" {
      assert w + s == s;
    } else {
      assert (w + s)[1..] == w[1..] + s && (w + s)[0] == w[0];
      FirstWordConcat(w[1..], s);
    }
  }

  lemma FirstWordPrefix(w: string, s: string)
    requires NoSpace(w)
    ensures FirstWord(w + s) == w + FirstWord(s)
    ensures AfterWord(w + s) == AfterWord(s)
  {
    FirstWordConcat(w, s);
    DropBoth(w, s, |FirstWord(s)|);
  }

  lemma DropBoth(w: string, s: string, n: nat)
    requires n <= |s|
    ensures (w + s)[|w| + n..] == s[n..]
  {
  }

  lemma {:induction false} WordsByFirst(word: string, s: string)
    ensures Words(word, s) == Emit(word + FirstWord(s)) + SplitWhitespace(AfterWord(s))
  {
    var w, t := FirstWord(s), AfterWord(s);
    assert s == w + t;
    WordsPrefix(word, w, t);
    if t != "" {
      assert IsSpace(t[0]);
      assert SplitWhitespace(t) == Words("", t[1..]);
    }
  }

  /** Splitting is compositional at a white space boundary. */
  lemma {:induction false} WordsConcat(word: string, s: string, t: string)
    requires t == "" || IsSpace(t[0])
    ensures Words(word, s + t) == Words(word, s) + SplitWhitespace(t)
    decreases |s|
  {
    if s == "" {
      assert s + t == t;
    } else {
      assert (s + t)[1..] == s[1..] + t;
      if IsSpace(s[0]) {
        WordsConcat("", s[1..], t);
      } else {
        WordsConcat(word + [s[0]], s[1..], t);
      }
    }
  }

  lemma {:induction false} WordsSpaces(s: string)
    requires forall i | 0 <= i < |s| :: IsSpace(s[i])
    ensures SplitWhitespace(s) == []
  {
    if s != "" {
      WordsSpaces(s[1..]);
    }
  }

  lemma {:induction false} SplitTrimStart(s: string)
    ensures SplitWhitespace(TrimStart(s)) == SplitWhitespace(s)
  {
    if s != "" && IsSpace(s[0]) {
      SplitTrimStart(s[1..]);
    }
  }

  lemma {:induction false} SplitTrimEnd(s: string)
    ensures SplitWhitespace(TrimEnd(s)) == SplitWhitespace(s)
  {
    if s != "" && IsSpace(s[|s| - 1]) {
      var t := s[..|s| - 1];
      SplitTrimEnd(t);
      assert s == t + [s[|s| - 1]];
      WordsConcat("", t, [s[|s| - 1]]);
      WordsSpaces([s[|s| - 1]]);
    }
  }

  /** Trimming changes no word. */
  lemma SplitTrim(s: string)
    ensures SplitWhitespace(Trim(s)) == SplitWhitespace(s)
  {
    SplitTrimStart(s);
    SplitTrimEnd(TrimStart(s));
  }

  lemma {:induction false} TrimEndConcat(h: string, s: string)
    requires h != "" && !IsSpace(h[|h| - 1])
    ensures TrimEnd(h + s) == h + TrimEnd(s)
  {
    if s == "" {
      assert h + s == h;
    } else if IsSpace(s[|s| - 1]) {
      assert (h + s)[..|h + s| - 1] == h + s[..|s| - 1];
      TrimEndConcat(h, s[..|s| - 1]);
    }
  }

  /** The SQL literal form of a text: every single quote doubled. */
  function DoubleQuotes(s: string): string {
    if s == "" then ""
    else (if s[0] == '\'' then "''" else [s[0]]) + DoubleQuotes(s[1..])
  }

  lemma {:induction false} DoubleFree(s: string)
    requires '\'' !in s
    ensures DoubleQuotes(s) == s
  {
    if s != "" {
      DoubleFree(s[1..]);
    }
  }

  /** `replace("''", "'")`: leftmost pairs first, without overlap. */
  function UndoubleQuotes(s: string): string {
    if s == "" then ""
    else if |s| >= 2 && s[0] == '\'' && s[1] == '\'' then "'" + UndoubleQuotes(s[2..])
    else [s[0]] + UndoubleQuotes(s[1..])
  }

  /** Undoubling inverts doubling on every string. */
  lemma {:induction false} UndoubleDouble(s: string)
    ensures UndoubleQuotes(DoubleQuotes(s)) == s
  {
    if s != "" {
      UndoubleDouble(s[1..]);
      var d := DoubleQuotes(s);
      if s[0] == '\'' {
        assert d[2..] == DoubleQuotes(s[1..]);
      } else {
        assert d[1..] == DoubleQuotes(s[1..]);
      }
    }
  }

  lemma {:induction false} UndoubleEndsWithQuote(s: string)
    ensures EndsWithQuote(UndoubleQuotes(s)) == EndsWithQuote(s)
    ensures UndoubleQuotes(s) == "" <==> s == ""
    decreases |s|
  {
    if s != "" {
      var n := if |s| >= 2 && s[0] == '\'' && s[1] == '\'' then 2 else 1;
      var first := if n == 2 then '\'' else s[0];
      UndoubleEndsWithQuote(s[n..]);
      assert UndoubleQuotes(s) == [first] + UndoubleQuotes(s[n..]);
      EndsCons(first, UndoubleQuotes(s[n..]));
      assert s[n..] != "" ==> s[n..][|s| - n - 1] == s[|s| - 1];
    }
  }

  lemma EndsCons(c: char, s: string)
    ensures EndsWithQuote([c] + s) == if s == "" then c == '\'' else EndsWithQuote(s)
  {
  }

  function Quotes(n: nat): string {
    seq(n, i => '\'')
  }

  lemma {:induction false} UndoubleConcat(s: string, t: string)
    requires t == "" || t[0] != '\''
    ensures UndoubleQuotes(s + t) == UndoubleQuotes(s) + UndoubleQuotes(t)
    decreases |s|
  {
    if s == "" {
      assert s + t == t;
    } else {
      var n := if |s| >= 2 && s[0] == '\'' && s[1] == '\'' then 2 else 1;
      assert (s + t)[0] == s[0] && (s + t)[n..] == s[n..] + t;
      UndoubleConcat(s[n..], t);
    }
  }

  lemma {:induction false} UndoubleRun(n: nat)
    ensures UndoubleQuotes(Quotes(n)) == Quotes((n + 1) / 2)
  {
    var s := Quotes(n);
    if n >= 2 {
      UndoubleRun(n - 2);
      assert s[2..] == Quotes(n - 2);
    } else if n == 1 {
      assert s[1..] == "";
    }
  }

  lemma {:induction false} UndoubleFree(s: string)
    requires '\'' !in s
    ensures UndoubleQuotes(s) == s
  {
    if s != "" {
      UndoubleFree(s[1..]);
    }
  }

  /**
   Undoubling on every string, run by run: a text without quotes stays, the `n` quotes
   behind it become `(n + 1) / 2`, and the rest is undoubled on its own.
   */
  lemma UndoubleExact(s: string, n: nat, t: string)
    requires '\'' !in s && (t == "" || t[0] != '\'')
    ensures UndoubleQuotes(s + Quotes(n) + t) == s + Quotes((n + 1) / 2) + UndoubleQuotes(t)
  {
    UndoubleConcat(s + Quotes(n), t);
    UndoubleFree(s);
    UndoubleRun(n);
    UndoublePrefix(s, Quotes(n));
  }

  lemma {:induction false} UndoublePrefix(s: string, t: string)
    requires '\'' !in s
    ensures UndoubleQuotes(s + t) == s + UndoubleQuotes(t)
  {
    if s == "" {
      assert s + t == t;
    } else {
      assert (s + t)[0] == s[0] && (s + t)[1..] == s[1..] + t;
      UndoublePrefix(s[1..], t);
    }
  }

  /** `trim_start_matches("$.")`. */
  function TrimPath(s: string): string {
    if |s| >= 2 && s[0] == '$' && s[1] == '.' then TrimPath(s[2..]) else s
  }

  predicate HasPathPrefix(s: string) {
    |s| >= 2 && s[0] == '$' && s[1] == '.'
  }

  lemma PrefixIs(s: string)
    ensures HasPathPrefix(s) <==> "$." <= s
  {
    if HasPathPrefix(s) {
      assert s[..2] == "$.";
    }
  }

  function Prefixes(n: nat): string {
    if n == 0 then "" else "$." + Prefixes(n - 1)
  }

  /** Trimming a path takes every `$.` off its front and nothing else. */
  lemma {:induction false} TrimPathExact(n: nat, s: string)
    requires !("$." <= s)
    ensures TrimPath(Prefixes(n) + s) == s
  {
    if n == 0 {
      assert Prefixes(n) + s == s;
      PrefixIs(s);
    } else {
      var all := Prefixes(n) + s;
      assert all[0] == '$' && all[1] == '.' && all[2..] == Prefixes(n - 1) + s;
      TrimPathExact(n - 1, s);
    }
  }
}

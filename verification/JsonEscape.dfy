/**
 The extension's bounded JSON escaper (ext/vibe_hooks.c, `vibe_json_escape`), which
 fills a caller's buffer, and the byte-level reading of JSON strings (RFC 8259,
 section 7) that undoes it.
 */
module JsonEscape {
  import opened Integers
  import opened Options
  import opened Seqs

  type Byte = b: int | 0 <= b < 256

  const QUOTE: Byte := 0x22
  const BACKSLASH: Byte := 0x5C

  function HexDigit(d: int): (r: Byte)
    requires 0 <= d < 16
    ensures if d < 10 then r == '0' as int + d else r == 'a' as int + (d - 10)
  {
    if d < 10 then 0x30 + d else 0x61 + d - 10
  }

  /** The bytes one source byte becomes. */
  function Esc(c: Byte): (r: seq<Byte>)
    ensures |r| == 1 || |r| == 2 || |r| == 6
  {
    if c == QUOTE || c == BACKSLASH then [BACKSLASH, c]
    else if c == 0x0A then [BACKSLASH, 0x6E]
    else if c == 0x0D then [BACKSLASH, 0x72]
    else if c == 0x09 then [BACKSLASH, 0x74]
    else if c < 0x20 then [BACKSLASH, 0x75, 0x30, 0x30, HexDigit(c / 16), HexDigit(c % 16)]
    else [c]
  }

  function Escape(s: seq<Byte>): seq<Byte> {
    if s == [] then [] else Escape(s[..|s| - 1]) + Esc(s[|s| - 1])
  }

  /** The five bytes with an escape of two bytes. */
  predicate IsShort(c: Byte) {
    c == 0x22 || c == 0x5C || c == 0x0A || c == 0x0D || c == 0x09
  }

  function Shorts(s: seq<Byte>): nat {
    if s == [] then 0 else Shorts(s[..|s| - 1]) + if IsShort(s[|s| - 1]) then 1 else 0
  }

  /** The other control bytes. */
  function Controls(s: seq<Byte>): nat {
    if s == [] then 0
    else Controls(s[..|s| - 1]) + if s[|s| - 1] < 0x20 && !IsShort(s[|s| - 1]) then 1 else 0
  }

  /** One byte more for each short escape, five more for each other control byte. */
  lemma {:induction false} EscapeLength(s: seq<Byte>)
    ensures |Escape(s)| == |s| + Shorts(s) + 5 * Controls(s)
    decreases |s|
  {
    if s != [] {
      EscapeLength(s[..|s| - 1]);
    }
  }

  // ----- reading it back -----

  function HexValue(b: Byte): (r: Option<int>)
    ensures r.Some? ==> 0 <= r.value < 16
  {
    if 0x30 <= b <= 0x39 then Some(b - 0x30)
    else if 0x61 <= b <= 0x66 then Some(b - 0x61 + 10)
    else if 0x41 <= b <= 0x46 then Some(b - 0x41 + 10)
    else None
  }

  function Hex4(s: seq<Byte>): (r: Option<int>)
    requires |s| == 4
    ensures r.Some? ==> 0 <= r.value < 0x1_0000
  {
    match (HexValue(s[0]), HexValue(s[1]), HexValue(s[2]), HexValue(s[3]))
    case (Some(a), Some(b), Some(c), Some(d)) => Some(4096 * a + 256 * b + 16 * c + d)
    case _ => None
  }

  /** The UTF-8 bytes of a code point outside the surrogate range. */
  function Utf8(u: int): seq<Byte>
    requires 0 <= u < 0x1_0000
  {
    if u < 0x80 then [u]
    else if u < 0x800 then [0xC0 + u / 64, 0x80 + u % 64]
    else [0xE0 + u / 4096, 0x80 + u / 64 % 64, 0x80 + u % 64]
  }

  /** One character of a JSON string: its bytes in UTF-8 and how many bytes of text it took. */
  function DecodeOne(s: seq<Byte>): (r: Option<(seq<Byte>, nat)>)
    requires s != []
    ensures r.Some? ==> 1 <= r.value.1 <= |s|
  {
    if s[0] == QUOTE || s[0] < 0x20 then None
    else if s[0] != BACKSLASH then Some(([s[0]], 1))
    else if |s| < 2 then None
    else if s[1] == QUOTE || s[1] == BACKSLASH || s[1] == 0x2F then Some(([s[1]], 2))
    else if s[1] == 0x62 then Some(([0x08], 2))
    else if s[1] == 0x66 then Some(([0x0C], 2))
    else if s[1] == 0x6E then Some(([0x0A], 2))
    else if s[1] == 0x72 then Some(([0x0D], 2))
    else if s[1] == 0x74 then Some(([0x09], 2))
    else if s[1] != 0x75 || |s| < 6 then None
    else
      match Hex4(s[2..6])
      case None => None
      case Some(u) =>
        if u < 0xD800 || u >= 0xE000 then Some((Utf8(u), 6)) else None
  }

  /** The text between the quotes of a JSON string, decoded; unescaped quotes and control bytes are refused. */
  function Decode(s: seq<Byte>): Option<seq<Byte>>
    decreases |s|
  {
    if s == [] then Some([])
    else
      match DecodeOne(s)
      case None => None
      case Some((bytes, used)) =>
        match Decode(s[used..])
        case None => None
        case Some(rest) => Some(bytes + rest)
  }

  lemma DecodeEsc(c: Byte, rest: seq<Byte>)
    ensures DecodeOne(Esc(c) + rest) == Some(([c], |Esc(c)|))
  {
    var s := Esc(c) + rest;
    if c < 0x20 && c != 0x0A && c != 0x0D && c != 0x09 {
      assert s[2..6] == [0x30, 0x30, HexDigit(c / 16), HexDigit(c % 16)];
      assert HexValue(HexDigit(c / 16)) == Some(c / 16) && HexValue(HexDigit(c % 16)) == Some(c % 16);
      assert Hex4(s[2..6]) == Some(c);
    }
  }

  lemma DecodeTail(c: Byte, rest: seq<Byte>, decoded: seq<Byte>)
    requires Decode(rest) == Some(decoded)
    ensures Decode(Esc(c) + rest) == Some([c] + decoded)
  {
    DecodeEsc(c, rest);
    assert (Esc(c) + rest)[|Esc(c)|..] == rest;
  }

  lemma {:induction false} DecodeEscapeThen(s: seq<Byte>, rest: seq<Byte>, decoded: seq<Byte>)
    requires Decode(rest) == Some(decoded)
    ensures Decode(Escape(s) + rest) == Some(s + decoded)
    decreases |s|
  {
    if s == [] {
      assert Escape(s) + rest == rest && s + decoded == decoded;
    } else {
      var front, last := s[..|s| - 1], s[|s| - 1];
      DecodeTail(last, rest, decoded);
      DecodeEscapeThen(front, Esc(last) + rest, [last] + decoded);
      EscapeSnoc(s, rest);
      Associate(front, [last], decoded);
      assert s == front + [last];
    }
  }

  lemma EscapeSnoc(s: seq<Byte>, rest: seq<Byte>)
    requires s != []
    ensures Escape(s) + rest == Escape(s[..|s| - 1]) + (Esc(s[|s| - 1]) + rest)
  {
    Associate(Escape(s[..|s| - 1]), Esc(s[|s| - 1]), rest);
  }

  /** Decoding inverts escaping for every sequence of bytes. */
  lemma DecodeEscape(s: seq<Byte>)
    ensures Decode(Escape(s)) == Some(s)
  {
    DecodeEscapeThen(s, [], []);
    assert Escape(s) + [] == Escape(s) && s + [] == s;
  }

  // ----- the C function -----

  /** A C string: the bytes before the first NUL. */
  function CString(src: seq<Byte>): (r: seq<Byte>)
    requires 0 in src
    ensures |r| < |src| && src[|r|] == 0 && r == src[..|r|] && 0 !in r
  {
    if src[0] == 0 then [] else [src[0]] + CString(src[1..])
  }

  /** `k` bytes of the text fit, escaped, in `room` bytes, and no longer prefix does. */
  predicate LongestFitting(text: seq<Byte>, k: nat, room: nat) {
    && k <= |text|
    && |Escape(text[..k])| <= room
    && forall j | k < j <= |text| :: |Escape(text[..j])| > room
  }

  lemma EscapeStep(text: seq<Byte>, k: nat)
    requires k < |text|
    ensures Escape(text[..k + 1]) == Escape(text[..k]) + Esc(text[k])
  {
    assert text[..k + 1][..k] == text[..k];
  }

  lemma {:induction false} EscapeGrows(text: seq<Byte>, i: nat, j: nat)
    requires i <= j <= |text|
    ensures |Escape(text[..i])| <= |Escape(text[..j])|
    decreases j
  {
    if i < j {
      EscapeGrows(text, i, j - 1);
      EscapeStep(text, j - 1);
    }
  }

  /** Where the loop stops is the longest prefix that fits. */
  lemma StopIsLongest(text: seq<Byte>, k: nat, room: nat)
    requires k <= |text| && |Escape(text[..k])| <= room
    requires k < |text| ==> |Escape(text[..k])| + |Esc(text[k])| > room
    ensures LongestFitting(text, k, room)
  {
    forall j | k < j <= |text| ensures |Escape(text[..j])| > room {
      EscapeStep(text, k);
      EscapeGrows(text, k + 1, j);
    }
  }

  /** `snprintf(dst + di, size - di, "\\u%04x", c)` with room for its six bytes and the NUL. */
  method WriteHex(dst: array<Byte>, di: nat, c: Byte)
    requires c < 0x20 && di + 6 < dst.Length
    modifies dst
    ensures dst[..] == old(dst[..di])
                       + [BACKSLASH, 0x75, 0x30, 0x30, HexDigit(c / 16), HexDigit(c % 16), 0]
                       + old(dst[di + 7..])
  {
    dst[di] := BACKSLASH;
    dst[di + 1] := 0x75;
    dst[di + 2] := 0x30;
    dst[di + 3] := 0x30;
    dst[di + 4] := HexDigit(c / 16);
    dst[di + 5] := HexDigit(c % 16);
    dst[di + 6] := 0;
  }

  /** The two assignments of a short escape. */
  method WritePair(dst: array<Byte>, di: nat, second: Byte)
    requires di + 2 < dst.Length
    modifies dst
    ensures dst[..] == old(dst[..di]) + [BACKSLASH, second] + old(dst[di + 2..])
  {
    dst[di] := BACKSLASH;
    dst[di + 1] := second;
  }

  /** The `switch` for one byte; `ok` is false where the source jumps to `done`. */
  method PutByte(dst: array<Byte>, di: nat, c: Byte) returns (ok: bool, next: nat)
    requires di + 1 < dst.Length
    modifies dst
    ensures ok <==> di + |Esc(c)| < dst.Length
    ensures !ok ==> next == di && dst[..] == old(dst[..])
    ensures ok ==> next == di + |Esc(c)|
                   && dst[..next] == old(dst[..di]) + Esc(c) && dst[next + 1..] == old(dst[next + 1..])
    ensures ok && (c == 0x22 || c == 0x5C) ==> dst[..next] == old(dst[..di]) + [0x5C, c]
    ensures ok && c == 0x0A ==> dst[..next] == old(dst[..di]) + [0x5C, 'n' as int]
    ensures ok && c == 0x0D ==> dst[..next] == old(dst[..di]) + [0x5C, 'r' as int]
    ensures ok && c == 0x09 ==> dst[..next] == old(dst[..di]) + [0x5C, 't' as int]
    ensures ok && c < 0x20 && c != 0x0A && c != 0x0D && c != 0x09 ==>
      var low := if c % 16 < 10 then '0' as int + c % 16 else 'a' as int + (c % 16 - 10);
      dst[..next] == old(dst[..di]) + [0x5C, 'u' as int, '0' as int, '0' as int, '0' as int + c / 16, low]
    ensures ok && c >= 0x20 && c != 0x22 && c != 0x5C ==> dst[..next] == old(dst[..di]) + [c]
  {
    next := di;
    if c == QUOTE || c == BACKSLASH || c == 0x0A || c == 0x0D || c == 0x09 {
      if di + 2 >= dst.Length { return false, di; }
      WritePair(dst, di, if c == 0x0A then 0x6E else if c == 0x0D then 0x72 else if c == 0x09 then 0x74 else c);
      next := di + 2;
    } else if c < 0x20 {
      if di + 6 >= dst.Length { return false, di; }
      WriteHex(dst, di, c);
      next := di + 6;
    } else {
      dst[di] := c;
      next := di + 1;
    }
    ok := true;
  }

  /** The loop: fills the buffer from its start and leaves room for the NUL. */
  method Fill(dst: array<Byte>, s: seq<Byte>) returns (di: nat, si: nat)
    requires 0 in s && dst.Length > 0
    modifies dst
    ensures di < dst.Length && LongestFitting(CString(s), si, dst.Length - 1)
    ensures dst[..di] == Escape(CString(s)[..si])
    ensures dst[di + 1..] == old(dst[di + 1..])
  {
    ghost var text, was := CString(s), dst[..];
    di, si := 0, 0;
    while s[si] != 0 && di + 1 < dst.Length
      invariant si <= |text| && di < dst.Length
      invariant dst[..di] == Escape(text[..si])
      invariant dst[di + 1..] == was[di + 1..]
      decreases |text| - si
    {
      assert si < |text|;
      EscapeStep(text, si);
      var ok;
      ok, di := PutByte(dst, di, s[si]);
      if !ok {
        StopIsLongest(text, si, dst.Length - 1);
        return;
      }
      si := si + 1;
    }
    StopIsLongest(text, si, dst.Length - 1);
  }

  /**
   `vibe_json_escape`, for a buffer of any size and a source that may be NULL. In a
   buffer of at least one byte it leaves the escape of the longest prefix of the
   source that fits before the NUL, the NUL, and what was there before; read as a
   JSON string, the output is that prefix again.
   */
  method JsonEscape(dst: array<Byte>, src: Option<seq<Byte>>) returns (r: int, ghost k: nat)
    requires src.Some? ==> 0 in src.value
    modifies dst
    ensures dst.Length == 0 ==> r == 0
    ensures dst.Length > 0 ==>
      var text := if src.Some? then CString(src.value) else [];
      && LongestFitting(text, k, dst.Length - 1)
      && var n := |Escape(text[..k])|;
         && r == AsInt32(n)
         && dst[..] == Escape(text[..k]) + [0] + old(dst[n + 1..])
         && Decode(dst[..n]) == Some(text[..k])
  {
    if src.None? {
      if dst.Length > 0 {
        dst[0] := 0;
        assert dst[..] == [0] + old(dst[1..]);
      }
      return 0, 0;
    }
    if dst.Length == 0 {
      return 0, 0;
    }
    var di, si := Fill(dst, src.value);
    k := si;
    ghost var text, filled := CString(src.value)[..k], dst[..];
    Terminated(filled, di);
    DecodeEscape(text);
    dst[di] := 0;
    assert dst[..] == filled[di := 0];
    assert filled[..di] == Escape(text) && dst[..di] == filled[..di];
    r := AsInt32(di);
  }

  lemma Terminated(s: seq<Byte>, di: nat)
    requires di < |s|
    ensures s[di := 0] == s[..di] + [0] + s[di + 1..]
  {
  }
}

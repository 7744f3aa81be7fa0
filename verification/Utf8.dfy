/** Capping a diff without cutting a character in two. */
module Utf8 {

  newtype byte = b: int | 0 <= b < 256

  predicate Continuation(b: byte) {
    0x80 <= b <= 0xBF
  }

  /** The length of the character at the front, or 0 when there is no valid one (section 4 of
      RFC 3629: no overlong forms, no surrogates, nothing above U+10FFFF). */
  function CharLength(s: seq<byte>): (n: nat)
    ensures n <= 4 && n <= |s|
  {
    if s == [] then 0
    else if s[0] <= 0x7F then 1
    else if 0xC2 <= s[0] <= 0xDF then
      if |s| >= 2 && Continuation(s[1]) then 2 else 0
    else if 0xE0 <= s[0] <= 0xEF then
      if |s| >= 3 && Continuation(s[1]) && Continuation(s[2])
         && (s[0] == 0xE0 ==> s[1] >= 0xA0) && (s[0] == 0xED ==> s[1] <= 0x9F)
      then 3 else 0
    else if 0xF0 <= s[0] <= 0xF4 then
      if |s| >= 4 && Continuation(s[1]) && Continuation(s[2]) && Continuation(s[3])
         && (s[0] == 0xF0 ==> s[1] >= 0x90) && (s[0] == 0xF4 ==> s[1] <= 0x8F)
      then 4 else 0
    else 0
  }

  predicate ValidUtf8(s: seq<byte>) {
    s == [] || (CharLength(s) > 0 && ValidUtf8(s[CharLength(s)..]))
  }

  // ---- Valid texts are the encodings of scalar values --------------------------------------

  predicate Scalar(c: nat) {
    c <= 0x10FFFF && !(0xD800 <= c <= 0xDFFF)
  }

  /** The table in section 3 of RFC 3629. */
  function Encode(c: nat): seq<byte>
    requires Scalar(c)
  {
    if c <= 0x7F then [c as byte]
    else if c <= 0x7FF then [(0xC0 + c / 64) as byte, (0x80 + c % 64) as byte]
    else if c <= 0xFFFF then [(0xE0 + c / 4096) as byte, (0x80 + c / 64 % 64) as byte, (0x80 + c % 64) as byte]
    else [(0xF0 + c / 262144) as byte, (0x80 + c / 4096 % 64) as byte, (0x80 + c / 64 % 64) as byte, (0x80 + c % 64) as byte]
  }

  function EncodeAll(cs: seq<nat>): seq<byte>
    requires forall c :: c in cs ==> Scalar(c)
  {
    if cs == [] then [] else Encode(cs[0]) + EncodeAll(cs[1..])
  }

  function Decode(s: seq<byte>): nat
    requires CharLength(s) > 0
  {
    match CharLength(s)
    case 1 => s[0] as nat
    case 2 => (s[0] as nat - 0xC0) * 64 + (s[1] as nat - 0x80)
    case 3 => (s[0] as nat - 0xE0) * 4096 + (s[1] as nat - 0x80) * 64 + (s[2] as nat - 0x80)
    case _ => (s[0] as nat - 0xF0) * 262144 + (s[1] as nat - 0x80) * 4096 + (s[2] as nat - 0x80) * 64 + (s[3] as nat - 0x80)
  }

  lemma Digit(high: nat, low: nat)
    requires low < 64
    ensures (high * 64 + low) / 64 == high && (high * 64 + low) % 64 == low
  {
  }

  /** The groups of six bits come back out of the number they make. */
  lemma Digits(a: nat, b: nat, c: nat, d: nat)
    requires b < 64 && c < 64 && d < 64
    ensures var n := a * 262144 + b * 4096 + c * 64 + d;
            n / 262144 == a && n / 4096 % 64 == b && n / 64 % 64 == c && n % 64 == d
  {
    var n := a * 262144 + b * 4096 + c * 64 + d;
    Digit(a * 4096 + b * 64 + c, d);
    Digit(a * 64 + b, c);
    Digit(a, b);
    assert n / 64 == a * 4096 + b * 64 + c;
    assert n / 4096 == a * 64 + b;
  }

  lemma Decode2(s: seq<byte>)
    requires CharLength(s) == 2
    ensures Scalar(Decode(s)) && Encode(Decode(s)) == s[..2]
  {
    Digit(s[0] as nat - 0xC0, s[1] as nat - 0x80);
  }

  lemma Decode3(s: seq<byte>)
    requires CharLength(s) == 3
    ensures Scalar(Decode(s)) && Encode(Decode(s)) == s[..3]
  {
    var n := Decode(s);
    Digits(0, s[0] as nat - 0xE0, s[1] as nat - 0x80, s[2] as nat - 0x80);
    assert 0x800 <= n <= 0xFFFF;
    assert n / 4096 == s[0] as nat - 0xE0;
  }

  lemma Decode4(s: seq<byte>)
    requires CharLength(s) == 4
    ensures Scalar(Decode(s)) && Encode(Decode(s)) == s[..4]
  {
    var n := Decode(s);
    Digits(s[0] as nat - 0xF0, s[1] as nat - 0x80, s[2] as nat - 0x80, s[3] as nat - 0x80);
    assert 0x10000 <= n <= 0x10FFFF;
  }

  lemma DecodeEncodes(s: seq<byte>)
    requires CharLength(s) > 0
    ensures Scalar(Decode(s)) && Encode(Decode(s)) == s[..CharLength(s)]
  {
    match CharLength(s)
    case 1 =>
    case 2 => Decode2(s);
    case 3 => Decode3(s);
    case _ => Decode4(s);
  }

  lemma EncodedIsChar(c: nat, rest: seq<byte>)
    requires Scalar(c)
    ensures CharLength(Encode(c) + rest) == |Encode(c)| > 0
  {
  }

  /** What counts as valid is exactly what encodes some sequence of scalar values. */
  lemma {:induction false} ValidIsEncoded(s: seq<byte>) returns (cs: seq<nat>)
    requires ValidUtf8(s)
    ensures (forall c :: c in cs ==> Scalar(c)) && EncodeAll(cs) == s
    decreases |s|
  {
    cs := [];
    if s != [] {
      var n := CharLength(s);
      var rest := ValidIsEncoded(s[n..]);
      DecodeEncodes(s);
      cs := [Decode(s)] + rest;
      assert cs[1..] == rest && s == s[..n] + s[n..];
    }
  }

  lemma {:induction false} EncodedIsValid(cs: seq<nat>)
    requires forall c :: c in cs ==> Scalar(c)
    ensures ValidUtf8(EncodeAll(cs))
  {
    if cs != [] {
      EncodedIsValid(cs[1..]);
      EncodedIsChar(cs[0], EncodeAll(cs[1..]));
      var s := EncodeAll(cs);
      assert s[|Encode(cs[0])|..] == EncodeAll(cs[1..]);
    }
  }

  /** Bytes that are whole characters, then more: the front character is the same. */
  lemma CharLengthOfPrefix(s: seq<byte>, m: nat)
    requires m <= |s| && 0 < CharLength(s) <= m
    ensures CharLength(s[..m]) == CharLength(s)
  {
  }

  /** Within any four bytes of a valid text there is a place to cut. */
  lemma {:induction false} CutNearby(s: seq<byte>, n: nat) returns (k: nat)
    requires ValidUtf8(s) && n <= |s|
    ensures k <= n <= k + 3 && ValidUtf8(s[..k])
    decreases |s|
  {
    if n < CharLength(s) || s == [] {
      k := 0;
    } else {
      var c := CharLength(s);
      var j := CutNearby(s[c..], n - c);
      k := j + c;
      CharLengthOfPrefix(s, k);
      assert s[..k][c..] == s[c..][..j];
    }
  }

  ghost predicate LongestValidPrefix(out: seq<byte>, s: seq<byte>, limit: nat) {
    && out <= s && |out| <= limit && ValidUtf8(out)
    && forall m :: |out| < m <= limit && m <= |s| ==> !ValidUtf8(s[..m])
  }

  /** Caps `diff` at `maxSizeKB` kilobytes. */
  method TruncateDiff(diff: seq<byte>, maxSizeKB: int) returns (out: seq<byte>, truncated: bool)
    ensures out <= diff
    ensures |out| <= if maxSizeKB > 0 then maxSizeKB * 1024 else 0
    ensures truncated <==> out != diff
    ensures truncated <==> |diff| > if maxSizeKB > 0 then maxSizeKB * 1024 else 0
    ensures truncated && maxSizeKB > 0 ==> LongestValidPrefix(out, diff, maxSizeKB * 1024)
    ensures truncated && maxSizeKB > 0 && ValidUtf8(diff) ==> |out| >= maxSizeKB * 1024 - 3
  {
    if maxSizeKB <= 0 {
      return [], diff != [];
    }
    var maxBytes := maxSizeKB * 1024;
    if |diff| <= maxBytes {
      return diff, false;
    }
    out := LongestValid(diff, maxBytes);
    truncated := true;
  }

  /** The loop that drops one byte at a time until the rest is valid. */
  method LongestValid(data: seq<byte>, maxBytes: nat) returns (out: seq<byte>)
    requires maxBytes < |data|
    ensures LongestValidPrefix(out, data, maxBytes)
    ensures ValidUtf8(data) ==> |out| >= maxBytes - 3
  {
    out := data[..maxBytes];
    while |out| > 0 && !ValidUtf8(out)
      invariant |out| <= maxBytes && out == data[..|out|]
      invariant forall m :: |out| < m <= maxBytes ==> !ValidUtf8(data[..m])
      decreases |out|
    {
      out := out[..|out| - 1];
    }
    if ValidUtf8(data) {
      var k := CutNearby(data, maxBytes);
    }
  }

  /** The longest valid prefix within a limit is unique, so the result does not depend on how the
      loop finds it. */
  lemma LongestValidUnique(a: seq<byte>, b: seq<byte>, s: seq<byte>, limit: nat)
    requires LongestValidPrefix(a, s, limit) && LongestValidPrefix(b, s, limit)
    ensures a == b
  {
    assert a == s[..|a|] && b == s[..|b|];
  }
}

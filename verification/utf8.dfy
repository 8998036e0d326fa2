/** UTF-8 as RFC 3629 defines it, and the decoding that terminal output is meant to go through:
    well-formed sequences are kept, every byte that starts none becomes U+FFFD. */
module Utf8 {
  type byte = b: int | 0 <= b < 256

  // ---------------------------------------------------------------- section 3: the encoding

  predicate Scalar(v: int) {
    0 <= v <= 0xD7FF || 0xE000 <= v <= 0x10FFFF
  }

  function Encode(v: int): seq<byte>
    requires Scalar(v)
  {
    if v < 0x80 then [v]
    else if v < 0x800 then [0xC0 + v / 64, 0x80 + v % 64]
    else if v < 0x10000 then [0xE0 + v / 64 / 64, 0x80 + v / 64 % 64, 0x80 + v % 64]
    else [0xF0 + v / 64 / 64 / 64, 0x80 + v / 64 / 64 % 64, 0x80 + v / 64 % 64, 0x80 + v % 64]
  }

  /** What takes the place of a byte that starts no well-formed sequence. */
  const REPLACEMENT: seq<byte> := [0xEF, 0xBF, 0xBD]

  lemma ReplacementIsEncoded()
    ensures Encode(0xFFFD) == REPLACEMENT
  {
  }

  // ---------------------------------------------------------------- section 4: the syntax

  predicate Tail(b: byte) {
    0x80 <= b <= 0xBF
  }

  predicate IsRune(s: seq<byte>) {
    || (|s| == 1 && s[0] <= 0x7F)
    || (|s| == 2 && 0xC2 <= s[0] <= 0xDF && Tail(s[1]))
    || (|s| == 3 && Second3(s[0], s[1]) && Tail(s[2]))
    || (|s| == 4 && Second4(s[0], s[1]) && Tail(s[2]) && Tail(s[3]))
  }

  predicate Second3(a: byte, b: byte) {
    || (a == 0xE0 && 0xA0 <= b <= 0xBF)
    || (0xE1 <= a <= 0xEC && Tail(b))
    || (a == 0xED && 0x80 <= b <= 0x9F)
    || (0xEE <= a <= 0xEF && Tail(b))
  }

  predicate Second4(a: byte, b: byte) {
    || (a == 0xF0 && 0x90 <= b <= 0xBF)
    || (0xF1 <= a <= 0xF3 && Tail(b))
    || (a == 0xF4 && 0x80 <= b <= 0x8F)
  }

  /** The number encoded by a well-formed sequence. */
  function Value(s: seq<byte>): int
    requires IsRune(s)
  {
    var a: int := s[0];
    if |s| == 1 then a
    else var b: int := s[1] - 0x80;
    if |s| == 2 then (a - 0xC0) * 64 + b
    else var c: int := s[2] - 0x80;
    if |s| == 3 then (a - 0xE0) * 4096 + b * 64 + c
    else var d: int := s[3] - 0x80; (a - 0xF0) * 262144 + b * 4096 + c * 64 + d
  }

  lemma Digits(hi: int, lo: int)
    requires 0 <= lo < 64
    ensures (hi * 64 + lo) / 64 == hi && (hi * 64 + lo) % 64 == lo
  {
  }

  /** Section 4 describes exactly the sequences that section 3 produces, and they can be
      decoded: one direction ... */
  lemma ValueIsScalar(s: seq<byte>)
    requires IsRune(s)
    ensures Scalar(Value(s)) && Encode(Value(s)) == s
  {
    if |s| == 2 {
      Digits(s[0] - 0xC0, s[1] - 0x80);
    } else if |s| == 3 {
      ValueIsScalar3(s);
    } else if |s| == 4 {
      ValueIsScalar4(s);
    }
  }

  lemma ValueIsScalar3(s: seq<byte>)
    requires IsRune(s) && |s| == 3
    ensures Scalar(Value(s)) && Encode(Value(s)) == s
  {
    var a: int, b: int, c: int := s[0] - 0xE0, s[1] - 0x80, s[2] - 0x80;
    Digits(a * 64 + b, c);
    Digits(a, b);
    assert Value(s) == (a * 64 + b) * 64 + c;
  }

  lemma ValueIsScalar4(s: seq<byte>)
    requires IsRune(s) && |s| == 4
    ensures Scalar(Value(s)) && Encode(Value(s)) == s
  {
    var a: int, b: int, c: int, d: int := s[0] - 0xF0, s[1] - 0x80, s[2] - 0x80, s[3] - 0x80;
    Digits((a * 64 + b) * 64 + c, d);
    Digits(a * 64 + b, c);
    Digits(a, b);
    assert Value(s) == ((a * 64 + b) * 64 + c) * 64 + d;
  }

  /** ... and the other. */
  lemma EncodeIsRune(v: int)
    requires Scalar(v)
    ensures IsRune(Encode(v)) && Value(Encode(v)) == v
  {
    var q := v / 64;
    assert v == q * 64 + v % 64;
    assert q == q / 64 * 64 + q % 64;
    assert q / 64 == q / 64 / 64 * 64 + q / 64 % 64;
  }

  lemma RunesAreEncodings(s: seq<byte>)
    ensures IsRune(s) <==> exists v :: Scalar(v) && Encode(v) == s
  {
    if IsRune(s) {
      ValueIsScalar(s);
    }
    forall v | Scalar(v) && Encode(v) == s ensures IsRune(s) {
      EncodeIsRune(v);
    }
  }

  // ---------------------------------------------------------------- the reference decoding

  /** Length of the well-formed sequence at the front of `s`, 0 if there is none. */
  function Width(s: seq<byte>): (w: nat)
    ensures w <= |s| && w <= 4
    ensures w > 0 ==> IsRune(s[..w])
  {
    if |s| >= 1 && IsRune(s[..1]) then 1
    else if |s| >= 2 && IsRune(s[..2]) then 2
    else if |s| >= 3 && IsRune(s[..3]) then 3
    else if |s| >= 4 && IsRune(s[..4]) then 4
    else 0
  }

  /** No well-formed sequence begins another, so there is at most one at the front. */
  lemma WidthIsUnique(s: seq<byte>, k: nat)
    requires 0 < k <= |s| && IsRune(s[..k])
    ensures Width(s) == k
  {
    var t := s[..k];
    assert forall j :: 0 < j <= k ==> s[..j] == t[..j];
  }

  function Decode(s: seq<byte>): (r: seq<byte>)
    decreases |s|
  {
    if s == [] then []
    else if Width(s) > 0 then s[..Width(s)] + Decode(s[Width(s)..])
    else REPLACEMENT + Decode(s[1..])
  }

  ghost predicate WellFormed(s: seq<byte>)
    decreases |s|
  {
    s == [] || (Width(s) > 0 && WellFormed(s[Width(s)..]))
  }

  lemma WidthOfRune(r: seq<byte>, rest: seq<byte>)
    requires IsRune(r)
    ensures Width(r + rest) == |r|
  {
    assert (r + rest)[..|r|] == r;
    WidthIsUnique(r + rest, |r|);
  }

  lemma {:induction false} WellFormedConcat(s: seq<byte>, t: seq<byte>)
    requires WellFormed(s) && WellFormed(t)
    ensures WellFormed(s + t)
    decreases |s|
  {
    if s == [] {
      assert s + t == t;
    } else {
      var w := Width(s);
      assert s + t == s[..w] + (s[w..] + t);
      WidthOfRune(s[..w], s[w..] + t);
      assert (s + t)[w..] == s[w..] + t;
      WellFormedConcat(s[w..], t);
    }
  }

  lemma RuneIsWellFormed(r: seq<byte>)
    requires IsRune(r)
    ensures WellFormed(r)
  {
    assert r + [] == r;
    WidthOfRune(r, []);
    assert r[|r|..] == [];
  }

  /** Decoding always gives well-formed text ... */
  lemma {:induction false} DecodeIsWellFormed(s: seq<byte>)
    ensures WellFormed(Decode(s))
    decreases |s|
  {
    if s != [] {
      var w := Width(s);
      if w > 0 {
        DecodeIsWellFormed(s[w..]);
        RuneIsWellFormed(s[..w]);
        WellFormedConcat(s[..w], Decode(s[w..]));
      } else {
        DecodeIsWellFormed(s[1..]);
        RuneIsWellFormed(REPLACEMENT);
        WellFormedConcat(REPLACEMENT, Decode(s[1..]));
      }
    }
  }

  /** ... and reproduces its input byte for byte exactly when that was well-formed. */
  lemma {:induction false} DecodeFixes(s: seq<byte>)
    ensures Decode(s) == s <==> WellFormed(s)
    decreases |s|
  {
    if WellFormed(s) {
      WellFormedIsFixed(s);
    }
    if Decode(s) == s {
      DecodeIsWellFormed(s);
    }
  }

  lemma {:induction false} WellFormedIsFixed(s: seq<byte>)
    requires WellFormed(s)
    ensures Decode(s) == s
    decreases |s|
  {
    if s != [] {
      WellFormedIsFixed(s[Width(s)..]);
    }
  }
}

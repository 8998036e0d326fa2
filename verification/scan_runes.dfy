/** The split function of the output proxy (pkg/docker/proxy/rune_copy.go) and what it uses of
    Go's bufio and unicode/utf8: the table of leading bytes, DecodeRune's width, FullRune and
    ScanRunes. */
module ScanRunes {
  import opened Utf8

  /** Entries of the table `first`: the size of the sequence a byte starts, and the range of the
      byte after it. */
  datatype Lead = Ascii | Invalid | Multi(size: nat, lo: byte, hi: byte)

  function First(b: byte): (x: Lead)
    ensures x.Multi? ==> 2 <= x.size <= 4
  {
    if b < 0x80 then Ascii
    else if b < 0xC2 then Invalid
    else if b < 0xE0 then Multi(2, 0x80, 0xBF)
    else if b == 0xE0 then Multi(3, 0xA0, 0xBF)
    else if b < 0xED then Multi(3, 0x80, 0xBF)
    else if b == 0xED then Multi(3, 0x80, 0x9F)
    else if b < 0xF0 then Multi(3, 0x80, 0xBF)
    else if b == 0xF0 then Multi(4, 0x90, 0xBF)
    else if b < 0xF4 then Multi(4, 0x80, 0xBF)
    else if b == 0xF4 then Multi(4, 0x80, 0x8F)
    else Invalid
  }

  function Size(x: Lead): nat {
    if x.Multi? then x.size else 1
  }

  /** The width that utf8.DecodeRune reports: 1 for ASCII and for anything that is not valid. */
  function DecodeWidth(p: seq<byte>): (w: nat)
    ensures w <= |p|
  {
    if p == [] then 0 else
    var x := First(p[0]);
    if !x.Multi? || |p| < x.size then 1
    else if p[1] < x.lo || x.hi < p[1] then 1
    else if x.size <= 2 then 2
    else if !Tail(p[2]) then 1
    else if x.size <= 3 then 3
    else if !Tail(p[3]) then 1
    else 4
  }

  /** utf8.FullRune: an invalid sequence counts as full, since it will decode as one byte. */
  predicate FullRune(p: seq<byte>) {
    p != []
    && var x := First(p[0]);
       || |p| >= Size(x)
       || (|p| > 1 && (p[1] < x.lo || x.hi < p[1]))
       || (|p| > 2 && !Tail(p[2]))
  }

  /** bufio.ScanRunes; it never returns an error. The empty token stands for nil. */
  function ScanRunes(data: seq<byte>, atEOF: bool): (r: (nat, seq<byte>))
    ensures r.0 <= |data|
  {
    if data == [] then (0, [])
    else if data[0] < 0x80 then (1, data[..1])
    else if DecodeWidth(data) > 1 then
      (DecodeWidth(data), data[..DecodeWidth(data)])
    else if !atEOF && !FullRune(data) then (0, [])
    else (1, REPLACEMENT)
  }

  // ---------------------------------------------------------------- against RFC 3629

  /** `s` may still grow into a well-formed sequence. */
  ghost predicate Promising(s: seq<byte>) {
    exists more :: more != [] && IsRune(s + more)
  }

  lemma WidthAgrees(p: seq<byte>)
    requires p != [] && p[0] >= 0x80
    ensures DecodeWidth(p) > 1 ==> Width(p) == DecodeWidth(p)
    ensures DecodeWidth(p) <= 1 ==> Width(p) == 0
  {
    var w := DecodeWidth(p);
    if w > 1 { assert IsRune(p[..w]); }
  }

  /** FullRune is exact: an input is not full just when it is empty or a proper beginning of some
      well-formed sequence. */
  lemma FullRuneIff(p: seq<byte>)
    requires p != []
    ensures FullRune(p) <==> !(Width(p) == 0 && Promising(p))
  {
    if !FullRune(p) {
      NotFullIsPromising(p);
    }
    if Promising(p) && Width(p) == 0 {
      var more :| more != [] && IsRune(p + more);
      var r := p + more;
      assert r[0] == p[0] && (|p| > 1 ==> r[1] == p[1]) && (|p| > 2 ==> r[2] == p[2]);
      if |p| == 1 { assert !IsRune(p[..1]); }
    }
  }

  lemma NotFullIsPromising(p: seq<byte>)
    requires p != [] && !FullRune(p)
    ensures Promising(p) && |p| <= 3 && Width(p) == 0
  {
    var x := First(p[0]);
    var more: seq<byte> :=
      if |p| == 1 then
        if x.size == 2 then [x.lo] else if x.size == 3 then [x.lo, 0x80] else [x.lo, 0x80, 0x80]
      else if x.size - |p| == 1 then [0x80]
      else [0x80, 0x80];
    assert IsRune(p + more);
    WidthAgrees(p);
  }

  /** A full input keeps its reading, whatever follows. */
  lemma FullIsStable(p: seq<byte>, rest: seq<byte>)
    requires FullRune(p)
    ensures Width(p + rest) == Width(p)
  {
    if Width(p) > 0 {
      assert (p + rest)[..Width(p)] == p[..Width(p)];
    }
  }

  /** How much of its input a step of the decoding takes, and what it gives for it. */
  function Taken(data: seq<byte>): (a: nat)
    requires data != []
    ensures 0 < a <= |data|
  {
    if Width(data) > 0 then Width(data) else 1
  }

  function Given(data: seq<byte>): seq<byte> {
    if Width(data) > 0 then data[..Width(data)] else REPLACEMENT
  }

  /** ScanRunes is one step of the reference decoding, unless it has to wait. */
  lemma ScanRunesSteps(data: seq<byte>, atEOF: bool)
    requires data != []
    ensures ScanRunes(data, atEOF) == if atEOF || FullRune(data) then (Taken(data), Given(data)) else (0, [])
  {
    if data[0] >= 0x80 {
      WidthAgrees(data);
    } else {
      assert IsRune(data[..1]);
    }
    if !FullRune(data) { NotFullIsPromising(data); }
  }

  lemma GivenIsWellFormed(data: seq<byte>)
    requires data != []
    ensures WellFormed(Given(data)) && Given(data) != []
  {
    RuneIsWellFormed(Given(data));
  }

  lemma StepDecodes(data: seq<byte>, rest: seq<byte>)
    requires data != [] && (rest == [] || FullRune(data))
    ensures Decode(data + rest) == Given(data) + Decode(data[Taken(data)..] + rest)
  {
    if rest == [] { assert data + rest == data; } else { FullIsStable(data, rest); }
    var a := Taken(data);
    assert (data + rest)[a..] == data[a..] + rest;
    assert (data + rest)[..a] == data[..a];
  }

  // ---------------------------------------------------------------- the greedy split

  /** What a scan that may wait for more input holds back: nothing, or the beginning of a
      sequence that is still open. It depends on the bytes only, not on how they arrived. */
  function HeldBack(data: seq<byte>): (h: seq<byte>)
    ensures |h| <= |data|
    decreases |data|
  {
    if data == [] || !FullRune(data) then data
    else HeldBack(data[Taken(data)..])
  }

  lemma {:induction false} HeldBackIsShort(data: seq<byte>)
    ensures |HeldBack(data)| <= 3
    ensures HeldBack(data) != [] ==> Promising(HeldBack(data)) && Width(HeldBack(data)) == 0
    decreases |data|
  {
    if data != [] {
      if FullRune(data) {
        HeldBackIsShort(data[Taken(data)..]);
      } else {
        NotFullIsPromising(data);
      }
    }
  }

  /** Holding back can be done piecewise. */
  lemma {:induction false} HeldBackPiecewise(data: seq<byte>, rest: seq<byte>)
    ensures HeldBack(data + rest) == HeldBack(HeldBack(data) + rest)
    decreases |data|
  {
    if data == [] || !FullRune(data) {
    } else {
      var k := Taken(data);
      FullIsStable(data, rest);
      assert (data + rest)[k..] == data[k..] + rest;
      assert FullRune(data + rest);
      HeldBackPiecewise(data[k..], rest);
    }
  }

  /** Whatever may still follow, `token` is the first part of the text of `before`, and `after`
      is what remains to be decoded. (`decode` is Decode; as a parameter its definition stays
      out of the proofs that do not need it.) */
  ghost predicate Streams(decode: seq<byte> -> seq<byte>, before: seq<byte>, after: seq<byte>, token: seq<byte>) {
    forall rest {:trigger decode(before + rest)} :: decode(before + rest) == token + decode(after + rest)
  }

  lemma StreamsJoin(decode: seq<byte> -> seq<byte>, a: seq<byte>, b: seq<byte>, c: seq<byte>, t: seq<byte>,
                    u: seq<byte>)
    requires Streams(decode, a, b, t) && Streams(decode, b, c, u)
    ensures Streams(decode, a, c, t + u)
  {
    forall rest ensures decode(a + rest) == (t + u) + decode(c + rest) {
      assert t + (u + decode(c + rest)) == (t + u) + decode(c + rest);
    }
  }

  lemma StreamsMore(decode: seq<byte> -> seq<byte>, a: seq<byte>, b: seq<byte>, t: seq<byte>, p: seq<byte>)
    requires Streams(decode, a, b, t)
    ensures Streams(decode, a + p, b + p, t)
  {
    forall rest ensures decode(a + p + rest) == t + decode(b + p + rest) {
      assert a + p + rest == a + (p + rest) && b + p + rest == b + (p + rest);
    }
  }

  lemma StreamsNow(decode: seq<byte> -> seq<byte>, a: seq<byte>, b: seq<byte>, t: seq<byte>)
    requires Streams(decode, a, b, t)
    ensures decode(a) == t + decode(b)
  {
    assert a + [] == a && b + [] == b;
    assert decode(a + []) == t + decode(b + []);
  }

  /** A bufio.SplitFunc without errors. */
  type Splitter = f: (seq<byte>, bool) -> (nat, seq<byte>) | forall d, e :: f(d, e).0 <= |d|
    witness (d: seq<byte>, e: bool) => (0, [])

  /** How far repeated splitting by `scan` gets, and all its tokens in one. */
  function Repeated(scan: Splitter, data: seq<byte>, atEOF: bool): (r: (nat, seq<byte>))
    ensures r.0 <= |data|
    decreases |data|
  {
    if data == [] then (0, []) else
    var (a, t) := scan(data, atEOF);
    if a == 0 then (0, [])
    else var (b, u) := Repeated(scan, data[a..], atEOF); (a + b, t + u)
  }

  function Greedy(data: seq<byte>, atEOF: bool): (r: (nat, seq<byte>))
    ensures r.0 <= |data|
  {
    Repeated(ScanRunes, data, atEOF)
  }

  /** The loop of ScanRunesGreedy; it relies on nothing about bufio.ScanRunes. */
  method SplitRepeatedly(scan: Splitter, data: seq<byte>, atEOF: bool) returns (advance: nat, token: seq<byte>)
    ensures advance <= |data|
    ensures advance == Repeated(scan, data, atEOF).0 && token == Repeated(scan, data, atEOF).1
  {
    advance, token := 0, [];
    assert data[0..] == data;
    while advance < |data|
      invariant advance <= |data|
      invariant Repeated(scan, data, atEOF).0 == advance + Repeated(scan, data[advance..], atEOF).0
      invariant Repeated(scan, data, atEOF).1 == token + Repeated(scan, data[advance..], atEOF).1
    {
      var here := data[advance..];
      var (a, t) := scan(here, atEOF);
      if a == 0 {
        break;
      }
      assert here[a..] == data[advance + a..];
      advance, token := advance + a, token + t;
    }
  }

  method ScanRunesGreedy(data: seq<byte>, atEOF: bool) returns (advance: nat, token: seq<byte>)
    ensures advance == Greedy(data, atEOF).0 && token == Greedy(data, atEOF).1
  {
    advance, token := SplitRepeatedly(ScanRunes, data, atEOF);
  }

  /** At the end of the input everything is decoded. */
  lemma {:induction false} GreedyAtEnd(data: seq<byte>)
    ensures Greedy(data, true).0 == |data| && Greedy(data, true).1 == Decode(data)
    decreases |data|
  {
    if data != [] {
      ScanRunesSteps(data, true);
      RepeatedStep(ScanRunes, data, true);
      GreedyAtEnd(data[Taken(data)..]);
    }
  }

  lemma RepeatedStep(scan: Splitter, data: seq<byte>, atEOF: bool)
    requires data != [] && scan(data, atEOF).0 > 0
    ensures var (a, t) := scan(data, atEOF); var (b, u) := Repeated(scan, data[a..], atEOF);
      Repeated(scan, data, atEOF).0 == a + b && Repeated(scan, data, atEOF).1 == t + u
  {
  }

  /** With input still to come, the token is what every continuation decodes to first, and all
      that is held back is an open sequence of at most three bytes. */
  lemma {:induction false} GreedyStreams(data: seq<byte>)
    ensures var (a, t) := Greedy(data, false);
      data[a..] == HeldBack(data) && |data| - a <= 3 && Streams(Decode, data, data[a..], t)
    decreases |data|
  {
    HeldBackIsShort(data);
    if data != [] {
      ScanRunesSteps(data, false);
    }
    if data != [] && FullRune(data) {
      var k := Taken(data);
      var (b, u) := Greedy(data[k..], false);
      GreedyStreams(data[k..]);
      RepeatedStep(ScanRunes, data, false);
      assert data[k..][b..] == data[k + b..];
      StepStreams(data);
      StreamsJoin(Decode, data, data[k..], data[k + b..], Given(data), u);
    } else {
      NothingStreams(Decode, data);
    }
  }

  lemma NothingStreams(decode: seq<byte> -> seq<byte>, data: seq<byte>)
    ensures Streams(decode, data, data, [])
  {
  }

  lemma StepStreams(here: seq<byte>)
    requires FullRune(here)
    ensures Streams(Decode, here, here[Taken(here)..], Given(here))
  {
    forall rest ensures Decode(here + rest) == Given(here) + Decode(here[Taken(here)..] + rest) {
      StepDecodes(here, rest);
    }
  }

  /** A token is well-formed UTF-8, and there is one whenever the split advances. */
  lemma {:induction false} TokensAreWellFormed(data: seq<byte>, atEOF: bool)
    ensures WellFormed(Greedy(data, atEOF).1)
    ensures Greedy(data, atEOF).0 == 0 <==> Greedy(data, atEOF).1 == []
    decreases |data|
  {
    if data != [] {
      ScanRunesSteps(data, atEOF);
      if atEOF || FullRune(data) {
        GivenIsWellFormed(data);
        TokensAreWellFormed(data[Taken(data)..], atEOF);
        WellFormedConcat(Given(data), Greedy(data[Taken(data)..], atEOF).1);
      }
    }
  }
}

/** Cipher feedback mode with segments of one block: section 6.3 of NIST SP 800-38A, over any
    block function, and the stream of Go's crypto/cipher that computes it in place. */
module Cfb {
  const BLOCK_SIZE := 16

  type Bytes = seq<bv8>

  /** The forward cipher of a key: it maps blocks to blocks, and nothing else is assumed. */
  type BlockFn = f: Bytes -> Bytes | forall b :: |b| == BLOCK_SIZE ==> |f(b)| == BLOCK_SIZE
    witness (b: Bytes) => b

  function Xor(a: Bytes, b: Bytes): (r: Bytes)
    requires |a| <= |b|
    ensures |r| == |a|
  {
    seq(|a|, i requires 0 <= i < |a| => a[i] ^ b[i])
  }

  /** The last segment may be short. */
  function Encrypted(e: BlockFn, iv: Bytes, p: Bytes): (c: Bytes)
    requires |iv| == BLOCK_SIZE
    ensures |c| == |p|
    decreases |p|
  {
    if |p| <= BLOCK_SIZE then Xor(p, e(iv))
    else var c := Xor(p[..BLOCK_SIZE], e(iv)); c + Encrypted(e, c, p[BLOCK_SIZE..])
  }

  function Decrypted(e: BlockFn, iv: Bytes, c: Bytes): (p: Bytes)
    requires |iv| == BLOCK_SIZE
    ensures |p| == |c|
    decreases |c|
  {
    if |c| <= BLOCK_SIZE then Xor(c, e(iv))
    else Xor(c[..BLOCK_SIZE], e(iv)) + Decrypted(e, c[..BLOCK_SIZE], c[BLOCK_SIZE..])
  }

  lemma XorTwice(a: Bytes, k: Bytes)
    requires |a| <= |k|
    ensures Xor(Xor(a, k), k) == a
  {
    forall i | 0 <= i < |a| ensures Xor(Xor(a, k), k)[i] == a[i] {
      assert (a[i] ^ k[i]) ^ k[i] == a[i];
    }
  }

  /** Decryption undoes encryption ... */
  lemma {:induction false} DecryptUndoesEncrypt(e: BlockFn, iv: Bytes, p: Bytes)
    requires |iv| == BLOCK_SIZE
    ensures Decrypted(e, iv, Encrypted(e, iv, p)) == p
    decreases |p|
  {
    if |p| <= BLOCK_SIZE {
      XorTwice(p, e(iv));
    } else {
      var c := Xor(p[..BLOCK_SIZE], e(iv));
      var rest := Encrypted(e, c, p[BLOCK_SIZE..]);
      XorTwice(p[..BLOCK_SIZE], e(iv));
      DecryptUndoesEncrypt(e, c, p[BLOCK_SIZE..]);
      assert (c + rest)[..BLOCK_SIZE] == c && (c + rest)[BLOCK_SIZE..] == rest;
      assert p == p[..BLOCK_SIZE] + p[BLOCK_SIZE..];
    }
  }

  /** ... and the other way round: for each key and IV, CFB is a bijection on strings of bytes. */
  lemma {:induction false} EncryptUndoesDecrypt(e: BlockFn, iv: Bytes, c: Bytes)
    requires |iv| == BLOCK_SIZE
    ensures Encrypted(e, iv, Decrypted(e, iv, c)) == c
    decreases |c|
  {
    if |c| <= BLOCK_SIZE {
      XorTwice(c, e(iv));
    } else {
      XorTwice(c[..BLOCK_SIZE], e(iv));
      EncryptUndoesDecrypt(e, c[..BLOCK_SIZE], c[BLOCK_SIZE..]);
      assert Decrypted(e, iv, c)[..BLOCK_SIZE] == Xor(c[..BLOCK_SIZE], e(iv));
    }
  }

  /** The i-th byte of the block of `p` that begins at k is in `text`, the IV and the ciphertext: under
      the cipher of the sixteen bytes that come before that block there. */
  predicate ByteAt(e: BlockFn, text: Bytes, p: Bytes, k: nat, i: nat)
    requires i < BLOCK_SIZE && k + i < |p| && |text| == BLOCK_SIZE + |p|
  {
    text[BLOCK_SIZE + k + i] == p[k + i] ^ e(text[k..k + BLOCK_SIZE])[i]
  }

  /** Section 6.3, byte by byte. */
  lemma {:induction false} EncryptedByte(e: BlockFn, iv: Bytes, p: Bytes, k: nat, i: nat)
    requires |iv| == BLOCK_SIZE && i < BLOCK_SIZE && k % BLOCK_SIZE == 0 && k + i < |p|
    ensures ByteAt(e, iv + Encrypted(e, iv, p), p, k, i)
    decreases k
  {
    if k == 0 {
      FirstByte(e, iv, p, i);
    } else {
      var c1 := Xor(p[..BLOCK_SIZE], e(iv));
      EncryptedByte(e, c1, p[BLOCK_SIZE..], k - BLOCK_SIZE, i);
      LaterByte(e, iv, c1 + Encrypted(e, c1, p[BLOCK_SIZE..]), p, k - BLOCK_SIZE, i);
    }
  }

  lemma FirstByte(e: BlockFn, iv: Bytes, p: Bytes, i: nat)
    requires |iv| == BLOCK_SIZE && i < BLOCK_SIZE && i < |p|
    ensures ByteAt(e, iv + Encrypted(e, iv, p), p, 0, i)
  {
    var text := iv + Encrypted(e, iv, p);
    assert text[0..BLOCK_SIZE] == iv;
    assert text[BLOCK_SIZE + i] == Encrypted(e, iv, p)[i];
  }

  lemma LaterByte(e: BlockFn, iv: Bytes, text: Bytes, p: Bytes, k: nat, i: nat)
    requires |iv| == BLOCK_SIZE && i < BLOCK_SIZE && BLOCK_SIZE + k + i < |p| == |text|
    requires ByteAt(e, text, p[BLOCK_SIZE..], k, i)
    ensures ByteAt(e, iv + text, p, k + BLOCK_SIZE, i)
  {
    var all, h := iv + text, k + BLOCK_SIZE;
    assert all[h..h + BLOCK_SIZE] == text[k..k + BLOCK_SIZE];
    assert all[BLOCK_SIZE + h + i] == text[h + i];
    assert p[h + i] == p[BLOCK_SIZE..][k + i];
  }

  lemma CfbIsBijective(e: BlockFn, iv: Bytes, c: Bytes, p: Bytes)
    requires |iv| == BLOCK_SIZE
    ensures Decrypted(e, iv, c) == p <==> c == Encrypted(e, iv, p)
  {
    DecryptUndoesEncrypt(e, iv, p);
    EncryptUndoesDecrypt(e, iv, c);
  }

  // ---------------------------------------------------------------- the stream

  type Block = b: Bytes | |b| == BLOCK_SIZE witness seq(BLOCK_SIZE, _ => 0)

  function Mode(e: BlockFn, decrypt: bool, iv: Block, x: Bytes): (y: Bytes)
    ensures |y| == |x|
  {
    if decrypt then Decrypted(e, iv, x) else Encrypted(e, iv, x)
  }

  /** A mode works segment by segment, and `next` takes the place of the IV after the first. */
  lemma NextSegment(e: BlockFn, decrypt: bool, before: Bytes, iv: Block, next: Block, x: Bytes, n: nat)
    requires 0 < n <= |x| && (n == BLOCK_SIZE || n == |x| < BLOCK_SIZE)
    requires n == BLOCK_SIZE ==> next == if decrypt then x[..n] else Xor(x[..n], e(iv))
    ensures before + Mode(e, decrypt, iv, x) == (before + Xor(x[..n], e(iv))) + Mode(e, decrypt, next, x[n..])
  {
    var y := Xor(x[..n], e(iv));
    assert n == |x| ==> x[..n] == x;
    assert Mode(e, decrypt, iv, x) == y + Mode(e, decrypt, next, x[n..]);
    assert before + (y + Mode(e, decrypt, next, x[n..])) == (before + y) + Mode(e, decrypt, next, x[n..]);
  }

  /** A property of what is written, the input of the block function and what remains to be read,
      that one more segment never breaks. */
  ghost predicate KeptBySegments(view: (Bytes, Block, Bytes) -> bool, e: BlockFn, decrypt: bool) {
    forall done: Bytes, iv: Block, next: Block, rest: Bytes, n: nat
        {:trigger view(done, iv, rest), view(done + Xor(rest[..n], e(iv)), next, rest[n..])} |
      && 0 < n <= |rest| && (n == BLOCK_SIZE || n == |rest| < BLOCK_SIZE)
      && (n == BLOCK_SIZE ==> next == if decrypt then rest[..n] else Xor(rest[..n], e(iv)))
      && view(done, iv, rest) :: view(done + Xor(rest[..n], e(iv)), next, rest[n..])
  }

  method Copy(to: array<bv8>, from: array<bv8>, s: nat, n: nat)
    requires n <= to.Length && s + n <= from.Length && to != from
    modifies to
    ensures forall k :: 0 <= k < n ==> to[k] == from[s + k]
    ensures forall k :: n <= k < to.Length ==> to[k] == old(to[k])
  {
    forall k | 0 <= k < n {
      to[k] := from[s + k];
    }
  }

  /** Reads each byte before it is overwritten, should dst and src be one buffer. */
  method XorBytes(dst: array<bv8>, d: nat, src: array<bv8>, s: nat, key: array<bv8>, n: nat)
    requires d + n <= dst.Length && s + n <= src.Length && n <= key.Length && dst != key
    requires dst == src ==> d == s
    modifies dst
    ensures forall k :: d <= k < d + n ==> dst[k] == old(src[s + k - d]) ^ key[k - d]
    ensures forall k :: 0 <= k < dst.Length && !(d <= k < d + n) ==> dst[k] == old(dst[k])
  {
    forall k | d <= k < d + n {
      dst[k] := src[s + k - d] ^ key[k - d];
    }
  }

  /** The cfb stream. `next` is the input of the block function for the segment to come. */
  class Stream {
    const e: BlockFn
    const decrypt: bool
    const next: array<bv8>
    const out: array<bv8>
    var outUsed: nat

    ghost predicate Valid()
      reads this`outUsed
    {
      next.Length == out.Length == BLOCK_SIZE && next != out && outUsed <= BLOCK_SIZE
    }

    constructor (e: BlockFn, iv: Block, decrypt: bool)
      ensures Valid() && fresh(next) && fresh(out) && outUsed == BLOCK_SIZE
      ensures next[..] == iv && this.e == e && this.decrypt == decrypt
    {
      this.e, this.decrypt, outUsed := e, decrypt, BLOCK_SIZE;
      next := new bv8[BLOCK_SIZE](i requires 0 <= i < BLOCK_SIZE => iv[i]);
      out := new bv8[BLOCK_SIZE](i => 0);
    }

    method Refill()
      requires Valid()
      modifies this`outUsed, out
      ensures Valid() && outUsed == 0 && out[..] == e(old(next[..]))
    {
      var key := e(next[..]);
      forall k | 0 <= k < BLOCK_SIZE {
        out[k] := key[k];
      }
      assert out[..] == key;
      outUsed := 0;
    }

    /** One round of the loop, at the beginning of a segment: n bytes of src from s on go to dst
        from d on. */
    method Segment(dst: array<bv8>, d: nat, src: array<bv8>, s: nat, n: nat)
      requires Valid() && outUsed == BLOCK_SIZE && 0 < n <= BLOCK_SIZE
      requires d + n <= dst.Length && s + n <= src.Length && (dst == src ==> d == s)
      requires dst != next && dst != out && src != next && src != out
      modifies this`outUsed, next, out, dst
      ensures Valid() && outUsed == n
      ensures dst[d..d + n] == Xor(old(src[s..s + n]), e(old(next[..])))
      ensures forall k :: 0 <= k < dst.Length && !(d <= k < d + n) ==> dst[k] == old(dst[k])
      ensures n == BLOCK_SIZE ==> next[..] == if decrypt then old(src[s..s + n]) else dst[d..d + n]
    {
      Refill();
      ghost var x, key := src[s..s + n], out[..];
      if decrypt {
        Copy(next, src, s, n);
      }
      XorBytes(dst, d, src, s, out, n);
      assert dst[d..d + n] == Xor(x, key);
      if !decrypt {
        Copy(next, dst, d, n);
      }
      outUsed := outUsed + n;
    }

    /** The two buffers at positions d and s, with equally many bytes to come: dst may be src
        itself, or another buffer. */
    ghost predicate Ready(dst: array<bv8>, d: nat, src: array<bv8>, s: nat)
      reads this`outUsed
    {
      && Valid() && (outUsed == BLOCK_SIZE || s == src.Length)
      && d <= dst.Length && s <= src.Length && dst.Length - d == src.Length - s && (dst == src ==> d == s)
      && dst != next && dst != out && src != next && src != out
    }

    method Round(dst: array<bv8>, d: nat, src: array<bv8>, s: nat, ghost view: (Bytes, Block, Bytes) -> bool)
      returns (n: nat)
      requires Ready(dst, d, src, s) && s < src.Length && KeptBySegments(view, e, decrypt)
      requires view(dst[..d], next[..], src[s..])
      modifies this`outUsed, next, out, dst
      ensures n > 0 && Ready(dst, d + n, src, s + n)
      ensures view(dst[..d + n], next[..], src[s + n..])
    {
      n := if src.Length - s < BLOCK_SIZE then src.Length - s else BLOCK_SIZE;
      ghost var before, iv, rest := dst[..d], next[..], src[s..];
      assert src[s..s + n] == rest[..n];
      Segment(dst, d, src, s, n);
      assert dst[..d + n] == before + Xor(rest[..n], e(iv)) by {
        assert dst[..d + n] == dst[..d] + dst[d..d + n];
        assert dst[..d] == before;
      }
      assert src[s + n..] == rest[n..];
    }

    /** The loop of XORKeyStream, as a tail call. */
    method Rounds(dst: array<bv8>, d: nat, src: array<bv8>, s: nat, ghost view: (Bytes, Block, Bytes) -> bool)
      requires Ready(dst, d, src, s) && KeptBySegments(view, e, decrypt)
      requires view(dst[..d], next[..], src[s..])
      modifies this`outUsed, next, out, dst
      decreases src.Length - s
      ensures Ready(dst, dst.Length, src, src.Length) && view(dst[..dst.Length], next[..], src[src.Length..])
    {
      if s < src.Length {
        var n := Round(dst, d, src, s, view);
        Rounds(dst, d + n, src, s + n, view);
      }
    }

    /** XORKeyStream of a new stream: in place or not, dst gets the same. */
    method XORKeyStream(dst: array<bv8>, d: nat, src: array<bv8>, s: nat)
      requires Ready(dst, d, src, s)
      modifies this`outUsed, next, out, dst
      ensures dst[..] == old(dst[..d]) + Mode(e, decrypt, old(next[..]), old(src[s..]))
    {
      ghost var whole := dst[..d] + Mode(e, decrypt, next[..], src[s..]);
      ghost var view := (done: Bytes, iv: Block, rest: Bytes) => done + Mode(e, decrypt, iv, rest) == whole;
      assert KeptBySegments(view, e, decrypt) by {
        forall done: Bytes, iv: Block, next: Block, rest: Bytes, n: nat |
            && 0 < n <= |rest| && (n == BLOCK_SIZE || n == |rest| < BLOCK_SIZE)
            && (n == BLOCK_SIZE ==> next == if decrypt then rest[..n] else Xor(rest[..n], e(iv)))
            && view(done, iv, rest)
          ensures view(done + Xor(rest[..n], e(iv)), next, rest[n..])
        {
          NextSegment(e, decrypt, done, iv, next, rest, n);
        }
      }
      Rounds(dst, d, src, s, view);
      assert dst[..dst.Length] + Mode(e, decrypt, next[..], []) == dst[..];
    }
  }
}

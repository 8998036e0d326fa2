/** pkg/simplecrypto: a random IV followed by the payload under AES in CFB mode, with a MAC over
    both. AES and HMAC-SHA256 are arbitrary functions, and what the random source delivers is a
    parameter (nothing, when it fails). */
module SimpleCrypto {
  import opened Cfb
  import opened Options

  type Cipher = f: (Bytes, Bytes) -> Bytes | forall k, b :: |b| == BLOCK_SIZE ==> |f(k, b)| == BLOCK_SIZE
    witness (k: Bytes, b: Bytes) => b

  type Mac = (Bytes, Bytes) -> Bytes

  datatype Error = KeySizeError(n: nat) | NoRandomness | CiphertextTooShort | HMACDoesNotMatch

  predicate KeyOk(key: Bytes) {
    |key| == 16 || |key| == 24 || |key| == 32
  }

  /** aes.NewCipher */
  function NewCipher(aes: Cipher, key: Bytes): BlockFn {
    b => aes(key, b)
  }

  /** An IV and the payload encrypted with it. */
  ghost function Sealed(aes: Cipher, key: Bytes, iv: Block, payload: Bytes): Bytes {
    iv + Encrypted(NewCipher(aes, key), iv, payload)
  }

  ghost function Opened(aes: Cipher, key: Bytes, c: Bytes): Bytes
    requires |c| >= BLOCK_SIZE
  {
    Decrypted(NewCipher(aes, key), c[..BLOCK_SIZE], c[BLOCK_SIZE..])
  }

  /** A sealed payload, byte by byte: after the IV, each byte is a payload byte under the key stream
      that the cipher makes of the block of the ciphertext sixteen bytes before. */
  lemma SealedByte(aes: Cipher, key: Bytes, iv: Block, payload: Bytes, j: nat)
    requires j < |payload|
    ensures var c := Sealed(aes, key, iv, payload); var k := j / BLOCK_SIZE * BLOCK_SIZE;
      && |c| == BLOCK_SIZE + |payload| && c[..BLOCK_SIZE] == iv
      && c[BLOCK_SIZE + j] == payload[j] ^ aes(key, c[k..k + BLOCK_SIZE])[j % BLOCK_SIZE]
  {
    EncryptedByte(NewCipher(aes, key), iv, payload, j / BLOCK_SIZE * BLOCK_SIZE, j % BLOCK_SIZE);
  }

  /** Opening undoes sealing, and each ciphertext of at least one block is the sealing of exactly
      one payload under its own IV. */
  lemma OpenedIff(aes: Cipher, key: Bytes, c: Bytes, p: Bytes)
    requires |c| >= BLOCK_SIZE
    ensures Opened(aes, key, c) == p <==> c == Sealed(aes, key, c[..BLOCK_SIZE], p)
    ensures Opened(aes, key, c) == p ==> |c| == BLOCK_SIZE + |p|
  {
    var iv, tail := c[..BLOCK_SIZE], c[BLOCK_SIZE..];
    assert c == iv + tail;
    var e := NewCipher(aes, key);
    CfbIsBijective(e, iv, tail, p);
    BehindFront(iv, tail, Decrypted(e, iv, tail), p, Encrypted(e, iv, p));
  }

  lemma BehindFront(iv: Bytes, tail: Bytes, plain: Bytes, p: Bytes, closed: Bytes)
    requires (plain == p <==> tail == closed) && |closed| == |p|
    ensures plain == p <==> iv + tail == iv + closed
    ensures plain == p ==> |iv + tail| == |iv| + |p|
  {
    assert (iv + tail)[|iv|..] == tail;
    assert (iv + closed)[|iv|..] == closed;
  }

  /** Byte j of the payload, `x`, is in the ciphertext as it should. */
  ghost predicate SealedAt(aes: Cipher, key: Bytes, c: Bytes, x: bv8, j: nat)
    requires BLOCK_SIZE + j < |c|
  {
    var k := j / BLOCK_SIZE * BLOCK_SIZE;
    c[BLOCK_SIZE + j] == x ^ aes(key, c[k..k + BLOCK_SIZE])[j % BLOCK_SIZE]
  }

  method Encrypt(aes: Cipher, key: Bytes, payload: array<bv8>, random: Option<Block>)
    returns (ciphertext: array<bv8>, err: Option<Error>)
    ensures err == if |key| != 16 && |key| != 24 && |key| != 32 then Some(KeySizeError(|key|))
      else if random.None? then Some(NoRandomness) else None
    ensures fresh(ciphertext)
    ensures ciphertext[..] == if err.None? then Sealed(aes, key, random.value, payload[..]) else []
    ensures err.None? ==> ciphertext.Length == BLOCK_SIZE + payload.Length && ciphertext[..BLOCK_SIZE] == random.value
    ensures err.None? ==> forall j :: 0 <= j < payload.Length ==> SealedAt(aes, key, ciphertext[..], payload[j], j)
  {
    ciphertext := new bv8[0];
    if !KeyOk(key) {
      return ciphertext, Some(KeySizeError(|key|));
    }
    if random.None? {
      return ciphertext, Some(NoRandomness);
    }
    var iv := random.value;
    ciphertext := new bv8[BLOCK_SIZE + payload.Length](i => if 0 <= i < BLOCK_SIZE then iv[i] else 0);
    assert ciphertext[..BLOCK_SIZE] == iv;
    var stream := new Stream(NewCipher(aes, key), iv, false);
    assert payload[0..] == payload[..];
    stream.XORKeyStream(ciphertext, BLOCK_SIZE, payload, 0);
    err := None;
    forall j | 0 <= j < payload.Length ensures SealedAt(aes, key, ciphertext[..], payload[j], j) {
      SealedByte(aes, key, iv, payload[..], j);
    }
  }

  /** The payload is what the ciphertext holds after its first block: it is decrypted in place. */
  method Decrypt(aes: Cipher, key: Bytes, ciphertext: array<bv8>) returns (err: Option<Error>)
    modifies ciphertext
    ensures err == if |key| != 16 && |key| != 24 && |key| != 32 then Some(KeySizeError(|key|))
      else if ciphertext.Length < BLOCK_SIZE then Some(CiphertextTooShort) else None
    ensures err.Some? ==> ciphertext[..] == old(ciphertext[..])
    ensures err.None? ==>
      ciphertext[..] == old(ciphertext[..BLOCK_SIZE]) + Opened(aes, key, old(ciphertext[..]))
  {
    if !KeyOk(key) {
      return Some(KeySizeError(|key|));
    }
    if ciphertext.Length < BLOCK_SIZE {
      return Some(CiphertextTooShort);
    }
    assert ciphertext[..][..BLOCK_SIZE] == ciphertext[..BLOCK_SIZE];
    assert ciphertext[..][BLOCK_SIZE..] == ciphertext[BLOCK_SIZE..];
    var stream := new Stream(NewCipher(aes, key), ciphertext[..BLOCK_SIZE], true);
    stream.XORKeyStream(ciphertext, BLOCK_SIZE, ciphertext, BLOCK_SIZE);
    err := None;
  }

  predicate CheckMAC(mac: Mac, key: Bytes, message: Bytes, messageMAC: Bytes) {
    messageMAC == mac(key, message)
  }

  method EncryptAndHMAC(aes: Cipher, mac: Mac, key: Bytes, payload: array<bv8>, random: Option<Block>)
    returns (ciphertext: array<bv8>, hmac: Bytes, err: Option<Error>)
    ensures err == if |key| != 16 && |key| != 24 && |key| != 32 then Some(KeySizeError(|key|))
      else if random.None? then Some(NoRandomness) else None
    ensures fresh(ciphertext)
    ensures ciphertext[..] == if err.None? then Sealed(aes, key, random.value, payload[..]) else []
    ensures hmac == if err.None? then mac(key, ciphertext[..]) else []
  {
    ciphertext, err := Encrypt(aes, key, payload, random);
    hmac := if err.Some? then [] else mac(key, ciphertext[..]);
  }

  method CheckAndDecrypt(aes: Cipher, mac: Mac, key: Bytes, ciphertext: array<bv8>, hmac: Bytes)
    returns (err: Option<Error>)
    modifies ciphertext
    ensures err == if hmac != mac(key, old(ciphertext[..])) then Some(HMACDoesNotMatch)
      else if |key| != 16 && |key| != 24 && |key| != 32 then Some(KeySizeError(|key|))
      else if ciphertext.Length < BLOCK_SIZE then Some(CiphertextTooShort) else None
    ensures err.Some? ==> ciphertext[..] == old(ciphertext[..])
    ensures err.None? ==>
      ciphertext[..] == old(ciphertext[..BLOCK_SIZE]) + Opened(aes, key, old(ciphertext[..]))
  {
    if !CheckMAC(mac, key, ciphertext[..], hmac) {
      return Some(HMACDoesNotMatch);
    }
    err := Decrypt(aes, key, ciphertext);
  }

  /** What the package is for: with a key of a right size and a working random source, the payload
      comes back, with a ciphertext one block longer. */
  method RoundTrip(aes: Cipher, mac: Mac, key: Bytes, payload: array<bv8>, iv: Block)
    returns (ciphertext: array<bv8>, fault: Option<Error>)
    ensures fault.None? <==> |key| == 16 || |key| == 24 || |key| == 32
    ensures fault.None? ==> ciphertext.Length == BLOCK_SIZE + payload.Length && ciphertext[BLOCK_SIZE..] == payload[..]
  {
    var hmac;
    ciphertext, hmac, fault := EncryptAndHMAC(aes, mac, key, payload, Some(iv));
    if fault.None? {
      ghost var c := ciphertext[..];
      assert c[..BLOCK_SIZE] == iv;
      OpenedIff(aes, key, c, payload[..]);
      fault := CheckAndDecrypt(aes, mac, key, ciphertext, hmac);
      assert ciphertext[BLOCK_SIZE..] == ciphertext[..][BLOCK_SIZE..];
    }
  }
}

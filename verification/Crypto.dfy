/**
  Cipher block chaining over an abstract block cipher (internal/online/bitdemon/crypto.go; the mode
  is the one of section 6.2 of NIST SP 800-38A).
 */
module Crypto {
  import opened Bytes
  import opened Bits

  const KEY_SIZE := 24
  const BLOCK_SIZE := 8
  const MAC_SIZE := 4

  type Bytestring = seq<byte>

  /**
    The uninterpreted primitives: a block cipher and its inverse, the initialization vector derived
    from a counter, and the truncated message authentication code.
   */
  datatype Primitives = Primitives(
    encrypt: (Bytestring, Bytestring) -> Bytestring,
    decrypt: (Bytestring, Bytestring) -> Bytestring,
    deriveIV: u32 -> Bytestring,
    mac: (Bytestring, Bytestring) -> Bytestring)

  /** For every key the cipher permutes the blocks, and the other two results have their sizes. */
  ghost predicate Sound(p: Primitives) {
    && (forall key, block: Bytestring :: IsKey(key) && IsBlock(block) ==> Undoes(p, key, block))
    && (forall seed: u32 :: IsBlock(p.deriveIV(seed)))
    && (forall key, payload :: |p.mac(key, payload)| == MAC_SIZE)
  }

  lemma SoundIV(p: Primitives, seed: u32)
    requires Sound(p)
    ensures IsBlock(p.deriveIV(seed))
  {}

  predicate IsKey(key: Bytestring) { |key| == KEY_SIZE }

  type SessionKey = key: Bytestring | IsKey(key) witness Repeat(0, KEY_SIZE)

  predicate IsBlock(block: Bytestring) { |block| == BLOCK_SIZE }

  predicate Undoes(p: Primitives, key: Bytestring, block: Bytestring) {
    && IsBlock(p.encrypt(key, block)) && p.decrypt(key, p.encrypt(key, block)) == block
    && IsBlock(p.decrypt(key, block)) && p.encrypt(key, p.decrypt(key, block)) == block
  }

  // ---------- exclusive or ----------

  function Xor(a: byte, b: byte): (r: byte) {
    ByteOf(XorBits(BitsOf(a, 8), BitsOf(b, 8)))
  }

  lemma XorTwice(a: byte, b: byte)
    ensures Xor(a, Xor(a, b)) == b
  {
    Pow2Of8();
    ValueOfBits(b, 8);
    BitsOfValue(XorBits(BitsOf(a, 8), BitsOf(b, 8)));
    hide BitsOf, ValueOf, Pow2;
    var mixed := XorBits(BitsOf(a, 8), BitsOf(b, 8));
    assert BitsOf(Xor(a, b), 8) == mixed;
    assert XorBits(BitsOf(a, 8), mixed) == BitsOf(b, 8);
  }

  function XorBlock(a: Bytestring, b: Bytestring): (r: Bytestring)
    requires IsBlock(a) && IsBlock(b)
    ensures IsBlock(r)
  {
    seq(BLOCK_SIZE, i requires 0 <= i < BLOCK_SIZE => Xor(a[i], b[i]))
  }

  lemma XorBlockTwice(a: Bytestring, b: Bytestring)
    requires IsBlock(a) && IsBlock(b)
    ensures XorBlock(a, XorBlock(a, b)) == b
  {
    hide Xor;
    forall i | 0 <= i < BLOCK_SIZE ensures Xor(a[i], Xor(a[i], b[i])) == b[i] {
      XorTwice(a[i], b[i]);
    }
  }

  // ---------- chaining ----------

  predicate Whole(s: Bytestring) { |s| % BLOCK_SIZE == 0 }

  function Chain(p: Primitives, key: Bytestring, iv: Bytestring, plaintext: Bytestring): (r: Bytestring)
    requires Sound(p) && IsKey(key) && IsBlock(iv) && Whole(plaintext)
    ensures |r| == |plaintext|
    decreases |plaintext|
  {
    if plaintext == [] then []
    else
      var mixed := XorBlock(iv, plaintext[..BLOCK_SIZE]);
      assert Undoes(p, key, mixed);
      var block := p.encrypt(key, mixed);
      block + Chain(p, key, block, plaintext[BLOCK_SIZE..])
  }

  function Unchain(p: Primitives, key: Bytestring, iv: Bytestring, ciphertext: Bytestring): (r: Bytestring)
    requires Sound(p) && IsKey(key) && IsBlock(iv) && Whole(ciphertext)
    ensures |r| == |ciphertext|
    decreases |ciphertext|
  {
    if ciphertext == [] then []
    else
      var block := ciphertext[..BLOCK_SIZE];
      assert Undoes(p, key, block);
      XorBlock(iv, p.decrypt(key, block)) + Unchain(p, key, block, ciphertext[BLOCK_SIZE..])
  }

  lemma {:induction false} UnchainChain(p: Primitives, key: Bytestring, iv: Bytestring, plaintext: Bytestring)
    requires Sound(p) && IsKey(key) && IsBlock(iv) && Whole(plaintext)
    ensures Unchain(p, key, iv, Chain(p, key, iv, plaintext)) == plaintext
    decreases |plaintext|
  {
    hide XorBlock;
    if plaintext != [] {
      var head, tail := plaintext[..BLOCK_SIZE], plaintext[BLOCK_SIZE..];
      var mixed := XorBlock(iv, head);
      assert Undoes(p, key, mixed);
      var block := p.encrypt(key, mixed);
      UnchainChain(p, key, block, tail);
      XorBlockTwice(iv, head);
      var rest := Chain(p, key, block, tail);
      assert (block + rest)[..BLOCK_SIZE] == block && (block + rest)[BLOCK_SIZE..] == rest;
      assert plaintext == head + tail;
    }
  }

  lemma {:induction false} ChainUnchain(p: Primitives, key: Bytestring, iv: Bytestring, ciphertext: Bytestring)
    requires Sound(p) && IsKey(key) && IsBlock(iv) && Whole(ciphertext)
    ensures Chain(p, key, iv, Unchain(p, key, iv, ciphertext)) == ciphertext
    decreases |ciphertext|
  {
    hide XorBlock;
    if ciphertext != [] {
      var block, tail := ciphertext[..BLOCK_SIZE], ciphertext[BLOCK_SIZE..];
      assert Undoes(p, key, block);
      var clear := p.decrypt(key, block);
      var head, rest := XorBlock(iv, clear), Unchain(p, key, block, tail);
      ChainUnchain(p, key, block, tail);
      XorBlockTwice(iv, clear);
      assert (head + rest)[..BLOCK_SIZE] == head && (head + rest)[BLOCK_SIZE..] == rest;
      assert ciphertext == block + tail;
    }
  }

  datatype Error = InvalidSessionKey | InvalidBlockLength

  /** Encrypt3DESCBC. */
  function EncryptCBC(p: Primitives, key: Bytestring, iv: Bytestring, plaintext: Bytestring): (r: Result<Bytestring, Error>)
    requires Sound(p) && IsBlock(iv)
  {
    if !IsKey(key) then Err(InvalidSessionKey)
    else if !Whole(plaintext) then Err(InvalidBlockLength)
    else Ok(Chain(p, key, iv, plaintext))
  }

  /** Decrypt3DESCBC. */
  function DecryptCBC(p: Primitives, key: Bytestring, iv: Bytestring, ciphertext: Bytestring): (r: Result<Bytestring, Error>)
    requires Sound(p) && IsBlock(iv)
  {
    if !IsKey(key) then Err(InvalidSessionKey)
    else if !Whole(ciphertext) then Err(InvalidBlockLength)
    else Ok(Unchain(p, key, iv, ciphertext))
  }

  /** Under one key and initialization vector, encryption and decryption are inverse in both directions. */
  lemma EncryptDecryptInverse(p: Primitives, key: Bytestring, iv: Bytestring, plaintext: Bytestring, ciphertext: Bytestring)
    requires Sound(p) && IsBlock(iv)
    ensures EncryptCBC(p, key, iv, plaintext) == Ok(ciphertext) <==> DecryptCBC(p, key, iv, ciphertext) == Ok(plaintext)
    ensures EncryptCBC(p, key, iv, plaintext).Err? ==> EncryptCBC(p, key, iv, plaintext) == DecryptCBC(p, key, iv, plaintext)
    ensures EncryptCBC(p, key, iv, plaintext) == Ok(ciphertext) ==> |ciphertext| == |plaintext|
  {
    hide Sound;
    if IsKey(key) && Whole(plaintext) { UnchainChain(p, key, iv, plaintext); }
    if IsKey(key) && Whole(ciphertext) { ChainUnchain(p, key, iv, ciphertext); }
  }

  // ---------- the mode, block by block ----------

  /** XorBlock is the exclusive or of all bits. */
  lemma BitOfXorBlock(a: Bytestring, b: Bytestring, k: nat, j: nat)
    requires IsBlock(a) && IsBlock(b) && k < BLOCK_SIZE && j < 8
    ensures Bit(XorBlock(a, b)[k], j) <==> Bit(a[k], j) != Bit(b[k], j)
  {
    var mixed := XorBits(BitsOf(a[k], 8), BitsOf(b[k], 8));
    BitsAre(a[k], 8, j);
    BitsAre(b[k], 8, j);
    BitsOfValue(mixed);
    BitsAre(ValueOf(mixed), 8, j);
  }

  /** Block number i of s. */
  function BlockOf(s: Bytestring, i: nat): (b: Bytestring)
    requires BLOCK_SIZE * i + BLOCK_SIZE <= |s|
    ensures IsBlock(b)
  {
    s[BLOCK_SIZE * i..BLOCK_SIZE * i + BLOCK_SIZE]
  }

  /** Every block of the ciphertext is the encryption of the plaintext's block mixed with the ciphertext's block before it. */
  ghost predicate IsCBC(p: Primitives, key: Bytestring, iv: Bytestring, plaintext: Bytestring, ciphertext: Bytestring)
    requires IsBlock(iv)
  {
    && |ciphertext| == |plaintext|
    && forall i | 0 <= i < |plaintext| / BLOCK_SIZE :: IsLink(p, key, iv, plaintext, ciphertext, i)
  }

  ghost predicate IsLink(p: Primitives, key: Bytestring, iv: Bytestring, plaintext: Bytestring, ciphertext: Bytestring, i: nat)
    requires IsBlock(iv) && |ciphertext| == |plaintext| && i < |plaintext| / BLOCK_SIZE
  {
    var before := if i == 0 then iv else BlockOf(ciphertext, i - 1);
    BlockOf(ciphertext, i) == p.encrypt(key, XorBlock(before, BlockOf(plaintext, i)))
  }

  lemma BlocksBehind(head: Bytestring, tail: Bytestring, i: nat)
    requires IsBlock(head) && Whole(tail) && i < |head + tail| / BLOCK_SIZE
    ensures BlockOf(head + tail, i) == if i == 0 then head else BlockOf(tail, i - 1)
  {}

  lemma ChainStep(p: Primitives, key: Bytestring, iv: Bytestring, head: Bytestring, tail: Bytestring)
    requires Sound(p) && IsKey(key) && IsBlock(iv) && IsBlock(head) && Whole(tail)
    ensures var block := p.encrypt(key, XorBlock(iv, head));
            IsBlock(block) && Chain(p, key, iv, head + tail) == block + Chain(p, key, block, tail)
  {
    assert Undoes(p, key, XorBlock(iv, head));
    assert (head + tail)[..BLOCK_SIZE] == head && (head + tail)[BLOCK_SIZE..] == tail;
    hide Sound, Undoes, XorBlock;
  }

  lemma {:induction false} ChainLinks(p: Primitives, key: Bytestring, iv: Bytestring, plaintext: Bytestring, i: nat)
    requires Sound(p) && IsKey(key) && IsBlock(iv) && Whole(plaintext) && i < |plaintext| / BLOCK_SIZE
    ensures IsLink(p, key, iv, plaintext, Chain(p, key, iv, plaintext), i)
    decreases i
  {
    hide Sound, XorBlock, Chain, BlockOf;
    var head, tail := plaintext[..BLOCK_SIZE], plaintext[BLOCK_SIZE..];
    assert plaintext == head + tail;
    ChainStep(p, key, iv, head, tail);
    var block := p.encrypt(key, XorBlock(iv, head));
    var rest := Chain(p, key, block, tail);
    BlocksBehind(head, tail, i);
    BlocksBehind(block, rest, i);
    if i > 0 {
      ChainLinks(p, key, block, tail, i - 1);
      BlocksBehind(block, rest, i - 1);
    }
  }

  lemma {:induction false} SameBlocks(p: Primitives, key: Bytestring, iv: Bytestring, plaintext: Bytestring,
                                      c: Bytestring, d: Bytestring, i: nat)
    requires IsBlock(iv) && IsCBC(p, key, iv, plaintext, c) && IsCBC(p, key, iv, plaintext, d) && i < |plaintext| / BLOCK_SIZE
    ensures BlockOf(c, i) == BlockOf(d, i)
  {
    hide XorBlock, BlockOf;
    if i > 0 { SameBlocks(p, key, iv, plaintext, c, d, i - 1); }
    assert IsLink(p, key, iv, plaintext, c, i) && IsLink(p, key, iv, plaintext, d, i);
  }

  lemma EqualByBlocks(c: Bytestring, d: Bytestring)
    requires Whole(c) && |c| == |d| && forall i | 0 <= i < |c| / BLOCK_SIZE :: BlockOf(c, i) == BlockOf(d, i)
    ensures c == d
  {
    forall n | 0 <= n < |c| ensures c[n] == d[n] {
      assert BlockOf(c, n / BLOCK_SIZE)[n % BLOCK_SIZE] == BlockOf(d, n / BLOCK_SIZE)[n % BLOCK_SIZE];
    }
  }

  /** Encryption and decryption are cipher block chaining and nothing else. */
  lemma ChainedExactly(p: Primitives, key: Bytestring, iv: Bytestring, plaintext: Bytestring, ciphertext: Bytestring)
    requires Sound(p) && IsBlock(iv)
    ensures EncryptCBC(p, key, iv, plaintext) == Ok(ciphertext)
            <==> IsKey(key) && Whole(plaintext) && IsCBC(p, key, iv, plaintext, ciphertext)
    ensures DecryptCBC(p, key, iv, ciphertext) == Ok(plaintext)
            <==> IsKey(key) && Whole(plaintext) && IsCBC(p, key, iv, plaintext, ciphertext)
  {
    EncryptDecryptInverse(p, key, iv, plaintext, ciphertext);
    hide Sound, IsLink;
    if IsKey(key) && Whole(plaintext) {
      var c := Chain(p, key, iv, plaintext);
      forall i | 0 <= i < |plaintext| / BLOCK_SIZE ensures IsLink(p, key, iv, plaintext, c, i) {
        ChainLinks(p, key, iv, plaintext, i);
      }
      if IsCBC(p, key, iv, plaintext, ciphertext) {
        forall i | 0 <= i < |c| / BLOCK_SIZE ensures BlockOf(c, i) == BlockOf(ciphertext, i) {
          SameBlocks(p, key, iv, plaintext, c, ciphertext, i);
        }
        EqualByBlocks(c, ciphertext);
      }
    }
  }

  // ---------- padding ----------

  /** PadTo3DESBlock: the length rounds up by clearing the low three bits of length + 7. */
  function PadTo3DESBlock(payload: Bytestring): (r: Bytestring) {
    var paddedLength := (|payload| + BLOCK_SIZE - 1) - (|payload| + BLOCK_SIZE - 1) % BLOCK_SIZE;
    payload + Repeat(0, paddedLength - |payload|)
  }

  /**
    The padded string is the only one of a whole number of blocks that extends the payload by fewer
    than a block of zeros, and the payload itself when that is whole already.
   */
  lemma PaddingExact(payload: Bytestring, r: Bytestring)
    ensures r == PadTo3DESBlock(payload)
            <==> Whole(r) && payload <= r && |r| - |payload| < BLOCK_SIZE && AllZero(r[|payload|..])
  {
    var padded := PadTo3DESBlock(payload);
    assert padded[|payload|..] == Repeat(0, |padded| - |payload|);
    assert padded[..|payload|] == payload;
    if Whole(r) && payload <= r && |r| - |payload| < BLOCK_SIZE && AllZero(r[|payload|..]) {
      assert |r| == |padded|;
      assert r[|payload|..] == padded[|payload|..];
      assert r == r[..|payload|] + r[|payload|..];
      assert padded == padded[..|payload|] + padded[|payload|..];
    }
  }
}

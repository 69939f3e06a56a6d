/** Keyed BLAKE2s as neoscrypt streams it, against section 3.3 of RFC 7693. The compression function is left open. */
module Blake2s {
  import opened Bytes

  /** Chaining value, block, byte counter modulo 2^32, last-block flag. */
  type Compress = (Digest, Block, nat, bool) -> Digest

  const WORD: nat := 0x1_0000_0000

  // ---------------------------------------------------------------- one message, block by block

  /** How many blocks come before the last one, which is never empty unless the message is. */
  function Before(n: nat): nat { if n == 0 then 0 else (n - 1) / BLOCK_SIZE }

  /** The chaining value after the first `k` blocks, none of them last. */
  function Body(c: Compress, h: Digest, data: seq<byte>, k: nat): Digest
    requires BLOCK_SIZE * k <= |data|
  {
    if k == 0 then h
    else c(Body(c, h, data, k - 1), data[BLOCK_SIZE * (k - 1)..BLOCK_SIZE * k], (BLOCK_SIZE * k) % WORD, false)
  }

  /** The whole message: the last block padded with zeros, under the total length. */
  function Full(c: Compress, h: Digest, data: seq<byte>): Digest {
    var k := Before(|data|);
    c(Body(c, h, data, k), Padded(data[BLOCK_SIZE * k..]), |data| % WORD, true)
  }

  function Padded(s: seq<byte>): Block
    requires |s| <= BLOCK_SIZE
  {
    s + Zeros(BLOCK_SIZE - |s|)
  }

  lemma {:induction false} BodyOfPrefix(c: Compress, h: Digest, data: seq<byte>, more: seq<byte>, k: nat)
    requires BLOCK_SIZE * k <= |data|
    ensures Body(c, h, data + more, k) == Body(c, h, data, k)
  {
    if k > 0 {
      BodyOfPrefix(c, h, data, more, k - 1);
      assert (data + more)[BLOCK_SIZE * (k - 1)..BLOCK_SIZE * k] == data[BLOCK_SIZE * (k - 1)..BLOCK_SIZE * k];
    }
  }

  // ---------------------------------------------------------------- the streaming state

  class Blake2sState {
    const compress: Compress
    const buf: array<byte>
    var h: Digest
    var t0: nat
    var f0: bool
    var buflen: nat
    ghost const h0: Digest
    ghost var data: seq<byte>
    ghost var done: nat

    /** `done` blocks of the data fed so far are compressed; the rest is buffered, and something is unless nothing
        was fed. */
    ghost predicate Valid()
      reads this, buf
    {
      && buf.Length == 2 * BLOCK_SIZE && buflen <= 2 * BLOCK_SIZE && !f0
      && |data| == BLOCK_SIZE * done + buflen && (done > 0 ==> buflen > 0)
      && buf[..buflen] == data[BLOCK_SIZE * done..]
      && t0 == (BLOCK_SIZE * done) % WORD && h == Body(compress, h0, data, done)
    }

    constructor (compress: Compress, h: Digest)
      ensures Valid() && data == [] && h0 == h && this.compress == compress && fresh(buf)
    {
      this.compress, this.h, h0 := compress, h, h;
      t0, f0, buflen, data, done := 0, false, 0, [], 0;
      buf := new byte[2 * BLOCK_SIZE](_ => 0);
    }

    method Compress()
      requires buf.Length >= BLOCK_SIZE
      modifies this`h
      ensures h == compress(old(h), buf[..BLOCK_SIZE], t0, f0)
    {
      h := compress(h, buf[..BLOCK_SIZE], t0, f0);
    }

    /** Buffer some input that fits. */
    method Append(src: seq<byte>)
      requires Valid() && buflen + |src| <= 2 * BLOCK_SIZE
      modifies this`buflen, this`data, buf
      ensures Valid() && data == old(data) + src && buflen == old(buflen) + |src|
    {
      BodyOfPrefix(compress, h0, data, src, done);
      Copy(buf, buflen, src);
      buflen := buflen + |src|;
      data := data + src;
      assert buf[..buflen] == old(buf[..buflen]) + src;
      assert data[BLOCK_SIZE * done..] == old(data)[BLOCK_SIZE * done..] + src;
    }

    /** Compress the first buffered block, knowing that it is not the last, and move up the rest. */
    method CompressFirst()
      requires Valid() && buflen > BLOCK_SIZE
      modifies this`h, this`t0, this`buflen, this`done, buf
      ensures Valid() && buflen == old(buflen) - BLOCK_SIZE && done == old(done) + 1
    {
      ghost var held := buf[..buflen];
      BlockStep(compress, h0, data, done, held);
      hide Body;
      t0 := (t0 + BLOCK_SIZE) % WORD;
      assert buf[..BLOCK_SIZE] == held[..BLOCK_SIZE] && buf[BLOCK_SIZE..buflen] == held[BLOCK_SIZE..];
      Compress();
      Copy(buf, 0, buf[BLOCK_SIZE..buflen]);
      buflen := buflen - BLOCK_SIZE;
      done := done + 1;
      assert buf[..buflen] == held[BLOCK_SIZE..];
    }

    /** blake2s_update: however the input is cut into calls, only what was fed altogether matters. */
    method Update(input: seq<byte>)
      requires Valid()
      modifies this`h, this`t0, this`buflen, this`data, this`done, buf
      ensures Valid() && data == old(data) + input
    {
      var i := 0;
      ghost var base := data;
      assert buflen <= 2 * BLOCK_SIZE;
      hide Valid;
      while i < |input|
        invariant 0 <= i <= |input| && Valid() && buflen <= 2 * BLOCK_SIZE && data == base + input[..i]
        decreases |input| - i, buflen
      {
        var fill := 2 * BLOCK_SIZE - buflen;
        if |input| - i > fill {
          Append(input[i..i + fill]);
          NextPiece(base, input, i, i + fill);
          CompressFirst();
          i := i + fill;
        } else {
          Append(input[i..]);
          NextPiece(base, input, i, |input|);
          i := |input|;
        }
      }
      assert input[..|input|] == input;
    }

    /** The end of neoscrypt_blake2s. */
    method Finish()
      requires Valid()
      modifies this`h, this`t0, this`f0, this`buflen, this`done, buf
      ensures h == Full(compress, h0, data)
    {
      assert buflen <= 2 * BLOCK_SIZE;
      hide Full;
      if buflen > BLOCK_SIZE {
        CompressFirst();
      }
      FinishLast();
    }

    /** The last block, padded. */
    method FinishLast()
      requires Valid() && buflen <= BLOCK_SIZE
      modifies this`h, this`t0, this`f0, buf
      ensures h == Full(compress, h0, data)
    {
      FullFrom(compress, h0, data, done);
      hide Body, Full, Padded, Overwritten, Zeros;
      t0 := (t0 + buflen) % WORD;
      f0 := true;
      ghost var b := buf[..];
      assert b[..buflen] == buf[..buflen];
      Erase(buf, buflen, 2 * BLOCK_SIZE - buflen);
      ErasedIsPadded(b, buf[..], buflen);
      assert buf[..][..BLOCK_SIZE] == buf[..BLOCK_SIZE];
      Compress();
    }
  }

  lemma ErasedIsPadded(b: seq<byte>, b': seq<byte>, n: nat)
    requires n <= BLOCK_SIZE && |b| == 2 * BLOCK_SIZE && b' == Overwritten(b, n, Zeros(2 * BLOCK_SIZE - n))
    ensures b'[..BLOCK_SIZE] == Padded(b[..n])
  {
  }

  lemma BlockStep(c: Compress, h: Digest, data: seq<byte>, done: nat, held: seq<byte>)
    requires BLOCK_SIZE * done <= |data| && held == data[BLOCK_SIZE * done..] && |held| > BLOCK_SIZE
    ensures Body(c, h, data, done + 1)
            == c(Body(c, h, data, done), held[..BLOCK_SIZE], ((BLOCK_SIZE * done) % WORD + BLOCK_SIZE) % WORD, false)
    ensures (BLOCK_SIZE * (done + 1)) % WORD == ((BLOCK_SIZE * done) % WORD + BLOCK_SIZE) % WORD
    ensures held[BLOCK_SIZE..] == data[BLOCK_SIZE * (done + 1)..]
  {
    SliceOfTail(data, BLOCK_SIZE * done, 0, BLOCK_SIZE);
    SliceOfTail(data, BLOCK_SIZE * done, BLOCK_SIZE, |data| - BLOCK_SIZE * done);
    WrapsAlike(BLOCK_SIZE * done, BLOCK_SIZE);
  }

  lemma FullFrom(c: Compress, h: Digest, data: seq<byte>, done: nat)
    requires BLOCK_SIZE * done <= |data| <= BLOCK_SIZE * (done + 1) && (done > 0 ==> BLOCK_SIZE * done < |data|)
    ensures Full(c, h, data) == c(Body(c, h, data, done), Padded(data[BLOCK_SIZE * done..]),
                                  ((BLOCK_SIZE * done) % WORD + (|data| - BLOCK_SIZE * done)) % WORD, true)
  {
    hide Body, Padded;
    BeforeIs(|data|, done);
    WrapsAlike(BLOCK_SIZE * done, |data| - BLOCK_SIZE * done);
  }

  lemma BeforeIs(n: nat, done: nat)
    requires BLOCK_SIZE * done <= n <= BLOCK_SIZE * (done + 1) && (done > 0 ==> BLOCK_SIZE * done < n)
    ensures Before(n) == done
  {
  }

  lemma WrapsAlike(a: nat, b: nat)
    ensures (a + b) % WORD == (a % WORD + b) % WORD
  {
  }

  // ---------------------------------------------------------------- neoscrypt_blake2s

  /** 32 bits as they lie in memory, low byte first. */
  function LE32(w: bv32): (s: seq<byte>)
    ensures |s| == 4
  {
    [(w & 0xFF) as bv8, ((w >> 8) & 0xFF) as bv8, ((w >> 16) & 0xFF) as bv8, ((w >> 24) & 0xFF) as bv8]
  }

  const IV: Digest :=
    LE32(0x6A09E667) + LE32(0xBB67AE85) + LE32(0x3C6EF372) + LE32(0xA54FF53A)
    + LE32(0x510E527F) + LE32(0x9B05688C) + LE32(0x1F83D9AB) + LE32(0x5BE0CD19)

  /** The parameter block: digest and key length, fan-out and depth 1, nothing else. */
  function Params(outLen: byte, keyLen: byte): Digest { [outLen, keyLen, 1, 1] + Zeros(28) }

  function Initial(outLen: byte, keyLen: byte): Digest { XorBytes(IV, Params(outLen, keyLen)) }

  /** The key comes first as a block of its own, even when it is empty. */
  method NeoscryptBlake2s(compress: Compress, input: seq<byte>, key: seq<byte>, outLen: nat) returns (output: seq<byte>)
    requires |key| <= DIGEST_SIZE && outLen <= DIGEST_SIZE
    ensures output == Full(compress, Initial(outLen as bv8, |key| as bv8), Padded(key) + input)[..outLen]
  {
    var block := new byte[BLOCK_SIZE](_ => 0);
    var s := new Blake2sState(compress, Initial(outLen as bv8, |key| as bv8));
    Copy(block, 0, key);
    assert block[..] == Padded(key);
    s.Update(block[..]);
    s.Update(input);
    assert s.data == Padded(key) + input;
    s.Finish();
    output := s.h[..outLen];
  }

  // ---------------------------------------------------------------- RFC 7693

  /** The data blocks d[0..dd) of section 3.3. */
  function RfcBlocks(key: seq<byte>, input: seq<byte>): (d: seq<Block>)
    requires |key| <= BLOCK_SIZE
    ensures |d| > 0
  {
    if key == [] && input == [] then [Zeros(BLOCK_SIZE)]
    else (if key == [] then [] else [Padded(key)]) + Split(input)
  }

  function Split(s: seq<byte>): (d: seq<Block>)
    ensures s == [] <==> d == []
  {
    if s == [] then [] else if |s| <= BLOCK_SIZE then [Padded(s)] else [s[..BLOCK_SIZE]] + Split(s[BLOCK_SIZE..])
  }

  /** The loop over all data blocks but the last. */
  function RfcLoop(c: Compress, h: Digest, d: seq<Block>, i: nat): Digest
    requires i <= |d|
  {
    if i == 0 then h else c(RfcLoop(c, h, d, i - 1), d[i - 1], i * BLOCK_SIZE, false)
  }

  function Rfc7693(c: Compress, h: Digest, key: seq<byte>, input: seq<byte>): Digest
    requires |key| <= BLOCK_SIZE
  {
    var d := RfcBlocks(key, input);
    c(RfcLoop(c, h, d, |d| - 1), d[|d| - 1], |input| + (if key == [] then 0 else BLOCK_SIZE), true)
  }

  lemma {:induction false} SplitSize(s: seq<byte>)
    requires s != []
    ensures |Split(s)| == Before(|s|) + 1 && BLOCK_SIZE * Before(|s|) <= |s|
  {
    if |s| > BLOCK_SIZE {
      SplitSize(s[BLOCK_SIZE..]);
    }
  }

  lemma {:induction false} SplitAt(s: seq<byte>, i: nat)
    requires s != [] && i <= Before(|s|)
    ensures |Split(s)| == Before(|s|) + 1 && BLOCK_SIZE * Before(|s|) <= |s|
    ensures i < Before(|s|) ==> BLOCK_SIZE * (i + 1) <= |s| && Split(s)[i] == s[BLOCK_SIZE * i..BLOCK_SIZE * (i + 1)]
    ensures i == Before(|s|) ==> Split(s)[i] == Padded(s[BLOCK_SIZE * i..])
  {
    SplitSize(s);
    if |s| > BLOCK_SIZE {
      var t := s[BLOCK_SIZE..];
      assert Before(|s|) == Before(|t|) + 1;
      if i > 0 {
        SplitAt(t, i - 1);
        assert Split(s)[i] == Split(t)[i - 1];
        if i < Before(|s|) {
          SliceOfTail(s, BLOCK_SIZE, BLOCK_SIZE * (i - 1), BLOCK_SIZE * i);
        } else {
          SliceOfTail(s, BLOCK_SIZE, BLOCK_SIZE * (i - 1), |t|);
        }
      } else {
        SplitAt(t, 0);
      }
    }
  }

  /** The data blocks of a keyed message are cut from the padded key followed by the input. */
  lemma KeyedBlock(key: seq<byte>, input: seq<byte>, i: nat)
    requires 0 < |key| <= BLOCK_SIZE && i < |RfcBlocks(key, input)| - 1
    ensures |RfcBlocks(key, input)| == Before(|input|) + 2 && BLOCK_SIZE * (i + 1) <= BLOCK_SIZE + |input|
    ensures RfcBlocks(key, input)[i] == (Padded(key) + input)[BLOCK_SIZE * i..BLOCK_SIZE * (i + 1)]
  {
    var data := Padded(key) + input;
    SplitSize(input);
    if i > 0 {
      SplitAt(input, i - 1);
      assert RfcBlocks(key, input)[i] == Split(input)[i - 1];
      assert data[BLOCK_SIZE * i..BLOCK_SIZE * (i + 1)] == input[BLOCK_SIZE * (i - 1)..BLOCK_SIZE * i];
    } else {
      assert data[..BLOCK_SIZE] == Padded(key);
    }
  }

  lemma {:induction false} LoopIsBody(c: Compress, h: Digest, key: seq<byte>, input: seq<byte>, i: nat)
    requires 0 < |key| <= BLOCK_SIZE && i < |RfcBlocks(key, input)| && |input| + BLOCK_SIZE < 0x1_0000_0000
    ensures BLOCK_SIZE * i <= BLOCK_SIZE + |input|
    ensures RfcLoop(c, h, RfcBlocks(key, input), i) == Body(c, h, Padded(key) + input, i)
  {
    if i > 0 {
      LoopIsBody(c, h, key, input, i - 1);
      KeyedBlock(key, input, i - 1);
      hide Padded, RfcBlocks;
    }
  }

  /** With a key, and less than 2^32 bytes altogether, this is the BLAKE2s of the RFC. */
  lemma KeyedIsRfc7693(c: Compress, h: Digest, key: seq<byte>, input: seq<byte>)
    requires 0 < |key| <= BLOCK_SIZE && |input| + BLOCK_SIZE < 0x1_0000_0000
    ensures Full(c, h, Padded(key) + input) == Rfc7693(c, h, key, input)
  {
    var data := Padded(key) + input;
    var d := RfcBlocks(key, input);
    if input == [] {
      assert data == Padded(key) && d == [Padded(key)];
      assert data[BLOCK_SIZE * 0..] == Padded(key) == Padded(data);
    } else {
      SplitSize(input);
      SplitAt(input, Before(|input|));
      assert |d| == Before(|input|) + 2 && Before(|data|) == Before(|input|) + 1;
      LoopIsBody(c, h, key, input, |d| - 1);
      assert data[BLOCK_SIZE * (|d| - 1)..] == input[BLOCK_SIZE * Before(|input|)..];
    }
  }

  /** Without a key the block of zeros goes in regardless: it is the digest of another message. */
  lemma UnkeyedPrependsZeros(c: Compress, h: Digest, input: seq<byte>)
    requires input != [] && |input| + BLOCK_SIZE < 0x1_0000_0000
    ensures Padded([]) + input == Zeros(BLOCK_SIZE) + input
    ensures Full(c, h, Padded([]) + input) == Rfc7693(c, h, Zeros(1), input)
  {
    KeyedIsRfc7693(c, h, Zeros(1), input);
    assert Padded([]) == Padded(Zeros(1));
  }

  function Tell(n: nat, count: nat, last: bool): Digest {
    if last && count == n then Zeros(31) + [1] else Zeros(32)
  }

  /** A compression function that tells the byte counters of the two last blocks apart. */
  function Telling(n: nat): Compress {
    (h, block, count, last) => Tell(n, count, last)
  }

  /** Then the digest is not that of the RFC: its last block counts 64 bytes more, whatever the message and the state. */
  lemma UnkeyedDiffers(h: Digest, input: seq<byte>)
    requires |input| + BLOCK_SIZE < 0x1_0000_0000
    ensures Full(Telling(|input|), h, Padded([]) + input) != Rfc7693(Telling(|input|), h, [], input)
  {
    assert |Padded([]) + input| == BLOCK_SIZE + |input|;
    assert Full(Telling(|input|), h, Padded([]) + input) == Tell(|input|, BLOCK_SIZE + |input|, true);
    assert Rfc7693(Telling(|input|), h, [], input) == Tell(|input|, |input|, true);
    assert Tell(|input|, |input|, true)[31] == 1;
  }

  /** Agreeing with the RFC for every compression function. */
  ghost predicate FollowsRfc(h: Digest, key: seq<byte>, input: seq<byte>)
    requires |key| <= BLOCK_SIZE
  {
    forall c: Compress :: Full(c, h, Padded(key) + input) == Rfc7693(c, h, key, input)
  }

  /** So this is the BLAKE2s of the RFC if and only if there is a key. */
  lemma FollowsRfcIffKeyed(h: Digest, key: seq<byte>, input: seq<byte>)
    requires |key| <= BLOCK_SIZE && |input| + BLOCK_SIZE < 0x1_0000_0000
    ensures FollowsRfc(h, key, input) <==> key != []
  {
    if key == [] {
      UnkeyedDiffers(h, input);
    } else {
      forall c: Compress ensures Full(c, h, Padded(key) + input) == Rfc7693(c, h, key, input) {
        KeyedIsRfc7693(c, h, key, input);
      }
    }
  }

  /** Any way of cutting a message into pieces gives its digest. */
  method HashPieces(compress: Compress, h: Digest, pieces: seq<seq<byte>>) returns (digest: Digest)
    ensures digest == Full(compress, h, Concat(pieces))
  {
    var s := new Blake2sState(compress, h);
    for i := 0 to |pieces|
      invariant s.Valid() && s.data == Concat(pieces[..i]) && s.compress == compress && s.h0 == h && fresh(s) && fresh(s.buf)
    {
      s.Update(pieces[i]);
      assert pieces[..i + 1][..i] == pieces[..i];
    }
    assert pieces[..|pieces|] == pieces;
    s.Finish();
    digest := s.h;
  }
}

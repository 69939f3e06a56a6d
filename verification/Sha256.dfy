/** Streaming SHA-256 against the padding and iteration of FIPS 180-4. The compression of one block is left open. */
module Sha256 {
  import opened Bytes

  /** Hash value and block to the next hash value. */
  type Compression = (Digest, Block) -> Digest

  const LONG: nat := 0x1_0000_0000_0000_0000

  // ---------------------------------------------------------------- FIPS 180-4, sections 5.1.1 and 6.2.2

  /** Enough zeros to leave room for the length in the last block. */
  function ZeroCount(n: nat): (k: nat)
    ensures k < 64 && (n + 1 + k + 8) % 64 == 0
  {
    (55 - n) % 64
  }

  function BE32(w: nat): (s: seq<byte>)
    ensures |s| == 4
  {
    [((w / 0x100_0000) % 256) as bv8, ((w / 0x1_0000) % 256) as bv8, ((w / 0x100) % 256) as bv8, (w % 256) as bv8]
  }

  function BE64(w: nat): (s: seq<byte>)
    ensures |s| == 8
  {
    BE32(w / 0x1_0000_0000) + BE32(w)
  }

  /** The message, a one bit, zeros, and the length in bits. */
  function PadMessage(m: seq<byte>): (p: seq<byte>)
    ensures |p| % 64 == 0
  {
    m + [0x80] + Zeros(ZeroCount(|m|)) + BE64((8 * |m|) % LONG)
  }

  /** The number that bytes are, highest first. */
  ghost function Number(s: seq<byte>): nat {
    if s == [] then 0 else 256 * Number(s[..|s| - 1]) + s[|s| - 1] as nat
  }

  /** What that comes to: the message, the byte 0x80, as few zeros as fill the last block, and in its last eight bytes the
      length in bits, modulo 2^64. */
  lemma PaddingIs(m: seq<byte>)
    ensures var p := PadMessage(m);
            && |p| % 64 == 0 && |m| + 9 <= |p| < |m| + 73 && p[..|m|] == m && p[|m|] == 0x80
            && (forall i :: |m| < i < |p| - 8 ==> p[i] == 0) && Number(p[|p| - 8..]) == (8 * |m|) % 0x1_0000_0000_0000_0000
  {
    Number64((8 * |m|) % 0x1_0000_0000_0000_0000);
    PadsWith(m);
    var z := Zeros(ZeroCount(|m|));
    hide PadMessage, Number, BE64, ZeroCount, Zeros;
    PaddedParts(m, z, BE64((8 * |m|) % LONG));
  }

  lemma PadsWith(m: seq<byte>)
    ensures PadMessage(m) == m + [0x80] + Zeros(ZeroCount(|m|)) + BE64((8 * |m|) % LONG)
    ensures forall i :: 0 <= i < ZeroCount(|m|) ==> Zeros(ZeroCount(|m|))[i] == 0
  {
    hide BE64, ZeroCount;
  }

  lemma PaddedParts(m: seq<byte>, z: seq<byte>, e: seq<byte>)
    requires |e| == 8 && |z| < 64 && (|m| + 1 + |z| + 8) % 64 == 0 && forall i :: 0 <= i < |z| ==> z[i] == 0
    ensures var p := m + [0x80] + z + e;
            && |p| % 64 == 0 && |m| + 9 <= |p| < |m| + 73 && p[..|m|] == m && p[|m|] == 0x80
            && (forall i :: |m| < i < |p| - 8 ==> p[i] == 0) && p[|p| - 8..] == e
  {
    var p := m + [0x80] + z + e;
    forall i | |m| < i < |p| - 8 ensures p[i] == 0 {
      assert p[i] == z[i - |m| - 1];
    }
  }

  lemma Number64(n: nat)
    requires n < 0x1_0000_0000_0000_0000
    ensures Number(BE64(n)) == n
  {
    var none: seq<byte> := [];
    var high := n / 0x1_0000_0000;
    var a := BE32(high);
    assert Number(none) == 0 && high < 0x1_0000_0000;
    hide Number, BE32;
    Number32(high, none);
    assert none + a == a;
    Number32(n, a);
  }

  lemma NumberPush(front: seq<byte>, b: byte)
    ensures Number(front + [b]) == 256 * Number(front) + b as nat
  {
    assert (front + [b])[..|front|] == front;
  }

  lemma Number32(n: nat, front: seq<byte>)
    ensures Number(front + BE32(n)) == 0x1_0000_0000 * Number(front) + n % 0x1_0000_0000
  {
    var b := BE32(n);
    BytesOf32(n);
    hide Number, BE32;
    var s1 := front + [b[0]];
    var s2 := s1 + [b[1]];
    var s3 := s2 + [b[2]];
    NumberPush(front, b[0]);
    NumberPush(s1, b[1]);
    NumberPush(s2, b[2]);
    NumberPush(s3, b[3]);
    assert s3 + [b[3]] == front + b;
    FourBytes(n);
  }

  lemma BytesOf32(n: nat)
    ensures BE32(n)[0] as nat == (n / 0x100_0000) % 256 && BE32(n)[1] as nat == (n / 0x1_0000) % 256
    ensures BE32(n)[2] as nat == (n / 0x100) % 256 && BE32(n)[3] as nat == n % 256
  {
    AsByte((n / 0x100_0000) % 256);
    AsByte((n / 0x1_0000) % 256);
    AsByte((n / 0x100) % 256);
    AsByte(n % 256);
  }

  /** A byte made of a number is that number. */
  lemma AsByte(v: nat)
    requires v < 256
    ensures (v as bv8) as nat == v
  {
    var b := ByteOf(v);
    BackToByte(b);
  }

  lemma {:induction false} ByteOf(v: nat) returns (b: byte)
    requires v < 256
    ensures b as nat == v
  {
    if v == 0 {
      b := 0;
    } else {
      var c := ByteOf(v - 1);
      NextByte(c);
      b := c + 1;
    }
  }

  lemma BackToByte(b: byte)
    ensures (b as nat) as bv8 == b
  {
  }

  lemma NextByte(b: byte)
    requires b as nat < 255
    ensures (b + 1) as nat == b as nat + 1
  {
  }

  lemma FourBytes(n: nat)
    ensures n % 0x1_0000_0000 == 0x100_0000 * ((n / 0x100_0000) % 256) + 0x1_0000 * ((n / 0x1_0000) % 256) + 0x100 * ((n / 0x100) % 256) + n % 256
  {
    var q1 := n / 256;
    var q2 := q1 / 256;
    var q3 := q2 / 256;
    var q4 := q3 / 256;
    assert n / 0x1_0000 == q2 && n / 0x100_0000 == q3 && n / 0x1_0000_0000 == q4;
    assert n == 256 * q1 + n % 256 && q1 == 256 * q2 + q1 % 256 && q2 == 256 * q3 + q2 % 256 && q3 == 256 * q4 + q3 % 256;
  }

  /** The hash value after the first `k` blocks. */
  function Fold(c: Compression, h: Digest, data: seq<byte>, k: nat): Digest
    requires 64 * k <= |data|
  {
    if k == 0 then h else c(Fold(c, h, data, k - 1), data[64 * (k - 1)..64 * k])
  }

  function Hash(c: Compression, h: Digest, m: seq<byte>): Digest {
    Fold(c, h, PadMessage(m), |PadMessage(m)| / 64)
  }

  lemma {:induction false} FoldOfPrefix(c: Compression, h: Digest, data: seq<byte>, more: seq<byte>, k: nat)
    requires 64 * k <= |data|
    ensures Fold(c, h, data + more, k) == Fold(c, h, data, k)
  {
    if k > 0 {
      FoldOfPrefix(c, h, data, more, k - 1);
      assert (data + more)[64 * (k - 1)..64 * k] == data[64 * (k - 1)..64 * k];
    }
  }

  lemma FoldOneMore(c: Compression, h: Digest, data: seq<byte>, k: nat, block: seq<byte>)
    requires |data| == 64 * k && |block| == 64
    ensures Fold(c, h, data + block, k + 1) == c(Fold(c, h, data, k), block)
  {
    FoldOfPrefix(c, h, data, block, k);
    assert (data + block)[64 * k..64 * (k + 1)] == block;
  }

  // ---------------------------------------------------------------- the streaming state

  class Sha256State {
    const compress: Compression
    const buffer: array<byte>
    var H: Digest
    var T: nat
    var leftover: nat
    ghost const H0: Digest
    ghost var hashed: seq<byte>

    /** Whole blocks are hashed at once; less than a block waits in the buffer. */
    ghost predicate Valid()
      reads this, buffer
    {
      && buffer.Length == 64 && leftover < 64 && Hashed()
    }

    ghost predicate Hashed()
      reads this`hashed, this`H, this`T
    {
      && |hashed| % 64 == 0 && H == Fold(compress, H0, hashed, |hashed| / 64) && T == (8 * |hashed|) % LONG
    }

    /** All that was fed. */
    ghost function Data(): seq<byte>
      requires buffer.Length == 64 && leftover <= 64
      reads this, buffer
    {
      hashed + buffer[..leftover]
    }

    constructor (compress: Compression, H0: Digest)
      ensures Valid() && Data() == [] && this.H0 == H0 && this.compress == compress && fresh(buffer)
    {
      this.compress, this.H0, H, T, leftover, hashed := compress, H0, H0, 0, 0, [];
      buffer := new byte[64](_ => 0);
    }

    /** sha256_blocks. */
    method Blocks(input: seq<byte>)
      requires Hashed() && |input| % 64 == 0
      modifies this`H, this`T, this`hashed
      ensures Hashed() && hashed == old(hashed) + input
    {
      var i := 0;
      ghost var base := hashed;
      hide Hashed;
      while i < |input|
        invariant 0 <= i <= |input| && i % 64 == 0 && Hashed() && hashed == base + input[..i]
      {
        NextPiece(base, input, i, i + 64);
        OneBlock(input[i..i + 64]);
        i := i + 64;
      }
      assert input[..|input|] == input;
    }

    method OneBlock(block: Block)
      requires Hashed()
      modifies this`H, this`T, this`hashed
      ensures Hashed() && hashed == old(hashed) + block
    {
      ghost var k := |hashed| / 64;
      assert |hashed| == 64 * k && (|hashed| + 64) / 64 == k + 1 && (|hashed| + 64) % 64 == 0;
      FoldOneMore(compress, H0, hashed, k, block);
      LengthCounted(|hashed|, 64);
      hide Fold;
      H := compress(H, block);
      T := (T + 512) % LONG;
      hashed := hashed + block;
    }

    /** neoscrypt_hash_update_sha256: however the input is cut into calls, only the whole of it matters. */
    method Update(input: seq<byte>)
      requires Valid()
      modifies this`H, this`T, this`leftover, this`hashed, buffer
      ensures Valid() && Data() == old(Data()) + input
    {
      var i := 0;
      if leftover > 0 {
        var full;
        full, i := TopUp(input);
        if !full {
          return;
        }
      } else {
        assert hashed == Data() + input[..0];
      }
      Rest(input, i, old(Data()));
    }

    /** Hash whole blocks straight from the input and keep what is left. */
    method Rest(input: seq<byte>, at: nat, ghost base: seq<byte>)
      requires Hashed() && buffer.Length == 64 && at <= |input| && hashed == base + input[..at]
      modifies this`H, this`T, this`leftover, this`hashed, buffer
      ensures Valid() && Data() == base + input
    {
      hide Hashed;
      var i := at;
      var blocks := WholeBlocks(|input| - i);
      if blocks > 0 {
        NextPiece(base, input, i, i + blocks);
        Blocks(input[i..i + blocks]);
        i := i + blocks;
      }
      Keep(input[i..]);
      LastPiece(base, input, i);
    }

    /** Put less than a block into the empty buffer. */
    method Keep(rest: seq<byte>)
      requires Hashed() && buffer.Length == 64 && |rest| < 64
      modifies this`leftover, buffer
      ensures Valid() && Data() == hashed + rest
    {
      leftover := |rest|;
      if leftover > 0 {
        Copy(buffer, 0, rest);
      }
      assert buffer[..leftover] == rest;
    }

    /** Add to a block begun before; hash it once it is full. */
    method TopUp(input: seq<byte>) returns (full: bool, want: nat)
      requires Valid() && leftover > 0
      modifies this`H, this`T, this`leftover, this`hashed, buffer
      ensures !full ==> Valid() && Data() == old(Data()) + input
      ensures full ==> want <= |input| && Hashed() && hashed == old(Data()) + input[..want]
    {
      hide Hashed;
      want := if 64 - leftover < |input| then 64 - leftover else |input|;
      ghost var held := buffer[..leftover];
      Copy(buffer, leftover, input[..want]);
      leftover := leftover + want;
      assert buffer[..leftover] == held + input[..want];
      assert hashed + (held + input[..want]) == hashed + held + input[..want];
      full := leftover == 64;
      if full {
        assert buffer[..] == buffer[..leftover];
        Blocks(buffer[..]);
      } else {
        assert input[..want] == input;
      }
    }

    /** neoscrypt_hash_finish_sha256. */
    method Finish() returns (hash: Digest)
      requires Valid()
      modifies this`H, this`T, this`hashed, buffer
      ensures hash == Hash(compress, H0, old(Data()))
    {
      ghost var data, before, l := Data(), hashed, leftover;
      ghost var held := buffer[..leftover];
      assert |before| % 64 == 0;
      var t := (T + leftover * 8) % LONG;
      LengthCounted(|before|, l);
      hide Hashed;
      buffer[leftover] := 0x80;
      if leftover <= 55 {
        Erase(buffer, leftover + 1, 55 - leftover);
        assert buffer[..56] == held + [0x80] + Zeros(55 - leftover);
      } else {
        Erase(buffer, leftover + 1, 63 - leftover);
        assert buffer[..] == held + [0x80] + Zeros(63 - leftover);
        Blocks(buffer[..]);
        Erase(buffer, 0, 56);
        assert buffer[..56] == Zeros(56);
      }
      ghost var front := buffer[..56];
      Copy(buffer, 56, BE64(t));
      assert buffer[..] == front + BE64(t);
      PaddingFits(before, held, hashed, front, t);
      Blocks(buffer[..]);
      assert hashed == PadMessage(data);
      hash := Result();
    }

    /** The hash value as bytes. */
    method Result() returns (hash: Digest)
      requires Hashed()
      ensures hash == Fold(compress, H0, hashed, |hashed| / 64)
    {
      hash := H;
    }
  }

  function WholeBlocks(n: nat): (b: nat)
    ensures b <= n < b + 64 && b % 64 == 0
  {
    (n / 64) * 64
  }

  lemma LengthCounted(n: nat, l: nat)
    ensures ((8 * n) % LONG + l * 8) % LONG == (8 * (n + l)) % LONG
  {
  }

  /** With the length behind it, what is in the last block or two is the padding of the standard. */
  lemma PaddingFits(before: seq<byte>, held: seq<byte>, hashed: seq<byte>, front: seq<byte>, t: nat)
    requires |before| % 64 == 0 && |held| < 64 && t == (8 * (|before| + |held|)) % LONG
    requires if |held| <= 55 then hashed == before && front == held + [0x80] + Zeros(55 - |held|)
             else hashed == before + (held + [0x80] + Zeros(63 - |held|)) && front == Zeros(56)
    ensures hashed + (front + BE64(t)) == PadMessage(before + held)
  {
    ZeroCountAt(|before|, |held|);
    var z := Zeros(ZeroCount(|before + held|));
    var be := BE64(t);
    var one: seq<byte> := [0x80];
    hide BE64, ZeroCount;
    if |held| <= 55 {
      Assoc(before, held + one, z);
      Assoc(before, held, one);
      Assoc(before, held + one + z, be);
    } else {
      var z1 := Zeros(63 - |held|);
      assert z1 + Zeros(56) == z;
      Assoc(before, held + one, z1);
      Assoc(before, held, one);
      Assoc(before + (held + one + z1), Zeros(56), be);
      Assoc(before + held + one, z1, Zeros(56));
    }
  }

  lemma Assoc(a: seq<byte>, b: seq<byte>, c: seq<byte>)
    ensures (a + b) + c == a + (b + c)
  {
  }

  lemma ZeroCountAt(b: nat, l: nat)
    requires b % 64 == 0 && l < 64
    ensures ZeroCount(b + l) == if l <= 55 then 55 - l else 63 - l + 56
  {
  }

  /** Any way of cutting a message into pieces gives its hash. */
  method HashPieces(compress: Compression, H0: Digest, pieces: seq<seq<byte>>) returns (hash: Digest)
    ensures hash == Hash(compress, H0, Concat(pieces))
  {
    var s := new Sha256State(compress, H0);
    for i := 0 to |pieces|
      invariant s.Valid() && s.Data() == Concat(pieces[..i]) && s.compress == compress && s.H0 == H0
    {
      s.Update(pieces[i]);
      assert pieces[..i + 1][..i] == pieces[..i];
    }
    assert pieces[..|pieces|] == pieces;
    hash := s.Finish();
  }
}

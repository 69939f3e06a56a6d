/** The hand-optimised FastKDF, with BLAKE2s unrolled into it, computes the same as the reference for the two
    parameter sets it stands in for. */
module FastKdfOpt {
  import opened Bytes
  import opened Blake2s
  import opened FastKdf
  import Arith

  /** The initial chaining value with the parameter block already XORed in. */
  const blake2s_IV_P_XOR: Digest :=
    LE32(0x6B08C647) + LE32(0xBB67AE85) + LE32(0x3C6EF372) + LE32(0xA54FF53A)
    + LE32(0x510E527F) + LE32(0x9B05688C) + LE32(0x1F83D9AB) + LE32(0x5BE0CD19)

  lemma IvIsInitial()
    ensures blake2s_IV_P_XOR == Initial(32, 32)
  {
    var a, b, p := blake2s_IV_P_XOR, IV, Params(32, 32);
    assert LE32(0x6B08C647) == [0x47, 0xC6, 0x08, 0x6B];
    assert LE32(0x6A09E667) == [0x67, 0xE6, 0x09, 0x6A];
    forall k | 0 <= k < 32 ensures a[k] == Xor8(b[k], p[k]) {
      if k >= 4 {
        assert p[k] == 0 && a[k] == b[k];
      }
    }
  }

  /** One block for the key, one for the input: that is all of keyed BLAKE2s here. */
  lemma TwoCompressions(c: Compress, input: seq<byte>, key: seq<byte>)
    requires |input| == BLOCK_SIZE && |key| == PRF_KEY_SIZE
    ensures Prf(c, input, key) == c(c(Initial(32, 32), key + Zeros(32), 64, false), input, 128, true)
  {
    var data := Padded(key) + input;
    assert data[BLOCK_SIZE * 0..BLOCK_SIZE * 1] == key + Zeros(32);
    assert data[BLOCK_SIZE * 1..] == input;
    assert Padded(input) == input;
    assert Body(c, Initial(32, 32), data, 0) == Initial(32, 32);
    assert Body(c, Initial(32, 32), data, 1) == c(Initial(32, 32), key + Zeros(32), 64, false);
  }

  // ---------------------------------------------------------------- sums of bytes taken from words

  /** The `j`-th 32-bit word of a byte string in memory. */
  function Word(s: seq<byte>, j: nat): (w: nat)
    requires 4 * j + 4 <= |s|
    ensures w < 0x1_0000_0000
  {
    Val(s[4 * j]) + 0x100 * Val(s[4 * j + 1]) + 0x1_0000 * Val(s[4 * j + 2]) + 0x100_0000 * Val(s[4 * j + 3])
  }

  /** A word and its three shifts add up, in the lowest byte, to the sum of its bytes. */
  lemma WordSum(b0: nat, b1: nat, b2: nat, b3: nat)
    requires b0 < 256 && b1 < 256 && b2 < 256 && b3 < 256
    ensures var w := b0 + 0x100 * b1 + 0x1_0000 * b2 + 0x100_0000 * b3;
            (w + w / 0x100 + w / 0x1_0000 + w / 0x100_0000) % 256 == (b0 + b1 + b2 + b3) % 256
  {
    var w := b0 + 0x100 * b1 + 0x1_0000 * b2 + 0x100_0000 * b3;
    assert w / 0x100 == b1 + 0x100 * b2 + 0x1_0000 * b3;
    assert w / 0x1_0000 == b2 + 0x100 * b3;
    assert w / 0x100_0000 == b3;
    Arith.ModAdd(b0 + b1 + b2 + b3, 256, b1 + 0x100 * b2 + 0x1_0000 * b3 + b2 + 0x100 * b3 + b3);
  }

  function BytesOf(s: seq<byte>, j: nat): nat
    requires 4 * j + 4 <= |s|
  {
    Val(s[4 * j]) + Val(s[4 * j + 1]) + Val(s[4 * j + 2]) + Val(s[4 * j + 3])
  }

  lemma WordSumAt(s: seq<byte>, j: nat)
    requires 4 * j + 4 <= |s|
    ensures var w := Word(s, j); (w + w / 0x100 + w / 0x1_0000 + w / 0x100_0000) % 256 == BytesOf(s, j) % 256
  {
    hide Val;
    WordSum(Val(s[4 * j]), Val(s[4 * j + 1]), Val(s[4 * j + 2]), Val(s[4 * j + 3]));
  }

  lemma EmptySum(s: seq<byte>)
    ensures ByteSum(s[..0]) == 0
  {
  }

  lemma FourBytes(s: seq<byte>, j: nat)
    requires 4 * j + 4 <= |s|
    ensures ByteSum(s[..4 * (j + 1)]) == ByteSum(s[..4 * j]) + BytesOf(s, j)
  {
    var n := 4 * j;
    OneByte(s, n);
    OneByte(s, n + 1);
    OneByte(s, n + 2);
    OneByte(s, n + 3);
  }

  lemma OneByte(s: seq<byte>, n: nat)
    requires n < |s|
    ensures ByteSum(s[..n + 1]) == ByteSum(s[..n]) + Val(s[n])
  {
    assert s[..n + 1][..n] == s[..n];
  }

  /** The next position, summed word by word in 32-bit arithmetic. */
  method NextPositionByWords(s: Digest) returns (bufptr: nat)
    ensures bufptr == ByteSum(s) % KDF_BUF_SIZE
  {
    bufptr := 0;
    hide ByteSum, Word, BytesOf;
    EmptySum(s);
    for j := 0 to 8
      invariant bufptr % 256 == ByteSum(s[..4 * j]) % 256
    {
      var w := Word(s, j);
      FourBytes(s, j);
      WordSumAt(s, j);
      var was := bufptr;
      bufptr := AddWord(bufptr, w);
      SumsAgree(was, ByteSum(s[..4 * j]), w + w / 0x100 + w / 0x1_0000 + w / 0x100_0000, BytesOf(s, j));
    }
    assert s[..32] == s;
    bufptr := bufptr % 256;
  }

  /** Four 32-bit additions, each wrapping round. */
  method AddWord(p: nat, w: nat) returns (bufptr: nat)
    ensures bufptr % 256 == (p + (w + w / 0x100 + w / 0x1_0000 + w / 0x100_0000)) % 256
  {
    bufptr := AddWrapping(p, p, w);
    bufptr := AddWrapping(bufptr, p + w, w / 0x100);
    bufptr := AddWrapping(bufptr, p + w + w / 0x100, w / 0x1_0000);
    bufptr := AddWrapping(bufptr, p + w + w / 0x100 + w / 0x1_0000, w / 0x100_0000);
  }

  /** `exact` is the sum without wrapping. */
  method AddWrapping(p: nat, ghost exact: nat, x: nat) returns (r: nat)
    requires p % 256 == exact % 256
    ensures r == (p + x) % 0x1_0000_0000 && r % 256 == (exact + x) % 256
  {
    r := (p + x) % 0x1_0000_0000;
    WrapKeepsByte(p + x);
    SumsAgree(p, exact, x, x);
  }

  lemma WrapKeepsByte(n: nat)
    ensures (n % 0x1_0000_0000) % 256 == n % 256
  {
  }

  lemma SumsAgree(p: nat, q: nat, x: nat, y: nat)
    requires p % 256 == q % 256 && x % 256 == y % 256
    ensures (p + x) % 256 == (q + y) % 256
  {
    var k := p / 256 - q / 256 + x / 256 - y / 256;
    assert p + x == q + y + 256 * k;
    Arith.ModAdd(q + y, 256, k);
  }

  // ---------------------------------------------------------------- the optimised code

  /** 80 bytes three times and a fifth of them, as the ring wants them. */
  method FillFrom80(buf: array<byte>, p: seq<byte>, m: nat)
    requires |p| >= 80 && m <= 80 && buf.Length == KDF_BUF_SIZE + m
    modifies buf
    ensures Mirrors(buf[..], Tiled(p[..80]), m)
  {
    var q := p[..80];
    hide Mirrors, Overwritten;
    CopyTile(buf, q, 0, 0, q);
    CopyTile(buf, q, 1, 80, q);
    CopyTile(buf, q, 2, 160, q);
    CopyTile(buf, q, 3, 240, q[..16]);
    ghost var tiled := buf[..];
    Copy(buf, 256, p[..m]);
    assert p[..m] == q[..m];
    TiledMirrors(tiled, buf[..], q, m);
  }

  method FillFrom256(buf: array<byte>, p: seq<byte>, m: nat)
    requires |p| >= KDF_BUF_SIZE && m <= KDF_BUF_SIZE && buf.Length == KDF_BUF_SIZE + m
    modifies buf
    ensures Mirrors(buf[..], Tiled(p[..KDF_BUF_SIZE]), m)
  {
    Copy(buf, 0, p[..256]);
    Copy(buf, 256, p[..m]);
    assert Tiled(p[..KDF_BUF_SIZE]) == p[..KDF_BUF_SIZE];
    assert buf[..][..KDF_BUF_SIZE] == p[..KDF_BUF_SIZE];
    assert buf[..][KDF_BUF_SIZE..] == p[..m];
  }

  /** One iteration, with the two compressions written out. */
  method RoundOpt(c: Compress, A: array<byte>, B: array<byte>, ptr: nat, ghost ra: Ring, ghost rb: Ring) returns (bufptr: nat)
    requires A != B && A.Length == KDF_BUF_SIZE + PRF_INPUT_SIZE && Mirrors(A[..], ra, PRF_INPUT_SIZE)
    requires B.Length == KDF_BUF_SIZE + PRF_KEY_SIZE && Mirrors(B[..], rb, PRF_KEY_SIZE) && ptr < KDF_BUF_SIZE
    modifies B
    ensures bufptr == Step(c, ra, State(rb, ptr)).ptr && Mirrors(B[..], Step(c, ra, State(rb, ptr)).B, PRF_KEY_SIZE)
  {
    StraightIsRound(A[..], ra, PRF_INPUT_SIZE, ptr, PRF_INPUT_SIZE);
    StraightIsRound(B[..], rb, PRF_KEY_SIZE, ptr, PRF_KEY_SIZE);
    var input, key := A[ptr..ptr + 64], B[ptr..ptr + 32];
    assert input == A[..][ptr..ptr + 64] && key == B[..][ptr..ptr + 32];
    IvIsInitial();
    TwoCompressions(c, input, key);
    hide Mirrors, Prf, Initial, Window, XorAt, ByteSum, Zeros;
    var S := blake2s_IV_P_XOR;
    S := c(S, key + Zeros(32), 64, false);
    S := c(S, input, 128, true);
    bufptr := NextPositionByWords(S);
    RepairOpt(B, bufptr, S, rb);
  }

  /** The repair with its bounds worked out. */
  method RepairOpt(B: array<byte>, bufptr: nat, S: Digest, ghost r: Ring)
    requires Mirrors(B[..], r, PRF_KEY_SIZE) && B.Length == KDF_BUF_SIZE + PRF_KEY_SIZE && bufptr < KDF_BUF_SIZE
    modifies B
    ensures Mirrors(B[..], XorAt(r, bufptr, S), PRF_KEY_SIZE)
  {
    RepairMirrors(B[..], r, bufptr, S);
    hide Mirrors, XorAt, Overwritten, Xor8, XorBytes;
    Xor(B, bufptr, S);
    if bufptr < 32 {
      assert B[bufptr..bufptr + (32 - bufptr)] == B[..][bufptr..32];
      Copy(B, 256 + bufptr, B[bufptr..bufptr + (32 - bufptr)]);
    } else if bufptr > 224 {
      assert B[256..256 + (bufptr - 224)] == B[..][256..32 + bufptr];
      Copy(B, 0, B[256..256 + (bufptr - 224)]);
    }
  }

  /** neoscrypt_fastkdf_opt: mode 0 derives 256 bytes under an 80-byte salt, any other mode 32 bytes under 256. */
  method NeoscryptFastkdfOpt(c: Compress, password: seq<byte>, salt: seq<byte>, output: array<byte>, mode: nat)
    requires |password| >= 80 && |salt| >= (if mode == 0 then 80 else 256)
    requires output.Length >= if mode == 0 then 256 else 32
    modifies output
    ensures mode == 0 ==> output[..256] == Kdf(c, password[..80], salt[..80], 32, 256) && output[256..] == old(output[256..])
    ensures mode != 0 ==> output[..32] == Kdf(c, password[..80], salt[..256], 32, 32) && output[32..] == old(output[32..])
  {
    var A := new byte[KDF_BUF_SIZE + PRF_INPUT_SIZE](_ => 0);
    var B := new byte[KDF_BUF_SIZE + PRF_KEY_SIZE](_ => 0);
    var output_len;
    ghost var ra := Tiled(password[..80]);
    ghost var rb := Tiled(salt[..if mode == 0 then 80 else 256]);
    FillFrom80(A, password, 64);
    if mode == 0 {
      output_len := 256;
      FillFrom80(B, salt, 32);
    } else {
      output_len := 32;
      FillFrom256(B, salt, 32);
    }
    hide Mirrors, Tiled, Iterate, Window;
    var bufptr := MixOpt(c, A, B, ra, rb);
    Emit(A, B, bufptr, output, output_len, ra, Iterate(c, ra, rb, 32).B);
  }

  /** The primary iteration, 32 times. */
  method MixOpt(c: Compress, A: array<byte>, B: array<byte>, ghost ra: Ring, ghost rb: Ring) returns (bufptr: nat)
    requires A != B && A.Length == KDF_BUF_SIZE + PRF_INPUT_SIZE && Mirrors(A[..], ra, PRF_INPUT_SIZE)
    requires B.Length == KDF_BUF_SIZE + PRF_KEY_SIZE && Mirrors(B[..], rb, PRF_KEY_SIZE)
    modifies B
    ensures bufptr == Iterate(c, ra, rb, 32).ptr && Mirrors(B[..], Iterate(c, ra, rb, 32).B, PRF_KEY_SIZE)
  {
    hide Mirrors, Step;
    bufptr := 0;
    for i := 0 to 32
      invariant bufptr == Iterate(c, ra, rb, i).ptr && Mirrors(B[..], Iterate(c, ra, rb, i).B, PRF_KEY_SIZE)
    {
      bufptr := RoundOpt(c, A, B, bufptr, ra, Iterate(c, ra, rb, i).B);
    }
  }
}

/** FastKDF: two 256-byte rings read and written at a wandering position. The code keeps a copy of each ring's head
    behind its tail, so that no access wraps round. */
module FastKdf {
  import opened Bytes
  import opened Blake2s
  import Arith

  const KDF_BUF_SIZE: nat := 256
  const PRF_INPUT_SIZE: nat := 64
  const PRF_KEY_SIZE: nat := 32
  const PRF_OUTPUT_SIZE: nat := 32

  type Ring = s: seq<byte> | |s| == KDF_BUF_SIZE witness seq(KDF_BUF_SIZE, _ => 0)

  // ---------------------------------------------------------------- the specification: plain rings

  /** The bytes of `p` over and over. */
  function Tiled(p: seq<byte>): Ring
    requires p != []
  {
    seq(KDF_BUF_SIZE, i requires i >= 0 => Around(p, i))
  }

  function Around(p: seq<byte>, k: nat): byte
    requires p != []
  {
    p[k % |p|]
  }

  /** `len` bytes of a ring from `ptr` on. */
  function Window(r: Ring, ptr: nat, len: nat): (w: seq<byte>)
    ensures |w| == len
  {
    seq(len, i requires i >= 0 => r[(ptr + i) % KDF_BUF_SIZE])
  }

  /** `x` XORed into a ring from `ptr` on. */
  function XorAt(r: Ring, ptr: nat, x: seq<byte>): Ring {
    seq(KDF_BUF_SIZE, k requires 0 <= k < KDF_BUF_SIZE =>
      var d := (k - ptr) % KDF_BUF_SIZE;
      if d < |x| then Xor8(r[k], x[d]) else r[k])
  }

  function ByteSum(s: seq<byte>): nat {
    if s == [] then 0 else ByteSum(s[..|s| - 1]) + Val(s[|s| - 1])
  }

  /** Keyed BLAKE2s of one window under another. */
  function Prf(c: Compress, input: seq<byte>, key: seq<byte>): Digest
    requires |key| <= BLOCK_SIZE
  {
    Full(c, Initial(32, 32), Padded(key) + input)
  }

  datatype State = State(B: Ring, ptr: nat)

  function Step(c: Compress, A: Ring, s: State): (s': State)
    ensures s'.ptr < KDF_BUF_SIZE
  {
    var out := Prf(c, Window(A, s.ptr, PRF_INPUT_SIZE), Window(s.B, s.ptr, PRF_KEY_SIZE));
    var ptr := ByteSum(out) % KDF_BUF_SIZE;
    State(XorAt(s.B, ptr, out), ptr)
  }

  function Iterate(c: Compress, A: Ring, B: Ring, n: nat): (s: State)
    ensures s.ptr < KDF_BUF_SIZE
  {
    if n == 0 then State(B, 0) else Step(c, A, Iterate(c, A, B, n - 1))
  }

  function Limited(s: seq<byte>): seq<byte> {
    if |s| > KDF_BUF_SIZE then s[..KDF_BUF_SIZE] else s
  }

  /** The derived key: the salt ring from the final position on, XORed with the password ring from its start. */
  function Kdf(c: Compress, password: seq<byte>, salt: seq<byte>, n: nat, len: nat): (out: seq<byte>)
    requires password != [] && salt != [] && len <= KDF_BUF_SIZE
    ensures |out| == len
  {
    var A := Tiled(Limited(password));
    var s := Iterate(c, A, Tiled(Limited(salt)), n);
    XorBytes(Window(s.B, s.ptr, len), A[..len])
  }

  /** One round byte by byte: 64 bytes of the password ring are hashed under 32 of the salt ring, both from the position on;
      the sum of the 32 bytes that result is the next position, and from there on they are XORed into the salt ring. */
  lemma StepIs(c: Compress, A: Ring, s: State)
    requires s.ptr < 256
    ensures var key := seq(64, i requires 0 <= i < 64 => if i < 32 then s.B[(s.ptr + i) % 256] else 0);
            var out := Full(c, Initial(32, 32), key + seq(64, i requires 0 <= i < 64 => A[(s.ptr + i) % 256]));
            var r := Step(c, A, s);
            && |out| == 32 && r.ptr == ByteSum(out) % 256
            && forall k :: 0 <= k < 256 ==>
                 var i := if k >= r.ptr then k - r.ptr else k - r.ptr + 256;
                 r.B[k] == if i < 32 then s.B[k] ^ out[i] else s.B[k]
  {
    var key := seq(64, i requires 0 <= i < 64 => if i < 32 then s.B[(s.ptr + i) % 256] else 0);
    var input := seq(64, i requires 0 <= i < 64 => A[(s.ptr + i) % 256]);
    assert Padded(Window(s.B, s.ptr, 32)) == key && Window(A, s.ptr, 64) == input;
    hide Full, ByteSum, Window, Padded;
    var out := Full(c, Initial(32, 32), key + input);
    var r := Step(c, A, s);
    assert r.ptr == ByteSum(out) % 256 && r.B == XorAt(s.B, r.ptr, out);
    forall k | 0 <= k < 256
      ensures var i := if k >= r.ptr then k - r.ptr else k - r.ptr + 256;
              r.B[k] == if i < 32 then s.B[k] ^ out[i] else s.B[k] {
      XoredAt(s.B, r.ptr, out, k);
    }
  }

  lemma XoredAt(r: Ring, ptr: nat, x: seq<byte>, k: nat)
    requires ptr < 256 && k < 256 && |x| == 32
    ensures var i := if k >= ptr then k - ptr else k - ptr + 256;
            XorAt(r, ptr, x)[k] == if i < 32 then r[k] ^ x[i] else r[k]
  {
  }

  ghost predicate Repeats(r: Ring, s: seq<byte>)
    requires s != []
  {
    forall i :: 0 <= i < 256 ==> r[i] == s[if |s| < 256 then i % |s| else i]
  }

  /** The key byte by byte: the salt ring from the last position on, XORed with the password, both taken up to 256 bytes and
      over and over. */
  lemma KdfIs(c: Compress, password: seq<byte>, salt: seq<byte>, n: nat, len: nat, A: Ring, B: Ring)
    requires password != [] && salt != [] && len <= 256
    requires Repeats(A, password) && Repeats(B, salt)
    ensures var s := Iterate(c, A, B, n);
            s.ptr < 256 && forall i :: 0 <= i < len ==> Kdf(c, password, salt, n, len)[i] == s.B[(s.ptr + i) % 256] ^ A[i]
  {
    hide Iterate, Limited, Tiled, Window, XorBytes, Repeats;
    TiledIs(password, A);
    TiledIs(salt, B);
    var s := Iterate(c, A, B, n);
    XorOfRings(s.B, s.ptr, A, len);
  }

  lemma XorOfRings(B: Ring, ptr: nat, A: Ring, len: nat)
    requires len <= 256
    ensures forall i :: 0 <= i < len ==> XorBytes(Window(B, ptr, len), A[..len])[i] == B[(ptr + i) % 256] ^ A[i]
  {
  }

  lemma TiledIs(s: seq<byte>, r: Ring)
    requires s != [] && Repeats(r, s)
    ensures Tiled(Limited(s)) == r
  {
  }

  // ---------------------------------------------------------------- mirrored tails

  /** A ring with a copy of its first `m` bytes behind it. */
  predicate Mirrors(buf: seq<byte>, r: Ring, m: nat) {
    && m <= KDF_BUF_SIZE && |buf| == KDF_BUF_SIZE + m
    && buf[..KDF_BUF_SIZE] == r && buf[KDF_BUF_SIZE..] == r[..m]
  }

  lemma MirrorAt(buf: seq<byte>, r: Ring, m: nat, k: nat)
    requires Mirrors(buf, r, m) && k < |buf|
    ensures buf[k] == r[k % KDF_BUF_SIZE]
  {
    if k < KDF_BUF_SIZE {
      assert buf[k] == buf[..KDF_BUF_SIZE][k];
    } else {
      assert buf[k] == buf[KDF_BUF_SIZE..][k - KDF_BUF_SIZE];
    }
  }

  lemma MirrorFrom(buf: seq<byte>, r: Ring, m: nat)
    requires m <= KDF_BUF_SIZE && |buf| == KDF_BUF_SIZE + m
    requires forall k :: 0 <= k < |buf| ==> buf[k] == r[k % KDF_BUF_SIZE]
    ensures Mirrors(buf, r, m)
  {
    forall k | 0 <= k < KDF_BUF_SIZE ensures buf[k] == r[k] { assert k % KDF_BUF_SIZE == k; }
    forall k | 0 <= k < m ensures buf[KDF_BUF_SIZE + k] == r[k] { assert (KDF_BUF_SIZE + k) % KDF_BUF_SIZE == k; }
  }

  /** Reading straight on in a mirrored buffer is reading round the ring. */
  lemma StraightIsRound(buf: seq<byte>, r: Ring, m: nat, ptr: nat, len: nat)
    requires Mirrors(buf, r, m) && ptr + len <= |buf|
    ensures buf[ptr..ptr + len] == Window(r, ptr, len)
  {
    var w := buf[ptr..ptr + len];
    forall i | 0 <= i < len ensures w[i] == Window(r, ptr, len)[i] {
      MirrorAt(buf, r, m, ptr + i);
    }
  }

  /** The salt buffer after the XOR and the repair of head or tail. */
  function Repaired(buf: seq<byte>, ptr: nat, x: seq<byte>): (buf': seq<byte>)
    requires |buf| == KDF_BUF_SIZE + PRF_KEY_SIZE && ptr < KDF_BUF_SIZE && |x| == PRF_OUTPUT_SIZE
    ensures |buf'| == |buf|
  {
    var b := Straight(buf, ptr, x);
    if ptr < PRF_KEY_SIZE then Overwritten(b, KDF_BUF_SIZE + ptr, b[ptr..PRF_KEY_SIZE])
    else if KDF_BUF_SIZE - ptr < PRF_OUTPUT_SIZE then
      Overwritten(b, 0, b[KDF_BUF_SIZE..KDF_BUF_SIZE + PRF_OUTPUT_SIZE - (KDF_BUF_SIZE - ptr)])
    else b
  }

  /** It mirrors the ring with the XOR done round it. */
  lemma RepairMirrors(buf: seq<byte>, r: Ring, ptr: nat, x: seq<byte>)
    requires Mirrors(buf, r, PRF_KEY_SIZE) && ptr < KDF_BUF_SIZE && |x| == PRF_OUTPUT_SIZE
    ensures Mirrors(Repaired(buf, ptr, x), XorAt(r, ptr, x), PRF_KEY_SIZE)
  {
    var buf' := Repaired(buf, ptr, x);
    var r' := XorAt(r, ptr, x);
    forall k | 0 <= k < |buf'| ensures buf'[k] == r'[k % KDF_BUF_SIZE] {
      RepairedAt(buf, r, ptr, x, k);
    }
    MirrorFrom(buf', r', PRF_KEY_SIZE);
  }

  /** The buffer with the XOR done straight on, before any repair. */
  function Straight(buf: seq<byte>, ptr: nat, x: seq<byte>): (b: seq<byte>)
    requires |buf| == KDF_BUF_SIZE + PRF_KEY_SIZE && ptr < KDF_BUF_SIZE && |x| == PRF_OUTPUT_SIZE
    ensures |b| == |buf|
    ensures forall j :: 0 <= j < |b| ==>
              b[j] == if ptr <= j < ptr + PRF_OUTPUT_SIZE then Xor8(buf[j], x[j - ptr]) else buf[j]
  {
    Overwritten(buf, ptr, XorBytes(buf[ptr..ptr + PRF_OUTPUT_SIZE], x))
  }

  /** From the position on, the XOR has reached the ring; before it, only the mirror image may have been reached. */
  lemma StraightAt(buf: seq<byte>, r: Ring, ptr: nat, x: seq<byte>, i: nat)
    requires Mirrors(buf, r, PRF_KEY_SIZE) && ptr < KDF_BUF_SIZE && |x| == PRF_OUTPUT_SIZE && i < KDF_BUF_SIZE
    ensures i >= ptr ==> Straight(buf, ptr, x)[i] == XorAt(r, ptr, x)[i]
    ensures i < ptr ==> Straight(buf, ptr, x)[i] == r[i]
    ensures i < PRF_KEY_SIZE && ptr > KDF_BUF_SIZE - PRF_KEY_SIZE ==>
              Straight(buf, ptr, x)[KDF_BUF_SIZE + i] == XorAt(r, ptr, x)[i]
    ensures i < PRF_KEY_SIZE && ptr <= KDF_BUF_SIZE - PRF_KEY_SIZE ==> Straight(buf, ptr, x)[KDF_BUF_SIZE + i] == r[i]
    ensures i < ptr && i + KDF_BUF_SIZE >= ptr + PRF_OUTPUT_SIZE ==> XorAt(r, ptr, x)[i] == r[i]
  {
    var d := (i - ptr) % KDF_BUF_SIZE;
    assert d == if i >= ptr then i - ptr else i - ptr + KDF_BUF_SIZE;
    MirrorAt(buf, r, PRF_KEY_SIZE, i);
    assert i % KDF_BUF_SIZE == i;
    if i < PRF_KEY_SIZE { MirrorAt(buf, r, PRF_KEY_SIZE, KDF_BUF_SIZE + i); }
    hide Mirrors, Straight, Xor8;
  }

  lemma RepairedAt(buf: seq<byte>, r: Ring, ptr: nat, x: seq<byte>, k: nat)
    requires Mirrors(buf, r, PRF_KEY_SIZE) && ptr < KDF_BUF_SIZE && |x| == PRF_OUTPUT_SIZE
    requires k < KDF_BUF_SIZE + PRF_KEY_SIZE
    ensures Repaired(buf, ptr, x)[k] == XorAt(r, ptr, x)[k % KDF_BUF_SIZE]
  {
    var i := k % KDF_BUF_SIZE;
    assert k == i || k == KDF_BUF_SIZE + i;
    StraightAt(buf, r, ptr, x, i);
    hide Mirrors, Straight, XorAt, Overwritten;
  }

  // ---------------------------------------------------------------- the code on buffers

  /** Fill a buffer with `p` over and over, and its tail with `p` once more. */
  method FillBuffer(buf: array<byte>, p: seq<byte>, m: nat)
    requires 0 < |p| <= KDF_BUF_SIZE && m <= |p| && buf.Length == KDF_BUF_SIZE + m
    modifies buf
    ensures Mirrors(buf[..], Tiled(p), m)
  {
    var a := KDF_BUF_SIZE / |p|;
    Arith.DivisionBounds(KDF_BUF_SIZE, |p|);
    hide Mirrors, Overwritten;
    var at := 0;
    for i := 0 to a
      invariant at == i * |p| <= KDF_BUF_SIZE && TiledTo(buf[..], p, at)
    {
      OneMoreTile(|p|, i, a);
      CopyTile(buf, p, i, at, p);
      at := at + |p|;
    }
    var b := KDF_BUF_SIZE - at;
    if b > 0 {
      CopyTile(buf, p, a, at, p[..b]);
    }
    ghost var tiled := buf[..];
    Copy(buf, KDF_BUF_SIZE, p[..m]);
    TiledMirrors(tiled, buf[..], p, m);
  }

  ghost predicate TiledTo(buf: seq<byte>, p: seq<byte>, n: nat)
    requires p != []
  {
    n <= |buf| && forall k :: 0 <= k < n ==> buf[k] == Around(p, k)
  }

  lemma OneMoreTile(d: nat, i: nat, a: nat)
    requires i < a
    ensures (i + 1) * d == i * d + d <= a * d
  {
    Arith.ProductBounds(d, i + 1, a);
    assert d * (i + 1) == (i + 1) * d && d * a == a * d;
  }

  lemma AroundStart(p: seq<byte>)
    requires p != []
    ensures forall k :: 0 <= k < |p| ==> Around(p, k) == p[k]
  {
    forall k | 0 <= k < |p| ensures Around(p, k) == p[k] { assert k % |p| == k; }
  }

  lemma TiledMirrors(tiled: seq<byte>, buf: seq<byte>, p: seq<byte>, m: nat)
    requires 0 < |p| && m <= |p| && m <= KDF_BUF_SIZE && |tiled| == KDF_BUF_SIZE + m && TiledTo(tiled, p, KDF_BUF_SIZE)
    requires buf == Overwritten(tiled, KDF_BUF_SIZE, p[..m])
    ensures Mirrors(buf, Tiled(p), m)
  {
    hide Around;
    AroundStart(p);
    assert buf[..KDF_BUF_SIZE] == Tiled(p);
    assert buf[KDF_BUF_SIZE..] == p[..m] == Tiled(p)[..m];
  }

  /** The `i`-th copy of `p`, or of a prefix of it. */
  method CopyTile(buf: array<byte>, p: seq<byte>, i: nat, at: nat, t: seq<byte>)
    requires p != [] && t <= p && at == i * |p| && at + |t| <= buf.Length && TiledTo(buf[..], p, at)
    modifies buf
    ensures TiledTo(buf[..], p, at + |t|)
  {
    ghost var was := buf[..];
    Copy(buf, at, t);
    forall k | 0 <= k < at + |t| ensures buf[..][k] == Around(p, k) {
      if k >= at {
        TileIndex(k - at, |p|, i);
      } else {
        assert buf[..][k] == was[k];
      }
    }
  }

  lemma TileIndex(j: nat, d: nat, i: nat)
    requires j < d
    ensures (i * d + j) % d == j
  {
    Arith.ModShift(j, d, i);
    assert d * i == i * d;
  }

  /** The next position: the sum of the PRF output's bytes, in one byte. */
  method NextPosition(out: seq<byte>) returns (bufptr: nat)
    ensures bufptr == ByteSum(out) % KDF_BUF_SIZE
  {
    bufptr := 0;
    for j := 0 to |out|
      invariant bufptr == ByteSum(out[..j])
    {
      assert out[..j + 1][..j] == out[..j];
      bufptr := bufptr + Val(out[j]);
    }
    assert out[..|out|] == out;
    bufptr := bufptr % KDF_BUF_SIZE;
  }

  /** XOR the PRF output into the salt buffer and bring head or tail back into step. */
  method XorAndRepair(B: array<byte>, bufptr: nat, prf_output: Digest, ghost r: Ring)
    requires Mirrors(B[..], r, PRF_KEY_SIZE) && B.Length == KDF_BUF_SIZE + PRF_KEY_SIZE && bufptr < KDF_BUF_SIZE
    modifies B
    ensures Mirrors(B[..], XorAt(r, bufptr, prf_output), PRF_KEY_SIZE)
  {
    RepairMirrors(B[..], r, bufptr, prf_output);
    hide Mirrors, XorAt, Overwritten, Xor8, XorBytes;
    Xor(B, bufptr, prf_output);
    if bufptr < PRF_KEY_SIZE {
      assert B[bufptr..PRF_KEY_SIZE] == B[..][bufptr..PRF_KEY_SIZE];
      Copy(B, KDF_BUF_SIZE + bufptr, B[bufptr..PRF_KEY_SIZE]);
    } else if KDF_BUF_SIZE - bufptr < PRF_OUTPUT_SIZE {
      var end := KDF_BUF_SIZE + PRF_OUTPUT_SIZE - (KDF_BUF_SIZE - bufptr);
      assert B[KDF_BUF_SIZE..end] == B[..][KDF_BUF_SIZE..end];
      Copy(B, 0, B[KDF_BUF_SIZE..end]);
    }
  }

  /** XOR the password buffer into the salt buffer from the final position on, and hand that out. */
  method Emit(A: array<byte>, B: array<byte>, bufptr: nat, output: array<byte>, len: nat, ghost ra: Ring, ghost rb: Ring)
    requires A.Length == KDF_BUF_SIZE + PRF_INPUT_SIZE && Mirrors(A[..], ra, PRF_INPUT_SIZE)
    requires B.Length == KDF_BUF_SIZE + PRF_KEY_SIZE && Mirrors(B[..], rb, PRF_KEY_SIZE)
    requires bufptr < KDF_BUF_SIZE && len <= KDF_BUF_SIZE && len <= output.Length && A != B && output != B && output != A
    modifies B, output
    ensures output[..len] == XorBytes(Window(rb, bufptr, len), ra[..len])
    ensures output[len..] == old(output[len..])
  {
    var a := KDF_BUF_SIZE - bufptr;
    assert A[..len] == A[..][..len] == ra[..len];
    if a >= len {
      StraightIsRound(B[..], rb, PRF_KEY_SIZE, bufptr, len);
      hide Mirrors, Window, Xor8, XorBytes;
      XorOut(B, bufptr, A[..len], output, 0);
      assert output[..len] == output[..][0..len];
    } else {
      RoundTheEnd(B[..], rb, bufptr, len);
      XorSplits(B[..][bufptr..bufptr + a], B[..][..len - a], ra[..a], ra[a..len]);
      assert ra[..len] == ra[..a] + ra[a..len];
      assert A[..a] == ra[..a] && A[a..len] == ra[a..len];
      hide Mirrors, Window, Xor8, XorBytes;
      ghost var b0, o := B[..], output[..];
      XorOut(B, bufptr, A[..a], output, 0);
      assert B[..][..len - a] == b0[..len - a];
      XorOut(B, 0, A[a..len], output, a);
      WrittenTwice(o, XorBytes(b0[bufptr..bufptr + a], ra[..a]), XorBytes(b0[..len - a], ra[a..len]));
    }
  }

  lemma WrittenTwice(o: seq<byte>, x: seq<byte>, y: seq<byte>)
    requires |x| + |y| <= |o|
    ensures Overwritten(Overwritten(o, 0, x), |x|, y) == x + y + o[|x| + |y|..]
  {
  }

  /** XOR a piece into the buffer and copy it out. */
  method XorOut(B: array<byte>, at: nat, x: seq<byte>, output: array<byte>, to: nat)
    requires at + |x| <= B.Length && to + |x| <= output.Length && output != B
    modifies B, output
    ensures output[..] == Overwritten(old(output[..]), to, XorBytes(old(B[..])[at..at + |x|], x))
    ensures forall k :: 0 <= k < B.Length && !(at <= k < at + |x|) ==> B[k] == old(B[k])
  {
    Xor(B, at, x);
    assert B[at..at + |x|] == B[..][at..at + |x|];
    Copy(output, to, B[at..at + |x|]);
  }

  lemma RoundTheEnd(b: seq<byte>, rb: Ring, ptr: nat, len: nat)
    requires Mirrors(b, rb, PRF_KEY_SIZE) && ptr < KDF_BUF_SIZE && KDF_BUF_SIZE - ptr < len <= KDF_BUF_SIZE
    ensures Window(rb, ptr, len) == b[ptr..KDF_BUF_SIZE] + b[..len - (KDF_BUF_SIZE - ptr)]
  {
    var w := b[ptr..KDF_BUF_SIZE] + b[..len - (KDF_BUF_SIZE - ptr)];
    forall k | 0 <= k < len ensures Window(rb, ptr, len)[k] == w[k] {
      MirrorAt(b, rb, PRF_KEY_SIZE, (ptr + k) % KDF_BUF_SIZE);
    }
  }

  lemma XorSplits(x: seq<byte>, y: seq<byte>, u: seq<byte>, v: seq<byte>)
    requires |x| == |u| && |y| == |v|
    ensures XorBytes(x + y, u + v) == XorBytes(x, u) + XorBytes(y, v)
  {
    hide Xor8;
  }

  /** neoscrypt_fastkdf. Passwords and salts shorter than a PRF window would be read past their end. */
  method NeoscryptFastkdf(c: Compress, password: seq<byte>, salt: seq<byte>, N: nat, output: array<byte>, output_len: nat)
    requires |password| >= PRF_INPUT_SIZE && |salt| >= PRF_KEY_SIZE
    requires output.Length >= if output_len > KDF_BUF_SIZE then KDF_BUF_SIZE else output_len
    modifies output
    ensures var len := if output_len > KDF_BUF_SIZE then KDF_BUF_SIZE else output_len;
            output[..len] == Kdf(c, password, salt, N, len) && output[len..] == old(output[len..])
  {
    var A := new byte[KDF_BUF_SIZE + PRF_INPUT_SIZE](_ => 0);
    var B := new byte[KDF_BUF_SIZE + PRF_KEY_SIZE](_ => 0);
    FillBuffer(A, Limited(password), PRF_INPUT_SIZE);
    FillBuffer(B, Limited(salt), PRF_KEY_SIZE);
    ghost var ra, rb := Tiled(Limited(password)), Tiled(Limited(salt));
    hide Mirrors, Tiled, Iterate, Window;
    var bufptr := Mix(c, A, B, N, ra, rb);
    var len := if output_len > KDF_BUF_SIZE then KDF_BUF_SIZE else output_len;
    Emit(A, B, bufptr, output, len, ra, Iterate(c, ra, rb, N).B);
  }

  /** The primary iteration. */
  method Mix(c: Compress, A: array<byte>, B: array<byte>, N: nat, ghost ra: Ring, ghost rb: Ring) returns (bufptr: nat)
    requires A != B && A.Length == KDF_BUF_SIZE + PRF_INPUT_SIZE && Mirrors(A[..], ra, PRF_INPUT_SIZE)
    requires B.Length == KDF_BUF_SIZE + PRF_KEY_SIZE && Mirrors(B[..], rb, PRF_KEY_SIZE)
    modifies B
    ensures bufptr == Iterate(c, ra, rb, N).ptr && Mirrors(B[..], Iterate(c, ra, rb, N).B, PRF_KEY_SIZE)
  {
    hide Mirrors, Step;
    bufptr := 0;
    for i := 0 to N
      invariant bufptr == Iterate(c, ra, rb, i).ptr && Mirrors(B[..], Iterate(c, ra, rb, i).B, PRF_KEY_SIZE)
    {
      bufptr := Round(c, A, B, bufptr, ra, Iterate(c, ra, rb, i).B);
    }
  }

  lemma ThirtyTwo()
    ensures PRF_OUTPUT_SIZE as bv8 == 32 && PRF_KEY_SIZE as bv8 == 32
    ensures forall d: Digest :: d[..PRF_OUTPUT_SIZE] == d
  {
  }

  /** One iteration: PRF, new position, XOR. */
  method Round(c: Compress, A: array<byte>, B: array<byte>, ptr: nat, ghost ra: Ring, ghost rb: Ring) returns (bufptr: nat)
    requires A != B && A.Length == KDF_BUF_SIZE + PRF_INPUT_SIZE && Mirrors(A[..], ra, PRF_INPUT_SIZE)
    requires B.Length == KDF_BUF_SIZE + PRF_KEY_SIZE && Mirrors(B[..], rb, PRF_KEY_SIZE) && ptr < KDF_BUF_SIZE
    modifies B
    ensures bufptr == Step(c, ra, State(rb, ptr)).ptr && Mirrors(B[..], Step(c, ra, State(rb, ptr)).B, PRF_KEY_SIZE)
  {
    StraightIsRound(A[..], ra, PRF_INPUT_SIZE, ptr, PRF_INPUT_SIZE);
    StraightIsRound(B[..], rb, PRF_KEY_SIZE, ptr, PRF_KEY_SIZE);
    assert A[ptr..ptr + PRF_INPUT_SIZE] == A[..][ptr..ptr + PRF_INPUT_SIZE];
    assert B[ptr..ptr + PRF_KEY_SIZE] == B[..][ptr..ptr + PRF_KEY_SIZE];
    hide Mirrors, Full, Initial, Params, Padded, Window, XorAt, ByteSum;
    ThirtyTwo();
    var prf_output := NeoscryptBlake2s(c, A[ptr..ptr + PRF_INPUT_SIZE], B[ptr..ptr + PRF_KEY_SIZE], PRF_OUTPUT_SIZE);
    bufptr := NextPosition(prf_output);
    XorAndRepair(B, bufptr, prf_output, rb);
  }
}

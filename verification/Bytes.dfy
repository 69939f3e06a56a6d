/** Byte buffers, and the copying, erasing and XORing the hashes are built from. */
module Bytes {

  type byte = bv8

  const BLOCK_SIZE: nat := 64
  const DIGEST_SIZE: nat := 32

  type Block = s: seq<byte> | |s| == BLOCK_SIZE witness seq(BLOCK_SIZE, _ => 0)
  type Digest = s: seq<byte> | |s| == DIGEST_SIZE witness seq(DIGEST_SIZE, _ => 0)

  function Zeros(n: nat): (z: seq<byte>)
    ensures |z| == n
  {
    seq(n, _ => 0)
  }

  /** `s` with `src` written over it from `at`. */
  function Overwritten(s: seq<byte>, at: nat, src: seq<byte>): (r: seq<byte>)
    requires at + |src| <= |s|
    ensures |r| == |s|
    ensures forall k :: 0 <= k < |s| ==> r[k] == if at <= k < at + |src| then src[k - at] else s[k]
  {
    s[..at] + src + s[at + |src|..]
  }

  function Val(b: byte): (n: nat)
    ensures n < 256
  {
    b as nat
  }

  function Xor8(a: byte, b: byte): byte { a ^ b }

  function Concat(pieces: seq<seq<byte>>): seq<byte> {
    if pieces == [] then [] else Concat(pieces[..|pieces| - 1]) + pieces[|pieces| - 1]
  }

  function XorBytes(a: seq<byte>, b: seq<byte>): (r: seq<byte>)
    requires |a| == |b|
    ensures |r| == |a| && forall k :: 0 <= k < |a| ==> r[k] == Xor8(a[k], b[k])
  {
    seq(|a|, k requires 0 <= k < |a| => Xor8(a[k], b[k]))
  }

  lemma SliceOfTail(s: seq<byte>, k: nat, i: nat, j: nat)
    requires k <= |s| && i <= j <= |s| - k
    ensures s[k..][i..j] == s[k + i..k + j]
    ensures j == |s| - k ==> s[k..][i..] == s[k + i..]
  {
  }

  lemma NextPiece(base: seq<byte>, input: seq<byte>, i: nat, j: nat)
    requires i <= j <= |input|
    ensures (base + input[..i]) + input[i..j] == base + input[..j]
    ensures j == |input| ==> input[i..j] == input[i..]
  {
    assert input[..j] == input[..i] + input[i..j];
  }

  lemma LastPiece(base: seq<byte>, input: seq<byte>, i: nat)
    requires i <= |input|
    ensures (base + input[..i]) + input[i..] == base + input
  {
    assert input == input[..i] + input[i..];
  }

  /** neoscrypt_copy. */
  method Copy(dst: array<byte>, at: nat, src: seq<byte>)
    requires at + |src| <= dst.Length
    modifies dst
    ensures dst[..] == Overwritten(old(dst[..]), at, src)
  {
    for i := 0 to |src|
      invariant forall k :: 0 <= k < dst.Length ==> dst[k] == if at <= k < at + i then src[k - at] else old(dst[k])
    {
      dst[at + i] := src[i];
    }
  }

  /** neoscrypt_erase. */
  method Erase(dst: array<byte>, at: nat, len: nat)
    requires at + len <= dst.Length
    modifies dst
    ensures dst[..] == Overwritten(old(dst[..]), at, Zeros(len))
  {
    for i := 0 to len
      invariant forall k :: 0 <= k < dst.Length ==> dst[k] == if at <= k < at + i then 0 else old(dst[k])
    {
      dst[at + i] := 0;
    }
  }

  /** neoscrypt_xor. */
  method Xor(dst: array<byte>, at: nat, src: seq<byte>)
    requires at + |src| <= dst.Length
    modifies dst
    ensures dst[..] == Overwritten(old(dst[..]), at, XorBytes(old(dst[..])[at..at + |src|], src))
  {
    for i := 0 to |src|
      invariant forall k :: 0 <= k < dst.Length ==>
                  dst[k] == if at <= k < at + i then Xor8(old(dst[k]), src[k - at]) else old(dst[k])
    {
      dst[at + i] := Xor8(dst[at + i], src[i]);
    }
  }
}

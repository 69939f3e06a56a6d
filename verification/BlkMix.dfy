/** The block mixer: its two specialised forms and its general loop compute the same thing. The mixing function and
    XOR of blocks are left open. */
module BlkMix {

  type Blk = int

  datatype Mixer = Mixer(mix: Blk -> Blk, xor: (Blk, Blk) -> Blk)

  /** The chain: every block is XORed with the mixed block before it, the first with the last, then mixed. */
  function Chain(m: Mixer, X: seq<Blk>, i: nat): Blk
    requires i < |X|
  {
    m.mix(m.xor(X[i], if i == 0 then X[|X| - 1] else Chain(m, X, i - 1)))
  }

  /** The result: the chain's even blocks, then its odd ones. */
  function Mixed(m: Mixer, X: seq<Blk>, r: nat): (Z: seq<Blk>)
    requires |X| == 2 * r > 0
    ensures |Z| == |X|
  {
    seq(2 * r, i requires 0 <= i < 2 * r => Chain(m, X, if i < r then 2 * i else 2 * (i - r) + 1))
  }

  /** The form for r == 1: nothing to reorder. */
  method MixOne(m: Mixer, X: array<Blk>)
    requires X.Length == 2
    modifies X
    ensures X[..] == Mixed(m, old(X[..]), 1)
  {
    ghost var x := X[..];
    X[0] := m.xor(X[0], X[1]);
    X[0] := m.mix(X[0]);
    assert X[0] == Chain(m, x, 0);
    X[1] := m.xor(X[1], X[0]);
    X[1] := m.mix(X[1]);
    assert X[1] == Chain(m, x, 1);
  }

  /** One link in place: XOR with a neighbour, mix. */
  method Link(m: Mixer, X: array<Blk>, i: nat, from: nat)
    requires i < X.Length && from < X.Length
    modifies X
    ensures X[i] == m.mix(m.xor(old(X[i]), old(X[from])))
    ensures forall k :: 0 <= k < X.Length && k != i ==> X[k] == old(X[k])
  {
    X[i] := m.xor(X[i], X[from]);
    X[i] := m.mix(X[i]);
  }

  /** The form for r == 2: swap the two blocks in the middle. */
  method MixTwo(m: Mixer, X: array<Blk>)
    requires X.Length == 4
    modifies X
    ensures X[..] == Mixed(m, old(X[..]), 2)
  {
    ghost var x := X[..];
    Link(m, X, 0, 3);
    assert X[0] == Chain(m, x, 0);
    Link(m, X, 1, 0);
    assert X[1] == Chain(m, x, 1);
    Link(m, X, 2, 1);
    assert X[2] == Chain(m, x, 2);
    Link(m, X, 3, 2);
    assert X[3] == Chain(m, x, 3);
    hide Chain;
    X[1], X[2] := X[2], X[1];
    assert X[..] == [Chain(m, x, 0), Chain(m, x, 2), Chain(m, x, 1), Chain(m, x, 3)];
  }

  /** The general form: the chain into Y, then back into X in its new order. */
  method MixAny(m: Mixer, X: array<Blk>, Y: array<Blk>, r: nat)
    requires r > 0 && X.Length == 2 * r && Y.Length >= 2 * r && X != Y
    modifies X, Y
    ensures X[..] == Mixed(m, old(X[..]), r)
  {
    ghost var x := X[..];
    ghost var y := Links(m, x);
    hide Chain, Links;
    for i := 0 to 2 * r
      invariant forall k :: 0 <= k < 2 * r ==> X[k] == if k < i then y[k] else x[k]
      invariant forall k :: 0 <= k < i ==> Y[k] == y[k]
    {
      LinkAt(m, x, i);
      Link(m, X, i, if i > 0 then i - 1 else 2 * r - 1);
      Y[i] := X[i];
    }
    Reorder(X, Y, r);
    MixedByLinks(m, x, r);
  }

  /** The whole chain. */
  function Links(m: Mixer, X: seq<Blk>): (y: seq<Blk>)
    ensures |y| == |X|
  {
    seq(|X|, i requires 0 <= i < |X| => Chain(m, X, i))
  }

  lemma LinkAt(m: Mixer, X: seq<Blk>, i: nat)
    requires i < |X|
    ensures Links(m, X)[i] == m.mix(m.xor(X[i], if i == 0 then X[|X| - 1] else Links(m, X)[i - 1]))
  {
  }

  lemma MixedByLinks(m: Mixer, X: seq<Blk>, r: nat)
    requires |X| == 2 * r > 0
    ensures forall k :: 0 <= k < 2 * r ==> Mixed(m, X, r)[k] == Links(m, X)[if k < r then 2 * k else 2 * (k - r) + 1]
  {
  }

  method Reorder(X: array<Blk>, Y: array<Blk>, r: nat)
    requires X.Length == 2 * r && Y.Length >= 2 * r && X != Y
    modifies X
    ensures forall k :: 0 <= k < r ==> X[k] == Y[2 * k] && X[k + r] == Y[2 * k + 1]
    ensures forall k :: 0 <= k < 2 * r ==> X[k] == Y[if k < r then 2 * k else 2 * (k - r) + 1]
  {
    for i := 0 to r
      invariant forall k :: 0 <= k < i ==> X[k] == Y[2 * k]
    {
      X[i] := Y[2 * i];
    }
    for i := 0 to r
      invariant forall k :: 0 <= k < r ==> X[k] == Y[2 * k]
      invariant forall k :: 0 <= k < i ==> X[k + r] == Y[2 * k + 1]
    {
      X[i + r] := Y[2 * i + 1];
    }
    forall k | 0 <= k < 2 * r ensures X[k] == Y[if k < r then 2 * k else 2 * (k - r) + 1] {
      if k >= r { assert X[(k - r) + r] == Y[2 * (k - r) + 1]; }
    }
  }

  /** neoscrypt_blkmix. */
  method NeoscryptBlkMix(m: Mixer, X: array<Blk>, Y: array<Blk>, r: nat)
    requires r > 0 && X.Length == 2 * r && Y.Length >= 2 * r && X != Y
    modifies X, Y
    ensures X[..] == Mixed(m, old(X[..]), r)
  {
    if r == 1 {
      MixOne(m, X);
      return;
    }
    if r == 2 {
      MixTwo(m, X);
      return;
    }
    MixAny(m, X, Y, r);
  }
}

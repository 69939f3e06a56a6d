/** The LMDB layer: an environment whose map grows on demand, and write transactions that hide every growth by
    replaying what they have done so far. */
module Lmdb {
  import opened Basics
  import Arith

  newtype byte = x: int | 0 <= x < 256
  type Bytes = seq<byte>
  type Records = map<Bytes, Bytes>

  // ---------------------------------------------------------------- the size of the map

  function AlignDown(nValue: nat, nAlignment: nat): (r: nat)
    ensures r <= nValue && (nAlignment > 0 ==> Aligned(r, nAlignment) && nValue - r < nAlignment)
  {
    if nAlignment > 0 then
      AlignedDown(nValue, nAlignment);
      (nValue / nAlignment) * nAlignment
    else nValue
  }

  lemma AlignedDown(n: nat, p: nat)
    requires p > 0
    ensures 0 <= (n / p) * p <= n && n - (n / p) * p < p && ((n / p) * p) % p == 0
  {
    assert n == (n / p) * p + n % p;
    Arith.ModShift(0, p, n / p);
    Arith.ProductNonNegative(n / p, p);
  }

  /** The size GrowMap asks for, if it may grow at all. */
  function GrowTarget(nCurrent: nat, nMaxMapSize: nat, nPageSize: nat): (r: Option<nat>)
    requires nPageSize > 0
    ensures r.None? <==> AlignDown(nMaxMapSize, nPageSize) <= nCurrent
    ensures r.Some? ==> nCurrent < r.value <= nMaxMapSize
  {
    var nMax := AlignDown(nMaxMapSize, nPageSize);
    if nMax <= nCurrent then None
    else
      var nTarget := AlignDown(if nCurrent > nMax / 2 then nMax else nCurrent * 2, nPageSize);
      if nTarget > nCurrent then Some(nTarget)
      else if nCurrent > nMax - nPageSize then Some(nMax)
      else Some(nCurrent + nPageSize)
  }

  /** The new size is a whole number of pages exactly when the map had at least half a page, or nothing, or is less
      than a page below its ceiling. */
  lemma TargetAligned(c: nat, cap: nat, p: nat)
    requires p > 0 && GrowTarget(c, cap, p).Some?
    ensures Aligned(GrowTarget(c, cap, p).value, p) <==> 2 * c >= p || c == 0 || c > AlignDown(cap, p) - p
  {
    var nMax := AlignDown(cap, p);
    hide AlignDown, Aligned;
    AlignAligned(nMax, p);
    if c > nMax / 2 {
    } else if 2 * c >= p {
      AtLeastAPage(2 * c, p);
    } else {
      ShortOfPage(2 * c, p);
      if 0 < c { PageMore(c, p); } else { OnePage(p); }
    }
  }

  predicate Aligned(n: nat, p: nat)
    requires p > 0
  {
    n % p == 0
  }

  lemma AlignAligned(n: nat, p: nat)
    requires p > 0 && Aligned(n, p)
    ensures AlignDown(n, p) == n
  {
    assert n == (n / p) * p + n % p;
  }

  lemma AtLeastAPage(n: nat, p: nat)
    requires p > 0 && n >= p
    ensures AlignDown(n, p) >= p && 2 * AlignDown(n, p) > n
  {
    assert n / p >= 1;
    Arith.ProductBounds(p, 1, n / p);
    assert p * (n / p) == (n / p) * p;
  }

  lemma ShortOfPage(n: nat, p: nat)
    requires n < p
    ensures AlignDown(n, p) == 0
  {
  }

  lemma PageMore(c: nat, p: nat)
    requires 0 < c < p
    ensures !Aligned(c + p, p)
  {
    Arith.ModShift(c, p, 1);
  }

  lemma OnePage(p: nat)
    requires p > 0
    ensures Aligned(p, p)
  {
    Arith.ModShift(0, p, 1);
  }

  lemma TwiceAligned(c: nat, p: nat)
    requires p > 0 && Aligned(c, p)
    ensures Aligned(2 * c, p) && AlignDown(2 * c, p) == 2 * c
  {
    var q := c / p;
    assert c == p * q;
    assert 2 * c == p * (2 * q);
    Arith.ModShift(0, p, 2 * q);
    AlignAligned(2 * c, p);
  }

  lemma NoLessThanAPage(c: nat, p: nat)
    requires p > 0 && Aligned(c, p) && c > 0
    ensures c >= p
  {
  }

  /** From a whole number of pages, growing doubles up to the ceiling ... */
  lemma TargetDoubles(c: nat, cap: nat, p: nat)
    requires p > 0 && c > 0 && Aligned(c, p) && GrowTarget(c, cap, p).Some?
    ensures GrowTarget(c, cap, p).value == if 2 * c < AlignDown(cap, p) then 2 * c else AlignDown(cap, p)
  {
    hide AlignDown, Aligned;
    AlignAligned(AlignDown(cap, p), p);
    TwiceAligned(c, p);
  }

  /** `c` doubled `k` times. */
  function Doubled(c: nat, k: nat): nat {
    if k == 0 then c else 2 * Doubled(c, k - 1)
  }

  /** `k` growths in a row, none refused. */
  function Growths(c: nat, cap: nat, p: nat, k: nat): (r: Option<nat>)
    requires p > 0
  {
    if k == 0 then Some(c)
    else
      var r := Growths(c, cap, p, k - 1);
      if r.None? then None else GrowTarget(r.value, cap, p)
  }

  /** ... so the number of growths is logarithmic: after `k` of them the map is doubled `k` times, or full, and was
      never past its ceiling before. */
  lemma {:induction false} GrowthsDouble(c: nat, cap: nat, p: nat, k: nat)
    requires p > 0 && c > 0 && Aligned(c, p) && Growths(c, cap, p, k).Some?
    ensures k > 0 ==> Growths(c, cap, p, k).value
                      == if Doubled(c, k) < AlignDown(cap, p) then Doubled(c, k) else AlignDown(cap, p)
    ensures Aligned(Growths(c, cap, p, k).value, p) && Growths(c, cap, p, k).value >= c
    ensures k > 0 ==> Doubled(c, k - 1) < AlignDown(cap, p)
  {
    hide AlignDown, Aligned, GrowTarget;
    if k > 0 {
      GrowthsDouble(c, cap, p, k - 1);
      var r := Growths(c, cap, p, k - 1).value;
      TargetDoubles(r, cap, p);
      NoLessThanAPage(r, p);
      TargetAligned(r, cap, p);
    }
  }
}

/** Compact targets, and the difficulty of the next block. */
module Retarget {
  import opened Basics
  import opened ChainTypes
  import opened BlockTree
  import Arith

  // ---------------------------------------------------------------- compact numbers

  function Pow256(n: nat): (p: nat)
    ensures p >= 1
  {
    if n == 0 then 1 else 256 * Pow256(n - 1)
  }

  /** Bytes of a positive number with room for a sign bit. */
  function SignedSize(n: nat): (s: nat)
    ensures s >= 1
  {
    if n < 128 then 1 else 1 + SignedSize(n / 256)
  }

  function MpiSize(n: nat): nat { if n == 0 then 0 else SignedSize(n) }

  /** GetCompact of a number that is not negative: its size, and its three highest bytes. */
  function GetCompact(n: nat): nat {
    var s := MpiSize(n);
    var m := if s >= 3 then n / Pow256(s - 3) else if s == 2 then n * 0x100 else if s == 1 then n * 0x1_0000 else 0;
    s * 0x100_0000 + m
  }

  /** SetCompact: the bit above the mantissa is a sign. */
  function SetCompact(c: nat): int {
    var s, m := c / 0x100_0000, c % 0x80_0000;
    var v := if s >= 3 then m * Pow256(s - 3) else if s == 2 then m / 0x100 else if s == 1 then m / 0x1_0000 else 0;
    if c % 0x100_0000 >= 0x80_0000 then -v else v
  }

  lemma {:induction false} SizeBounds(n: nat)
    ensures n < 128 * Pow256(SignedSize(n) - 1)
    ensures SignedSize(n) > 1 ==> n >= 128 * Pow256(SignedSize(n) - 2)
  {
    if n >= 128 {
      SizeBounds(n / 256);
      var s := SignedSize(n / 256);
      assert n < 256 * (n / 256 + 1) && n / 256 + 1 <= 128 * Pow256(s - 1);
      if s > 1 {
        assert n >= 256 * (n / 256);
      }
    }
  }

  /** The bounds determine the size. */
  lemma {:induction false} SizeUnique(n: nat, s: nat)
    requires s >= 1 && n < 128 * Pow256(s - 1) && (s > 1 ==> n >= 128 * Pow256(s - 2))
    ensures SignedSize(n) == s
    decreases s
  {
    if s > 1 {
      AtLeast128(s - 2);
      var q := n / 256;
      assert 256 * q <= n < 256 * q + 256;
      if s == 2 {
        assert q < 128;
      } else {
        assert Pow256(s - 1) == 256 * Pow256(s - 2) && Pow256(s - 2) == 256 * Pow256(s - 3);
      }
      SizeUnique(q, s - 1);
    }
  }

  lemma AtLeast128(k: nat)
    ensures 128 * Pow256(k) >= 128
  {
  }

  /** A number of three bytes or more, as its three highest bytes in units of `p`. */
  lemma LargeNumber(n: nat, s: nat, p: nat)
    requires s == SignedSize(n) && s >= 3 && p == Pow256(s - 3)
    ensures 0x8000 * p <= n < 0x80_0000 * p
    ensures 0x8000 <= n / p < 0x80_0000
    ensures 0 <= (n / p) * p <= n && 0x8000 * (n - (n / p) * p) < n
  {
    SizeBounds(n);
    assert Pow256(s - 1) == 256 * Pow256(s - 2) && Pow256(s - 2) == 256 * p;
    Arith.QuotientBounds(n, p, 0x8000, 0x80_0000);
    Arith.DivisionBounds(n, p);
  }

  lemma LargeCompact(n: nat, s: nat, p: nat)
    requires s == SignedSize(n) && s >= 3 && p == Pow256(s - 3)
    ensures GetCompact(n) == s * 0x100_0000 + n / p && n / p < 0x80_0000
    ensures SetCompact(GetCompact(n)) == (n / p) * p
  {
    LargeNumber(n, s, p);
    var m := n / p;
    CompactParts(s, m);
    assert n > 0 && MpiSize(n) == s;
  }

  lemma SmallCompact(n: nat)
    requires n == 0 || SignedSize(n) <= 2
    ensures SetCompact(GetCompact(n)) == n
  {
    if n > 0 && SignedSize(n) == 2 {
      SizeBounds(n);
      assert Pow256(1) == 256;
      CompactParts(2, n * 0x100);
    } else if n > 0 {
      SizeBounds(n);
      CompactParts(1, n * 0x1_0000);
    } else {
      CompactParts(0, 0);
    }
  }

  /** How small numbers are encoded. */
  lemma SmallForms(n: nat)
    requires n < 0x8000
    ensures GetCompact(n) == if n == 0 then 0 else if n < 0x80 then 0x0100_0000 + 0x1_0000 * n else 0x0200_0000 + 0x100 * n
  {
    if n >= 128 { assert n / 256 < 128 && SignedSize(n) == 1 + SignedSize(n / 256); }
  }

  /** What is below the three highest bytes is lost, less than one part in 2^15, and nothing is ever gained. */
  lemma CompactLoss(n: nat)
    ensures 0 <= SetCompact(GetCompact(n)) <= n
    ensures n > 0 ==> 0x8000 * (n - SetCompact(GetCompact(n))) < n
  {
    var s := SignedSize(n);
    hide SetCompact, GetCompact, SignedSize;
    if n > 0 && s >= 3 {
      LargeNumber(n, s, Pow256(s - 3));
      LargeCompact(n, s, Pow256(s - 3));
    } else {
      SmallCompact(n);
    }
  }

  lemma CompactParts(s: nat, m: nat)
    requires m < 0x80_0000
    ensures var c := s * 0x100_0000 + m;
            c / 0x100_0000 == s && c % 0x80_0000 == m && c % 0x100_0000 == m
  {
  }

  /** A target that has once been compact survives unchanged. */
  lemma CompactIsStable(n: nat)
    requires n > 0
    ensures SetCompact(GetCompact(n)) > 0
    ensures GetCompact(SetCompact(GetCompact(n))) == GetCompact(n)
  {
    var s := SignedSize(n);
    CompactLoss(n);
    hide SetCompact, GetCompact, SignedSize;
    if s >= 3 {
      var p := Pow256(s - 3);
      var v := (n / p) * p;
      LargeNumber(n, s, p);
      LargeCompact(n, s, p);
      SameSize(n, v, s, p);
      LargeCompact(v, s, p);
      WholeUnits(n / p, p);
    } else {
      SmallCompact(n);
    }
  }

  lemma SameSize(n: nat, v: nat, s: nat, p: nat)
    requires s >= 3 && p == Pow256(s - 3) && v == (n / p) * p && 0x8000 <= n / p < 0x80_0000
    ensures v > 0 && SignedSize(v) == s
  {
    assert Pow256(s - 1) == 256 * Pow256(s - 2) && Pow256(s - 2) == 256 * p;
    var m := n / p;
    Arith.ProductBounds(p, 0x8000, m);
    Arith.ProductBounds(p, m, 0x7F_FFFF);
    assert p * m == m * p == v;
    SizeUnique(v, s);
  }

  lemma WholeUnits(m: nat, p: nat)
    requires p >= 1
    ensures (m * p) / p == m
  {
    var q := (m * p) / p;
    Arith.DivisionBounds(m * p, p);
    assert p * (m - q) == m * p - q * p;
    Arith.ProductApart(p, m - q);
  }

  // ---------------------------------------------------------------- the rules by height

  const POW_LIMIT: nat := 0xF_FFFF_FFFF_FFFF_FFFF_FFFF_FFFF_FFFF_FFFF_FFFF_FFFF_FFFF_FFFF_FFFF_FFFF_FF
  const NEOSCRYPT_SWITCH: nat := 0x3F_FFFF_FFFF_FFFF_FFFF_FFFF_FFFF_FFFF_FFFF_FFFF_FFFF_FFFF_FFFF_FFFF_FFFF

  datatype Rule = Rule(spacing: nat, timespan: nat) {
    function Interval(): nat
      requires spacing > 0
    {
      timespan / spacing
    }
  }

  function RuleAt(h: nat, fTestNet: bool): (r: Rule)
    ensures r.spacing > 0 && r.timespan >= 109 && r.timespan == r.Interval() * r.spacing && r.Interval() >= 20
  {
    if h >= 154000 || (fTestNet && h >= 600) then Rule(90, 20 * 90)
    else if h >= 74100 || fTestNet then Rule(45, 126 * 45)
    else if h >= 69444 then Rule(50, 108 * 50)
    else if h >= 46500 then Rule(90, 600 * 90)
    else Rule(90, 2400 * 90)
  }

  predicate Averaged(h: nat, fTestNet: bool) { h >= 154000 || (fTestNet && h >= 600) }

  predicate HardFork(h: nat, fTestNet: bool) {
    if fTestNet then h == 600 || h == 3600
    else h == 46500 || h == 69444 || h == 74100 || h == 154000 || h == 400000
  }

  /** The timespan a retarget is measured against: five intervals once averaging is in force. */
  function Timespan(h: nat, fTestNet: bool): (r: nat)
    ensures r >= 109
  {
    if Averaged(h, fTestNet) then 5 * RuleAt(h, fTestNet).timespan else RuleAt(h, fTestNet).timespan
  }

  function SpanMax(h: nat, fTestNet: bool): nat {
    var T := Timespan(h, fTestNet);
    if h >= 400000 || (fTestNet && h >= 3600) then T * 105 / 100
    else if Averaged(h, fTestNet) then T * 102 / 100
    else if h >= 74100 then T * 109 / 100
    else if h >= 46500 then T * 99 / 55
    else T * 4
  }

  function SpanMin(h: nat, fTestNet: bool): nat {
    var T := Timespan(h, fTestNet);
    if Averaged(h, fTestNet) then T * 100 / 102
    else if h >= 74100 then T * 100 / 109
    else if h >= 46500 then T * 55 / 99
    else T / 4
  }

  lemma SpansInOrder(h: nat, fTestNet: bool)
    ensures SpanMin(h, fTestNet) <= Timespan(h, fTestNet) <= SpanMax(h, fTestNet)
  {
  }

  /** Division as the code's integers do it, towards zero. */
  function Quot(a: int, b: nat): int
    requires b > 0
  {
    if a >= 0 then a / b else -((-a) / b)
  }

  // ---------------------------------------------------------------- how long the last blocks took

  datatype Header = Header(time: int, bits: nat)

  /** How far back the basic window reaches. */
  function BasicWindow(nHeight: nat, fTestNet: bool): nat
    requires nHeight > 0
  {
    var n := RuleAt(nHeight, fTestNet).Interval() * (if Averaged(nHeight, fTestNet) then 5 else 1);
    if n >= nHeight then nHeight - 1 else n
  }

  /** Both windows lie within the chain: the walk back never falls off the genesis block. */
  lemma WindowsFit(nHeight: nat, fTestNet: bool)
    requires nHeight > 0
    ensures BasicWindow(nHeight, fTestNet) <= nHeight - 1
    ensures Averaged(nHeight, fTestNet) ==> 5 * BasicWindow(nHeight, fTestNet) <= nHeight - 1
  {
  }

  /** The measured timespan, before it is limited. */
  function Measured(t: Tree, last: Hash, head: Hash -> Header, fTestNet: bool): int
    requires WellFormed(t) && last in t
  {
    var nHeight := t[last].height + 1;
    WindowsFit(nHeight, fTestNet);
    var n := BasicWindow(nHeight, fTestNet);
    var basic := head(last).time - head(Back(t, last, n)).time;
    if !Averaged(nHeight, fTestNet) then basic
    else
      var extended := Quot(head(last).time - head(Back(t, last, 5 * n)).time, 5);
      Quot(Quot(basic + extended, 2) + 9 * Timespan(nHeight, fTestNet), 10)
  }

  function Clamp(v: int, low: nat, high: nat): int { if v < low then low else if v > high then high else v }

  function NewTarget(was: nat, span: nat, timespan: nat): nat
    requires timespan > 0
  {
    var n := was * span / timespan;
    if n > POW_LIMIT then POW_LIMIT else n
  }

  // ---------------------------------------------------------------- GetNextWorkRequired

  /** Follow `prev` a number of times; the chain is known to be long enough. */
  method WalkBack(t: Tree, h: Hash, from: Hash, ghost d: nat, n: nat) returns (r: Hash)
    requires WellFormed(t) && h in t && d + n <= t[h].height && from == Back(t, h, d)
    ensures r == Back(t, h, d + n)
  {
    r := from;
    for i := 0 to n
      invariant r == Back(t, h, d + i)
    {
      BranchPrefix(t, h, t[h].height - d - i);
      r := t[r].prev.value;
    }
  }

  method ComputeInterval(nHeight: nat, fTestNet: bool) returns (nInterval: nat)
    requires nHeight > 0
    ensures nInterval == BasicWindow(nHeight, fTestNet)
  {
    nInterval := RuleAt(nHeight, fTestNet).Interval();
    if Averaged(nHeight, fTestNet) {
      nInterval := nInterval * 5;
    }
    if nInterval >= nHeight {
      nInterval := nHeight - 1;
    }
  }

  method MeasureTimespan(t: Tree, last: Hash, head: Hash -> Header, fTestNet: bool) returns (nActualTimespan: int)
    requires WellFormed(t) && last in t
    ensures nActualTimespan == Measured(t, last, head, fTestNet)
    ensures Measures(t, last, head, fTestNet, nActualTimespan)
  {
    MeasuresIt(t, last, head, fTestNet);
    hide Measures;
    var nHeight := t[last].height + 1;
    var nInterval := ComputeInterval(nHeight, fTestNet);
    WindowsFit(nHeight, fTestNet);
    assert last == Back(t, last, 0);
    hide Quot, Back, BasicWindow, Timespan, RuleAt;
    var first := WalkBack(t, last, last, 0, nInterval);
    nActualTimespan := head(last).time - head(first).time;
    if Averaged(nHeight, fTestNet) {
      first := WalkBack(t, last, first, nInterval, nInterval * 4);
      var extended := Quot(head(last).time - head(first).time, 5);
      var avg := Quot(nActualTimespan + extended, 2);
      nActualTimespan := Quot(avg + 9 * Timespan(nHeight, fTestNet), 10);
    }
  }

  /** Where the walk of the test network stops: a target that is not the easiest, a boundary, or the root. */
  predicate Regular(t: Tree, x: Hash, head: Hash -> Header, nInterval: nat)
    requires x in t && nInterval > 0
  {
    t[x].prev.None? || t[x].height % nInterval == 0 || head(x).bits != GetCompact(POW_LIMIT)
  }

  /** `bits` is the target of the last regular block on the branch of `last`. */
  ghost predicate LastRegularBits(t: Tree, last: Hash, head: Hash -> Header, nInterval: nat, bits: nat)
    requires WellFormed(t) && last in t && nInterval > 0
  {
    exists d: nat :: d <= t[last].height && Back(t, last, d) in t && bits == head(Back(t, last, d)).bits
      && Regular(t, Back(t, last, d), head, nInterval)
      && forall e: nat :: e < d && Back(t, last, e) in t ==> !Regular(t, Back(t, last, e), head, nInterval)
  }

  method LastRegular(t: Tree, last: Hash, head: Hash -> Header, nInterval: nat) returns (bits: nat)
    requires WellFormed(t) && last in t && nInterval > 0
    ensures LastRegularBits(t, last, head, nInterval, bits)
  {
    hide Regular, Back, Branch, WellFormed, LastRegularBits;
    var pindex := last;
    ghost var d: nat := 0;
    BackHere(t, last);
    while !Regular(t, pindex, head, nInterval)
      invariant d <= t[last].height && pindex in t && pindex == Back(t, last, d) && t[pindex].height == t[last].height - d
      invariant AllIrregular(t, last, head, nInterval, d)
      decreases t[pindex].height
    {
      OneMoreBack(t, last, head, nInterval, d);
      pindex, d := t[pindex].prev.value, d + 1;
    }
    bits := head(pindex).bits;
    FirstRegular(t, last, head, nInterval, d);
  }

  ghost predicate AllIrregular(t: Tree, last: Hash, head: Hash -> Header, nInterval: nat, d: nat)
    requires WellFormed(t) && last in t && nInterval > 0 && d <= t[last].height + 1
  {
    forall e: nat :: e < d && Back(t, last, e) in t ==> !Regular(t, Back(t, last, e), head, nInterval)
  }

  lemma FirstRegular(t: Tree, last: Hash, head: Hash -> Header, nInterval: nat, d: nat)
    requires WellFormed(t) && last in t && nInterval > 0 && d <= t[last].height && Back(t, last, d) in t
    requires AllIrregular(t, last, head, nInterval, d) && Regular(t, Back(t, last, d), head, nInterval)
    ensures LastRegularBits(t, last, head, nInterval, head(Back(t, last, d)).bits)
  {
    hide Regular, Back, WellFormed;
  }

  lemma BackHere(t: Tree, last: Hash)
    requires WellFormed(t) && last in t
    ensures Back(t, last, 0) == last
  {
  }

  lemma OneMoreBack(t: Tree, last: Hash, head: Hash -> Header, nInterval: nat, d: nat)
    requires WellFormed(t) && last in t && nInterval > 0 && d <= t[last].height && Back(t, last, d) in t
    requires AllIrregular(t, last, head, nInterval, d) && !Regular(t, Back(t, last, d), head, nInterval)
    ensures d < t[last].height && AllIrregular(t, last, head, nInterval, d + 1)
    ensures t[Back(t, last, d)].prev == Some(Back(t, last, d + 1)) && Back(t, last, d + 1) in t
    ensures t[Back(t, last, d + 1)].height == t[last].height - d - 1
  {
    assert t[Back(t, last, d)].prev.Some?;
    ParentBack(t, last, d);
    hide Regular, Back;
  }

  lemma ParentBack(t: Tree, last: Hash, d: nat)
    requires WellFormed(t) && last in t && d <= t[last].height && Back(t, last, d) in t && t[Back(t, last, d)].prev.Some?
    ensures d < t[last].height && t[Back(t, last, d)].prev == Some(Back(t, last, d + 1)) && Back(t, last, d + 1) in t
    ensures t[Back(t, last, d + 1)].height == t[last].height - d - 1
  {
    BranchPrefix(t, last, t[last].height - d);
    if d < t[last].height {
      BranchPrefix(t, last, t[last].height - d - 1);
    }
  }

  predicate Retargets(nHeight: nat, fTestNet: bool) {
    nHeight % RuleAt(nHeight, fTestNet).Interval() == 0 || HardFork(nHeight, fTestNet)
  }

  /** The target for the block after `last`. */
  method GetNextWorkRequired(t: Tree, last: Option<Hash>, head: Hash -> Header, blockTime: int, fTestNet: bool)
    returns (bits: nat)
    requires WellFormed(t) && (last.Some? ==> last.value in t && SetCompact(head(last.value).bits) >= 0)
    ensures last.None? ==> bits == GetCompact(POW_LIMIT)
    ensures last.Some? ==>
              var nHeight := t[last.value].height + 1;
              && (nHeight == 400000 ==> bits == GetCompact(NEOSCRYPT_SWITCH))
              && (nHeight != 400000 && Retargets(nHeight, fTestNet) ==>
                    bits == GetCompact(NewTarget(SetCompact(head(last.value).bits), SpanAfter(t, last.value, head, fTestNet),
                                                 Timespan(nHeight, fTestNet))))
              && (nHeight != 400000 && !Retargets(nHeight, fTestNet) && !fTestNet ==> bits == head(last.value).bits)
              && (nHeight != 400000 && !Retargets(nHeight, fTestNet) && fTestNet ==>
                    if blockTime > head(last.value).time + RuleAt(nHeight, fTestNet).spacing * 2
                    then bits == GetCompact(POW_LIMIT)
                    else LastRegularBits(t, last.value, head, RuleAt(nHeight, fTestNet).Interval(), bits))
    ensures last.None? ==> bits == 0x1E0F_FFFF
    ensures last.Some? ==>
              var nHeight := t[last.value].height + 1;
              if nHeight == 400000 then bits == 0x1D3F_FFFF
              else if TargetChanges(nHeight, fTestNet) then exists m :: Follows(t, last.value, head, fTestNet, bits, m)
              else if !fTestNet then bits == head(last.value).bits
              else if blockTime - head(last.value).time > 2 * TermsOf(nHeight, fTestNet).spacing then bits == 0x1E0F_FFFF
              else LastSet(t, last.value, head, TermsOf(nHeight, fTestNet).interval, bits)
  {
    Limits();
    if last.Some? {
      TermsAre(t[last.value].height + 1, fTestNet);
      ChangesAre(t[last.value].height + 1, fTestNet);
      LastSetIs(t, last.value, head, RuleAt(t[last.value].height + 1, fTestNet).Interval());
    }
    hide LastRegularBits, LastSet, TermsOf, TargetChanges, Measures;
    if last.None? {
      return GetCompact(POW_LIMIT);
    }
    var pindexLast := last.value;
    var nHeight := t[pindexLast].height + 1;
    var rule := RuleAt(nHeight, fTestNet);
    if nHeight == 400000 {
      return GetCompact(NEOSCRYPT_SWITCH);
    }
    if nHeight % rule.Interval() != 0 && !HardFork(nHeight, fTestNet) {
      if fTestNet {
        if blockTime > head(pindexLast).time + rule.spacing * 2 {
          return GetCompact(POW_LIMIT);
        }
        bits := LastRegular(t, pindexLast, head, rule.Interval());
        return;
      }
      return head(pindexLast).bits;
    }
    bits := Retargeted(t, pindexLast, head, fTestNet);
  }

  /** GetNextWorkRequired where the target changes. */
  method Retargeted(t: Tree, pindexLast: Hash, head: Hash -> Header, fTestNet: bool) returns (bits: nat)
    requires WellFormed(t) && pindexLast in t && SetCompact(head(pindexLast).bits) >= 0
    ensures bits == GetCompact(NewTarget(SetCompact(head(pindexLast).bits), SpanAfter(t, pindexLast, head, fTestNet),
                                         Timespan(t[pindexLast].height + 1, fTestNet)))
    ensures exists m :: Follows(t, pindexLast, head, fTestNet, bits, m)
  {
    var nHeight := t[pindexLast].height + 1;
    var nActualTimespan := MeasureTimespan(t, pindexLast, head, fTestNet);
    SpansInOrder(nHeight, fTestNet);
    FollowsIs(t, pindexLast, head, fTestNet);
    if nActualTimespan < SpanMin(nHeight, fTestNet) {
      nActualTimespan := SpanMin(nHeight, fTestNet);
    }
    if nActualTimespan > SpanMax(nHeight, fTestNet) {
      nActualTimespan := SpanMax(nHeight, fTestNet);
    }
    var bnNew := SetCompact(head(pindexLast).bits);
    hide SetCompact, GetCompact, SpanMin, SpanMax, Timespan, Measured, Measures, TermsOf, Follows;
    bits := GetCompact(NewTarget(bnNew, nActualTimespan, Timespan(nHeight, fTestNet)));
  }

  lemma FollowsIs(t: Tree, last: Hash, head: Hash -> Header, fTestNet: bool)
    requires WellFormed(t) && last in t && SetCompact(head(last).bits) >= 0
    ensures var h := t[last].height + 1;
            var bits := GetCompact(NewTarget(SetCompact(head(last).bits), SpanAfter(t, last, head, fTestNet), Timespan(h, fTestNet)));
            Follows(t, last, head, fTestNet, bits, Measured(t, last, head, fTestNet))
  {
    hide SetCompact, GetCompact, SpanMin, SpanMax, Timespan, Measured, Measures, TermsOf, Share, NewTarget, WellFormed;
    MeasuresIt(t, last, head, fTestNet);
    TermsAre(t[last].height + 1, fTestNet);
    ShareIs(SetCompact(head(last).bits), SpanAfter(t, last, head, fTestNet), TermsOf(t[last].height + 1, fTestNet).timespan);
  }

  lemma ShareIs(was: nat, span: nat, timespan: nat)
    requires timespan > 0
    ensures NewTarget(was, span, timespan) == if Share(was, span, timespan) < POW_LIMIT then Share(was, span, timespan) else POW_LIMIT
  {
  }

  /** The measured timespan, limited. */
  function SpanAfter(t: Tree, last: Hash, head: Hash -> Header, fTestNet: bool): nat
    requires WellFormed(t) && last in t
  {
    var nHeight := t[last].height + 1;
    Clamp(Measured(t, last, head, fTestNet), SpanMin(nHeight, fTestNet), SpanMax(nHeight, fTestNet))
  }

  /** A retarget never exceeds the limit, nor the old target by more than the height's greatest factor, and falls
      short of its least factor by less than one part in 2^15. */
  lemma RetargetIsBounded(was: nat, span: nat, timespan: nat, low: nat, high: nat)
    requires timespan > 0 && low <= span <= high
    ensures var r := SetCompact(GetCompact(NewTarget(was, span, timespan)));
            && 0 <= r <= POW_LIMIT && r * timespan <= was * high
            && 0x8000 * r >= 0x7FFF * NewTarget(was, low, timespan)
  {
    var n := NewTarget(was, span, timespan);
    CompactLoss(n);
    Arith.ProductBounds(was, low, span);
    Arith.ProductBounds(was, span, high);
    QuotientMonotone(was * low, was * span, timespan);
    Arith.DivisionBounds(was * span, timespan);
    var r := SetCompact(GetCompact(n));
    Arith.ProductBounds(timespan, r, was * span / timespan);
    assert timespan * r == r * timespan && timespan * (was * span / timespan) == (was * span / timespan) * timespan;
  }

  /** So whatever the block times, the next target is within the limits of its height. */
  lemma NextTargetIsBounded(t: Tree, last: Hash, head: Hash -> Header, fTestNet: bool)
    requires WellFormed(t) && last in t && SetCompact(head(last).bits) >= 0
    ensures var h := t[last].height + 1;
            var was := SetCompact(head(last).bits);
            var r := SetCompact(GetCompact(NewTarget(was, SpanAfter(t, last, head, fTestNet), Timespan(h, fTestNet))));
            && 0 <= r <= POW_LIMIT && r * Timespan(h, fTestNet) <= was * SpanMax(h, fTestNet)
            && 0x8000 * r >= 0x7FFF * NewTarget(was, SpanMin(h, fTestNet), Timespan(h, fTestNet))
  {
    var h := t[last].height + 1;
    SpansInOrder(h, fTestNet);
    hide SetCompact, GetCompact, NewTarget, SpanMin, SpanMax, Timespan, Measured;
    RetargetIsBounded(SetCompact(head(last).bits), SpanAfter(t, last, head, fTestNet), Timespan(h, fTestNet),
                      SpanMin(h, fTestNet), SpanMax(h, fTestNet));
  }

  lemma QuotientMonotone(a: nat, b: nat, d: nat)
    requires a <= b && d > 0
    ensures 0 <= a / d <= b / d
  {
    Arith.DivisionBounds(a, d);
    Arith.DivisionBounds(b, d);
    assert d * (b / d - a / d) == (b / d) * d - (a / d) * d;
    Arith.ProductApart(d, b / d - a / d);
  }

  // ---------------------------------------------------------------- what the rules come to

  /** The rules of a height in seconds and blocks: spacing, blocks between retargets, the timespan aimed at, the limits of the
      one used, and whether it is averaged over 100 and 500 blocks. */
  datatype Terms = Terms(spacing: nat, interval: nat, timespan: nat, low: nat, high: nat, wide: bool)

  ghost function TermsOf(h: nat, fTestNet: bool): (r: Terms)
    ensures 0 < r.interval && 0 < r.low <= r.timespan <= r.high
  {
    if fTestNet then
      if h < 600 then Terms(45, 126, 5670, 1417, 22680, false)
      else if h < 3600 then Terms(90, 20, 9000, 8823, 9180, true)
      else Terms(90, 20, 9000, 8823, 9450, true)
    else if h < 46500 then Terms(90, 2400, 216000, 54000, 864000, false)
    else if h < 69444 then Terms(90, 600, 54000, 30000, 97200, false)
    else if h < 74100 then Terms(50, 108, 5400, 3000, 9720, false)
    else if h < 154000 then Terms(45, 126, 5670, 5201, 6180, false)
    else if h < 400000 then Terms(90, 20, 9000, 8823, 9180, true)
    else Terms(90, 20, 9000, 8823, 9450, true)
  }

  lemma TermsAre(h: nat, fTestNet: bool)
    ensures var x := TermsOf(h, fTestNet);
            && RuleAt(h, fTestNet).spacing == x.spacing && RuleAt(h, fTestNet).Interval() == x.interval
            && Timespan(h, fTestNet) == x.timespan && SpanMin(h, fTestNet) == x.low && SpanMax(h, fTestNet) == x.high
            && (Averaged(h, fTestNet) <==> x.wide)
  {
  }

  /** The heights at which the target may change. */
  ghost predicate TargetChanges(h: nat, fTestNet: bool) {
    || h % TermsOf(h, fTestNet).interval == 0
    || (if fTestNet then h == 600 || h == 3600 else h == 46500 || h == 69444 || h == 74100 || h == 154000 || h == 400000)
  }

  lemma ChangesAre(h: nat, fTestNet: bool)
    ensures Retargets(h, fTestNet) <==> TargetChanges(h, fTestNet)
  {
    TermsAre(h, fTestNet);
  }

  /** How long the last `n` blocks took. */
  ghost function Took(t: Tree, last: Hash, head: Hash -> Header, n: nat): int
    requires WellFormed(t) && last in t && n <= t[last].height
  {
    head(last).time - head(Back(t, last, n)).time
  }

  /** `m` is the time measured before height `h`. Under averaging it is nine parts in ten the aim, and one part the mean of
      the last 100 blocks and a fifth of the last 500, to a second, rounded down if the blocks took any time. */
  ghost predicate Measures(t: Tree, last: Hash, head: Hash -> Header, fTestNet: bool, m: int)
    requires WellFormed(t) && last in t
  {
    var h := t[last].height + 1;
    var x := TermsOf(h, fTestNet);
    if x.wide then
      h > 500
      && var short, long := Took(t, last, head, 100), Took(t, last, head, 500);
      && -99 <= 100 * m - (5 * short + long + 810_000) <= 99
      && (long >= 0 && 5 * short + long >= 0 ==> 100 * m <= 5 * short + long + 810_000)
      && (long < 0 && short + (long + 4) / 5 >= 0 ==> m == ((short + (long + 4) / 5) / 2 + 81_000) / 10)
    else m == Took(t, last, head, if x.interval < h then x.interval else h - 1)
  }

  lemma MeasuresIt(t: Tree, last: Hash, head: Hash -> Header, fTestNet: bool)
    requires WellFormed(t) && last in t
    ensures Measures(t, last, head, fTestNet, Measured(t, last, head, fTestNet))
  {
    var h := t[last].height + 1;
    TermsAre(h, fTestNet);
    WindowsFit(h, fTestNet);
    var n := BasicWindow(h, fTestNet);
    MeasuredIs(t, last, head, fTestNet, n, 5 * n);
    hide Measured, Took, Back, Quot, RuleAt;
    if Averaged(h, fTestNet) {
      assert n == 100;
      DampedMean(Took(t, last, head, 100), Took(t, last, head, 500));
    }
  }

  lemma DampedMean(short: int, long: int)
    ensures var m := Quot(Quot(short + Quot(long, 5), 2) + 81_000, 10);
            && -99 <= 100 * m - (5 * short + long + 810_000) <= 99
            && (long >= 0 && 5 * short + long >= 0 ==> 100 * m <= 5 * short + long + 810_000)
            && (long < 0 && short + (long + 4) / 5 >= 0 ==> m == ((short + (long + 4) / 5) / 2 + 81_000) / 10)
  {
    var e := Quot(long, 5);
    var a := Quot(short + e, 2);
    QuotBounds(long, 5);
    QuotBounds(short + e, 2);
    QuotBounds(a + 81_000, 10);
  }

  lemma QuotBounds(a: int, b: nat)
    requires b > 0
    ensures 0 - b < a - b * Quot(a, b) < b && (a >= 0 ==> a >= b * Quot(a, b)) && (a <= 0 ==> a <= b * Quot(a, b))
    ensures a >= 0 ==> Quot(a, b) >= 0
  {
    if a >= 0 { Arith.DivisionBounds(a, b); } else { Arith.DivisionBounds(-a, b); }
  }

  /** The new target: the old one in the proportion of the time measured, within the limits, to the aim. */
  ghost predicate Follows(t: Tree, last: Hash, head: Hash -> Header, fTestNet: bool, bits: nat, m: int)
    requires WellFormed(t) && last in t
  {
    var x, was := TermsOf(t[last].height + 1, fTestNet), SetCompact(head(last).bits);
    && Measures(t, last, head, fTestNet, m) && was >= 0
    && var span: nat := if m <= x.low then x.low else if m >= x.high then x.high else m;
    && var scaled := Share(was, span, x.timespan);
    && bits == GetCompact(if scaled < POW_LIMIT then scaled else POW_LIMIT)
  }

  ghost function Share(a: nat, part: nat, whole: nat): nat
    requires whole > 0
  {
    Arith.ProductNonNegative(a, part);
    a * part / whole
  }

  /** The two fixed targets: 236 and 230 bits of ones. */
  lemma Limits()
    ensures GetCompact(POW_LIMIT) == 0x1E0F_FFFF && GetCompact(NEOSCRYPT_SWITCH) == 0x1D3F_FFFF
  {
    Powers();
    hide Pow256, SetCompact, GetCompact;
    CompactOf(POW_LIMIT, 30, Pow256(27));
    CompactOf(NEOSCRYPT_SWITCH, 29, Pow256(26));
  }

  lemma Powers()
    ensures Pow256(26) == 0x1_0000_0000_0000_0000_0000_0000_0000_0000_0000_0000_0000_0000_0000
    ensures Pow256(27) == 0x100_0000_0000_0000_0000_0000_0000_0000_0000_0000_0000_0000_0000_0000
  {
    assert Pow256(1) == 256;
    PowSum(1, 1);
    PowSum(2, 2);
    PowSum(4, 4);
    PowSum(8, 8);
    PowSum(16, 8);
    PowSum(24, 2);
    PowSum(26, 1);
  }

  lemma CompactOf(n: nat, s: nat, p: nat)
    requires s >= 3 && p == Pow256(s - 3) && n < 0x80_0000 * p && n >= 0x8000 * p
    ensures GetCompact(n) == s * 0x100_0000 + n / p
  {
    assert Pow256(s - 1) == 256 * Pow256(s - 2) && Pow256(s - 2) == 256 * p;
    SizeUnique(n, s);
    hide SetCompact, GetCompact;
    LargeCompact(n, s, p);
  }

  lemma {:induction false} PowSum(a: nat, b: nat)
    ensures Pow256(a + b) == Pow256(a) * Pow256(b)
  {
    if a > 0 {
      PowSum(a - 1, b);
      assert a - 1 + b == a + b - 1;
    }
  }

  /** A target was set at `x`: it is not the easiest, or its height is one at which targets are set, or it is the first. */
  ghost predicate SetAt(t: Tree, x: Hash, head: Hash -> Header, interval: nat)
    requires x in t && interval > 0
  {
    head(x).bits != 0x1E0F_FFFF || t[x].height % interval == 0 || t[x].prev == None
  }

  /** `bits` is the target of the last block on the branch of `last` at which one was set. */
  ghost predicate LastSet(t: Tree, last: Hash, head: Hash -> Header, interval: nat, bits: nat)
    requires WellFormed(t) && last in t && interval > 0
  {
    exists d: nat :: d <= t[last].height && Back(t, last, d) in t && bits == head(Back(t, last, d)).bits
      && SetAt(t, Back(t, last, d), head, interval)
      && forall e: nat :: e < d && Back(t, last, e) in t ==> !SetAt(t, Back(t, last, e), head, interval)
  }

  lemma LastSetIs(t: Tree, last: Hash, head: Hash -> Header, interval: nat)
    requires WellFormed(t) && last in t && interval > 0
    ensures forall bits :: LastSet(t, last, head, interval, bits) <==> LastRegularBits(t, last, head, interval, bits)
  {
    Limits();
    forall x | x in t ensures SetAt(t, x, head, interval) <==> Regular(t, x, head, interval) { }
    hide Back, GetCompact;
  }

  // ---------------------------------------------------------------- what they do to the target

  /** Encoding keeps the order of numbers. */
  lemma CompactMonotone(m: nat, n: nat)
    requires m <= n
    ensures SetCompact(GetCompact(m)) <= SetCompact(GetCompact(n))
  {
    CompactLoss(m);
    CompactLoss(n);
    hide SetCompact, GetCompact, SignedSize;
    if n == 0 || SignedSize(n) <= 2 {
      SmallCompact(n);
    } else if m > 0 && SignedSize(m) == SignedSize(n) {
      SameSizeMonotone(m, n, Pow256(SignedSize(n) - 3));
    } else {
      var p := Pow256(SignedSize(n) - 3);
      LargeNumber(n, SignedSize(n), p);
      LargeCompact(n, SignedSize(n), p);
      SmallerSize(m, n);
      Arith.ProductBounds(p, 0x8000, n / p);
      assert p * (n / p) == (n / p) * p;
    }
  }

  lemma SameSizeMonotone(m: nat, n: nat, p: nat)
    requires m <= n && SignedSize(m) == SignedSize(n) >= 3 && p == Pow256(SignedSize(n) - 3)
    ensures SetCompact(GetCompact(m)) <= SetCompact(GetCompact(n))
  {
    hide SetCompact, GetCompact, SignedSize;
    LargeCompact(n, SignedSize(n), p);
    LargeCompact(m, SignedSize(n), p);
    QuotientMonotone(m, n, p);
    Arith.ProductBounds(p, m / p, n / p);
    assert p * (m / p) == (m / p) * p && p * (n / p) == (n / p) * p;
  }

  lemma {:induction false} SizeMonotone(m: nat, n: nat)
    requires m <= n
    ensures SignedSize(m) <= SignedSize(n)
    decreases n
  {
    if m >= 128 {
      SizeMonotone(m / 256, n / 256);
    }
  }

  lemma SmallerSize(m: nat, n: nat)
    requires m <= n && SignedSize(n) >= 3 && (m == 0 || SignedSize(m) != SignedSize(n))
    ensures m < 0x8000 * Pow256(SignedSize(n) - 3)
  {
    var s := SignedSize(n);
    assert Pow256(s - 2) == 256 * Pow256(s - 3);
    SizeMonotone(m, n);
    SizeBounds(m);
    if m > 0 { PowMonotone(SignedSize(m) - 1, s - 2); }
  }

  lemma {:induction false} PowMonotone(a: nat, b: nat)
    requires a <= b
    ensures Pow256(a) <= Pow256(b)
  {
    if a < b { PowMonotone(a, b - 1); }
  }

  function Least(a: nat, b: nat): nat { if a < b then a else b }

  /** All windows took as long as they should, or longer, or shorter. */
  ghost predicate OnTime(t: Tree, last: Hash, head: Hash -> Header, fTestNet: bool)
    requires WellFormed(t) && last in t
  {
    var x := TermsOf(t[last].height + 1, fTestNet);
    if x.wide then t[last].height >= 500 && Took(t, last, head, 100) == 100 * 90 && Took(t, last, head, 500) == 500 * 90
    else x.interval <= t[last].height && Took(t, last, head, x.interval) == x.interval * x.spacing
  }

  ghost predicate Slow(t: Tree, last: Hash, head: Hash -> Header, fTestNet: bool)
    requires WellFormed(t) && last in t
  {
    var x := TermsOf(t[last].height + 1, fTestNet);
    if x.wide then t[last].height >= 500 && Took(t, last, head, 100) >= 100 * 90 && Took(t, last, head, 500) >= 500 * 90
    else x.interval <= t[last].height && Took(t, last, head, x.interval) >= x.interval * x.spacing
  }

  ghost predicate Fast(t: Tree, last: Hash, head: Hash -> Header, fTestNet: bool)
    requires WellFormed(t) && last in t
  {
    var x := TermsOf(t[last].height + 1, fTestNet);
    if x.wide then t[last].height >= 500 && Took(t, last, head, 100) <= 100 * 90 && Took(t, last, head, 500) <= 500 * 90
    else x.interval <= t[last].height && Took(t, last, head, x.interval) <= x.interval * x.spacing
  }

  /** Blocks on time leave the target, slow ones do not lower it, and fast ones do not raise it. */
  lemma TargetAnswers(t: Tree, last: Hash, head: Hash -> Header, fTestNet: bool, bits: nat, m: int)
    requires WellFormed(t) && last in t && Follows(t, last, head, fTestNet, bits, m)
    ensures var was := GetCompact(Least(SetCompact(head(last).bits), POW_LIMIT));
            && (OnTime(t, last, head, fTestNet) ==> bits == was)
            && (Slow(t, last, head, fTestNet) ==> SetCompact(bits) >= SetCompact(was))
            && (Fast(t, last, head, fTestNet) ==> SetCompact(bits) <= SetCompact(was))
  {
    var x, was := TermsOf(t[last].height + 1, fTestNet), SetCompact(head(last).bits);
    var span := if m <= x.low then x.low else if m >= x.high then x.high else m;
    if Slow(t, last, head, fTestNet) { assert span >= x.timespan; }
    if Fast(t, last, head, fTestNet) { assert span <= x.timespan; }
    hide Took, SetCompact, GetCompact;
    Proportion(was, span, x.timespan);
    var n := Least(was * span / x.timespan, POW_LIMIT);
    if Slow(t, last, head, fTestNet) { CompactMonotone(Least(was, POW_LIMIT), n); }
    if Fast(t, last, head, fTestNet) { CompactMonotone(n, Least(was, POW_LIMIT)); }
  }

  lemma Proportion(was: nat, span: nat, timespan: nat)
    requires timespan > 0
    ensures was * span / timespan >= 0
    ensures span >= timespan ==> was * span / timespan >= was
    ensures span <= timespan ==> was * span / timespan <= was
  {
    Exactly(was, timespan);
    if span >= timespan {
      Arith.ProductBounds(was, timespan, span);
      QuotientMonotone(was * timespan, was * span, timespan);
    }
    if span <= timespan {
      Arith.ProductBounds(was, span, timespan);
      QuotientMonotone(was * span, was * timespan, timespan);
    }
  }

  lemma Exactly(a: nat, d: nat)
    requires d > 0
    ensures a * d / d == a && a * d >= 0
  {
    Arith.ProductNonNegative(a, d);
    WholeUnits(a, d);
  }

  /** The same blocks with a later time stamp of the last one: the next target is not lower. */
  method LaterIsNotHarder(t: Tree, last: Hash, head: Hash -> Header, late: Hash -> Header, blockTime: int, fTestNet: bool)
      returns (bits: nat, eased: nat)
    requires WellFormed(t) && last in t && SetCompact(head(last).bits) >= 0
    requires TargetChanges(t[last].height + 1, fTestNet)
    requires late(last).time >= head(last).time && late(last).bits == head(last).bits && forall x :: x != last ==> late(x) == head(x)
    ensures SetCompact(bits) <= SetCompact(eased)
  {
    var h := t[last].height + 1;
    ChangesAre(h, fTestNet);
    bits := GetNextWorkRequired(t, Some(last), head, blockTime, fTestNet);
    eased := GetNextWorkRequired(t, Some(last), late, blockTime, fTestNet);
    hide SetCompact, GetCompact, SpanAfter, NewTarget, Timespan, TargetChanges, Retargets;
    if h != 400000 {
      LaterSpan(t, last, head, late, fTestNet);
      ghost var aim := Timespan(h, fTestNet);
      LongerIsNotHarder(SetCompact(head(last).bits), SpanAfter(t, last, head, fTestNet), SpanAfter(t, last, late, fTestNet), aim);
    }
  }

  lemma LongerIsNotHarder(was: nat, span: nat, more: nat, timespan: nat)
    requires span <= more && timespan > 0
    ensures SetCompact(GetCompact(NewTarget(was, span, timespan))) <= SetCompact(GetCompact(NewTarget(was, more, timespan)))
  {
    hide SetCompact, GetCompact;
    Arith.ProductBounds(was, span, more);
    QuotientMonotone(was * span, was * more, timespan);
    CompactMonotone(NewTarget(was, span, timespan), NewTarget(was, more, timespan));
  }

  lemma LaterSpan(t: Tree, last: Hash, head: Hash -> Header, late: Hash -> Header, fTestNet: bool)
    requires WellFormed(t) && last in t && late(last).time >= head(last).time && forall x :: x != last ==> late(x) == head(x)
    ensures SpanAfter(t, last, head, fTestNet) <= SpanAfter(t, last, late, fTestNet)
  {
    LaterMeasured(t, last, head, late, fTestNet);
    hide Measured;
    SpansInOrder(t[last].height + 1, fTestNet);
  }

  lemma LaterMeasured(t: Tree, last: Hash, head: Hash -> Header, late: Hash -> Header, fTestNet: bool)
    requires WellFormed(t) && last in t && late(last).time >= head(last).time && forall x :: x != last ==> late(x) == head(x)
    ensures Measured(t, last, head, fTestNet) <= Measured(t, last, late, fTestNet)
  {
    hide Took, Measured, BasicWindow, Timespan, Quot;
    var h := t[last].height + 1;
    WindowsFit(h, fTestNet);
    var n := BasicWindow(h, fTestNet);
    MeasuredIs(t, last, head, fTestNet, n, 5 * n);
    MeasuredIs(t, last, late, fTestNet, n, 5 * n);
    LaterWindow(t, last, head, late, n);
    if Averaged(h, fTestNet) {
      LaterWindow(t, last, head, late, 5 * n);
      LaterMean(Took(t, last, head, n), Took(t, last, head, 5 * n), Took(t, last, late, n), Took(t, last, late, 5 * n), 9 * Timespan(h, fTestNet));
    }
  }

  lemma MeasuredIs(t: Tree, last: Hash, head: Hash -> Header, fTestNet: bool, n: nat, five: nat)
    requires WellFormed(t) && last in t && n == BasicWindow(t[last].height + 1, fTestNet) <= t[last].height && five == 5 * n
    requires Averaged(t[last].height + 1, fTestNet) ==> five <= t[last].height
    ensures Measured(t, last, head, fTestNet)
         == if !Averaged(t[last].height + 1, fTestNet) then Took(t, last, head, n)
            else Quot(Quot(Took(t, last, head, n) + Quot(Took(t, last, head, five), 5), 2) + 9 * Timespan(t[last].height + 1, fTestNet), 10)
  {
    hide BasicWindow, Timespan, Quot, Back;
  }

  lemma LaterMean(short: int, long: int, short': int, long': int, c: int)
    requires short <= short' && long <= long'
    ensures Quot(Quot(short + Quot(long, 5), 2) + c, 10) <= Quot(Quot(short' + Quot(long', 5), 2) + c, 10)
  {
    hide Quot;
    QuotMonotone(long, long', 5);
    QuotMonotone(short + Quot(long, 5), short' + Quot(long', 5), 2);
    QuotMonotone(Quot(short + Quot(long, 5), 2) + c, Quot(short' + Quot(long', 5), 2) + c, 10);
  }

  lemma LaterWindow(t: Tree, last: Hash, head: Hash -> Header, late: Hash -> Header, n: nat)
    requires WellFormed(t) && last in t && n <= t[last].height
    requires late(last).time >= head(last).time && forall x :: x != last ==> late(x) == head(x)
    ensures Took(t, last, head, n) <= Took(t, last, late, n)
  {
    BranchPrefix(t, last, t[last].height - n);
    BranchPrefix(t, last, t[last].height);
  }

  lemma QuotMonotone(a: int, b: int, d: nat)
    requires d > 0 && a <= b
    ensures Quot(a, d) <= Quot(b, d)
  {
    if a >= 0 {
      QuotientMonotone(a, b, d);
    } else if b < 0 {
      QuotientMonotone(-b, -a, d);
    } else {
      Arith.DivisionBounds(b, d);
      QuotBounds(b, d);
      Arith.DivisionBounds(-a, d);
      QuotientMonotone(0, -a, d);
    }
  }
}

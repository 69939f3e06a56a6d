/** The quick money-supply calculator against the sum of the block rewards. */
module MoneySupply {
  import opened Basics
  import opened ConnectSpec

  /** What blocks 0 to `h` pay without fees. */
  function Paid(fTestNet: bool, h: nat): int {
    if h == 0 then SubsidyOn(fTestNet, 0) else Paid(fTestNet, h - 1) + SubsidyOn(fTestNet, h)
  }

  /** GetMoneySupply, branch by branch. */
  method GetMoneySupply(nHeight: nat, fTestNet: bool) returns (nMoneySupply: int)
    ensures nMoneySupply == Supply(fTestNet, nHeight)
  {
    nMoneySupply := 0;
    if !fTestNet {
      if nHeight < 74100 {
        return (nHeight + 1) * 50 * COIN;
      }
      nMoneySupply := 74100 * 50 * COIN;
      if nHeight < 154000 {
        return nMoneySupply + (nHeight - 74100 + 1) * 25 * COIN;
      }
      nMoneySupply := nMoneySupply + (154000 - 74100) * 25 * COIN;
      if nHeight < 1000000 {
        return nMoneySupply + (nHeight - 154000 + 1) * 50 * COIN;
      }
      nMoneySupply := nMoneySupply + (1000000 - 154000) * 50 * COIN;
      if nHeight < 2000000 {
        return nMoneySupply + (nHeight - 1000000 + 1) * 25 * COIN;
      }
      nMoneySupply := nMoneySupply + (2000000 - 1000000) * 25 * COIN;
      if nHeight < 3000000 {
        return nMoneySupply + (nHeight - 2000000 + 1) * 25 * COIN / 2;
      }
      nMoneySupply := nMoneySupply + (3000000 - 2000000) * 25 * COIN / 2;
      if nHeight < 4000000 {
        return nMoneySupply + (nHeight - 3000000 + 1) * 25 * COIN / 4;
      }
      nMoneySupply := nMoneySupply + (4000000 - 3000000) * 25 * COIN / 4;
    } else {
      if nHeight < 600 {
        return nHeight * 25 * COIN;
      }
      nMoneySupply := 600 * 25 * COIN;
      if nHeight < 1000000 {
        return nMoneySupply + (nHeight - 600 + 1) * 50 * COIN;
      }
      nMoneySupply := nMoneySupply + (1000000 - 600) * 50 * COIN;
      if nHeight < 2000000 {
        return nMoneySupply + (nHeight - 1000000 + 1) * 25 * COIN;
      }
      nMoneySupply := nMoneySupply + (2000000 - 1000000) * 25 * COIN;
    }
  }

  /** How far `h` reaches into the heights from `lo` to `hi - 1`, counting `h` itself. */
  function Reach(h: int, lo: int, hi: int): int {
    if h < lo then 0 else if h < hi then h - lo + 1 else hi - lo
  }

  /** The calculator as one sum over its reward periods. */
  function Supply(fTestNet: bool, h: nat): int {
    if fTestNet then
      Reach(h, 1, 600) * 25 * COIN + (if h < 600 then 0 else 25 * COIN)
      + Reach(h, 600, 1_000_000) * 50 * COIN + Reach(h, 1_000_000, 2_000_000) * 25 * COIN
    else
      Reach(h, 0, 74100) * 50 * COIN + Reach(h, 74100, 154000) * 25 * COIN + Reach(h, 154000, 1_000_000) * 50 * COIN
      + Reach(h, 1_000_000, 2_000_000) * 25 * COIN + Reach(h, 2_000_000, 3_000_000) * 25 * COIN / 2
      + Reach(h, 3_000_000, 4_000_000) * 25 * COIN / 4
  }

  lemma SubsidyByPeriod(fTestNet: bool, h: nat)
    requires h < 4_000_000
    ensures SubsidyOn(fTestNet, h) ==
      if (74100 <= h < 154000) || (fTestNet && h < 600) then 25 * COIN
      else if h < 1_000_000 then 50 * COIN
      else if h < 2_000_000 then 25 * COIN
      else if h < 3_000_000 then 25 * COIN / 2
      else 25 * COIN / 4
  {
    assert Pow2(0) == 1 && Pow2(1) == 2;
    assert Pow2(2) == 2 * Pow2(1) && Pow2(3) == 2 * Pow2(2);
    assert h / 1_000_000 == if h < 1_000_000 then 0 else if h < 2_000_000 then 1 else if h < 3_000_000 then 2 else 3;
  }

  lemma {:induction false} PaidMain(h: nat)
    requires h < 4_000_000
    ensures Paid(false, h) == Supply(false, h)
  {
    hide SubsidyOn;
    SubsidyByPeriod(false, h);
    if h > 0 {
      PaidMain(h - 1);
    }
  }

  /** What the test network really pays, period by period, below height 3,000,000. */
  lemma {:induction false} PaidTest(h: nat)
    requires h < 3_000_000
    ensures Paid(true, h) ==
      Reach(h, 0, 600) * 25 * COIN + Reach(h, 600, 74100) * 50 * COIN + Reach(h, 74100, 154000) * 25 * COIN
      + Reach(h, 154000, 1_000_000) * 50 * COIN + Reach(h, 1_000_000, 2_000_000) * 25 * COIN
      + Reach(h, 2_000_000, 3_000_000) * 25 * COIN / 2
  {
    hide SubsidyOn;
    SubsidyByPeriod(true, h);
    if h > 0 {
      PaidTest(h - 1);
    }
  }

  lemma {:induction false} PaidGrows(fTestNet: bool, h: nat, k: nat)
    requires h <= k
    ensures Paid(fTestNet, h) <= Paid(fTestNet, k)
    decreases k - h
  {
    hide SubsidyOn;
    if h < k {
      PaidGrows(fTestNet, h, k - 1);
      SubsidyNonNegative(fTestNet, k);
    }
  }

  lemma SubsidyNonNegative(fTestNet: bool, h: nat)
    ensures SubsidyOn(fTestNet, h) >= 0
  {
    QuotientNonNegative(if (74100 <= h < 154000) || (fTestNet && h < 600) then 25 * COIN else 50 * COIN,
                        Pow2(h / 1_000_000));
  }

  lemma QuotientNonNegative(a: nat, b: int)
    requires b > 0
    ensures a / b >= 0
  {
  }

  lemma StillPays()
    ensures SubsidyOn(false, 4_000_000) > 0
  {
    assert Pow2(3) == 2 * Pow2(2) == 4 * Pow2(1) && Pow2(1) == 2;
    assert Pow2(4) == 16 && 4_000_000 / 1_000_000 == 4;
  }

  /** On the main network the calculator is right exactly below height 4,000,000, where it stops growing
      although blocks still pay. */
  lemma MainSupplyExact(h: nat)
    ensures Supply(false, h) == Paid(false, h) <==> h < 4_000_000
  {
    hide SubsidyOn;
    if h < 4_000_000 {
      PaidMain(h);
    } else {
      PaidMain(3_999_999);
      PaidGrows(false, 4_000_000, h);
      StillPays();
    }
  }

  /** On the test network it leaves out the genesis block's 25 coins below height 600 and never counts the
      25-coin window from 74,100 on, so it is right only in between - and once more, by accident, where its
      last constant meets the growing sum. */
  lemma TestSupplyExact(h: nat)
    ensures Supply(true, h) == Paid(true, h) <==> 600 <= h < 74100 || h == 2_159_799
  {
    hide SubsidyOn;
    if h < 3_000_000 {
      PaidTest(h);
    } else {
      PaidTest(2_999_999);
      PaidGrows(true, 2_999_999, h);
    }
  }
}

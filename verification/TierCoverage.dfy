/**
 The billed quantity: when it is the smallest quantity the tiers can cover a
 request with, and concrete ladders on which the engine's stated expectations fail.
 */
module TierCoverage {
  import opened DivMod
  import opened TierStack
  import opened TierCost
  import opened TierOptimality

  ghost predicate SmallestDividesAll(tiers: seq<Tier>)
    requires tiers != [] && Ladder(tiers)
  {
    forall i | 0 <= i < |tiers| :: tiers[i].qty % Last(tiers).qty == 0
  }

  /** No combination of tiers covers a request the engine is willing to stack with fewer items. */
  ghost predicate BillsLeastCover(tiers: seq<Tier>)
    requires tiers != [] && Ladder(tiers)
  {
    forall n: nat, k: seq<nat> | !TooMany(n, tiers[0]) && |k| == |tiers| && QtyOf(tiers, k) >= n ::
      GreedyQty(tiers, n) <= QtyOf(tiers, k)
  }

  lemma {:induction false} QtyIsMultiple(tiers: seq<Tier>, k: seq<nat>, s: nat) returns (m: nat)
    requires |k| == |tiers| && s > 0 && forall i | 0 <= i < |tiers| :: tiers[i].qty % s == 0
    ensures QtyOf(tiers, k) == m * s
  {
    if tiers == [] {
      m := 0;
    } else {
      assert forall i | 0 <= i < |tiers[1..]| :: tiers[1..][i] == tiers[i + 1];
      var rest := QtyIsMultiple(tiers[1..], k[1..], s);
      DivModLaw(tiers[0].qty, s);
      var q := tiers[0].qty / s;
      m := k[0] * q + rest;
      assert k[0] * (q * s) == (k[0] * q) * s;
      MulDistributes(k[0] * q, rest, s);
    }
  }

  lemma SmallestCoverOfMultiples(n: nat, s: nat, billed: nat, other: nat)
    requires s > 0 && billed < n + s && n <= other * s
    ensures billed < (other + 1) * s
  {
    MulDistributes(other, 1, s);
  }

  lemma {:induction false} LastOnly(tiers: seq<Tier>, c: nat) returns (k: seq<nat>)
    requires tiers != []
    ensures |k| == |tiers| && QtyOf(tiers, k) == c * Last(tiers).qty
  {
    if |tiers| == 1 {
      k := [c];
      assert QtyOf(tiers[1..], k[1..]) == 0;
    } else {
      var tail := LastOnly(tiers[1..], c);
      k := [0] + tail;
      assert k[1..] == tail;
    }
  }

  lemma OneItemLeft(tiers: seq<Tier>, n: nat, i: nat)
    requires Ladder(tiers) && i < |tiers| && Last(tiers).qty > 1
    requires n == tiers[i].qty + 1 && Fit(tiers, n) == i
    ensures GreedyQty(tiers, n) == tiers[i].qty + Last(tiers).qty
  {
    var s := Last(tiers);
    assert Fit(tiers, 1) == |tiers|;
    assert Greedy(tiers, 1) == [s];
    assert Greedy(tiers, n) == [tiers[i]] + [s];
    GreedyIsChain(tiers, n);
    TotalsOfExpand(tiers, Counts(tiers, n));
    TotalsOfAppend([tiers[i]], [s]);
  }

  lemma NextMultipleIsCloser(t: nat, s: nat) returns (c: nat)
    requires s > 0 && t % s != 0
    ensures t + 1 <= c * s < t + s
  {
    DivModLaw(t, s);
    c := t / s + 1;
    MulDistributes(t / s, 1, s);
  }

  lemma NoTwoMultiplesInARow(t: nat, s: nat)
    requires s > 1 && t % s == 0
    ensures (t + 1) % s == 1
  {
    DivModLaw(t, s);
    DivModUnique(t + 1, s, t / s, 1);
  }

  lemma FitsAt(tiers: seq<Tier>, n: nat, i: nat)
    requires Ladder(tiers) && i < |tiers| && tiers[i].qty <= n && (i > 0 ==> tiers[i - 1].qty > n)
    ensures Fit(tiers, n) == i
  {
  }

  lemma ModOneIsZero(t: nat, s: nat)
    requires s > 0 && t % s != 0
    ensures s > 1
  {
  }

  /** Two neighbouring tiers t+1, t with t indivisible: a request for t + 2 is over-billed. */
  lemma OverbilledAfterNeighbour(tiers: seq<Tier>, i: nat) returns (n: nat, k: seq<nat>)
    requires Ladder(tiers) && 0 < i < |tiers| && tiers[i - 1].qty == tiers[i].qty + 1 && Last(tiers).qty > 1
    requires forall j | 0 <= j < i :: tiers[j].qty % Last(tiers).qty == 0
    ensures n == tiers[i].qty + 2 && |k| == |tiers| && QtyOf(tiers, k) >= n
    ensures GreedyQty(tiers, n) > QtyOf(tiers, k)
  {
    n := tiers[i].qty + 2;
    k := LastOnly(tiers, 1);
    OneMore(tiers, k, i);
    k := k[i := k[i] + 1];
    if i > 1 {
      NoTwoMultiplesInARow(tiers[i - 1].qty, Last(tiers).qty);
      assert tiers[i - 2].qty != n;
    }
    FitsAt(tiers, n, i - 1);
    OneItemLeft(tiers, n, i - 1);
  }

  /** A largest tier that the smallest one does not divide gives a request that is over-billed. */
  lemma OverbilledRequest(tiers: seq<Tier>, i: nat) returns (n: nat, k: seq<nat>)
    requires tiers != [] && Ladder(tiers) && i < |tiers| && tiers[i].qty % Last(tiers).qty != 0
    requires forall j | 0 <= j < i :: tiers[j].qty % Last(tiers).qty == 0
    ensures !TooMany(n, tiers[0]) && |k| == |tiers| && QtyOf(tiers, k) >= n
    ensures GreedyQty(tiers, n) > QtyOf(tiers, k)
  {
    ModOneIsZero(tiers[i].qty, Last(tiers).qty);
    assert 1 < Last(tiers).qty <= tiers[i].qty <= tiers[0].qty;
    if i > 0 && tiers[i - 1].qty == tiers[i].qty + 1 {
      n, k := OverbilledAfterNeighbour(tiers, i);
    } else {
      n := tiers[i].qty + 1;
      FitsAt(tiers, n, i);
      OneItemLeft(tiers, n, i);
      var c := NextMultipleIsCloser(tiers[i].qty, Last(tiers).qty);
      k := LastOnly(tiers, c);
    }
  }

  lemma {:induction false} FirstIndivisible(tiers: seq<Tier>, s: nat, from: nat) returns (i: nat)
    requires s > 0 && from <= |tiers| && forall j | 0 <= j < from :: tiers[j].qty % s == 0
    requires exists j | 0 <= j < |tiers| :: tiers[j].qty % s != 0
    ensures i < |tiers| && tiers[i].qty % s != 0 && forall j | 0 <= j < i :: tiers[j].qty % s == 0
    decreases |tiers| - from
  {
    if from < |tiers| && tiers[from].qty % s == 0 {
      i := FirstIndivisible(tiers, s, from + 1);
    } else {
      i := from;
    }
  }

  /** Greedy bills the least coverable quantity for every request exactly when the smallest tier divides all tiers. */
  lemma BillsLeastCoverIff(tiers: seq<Tier>)
    requires tiers != [] && Ladder(tiers)
    ensures BillsLeastCover(tiers) <==> SmallestDividesAll(tiers)
  {
    var s := Last(tiers).qty;
    if SmallestDividesAll(tiers) {
      forall n: nat, k: seq<nat> | !TooMany(n, tiers[0]) && |k| == |tiers| && QtyOf(tiers, k) >= n
        ensures GreedyQty(tiers, n) <= QtyOf(tiers, k)
      {
        LeastCover(tiers, n, k);
      }
    } else {
      var i := FirstIndivisible(tiers, s, 0);
      var n, k := OverbilledRequest(tiers, i);
      assert !(GreedyQty(tiers, n) <= QtyOf(tiers, k));
    }
  }

  lemma LeastCover(tiers: seq<Tier>, n: nat, k: seq<nat>)
    requires tiers != [] && Ladder(tiers) && SmallestDividesAll(tiers) && |k| == |tiers| && QtyOf(tiers, k) >= n
    ensures GreedyQty(tiers, n) <= QtyOf(tiers, k)
  {
    var s := Last(tiers).qty;
    BilledCoversRequest(tiers, n);
    var billed := QtyIsMultiple(tiers, Counts(tiers, n), s);
    var other := QtyIsMultiple(tiers, k, s);
    SmallestCoverOfMultiples(n, s, billed * s, other);
    if billed > other {
      MulMonotone(other + 1, billed, s);
    } else {
      MulMonotone(billed, other, s);
    }
  }

  // ------------------------------------------------------- concrete ladders

  /** The engine's comment fails on 100 for 38.00 and 200 for 60.00: 150 costs 76.00 stacked, 60.00 as one 200. */
  lemma GreedyIsNotAlwaysCheapest()
    ensures var tiers := [Tier(200, 6000), Tier(100, 3800)];
            && Ladder(tiers) && Chain(tiers) && UnitPriceFalls(tiers)
            && Stacked(tiers, 150).Some? && Stacked(tiers, 150).value.price == 7600
            && QtyOf(tiers, [1, 0]) >= 150 && PriceOf(tiers, [1, 0]) == 6000
  {
    var tiers := [Tier(200, 6000), Tier(100, 3800)];
    assert Fit(tiers, 150) == 1 && Fit(tiers, 50) == 2;
    assert Greedy(tiers, 50) == [tiers[1]];
    assert Greedy(tiers, 150) == [tiers[1]] + [tiers[1]];
    TotalsOfAppend([tiers[1]], [tiers[1]]);
    assert tiers[1..] == [tiers[1]];
    assert PriceOf(tiers[1..], [1, 0][1..]) == 0;
  }

  /** With tiers 100 and 250, asking for 201 is billed as 300 items but asking for 250 as 250. */
  lemma BilledQuantityIsNotMonotone()
    ensures var tiers := [Tier(250, 0), Tier(100, 0)];
            Ladder(tiers) && GreedyQty(tiers, 201) == 300 && GreedyQty(tiers, 250) == 250
  {
    var tiers := [Tier(250, 0), Tier(100, 0)];
    assert tiers[1..] == [tiers[1]];
    assert Counts(tiers, 201) == [0, 3] && Counts(tiers, 250) == [1, 0];
    assert QtyOf([tiers[1]], [3]) == 300 && QtyOf([tiers[1]], [0]) == 0;
    assert [0, 3][1..] == [3] && [1, 0][1..] == [0];
  }
}

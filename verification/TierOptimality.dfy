/**
 Exact conditions under which the greedy stack is the smallest, and the cheapest,
 way to cover a request.  The engine's own comment claims it is always the cheapest.
 */
module TierOptimality {
  import opened DivMod
  import opened TierStack
  import opened TierCost

  // -------------------------------------------------- count-vector updates

  lemma {:induction false} OneMore(tiers: seq<Tier>, k: seq<nat>, i: nat)
    requires |k| == |tiers| && i < |k|
    ensures QtyOf(tiers, k[i := k[i] + 1]) == QtyOf(tiers, k) + tiers[i].qty
    ensures PriceOf(tiers, k[i := k[i] + 1]) == PriceOf(tiers, k) + tiers[i].price
  {
    if i > 0 {
      assert k[i := k[i] + 1][1..] == k[1..][i - 1 := k[i] + 1];
      OneMore(tiers[1..], k[1..], i - 1);
    } else {
      assert k[i := k[i] + 1][1..] == k[1..];
    }
  }

  lemma {:induction false} NothingChosen(tiers: seq<Tier>, k: seq<nat>)
    requires |k| == |tiers| && forall i | 0 <= i < |k| :: k[i] == 0
    ensures QtyOf(tiers, k) == 0 && PriceOf(tiers, k) == 0
  {
    if tiers != [] {
      NothingChosen(tiers[1..], k[1..]);
    }
  }

  // ------------------------------------------------------ cheapest, any ladder

  ghost predicate GreedyCheapestUpTo(tiers: seq<Tier>, bound: nat)
    requires tiers != [] && Ladder(tiers)
  {
    forall n: nat, k: seq<nat> | n <= bound && |k| == |tiers| && QtyOf(tiers, k) >= n ::
      GreedyPrice(tiers, n) <= PriceOf(tiers, k)
  }

  function Less(n: nat, q: nat): nat {
    if n <= q then 0 else n - q
  }

  /** No request gets cheaper by buying one given tier first and stacking the rest. */
  ghost predicate NoSingleSwapSaves(tiers: seq<Tier>, bound: nat)
    requires tiers != [] && Ladder(tiers)
  {
    forall n: nat, i: nat | n <= bound && i < |tiers| ::
      GreedyPrice(tiers, n) <= tiers[i].price + GreedyPrice(tiers, Less(n, tiers[i].qty))
  }

  lemma {:induction false} SwapsBoundEveryCover(tiers: seq<Tier>, bound: nat, n: nat, k: seq<nat>)
    requires tiers != [] && Ladder(tiers) && NoSingleSwapSaves(tiers, bound)
    requires n <= bound && |k| == |tiers| && QtyOf(tiers, k) >= n
    ensures GreedyPrice(tiers, n) <= PriceOf(tiers, k)
    decreases n
  {
    if n == 0 {
      BilledCoversRequest(tiers, 0);
      ZeroCosts(tiers);
    } else {
      if forall i | 0 <= i < |k| :: k[i] == 0 {
        NothingChosen(tiers, k);
        assert false;
      } else {
        var i :| 0 <= i < |k| && k[i] > 0;
        var fewer: seq<nat> := k[i := k[i] - 1];
        OneMore(tiers, fewer, i);
        assert fewer[i := fewer[i] + 1] == k;
        var rest := Less(n, tiers[i].qty);
        SwapsBoundEveryCover(tiers, bound, rest, fewer);
        assert GreedyPrice(tiers, n) <= tiers[i].price + GreedyPrice(tiers, rest);
      }
    }
  }

  lemma {:induction false} ZeroCosts(tiers: seq<Tier>)
    requires tiers != [] && Ladder(tiers)
    ensures GreedyPrice(tiers, 0) == 0
  {
    DivModSmall(0, tiers[0].qty);
    if |tiers| == 1 {
      assert PriceOf(tiers[1..], Counts(tiers, 0)[1..]) == 0;
    } else {
      ZeroCosts(tiers[1..]);
    }
  }

  lemma SwapIsACover(tiers: seq<Tier>, n: nat, i: nat) returns (k: seq<nat>)
    requires Ladder(tiers) && i < |tiers|
    ensures |k| == |tiers| && QtyOf(tiers, k) >= n
    ensures PriceOf(tiers, k) == tiers[i].price + GreedyPrice(tiers, Less(n, tiers[i].qty))
  {
    var rest := Less(n, tiers[i].qty);
    k := Counts(tiers, rest);
    BilledCoversRequest(tiers, rest);
    OneMore(tiers, k, i);
    k := k[i := k[i] + 1];
  }

  /** For any ladder: greedy is the cheapest cover of every request up to a bound iff no single swap saves. */
  lemma GreedyCheapestIffNoSwap(tiers: seq<Tier>, bound: nat)
    requires tiers != [] && Ladder(tiers)
    ensures GreedyCheapestUpTo(tiers, bound) <==> NoSingleSwapSaves(tiers, bound)
  {
    if NoSingleSwapSaves(tiers, bound) {
      forall n: nat, k: seq<nat> | n <= bound && |k| == |tiers| && QtyOf(tiers, k) >= n
        ensures GreedyPrice(tiers, n) <= PriceOf(tiers, k)
      {
        SwapsBoundEveryCover(tiers, bound, n, k);
      }
    }
    if GreedyCheapestUpTo(tiers, bound) {
      forall n: nat, i: nat | n <= bound && i < |tiers|
        ensures GreedyPrice(tiers, n) <= tiers[i].price + GreedyPrice(tiers, Less(n, tiers[i].qty))
      {
        var k := SwapIsACover(tiers, n, i);
      }
    }
  }

  // ------------------------------------------- cheapest, divisibility chains

  ghost predicate Chain(tiers: seq<Tier>)
    requires Ladder(tiers)
  {
    forall i | 0 < i < |tiers| :: tiers[i - 1].qty % tiers[i].qty == 0
  }

  /** The premise of the engine's comment: a larger tier is never dearer per piece. */
  ghost predicate UnitPriceFalls(tiers: seq<Tier>) {
    forall i | 0 < i < |tiers| :: tiers[i - 1].price * tiers[i].qty <= tiers[i].price * tiers[i - 1].qty
  }

  lemma ChainTail(tiers: seq<Tier>)
    requires |tiers| > 1 && Ladder(tiers) && Chain(tiers) && UnitPriceFalls(tiers)
    ensures Ladder(tiers[1..]) && Chain(tiers[1..]) && UnitPriceFalls(tiers[1..])
  {
    var tail := tiers[1..];
    forall i | 0 < i < |tail|
      ensures tail[i - 1].qty % tail[i].qty == 0
      ensures tail[i - 1].price * tail[i].qty <= tail[i].price * tail[i - 1].qty
    {
      assert tail[i] == tiers[i + 1] && tail[i - 1] == tiers[(i + 1) - 1];
    }
  }

  /** The chain takes quotient-many of the largest tier and stacks the remainder below it. */
  lemma PriceByLargest(tiers: seq<Tier>, n: nat, q: nat, r: nat)
    requires |tiers| > 1 && Ladder(tiers) && r < tiers[0].qty && n == q * tiers[0].qty + r
    ensures GreedyPrice(tiers, n) == q * tiers[0].price + GreedyPrice(tiers[1..], r)
  {
    DivModUnique(n, tiers[0].qty, q, r);
    assert Counts(tiers, n)[1..] == Counts(tiers[1..], r);
  }

  /** Stacking j * c more of the largest tier adds exactly those. */
  lemma MoreOfTop(tiers: seq<Tier>, j: nat, r: nat)
    requires tiers != [] && Ladder(tiers)
    ensures j * tiers[0].qty + r >= 0
    ensures GreedyPrice(tiers, j * tiers[0].qty + r) == j * tiers[0].price + GreedyPrice(tiers, r)
  {
    var t, n := tiers[0].qty, j * tiers[0].qty + r;
    MulSign(j, t);
    DivModShift(j, r, t);
    var more, fewer := Counts(tiers, n), Counts(tiers, r);
    assert more[0] == j + fewer[0];
    assert more[1..] == fewer[1..];
    MulDistributes(j, fewer[0], tiers[0].price);
  }

  /** One of the largest tier never costs more than the c of the next one it holds. */
  lemma LargestHolds(tiers: seq<Tier>) returns (c: nat)
    requires |tiers| > 1 && Ladder(tiers) && Chain(tiers) && UnitPriceFalls(tiers)
    ensures tiers[0].qty == c * tiers[1].qty && tiers[0].price <= c * tiers[1].price
  {
    var big, small := tiers[0], tiers[1];
    c := big.qty / small.qty;
    assert tiers[1 - 1].qty % tiers[1].qty == 0;
    DivModLaw(big.qty, small.qty);
    assert tiers[1 - 1].price * tiers[1].qty <= tiers[1].price * tiers[1 - 1].qty;
    MulAssociates(small.price, c, small.qty);
    CancelRight(big.price, small.price * c, small.qty);
  }

  /** Replacing `j` of the largest tier by the next one down never saves. */
  lemma DowngradeCosts(tiers: seq<Tier>, n: nat, j: nat, r: nat)
    requires |tiers| > 1 && Ladder(tiers) && Chain(tiers) && UnitPriceFalls(tiers)
    requires n == j * tiers[0].qty + r
    ensures GreedyPrice(tiers[1..], n) >= j * tiers[0].price + GreedyPrice(tiers[1..], r)
  {
    var c := LargestHolds(tiers);
    var small := tiers[1];
    MulAssociates(j, c, small.qty);
    MoreOfTop(tiers[1..], j * c, r);
    MulAssociates(j, c, small.price);
    MulMonotone(tiers[0].price, c * small.price, j);
  }

  lemma CancelRight(a: nat, b: nat, t: nat)
    requires t > 0 && a * t <= b * t
    ensures a <= b
  {
    if a > b {
      MulMonotone(b + 1, a, t);
    }
  }

  lemma SingleTierIsExact(tiers: seq<Tier>, c: nat)
    requires |tiers| == 1 && Ladder(tiers)
    ensures GreedyPrice(tiers, c * tiers[0].qty) == c * tiers[0].price
  {
    DivModUnique(c * tiers[0].qty, tiers[0].qty, c, 0);
    var k: seq<nat> := [c];
    assert Counts(tiers, c * tiers[0].qty) == k;
    assert PriceOf(tiers[1..], k[1..]) == 0;
  }

  /** Buying `own` of the largest tier by hand, and `lower` items' worth optimally below it, never beats greedy. */
  lemma LargestFirstIsNoWorse(tiers: seq<Tier>, own: nat, lower: nat)
    requires |tiers| > 1 && Ladder(tiers) && Chain(tiers) && UnitPriceFalls(tiers)
    ensures GreedyPrice(tiers, own * tiers[0].qty + lower) <= own * tiers[0].price + GreedyPrice(tiers[1..], lower)
  {
    var t, p := tiers[0].qty, tiers[0].price;
    var q, r := lower / t, lower % t;
    DivModLaw(lower, t);
    DowngradeCosts(tiers, lower, q, r);
    MulDistributes(own, q, t);
    MulDistributes(own, q, p);
    PriceByLargest(tiers, own * t + lower, own + q, r);
  }

  /** On a chain with falling unit prices, greedy is the cheapest way to buy exactly the request. */
  lemma {:induction false} GreedyCheapestForExactTotal(tiers: seq<Tier>, k: seq<nat>)
    requires tiers != [] && Ladder(tiers) && Chain(tiers) && UnitPriceFalls(tiers) && |k| == |tiers|
    ensures GreedyPrice(tiers, QtyOf(tiers, k)) <= PriceOf(tiers, k)
  {
    if |tiers| == 1 {
      assert QtyOf(tiers[1..], k[1..]) == 0 && PriceOf(tiers[1..], k[1..]) == 0;
      SingleTierIsExact(tiers, k[0]);
    } else {
      ChainTail(tiers);
      GreedyCheapestForExactTotal(tiers[1..], k[1..]);
      LargestFirstIsNoWorse(tiers, k[0], QtyOf(tiers[1..], k[1..]));
    }
  }

  // ----------------------------- cheapest cover on a chain: the exact condition

  /** The request rounded up to whole multiples of one tier. */
  function RoundUp(n: nat, t: nat): nat
    requires t > 0
  {
    CeilDiv(n, t) * t
  }

  /** No tier makes the bill smaller by rounding the request up to it. */
  ghost predicate NoRoundUpSaves(tiers: seq<Tier>, n: nat)
    requires tiers != [] && Ladder(tiers)
  {
    forall i | 0 <= i < |tiers| :: GreedyPrice(tiers, n) <= GreedyPrice(tiers, RoundUp(n, tiers[i].qty))
  }

  lemma {:induction false} ChainDivides(tiers: seq<Tier>, i: nat) returns (c: nat)
    requires Ladder(tiers) && Chain(tiers) && i < |tiers|
    ensures tiers[0].qty == c * tiers[i].qty
  {
    if i == 0 {
      c := 1;
    } else {
      var c' := ChainDivides(tiers, i - 1);
      assert tiers[i - 1].qty % tiers[i].qty == 0;
      DivModLaw(tiers[i - 1].qty, tiers[i].qty);
      var d := tiers[i - 1].qty / tiers[i].qty;
      c := c' * d;
      assert tiers[0].qty == c' * (d * tiers[i].qty) == c * tiers[i].qty;
    }
  }

  lemma CeilDivShift(j: nat, r: nat, t: nat)
    requires t > 0 && j * t + r >= 0
    ensures CeilDiv(j * t + r, t) == j + CeilDiv(r, t)
  {
    DivModShift(j, r + t - 1, t);
  }

  lemma RoundUpShift(n: nat, q: nat, r: nat, t0: nat, c: nat, t: nat)
    requires t > 0 && t0 == c * t && n == q * t0 + r && r < t0
    ensures RoundUp(n, t) == q * t0 + RoundUp(r, t) && RoundUp(r, t) <= t0
  {
    assert q * t0 == (q * c) * t by {
      MulAssociates(q, c, t);
    }
    CeilDivShift(q * c, r, t);
    MulDistributes(q * c, CeilDiv(r, t), t);
    CeilDivIsLeastCover(r, t, c);
    MulMonotone(CeilDiv(r, t), c, t);
  }

  lemma WholeTiersOnly(tiers: seq<Tier>, c: nat)
    requires tiers != [] && Ladder(tiers)
    ensures GreedyPrice(tiers, c * tiers[0].qty) == c * tiers[0].price
  {
    if |tiers| == 1 {
      SingleTierIsExact(tiers, c);
    } else {
      PriceByLargest(tiers, c * tiers[0].qty, c, 0);
      ZeroCosts(tiers[1..]);
    }
  }

  /** Topping up to more of the largest tier is matched by rounding the request up to that tier. */
  lemma LargestRoundUp(tiers: seq<Tier>, n: nat, q: nat, price: nat)
    requires tiers != [] && Ladder(tiers) && q * tiers[0].qty >= n && price >= q * tiers[0].price
    ensures price >= GreedyPrice(tiers, RoundUp(n, tiers[0].qty))
  {
    var c := CeilDiv(n, tiers[0].qty);
    CeilDivIsLeastCover(n, tiers[0].qty, q);
    WholeTiersOnly(tiers, c);
    MulMonotone(c, q, tiers[0].price);
  }

  lemma SingleTierPrice(tiers: seq<Tier>, n: nat)
    requires |tiers| == 1 && Ladder(tiers)
    ensures GreedyPrice(tiers, n) == CeilDiv(n, tiers[0].qty) * tiers[0].price
  {
    var t := tiers[0].qty;
    var k := Counts(tiers, n);
    assert PriceOf(tiers[1..], k[1..]) == 0;
    DivModLaw(n, t);
    DivModShift(n / t, n % t + t - 1, t);
    if n % t > 0 {
      DivModUnique(n % t + t - 1, t, 1, n % t - 1);
    } else {
      DivModSmall(t - 1, t);
    }
  }

  lemma RoundUpInTail(tiers: seq<Tier>, q: nat, u: nat)
    requires |tiers| > 1 && Ladder(tiers) && Chain(tiers) && UnitPriceFalls(tiers) && u <= tiers[0].qty
    ensures GreedyPrice(tiers, q * tiers[0].qty + u) <= q * tiers[0].price + GreedyPrice(tiers[1..], u)
  {
    if u < tiers[0].qty {
      PriceByLargest(tiers, q * tiers[0].qty + u, q, u);
    } else {
      LargestFirstIsNoWorse(tiers, q, u);
    }
  }

  lemma RoundUpBelowLargest(tiers: seq<Tier>, n: nat, m: nat, q: nat, rn: nat, rm: nat, i: nat)
    requires 0 < i < |tiers| && Ladder(tiers) && Chain(tiers) && UnitPriceFalls(tiers)
    requires rn < tiers[0].qty && rm < tiers[0].qty
    requires n == q * tiers[0].qty + rn && m == q * tiers[0].qty + rm
    requires GreedyPrice(tiers[1..], rm) >= GreedyPrice(tiers[1..], RoundUp(rn, tiers[i].qty))
    ensures GreedyPrice(tiers, m) >= GreedyPrice(tiers, RoundUp(n, tiers[i].qty))
  {
    var c := ChainDivides(tiers, i);
    var u := RoundUp(rn, tiers[i].qty);
    RoundUpShift(n, q, rn, tiers[0].qty, c, tiers[i].qty);
    RoundUpInTail(tiers, q, u);
    PriceByLargest(tiers, m, q, rm);
  }

  lemma MoreOfTheOnlyTier(tiers: seq<Tier>, n: nat, m: nat)
    requires |tiers| == 1 && Ladder(tiers) && n <= m
    ensures GreedyPrice(tiers, m) >= GreedyPrice(tiers, RoundUp(n, tiers[0].qty))
  {
    var c := CeilDiv(m, tiers[0].qty);
    SingleTierPrice(tiers, m);
    CeilDivIsLeastCover(m, tiers[0].qty, c);
    LargestRoundUp(tiers, n, c, GreedyPrice(tiers, m));
  }

  lemma MoreOfLargest(tiers: seq<Tier>, n: nat, m: nat)
    requires |tiers| > 1 && Ladder(tiers) && n / tiers[0].qty < m / tiers[0].qty
    ensures GreedyPrice(tiers, m) >= GreedyPrice(tiers, RoundUp(n, tiers[0].qty))
  {
    var t := tiers[0].qty;
    var q := m / t;
    DivModLaw(n, t);
    DivModLaw(m, t);
    MulMonotone(n / t + 1, q, t);
    PriceByLargest(tiers, m, q, m % t);
    LargestRoundUp(tiers, n, q, GreedyPrice(tiers, m));
  }

  lemma SameQuotient(n: nat, m: nat, t: nat) returns (q: nat, rn: nat, rm: nat)
    requires t > 0 && n <= m && n / t == m / t
    ensures n == q * t + rn && m == q * t + rm && rn <= rm < t
  {
    DivModLaw(n, t);
    DivModLaw(m, t);
    q, rn, rm := n / t, n % t, m % t;
  }

  /** Greedy for a larger total is never below greedy for some tier's round-up of the smaller one. */
  lemma {:induction false} SomeRoundUpIsNoDearer(tiers: seq<Tier>, n: nat, m: nat) returns (i: nat)
    requires tiers != [] && Ladder(tiers) && Chain(tiers) && UnitPriceFalls(tiers) && n <= m
    ensures i < |tiers| && GreedyPrice(tiers, m) >= GreedyPrice(tiers, RoundUp(n, tiers[i].qty))
  {
    var t := tiers[0].qty;
    DivMonotone(n, m, t);
    if |tiers| == 1 {
      MoreOfTheOnlyTier(tiers, n, m);
      i := 0;
    } else if n / t < m / t {
      MoreOfLargest(tiers, n, m);
      i := 0;
    } else {
      ChainTail(tiers);
      var q, rn, rm := SameQuotient(n, m, t);
      var below := SomeRoundUpIsNoDearer(tiers[1..], rn, rm);
      i := below + 1;
      RoundUpBelowLargest(tiers, n, m, q, rn, rm, i);
    }
  }

  lemma RemaindersOrdered(n: nat, m: nat, t: nat)
    requires t > 0 && n <= m && n / t == m / t
    ensures n % t <= m % t
  {
    DivModLaw(n, t);
    DivModLaw(m, t);
  }

  /**
   On a chain with falling unit prices, greedy is the cheapest way to cover a request
   exactly when no tier's round-up of the request is cheaper.
   */
  lemma GreedyCheapestCoverIff(tiers: seq<Tier>, n: nat)
    requires tiers != [] && Ladder(tiers) && Chain(tiers) && UnitPriceFalls(tiers)
    ensures (forall k: seq<nat> | |k| == |tiers| && QtyOf(tiers, k) >= n :: GreedyPrice(tiers, n) <= PriceOf(tiers, k))
            <==> NoRoundUpSaves(tiers, n)
  {
    if NoRoundUpSaves(tiers, n) {
      forall k: seq<nat> | |k| == |tiers| && QtyOf(tiers, k) >= n
        ensures GreedyPrice(tiers, n) <= PriceOf(tiers, k)
      {
        GreedyCheapestForExactTotal(tiers, k);
        var i := SomeRoundUpIsNoDearer(tiers, n, QtyOf(tiers, k));
      }
    }
    if forall k: seq<nat> | |k| == |tiers| && QtyOf(tiers, k) >= n :: GreedyPrice(tiers, n) <= PriceOf(tiers, k) {
      forall i | 0 <= i < |tiers|
        ensures GreedyPrice(tiers, n) <= GreedyPrice(tiers, RoundUp(n, tiers[i].qty))
      {
        var up := RoundUp(n, tiers[i].qty);
        CeilDivIsLeastCover(n, tiers[i].qty, CeilDiv(n, tiers[i].qty));
        BilledCoversRequest(tiers, up);
        assert GreedyPrice(tiers, up) == PriceOf(tiers, Counts(tiers, up));
      }
    }
  }
}

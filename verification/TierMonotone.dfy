/**
 Does asking for more ever bill, or cost, less?  One condition per tier decides:
 what greedy takes for one item less than the tier must not exceed the tier itself.
 On a divisibility chain that condition turns into sums over the catalogue, and it
 decides whether greedy is the cheapest way to cover every request.
 */
module TierMonotone {
  import opened DivMod
  import opened TierStack
  import opened TierCost
  import opened TierOptimality

  // --------------------------------------------- rising bills, any ladder

  ghost predicate PriceRisesUpTo(tiers: seq<Tier>, bound: nat)
    requires tiers != [] && Ladder(tiers)
  {
    forall m: nat, n: nat | m <= n <= bound :: GreedyPrice(tiers, m) <= GreedyPrice(tiers, n)
  }

  /** Stacking one item less than tier i from the tiers below it costs no more than tier i. */
  ghost predicate NoDrop(tiers: seq<Tier>, i: nat)
    requires Ladder(tiers) && i + 1 < |tiers|
  {
    GreedyPrice(tiers[i + 1..], tiers[i].qty - 1) <= tiers[i].price
  }

  ghost predicate NeverDrops(tiers: seq<Tier>)
    requires Ladder(tiers)
  {
    forall i | 0 <= i < |tiers| - 1 :: NoDrop(tiers, i)
  }

  lemma NeverDropsTail(tiers: seq<Tier>)
    requires |tiers| > 1 && Ladder(tiers) && NeverDrops(tiers)
    ensures NeverDrops(tiers[1..])
  {
    forall i | 0 <= i < |tiers[1..]| - 1
      ensures NoDrop(tiers[1..], i)
    {
      assert NoDrop(tiers, i + 1);
      assert tiers[1..][i + 1..] == tiers[i + 1 + 1..];
    }
  }

  /** A request that needs more of the largest tier costs more, if the largest tier's own step is no drop. */
  lemma MoreOfLargestCostsMore(tiers: seq<Tier>, m: nat, n: nat)
    requires |tiers| > 1 && Ladder(tiers) && NoDrop(tiers, 0) && m / tiers[0].qty < n / tiers[0].qty
    requires GreedyPrice(tiers[1..], m % tiers[0].qty) <= GreedyPrice(tiers[1..], tiers[0].qty - 1)
    ensures GreedyPrice(tiers, m) <= GreedyPrice(tiers, n)
  {
    var t, p := tiers[0].qty, tiers[0].price;
    DivModLaw(m, t);
    DivModLaw(n, t);
    PriceByLargest(tiers, m, m / t, m % t);
    PriceByLargest(tiers, n, n / t, n % t);
    MulMonotone(m / t + 1, n / t, p);
    MulDistributes(m / t, 1, p);
  }

  lemma SameOfLargest(tiers: seq<Tier>, m: nat, n: nat)
    requires |tiers| > 1 && Ladder(tiers) && m / tiers[0].qty == n / tiers[0].qty
    requires GreedyPrice(tiers[1..], m % tiers[0].qty) <= GreedyPrice(tiers[1..], n % tiers[0].qty)
    ensures GreedyPrice(tiers, m) <= GreedyPrice(tiers, n)
  {
    var t := tiers[0].qty;
    DivModLaw(m, t);
    DivModLaw(n, t);
    PriceByLargest(tiers, m, m / t, m % t);
    PriceByLargest(tiers, n, n / t, n % t);
  }

  lemma SingleTierRises(tiers: seq<Tier>, m: nat, n: nat)
    requires |tiers| == 1 && Ladder(tiers) && m <= n
    ensures GreedyPrice(tiers, m) <= GreedyPrice(tiers, n)
  {
    var t := tiers[0].qty;
    SingleTierPrice(tiers, m);
    SingleTierPrice(tiers, n);
    DivMonotone(m + t - 1, n + t - 1, t);
    MulMonotone(CeilDiv(m, t), CeilDiv(n, t), tiers[0].price);
  }

  lemma {:induction false} PriceRises(tiers: seq<Tier>, m: nat, n: nat)
    requires tiers != [] && Ladder(tiers) && NeverDrops(tiers) && m <= n
    ensures GreedyPrice(tiers, m) <= GreedyPrice(tiers, n)
  {
    if |tiers| == 1 {
      SingleTierRises(tiers, m, n);
    } else {
      var t := tiers[0].qty;
      NeverDropsTail(tiers);
      DivMonotone(m, n, t);
      DivModLaw(m, t);
      if m / t < n / t {
        assert NoDrop(tiers, 0);
        PriceRises(tiers[1..], m % t, t - 1);
        MoreOfLargestCostsMore(tiers, m, n);
      } else {
        RemaindersOrdered(m, n, t);
        PriceRises(tiers[1..], m % t, n % t);
        SameOfLargest(tiers, m, n);
      }
    }
  }

  /** Below tier i the larger tiers play no part. */
  lemma {:induction false} PriceBelow(tiers: seq<Tier>, i: nat, n: nat)
    requires Ladder(tiers) && i + 1 < |tiers| && n < tiers[i].qty
    ensures GreedyPrice(tiers, n) == GreedyPrice(tiers[i + 1..], n)
  {
    PriceByLargest(tiers, n, 0, n);
    if i > 0 {
      PriceBelow(tiers[1..], i - 1, n);
      assert tiers[1..][i - 1 + 1..] == tiers[i + 1..];
    }
  }

  lemma {:induction false} PriceAtTier(tiers: seq<Tier>, i: nat)
    requires Ladder(tiers) && i < |tiers|
    ensures GreedyPrice(tiers, tiers[i].qty) == tiers[i].price
  {
    if i == 0 {
      WholeTiersOnly(tiers, 1);
    } else {
      PriceByLargest(tiers, tiers[i].qty, 0, tiers[i].qty);
      PriceAtTier(tiers[1..], i - 1);
    }
  }

  /** For any ladder: asking for more never costs less exactly when no tier is cheaper than one item less than it. */
  lemma PriceRisesIff(tiers: seq<Tier>, bound: nat)
    requires tiers != [] && Ladder(tiers) && bound >= tiers[0].qty
    ensures PriceRisesUpTo(tiers, bound) <==> NeverDrops(tiers)
  {
    if NeverDrops(tiers) {
      forall m: nat, n: nat | m <= n <= bound
        ensures GreedyPrice(tiers, m) <= GreedyPrice(tiers, n)
      {
        PriceRises(tiers, m, n);
      }
    }
    if PriceRisesUpTo(tiers, bound) {
      forall i | 0 <= i < |tiers| - 1
        ensures NoDrop(tiers, i)
      {
        PriceBelow(tiers, i, tiers[i].qty - 1);
        PriceAtTier(tiers, i);
        assert GreedyPrice(tiers, tiers[i].qty - 1) <= GreedyPrice(tiers, tiers[i].qty);
      }
    }
  }

  // ------------------------------------- rising billed quantity, any ladder

  ghost predicate BilledRisesUpTo(tiers: seq<Tier>, bound: nat)
    requires tiers != [] && Ladder(tiers)
  {
    forall m: nat, n: nat | m <= n <= bound :: GreedyQty(tiers, m) <= GreedyQty(tiers, n)
  }

  /** The same ladder with every tier priced at its quantity: billing by price is then billing by quantity. */
  function ByQuantity(tiers: seq<Tier>): (priced: seq<Tier>)
    ensures |priced| == |tiers|
    ensures forall i | 0 <= i < |tiers| :: priced[i] == Tier(tiers[i].qty, tiers[i].qty)
  {
    seq(|tiers|, i requires 0 <= i < |tiers| => Tier(tiers[i].qty, tiers[i].qty))
  }

  lemma {:induction false} PriceByQuantity(tiers: seq<Tier>, k: seq<nat>)
    requires |k| == |tiers|
    ensures PriceOf(ByQuantity(tiers), k) == QtyOf(tiers, k)
  {
    if tiers != [] {
      assert ByQuantity(tiers)[1..] == ByQuantity(tiers[1..]);
      PriceByQuantity(tiers[1..], k[1..]);
    }
  }

  lemma {:induction false} CountsByQuantity(tiers: seq<Tier>, n: nat)
    requires tiers != [] && Ladder(tiers)
    ensures Counts(ByQuantity(tiers), n) == Counts(tiers, n)
  {
    if |tiers| > 1 {
      assert ByQuantity(tiers)[1..] == ByQuantity(tiers[1..]);
      CountsByQuantity(tiers[1..], n % tiers[0].qty);
    }
  }

  lemma BilledIsPriceByQuantity(tiers: seq<Tier>, n: nat)
    requires tiers != [] && Ladder(tiers)
    ensures GreedyPrice(ByQuantity(tiers), n) == GreedyQty(tiers, n)
  {
    CountsByQuantity(tiers, n);
    PriceByQuantity(tiers, Counts(tiers, n));
  }

  /** One item less than tier i, stacked from the tiers below it, is not billed beyond tier i. */
  ghost predicate NoOvershoot(tiers: seq<Tier>, i: nat)
    requires Ladder(tiers) && i + 1 < |tiers|
  {
    GreedyQty(tiers[i + 1..], tiers[i].qty - 1) <= tiers[i].qty
  }

  lemma OvershootIsDrop(tiers: seq<Tier>, i: nat)
    requires Ladder(tiers) && i + 1 < |tiers|
    ensures NoDrop(ByQuantity(tiers), i) <==> NoOvershoot(tiers, i)
  {
    assert ByQuantity(tiers)[i + 1..] == ByQuantity(tiers[i + 1..]);
    BilledIsPriceByQuantity(tiers[i + 1..], tiers[i].qty - 1);
  }

  /** Among the requests the engine stacks, asking for more never bills fewer items exactly when no tier is overshot. */
  lemma BilledRisesIff(tiers: seq<Tier>)
    requires tiers != [] && Ladder(tiers)
    ensures BilledRisesUpTo(tiers, 5 * tiers[0].qty) <==> forall i | 0 <= i < |tiers| - 1 :: NoOvershoot(tiers, i)
  {
    var priced := ByQuantity(tiers);
    PriceRisesIff(priced, 5 * tiers[0].qty);
    forall n: nat
      ensures GreedyPrice(priced, n) == GreedyQty(tiers, n)
    {
      BilledIsPriceByQuantity(tiers, n);
    }
    forall i | 0 <= i < |tiers| - 1
      ensures NoDrop(priced, i) <==> NoOvershoot(tiers, i)
    {
      OvershootIsDrop(tiers, i);
    }
    assert NeverDrops(priced) <==> forall i | 0 <= i < |tiers| - 1 :: NoOvershoot(tiers, i);
  }

  // ----------------------- greedy is cheapest: the condition on the catalogue

  /** Buying tier i for one item less than it is a cover, so a drop is a saving that greedy misses. */
  lemma DropIsMissedSaving(tiers: seq<Tier>, i: nat, bound: nat)
    requires Ladder(tiers) && i + 1 < |tiers| && bound >= tiers[0].qty && GreedyCheapestUpTo(tiers, bound)
    ensures NoDrop(tiers, i)
  {
    var n := tiers[i].qty - 1;
    var one := Counts(tiers, tiers[i].qty);
    BilledCoversRequest(tiers, tiers[i].qty);
    PriceAtTier(tiers, i);
    PriceBelow(tiers, i, n);
    assert tiers[i].qty <= tiers[0].qty;
    assert GreedyPrice(tiers, n) <= PriceOf(tiers, one);
  }

  /** On a chain with falling unit prices, greedy is the cheapest cover of all requests exactly when bills never drop. */
  lemma CheapestIffNeverDrops(tiers: seq<Tier>, bound: nat)
    requires tiers != [] && Ladder(tiers) && Chain(tiers) && UnitPriceFalls(tiers) && bound >= tiers[0].qty
    ensures GreedyCheapestUpTo(tiers, bound) <==> NeverDrops(tiers)
  {
    if NeverDrops(tiers) {
      forall n: nat, k: seq<nat> | n <= bound && |k| == |tiers| && QtyOf(tiers, k) >= n
        ensures GreedyPrice(tiers, n) <= PriceOf(tiers, k)
      {
        PriceRises(tiers, n, QtyOf(tiers, k));
        GreedyCheapestForExactTotal(tiers, k);
      }
    }
    if GreedyCheapestUpTo(tiers, bound) {
      forall i | 0 <= i < |tiers| - 1
        ensures NoDrop(tiers, i)
      {
        DropIsMissedSaving(tiers, i, bound);
      }
    }
  }

  /** The price of one full step less of every lower tier: (ratio - 1) pieces of each. */
  function StepsBelow(tiers: seq<Tier>): nat
    requires Ladder(tiers)
  {
    if |tiers| <= 1 then 0
    else
      DivMonotone(tiers[1].qty, tiers[0].qty, tiers[1].qty);
      MulSign(tiers[0].qty / tiers[1].qty - 1, tiers[1].price);
      (tiers[0].qty / tiers[1].qty - 1) * tiers[1].price + StepsBelow(tiers[1..])
  }

  /** The top-up that one item less than a tier needs: none when items are sold singly. */
  function TopUp(tiers: seq<Tier>): nat
    requires tiers != []
  {
    if Last(tiers).qty > 1 then Last(tiers).price else 0
  }

  lemma OneLess(t: nat, c: nat, s: nat)
    requires s > 0 && t == c * s && t > 0
    ensures c >= 1 && t - 1 == (c - 1) * s + (s - 1)
  {
    if c == 0 {
      assert false;
    }
    MulDistributes(c - 1, 1, s);
  }

  lemma OneLessOfTwo(tiers: seq<Tier>, c: nat)
    requires |tiers| == 2 && Ladder(tiers) && c >= 1
    requires tiers[0].qty - 1 == (c - 1) * tiers[1].qty + (tiers[1].qty - 1)
    ensures GreedyPrice(tiers[1..], tiers[0].qty - 1) == (c - 1) * tiers[1].price + TopUp(tiers)
  {
    var tail, n, s := tiers[1..], tiers[0].qty - 1, tiers[1].qty;
    DivModUnique(n, s, c - 1, s - 1);
    var last: nat := c - 1 + if s > 1 then 1 else 0;
    assert Counts(tail, n) == [last];
    assert PriceOf(tail[1..], [last][1..]) == 0;
    assert GreedyPrice(tail, n) == last * tiers[1].price;
    MulDistributes(c - 1, 1, tiers[1].price);
    assert Last(tiers) == tiers[1];
  }

  /** On a chain, one item less than the largest tier costs the steps below it plus the top-up. */
  lemma {:induction false} PriceOfOneLess(tiers: seq<Tier>)
    requires |tiers| > 1 && Ladder(tiers) && Chain(tiers) && UnitPriceFalls(tiers)
    ensures GreedyPrice(tiers[1..], tiers[0].qty - 1) == StepsBelow(tiers) + TopUp(tiers)
  {
    var tail, s := tiers[1..], tiers[1].qty;
    assert tiers[1 - 1].qty % tiers[1].qty == 0;
    DivModLaw(tiers[0].qty, s);
    var c := tiers[0].qty / s;
    OneLess(tiers[0].qty, c, s);
    if |tiers| == 2 {
      OneLessOfTwo(tiers, c);
    } else {
      ChainTail(tiers);
      PriceOfOneLess(tail);
      PriceByLargest(tail, tiers[0].qty - 1, c - 1, s - 1);
      assert Last(tail) == Last(tiers);
    }
  }

  ghost predicate EvenUnitPrices(tiers: seq<Tier>) {
    forall i | 0 < i < |tiers| :: tiers[i - 1].price * tiers[i].qty == tiers[i].price * tiers[i - 1].qty
  }

  /** No tier is cheaper than the steps below it: the condition when single items are sold. */
  ghost predicate StepsNeverDearer(tiers: seq<Tier>)
    requires Ladder(tiers)
  {
    forall i | 0 <= i < |tiers| :: StepsBelow(tiers[i..]) <= tiers[i].price
  }

  lemma {:induction false} ChainFrom(tiers: seq<Tier>, i: nat)
    requires i < |tiers| && Ladder(tiers) && Chain(tiers) && UnitPriceFalls(tiers)
    ensures Ladder(tiers[i..]) && Chain(tiers[i..]) && UnitPriceFalls(tiers[i..]) && Last(tiers[i..]) == Last(tiers)
  {
    if i == 0 {
      assert tiers[0..] == tiers;
    } else {
      var tail := tiers[1..];
      ChainTail(tiers);
      ChainFrom(tail, i - 1);
      assert tail[i - 1..] == tiers[i..];
      assert Last(tail) == Last(tiers);
    }
  }

  lemma NoDropIsSteps(tiers: seq<Tier>, i: nat)
    requires i + 1 < |tiers| && Ladder(tiers) && Chain(tiers) && UnitPriceFalls(tiers)
    ensures NoDrop(tiers, i) <==> StepsBelow(tiers[i..]) + TopUp(tiers) <= tiers[i].price
  {
    ChainFrom(tiers, i);
    PriceOfOneLess(tiers[i..]);
    assert tiers[i..][1..] == tiers[i + 1..];
  }

  /** A tier that holds exactly c of the next one: the neighbour comparison, without the quantities. */
  lemma NeighbourPrices(p: nat, t: nat, p': nat, t': nat, c: nat)
    requires t' > 0 && t == c * t'
    ensures p * t' <= p' * t <==> p <= c * p'
    ensures p * t' == p' * t <==> p == c * p'
  {
    assert p' * t == (c * p') * t';
    if p * t' <= (c * p') * t' {
      CancelRight(p, c * p', t');
    }
    if (c * p') * t' <= p * t' {
      CancelRight(c * p', p, t');
    }
    if p <= c * p' {
      MulMonotone(p, c * p', t');
    }
  }

  lemma LargestIsAtMost(tiers: seq<Tier>) returns (c: nat)
    requires |tiers| > 1 && Ladder(tiers) && Chain(tiers) && UnitPriceFalls(tiers)
    ensures c == tiers[0].qty / tiers[1].qty && c >= 1
    ensures tiers[0].price <= c * tiers[1].price
    ensures tiers[0].price * tiers[1].qty == tiers[1].price * tiers[0].qty <==> tiers[0].price == c * tiers[1].price
    ensures c * tiers[1].price == (c - 1) * tiers[1].price + tiers[1].price
  {
    c := tiers[0].qty / tiers[1].qty;
    assert tiers[1 - 1].qty % tiers[1].qty == 0;
    assert tiers[1 - 1].price * tiers[1].qty <= tiers[1].price * tiers[1 - 1].qty;
    DivModLaw(tiers[0].qty, tiers[1].qty);
    OneLess(tiers[0].qty, c, tiers[1].qty);
    NeighbourPrices(tiers[0].price, tiers[0].qty, tiers[1].price, tiers[1].qty, c);
    MulDistributes(c - 1, 1, tiers[1].price);
  }

  lemma EvenSplit(tiers: seq<Tier>)
    requires |tiers| > 1
    ensures EvenUnitPrices(tiers) <==>
              tiers[0].price * tiers[1].qty == tiers[1].price * tiers[0].qty && EvenUnitPrices(tiers[1..])
  {
    var tail := tiers[1..];
    if tiers[0].price * tiers[1].qty == tiers[1].price * tiers[0].qty && EvenUnitPrices(tail) {
      forall i | 0 < i < |tiers|
        ensures tiers[i - 1].price * tiers[i].qty == tiers[i].price * tiers[i - 1].qty
      {
        assert i > 1 ==> tail[(i - 1) - 1].price * tail[i - 1].qty == tail[i - 1].price * tail[(i - 1) - 1].qty;
      }
    }
    if EvenUnitPrices(tiers) {
      assert tiers[1 - 1].price * tiers[1].qty == tiers[1].price * tiers[1 - 1].qty;
      forall i | 0 < i < |tail|
        ensures tail[i - 1].price * tail[i].qty == tail[i].price * tail[i - 1].qty
      {
        assert tiers[(i + 1) - 1].price * tiers[i + 1].qty == tiers[i + 1].price * tiers[(i + 1) - 1].qty;
      }
    }
  }

  /** With a smallest tier on top, the steps cost at least the largest tier, and no more exactly at even unit prices. */
  lemma {:induction false} StepsWithTopUp(tiers: seq<Tier>)
    requires tiers != [] && Ladder(tiers) && Chain(tiers) && UnitPriceFalls(tiers)
    ensures StepsBelow(tiers) + Last(tiers).price >= tiers[0].price
    ensures StepsBelow(tiers) + Last(tiers).price == tiers[0].price <==> EvenUnitPrices(tiers)
  {
    if |tiers| > 1 {
      var c := LargestIsAtMost(tiers);
      ChainTail(tiers);
      StepsWithTopUp(tiers[1..]);
      EvenSplit(tiers);
    }
  }

  lemma {:induction false} EvenFrom(tiers: seq<Tier>, i: nat)
    requires i < |tiers| && EvenUnitPrices(tiers)
    ensures EvenUnitPrices(tiers[i..])
  {
    if i == 0 {
      assert tiers[0..] == tiers;
    } else {
      EvenSplit(tiers);
      EvenFrom(tiers[1..], i - 1);
      assert tiers[1..][i - 1..] == tiers[i..];
    }
  }

  lemma NeverDropsIffEven(tiers: seq<Tier>)
    requires tiers != [] && Ladder(tiers) && Chain(tiers) && UnitPriceFalls(tiers) && Last(tiers).qty > 1
    ensures NeverDrops(tiers) <==> EvenUnitPrices(tiers)
  {
    if EvenUnitPrices(tiers) {
      forall i | 0 <= i < |tiers| - 1
        ensures NoDrop(tiers, i)
      {
        ChainFrom(tiers, i);
        EvenFrom(tiers, i);
        StepsWithTopUp(tiers[i..]);
        NoDropIsSteps(tiers, i);
      }
    }
    if NeverDrops(tiers) && |tiers| > 1 {
      assert NoDrop(tiers, 0);
      NoDropIsSteps(tiers, 0);
      assert tiers[0..] == tiers;
      StepsWithTopUp(tiers);
    }
  }

  lemma NeverDropsIffSteps(tiers: seq<Tier>)
    requires tiers != [] && Ladder(tiers) && Chain(tiers) && UnitPriceFalls(tiers) && Last(tiers).qty == 1
    ensures NeverDrops(tiers) <==> StepsNeverDearer(tiers)
  {
    forall i | 0 <= i < |tiers| - 1
      ensures NoDrop(tiers, i) <==> StepsBelow(tiers[i..]) <= tiers[i].price
    {
      NoDropIsSteps(tiers, i);
    }
  }

  /**
   The engine's comment, decided on the catalogue alone.  On a divisibility chain with falling
   unit prices, greedy is the cheapest cover of every request exactly when: all unit prices are
   equal, if the smallest tier holds more than one item; no tier is cheaper than the steps below
   it, if items are sold singly.
   */
  lemma GreedyCheapestIff(tiers: seq<Tier>, bound: nat)
    requires tiers != [] && Ladder(tiers) && Chain(tiers) && UnitPriceFalls(tiers) && bound >= tiers[0].qty
    ensures GreedyCheapestUpTo(tiers, bound) <==>
              if Last(tiers).qty > 1 then EvenUnitPrices(tiers) else StepsNeverDearer(tiers)
  {
    CheapestIffNeverDrops(tiers, bound);
    if Last(tiers).qty > 1 {
      NeverDropsIffEven(tiers);
    } else {
      NeverDropsIffSteps(tiers);
    }
  }
}

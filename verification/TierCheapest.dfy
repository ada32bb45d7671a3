/**
 Is greedy stacking the cheapest way to cover a request?  Decided here for every
 ladder, by two comparisons of neighbouring tiers, and by finitely many requests.
 */
module TierCheapest {
  import opened Wrappers
  import opened DivMod
  import opened TierStack
  import opened TierCost
  import opened TierOptimality
  import opened TierMonotone

  /** No combination of tiers covers any request for less than greedy charges. */
  ghost predicate GreedyCheapest(tiers: seq<Tier>)
    requires tiers != [] && Ladder(tiers)
  {
    forall n: nat, k: seq<nat> | |k| == |tiers| && QtyOf(tiers, k) >= n :: GreedyPrice(tiers, n) <= PriceOf(tiers, k)
  }

  /** Greedy is the cheapest cover on the ladder and on everything below each of its tiers. */
  ghost predicate CheapestThroughout(tiers: seq<Tier>)
    requires Ladder(tiers)
  {
    forall i | 0 <= i < |tiers| :: GreedyCheapest(tiers[i..])
  }

  /** How many pieces of the next tier down first hold one of tier i. */
  function NextHolds(tiers: seq<Tier>, i: nat): (m: nat)
    requires Ladder(tiers) && i + 1 < |tiers|
    ensures m * tiers[i + 1].qty >= tiers[i].qty
  {
    CeilDivIsLeastCover(tiers[i].qty, tiers[i + 1].qty, CeilDiv(tiers[i].qty, tiers[i + 1].qty));
    CeilDiv(tiers[i].qty, tiers[i + 1].qty)
  }

  /** Those pieces cost no less than tier i and the stack for what they hold beyond it. */
  ghost predicate NoUnderselling(tiers: seq<Tier>, i: nat)
    requires Ladder(tiers) && i + 1 < |tiers|
  {
    var m := NextHolds(tiers, i);
    tiers[i].price + GreedyPrice(tiers[i + 1..], m * tiers[i + 1].qty - tiers[i].qty) <= m * tiers[i + 1].price
  }

  ghost predicate NeighboursConsistent(tiers: seq<Tier>)
    requires Ladder(tiers)
  {
    forall i | 0 <= i < |tiers| - 1 :: NoDrop(tiers, i) && NoUnderselling(tiers, i)
  }

  lemma ConsistentTail(tiers: seq<Tier>)
    requires |tiers| > 1 && Ladder(tiers) && NeighboursConsistent(tiers)
    ensures NeighboursConsistent(tiers[1..])
  {
    forall i | 0 <= i < |tiers[1..]| - 1
      ensures NoDrop(tiers[1..], i) && NoUnderselling(tiers[1..], i)
    {
      assert NoDrop(tiers, i + 1) && NoUnderselling(tiers, i + 1);
      assert tiers[1..][i + 1..] == tiers[i + 1 + 1..];
    }
  }

  lemma ConsistentNeverDrops(tiers: seq<Tier>)
    requires Ladder(tiers) && NeighboursConsistent(tiers)
    ensures NeverDrops(tiers)
  {
  }

  // ---------------------------------------- buying two requests separately

  function Both(k: seq<nat>, l: seq<nat>): (sum: seq<nat>)
    requires |k| == |l|
    ensures |sum| == |k|
  {
    if k == [] then [] else [k[0] + l[0]] + Both(k[1..], l[1..])
  }

  lemma {:induction false} TotalsOfBoth(tiers: seq<Tier>, k: seq<nat>, l: seq<nat>)
    requires |k| == |l| == |tiers|
    ensures QtyOf(tiers, Both(k, l)) == QtyOf(tiers, k) + QtyOf(tiers, l)
    ensures PriceOf(tiers, Both(k, l)) == PriceOf(tiers, k) + PriceOf(tiers, l)
  {
    if tiers != [] {
      assert Both(k, l)[1..] == Both(k[1..], l[1..]);
      TotalsOfBoth(tiers[1..], k[1..], l[1..]);
      MulDistributes(k[0], l[0], tiers[0].qty);
      MulDistributes(k[0], l[0], tiers[0].price);
    }
  }

  /** Where greedy is cheapest, splitting a request never saves. */
  lemma SplittingNeverSaves(tiers: seq<Tier>, a: nat, b: nat)
    requires tiers != [] && Ladder(tiers) && GreedyCheapest(tiers)
    ensures GreedyPrice(tiers, a + b) <= GreedyPrice(tiers, a) + GreedyPrice(tiers, b)
  {
    var k, l := Counts(tiers, a), Counts(tiers, b);
    BilledCoversRequest(tiers, a);
    BilledCoversRequest(tiers, b);
    TotalsOfBoth(tiers, k, l);
    assert QtyOf(tiers, Both(k, l)) >= a + b;
  }

  // --------------------------------------- the largest tier is worth taking

  /** Below the largest tier, t + y items are never cheaper than the largest tier and y items. */
  ghost predicate LargestPays(tiers: seq<Tier>, y: nat)
    requires |tiers| > 1 && Ladder(tiers)
  {
    tiers[0].price + GreedyPrice(tiers[1..], y) <= GreedyPrice(tiers[1..], tiers[0].qty + y)
  }

  /** m pieces of the top tier, `pieces` items in all, and a rest. */
  lemma TopPieces(tiers: seq<Tier>, m: nat, pieces: nat, rest: nat)
    requires tiers != [] && Ladder(tiers) && pieces == m * tiers[0].qty
    ensures GreedyPrice(tiers, pieces + rest) == m * tiers[0].price + GreedyPrice(tiers, rest)
  {
    MoreOfTop(tiers, m, rest);
  }

  /** Enough items for m whole pieces of the next tier. */
  lemma LargestPaysBeyond(tiers: seq<Tier>, m: nat, pieces: nat, y: nat)
    requires |tiers| > 1 && Ladder(tiers) && GreedyCheapest(tiers[1..])
    requires pieces == m * tiers[1].qty && tiers[0].qty <= pieces <= tiers[0].qty + y
    requires tiers[0].price + GreedyPrice(tiers[1..], pieces - tiers[0].qty) <= m * tiers[1].price
    ensures LargestPays(tiers, y)
  {
    var over, rest: nat := pieces - tiers[0].qty, tiers[0].qty + y - pieces;
    TopPieces(tiers[1..], m, pieces, rest);
    SplittingNeverSaves(tiers[1..], over, rest);
    assert over + rest == y;
  }

  lemma BelowTop(tiers: seq<Tier>, n: nat)
    requires |tiers| > 1 && Ladder(tiers) && n < tiers[0].qty
    ensures GreedyPrice(tiers, n) == GreedyPrice(tiers[1..], n)
  {
    PriceByLargest(tiers, n, 0, n);
  }

  /** What fills one piece of the next tier beyond y costs at least that piece and y, wherever it is cut in two. */
  lemma CompletingAPiece(tail: seq<Tier>, part: nat, over: nat, y: nat)
    requires |tail| > 1 && Ladder(tail) && GreedyCheapest(tail[1..]) && LargestPays(tail, y)
    requires part + over == tail[0].qty + y && y < tail[0].qty && over < tail[0].qty
    ensures tail[0].price + GreedyPrice(tail, y) <= GreedyPrice(tail[1..], part) + GreedyPrice(tail, over)
  {
    BelowTop(tail, over);
    BelowTop(tail, y);
    SplittingNeverSaves(tail[1..], part, over);
  }

  lemma TopPiecesAndPart(tiers: seq<Tier>, c: nat, pieces: nat, part: nat)
    requires |tiers| > 1 && Ladder(tiers) && pieces == c * tiers[0].qty && part < tiers[0].qty
    ensures GreedyPrice(tiers, pieces + part) == c * tiers[0].price + GreedyPrice(tiers[1..], part)
  {
    PriceByLargest(tiers, pieces + part, c, part);
  }

  /** Not enough for them: the last piece is completed from below, where the next tier pays. */
  lemma LargestPaysShort(tiers: seq<Tier>, c: nat, pieces: nat, y: nat)
    requires |tiers| > 2 && Ladder(tiers) && GreedyCheapest(tiers[1..][1..]) && LargestPays(tiers[1..], y)
    requires pieces == c * tiers[1].qty && pieces < tiers[0].qty && tiers[0].qty + y < pieces + tiers[1].qty
    requires tiers[0].price + GreedyPrice(tiers[1..], pieces + tiers[1].qty - tiers[0].qty) <= c * tiers[1].price + tiers[1].price
    ensures LargestPays(tiers, y)
  {
    var over, part: nat := pieces + tiers[1].qty - tiers[0].qty, tiers[0].qty + y - pieces;
    TopPiecesAndPart(tiers[1..], c, pieces, part);
    CompletingAPiece(tiers[1..], part, over, y);
  }

  lemma LargestPaysOverOne(tiers: seq<Tier>, y: nat)
    requires |tiers| == 2 && Ladder(tiers) && NoUnderselling(tiers, 0)
    requires tiers[0].qty + y < NextHolds(tiers, 0) * tiers[1].qty
    ensures LargestPays(tiers, y)
  {
    var tail, m, s := tiers[1..], NextHolds(tiers, 0), tiers[1].qty;
    assert tiers[0 + 1..] == tail;
    SingleTierRises(tail, y, m * s - tiers[0].qty);
    SingleTierPrice(tail, tiers[0].qty + y);
    CeilDivIsLeastCover(tiers[0].qty + y, s, m);
    CeilDivIsLeastCover(tiers[0].qty + y, s, m - 1);
    CeilDivIsLeastCover(tiers[0].qty, s, m - 1);
  }

  lemma LargestAlwaysPays(tiers: seq<Tier>, y: nat)
    requires |tiers| > 1 && Ladder(tiers) && NoUnderselling(tiers, 0) && GreedyCheapest(tiers[1..])
    requires |tiers| > 2 ==> GreedyCheapest(tiers[2..]) && LargestPays(tiers[1..], y)
    ensures LargestPays(tiers, y)
  {
    var t, s, m := tiers[0].qty, tiers[1].qty, NextHolds(tiers, 0);
    assert tiers[0 + 1..] == tiers[1..];
    if t + y >= m * s {
      LargestPaysBeyond(tiers, m, m * s, y);
    } else if |tiers| == 2 {
      LargestPaysOverOne(tiers, y);
    } else {
      CeilDivIsLeastCover(t, s, m - 1);
      MulDistributes(m - 1, 1, s);
      MulDistributes(m - 1, 1, tiers[1].price);
      assert tiers[1..][1..] == tiers[2..];
      LargestPaysShort(tiers, m - 1, (m - 1) * s, y);
    }
  }

  lemma OneMoreLargestPays(tiers: seq<Tier>, q: nat, x: nat, bill: nat)
    requires |tiers| > 1 && Ladder(tiers) && x >= tiers[0].qty && LargestPays(tiers, x - tiers[0].qty)
    requires bill <= (q + 1) * tiers[0].price + GreedyPrice(tiers[1..], x - tiers[0].qty)
    ensures bill <= q * tiers[0].price + GreedyPrice(tiers[1..], x)
  {
    MulDistributes(q, 1, tiers[0].price);
  }

  /** Any number of the largest tier, and the rest stacked below it, is never cheaper than greedy. */
  lemma {:induction false} LargestThenBelow(tiers: seq<Tier>, q: nat, x: nat)
    requires |tiers| > 1 && Ladder(tiers) && forall y: nat :: LargestPays(tiers, y)
    ensures GreedyPrice(tiers, q * tiers[0].qty + x) <= q * tiers[0].price + GreedyPrice(tiers[1..], x)
    decreases x
  {
    var t := tiers[0].qty;
    if x < t {
      PriceByLargest(tiers, q * t + x, q, x);
    } else {
      var n := q * t + x;
      assert (q + 1) * t + (x - t) == n by {
        MulDistributes(q, 1, t);
      }
      LargestThenBelow(tiers, q + 1, x - t);
      OneMoreLargestPays(tiers, q, x, GreedyPrice(tiers, n));
    }
  }

  // -------------------------------------------------- the condition suffices

  lemma SingleTierIsCheapest(tiers: seq<Tier>)
    requires |tiers| == 1 && Ladder(tiers)
    ensures GreedyCheapest(tiers)
  {
    forall n: nat, k: seq<nat> | |k| == |tiers| && QtyOf(tiers, k) >= n
      ensures GreedyPrice(tiers, n) <= PriceOf(tiers, k)
    {
      assert QtyOf(tiers[1..], k[1..]) == 0 && PriceOf(tiers[1..], k[1..]) == 0;
      SingleTierPrice(tiers, n);
      CeilDivIsLeastCover(n, tiers[0].qty, k[0]);
      MulMonotone(CeilDiv(n, tiers[0].qty), k[0], tiers[0].price);
    }
  }

  lemma CheapestFromTail(tiers: seq<Tier>)
    requires |tiers| > 1 && Ladder(tiers) && NeverDrops(tiers)
    requires GreedyCheapest(tiers[1..]) && forall y: nat :: LargestPays(tiers, y)
    ensures GreedyCheapest(tiers)
  {
    forall n: nat, k: seq<nat> | |k| == |tiers| && QtyOf(tiers, k) >= n
      ensures GreedyPrice(tiers, n) <= PriceOf(tiers, k)
    {
      var x := QtyOf(tiers[1..], k[1..]);
      assert GreedyPrice(tiers[1..], x) <= PriceOf(tiers[1..], k[1..]);
      LargestThenBelow(tiers, k[0], x);
      PriceRises(tiers, n, k[0] * tiers[0].qty + x);
    }
  }

  lemma {:induction false} ConsistentIsCheapest(tiers: seq<Tier>)
    requires tiers != [] && Ladder(tiers) && NeighboursConsistent(tiers)
    ensures GreedyCheapest(tiers)
    ensures |tiers| > 1 ==> GreedyCheapest(tiers[1..]) && forall y: nat :: LargestPays(tiers, y)
  {
    if |tiers| == 1 {
      SingleTierIsCheapest(tiers);
    } else {
      ConsistentTail(tiers);
      ConsistentIsCheapest(tiers[1..]);
      assert NoUnderselling(tiers, 0);
      assert |tiers| > 2 ==> tiers[1..][1..] == tiers[2..];
      forall y: nat
        ensures LargestPays(tiers, y)
      {
        LargestAlwaysPays(tiers, y);
      }
      ConsistentNeverDrops(tiers);
      CheapestFromTail(tiers);
    }
  }

  lemma {:induction false} ConsistentThroughout(tiers: seq<Tier>, i: nat)
    requires i < |tiers| && Ladder(tiers) && NeighboursConsistent(tiers)
    ensures GreedyCheapest(tiers[i..])
  {
    if i == 0 {
      assert tiers[0..] == tiers;
      ConsistentIsCheapest(tiers);
    } else {
      ConsistentTail(tiers);
      ConsistentThroughout(tiers[1..], i - 1);
      assert tiers[1..][i - 1..] == tiers[i..];
    }
  }

  // ------------------------------------------------- the condition is needed

  lemma {:induction false} OnlyTier(tiers: seq<Tier>, i: nat, c: nat) returns (k: seq<nat>)
    requires i < |tiers|
    ensures |k| == |tiers| && QtyOf(tiers, k) == c * tiers[i].qty && PriceOf(tiers, k) == c * tiers[i].price
  {
    if i == 0 {
      var none := seq(|tiers| - 1, j => 0);
      k := [c] + none;
      NothingChosen(tiers[1..], none);
      assert k[1..] == none;
    } else {
      var tail := OnlyTier(tiers[1..], i - 1, c);
      k := [0] + tail;
      assert k[1..] == tail;
    }
  }

  /** m of the second tier are a cover, which greedy undercuts only by taking the largest. */
  lemma UndersellingIsMissedSaving(tiers: seq<Tier>)
    requires |tiers| > 1 && Ladder(tiers) && GreedyCheapest(tiers)
    ensures NoUnderselling(tiers, 0)
  {
    var m, s, t := NextHolds(tiers, 0), tiers[1].qty, tiers[0].qty;
    var k := OnlyTier(tiers, 1, m);
    CeilDivIsLeastCover(t, s, m - 1);
    MulDistributes(m - 1, 1, s);
    PriceByLargest(tiers, m * s, 1, m * s - t);
    assert tiers[0 + 1..] == tiers[1..];
    assert GreedyPrice(tiers, m * s) <= PriceOf(tiers, k);
  }

  lemma CheapestIsConsistentAt(tiers: seq<Tier>, i: nat)
    requires i + 1 < |tiers| && Ladder(tiers) && GreedyCheapest(tiers[i..])
    ensures NoDrop(tiers, i) && NoUnderselling(tiers, i)
  {
    var rest := tiers[i..];
    assert rest[1..] == tiers[i + 1..] && rest[0 + 1..] == tiers[i + 1..];
    assert GreedyCheapestUpTo(rest, rest[0].qty);
    DropIsMissedSaving(rest, 0, rest[0].qty);
    UndersellingIsMissedSaving(rest);
  }

  /**
   For any ladder: greedy is the cheapest cover of every request, on it and below each of its
   tiers, exactly when each tier is priced consistently with the next ones down - not below the
   stack for one item less, and not above what whole pieces of the next tier charge for it.
   Two stacks per tier decide it.
   */
  lemma CheapestThroughoutIff(tiers: seq<Tier>)
    requires tiers != [] && Ladder(tiers)
    ensures CheapestThroughout(tiers) <==> NeighboursConsistent(tiers)
  {
    if NeighboursConsistent(tiers) {
      forall i | 0 <= i < |tiers|
        ensures GreedyCheapest(tiers[i..])
      {
        ConsistentThroughout(tiers, i);
      }
    }
    if CheapestThroughout(tiers) {
      forall i | 0 <= i < |tiers| - 1
        ensures NoDrop(tiers, i) && NoUnderselling(tiers, i)
      {
        CheapestIsConsistentAt(tiers, i);
      }
    }
  }

  // ------------------------------------------- finitely many requests decide

  /** From one request of each of the two largest tiers on, every swap repeats a smaller one. */
  lemma {:induction false} SwapsRepeat(tiers: seq<Tier>, n: nat, i: nat)
    requires |tiers| > 1 && Ladder(tiers) && i < |tiers|
    requires NoSingleSwapSaves(tiers, tiers[0].qty + tiers[1].qty - 1)
    ensures GreedyPrice(tiers, n) <= tiers[i].price + GreedyPrice(tiers, Less(n, tiers[i].qty))
    decreases n
  {
    var t := tiers[0].qty;
    if n >= t + tiers[1].qty {
      OneOfLargest(tiers, n - t);
      if i > 0 {
        assert tiers[i].qty <= tiers[1].qty;
        SwapsRepeat(tiers, n - t, i);
        OneOfLargest(tiers, n - t - tiers[i].qty);
      }
    }
  }

  lemma OneOfLargest(tiers: seq<Tier>, n: nat)
    requires tiers != [] && Ladder(tiers)
    ensures GreedyPrice(tiers, n + tiers[0].qty) == tiers[0].price + GreedyPrice(tiers, n)
  {
    MoreOfTop(tiers, 1, n);
  }

  /** For any ladder: greedy is the cheapest cover of every request if it is for those below the two largest tiers together. */
  lemma FirstRequestsDecide(tiers: seq<Tier>)
    requires |tiers| > 1 && Ladder(tiers)
    ensures GreedyCheapest(tiers) <==> GreedyCheapestUpTo(tiers, tiers[0].qty + tiers[1].qty - 1)
    ensures !TooMany(tiers[0].qty + tiers[1].qty - 1, tiers[0])
  {
    var bound := tiers[0].qty + tiers[1].qty - 1;
    if GreedyCheapestUpTo(tiers, bound) {
      GreedyCheapestIffNoSwap(tiers, bound);
      forall n: nat, k: seq<nat> | |k| == |tiers| && QtyOf(tiers, k) >= n
        ensures GreedyPrice(tiers, n) <= PriceOf(tiers, k)
      {
        forall n': nat, i: nat | n' <= n && i < |tiers|
          ensures GreedyPrice(tiers, n') <= tiers[i].price + GreedyPrice(tiers, Less(n', tiers[i].qty))
        {
          SwapsRepeat(tiers, n', i);
        }
        SwapsBoundEveryCover(tiers, n, n, k);
      }
    }
  }

  // ---------------------------------------------------- divisibility chains

  /** Where the next tier divides tier i, underselling is a unit price that rises. */
  lemma UndersellingOnChain(tiers: seq<Tier>, i: nat)
    requires i + 1 < |tiers| && Ladder(tiers) && Chain(tiers)
    ensures NoUnderselling(tiers, i) <==> tiers[i].price * tiers[i + 1].qty <= tiers[i + 1].price * tiers[i].qty
  {
    var t, s := tiers[i].qty, tiers[i + 1].qty;
    assert tiers[(i + 1) - 1].qty % tiers[i + 1].qty == 0;
    DivModLaw(t, s);
    CeilDivIsLeastCover(t, s, t / s);
    var m := NextHolds(tiers, i);
    if m < t / s {
      MulMonotone(m + 1, t / s, s);
      MulDistributes(m, 1, s);
    }
    assert m == t / s;
    ZeroCosts(tiers[i + 1..]);
    NeighbourPrices(tiers[i].price, t, tiers[i + 1].price, s, m);
  }

  /** What a chain's catalogue must satisfy: unit prices fall, and are all equal, or, with single items on sale, no tier is cheaper than the steps below it. */
  ghost predicate ChainPricesFit(tiers: seq<Tier>)
    requires tiers != [] && Ladder(tiers)
  {
    UnitPriceFalls(tiers) && if Last(tiers).qty > 1 then EvenUnitPrices(tiers) else StepsNeverDearer(tiers)
  }

  lemma ChainThroughoutIff(tiers: seq<Tier>)
    requires tiers != [] && Ladder(tiers) && Chain(tiers)
    ensures CheapestThroughout(tiers) <==> ChainPricesFit(tiers)
  {
    CheapestThroughoutIff(tiers);
    forall i | 0 <= i < |tiers| - 1
      ensures NoUnderselling(tiers, i) <==> tiers[i].price * tiers[i + 1].qty <= tiers[i + 1].price * tiers[i].qty
    {
      UndersellingOnChain(tiers, i);
    }
    FallsByNeighbours(tiers);
    if UnitPriceFalls(tiers) {
      if Last(tiers).qty > 1 {
        NeverDropsIffEven(tiers);
      } else {
        NeverDropsIffSteps(tiers);
      }
    }
  }

  /** At tier i itself, the whole pieces of the next tier are a cover. */
  lemma NeighbourIsNoDearer(tiers: seq<Tier>, i: nat, bound: nat)
    requires i + 1 < |tiers| && Ladder(tiers) && Chain(tiers)
    requires bound >= tiers[0].qty && GreedyCheapestUpTo(tiers, bound)
    ensures tiers[i].price * tiers[i + 1].qty <= tiers[i + 1].price * tiers[i].qty
  {
    var t, s := tiers[i].qty, tiers[i + 1].qty;
    assert tiers[(i + 1) - 1].qty % tiers[i + 1].qty == 0;
    DivModLaw(t, s);
    var k := OnlyTier(tiers, i + 1, t / s);
    PriceAtTier(tiers, i);
    assert t <= tiers[0].qty;
    assert GreedyPrice(tiers, t) <= PriceOf(tiers, k);
    NeighbourPrices(tiers[i].price, t, tiers[i + 1].price, s, t / s);
  }

  /**
   On a divisibility chain the comparisons become sums over the catalogue, and the ladder alone
   decides: greedy is the cheapest cover of all requests up to the largest tier exactly when the
   prices fit, and then of every request, throughout.
   */
  lemma ChainCheapestIff(tiers: seq<Tier>, bound: nat)
    requires tiers != [] && Ladder(tiers) && Chain(tiers) && bound >= tiers[0].qty
    ensures GreedyCheapestUpTo(tiers, bound) <==> ChainPricesFit(tiers)
    ensures CheapestThroughout(tiers) <==> ChainPricesFit(tiers)
  {
    ChainThroughoutIff(tiers);
    if GreedyCheapestUpTo(tiers, bound) {
      forall i | 0 <= i < |tiers| - 1
        ensures tiers[i].price * tiers[i + 1].qty <= tiers[i + 1].price * tiers[i].qty
      {
        NeighbourIsNoDearer(tiers, i, bound);
      }
      FallsByNeighbours(tiers);
    }
    if UnitPriceFalls(tiers) {
      GreedyCheapestIff(tiers, bound);
    }
  }

  lemma FallsByNeighbours(tiers: seq<Tier>)
    ensures UnitPriceFalls(tiers) <==>
              forall i | 0 <= i < |tiers| - 1 :: tiers[i].price * tiers[i + 1].qty <= tiers[i + 1].price * tiers[i].qty
  {
    if forall i | 0 <= i < |tiers| - 1 :: tiers[i].price * tiers[i + 1].qty <= tiers[i + 1].price * tiers[i].qty {
      forall i | 0 < i < |tiers|
        ensures tiers[i - 1].price * tiers[i].qty <= tiers[i].price * tiers[i - 1].qty
      {
        assert tiers[i - 1].price * tiers[(i - 1) + 1].qty <= tiers[(i - 1) + 1].price * tiers[i - 1].qty;
      }
    }
    if UnitPriceFalls(tiers) {
      forall i | 0 <= i < |tiers| - 1
        ensures tiers[i].price * tiers[i + 1].qty <= tiers[i + 1].price * tiers[i].qty
      {
        assert tiers[(i + 1) - 1].price * tiers[i + 1].qty <= tiers[i + 1].price * tiers[(i + 1) - 1].qty;
      }
    }
  }

  // ------------------------------------------------------- a shipped ladder

  /** A5 booklets of 8 pages, self cover, as shipped. */
  function Booklets(): seq<Tier> {
    [Tier(500, 37900), Tier(250, 22200), Tier(100, 11000), Tier(50, 6400), Tier(25, 3800)]
  }

  /** Between one and two of the smallest tier, and below the next one, greedy takes two. */
  lemma TwoOfSmallest(tiers: seq<Tier>, n: nat)
    requires |tiers| > 1 && Ladder(tiers) && !TooMany(n, tiers[0])
    requires Last(tiers).qty < n < 2 * Last(tiers).qty && n < tiers[|tiers| - 2].qty
    ensures Stacked(tiers, n) == Some(Stack(2 * Last(tiers).qty, 2 * Last(tiers).price, [Last(tiers), Last(tiers)]))
  {
    var smallest := Last(tiers);
    GreedyTakes(tiers, n, |tiers| - 1);
    GreedyTopsUp(tiers, n - smallest.qty);
    assert Greedy(tiers, n) == [smallest] + [smallest] == [smallest, smallest];
    TotalsOfAppend([smallest], [smallest]);
    TotalsOfOne(smallest);
  }

  lemma BookletsAreALadder()
    ensures Ladder(Booklets()) && UnitPriceFalls(Booklets())
  {
  }

  /** Unit prices fall all the way, yet 49 booklets are billed as 25 + 25 for 76.00 while 50 cost 64.00. */
  lemma ShippedBookletsMissASaving()
    ensures Ladder(Booklets()) && UnitPriceFalls(Booklets()) && !NeighboursConsistent(Booklets())
    ensures Stacked(Booklets(), 49).Some? && Stacked(Booklets(), 49).value.price == 7600
    ensures Stacked(Booklets(), 50).Some? && Stacked(Booklets(), 50).value.price == 6400
  {
    BookletsAreALadder();
    var tiers := Booklets();
    TwoOfSmallest(tiers, 49);
    StackAtTierIsLookup(tiers, 3);
    StackedIsChain(tiers, 49);
    PriceBelow(tiers, 3, 49);
    assert !NoDrop(tiers, 3);
  }
}

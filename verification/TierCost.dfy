/**
 When is the greedy stack the right bill?  Combinations of tiers are count
 vectors: `k[i]` copies of `tiers[i]`.
 */
module TierCost {
  import opened Wrappers
  import opened DivMod
  import opened TierStack

  function QtyOf(tiers: seq<Tier>, k: seq<nat>): nat
    requires |k| == |tiers|
  {
    if tiers == [] then 0 else k[0] * tiers[0].qty + QtyOf(tiers[1..], k[1..])
  }

  function PriceOf(tiers: seq<Tier>, k: seq<nat>): nat
    requires |k| == |tiers|
  {
    if tiers == [] then 0 else k[0] * tiers[0].price + PriceOf(tiers[1..], k[1..])
  }

  /** What greedy stacking charges, and how many items it bills. */
  function GreedyPrice(tiers: seq<Tier>, n: nat): nat
    requires tiers != [] && Ladder(tiers)
  {
    PriceOf(tiers, Counts(tiers, n))
  }

  function GreedyQty(tiers: seq<Tier>, n: nat): nat
    requires tiers != [] && Ladder(tiers)
  {
    QtyOf(tiers, Counts(tiers, n))
  }

  // ----------------------------------------------- the bill a caller receives

  lemma {:induction false} TotalsOfRepeat(t: Tier, c: nat)
    ensures TotalQty(Repeat(t, c)) == c * t.qty
    ensures TotalPrice(Repeat(t, c)) == c * t.price
  {
    if c > 0 {
      TotalsOfRepeat(t, c - 1);
      assert Repeat(t, c)[1..] == Repeat(t, c - 1);
    }
  }

  lemma {:induction false} TotalsOfExpand(tiers: seq<Tier>, k: seq<nat>)
    requires |k| == |tiers|
    ensures TotalQty(Expand(tiers, k)) == QtyOf(tiers, k)
    ensures TotalPrice(Expand(tiers, k)) == PriceOf(tiers, k)
  {
    if tiers != [] {
      TotalsOfRepeat(tiers[0], k[0]);
      TotalsOfExpand(tiers[1..], k[1..]);
      TotalsOfAppend(Repeat(tiers[0], k[0]), Expand(tiers[1..], k[1..]));
    }
  }

  /** Every stack is the div/mod chain, and bills and charges its counts - the small-order case included. */
  lemma StackedIsChain(tiers: seq<Tier>, requested: nat)
    requires Ladder(tiers) && requested > 0 && Stacked(tiers, requested).Some?
    ensures var s := Stacked(tiers, requested).value;
            && s.breakdown == Expand(tiers, Counts(tiers, requested))
            && s.billed == GreedyQty(tiers, requested)
            && s.price == GreedyPrice(tiers, requested)
  {
    GreedyIsChain(tiers, requested);
    TotalsOfExpand(tiers, Counts(tiers, requested));
    var last := |tiers| - 1;
    if requested <= tiers[last].qty {
      var i := Fit(tiers, requested);
      assert i >= last;
      assert Greedy(tiers, requested) == [Last(tiers)];
    }
  }

  /** Never under-delivers, and over-delivers by less than one smallest tier. */
  lemma {:induction false} BilledCoversRequest(tiers: seq<Tier>, n: nat)
    requires tiers != [] && Ladder(tiers)
    ensures n <= GreedyQty(tiers, n) < n + Last(tiers).qty
  {
    DivModLaw(n, tiers[0].qty);
    if |tiers| == 1 {
      assert QtyOf(tiers[1..], Counts(tiers, n)[1..]) == 0;
    } else {
      BilledCoversRequest(tiers[1..], n % tiers[0].qty);
    }
  }

  lemma TotalsOfOne(t: Tier)
    ensures TotalQty([t]) == t.qty && TotalPrice([t]) == t.price
  {
    assert [t][1..] == [];
    assert TotalQty([]) == 0 && TotalPrice([]) == 0;
  }

  /** At a catalogue quantity the stack is that tier alone: stacking and the direct lookup agree. */
  lemma StackAtTierIsLookup(tiers: seq<Tier>, i: nat)
    requires Ladder(tiers) && i < |tiers|
    ensures Stacked(tiers, tiers[i].qty) == Some(Stack(tiers[i].qty, tiers[i].price, [tiers[i]]))
  {
    var n := tiers[i].qty;
    assert Fit(tiers, n) == i;
    assert Greedy(tiers, 0) == [];
    assert Greedy(tiers, n) == [tiers[i]];
    TotalsOfOne(tiers[i]);
    assert n <= tiers[0].qty;
  }
}

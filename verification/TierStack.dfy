/**
 Off-tier quantities are billed as a stack of catalogue tiers: largest tier that
 still fits first, and one smallest tier as a top-up.  Prices are whole cents and
 a tier's `price` is the full cost of buying that tier once.
 */
module TierStack {
  import opened Wrappers
  import opened DivMod

  datatype Tier = Tier(qty: nat, price: nat)

  datatype Stack = Stack(billed: nat, price: nat, breakdown: seq<Tier>)

  /** Requests beyond five times the largest tier are left to a person. */
  predicate TooMany(requested: nat, largest: Tier) {
    requested > 5 * largest.qty
  }

  /** Tiers come from the database in strictly descending quantity, which the catalogue keeps positive. */
  ghost predicate Ladder(tiers: seq<Tier>) {
    && (forall i | 0 <= i < |tiers| :: tiers[i].qty > 0)
    && (forall i, j | 0 <= i < j < |tiers| :: tiers[i].qty > tiers[j].qty)
  }

  function Last(tiers: seq<Tier>): Tier
    requires tiers != []
  {
    tiers[|tiers| - 1]
  }

  function TotalQty(pieces: seq<Tier>): nat {
    if pieces == [] then 0 else pieces[0].qty + TotalQty(pieces[1..])
  }

  function TotalPrice(pieces: seq<Tier>): nat {
    if pieces == [] then 0 else pieces[0].price + TotalPrice(pieces[1..])
  }

  // ---------------------------------------------------------------- the loop

  /** Index of the largest tier that fits into `remaining`; |tiers| when none does. */
  function Fit(tiers: seq<Tier>, remaining: nat, from: nat := 0): (i: nat)
    requires from <= |tiers| && forall j | 0 <= j < from :: tiers[j].qty > remaining
    ensures from <= i <= |tiers|
    ensures i < |tiers| ==> tiers[i].qty <= remaining
    ensures forall j | 0 <= j < i :: tiers[j].qty > remaining
    decreases |tiers| - from
  {
    if from == |tiers| || tiers[from].qty <= remaining then from else Fit(tiers, remaining, from + 1)
  }

  /** What the greedy loop still appends when `remaining` items are left to cover. */
  function Greedy(tiers: seq<Tier>, remaining: nat): seq<Tier>
    requires tiers != [] && Ladder(tiers)
  {
    if remaining == 0 then []
    else
      var i := Fit(tiers, remaining);
      if i == |tiers| then [Last(tiers)]
      else [tiers[i]] + Greedy(tiers, remaining - tiers[i].qty)
  }

  /** What stacking means for a caller: no tiers or far too many items, smallest tier once, or the greedy pieces. */
  function Stacked(tiers: seq<Tier>, requested: nat): Option<Stack>
    requires Ladder(tiers)
  {
    if tiers == [] || TooMany(requested, tiers[0]) then None
    else if requested <= Last(tiers).qty then Some(Stack(Last(tiers).qty, Last(tiers).price, [Last(tiers)]))
    else
      var pieces := Greedy(tiers, requested);
      Some(Stack(TotalQty(pieces), TotalPrice(pieces), pieces))
  }

  /** Moving one chosen piece over to the breakdown. */
  lemma GreedyStep(done: seq<Tier>, tiers: seq<Tier>, remaining: nat, i: nat)
    requires tiers != [] && Ladder(tiers) && remaining > 0 && i == Fit(tiers, remaining) < |tiers|
    ensures (done + [tiers[i]]) + Greedy(tiers, remaining - tiers[i].qty) == done + Greedy(tiers, remaining)
  {
    var rest := Greedy(tiers, remaining - tiers[i].qty);
    assert Greedy(tiers, remaining) == [tiers[i]] + rest;
  }

  method StackTiers(tiers: seq<Tier>, requested: nat) returns (r: Option<Stack>)
    requires Ladder(tiers)
    ensures r == Stacked(tiers, requested)
    ensures r.Some? <==> tiers != [] && requested <= 5 * tiers[0].qty
  {
    if tiers == [] {
      return None;
    }
    var smallest, largest := tiers[|tiers| - 1], tiers[0];
    if TooMany(requested, largest) {
      return None;
    }
    if requested <= smallest.qty {
      return Some(Stack(smallest.qty, smallest.price, [smallest]));
    }
    var remaining: nat := requested;
    var breakdown: seq<Tier> := [];
    ghost var pieces := Greedy(tiers, requested);
    while remaining > 0
      invariant breakdown + Greedy(tiers, remaining) == pieces
    {
      var i := Fit(tiers, remaining);
      if i == |tiers| {
        breakdown := breakdown + [smallest];
        remaining := 0;
      } else {
        GreedyStep(breakdown, tiers, remaining, i);
        breakdown := breakdown + [tiers[i]];
        remaining := remaining - tiers[i].qty;
      }
    }
    assert breakdown + [] == breakdown;
    r := Some(Stack(TotalQty(breakdown), TotalPrice(breakdown), breakdown));
  }

  lemma TotalsOfAppend(a: seq<Tier>, b: seq<Tier>)
    ensures TotalQty(a + b) == TotalQty(a) + TotalQty(b)
    ensures TotalPrice(a + b) == TotalPrice(a) + TotalPrice(b)
  {
    if a == [] {
      assert a + b == b;
    } else {
      assert (a + b)[1..] == a[1..] + b;
      TotalsOfAppend(a[1..], b);
    }
  }


  // ------------------------------------------- the closed form of the loop

  /** How many of each tier the div/mod chain takes for `n` items; the last tier rounds up. */
  function Counts(tiers: seq<Tier>, n: nat): (counts: seq<nat>)
    requires tiers != [] && Ladder(tiers)
    ensures |counts| == |tiers|
  {
    var t := tiers[0].qty;
    if |tiers| == 1 then [n / t + if n % t > 0 then 1 else 0]
    else [n / t] + Counts(tiers[1..], n % t)
  }

  function Repeat(t: Tier, c: nat): seq<Tier> {
    if c == 0 then [] else [t] + Repeat(t, c - 1)
  }

  /** The pieces listed tier by tier. */
  function Expand(tiers: seq<Tier>, counts: seq<nat>): seq<Tier>
    requires |tiers| == |counts|
  {
    if tiers == [] then []
    else Repeat(tiers[0], counts[0]) + Expand(tiers[1..], counts[1..])
  }

  lemma CountsStep(tiers: seq<Tier>, n: nat)
    requires tiers != [] && Ladder(tiers) && n >= tiers[0].qty
    ensures var less := Counts(tiers, n - tiers[0].qty); Counts(tiers, n) == [less[0] + 1] + less[1..]
  {
    DivModStep(n, tiers[0].qty);
  }

  lemma RepeatOneMore(t: Tier, c: nat, below: seq<Tier>)
    ensures Repeat(t, c + 1) + below == [t] + (Repeat(t, c) + below)
  {
    assert Repeat(t, c + 1) == [t] + Repeat(t, c);
  }

  lemma ExpandOneMore(tiers: seq<Tier>, counts: seq<nat>, more: seq<nat>)
    requires |tiers| == |counts| == |more| > 0
    requires more[0] == counts[0] + 1 && more[1..] == counts[1..]
    ensures Expand(tiers, more) == [tiers[0]] + Expand(tiers, counts)
  {
    RepeatOneMore(tiers[0], counts[0], Expand(tiers[1..], counts[1..]));
  }

  lemma ChainBelowLargest(tiers: seq<Tier>, n: nat)
    requires |tiers| > 1 && Ladder(tiers) && n < tiers[0].qty
    ensures Expand(tiers, Counts(tiers, n)) == Expand(tiers[1..], Counts(tiers[1..], n))
  {
    DivModSmall(n, tiers[0].qty);
    assert Counts(tiers, n)[1..] == Counts(tiers[1..], n);
  }

  lemma ChainOfOne(t: Tier, n: nat)
    requires n < t.qty
    ensures Expand([t], Counts([t], n)) == if n > 0 then [t] else []
  {
    DivModSmall(n, t.qty);
    var c: nat := if n > 0 then 1 else 0;
    assert Counts([t], n) == [c];
    assert Expand([t][1..], [c][1..]) == [];
    assert Repeat(t, c) == if n > 0 then [t] else [];
  }

  lemma GreedyTakes(tiers: seq<Tier>, n: nat, a: nat)
    requires Ladder(tiers) && a < |tiers| && tiers[a].qty <= n && forall j | 0 <= j < a :: tiers[j].qty > n
    ensures Greedy(tiers, n) == [tiers[a]] + Greedy(tiers, n - tiers[a].qty)
  {
    assert Fit(tiers, n) == a;
  }

  lemma GreedyTopsUp(tiers: seq<Tier>, n: nat)
    requires tiers != [] && Ladder(tiers) && forall j | 0 <= j < |tiers| :: tiers[j].qty > n
    ensures Greedy(tiers, n) == if n > 0 then [Last(tiers)] else []
  {
    assert Fit(tiers, n) == |tiers|;
  }

  /** Once all tiers before `a` are too large, the loop walks down the rest of the ladder. */
  lemma {:induction false} GreedyIsChainFrom(tiers: seq<Tier>, n: nat, a: nat, rest: seq<Tier>)
    requires Ladder(tiers) && a < |tiers| && rest == tiers[a..] && Ladder(rest)
    requires forall j | 0 <= j < a :: tiers[j].qty > n
    ensures Greedy(tiers, n) == Expand(rest, Counts(rest, n))
    decreases |tiers| - a, n
  {
    var t := tiers[a];
    if n >= t.qty {
      GreedyTakes(tiers, n, a);
      GreedyIsChainFrom(tiers, n - t.qty, a, rest);
      CountsStep(rest, n);
      ExpandOneMore(rest, Counts(rest, n - t.qty), Counts(rest, n));
    } else if a + 1 < |tiers| {
      GreedyIsChainFrom(tiers, n, a + 1, rest[1..]);
      ChainBelowLargest(rest, n);
    } else {
      assert rest == [t];
      ChainOfOne(t, n);
      GreedyTopsUp(tiers, n);
    }
  }

  /** The loop computes the div/mod chain: its pieces are exactly the chain's counts, in ladder order. */
  lemma GreedyIsChain(tiers: seq<Tier>, n: nat)
    requires tiers != [] && Ladder(tiers)
    ensures Greedy(tiers, n) == Expand(tiers, Counts(tiers, n))
  {
    assert tiers[0..] == tiers;
    GreedyIsChainFrom(tiers, n, 0, tiers);
  }
}

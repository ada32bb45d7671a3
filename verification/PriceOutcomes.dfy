/**
 Which requests are quoted, and at what price: per entry point and strategy, in terms of
 the catalogue and the request.
 */
module PriceOutcomes {
  import opened Wrappers
  import Decimal
  import opened DivMod
  import opened Money
  import opened TierStack
  import opened TierCost
  import opened Laydown
  import opened PriceEngine
  import opened PriceLaws

  // ------------------------------------------------------------ whole cents

  /** `ex` is `total` / `base` to the nearest cent, the even one on a tie. */
  ghost predicate NearestShare(ex: int, total: int, base: nat) {
    var off := if ex * base >= total then ex * base - total else total - ex * base;
    2 * off <= base && (2 * off == base ==> ex % 2 == 0)
  }

  lemma PositiveProduct(a: real, b: real)
    requires a > 0.0 && b > 0.0
    ensures a * b > 0.0
  {
  }

  lemma Distributes(n: real, x: real, b: real)
    ensures (n - x) * b == n * b - x * b
  {
  }

  lemma WholeProduct(a: int, b: int)
    ensures (a * b) as real == a as real * b as real
  {
  }

  /** `side` lies half a unit below n; scaled up by the base it lies half a base below n x base. */
  lemma HalfBelow(n: int, base: nat, pieces: int, side: real)
    requires side == n as real - 0.5 && pieces == n * base
    ensures side * base as real == pieces as real - 0.5 * base as real
  {
    Distributes(n as real, 0.5, base as real);
    WholeProduct(n, base);
  }

  lemma ScaledOrder(a: real, b: real, factor: real, a': real, b': real)
    requires factor > 0.0 && a' == a * factor && b' == b * factor
    ensures a < b ==> a' < b'
    ensures a == b ==> a' == b'
  {
    if a < b {
      PositiveProduct(b - a, factor);
      Distributes(b, a, factor);
    }
  }

  /** A total seen from half a unit below n pieces of the base. */
  lemma TotalAbove(pieces: int, base: nat, total: int, below: real)
    requires below == pieces as real - 0.5 * base as real
    ensures below < total as real ==> 2 * (pieces - total) < base
    ensures below == total as real ==> 2 * (pieces - total) == base
  {
    if below < total as real {
      assert (2 * (pieces - total)) as real < base as real;
    } else if below == total as real {
      assert (2 * (pieces - total)) as real == base as real;
    }
  }

  lemma RoundedIsShare(x: real, total: int, base: nat)
    requires base > 0 && x * base as real == total as real
    ensures NearestShare(Round(x), total, base)
  {
    var n := Round(x);
    RoundsToIff(x, n);
    HalvesAreNear(n, x);
    NotFarBelow(n, x, total, base);
    NotFarAbove(n, x, total, base);
  }

  lemma NotFarBelow(n: int, x: real, total: int, base: nat)
    requires base > 0 && x * base as real == total as real
    ensures n as real - 0.5 < x ==> 2 * (n * base - total) < base
    ensures n as real - 0.5 == x ==> 2 * (n * base - total) == base
  {
    var side := n as real - 0.5;
    HalfBelow(n, base, n * base, side);
    var below := side * base as real;
    ScaledOrder(side, x, base as real, below, total as real);
    TotalAbove(n * base, base, total, below);
  }

  lemma NotFarAbove(n: int, x: real, total: int, base: nat)
    requires base > 0 && x * base as real == total as real
    ensures x < n as real + 0.5 ==> 2 * (total - n * base) < base
    ensures x == n as real + 0.5 ==> 2 * (total - n * base) == base
  {
    var side := n as real + 0.5;
    HalfBelow(n + 1, base, (n + 1) * base, side);
    var above := side * base as real;
    ScaledOrder(x, side, base as real, total as real, above);
    TotalBelow(n, base, total, above);
  }

  lemma HalvesAreNear(n: int, x: real)
    ensures Abs(n as real - x) < 0.5 <==> n as real - 0.5 < x < n as real + 0.5
    ensures Abs(n as real - x) == 0.5 <==> x == n as real - 0.5 || x == n as real + 0.5
  {
  }

  lemma TotalBelow(n: int, base: nat, total: int, above: real)
    requires above == ((n + 1) * base) as real - 0.5 * base as real
    ensures total as real < above ==> 2 * (total - n * base) < base
    ensures total as real == above ==> 2 * (total - n * base) == base
  {
    var pieces := n * base;
    MulDistributes(n, 1, base);
    if total as real < above {
      assert (2 * (total - pieces)) as real < base as real;
    } else if total as real == above {
      assert (2 * (total - pieces)) as real == base as real;
    }
  }

  // ------------------------------------------------------------ tier prices

  lemma ShareTimesBase(price: real, quantity: real, base: real)
    requires base > 0.0
    ensures price * (quantity / base) * base == price * quantity
  {
    var share := quantity / base;
    assert share * base == quantity;
    ProductAssociates(price, share, base);
  }

  lemma ProductAssociates(a: real, b: real, c: real)
    ensures (a * b) * c == a * (b * c)
  {
  }

  lemma LineTimesBase(price: nat, quantity: nat, base: nat, x: real)
    requires base >= 1 && x == price as real * (quantity as real / base as real)
    ensures x * base as real == (price * quantity) as real
  {
    ShareTimesBase(price as real, quantity as real, base as real);
    WholeProduct(price, quantity);
  }

  /** What a tier's line costs when its price buys `base` items: price x quantity / base, to the cent. */
  lemma LineIsShare(price: nat, quantity: nat, base: nat)
    requires base >= 1
    ensures NearestShare(DirectLine(price, quantity, base), price * quantity, base)
  {
    var x := price as real * (quantity as real / base as real);
    LineTimesBase(price, quantity, base, x);
    RoundedIsShare(x, price * quantity, base);
  }

  /** At a catalogue quantity, a price per `base` items is scaled to the quantity. */
  lemma PerBaseAtTier(p: Product, i: nat) returns (ex: nat)
    requires Catalogued(p) && "" in p.ladders && i < |p.ladders[""]|
    ensures var tier := p.ladders[""][i];
            PerBase(p, tier.qty) == Subtotal(ex) && NearestShare(ex, tier.price * tier.qty, p.unitBase)
  {
    var ladder := p.ladders[""];
    var lines := LinePriced(ladder, p.unitBase);
    PerBaseIsStacking(p, ladder[i].qty);
    StackAtTierIsLookup(lines, i);
    ex := lines[i].price;
    LineIsShare(ladder[i].price, ladder[i].qty, p.unitBase);
  }

  /** Lines for a ladder: one price per tier, each the tier's price scaled to its quantity. */
  ghost predicate LinesFor(lines: seq<nat>, ladder: seq<Tier>, base: nat) {
    && |lines| == |ladder|
    && forall i | 0 <= i < |ladder| :: NearestShare(lines[i], ladder[i].price * ladder[i].qty, base)
  }

  function SumOver(counts: seq<nat>, lines: seq<nat>): nat
    requires |counts| == |lines|
  {
    if counts == [] then 0 else counts[0] * lines[0] + SumOver(counts[1..], lines[1..])
  }

  lemma {:induction false} PriceIsSum(priced: seq<Tier>, lines: seq<nat>, k: seq<nat>)
    requires |k| == |lines| == |priced| && forall i | 0 <= i < |priced| :: priced[i].price == lines[i]
    ensures PriceOf(priced, k) == SumOver(k, lines)
  {
    if priced != [] {
      assert forall i | 0 <= i < |priced[1..]| :: priced[1..][i] == priced[i + 1] && lines[1..][i] == lines[i + 1];
      PriceIsSum(priced[1..], lines[1..], k[1..]);
    }
  }

  lemma {:induction false} CountsIgnorePrices(a: seq<Tier>, b: seq<Tier>, n: nat)
    requires a != [] && Ladder(a) && Ladder(b) && |a| == |b| && forall i | 0 <= i < |a| :: a[i].qty == b[i].qty
    ensures Counts(a, n) == Counts(b, n)
  {
    if |a| > 1 {
      assert forall i | 0 <= i < |a[1..]| :: a[1..][i] == a[i + 1] && b[1..][i] == b[i + 1];
      CountsIgnorePrices(a[1..], b[1..], n % a[0].qty);
    }
  }

  /** Prices per `base` items: refused without a ladder or beyond five times its largest tier, else the lines of the chain's counts. */
  lemma PerBasePrice(p: Product, quantity: nat) returns (lines: seq<nat>)
    requires Catalogued(p) && quantity > 0 && "" in p.ladders
    ensures LinesFor(lines, p.ladders[""], p.unitBase)
    ensures PerBase(p, quantity) ==
            if p.ladders[""] == [] || quantity > 5 * p.ladders[""][0].qty then Refused(false)
            else Subtotal(SumOver(Counts(p.ladders[""], quantity), lines))
  {
    var ladder := p.ladders[""];
    var priced := LinePriced(ladder, p.unitBase);
    lines := seq(|ladder|, i requires 0 <= i < |ladder| => priced[i].price);
    forall i | 0 <= i < |ladder|
      ensures NearestShare(lines[i], ladder[i].price * ladder[i].qty, p.unitBase)
    {
      LineIsShare(ladder[i].price, ladder[i].qty, p.unitBase);
    }
    PerBaseIsStacking(p, quantity);
    if ladder != [] && quantity <= 5 * ladder[0].qty {
      StackedIsChain(priced, quantity);
      CountsIgnorePrices(priced, ladder, quantity);
      PriceIsSum(priced, lines, Counts(ladder, quantity));
    }
  }

  /** Prices per job: refused likewise, else the tier prices of the chain's counts. */
  lemma PerJobPrice(p: Product, spec: string, quantity: nat)
    requires Catalogued(p) && quantity > 0
    ensures PerJob(p, spec, quantity) ==
            if spec !in p.ladders || p.ladders[spec] == [] || quantity > 5 * p.ladders[spec][0].qty then Refused(false)
            else Subtotal(PriceOf(p.ladders[spec], Counts(p.ladders[spec], quantity)))
  {
    PerJobIsStacking(p, spec, quantity);
    if spec in p.ladders && Stacked(p.ladders[spec], quantity).Some? {
      StackedIsChain(p.ladders[spec], quantity);
    }
  }

  // ---------------------------------------------------------- the shared tail

  /** The larger of the adjusted price and the minimum order; the client multiplier counts between 0 and 10, and when it is visibly not 1. */
  ghost predicate Settled(p: Product, tenant: Tenant, sub: int, ex: int) {
    var raw := tenant.clientMultiplier;
    var m := if raw.Some? && 0.0 < raw.value <= 10.0 then raw.value else 1.0;
    var adjusted := if 0.999999 <= m <= 1.000001 then sub else Scaled(sub, m);
    if p.minOrderValue.None? || p.minOrderValue.value <= 0.0 then ex == adjusted
    else ex == Bigger(adjusted, Round(p.minOrderValue.value))
  }

  function Bigger(a: int, b: int): int {
    if a >= b then a else b
  }

  lemma FlooredIsBigger(p: Product, ex: int)
    requires p.minOrderValue.Some? && p.minOrderValue.value > 0.0
    ensures Floored(p, ex) == Bigger(ex, Round(p.minOrderValue.value))
  {
    RoundIsNearest(ex as real, ex);
    if ex as real >= p.minOrderValue.value {
      RoundIsMonotone(p.minOrderValue.value, ex as real);
    } else {
      RoundIsMonotone(ex as real, p.minOrderValue.value);
    }
  }

  lemma AdjustedIs(sub: int, raw: Option<real>)
    ensures var m := if raw.Some? && 0.0 < raw.value <= 10.0 then raw.value else 1.0;
            ClientAdjusted(sub, ResolvedMultiplier(raw)) == if 0.999999 <= m <= 1.000001 then sub else Scaled(sub, m)
  {
    var m := if raw.Some? && 0.0 < raw.value <= 10.0 then raw.value else 1.0;
    assert ResolvedMultiplier(raw) == m;
    assert Abs(m - 1.0) > 0.000001 <==> !(0.999999 <= m <= 1.000001);
  }

  lemma FinalExIsSettled(p: Product, tenant: Tenant, sub: int)
    ensures Settled(p, tenant, sub, FinalEx(p, tenant, sub))
  {
    AdjustedIs(sub, tenant.clientMultiplier);
    if p.minOrderValue.Some? && p.minOrderValue.value > 0.0 {
      FlooredIsBigger(p, ClientAdjusted(sub, ResolvedMultiplier(tenant.clientMultiplier)));
    }
  }

  /** VAT and artwork, to the cent: artwork is billed exactly when asked for with hours, at the hourly rate and 23% VAT. */
  ghost predicate AddsUp(q: Outcome, tenant: Tenant, req: Request)
    requires q.Quoted?
  {
    && q.vat == Scaled(q.finalEx, tenant.vatRate)
    && (q.artwork.Some? <==> req.needsArtwork && req.artworkHours > 0.0)
    && (q.artwork.Some? ==>
          && q.artwork.value.ex == Round(tenant.artworkRate * req.artworkHours)
          && q.artwork.value.inc == Scaled(q.artwork.value.ex, 1.23))
  }

  lemma QuoteAddsUp(p: Product, tenant: Tenant, req: Request)
    requires Catalogued(p) && Quote(Some(p), tenant, req).Quoted?
    ensures AddsUp(Quote(Some(p), tenant, req), tenant, req)
  {
    var v := VerdictFor(p, tenant.rules, req);
    assert v.Subtotal?;
    SettleAddsUp(p, tenant, req, v.ex);
  }

  lemma SettleAddsUp(p: Product, tenant: Tenant, req: Request, sub: int)
    ensures AddsUp(Settle(p, tenant, req, Subtotal(sub)), tenant, req)
  {
  }

  // -------------------------------------------------------------- surcharges

  ghost predicate InScope(p: Product, rule: Surcharge) {
    if rule.keys != [] then p.key in rule.keys else rule.category.None? || rule.category == Some(p.category)
  }

  /** What a named rule adds for this product: a share of the price, or a flat amount. */
  ghost function Share(p: Product, rules: Rules, name: string): real {
    if name in rules.surcharges && InScope(p, rules.surcharges[name]) && !rules.surcharges[name].additive
    then rules.surcharges[name].amount else 0.0
  }

  ghost function FlatAmount(p: Product, rules: Rules, name: string): real {
    if name in rules.surcharges && InScope(p, rules.surcharges[name]) && rules.surcharges[name].additive
    then rules.surcharges[name].amount else 0.0
  }

  ghost predicate Available(p: Product, finish: Option<string>) {
    || finish.None? || finish == Some("soft_touch")
    || (finish == Some("triplicate") && p.key in {"ncr_books_a5", "ncr_books_a4"})
    || (finish != Some("triplicate") && (p.finishes == [] || finish.value in p.finishes))
  }

  lemma ApplyAdds(p: Product, rules: Rules, name: string, f: Factors)
    ensures Apply(p, rules, name, f) ==
            Factors(f.multiplier * (1.0 + Share(p, rules, name)), f.additive + FlatAmount(p, rules, name))
  {
  }

  /** Double-sided where the product charges for it, and the two finishes that cost extra, each under its own rule; refused exactly for a finish not on offer. */
  lemma SurchargesAre(p: Product, rules: Rules, req: Request)
    ensures SurchargesFor(p, rules, req).Some? <==> Available(p, req.finish)
    ensures var both := req.doubleSided && p.doubleSidedSurcharge;
            var share := if both then Share(p, rules, "double_sided") else 0.0;
            var flat := if both then FlatAmount(p, rules, "double_sided") else 0.0;
            SurchargesFor(p, rules, req).Some? ==>
              SurchargesFor(p, rules, req).value ==
                if req.finish == Some("soft_touch") then
                  Factors((1.0 + share) * (1.0 + Share(p, rules, "soft_touch")), flat + FlatAmount(p, rules, "soft_touch"))
                else if req.finish == Some("triplicate") then
                  Factors((1.0 + share) * (1.0 + Share(p, rules, "triplicate")), flat + FlatAmount(p, rules, "triplicate"))
                else Factors(1.0 + share, flat)
  {
    var f0 := Factors(1.0, 0.0);
    ApplyAdds(p, rules, "double_sided", f0);
    var f1 := if req.doubleSided && p.doubleSidedSurcharge then Apply(p, rules, "double_sided", f0) else f0;
    ApplyAdds(p, rules, "soft_touch", f1);
    ApplyAdds(p, rules, "triplicate", f1);
  }

  // ---------------------------------------------------------- entry points

  /** A person decides, or the quantity is out of bounds. */
  ghost predicate Passes(p: Product, quantity: int) {
    !p.manualReview && quantity > 0 && (p.maxQty.Some? && p.maxQty.value > 0 ==> quantity <= p.maxQty.value)
  }

  /** A guard that stops a request calls for a person exactly on manual-review products and beyond the cap. */
  lemma GuardsStop(p: Product, tenant: Tenant, req: Request)
    requires Catalogued(p) && !Passes(p, req.quantity)
    ensures Quote(Some(p), tenant, req) == Escalated(p.manualReview || req.quantity > 0)
    ensures Quote(None, tenant, req) == Escalated(false)
  {
  }

  /** A small-format subtotal: the lines of the chain's counts, surcharged. */
  lemma SmallFormatSubtotal(p: Product, rules: Rules, req: Request) returns (lines: seq<nat>)
    requires Catalogued(p) && "" in p.ladders && Passes(p, req.quantity)
    ensures LinesFor(lines, p.ladders[""], p.unitBase)
    ensures SmallFormatVerdict(p, rules, req) ==
            if p.ladders[""] == [] || req.quantity > 5 * p.ladders[""][0].qty || SurchargesFor(p, rules, req).None?
            then Refused(false)
            else Subtotal(Surcharged(SumOver(Counts(p.ladders[""], req.quantity), lines), SurchargesFor(p, rules, req).value))
  {
    lines := PerBasePrice(p, req.quantity);
  }

  /** Small format: quoted exactly with a ladder that reaches the request and a finish on offer; priced by lines, surcharged (see SurchargesAre), settled. */
  lemma SmallFormatIsQuotedIff(p: Product, tenant: Tenant, req: Request) returns (lines: seq<nat>)
    requires Catalogued(p) && p.category == "small_format" && "" in p.ladders && Passes(p, req.quantity)
    ensures LinesFor(lines, p.ladders[""], p.unitBase)
    ensures var ladder := p.ladders[""];
            if ladder != [] && req.quantity <= 5 * ladder[0].qty && Available(p, req.finish) then
              && SurchargesFor(p, tenant.rules, req).Some? && Quote(Some(p), tenant, req).Quoted?
              && Settled(p, tenant, Surcharged(SumOver(Counts(ladder, req.quantity), lines), SurchargesFor(p, tenant.rules, req).value),
                         Quote(Some(p), tenant, req).finalEx)
            else Quote(Some(p), tenant, req) == Escalated(false)
  {
    lines := SmallFormatSubtotal(p, tenant.rules, req);
    SurchargesAre(p, tenant.rules, req);
    var v := SmallFormatVerdict(p, tenant.rules, req);
    if v.Subtotal? {
      FinalExIsSettled(p, tenant, v.ex);
    }
  }

  /** n is the whole number of cents nearest to x, the even one on a tie. */
  ghost predicate Nearest(n: int, x: real) {
    Abs(n as real - x) < 0.5 || (Abs(n as real - x) == 0.5 && n % 2 == 0)
  }

  lemma RoundIsTheNearest(x: real, n: int)
    ensures Round(x) == n <==> Nearest(n, x)
  {
    RoundsToIff(x, n);
  }

  /** Shares multiply the price, flat amounts come on top, to the cent. */
  lemma SurchargedIsNearest(base: int, f: Factors, x: real, n: int)
    requires x == base as real * f.multiplier + f.additive
    ensures Surcharged(base, f) == n <==> Nearest(n, x)
  {
    RoundIsTheNearest(x, n);
  }

  /** A line is amount times price, to the cent. */
  lemma LineIsNearest(amount: real, price: real, x: real, n: int)
    requires x == amount * price
    ensures Line(amount, price) == n <==> Nearest(n, x)
  {
    RoundIsTheNearest(x, n);
  }

  /** A price times a factor, to the cent. */
  lemma ScaledIsNearest(price: int, factor: real, x: real, n: int)
    requires x == price as real * factor
    ensures Scaled(price, factor) == n <==> Nearest(n, x)
  {
    RoundIsTheNearest(x, n);
  }

  /** Booklets: quoted exactly with a ladder for the spec that reaches the request, at its chain's tier prices. */
  lemma BookletIsQuotedIff(p: Product, tenant: Tenant, req: Request)
    requires Catalogued(p) && p.category != "small_format" && p.category != "large_format" && Passes(p, req.quantity)
    ensures var spec := req.spec;
            if spec in p.ladders && p.ladders[spec] != [] && req.quantity <= 5 * p.ladders[spec][0].qty then
              && Quote(Some(p), tenant, req).Quoted?
              && Settled(p, tenant, PriceOf(p.ladders[spec], Counts(p.ladders[spec], req.quantity)),
                         Quote(Some(p), tenant, req).finalEx)
            else Quote(Some(p), tenant, req) == Escalated(false)
  {
    PerJobPrice(p, req.spec, req.quantity);
    if req.spec in p.ladders && p.ladders[req.spec] != [] {
      FinalExIsSettled(p, tenant, PriceOf(p.ladders[req.spec], Counts(p.ladders[req.spec], req.quantity)));
    }
  }

  /** A large-format quote settles what its strategy charges. */
  ghost predicate Settles(v: Verdict, p: Product, tenant: Tenant, req: Request) {
    && Catalogued(p)
    && match v
       case Refused(manual) => Quote(Some(p), tenant, req) == Escalated(manual)
       case Subtotal(sub) => Quote(Some(p), tenant, req).Quoted? && Settled(p, tenant, sub, Quote(Some(p), tenant, req).finalEx)
  }

  /** Large format: each strategy by its own rule, everything without one by the unit. */
  lemma LargeFormatByStrategy(p: Product, tenant: Tenant, req: Request)
    requires Catalogued(p) && p.category == "large_format" && Passes(p, req.quantity)
    ensures p.strategy == "per_sqm" || p.strategy == "per_unit_metric" ==> Settles(PerSqm(p, req), p, tenant, req)
    ensures p.strategy == "per_sheet" ==> Settles(PerSheet(p, req), p, tenant, req)
    ensures p.strategy == "tiered" ==> Settles(Tiered(p, tenant.rules, req), p, tenant, req)
    ensures p.strategy !in {"per_sqm", "per_unit_metric", "per_sheet", "tiered"} ==> Settles(PerUnit(p, req), p, tenant, req)
  {
    var v := LargeFormatVerdict(p, tenant.rules, req);
    if v.Subtotal? {
      FinalExIsSettled(p, tenant, v.ex);
    }
  }

  /** By the unit: refused below the minimum quantity; at the bulk price from its threshold on (always, without one), else at the unit price. */
  lemma PerUnitBills(p: Product, req: Request)
    requires req.quantity > 0
    ensures var n, v := req.quantity, PerUnit(p, req);
            var price := if p.bulkPrice.Some? && (p.bulkThreshold.None? || n >= p.bulkThreshold.value) then p.bulkPrice else p.unitPrice;
            if p.minQty.Some? && n < p.minQty.value then v == Refused(false)
            else if price.None? then v == Refused(true)
            else v == Subtotal(Line(n as real, price.value))
  {
  }

  ghost predicate FitsEitherWay(w: nat, h: nat, W: int, H: int) {
    (w <= W && h <= H) || (h <= W && w <= H)
  }

  lemma QuotientPositiveIff(a: int, b: nat)
    requires b > 0 && a >= 0
    ensures a / b > 0 <==> b <= a
  {
    DivModLaw(a, b);
    if b <= a {
      DivMonotone(b, a, b);
    } else {
      DivModSmall(a, b);
    }
  }

  lemma ProductPositiveIff(a: nat, b: nat)
    ensures a * b > 0 <==> a > 0 && b > 0
  {
  }

  lemma GridPositiveIff(w: nat, h: nat, W: nat, H: nat)
    requires w > 0 && h > 0
    ensures (W / w) * (H / h) > 0 <==> w <= W && h <= H
  {
    QuotientPositiveIff(W, w);
    QuotientPositiveIff(H, h);
    ProductPositiveIff(W / w, H / h);
  }

  /** A sheet yields something exactly when the panel fits on it one way round. */
  lemma YieldPositiveIff(w: nat, h: nat, W: int, H: int)
    requires w > 0 && h > 0
    ensures UnitsPerSheet(w, h, W, H) > 0 <==> W > 0 && H > 0 && FitsEitherWay(w, h, W, H)
  {
    if W > 0 && H > 0 {
      GridPositiveIff(w, h, W, H);
      GridPositiveIff(h, w, W, H);
    }
  }

  /** By the sheet: priced exactly when dimensions, sheet and price are known and the panel fits; anything else needs a person. */
  lemma PerSheetIsPricedIff(p: Product, req: Request)
    requires Catalogued(p) && req.quantity > 0
    ensures PerSheet(p, req) == Refused(true) || PerSheet(p, req).Subtotal?
    ensures PerSheet(p, req).Subtotal? <==>
              && req.width.Some? && req.height.Some? && req.width.value > 0 && req.height.value > 0
              && p.sheetSize.Some? && p.sheetPrice.Some? && p.sheetPrice.value > 0.0
              && FitsEitherWay(req.width.value, req.height.value, p.sheetSize.value.0, p.sheetSize.value.1)
  {
    if req.width.Some? && req.height.Some? && req.width.value > 0 && req.height.value > 0 && p.sheetSize.Some? {
      YieldPositiveIff(req.width.value, req.height.value, p.sheetSize.value.0, p.sheetSize.value.1);
    }
  }

  /** The ladder of a full sheet is filed under its size, as in "2440x1220". */
  lemma SheetIsFiledAs()
    ensures SheetSpec((2440, 1220)) == "2440x1220"
  {
    assert Decimal.Str(24) == "24" && Decimal.Str(244) == "244" && Decimal.Str(2440) == "2440";
    assert Decimal.Str(12) == "12" && Decimal.Str(122) == "122" && Decimal.Str(1220) == "1220";
  }

  /** Tiered boards: a standard size by its own ladder, a custom one when it fits a sheet inside the margins; nothing needs a person. */
  lemma TieredIsPricedIff(p: Product, rules: Rules, req: Request)
    requires Catalogued(p) && req.quantity > 0 && rules.margins.bleed >= 0
    ensures req.size.Some? ==> Tiered(p, rules, req) == PerJob(p, req.size.value, req.quantity)
    ensures req.size.None? ==>
              (Tiered(p, rules, req) == Refused(false) ||
               (req.width.Some? && req.height.Some? && req.width.value > 0 && req.height.value > 0
                && Tiered(p, rules, req) == CustomSize(p, rules, req, req.width.value, req.height.value)))
    ensures req.size.None? && req.width.Some? && req.height.Some? && req.width.value > 0 && req.height.value > 0 ==>
              Tiered(p, rules, req) == CustomSize(p, rules, req, req.width.value, req.height.value)
  {
  }

  lemma LaydownPositiveIff(w: nat, h: nat, sheet: (nat, nat), m: Margins)
    requires w > 0 && h > 0 && m.bleed >= 0
    ensures LaydownUnits(w, h, sheet.0, sheet.1, m) > 0 <==>
              && sheet.0 > 2 * m.side && sheet.1 > m.front + m.back
              && FitsEitherWay(w + 2 * m.bleed, h + 2 * m.bleed, sheet.0 - 2 * m.side, sheet.1 - m.front - m.back)
  {
    YieldPositiveIff(w + 2 * m.bleed, h + 2 * m.bleed, sheet.0 - 2 * m.side, sheet.1 - m.front - m.back);
  }

  /** A custom board is priced exactly when it fits a sheet inside the margins and the sheet ladder reaches the sheets it takes. */
  lemma CustomSizeIsPricedIff(p: Product, rules: Rules, req: Request, w: nat, h: nat)
    requires Catalogued(p) && req.quantity > 0 && rules.margins.bleed >= 0 && w > 0 && h > 0 && p.sheetSize.Some?
    ensures var m, v, sheet := rules.margins, CustomSize(p, rules, req, w, h), p.sheetSize.value;
            if && sheet.0 > 2 * m.side && sheet.1 > m.front + m.back
               && FitsEitherWay(w + 2 * m.bleed, h + 2 * m.bleed, sheet.0 - 2 * m.side, sheet.1 - m.front - m.back)
            then
              && LaydownUnits(w, h, sheet.0, sheet.1, m) > 0
              && v == PerJob(p, SheetSpec(sheet), SheetsNeeded(req.quantity, LaydownUnits(w, h, sheet.0, sheet.1, m)))
            else v == Refused(false)
  {
    LaydownPositiveIff(w, h, p.sheetSize.value, rules.margins);
  }

  /** No area can be told exactly without a given one, dimensions, a default size, and a yield the product may fall back on. */
  lemma AreaIsKnownIff(p: Product, req: Request)
    ensures TotalArea(p, req).None? <==>
              && !(req.area.Some? && req.area.value > 0.0)
              && !(req.width.Some? && req.height.Some? && req.width.value > 0 && req.height.value > 0)
              && p.defaultSize.None?
              && !(p.yieldPerSqm.Some? && p.yieldPerSqm.value > 0.0 && !p.requiresDimensions)
  {
  }

  /** The area billed, and the price it is billed at, if there is one. */
  ghost function AreaOrMinimum(p: Product, asked: real): real {
    if p.minBillableSqm.Some? && p.minBillableSqm.value > asked then p.minBillableSqm.value else asked
  }

  ghost function BulkOrUnit(p: Product, area: real): Option<real> {
    if p.bulkThreshold.Some? && p.bulkThreshold.value > 0 && p.bulkPrice.Some? && area >= p.bulkThreshold.value as real
    then p.bulkPrice else p.unitPrice
  }

  lemma CeilingIff(x: real, d: real, bound: real)
    requires d > 0.0
    ensures x / d <= bound <==> x <= bound * d
  {
    var y := x / d;
    assert y * d == x;
    if y <= bound {
      ProductMonotone(y, bound, d);
    } else {
      PositiveProduct(y - bound, d);
      Distributes(y, bound, d);
    }
  }

  ghost predicate KeepsCeiling(p: Product, ex: int, quantity: int) {
    p.sanityMaxUnitPrice.Some? && p.sanityMaxUnitPrice.value != 0.0 ==>
      ex as real <= p.sanityMaxUnitPrice.value * quantity as real
  }

  /** The engine's price per square metre, zero standing for none. */
  lemma PricePerSqmIs(p: Product, asked: real)
    requires asked > 0.0
    ensures BilledArea(p, asked) == AreaOrMinimum(p, asked)
    ensures var price := BulkOrUnit(p, AreaOrMinimum(p, asked));
            PricePerSqm(p, AreaOrMinimum(p, asked)) == if price.Some? then price.value else 0.0
  {
  }

  lemma CeilingIsKeptIff(p: Product, ex: int, quantity: int)
    requires quantity > 0
    ensures KeepsCeiling(p, ex, quantity) <==>
              !(p.sanityMaxUnitPrice.Some? && p.sanityMaxUnitPrice.value != 0.0
                && ex as real / quantity as real > p.sanityMaxUnitPrice.value)
  {
    if p.sanityMaxUnitPrice.Some? {
      CeilingIff(ex as real, quantity as real, p.sanityMaxUnitPrice.value);
    }
  }

  lemma PerSqmOfArea(p: Product, req: Request)
    requires req.quantity > 0 && TotalArea(p, req).Some? && TotalArea(p, req).value > 0.0
    ensures var area := AreaOrMinimum(p, TotalArea(p, req).value); var price := BulkOrUnit(p, area);
            PerSqm(p, req) ==
              if price.Some? && price.value > 0.0 && KeepsCeiling(p, Line(area, price.value), req.quantity)
              then Subtotal(Line(area, price.value)) else Refused(true)
  {
    var area := AreaOrMinimum(p, TotalArea(p, req).value);
    var price := BulkOrUnit(p, area);
    PricePerSqmIs(p, TotalArea(p, req).value);
    CeilingIsKeptIff(p, Line(area, if price.Some? then price.value else 0.0), req.quantity);
  }

  /** By the area: priced exactly when an area can be told, its price is positive and the ceiling is kept; anything else needs a person. */
  lemma PerSqmIsPricedIff(p: Product, req: Request)
    requires req.quantity > 0
    ensures var asked := TotalArea(p, req);
            var area := if asked.Some? then AreaOrMinimum(p, asked.value) else 0.0;
            var price := BulkOrUnit(p, area);
            PerSqm(p, req) ==
              if asked.Some? && asked.value > 0.0 && price.Some? && price.value > 0.0
                 && KeepsCeiling(p, Line(area, price.value), req.quantity)
              then Subtotal(Line(area, price.value)) else Refused(true)
  {
    if TotalArea(p, req).Some? && TotalArea(p, req).value > 0.0 {
      PerSqmOfArea(p, req);
    }
  }

  // -------------------------------------------------------- a shipped ladder

  /** Business cards as shipped, priced per 100. */
  function BusinessCards(): seq<Tier> {
    [Tier(2500, 2400), Tier(1000, 3000), Tier(500, 3800), Tier(250, 6000), Tier(100, 3000)]
  }

  /** 500 of them are five times 38.00, 2500 are twenty-five times 24.00. */
  lemma ShippedCardsAreScaled(p: Product)
    requires Catalogued(p) && "" in p.ladders && p.ladders[""] == BusinessCards() && p.unitBase == 100
    ensures PerBase(p, 500) == Subtotal(19000) && PerBase(p, 2500) == Subtotal(60000)
  {
    var five := PerBaseAtTier(p, 2);
    var all := PerBaseAtTier(p, 0);
  }
}

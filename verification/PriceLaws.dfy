/** What holds of every quote, whichever entry point and strategy produced it. */
module PriceLaws {
  import opened Wrappers
  import opened Money
  import opened TierStack
  import opened TierCost
  import opened PriceEngine
  import opened Laydown

  // ------------------------------------------------------------ soundness

  /** A verdict with a price means the guards let the request through. */
  lemma PricedMeansAllowed(p: Product, rules: Rules, req: Request)
    requires Catalogued(p)
    ensures VerdictFor(p, rules, req).Subtotal? ==>
              !p.manualReview && req.quantity > 0 && (Positive(p.maxQty) ==> req.quantity <= p.maxQty.value)
  {
  }

  lemma FloorHolds(p: Product, tenant: Tenant, subtotal: int)
    ensures p.minOrderValue.Some? && p.minOrderValue.value > 0.0 ==>
              FinalEx(p, tenant, subtotal) >= Round(p.minOrderValue.value)
  {
    var x := ClientAdjusted(subtotal, ResolvedMultiplier(tenant.clientMultiplier));
    if p.minOrderValue.Some? && x as real >= p.minOrderValue.value {
      RoundIsMonotone(p.minOrderValue.value, x as real);
      RoundIsNearest(x as real, x);
    }
  }

  /** Every successful quote respects the guards, adds up to the cent, honours the minimum, and its VAT can be undone. */
  lemma QuotedIsSound(p: Option<Product>, tenant: Tenant, req: Request)
    requires (p.Some? ==> Catalogued(p.value)) && Quote(p, tenant, req).Quoted? && tenant.vatRate >= 0.0
    ensures var q := Quote(p, tenant, req);
            && p.Some? && !p.value.manualReview
            && q.quantity == req.quantity && 0 < q.quantity
            && (Positive(p.value.maxQty) ==> q.quantity <= p.value.maxQty.value)
            && q.finalInc == q.finalEx + q.vat
            && q.total == q.finalInc + (if q.artwork.Some? then q.artwork.value.inc else 0)
            && (p.value.minOrderValue.Some? && p.value.minOrderValue.value > 0.0 ==>
                  q.finalEx >= Round(p.value.minOrderValue.value))
            && Net(q.finalInc, tenant.vatRate) == q.finalEx
  {
    PricedMeansAllowed(p.value, tenant.rules, req);
    FloorHolds(p.value, tenant, VerdictFor(p.value, tenant.rules, req).ex);
    var q := Quote(p, tenant, req);
    NetInvertsGross(q.finalEx, tenant.vatRate);
    assert q.finalInc == Gross(q.finalEx, tenant.vatRate);
  }

  // ---------------------------------------------------------- monotonicity

  lemma ClientAdjustedMonotone(x: int, y: int, m: real)
    requires x <= y && m > 0.0
    ensures ClientAdjusted(x, m) <= ClientAdjusted(y, m)
  {
    ScaledIsMonotone(x, y, m);
  }

  lemma ClientAdjustedGrows(x: nat, m: real, m': real)
    requires m <= m'
    ensures ClientAdjusted(x, m) <= ClientAdjusted(x, m')
  {
    ScaledByOne(x);
    ScaledGrows(x, m, m');
    if m <= 1.0 {
      ScaledGrows(x, m, 1.0);
    }
    if m' >= 1.0 {
      ScaledGrows(x, 1.0, m');
    }
  }

  lemma FlooredMonotone(p: Product, x: int, y: int)
    requires x <= y
    ensures Floored(p, x) <= Floored(p, y)
  {
    if p.minOrderValue.Some? && y as real >= p.minOrderValue.value {
      RoundIsMonotone(p.minOrderValue.value, y as real);
      RoundIsNearest(y as real, y);
    }
  }

  /** Neither a lower base price nor, for a non-negative one, a lower multiplier makes the final price higher. */
  lemma FinalExMonotone(p: Product, tenant: Tenant, tenant': Tenant, x: int, y: int)
    requires x <= y
    requires var m, m' := ResolvedMultiplier(tenant.clientMultiplier), ResolvedMultiplier(tenant'.clientMultiplier);
             m == m' || (m <= m' && y >= 0)
    ensures FinalEx(p, tenant, x) <= FinalEx(p, tenant', y)
  {
    var m, m' := ResolvedMultiplier(tenant.clientMultiplier), ResolvedMultiplier(tenant'.clientMultiplier);
    ClientAdjustedMonotone(x, y, m);
    if m != m' {
      ClientAdjustedGrows(y, m, m');
    }
    FlooredMonotone(p, ClientAdjusted(x, m), ClientAdjusted(y, m'));
  }

  /** The client multiplier never decides whether a request is quoted, and raising it never lowers the price. */
  lemma QuoteMonotoneInMultiplier(p: Product, tenant: Tenant, raw: Option<real>, req: Request)
    requires Catalogued(p)
    requires ResolvedMultiplier(tenant.clientMultiplier) <= ResolvedMultiplier(raw)
    requires var v := VerdictFor(p, tenant.rules, req); v.Subtotal? ==> v.ex >= 0
    ensures var q, q' := Quote(Some(p), tenant, req), Quote(Some(p), tenant.(clientMultiplier := raw), req);
            && q.Quoted? == q'.Quoted?
            && (q.Escalated? ==> q == q')
            && (q.Quoted? ==> q.finalEx <= q'.finalEx)
  {
    var tenant' := tenant.(clientMultiplier := raw);
    var v := VerdictFor(p, tenant.rules, req);
    if v.Subtotal? {
      FinalExMonotone(p, tenant, tenant', v.ex, v.ex);
    }
  }

  // ------------------------------------------------------ never a negative price

  ghost predicate NoNegativeSurcharge(rules: Rules) {
    forall name | name in rules.surcharges :: rules.surcharges[name].amount >= 0.0
  }

  ghost predicate NoNegativePrices(p: Product) {
    && (p.unitPrice.Some? ==> p.unitPrice.value >= 0.0)
    && (p.bulkPrice.Some? ==> p.bulkPrice.value >= 0.0)
    && (p.minBillableSqm.Some? ==> p.minBillableSqm.value >= 0.0)
  }

  lemma ApplyKeepsSign(p: Product, rules: Rules, name: string, f: Factors)
    requires NoNegativeSurcharge(rules) && f.multiplier >= 0.0 && f.additive >= 0.0
    ensures Apply(p, rules, name, f).multiplier >= 0.0 && Apply(p, rules, name, f).additive >= 0.0
  {
    if name in rules.surcharges {
      ProductMonotone(0.0, f.multiplier, 1.0 + AmountFor(p, rules.surcharges[name]));
    }
  }

  lemma SurchargesKeepSign(p: Product, rules: Rules, req: Request)
    requires NoNegativeSurcharge(rules) && SurchargesFor(p, rules, req).Some?
    ensures SurchargesFor(p, rules, req).value.multiplier >= 0.0
    ensures SurchargesFor(p, rules, req).value.additive >= 0.0
  {
    var f0 := Factors(1.0, 0.0);
    ApplyKeepsSign(p, rules, "double_sided", f0);
    var f1 := if req.doubleSided && p.doubleSidedSurcharge then Apply(p, rules, "double_sided", f0) else f0;
    ApplyKeepsSign(p, rules, "soft_touch", f1);
    ApplyKeepsSign(p, rules, "triplicate", f1);
  }

  ghost predicate NotBelowZero(v: Verdict) {
    v.Subtotal? ==> v.ex >= 0
  }

  lemma SurchargedNotBelowZero(base: nat, f: Factors)
    requires f.multiplier >= 0.0 && f.additive >= 0.0
    ensures Surcharged(base, f) >= 0
  {
    ProductMonotone(0.0, base as real, f.multiplier);
    RoundNonNegative(base as real * f.multiplier + f.additive);
  }

  lemma PerBaseNotBelowZero(p: Product, quantity: nat)
    requires Catalogued(p)
    ensures NotBelowZero(PerBase(p, quantity))
  {
    PerBaseIsStacking(p, quantity);
  }

  lemma SmallFormatNotBelowZero(p: Product, rules: Rules, req: Request)
    requires Catalogued(p) && NoNegativeSurcharge(rules)
    ensures NotBelowZero(SmallFormatVerdict(p, rules, req))
  {
    if SmallFormatVerdict(p, rules, req).Subtotal? {
      PerBaseNotBelowZero(p, req.quantity);
      SurchargesKeepSign(p, rules, req);
      SurchargedNotBelowZero(PerBase(p, req.quantity).ex, SurchargesFor(p, rules, req).value);
    }
  }

  /** A per-area price is a positive area at a positive price. */
  lemma PerSqmLine(p: Product, req: Request) returns (area: real, price: real)
    requires req.quantity > 0 && PerSqm(p, req).Subtotal?
    ensures area > 0.0 && price > 0.0 && PerSqm(p, req).ex == Line(area, price)
  {
    area := BilledArea(p, TotalArea(p, req).value);
    price := PricePerSqm(p, area);
  }

  lemma LineNotBelowZero(amount: real, price: real)
    requires amount >= 0.0 && price >= 0.0
    ensures Line(amount, price) >= 0
  {
    RoundedProductNonNegative(amount, price);
  }

  lemma PerSqmNotBelowZero(p: Product, req: Request)
    requires req.quantity > 0
    ensures NotBelowZero(PerSqm(p, req))
  {
    if PerSqm(p, req).Subtotal? {
      var area, price := PerSqmLine(p, req);
      LineNotBelowZero(area, price);
    }
  }

  lemma PerSheetNotBelowZero(p: Product, req: Request)
    requires req.quantity > 0
    ensures NotBelowZero(PerSheet(p, req))
  {
    if PerSheet(p, req).Subtotal? {
      var units := UnitsPerSheet(req.width.value, req.height.value, p.sheetSize.value.0, p.sheetSize.value.1);
      LineNotBelowZero(SheetsNeeded(req.quantity, units) as real, p.sheetPrice.value);
    }
  }

  lemma PerUnitNotBelowZero(p: Product, req: Request)
    requires req.quantity > 0 && NoNegativePrices(p)
    ensures NotBelowZero(PerUnit(p, req))
  {
    if p.bulkPrice.Some? {
      LineNotBelowZero(req.quantity as real, p.bulkPrice.value);
    }
    if p.unitPrice.Some? {
      LineNotBelowZero(req.quantity as real, p.unitPrice.value);
    }
  }

  lemma PerJobNotBelowZero(p: Product, spec: string, quantity: nat)
    requires Catalogued(p)
    ensures NotBelowZero(PerJob(p, spec, quantity))
  {
  }

  lemma CustomSizeNotBelowZero(p: Product, rules: Rules, req: Request, w: nat, h: nat)
    requires Catalogued(p) && req.quantity > 0
    ensures NotBelowZero(CustomSize(p, rules, req, w, h))
  {
    if CustomSize(p, rules, req, w, h).Subtotal? {
      var units := LaydownUnits(w, h, p.sheetSize.value.0, p.sheetSize.value.1, rules.margins);
      PerJobNotBelowZero(p, SheetSpec(p.sheetSize.value), SheetsNeeded(req.quantity, units));
    }
  }

  lemma TieredNotBelowZero(p: Product, rules: Rules, req: Request)
    requires Catalogued(p) && req.quantity > 0
    ensures NotBelowZero(Tiered(p, rules, req))
  {
    if req.size.Some? {
      PerJobNotBelowZero(p, req.size.value, req.quantity);
    } else if Positive(req.width) && Positive(req.height) {
      CustomSizeNotBelowZero(p, rules, req, req.width.value, req.height.value);
    }
  }

  lemma LargeFormatNotBelowZero(p: Product, rules: Rules, req: Request)
    requires Catalogued(p) && NoNegativePrices(p)
    ensures NotBelowZero(LargeFormatVerdict(p, rules, req))
  {
    if req.quantity > 0 {
      PerSqmNotBelowZero(p, req);
      PerSheetNotBelowZero(p, req);
      TieredNotBelowZero(p, rules, req);
      PerUnitNotBelowZero(p, req);
    }
  }

  lemma SubtotalNotBelowZero(p: Product, rules: Rules, req: Request)
    requires Catalogued(p) && NoNegativePrices(p) && NoNegativeSurcharge(rules)
    ensures NotBelowZero(VerdictFor(p, rules, req))
  {
    if p.category == "small_format" {
      SmallFormatNotBelowZero(p, rules, req);
    } else if p.category == "large_format" {
      LargeFormatNotBelowZero(p, rules, req);
    }
  }

  lemma FinalExNotBelowZero(p: Product, tenant: Tenant, subtotal: nat)
    ensures FinalEx(p, tenant, subtotal) >= 0
  {
    ScaledNonNegative(subtotal, ResolvedMultiplier(tenant.clientMultiplier));
    if p.minOrderValue.Some? && p.minOrderValue.value > 0.0 {
      RoundNonNegative(p.minOrderValue.value);
    }
  }

  /** With a catalogue and surcharges free of negative amounts, no strategy can price a job below zero. */
  lemma NeverNegative(p: Product, tenant: Tenant, req: Request)
    requires Catalogued(p) && NoNegativePrices(p) && NoNegativeSurcharge(tenant.rules)
    ensures Quote(Some(p), tenant, req).Quoted? ==> Quote(Some(p), tenant, req).finalEx >= 0
  {
    SubtotalNotBelowZero(p, tenant.rules, req);
    var v := VerdictFor(p, tenant.rules, req);
    if v.Subtotal? {
      FinalExNotBelowZero(p, tenant, v.ex);
    }
  }

  // -------------------------------------------- the direct lookup is redundant

  lemma {:induction false} DirectTierFinds(ladder: seq<Tier>, quantity: nat)
    ensures match DirectTier(ladder, quantity)
            case Some(t) => t in ladder && t.qty == quantity
            case None => forall t | t in ladder :: t.qty != quantity
  {
    if ladder != [] {
      DirectTierFinds(ladder[1..], quantity);
    }
  }

  /** Per-job strategies: looking the quantity up first never changes the price stacking would give. */
  lemma PerJobIsStacking(p: Product, spec: string, quantity: nat)
    requires Catalogued(p)
    ensures PerJob(p, spec, quantity) ==
            match Stacked(LadderFor(p, spec), quantity) case None => Refused(false) case Some(s) => Subtotal(s.price)
  {
    var ladder := LadderFor(p, spec);
    DirectTierFinds(ladder, quantity);
    if DirectTier(ladder, quantity).Some? {
      var i :| 0 <= i < |ladder| && ladder[i] == DirectTier(ladder, quantity).value;
      StackAtTierIsLookup(ladder, i);
    }
  }

  /** Per-base strategies: the same, with the line price rounded the same way on both routes. */
  lemma PerBaseIsStacking(p: Product, quantity: nat)
    requires Catalogued(p)
    ensures PerBase(p, quantity) ==
            match Stacked(LinePriced(LadderFor(p, ""), p.unitBase), quantity)
            case None => Refused(false) case Some(s) => Subtotal(s.price)
  {
    var ladder := LadderFor(p, "");
    DirectTierFinds(ladder, quantity);
    if DirectTier(ladder, quantity).Some? {
      var i :| 0 <= i < |ladder| && ladder[i] == DirectTier(ladder, quantity).value;
      var lines := LinePriced(ladder, p.unitBase);
      assert lines[i] == Tier(quantity, LinePrice(ladder[i], p.unitBase));
      StackAtTierIsLookup(lines, i);
      assert PerBase(p, quantity) == Subtotal(lines[i].price);
      assert Stacked(lines, quantity).value.price == lines[i].price;
    }
  }
}

/** What each pricing strategy charges for, said without repeating how it computes it. */
module PriceStrategies {
  import opened Wrappers
  import opened Money
  import opened TierStack
  import opened Laydown
  import opened PriceEngine
  import opened PriceLaws

  // --------------------------------------------------------------- sheet goods

  /** Panels of the requested size can be laid on one sheet inside its margins, `units` at a time, and never more the same way round. */
  ghost predicate BestYield(w: nat, h: nat, sheet: (nat, nat), m: Margins, units: int) {
    && (exists rects: seq<Rect> :: |rects| == units && CutOnSheet(rects, w, h, sheet, m))
    && (forall rects: seq<Rect> | CutOnSheet(rects, w, h, sheet, m) :: |rects| <= units)
  }

  /** A way of cutting equally oriented panels out of one sheet: bleed inside the grip margins, 2 x bleed apart. */
  ghost predicate CutOnSheet(rects: seq<Rect>, w: nat, h: nat, sheet: (nat, nat), m: Margins) {
    && SameShape(rects, w, h) && AllApart(rects, 2 * m.bleed)
    && (forall r | r in rects :: Inside(WithBleed(r, m.bleed), m.side, m.front, sheet.0 - m.side, sheet.1 - m.back))
  }

  lemma LaydownIsBestYield(w: nat, h: nat, sheet: (nat, nat), m: Margins)
    requires w > 0 && h > 0 && m.bleed >= 0 && sheet.0 > 2 * m.side && sheet.1 > m.front + m.back
    ensures BestYield(w, h, sheet, m, LaydownUnits(w, h, sheet.0, sheet.1, m))
  {
    var rects := Placement(w, h, sheet.0, sheet.1, m);
    PlacementRealisesYield(w, h, sheet.0, sheet.1, m);
    PlacementIsUniform(w, h, sheet.0, sheet.1, m);
    assert CutOnSheet(rects, w, h, sheet, m);
    forall other: seq<Rect> | CutOnSheet(other, w, h, sheet, m)
      ensures |other| <= LaydownUnits(w, h, sheet.0, sheet.1, m)
    {
      YieldIsOptimal(other, w, h, sheet.0, sheet.1, m);
    }
  }

  ghost predicate Hold(sheets: nat, units: nat, quantity: nat) {
    sheets * units >= quantity
  }

  /** The fewest sheets that hold the order when each yields `units`. */
  ghost predicate FewestSheets(sheets: nat, quantity: nat, units: nat) {
    Hold(sheets, units, quantity) && forall fewer: nat | Hold(fewer, units, quantity) :: sheets <= fewer
  }

  lemma SheetsNeededIsFewest(quantity: nat, units: nat)
    requires units > 0
    ensures FewestSheets(SheetsNeeded(quantity, units), quantity, units)
  {
    SheetsNeededIsLeast(quantity, units, SheetsNeeded(quantity, units));
    forall fewer: nat | Hold(fewer, units, quantity)
      ensures SheetsNeeded(quantity, units) <= fewer
    {
      SheetsNeededIsLeast(quantity, units, fewer);
    }
  }

  /** A custom-size board is priced as the tier stack for the fewest sheets its panels can physically be cut from. */
  lemma CustomSizeBillsFewestSheets(p: Product, rules: Rules, req: Request, w: nat, h: nat) returns (units: nat, sheets: nat)
    requires Catalogued(p) && req.quantity > 0 && w > 0 && h > 0
    requires CustomSize(p, rules, req, w, h).Subtotal?
    requires rules.margins.bleed >= 0
    ensures p.sheetSize.Some? && units > 0 && BestYield(w, h, p.sheetSize.value, rules.margins, units)
    ensures FewestSheets(sheets, req.quantity, units)
    ensures Stacked(LadderFor(p, SheetSpec(p.sheetSize.value)), sheets).Some?
    ensures CustomSize(p, rules, req, w, h).ex == Stacked(LadderFor(p, SheetSpec(p.sheetSize.value)), sheets).value.price
  {
    var sheet := p.sheetSize.value;
    units := LaydownUnits(w, h, sheet.0, sheet.1, rules.margins);
    sheets := SheetsNeeded(req.quantity, units);
    LaydownIsBestYield(w, h, sheet, rules.margins);
    SheetsNeededIsFewest(req.quantity, units);
    PerJobIsStacking(p, SheetSpec(sheet), sheets);
  }

  lemma PlainYieldIsBest(w: nat, h: nat, sheet: (nat, nat))
    requires w > 0 && h > 0 && sheet.0 > 0 && sheet.1 > 0
    ensures BestYield(w, h, sheet, Margins(0, 0, 0, 0), UnitsPerSheet(w, h, sheet.0, sheet.1))
  {
    ZeroMarginsIsPerSheet(w, h, sheet.0, sheet.1);
    LaydownIsBestYield(w, h, sheet, Margins(0, 0, 0, 0));
  }

  lemma PerSheetPrice(p: Product, req: Request) returns (units: nat)
    requires Catalogued(p) && req.quantity > 0 && PerSheet(p, req).Subtotal?
    ensures p.sheetSize.Some? && p.sheetPrice.Some? && Positive(req.width) && Positive(req.height) && units > 0
    ensures units == UnitsPerSheet(req.width.value, req.height.value, p.sheetSize.value.0, p.sheetSize.value.1)
    ensures PerSheet(p, req).ex == Line(SheetsNeeded(req.quantity, units) as real, p.sheetPrice.value)
  {
    units := UnitsPerSheet(req.width.value, req.height.value, p.sheetSize.value.0, p.sheetSize.value.1);
  }

  /** A per-sheet product is charged for the fewest sheets, at the plain yield without bleed or grip. */
  lemma PerSheetBillsFewestSheets(p: Product, req: Request) returns (units: nat, sheets: nat)
    requires Catalogued(p) && req.quantity > 0 && PerSheet(p, req).Subtotal?
    ensures p.sheetSize.Some? && p.sheetPrice.Some? && req.width.Some? && req.height.Some?
    ensures BestYield(req.width.value, req.height.value, p.sheetSize.value, Margins(0, 0, 0, 0), units)
    ensures FewestSheets(sheets, req.quantity, units)
    ensures PerSheet(p, req).ex == Line(sheets as real, p.sheetPrice.value)
  {
    units := PerSheetPrice(p, req);
    sheets := SheetsNeeded(req.quantity, units);
    PlainYieldIsBest(req.width.value, req.height.value, p.sheetSize.value);
    SheetsNeededIsFewest(req.quantity, units);
  }

  // --------------------------------------------------------------- area goods

  /** The sanity ceiling bounds the subtotal of a per-area job - before client multiplier and minimum order. */
  lemma PerSqmBelowCeiling(p: Product, req: Request)
    requires req.quantity > 0 && PerSqm(p, req).Subtotal?
    requires p.sanityMaxUnitPrice.Some? && p.sanityMaxUnitPrice.value != 0.0
    ensures PerSqm(p, req).ex as real <= p.sanityMaxUnitPrice.value * req.quantity as real
  {
    var ex := PerSqm(p, req).ex as real;
    assert ex / req.quantity as real <= p.sanityMaxUnitPrice.value;
    QuotientAtMost(ex, req.quantity as real, p.sanityMaxUnitPrice.value);
  }

  lemma QuotientAtMost(x: real, d: real, bound: real)
    requires d > 0.0 && x / d <= bound
    ensures x <= bound * d
  {
    ProductMonotone(x / d, bound, d);
    assert (x / d) * d == x;
  }

  /** The multiplier visibly raises prices: at most 1, or within a millionth of it, it is not above. */
  predicate Raises(m: real) {
    m > 1.000001
  }

  /** A multiplier that does not raise prices keeps every bound on a price; one that does must be looked at. */
  lemma AdjustedWithinIff(ex: nat, m: real, bound: real)
    requires m > 0.0 && ex as real <= bound
    ensures ClientAdjusted(ex, m) as real <= bound <==> (Raises(m) ==> Scaled(ex, m) as real <= bound)
  {
    if m < 1.0 {
      ScaledGrows(ex, m, 1.0);
      ScaledByOne(ex);
    }
  }

  /** The floor is the larger of the price and the rounded minimum. */
  lemma FlooredWithinIff(p: Product, ex: int, bound: real)
    ensures Floored(p, ex) as real <= bound <==>
              && ex as real <= bound
              && (p.minOrderValue.Some? && p.minOrderValue.value > 0.0 ==> Round(p.minOrderValue.value) as real <= bound)
  {
    if p.minOrderValue.Some? {
      var least := p.minOrderValue.value;
      RoundIsNearest(ex as real, ex);
      if ex as real >= least {
        RoundIsMonotone(least, ex as real);
      } else {
        RoundIsMonotone(ex as real, least);
      }
    }
  }

  /** A per-area quote that was given is the settled subtotal. */
  lemma PerSqmQuote(p: Product, tenant: Tenant, req: Request) returns (ex: nat)
    requires Catalogued(p) && p.category == "large_format" && p.strategy in {"per_sqm", "per_unit_metric"}
    requires Quote(Some(p), tenant, req).Quoted?
    ensures req.quantity > 0 && PerSqm(p, req) == Subtotal(ex)
    ensures Quote(Some(p), tenant, req).finalEx == FinalEx(p, tenant, ex)
  {
    PricedMeansAllowed(p, tenant.rules, req);
    PerSqmNotBelowZero(p, req);
    ex := PerSqm(p, req).ex;
  }

  /**
   The quoted price stays within the ceiling exactly when neither the client multiplier nor the
   minimum order lifts it above: both are applied after the check.
   */
  lemma QuoteWithinCeilingIff(p: Product, tenant: Tenant, req: Request)
    requires Catalogued(p) && p.category == "large_format" && p.strategy in {"per_sqm", "per_unit_metric"}
    requires p.sanityMaxUnitPrice.Some? && p.sanityMaxUnitPrice.value != 0.0
    requires Quote(Some(p), tenant, req).Quoted?
    ensures PerSqm(p, req).Subtotal?
    ensures var bound, m := p.sanityMaxUnitPrice.value * req.quantity as real, ResolvedMultiplier(tenant.clientMultiplier);
            Quote(Some(p), tenant, req).finalEx as real <= bound <==>
              && (Raises(m) ==> Scaled(PerSqm(p, req).ex, m) as real <= bound)
              && (p.minOrderValue.Some? && p.minOrderValue.value > 0.0 ==> Round(p.minOrderValue.value) as real <= bound)
  {
    var bound, m := p.sanityMaxUnitPrice.value * req.quantity as real, ResolvedMultiplier(tenant.clientMultiplier);
    var ex := PerSqmQuote(p, tenant, req);
    PerSqmBelowCeiling(p, req);
    AdjustedWithinIff(ex, m, bound);
    FlooredWithinIff(p, ClientAdjusted(ex, m), bound);
  }

  /** A small label product: 20 per square metre, ceiling 5 a piece, minimum order 45. */
  function Labels(): Product {
    Product(
      key := "labels",
      category := "large_format",
      strategy := "per_sqm",
      manualReview := false,
      unitBase := 1,
      doubleSidedSurcharge := false,
      finishes := [],
      ladders := map[],
      unitPrice := Some(2000.0),
      bulkPrice := None,
      bulkThreshold := None,
      minQty := None,
      yieldPerSqm := None,
      defaultSize := None,
      sheetSize := None,
      sheetPrice := None,
      requiresDimensions := false,
      sanityMaxUnitPrice := Some(500.0),
      minBillableSqm := None,
      minOrderValue := Some(4500.0),
      maxQty := None)
  }

  /** One 100 x 100 mm label: 0.20 by area, but quoted at the minimum order, nine times the ceiling. */
  lemma CeilingCanBeExceeded(tenant: Tenant, req: Request)
    requires tenant.clientMultiplier == None
    requires req.quantity == 1 && req.width == req.height == Some(100) && req.area.None?
    ensures PerSqm(Labels(), req) == Subtotal(20)
    ensures Quote(Some(Labels()), tenant, req).Quoted? && Quote(Some(Labels()), tenant, req).finalEx == 4500
  {
    assert SquareMetres(1, 100, 100) == 0.01;
    assert Line(0.01, 2000.0) == 20;
    RoundIsNearest(4500.0, 4500);
  }

  /** Within the half of a ten-thousandth of a square metre that the engine rounds areas to. */
  ghost predicate Measures(area: real, exact: real) {
    Abs(area - exact) <= 0.00005
  }

  lemma FourPlacesAreClose(x: real)
    ensures Measures(ToFourPlaces(x), x)
  {
    RoundIsNearest(x * 10000.0, 0);
    var off := Round(x * 10000.0) as real - x * 10000.0;
    assert ToFourPlaces(x) - x == off / 10000.0;
  }

  ghost predicate MeasuresItems(area: real, quantity: int, size: (nat, nat)) {
    Measures(area, quantity as real * ((size.0 * size.1) as real / 1000000.0))
  }

  lemma SizeIsMeasured(quantity: int, w: nat, h: nat)
    ensures MeasuresItems(SquareMetres(quantity, w, h), quantity, (w, h))
  {
    FourPlacesAreClose(quantity as real * ((w * h) as real / 1000000.0));
  }

  /** The area asked for: as given, from the item's size, from the default size, or from the yield. */
  ghost predicate AsRequested(p: Product, req: Request, area: real) {
    if req.area.Some? && req.area.value > 0.0 then area == req.area.value
    else if Positive(req.width) && Positive(req.height) then
      MeasuresItems(area, req.quantity, (req.width.value, req.height.value))
    else if p.defaultSize.Some? then MeasuresItems(area, req.quantity, p.defaultSize.value)
    else
      !p.requiresDimensions && p.yieldPerSqm.Some? && p.yieldPerSqm.value > 0.0
      && Measures(area, req.quantity as real / p.yieldPerSqm.value)
  }

  lemma AreaIsRequested(p: Product, req: Request)
    requires TotalArea(p, req).Some?
    ensures AsRequested(p, req, TotalArea(p, req).value)
  {
    if req.area.Some? && req.area.value > 0.0 {
    } else if Positive(req.width) && Positive(req.height) {
      SizeIsMeasured(req.quantity, req.width.value, req.height.value);
    } else if p.defaultSize.Some? {
      SizeIsMeasured(req.quantity, p.defaultSize.value.0, p.defaultSize.value.1);
    } else {
      FourPlacesAreClose(req.quantity as real / p.yieldPerSqm.value);
    }
  }

  /**
   The billed area is the requested one or the product's minimum, whichever is
   larger; it is charged at the bulk price exactly when it reaches the threshold.
   */
  lemma PerSqmBillsArea(p: Product, req: Request) returns (asked: real, area: real, price: real)
    requires req.quantity > 0 && PerSqm(p, req).Subtotal?
    ensures AsRequested(p, req, asked) && asked > 0.0
    ensures area >= asked && (area == asked || Some(area) == p.minBillableSqm)
    ensures p.minBillableSqm.Some? ==> area >= p.minBillableSqm.value
    ensures PerSqm(p, req).ex == Line(area, price) && price > 0.0
    ensures Positive(p.bulkThreshold) && p.bulkPrice.Some? && area >= p.bulkThreshold.value as real ==> Some(price) == p.bulkPrice
    ensures !(Positive(p.bulkThreshold) && p.bulkPrice.Some? && area >= p.bulkThreshold.value as real) ==> Some(price) == p.unitPrice
    ensures p.requiresDimensions ==> req.area.Some? || (req.width.Some? && req.height.Some?) || p.defaultSize.Some?
  {
    AreaIsRequested(p, req);
    asked := TotalArea(p, req).value;
    area := BilledArea(p, asked);
    price := PricePerSqm(p, area);
  }

  // ---------------------------------------------------------------- surcharges

  lemma FactorsCommute(m: real, a: real, b: real)
    ensures m * (1.0 + a) * (1.0 + b) == m * (1.0 + b) * (1.0 + a)
  {
  }

  /** Whatever their kinds and scopes, the order in which two surcharges are applied does not matter. */
  lemma SurchargeOrderIsIrrelevant(p: Product, rules: Rules, name: string, other: string, f: Factors)
    ensures Apply(p, rules, name, Apply(p, rules, other, f)) == Apply(p, rules, other, Apply(p, rules, name, f))
  {
    if name in rules.surcharges && other in rules.surcharges {
      FactorsCommute(f.multiplier, AmountFor(p, rules.surcharges[other]), AmountFor(p, rules.surcharges[name]));
    }
  }
}

/**
 The three quote entry points and every pricing strategy behind them.  A strategy
 either escalates or produces an ex-VAT subtotal; `Settle` is the tail they all share:
 client multiplier, minimum-order floor, VAT, artwork.
 Prices are in cents; catalogue prices may be fractions of a cent, tier prices are whole.
 */
module PriceEngine {
  import opened Wrappers
  import opened Money
  import opened TierStack
  import opened Laydown
  import Decimal

  datatype Product = Product(
    key: string,
    category: string,
    strategy: string,
    manualReview: bool,
    unitBase: nat,                     // parsed from price_per: 100 in "100 cards"
    doubleSidedSurcharge: bool,
    finishes: seq<string>,
    ladders: map<string, seq<Tier>>,   // price tiers by spec_key, quantity descending
    unitPrice: Option<real>,
    bulkPrice: Option<real>,
    bulkThreshold: Option<nat>,
    minQty: Option<nat>,
    yieldPerSqm: Option<real>,
    defaultSize: Option<(nat, nat)>,   // parsed default_unit_size_mm
    sheetSize: Option<(nat, nat)>,     // parsed sheet_size_mm
    sheetPrice: Option<real>,
    requiresDimensions: bool,
    sanityMaxUnitPrice: Option<real>,
    minBillableSqm: Option<real>,
    minOrderValue: Option<real>,
    maxQty: Option<nat>)

  /** The catalogue's own constraints. */
  ghost predicate Catalogued(p: Product) {
    && p.unitBase >= 1
    && (forall spec | spec in p.ladders :: Ladder(p.ladders[spec]))
    && (p.defaultSize.Some? ==> p.defaultSize.value.0 > 0 && p.defaultSize.value.1 > 0)
    && (p.sheetSize.Some? ==> p.sheetSize.value.0 > 0 && p.sheetSize.value.1 > 0)
  }

  datatype Surcharge = Surcharge(amount: real, additive: bool, keys: seq<string>, category: Option<string>)

  /** The tenant settings a strategy reads: surcharge rules and laydown margins. */
  datatype Rules = Rules(surcharges: map<string, Surcharge>, margins: Margins)

  /** A tenant's settings, already read from the database. */
  datatype Tenant = Tenant(rules: Rules, clientMultiplier: Option<real>, vatRate: real, artworkRate: real)

  datatype Request = Request(
    quantity: int,
    doubleSided: bool,
    finish: Option<string>,            // normalised, non-empty
    width: Option<nat>,
    height: Option<nat>,
    area: Option<real>,
    size: Option<string>,              // normalised spec_key of a standard board size
    spec: string,                      // booklets: "<pages>pp|<cover>"
    needsArtwork: bool,
    artworkHours: real)

  datatype Artwork = Artwork(ex: int, inc: int)

  datatype Outcome =
    | Escalated(manualReview: bool)
    | Quoted(quantity: int, finalEx: int, vat: int, finalInc: int, artwork: Option<Artwork>, total: int)

  /** A strategy's verdict before the shared tail. */
  datatype Verdict = Refused(manualReview: bool) | Subtotal(ex: int)

  const STANDARD_VAT: real := 0.23

  // ------------------------------------------------------------ shared guards

  /** A truthy optional number. */
  function Positive(o: Option<nat>): bool {
    o.Some? && o.value > 0
  }

  function QuantityRefusal(p: Product, quantity: int): Option<Verdict> {
    if quantity <= 0 then Some(Refused(false))
    else if Positive(p.maxQty) && quantity > p.maxQty.value then Some(Refused(true))
    else None
  }

  function ResolvedMultiplier(raw: Option<real>): real {
    if raw.None? || raw.value <= 0.0 || raw.value > 10.0 then 1.0 else raw.value
  }

  /** The multiplier is applied only when it differs visibly from 1. */
  function ClientAdjusted(ex: int, multiplier: real): int {
    if Abs(multiplier - 1.0) > 0.000001 then Scaled(ex, multiplier) else ex
  }

  function Floored(p: Product, ex: int): int {
    if p.minOrderValue.None? || p.minOrderValue.value <= 0.0 || ex as real >= p.minOrderValue.value then ex
    else Round(p.minOrderValue.value)
  }

  function FinalEx(p: Product, tenant: Tenant, subtotal: int): int {
    Floored(p, ClientAdjusted(subtotal, ResolvedMultiplier(tenant.clientMultiplier)))
  }

  function ArtworkFor(tenant: Tenant, req: Request): Option<Artwork> {
    if req.needsArtwork && req.artworkHours > 0.0 then
      var ex := Round(tenant.artworkRate * req.artworkHours);
      Some(Artwork(ex, Scaled(ex, 1.0 + STANDARD_VAT)))
    else None
  }

  function Settle(p: Product, tenant: Tenant, req: Request, v: Verdict): Outcome {
    match v
    case Refused(manual) => Escalated(manual)
    case Subtotal(subtotal) =>
      var ex := FinalEx(p, tenant, subtotal);
      var vat := Vat(ex, tenant.vatRate);
      var artwork := ArtworkFor(tenant, req);
      Quoted(req.quantity, ex, vat, ex + vat, artwork,
             ex + vat + if artwork.Some? then artwork.value.inc else 0)
  }

  // -------------------------------------------------------------- tier lookup

  function DirectTier(ladder: seq<Tier>, quantity: nat): Option<Tier> {
    if ladder == [] then None
    else if ladder[0].qty == quantity then Some(ladder[0])
    else DirectTier(ladder[1..], quantity)
  }

  function LadderFor(p: Product, spec: string): seq<Tier> {
    if spec in p.ladders then p.ladders[spec] else []
  }

  /** Per-job pricing: a tier's price is the whole line. */
  function PerJob(p: Product, spec: string, quantity: nat): Verdict
    requires Catalogued(p)
  {
    var ladder := LadderFor(p, spec);
    match DirectTier(ladder, quantity)
    case Some(tier) => Subtotal(tier.price)
    case None =>
      match Stacked(ladder, quantity)
      case None => Refused(false)
      case Some(stack) => Subtotal(stack.price)
  }

  /** Per-base pricing: a tier's price buys `base` items, so its line scales with its quantity. */
  function LinePrice(t: Tier, base: nat): (price: nat)
    requires base >= 1
  {
    RoundedProductNonNegative(t.price as real, t.qty as real / base as real);
    DirectLine(t.price, t.qty, base)
  }

  function DirectLine(price: nat, quantity: nat, base: nat): int
    requires base >= 1
  {
    Round(price as real * (quantity as real / base as real))
  }

  function LinePriced(ladder: seq<Tier>, base: nat): (lines: seq<Tier>)
    requires base >= 1
    ensures |lines| == |ladder|
    ensures forall i | 0 <= i < |ladder| :: lines[i] == Tier(ladder[i].qty, LinePrice(ladder[i], base))
  {
    seq(|ladder|, i requires 0 <= i < |ladder| => Tier(ladder[i].qty, LinePrice(ladder[i], base)))
  }

  function PerBase(p: Product, quantity: nat): Verdict
    requires Catalogued(p)
  {
    var ladder := LadderFor(p, "");
    match DirectTier(ladder, quantity)
    case Some(tier) => Subtotal(DirectLine(tier.price, quantity, p.unitBase))
    case None =>
      match Stacked(LinePriced(ladder, p.unitBase), quantity)
      case None => Refused(false)
      case Some(stack) => Subtotal(stack.price)
  }

  // ------------------------------------------------------------- small format

  datatype Factors = Factors(multiplier: real, additive: real)

  /** A rule's amount for this product: key list first, then category, then everyone. */
  function AmountFor(p: Product, rule: Surcharge): real {
    if rule.keys != [] then (if p.key in rule.keys then rule.amount else 0.0)
    else if rule.category.Some? && rule.category.value != p.category then 0.0
    else rule.amount
  }

  function Apply(p: Product, rules: Rules, name: string, f: Factors): Factors {
    if name !in rules.surcharges then f
    else
      var rule := rules.surcharges[name];
      var amount := AmountFor(p, rule);
      if rule.additive then Factors(f.multiplier, f.additive + amount)
      else Factors(f.multiplier * (1.0 + amount), f.additive)
  }

  /** All surcharges of the request, or None when the finish is not available for the product. */
  function SurchargesFor(p: Product, rules: Rules, req: Request): Option<Factors> {
    var f0 := Factors(1.0, 0.0);
    var f1 := if req.doubleSided && p.doubleSidedSurcharge then Apply(p, rules, "double_sided", f0) else f0;
    if req.finish.None? then Some(f1)
    else if req.finish.value == "soft_touch" then Some(Apply(p, rules, "soft_touch", f1))
    else if req.finish.value == "triplicate" then
      (if p.key == "ncr_books_a5" || p.key == "ncr_books_a4" then Some(Apply(p, rules, "triplicate", f1)) else None)
    else if p.finishes == [] || req.finish.value in p.finishes then Some(f1)
    else None
  }

  /** Multipliers first, then flat amounts, which do not scale. */
  function Surcharged(base: int, f: Factors): int {
    Round(base as real * f.multiplier + f.additive)
  }

  function SmallFormatVerdict(p: Product, rules: Rules, req: Request): Verdict
    requires Catalogued(p)
  {
    if p.manualReview then Refused(true)
    else if QuantityRefusal(p, req.quantity).Some? then QuantityRefusal(p, req.quantity).value
    else
      match PerBase(p, req.quantity)
      case Refused(manual) => Refused(manual)
      case Subtotal(base) =>
        match SurchargesFor(p, rules, req)
        case None => Refused(false)
        case Some(f) => Subtotal(Surcharged(base, f))
  }

  // ------------------------------------------------------------- large format

  function ToFourPlaces(x: real): real {
    Round(x * 10000.0) as real / 10000.0
  }

  function SquareMetres(quantity: int, w: nat, h: nat): real {
    ToFourPlaces(quantity as real * ((w * h) as real / 1000000.0))
  }

  /** An amount of goods at a unit price, to the cent. */
  function Line(amount: real, price: real): int {
    Round(amount * price)
  }

  /** Billable area: given area, given dimensions, the product's default size, or its yield - in that order. */
  function TotalArea(p: Product, req: Request): Option<real> {
    if req.area.Some? && req.area.value > 0.0 then req.area
    else if Positive(req.width) && Positive(req.height) then
      Some(SquareMetres(req.quantity, req.width.value, req.height.value))
    else if p.defaultSize.Some? then
      Some(SquareMetres(req.quantity, p.defaultSize.value.0, p.defaultSize.value.1))
    else if p.yieldPerSqm.Some? && p.yieldPerSqm.value > 0.0 && !p.requiresDimensions then
      Some(ToFourPlaces(req.quantity as real / p.yieldPerSqm.value))
    else None
  }

  function BilledArea(p: Product, area: real): real {
    if p.minBillableSqm.Some? && p.minBillableSqm.value != 0.0 && area < p.minBillableSqm.value
    then p.minBillableSqm.value else area
  }

  function PricePerSqm(p: Product, area: real): real {
    if Positive(p.bulkThreshold) && area >= p.bulkThreshold.value as real && p.bulkPrice.Some? then p.bulkPrice.value
    else if p.unitPrice.Some? then p.unitPrice.value
    else 0.0
  }

  function PerSqm(p: Product, req: Request): Verdict
    requires req.quantity > 0
  {
    match TotalArea(p, req)
    case None => Refused(true)
    case Some(area) =>
      if area <= 0.0 then Refused(true)
      else
        var billed := BilledArea(p, area);
        var price := PricePerSqm(p, billed);
        if price <= 0.0 then Refused(true)
        else
          var ex := Line(billed, price);
          if p.sanityMaxUnitPrice.Some? && p.sanityMaxUnitPrice.value != 0.0
             && ex as real / req.quantity as real > p.sanityMaxUnitPrice.value then Refused(true)
          else Subtotal(ex)
  }

  function PerSheet(p: Product, req: Request): Verdict
    requires req.quantity > 0
  {
    if !Positive(req.width) || !Positive(req.height) then Refused(true)
    else if p.sheetSize.None? || p.sheetPrice.None? || p.sheetPrice.value <= 0.0 then Refused(true)
    else
      var units := UnitsPerSheet(req.width.value, req.height.value, p.sheetSize.value.0, p.sheetSize.value.1);
      if units <= 0 then Refused(true)
      else Subtotal(Line(SheetsNeeded(req.quantity, units) as real, p.sheetPrice.value))
  }

  function SheetSpec(size: (nat, nat)): string {
    Decimal.Str(size.0) + "x" + Decimal.Str(size.1)
  }

  function CustomSize(p: Product, rules: Rules, req: Request, w: nat, h: nat): Verdict
    requires Catalogued(p) && req.quantity > 0
  {
    if p.sheetSize.None? then Refused(false)
    else
      var units := LaydownUnits(w, h, p.sheetSize.value.0, p.sheetSize.value.1, rules.margins);
      if units <= 0 then Refused(false)
      else PerJob(p, SheetSpec(p.sheetSize.value), SheetsNeeded(req.quantity, units))
  }

  function Tiered(p: Product, rules: Rules, req: Request): Verdict
    requires Catalogued(p) && req.quantity > 0
  {
    if req.size.Some? then PerJob(p, req.size.value, req.quantity)
    else if Positive(req.width) && Positive(req.height) then
      CustomSize(p, rules, req, req.width.value, req.height.value)
    else Refused(false)
  }

  /** Per-unit and bulk-break products: the bulk price applies at the threshold, or always when there is none. */
  function PerUnit(p: Product, req: Request): Verdict {
    if req.quantity < (if Positive(p.minQty) then p.minQty.value else 1) then Refused(false)
    else
      var bulk := p.bulkPrice.Some? && (!Positive(p.bulkThreshold) || req.quantity >= p.bulkThreshold.value);
      var price := if bulk then p.bulkPrice else p.unitPrice;
      if price.None? then Refused(true) else Subtotal(Line(req.quantity as real, price.value))
  }

  function LargeFormatVerdict(p: Product, rules: Rules, req: Request): Verdict
    requires Catalogued(p)
  {
    if p.manualReview then Refused(true)
    else if QuantityRefusal(p, req.quantity).Some? then QuantityRefusal(p, req.quantity).value
    else if p.strategy == "per_sqm" || p.strategy == "per_unit_metric" then PerSqm(p, req)
    else if p.strategy == "per_sheet" then PerSheet(p, req)
    else if p.strategy == "tiered" then Tiered(p, rules, req)
    else PerUnit(p, req)
  }

  // ------------------------------------------------------------------ booklet

  function BookletVerdict(p: Product, req: Request): Verdict
    requires Catalogued(p)
  {
    if p.manualReview then Refused(true)
    else if QuantityRefusal(p, req.quantity).Some? then QuantityRefusal(p, req.quantity).value
    else PerJob(p, req.spec, req.quantity)
  }

  // -------------------------------------------------------------- entry point

  function VerdictFor(p: Product, rules: Rules, req: Request): Verdict
    requires Catalogued(p)
  {
    if p.category == "small_format" then SmallFormatVerdict(p, rules, req)
    else if p.category == "large_format" then LargeFormatVerdict(p, rules, req)
    else BookletVerdict(p, req)
  }

  /** The quote for a product found in the tenant's catalogue (None when the lookup finds none). */
  function Quote(p: Option<Product>, tenant: Tenant, req: Request): Outcome
    requires p.Some? ==> Catalogued(p.value)
  {
    if p.None? then Escalated(false)
    else Settle(p.value, tenant, req, VerdictFor(p.value, tenant.rules, req))
  }
}

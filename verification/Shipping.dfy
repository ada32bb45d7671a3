/** Shipping is re-applied to a stored quote every time the customer changes the delivery method. */
module Shipping {
  import opened Money

  const SHIPPING_VAT: real := 0.23

  /** The tenant's flat fee (inc VAT) and free-shipping threshold, in cents. */
  datatype Policy = Policy(fee: real, threshold: real)

  datatype Charge = Charge(ex: int, inc: int)

  datatype Summary = Summary(charge: Charge, freeShipping: bool, applies: bool)

  /** The price columns of a quote row. */
  datatype Columns = Columns(goodsInc: int, artworkEx: int, shippingEx: int, shippingInc: int, total: int)

  /** The charge a delivery choice carries, from the goods price alone. */
  function ChargeFor(goodsInc: int, delivery: bool, policy: Policy): Charge {
    if delivery && (goodsInc as real) < policy.threshold
    then Charge(Net(Round(policy.fee), SHIPPING_VAT), Round(policy.fee))
    else Charge(0, 0)
  }

  function Priced(c: Columns, charge: Charge): Columns {
    c.(shippingEx := charge.ex, shippingInc := charge.inc,
       total := c.goodsInc + Gross(c.artworkEx, SHIPPING_VAT) + charge.inc)
  }

  class ShippableQuote {
    var goodsInc: int
    var artworkEx: int
    var shippingEx: int
    var shippingInc: int
    var total: int

    constructor (goodsInc: int, artworkEx: int, total: int)
      ensures View() == Columns(goodsInc, artworkEx, 0, 0, total)
    {
      this.goodsInc, this.artworkEx, this.total := goodsInc, artworkEx, total;
      shippingEx, shippingInc := 0, 0;
    }

    function View(): Columns
      reads this
    {
      Columns(goodsInc, artworkEx, shippingEx, shippingInc, total)
    }

    /** Overwrites the shipping columns and rebuilds the total from goods, artwork and the new charge. */
    method ApplyShipping(delivery: bool, policy: Policy) returns (summary: Summary)
      modifies `shippingEx, `shippingInc, `total
      ensures View() == Priced(old(View()), ChargeFor(goodsInc, delivery, policy))
      ensures summary.charge == ChargeFor(goodsInc, delivery, policy)
      ensures summary.applies == delivery
      ensures summary.freeShipping <==> delivery && goodsInc as real >= policy.threshold
    {
      var free := goodsInc as real >= policy.threshold;
      var inc, ex := 0, 0;
      if delivery && !free {
        inc := Round(policy.fee);
        ex := Round(inc as real / (1.0 + SHIPPING_VAT));
      }
      shippingEx := ex;
      shippingInc := inc;
      var artworkInc := Round(artworkEx as real * (1.0 + SHIPPING_VAT));
      ArtworkIncIsGross(artworkEx);
      total := goodsInc + artworkInc + inc;
      summary := Summary(Charge(ex, inc), delivery && free, delivery);
    }
  }

  lemma RoundShift(n: int, x: real)
    requires x - x.Floor as real == 0.5 ==> n % 2 == 0
    ensures Round(n as real + x) == n + Round(x)
  {
    assert (n as real + x).Floor == n + x.Floor;
  }

  /** 23% of a whole number of cents, with the half cent cleared. */
  lemma TieInIntegers(ex: int, down: int)
    requires ex as real * SHIPPING_VAT == down as real + 0.5
    ensures 23 * ex == 100 * down + 50
  {
    var scaled := 23 * ex;
    assert scaled as real == 23.0 * ex as real;
    assert scaled as real == (100 * down + 50) as real;
  }

  lemma IntegerTieIsEven(ex: int, down: int)
    requires 23 * ex == 100 * down + 50
    ensures ex % 2 == 0
  {
    assert ex == 2 * (50 * down + 25 - 11 * ex);
  }

  lemma TiesAreEven(ex: int, down: int)
    requires ex as real * SHIPPING_VAT == down as real + 0.5
    ensures ex % 2 == 0
  {
    TieInIntegers(ex, down);
    IntegerTieIsEven(ex, down);
  }

  lemma OnePlus(x: real, rate: real)
    ensures x * (1.0 + rate) == x + x * rate
  {
  }

  /** Multiplying by 1.23 and rounding is adding the rounded VAT: ties only arise on even amounts. */
  lemma ArtworkIncIsGross(ex: int)
    ensures Round(ex as real * (1.0 + SHIPPING_VAT)) == Gross(ex, SHIPPING_VAT)
  {
    var x := ex as real * SHIPPING_VAT;
    var down := x.Floor;
    if x - down as real == 0.5 {
      TiesAreEven(ex, down);
    }
    RoundShift(ex, x);
    OnePlus(ex as real, SHIPPING_VAT);
  }

  // ------------------------------------------------------- whole histories

  datatype Choice = Choice(delivery: bool, policy: Policy)

  function AfterChoices(c: Columns, choices: seq<Choice>): Columns
    decreases |choices|
  {
    if choices == [] then c
    else
      var last := choices[|choices| - 1];
      Priced(AfterChoices(c, choices[..|choices| - 1]), ChargeFor(c.goodsInc, last.delivery, last.policy))
  }

  lemma {:induction false} ChoicesKeepGoods(c: Columns, choices: seq<Choice>)
    ensures AfterChoices(c, choices).goodsInc == c.goodsInc && AfterChoices(c, choices).artworkEx == c.artworkEx
    decreases |choices|
  {
    if choices != [] {
      ChoicesKeepGoods(c, choices[..|choices| - 1]);
    }
  }

  /** However often shipping was applied before, only the last choice shows: not in the fee, the total, or the threshold test. */
  lemma OnlyLastChoiceCounts(c: Columns, choices: seq<Choice>)
    requires choices != []
    ensures var after, last := AfterChoices(c, choices), choices[|choices| - 1];
            && after == AfterChoices(c, [last])
            && after.total == c.goodsInc + Gross(c.artworkEx, SHIPPING_VAT) + after.shippingInc
            && (after.shippingInc != 0 ==> last.delivery && c.goodsInc as real < last.policy.threshold)
  {
    var n := |choices| - 1;
    ChoicesKeepGoods(c, choices[..n]);
    assert [choices[n]][..0] == [];
    assert AfterChoices(c, []) == c;
  }

  /** Delivery below the threshold is charged the fee, to the cent; any other choice nothing. */
  lemma FeeIsCharged(goodsInc: int, delivery: bool, policy: Policy, n: int)
    ensures var charge := ChargeFor(goodsInc, delivery, policy);
            && (delivery && goodsInc as real < policy.threshold ==>
                  && (charge.inc == n <==> Abs(n as real - policy.fee) < 0.5 || (Abs(n as real - policy.fee) == 0.5 && n % 2 == 0))
                  && charge.ex == Net(charge.inc, 0.23))
            && (!(delivery && goodsInc as real < policy.threshold) ==> charge == Charge(0, 0))
  {
    RoundsToIff(policy.fee, n);
  }

  /** The ex-VAT shipping price grosses up to within a cent of the fee the customer is charged. */
  lemma ShippingSplitIsConsistent(goodsInc: int, delivery: bool, policy: Policy)
    ensures var charge := ChargeFor(goodsInc, delivery, policy);
            -1 <= Gross(charge.ex, SHIPPING_VAT) - charge.inc <= 1
  {
    GrossOfNetWithinOneCent(Round(policy.fee), SHIPPING_VAT);
    ScaledByOne(0);
    assert Gross(0, SHIPPING_VAT) == 0;
  }
}

/**
 Money is counted in whole cents (`int`); rates, areas and per-unit prices are
 exact `real` values.  Every price the engine reports goes through Python's
 `round(x, 2)`, which is round-half-to-even on the cent: `Round` below, applied
 to an amount already expressed in cents.
 */
module Money {

  function Abs(x: real): (r: real)
    ensures r >= 0.0 && (r == x || r == -x)
  {
    if x < 0.0 then -x else x
  }

  /** Round-half-to-even. */
  function Round(x: real): int {
    var down := x.Floor;
    var part := x - down as real;
    if part < 0.5 || (part == 0.5 && down % 2 == 0) then down else down + 1
  }

  /** The rounding laws every later money proof rests on. */
  lemma RoundIsNearest(x: real, n: int)
    ensures Abs(Round(x) as real - x) <= 0.5
    ensures Abs(n as real - x) < 0.5 ==> Round(x) == n
    ensures Abs(Round(x) as real - x) <= Abs(n as real - x)
    ensures Abs(n as real - x) == 0.5 ==> Round(x) % 2 == 0
    ensures Round(n as real) == n
  {
    var down := x.Floor;
    assert down as real <= x < down as real + 1.0;
    if n <= down - 1 {
      assert n as real <= down as real - 1.0;
    } else if n >= down + 2 {
      assert n as real >= down as real + 2.0;
    } else {
      assert n == down || n == down + 1;
    }
  }

  /** Rounding lands on n exactly within half a cent of it, and on a tie when n is even. */
  lemma RoundsToIff(x: real, n: int)
    ensures Round(x) == n <==> Abs(n as real - x) < 0.5 || (Abs(n as real - x) == 0.5 && n % 2 == 0)
  {
    RoundIsNearest(x, n);
    if Abs(n as real - x) == 0.5 && n % 2 == 0 {
      assert -1.0 <= (Round(x) - n) as real <= 1.0;
      assert Round(x) % 2 == 0;
    }
  }

  lemma RoundIsMonotone(x: real, y: real)
    requires x <= y
    ensures Round(x) <= Round(y)
  {
    assert x.Floor <= y.Floor;
    if x.Floor < y.Floor {
      assert x.Floor + 1 <= y.Floor;
    }
  }

  /** A whole-cent amount times a factor, rounded to the cent. */
  function Scaled(x: int, factor: real): int {
    Round(x as real * factor)
  }

  lemma ProductMonotone(x: real, y: real, m: real)
    requires x <= y && m >= 0.0
    ensures x * m <= y * m
  {
  }

  lemma ScaledIsMonotone(x: int, y: int, m: real)
    requires x <= y && m >= 0.0
    ensures Scaled(x, m) <= Scaled(y, m)
  {
    var a, b := x as real * m, y as real * m;
    assert a <= b by {
      ProductMonotone(x as real, y as real, m);
    }
    RoundIsMonotone(a, b);
  }

  lemma ScaledGrows(x: nat, m: real, m': real)
    requires m <= m'
    ensures Scaled(x, m) <= Scaled(x, m')
  {
    var a, b := x as real * m, x as real * m';
    assert a <= b by {
      ProductMonotone(m, m', x as real);
    }
    RoundIsMonotone(a, b);
  }

  lemma ScaledByOne(x: int)
    ensures Scaled(x, 1.0) == x
  {
    RoundIsNearest(x as real, x);
  }

  lemma RoundNonNegative(x: real)
    requires x >= 0.0
    ensures Round(x) >= 0
  {
    RoundIsMonotone(0.0, x);
  }

  lemma RoundedProductNonNegative(x: real, y: real)
    requires x >= 0.0 && y >= 0.0
    ensures Round(x * y) >= 0
  {
    ProductMonotone(0.0, x, y);
    RoundNonNegative(x * y);
  }

  lemma ScaledNonNegative(x: nat, m: real)
    requires m >= 0.0
    ensures Scaled(x, m) >= 0
  {
    RoundedProductNonNegative(x as real, m);
  }

  /** VAT on a whole-cent ex-VAT price. */
  function Vat(ex: int, rate: real): int {
    Scaled(ex, rate)
  }

  /** Ex-VAT price to inc-VAT price, as every quote function computes it. */
  function Gross(ex: int, rate: real): int {
    ex + Vat(ex, rate)
  }

  /** Inc-VAT price back to ex-VAT price, as shipping and manual pricing compute it. */
  function Net(inc: int, rate: real): int
    requires rate >= 0.0
  {
    Round(inc as real / (1.0 + rate))
  }

  /** How far a quotient is from `y`, scaled back up by the divisor. */
  lemma QuotientError(x: real, d: real, y: real) returns (off: real)
    requires d >= 1.0
    ensures off == x / d - y
    ensures off * d == x - y * d
  {
    off := x / d - y;
    assert (x / d) * d == x;
  }

  lemma DividingShrinks(off: real, d: real)
    requires d > 1.0 && -0.5 <= off * d <= 0.5
    ensures -0.5 < off < 0.5
  {
    if off > 0.0 {
      assert off * (d - 1.0) > 0.0;
    } else if off < 0.0 {
      assert (-off) * (d - 1.0) > 0.0;
    }
  }

  lemma ScalingBound(off: real, d: real, scaled: real)
    requires 1.0 <= d < 3.0 && -0.5 <= off <= 0.5 && scaled == off * d
    ensures -1.5 < scaled < 1.5
  {
    if off >= 0.0 {
      assert off * d <= 0.5 * d;
    } else {
      assert (-off) * d <= 0.5 * d;
    }
  }

  /** Removing VAT divides by one plus the rate, to the cent. */
  lemma NetIsNearest(inc: int, rate: real, exact: real, n: int)
    requires rate >= 0.0 && exact == inc as real / (1.0 + rate)
    ensures Net(inc, rate) == n <==> Abs(n as real - exact) < 0.5 || (Abs(n as real - exact) == 0.5 && n % 2 == 0)
  {
    RoundsToIff(exact, n);
  }

  /** Netting a grossed-up price gives back exactly the price it came from. */
  lemma NetInvertsGross(ex: int, rate: real)
    requires rate >= 0.0
    ensures Net(Gross(ex, rate), rate) == ex
  {
    var x := ex as real * rate;
    var inc := Gross(ex, rate);
    RoundIsNearest(x, ex);
    if rate == 0.0 {
      assert x == 0.0;
      RoundIsNearest(inc as real, inc);
    } else {
      var off := QuotientError(inc as real, 1.0 + rate, ex as real);
      assert ex as real * (1.0 + rate) == ex as real + x;
      DividingShrinks(off, 1.0 + rate);
      RoundIsNearest(inc as real / (1.0 + rate), ex);
    }
  }

  lemma NetError(inc: int, rate: real, x: real) returns (slack: real)
    requires 0.0 <= rate < 2.0
    requires x == Net(inc, rate) as real * rate
    ensures -1.5 < slack < 1.5
    ensures inc as real == Net(inc, rate) as real + x + slack
  {
    var ex := Net(inc, rate) as real;
    var off := QuotientError(inc as real, 1.0 + rate, ex);
    RoundIsNearest(inc as real / (1.0 + rate), 0);
    slack := off * (1.0 + rate);
    ScalingBound(off, 1.0 + rate, slack);
    assert ex * (1.0 + rate) == ex + x;
  }

  lemma RoundedSumIsClose(ex: int, x: real, inc: int, slack: real)
    requires inc as real == ex as real + x + slack && -1.5 < slack < 1.5
    ensures -1 <= ex + Round(x) - inc <= 1
  {
    RoundIsNearest(x, 0);
    assert -2.0 < (ex + Round(x) - inc) as real < 2.0;
  }

  /** Grossing a netted price up again is at most one cent away, for every rate below 200%. */
  lemma GrossOfNetWithinOneCent(inc: int, rate: real)
    requires 0.0 <= rate < 2.0
    ensures -1 <= Gross(Net(inc, rate), rate) - inc <= 1
  {
    var x := Net(inc, rate) as real * rate;
    var slack := NetError(inc, rate, x);
    RoundedSumIsClose(Net(inc, rate), x, inc, slack);
  }

  /**
   The round trip is exact precisely when the netted price, grossed up without rounding, is within
   half a cent of the price it came from; on a tie the VAT part decides by its parity.
   These are the prices that are some ex-VAT price plus its VAT.
   */
  lemma GrossOfNetExactIff(inc: int, rate: real)
    requires rate >= 0.0
    ensures var net := Net(inc, rate); var off := Abs(net as real * (1.0 + rate) - inc as real);
            Gross(net, rate) == inc <==> off < 0.5 || (off == 0.5 && (inc - net) % 2 == 0)
    ensures Gross(Net(inc, rate), rate) == inc <==> exists ex :: Gross(ex, rate) == inc
  {
    var net := Net(inc, rate);
    RoundsToIff(net as real * rate, inc - net);
    GrossUpSplits(net as real, rate);
    if ex :| Gross(ex, rate) == inc {
      NetInvertsGross(ex, rate);
    }
  }

  lemma GrossUpSplits(x: real, rate: real)
    ensures x * (1.0 + rate) == x + x * rate
  {
  }

  /** At 23% a 3-cent price is not reachable, so its round trip does lose a cent. */
  lemma GrossOfNetCanMiss()
    ensures Gross(Net(3, 0.23), 0.23) == 2
  {
    var q := 3.0 / 1.23;
    assert q * 1.23 == 3.0;
    assert Round(q) == 2;
    assert Round(2.0 * 0.23) == 0;
  }
}

/**
 The few facts about integer quotients that the pricing and calendar proofs need,
 each proved once so that no later proof meets a nonlinear term.
 */
module DivMod {

  lemma MulSign(a: int, b: int)
    requires a >= 0 && b >= 0
    ensures a * b >= 0
  {
  }

  lemma MulMonotone(a: int, b: int, c: int)
    requires a <= b && c >= 0
    ensures a * c <= b * c
  {
    MulSign(b - a, c);
    assert (b - a) * c == b * c - a * c;
  }

  lemma MulDistributes(a: int, b: int, c: int)
    ensures (a + b) * c == a * c + b * c
  {
  }

  lemma MulAssociates(a: int, b: int, c: int)
    ensures a * (b * c) == (a * b) * c
  {
  }

  lemma NoSmallMultiple(k: int, t: int)
    requires t > 0 && -t < k * t < t
    ensures k == 0
  {
    if k > 0 {
      MulSign(k - 1, t);
    } else if k < 0 {
      MulSign(-k - 1, t);
    }
  }

  lemma DivModLaw(n: int, t: int)
    requires t > 0
    ensures n == n / t * t + n % t && 0 <= n % t < t
  {
  }

  lemma DivModUnique(n: int, t: int, q: int, r: int)
    requires t > 0 && 0 <= r < t && n == q * t + r
    ensures n / t == q && n % t == r
  {
    var k := n / t - q;
    DivModLaw(n, t);
    assert k * t == r - n % t;
    NoSmallMultiple(k, t);
  }

  lemma DivModStep(n: int, t: int)
    requires t > 0
    ensures (n - t) / t == n / t - 1 && (n - t) % t == n % t
  {
    DivModLaw(n, t);
    DivModUnique(n - t, t, n / t - 1, n % t);
  }

  lemma DivModSmall(n: nat, t: nat)
    requires n < t
    ensures n / t == 0 && n % t == n
  {
  }

  lemma DivMonotone(m: int, n: int, t: int)
    requires t > 0 && m <= n
    ensures m / t <= n / t
  {
    DivModLaw(m, t);
    DivModLaw(n, t);
    if m / t > n / t {
      MulMonotone(n / t + 1, m / t, t);
    }
  }

  lemma DivAntitone(n: nat, s: nat, t: nat)
    requires 0 < s <= t
    ensures n / t <= n / s
  {
    var q := n / t;
    DivModLaw(n, t);
    MulMonotone(s, t, q);
    DivMonotone(q * s, n, s);
    DivModUnique(q * s, s, q, 0);
  }

  /** Dropping a multiple of the divisor shifts the quotient and keeps the remainder. */
  lemma DivModShift(j: int, r: int, t: int)
    requires t > 0
    ensures (j * t + r) / t == j + r / t && (j * t + r) % t == r % t
  {
    DivModLaw(r, t);
    assert j * t + r == (j + r / t) * t + r % t;
    DivModUnique(j * t + r, t, j + r / t, r % t);
  }

  /** `CeilDiv(n, t)` is the least number of t-sized units that cover n. */
  function CeilDiv(n: nat, t: nat): (c: nat)
    requires t > 0
  {
    (n + t - 1) / t
  }

  lemma CeilDivIsLeastCover(n: nat, t: nat, c: nat)
    requires t > 0
    ensures c * t >= n <==> c >= CeilDiv(n, t)
  {
    var m := n + t - 1;
    var q := CeilDiv(n, t);
    DivModLaw(m, t);
    if c >= q {
      MulMonotone(q, c, t);
    } else {
      MulMonotone(c, q - 1, t);
      assert (q - 1) * t == q * t - t;
    }
  }
}

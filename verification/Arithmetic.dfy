/** The few facts about products and quotients that the other modules need. Products of variables are hard for the
    verifier, so each such step is a lemma of its own, stated about plain numbers. None of them says anything about
    the program; the modules call them where their own proofs come down to numbers. */
module Arithmetic {
  lemma MulAdd(a: int, b: int, c: int)
    ensures (a + b) * c == a * c + b * c
    ensures c * (a + b) == c * a + c * b
  {
  }

  lemma MulMonotone(a: nat, b: nat, c: nat)
    requires a <= b
    ensures a * c <= b * c
    ensures c * a <= c * b
  {
  }

  lemma MulPositive(a: nat, b: nat)
    ensures a * b >= 0
    ensures b > 0 ==> a * b >= a
  {
    if b > 0 {
      MulMonotone(1, b, a);
    }
  }

  lemma SwapFactors(a: nat, b: nat)
    ensures a * (2 * b) == 2 * a * b
  {
  }

  lemma Regroup(a: int, b: int, c: int)
    ensures a * (b * c) == a * b * c == b * (a * c) == (a * c) * b
  {
  }

  lemma Division(n: nat, d: nat)
    requires d > 0
    ensures n == n / d * d + n % d
    ensures 0 <= n % d < d && n / d >= 0
  {
  }

  /** The quotient and the remainder of a number are the only ones that recompose it. */
  lemma DivisionUnique(d: nat, q: nat, r: nat, q': nat, r': nat)
    requires r < d && r' < d
    requires q * d + r == q' * d + r'
    ensures q == q' && r == r'
  {
    MulAdd(q, 1, d);
    MulAdd(q', 1, d);
    if q < q' {
      MulMonotone(q + 1, q', d);
    } else if q' < q {
      MulMonotone(q' + 1, q, d);
    }
  }

  lemma Quotient(d: nat, q: nat, r: nat)
    requires r < d
    ensures (q * d + r) / d == q
    ensures (q * d + r) % d == r
  {
    Division(q * d + r, d);
    DivisionUnique(d, (q * d + r) / d, (q * d + r) % d, q, r);
  }

  lemma QuotientAtLeast(d: nat, q: nat, n: nat)
    requires d > 0 && n >= q * d
    ensures n / d >= q
  {
    Division(n, d);
    if n / d < q {
      MulMonotone(n / d + 1, q, d);
    }
  }

  lemma QuotientMonotone(d: nat, m: nat, n: nat)
    requires d > 0 && m <= n
    ensures m / d <= n / d
  {
    Division(m, d);
    QuotientAtLeast(d, m / d, n);
  }

  lemma QuotientAtMost(n: nat, d: nat)
    requires d > 0
    ensures 0 <= n / d <= n
  {
    var q := n / d;
    Division(n, d);
    QuotientAtLeast(d, 0, n);
    MulPositive(q, d);
  }

  lemma RemainderAtMost(n: nat, d: nat)
    requires d > 0
    ensures n % d <= n
  {
    Division(n, d);
    MulPositive(n / d, d);
  }

  /** Dividing in two steps. */
  lemma QuotientTwice(n: nat, d: nat, e: nat)
    requires d > 0 && e > 0
    ensures e * d > 0 && n / d / e == n / (e * d)
  {
    QuotientAtMost(n, d);
    TwiceFrom(n, n / d, d, e);
  }

  lemma TwiceFrom(n: nat, p: nat, d: nat, e: nat)
    requires d > 0 && e > 0 && p == n / d
    ensures e * d > 0 && p / e == n / (e * d)
  {
    Division(n, d);
    Division(p, e);
    RecomposeTwice(n, p, n % d, p / e, p % e, d, e);
  }

  lemma RecomposeTwice(n: nat, p: nat, s: nat, q: nat, r: nat, d: nat, e: nat)
    requires s < d && r < e && n == p * d + s && p == q * e + r
    ensures e * d > 0 && n / (e * d) == q
  {
    TwoSteps(q, r, s, d, e);
    Quotient(e * d, q, r * d + s);
  }

  lemma TwoSteps(q: nat, r: nat, r': nat, d: nat, e: nat)
    requires r < e && r' < d
    ensures (q * e + r) * d + r' == q * (e * d) + (r * d + r')
    ensures 0 <= r * d + r' < e * d
  {
    MulAdd(q * e, r, d);
    Regroup(q, e, d);
    MulAdd(r, 1, d);
    MulMonotone(r + 1, e, d);
  }

  /** The quotient, as a function the verifier knows little about. */
  function Quot(n: nat, d: nat): (q: nat)
    requires d > 0
    ensures q <= n
  {
    QuotientAtMost(n, d);
    n / d
  }

  function Least(a: nat, b: nat): nat {
    if a < b then a else b
  }
}

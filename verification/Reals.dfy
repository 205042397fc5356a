// Products of decimals, for amounts computed from numbers a request carries.
module Reals {

  function Times(a: real, b: real): real { a * b }

  lemma TimesPositive(a: real, b: real)
    requires a > 0.0 && b > 0.0
    ensures a * b > 0.0
  {
  }

  lemma TimesLess(a: real, b: real, c: real)
    requires a < b && c > 0.0
    ensures Times(a, c) < Times(b, c)
  {
    TimesPositive(b - a, c);
  }

  lemma TimesAtMost(a: real, b: real, c: real)
    requires a <= b && c >= 0.0
    ensures Times(c, a) <= Times(c, b)
  {
    if a < b && c > 0.0 {
      TimesLess(a, b, c);
    }
  }

  lemma Quotient(k: real, d: real)
    requires d > 0.0
    ensures Times(k / d, d) == k
  {
  }

  /** A whole number of times that d, however small, outweighs k. */
  function Outweighing(k: real, d: real): (n: nat)
    requires d > 0.0 && k >= 0.0
    ensures Times(n as real, d) > k
  {
    Quotient(k, d);
    var n := (k / d).Floor + 1;
    TimesLess(k / d, n as real, d);
    n
  }
}

// Integer money arithmetic (server/src/lib/money.ts). Amounts are whole cents,
// quantities whole thousandths, percentages whole hundredths, so a product that
// the server rounds is a fraction n / d with a fixed denominator d.
module Money {

  /** Math.round(n / d): the nearest integer, a tie going towards +infinity.
      The two bounds leave exactly one integer. */
  function RoundDiv(n: int, d: int): (r: int)
    requires d > 0
    ensures 2 * n - d < 2 * (d * r) <= 2 * n + d
  {
    var r := (2 * n + d) / (2 * d);
    assert 2 * (d * r) == (2 * d) * r;
    r
  }

  lemma {:induction false} MulGap(d: int, a: int, b: int)
    requires d > 0 && a < b
    ensures d * a + d <= d * b
    decreases b - a
  {
    if a + 1 < b {
      MulGap(d, a, b - 1);
    }
    assert d * b == d * (b - 1) + d;
  }

  /** The nearest-integer bounds determine the rounded value. */
  lemma RoundDivUnique(n: int, d: int, r: int)
    requires d > 0
    requires 2 * n - d < 2 * (d * r) <= 2 * n + d
    ensures r == RoundDiv(n, d)
  {
    var q := RoundDiv(n, d);
    if r < q {
      MulGap(d, r, q);
    } else if q < r {
      MulGap(d, q, r);
    }
  }

  /** roundMoney(quantity * rate) for a quantity in thousandths and a rate in cents. */
  function LineValue(quantity: nat, rate: nat): (value: nat)
    ensures 2 * (quantity * rate) - 1000 < 2000 * value <= 2 * (quantity * rate) + 1000
  {
    RoundDiv(quantity * rate, 1000)
  }

  /** roundMoney(gross * (percent / 100)) for a percentage in hundredths. */
  function PercentOf(gross: nat, percent: nat): (amount: nat)
    ensures 2 * (gross * percent) - 10000 < 20000 * amount <= 2 * (gross * percent) + 10000
  {
    RoundDiv(gross * percent, 10000)
  }

  lemma PercentOfAtMostWhole(gross: nat, percent: nat)
    requires percent <= 10000
    ensures PercentOf(gross, percent) <= gross
  {
    assert gross * percent <= gross * 10000;
  }

  function Sum(xs: seq<int>): int
  {
    if xs == [] then 0 else Sum(xs[..|xs| - 1]) + xs[|xs| - 1]
  }

  /** One number sums to itself, which with SumConcat leaves one meaning for Sum. */
  lemma SumOne(x: int)
    ensures Sum([x]) == x && Sum([]) == 0
  {
    assert [x][..0] == [];
  }

  lemma SumOneMore(xs: seq<int>, x: int)
    ensures Sum(xs + [x]) == Sum(xs) + x
  {
    SumConcat(xs, [x]);
    SumOne(x);
  }

  lemma {:induction false} SumConcat(xs: seq<int>, ys: seq<int>)
    ensures Sum(xs + ys) == Sum(xs) + Sum(ys)
  {
    if ys == [] {
      assert xs + ys == xs;
    } else {
      SumConcat(xs, ys[..|ys| - 1]);
      assert (xs + ys)[..|xs + ys| - 1] == xs + ys[..|ys| - 1];
    }
  }

  function LineValues(quantities: seq<nat>, rate: nat): (values: seq<int>)
    ensures |values| == |quantities|
    ensures forall k :: 0 <= k < |values| ==> values[k] == LineValue(quantities[k], rate)
  {
    seq(|quantities|, k requires 0 <= k < |quantities| => LineValue(quantities[k], rate))
  }

  lemma DriftStep(quantity: int, last: nat, rate: nat, sum: int, n: nat)
    requires 2 * (quantity * rate) - 1000 * n <= 2000 * sum <= 2 * (quantity * rate) + 1000 * n
    ensures 2 * ((quantity + last) * rate) - 1000 * (n + 1) <= 2000 * (sum + LineValue(last, rate))
         <= 2 * ((quantity + last) * rate) + 1000 * (n + 1)
  {
    assert (quantity + last) * rate == quantity * rate + last * rate;
  }

  /** n separately rounded line values drift from the exact product by at most half a cent each. */
  lemma {:induction false} SplitLinesDrift(quantities: seq<nat>, rate: nat)
    ensures 2 * (Sum(quantities) * rate) - 1000 * |quantities|
         <= 2000 * Sum(LineValues(quantities, rate))
         <= 2 * (Sum(quantities) * rate) + 1000 * |quantities|
  {
    if quantities != [] {
      var last := |quantities| - 1;
      SplitLinesDrift(quantities[..last], rate);
      assert LineValues(quantities, rate)[..last] == LineValues(quantities[..last], rate);
      DriftStep(Sum(quantities[..last]), quantities[last], rate, Sum(LineValues(quantities[..last], rate)), last);
    }
  }
}

/** The compound-interest table, over exact reals. */
module FutureValue {

  const MAX_YEARS := 50

  /** The balance after `n` months of paying in `m` and earning the monthly rate `r`. */
  ghost function Balance(m: real, r: real, n: nat): real {
    if n == 0 then 0.0 else (Balance(m, r, n - 1) + m) * (1.0 + r)
  }

  ghost function Power(b: real, n: nat): real { if n == 0 then 1.0 else b * Power(b, n - 1) }

  /** What the balance exceeds the payments by. */
  ghost function Interest(m: real, r: real, n: nat): real { Balance(m, r, n) - m * (n as real) }

  /** A row of the table: accumulated interest and value; row `y` is for year `y + 1`. */
  ghost predicate RowOk(interest: real, value: real, m: real, r: real, y: nat) {
    interest == Interest(m, r, 12 * (y + 1)) && value == Balance(m, r, 12 * (y + 1))
  }

  lemma AddInterest(b: real, r: real)
    ensures b + b * r == b * (1.0 + r)
  {
  }

  lemma MonthPasses(m: real, r: real, n: nat, before: real)
    requires before == Balance(m, r, n)
    ensures (before + m) + (before + m) * r == Balance(m, r, n + 1)
  {
    AddInterest(before + m, r);
  }

  lemma PaidIn(m: real, year: nat)
    ensures m * 12.0 * (year as real) == m * ((12 * year) as real)
  {
    assert (12 * year) as real == 12.0 * (year as real);
  }

  lemma FormulaStep(m: real, r: real, b: real, p: real, b': real, p': real)
    requires r * b == m * (1.0 + r) * (p - 1.0)
    requires b' == (b + m) * (1.0 + r) && p' == (1.0 + r) * p
    ensures r * b' == m * (1.0 + r) * (p' - 1.0)
  {
    var g := 1.0 + r;
    assert r * ((b + m) * g) == (r * b) * g + r * m * g;
    assert (m * g * (p - 1.0)) * g == m * g * (g * p) - m * g * g;
    assert m * g * g == m * g + r * m * g;
    assert m * g * (g * p - 1.0) == m * g * (g * p) - m * g;
  }

  /** The annuity formula for the value. */
  lemma {:induction false} ClosedForm(m: real, r: real, n: nat)
    ensures r * Balance(m, r, n) == m * (1.0 + r) * (Power(1.0 + r, n) - 1.0)
  {
    if n > 0 {
      ClosedForm(m, r, n - 1);
      FormulaStep(m, r, Balance(m, r, n - 1), Power(1.0 + r, n - 1), Balance(m, r, n), Power(1.0 + r, n));
    }
  }

  /** For positive payments and rates the interest is positive and grows every month. */
  lemma {:induction false} InterestGrows(m: real, r: real, n: nat)
    requires m > 0.0 && r > 0.0
    ensures Balance(m, r, n) >= 0.0 && Interest(m, r, n + 1) > Interest(m, r, n) >= 0.0
  {
    if n > 0 { InterestGrows(m, r, n - 1); }
    var b := Balance(m, r, n);
    assert b >= 0.0 by { if n > 0 { assert (Balance(m, r, n - 1) + m) * (1.0 + r) >= 0.0; } }
    assert Interest(m, r, n + 1) - Interest(m, r, n) == r * (b + m) by {
      assert (b + m) * (1.0 + r) == b + m + r * (b + m);
      assert m * ((n + 1) as real) == m * (n as real) + m;
    }
    assert r * (b + m) > 0.0;
  }

  lemma {:induction false} InterestIncreasing(m: real, r: real, a: nat, b: nat)
    requires m > 0.0 && r > 0.0 && a < b
    ensures 0.0 <= Interest(m, r, a) < Interest(m, r, b)
  {
    InterestGrows(m, r, b - 1);
    if a < b - 1 { InterestIncreasing(m, r, a, b - 1); }
  }

  /** Every row satisfies the annuity formula. */
  lemma RowValue(interest: real, value: real, m: real, r: real, y: nat)
    requires RowOk(interest, value, m, r, y)
    ensures r * value == m * (1.0 + r) * (Power(1.0 + r, 12 * (y + 1)) - 1.0)
  {
    ClosedForm(m, r, 12 * (y + 1));
  }

  /** Its interest is the value minus twelve payments a year, and positive. */
  lemma RowInterest(interest: real, value: real, m: real, r: real, y: nat)
    requires m > 0.0 && r > 0.0 && RowOk(interest, value, m, r, y)
    ensures interest == value - m * 12.0 * ((y + 1) as real) && interest > 0.0
  {
    PaidIn(m, y + 1);
    InterestIncreasing(m, r, 0, 12 * (y + 1));
  }

  /** The interest is strictly increasing from year to year. */
  lemma RowsIncrease(a: real, aValue: real, x: nat, b: real, bValue: real, y: nat, m: real, r: real)
    requires m > 0.0 && r > 0.0 && x < y && RowOk(a, aValue, m, r, x) && RowOk(b, bValue, m, r, y)
    ensures a < b
  {
    InterestIncreasing(m, r, 12 * (x + 1), 12 * (y + 1));
  }

  /** The row for year `y + 1`, said by the annual percentage itself: the annuity formula for the
      value (for a rate of 0, the payments), and the interest as value minus payments. */
  ghost predicate RowFor(interest: real, value: real, m: real, annual: real, y: nat) {
    var g := 1.0 + annual / 1200.0;
    && annual * value == 1200.0 * m * g * (Power(g, 12 * (y + 1)) - 1.0)
    && (annual == 0.0 ==> value == 12.0 * m * ((y + 1) as real))
    && interest == value - 12.0 * m * ((y + 1) as real)
  }

  lemma {:induction false} NoInterest(m: real, n: nat)
    ensures Balance(m, 0.0, n) == m * (n as real)
  {
    if n > 0 { NoInterest(m, n - 1); }
  }

  lemma Scaled(annual: real, value: real, x: real)
    requires annual / 1200.0 * value == x
    ensures annual * value == 1200.0 * x
  {
    assert annual == 1200.0 * (annual / 1200.0);
  }

  lemma RowIs(interest: real, value: real, m: real, annual: real, y: nat)
    requires RowOk(interest, value, m, annual / 1200.0, y)
    ensures RowFor(interest, value, m, annual, y)
  {
    var r, n := annual / 1200.0, 12 * (y + 1);
    var p := Power(1.0 + r, n) - 1.0;
    ClosedForm(m, r, n);
    Scaled(annual, value, m * (1.0 + r) * p);
    assert 1200.0 * (m * (1.0 + r) * p) == 1200.0 * m * (1.0 + r) * p;
    PaidIn(m, y + 1);
    if annual == 0.0 { NoInterest(m, n); }
  }

  /** `calculate_future_value`: exactly the first `years` rows are written. */
  method Calculate(monthlyInvestment: real, annualInterestRate: real, years: nat, results: array2<real>)
    requires years <= MAX_YEARS && results.Length0 == MAX_YEARS && results.Length1 == 2
    modifies results
    ensures forall y :: 0 <= y < years ==>
      RowFor(results[y, 0], results[y, 1], monthlyInvestment, annualInterestRate, y)
    ensures forall y :: 0 <= y < years ==>
      RowOk(results[y, 0], results[y, 1], monthlyInvestment, annualInterestRate / 1200.0, y)
    ensures forall y, k :: years <= y < MAX_YEARS && 0 <= k < 2 ==> results[y, k] == old(results[y, k])
  {
    var m, r := monthlyInvestment, annualInterestRate / 12.0 / 100.0;
    assert r == annualInterestRate / 1200.0;
    var months := years * 12;
    var futureValue := 0.0;
    ghost var full := 0;
    for i := 0 to months
      invariant 12 * full <= i < 12 * full + 12 && futureValue == Balance(m, r, i)
      invariant forall y :: 0 <= y < full ==> RowOk(results[y, 0], results[y, 1], m, r, y)
      invariant forall y, k :: full <= y < MAX_YEARS && 0 <= k < 2 ==> results[y, k] == old(results[y, k])
    {
      MonthPasses(m, r, i, futureValue);
      futureValue := futureValue + m;
      var monthlyInterest := futureValue * r;
      futureValue := futureValue + monthlyInterest;
      if (i + 1) % 12 == 0 {
        var year := (i + 1) / 12;
        full := full + 1;
        PaidIn(m, year);
        results[year - 1, 0] := futureValue - m * 12.0 * (year as real);
        results[year - 1, 1] := futureValue;
        assert RowOk(results[year - 1, 0], results[year - 1, 1], m, r, year - 1);
      }
    }
    forall y | 0 <= y < years
      ensures RowFor(results[y, 0], results[y, 1], monthlyInvestment, annualInterestRate, y)
    {
      RowIs(results[y, 0], results[y, 1], m, annualInterestRate, y);
    }
  }
}

/** The twenty-year projection of assets/codes/solar.py (lines 186-240): two
    lists of yearly cash flows that start with the battery's cost, each
    discounted at 6% a year and summed to a net present value. */
module Projection {
  import opened Numeric

  /** Line 190: the cost of the battery, paid in year 0. */
  const InitialInvestment: real := -7000.0
  /** Line 193: r1, the yearly electricity price increase. */
  const PriceIncrease: real := 0.04
  /** Line 194: `range(0, 20)`. */
  const Years: nat := 20
  /** Line 207: dr. */
  const DiscountRate: real := 0.06
  /** Line 218: r2, the yearly step added to the increase in scenario 2. */
  const IncreaseStep: real := 0.0025

  /** Scenario 1 (lines 190-201): the investment followed by 20 yearly savings
      growing by 4% a year, the first of them the current savings. */
  function FlatCash(savings: real): (cash: seq<real>)
    ensures |cash| == Years + 1 && cash[0] == InitialInvestment
    ensures forall k :: 1 <= k <= Years ==> cash[k] == savings * Pow(1.0 + PriceIncrease, k - 1)
  {
    [InitialInvestment] + seq(Years, k requires 0 <= k < Years => savings * Pow(1.0 + PriceIncrease, k))
  }

  /** Scenario 2 (lines 219-229): in year k the increase is 4% + 0.25% * k,
      compounded k times. The value for year 0 is computed but never appended,
      so the list holds the investment and 19 savings. */
  function AcceleratingCash(savings: real): (cash: seq<real>)
    ensures |cash| == Years && cash[0] == InitialInvestment
    ensures forall k :: 1 <= k < Years ==>
      cash[k] == savings * Pow(1.0 + (PriceIncrease + k as real * IncreaseStep), k)
  {
    [InitialInvestment] + seq(Years - 1, k requires 0 <= k < Years - 1 =>
      savings * Pow(1.0 + (PriceIncrease + (k + 1) as real * IncreaseStep), k + 1))
  }

  /** `(1 + dr) ** i`, at least one since the rate is positive. */
  function DiscountFactor(i: nat): (d: real)
    ensures d >= 1.0
  {
    PowAtLeastOne(1.0 + DiscountRate, i);
    Pow(1.0 + DiscountRate, i)
  }

  /** Each entry divided by 1.06 to the power of its position in the list. */
  function Discounted(cash: seq<real>): (values: seq<real>)
    ensures |values| == |cash|
    ensures forall i :: 0 <= i < |cash| ==> values[i] == cash[i] / DiscountFactor(i)
  {
    seq(|cash|, i requires 0 <= i < |cash| => cash[i] / DiscountFactor(i))
  }

  /** The net present value: the sum of the discounted entries. */
  function Npv(cash: seq<real>): real
  {
    Sum(Discounted(cash))
  }

  /** The loop of lines 197-201, building scenario 1 by appending. */
  method FlatCashFlows(savings: real) returns (cash: seq<real>)
    ensures cash == FlatCash(savings)
  {
    cash := [InitialInvestment];
    for i := 0 to Years
      invariant |cash| == i + 1 && cash[0] == InitialInvestment
      invariant forall k :: 1 <= k <= i ==> cash[k] == savings * Pow(1.0 + PriceIncrease, k - 1)
    {
      var yearlySavings := savings * Pow(1.0 + PriceIncrease, i);
      cash := cash + [yearlySavings];
    }
  }

  /** The loop of lines 222-229, building scenario 2 by appending. */
  method AcceleratingCashFlows(savings: real) returns (cash: seq<real>)
    ensures cash == AcceleratingCash(savings)
  {
    cash := [InitialInvestment];
    for i := 0 to Years
      invariant |cash| == (if i == 0 then 1 else i) && cash[0] == InitialInvestment
      invariant forall k :: 1 <= k < i ==>
        cash[k] == savings * Pow(1.0 + (PriceIncrease + k as real * IncreaseStep), k)
    {
      var yearlySavings: real;
      if i == 0 {
        yearlySavings := savings * Pow(1.0 + PriceIncrease, i);
      } else {
        yearlySavings := savings * Pow(1.0 + (PriceIncrease + i as real * IncreaseStep), i);
        cash := cash + [yearlySavings];
      }
    }
  }

  /** Lines 210-212 and 236-238: the discount loop. (Line 210 names
      `cost_savings`, which the script never defines; the list meant is
      `cost_savings1`.) */
  method Discount(cash: seq<real>) returns (values: seq<real>)
    ensures values == Discounted(cash)
  {
    values := [];
    for i := 0 to |cash|
      invariant |values| == i
      invariant forall k :: 0 <= k < i ==> values[k] == cash[k] / DiscountFactor(k)
    {
      var discountValue := cash[i] / DiscountFactor(i);
      values := values + [discountValue];
    }
  }

  /** Lines 207-214 and 234-240: the discounted list and its sum, the NPV. */
  method NetPresentValue(cash: seq<real>) returns (values: seq<real>, npv: real)
    ensures values == Discounted(cash)
    ensures npv == Npv(cash)
  {
    values := Discount(cash);
    npv := Sum(values);
  }

  /** With positive savings the 20 yearly entries of scenario 1 strictly increase. */
  lemma FlatCashFlowsIncrease(savings: real)
    requires savings > 0.0
    ensures var cash := FlatCash(savings);
      forall j, k :: 1 <= j < k <= Years ==> cash[j] < cash[k]
  {
    GrowingEntries(FlatCash(savings), savings);
  }

  lemma GrowingEntries(cash: seq<real>, savings: real)
    requires |cash| == Years + 1 && savings > 0.0
    requires forall k :: 1 <= k <= Years ==> cash[k] == savings * Pow(1.0 + PriceIncrease, k - 1)
    ensures forall j, k :: 1 <= j < k <= Years ==> cash[j] < cash[k]
  {
    forall j, k | 1 <= j < k <= Years ensures cash[j] < cash[k] {
      ScaledPowersIncrease(savings, 1.0 + PriceIncrease, j - 1, k - 1);
    }
  }

  /** A positive multiple of a growth factor's powers increases with the exponent. */
  lemma ScaledPowersIncrease(s: real, x: real, m: nat, n: nat)
    requires s > 0.0 && x > 1.0 && m < n
    ensures s * Pow(x, m) < s * Pow(x, n)
  {
    PowStrictlyIncreasing(x, m, n);
    MulStrictlyMonotone(s, Pow(x, m), Pow(x, n));
  }

  /** With positive savings the 19 yearly entries of scenario 2 strictly
      increase too: both the rate and the exponent grow with the year. */
  lemma AcceleratingCashFlowsIncrease(savings: real)
    requires savings > 0.0
    ensures var cash := AcceleratingCash(savings);
      forall j, k :: 1 <= j < k < Years ==> cash[j] < cash[k]
  {
    AcceleratingEntries(AcceleratingCash(savings), savings);
  }

  lemma AcceleratingEntries(cash: seq<real>, savings: real)
    requires |cash| == Years && savings > 0.0
    requires forall k :: 1 <= k < Years ==>
      cash[k] == savings * Pow(1.0 + (PriceIncrease + k as real * IncreaseStep), k)
    ensures forall j, k :: 1 <= j < k < Years ==> cash[j] < cash[k]
  {
    forall j, k | 1 <= j < k < Years ensures cash[j] < cash[k] {
      var bj := 1.0 + (PriceIncrease + j as real * IncreaseStep);
      var bk := 1.0 + (PriceIncrease + k as real * IncreaseStep);
      var pj, pk := Pow(bj, j), Pow(bk, k);
      assert cash[j] == savings * pj;
      assert cash[k] == savings * pk;
      PowMonotoneInBase(bj, bk, j);
      PowStrictlyIncreasing(bk, j, k);
      MulStrictlyMonotone(savings, pj, pk);
    }
  }

  /** Discounting keeps each entry's sign and never enlarges it. */
  lemma DiscountKeepsSign(cash: seq<real>)
    ensures var values := Discounted(cash);
      forall i :: 0 <= i < |cash| ==>
        && (values[i] > 0.0 <==> cash[i] > 0.0)
        && (values[i] < 0.0 <==> cash[i] < 0.0)
        && (values[i] == 0.0 <==> cash[i] == 0.0)
        && (cash[i] >= 0.0 ==> values[i] <= cash[i])
        && (cash[i] <= 0.0 ==> values[i] >= cash[i])
  {
    var values := Discounted(cash);
    forall i | 0 <= i < |cash|
      ensures && (values[i] > 0.0 <==> cash[i] > 0.0)
              && (values[i] < 0.0 <==> cash[i] < 0.0)
              && (values[i] == 0.0 <==> cash[i] == 0.0)
              && (cash[i] >= 0.0 ==> values[i] <= cash[i])
              && (cash[i] <= 0.0 ==> values[i] >= cash[i])
    {
      var d := DiscountFactor(i);
      assert values[i] * d == cash[i];
      DividedByAtLeastOne(cash[i], d);
    }
  }

  lemma DividedByAtLeastOne(c: real, d: real)
    requires d >= 1.0
    ensures c > 0.0 ==> 0.0 < c / d <= c
    ensures c < 0.0 ==> c <= c / d < 0.0
    ensures c == 0.0 ==> c / d == 0.0
  {
    var v := c / d;
    assert v * d == c;
    if c > 0.0 {
      assert v > 0.0;
      assert c - v == v * (d - 1.0);
      MulNonNegative(v, d - 1.0);
    } else if c < 0.0 {
      assert v < 0.0;
      assert v - c == -v * (d - 1.0);
      MulNonNegative(-v, d - 1.0);
    }
  }

  /** When every yearly saving is non-negative the NPV is at least the
      (undiscounted) investment of year 0. */
  lemma NpvAtLeastInvestment(cash: seq<real>)
    requires |cash| > 0 && cash[0] == InitialInvestment
    requires forall k :: 1 <= k < |cash| ==> cash[k] >= 0.0
    ensures Npv(cash) >= InitialInvestment
  {
    var values := Discounted(cash);
    DiscountKeepsSign(cash);
    assert values[0] == InitialInvestment;
    forall k | 0 <= k < |values[1..]| ensures values[1..][k] >= 0.0 {
      assert values[1..][k] == values[k + 1];
    }
    SumNonNegative(values[1..]);
  }

  /** Lines 186-240 end to end: both scenarios built from the year's total
      savings, discounted and summed. With non-negative savings neither NPV
      falls below the investment. */
  method ProjectScenarios(savings: real) returns (npv1: real, npv2: real)
    ensures npv1 == Npv(FlatCash(savings)) && npv2 == Npv(AcceleratingCash(savings))
    ensures savings >= 0.0 ==> npv1 >= InitialInvestment && npv2 >= InitialInvestment
  {
    var cash1 := FlatCashFlows(savings);
    var values1;
    values1, npv1 := NetPresentValue(cash1);
    var cash2 := AcceleratingCashFlows(savings);
    var values2;
    values2, npv2 := NetPresentValue(cash2);
    if savings >= 0.0 {
      forall k | 1 <= k < |cash1| ensures cash1[k] >= 0.0 {
        PowPositive(1.0 + PriceIncrease, k - 1);
        MulNonNegative(savings, Pow(1.0 + PriceIncrease, k - 1));
      }
      NpvAtLeastInvestment(cash1);
      forall k | 1 <= k < |cash2| ensures cash2[k] >= 0.0 {
        var rate := 1.0 + (PriceIncrease + k as real * IncreaseStep);
        PowPositive(rate, k);
        MulNonNegative(savings, Pow(rate, k));
      }
      NpvAtLeastInvestment(cash2);
    }
  }
}

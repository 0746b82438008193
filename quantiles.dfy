/** `Series.quantile(q)` and `Series.median()` with pandas' default linear
    interpolation: sort the values, go to position (n - 1) * q and interpolate
    between the two neighbouring sorted values. */
module Quantiles {
  import opened Numeric

  /** A pandas statistic. An empty series has a NaN quantile. */
  datatype Stat = NaN | Num(value: real)

  /** `x > stat`, with the IEEE rule that every comparison with NaN is false. */
  predicate Exceeds(x: real, s: Stat)
  {
    s.Num? && x > s.value
  }

  ghost predicate IsSorted(s: seq<real>)
  {
    forall i, j :: 0 <= i < j < |s| ==> s[i] <= s[j]
  }

  function Insert(x: real, s: seq<real>): (r: seq<real>)
    requires IsSorted(s)
    ensures IsSorted(r)
    ensures multiset(r) == multiset(s) + multiset{x}
    ensures |r| == |s| + 1 && r[0] == if s == [] || x <= s[0] then x else s[0]
  {
    if s == [] then [x]
    else if x <= s[0] then [x] + s
    else
      var rest := Insert(x, s[1..]);
      assert s[0] <= rest[0];
      assert s == [s[0]] + s[1..];
      [s[0]] + rest
  }

  /** The values in ascending order: sorted, and a rearrangement of the input. */
  function SortAscending(xs: seq<real>): (r: seq<real>)
    ensures IsSorted(r)
    ensures multiset(r) == multiset(xs)
    ensures |r| == |xs|
  {
    if xs == [] then []
    else
      assert xs == [xs[0]] + xs[1..];
      Insert(xs[0], SortAscending(xs[1..]))
  }

  /** The fractional position (n - 1) * q of the q-quantile among n sorted values. */
  function Position(n: nat, q: real): (h: real)
    requires n > 0 && 0.0 <= q <= 1.0
    ensures 0.0 <= h <= (n - 1) as real
    ensures 0 <= h.Floor <= n - 1
  {
    MulNonNegative((n - 1) as real, q);
    MulNonNegative((n - 1) as real, 1.0 - q);
    (n - 1) as real * q
  }

  /** Linear interpolation at position (n - 1) * q of the sorted values `s`. */
  function Interpolate(s: seq<real>, q: real): real
    requires |s| > 0 && 0.0 <= q <= 1.0
  {
    var h := Position(|s|, q);
    var lo := h.Floor;
    if lo + 1 < |s| then s[lo] + (h - lo as real) * (s[lo + 1] - s[lo]) else s[lo]
  }

  /** `Series.quantile(q)`. */
  function Quantile(xs: seq<real>, q: real): (r: Stat)
    requires 0.0 <= q <= 1.0
    ensures r.Num? <==> |xs| > 0
  {
    if |xs| == 0 then NaN else Num(Interpolate(SortAscending(xs), q))
  }

  /** `Series.median()`: the 0.5 quantile, which lies between the quartiles. */
  function Median(xs: seq<real>): (r: Stat)
    ensures r.Num? <==> |xs| > 0
    ensures r.Num? ==> Quantile(xs, 0.25).value <= r.value <= Quantile(xs, 0.75).value
  {
    if |xs| > 0 then
      QuantileMonotone(xs, 0.25, 0.5);
      QuantileMonotone(xs, 0.5, 0.75);
      Quantile(xs, 0.5)
    else
      Quantile(xs, 0.5)
  }

  /** The interpolated value lies between the two sorted values it interpolates. */
  lemma InterpolateBetween(s: seq<real>, q: real)
    requires |s| > 0 && 0.0 <= q <= 1.0 && IsSorted(s)
    ensures var lo := Position(|s|, q).Floor;
      s[lo] <= Interpolate(s, q) <= s[if lo + 1 < |s| then lo + 1 else lo]
  {
    var h := Position(|s|, q);
    var lo := h.Floor;
    if lo + 1 < |s| {
      var f, d := h - lo as real, s[lo + 1] - s[lo];
      MulNonNegative(f, d);
      assert d - f * d == (1.0 - f) * d;
      MulNonNegative(1.0 - f, d);
    }
  }

  /** A larger q never gives a smaller interpolated value. */
  lemma InterpolateMonotone(s: seq<real>, p: real, q: real)
    requires |s| > 0 && 0.0 <= p <= q <= 1.0 && IsSorted(s)
    ensures Interpolate(s, p) <= Interpolate(s, q)
  {
    var n := |s|;
    var hp, hq := Position(n, p), Position(n, q);
    assert hq - hp == (n - 1) as real * (q - p);
    MulNonNegative((n - 1) as real, q - p);
    var lp, lq := hp.Floor, hq.Floor;
    InterpolateBetween(s, p);
    InterpolateBetween(s, q);
    if lp == lq {
      if lp + 1 < n {
        var d := s[lp + 1] - s[lp];
        assert Interpolate(s, q) - Interpolate(s, p) == (hq - hp) * d;
        MulNonNegative(hq - hp, d);
      }
    } else {
      assert lp + 1 <= lq;
      assert s[lp + 1] <= s[lq];
    }
  }

  /** Quantiles are ordered like their levels: q1 <= q2 gives quantile(q1) <= quantile(q2). */
  lemma QuantileMonotone(xs: seq<real>, p: real, q: real)
    requires |xs| > 0 && 0.0 <= p <= q <= 1.0
    ensures Quantile(xs, p).value <= Quantile(xs, q).value
  {
    InterpolateMonotone(SortAscending(xs), p, q);
  }

  /** A quantile of a non-empty series lies between two of its values. */
  lemma QuantileWithinData(xs: seq<real>, q: real)
    requires |xs| > 0 && 0.0 <= q <= 1.0
    ensures exists i :: 0 <= i < |xs| && xs[i] <= Quantile(xs, q).value
    ensures exists j :: 0 <= j < |xs| && Quantile(xs, q).value <= xs[j]
  {
    var s := SortAscending(xs);
    InterpolateBetween(s, q);
    var lo := Position(|s|, q).Floor;
    var hi := if lo + 1 < |s| then lo + 1 else lo;
    assert s[lo] in multiset(xs) && s[hi] in multiset(xs);
    var i :| 0 <= i < |xs| && xs[i] == s[lo];
    var j :| 0 <= j < |xs| && xs[j] == s[hi];
  }

  /** Every quantile of a column without negative values is non-negative. */
  lemma QuantileNonNegative(xs: seq<real>, q: real)
    requires |xs| > 0 && 0.0 <= q <= 1.0
    requires forall i :: 0 <= i < |xs| ==> xs[i] >= 0.0
    ensures Quantile(xs, q).value >= 0.0
  {
    QuantileWithinData(xs, q);
  }
}

/** The outlier steps of the cleaner: `detect_outliers` (the 1.5 IQR rule) and
    the in-place replacement of large values by the column median. */
module Outliers {
  import opened Numeric
  import opened Frame
  import opened Quantiles

  /** Q1, Q3 and the fences Q1 - 1.5 IQR and Q3 + 1.5 IQR. */
  datatype Fences = Fences(q1: real, q3: real, lower: real, upper: real)

  /** Lines 46-50: the quartiles of a non-empty column and its fences. The
      quartiles are ordered, so the IQR is never negative and the fences
      enclose the interquartile range. */
  function IqrFences(xs: seq<real>): (f: Fences)
    requires |xs| > 0
    ensures f.lower <= f.q1 <= f.q3 <= f.upper
    ensures f.upper - f.q3 == f.q1 - f.lower == 1.5 * (f.q3 - f.q1)
  {
    QuantileMonotone(xs, 0.25, 0.75);
    var q1 := Quantile(xs, 0.25).value;
    var q3 := Quantile(xs, 0.75).value;
    var iqr := q3 - q1;
    Fences(q1, q3, q1 - 1.5 * iqr, q3 + 1.5 * iqr)
  }

  /** The mask `(data[c] < lower_bound) | (data[c] > upper_bound)` of a non-empty frame. */
  function OutlierMask(rows: seq<Row>, c: Column): Mask
    requires |rows| > 0
  {
    var f := IqrFences(Values(rows, c));
    OutsideFences(c, f.lower, f.upper)
  }

  /** `detect_outliers(data, c)`: the rows whose value in column c lies strictly
      outside the fences. For an empty frame the quartiles are NaN, every
      comparison is false and no row is returned. */
  function DetectOutliers(rows: seq<Row>, c: Column): (out: seq<Row>)
    ensures |out| <= |rows|
    ensures |rows| == 0 ==> out == []
    ensures |rows| > 0 ==> var f := IqrFences(Values(rows, c));
      forall i :: 0 <= i < |out| ==> Value(out[i], c) < f.lower || Value(out[i], c) > f.upper
  {
    if |rows| == 0 then [] else Filter(OutlierMask(rows, c), rows)
  }

  /** A row is returned iff it belongs to the frame and its value is strictly
      below the lower fence or strictly above the upper fence. */
  lemma OutlierIff(rows: seq<Row>, c: Column, r: Row)
    requires |rows| > 0
    ensures var f := IqrFences(Values(rows, c));
      r in DetectOutliers(rows, c) <==> r in rows && (Value(r, c) < f.lower || Value(r, c) > f.upper)
  {
    FilterMembership(OutlierMask(rows, c), rows, r);
  }

  /** The returned rows keep their original relative order: splitting the frame
      anywhere splits the result at the same place. */
  lemma OutliersKeepOrder(a: seq<Row>, b: seq<Row>, c: Column)
    requires |a + b| > 0
    ensures var m := OutlierMask(a + b, c);
      DetectOutliers(a + b, c) == Filter(m, a) + Filter(m, b)
  {
    FilterConcat(OutlierMask(a + b, c), a, b);
  }

  /** No row whose value lies between Q1 and Q3 is an outlier. */
  lemma InterquartileRowsAreNotOutliers(rows: seq<Row>, c: Column, r: Row)
    requires |rows| > 0
    requires IqrFences(Values(rows, c)).q1 <= Value(r, c) <= IqrFences(Values(rows, c)).q3
    ensures r !in DetectOutliers(rows, c)
  {
    OutlierIff(rows, c, r);
  }

  /** `data.loc[mask, c] = v` as a value: the rows the mask selects get v in
      column c; nothing else changes, labels and hours included. */
  function Assign(rows: seq<Row>, m: Mask, c: Column, v: real): (out: seq<Row>)
    ensures |out| == |rows|
    ensures forall i :: 0 <= i < |out| ==>
      && out[i].index == rows[i].index && out[i].hour == rows[i].hour
      && (forall d :: d != c ==> Value(out[i], d) == Value(rows[i], d))
      && Value(out[i], c) == if Keeps(m, rows[i]) then v else Value(rows[i], c)
  {
    seq(|rows|, i requires 0 <= i < |rows| =>
      if Keeps(m, rows[i]) then WithValue(rows[i], c, v) else rows[i])
  }

  /** The same assignment, in place on the frame. */
  method AssignInPlace(data: array<Row>, m: Mask, c: Column, v: real)
    modifies data
    ensures data[..] == Assign(old(data[..]), m, c, v)
  {
    forall i | 0 <= i < data.Length && Keeps(m, data[i]) {
      data[i] := WithValue(data[i], c, v);
    }
  }

  /** `data.loc[data[c] > cut, c] = median`, where a NaN cut selects no row.
      Afterwards no value in column c exceeds the cut, except the median that
      was written. */
  function ReplaceAbove(rows: seq<Row>, c: Column, cut: Stat, median: real): (out: seq<Row>)
    ensures |out| == |rows|
    ensures forall i :: 0 <= i < |out| ==>
      && out[i].index == rows[i].index && out[i].hour == rows[i].hour
      && (forall d :: d != c ==> Value(out[i], d) == Value(rows[i], d))
      && Value(out[i], c) == if Exceeds(Value(rows[i], c), cut) then median else Value(rows[i], c)
    ensures forall i :: 0 <= i < |out| ==> Value(out[i], c) == median || !Exceeds(Value(out[i], c), cut)
  {
    match cut
    case NaN => rows
    case Num(x) => Assign(rows, Above(c, x), c, median)
  }

  /** `outliers[c].quantile(0.75)`: the replacement cut. NaN exactly when there
      are no outliers; otherwise it lies between two outlier values, so some
      outlier is never above it. */
  function OutlierCut(rows: seq<Row>, c: Column): (cut: Stat)
    ensures cut.Num? <==> DetectOutliers(rows, c) != []
    ensures cut.Num? ==> exists j :: 0 <= j < |DetectOutliers(rows, c)| && Value(DetectOutliers(rows, c)[j], c) <= cut.value
    ensures cut.Num? ==> exists j :: 0 <= j < |DetectOutliers(rows, c)| && cut.value <= Value(DetectOutliers(rows, c)[j], c)
  {
    var xs := Values(DetectOutliers(rows, c), c);
    if |xs| > 0 then
      QuantileWithinData(xs, 0.75);
      Quantile(xs, 0.75)
    else
      Quantile(xs, 0.75)
  }

  /** Replace, in column c, every value above `cut` with the column median:
      each value of c stays or becomes that median, and nothing else changes. */
  function ReplaceColumn(rows: seq<Row>, c: Column, cut: Stat): (out: seq<Row>)
    ensures |out| == |rows|
    ensures forall i :: 0 <= i < |out| ==>
      && out[i].index == rows[i].index && out[i].hour == rows[i].hour
      && (forall d :: d != c ==> Value(out[i], d) == Value(rows[i], d))
      && (Value(out[i], c) == Value(rows[i], c) || Median(Values(rows, c)) == Num(Value(out[i], c)))
    ensures forall i :: 0 <= i < |out| && !Exceeds(Value(rows[i], c), cut) ==> Value(out[i], c) == Value(rows[i], c)
    ensures forall i :: 0 <= i < |out| && Exceeds(Value(rows[i], c), cut) ==> Median(Values(rows, c)) == Num(Value(out[i], c))
  {
    match Median(Values(rows, c))
    case NaN => rows
    case Num(m) => ReplaceAbove(rows, c, cut, m)
  }

  /** Replacing one column leaves the other column's values as they were. */
  lemma ReplaceColumnKeepsOther(rows: seq<Row>, c: Column, d: Column, cut: Stat)
    requires d != c
    ensures Values(ReplaceColumn(rows, c, cut), d) == Values(rows, d)
  {
    var out := ReplaceColumn(rows, c, cut);
    assert forall i :: 0 <= i < |rows| ==> Values(out, d)[i] == Values(rows, d)[i];
  }

  /** Lines 53-54 and 64-65: both cuts come from the outliers of the
      sign-filtered frame; the solar column is replaced first, then the
      electricity column, each with the median of the column it replaces.
      Every reading stays or becomes its column's median; labels and hours
      stay. */
  function Corrected(rows: seq<Row>): (out: seq<Row>)
    ensures |out| == |rows|
    ensures forall i :: 0 <= i < |out| ==>
      && out[i].index == rows[i].index && out[i].hour == rows[i].hour
      && (out[i].solar == rows[i].solar || Median(Values(rows, Solar)) == Num(out[i].solar))
      && (out[i].electricity == rows[i].electricity || Median(Values(rows, Electricity)) == Num(out[i].electricity))
  {
    var solarCut := OutlierCut(rows, Solar);
    var electricCut := OutlierCut(rows, Electricity);
    ReplaceColumnKeepsOther(rows, Solar, Electricity, solarCut);
    ReplaceColumn(ReplaceColumn(rows, Solar, solarCut), Electricity, electricCut)
  }

  /** The cleaner's outlier step, in place on the frame. */
  method HandleOutliers(data: array<Row>)
    modifies data
    ensures data[..] == Corrected(old(data[..]))
  {
    var solarOutliers := DetectOutliers(data[..], Solar);
    var electricOutliers := DetectOutliers(data[..], Electricity);
    // An empty frame has a NaN median and no row to assign to; a NaN cut
    // selects no row.
    var solarCut := Quantile(Values(solarOutliers, Solar), 0.75);
    var solarMedian := Median(Values(data[..], Solar));
    if solarMedian.Num? && solarCut.Num? {
      AssignInPlace(data, Above(Solar, solarCut.value), Solar, solarMedian.value);
    }
    var electricCut := Quantile(Values(electricOutliers, Electricity), 0.75);
    var electricMedian := Median(Values(data[..], Electricity));
    if electricMedian.Num? && electricCut.Num? {
      AssignInPlace(data, Above(Electricity, electricCut.value), Electricity, electricMedian.value);
    }
  }

  /** Replacing with the median keeps a column without negative values
      without negative values. */
  lemma ReplaceColumnKeepsSign(rows: seq<Row>, c: Column, cut: Stat)
    requires forall i :: 0 <= i < |rows| ==> rows[i].solar >= 0.0 && rows[i].electricity >= 0.0
    ensures var out := ReplaceColumn(rows, c, cut);
      forall i :: 0 <= i < |out| ==> out[i].solar >= 0.0 && out[i].electricity >= 0.0
  {
    var xs := Values(rows, c);
    if |rows| > 0 {
      assert forall i :: 0 <= i < |xs| ==> xs[i] >= 0.0 by {
        forall i | 0 <= i < |xs| ensures xs[i] >= 0.0 {
          match c
          case Solar =>
          case Electricity =>
        }
      }
      QuantileNonNegative(xs, 0.5);
    }
  }

  /** The cleaned frame keeps the invariant of the sign filter (no negative
      reading), and keeps its length, labels and hours. */
  lemma CorrectedKeepsFrame(rows: seq<Row>)
    requires forall i :: 0 <= i < |rows| ==> rows[i].solar >= 0.0 && rows[i].electricity >= 0.0
    ensures var out := Corrected(rows);
      forall i :: 0 <= i < |out| ==>
        && out[i].solar >= 0.0 && out[i].electricity >= 0.0
        && out[i].index == rows[i].index && out[i].hour == rows[i].hour
  {
    var afterSolar := ReplaceColumn(rows, Solar, OutlierCut(rows, Solar));
    ReplaceColumnKeepsSign(rows, Solar, OutlierCut(rows, Solar));
    ReplaceColumnKeepsSign(afterSolar, Electricity, OutlierCut(rows, Electricity));
  }

  /** Column c after the correction: the electricity pass sees the solar
      pass's output, whose electricity values are the original ones. */
  lemma CorrectedColumn(rows: seq<Row>, c: Column, i: nat)
    requires i < |rows|
    ensures var out := Corrected(rows);
      && (!Exceeds(Value(rows[i], c), OutlierCut(rows, c)) ==> Value(out[i], c) == Value(rows[i], c))
      && (Exceeds(Value(rows[i], c), OutlierCut(rows, c)) ==> Median(Values(rows, c)) == Num(Value(out[i], c)))
  {
    var afterSolar := ReplaceColumn(rows, Solar, OutlierCut(rows, Solar));
    ReplaceColumnKeepsOther(rows, Solar, Electricity, OutlierCut(rows, Solar));
    assert Value(afterSolar[i], Electricity) == Value(rows[i], Electricity);
  }

  /** As written, the cut is the 75th percentile of the outliers themselves,
      and the mask `> cut` is strict: the smallest outlier of a column (a
      single spike in particular) is never above the cut, so it survives the
      correction and is still outside the fences. */
  lemma SmallestOutlierSurvives(rows: seq<Row>, c: Column, i: nat)
    requires i < |rows| && rows[i] in DetectOutliers(rows, c)
    requires forall o :: o in DetectOutliers(rows, c) ==> Value(rows[i], c) <= Value(o, c)
    ensures Value(Corrected(rows)[i], c) == Value(rows[i], c)
    ensures var f := IqrFences(Values(rows, c));
      Value(Corrected(rows)[i], c) < f.lower || Value(Corrected(rows)[i], c) > f.upper
  {
    var outs := DetectOutliers(rows, c);
    var cut := OutlierCut(rows, c);
    var j :| 0 <= j < |outs| && Value(outs[j], c) <= cut.value;
    assert outs[j] in outs;
    NotAboveCut(cut, Value(outs[j], c), Value(rows[i], c));
    CorrectedColumn(rows, c, i);
    StillOutlier(rows, c, rows[i]);
  }

  /** A column with a single outlier keeps it: the spike is not replaced. */
  lemma SingleOutlierSurvives(rows: seq<Row>, c: Column, i: nat)
    requires i < |rows| && DetectOutliers(rows, c) == [rows[i]]
    ensures Value(Corrected(rows)[i], c) == Value(rows[i], c)
  {
    SmallestOutlierSurvives(rows, c, i);
  }

  lemma NotAboveCut(cut: Stat, a: real, b: real)
    requires cut.Num? && b <= a <= cut.value
    ensures !Exceeds(b, cut)
  {
  }

  lemma StillOutlier(rows: seq<Row>, c: Column, r: Row)
    requires r in DetectOutliers(rows, c)
    ensures var f := IqrFences(Values(rows, c));
      Value(r, c) < f.lower || Value(r, c) > f.upper
  {
    OutlierIff(rows, c, r);
  }

  /** As written, when every outlier of a column lies below the lower fence,
      the cut is below the lower fence too, so every row inside the fences is
      above it and is overwritten with the median. */
  lemma LowOutliersReplaceInliers(rows: seq<Row>, c: Column, i: nat)
    requires i < |rows| && DetectOutliers(rows, c) != []
    requires forall o :: o in DetectOutliers(rows, c) ==> Value(o, c) < IqrFences(Values(rows, c)).lower
    requires IqrFences(Values(rows, c)).lower <= Value(rows[i], c)
    ensures Median(Values(rows, c)) == Num(Value(Corrected(rows)[i], c))
  {
    var outs := DetectOutliers(rows, c);
    var cut := OutlierCut(rows, c);
    var j :| 0 <= j < |outs| && cut.value <= Value(outs[j], c);
    assert outs[j] in outs;
    CorrectedColumn(rows, c, i);
  }

  /** The evidently intended correction of one column: every outlier, below
      the lower fence or above the upper one, becomes the column median, and
      every value inside the fences stays. */
  function IntendedReplaceColumn(rows: seq<Row>, c: Column): (out: seq<Row>)
    ensures |out| == |rows|
    ensures forall i :: 0 <= i < |out| ==>
      && out[i].index == rows[i].index && out[i].hour == rows[i].hour
      && (forall d :: d != c ==> Value(out[i], d) == Value(rows[i], d))
    ensures |rows| > 0 ==> var f := IqrFences(Values(rows, c));
      forall i :: 0 <= i < |out| ==>
        Value(out[i], c) == if Value(rows[i], c) < f.lower || Value(rows[i], c) > f.upper
                            then Median(Values(rows, c)).value else Value(rows[i], c)
    ensures |rows| > 0 ==> var f := IqrFences(Values(rows, c));
      forall i :: 0 <= i < |out| ==> f.lower <= Value(out[i], c) <= f.upper
  {
    if |rows| == 0 then rows
    else
      var xs := Values(rows, c);
      var median := Median(xs).value;
      Assign(rows, OutlierMask(rows, c), c, median)
  }

  /** Both columns corrected the intended way, solar first. */
  function IntendedCorrected(rows: seq<Row>): (out: seq<Row>)
    ensures |out| == |rows|
  {
    IntendedReplaceColumn(IntendedReplaceColumn(rows, Solar), Electricity)
  }

  /** After the intended correction no reading lies outside its column's
      original fences; labels and hours stay. (The fences of the corrected
      frame can be narrower, so a second detection may flag new rows.) */
  lemma IntendedCorrectionWithinFences(rows: seq<Row>)
    requires |rows| > 0
    ensures var out := IntendedCorrected(rows);
      var fs, fe := IqrFences(Values(rows, Solar)), IqrFences(Values(rows, Electricity));
      forall i :: 0 <= i < |out| ==>
        && fs.lower <= out[i].solar <= fs.upper
        && fe.lower <= out[i].electricity <= fe.upper
        && out[i].index == rows[i].index && out[i].hour == rows[i].hour
  {
    var afterSolar := IntendedReplaceColumn(rows, Solar);
    assert Values(afterSolar, Electricity) == Values(rows, Electricity) by {
      assert forall i :: 0 <= i < |rows| ==> Values(afterSolar, Electricity)[i] == Values(rows, Electricity)[i];
    }
    var out := IntendedCorrected(rows);
    forall i | 0 <= i < |out|
      ensures Value(out[i], Solar) == Value(afterSolar[i], Solar)
    {
    }
  }

  /** The intended outlier step, in place on the frame. */
  method HandleOutliersIntended(data: array<Row>)
    modifies data
    ensures data[..] == IntendedCorrected(old(data[..]))
  {
    if data.Length > 0 {
      var solarMask := OutlierMask(data[..], Solar);
      var solarMedian := Median(Values(data[..], Solar)).value;
      AssignInPlace(data, solarMask, Solar, solarMedian);
      var electricMask := OutlierMask(data[..], Electricity);
      var electricMedian := Median(Values(data[..], Electricity)).value;
      AssignInPlace(data, electricMask, Electricity, electricMedian);
    }
  }
}

/** The hourly cleaner: the sign filter of line 27 followed by the outlier
    replacement of lines 53-54 and 64-65, on the frame loaded from the file. */
module Cleaner {
  import opened Frame
  import opened Outliers

  /** `data = data[mask]` builds a new frame; the replacement then runs in place on it. */
  method Clean(raw: seq<Row>) returns (data: array<Row>)
    ensures fresh(data)
    ensures data[..] == Corrected(SignFilter(raw))
  {
    var kept := SignFilter(raw);
    data := new Row[|kept|](i requires 0 <= i < |kept| => kept[i]);
    assert data[..] == kept;
    HandleOutliers(data);
  }

  /** The evidently intended cleaner: the same sign filter, then every outlier
      of each column replaced by that column's median. */
  method CleanIntended(raw: seq<Row>) returns (data: array<Row>)
    ensures fresh(data)
    ensures data[..] == IntendedCorrected(SignFilter(raw))
  {
    var kept := SignFilter(raw);
    data := new Row[|kept|](i requires 0 <= i < |kept| => kept[i]);
    assert data[..] == kept;
    HandleOutliersIntended(data);
  }

  /** After cleaning no reading is negative, and every row descends from a
      row of the raw frame with the same label and hour whose readings were
      both non-negative. */
  lemma CleanedFrameIsNonNegative(raw: seq<Row>)
    ensures var out := Corrected(SignFilter(raw));
      && |out| <= |raw|
      && forall i :: 0 <= i < |out| ==>
        && out[i].solar >= 0.0 && out[i].electricity >= 0.0
        && exists r :: r in raw && r.index == out[i].index && r.hour == out[i].hour
                    && r.solar >= 0.0 && r.electricity >= 0.0
  {
    var kept := SignFilter(raw);
    CorrectedKeepsFrame(kept);
    forall i | 0 <= i < |kept| ensures kept[i] in raw {
      SignFilterKeepsExactly(raw, kept[i]);
    }
  }

  /** A loaded frame whose first n rows have no negative reading still
      carries the labels 0 .. n - 1 on its first n rows after cleaning, which
      is what the battery loop over n rows needs of it. */
  lemma CleanedFrameKeepsLeadingLabels(raw: seq<Row>, n: nat)
    requires ContiguousLabels(raw) && n <= |raw|
    requires forall i :: 0 <= i < n ==> raw[i].solar >= 0.0 && raw[i].electricity >= 0.0
    ensures LeadingLabels(Corrected(SignFilter(raw)), n)
  {
    SignFilterKeepsLeadingLabels(raw, n);
  }
}

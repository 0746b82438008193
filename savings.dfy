/** Savings per hour and their totals (lines 109-119 of both scripts). The
    column `electricity_w_bat` is read but never assigned by either script, so
    it is an input here. */
module Savings {
  import opened Numeric

  /** Line 109, in currency units per kWh. */
  const ElectricityPrice: real := 0.17

  /** codes/solar.py line 112: the electricity bought without a battery is this
      hour's demand when the battery is empty, and nothing otherwise; so it is
      all or nothing of the demand, and never more than a non-negative demand. */
  function WithoutBattery(needed: real, charge: real): (w: real)
    ensures w == needed || w == 0.0
    ensures w == needed <== charge == 0.0
    ensures w == 0.0 <== charge != 0.0
    ensures needed >= 0.0 ==> 0.0 <= w <= needed
  {
    if charge == 0.0 then needed else 0.0
  }

  /** codes/solar.py line 112 as a column. (assets/codes/solar.py line 112
      copies `electricity_needed` instead.) */
  function WithoutBatteryColumn(needed: seq<real>, battery: seq<real>): (col: seq<real>)
    requires |needed| == |battery|
    ensures |col| == |needed|
    ensures forall i :: 0 <= i < |col| ==> col[i] == WithoutBattery(needed[i], battery[i])
    ensures forall i :: 0 <= i < |col| ==> col[i] == if battery[i] == 0.0 then needed[i] else 0.0
    ensures forall i :: 0 <= i < |col| && needed[i] >= 0.0 ==> 0.0 <= col[i] <= needed[i]
  {
    seq(|needed|, i requires 0 <= i < |needed| => WithoutBattery(needed[i], battery[i]))
  }

  /** Lines 115-116 for one hour: the clipped saving priced at 0.17. A saving
      is never negative, is positive exactly when the battery lowers the
      purchase, and when both purchases are non-negative it is at most the
      price of what would be bought without the battery. */
  function Saving(without: real, with: real): (s: real)
    ensures s >= 0.0
    ensures s > 0.0 <==> without > with
    ensures without >= 0.0 && with >= 0.0 ==> s <= ElectricityPrice * without
  {
    Max(without - with, 0.0) * ElectricityPrice
  }

  /** `data['savings']`. */
  function SavingsColumn(without: seq<real>, with: seq<real>): (col: seq<real>)
    requires |without| == |with|
    ensures |col| == |without|
    ensures forall i :: 0 <= i < |col| ==> col[i] == Saving(without[i], with[i])
    ensures forall i :: 0 <= i < |col| ==> col[i] >= 0.0
  {
    seq(|without|, i requires 0 <= i < |without| => Saving(without[i], with[i]))
  }

  /** assets/codes/solar.py: `electricity_wout_bat` is a copy of
      `electricity_needed`, so an hour saves the priced part of its demand
      that the battery covers, and, when its demand and its purchase with
      battery are non-negative, never more than the price of its demand. */
  function AssetsSavings(needed: seq<real>, with: seq<real>): (col: seq<real>)
    requires |needed| == |with|
    ensures |col| == |needed|
    ensures forall i :: 0 <= i < |col| ==> col[i] >= 0.0
    ensures forall i :: 0 <= i < |col| && needed[i] >= 0.0 && with[i] >= 0.0 ==>
      col[i] <= ElectricityPrice * needed[i]
  {
    var col := SavingsColumn(needed, with);
    assert forall i :: 0 <= i < |col| ==> col[i] == Saving(needed[i], with[i]);
    col
  }

  /** codes/solar.py: with the battery-dependent purchase rule an hour whose
      battery holds charge saves nothing (unless the purchase with battery is
      negative), and when its demand and its purchase with battery are
      non-negative no hour saves more than the price of its demand. */
  function CodesSavings(needed: seq<real>, battery: seq<real>, with: seq<real>): (col: seq<real>)
    requires |needed| == |battery| == |with|
    ensures |col| == |needed|
    ensures forall i :: 0 <= i < |col| ==> col[i] >= 0.0
    ensures forall i :: 0 <= i < |col| && battery[i] != 0.0 && with[i] >= 0.0 ==> col[i] == 0.0
    ensures forall i :: 0 <= i < |col| && needed[i] >= 0.0 && with[i] >= 0.0 ==>
      col[i] <= ElectricityPrice * needed[i]
  {
    var without := WithoutBatteryColumn(needed, battery);
    var col := SavingsColumn(without, with);
    assert forall i :: 0 <= i < |col| ==> col[i] == Saving(without[i], with[i]);
    col
  }

  /** Line 119 (`annual_savings`, `total_savings`): the total is never negative. */
  lemma TotalSavingsNonNegative(without: seq<real>, with: seq<real>)
    requires |without| == |with|
    ensures Sum(SavingsColumn(without, with)) >= 0.0
  {
    SumNonNegative(SavingsColumn(without, with));
  }

  /** The total of the values whose hour is h: nothing for an hour that does
      not occur, and never negative for a column without negative values. */
  function HourTotal(hours: seq<int>, values: seq<real>, h: int): (t: real)
    requires |hours| == |values|
    ensures h !in hours ==> t == 0.0
    ensures (forall i :: 0 <= i < |values| ==> values[i] >= 0.0) ==> t >= 0.0
  {
    if hours == [] then 0.0
    else (if hours[0] == h then values[0] else 0.0) + HourTotal(hours[1..], values[1..], h)
  }

  /** `groupby('hour')[column].sum()`: one total per hour that occurs. */
  function GroupByHour(hours: seq<int>, values: seq<real>): (totals: map<int, real>)
    requires |hours| == |values|
    ensures forall h :: h in totals <==> h in hours
  {
    map h | h in hours :: HourTotal(hours, values, h)
  }

  ghost predicate Distinct(keys: seq<int>)
  {
    forall i, j :: 0 <= i < j < |keys| ==> keys[i] != keys[j]
  }

  /** The sum of the group totals listed in `keys`. */
  function TotalOver(keys: seq<int>, totals: map<int, real>): real
    requires forall k :: k in keys ==> k in totals
  {
    if keys == [] then 0.0
    else
      var k := keys[0];
      assert k in keys;
      totals[k] + TotalOver(keys[1..], totals)
  }

  /** Every hour that occurs, listed once in any order: the per-hour totals
      add up to the total of the column. */
  lemma GroupTotalsAddUp(hours: seq<int>, values: seq<real>, keys: seq<int>)
    requires |hours| == |values|
    requires Distinct(keys)
    requires forall h :: h in keys <==> h in hours
    ensures TotalOver(keys, GroupByHour(hours, values)) == Sum(values)
  {
    TotalOverGroups(hours, values, keys);
    forall i | 0 <= i < |hours| ensures hours[i] in keys {
      assert hours[i] in hours;
    }
    KeyedTotalIsSum(hours, values, keys);
  }

  /** The sum over `keys` of each key's hour total. */
  function KeyedTotal(keys: seq<int>, hours: seq<int>, values: seq<real>): real
    requires |hours| == |values|
  {
    if keys == [] then 0.0 else HourTotal(hours, values, keys[0]) + KeyedTotal(keys[1..], hours, values)
  }

  /** The sum over `keys` of `v` at key h and 0 elsewhere. */
  function PointTotal(keys: seq<int>, h: int, v: real): real
  {
    if keys == [] then 0.0 else (if keys[0] == h then v else 0.0) + PointTotal(keys[1..], h, v)
  }

  lemma {:induction false} TotalOverGroups(hours: seq<int>, values: seq<real>, keys: seq<int>)
    requires |hours| == |values|
    requires forall k :: k in keys ==> k in hours
    ensures TotalOver(keys, GroupByHour(hours, values)) == KeyedTotal(keys, hours, values)
  {
    if keys != [] {
      TotalOverGroups(hours, values, keys[1..]);
    }
  }

  lemma {:induction false} PointTotalOfDistinct(keys: seq<int>, h: int, v: real)
    requires Distinct(keys)
    ensures PointTotal(keys, h, v) == if h in keys then v else 0.0
  {
    if keys != [] {
      PointTotalOfDistinct(keys[1..], h, v);
      assert keys[0] == h ==> h !in keys[1..];
      assert h in keys <==> keys[0] == h || h in keys[1..];
    }
  }

  /** Peeling the first row off every hour total. */
  lemma {:induction false} KeyedTotalSplit(keys: seq<int>, hours: seq<int>, values: seq<real>)
    requires |hours| == |values| && hours != []
    ensures KeyedTotal(keys, hours, values)
         == PointTotal(keys, hours[0], values[0]) + KeyedTotal(keys, hours[1..], values[1..])
  {
    if keys != [] {
      KeyedTotalSplit(keys[1..], hours, values);
    }
  }

  lemma {:induction false} KeyedTotalIsSum(hours: seq<int>, values: seq<real>, keys: seq<int>)
    requires |hours| == |values|
    requires Distinct(keys)
    requires forall i :: 0 <= i < |hours| ==> hours[i] in keys
    ensures KeyedTotal(keys, hours, values) == Sum(values)
  {
    if hours == [] {
      KeyedTotalOfNothing(keys, hours, values);
    } else {
      KeyedTotalSplit(keys, hours, values);
      PointTotalOfDistinct(keys, hours[0], values[0]);
      KeyedTotalIsSum(hours[1..], values[1..], keys);
    }
  }

  lemma {:induction false} KeyedTotalOfNothing(keys: seq<int>, hours: seq<int>, values: seq<real>)
    requires |hours| == |values| && hours == []
    ensures KeyedTotal(keys, hours, values) == 0.0
  {
    if keys != [] {
      KeyedTotalOfNothing(keys[1..], hours, values);
    }
  }
}

/** The derived columns and the battery-charge loop. */
module Battery {
  import opened Numeric
  import opened Frame

  /** Line 77: `(electricity - solar).clip(lower=0)`. */
  function Needed(r: Row): (n: real)
    ensures n >= 0.0 && n >= r.electricity - r.solar
    ensures n == 0.0 || n == r.electricity - r.solar
  {
    Max(r.electricity - r.solar, 0.0)
  }

  /** Line 82: `(solar - electricity).clip(lower=0)`. */
  function Excess(r: Row): (e: real)
    ensures e >= 0.0 && e >= r.solar - r.electricity
    ensures e == 0.0 || e == r.solar - r.electricity
  {
    Max(r.solar - r.electricity, 0.0)
  }

  /** The two clipped columns are never negative, never both positive in the
      same hour, and their difference is the raw difference of the readings. */
  lemma NeededExcessComplementary(r: Row)
    ensures Needed(r) >= 0.0 && Excess(r) >= 0.0
    ensures Needed(r) == 0.0 || Excess(r) == 0.0
    ensures Needed(r) - Excess(r) == r.electricity - r.solar
  {
  }

  /** `data['electricity_needed']`. */
  function NeededColumn(rows: seq<Row>): (col: seq<real>)
    ensures |col| == |rows|
    ensures forall i :: 0 <= i < |rows| ==> col[i] == Needed(rows[i])
    ensures forall i :: 0 <= i < |rows| ==> col[i] >= 0.0 && col[i] >= rows[i].electricity - rows[i].solar
  {
    seq(|rows|, i requires 0 <= i < |rows| => Needed(rows[i]))
  }

  /** `data['excess_solar']`. */
  function ExcessColumn(rows: seq<Row>): (col: seq<real>)
    ensures |col| == |rows|
    ensures forall i :: 0 <= i < |rows| ==> col[i] == Excess(rows[i])
    ensures forall i :: 0 <= i < |rows| ==> col[i] >= 0.0 && col[i] >= rows[i].solar - rows[i].electricity
  {
    seq(|rows|, i requires 0 <= i < |rows| => Excess(rows[i]))
  }

  /** Line 94. */
  const MaxCharge: real := 12.5

  /** Line 98 loops over `range(len('data'))`: the length of the four-letter
      string 'data', not of the frame. */
  const LoopCount: nat := |"data"|

  /** Lines 100-101: charge the previous hour's excess solar up to the
      capacity, then add (not subtract) this hour's demand and floor at zero.
      The result is never negative, never more than the capacity plus the
      demand, and a non-negative demand never lowers the capped charge. */
  function ChargeStep(previous: real, previousExcess: real, needed: real): (b: real)
    ensures b >= 0.0
    ensures b <= Max(MaxCharge + needed, 0.0)
    ensures needed >= 0.0 ==> b >= Min(previous + previousExcess, MaxCharge)
  {
    Max(Min(previous + previousExcess, MaxCharge) + needed, 0.0)
  }

  /** `battery_charge` at row i after a loop over `range(loops)`: row 0 and
      every row the loop does not reach keep the initial 0.0. */
  function Charge(excess: seq<real>, needed: seq<real>, loops: nat, i: nat): (c: real)
    requires |excess| == |needed| && i < |needed|
    ensures c >= 0.0
    ensures i == 0 || i >= loops ==> c == 0.0
  {
    if i == 0 || i >= loops then 0.0
    else ChargeStep(Charge(excess, needed, loops, i - 1), excess[i - 1], needed[i])
  }

  /** The whole `battery_charge` column after the loop: every cell is
      non-negative, cells outside 1 .. loops - 1 keep 0.0, and each written
      cell follows from the cell before it. */
  function ChargeColumn(excess: seq<real>, needed: seq<real>, loops: nat): (col: seq<real>)
    requires |excess| == |needed|
    ensures |col| == |needed|
    ensures forall i :: 0 <= i < |col| ==> col[i] >= 0.0
    ensures forall i :: 0 <= i < |col| && (i == 0 || i >= loops) ==> col[i] == 0.0
    ensures forall i :: 0 < i < |col| && i < loops ==> col[i] == ChargeStep(col[i - 1], excess[i - 1], needed[i])
  {
    seq(|needed|, i requires 0 <= i < |needed| => Charge(excess, needed, loops, i))
  }

  /** Lines 95-101 in place: the column starts at 0.0 and the loop writes rows
      1 .. loops - 1, each from the row before it. `.at[i]` addresses row i
      because the first `loops` rows carry the labels 0 .. loops - 1; the
      frame must have at least `loops` rows (pandas would otherwise enlarge it
      with NaN rows). */
  method SimulateBattery(data: seq<Row>, loops: nat) returns (battery: array<real>)
    requires LeadingLabels(data, loops)
    ensures fresh(battery)
    ensures battery[..] == ChargeColumn(ExcessColumn(data), NeededColumn(data), loops)
  {
    var excess, needed := ExcessColumn(data), NeededColumn(data);
    ghost var spec := ChargeColumn(excess, needed, loops);
    battery := new real[|data|](_ => 0.0);
    for i := 0 to loops
      invariant forall k :: 0 <= k < i ==> battery[k] == spec[k]
      invariant forall k :: i <= k < battery.Length ==> battery[k] == 0.0
    {
      if i > 0 {
        battery[i] := Min(battery[i - 1] + excess[i - 1], MaxCharge);
        battery[i] := Max(battery[i] + needed[i], 0.0);
        assert spec[i] == ChargeStep(spec[i - 1], excess[i - 1], needed[i]);
      }
    }
  }

  /** Only rows 1 .. loops - 1 are written; row 0 and rows from `loops` on keep 0.0.
      With the loop count of the scripts that is rows 1, 2 and 3. */
  lemma OnlyFirstRowsWritten(excess: seq<real>, needed: seq<real>, i: nat)
    requires |excess| == |needed| && i < |needed|
    requires i == 0 || i >= LoopCount
    ensures LoopCount == 4
    ensures ChargeColumn(excess, needed, LoopCount)[i] == 0.0
  {
  }

  /** With clean (non-negative) columns, each written row is at least the
      capped charge of the row before, at most that cap plus this hour's
      demand, and the outer `max(..., 0)` changes nothing. */
  lemma {:induction false} WrittenChargeBounds(excess: seq<real>, needed: seq<real>, loops: nat, i: nat)
    requires |excess| == |needed| && 0 < i < |needed| && i < loops
    requires forall k :: 0 <= k < |needed| ==> excess[k] >= 0.0 && needed[k] >= 0.0
    ensures var capped := Min(Charge(excess, needed, loops, i - 1) + excess[i - 1], MaxCharge);
      && 0.0 <= capped <= Charge(excess, needed, loops, i) <= MaxCharge + needed[i]
      && Charge(excess, needed, loops, i) == capped + needed[i]
  {
  }

  /** Because demand is added, the charge is not bounded by the capacity:
      from the first written row on it can exceed 12.5 kWh. */
  lemma ChargeCanExceedCapacity()
    ensures Charge([10.0, 0.0, 0.0, 0.0], [0.0, 5.0, 0.0, 0.0], LoopCount, 1) == 15.0 > MaxCharge
  {
  }

  /** With the loop count of the scripts a row from 4 on stays 0.0 even when
      the row before it holds charge. */
  lemma LoopStopsAfterRowThree()
    ensures var col := ChargeColumn([1.0, 1.0, 1.0, 1.0, 1.0], [0.0, 0.0, 0.0, 0.0, 0.0], LoopCount);
      col[3] == 3.0 && col[4] == 0.0
  {
  }

  /** With the loop over every row (`range(len(data))`, i.e. loops = |data|)
      each hour after one with excess solar holds charge: no row is skipped. */
  lemma FullLoopChargesEveryRow(excess: seq<real>, needed: seq<real>, i: nat)
    requires |excess| == |needed| && 0 < i < |needed|
    requires excess[i - 1] > 0.0 && needed[i] >= 0.0
    ensures ChargeColumn(excess, needed, |needed|)[i] > 0.0
  {
    var col := ChargeColumn(excess, needed, |needed|);
    assert col[i] == ChargeStep(col[i - 1], excess[i - 1], needed[i]);
  }

  /** The evidently intended recurrence: a loop over every row of the frame
      that discharges the battery by this hour's demand. */
  function IntendedStep(previous: real, previousExcess: real, needed: real): real
  {
    Max(Min(previous + previousExcess, MaxCharge) - needed, 0.0)
  }

  function IntendedCharge(excess: seq<real>, needed: seq<real>, i: nat): real
    requires |excess| == |needed| && i < |needed|
  {
    if i == 0 then 0.0
    else IntendedStep(IntendedCharge(excess, needed, i - 1), excess[i - 1], needed[i])
  }

  function IntendedColumn(excess: seq<real>, needed: seq<real>): (col: seq<real>)
    requires |excess| == |needed|
    ensures |col| == |needed|
  {
    seq(|needed|, i requires 0 <= i < |needed| => IntendedCharge(excess, needed, i))
  }

  /** The intended charge always stays within the battery's capacity. */
  lemma IntendedChargeWithinCapacity(excess: seq<real>, needed: seq<real>, i: nat)
    requires |excess| == |needed| && i < |needed|
    requires forall k :: 0 <= k < |needed| ==> needed[k] >= 0.0
    ensures 0.0 <= IntendedCharge(excess, needed, i) <= MaxCharge
  {
  }

  /** The intended loop, in place over every row. */
  method SimulateBatteryIntended(data: seq<Row>) returns (battery: array<real>)
    requires ContiguousLabels(data)
    ensures fresh(battery)
    ensures battery[..] == IntendedColumn(ExcessColumn(data), NeededColumn(data))
  {
    var excess, needed := ExcessColumn(data), NeededColumn(data);
    ghost var spec := IntendedColumn(excess, needed);
    battery := new real[|data|](_ => 0.0);
    for i := 0 to battery.Length
      invariant forall k :: 0 <= k < i ==> battery[k] == spec[k]
      invariant forall k :: i <= k < battery.Length ==> battery[k] == 0.0
    {
      if i > 0 {
        battery[i] := Min(battery[i - 1] + excess[i - 1], MaxCharge);
        battery[i] := Max(battery[i] - needed[i], 0.0);
        assert spec[i] == IntendedStep(spec[i - 1], excess[i - 1], needed[i]);
      }
    }
  }
}

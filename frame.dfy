/** The hourly table. A pandas DataFrame row is a `Row`: its index label, its
    hour of day and the two energy readings (kWh). Date and other display
    columns are not modelled. A boolean row mask `data[mask]` is `Filter`. */
module Frame {

  datatype Row = Row(index: nat, hour: int, solar: real, electricity: real)

  /** The two numeric columns that the cleaning steps address by name. */
  datatype Column = Solar | Electricity

  function Value(r: Row, c: Column): real
  {
    match c
    case Solar => r.solar
    case Electricity => r.electricity
  }

  /** `row[c] = v` for one row: only the named column changes. */
  function WithValue(r: Row, c: Column, v: real): (r': Row)
    ensures Value(r', c) == v
    ensures r'.index == r.index && r'.hour == r.hour
    ensures forall d :: d != c ==> Value(r', d) == Value(r, d)
  {
    match c
    case Solar => r.(solar := v)
    case Electricity => r.(electricity := v)
  }

  /** `data[c]` as a list of values, in row order. */
  function Values(rows: seq<Row>, c: Column): (vs: seq<real>)
    ensures |vs| == |rows|
    ensures forall i :: 0 <= i < |rows| ==> vs[i] == Value(rows[i], c)
  {
    seq(|rows|, i requires 0 <= i < |rows| => Value(rows[i], c))
  }

  /** The boolean masks the scripts build. */
  datatype Mask =
    | NonNegative                                  // (solar >= 0) & (electricity >= 0)
    | OutsideFences(c: Column, lower: real, upper: real) // (c < lower) | (c > upper)
    | Above(c: Column, cut: real)                  // c > cut

  predicate Keeps(m: Mask, r: Row)
  {
    match m
    case NonNegative => r.solar >= 0.0 && r.electricity >= 0.0
    case OutsideFences(c, lower, upper) => Value(r, c) < lower || Value(r, c) > upper
    case Above(c, cut) => Value(r, c) > cut
  }

  /** `data[mask]`: the rows the mask keeps, in their original order. */
  function Filter(m: Mask, rows: seq<Row>): (kept: seq<Row>)
    ensures |kept| <= |rows|
    ensures forall i :: 0 <= i < |kept| ==> Keeps(m, kept[i])
  {
    if rows == [] then []
    else if Keeps(m, rows[0]) then [rows[0]] + Filter(m, rows[1..])
    else Filter(m, rows[1..])
  }

  /** A row is kept exactly as many times as it occurs, if the mask keeps it. */
  lemma {:induction false} FilterCount(m: Mask, rows: seq<Row>, r: Row)
    ensures multiset(Filter(m, rows))[r] == if Keeps(m, r) then multiset(rows)[r] else 0
  {
    if rows != [] {
      FilterCount(m, rows[1..], r);
      assert rows == [rows[0]] + rows[1..];
    }
  }

  lemma FilterMembership(m: Mask, rows: seq<Row>, r: Row)
    ensures r in Filter(m, rows) <==> r in rows && Keeps(m, r)
  {
    FilterCount(m, rows, r);
    assert r in Filter(m, rows) <==> r in multiset(Filter(m, rows));
    assert r in rows <==> r in multiset(rows);
  }

  /** Filtering a concatenation filters each part and keeps them in order:
      kept rows keep their relative order. */
  lemma {:induction false} FilterConcat(m: Mask, a: seq<Row>, b: seq<Row>)
    ensures Filter(m, a + b) == Filter(m, a) + Filter(m, b)
  {
    if a == [] {
      assert a + b == b;
    } else {
      assert (a + b)[0] == a[0];
      assert (a + b)[1..] == a[1..] + b;
      FilterConcat(m, a[1..], b);
    }
  }

  /** A mask that keeps every row leaves the frame as it is. */
  lemma {:induction false} FilterKeepsAll(m: Mask, rows: seq<Row>)
    requires forall i :: 0 <= i < |rows| ==> Keeps(m, rows[i])
    ensures Filter(m, rows) == rows
  {
    if rows != [] {
      FilterKeepsAll(m, rows[1..]);
    }
  }

  /** Line 27: drop every row with a negative solar or electricity reading. */
  function SignFilter(rows: seq<Row>): (kept: seq<Row>)
    ensures forall i :: 0 <= i < |kept| ==> kept[i].solar >= 0.0 && kept[i].electricity >= 0.0
  {
    Filter(NonNegative, rows)
  }

  /** A row survives the sign filter iff neither of its readings is negative,
      and it survives as often as it occurred. */
  lemma SignFilterKeepsExactly(rows: seq<Row>, r: Row)
    ensures r in SignFilter(rows) <==> r in rows && r.solar >= 0.0 && r.electricity >= 0.0
    ensures multiset(SignFilter(rows))[r] == if r.solar < 0.0 || r.electricity < 0.0 then 0 else multiset(rows)[r]
  {
    FilterMembership(NonNegative, rows, r);
    FilterCount(NonNegative, rows, r);
  }

  /** The sign filter works row by row: surviving rows keep their relative order. */
  lemma SignFilterKeepsOrder(a: seq<Row>, b: seq<Row>)
    ensures SignFilter(a + b) == SignFilter(a) + SignFilter(b)
  {
    FilterConcat(NonNegative, a, b);
  }

  /** The index labels are 0, 1, 2, ... in row order, so `.at[i]` addresses
      the row at position i. */
  ghost predicate ContiguousLabels(rows: seq<Row>)
  {
    forall i :: 0 <= i < |rows| ==> rows[i].index == i
  }

  /** Rows 0 .. n - 1 carry the labels 0 .. n - 1, so `.at[i]` for i < n
      addresses the row at position i. */
  ghost predicate LeadingLabels(rows: seq<Row>, n: nat)
  {
    n <= |rows| && forall i :: 0 <= i < n ==> rows[i].index == i
  }

  /** A freshly loaded frame (labels 0, 1, 2, ...) whose first n rows have no
      negative reading keeps those rows, and their labels, at the front of the
      filtered frame, whatever later rows the filter drops. */
  lemma SignFilterKeepsLeadingLabels(rows: seq<Row>, n: nat)
    requires ContiguousLabels(rows) && n <= |rows|
    requires forall i :: 0 <= i < n ==> rows[i].solar >= 0.0 && rows[i].electricity >= 0.0
    ensures LeadingLabels(SignFilter(rows), n)
    ensures SignFilter(rows)[..n] == rows[..n]
  {
    assert rows == rows[..n] + rows[n..];
    FilterConcat(NonNegative, rows[..n], rows[n..]);
    FilterKeepsAll(NonNegative, rows[..n]);
  }
}

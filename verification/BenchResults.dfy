/** Tier-1 validation and the paired series of `tools/bench_compare.py`: which benchmark result
    files are accepted, and which measurement of each benchmark the gate compares. */
module BenchResults {
  import opened Text

  /** A scalar JSON value; an absent key and null are both NoValue. */
  datatype Val = NoValue | Bool(b: bool) | Int(n: int) | Num(r: real) | NotFinite | Str(s: string)

  /** One entry of `benchmarks`: not an object, or an object with the fields the gate reads. */
  datatype Row =
    | NotObject
    | Row(name: Val, runName: Val, error: Val, aggregate: Val, runType: Val, repetition: Val, timeUnit: Val,
          iterations: Val, cpuTime: Val, realTime: Val)

  /** A results file: unreadable, without a `benchmarks` list, or with one. */
  datatype Leg = Unreadable | NoList | Rows(rows: seq<Row>)

  predicate Truthy(v: Val) {
    match v
    case NoValue => false
    case Bool(b) => b
    case Int(n) => n != 0
    case Num(r) => r != 0.0
    case NotFinite => true
    case Str(s) => s != ""
  }

  /** `_num`: an int or a float, not a bool. */
  predicate IsNumber(v: Val) { v.Int? || v.Num? || v.NotFinite? }

  predicate IsFinite(v: Val) { v.Int? || v.Num? }

  function Number(v: Val): real {
    match v case Int(n) => n as real case Num(r) => r case _ => 0.0
  }

  predicate IsText(v: Val) { v.Str? && v.s != "" }

  // ----------------------------------------------------------------- validation

  predicate IsDispersion(agg: Val) { agg == Str("stddev") || agg == Str("cv") }
  predicate IsDuration(agg: Val) { agg == NoValue || agg == Str("mean") || agg == Str("median") }
  predicate IsComplexity(agg: Val) { agg == Str("BigO") || agg == Str("RMS") }

  /** T1-5: a dispersion or a fitted coefficient may be zero, every other value is a duration. */
  predicate TimeOk(r: Row, t: Val)
    requires r.Row?
  {
    && IsFinite(t)
    && if IsDispersion(r.aggregate) then Number(t) >= 0.0
       else if IsDuration(r.aggregate) || r.runType == Str("iteration") then Number(t) > 0.0
       else if IsComplexity(r.aggregate) then Number(t) >= 0.0
       else Number(t) > 0.0
  }

  predicate UnitOk(u: Val) {
    u == NoValue || u == Str("ns") || u == Str("us") || u == Str("ms") || u == Str("s")
  }

  predicate IterationsOk(v: Val) { v == NoValue || (v.Int? && v.n > 0) }

  /** T1-4, T1-8, T1-7, T1-9 and T1-5 of one row. */
  predicate RowOk(r: Row) {
    && r.Row? && IsText(r.name) && !Truthy(r.error)
    && UnitOk(r.timeUnit) && IterationsOk(r.iterations) && TimeOk(r, r.cpuTime) && TimeOk(r, r.realTime)
  }

  /** Python's equality between numbers and booleans. */
  function Canonical(v: Val): Val {
    match v
    case Bool(b) => Int(if b then 1 else 0)
    case Num(r) => if r.Floor as real == r then Int(r.Floor) else v
    case _ => v
  }

  function Identity(r: Row): (Val, Val, Val, Val)
    requires r.Row?
  {
    (Canonical(r.name), Canonical(r.runType), Canonical(r.aggregate), Canonical(r.repetition))
  }

  /** The benchmark a row belongs to: its `run_name`, or its own name. */
  function Benchmark(r: Row): Val
    requires r.Row?
  {
    if Truthy(r.runName) then r.runName else r.name
  }

  /** The two cross-row checks: T1-6, and one unit per benchmark (T1-7). */
  predicate PairOk(a: Row, b: Row) {
    (a.Row? && b.Row? ==> Identity(a) != Identity(b)) && SameUnit(a, b)
  }

  predicate ValidRows(rows: seq<Row>) {
    && rows != []
    && (forall i | 0 <= i < |rows| :: RowOk(rows[i]))
    && (forall i, j | 0 <= i < j < |rows| :: PairOk(rows[i], rows[j]))
  }

  /** A finite number with its value. */
  ghost predicate Is(v: Val, x: real) { (v.Int? && v.n as real == x) || (v.Num? && v.r == x) }

  /** A row is accepted exactly when it is an object with a name and no error, its unit is absent or
      one of the four, its iterations are absent or a positive integer, and its two times are finite
      and positive; a dispersion may be zero, and so may a fit that is not a single iteration. */
  lemma RowExactly(r: Row)
    ensures RowOk(r) <==>
            && r.Row? && r.name.Str? && |r.name.s| > 0
            && r.error in {NoValue, Bool(false), Int(0), Num(0.0), Str("")}
            && r.timeUnit in {NoValue, Str("ns"), Str("us"), Str("ms"), Str("s")}
            && (r.iterations != NoValue ==> r.iterations.Int? && r.iterations.n >= 1)
            && IsTime(r, r.cpuTime) && IsTime(r, r.realTime)
  {
    hide Truthy, TimeOk, UnitOk, IsTime;
    if r.Row? {
      TruthyExactly(r.error);
      UnitExactly(r.timeUnit);
      TimeExactly(r, r.cpuTime);
      TimeExactly(r, r.realTime);
    }
  }

  /** A finite value that is not negative, and zero only where that is allowed. */
  ghost predicate IsTime(r: Row, t: Val)
    requires r.Row?
  {
    exists x | x >= 0.0 :: Is(t, x) && (x == 0.0 ==> MayBeZero(r))
  }

  predicate MayBeZero(r: Row)
    requires r.Row?
  {
    || r.aggregate in {Str("stddev"), Str("cv")}
    || (r.aggregate in {Str("BigO"), Str("RMS")} && r.runType != Str("iteration"))
  }

  lemma TimeExactly(r: Row, t: Val)
    requires r.Row?
    ensures TimeOk(r, t) <==> IsTime(r, t)
  {
    if IsFinite(t) { assert Is(t, Number(t)); }
  }

  lemma TruthyExactly(v: Val)
    ensures !Truthy(v) <==> v in {NoValue, Bool(false), Int(0), Num(0.0), Str("")}
  {
  }

  lemma UnitExactly(u: Val)
    ensures UnitOk(u) <==> u in {NoValue, Str("ns"), Str("us"), Str("ms"), Str("s")}
  {
  }

  /** The number a value is to Python: a boolean is one too. */
  function Numeric(v: Val): Option<real> {
    match v
    case Bool(b) => Some(if b then 1.0 else 0.0)
    case Int(n) => Some(n as real)
    case Num(x) => Some(x)
    case _ => None
  }

  /** Two values are one key of a set exactly when they are equal, or equal as numbers. */
  lemma CanonicalExactly(a: Val, b: Val)
    ensures Canonical(a) == Canonical(b) <==> a == b || (Numeric(a).Some? && Numeric(a) == Numeric(b))
  {
    CanonicalNumber(a);
    CanonicalNumber(b);
  }

  lemma CanonicalNumber(v: Val)
    ensures Numeric(Canonical(v)) == Numeric(v)
    ensures Canonical(v).Num? ==> Canonical(v).r.Floor as real != Canonical(v).r
  {
  }

  /** The checks of one row. */
  method CheckRow(row: Row) returns (findings: nat)
    ensures findings == 0 <==> RowOk(row)
  {
    if !row.Row? || !IsText(row.name) || Truthy(row.error) { return 1; }
    findings := 0;
    if row.timeUnit != NoValue && !UnitOk(row.timeUnit) { findings := findings + 1; }
    if !IterationsOk(row.iterations) { findings := findings + 1; }
    if !TimeOk(row, row.cpuTime) { findings := findings + 1; }
    if !TimeOk(row, row.realTime) { findings := findings + 1; }
  }

  /** `validate_results`: how many findings there are. */
  method ValidateResults(leg: Leg) returns (findings: nat)
    requires !leg.Unreadable?
    ensures findings == 0 <==> leg.Rows? && ValidRows(leg.rows)
  {
    if leg.NoList? || leg.rows == [] { return 1; }
    hide Canonical, Benchmark, Truthy, TimeOk, UnitOk, IterationsOk;
    var rows := leg.rows;
    findings := 0;
    var seen: set<(Val, Val, Val, Val)>, units: set<(Val, Val)> := {}, {};
    for i := 0 to |rows|
      invariant findings == 0 ==> seen == set k | 0 <= k < i && rows[k].Row? :: Identity(rows[k])
      invariant findings == 0 ==> units == Units(rows, i)
      invariant findings == 0 <==>
                  && (forall k | 0 <= k < i :: RowOk(rows[k]))
                  && (forall j, k | 0 <= j < k < i :: Identity(rows[j]) != Identity(rows[k]))
    {
      var row := rows[i];
      var found := CheckRow(row);
      findings := findings + found;
      if !row.Row? || !IsText(row.name) || Truthy(row.error) { continue; }
      if Identity(row) in seen { findings := findings + 1; }
      seen := seen + {Identity(row)};
      if row.timeUnit != NoValue { units := units + {(Benchmark(row), row.timeUnit)}; }
    }
    if findings == 0 { UnitsClash(rows); }
    if exists u, v | u in units && v in units :: u.0 == v.0 && u.1 != v.1 { findings := findings + 1; }
  }

  function Units(rows: seq<Row>, n: nat): set<(Val, Val)>
    requires n <= |rows|
  {
    set k | 0 <= k < n && rows[k].Row? && rows[k].timeUnit != NoValue :: (Benchmark(rows[k]), rows[k].timeUnit)
  }

  predicate SameUnit(a: Row, b: Row) {
    a.Row? && b.Row? && Benchmark(a) == Benchmark(b) && a.timeUnit != NoValue && b.timeUnit != NoValue ==> a.timeUnit == b.timeUnit
  }

  /** Two units under one name are two rows of one benchmark with different units. */
  lemma {:induction false} UnitsClash(rows: seq<Row>)
    ensures var units := Units(rows, |rows|);
            (exists u, v | u in units && v in units :: u.0 == v.0 && u.1 != v.1) <==>
            !(forall j, k | 0 <= j < k < |rows| :: SameUnit(rows[j], rows[k]))
  {
    hide Benchmark;
    var units := Units(rows, |rows|);
    forall j, k | 0 <= j < k < |rows| && !SameUnit(rows[j], rows[k])
      ensures exists u, v | u in units && v in units :: u.0 == v.0 && u.1 != v.1
    {
      var u, v := (Benchmark(rows[j]), rows[j].timeUnit), (Benchmark(rows[k]), rows[k].timeUnit);
      assert u in units && v in units;
    }
    if exists u, v | u in units && v in units :: u.0 == v.0 && u.1 != v.1 {
      var u, v :| u in units && v in units && u.0 == v.0 && u.1 != v.1;
      var j :| 0 <= j < |rows| && rows[j].Row? && rows[j].timeUnit != NoValue && u == (Benchmark(rows[j]), rows[j].timeUnit);
      var k :| 0 <= k < |rows| && rows[k].Row? && rows[k].timeUnit != NoValue && v == (Benchmark(rows[k]), rows[k].timeUnit);
      if j < k {
        assert !SameUnit(rows[j], rows[k]);
      } else {
        assert !SameUnit(rows[k], rows[j]);
      }
    }
  }

  // -------------------------------------------------------------- paired series

  /** A row that is evidence that its benchmark ran. */
  predicate Groups(r: Row) {
    r.Row? && !Truthy(r.error) && (r.aggregate != NoValue || r.runType == Str("iteration")) && IsText(Benchmark(r))
  }

  predicate IsMedian(r: Row) { r.Row? && r.aggregate == Str("median") && IsNumber(r.cpuTime) }

  /** The benchmarks a leg reports, under their logical names. */
  function Names(rows: seq<Row>): set<string> {
    set k | 0 <= k < |rows| && Groups(rows[k]) :: Benchmark(rows[k]).s
  }

  predicate IsMedianOf(r: Row, name: string) { Groups(r) && IsMedian(r) && Benchmark(r) == Str(name) }

  /** The usable medians of one benchmark among the rows. */
  function Medians(rows: seq<Row>, name: string): seq<Row> {
    if rows == [] then []
    else
      var n := |rows| - 1;
      Medians(rows[..n], name) + if IsMedianOf(rows[n], name) then [rows[n]] else []
  }

  predicate SeriesOk(rows: seq<Row>) {
    forall name | name in Names(rows) :: |Medians(rows, name)| == 1
  }

  datatype Point = Point(value: real, timeUnit: Val)

  /** One median per reported benchmark. */
  function Series(rows: seq<Row>): (s: map<string, Point>)
    requires SeriesOk(rows)
    ensures s.Keys == Names(rows)
  {
    map name | name in Names(rows) :: PointOf(Medians(rows, name)[0])
  }

  /** The grouping loop of `paired_series`. */
  method GroupRows(rows: seq<Row>) returns (groups: map<string, seq<Row>>)
    ensures groups.Keys == Names(rows)
    ensures forall name | name in groups :: MediansIn(groups[name]) == Medians(rows, name)
  {
    hide Groups, IsMedian, Benchmark;
    groups := map[];
    for i := 0 to |rows|
      invariant groups.Keys == Names(rows[..i])
      invariant forall name | name in groups :: MediansIn(groups[name]) == Medians(rows[..i], name)
    {
      var row := rows[i];
      var next := rows[..i + 1];
      assert next[..i] == rows[..i] && next[i] == row;
      NamesSnoc(next);
      if !Groups(row) { continue; }
      GroupsHasName(row);
      var lname := Benchmark(row).s;
      if lname !in groups { NoMedians(rows[..i], lname); }
      var group := if lname in groups then groups[lname] else [];
      assert (group + [row])[..|group|] == group;
      groups := groups[lname := group + [row]];
    }
    assert rows[..|rows|] == rows;
  }

  lemma GroupsHasName(r: Row)
    requires Groups(r)
    ensures r.Row? && Benchmark(r).Str?
  {
  }

  /** `paired_series`: the series, or None when some benchmark has no single median. */
  method PairedSeries(rows: seq<Row>) returns (r: Option<map<string, Point>>)
    ensures r.Some? <==> SeriesOk(rows)
    ensures r.Some? ==> r.value == Series(rows)
  {
    hide Names, Medians, MediansIn;
    var groups := GroupRows(rows);
    var series: map<string, Point>, left, ok := map[], groups.Keys, true;
    while left != {}
      invariant left <= groups.Keys && series.Keys <= groups.Keys
      invariant ok ==> series.Keys == groups.Keys - left
      invariant ok ==> forall name | name in groups.Keys - left :: |Medians(rows, name)| == 1
      invariant !ok ==> exists name | name in groups.Keys :: |Medians(rows, name)| != 1
      invariant ok ==> forall name | name in series :: series[name] == PointOf(Medians(rows, name)[0])
    {
      var lname :| lname in left;
      var med := MediansIn(groups[lname]);
      if |med| != 1 {
        ok := false;
      } else {
        series := series[lname := PointOf(med[0])];
      }
      left := left - {lname};
    }
    return if ok then Some(series) else None;
  }

  function PointOf(r: Row): Point {
    Point(if r.Row? then Number(r.cpuTime) else 0.0, if r.Row? then r.timeUnit else NoValue)
  }

  /** The medians of a group. */
  function MediansIn(group: seq<Row>): seq<Row> {
    if group == [] then []
    else
      var n := |group| - 1;
      MediansIn(group[..n]) + if IsMedian(group[n]) then [group[n]] else []
  }

  lemma NamesSnoc(rows: seq<Row>)
    requires rows != []
    ensures var n := |rows| - 1;
            Names(rows) == Names(rows[..n]) + if Groups(rows[n]) then {Benchmark(rows[n]).s} else {}
  {
  }

  lemma {:induction false} NoMedians(rows: seq<Row>, name: string)
    requires name !in Names(rows)
    ensures Medians(rows, name) == []
  {
    if rows != [] {
      NamesSnoc(rows);
      NoMedians(rows[..|rows| - 1], name);
    }
  }

  lemma {:induction false} MedianIsRow(rows: seq<Row>, name: string)
    requires Medians(rows, name) != []
    ensures var m := Medians(rows, name)[0]; IsMedianOf(m, name) && m in rows
  {
    var n := |rows| - 1;
    if Medians(rows[..n], name) != [] { MedianIsRow(rows[..n], name); }
  }

  /** On a validated leg every compared value is a positive finite duration. */
  lemma SeriesPositive(rows: seq<Row>)
    requires ValidRows(rows) && SeriesOk(rows)
    ensures forall name | name in Series(rows) :: Series(rows)[name].value > 0.0
  {
    forall name | name in Series(rows) ensures Series(rows)[name].value > 0.0 {
      MedianIsRow(rows, name);
      var m := Medians(rows, name)[0];
      var k :| 0 <= k < |rows| && rows[k] == m;
      assert RowOk(rows[k]);
    }
  }
}

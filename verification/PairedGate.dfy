/** The paired gate of `tools/bench_compare.py`: `read_manifest`, `check_paired_not_narrowed`
    and `run_paired`, and what its exit status 0 says about the measurements. */
module PairedGate {
  import opened Basics
  import opened Text
  import opened BenchResults

  // ------------------------------------------------------------------- manifest

  /** A manifest row: the executable's base name, and whether it is `paired`. */
  datatype Entry = Entry(name: string, paired: bool)

  /** A manifest line split at white space; blank lines and comments are Skip. */
  datatype Line = Skip | Fields(parts: seq<string>)

  function BaseName(path: string): string {
    if path == "" then ""
    else
      var n := |path| - 1;
      if path[n] == '/' then "" else BaseName(path[..n]) + [path[n]]
  }

  /** An entry, or None when the line is refused. */
  function EntryOf(parts: seq<string>): Option<Entry> {
    if |parts| != 3 then None
    else if parts[2] != "paired" && parts[2] != "no" then None
    else if !("gb-json:" <= parts[1]) && !("none:" <= parts[1]) then None
    else Some(Entry(BaseName(parts[0]), parts[2] == "paired"))
  }

  /** The entries of the first `n` lines, None when one is refused. */
  function Entries(lines: seq<Line>, n: nat): Option<seq<Entry>>
    requires n <= |lines|
  {
    if n == 0 then Some([])
    else
      match Entries(lines, n - 1)
      case None => None
      case Some(es) =>
        match lines[n - 1]
        case Skip => Some(es)
        case Fields(parts) => if EntryOf(parts).None? then None else Some(es + [EntryOf(parts).value])
  }

  predicate Distinct(es: seq<Entry>) {
    forall i, j | 0 <= i < j < |es| :: es[i].name != es[j].name
  }

  /** What `read_manifest` returns; None stands for its refusals. */
  function Manifest(lines: seq<Line>): Option<seq<Entry>> {
    match Entries(lines, |lines|)
    case None => None
    case Some(es) => if es != [] && Distinct(es) then Some(es) else None
  }

  /** `read_manifest`. */
  method ReadManifest(lines: seq<Line>) returns (r: Option<seq<Entry>>)
    ensures r == Manifest(lines)
  {
    hide EntryOf;
    var rows: seq<Entry> := [];
    for i := 0 to |lines|
      invariant Entries(lines, i) == Some(rows)
    {
      match lines[i]
      case Skip =>
      case Fields(parts) =>
        var e := EntryOf(parts);
        if e.None? {
          RefusedLine(lines, i + 1);
          return None;
        }
        rows := rows + [e.value];
    }
    var seen: set<string> := {};
    for i := 0 to |rows|
      invariant seen == set k | 0 <= k < i :: rows[k].name
      invariant forall j, k | 0 <= j < k < i :: rows[j].name != rows[k].name
    {
      if rows[i].name in seen { return None; }
      seen := seen + {rows[i].name};
    }
    return if rows == [] then None else Some(rows);
  }

  lemma {:induction false} RefusedLine(lines: seq<Line>, n: nat)
    requires n <= |lines| && Entries(lines, n).None?
    ensures Entries(lines, |lines|).None?
    decreases |lines| - n
  {
    if n < |lines| { RefusedLine(lines, n + 1); }
  }

  /** The part of a path after its last slash. */
  lemma {:induction false} BaseNameIs(path: string) returns (dir: string)
    ensures path == dir + BaseName(path) && '/' !in BaseName(path) && (dir == "" || dir[|dir| - 1] == '/')
  {
    dir := path;
    if path != "" && path[|path| - 1] != '/' {
      var n := |path| - 1;
      dir := BaseNameIs(path[..n]);
      assert path == path[..n] + [path[n]];
    }
  }

  /** The manifest line `n` is the row `e`. */
  predicate IsRow(line: Line, e: Entry) {
    && line.Fields? && |line.parts| == 3 && e.name == BaseName(line.parts[0])
    && ("gb-json:" <= line.parts[1] || "none:" <= line.parts[1])
    && (if e.paired then line.parts[2] == "paired" else line.parts[2] == "no")
  }

  /** The rows of a manifest: one for each line that is not skipped, in the order of the lines. */
  ghost predicate AreRows(lines: seq<Line>, es: seq<Entry>, at: seq<nat>) {
    && |at| == |es|
    && (forall i | 0 <= i < |at| :: at[i] < |lines| && IsRow(lines[at[i]], es[i]))
    && (forall i, j | 0 <= i < j < |at| :: at[i] < at[j])
    && (forall n: nat | n < |lines| && lines[n].Fields? :: n in at)
  }

  lemma RowIs(line: Line, e: Entry)
    ensures line.Fields? && EntryOf(line.parts) == Some(e) <==> IsRow(line, e)
  {
    hide BaseName;
  }

  lemma {:induction false} EntriesAreRows(lines: seq<Line>, n: nat) returns (at: seq<nat>)
    requires n <= |lines| && Entries(lines, n).Some?
    ensures AreRows(lines[..n], Entries(lines, n).value, at)
    decreases n
  {
    hide EntryOf, IsRow;
    at := [];
    if n > 0 {
      var before := EntriesAreRows(lines, n - 1);
      assert forall k | 0 <= k < n - 1 :: lines[..n - 1][k] == lines[..n][k];
      if lines[n - 1].Skip? {
        at := before;
      } else {
        at := before + [n - 1];
        RowIs(lines[n - 1], EntryOf(lines[n - 1].parts).value);
      }
    }
  }

  lemma {:induction false} RowsAreEntries(lines: seq<Line>, n: nat, es: seq<Entry>, at: seq<nat>)
    requires n <= |lines| && AreRows(lines[..n], es, at)
    ensures Entries(lines, n) == Some(es)
    decreases n
  {
    hide EntryOf, IsRow;
    if n > 0 {
      assert forall k | 0 <= k < n - 1 :: lines[..n - 1][k] == lines[..n][k];
      assert lines[..n][n - 1] == lines[n - 1];
      if lines[n - 1].Skip? {
        NoSkippedRow(lines[..n], es, at);
        RowsAreEntries(lines, n - 1, es, at);
      } else {
        var m := LastRow(lines, n, es, at);
        RowIs(lines[n - 1], es[m]);
        RowsAreEntries(lines, n - 1, es[..m], at[..m]);
        assert es == es[..m] + [es[m]];
      }
    } else {
      NoRows(es, at);
      assert lines[..n] == [];
    }
  }

  lemma LastRow(lines: seq<Line>, n: nat, es: seq<Entry>, at: seq<nat>) returns (m: nat)
    requires 0 < n <= |lines| && AreRows(lines[..n], es, at) && lines[n - 1].Fields?
    ensures |es| == |at| == m + 1 && IsRow(lines[n - 1], es[m]) && AreRows(lines[..n - 1], es[..m], at[..m])
  {
    hide IsRow;
    assert lines[..n][n - 1] == lines[n - 1];
    var last :| 0 <= last < |at| && at[last] == n - 1;
    m := last;
    assert m == |at| - 1;
    forall k: nat | k < n - 1 && lines[..n - 1][k].Fields? ensures k in at[..m] {
      assert lines[..n][k].Fields?;
      var i :| 0 <= i < |at| && at[i] == k;
      assert at[..m][i] == k;
    }
    assert forall k | 0 <= k < n - 1 :: lines[..n - 1][k] == lines[..n][k];
  }

  lemma NoRows(es: seq<Entry>, at: seq<nat>)
    ensures AreRows([], es, at) ==> es == []
  {
    if at != [] {
      var first := at[0];
      assert first >= 0;
    }
  }

  lemma NoSkippedRow(lines: seq<Line>, es: seq<Entry>, at: seq<nat>)
    requires AreRows(lines, es, at) && lines != [] && lines[|lines| - 1].Skip?
    ensures forall i | 0 <= i < |at| :: at[i] < |lines| - 1
  {
  }

  /** A manifest is read exactly when every line that is not skipped is a row, there is one, and no
      two have one base name; and then it has those rows in order. */
  lemma ManifestExactly(lines: seq<Line>, es: seq<Entry>)
    ensures Manifest(lines) == Some(es) <==>
            && (exists at :: AreRows(lines, es, at)) && es != []
            && forall i, j | 0 <= i < j < |es| :: es[i].name != es[j].name
  {
    hide AreRows, Entries;
    assert lines[..|lines|] == lines;
    if Entries(lines, |lines|) == Some(es) { var at := EntriesAreRows(lines, |lines|); }
    if at :| AreRows(lines, es, at) { RowsAreEntries(lines, |lines|, es, at); }
  }

  function PairedNames(es: seq<Entry>): set<string> { set e | e in es && e.paired :: e.name }
  function AllNames(es: seq<Entry>): set<string> { set e | e in es :: e.name }

  // -------------------------------------------------------------- one binary

  /** The four results files of one binary, in the order they were measured. */
  datatype Legs = Legs(a1: Leg, b1: Leg, a2: Leg, b2: Leg)

  predicate LegOk(leg: Leg) { leg.Rows? && ValidRows(leg.rows) && SeriesOk(leg.rows) }

  predicate LegsOk(l: Legs) { LegOk(l.a1) && LegOk(l.b1) && LegOk(l.a2) && LegOk(l.b2) }

  function SeriesOf(leg: Leg): map<string, Point>
    requires LegOk(leg)
  {
    Series(leg.rows)
  }

  /** The integrity findings before any value is compared. */
  predicate SetsOk(l: Legs)
    requires LegsOk(l)
  {
    && SeriesOf(l.a1).Keys == SeriesOf(l.a2).Keys && SeriesOf(l.b1).Keys == SeriesOf(l.b2).Keys
    && SeriesOf(l.b1).Keys <= SeriesOf(l.a1).Keys
    && SeriesOf(l.b1).Keys != {}
  }

  /** The four measurements of one benchmark. */
  datatype Quad = Quad(a1: Point, b1: Point, a2: Point, b2: Point)

  predicate Positive(q: Quad) {
    q.a1.value > 0.0 && q.b1.value > 0.0 && q.a2.value > 0.0 && q.b2.value > 0.0
  }

  predicate OneUnit(q: Quad) {
    q.a1.timeUnit == q.b1.timeUnit == q.a2.timeUnit == q.b2.timeUnit
  }

  function Min(x: real, y: real): real { if x <= y then x else y }

  /** How far two measurements of one tree are apart, in percent of their mean. */
  function Noise(x: real, y: real): real
    requires x > 0.0 && y > 0.0
  {
    Abs(y - x) / ((x + y) / 2.0) * 100.0
  }

  predicate Noisy(q: Quad, noiseBand: real)
    requires Positive(q)
  {
    Noise(q.a1.value, q.a2.value) > noiseBand || Noise(q.b1.value, q.b2.value) > noiseBand
  }

  /** Candidate against base, the faster measurement of each. */
  function Delta(q: Quad): real
    requires Positive(q)
  {
    var cand, base := Min(q.a1.value, q.a2.value), Min(q.b1.value, q.b2.value);
    (cand - base) / base * 100.0
  }

  function QuadOf(l: Legs, name: string): Quad
    requires LegsOk(l) && SetsOk(l) && name in SeriesOf(l.b1)
  {
    Quad(SeriesOf(l.a1)[name], SeriesOf(l.b1)[name], SeriesOf(l.a2)[name], SeriesOf(l.b2)[name])
  }

  /** What one binary contributes to the three lists and the count. */
  datatype Tally = Tally(hard: nat, uninformative: nat, regressions: nat, compared: nat)

  /** Every benchmark of the base: one unit, quiet, and not slower than the band allows. */
  predicate BinaryPasses(l: Legs, band: real, noiseBand: real) {
    && LegsOk(l) && SetsOk(l)
    && forall name | name in SeriesOf(l.b1) :: QuadPasses(QuadOf(l, name), band, noiseBand)
  }

  predicate QuadPasses(q: Quad, band: real, noiseBand: real) {
    Positive(q) && OneUnit(q) && !Noisy(q, noiseBand) && Delta(q) <= band
  }

  /** A finding that a second measurement could clear: only noise. */
  predicate OnlyNoise(l: Legs, band: real, noiseBand: real) {
    && LegsOk(l) && SetsOk(l)
    && forall name | name in SeriesOf(l.b1) :: QuadNoFault(QuadOf(l, name), band, noiseBand)
  }

  predicate QuadNoFault(q: Quad, band: real, noiseBand: real) {
    Positive(q) && OneUnit(q) && (Noisy(q, noiseBand) || Delta(q) <= band)
  }

  /** One leg of one binary: its series, or None with a finding. */
  method LoadLeg(leg: Leg) returns (r: Option<map<string, Point>>)
    ensures r.Some? <==> LegOk(leg)
    ensures r.Some? ==> r.value == SeriesOf(leg)
  {
    hide ValidRows, SeriesOk, Series;
    if leg.Unreadable? { return None; }
    var findings := ValidateResults(leg);
    if findings > 0 { return None; }
    r := PairedSeries(leg.rows);
  }

  /** The measurements of one benchmark in the four series. */
  function QuadIn(a1: map<string, Point>, b1: map<string, Point>, a2: map<string, Point>, b2: map<string, Point>,
                  name: string): Quad
    requires name in a1 && name in b1 && name in a2 && name in b2
  {
    Quad(a1[name], b1[name], a2[name], b2[name])
  }

  /** The comparison loop over the names all four legs share. */
  method CompareShared(a1: map<string, Point>, b1: map<string, Point>, a2: map<string, Point>, b2: map<string, Point>,
                       shared: set<string>, band: real, noiseBand: real) returns (t: Tally)
    requires shared <= a1.Keys && shared <= b1.Keys && shared <= a2.Keys && shared <= b2.Keys
    requires forall name | name in shared :: Positive(QuadIn(a1, b1, a2, b2, name))
    ensures t.hard == t.uninformative == t.regressions == 0 <==>
            forall name | name in shared :: QuadPasses(QuadIn(a1, b1, a2, b2, name), band, noiseBand)
    ensures t.hard == t.regressions == 0 <==>
            forall name | name in shared :: QuadNoFault(QuadIn(a1, b1, a2, b2, name), band, noiseBand)
    ensures t.hard == 0 && shared != {} ==> t.compared > 0
  {
    hide Positive, OneUnit, Noisy, Delta;
    t := Tally(0, 0, 0, 0);
    var left := shared;
    while left != {}
      invariant left <= shared
      invariant t.hard == t.uninformative == t.regressions == 0 <==>
                forall name | name in shared - left :: QuadPasses(QuadIn(a1, b1, a2, b2, name), band, noiseBand)
      invariant t.hard == t.regressions == 0 <==>
                forall name | name in shared - left :: QuadNoFault(QuadIn(a1, b1, a2, b2, name), band, noiseBand)
      invariant t.hard == 0 && left != shared ==> t.compared > 0
    {
      var name :| name in left;
      var q := QuadIn(a1, b1, a2, b2, name);
      assert shared - (left - {name}) == (shared - left) + {name};
      if !OneUnit(q) {
        t := t.(hard := t.hard + 1);
      } else {
        t := t.(compared := t.compared + 1);
        if Noisy(q, noiseBand) {
          t := t.(uninformative := t.uninformative + 1);
        } else if Delta(q) > band {
          t := t.(regressions := t.regressions + 1);
        }
      }
      left := left - {name};
    }
  }

  /** The body of the binary loop of `run_paired`. */
  method CompareBinary(l: Legs, band: real, noiseBand: real) returns (t: Tally)
    ensures t.hard == t.uninformative == t.regressions == 0 <==> BinaryPasses(l, band, noiseBand)
    ensures t.hard == t.regressions == 0 <==> OnlyNoise(l, band, noiseBand)
    ensures t.hard == 0 ==> t.compared > 0
  {
    hide LegOk, QuadPasses, QuadNoFault, SeriesOf;
    t := Tally(1, 0, 0, 0);
    var a1 := LoadLeg(l.a1);
    var b1 := LoadLeg(l.b1);
    var a2 := LoadLeg(l.a2);
    var b2 := LoadLeg(l.b2);
    if a1.None? || b1.None? || a2.None? || b2.None? { return; }
    if a1.value.Keys != a2.value.Keys || b1.value.Keys != b2.value.Keys { return; }
    var baseNames := b1.value.Keys * b2.value.Keys;
    var candNames := a1.value.Keys * a2.value.Keys;
    var shared := baseNames * candNames;
    if shared == {} { return; }
    forall name | name in shared ensures Positive(QuadIn(a1.value, b1.value, a2.value, b2.value, name)) {
      SharedPositive(l, name);
    }
    t := CompareShared(a1.value, b1.value, a2.value, b2.value, shared, band, noiseBand);
    if !(baseNames <= candNames) { t := t.(hard := t.hard + 1); }
    if baseNames <= candNames {
      assert shared == b1.value.Keys;
      forall name | name in shared ensures QuadIn(a1.value, b1.value, a2.value, b2.value, name) == QuadOf(l, name) {
      }
    }
  }

  lemma SharedPositive(l: Legs, name: string)
    requires LegsOk(l)
    requires name in SeriesOf(l.a1) && name in SeriesOf(l.b1) && name in SeriesOf(l.a2) && name in SeriesOf(l.b2)
    ensures Positive(QuadIn(SeriesOf(l.a1), SeriesOf(l.b1), SeriesOf(l.a2), SeriesOf(l.b2), name))
  {
    hide ValidRows, SeriesOk, Series;
    SeriesPositive(l.a1.rows);
    SeriesPositive(l.b1.rows);
    SeriesPositive(l.a2.rows);
    SeriesPositive(l.b2.rows);
  }

  // ------------------------------------------------------------------- the gate

  /** `--base-manifest`: not given, the manifest itself, a path with nothing there (inside a
      checkout or not), a directory, or a file. */
  datatype Base = NotGiven | SameFile | Absent(inCheckout: bool) | Directory | File(lines: seq<Line>)

  datatype Input = Input(manifest: seq<Line>, base: Base, baseRun: Option<seq<Line>>, legs: string -> Legs,
                         band: real, noiseBand: real)

  function Candidate(x: Input): set<string>
    requires Manifest(x.manifest).Some?
  {
    PairedNames(Manifest(x.manifest).value)
  }

  /** The binaries paired at the merge-base, as far as a base manifest says. */
  function BasePaired(x: Input): set<string>
    requires x.base.File? ==> Manifest(x.base.lines).Some?
  {
    if x.base.File? then PairedNames(Manifest(x.base.lines).value) else {}
  }

  /** `check_paired_not_narrowed` finds nothing. */
  predicate NotNarrowed(x: Input)
    requires Manifest(x.manifest).Some?
  {
    match x.base
    case NotGiven => true
    case SameFile => false
    case Absent(inCheckout) => inCheckout
    case Directory => false
    case File(lines) => Manifest(lines).Some? && BasePaired(x) <= Candidate(x)
  }

  /** The binaries compared: those of the base-run manifest, when one is given. */
  function Compared(x: Input): set<string>
    requires Manifest(x.manifest).Some?
    requires x.baseRun.Some? ==> Manifest(x.baseRun.value).Some?
  {
    if x.baseRun.None? then Candidate(x) else Candidate(x) * AllNames(Manifest(x.baseRun.value).value)
  }

  /** The three checks of a base-run manifest. */
  predicate BaseRunOk(x: Input)
    requires Manifest(x.manifest).Some?
    requires x.base.File? ==> Manifest(x.base.lines).Some?
  {
    x.baseRun.Some? ==>
      && Manifest(x.baseRun.value).Some?
      && var run := AllNames(Manifest(x.baseRun.value).value);
         var excluded := Candidate(x) - run;
         && run <= Candidate(x)
         && (BasePaired(x) != {} ==> excluded <= Candidate(x) - BasePaired(x))
         && (!x.base.File? ==> excluded == {})
  }

  /** Everything `run_paired` asks of its manifests. */
  predicate ManifestsOk(x: Input) {
    && Manifest(x.manifest).Some?
    && (x.base.File? ==> Manifest(x.base.lines).Some?)
    && BaseRunOk(x) && NotNarrowed(x) && Compared(x) != {}
  }

  predicate GatePasses(x: Input) {
    ManifestsOk(x) && forall name | name in Compared(x) :: BinaryPasses(x.legs(name), x.band, x.noiseBand)
  }

  predicate GateNoisy(x: Input) {
    && ManifestsOk(x) && (forall name | name in Compared(x) :: OnlyNoise(x.legs(name), x.band, x.noiseBand))
    && !GatePasses(x)
  }

  /** The manifest half of `run_paired`: the binaries to compare, or None for an early exit. */
  method ChooseRows(x: Input) returns (r: Option<set<string>>, narrowed: bool)
    ensures r.Some? && !narrowed <==> ManifestsOk(x)
    ensures r.Some? ==> Manifest(x.manifest).Some? && (x.baseRun.Some? ==> Manifest(x.baseRun.value).Some?)
    ensures r.Some? ==> r.value == Compared(x) && r.value != {}
  {
    hide Manifest, PairedNames, AllNames;
    narrowed := false;
    var all := ReadManifest(x.manifest);
    if all.None? { return None, true; }
    var cand := PairedNames(all.value);
    var basePaired: set<string> := {};
    match x.base {
      case NotGiven =>
      case SameFile => narrowed := true;
      case Absent(inCheckout) => narrowed := !inCheckout;
      case Directory => narrowed := true;
      case File(lines) =>
        var base := ReadManifest(lines);
        if base.None? { return None, true; }
        basePaired := PairedNames(base.value);
        narrowed := !(basePaired <= cand);
    }
    var rows := cand;
    if x.baseRun.Some? {
      var run := ReadManifest(x.baseRun.value);
      if run.None? { return None, narrowed; }
      var names := AllNames(run.value);
      var excluded := cand - names;
      rows := cand * names;
      if !(names <= cand) { return None, narrowed; }
      if basePaired != {} && !(excluded <= cand - basePaired) { return None, narrowed; }
      if !x.base.File? && excluded != {} { return None, narrowed; }
    }
    if rows == {} { return None, narrowed; }
    r := Some(rows);
  }

  /** `run_paired`: 0 passes, 2 is noise alone, 1 is everything else. */
  method RunPaired(x: Input) returns (code: nat)
    ensures code <= 2
    ensures code == 0 <==> GatePasses(x)
    ensures code == 2 <==> GateNoisy(x)
  {
    hide BinaryPasses, OnlyNoise, Compared, Manifest;
    var rows, narrowed := ChooseRows(x);
    if rows.None? { return 1; }
    var t := Tally(if narrowed then 1 else 0, 0, 0, 0);
    var left := rows.value;
    while left != {}
      invariant left <= rows.value
      invariant t.hard == t.uninformative == t.regressions == 0 <==>
                !narrowed && forall name | name in rows.value - left :: BinaryPasses(x.legs(name), x.band, x.noiseBand)
      invariant t.hard == t.regressions == 0 <==>
                !narrowed && forall name | name in rows.value - left :: OnlyNoise(x.legs(name), x.band, x.noiseBand)
      invariant t.hard == 0 && left != rows.value ==> t.compared > 0
    {
      var name :| name in left;
      var one := CompareBinary(x.legs(name), x.band, x.noiseBand);
      assert rows.value - (left - {name}) == (rows.value - left) + {name};
      t := Tally(t.hard + one.hard, t.uninformative + one.uninformative, t.regressions + one.regressions,
                 t.compared + one.compared);
      left := left - {name};
    }
    assert rows.value - left == rows.value;
    if t.hard > 0 || t.regressions > 0 { return 1; }
    if t.uninformative > 0 { return 2; }
    if t.compared == 0 { return 1; }
    return 0;
  }

  // ------------------------------------------------------------------- theorems

  /** Nothing paired at the merge-base is left out of a passing gate. */
  lemma BaseIsCompared(x: Input, name: string)
    requires GatePasses(x) && x.base.File? && name in BasePaired(x)
    ensures BinaryPasses(x.legs(name), x.band, x.noiseBand)
  {
    hide Manifest, BinaryPasses;
  }

  /** A binary paired in the manifest is left out of a passing gate only when a base manifest
      shows that it is new. */
  lemma OnlyNewIsExcluded(x: Input, e: Entry)
    requires ManifestsOk(x) && e in Manifest(x.manifest).value && e.paired && e.name !in Compared(x)
    ensures x.baseRun.Some? && x.base.File?
    ensures forall b | b in Manifest(x.base.lines).value && b.paired :: b.name != e.name
    ensures forall r | r in Manifest(x.baseRun.value).value :: r.name != e.name
  {
    hide Manifest;
    assert e.name in Candidate(x);
    assert x.baseRun.Some?;
    var run := AllNames(Manifest(x.baseRun.value).value);
    assert e.name in Candidate(x) - run;
    if x.base.File? { assert forall b | b in Manifest(x.base.lines).value && b.paired :: b.name in BasePaired(x); }
  }

  /** And nothing else is compared. */
  lemma ComparedArePaired(x: Input, name: string)
    requires ManifestsOk(x) && name in Compared(x)
    ensures exists e | e in Manifest(x.manifest).value :: e.paired && e.name == name
    ensures x.baseRun.Some? ==> exists r | r in Manifest(x.baseRun.value).value :: r.name == name
  {
    hide Manifest;
  }

  // ------------------------------------------------------- the gate, row by row

  /** The benchmark a row names: its `run_name` or, without one, its own name. */
  predicate HasName(r: Row, name: string) {
    r.Row? && name != "" && (if Truthy(r.runName) then r.runName else r.name) == Str(name)
  }

  /** Some row of the leg, an aggregate or a plain iteration, shows that the benchmark ran. */
  predicate Reported(leg: Leg, name: string) {
    leg.Rows? && exists r | r in leg.rows :: HasName(r, name) && (r.aggregate != NoValue || r.runType == Str("iteration"))
  }

  predicate IsMedianRow(r: Row, name: string) {
    HasName(r, name) && r.aggregate == Str("median") && IsNumber(r.cpuTime)
  }

  /** `m` is the one median of the benchmark in the leg. */
  predicate OnlyMedian(leg: Leg, name: string, m: Row) {
    leg.Rows? && HasOnly(leg.rows, name, m)
  }

  predicate OnlyAt(rows: seq<Row>, name: string, m: Row, k: nat)
    requires k < |rows|
  {
    rows[k] == m && IsMedianRow(m, name) && forall j | 0 <= j < |rows| && j != k :: !IsMedianRow(rows[j], name)
  }

  /** The medians of one benchmark in the four legs. */
  datatype Four = Four(a1: Row, b1: Row, a2: Row, b2: Row)

  predicate AreMedians(l: Legs, name: string, m: Four) {
    OnlyMedian(l.a1, name, m.a1) && OnlyMedian(l.b1, name, m.b1) && OnlyMedian(l.a2, name, m.a2) && OnlyMedian(l.b2, name, m.b2)
  }

  /** The CPU times of the medians: one unit, the two runs of each tree no further apart than the
      noise band allows in percent of their mean, and for each base time a candidate time that
      exceeds it by no more than the band. */
  predicate TimesHold(m: Four, band: real, noiseBand: real) {
    && m.a1.Row? && m.b1.Row? && m.a2.Row? && m.b2.Row?
    && m.a1.timeUnit == m.b1.timeUnit == m.a2.timeUnit == m.b2.timeUnit
    && var a1, b1, a2, b2 := Number(m.a1.cpuTime), Number(m.b1.cpuTime), Number(m.a2.cpuTime), Number(m.b2.cpuTime);
       && a1 > 0.0 && b1 > 0.0 && a2 > 0.0 && b2 > 0.0
       && Abs(a2 - a1) * 200.0 <= noiseBand * (a1 + a2) && Abs(b2 - b1) * 200.0 <= noiseBand * (b1 + b2)
       && var factor := 1.0 + band / 100.0;
          (a1 <= factor * b1 || a2 <= factor * b1) && (a1 <= factor * b2 || a2 <= factor * b2)
  }

  predicate Valid(leg: Leg) { leg.Rows? && ValidRows(leg.rows) }

  /** Valid legs, in which every reported benchmark has one median; both legs of a tree report the
      same ones, the base some, and the candidate all of those; and their times hold. */
  ghost predicate RowsPass(l: Legs, band: real, noiseBand: real) {
    && Valid(l.a1) && Valid(l.b1) && Valid(l.a2) && Valid(l.b2)
    && (forall leg, name | leg in [l.a1, l.b1, l.a2, l.b2] && Reported(leg, name) :: exists m :: OnlyMedian(leg, name, m))
    && (forall name :: Reported(l.a1, name) <==> Reported(l.a2, name))
    && (forall name :: Reported(l.b1, name) <==> Reported(l.b2, name))
    && (forall name | Reported(l.b1, name) :: Reported(l.a1, name))
    && (exists name :: Reported(l.b1, name))
    && (forall name, m | Reported(l.b1, name) && AreMedians(l, name, m) :: TimesHold(m, band, noiseBand))
  }

  lemma NamesAreReported(leg: Leg, name: string)
    requires Valid(leg)
    ensures name in Names(leg.rows) <==> Reported(leg, name)
  {
    hide ValidRows, TimeOk, UnitOk, IterationsOk;
    var rows := leg.rows;
    NoErrors(rows);
    if name in Names(rows) {
      var k :| 0 <= k < |rows| && Groups(rows[k]) && Benchmark(rows[k]).s == name;
      assert rows[k] in rows && HasName(rows[k], name);
    }
    if Reported(leg, name) {
      var r :| r in rows && HasName(r, name) && (r.aggregate != NoValue || r.runType == Str("iteration"));
      var k :| 0 <= k < |rows| && rows[k] == r;
      assert Groups(rows[k]) && Benchmark(rows[k]).s == name;
    }
  }

  lemma NoErrors(rows: seq<Row>)
    requires ValidRows(rows)
    ensures forall r | r in rows :: r.Row? && !Truthy(r.error)
  {
    assert forall k | 0 <= k < |rows| :: RowOk(rows[k]);
  }

  lemma {:induction false} NoMedianRow(rows: seq<Row>, name: string)
    requires forall r | r in rows :: r.Row? && !Truthy(r.error)
    requires name != ""
    ensures Medians(rows, name) == [] <==> forall j | 0 <= j < |rows| :: !IsMedianRow(rows[j], name)
  {
    hide Truthy, IsMedianRow, IsMedianOf;
    if rows != [] {
      var n := |rows| - 1;
      assert rows[n] in rows;
      MedianRowIs(rows[n], name);
      NoMedianRow(rows[..n], name);
      assert forall j | 0 <= j < n :: rows[..n][j] == rows[j];
    }
  }

  predicate HasOnly(rows: seq<Row>, name: string, m: Row) {
    exists k | 0 <= k < |rows| :: OnlyAt(rows, name, m, k)
  }

  lemma OnlyLast(rows: seq<Row>, name: string, m: Row)
    requires rows != [] && IsMedianRow(rows[|rows| - 1], name)
    ensures HasOnly(rows, name, m) <==>
            rows[|rows| - 1] == m && forall j | 0 <= j < |rows| - 1 :: !IsMedianRow(rows[j], name)
  {
    hide IsMedianRow;
    var n := |rows| - 1;
    if k :| 0 <= k < |rows| && OnlyAt(rows, name, m, k) { assert k == n; }
    if rows[n] == m && forall j | 0 <= j < n :: !IsMedianRow(rows[j], name) { assert OnlyAt(rows, name, m, n); }
  }

  lemma OnlyEarlier(rows: seq<Row>, name: string, m: Row)
    requires rows != [] && !IsMedianRow(rows[|rows| - 1], name)
    ensures HasOnly(rows, name, m) <==> HasOnly(rows[..|rows| - 1], name, m)
  {
    hide IsMedianRow;
    var n := |rows| - 1;
    var before := rows[..n];
    forall k: nat | k < n ensures OnlyAt(rows, name, m, k) <==> OnlyAt(before, name, m, k) {
      assert forall j | 0 <= j < n :: before[j] == rows[j];
    }
    assert !OnlyAt(rows, name, m, n);
  }

  lemma {:induction false} MediansAreRows(rows: seq<Row>, name: string, m: Row)
    requires forall r | r in rows :: r.Row? && !Truthy(r.error)
    requires name != ""
    ensures Medians(rows, name) == [m] <==> HasOnly(rows, name, m)
  {
    hide Truthy, IsMedianRow, IsMedianOf, HasOnly;
    if rows == [] {
      NoneHasOnly(name, m);
    } else {
      var n := |rows| - 1;
      var before := rows[..n];
      assert rows[n] in rows;
      MedianRowIs(rows[n], name);
      if IsMedianRow(rows[n], name) {
        OnlyLast(rows, name, m);
        NoMedianRow(before, name);
        var all := Medians(rows, name);
        assert all == Medians(before, name) + [rows[n]] && all[|all| - 1] == rows[n];
        assert forall j | 0 <= j < n :: before[j] == rows[j];
      } else {
        OnlyEarlier(rows, name, m);
        MediansAreRows(before, name, m);
      }
    }
  }

  lemma NoneHasOnly(name: string, m: Row)
    ensures !HasOnly([], name, m)
  {
  }

  lemma MedianRowIs(r: Row, name: string)
    requires r.Row? && !Truthy(r.error) && name != ""
    ensures IsMedianOf(r, name) <==> IsMedianRow(r, name)
  {
  }

  lemma OnlyMedianIs(leg: Leg, name: string, m: Row)
    requires Valid(leg) && name != ""
    ensures Medians(leg.rows, name) == [m] <==> OnlyMedian(leg, name, m)
  {
    hide ValidRows, Medians, OnlyAt;
    NoErrors(leg.rows);
    MediansAreRows(leg.rows, name, m);
  }

  /** A valid leg has a series exactly when every reported benchmark has one median in it. */
  lemma SeriesIs(leg: Leg)
    requires Valid(leg)
    ensures SeriesOk(leg.rows) <==> forall name | Reported(leg, name) :: exists m :: OnlyMedian(leg, name, m)
  {
    hide ValidRows, Medians, Names, OnlyMedian, HasName;
    forall name ensures name in Names(leg.rows) <==> Reported(leg, name) { NamesAreReported(leg, name); }
    forall name | Reported(leg, name)
      ensures |Medians(leg.rows, name)| == 1 <==> exists m :: OnlyMedian(leg, name, m)
    {
      ReportedHasName(leg, name);
      var ms := Medians(leg.rows, name);
      if |ms| == 1 { OnlyMedianIs(leg, name, ms[0]); }
      if m :| OnlyMedian(leg, name, m) { OnlyMedianIs(leg, name, m); }
    }
  }

  lemma ReportedHasName(leg: Leg, name: string)
    requires Reported(leg, name)
    ensures name != ""
  {
  }

  lemma NoiseIs(x: real, y: real, noiseBand: real)
    requires x > 0.0 && y > 0.0
    ensures Noise(x, y) > noiseBand <==> Abs(y - x) * 200.0 > noiseBand * (x + y)
  {
    var d, mean := Abs(y - x), (x + y) / 2.0;
    var r := d / mean;
    assert r * mean == d;
    if Noise(x, y) <= noiseBand { MulLe(r * 100.0, noiseBand, mean); }
    if Abs(y - x) * 200.0 <= noiseBand * (x + y) && r * 100.0 > noiseBand { MulLt(noiseBand, r * 100.0, mean); }
  }

  lemma DeltaIs(cand: real, base: real, band: real)
    requires base > 0.0
    ensures (cand - base) / base * 100.0 <= band <==> cand <= (1.0 + band / 100.0) * base
  {
    var d := (cand - base) / base;
    assert d * base == cand - base;
    if d <= band / 100.0 {
      MulLe(d, band / 100.0, base);
    } else {
      MulLt(band / 100.0, d, base);
    }
  }

  lemma BoundIs(a1: real, a2: real, b1: real, b2: real, factor: real)
    requires a1 > 0.0 && a2 > 0.0 && b1 > 0.0 && b2 > 0.0
    ensures Min(a1, a2) <= factor * Min(b1, b2) <==>
            (a1 <= factor * b1 || a2 <= factor * b1) && (a1 <= factor * b2 || a2 <= factor * b2)
  {
    var cand, base := Min(a1, a2), Min(b1, b2);
    assert cand > 0.0 && base > 0.0;
    if factor > 0.0 {
      ScaleLe(factor, base, b1);
      ScaleLe(factor, base, b2);
    } else {
      MulLe(factor, 0.0, b1);
      MulLe(factor, 0.0, b2);
    }
  }

  lemma ScaleLe(factor: real, x: real, y: real)
    requires factor >= 0.0 && x <= y
    ensures factor * x <= factor * y
  {
    MulLe(x, y, factor);
  }

  /** What a quad of points says is what the times of the four rows say. */
  lemma QuadIs(m: Four, band: real, noiseBand: real)
    requires m.a1.Row? && m.b1.Row? && m.a2.Row? && m.b2.Row?
    requires var q := Quad(PointOf(m.a1), PointOf(m.b1), PointOf(m.a2), PointOf(m.b2)); Positive(q)
    ensures QuadPasses(Quad(PointOf(m.a1), PointOf(m.b1), PointOf(m.a2), PointOf(m.b2)), band, noiseBand) <==>
            TimesHold(m, band, noiseBand)
  {
    hide Min, Noise, Number, Abs;
    var a1, b1, a2, b2 := Number(m.a1.cpuTime), Number(m.b1.cpuTime), Number(m.a2.cpuTime), Number(m.b2.cpuTime);
    NoiseIs(a1, a2, noiseBand);
    NoiseIs(b1, b2, noiseBand);
    MinPositive(b1, b2);
    DeltaIs(Min(a1, a2), Min(b1, b2), band);
    BoundIs(a1, a2, b1, b2, 1.0 + band / 100.0);
  }

  lemma MinPositive(x: real, y: real)
    requires x > 0.0 && y > 0.0
    ensures Min(x, y) > 0.0
  {
  }

  /** The point of a benchmark in a leg is that of its one median. */
  lemma PointIs(leg: Leg, name: string, m: Row)
    requires LegOk(leg) && name in SeriesOf(leg)
    ensures OnlyMedian(leg, name, m) ==> m.Row? && SeriesOf(leg)[name] == PointOf(m)
    ensures exists x :: OnlyMedian(leg, name, x)
  {
    hide ValidRows, Medians, OnlyMedian, PointOf, HasName;
    NamesAreReported(leg, name);
    ReportedHasName(leg, name);
    var x := Medians(leg.rows, name)[0];
    OnlyMedianIs(leg, name, x);
    OnlyMedianIs(leg, name, m);
    if OnlyMedian(leg, name, m) { MedianIsARow(leg, name, m); }
  }

  lemma MedianIsARow(leg: Leg, name: string, m: Row)
    requires OnlyMedian(leg, name, m)
    ensures m.Row?
  {
  }

  lemma TimesOf(l: Legs, band: real, noiseBand: real, name: string, m: Four)
    requires LegsOk(l) && SetsOk(l) && name in SeriesOf(l.b1) && AreMedians(l, name, m)
    ensures QuadPasses(QuadOf(l, name), band, noiseBand) <==> TimesHold(m, band, noiseBand)
  {
    hide LegOk, SeriesOf, OnlyMedian, PointOf, QuadPasses, TimesHold, Positive;
    PointIs(l.a1, name, m.a1);
    PointIs(l.b1, name, m.b1);
    PointIs(l.a2, name, m.a2);
    PointIs(l.b2, name, m.b2);
    SharedPositive(l, name);
    QuadIs(m, band, noiseBand);
  }

  lemma MediansExist(l: Legs, name: string) returns (m: Four)
    requires LegsOk(l) && SetsOk(l) && name in SeriesOf(l.b1)
    ensures AreMedians(l, name, m)
  {
    hide LegOk, SeriesOf, OnlyMedian;
    PointIs(l.a1, name, NotObject);
    PointIs(l.b1, name, NotObject);
    PointIs(l.a2, name, NotObject);
    PointIs(l.b2, name, NotObject);
    var a1 :| OnlyMedian(l.a1, name, a1);
    var b1 :| OnlyMedian(l.b1, name, b1);
    var a2 :| OnlyMedian(l.a2, name, a2);
    var b2 :| OnlyMedian(l.b2, name, b2);
    m := Four(a1, b1, a2, b2);
  }

  lemma LegIs(leg: Leg)
    ensures LegOk(leg) <==> Valid(leg) && forall name | Reported(leg, name) :: exists m :: OnlyMedian(leg, name, m)
    ensures LegOk(leg) ==> forall name :: name in SeriesOf(leg) <==> Reported(leg, name)
  {
    hide ValidRows, SeriesOk, Reported, OnlyMedian, Names;
    if Valid(leg) {
      SeriesIs(leg);
      forall name ensures name in Names(leg.rows) <==> Reported(leg, name) { NamesAreReported(leg, name); }
    }
  }

  lemma SetsAre(l: Legs)
    requires LegsOk(l)
    ensures SetsOk(l) <==>
            && (forall name :: Reported(l.a1, name) <==> Reported(l.a2, name))
            && (forall name :: Reported(l.b1, name) <==> Reported(l.b2, name))
            && (forall name | Reported(l.b1, name) :: Reported(l.a1, name))
            && (exists name :: Reported(l.b1, name))
  {
    hide LegOk, Reported, SeriesOf;
    KeysAre(l.a1, l.a2);
    KeysAre(l.b1, l.b2);
    KeysAre(l.b1, l.a1);
  }

  lemma KeysAre(a: Leg, b: Leg)
    requires LegOk(a) && LegOk(b)
    ensures SeriesOf(a).Keys <= SeriesOf(b).Keys <==> forall name | Reported(a, name) :: Reported(b, name)
    ensures SeriesOf(a).Keys == SeriesOf(b).Keys <==> forall name :: Reported(a, name) <==> Reported(b, name)
    ensures SeriesOf(a).Keys != {} <==> exists name :: Reported(a, name)
  {
    hide LegOk, Reported, SeriesOf;
    LegIs(a);
    LegIs(b);
    var x, y := SeriesOf(a).Keys, SeriesOf(b).Keys;
    assert x == y <==> x <= y && y <= x;
    if x != {} {
      var name :| name in x;
      assert Reported(a, name);
    }
  }

  /** A binary passes exactly when its rows do. */
  lemma PassesExactly(l: Legs, band: real, noiseBand: real)
    ensures BinaryPasses(l, band, noiseBand) <==> RowsPass(l, band, noiseBand)
  {
    hide LegOk, SeriesOf, Reported, OnlyMedian, TimesHold, QuadPasses, SetsOk, QuadOf, AreMedians, Valid;
    LegIs(l.a1);
    LegIs(l.b1);
    LegIs(l.a2);
    LegIs(l.b2);
    if LegsOk(l) {
      SetsAre(l);
      if SetsOk(l) {
        forall name, m | Reported(l.b1, name) && AreMedians(l, name, m)
          ensures QuadPasses(QuadOf(l, name), band, noiseBand) <==> TimesHold(m, band, noiseBand)
        {
          TimesOf(l, band, noiseBand, name, m);
        }
        forall name | Reported(l.b1, name) ensures exists m :: AreMedians(l, name, m) { var m := MediansExist(l, name); }
      }
    }
  }

  /** In a passing binary every benchmark that a base leg reports has exactly one median in each
      of the four legs, and their CPU times hold. */
  lemma BenchmarkHolds(l: Legs, band: real, noiseBand: real, name: string)
    requires BinaryPasses(l, band, noiseBand) && (Reported(l.b1, name) || Reported(l.b2, name))
    ensures exists m :: AreMedians(l, name, m) && TimesHold(m, band, noiseBand)
  {
    hide LegOk, SeriesOf, Reported, OnlyMedian, TimesHold, QuadPasses, SetsOk, QuadOf, AreMedians, Valid;
    PassesExactly(l, band, noiseBand);
    LegIs(l.b1);
    var m := MediansExist(l, name);
  }

  /** Slowing noise on one base leg cannot hide a regression: if noise only adds time and one
      base leg shows the true base time, a pass bounds the true candidate time by it. */
  lemma NoiseCannotHide(l: Legs, band: real, noiseBand: real, name: string, m: Four, trueCand: real, trueBase: real)
    requires BinaryPasses(l, band, noiseBand) && Reported(l.b1, name) && AreMedians(l, name, m)
    requires m.a1.Row? && m.b1.Row? && m.a2.Row? && m.b2.Row?
    requires trueCand <= Number(m.a1.cpuTime) && trueCand <= Number(m.a2.cpuTime)
    requires trueBase == Number(m.b1.cpuTime) || trueBase == Number(m.b2.cpuTime)
    ensures trueCand <= (1.0 + band / 100.0) * trueBase
  {
    hide BinaryPasses, Reported, AreMedians, Valid, OnlyMedian, Number;
    PassesExactly(l, band, noiseBand);
    assert TimesHold(m, band, noiseBand);
  }
}

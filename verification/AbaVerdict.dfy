/** The A-B-A decision of `ci/parallelism-verdict.py`: when three passes of one lane, serial,
    parallel, serial, are evidence. */
module AbaVerdict {
  import opened Basics
  import opened Text
  import opened CtestLog

  // --------------------------------------------------------------------- inputs

  datatype Coverage = NoCoverage | Coverage(status: string, sha: string, profraw: Option<int>, lines: Option<int>)

  /** One pass as read from its files; `present` says both the metadata and the log were there. */
  datatype Pass = Pass(present: bool, tag: string, order: string, jobs: int, preset: string, subset: string,
                       ctestArgs: string, log: seq<LogLine>, san: Option<int>, status: string, cov: Coverage)

  datatype Steal = NoCounter | Ticks(n: int) | Malformed

  datatype Witness = Witness(statusOk: bool, calib1: Option<real>, calibN: Option<real>, steal: Steal)

  /** A float argument; NotFinite stands for nan and the infinities. */
  datatype Tolerance = Finite(pct: real) | NotFinite

  datatype Sample = Sample(dirExists: bool, tolerance: Tolerance, calibTolerance: Tolerance, stealTolerance: int,
                           passes: seq<Pass>, witnesses: seq<Witness>, expected: Option<nat>)

  predicate WellTyped(x: Sample) { |x.passes| == 3 && |x.witnesses| == 4 }

  // ------------------------------------------------------------------ the checks

  /** `pct_diff(a, b) > t`; the difference is infinite when the mean is not positive. */
  predicate Drifts(a: real, b: real, t: real) {
    (a + b) / 2.0 <= 0.0 || Abs(a - b) / ((a + b) / 2.0) * 100.0 > t
  }

  function Present(ps: seq<Pass>): seq<Pass> {
    if ps == [] then [] else (if ps[0].present then [ps[0]] else []) + Present(ps[1..])
  }

  predicate IsSerial(p: Pass) { p.jobs == 1 }
  predicate IsParallel(p: Pass) { p.jobs > 1 }

  function Select(ps: seq<Pass>, f: Pass -> bool): seq<Pass> {
    if ps == [] then [] else (if f(ps[0]) then [ps[0]] else []) + Select(ps[1..], f)
  }

  predicate HasFailed(p: Pass) { p.status != "" && p.status != "0" }

  function Label(k: nat): string { if k == 0 then "A" else if k == 1 then "B" else "A'" }
  function Order(k: nat): string { if k == 0 then "1" else if k == 1 then "2" else "3" }

  predicate BadIdentity(p: Pass, k: nat) { p.present && (p.tag != Label(k) || p.order != Order(k)) }

  predicate BadShape(x: Sample)
    requires WellTyped(x)
  {
    var p := x.passes;
    || BadIdentity(p[0], 0) || BadIdentity(p[1], 1) || BadIdentity(p[2], 2)
    || (&& p[0].present && p[1].present && p[2].present
        && (|| !(p[0].jobs == 1 && p[2].jobs == 1 && p[1].jobs > 1)
            || p[0].preset != p[1].preset || p[0].preset != p[2].preset
            || p[0].subset != p[1].subset || p[0].subset != p[2].subset
            || p[0].ctestArgs != p[1].ctestArgs || p[0].ctestArgs != p[2].ctestArgs))
  }

  /** A log that cannot be used, or that did not reach the level it asked for. */
  predicate BadPass(p: Pass) {
    var log := Parse(p.log);
    || (log.wall.Some? && log.wall.value <= 0.0)
    || log.maxInflight.None?
    || log.anomalies != []
    || (log.maxInflight.Some? && p.jobs == 1 && log.maxInflight.value > 1)
    || (log.maxInflight.Some? && p.jobs > 1 && log.maxInflight.value < p.jobs)
  }

  predicate FailsOnlyInParallel(present: seq<Pass>) {
    var failed := Select(present, HasFailed);
    Select(failed, IsParallel) != [] && Select(failed, IsSerial) == []
  }

  predicate Instrument(x: Sample)
    requires WellTyped(x)
  {
    var present := Present(x.passes);
    || BadShape(x)
    || |present| < 3
    || (exists p | p in present :: BadPass(p))
    || (Select(present, HasFailed) != [] && !FailsOnlyInParallel(present))
    || (exists p | p in present :: p.san.None?)
    || |Select(present, IsSerial)| != 2
  }

  /** The reported test counts, where there is one. */
  function Counts(present: seq<Pass>): set<nat> {
    set p | p in present && Parse(p.log).ran.Some? :: Parse(p.log).ran.value
  }

  predicate Usable(c: Coverage) {
    && c.Coverage? && c.status == "ok" && c.sha != ""
    && c.profraw.Some? && c.profraw.value > 0 && c.lines.Some? && c.lines.value > 0
  }

  predicate HasUsable(p: Pass) { Usable(p.cov) }

  predicate AttemptedUnusable(present: seq<Pass>) {
    exists p | p in present :: p.cov.Coverage? && !Usable(p.cov)
  }

  predicate WroteFewer(q: Pass, ser: seq<Pass>) {
    Usable(q.cov) && forall r | r in ser :: Usable(r.cov) && q.cov.profraw.value < r.cov.profraw.value
  }

  /** The parallel pass wrote fewer profiles than every usable serial pass. */
  predicate ProfilesLost(ser: seq<Pass>, par: seq<Pass>) {
    var s, p := Select(ser, HasUsable), Select(par, HasUsable);
    s != [] && exists q | q in p :: WroteFewer(q, s)
  }

  function Shas(ps: seq<Pass>): set<string> { set p | p in ps && p.cov.Coverage? :: p.cov.sha }

  /** All three passes have a usable digest, so item 4 can be compared. */
  predicate Comparable(present: seq<Pass>) {
    |present| == 3 && forall p | p in present :: Usable(p.cov)
  }

  predicate ReportsMore(p: Pass, ser: seq<Pass>) {
    p.san.Some? && forall q | q in ser :: q.san.Some? && p.san.value > q.san.value
  }

  /** Every count was read, and a parallel pass has more reports than each serial one. */
  predicate SanitizersRose(ser: seq<Pass>, par: seq<Pass>) {
    (forall p | p in par :: p.san.Some?) && (forall p | p in ser :: p.san.Some?) && exists p | p in par :: ReportsMore(p, ser)
  }

  predicate Defect(x: Sample)
    requires WellTyped(x)
  {
    var present := Present(x.passes);
    var ser, par := Select(present, IsSerial), Select(present, IsParallel);
    || |Counts(present)| > 1
    || (Select(present, HasFailed) != [] && FailsOnlyInParallel(present))
    || (ser != [] && SanitizersRose(ser, par))
    || (ser != [] && par != [] && ProfilesLost(ser, par))
    || (Comparable(present) && ser != [] && par != [] && |Shas(ser)| == 1 && Shas(par) != Shas(ser))
  }

  predicate IsUsableWitness(w: Witness) {
    w.statusOk && w.calib1.Some? && w.calib1.value > 0.0 && w.calibN.Some? && w.calibN.value > 0.0
  }

  /** The steal counter rose across the interval of pass `k`. */
  predicate StealRose(x: Sample, k: nat)
    requires WellTyped(x) && k < 3
  {
    var a, b := x.witnesses[k].steal, x.witnesses[k + 1].steal;
    a.Ticks? && b.Ticks? && b.n - a.n > x.stealTolerance
  }

  predicate MachineMoved(x: Sample)
    requires WellTyped(x) && x.calibTolerance.Finite?
  {
    var w := x.witnesses;
    || (exists k | 0 <= k < 4 :: !IsUsableWitness(w[k]))
    || ((forall k | 0 <= k < 4 :: !w[k].steal.Malformed?) && exists k | 0 <= k < 3 :: StealRose(x, k))
    || (w[0].calib1.Some? && w[3].calib1.Some? && Drifts(w[0].calib1.value, w[3].calib1.value, x.calibTolerance.pct))
    || (w[0].calibN.Some? && w[3].calibN.Some? && Drifts(w[0].calibN.value, w[3].calibN.value, x.calibTolerance.pct))
  }

  /** A wall time that is there and not zero. */
  predicate HasWall(p: Pass) { Parse(p.log).wall.Some? && Parse(p.log).wall.value != 0.0 }

  predicate Void(x: Sample)
    requires WellTyped(x) && x.tolerance.Finite? && x.calibTolerance.Finite?
  {
    var present := Present(x.passes);
    var ser, par := Select(present, IsSerial), Select(present, IsParallel);
    var subset := exists p | p in x.passes :: p.subset != "";
    || AttemptedUnusable(present)
    || (Comparable(present) && ser != [] && par != [] && |Shas(ser)| != 1)
    || (!subset && x.expected.Some? && Counts(present) != {} && Counts(present) != {x.expected.value})
    || (&& |ser| == 2 && HasWall(ser[0]) && HasWall(ser[1])
        && Drifts(Parse(ser[0].log).wall.value, Parse(ser[1].log).wall.value, x.tolerance.pct))
    || MachineMoved(x)
    || subset
  }

  predicate BadArguments(x: Sample) {
    || x.tolerance.NotFinite? || x.tolerance.pct < 0.0
    || x.calibTolerance.NotFinite? || x.calibTolerance.pct < 0.0
    || x.stealTolerance < 0 || !x.dirExists
  }

  /** The exit status: instrument failure outranks a defect, a defect outranks a void. */
  function Verdict(x: Sample): nat
    requires WellTyped(x)
  {
    if BadArguments(x) || Instrument(x) then 2 else if Defect(x) then 1 else if Void(x) then 3 else 0
  }

  // ----------------------------------------------------------------- the method

  datatype Finding =
    | Shape | MissingPass | UnusablePass(k: nat) | LaneIsRed | NoSanitizerCount(k: nat) | NotTwoSerial
    | DifferentTests | FailsInParallel | SanitizerRose | LostProfiles | CoverageChanged
    | CoverageNotCompared | SerialCoverageDiffers | NotProduction | SerialDrift | MachineNotStill | SubsetRun

  /** `main`: the three lists of findings and the exit status they decide. */
  method Judge(x: Sample) returns (code: nat, instrument: seq<Finding>, defects: seq<Finding>, voids: seq<Finding>)
    requires WellTyped(x)
    ensures code == Verdict(x)
    ensures code == 0 ==> instrument == defects == voids == []
  {
    hide Instrument, Defect, Void, Present, Select, FailsOnlyInParallel, HasFailed;
    instrument, defects, voids := [], [], [];
    if BadArguments(x) { return 2, [], [], []; }
    instrument := InstrumentsOf(x);
    defects := DefectsOf(x);
    var present := Present(x.passes);
    if Select(present, HasFailed) != [] && FailsOnlyInParallel(present) {
      defects := defects + [FailsInParallel];
    }
    voids := VoidsOf(x);
    code := if instrument != [] then 2 else if defects != [] then 1 else if voids != [] then 3 else 0;
  }

  method InstrumentsOf(x: Sample) returns (instrument: seq<Finding>)
    requires WellTyped(x)
    ensures instrument != [] <==> Instrument(x)
  {
    hide Present, Select, BadShape, BadPass, FailsOnlyInParallel;
    var present := Present(x.passes);
    instrument := [];
    if BadShape(x) { instrument := instrument + [Shape]; }
    if |present| < 3 { instrument := instrument + [MissingPass]; }
    instrument := CheckPasses(present, instrument);
    if Select(present, HasFailed) != [] && !FailsOnlyInParallel(present) { instrument := instrument + [LaneIsRed]; }
    if |Select(present, IsSerial)| != 2 { instrument := instrument + [NotTwoSerial]; }
  }

  /** The per-pass instrument checks. */
  method CheckPasses(present: seq<Pass>, before: seq<Finding>) returns (instrument: seq<Finding>)
    ensures instrument != [] <==> before != [] || exists p | p in present :: BadPass(p) || p.san.None?
  {
    instrument := before;
    for k := 0 to |present|
      invariant instrument != [] <==> before != [] || exists p | p in present[..k] :: BadPass(p) || p.san.None?
    {
      assert present[..k + 1] == present[..k] + [present[k]];
      if BadPass(present[k]) { instrument := instrument + [UnusablePass(k)]; }
      if present[k].san.None? { instrument := instrument + [NoSanitizerCount(k)]; }
    }
    assert present[..|present|] == present;
  }

  /** The defects other than a failing parallel pass. */
  method DefectsOf(x: Sample) returns (defects: seq<Finding>)
    requires WellTyped(x)
    ensures Defect(x) <==>
            || defects != []
            || (Select(Present(x.passes), HasFailed) != [] && FailsOnlyInParallel(Present(x.passes)))
  {
    hide Present, Select, Counts, FailsOnlyInParallel, ProfilesLost, Comparable, Shas, SanitizersRose;
    var present := Present(x.passes);
    var ser, par := Select(present, IsSerial), Select(present, IsParallel);
    defects := [];
    if |Counts(present)| > 1 { defects := defects + [DifferentTests]; }
    if ser != [] && SanitizersRose(ser, par) { defects := defects + [SanitizerRose]; }
    if ser != [] && par != [] && ProfilesLost(ser, par) { defects := defects + [LostProfiles]; }
    if Comparable(present) && ser != [] && par != [] && |Shas(ser)| == 1 && Shas(par) != Shas(ser) {
      defects := defects + [CoverageChanged];
    }
  }

  method VoidsOf(x: Sample) returns (voids: seq<Finding>)
    requires WellTyped(x) && x.tolerance.Finite? && x.calibTolerance.Finite?
    ensures voids != [] <==> Void(x)
  {
    hide Present, Select, Counts, AttemptedUnusable, Comparable, Shas, MachineMoved, HasWall, Drifts, Parse;
    var present := Present(x.passes);
    var ser, par := Select(present, IsSerial), Select(present, IsParallel);
    var subset := exists p | p in x.passes :: p.subset != "";
    voids := [];
    if AttemptedUnusable(present) {
      voids := voids + [CoverageNotCompared];
    }
    if Comparable(present) && ser != [] && par != [] && |Shas(ser)| != 1 {
      voids := voids + [SerialCoverageDiffers];
    }
    if !subset && x.expected.Some? && Counts(present) != {} && Counts(present) != {x.expected.value} {
      voids := voids + [NotProduction];
    }
    if |ser| == 2 && HasWall(ser[0]) && HasWall(ser[1]) {
      WallIsThere(ser[0]);
      WallIsThere(ser[1]);
      if Drifts(Parse(ser[0].log).wall.value, Parse(ser[1].log).wall.value, x.tolerance.pct) {
        voids := voids + [SerialDrift];
      }
    }
    if MachineMoved(x) { voids := voids + [MachineNotStill]; }
    if subset { voids := voids + [SubsetRun]; }
  }

  lemma WallIsThere(p: Pass)
    requires HasWall(p)
    ensures Parse(p.log).wall.Some?
  {
  }

  // -------------------------------------------------- what each exit status says, exactly

  /** Three passes in the shape 1/N/1 over one workload. */
  predicate AbaShape(a: Pass, b: Pass, c: Pass) {
    && a.present && b.present && c.present
    && a.tag == "A" && b.tag == "B" && c.tag == "A'" && a.order == "1" && b.order == "2" && c.order == "3"
    && a.jobs == 1 && b.jobs > 1 && c.jobs == 1
    && a.preset == b.preset == c.preset && a.subset == b.subset == c.subset
    && a.ctestArgs == b.ctestArgs == c.ctestArgs
  }

  /** A log the parser understands, with a positive wall time and the asked-for level. */
  predicate Measured(p: Pass) {
    && Clean(p.log) && Parse(p.log).wall.value > 0.0 && Parse(p.log).maxInflight.Some?
    && (p.jobs == 1 ==> Parse(p.log).maxInflight == Some(1))
    && (p.jobs > 1 ==> Parse(p.log).maxInflight.value >= p.jobs)
  }

  predicate IsGreen(p: Pass) { p.status == "" || p.status == "0" }

  predicate GoodArguments(x: Sample) {
    && x.dirExists && x.tolerance.Finite? && x.tolerance.pct >= 0.0
    && x.calibTolerance.Finite? && x.calibTolerance.pct >= 0.0 && x.stealTolerance >= 0
  }

  /** The apparatus measured what it claims: the shape, three measured logs with a sanitizer count
      each, and serial passes that are green. */
  predicate IsMeasured(x: Sample)
    requires WellTyped(x)
  {
    var a, b, c := x.passes[0], x.passes[1], x.passes[2];
    && GoodArguments(x) && AbaShape(a, b, c)
    && Measured(a) && Measured(b) && Measured(c)
    && a.san.Some? && b.san.Some? && c.san.Some?
    && IsGreen(a) && IsGreen(c)
  }

  /** A coverage digest that can be compared. */
  predicate HasDigest(p: Pass) {
    && p.cov.Coverage? && p.cov.status == "ok" && p.cov.sha != ""
    && p.cov.profraw.Some? && p.cov.profraw.value > 0 && p.cov.lines.Some? && p.cov.lines.value > 0
  }

  /** The parallel pass wrote fewer profiles than each serial pass with a digest, and there is one. */
  predicate LosesProfiles(a: Pass, b: Pass, c: Pass) {
    && HasDigest(b) && (HasDigest(a) || HasDigest(c))
    && (HasDigest(a) ==> b.cov.profraw.value < a.cov.profraw.value)
    && (HasDigest(c) ==> b.cov.profraw.value < c.cov.profraw.value)
  }

  /** Parallel running changed something: other tests ran, the parallel pass alone is red, it has
      more sanitizer reports than either serial pass, it lost profiles, or its merged coverage is
      not the one both serial passes agree on. */
  predicate ChangesSomething(a: Pass, b: Pass, c: Pass)
    requires a.san.Some? && b.san.Some? && c.san.Some?
  {
    || !(Parse(a.log).ran == Parse(b.log).ran == Parse(c.log).ran)
    || !IsGreen(b)
    || (b.san.value > a.san.value && b.san.value > c.san.value)
    || LosesProfiles(a, b, c)
    || (HasDigest(a) && HasDigest(b) && HasDigest(c) && a.cov.sha == c.cov.sha && b.cov.sha != a.cov.sha)
  }

  /** Two positive figures differ by no more than `t` percent of their mean. */
  predicate IsClose(a: real, b: real, t: real) { Abs(a - b) * 200.0 <= t * (a + b) }

  predicate StealHeld(x: Sample, k: nat)
    requires WellTyped(x) && k < 3
  {
    var a, b := x.witnesses[k].steal, x.witnesses[k + 1].steal;
    a.Ticks? && b.Ticks? ==> b.n <= a.n + x.stealTolerance
  }

  /** The machine stood still: four usable witnesses, calibrations that did not drift from the first
      to the last, and no interval in which the steal counter rose, where it can be read. */
  predicate MachineHeld(x: Sample)
    requires WellTyped(x) && x.calibTolerance.Finite?
  {
    var w := x.witnesses;
    && (forall k | 0 <= k < 4 :: w[k].statusOk && w[k].calib1.Some? && w[k].calib1.value > 0.0
                                 && w[k].calibN.Some? && w[k].calibN.value > 0.0)
    && ((exists k | 0 <= k < 4 :: w[k].steal.Malformed?) || forall k | 0 <= k < 3 :: StealHeld(x, k))
    && IsClose(w[0].calib1.value, w[3].calib1.value, x.calibTolerance.pct)
    && IsClose(w[0].calibN.value, w[3].calibN.value, x.calibTolerance.pct)
  }

  /** The whole suite ran, as often as expected, coverage can be compared where it was taken, the
      serial passes agree in coverage and in time, and the machine stood still. */
  predicate IsStill(x: Sample)
    requires WellTyped(x) && IsMeasured(x)
  {
    var a, b, c := x.passes[0], x.passes[1], x.passes[2];
    && a.subset == ""
    && (x.expected.Some? ==> Parse(a.log).ran == x.expected)
    && (a.cov.Coverage? ==> HasDigest(a)) && (b.cov.Coverage? ==> HasDigest(b)) && (c.cov.Coverage? ==> HasDigest(c))
    && (a.cov.Coverage? && b.cov.Coverage? && c.cov.Coverage? ==> a.cov.sha == c.cov.sha)
    && Parse(a.log).wall.Some? && Parse(c.log).wall.Some?
    && IsClose(Parse(a.log).wall.value, Parse(c.log).wall.value, x.tolerance.pct)
    && MachineHeld(x)
  }

  lemma {:induction false} PresentShrinks(ps: seq<Pass>)
    ensures |Present(ps)| <= |ps|
    ensures |Present(ps)| == |ps| ==> Present(ps) == ps && forall p | p in ps :: p.present
    ensures (forall p | p in ps :: p.present) ==> Present(ps) == ps
  {
    if ps != [] {
      PresentShrinks(ps[1..]);
      assert [ps[0]] + ps[1..] == ps;
    }
  }

  lemma Three(ps: seq<Pass>, f: Pass -> bool)
    requires |ps| == 3
    ensures ps == [ps[0], ps[1], ps[2]]
    ensures Select(ps, f) == (if f(ps[0]) then [ps[0]] else []) + (if f(ps[1]) then [ps[1]] else [])
                             + (if f(ps[2]) then [ps[2]] else [])
  {
    assert ps[1..] == [ps[1], ps[2]] && ps[1..][1..] == [ps[2]] && ps[1..][1..][1..] == [];
    assert Select(ps[1..][1..][1..], f) == [];
    assert Select(ps[1..][1..], f) == (if f(ps[2]) then [ps[2]] else []) + [];
    assert Select(ps[1..], f) == (if f(ps[1]) then [ps[1]] else []) + (if f(ps[2]) then [ps[2]] else []);
  }

  /** With the shape in place, the serial passes are the first and the third. */
  lemma ShapeSelects(x: Sample)
    requires WellTyped(x) && var p := x.passes; p[0].present && p[1].present && p[2].present
    requires x.passes[0].jobs == 1 && x.passes[1].jobs > 1 && x.passes[2].jobs == 1
    ensures Present(x.passes) == x.passes
    ensures Select(x.passes, IsSerial) == [x.passes[0], x.passes[2]] && Select(x.passes, IsParallel) == [x.passes[1]]
  {
    PresentShrinks(x.passes);
    Three(x.passes, IsSerial);
    Three(x.passes, IsParallel);
  }

  lemma MeasuredExactly(p: Pass)
    ensures !BadPass(p) && (p.jobs >= 1) <==> Measured(p) && p.jobs >= 1
  {
    hide Parse;
    if Clean(p.log) { CleanMeans(p.log); }
    PeakIsPositive(p.log);
  }

  lemma PeakIsPositive(log: seq<LogLine>)
    ensures Parse(log).maxInflight.Some? ==> Parse(log).maxInflight.value >= 1
  {
  }

  predicate Levels(x: Sample)
    requires WellTyped(x)
  {
    var p := x.passes;
    p[0].present && p[1].present && p[2].present && p[0].jobs == 1 && p[1].jobs > 1 && p[2].jobs == 1
  }

  /** With the levels in place, which failing passes make the lane red. */
  lemma FailedExactly(x: Sample)
    requires WellTyped(x) && Levels(x)
    ensures var p := x.passes;
            && (Select(p, HasFailed) != [] && !FailsOnlyInParallel(p) <==> !IsGreen(p[0]) || !IsGreen(p[2]))
            && (Select(p, HasFailed) != [] && FailsOnlyInParallel(p) <==> IsGreen(p[0]) && !IsGreen(p[1]) && IsGreen(p[2]))
  {
    hide Select, HasFailed, IsGreen;
    var p := x.passes;
    forall q ensures HasFailed(q) <==> !IsGreen(q) { FailedIsRed(q); }
    var failed := Select(p, HasFailed);
    SelectExactly(p, HasFailed);
    SelectExactly(failed, IsParallel);
    SelectExactly(failed, IsSerial);
    assert p[0] in p && p[1] in p && p[2] in p && forall q | q in p :: q == p[0] || q == p[1] || q == p[2];
  }

  lemma FailedIsRed(p: Pass)
    ensures HasFailed(p) <==> !IsGreen(p)
  {
  }

  lemma {:induction false} SelectExactly(ps: seq<Pass>, f: Pass -> bool)
    ensures forall p :: p in Select(ps, f) <==> p in ps && f(p)
    ensures Select(ps, f) == [] <==> forall p | p in ps :: !f(p)
  {
    if ps != [] {
      SelectExactly(ps[1..], f);
      assert forall p :: p in ps <==> p == ps[0] || p in ps[1..];
      var first := if f(ps[0]) then [ps[0]] else [];
      assert Select(ps, f) == first + Select(ps[1..], f);
      assert f(ps[0]) ==> ps[0] in ps;
    }
  }

  lemma ShapeExactly(x: Sample)
    requires WellTyped(x)
    ensures var p := x.passes;
            p[0].present && p[1].present && p[2].present && !BadShape(x) <==> AbaShape(p[0], p[1], p[2])
  {
  }

  /** Exit 2 without a refused argument: the apparatus did not measure what it claims. */
  lemma InstrumentExactly(x: Sample)
    requires WellTyped(x) && GoodArguments(x)
    ensures Instrument(x) <==> !IsMeasured(x)
  {
    hide Measured, BadPass, HasFailed, FailsOnlyInParallel, Select, Present, BadShape, AbaShape, IsSerial, IsGreen;
    var p := x.passes;
    PresentShrinks(p);
    ShapeExactly(x);
    assert p[0] in p && p[1] in p && p[2] in p && forall q | q in p :: q == p[0] || q == p[1] || q == p[2];
    if p[0].present && p[1].present && p[2].present {
      if !BadShape(x) {
        ShapeLevels(p[0], p[1], p[2]);
        ShapeSelects(x);
        FailedExactly(x);
        MeasuredExactly(p[0]);
        MeasuredExactly(p[1]);
        MeasuredExactly(p[2]);
      }
    }
  }

  lemma ShapeLevels(a: Pass, b: Pass, c: Pass)
    requires AbaShape(a, b, c)
    ensures a.present && b.present && c.present && a.jobs == 1 && b.jobs > 1 && c.jobs == 1
  {
  }

  lemma CountsExactly(ps: seq<Pass>)
    requires |ps| == 3 && forall k | 0 <= k < 3 :: Parse(ps[k].log).ran.Some?
    ensures Counts(ps) == {Parse(ps[0].log).ran.value, Parse(ps[1].log).ran.value, Parse(ps[2].log).ran.value}
    ensures |Counts(ps)| > 1 <==> !(Parse(ps[0].log).ran == Parse(ps[1].log).ran == Parse(ps[2].log).ran)
  {
    hide Parse;
    var x, y, z := Parse(ps[0].log).ran.value, Parse(ps[1].log).ran.value, Parse(ps[2].log).ran.value;
    assert ps[0] in ps && ps[1] in ps && ps[2] in ps;
    assert Counts(ps) == {x, y, z};
    if x == y == z {
      assert {x, y, z} == {x};
    } else {
      var w := if x != y then y else z;
      SubsetSize({x, w}, {x, y, z});
    }
  }

  lemma SanitizersExactly(a: Pass, b: Pass, c: Pass)
    requires a.san.Some? && b.san.Some? && c.san.Some?
    ensures SanitizersRose([a, c], [b]) <==> b.san.value > a.san.value && b.san.value > c.san.value
  {
    assert b in [b] && a in [a, c] && c in [a, c];
  }

  lemma ProfilesExactly(a: Pass, b: Pass, c: Pass)
    ensures ProfilesLost([a, c], [b]) <==> LosesProfiles(a, b, c)
  {
    hide Select;
    SelectExactly([a, c], HasUsable);
    SelectExactly([b], HasUsable);
    UsableExactly(a);
    UsableExactly(b);
    UsableExactly(c);
    var s := Select([a, c], HasUsable);
    assert b in [b] && a in [a, c] && c in [a, c];
    assert forall q | q in [b] :: q == b;
    assert ProfilesLost([a, c], [b]) <==> s != [] && HasUsable(b) && WroteFewer(b, s);
  }

  lemma UsableExactly(p: Pass)
    ensures Usable(p.cov) <==> HasDigest(p)
  {
  }

  lemma ShasExactly(a: Pass, b: Pass, c: Pass)
    requires a.cov.Coverage? && b.cov.Coverage? && c.cov.Coverage?
    ensures |Shas([a, c])| == 1 <==> a.cov.sha == c.cov.sha
    ensures a.cov.sha == c.cov.sha ==> (Shas([b]) == Shas([a, c]) <==> b.cov.sha == a.cov.sha)
  {
    assert a in [a, c] && c in [a, c] && b in [b];
    assert Shas([a, c]) == {a.cov.sha, c.cov.sha} && Shas([b]) == {b.cov.sha};
    if a.cov.sha == c.cov.sha { assert {a.cov.sha, c.cov.sha} == {a.cov.sha}; }
  }

  /** Exit 1: parallel running changed something. */
  lemma DefectExactly(x: Sample)
    requires WellTyped(x) && IsMeasured(x)
    ensures Defect(x) <==> ChangesSomething(x.passes[0], x.passes[1], x.passes[2])
  {
    hide Parse, Select, Present, Counts, ProfilesLost, Shas, SanitizersRose, Clean, LosesProfiles, Usable, HasDigest;
    hide HasFailed, IsGreen, FailsOnlyInParallel;
    var p := x.passes;
    var a, b, c := p[0], p[1], p[2];
    ShapeSelects(x);
    FailedExactly(x);
    CleanMeans(a.log);
    CleanMeans(b.log);
    CleanMeans(c.log);
    CountsExactly(p);
    SanitizersExactly(a, b, c);
    ProfilesExactly(a, b, c);
    ComparableExactly(p);
    if HasDigest(a) && HasDigest(b) && HasDigest(c) { ShasOfDigests(a, b, c); }
  }

  lemma ComparableExactly(p: seq<Pass>)
    requires |p| == 3
    ensures Comparable(p) <==> HasDigest(p[0]) && HasDigest(p[1]) && HasDigest(p[2])
    ensures AttemptedUnusable(p) <==>
            !((p[0].cov.Coverage? ==> HasDigest(p[0])) && (p[1].cov.Coverage? ==> HasDigest(p[1])) && (p[2].cov.Coverage? ==> HasDigest(p[2])))
  {
    hide Usable, HasDigest;
    UsableExactly(p[0]);
    UsableExactly(p[1]);
    UsableExactly(p[2]);
    assert p[0] in p && p[1] in p && p[2] in p && forall q | q in p :: q == p[0] || q == p[1] || q == p[2];
  }

  lemma ShasOfDigests(a: Pass, b: Pass, c: Pass)
    requires HasDigest(a) && HasDigest(b) && HasDigest(c)
    ensures |Shas([a, c])| == 1 <==> a.cov.sha == c.cov.sha
    ensures a.cov.sha == c.cov.sha ==> (Shas([b]) == Shas([a, c]) <==> b.cov.sha == a.cov.sha)
  {
    hide Shas;
    ShasExactly(a, b, c);
  }

  lemma DriftsExactly(a: real, b: real, t: real)
    requires a > 0.0 && b > 0.0
    ensures Drifts(a, b, t) <==> !IsClose(a, b, t)
  {
    var mid := (a + b) / 2.0;
    var q := Abs(a - b) / mid;
    assert q * mid == Abs(a - b);
    if q * 100.0 <= t {
      MulLe(q * 100.0, t, mid);
    } else {
      MulLt(t, q * 100.0, mid);
    }
  }

  lemma MachineExactly(x: Sample)
    requires WellTyped(x) && x.calibTolerance.Finite?
    ensures MachineMoved(x) <==> !MachineHeld(x)
  {
    hide Drifts, IsClose, StealHeld, StealRose;
    var w := x.witnesses;
    forall k: nat | k < 3 ensures StealRose(x, k) <==> !StealHeld(x, k) { StealExactly(x, k); }
    if forall k | 0 <= k < 4 :: IsUsableWitness(w[k]) {
      assert IsUsableWitness(w[0]) && IsUsableWitness(w[3]);
      DriftsExactly(w[0].calib1.value, w[3].calib1.value, x.calibTolerance.pct);
      DriftsExactly(w[0].calibN.value, w[3].calibN.value, x.calibTolerance.pct);
    }
  }

  lemma StealExactly(x: Sample, k: nat)
    requires WellTyped(x) && k < 3
    ensures StealRose(x, k) <==> !StealHeld(x, k)
  {
  }

  /** Exit 3, once nothing was changed: something moved under the experiment. */
  lemma VoidExactly(x: Sample)
    requires WellTyped(x) && IsMeasured(x) && !ChangesSomething(x.passes[0], x.passes[1], x.passes[2])
    ensures Void(x) <==> !IsStill(x)
  {
    hide Parse, MachineMoved, MachineHeld, Drifts, IsClose, Select, Present, Counts, AttemptedUnusable, Comparable, Shas;
    hide Clean, Usable, HasDigest, LosesProfiles;
    var p := x.passes;
    var a, b, c := p[0], p[1], p[2];
    ShapeSelects(x);
    CleanMeans(a.log);
    CleanMeans(b.log);
    CleanMeans(c.log);
    CountsExactly(p);
    ComparableExactly(p);
    if HasDigest(a) && HasDigest(b) && HasDigest(c) { ShasOfDigests(a, b, c); }
    DigestIsCoverage(a);
    DigestIsCoverage(b);
    DigestIsCoverage(c);
    DriftsExactly(Parse(a.log).wall.value, Parse(c.log).wall.value, x.tolerance.pct);
    MachineExactly(x);
    assert p[0] in p && p[1] in p && p[2] in p && forall q | q in p :: q == a || q == b || q == c;
  }

  lemma DigestIsCoverage(p: Pass)
    ensures HasDigest(p) ==> p.cov.Coverage?
  {
  }

  // ------------------------------------------------------------------ theorems

  predicate Evidence(x: Sample)
    requires WellTyped(x)
  {
    IsMeasured(x) && !ChangesSomething(x.passes[0], x.passes[1], x.passes[2]) && IsStill(x)
  }

  /** Each exit status exactly: 2 when the sample is not a measurement, else 1 when parallel running
      changed something, else 3 when something moved under the experiment, else 0. */
  lemma ExitExactly(x: Sample)
    requires WellTyped(x)
    ensures Verdict(x) == if !IsMeasured(x) then 2
                          else if ChangesSomething(x.passes[0], x.passes[1], x.passes[2]) then 1
                          else if !IsStill(x) then 3 else 0
  {
    hide Instrument, Defect, Void, IsStill, ChangesSomething, IsMeasured;
    ArgumentsExactly(x);
    if GoodArguments(x) {
      InstrumentExactly(x);
      if IsMeasured(x) {
        MeasuredCounts(x);
        DefectExactly(x);
        if !ChangesSomething(x.passes[0], x.passes[1], x.passes[2]) { VoidExactly(x); }
      }
    } else {
      MeasuredCounts(x);
    }
  }

  lemma ArgumentsExactly(x: Sample)
    ensures BadArguments(x) <==> !GoodArguments(x)
  {
  }

  lemma MeasuredCounts(x: Sample)
    requires WellTyped(x)
    ensures IsMeasured(x) ==> GoodArguments(x) && x.passes[0].san.Some? && x.passes[1].san.Some? && x.passes[2].san.Some?
  {
    hide Measured, AbaShape;
  }

  /** The sample is certified exactly when it is evidence. */
  lemma ExitZeroExactly(x: Sample)
    requires WellTyped(x)
    ensures Verdict(x) == 0 <==> Evidence(x)
  {
    hide Verdict, IsMeasured, ChangesSomething, IsStill;
    ExitExactly(x);
    MeasuredCounts(x);
  }

  /** What a certified sample says about the logs themselves: the serial passes never had two
      tests in flight, and the parallel pass at some point had at least the asked-for number. */
  lemma CertifiedConcurrency(x: Sample)
    requires WellTyped(x) && Verdict(x) == 0
    ensures forall i, k | (i == 0 || i == 2) && 0 <= k < |x.passes[i].log| ::
              Starts(x.passes[i].log[k]) ==> CountStarts(x.passes[i].log, k) == CountDone(x.passes[i].log, k)
    ensures var b := x.passes[1];
            b.jobs > 1 && exists k | 0 <= k <= |b.log| :: CountStarts(b.log, k) - CountDone(b.log, k) >= b.jobs
  {
    hide Parse, Evidence, Verdict, CountStarts, CountDone;
    ExitZeroExactly(x);
    EvidenceParts(x);
    forall i, k | (i == 0 || i == 2) && 0 <= k < |x.passes[i].log|
      ensures Starts(x.passes[i].log[k]) ==> CountStarts(x.passes[i].log, k) == CountDone(x.passes[i].log, k)
    {
      LevelOneAlternates(x.passes[i].log, k);
    }
    MaxInflightIsMaximum(x.passes[1].log);
  }

  lemma EvidenceParts(x: Sample)
    requires WellTyped(x) && Evidence(x)
    ensures forall i | 0 <= i < 3 :: Clean(x.passes[i].log) && Parse(x.passes[i].log).wall.Some? && Parse(x.passes[i].log).wall.value > 0.0
    ensures Parse(x.passes[0].log).maxInflight == Some(1) == Parse(x.passes[2].log).maxInflight
    ensures x.passes[1].jobs > 1
    ensures Parse(x.passes[1].log).maxInflight.Some? && Parse(x.passes[1].log).maxInflight.value >= x.passes[1].jobs
    ensures var a, c := Parse(x.passes[0].log).wall, Parse(x.passes[2].log).wall;
            x.tolerance.Finite? && IsClose(a.value, c.value, x.tolerance.pct)
  {
    hide Parse, MachineHeld, IsClose, Clean;
    CleanMeans(x.passes[0].log);
    CleanMeans(x.passes[1].log);
    CleanMeans(x.passes[2].log);
  }

  /** The printed speedup: the mean serial wall over the parallel wall. */
  function Speedup(x: Sample): real
    requires WellTyped(x) && (forall i | 0 <= i < 3 :: Parse(x.passes[i].log).wall.Some?)
    requires Parse(x.passes[1].log).wall.value > 0.0
  {
    var a, b, c := Parse(x.passes[0].log).wall.value, Parse(x.passes[1].log).wall.value, Parse(x.passes[2].log).wall.value;
    (a + c) / 2.0 / b
  }

  /** Half the tolerance bounds how far the printed speedup can be from the speedup measured
      against either serial pass alone. */
  lemma SpeedupIsRobust(x: Sample, i: nat)
    requires WellTyped(x) && Verdict(x) == 0 && (i == 0 || i == 2)
    ensures forall k | 0 <= k < 3 :: Parse(x.passes[k].log).wall.Some? && Parse(x.passes[k].log).wall.value > 0.0
    ensures var alone := Parse(x.passes[i].log).wall.value / Parse(x.passes[1].log).wall.value;
            && Abs(alone - Speedup(x)) <= x.tolerance.pct / 200.0 * Speedup(x)
  {
    hide Parse, Evidence, Verdict, Abs, Clean;
    ExitZeroExactly(x);
    EvidenceParts(x);
    var a, b, c := Parse(x.passes[0].log).wall.value, Parse(x.passes[1].log).wall.value, Parse(x.passes[2].log).wall.value;
    if i == 0 {
      RatioBound(a, c, b, x.tolerance.pct);
    } else {
      AbsSwap(a, c);
      assert c + a == a + c;
      RatioBound(c, a, b, x.tolerance.pct);
    }
  }

  lemma AbsSwap(a: real, c: real)
    ensures Abs(a - c) == Abs(c - a)
  {
  }

  lemma RatioBound(a: real, c: real, b: real, t: real)
    requires a > 0.0 && b > 0.0 && c > 0.0 && Abs(a - c) * 200.0 <= t * (a + c)
    ensures Abs(a / b - (a + c) / 2.0 / b) <= t / 200.0 * ((a + c) / 2.0 / b)
  {
    var mean := (a + c) / 2.0;
    assert a / b - mean / b == (a - mean) / b;
    assert a - mean == (a - c) / 2.0;
    var d := Abs(a - c) / 2.0;
    assert Abs(a / b - mean / b) == d / b;
    assert d <= t / 200.0 * mean;
    DivLe(d, t / 200.0 * mean, b);
    assert t / 200.0 * mean / b == t / 200.0 * (mean / b);
  }

  lemma DivLe(p: real, q: real, b: real)
    requires p <= q && b > 0.0
    ensures p / b <= q / b
  {
  }
}

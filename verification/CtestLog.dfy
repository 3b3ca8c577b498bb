/** `parse_ctest_log` of `ci/parallelism-verdict.py`: the workload, the wall time and the
    achieved parallel level of one ctest pass, or the reasons to refuse its log. */
module CtestLog {
  import opened Text

  /** What the five line patterns see in one line; a line can match several. */
  datatype LogLine = LogLine(
    summary: Option<nat>, total: Option<real>, duration: Option<real>,
    start: Option<string>, done: Option<string>)

  datatype Record = StartRecord | CompletionRecord | DurationRecord

  datatype Anomaly =
    | SummaryLines(n: nat)
    | TotalLines(n: nat)
    | NeverCompleted(n: nat)
    | StartedTwice(id: string)
    | NoMatchingStart(id: string)
    | CountMismatch(what: Record, got: nat, ran: nat)

  datatype Parsed = Parsed(ran: Option<nat>, wall: Option<real>, sum: Option<real>, maxInflight: Option<nat>,
                           anomalies: seq<Anomaly>)

  // -------------------------------------------------- what a log says, line by line

  predicate Starts(l: LogLine) { l.start.Some? }

  /** A completion is looked for only in a line that is not a start. */
  predicate Completes(l: LogLine) { l.start.None? && l.done.Some? }

  /** How many of the first `n` lines are starts, completions, durations, summaries, totals. */
  function CountStarts(log: seq<LogLine>, n: nat): nat
    requires n <= |log|
  {
    if n == 0 then 0 else CountStarts(log, n - 1) + if Starts(log[n - 1]) then 1 else 0
  }

  function CountDone(log: seq<LogLine>, n: nat): nat
    requires n <= |log|
  {
    if n == 0 then 0 else CountDone(log, n - 1) + if Completes(log[n - 1]) then 1 else 0
  }

  function Also<T>(xs: seq<T>, x: Option<T>): seq<T> { if x.Some? then xs + [x.value] else xs }

  function Durations(log: seq<LogLine>, n: nat): seq<real>
    requires n <= |log|
  {
    if n == 0 then [] else Also(Durations(log, n - 1), log[n - 1].duration)
  }

  function Summaries(log: seq<LogLine>, n: nat): seq<nat>
    requires n <= |log|
  {
    if n == 0 then [] else Also(Summaries(log, n - 1), log[n - 1].summary)
  }

  function Totals(log: seq<LogLine>, n: nat): seq<real>
    requires n <= |log|
  {
    if n == 0 then [] else Also(Totals(log, n - 1), log[n - 1].total)
  }

  /** The tests in flight after `n` lines. */
  function Inflight(log: seq<LogLine>, n: nat): set<string>
    requires n <= |log|
  {
    if n == 0 then {}
    else if Starts(log[n - 1]) then Inflight(log, n - 1) + {log[n - 1].start.value}
    else if Completes(log[n - 1]) then Inflight(log, n - 1) - {log[n - 1].done.value}
    else Inflight(log, n - 1)
  }

  /** The starts of a test already in flight and the completions of one that is not. */
  function Mismatches(log: seq<LogLine>, n: nat): seq<Anomaly>
    requires n <= |log|
  {
    if n == 0 then []
    else
      var l := log[n - 1];
      Also(Mismatches(log, n - 1),
           if Starts(l) && l.start.value in Inflight(log, n - 1) then Some(StartedTwice(l.start.value))
           else if Completes(l) && l.done.value !in Inflight(log, n - 1) then Some(NoMatchingStart(l.done.value))
           else None)
  }

  function Max(a: nat, b: nat): nat { if a < b then b else a }

  /** The largest number of tests in flight after any start among the first `n` lines. */
  function Peak(log: seq<LogLine>, n: nat): nat
    requires n <= |log|
  {
    if n == 0 then 0
    else if Starts(log[n - 1]) then Max(Peak(log, n - 1), |Inflight(log, n)|)
    else Peak(log, n - 1)
  }

  function Sum(xs: seq<real>): real { if xs == [] then 0.0 else Sum(xs[..|xs| - 1]) + xs[|xs| - 1] }

  function First5(xs: seq<Anomaly>): seq<Anomaly> { if |xs| <= 5 then xs else xs[..5] }

  function Mismatch(what: Record, got: nat, ran: nat): seq<Anomaly> {
    if got != ran then [CountMismatch(what, got, ran)] else []
  }

  /** `parse_ctest_log`, as a function of the matched lines. */
  function Parse(log: seq<LogLine>): Parsed {
    var n := |log|;
    var ran := if |Summaries(log, n)| == 1 then Some(Summaries(log, n)[0]) else None;
    Parsed(
      ran,
      if |Totals(log, n)| == 1 then Some(Totals(log, n)[0]) else None,
      if Durations(log, n) != [] then Some(Sum(Durations(log, n))) else None,
      if Peak(log, n) > 0 then Some(Peak(log, n)) else None,
      (if |Summaries(log, n)| != 1 then [SummaryLines(|Summaries(log, n)|)] else [])
      + (if |Totals(log, n)| != 1 then [TotalLines(|Totals(log, n)|)] else [])
      + (if Inflight(log, n) != {} then [NeverCompleted(|Inflight(log, n)|)] else [])
      + First5(Mismatches(log, n))
      + (if ran.None? then []
         else Mismatch(StartRecord, CountStarts(log, n), ran.value)
              + Mismatch(CompletionRecord, CountDone(log, n), ran.value)
              + Mismatch(DurationRecord, |Durations(log, n)|, ran.value)))
  }

  /** What the line loop has gathered. */
  datatype Scan = Scan(summaries: seq<nat>, totals: seq<real>, durations: seq<real>, inflight: set<string>,
                       peak: nat, starts: nat, completions: nat, unmatched: seq<Anomaly>)

  function Scanned(log: seq<LogLine>, n: nat): Scan
    requires n <= |log|
  {
    Scan(Summaries(log, n), Totals(log, n), Durations(log, n), Inflight(log, n), Peak(log, n),
         CountStarts(log, n), CountDone(log, n), Mismatches(log, n))
  }

  /** The body of the line loop. */
  method ScanLine(s: Scan, line: LogLine, ghost log: seq<LogLine>, ghost i: nat) returns (t: Scan)
    requires i < |log| && line == log[i] && s == Scanned(log, i)
    ensures t == Scanned(log, i + 1)
  {
    hide Also;
    t := s.(summaries := Also(s.summaries, line.summary), totals := Also(s.totals, line.total),
            durations := Also(s.durations, line.duration));
    if line.start.Some? {
      var num := line.start.value;
      var inflight := s.inflight + {num};
      t := t.(unmatched := Also(s.unmatched, if num in s.inflight then Some(StartedTwice(num)) else None),
              starts := s.starts + 1, inflight := inflight, peak := Max(s.peak, |inflight|));
    } else if line.done.Some? {
      var num := line.done.value;
      t := t.(completions := s.completions + 1, inflight := s.inflight - {num},
              unmatched := Also(s.unmatched, if num !in s.inflight then Some(NoMatchingStart(num)) else None));
    } else {
      AlsoNone(s.unmatched);
    }
  }

  lemma AlsoNone<T>(xs: seq<T>)
    ensures Also(xs, None) == xs
  {
  }

  /** `parse_ctest_log`. */
  method ParseCtestLog(log: seq<LogLine>) returns (out: Parsed)
    ensures out == Parse(log)
  {
    hide Summaries, Totals, Durations, Inflight, Peak, CountStarts, CountDone, Mismatches;
    var s := Scan([], [], [], {}, 0, 0, 0, []);
    ScanNothing(log);
    for i := 0 to |log|
      invariant s == Scanned(log, i)
    {
      s := ScanLine(s, log[i], log, i);
    }
    var ran := if |s.summaries| == 1 then Some(s.summaries[0]) else None;
    var wall := if |s.totals| == 1 then Some(s.totals[0]) else None;
    var a := (if |s.summaries| != 1 then [SummaryLines(|s.summaries|)] else [])
             + (if |s.totals| != 1 then [TotalLines(|s.totals|)] else [])
             + (if s.inflight != {} then [NeverCompleted(|s.inflight|)] else [])
             + First5(s.unmatched);
    if ran.Some? {
      a := a + (Mismatch(StartRecord, s.starts, ran.value) + Mismatch(CompletionRecord, s.completions, ran.value)
                + Mismatch(DurationRecord, |s.durations|, ran.value));
    } else {
      assert a + [] == a;
    }
    out := Parsed(ran, wall, if s.durations != [] then Some(Sum(s.durations)) else None,
                  if s.peak > 0 then Some(s.peak) else None, a);
  }

  lemma ScanNothing(log: seq<LogLine>)
    ensures Scanned(log, 0) == Scan([], [], [], {}, 0, 0, 0, [])
  {
  }

  // --------------------------------------------------------- a log with no anomaly

  predicate Clean(log: seq<LogLine>) { Parse(log).anomalies == [] }

  lemma {:induction false} MismatchesGrow(log: seq<LogLine>, m: nat, n: nat)
    requires m <= n <= |log| && Mismatches(log, n) == []
    ensures Mismatches(log, m) == []
    decreases n - m
  {
    if m < n { MismatchesGrow(log, m, n - 1); }
  }

  /** While nothing is mismatched, the tests in flight are the starts not yet completed. */
  lemma {:induction false} InflightIsDifference(log: seq<LogLine>, n: nat)
    requires n <= |log| && Mismatches(log, n) == []
    ensures |Inflight(log, n)| == CountStarts(log, n) - CountDone(log, n)
  {
    if n > 0 { InflightIsDifference(log, n - 1); }
  }

  /** A test in flight was started on some earlier line and not completed since. */
  lemma {:induction false} InflightWasStarted(log: seq<LogLine>, n: nat, id: string) returns (j: nat)
    requires n <= |log| && id in Inflight(log, n)
    ensures j < n && log[j].start == Some(id)
    ensures forall k | j < k < n :: !(Completes(log[k]) && log[k].done == Some(id))
  {
    if log[n - 1].start == Some(id) {
      j := n - 1;
    } else {
      j := InflightWasStarted(log, n - 1, id);
    }
  }

  lemma {:induction false} PeakBounds(log: seq<LogLine>, n: nat, k: nat)
    requires k <= n <= |log| && Mismatches(log, n) == []
    ensures CountStarts(log, k) - CountDone(log, k) <= Peak(log, n)
    decreases n, k
  {
    hide Mismatches, Inflight;
    if n > 0 { MismatchesGrow(log, n - 1, n); }
    if k < n {
      PeakBounds(log, n - 1, k);
    } else if n > 0 {
      InflightIsDifference(log, n);
      PeakBounds(log, n - 1, n - 1);
    }
  }

  lemma {:induction false} PeakReached(log: seq<LogLine>, n: nat) returns (k: nat)
    requires n <= |log| && Mismatches(log, n) == []
    ensures k <= n && CountStarts(log, k) - CountDone(log, k) == Peak(log, n)
  {
    if n == 0 {
      k := 0;
    } else if Starts(log[n - 1]) && Peak(log, n) == |Inflight(log, n)| {
      k := n;
      InflightIsDifference(log, n);
    } else {
      k := PeakReached(log, n - 1);
    }
  }

  lemma {:induction false} CleanMeans(log: seq<LogLine>)
    requires Clean(log)
    ensures Mismatches(log, |log|) == [] && Inflight(log, |log|) == {}
    ensures |Summaries(log, |log|)| == 1 && |Totals(log, |log|)| == 1
    ensures Parse(log).ran.Some? && Parse(log).wall.Some?
    ensures var ran := Parse(log).ran.value;
            CountStarts(log, |log|) == CountDone(log, |log|) == |Durations(log, |log|)| == ran
  {
    var p := Parse(log);
    assert |p.anomalies| == 0;
    assert First5(Mismatches(log, |log|)) == [];
  }

  /** A clean log has exactly one summary and one total, exactly `ran` starts, completions and
      durations, and every completion closes a start of the same test that is still open. */
  lemma {:induction false} CleanLogIsMatched(log: seq<LogLine>, k: nat)
    requires Clean(log) && k < |log| && Completes(log[k])
    ensures exists j | 0 <= j < k ::
              && log[j].start == log[k].done
              && forall i | j < i < k :: !(Completes(log[i]) && log[i].done == log[k].done)
  {
    CleanMeans(log);
    MismatchesGrow(log, k + 1, |log|);
    var j := InflightWasStarted(log, k, log[k].done.value);
  }

  /** The reported level is the maximum over all prefixes of starts minus completions. */
  lemma {:induction false} MaxInflightIsMaximum(log: seq<LogLine>)
    requires Clean(log)
    ensures var top := Parse(log).maxInflight.GetOr(0);
            && (forall k | 0 <= k <= |log| :: CountStarts(log, k) - CountDone(log, k) <= top)
            && (exists k | 0 <= k <= |log| :: CountStarts(log, k) - CountDone(log, k) == top)
  {
    CleanMeans(log);
    forall k | 0 <= k <= |log| ensures CountStarts(log, k) - CountDone(log, k) <= Peak(log, |log|) {
      PeakBounds(log, |log|, k);
    }
    var k := PeakReached(log, |log|);
  }

  /** A level of one means strict alternation: the tests ran one after the other. */
  lemma {:induction false} LevelOneAlternates(log: seq<LogLine>, k: nat)
    requires Clean(log) && Parse(log).maxInflight == Some(1) && k < |log|
    ensures CountStarts(log, k) - CountDone(log, k) == 0 || CountStarts(log, k) - CountDone(log, k) == 1
    ensures Starts(log[k]) ==> CountStarts(log, k) == CountDone(log, k)
    ensures Completes(log[k]) ==> CountStarts(log, k) == CountDone(log, k) + 1
  {
    CleanMeans(log);
    MismatchesGrow(log, k, |log|);
    MismatchesGrow(log, k + 1, |log|);
    InflightIsDifference(log, k);
    InflightIsDifference(log, k + 1);
    PeakBounds(log, |log|, k);
    PeakBounds(log, |log|, k + 1);
  }

  // --------------------------------------------------------------- clean, exactly

  predicate IsDone(l: LogLine, id: string) { Completes(l) && l.done == Some(id) }

  /** The test was started before line `n` and has not completed since. */
  predicate IsOpen(log: seq<LogLine>, n: nat, id: string)
    requires n <= |log|
  {
    exists j | 0 <= j < n :: log[j].start == Some(id) && forall k | j < k < n :: !IsDone(log[k], id)
  }

  lemma {:induction false} InflightExactly(log: seq<LogLine>, n: nat, id: string)
    requires n <= |log|
    ensures id in Inflight(log, n) <==> IsOpen(log, n, id)
  {
    if n > 0 {
      InflightExactly(log, n - 1, id);
      var l := log[n - 1];
      if l.start == Some(id) {
        assert IsOpen(log, n, id);
      } else if IsOpen(log, n - 1, id) && !IsDone(l, id) {
        var j :| 0 <= j < n - 1 && log[j].start == Some(id) && forall k | j < k < n - 1 :: !IsDone(log[k], id);
        assert forall k | j < k < n :: !IsDone(log[k], id);
      }
    }
  }

  /** Line `k` starts a test that is not open, or completes one that is, or does neither. */
  predicate IsMatched(log: seq<LogLine>, k: nat)
    requires k < |log|
  {
    && (Starts(log[k]) ==> !IsOpen(log, k, log[k].start.value))
    && (Completes(log[k]) ==> IsOpen(log, k, log[k].done.value))
  }

  lemma {:induction false} MismatchesExactly(log: seq<LogLine>, n: nat)
    requires n <= |log|
    ensures Mismatches(log, n) == [] <==> forall k | 0 <= k < n :: IsMatched(log, k)
  {
    hide IsOpen, Inflight;
    if n > 0 {
      MismatchesExactly(log, n - 1);
      var l := log[n - 1];
      if Starts(l) { InflightExactly(log, n - 1, l.start.value); }
      if Completes(l) { InflightExactly(log, n - 1, l.done.value); }
      assert Mismatches(log, n) == [] <==> Mismatches(log, n - 1) == [] && IsMatched(log, n - 1);
    }
  }

  /** A log has no anomaly exactly when it has one summary and one total, every line is matched, no
      test is open at the end, and starts, completions and durations are as many as the summary says. */
  lemma CleanExactly(log: seq<LogLine>)
    ensures var n := |log|;
            Clean(log) <==>
            && |Summaries(log, n)| == 1 && |Totals(log, n)| == 1
            && (forall k | 0 <= k < n :: IsMatched(log, k)) && (forall id :: !IsOpen(log, n, id))
            && CountStarts(log, n) == CountDone(log, n) == |Durations(log, n)| == Summaries(log, n)[0]
  {
    hide IsOpen, IsMatched, Inflight, Mismatches, Summaries, Totals, Durations, CountStarts, CountDone, Peak, Sum;
    var n := |log|;
    MismatchesExactly(log, n);
    forall id ensures id in Inflight(log, n) <==> IsOpen(log, n, id) { InflightExactly(log, n, id); }
    assert Inflight(log, n) == {} <==> forall id :: id !in Inflight(log, n);
    if Clean(log) { CleanMeans(log); }
  }
}

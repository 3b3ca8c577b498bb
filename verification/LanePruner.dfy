/** Which `if(VAR)` heads a lane provably leaves false: `cmake_value_false` and `lane_pruner`
    of `ci/ccache-flag-surface.py`, against every run of the tracked commands. */
module LanePruner {
  import opened Text
  import opened CMakeParse
  import opened CMakeBlocks
  import opened CMakeSubdirs
  import opened CMakeFiles

  /** What a preset or pyproject gives a variable; Other is a value that is no constant. */
  datatype Value = Unset | Flag(b: bool) | Constant(s: string) | Other

  function UpperChar(c: char): char { if 'a' <= c <= 'z' then 'A' + (c - 'a') else c }

  function Upper(s: string): string { seq(|s|, i requires 0 <= i < |s| => UpperChar(s[i])) }

  function Strip(s: string): string {
    if s != "" && IsSpace(s[0]) then Strip(s[1..])
    else if s != "" && IsSpace(s[|s| - 1]) then Strip(s[..|s| - 1])
    else s
  }

  /** CMake's false constants other than the NOTFOUND ones. */
  predicate IsShortFalse(v: string) {
    v == "" || v == "0" || v == "OFF" || v == "NO" || v == "FALSE" || v == "N" || v == "IGNORE"
  }

  predicate EndsNotFound(v: string) { |v| >= 9 && v[|v| - 9..] == "-NOTFOUND" }

  predicate IsNotFound(v: string) { v == "NOTFOUND" || EndsNotFound(v) }

  predicate IsFalseWord(v: string) { IsShortFalse(v) || IsNotFound(v) }

  /** `cmake_value_false`. */
  predicate ValueFalse(v: Value) {
    match v
    case Flag(b) => !b
    case Constant(s) => '$' !in s && IsFalseWord(Upper(Strip(s)))
    case _ => false
  }

  /** Commands that name a variable without writing it. */
  predicate IsNonWriter(name: string) {
    name in ["if", "elseif", "else", "endif", "while", "endwhile", "message"]
  }

  /** The command may write the variable: it has its name as a bare or quoted argument. */
  predicate Names(c: Cmd, v: string) {
    !IsNonWriter(c.name) && exists k | 0 <= k < |c.args| :: StripQuotes(c.args[k]) == v
  }

  predicate IsOptionOf(c: Cmd, v: string) {
    c.name == "option" && c.args != [] && c.args[0] == v
  }

  function OptionDefault(c: Cmd): string {
    if |c.args| >= 3 then StripQuotes(c.args[2]) else "OFF"
  }

  // ------------------------------------------------------------ the decision

  /** The tracked commands that are the option() of `v`, in order. */
  function OptionsOf(tracked: seq<Cmd>, v: string): seq<Cmd> {
    if tracked == [] then []
    else
      var n := |tracked| - 1;
      OptionsOf(tracked[..n], v) +
      if Names(tracked[n], v) && IsOptionOf(tracked[n], v) then [tracked[n]] else []
  }

  predicate Written(tracked: seq<Cmd>, v: string) {
    exists k | 0 <= k < |tracked| :: Names(tracked[k], v) && !IsOptionOf(tracked[k], v)
  }

  /** `known_false`. `mentioned` says the lane's free text contains the variable's name. */
  predicate KnownFalse(tracked: seq<Cmd>, lane: Value, mentioned: bool, v: string) {
    && !mentioned
    && !Written(tracked, v)
    && |OptionsOf(tracked, v)| <= 1
    && (if !lane.Unset? then ValueFalse(lane)
        else OptionsOf(tracked, v) != [] && ValueFalse(Constant(OptionDefault(OptionsOf(tracked, v)[0]))))
  }

  method NamesVariable(c: Cmd, v: string) returns (names: bool)
    ensures names <==> Names(c, v)
  {
    hide StripQuotes;
    if IsNonWriter(c.name) { return false; }
    for k := 0 to |c.args|
      invariant forall j | 0 <= j < k :: StripQuotes(c.args[j]) != v
    {
      if StripQuotes(c.args[k]) == v { return true; }
    }
    return false;
  }

  method DecideKnownFalse(tracked: seq<Cmd>, lane: Value, mentioned: bool, v: string) returns (r: bool)
    ensures r == KnownFalse(tracked, lane, mentioned, v)
  {
    hide Names, IsOptionOf, OptionDefault, ValueFalse;
    if mentioned { return false; }
    var options: seq<Cmd>, written := [], false;
    for i := 0 to |tracked|
      invariant options == OptionsOf(tracked[..i], v)
      invariant written == Written(tracked[..i], v)
    {
      var c := tracked[i];
      assert tracked[..i + 1][..i] == tracked[..i];
      assert forall k | 0 <= k < i :: tracked[..i + 1][k] == tracked[..i][k];
      var names := NamesVariable(c, v);
      if !names { continue; }
      assert tracked[..i + 1][i] == c;
      if IsOptionOf(c, v) {
        options := options + [c];
      } else {
        written := true;
      }
    }
    assert tracked[..|tracked|] == tracked;
    if written || |options| > 1 { return false; }
    if !lane.Unset? { return ValueFalse(lane); }
    if options == [] { return false; }
    return ValueFalse(Constant(OptionDefault(options[0])));
  }

  // ------------------------------------------------------------ CMake's own reading

  /** A value CMake's `if` takes for off: it is compared as it stands, white space and all, and
      the NOTFOUND forms only in capitals. */
  predicate IsOff(s: string) { IsShortFalse(Upper(s)) || IsNotFound(s) }

  predicate IsOn(s: string) {
    var u := Upper(s);
    u == "1" || u == "Y" || u == "ON" || u == "YES" || u == "TRUE"
  }

  /** The value of a variable is off; a value that is no constant may be anything. */
  predicate CMakeOff(v: Value) {
    match v
    case Unset => true
    case Flag(b) => !b
    case Constant(s) => IsOff(s)
    case Other => false
  }

  /** Names `if` reads as constants that are true, or as numbers, whatever a variable of that
      name holds. */
  predicate IsTrueName(v: string) {
    var u := Upper(v);
    IsOn(v) || u == "INF" || u == "INFINITY" || u == "NAN"
  }

  predicate IsFalseName(v: string) { IsOff(v) }

  /** `if(name)` may be true when the variable has this value. */
  predicate MayBeTrue(name: string, value: Value) {
    IsTrueName(name) || (!IsFalseName(name) && !CMakeOff(value))
  }

  /** What `option()` gives an unset variable: ON or OFF, by its default. */
  function OptionValue(c: Cmd): Value {
    var d := OptionDefault(c);
    if '$' in d then Other else Constant(if IsOn(d) then "ON" else "OFF")
  }

  // --- where the tool's reading of a value and CMake's differ

  /** A false value is written as CMake reads it: without surrounding white space, and in
      capitals when it is one of the NOTFOUND forms. */
  predicate PlainlyWritten(s: string) {
    if IsNotFound(Upper(Strip(s))) then IsNotFound(s) else Strip(s) == s
  }

  lemma SpaceStays(c: char)
    ensures IsSpace(c) ==> UpperChar(c) == c
  {
  }

  /** A word with no white space at either end is not stripped. */
  lemma WordsAreWhole(s: string)
    requires IsOn(s) || IsShortFalse(Upper(s))
    ensures Strip(s) == s
  {
    if s != "" {
      var u, n := Upper(s), |s| - 1;
      assert u[0] == UpperChar(s[0]) && u[n] == UpperChar(s[n]);
      SpaceStays(s[0]);
      SpaceStays(s[n]);
    }
  }

  lemma {:induction false} StripKeepsEnd(s: string)
    requires EndsNotFound(s)
    ensures EndsNotFound(Strip(s))
  {
    hide IsSpace;
    var n := |s| - 9;
    assert s[n] == s[n..][0] == '-' && s[|s| - 1] == s[n..][8] == 'D';
    EndsAreNotSpace();
    if IsSpace(s[0]) {
      assert s[1..][|s[1..]| - 9..] == s[n..];
      StripKeepsEnd(s[1..]);
    }
  }

  lemma EndsAreNotSpace()
    ensures !IsSpace('-') && !IsSpace('D')
  {
  }

  lemma UpperKeepsNotFound(s: string)
    requires IsNotFound(s)
    ensures IsNotFound(Upper(s))
  {
    if EndsNotFound(s) {
      var u, n := Upper(s), |s| - 9;
      forall k | 0 <= k < 9 ensures u[n..][k] == "-NOTFOUND"[k] { assert s[n..][k] == s[n + k]; }
      assert u[n..] == "-NOTFOUND";
    } else {
      assert Upper(s) == s;
    }
  }

  /** A value the tool calls false is off for CMake exactly when it is plainly written. */
  lemma FalseIsOffExactly(s: string)
    requires ValueFalse(Constant(s))
    ensures IsOff(s) <==> PlainlyWritten(s)
  {
    hide Strip, Upper;
    if IsShortFalse(Upper(s)) {
      WordsAreWhole(s);
    } else if IsNotFound(s) {
      NotFoundStays(s);
    }
  }

  lemma NotFoundStays(s: string)
    requires IsNotFound(s)
    ensures IsNotFound(Upper(Strip(s)))
  {
    if EndsNotFound(s) {
      StripKeepsEnd(s);
    } else {
      assert Strip(s) == s;
    }
    UpperKeepsNotFound(Strip(s));
  }

  /** A default the tool calls false never makes an option ON. */
  lemma FalseIsNotOn(d: string)
    requires ValueFalse(Constant(d))
    ensures !IsOn(d)
  {
    if IsOn(d) { WordsAreWhole(d); }
  }

  // -------------------------------------------------------------- every run

  /** What one command may do to a variable: nothing when it does not name it; `option()` sets
      its default only when the variable is unset; any other command may do anything. */
  predicate Effect(c: Cmd, v: string, before: Value, after: Value) {
    if !Names(c, v) then after == before
    else if IsOptionOf(c, v) then after == if before.Unset? then OptionValue(c) else before
    else true
  }

  /** A run of tracked commands, in any order and number, from what the lane sets. */
  ghost predicate IsRun(tracked: seq<Cmd>, lane: Value, v: string, run: seq<Cmd>, states: seq<Value>) {
    && |states| == |run| + 1 && states[0] == lane
    && (forall k | 0 <= k < |run| :: run[k] in tracked)
    && (forall k | 0 <= k < |run| :: Effect(run[k], v, states[k], states[k + 1]))
  }

  lemma {:induction false} OptionsHold(tracked: seq<Cmd>, v: string, c: Cmd)
    requires c in tracked && Names(c, v) && IsOptionOf(c, v)
    ensures c in OptionsOf(tracked, v)
  {
    var n := |tracked| - 1;
    if c != tracked[n] {
      assert tracked == tracked[..n] + [tracked[n]];
      OptionsHold(tracked[..n], v, c);
    }
  }

  /** At every point of every run an accepted variable has the value the lane gave it; or, when
      the lane gave none, it is unset or OFF. */
  lemma {:induction false} AcceptedStaysFalse(tracked: seq<Cmd>, lane: Value, mentioned: bool, v: string,
                                              run: seq<Cmd>, states: seq<Value>, k: nat)
    requires KnownFalse(tracked, lane, mentioned, v) && IsRun(tracked, lane, v, run, states) && k < |states|
    ensures if lane.Unset? then states[k].Unset? || states[k] == Constant("OFF") else states[k] == lane && ValueFalse(lane)
    decreases k
  {
    hide ValueFalse, IsOn;
    if k > 0 {
      AcceptedStaysFalse(tracked, lane, mentioned, v, run, states, k - 1);
      var c := run[k - 1];
      assert Effect(c, v, states[k - 1], states[k]);
      assert !Written(tracked, v);
      if Names(c, v) {
        assert IsOptionOf(c, v);
        OptionsHold(tracked, v, c);
        assert OptionsOf(tracked, v) == [c];
        if lane.Unset? {
          FalseIsNotOn(OptionDefault(c));
          NoReference(OptionDefault(c));
        }
      }
    }
  }

  lemma NoReference(d: string)
    requires ValueFalse(Constant(d))
    ensures '$' !in d
  {
  }

  function LaneValue(lane: map<string, Value>, v: string): Value { if v in lane then lane[v] else Unset }

  /** `pruned`: the head is one bare name the lane leaves false. */
  predicate Accepts(tracked: seq<Cmd>, lane: map<string, Value>, mentions: string, head: Cmd) {
    && |head.args| == 1 && IsName(head.args[0])
    && var v := head.args[0];
       KnownFalse(tracked, LaneValue(lane, v), Find(mentions, v, 0).Some?, v)
  }

  function Pruner(tracked: seq<Cmd>, lane: map<string, Value>, mentions: string): Cmd -> bool {
    (head: Cmd) => Accepts(tracked, lane, mentions, head)
  }

  // -------------------------------------------------------- conditions of a run

  /** The values of every variable along a run of commands, from what the lane sets. */
  ghost predicate IsWorld(lane: map<string, Value>, cmds: seq<Cmd>, world: (nat, string) -> Value) {
    && (forall v :: world(0, v) == LaneValue(lane, v))
    && (forall k: nat, v | k < |cmds| :: Effect(cmds[k], v, world(k, v), world(k + 1, v)))
  }

  predicate AllIn(cmds: seq<Cmd>, tracked: seq<Cmd>) {
    forall c | c in cmds :: c in tracked
  }

  function StatesOf(world: (nat, string) -> Value, v: string, n: nat): seq<Value> {
    seq(n + 1, k requires 0 <= k => world(k, v))
  }

  lemma WorldIsRun(tracked: seq<Cmd>, lane: map<string, Value>, cmds: seq<Cmd>, world: (nat, string) -> Value, v: string)
    requires IsWorld(lane, cmds, world) && AllIn(cmds, tracked)
    ensures IsRun(tracked, LaneValue(lane, v), v, cmds, StatesOf(world, v, |cmds|))
  {
    hide Effect;
  }

  /** The tool and CMake read an accepted head differently: its name is a constant or a number to
      CMake, or the lane's value for it is not plainly written. */
  predicate Misread(lane: map<string, Value>, v: string) {
    IsTrueName(v) ||
    (!IsFalseName(v) && LaneValue(lane, v).Constant? && !PlainlyWritten(LaneValue(lane, v).s))
  }

  lemma AcceptedIsFalse(tracked: seq<Cmd>, lane: map<string, Value>, mentions: string, head: Cmd,
                        cmds: seq<Cmd>, world: (nat, string) -> Value, k: nat)
    requires Accepts(tracked, lane, mentions, head) && IsWorld(lane, cmds, world) && AllIn(cmds, tracked) && k <= |cmds|
    requires !Misread(lane, head.args[0])
    ensures !MayBeTrue(head.args[0], world(k, head.args[0]))
  {
    hide IsRun, ValueFalse, IsWorld, KnownFalse, PlainlyWritten, IsOff, IsTrueName;
    var v := head.args[0];
    WorldIsRun(tracked, lane, cmds, world, v);
    AcceptedStaysFalse(tracked, LaneValue(lane, v), Find(mentions, v, 0).Some?, v, cmds, StatesOf(world, v, |cmds|), k);
    assert world(k, v) == StatesOf(world, v, |cmds|)[k];
    OffIsOff();
    FalseKinds(LaneValue(lane, v));
    if LaneValue(lane, v).Constant? { FalseIsOffExactly(LaneValue(lane, v).s); }
  }

  lemma OffIsOff()
    ensures IsOff("OFF")
  {
    assert Upper("OFF") == "OFF";
  }

  lemma FalseKinds(v: Value)
    ensures ValueFalse(v) ==> (v.Flag? && !v.b) || v.Constant?
  {
  }

  /** At some point of some run of tracked commands the head may be true. */
  ghost predicate SomewhereTrue(tracked: seq<Cmd>, lane: map<string, Value>, head: Cmd)
    requires |head.args| == 1
  {
    exists cmds: seq<Cmd>, world: (nat, string) -> Value, k: nat :: TrueAt(tracked, lane, head, cmds, world, k)
  }

  ghost predicate TrueAt(tracked: seq<Cmd>, lane: map<string, Value>, head: Cmd, cmds: seq<Cmd>,
                         world: (nat, string) -> Value, k: nat)
    requires |head.args| == 1
  {
    k <= |cmds| && AllIn(cmds, tracked) && IsWorld(lane, cmds, world) && MayBeTrue(head.args[0], world(k, head.args[0]))
  }

  lemma MisreadMayBeTrue(tracked: seq<Cmd>, lane: map<string, Value>, mentions: string, head: Cmd)
    requires Accepts(tracked, lane, mentions, head) && Misread(lane, head.args[0])
    ensures MayBeTrue(head.args[0], LaneValue(lane, head.args[0]))
  {
    hide ValueFalse, PlainlyWritten, IsOff, IsTrueName, Written, OptionsOf;
    var value := LaneValue(lane, head.args[0]);
    if value.Constant? { FalseIsOffExactly(value.s); }
  }

  /** An accepted head is false at every point of every run if and only if it is not misread. */
  lemma AcceptedHeadIsFalseExactly(tracked: seq<Cmd>, lane: map<string, Value>, mentions: string, head: Cmd)
    requires Accepts(tracked, lane, mentions, head)
    ensures SomewhereTrue(tracked, lane, head) <==> Misread(lane, head.args[0])
  {
    hide ValueFalse, KnownFalse, Effect, Misread, MayBeTrue;
    if SomewhereTrue(tracked, lane, head) {
      var cmds: seq<Cmd>, world: (nat, string) -> Value, k: nat :| TrueAt(tracked, lane, head, cmds, world, k);
      if !Misread(lane, head.args[0]) { AcceptedIsFalse(tracked, lane, mentions, head, cmds, world, k); }
    }
    if Misread(lane, head.args[0]) {
      MisreadMayBeTrue(tracked, lane, mentions, head);
      assert IsWorld(lane, [], Still(lane));
      assert TrueAt(tracked, lane, head, [], Still(lane), 0);
    }
  }

  /** Every variable keeps what the lane gave it. */
  function Still(lane: map<string, Value>): (nat, string) -> Value {
    (k: nat, v: string) => LaneValue(lane, v)
  }

  // ------------------------------------------------------------- runs of a lane

  /** A directory-scope `if` of one bare name whose condition was true. */
  predicate IsTaken(e: Event) {
    IsTakenIf(e) && |e.cmd.args| == 1 && IsName(e.cmd.args[0])
  }

  /** Every such head was decided by the value the variable had when it was reached. */
  ghost predicate SeesValues(trace: seq<Event>, at: seq<nat>, world: (nat, string) -> Value)
    requires |at| == |trace|
  {
    forall k | 0 <= k < |trace| && IsTaken(trace[k]) :: MayBeTrue(trace[k].cmd.args[0], world(at[k], trace[k].cmd.args[0]))
  }

  /** What happens in one file lies at `at` in a run of the lane: before it, between and after any
      commands of other directories and modules may run. */
  ghost predicate IsLaneRun(lane: map<string, Value>, trace: seq<Event>, run: seq<Cmd>, at: seq<nat>,
                            world: (nat, string) -> Value) {
    && |at| == |trace|
    && (forall i, j | 0 <= i < j < |at| :: at[i] < at[j])
    && (forall k | 0 <= k < |at| :: at[k] < |run| && run[at[k]] == trace[k].cmd)
    && IsWorld(lane, run, world) && SeesValues(trace, at, world)
  }

  /** The other commands of the run are tracked ones. */
  predicate OthersIn(run: seq<Cmd>, at: seq<nat>, tracked: seq<Cmd>) {
    forall j | 0 <= j < |run| && j !in at :: run[j] in tracked
  }

  /** The accepted heads of a file are not misread. */
  predicate ReadRight(tracked: seq<Cmd>, lane: map<string, Value>, mentions: string, tree: seq<Node>) {
    forall h | h in Flat(tree) && h.name == "if" && Accepts(tracked, lane, mentions, h) :: !Misread(lane, h.args[0])
  }

  lemma RunIsTracked(tracked: seq<Cmd>, trace: seq<Event>, run: seq<Cmd>, at: seq<nat>)
    requires TraceIn(trace, tracked) && OthersIn(run, at, tracked) && |at| == |trace|
    requires forall k | 0 <= k < |at| :: at[k] < |run| && run[at[k]] == trace[k].cmd
    ensures AllIn(run, tracked)
  {
    forall c | c in run ensures c in tracked {
      var j :| 0 <= j < |run| && run[j] == c;
      if j in at {
        var k :| 0 <= k < |at| && at[k] == j;
        assert trace[k] in trace;
      }
    }
  }

  lemma LaneRunObeys(tracked: seq<Cmd>, lane: map<string, Value>, mentions: string, tree: seq<Node>, choices: seq<bool>,
                     run: seq<Cmd>, at: seq<nat>, world: (nat, string) -> Value)
    requires FlatIn(tree, tracked) && ReadRight(tracked, lane, mentions, tree) && OthersIn(run, at, tracked)
    requires IsLaneRun(lane, Exec(tree, false, map[], choices).trace, run, at, world)
    ensures Obeys(Exec(tree, false, map[], choices).trace, Pruner(tracked, lane, mentions))
  {
    hide Exec, IsWorld, Misread, MayBeTrue, KnownFalse, OthersIn;
    var trace := Exec(tree, false, map[], choices).trace;
    ExecWithin(tree, false, map[], choices, tracked);
    ExecWithin(tree, false, map[], choices, Flat(tree));
    RunIsTracked(tracked, trace, run, at);
    forall e | e in trace && IsTakenIf(e) ensures !Accepts(tracked, lane, mentions, e.cmd) {
      if Accepts(tracked, lane, mentions, e.cmd) {
        var k :| 0 <= k < |trace| && trace[k] == e;
        assert IsTaken(trace[k]);
        AcceptedIsFalse(tracked, lane, mentions, e.cmd, run, world, at[k]);
      }
    }
  }

  /** End to end: in every run of the lane, whatever else runs before, between and after the
      file's own commands, and with every directory-scope bare-name condition decided by the value
      its variable has, each `add_subdirectory` the file executes is yielded under the lane's
      pruner, as long as no accepted head of the file is misread. */
  lemma LanePruningSound(tracked: seq<Cmd>, lane: map<string, Value>, mentions: string, tree: seq<Node>, choices: seq<bool>,
                         run: seq<Cmd>, at: seq<nat>, world: (nat, string) -> Value, c: Cmd)
    requires FlatIn(tree, tracked) && ReadRight(tracked, lane, mentions, tree) && OthersIn(run, at, tracked)
    requires IsLaneRun(lane, Exec(tree, false, map[], choices).trace, run, at, world)
    requires Ran(c) in Exec(tree, false, map[], choices).trace && c.name == "add_subdirectory"
    ensures c in SubdirCalls(tree, Pruner(tracked, lane, mentions), false)
  {
    hide Exec, IsLaneRun, ReadRight, SubdirCalls;
    LaneRunObeys(tracked, lane, mentions, tree, choices, run, at, world);
    PruningSound(tree, Pruner(tracked, lane, mentions), choices, c);
  }

  // ---------------------------------------------------- what goes wrong otherwise

  /** `if(v) add_subdirectory(sub) endif()`. */
  function Guarded(v: string, sub: string): seq<Node> {
    [Block(Cmd("if", [v]), [Command(Cmd("add_subdirectory", [sub]))])]
  }

  /** Every misread head drops a call that a run of the lane executes. */
  lemma MisreadDropsCall(lane: map<string, Value>, mentions: string, v: string, sub: string)
    requires Accepts(Flat(Guarded(v, sub)), lane, mentions, Cmd("if", [v])) && Misread(lane, v)
    ensures var tree, c := Guarded(v, sub), Cmd("add_subdirectory", [sub]);
            var trace := Exec(tree, false, map[], [true]).trace;
            && Ran(c) in trace && IsLaneRun(lane, trace, Flat(tree), [0, 1], Still(lane))
            && SubdirCalls(tree, Pruner(Flat(tree), lane, mentions), false) == []
  {
    hide KnownFalse, Misread, MayBeTrue, Exec, Flat, SubdirCalls, IsWorld, Still;
    var head, c := Cmd("if", [v]), Cmd("add_subdirectory", [sub]);
    var tree := Guarded(v, sub);
    GuardedRun(v, sub);
    MisreadMayBeTrue(Flat(tree), lane, mentions, head);
    StillIsWorld(lane, head, c);
    NothingYielded(v, sub, Pruner(Flat(tree), lane, mentions));
    assert Still(lane)(0, v) == LaneValue(lane, v) by { StillHolds(lane, v); }
  }

  lemma StillHolds(lane: map<string, Value>, v: string)
    ensures Still(lane)(0, v) == LaneValue(lane, v)
  {
  }

  lemma GuardedRun(v: string, sub: string)
    ensures var tree, c := Guarded(v, sub), Cmd("add_subdirectory", [sub]);
            && Flat(tree) == [Cmd("if", [v]), c]
            && Exec(tree, false, map[], [true]).trace == [Reached(Cmd("if", [v]), Some(true), false), Ran(c)]
  {
    var head, c := Cmd("if", [v]), Cmd("add_subdirectory", [sub]);
    var body := [Command(c)];
    assert Flat(body) == [c] && FlatNode(Block(head, body)) == [head, c];
    var tree := Guarded(v, sub);
    assert tree[1..] == [] && body[1..] == [];
    assert ExecCommand(c, map[], []).trace == [Ran(c)];
    assert Exec(body, false, map[], []) == Outcome([Ran(c)], map[], [], Normal);
    assert [true][1..] == [];
    assert ExecNode(tree[0], false, map[], [true]).trace == [Reached(head, Some(true), false)] + [Ran(c)];
  }

  lemma StillIsWorld(lane: map<string, Value>, a: Cmd, b: Cmd)
    requires a.name != "option" && b.name != "option"
    ensures IsWorld(lane, [a, b], Still(lane))
  {
  }

  lemma NothingYielded(v: string, sub: string, pruned: Cmd -> bool)
    requires pruned(Cmd("if", [v]))
    ensures SubdirCalls(Guarded(v, sub), pruned, false) == []
  {
    var body := [Command(Cmd("add_subdirectory", [sub]))];
    assert body[1..] == [] && AfterFirstBranch(body[1..]) == [];
    assert Guarded(v, sub)[1..] == [];
  }

  /** Two such lanes: a variable called `ON` set to `OFF`, and any other set to OFF after a blank. */
  lemma MisreadLanes()
    ensures Accepts(Flat(Guarded("ON", "x")), map["ON" := Constant("OFF")], "", Cmd("if", ["ON"]))
    ensures Misread(map["ON" := Constant("OFF")], "ON")
    ensures Accepts(Flat(Guarded("X", "x")), map["X" := Constant(" OFF")], "", Cmd("if", ["X"]))
    ensures Misread(map["X" := Constant(" OFF")], "X")
  {
    hide Flat, Accepts, Strip, ValueFalse;
    StripOff();
    SetLaneAccepts("ON", "OFF");
    SetLaneAccepts("X", " OFF");
    assert Upper("ON") == "ON" && Upper("X") == "X" && Upper("OFF") == "OFF";
  }

  lemma StripOff()
    ensures Strip(" OFF") == "OFF" == Strip("OFF")
    ensures ValueFalse(Constant(" OFF")) && ValueFalse(Constant("OFF"))
  {
    hide IsSpace;
    assert IsSpace(' ') && !IsSpace('O') && !IsSpace('F') by { Blanks(); }
    assert " OFF"[1..] == "OFF";
    assert Upper("OFF") == "OFF";
  }

  lemma Blanks()
    ensures IsSpace(' ') && !IsSpace('O') && !IsSpace('F')
  {
  }

  /** A lane that sets a plainly named variable to a false value has its guard accepted. */
  lemma SetLaneAccepts(v: string, value: string)
    requires IsName(v) && v != "x" && ValueFalse(Constant(value))
    ensures Accepts(Flat(Guarded(v, "x")), map[v := Constant(value)], "", Cmd("if", [v]))
  {
    hide Flat, ValueFalse, IsName, Find, Exec, StripQuotes;
    GuardedRun(v, "x");
    var tracked := Flat(Guarded(v, "x"));
    NotMentioned(v);
    forall k | 0 <= k < |tracked| ensures !Names(tracked[k], v) {}
    NoOptions(tracked, v);
  }

  lemma NotMentioned(v: string)
    requires IsName(v)
    ensures Find("", v, 0).None? && StripQuotes("x") == "x"
  {
  }

  lemma {:induction false} NoOptions(tracked: seq<Cmd>, v: string)
    requires forall k | 0 <= k < |tracked| :: !Names(tracked[k], v)
    ensures OptionsOf(tracked, v) == []
  {
    if tracked != [] { NoOptions(tracked[..|tracked| - 1], v); }
  }

  // ------------------------------------------------------------- the lane's files

  /** `q` is configured from `p` somewhere in a run of the lane. */
  ghost predicate LaneConfigures(src: Source, tracked: seq<Cmd>, lane: map<string, Value>, p: string, q: string) {
    Loads(src, p) && IsDirectoryFile(p) && FlatIn(Tree(src, p), tracked) &&
    exists choices: seq<bool>, run: seq<Cmd>, at: seq<nat>, world: (nat, string) -> Value, c: Cmd ::
      ConfiguresBy(src, tracked, lane, p, q, choices, run, at, world, c)
  }

  ghost predicate ConfiguresBy(src: Source, tracked: seq<Cmd>, lane: map<string, Value>, p: string, q: string, choices: seq<bool>,
                               run: seq<Cmd>, at: seq<nat>, world: (nat, string) -> Value, c: Cmd)
    requires Loads(src, p)
  {
    var trace := Exec(Tree(src, p), false, map[], choices).trace;
    && OthersIn(run, at, tracked) && IsLaneRun(lane, trace, run, at, world)
    && Ran(c) in trace && c.name == "add_subdirectory" && Target(src, p, c) == Some(q)
  }

  lemma LaneConfiguresObeying(src: Source, tracked: seq<Cmd>, lane: map<string, Value>, mentions: string, p: string, q: string)
    requires LaneConfigures(src, tracked, lane, p, q) && ReadRight(tracked, lane, mentions, Tree(src, p))
    ensures Configures(src, Pruner(tracked, lane, mentions), p, q)
  {
    hide Exec, IsLaneRun, Obeys, OthersIn, FlatIn, Tree, ReadRight;
    var choices: seq<bool>, run: seq<Cmd>, at: seq<nat>, world: (nat, string) -> Value, c: Cmd :|
      ConfiguresBy(src, tracked, lane, p, q, choices, run, at, world, c);
    LaneRunObeys(tracked, lane, mentions, Tree(src, p), choices, run, at, world);
  }

  /** A chain of directories each configured from the one before in some run of the lane. */
  ghost predicate IsLaneRoute(src: Source, tracked: seq<Cmd>, lane: map<string, Value>, route: seq<string>) {
    route != [] && route[0] == ROOT && forall k | 0 < k < |route| :: LaneConfigures(src, tracked, lane, route[k - 1], route[k])
  }

  /** Every directory reached by configurations in runs of the lane is in the list the lane's
      surface is read from. */
  lemma LaneRunsAreCovered(src: Source, tracked: seq<Cmd>, lane: map<string, Value>, mentions: string, route: seq<string>)
    requires NoDuplicates([ROOT] + src.modules) && IsLaneRoute(src, tracked, lane, route)
    requires forall p | p in route && Loads(src, p) :: ReadRight(tracked, lane, mentions, Tree(src, p))
    requires Files(src, Pruner(tracked, lane, mentions)).Some?
    ensures route[|route| - 1] in Files(src, Pruner(tracked, lane, mentions)).value
  {
    hide Configures, ReadRight, Files, ConfiguresBy, FlatIn, Tree;
    var pruned := Pruner(tracked, lane, mentions);
    forall k | 0 < k < |route| ensures Configures(src, pruned, route[k - 1], route[k]) {
      assert LaneConfigures(src, tracked, lane, route[k - 1], route[k]);
      assert route[k - 1] in route;
      LaneConfiguresObeying(src, tracked, lane, mentions, route[k - 1], route[k]);
    }
    LaneFilesCovered(src, pruned, route);
  }
}

/** Why the two SAFE verdicts are sound: a machine of nested blocks, calls and statements in which
    automatic variables are destroyed in reverse order of declaration. Whenever the classifier's
    scope-and-order test holds of a closure and a context of one activation, the context is
    destroyed first in every run; and a driving call that makes a site SAFE-DRIVEN runs after the
    spawn and while the closure is alive. */
module Lifetimes {
  import opened Text
  import opened SpawnAudit

  // ------------------------------------------------------------------- the machine

  /** A live variable: its declaration, and the function activation it belongs to. */
  datatype Variable = Variable(decl: Event, call: nat, serial: nat)

  /** One activation of a block, with a number of its own. */
  datatype Frame = Frame(scope: seq<int>, call: nat, id: nat, live: seq<Variable>)

  /** `frames[0]` holds the variables declared outside every block. */
  datatype State = State(frames: seq<Frame>, calls: nat, serial: nat)

  datatype Step =
    | Call(body: seq<int>)
    | EnterBlock(block: int)
    | Declare(decl: Event)
    | Run(at: Place)
    | Destroy
    | Leave

  function Top(s: State): Frame
    requires s.frames != []
  {
    s.frames[|s.frames| - 1]
  }

  function Below(s: State): seq<Frame>
    requires s.frames != []
  {
    s.frames[..|s.frames| - 1]
  }

  /** Any body can be called, that of a closure too; a block is entered from its parent block; a
      statement runs in its own block, and so does a declaration, after the live ones that stand
      before it; a block is left once its variables are gone. */
  predicate Enabled(s: State, step: Step) {
    && s.frames != []
    && match step
       case Call(body) => body != []
       case EnterBlock(_) => Top(s).scope != []
       case Declare(d) => d.at.scope == Top(s).scope && forall v | v in Top(s).live && v.decl.at.file == d.at.file :: v.decl.at.off < d.at.off
       case Run(at) => at.scope == Top(s).scope
       case Destroy => Top(s).live != []
       case Leave => |s.frames| > 1 && Top(s).live == []
  }

  function Apply(s: State, step: Step): State
    requires Enabled(s, step)
  {
    match step
    case Call(body) => State(s.frames + [Frame(body, s.calls + 1, s.serial, [])], s.calls + 1, s.serial + 1)
    case EnterBlock(b) => State(s.frames + [Frame(Top(s).scope + [b], Top(s).call, s.serial, [])], s.calls, s.serial + 1)
    case Declare(d) =>
      var v := Variable(d, Top(s).call, s.serial);
      State(Below(s) + [Top(s).(live := Top(s).live + [v])], s.calls, s.serial + 1)
    case Run(_) => s
    case Destroy => State(Below(s) + [Top(s).(live := Top(s).live[..|Top(s).live| - 1])], s.calls, s.serial)
    case Leave => State(Below(s), s.calls, s.serial)
  }

  /** The variable a step destroys. */
  function Destroyed(s: State, step: Step): Option<Variable>
    requires Enabled(s, step)
  {
    if step.Destroy? then Some(Top(s).live[|Top(s).live| - 1]) else None
  }

  const Start := State([Frame([], 0, 0, [])], 0, 1)

  ghost predicate IsRun(states: seq<State>, steps: seq<Step>) {
    && |states| == |steps| + 1 && states[0] == Start
    && forall i | 0 <= i < |steps| :: Enabled(states[i], steps[i]) && states[i + 1] == Apply(states[i], steps[i])
  }

  predicate IsLive(s: State, v: Variable) {
    exists i | 0 <= i < |s.frames| :: v in s.frames[i].live
  }

  // ------------------------------------------------------------------- the invariant

  predicate FrameOk(f: Frame) {
    && (forall v | v in f.live :: v.decl.at.scope == f.scope && v.call == f.call)
    && (forall i, j | 0 <= i < j < |f.live| && f.live[i].decl.at.file == f.live[j].decl.at.file ::
          f.live[i].decl.at.off < f.live[j].decl.at.off)
  }

  /** Frames of one call lie above one another with ever longer scopes. */
  predicate Stacked(frames: seq<Frame>) {
    && (forall i | 0 < i < |frames| :: frames[i].scope != [])
    && (forall i, j | 0 <= i < j < |frames| :: frames[i].call <= frames[j].call)
    && (forall i, j | 0 <= i < j < |frames| && frames[i].call == frames[j].call ::
          |frames[i].scope| < |frames[j].scope|)
    && (forall i, j | 0 <= i < j < |frames| :: frames[i].id < frames[j].id)
  }

  predicate Inv(s: State) {
    && s.frames != [] && s.frames[0].scope == []
    && (forall i | 0 <= i < |s.frames| :: s.frames[i].call <= s.calls && s.frames[i].id < s.serial)
    && Stacked(s.frames)
    && (forall i | 0 <= i < |s.frames| :: FrameOk(s.frames[i]))
  }

  lemma PushStacked(frames: seq<Frame>, f: Frame)
    requires frames != [] && Stacked(frames) && f.scope != []
    requires var top := frames[|frames| - 1];
             && (top.call < f.call || (top.call == f.call && |top.scope| < |f.scope|))
             && top.id < f.id
    ensures Stacked(frames + [f])
  {
    var top := frames[|frames| - 1];
    var out := frames + [f];
    forall i | 0 <= i < |frames|
      ensures out[i].call <= f.call && (out[i].call == f.call ==> |out[i].scope| < |f.scope|) && out[i].id < f.id
    {
      assert frames[i] == out[i];
      assert i == |frames| - 1 || (frames[i].call <= top.call && frames[i].id < top.id);
    }
  }

  lemma PushKeeps(s: State, f: Frame, calls: nat)
    requires Inv(s) && f.scope != [] && f.live == [] && f.id == s.serial && s.calls <= calls && f.call <= calls
    requires Top(s).call < f.call || (Top(s).call == f.call && |Top(s).scope| < |f.scope|)
    ensures Inv(State(s.frames + [f], calls, s.serial + 1))
  {
    hide Stacked;
    PushStacked(s.frames, f);
  }

  lemma ReplaceKeeps(s: State, live: seq<Variable>, serial: nat)
    requires Inv(s) && FrameOk(Top(s).(live := live)) && s.serial <= serial
    ensures Inv(State(Below(s) + [Top(s).(live := live)], s.calls, serial))
  {
    hide FrameOk;
    var out := Below(s) + [Top(s).(live := live)];
    assert forall i | 0 <= i < |out| ::
        out[i].call == s.frames[i].call && out[i].scope == s.frames[i].scope && out[i].id == s.frames[i].id;
  }

  lemma LeaveKeeps(s: State)
    requires Inv(s) && |s.frames| > 1
    ensures Inv(State(Below(s), s.calls, s.serial))
  {
    hide FrameOk;
  }

  lemma DeclareKeeps(f: Frame, v: Variable)
    requires FrameOk(f) && v.decl.at.scope == f.scope && v.call == f.call
    requires forall u | u in f.live && u.decl.at.file == v.decl.at.file :: u.decl.at.off < v.decl.at.off
    ensures FrameOk(f.(live := f.live + [v]))
  {
  }

  lemma DestroyKeeps(f: Frame)
    requires FrameOk(f) && f.live != []
    ensures FrameOk(f.(live := f.live[..|f.live| - 1]))
  {
  }

  lemma TopOk(s: State)
    requires Inv(s)
    ensures s.frames != [] && FrameOk(Top(s)) && Top(s).call <= s.calls && Top(s).id < s.serial
  {
  }

  lemma StepKeeps(s: State, step: Step)
    requires Inv(s) && Enabled(s, step)
    ensures Inv(Apply(s, step))
  {
    hide Inv, FrameOk, Stacked;
    TopOk(s);
    match step
    case Call(body) =>
      PushKeeps(s, Frame(body, s.calls + 1, s.serial, []), s.calls + 1);
    case EnterBlock(b) =>
      PushKeeps(s, Frame(Top(s).scope + [b], Top(s).call, s.serial, []), s.calls);
    case Declare(d) =>
      var v := Variable(d, Top(s).call, s.serial);
      DeclareKeeps(Top(s), v);
      ReplaceKeeps(s, Top(s).live + [v], s.serial + 1);
    case Run(_) =>
    case Destroy =>
      DestroyKeeps(Top(s));
      ReplaceKeeps(s, Top(s).live[..|Top(s).live| - 1], s.serial);
    case Leave =>
      LeaveKeeps(s);
  }

  lemma {:induction false} RunKeeps(states: seq<State>, steps: seq<Step>, n: nat)
    requires IsRun(states, steps) && n < |states|
    ensures Inv(states[n])
  {
    if n > 0 {
      RunKeeps(states, steps, n - 1);
      StepKeeps(states[n - 1], steps[n - 1]);
    }
  }

  // ------------------------------------------------------------------- the theorem

  /** The closure and the context belong to one activation, or the closure to the whole program. */
  predicate Together(closure: Variable, ctx: Variable) {
    closure.decl.at.scope == [] || closure.call == ctx.call
  }

  /** A context that the scope-and-order test accepts lies above the closure on the stack. */
  lemma LiesAbove(s: State, keys: set<string>, x: Variable, y: Variable, i: nat, j: nat)
    requires Inv(s) && i < |s.frames| && j < |s.frames| && x in s.frames[i].live && y in s.frames[j].live
    requires Outlives(x.decl.at, keys, y.decl) && Together(x, y)
    ensures i < j || (i == j && Before(x.decl.at, y.decl.at))
  {
    assert FrameOk(s.frames[i]) && FrameOk(s.frames[j]);
  }

  /** While such a context is live, the closure is not the variable to be destroyed next. */
  lemma NotLast(s: State, keys: set<string>, x: Variable, y: Variable, a: nat)
    requires Inv(s) && a < |Top(s).live| && x == Top(s).live[a]
    requires Outlives(x.decl.at, keys, y.decl) && Together(x, y) && IsLive(s, y)
    ensures a < |Top(s).live| - 1
  {
    var j :| 0 <= j < |s.frames| && y in s.frames[j].live;
    LiesAbove(s, keys, x, y, |s.frames| - 1, j);
    assert FrameOk(Top(s));
  }

  lemma StaysLive(s: State, step: Step, y: Variable)
    requires Enabled(s, step) && IsLive(s, y) && Destroyed(s, step) != Some(y)
    ensures IsLive(Apply(s, step), y)
  {
    var i :| 0 <= i < |s.frames| && y in s.frames[i].live;
    var t := Apply(s, step);
    if i < |t.frames| {
      assert y in t.frames[i].live;
    }
  }

  lemma {:induction false} SomeStepDestroys(states: seq<State>, steps: seq<Step>, t0: nat, t1: nat, y: Variable)
    requires IsRun(states, steps) && t0 <= t1 < |states|
    requires IsLive(states[t0], y) && !IsLive(states[t1], y)
    ensures exists k | t0 <= k < t1 :: Destroyed(states[k], steps[k]) == Some(y)
    decreases t1 - t0
  {
    hide IsLive, Apply, Enabled;
    if IsLive(states[t1 - 1], y) {
      if Destroyed(states[t1 - 1], steps[t1 - 1]) != Some(y) { StaysLive(states[t1 - 1], steps[t1 - 1], y); }
    } else {
      SomeStepDestroys(states, steps, t0, t1 - 1, y);
    }
  }

  /** In every run, a context the test accepts that was live with the closure, in one
      activation, has been destroyed by the time the closure is. */
  lemma ContextDiesFirst(states: seq<State>, steps: seq<Step>, keys: set<string>, x: Variable, y: Variable, t0: nat, t1: nat)
    requires IsRun(states, steps) && t0 <= t1 < |steps|
    requires Outlives(x.decl.at, keys, y.decl) && Together(x, y)
    requires IsLive(states[t0], y) && Destroyed(states[t1], steps[t1]) == Some(x)
    ensures exists k | t0 <= k < t1 :: Destroyed(states[k], steps[k]) == Some(y)
  {
    hide Outlives, IsLive, Inv;
    RunKeeps(states, steps, t1);
    if IsLive(states[t1], y) { NotLast(states[t1], keys, x, y, |Top(states[t1]).live| - 1); }
    SomeStepDestroys(states, steps, t0, t1, y);
  }

  /** SAFE-OUTLIVES is sound: every executor path of the site has a context that, whenever it was
      live in the closure's activation, is destroyed before the closure in every run. */
  lemma OutlivesIsSound(site: Site, events: seq<Event>, p: seq<string>)
    requires Classification(site, events) == SafeOutlives && IsPath(AliasOf(events), site.execKey, p)
    ensures exists ctx | ctx in events :: ctx.IocDecl? && ctx.key in p && DiesBefore(ctx, Nearest(site, events).value)
  {
    hide Classification, AliasOf, IsPath, Nearest;
    VerdictIsWorstPath(site, events);
    var decl := Nearest(site, events).value;
    var keys := Elems(p);
    var ctx :| ctx in events && Outlives(decl.at, keys, ctx);
    TestIsSound(decl, ctx, keys);
  }

  lemma TestIsSound(decl: Event, ctx: Event, keys: set<string>)
    requires Outlives(decl.at, keys, ctx)
    ensures DiesBefore(ctx, decl)
  {
    hide Outlives;
    forall states, steps, x, y, t0: nat, t1: nat
      | Exposes(states, steps, decl, ctx, x, y, t0, t1)
      ensures exists k | t0 <= k < t1 :: Destroyed(states[k], steps[k]) == Some(y)
    {
      ContextDiesFirst(states, steps, keys, x, y, t0, t1);
    }
  }

  /** In this run the context instance `y` is live at `t0`, in the activation of the closure
      instance `x`, which is destroyed at `t1`. */
  ghost predicate Exposes(states: seq<State>, steps: seq<Step>, closure: Event, ctx: Event,
                          x: Variable, y: Variable, t0: nat, t1: nat) {
    && IsRun(states, steps) && t0 <= t1 < |steps|
    && x.decl == closure && y.decl == ctx && Together(x, y)
    && IsLive(states[t0], y) && Destroyed(states[t1], steps[t1]) == Some(x)
  }

  ghost predicate DiesBefore(ctx: Event, closure: Event) {
    forall states, steps, x, y, t0: nat, t1: nat | Exposes(states, steps, closure, ctx, x, y, t0, t1) ::
      exists k | t0 <= k < t1 :: Destroyed(states[k], steps[k]) == Some(y)
  }

  // ------------------------------------------------------------------- activations over time

  /** Activation `k` is frame `i` of the stack. */
  predicate IsAt(s: State, i: nat, k: nat) { i < |s.frames| && s.frames[i].id == k }

  /** Within a call each block stands directly on its parent. */
  predicate Chained(frames: seq<Frame>) {
    forall i | 0 < i < |frames| && frames[i - 1].call == frames[i].call ::
      frames[i - 1].scope <= frames[i].scope && |frames[i].scope| == |frames[i - 1].scope| + 1
  }

  lemma ChainedStep(s: State, step: Step)
    requires Inv(s) && Enabled(s, step) && Chained(s.frames)
    ensures Chained(Apply(s, step).frames)
  {
    hide FrameOk, Stacked;
    TopOk(s);
    var t := Apply(s, step);
    forall i | 0 < i < |t.frames| && t.frames[i - 1].call == t.frames[i].call
      ensures t.frames[i - 1].scope <= t.frames[i].scope && |t.frames[i].scope| == |t.frames[i - 1].scope| + 1
    {
      if i < |s.frames| {
        assert t.frames[i].scope == s.frames[i].scope && t.frames[i].call == s.frames[i].call;
        assert t.frames[i - 1].scope == s.frames[i - 1].scope && t.frames[i - 1].call == s.frames[i - 1].call;
      }
    }
  }

  lemma {:induction false} RunChained(states: seq<State>, steps: seq<Step>, n: nat)
    requires IsRun(states, steps) && n < |states|
    ensures Chained(states[n].frames)
  {
    hide Inv, Enabled, Apply, Chained;
    if n > 0 {
      RunChained(states, steps, n - 1);
      RunKeeps(states, steps, n - 1);
      ChainedStep(states[n - 1], steps[n - 1]);
    } else {
      StartChained();
    }
  }

  lemma StartChained()
    ensures Chained(Start.frames)
  {
  }

  /** Inside one call every frame's scope encloses those above it. */
  lemma {:induction false} ScopesNest(s: State, i: nat, j: nat)
    requires Inv(s) && Chained(s.frames) && i <= j < |s.frames| && s.frames[i].call == s.frames[j].call
    ensures s.frames[i].scope <= s.frames[j].scope && |s.frames[j].scope| == |s.frames[i].scope| + (j - i)
    decreases j - i
  {
    hide FrameOk;
    if i < j { ScopesNest(s, i, j - 1); }
  }

  /** A step touches the top frame only, and keeps what the others are. */
  lemma StackStep(s: State, step: Step, i: nat)
    requires Enabled(s, step) && i < |s.frames| && i < |Apply(s, step).frames|
    ensures var f, g := s.frames[i], Apply(s, step).frames[i]; g.id == f.id && g.scope == f.scope && g.call == f.call
    ensures i < |s.frames| - 1 ==> Apply(s, step).frames[i] == s.frames[i]
    ensures !step.Destroy? ==> forall v | v in s.frames[i].live :: v in Apply(s, step).frames[i].live
  {
  }

  /** An activation that has been left is gone for good. */
  lemma GoneStep(s: State, step: Step, k: nat)
    requires Enabled(s, step) && k < s.serial && forall i | 0 <= i < |s.frames| :: s.frames[i].id != k
    ensures var t := Apply(s, step); k < t.serial && forall i | 0 <= i < |t.frames| :: t.frames[i].id != k
  {
    var t := Apply(s, step);
    forall i | 0 <= i < |t.frames| ensures t.frames[i].id != k {
      if i < |s.frames| { assert s.frames[i].id != k; }
    }
  }

  lemma {:induction false} Gone(states: seq<State>, steps: seq<Step>, a: nat, b: nat, k: nat)
    requires IsRun(states, steps) && a <= b < |states| && k < states[a].serial
    requires forall i | 0 <= i < |states[a].frames| :: states[a].frames[i].id != k
    ensures forall i | 0 <= i < |states[b].frames| :: states[b].frames[i].id != k
    decreases b - a
  {
    hide Enabled, Apply;
    if a < b {
      GoneStep(states[a], steps[a], k);
      Gone(states, steps, a + 1, b, k);
    }
  }

  /** Between two times at which an activation is on the stack it keeps its place. */
  lemma {:induction false} Stays(states: seq<State>, steps: seq<Step>, a: nat, b: nat, i: nat, k: nat, t: nat)
    requires IsRun(states, steps) && a <= t <= b < |states| && IsAt(states[a], i, k) && IsAt(states[b], i, k)
    ensures IsAt(states[t], i, k)
    ensures states[t].frames[i].scope == states[a].frames[i].scope && states[t].frames[i].call == states[a].frames[i].call
    decreases t - a
  {
    hide Inv, Enabled, Apply;
    if a < t {
      Stays(states, steps, a, b, i, k, t - 1);
      var s, step := states[t - 1], steps[t - 1];
      if i < |states[t].frames| {
        StackStep(s, step, i);
      } else {
        RunKeeps(states, steps, t - 1);
        LeftIsGone(s, step, i);
        Gone(states, steps, t, b, k);
      }
    }
  }

  lemma LeftIsGone(s: State, step: Step, i: nat)
    requires Inv(s) && Enabled(s, step) && i < |s.frames| && |Apply(s, step).frames| <= i
    ensures var t := Apply(s, step);
            s.frames[i].id < t.serial && forall j | 0 <= j < |t.frames| :: t.frames[j].id != s.frames[i].id
  {
    hide FrameOk;
  }

  /** When the activation was on top for the first time. */
  lemma {:induction false} Born(states: seq<State>, steps: seq<Step>, t: nat, i: nat, k: nat) returns (a: nat)
    requires IsRun(states, steps) && t < |states| && IsAt(states[t], i, k)
    ensures a <= t && IsAt(states[a], i, k) && |states[a].frames| == i + 1
    decreases t
  {
    hide Enabled, Apply;
    if |states[t].frames| == i + 1 { return t; }
    assert t > 0;
    GrowsByOne(states[t - 1], steps[t - 1]);
    StackStep(states[t - 1], steps[t - 1], i);
    a := Born(states, steps, t - 1, i, k);
  }

  lemma GrowsByOne(s: State, step: Step)
    requires Enabled(s, step)
    ensures |Apply(s, step).frames| <= |s.frames| + 1
    ensures |Apply(s, step).frames| == |s.frames| + 1 <==> step.Call? || step.EnterBlock?
  {
  }

  /** When the frame above the activation, at time `b`, was entered. */
  lemma {:induction false} Entered(states: seq<State>, steps: seq<Step>, a: nat, b: nat, i: nat, k: nat) returns (n: nat)
    requires IsRun(states, steps) && a <= b < |states| && IsAt(states[a], i, k) && IsAt(states[b], i, k)
    requires |states[b].frames| > i + 1 && !IsAt(states[a], i + 1, states[b].frames[i + 1].id)
    ensures a <= n < b && |states[n].frames| == i + 1 && IsAt(states[n], i, k) && (steps[n].Call? || steps[n].EnterBlock?)
    ensures IsAt(states[n + 1], i + 1, states[b].frames[i + 1].id)
    ensures states[n + 1].frames[i + 1].scope == states[b].frames[i + 1].scope
    ensures states[n + 1].frames[i + 1].call == states[b].frames[i + 1].call
    decreases b
  {
    hide Enabled, Apply;
    var m := states[b].frames[i + 1].id;
    Stays(states, steps, a, b, i, k, b - 1);
    if IsAt(states[b - 1], i + 1, m) {
      StackStep(states[b - 1], steps[b - 1], i + 1);
      n := Entered(states, steps, a, b - 1, i, k);
    } else {
      n := b - 1;
      if |states[n].frames| > i + 1 { StackStep(states[n], steps[n], i + 1); }
      GrowsByOne(states[n], steps[n]);
    }
  }

  // ------------------------------------------------------------------- source order

  /** The text of a block. */
  datatype Extent = Extent(file: string, lo: int, hi: int)

  type Layout = seq<int> -> Extent

  predicate Within(p: Place, x: Extent) { p.file == x.file && x.lo <= p.off <= x.hi }

  /** The place lies in the text of exactly the blocks that enclose it. */
  ghost predicate Fits(layout: Layout, p: Place) {
    forall scope: seq<int> | scope != [] :: Within(p, layout(scope)) <==> Encloses(scope, p.scope)
  }

  predicate IsStatement(step: Step) { step.Run? || step.EnterBlock? }

  /** The text of a statement: of a block, all of it. */
  function TextOf(layout: Layout, s: State, step: Step): Extent
    requires s.frames != [] && IsStatement(step)
  {
    if step.Run? then Extent(step.at.file, step.at.off, step.at.off) else layout(Top(s).scope + [step.block])
  }

  ghost predicate InOrder(layout: Layout, states: seq<State>, steps: seq<Step>, i: nat, j: nat)
    requires i < j < |steps| < |states|
  {
    var s, t := states[i], states[j];
    s.frames != [] && t.frames != [] && Top(s).id == Top(t).id && IsStatement(steps[j]) ==>
      && !steps[i].Destroy?
      && (IsStatement(steps[i]) ==>
            var x, y := TextOf(layout, s, steps[i]), TextOf(layout, t, steps[j]);
            x.file == y.file ==> x.lo <= y.lo)
  }

  /** Each activation of a block goes through its statements in source order, and runs none once it
      has begun to destroy its variables. A loop enters its body again. */
  ghost predicate Forward(layout: Layout, states: seq<State>, steps: seq<Step>)
    requires |steps| < |states|
  {
    forall i: nat, j: nat | i < j < |steps| :: InOrder(layout, states, steps, i, j)
  }

  /** `c` is the innermost block around both. */
  predicate IsFork(c: seq<int>, a: seq<int>, b: seq<int>) {
    c <= a && c <= b && (|c| < |a| && |c| < |b| ==> a[|c|] != b[|c|])
  }

  lemma ForkIsInside(outer: seq<int>, c: seq<int>, a: seq<int>, b: seq<int>)
    requires IsFork(c, a, b) && outer <= a && outer <= b
    ensures |outer| <= |c|
  {
    forall n | 0 <= n < |outer| ensures a[n] == b[n] { assert a[n] == outer[n]; }
  }

  /** The place runs at time `t` in activation `k`, which is frame `i`, or in a block inside it. */
  ghost predicate RunsIn(states: seq<State>, steps: seq<Step>, i: nat, k: nat, p: Place, t: nat) {
    && IsRun(states, steps) && t < |steps| < |states| && steps[t] == Run(p)
    && IsAt(states[t], i, k) && states[t].frames[i].call == Top(states[t]).call
  }

  /** At time `n` the activation begins the statement of its own that the place is part of. */
  ghost predicate Begins(layout: Layout, states: seq<State>, steps: seq<Step>, i: nat, k: nat, p: Place, t: nat, n: nat)
    requires RunsIn(states, steps, i, k, p, t)
  {
    && n <= t && |states[n].frames| == i + 1 && IsAt(states[n], i, k) && IsStatement(steps[n])
    && states[n].frames[i].scope == states[t].frames[i].scope
    && Within(p, TextOf(layout, states[n], steps[n]))
    && (if n == t then true else steps[n].EnterBlock? && states[t].frames[i].scope + [steps[n].block] <= p.scope)
  }

  /** The frames from an activation up to the top of its call nest. */
  lemma CallNests(states: seq<State>, steps: seq<Step>, i: nat, k: nat, p: Place, t: nat)
    requires RunsIn(states, steps, i, k, p, t)
    ensures states[t].frames[i].scope <= p.scope
    ensures |states[t].frames| > i + 1 ==>
              && states[t].frames[i + 1].call == states[t].frames[i].call
              && |states[t].frames[i + 1].scope| == |states[t].frames[i].scope| + 1
              && states[t].frames[i].scope <= states[t].frames[i + 1].scope <= p.scope
  {
    hide Apply, FrameOk, Chained;
    RunKeeps(states, steps, t);
    RunChained(states, steps, t);
    var s := states[t];
    assert Enabled(s, steps[t]);
    ScopesNest(s, i, |s.frames| - 1);
    if |s.frames| > i + 1 {
      assert s.frames[i].call <= s.frames[i + 1].call <= Top(s).call;
      ScopesNest(s, i, i + 1);
      ScopesNest(s, i + 1, |s.frames| - 1);
    }
  }

  lemma Statement(layout: Layout, states: seq<State>, steps: seq<Step>, i: nat, k: nat, p: Place, t: nat, a: nat) returns (n: nat)
    requires RunsIn(states, steps, i, k, p, t) && Fits(layout, p) && a <= t && IsAt(states[a], i, k)
    requires |states[t].frames| > i + 1 ==> !IsAt(states[a], i + 1, states[t].frames[i + 1].id)
    ensures a <= n && Begins(layout, states, steps, i, k, p, t, n)
  {
    hide Inv, Chained, Fits;
    CallNests(states, steps, i, k, p, t);
    if |states[t].frames| == i + 1 {
      n := t;
    } else {
      n := Entered(states, steps, a, t, i, k);
      Stays(states, steps, a, t, i, k, n);
      Stays(states, steps, a, t, i, k, t);
      RunKeeps(states, steps, n);
      EnteredBlock(states[n], steps[n], i, states[t].frames[i + 1]);
      var scope := states[t].frames[i + 1].scope;
      FitsIn(layout, p, scope);
    }
  }

  lemma FitsIn(layout: Layout, p: Place, scope: seq<int>)
    requires Fits(layout, p) && scope != []
    ensures Within(p, layout(scope)) <==> scope <= p.scope
  {
  }

  /** A frame of the same call on top of the top frame is a block of it. */
  lemma EnteredBlock(s: State, step: Step, i: nat, g: Frame)
    requires Inv(s) && Enabled(s, step) && (step.Call? || step.EnterBlock?) && |s.frames| == i + 1
    requires var h := Apply(s, step).frames[i + 1]; h.scope == g.scope && h.call == g.call == s.frames[i].call
    ensures step.EnterBlock? && g.scope == s.frames[i].scope + [step.block]
  {
    hide FrameOk, Stacked;
  }

  /** The spawn and the driving call run in one activation of the innermost block around both,
      which goes forward, and `x` is the closure of that activation. */
  ghost predicate Shares(layout: Layout, states: seq<State>, steps: seq<Step>, spawn: Place, drive: Place, closure: Event,
                         x: Variable, i: nat, k: nat, t0: nat, t1: nat) {
    && RunsIn(states, steps, i, k, spawn, t0) && RunsIn(states, steps, i, k, drive, t1)
    && IsFork(states[t0].frames[i].scope, spawn.scope, drive.scope)
    && Forward(layout, states, steps) && Fits(layout, spawn) && Fits(layout, drive)
    && IsLive(states[t0], x) && x.decl == closure && (closure.at.scope == [] || x.call == Top(states[t0]).call)
  }

  /** It cannot be that the later place began first. */
  lemma LaterText(layout: Layout, states: seq<State>, steps: seq<Step>, i: nat, k: nat, spawn: Place, drive: Place,
                  t0: nat, t1: nat, n0: nat, n1: nat)
    requires RunsIn(states, steps, i, k, spawn, t0) && RunsIn(states, steps, i, k, drive, t1)
    requires Begins(layout, states, steps, i, k, spawn, t0, n0) && Begins(layout, states, steps, i, k, drive, t1, n1)
    requires IsFork(states[t1].frames[i].scope, spawn.scope, drive.scope) && Fits(layout, spawn) && Before(spawn, drive)
    requires Forward(layout, states, steps)
    ensures n0 <= n1
  {
    hide IsRun, Fits;
    if n1 < n0 {
      assert InOrder(layout, states, steps, n1, n0);
      var text := TextOf(layout, states[n1], steps[n1]);
      assert Within(spawn, text);
      if n1 != t1 {
        var scope := states[t1].frames[i].scope + [steps[n1].block];
        FitsIn(layout, spawn, scope);
        ForkIsInside(scope, states[t1].frames[i].scope, spawn.scope, drive.scope);
      }
    }
  }

  /** The driving call runs after the spawn. */
  lemma RunsLater(layout: Layout, states: seq<State>, steps: seq<Step>, spawn: Place, drive: Place, closure: Event,
                  x: Variable, i: nat, k: nat, t0: nat, t1: nat)
    requires Shares(layout, states, steps, spawn, drive, closure, x, i, k, t0, t1) && Before(spawn, drive)
    ensures t0 < t1
  {
    hide Fits, Forward, IsLive, Begins;
    if t1 <= t0 {
      Stays(states, steps, t1, t0, i, k, t0);
      var a := Born(states, steps, t1, i, k);
      var n1 := Statement(layout, states, steps, i, k, drive, t1, a);
      Forks(states, steps, spawn, drive, i, k, t0, t1);
      var n0 := Statement(layout, states, steps, i, k, spawn, t0, t1);
      LaterText(layout, states, steps, i, k, spawn, drive, t0, t1, n0, n1);
      NotAtRun(layout, states, steps, spawn, drive, i, k, t0, t1, n0, n1);
    }
  }

  /** The blocks that the two run in, if any, are different frames. */
  lemma Forks(states: seq<State>, steps: seq<Step>, spawn: Place, drive: Place, i: nat, k: nat, t0: nat, t1: nat)
    requires RunsIn(states, steps, i, k, spawn, t0) && RunsIn(states, steps, i, k, drive, t1) && t1 <= t0
    requires IsFork(states[t0].frames[i].scope, spawn.scope, drive.scope)
    ensures |states[t0].frames| > i + 1 ==> !IsAt(states[t1], i + 1, states[t0].frames[i + 1].id)
  {
    hide IsRun;
    CallNests(states, steps, i, k, spawn, t0);
    CallNests(states, steps, i, k, drive, t1);
    Stays(states, steps, t1, t0, i, k, t0);
    if |states[t0].frames| > i + 1 && IsAt(states[t1], i + 1, states[t0].frames[i + 1].id) {
      Stays(states, steps, t1, t0, i + 1, states[t0].frames[i + 1].id, t0);
      ForkIsInside(states[t0].frames[i + 1].scope, states[t0].frames[i].scope, spawn.scope, drive.scope);
    }
  }

  lemma NotAtRun(layout: Layout, states: seq<State>, steps: seq<Step>, spawn: Place, drive: Place, i: nat, k: nat,
                 t0: nat, t1: nat, n0: nat, n1: nat)
    requires RunsIn(states, steps, i, k, spawn, t0) && RunsIn(states, steps, i, k, drive, t1) && Before(spawn, drive)
    requires Begins(layout, states, steps, i, k, spawn, t0, n0) && Begins(layout, states, steps, i, k, drive, t1, n1)
    ensures t1 <= n0 ==> n1 < n0
  {
    hide IsRun;
  }

  // ------------------------------------------------------------------- the closure stays alive

  /** While frame `j` is not on top, or at least not being destroyed or left, its variables stay. */
  lemma KeptStep(s: State, step: Step, j: nat, x: Variable)
    requires Enabled(s, step) && j < |s.frames| && x in s.frames[j].live
    requires j == |s.frames| - 1 ==> !step.Destroy?
    ensures j < |Apply(s, step).frames| && x in Apply(s, step).frames[j].live
  {
    if step == Leave { assert j < |s.frames| - 1; }
    StackStep(s, step, j);
  }

  /** The activation destroys nothing between two statements that run in it. */
  lemma NoDestroy(layout: Layout, states: seq<State>, steps: seq<Step>, i: nat, k: nat, p: Place, t: nat, a: nat)
    requires RunsIn(states, steps, i, k, p, t) && Forward(layout, states, steps) && Fits(layout, p)
    requires a < t && IsAt(states[a], i, k) && |states[a].frames| == i + 1
    ensures !steps[a].Destroy?
  {
    hide Fits, IsRun;
    var n := Statement(layout, states, steps, i, k, p, t, a);
    if n != a { assert InOrder(layout, states, steps, a, n); }
  }

  /** Where the closure of the activation lies. */
  lemma ClosureBelow(s: State, x: Variable, i: nat) returns (j: nat)
    requires Inv(s) && Chained(s.frames) && i < |s.frames| && IsLive(s, x)
    requires x.decl.at.scope == [] || x.call == s.frames[i].call
    requires |x.decl.at.scope| <= |s.frames[i].scope|
    ensures j <= i && x in s.frames[j].live
  {
    j :| 0 <= j < |s.frames| && x in s.frames[j].live;
    assert FrameOk(s.frames[j]);
  }

  lemma {:induction false} StaysAlive(layout: Layout, states: seq<State>, steps: seq<Step>, i: nat, k: nat, p: Place,
                                      a: nat, t: nat, b: nat, j: nat, x: Variable)
    requires RunsIn(states, steps, i, k, p, b) && Forward(layout, states, steps) && Fits(layout, p)
    requires a <= t <= b && IsAt(states[a], i, k) && j <= i && x in states[a].frames[j].live
    ensures IsAt(states[t], i, k) && x in states[t].frames[j].live
    decreases t
  {
    hide Fits, Forward, Enabled, Apply;
    Stays(states, steps, a, b, i, k, t);
    if a < t {
      StaysAlive(layout, states, steps, i, k, p, a, t - 1, b, j, x);
      if j == |states[t - 1].frames| - 1 { NoDestroy(layout, states, steps, i, k, p, b, t - 1); }
      KeptStep(states[t - 1], steps[t - 1], j, x);
    }
  }

  /** Until time `t` everything since time `b` has happened above the frames of time `b`: in the
      calls that the statement at `b` makes. */
  predicate IsDuring(states: seq<State>, b: nat, t: nat) {
    b <= t < |states| && forall n | b < n <= t :: |states[n].frames| > |states[b].frames|
  }

  lemma {:induction false} StaysDuring(states: seq<State>, steps: seq<Step>, b: nat, t: nat, j: nat, x: Variable)
    requires IsRun(states, steps) && IsDuring(states, b, t) && j < |states[b].frames| && x in states[b].frames[j].live
    requires b < |steps| ==> !steps[b].Destroy?
    ensures j < |states[t].frames| && x in states[t].frames[j].live
    decreases t
  {
    hide Enabled, Apply;
    if b < t {
      StaysDuring(states, steps, b, t - 1, j, x);
      KeptStep(states[t - 1], steps[t - 1], j, x);
    }
  }

  /** In every run in which the spawn and the driving call share an activation, the call comes
      after the spawn, and the closure is alive from the one to the other and through whatever the
      call runs. */
  ghost predicate DrivenAlive(spawn: Place, drive: Place, closure: Event) {
    forall layout, states, steps, x, i: nat, k: nat, t0: nat, t1: nat
      | Shares(layout, states, steps, spawn, drive, closure, x, i, k, t0, t1) ::
      && t0 < t1
      && (forall t: nat | t0 <= t <= t1 :: IsLive(states[t], x))
      && (forall t: nat | IsDuring(states, t1, t) :: IsLive(states[t], x))
  }

  lemma DriveIsAlive(spawn: Place, drive: Place, closure: Event)
    requires Before(spawn, drive) && Encloses(closure.at.scope, spawn.scope) && Encloses(closure.at.scope, drive.scope)
    ensures DrivenAlive(spawn, drive, closure)
  {
    hide Fits, Forward, IsRun, IsLive;
    forall layout, states, steps, x, i: nat, k: nat, t0: nat, t1: nat
      | Shares(layout, states, steps, spawn, drive, closure, x, i, k, t0, t1)
      ensures && t0 < t1
              && (forall t: nat | t0 <= t <= t1 :: IsLive(states[t], x))
              && (forall t: nat | IsDuring(states, t1, t) :: IsLive(states[t], x))
    {
      RunsLater(layout, states, steps, spawn, drive, closure, x, i, k, t0, t1);
      ClosureStays(layout, states, steps, spawn, drive, closure, x, i, k, t0, t1);
    }
  }

  lemma ClosureStays(layout: Layout, states: seq<State>, steps: seq<Step>, spawn: Place, drive: Place, closure: Event,
                     x: Variable, i: nat, k: nat, t0: nat, t1: nat)
    requires Shares(layout, states, steps, spawn, drive, closure, x, i, k, t0, t1) && t0 < t1
    requires Encloses(closure.at.scope, spawn.scope) && Encloses(closure.at.scope, drive.scope)
    ensures forall t: nat | t0 <= t <= t1 :: IsLive(states[t], x)
    ensures forall t: nat | IsDuring(states, t1, t) :: IsLive(states[t], x)
  {
    hide Fits, Forward, IsRun, Inv, Chained;
    RunKeeps(states, steps, t0);
    RunChained(states, steps, t0);
    ForkIsInside(closure.at.scope, states[t0].frames[i].scope, spawn.scope, drive.scope);
    var j := ClosureBelow(states[t0], x, i);
    forall t: nat | t0 <= t <= t1 ensures IsLive(states[t], x) {
      StaysAlive(layout, states, steps, i, k, drive, t0, t, t1, j, x);
    }
    StaysAlive(layout, states, steps, i, k, drive, t0, t1, t1, j, x);
    forall t: nat | IsDuring(states, t1, t) ensures IsLive(states[t], x) {
      StaysDuring(states, steps, t1, t, j, x);
    }
  }

  /** The event drives a context of the path: itself, or by calling a local closure in whose text
      a driving call stands. */
  predicate IsDrivingCall(events: seq<Event>, p: seq<string>, e: Event) {
    || (e.Drive? && e.obj in p)
    || (e.ClosureCall? && exists d, g | d in events && g in events ::
          && d.ClosureDecl? && d.key == e.key && g.Drive? && g.obj in p
          && Within(g.at, Extent(d.at.file, d.at.off, d.end.GetOr(d.at.off))))
  }

  /** SAFE-DRIVEN is sound: every executor path of the site has a context that dies before the
      closure, or a driving call that stands after the spawn and runs after it while the closure of
      that activation is alive. */
  lemma DrivenIsSound(site: Site, events: seq<Event>, p: seq<string>)
    requires IsSafe(Classification(site, events)) && IsPath(AliasOf(events), site.execKey, p)
    ensures var decl := Nearest(site, events).value;
            || (exists ctx | ctx in events :: ctx.IocDecl? && ctx.key in p && DiesBefore(ctx, decl))
            || (exists e | e in events ::
                  IsDrivingCall(events, p, e) && Before(site.at, e.at) && DrivenAlive(site.at, e.at, decl))
  {
    hide Classification, AliasOf, IsPath, DrivenAlive, DiesBefore, IsDrivingClosure;
    SafeExactly(site, events);
    var decl := Nearest(site, events).value;
    var keys := Elems(p);
    if ctx :| ctx in events && Outlives(decl.at, keys, ctx) {
      TestIsSound(decl, ctx, keys);
    } else {
      var e :| e in events && Drives(site, events, decl.at, keys, e);
      DrivesIsCall(site, events, decl.at, p, e);
      DriveIsAlive(site.at, e.at, decl);
    }
  }

  lemma DrivesIsCall(site: Site, events: seq<Event>, decl: Place, p: seq<string>, e: Event)
    requires Drives(site, events, decl, Elems(p), e)
    ensures IsDrivingCall(events, p, e)
  {
    if e.ClosureCall? {
      var d :| d in events && d.ClosureDecl? && d.key == e.key && exists g | g in events :: DrivesWithin(d, Elems(p), g);
      var g :| g in events && DrivesWithin(d, Elems(p), g);
    }
  }

  /** Nothing keeps the closure safe on this path: no context of it is declared later in the
      closure's block or anywhere in a block inside it, and no driving call stands later than the
      spawn inside the closure's block. */
  predicate IsExposed(site: Site, events: seq<Event>, closure: Place, p: seq<string>) {
    && (forall e | e in events && e.IocDecl? && e.key in p ::
          && !(closure.scope < e.at.scope)
          && !(closure.scope == e.at.scope && closure.file == e.at.file && closure.off < e.at.off))
    && (forall e | e in events && IsDrivingCall(events, p, e) ::
          e.at.file != site.at.file || e.at.off <= site.at.off || !(closure.scope <= e.at.scope))
  }

  lemma ExposedIsFlag(site: Site, events: seq<Event>, closure: Place, p: seq<string>)
    ensures OnPath(site, events, closure, Elems(p)) == Flag <==> IsExposed(site, events, closure, p)
  {
    hide IsDrivingCall, IsDrivingClosure;
    var keys := Elems(p);
    forall e | e in events ensures Drives(site, events, closure, keys, e) <==>
        IsDrivingCall(events, p, e) && e.at.file == site.at.file && e.at.off > site.at.off && closure.scope <= e.at.scope
    {
      DrivesExactly(site, events, closure, p, e);
    }
    forall e ensures Outlives(closure, keys, e) <==>
        e.IocDecl? && e.key in p && (closure.scope < e.at.scope ||
          (closure.scope == e.at.scope && closure.file == e.at.file && closure.off < e.at.off)) {}
  }

  lemma DrivesExactly(site: Site, events: seq<Event>, closure: Place, p: seq<string>, e: Event)
    ensures Drives(site, events, closure, Elems(p), e) <==>
            IsDrivingCall(events, p, e) && e.at.file == site.at.file && e.at.off > site.at.off && closure.scope <= e.at.scope
  {
    if Drives(site, events, closure, Elems(p), e) { DrivesIsCall(site, events, closure, p, e); }
    if IsDrivingCall(events, p, e) && e.ClosureCall? {
      var d, g :| d in events && g in events && d.ClosureDecl? && d.key == e.key && g.Drive? && g.obj in p
                  && Within(g.at, Extent(d.at.file, d.at.off, d.end.GetOr(d.at.off)));
      assert DrivesWithin(d, Elems(p), g);
      assert IsDrivingClosure(events, Elems(p), e.key);
    }
  }

  /** FLAG is exactly a closure that is found and a resolved executor one of whose paths leaves the
      closure exposed: driving calls that all stand before the spawn do not help. */
  lemma FlagExactly(site: Site, events: seq<Event>)
    ensures Classification(site, events) == Flag <==>
            && Nearest(site, events).Some? && site.execKey != ""
            && exists p | IsPath(AliasOf(events), site.execKey, p) :: IsExposed(site, events, Nearest(site, events).value.at, p)
  {
    hide Classification, AliasOf, IsPath, Nearest, IsExposed, OnPath, Elems;
    VerdictIsWorstPath(site, events);
    if Nearest(site, events).Some? && site.execKey != "" {
      var closure := Nearest(site, events).value.at;
      forall p ensures OnPath(site, events, closure, Elems(p)) == Flag <==> IsExposed(site, events, closure, p) {
        ExposedIsFlag(site, events, closure, p);
      }
      FlagIsLeast();
    }
  }

  lemma FlagIsLeast()
    ensures forall v :: Rank(v) <= Rank(Flag) <==> v == Flag
  {
  }
}

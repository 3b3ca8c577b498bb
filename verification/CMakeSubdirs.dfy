/** Which `add_subdirectory()` calls a lane can reach: `subdir_calls` of
    `ci/ccache-flag-surface.py`, against an execution of the tree. */
module CMakeSubdirs {
  import opened Text
  import opened CMakeParse
  import opened CMakeBlocks

  predicate IsRoutine(name: string) { name == "function" || name == "macro" }

  /** The items from the first branch head on: what is left of an `if` whose head is false. */
  function AfterFirstBranch(items: seq<Node>): (r: seq<Node>)
    ensures |r| <= |items| && r == items[|items| - |r|..]
    ensures forall j | 0 <= j < |items| - |r| :: !items[j].Branch?
    ensures r != [] ==> r[0].Branch?
  {
    if items == [] || items[0].Branch? then items else AfterFirstBranch(items[1..])
  }

  /** `subdir_calls`. */
  function SubdirCalls(items: seq<Node>, pruned: Cmd -> bool, inFn: bool): seq<Cmd>
    decreases items, 0
  {
    if items == [] then []
    else NodeCalls(items[0], pruned, inFn) + SubdirCalls(items[1..], pruned, inFn)
  }

  function NodeCalls(n: Node, pruned: Cmd -> bool, inFn: bool): seq<Cmd>
    decreases n, 1
  {
    match n
    case Command(c) => if c.name == "add_subdirectory" then [c] else []
    case Branch(_) => []
    case Block(head, body) =>
      var fn := inFn || IsRoutine(head.name);
      if head.name == "if" && !fn && pruned(head)
      then SubdirCalls(AfterFirstBranch(body), pruned, fn)
      else SubdirCalls(body, pruned, fn)
  }

  // ------------------------------------------------------------- running a file

  /** A defined function or macro. */
  datatype Routine = Routine(isMacro: bool, body: seq<Node>)

  /** How control leaves a list of items; Stopped is a run cut short. */
  datatype Flow = Normal | Returning | Breaking | Continuing | Stopped

  /** A command that was executed, or a head that was reached, the value its condition had, and
      whether that was inside a routine. */
  datatype Event = Ran(cmd: Cmd) | Reached(cmd: Cmd, decided: Option<bool>, inRoutine: bool)

  /** What happened, the routines known after, the choices left, and the flow. */
  datatype Outcome = Outcome(trace: seq<Event>, env: map<string, Routine>, choices: seq<bool>, flow: Flow)

  function FlowOf(name: string): Flow {
    if name == "return" then Returning
    else if name == "break" then Breaking
    else if name == "continue" then Continuing
    else Normal
  }

  function After(e: Event, o: Outcome): Outcome { o.(trace := [e] + o.trace) }

  /** Run items up to the end or the next branch head. `choices` supplies, in order, the value
      of every condition, whether a loop goes round again, and one entry per call; running out
      of them stops the run. `inFn` says that a routine is being run. */
  function Exec(items: seq<Node>, inFn: bool, env: map<string, Routine>, choices: seq<bool>): (r: Outcome)
    ensures |r.choices| <= |choices|
    decreases |choices|, items, 0
  {
    if items == [] || items[0].Branch? then Outcome([], env, choices, Normal)
    else
      var first := ExecNode(items[0], inFn, env, choices);
      if first.flow != Normal then first
      else
        var rest := Exec(items[1..], inFn, first.env, first.choices);
        Outcome(first.trace + rest.trace, rest.env, rest.choices, rest.flow)
  }

  function ExecNode(n: Node, inFn: bool, env: map<string, Routine>, choices: seq<bool>): (r: Outcome)
    ensures |r.choices| <= |choices|
    decreases |choices|, n, 2
  {
    match n
    case Branch(_) => Outcome([], env, choices, Normal)
    case Command(c) => ExecCommand(c, env, choices)
    case Block(head, body) =>
      if IsRoutine(head.name) then
        var known := if head.args == [] then env else env[Lower(head.args[0]) := Routine(head.name == "macro", body)];
        Outcome([Reached(head, None, inFn)], known, choices, Normal)
      else if head.name == "if" then
        if choices == [] then Outcome([], env, choices, Stopped)
        else if choices[0] then After(Reached(head, Some(true), inFn), Exec(body, inFn, env, choices[1..]))
        else After(Reached(head, Some(false), inFn), ExecElse(body, inFn, env, choices[1..]))
      else if head.name == "block" then After(Reached(head, None, inFn), Exec(body, inFn, env, choices))
      else ExecLoop(head, body, inFn, env, choices)
  }

  /** The rest of an `if` whose branch was not taken: nothing runs before the next branch head. */
  function ExecElse(items: seq<Node>, inFn: bool, env: map<string, Routine>, choices: seq<bool>): (r: Outcome)
    ensures |r.choices| <= |choices|
    decreases |choices|, items, 1
  {
    if items == [] then Outcome([], env, choices, Normal)
    else if !items[0].Branch? then ExecElse(items[1..], inFn, env, choices)
    else if items[0].cmd.name == "else" then Exec(items[1..], inFn, env, choices)
    else if choices == [] then Outcome([], env, choices, Stopped)
    else if choices[0] then After(Reached(items[0].cmd, Some(true), inFn), Exec(items[1..], inFn, env, choices[1..]))
    else After(Reached(items[0].cmd, Some(false), inFn), ExecElse(items[1..], inFn, env, choices[1..]))
  }

  /** A `foreach` or `while`, its body as often as the choices say. */
  function ExecLoop(head: Cmd, body: seq<Node>, inFn: bool, env: map<string, Routine>, choices: seq<bool>): (r: Outcome)
    ensures |r.choices| <= |choices|
    decreases |choices|, body, 1
  {
    if choices == [] then Outcome([], env, choices, Stopped)
    else if !choices[0] then Outcome([Reached(head, Some(false), inFn)], env, choices[1..], Normal)
    else
      var once := After(Reached(head, Some(true), inFn), Exec(body, inFn, env, choices[1..]));
      if once.flow == Breaking then once.(flow := Normal)
      else if once.flow != Normal && once.flow != Continuing then once
      else
        var rest := ExecLoop(head, body, inFn, once.env, once.choices);
        Outcome(once.trace + rest.trace, rest.env, rest.choices, rest.flow)
  }

  /** A command: a call of a known routine runs its body; a macro's `return()` is its caller's. */
  function ExecCommand(c: Cmd, env: map<string, Routine>, choices: seq<bool>): (r: Outcome)
    ensures |r.choices| <= |choices|
    decreases |choices|, Command(c), 0
  {
    if c.name in env then
      if choices == [] then Outcome([Ran(c)], env, choices, Stopped)
      else
        var run := Exec(env[c.name].body, true, env, choices[1..]);
        var flow := if run.flow == Stopped || env[c.name].isMacro then run.flow else Normal;
        Outcome([Ran(c)] + run.trace, run.env, run.choices, flow)
    else Outcome([Ran(c)], env, choices, FlowOf(c.name))
  }

  /** An `if` at directory scope whose condition was true. */
  predicate IsTakenIf(e: Event) {
    e.Reached? && !e.inRoutine && e.cmd.name == "if" && e.decided == Some(true)
  }

  /** Every directory-scope `if` head that `pruned` accepts had a false condition. */
  ghost predicate Obeys(trace: seq<Event>, pruned: Cmd -> bool) {
    forall e | e in trace && IsTakenIf(e) :: !pruned(e.cmd)
  }

  // ------------------------------------------------------------------ soundness

  /** The `add_subdirectory` commands of a run. */
  function Adds(trace: seq<Event>): set<Cmd> {
    set e | e in trace && e.Ran? && e.cmd.name == "add_subdirectory" :: e.cmd
  }

  /** The calls `subdir_calls` yields, as a set. */
  function Yields(items: seq<Node>, pruned: Cmd -> bool, inFn: bool): set<Cmd> {
    set c | c in SubdirCalls(items, pruned, inFn)
  }

  function NodeYields(n: Node, pruned: Cmd -> bool, inFn: bool): set<Cmd> {
    set c | c in NodeCalls(n, pruned, inFn)
  }

  lemma YieldsCons(items: seq<Node>, pruned: Cmd -> bool, inFn: bool)
    requires items != []
    ensures Yields(items, pruned, inFn) == NodeYields(items[0], pruned, inFn) + Yields(items[1..], pruned, inFn)
  {
    hide NodeCalls;
  }

  /** The part of a block's body that is searched. */
  function Searched(head: Cmd, body: seq<Node>, pruned: Cmd -> bool, inFn: bool): seq<Node> {
    if head.name == "if" && !inFn && pruned(head) then AfterFirstBranch(body) else body
  }

  lemma BlockYields(head: Cmd, body: seq<Node>, pruned: Cmd -> bool, inFn: bool)
    ensures var fn := inFn || IsRoutine(head.name);
            NodeYields(Block(head, body), pruned, inFn) == Yields(Searched(head, body, pruned, fn), pruned, fn)
  {
    hide SubdirCalls;
  }

  ghost predicate Covers(s: set<Cmd>, env: map<string, Routine>, pruned: Cmd -> bool) {
    forall f | f in env :: Yields(env[f].body, pruned, true) <= s
  }

  ghost predicate Sound(o: Outcome, s: set<Cmd>, pruned: Cmd -> bool) {
    Adds(o.trace) <= s && Covers(s, o.env, pruned)
  }

  lemma {:induction false} YieldsSuffix(items: seq<Node>, pruned: Cmd -> bool, inFn: bool, k: nat)
    requires k <= |items|
    ensures Yields(items[k..], pruned, inFn) <= Yields(items, pruned, inFn)
    decreases k
  {
    if k == 0 {
      assert items[0..] == items;
    } else {
      YieldsSuffix(items[1..], pruned, inFn, k - 1);
      YieldsCons(items, pruned, inFn);
      assert items[1..][k - 1..] == items[k..];
    }
  }

  lemma YieldsAfter(items: seq<Node>, pruned: Cmd -> bool, inFn: bool)
    ensures Yields(AfterFirstBranch(items), pruned, inFn) <= Yields(items, pruned, inFn)
  {
    YieldsSuffix(items, pruned, inFn, |items| - |AfterFirstBranch(items)|);
  }

  lemma AddsReached(e: Event, trace: seq<Event>, pruned: Cmd -> bool)
    requires e.Reached?
    ensures Adds([e] + trace) == Adds(trace)
    ensures Obeys([e] + trace, pruned) ==> Obeys(trace, pruned) && (IsTakenIf(e) ==> !pruned(e.cmd))
  {
    assert e in [e] + trace && forall x | x in trace :: x in [e] + trace;
  }

  lemma AddsConcat(a: seq<Event>, b: seq<Event>, pruned: Cmd -> bool)
    ensures Adds(a + b) == Adds(a) + Adds(b)
    ensures Obeys(a + b, pruned) ==> Obeys(a, pruned) && Obeys(b, pruned)
  {
    assert forall x :: x in a + b <==> x in a || x in b;
  }

  lemma NoAdds()
    ensures Adds([]) == {}
  {
  }

  lemma {:induction false} ExecSound(items: seq<Node>, pruned: Cmd -> bool, inFn: bool, env: map<string, Routine>,
                                     choices: seq<bool>, s: set<Cmd>)
    requires Yields(items, pruned, inFn) <= s && Covers(s, env, pruned)
    requires Obeys(Exec(items, inFn, env, choices).trace, pruned)
    ensures Sound(Exec(items, inFn, env, choices), s, pruned)
    decreases |choices|, items, 0
  {
    hide Yields, NodeYields, Adds, Covers, ExecNode, Obeys;
    NoAdds();
    if items != [] && !items[0].Branch? {
      YieldsCons(items, pruned, inFn);
      var first := ExecNode(items[0], inFn, env, choices);
      if first.flow == Normal {
        AddsConcat(first.trace, Exec(items[1..], inFn, first.env, first.choices).trace, pruned);
        NodeSound(items[0], pruned, inFn, env, choices, s);
        ExecSound(items[1..], pruned, inFn, first.env, first.choices, s);
      } else {
        NodeSound(items[0], pruned, inFn, env, choices, s);
      }
    }
  }

  lemma {:induction false} NodeSound(n: Node, pruned: Cmd -> bool, inFn: bool, env: map<string, Routine>,
                                     choices: seq<bool>, s: set<Cmd>)
    requires NodeYields(n, pruned, inFn) <= s && Covers(s, env, pruned)
    requires Obeys(ExecNode(n, inFn, env, choices).trace, pruned)
    ensures Sound(ExecNode(n, inFn, env, choices), s, pruned)
    decreases |choices|, n, 2
  {
    match n
    case Branch(_) =>
    case Command(c) =>
      assert c.name == "add_subdirectory" ==> c in NodeYields(n, pruned, inFn);
      CommandSound(c, pruned, env, choices, s);
    case Block(head, body) => BlockSound(n, pruned, inFn, env, choices, s);
  }

  lemma {:induction false} BlockSound(n: Node, pruned: Cmd -> bool, inFn: bool, env: map<string, Routine>,
                                      choices: seq<bool>, s: set<Cmd>)
    requires n.Block? && NodeYields(n, pruned, inFn) <= s && Covers(s, env, pruned)
    requires Obeys(ExecNode(n, inFn, env, choices).trace, pruned)
    ensures Sound(ExecNode(n, inFn, env, choices), s, pruned)
    decreases |choices|, n, 1
  {
    hide SubdirCalls, NodeCalls, Yields, NodeYields, Adds, Covers, Exec, ExecElse, ExecLoop, Obeys;
    var Block(head, body) := n;
    var fn := inFn || IsRoutine(head.name);
    BlockYields(head, body, pruned, inFn);
    NoAdds();
    if IsRoutine(head.name) {
      AddsReached(Reached(head, None, inFn), [], pruned);
      assert [Reached(head, None, inFn)] + [] == [Reached(head, None, inFn)];
      if head.args != [] { FunctionSound(head, body, pruned, env, s); }
    } else if head.name == "if" {
      if choices != [] {
        YieldsAfter(body, pruned, fn);
        var e := Reached(head, Some(choices[0]), inFn);
        if choices[0] {
          AddsReached(e, Exec(body, inFn, env, choices[1..]).trace, pruned);
          ExecSound(body, pruned, inFn, env, choices[1..], s);
        } else {
          AddsReached(e, ExecElse(body, inFn, env, choices[1..]).trace, pruned);
          ElseSound(body, pruned, inFn, env, choices[1..], s);
        }
      }
    } else if head.name == "block" {
      AddsReached(Reached(head, None, inFn), Exec(body, inFn, env, choices).trace, pruned);
      ExecSound(body, pruned, inFn, env, choices, s);
    } else {
      LoopSound(head, body, pruned, inFn, env, choices, s);
    }
  }

  lemma FunctionSound(head: Cmd, body: seq<Node>, pruned: Cmd -> bool, env: map<string, Routine>, s: set<Cmd>)
    requires Yields(body, pruned, true) <= s && Covers(s, env, pruned) && head.args != []
    ensures forall r: Routine | r.body == body :: Covers(s, env[Lower(head.args[0]) := r], pruned)
  {
  }

  lemma {:induction false} ElseSound(items: seq<Node>, pruned: Cmd -> bool, inFn: bool, env: map<string, Routine>,
                                     choices: seq<bool>, s: set<Cmd>)
    requires Yields(AfterFirstBranch(items), pruned, inFn) <= s && Covers(s, env, pruned)
    requires Obeys(ExecElse(items, inFn, env, choices).trace, pruned)
    ensures Sound(ExecElse(items, inFn, env, choices), s, pruned)
    decreases |choices|, items, 1
  {
    hide Yields, Adds, Covers, Exec, Obeys;
    NoAdds();
    if items != [] && !items[0].Branch? {
      ElseSound(items[1..], pruned, inFn, env, choices, s);
    } else if items != [] {
      YieldsSuffix(items, pruned, inFn, 1);
      YieldsAfter(items[1..], pruned, inFn);
      if items[0].cmd.name == "else" {
        ExecSound(items[1..], pruned, inFn, env, choices, s);
      } else if choices != [] {
        var e := Reached(items[0].cmd, Some(choices[0]), inFn);
        if choices[0] {
          AddsReached(e, Exec(items[1..], inFn, env, choices[1..]).trace, pruned);
          ExecSound(items[1..], pruned, inFn, env, choices[1..], s);
        } else {
          AddsReached(e, ExecElse(items[1..], inFn, env, choices[1..]).trace, pruned);
          ElseSound(items[1..], pruned, inFn, env, choices[1..], s);
        }
      }
    }
  }

  lemma {:induction false} LoopSound(head: Cmd, body: seq<Node>, pruned: Cmd -> bool, inFn: bool, env: map<string, Routine>,
                                     choices: seq<bool>, s: set<Cmd>)
    requires Yields(body, pruned, inFn) <= s && Covers(s, env, pruned)
    requires Obeys(ExecLoop(head, body, inFn, env, choices).trace, pruned)
    ensures Sound(ExecLoop(head, body, inFn, env, choices), s, pruned)
    decreases |choices|, body, 1
  {
    hide Yields, Adds, Covers, Exec, Obeys;
    NoAdds();
    if choices != [] {
      var e := Reached(head, Some(choices[0]), inFn);
      if !choices[0] {
        AddsReached(e, [], pruned);
        assert [e] + [] == [e];
      } else {
        var run := Exec(body, inFn, env, choices[1..]);
        var once := After(e, run);
        AddsReached(e, run.trace, pruned);
        if once.flow == Normal || once.flow == Continuing {
          AddsConcat(once.trace, ExecLoop(head, body, inFn, once.env, once.choices).trace, pruned);
          ExecSound(body, pruned, inFn, env, choices[1..], s);
          LoopSound(head, body, pruned, inFn, once.env, once.choices, s);
        } else {
          ExecSound(body, pruned, inFn, env, choices[1..], s);
        }
      }
    }
  }

  lemma {:induction false} CommandSound(c: Cmd, pruned: Cmd -> bool, env: map<string, Routine>, choices: seq<bool>,
                                        s: set<Cmd>)
    requires Covers(s, env, pruned) && (c.name == "add_subdirectory" ==> c in s)
    requires Obeys(ExecCommand(c, env, choices).trace, pruned)
    ensures Sound(ExecCommand(c, env, choices), s, pruned)
    decreases |choices|, Command(c), 0
  {
    hide Exec, Yields, Obeys;
    assert Adds([Ran(c)]) <= {c};
    if c.name in env && choices != [] {
      AddsConcat([Ran(c)], Exec(env[c.name].body, true, env, choices[1..]).trace, pruned);
      ExecSound(env[c.name].body, pruned, true, env, choices[1..], s);
    }
  }

  /** Pruning is sound: whatever the branches, loop counts, calls and early exits of a run in
      which every accepted head is false, every `add_subdirectory` it executes is yielded. */
  lemma PruningSound(tree: seq<Node>, pruned: Cmd -> bool, choices: seq<bool>, c: Cmd)
    requires Obeys(Exec(tree, false, map[], choices).trace, pruned)
    requires Ran(c) in Exec(tree, false, map[], choices).trace && c.name == "add_subdirectory"
    ensures c in SubdirCalls(tree, pruned, false)
  {
    hide Exec;
    var s := Yields(tree, pruned, false);
    ExecSound(tree, pruned, false, map[], choices, s);
    assert c in Adds(Exec(tree, false, map[], choices).trace);
  }

  // --------------------------------------------------- a run stays within its file

  predicate FlatIn(items: seq<Node>, tracked: seq<Cmd>) {
    forall c | c in Flat(items) :: c in tracked
  }

  predicate NodeIn(n: Node, tracked: seq<Cmd>) {
    forall c | c in FlatNode(n) :: c in tracked
  }

  ghost predicate EnvIn(env: map<string, Routine>, tracked: seq<Cmd>) {
    forall f | f in env :: FlatIn(env[f].body, tracked)
  }

  predicate TraceIn(trace: seq<Event>, tracked: seq<Cmd>) {
    forall e | e in trace :: e.cmd in tracked
  }

  ghost predicate Within(o: Outcome, tracked: seq<Cmd>) {
    TraceIn(o.trace, tracked) && EnvIn(o.env, tracked)
  }

  lemma FlatCons(items: seq<Node>, tracked: seq<Cmd>)
    requires items != [] && FlatIn(items, tracked)
    ensures NodeIn(items[0], tracked) && FlatIn(items[1..], tracked)
  {
    assert forall c | c in FlatNode(items[0]) || c in Flat(items[1..]) :: c in Flat(items);
  }

  lemma BlockIn(n: Node, tracked: seq<Cmd>)
    requires n.Block? && NodeIn(n, tracked)
    ensures n.head in tracked && FlatIn(n.items, tracked)
  {
    assert n.head in FlatNode(n) && forall c | c in Flat(n.items) :: c in FlatNode(n);
  }

  lemma {:induction false} ExecWithin(items: seq<Node>, inFn: bool, env: map<string, Routine>, choices: seq<bool>, tracked: seq<Cmd>)
    requires FlatIn(items, tracked) && EnvIn(env, tracked)
    ensures Within(Exec(items, inFn, env, choices), tracked)
    decreases |choices|, items, 0
  {
    hide FlatIn, NodeIn, EnvIn, ExecNode;
    if items != [] && !items[0].Branch? {
      FlatCons(items, tracked);
      var first := ExecNode(items[0], inFn, env, choices);
      NodeWithin(items[0], inFn, env, choices, tracked);
      if first.flow == Normal { ExecWithin(items[1..], inFn, first.env, first.choices, tracked); }
    }
  }

  lemma {:induction false} NodeWithin(n: Node, inFn: bool, env: map<string, Routine>, choices: seq<bool>, tracked: seq<Cmd>)
    requires NodeIn(n, tracked) && EnvIn(env, tracked)
    ensures Within(ExecNode(n, inFn, env, choices), tracked)
    decreases |choices|, n, 2
  {
    match n
    case Branch(_) =>
    case Command(c) =>
      assert c in FlatNode(n);
      CommandWithin(c, env, choices, tracked);
    case Block(head, body) =>
      BlockIn(n, tracked);
      BlockWithin(n, inFn, env, choices, tracked);
  }

  lemma {:induction false} BlockWithin(n: Node, inFn: bool, env: map<string, Routine>, choices: seq<bool>, tracked: seq<Cmd>)
    requires n.Block? && n.head in tracked && FlatIn(n.items, tracked) && EnvIn(env, tracked)
    ensures Within(ExecNode(n, inFn, env, choices), tracked)
    decreases |choices|, n, 1
  {
    hide FlatIn, Exec, ExecElse, ExecLoop;
    var Block(head, body) := n;
    if head.name == "if" {
      if choices != [] {
        if choices[0] {
          ExecWithin(body, inFn, env, choices[1..], tracked);
        } else {
          ElseWithin(body, inFn, env, choices[1..], tracked);
        }
      }
    } else if head.name == "block" {
      ExecWithin(body, inFn, env, choices, tracked);
    } else if !IsRoutine(head.name) {
      LoopWithin(head, body, inFn, env, choices, tracked);
    }
  }

  lemma {:induction false} ElseWithin(items: seq<Node>, inFn: bool, env: map<string, Routine>, choices: seq<bool>, tracked: seq<Cmd>)
    requires FlatIn(items, tracked) && EnvIn(env, tracked)
    ensures Within(ExecElse(items, inFn, env, choices), tracked)
    decreases |choices|, items, 1
  {
    if items != [] {
      FlatCons(items, tracked);
      assert items[0].Branch? ==> items[0].cmd in FlatNode(items[0]);
      hide FlatIn, NodeIn, EnvIn, Exec;
      if !items[0].Branch? || (items[0].cmd.name != "else" && choices != [] && !choices[0]) {
        ElseWithin(items[1..], inFn, env, if items[0].Branch? then choices[1..] else choices, tracked);
      } else if items[0].cmd.name == "else" {
        ExecWithin(items[1..], inFn, env, choices, tracked);
      } else if choices != [] {
        ExecWithin(items[1..], inFn, env, choices[1..], tracked);
      }
    }
  }

  lemma {:induction false} LoopWithin(head: Cmd, body: seq<Node>, inFn: bool, env: map<string, Routine>, choices: seq<bool>, tracked: seq<Cmd>)
    requires head in tracked && FlatIn(body, tracked) && EnvIn(env, tracked)
    ensures Within(ExecLoop(head, body, inFn, env, choices), tracked)
    decreases |choices|, body, 1
  {
    hide FlatIn, EnvIn, Exec;
    if choices != [] && choices[0] {
      var once := After(Reached(head, Some(true), inFn), Exec(body, inFn, env, choices[1..]));
      ExecWithin(body, inFn, env, choices[1..], tracked);
      if once.flow == Normal || once.flow == Continuing { LoopWithin(head, body, inFn, once.env, once.choices, tracked); }
    }
  }

  lemma {:induction false} CommandWithin(c: Cmd, env: map<string, Routine>, choices: seq<bool>, tracked: seq<Cmd>)
    requires c in tracked && EnvIn(env, tracked)
    ensures Within(ExecCommand(c, env, choices), tracked)
    decreases |choices|, Command(c), 0
  {
    hide FlatIn, Exec;
    if c.name in env && choices != [] { ExecWithin(env[c.name].body, true, env, choices[1..], tracked); }
  }

  // ------------------------------------------------------------- pruning only drops

  /** Pruning only drops: what is yielded with a pruner is yielded without one. */
  lemma {:induction false} PrunedYieldsLess(items: seq<Node>, pruned: Cmd -> bool, none: Cmd -> bool, inFn: bool)
    requires forall c :: !none(c)
    ensures Yields(items, pruned, inFn) <= Yields(items, none, inFn)
    decreases items, 0
  {
    if items != [] {
      hide NodeCalls, Yields;
      PrunedYieldsLess(items[1..], pruned, none, inFn);
      PrunedNodeLess(items[0], pruned, none, inFn);
      YieldsCons(items, pruned, inFn);
      YieldsCons(items, none, inFn);
    }
  }

  lemma {:induction false} PrunedNodeLess(n: Node, pruned: Cmd -> bool, none: Cmd -> bool, inFn: bool)
    requires forall c :: !none(c)
    ensures NodeYields(n, pruned, inFn) <= NodeYields(n, none, inFn)
    decreases n, 1
  {
    if n.Block? {
      hide NodeCalls, SubdirCalls, Yields, NodeYields;
      var fn := inFn || IsRoutine(n.head.name);
      PrunedYieldsLess(AfterFirstBranch(n.items), pruned, none, fn);
      PrunedYieldsLess(n.items, pruned, none, fn);
      YieldsAfter(n.items, none, fn);
      BlockYields(n.head, n.items, pruned, inFn);
      BlockYields(n.head, n.items, none, inFn);
    }
  }

  // ------------------------------------------------------------------ exactness

  lemma {:induction false} YieldedByNode(items: seq<Node>, pruned: Cmd -> bool, inFn: bool, c: Cmd)
    ensures c in SubdirCalls(items, pruned, inFn) <==> exists j | 0 <= j < |items| :: c in NodeCalls(items[j], pruned, inFn)
  {
    hide NodeCalls;
    if items != [] {
      var rest := items[1..];
      YieldedByNode(rest, pruned, inFn, c);
      assert forall j | 0 <= j < |rest| :: rest[j] == items[j + 1];
      assert forall j | 0 < j < |items| :: items[j] == rest[j - 1];
    }
  }

  /** Item `j` of the body of an `if` stands after a branch head. */
  predicate IsLater(body: seq<Node>, j: nat)
    requires j < |body|
  {
    exists b | 0 <= b < j :: body[b].Branch?
  }

  lemma LaterItems(body: seq<Node>, j: nat)
    requires j < |body|
    ensures IsLater(body, j) <==> j > |body| - |AfterFirstBranch(body)|
  {
    hide AfterFirstBranch;
    var k := |body| - |AfterFirstBranch(body)|;
    if j > k { assert body[k].Branch?; }
  }

  /** Of an `if` whose head is accepted, exactly what stands after a branch head is yielded. */
  lemma AcceptedYieldsExactly(head: Cmd, body: seq<Node>, pruned: Cmd -> bool, c: Cmd)
    requires head.name == "if" && pruned(head)
    ensures c in NodeCalls(Block(head, body), pruned, false) <==>
            exists j: nat | j < |body| && IsLater(body, j) :: c in NodeCalls(body[j], pruned, false)
  {
    hide SubdirCalls, NodeCalls, AfterFirstBranch, IsLater;
    AcceptedCalls(head, body, pruned);
    var rest := AfterFirstBranch(body);
    var k := |body| - |rest|;
    YieldedByNode(rest, pruned, false, c);
    if j: nat :| j < |rest| && c in NodeCalls(rest[j], pruned, false) {
      BranchYieldsNothing(rest[0], pruned);
      LaterItems(body, j + k);
      assert rest[j] == body[j + k];
    }
    if j: nat :| j < |body| && IsLater(body, j) && c in NodeCalls(body[j], pruned, false) {
      LaterItems(body, j);
      assert rest[j - k] == body[j];
    }
  }

  lemma AcceptedCalls(head: Cmd, body: seq<Node>, pruned: Cmd -> bool)
    requires head.name == "if" && pruned(head)
    ensures NodeCalls(Block(head, body), pruned, false) == SubdirCalls(AfterFirstBranch(body), pruned, false)
  {
    hide SubdirCalls, AfterFirstBranch;
  }

  lemma BranchYieldsNothing(n: Node, pruned: Cmd -> bool)
    requires n.Branch?
    ensures NodeCalls(n, pruned, false) == []
  {
  }

  /** The tree without the first-branch bodies of the accepted heads; `skipping` says that one is
      being passed over. */
  function Erased(items: seq<Node>, pruned: Cmd -> bool, inFn: bool, skipping: bool): seq<Node>
    decreases items, 0
  {
    if items == [] then []
    else if skipping && !items[0].Branch? then Erased(items[1..], pruned, inFn, true)
    else [ErasedNode(items[0], pruned, inFn)] + Erased(items[1..], pruned, inFn, false)
  }

  function ErasedNode(n: Node, pruned: Cmd -> bool, inFn: bool): Node
    decreases n, 1
  {
    if !n.Block? then n
    else
      var fn := inFn || IsRoutine(n.head.name);
      Block(n.head, Erased(n.items, pruned, fn, n.head.name == "if" && !fn && pruned(n.head)))
  }

  function AddCommands(cmds: seq<Cmd>): seq<Cmd> {
    if cmds == [] then []
    else (if cmds[0].name == "add_subdirectory" then [cmds[0]] else []) + AddCommands(cmds[1..])
  }

  lemma {:induction false} AddCommandsConcat(a: seq<Cmd>, b: seq<Cmd>)
    ensures AddCommands(a + b) == AddCommands(a) + AddCommands(b)
  {
    if a == [] {
      assert a + b == b;
    } else {
      assert (a + b)[0] == a[0] && (a + b)[1..] == a[1..] + b;
      AddCommandsConcat(a[1..], b);
      var h := if a[0].name == "add_subdirectory" then [a[0]] else [];
      assert h + (AddCommands(a[1..]) + AddCommands(b)) == AddCommands(a) + AddCommands(b);
    }
  }

  /** `subdir_calls` drops the accepted first-branch bodies and nothing else: it yields, in
      order, every `add_subdirectory` of what is left. */
  lemma YieldsTheRest(items: seq<Node>, pruned: Cmd -> bool, inFn: bool, inIf: bool)
    requires ValidNodes(items, inIf)
    ensures SubdirCalls(items, pruned, inFn) == AddCommands(Flat(Erased(items, pruned, inFn, false)))
  {
    SearchedIsRest(items, pruned, inFn, inIf, false);
  }

  lemma {:induction false} SearchedIsRest(items: seq<Node>, pruned: Cmd -> bool, inFn: bool, inIf: bool, skipping: bool)
    requires ValidNodes(items, inIf)
    ensures SubdirCalls(if skipping then AfterFirstBranch(items) else items, pruned, inFn) ==
            AddCommands(Flat(Erased(items, pruned, inFn, skipping)))
    decreases items, 0
  {
    if items != [] {
      hide NodeCalls, ErasedNode, FlatNode, ValidNode;
      if skipping && !items[0].Branch? {
        SearchedIsRest(items[1..], pruned, inFn, inIf, true);
      } else {
        SearchedIsRest(items[1..], pruned, inFn, inIf, false);
        NodeYieldsTheRest(items[0], pruned, inFn, inIf);
        var e := Erased(items, pruned, inFn, skipping);
        assert e[0] == ErasedNode(items[0], pruned, inFn) && e[1..] == Erased(items[1..], pruned, inFn, false);
        AddCommandsConcat(FlatNode(e[0]), Flat(e[1..]));
      }
    }
  }

  lemma {:induction false} NodeYieldsTheRest(n: Node, pruned: Cmd -> bool, inFn: bool, inIf: bool)
    requires ValidNode(n, inIf)
    ensures NodeCalls(n, pruned, inFn) == AddCommands(FlatNode(ErasedNode(n, pruned, inFn)))
    decreases n, 1
  {
    hide SubdirCalls, Erased, Flat, ValidNodes, AfterFirstBranch, AddCommands, IsOpener, IsCloser, IsBranch;
    match n
    case Command(c) =>
      AddFirst(c, []);
      assert [c] + [] == [c];
    case Branch(c) =>
      AddFirst(c, []);
      NotAdd(c.name);
      assert [c] + [] == [c];
    case Block(head, body) =>
      NotAdd(head.name);
      var fn := inFn || IsRoutine(head.name);
      var skipping := head.name == "if" && !fn && pruned(head);
      SearchedIsRest(body, pruned, fn, head.name == "if", skipping);
      var flat := Flat(Erased(body, pruned, fn, skipping));
      assert FlatNode(ErasedNode(n, pruned, inFn)) == [head] + flat;
      AddFirst(head, flat);
  }

  lemma AddFirst(c: Cmd, rest: seq<Cmd>)
    ensures AddCommands([c] + rest) ==
            if c.name == "add_subdirectory" then [c] + AddCommands(rest) else AddCommands(rest)
    ensures AddCommands([]) == []
  {
    assert ([c] + rest)[1..] == rest;
  }

  lemma NotAdd(name: string)
    ensures IsOpener(name) || IsBranch(name) ==> name != "add_subdirectory"
  {
  }
}

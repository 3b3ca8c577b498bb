/** The two fixpoints of `cmake_surface` in `ci/ccache-flag-surface.py`: the flag-bearing
    routines, and the variables the emitted lines read. */
module CMakeSurface {
  import opened Basics
  import opened Text
  import opened CMakeParse
  import opened CMakeBlocks
  import opened CMakeSubdirs

  /** The FLAG_VAR and FLAG_PROPERTY regexes, as predicates on one argument. */
  datatype Rules = Rules(flagVar: string -> bool, flagProperty: string -> bool)

  predicate IsFlagCommand(name: string) {
    name in ["add_compile_options", "add_compile_definitions", "add_definitions", "remove_definitions",
             "target_compile_options", "target_compile_definitions", "target_compile_features"]
  }

  predicate IsPropertyCommand(name: string) {
    name in ["set_property", "set_target_properties", "set_directory_properties", "set_source_files_properties"]
  }

  /** `is_direct_flag`. */
  predicate IsDirectFlag(rules: Rules, c: Cmd) {
    || IsFlagCommand(c.name) || c.name == "option" || c.name == "include"
    || ((c.name == "set" || c.name == "unset") && c.args != [] && rules.flagVar(c.args[0]))
    || ((c.name == "string" || c.name == "list") && |c.args| >= 2 && rules.flagVar(c.args[1]))
    || (IsPropertyCommand(c.name) && exists k | 0 <= k < |c.args| :: rules.flagProperty(c.args[k]))
  }

  /** `calls_any`: a direct call, or a routine's name passed as an argument. */
  predicate CallsAny(c: Cmd, fns: set<string>) {
    c.name in fns || exists k | 0 <= k < |c.args| :: Lower(c.args[k]) in fns
  }

  /** `assigns_any`. */
  predicate AssignsAny(c: Cmd, names: set<string>) {
    if c.name == "set" || c.name == "unset" || c.name == "option" then c.args != [] && c.args[0] in names
    else if c.name == "string" || c.name == "list" then exists k | 0 <= k < |c.args| :: c.args[k] in names
    else false
  }

  // ----------------------------------------------- flag-bearing routines, least

  /** A routine's body holds a flag command or a call of a routine in `fns`. */
  predicate Bears(rules: Rules, body: seq<Node>, fns: set<string>) {
    exists c | c in Flat(body) :: IsDirectFlag(rules, c) || CallsAny(c, fns)
  }

  /** Holds the file readers and every routine that is flag-bearing by this very set. */
  ghost predicate IsClosed(rules: Rules, defs: map<string, seq<Node>>, readers: set<string>, fns: set<string>) {
    readers <= fns && forall f | f in defs && Bears(rules, defs[f], fns) :: f in fns
  }

  ghost predicate IsLeastClosed(rules: Rules, defs: map<string, seq<Node>>, readers: set<string>, fns: set<string>) {
    && IsClosed(rules, defs, readers, fns)
    && forall other: set<string> | IsClosed(rules, defs, readers, other) :: fns <= other
  }

  lemma BearsMonotone(rules: Rules, body: seq<Node>, small: set<string>, large: set<string>)
    requires small <= large && Bears(rules, body, small)
    ensures Bears(rules, body, large)
  {
    var c :| c in Flat(body) && (IsDirectFlag(rules, c) || CallsAny(c, small));
    assert CallsAny(c, small) ==> CallsAny(c, large);
  }

  /** Included in every closed set. */
  ghost predicate IsBelow(rules: Rules, defs: map<string, seq<Node>>, readers: set<string>, fns: set<string>) {
    forall other: set<string> | IsClosed(rules, defs, readers, other) :: fns <= other
  }

  lemma BelowGrows(rules: Rules, defs: map<string, seq<Node>>, readers: set<string>, fns: set<string>, f: string)
    requires IsBelow(rules, defs, readers, fns) && f in defs && Bears(rules, defs[f], fns)
    ensures IsBelow(rules, defs, readers, fns + {f})
  {
    hide Bears;
    forall other: set<string> | IsClosed(rules, defs, readers, other) ensures f in other {
      BearsMonotone(rules, defs[f], fns, other);
    }
  }

  method IsFlagRoutine(rules: Rules, tree: seq<Node>, fns: set<string>) returns (r: bool)
    ensures r <==> Bears(rules, tree, fns)
  {
    var body := Flat(tree);
    r := exists c | c in body :: IsDirectFlag(rules, c) || CallsAny(c, fns);
  }

  /** One pass over the routines, each tested against the set as it stands. */
  method FlagPass(rules: Rules, defs: map<string, seq<Node>>, readers: set<string>, order: seq<string>, before: set<string>)
    returns (fns: set<string>, changed: bool)
    requires readers <= before <= defs.Keys && (forall f :: f in order <==> f in defs)
    requires IsBelow(rules, defs, readers, before)
    ensures before <= fns <= defs.Keys && IsBelow(rules, defs, readers, fns)
    ensures !changed ==> fns == before && IsClosed(rules, defs, readers, fns)
    ensures changed ==> exists f :: f in fns && f !in before
  {
    hide Bears, IsBelow;
    fns, changed := before, false;
    for i := 0 to |order|
      invariant before <= fns <= defs.Keys && IsBelow(rules, defs, readers, fns)
      invariant !changed ==> fns == before && forall k | 0 <= k < i :: Bears(rules, defs[order[k]], fns) ==> order[k] in fns
      invariant changed ==> exists f :: f in fns && f !in before
    {
      var f := order[i];
      if f in fns { continue; }
      var bears := IsFlagRoutine(rules, defs[f], fns);
      if bears {
        BelowGrows(rules, defs, readers, fns, f);
        assert f in fns + {f} && f !in before;
        fns, changed := fns + {f}, true;
      }
    }
    if !changed {
      forall f | f in defs && Bears(rules, defs[f], fns) ensures f in fns {
        var k :| 0 <= k < |order| && order[k] == f;
      }
    }
  }

  /** The `flagfns` loop. The result is the least closed set, so it does not depend on the order
      in which `defs` is gone through. */
  method FlagRoutines(rules: Rules, defs: map<string, seq<Node>>, readers: set<string>, order: seq<string>)
    returns (fns: set<string>)
    requires readers <= defs.Keys && (forall f :: f in order <==> f in defs)
    ensures IsLeastClosed(rules, defs, readers, fns)
  {
    hide Bears;
    fns := readers;
    var changed := true;
    while changed
      invariant readers <= fns <= defs.Keys && IsBelow(rules, defs, readers, fns)
      invariant !changed ==> IsClosed(rules, defs, readers, fns)
      decreases |defs.Keys - fns|, changed
    {
      ghost var before := fns;
      fns, changed := FlagPass(rules, defs, readers, order, fns);
      if changed { Shrinks(defs.Keys, before, fns); }
    }
  }

  lemma Shrinks(all: set<string>, before: set<string>, after: set<string>)
    requires before <= after <= all && exists f :: f in after && f !in before
    ensures |all - after| < |all - before|
  {
    var f :| f in after && f !in before;
    SmallerWithout(all - after, all - before, f);
  }

  // --- and reachable: which routines these are

  /** The body names the routine: calls it, or passes its name, in any case, as an argument. */
  predicate Mentions(body: seq<Node>, name: string) {
    exists c | c in Flat(body) :: c.name == name || exists k | 0 <= k < |c.args| :: Lower(c.args[k]) == name
  }

  /** A chain of routines from `name`, each naming the next, to a file reader or to one whose body
      holds a command that sets a flag. */
  ghost predicate LeadsToFlag(rules: Rules, defs: map<string, seq<Node>>, readers: set<string>, chain: seq<string>) {
    && chain != []
    && (forall k | 0 <= k < |chain| - 1 :: MentionedIn(defs, chain[k], chain[k + 1]))
    && var last := chain[|chain| - 1];
       last in readers || (last in defs && exists c | c in Flat(defs[last]) :: IsDirectFlag(rules, c))
  }

  predicate MentionedIn(defs: map<string, seq<Node>>, f: string, g: string) { f in defs && Mentions(defs[f], g) }

  ghost predicate ReachesFlag(rules: Rules, defs: map<string, seq<Node>>, readers: set<string>, name: string) {
    exists chain :: LeadsToFlag(rules, defs, readers, chain) && chain[0] == name
  }

  lemma BearsExactly(rules: Rules, body: seq<Node>, fns: set<string>)
    ensures Bears(rules, body, fns) <==>
            (exists c | c in Flat(body) :: IsDirectFlag(rules, c)) || exists f | f in fns :: Mentions(body, f)
  {
    hide IsDirectFlag, Flat, Lower;
    if c :| c in Flat(body) && CallsAny(c, fns) {
      if c.name in fns {
        assert Mentions(body, c.name);
      } else {
        var k :| 0 <= k < |c.args| && Lower(c.args[k]) in fns;
        assert Mentions(body, Lower(c.args[k]));
      }
    }
    if f :| f in fns && Mentions(body, f) {
      var c :| c in Flat(body) && (c.name == f || exists k | 0 <= k < |c.args| :: Lower(c.args[k]) == f);
      assert CallsAny(c, fns);
    }
  }

  /** Every closed set holds whatever reaches a flag. */
  lemma {:induction false} ClosedHoldsReaching(rules: Rules, defs: map<string, seq<Node>>, readers: set<string>, fns: set<string>,
                                               chain: seq<string>)
    requires IsClosed(rules, defs, readers, fns) && LeadsToFlag(rules, defs, readers, chain)
    ensures chain[0] in fns
    decreases |chain|
  {
    hide IsDirectFlag, Flat, Mentions, Bears;
    var f := chain[0];
    if f in defs { BearsExactly(rules, defs[f], fns); }
    if |chain| > 1 {
      var rest := chain[1..];
      assert MentionedIn(defs, chain[0], chain[1]);
      forall k | 0 <= k < |rest| - 1 ensures MentionedIn(defs, rest[k], rest[k + 1]) {
        assert MentionedIn(defs, chain[k + 1], chain[k + 2]);
      }
      ClosedHoldsReaching(rules, defs, readers, fns, rest);
    }
  }

  lemma ReachesStep(rules: Rules, defs: map<string, seq<Node>>, readers: set<string>, f: string, g: string)
    requires MentionedIn(defs, f, g) && ReachesFlag(rules, defs, readers, g)
    ensures ReachesFlag(rules, defs, readers, f)
  {
    hide IsDirectFlag, Flat, Mentions;
    var chain :| LeadsToFlag(rules, defs, readers, chain) && chain[0] == g;
    var longer := [f] + chain;
    forall k | 0 <= k < |longer| - 1 ensures MentionedIn(defs, longer[k], longer[k + 1]) {
      if k > 0 { assert MentionedIn(defs, chain[k - 1], chain[k]); }
    }
    assert LeadsToFlag(rules, defs, readers, longer) && longer[0] == f;
  }

  /** The flag-bearing routines are exactly those from which a chain of mentions leads to a flag. */
  lemma FlagRoutinesReach(rules: Rules, defs: map<string, seq<Node>>, readers: set<string>, fns: set<string>, name: string)
    requires IsLeastClosed(rules, defs, readers, fns)
    ensures name in fns <==> ReachesFlag(rules, defs, readers, name)
  {
    hide Bears, Flat, Mentions, IsDirectFlag;
    var reaching := set f | f in fns && ReachesFlag(rules, defs, readers, f);
    ReachingIsClosed(rules, defs, readers, fns, reaching);
    if chain :| LeadsToFlag(rules, defs, readers, chain) && chain[0] == name {
      ClosedHoldsReaching(rules, defs, readers, fns, chain);
    }
  }

  lemma ReachingIsClosed(rules: Rules, defs: map<string, seq<Node>>, readers: set<string>, fns: set<string>, reaching: set<string>)
    requires IsClosed(rules, defs, readers, fns) && forall f :: f in reaching <==> f in fns && ReachesFlag(rules, defs, readers, f)
    ensures IsClosed(rules, defs, readers, reaching)
  {
    hide Bears, IsDirectFlag, Mentions, Flat;
    forall f | f in readers ensures f in reaching {
      assert LeadsToFlag(rules, defs, readers, [f]) && [f][0] == f;
    }
    forall f | f in defs && Bears(rules, defs[f], reaching) ensures f in reaching {
      BearsMonotone(rules, defs[f], reaching, fns);
      BearsExactly(rules, defs[f], reaching);
      if exists c | c in Flat(defs[f]) :: IsDirectFlag(rules, c) {
        assert LeadsToFlag(rules, defs, readers, [f]) && [f][0] == f;
      } else {
        var g :| g in reaching && Mentions(defs[f], g);
        ReachesStep(rules, defs, readers, f, g);
      }
    }
  }

  // ------------------------------------------------------------ variables read

  predicate IsReference(a: string, i: nat, j: nat) {
    && i + 3 <= j < |a| && a[i] == '$' && a[i + 1] == '{' && a[j] == '}'
    && forall k | i + 2 <= k < j :: a[k] != '$' && a[k] != '{' && a[k] != '}'
  }

  /** The names between `${` and `}` in an argument. */
  function References(a: string): set<string> {
    set i, j | 0 <= i < |a| && 0 <= j < |a| && IsReference(a, i, j) :: a[i + 2..j]
  }

  predicate IsConditionHead(name: string) { name == "if" || name == "elseif" || name == "while" }

  /** `reads`: every reference, and in a condition every bare name. */
  function Reads(c: Cmd): set<string> {
    (set k, v | 0 <= k < |c.args| && v in References(c.args[k]) :: v) +
    (set k | 0 <= k < |c.args| && IsConditionHead(c.name) && IsName(c.args[k]) :: c.args[k])
  }

  function ReadsAll(cmds: seq<Cmd>): set<string> {
    set c, v | c in cmds && v in Reads(c) :: v
  }

  // ------------------------------------------------------------- emitted lines

  /** A line of the surface: a kept command or a whole routine with the heads that gate it, or
      the value a file reader's call selects. */
  datatype Line =
    | Kept(path: string, ctx: seq<Cmd>, node: Node)
    | Value(path: string, cmd: Cmd)

  /** What decides whether something is emitted. */
  datatype Filter = Filter(rules: Rules, fns: set<string>, readers: set<string>, closure: set<string>)

  predicate Keeps(f: Filter, n: Node) {
    match n
    case Command(c) =>
      || IsDirectFlag(f.rules, c) || CallsAny(c, f.fns) || c.name == "return" || AssignsAny(c, f.closure)
    case Branch(_) => false
    case Block(head, _) => IsRoutine(head.name) && head.args != [] && Lower(head.args[0]) in f.fns
  }

  function Emit(f: Filter, path: string, ctx: seq<Cmd>, n: Node): seq<Line> {
    if !Keeps(f, n) then []
    else if n.Command? && n.cmd.name in f.readers then [Kept(path, ctx, n), Value(path, n.cmd)]
    else [Kept(path, ctx, n)]
  }

  /** `walk`: `heads` are the branch heads seen so far in the enclosing `if`. */
  function Walk(f: Filter, path: string, items: seq<Node>, ctx: seq<Cmd>, heads: seq<Cmd>): seq<Line>
    decreases items
  {
    if items == [] then []
    else
      match items[0]
      case Branch(c) => Walk(f, path, items[1..], ctx, heads + [c])
      case Command(_) => Emit(f, path, ctx + heads, items[0]) + Walk(f, path, items[1..], ctx, heads)
      case Block(head, body) =>
        (if IsRoutine(head.name) then Emit(f, path, ctx + heads, items[0])
         else Walk(f, path, body, ctx + heads + [head], []))
        + Walk(f, path, items[1..], ctx, heads)
  }

  datatype File = File(path: string, tree: seq<Node>)

  function WalkAll(f: Filter, files: seq<File>): seq<Line> {
    if files == [] then []
    else Walk(f, files[0].path, files[0].tree, [], []) + WalkAll(f, files[1..])
  }

  function LineCommands(l: Line): seq<Cmd> {
    match l
    case Kept(_, ctx, n) => ctx + FlatNode(n)
    case Value(_, _) => []
  }

  /** The variables the emitted lines read. */
  function LineReads(lines: seq<Line>): set<string> {
    set l, v | l in lines && v in ReadsAll(LineCommands(l)) :: v
  }

  // ----------------------------------------- what there is to emit, and the filter

  /** A directory-scope command or routine, with the heads that gate it. */
  datatype Site = Site(path: string, ctx: seq<Cmd>, node: Node)

  /** Every site of a tree, in order. */
  function Sites(path: string, items: seq<Node>, ctx: seq<Cmd>, heads: seq<Cmd>): seq<Site>
    decreases items
  {
    if items == [] then []
    else
      match items[0]
      case Branch(c) => Sites(path, items[1..], ctx, heads + [c])
      case Command(_) => [Site(path, ctx + heads, items[0])] + Sites(path, items[1..], ctx, heads)
      case Block(head, body) =>
        (if IsRoutine(head.name) then [Site(path, ctx + heads, items[0])]
         else Sites(path, body, ctx + heads + [head], []))
        + Sites(path, items[1..], ctx, heads)
  }

  function AllSites(files: seq<File>): seq<Site> {
    if files == [] then [] else Sites(files[0].path, files[0].tree, [], []) + AllSites(files[1..])
  }

  function EmitSites(f: Filter, sites: seq<Site>): seq<Line> {
    if sites == [] then []
    else Emit(f, sites[0].path, sites[0].ctx, sites[0].node) + EmitSites(f, sites[1..])
  }

  lemma {:induction false} EmitConcat(f: Filter, a: seq<Site>, b: seq<Site>)
    ensures EmitSites(f, a + b) == EmitSites(f, a) + EmitSites(f, b)
  {
    hide Emit;
    if a == [] {
      assert a + b == b;
    } else {
      assert (a + b)[0] == a[0] && (a + b)[1..] == a[1..] + b;
      EmitConcat(f, a[1..], b);
      var h := Emit(f, a[0].path, a[0].ctx, a[0].node);
      assert h + (EmitSites(f, a[1..]) + EmitSites(f, b)) == EmitSites(f, a) + EmitSites(f, b);
    }
  }

  lemma EmitOne(f: Filter, s: Site)
    ensures EmitSites(f, [s]) == Emit(f, s.path, s.ctx, s.node)
  {
    hide Emit;
    assert Emit(f, s.path, s.ctx, s.node) + EmitSites(f, []) == Emit(f, s.path, s.ctx, s.node);
  }

  /** The walk visits every site in order and only decides what to keep. */
  lemma {:induction false} WalkIsFilter(f: Filter, path: string, items: seq<Node>, ctx: seq<Cmd>, heads: seq<Cmd>)
    ensures Walk(f, path, items, ctx, heads) == EmitSites(f, Sites(path, items, ctx, heads))
    decreases items
  {
    if items != [] {
      hide Emit, EmitSites;
      var rest := items[1..];
      var n := items[0];
      match n
      case Branch(c) => WalkIsFilter(f, path, rest, ctx, heads + [c]);
      case Command(_) =>
        WalkIsFilter(f, path, rest, ctx, heads);
        EmitConcat(f, [Site(path, ctx + heads, n)], Sites(path, rest, ctx, heads));
        EmitOne(f, Site(path, ctx + heads, n));
      case Block(head, body) =>
        WalkIsFilter(f, path, rest, ctx, heads);
        if IsRoutine(head.name) {
          EmitConcat(f, [Site(path, ctx + heads, n)], Sites(path, rest, ctx, heads));
          EmitOne(f, Site(path, ctx + heads, n));
        } else {
          WalkIsFilter(f, path, body, ctx + heads + [head], []);
          EmitConcat(f, Sites(path, body, ctx + heads + [head], []), Sites(path, rest, ctx, heads));
        }
    } else {
      assert EmitSites(f, []) == [];
    }
  }

  lemma {:induction false} WalkAllIsFilter(f: Filter, files: seq<File>)
    ensures WalkAll(f, files) == EmitSites(f, AllSites(files))
  {
    if files != [] {
      WalkIsFilter(f, files[0].path, files[0].tree, [], []);
      WalkAllIsFilter(f, files[1..]);
      EmitConcat(f, Sites(files[0].path, files[0].tree, [], []), AllSites(files[1..]));
    }
  }

  /** A kept line is a kept site, and the other way round. */
  lemma {:induction false} EmittedExactly(f: Filter, sites: seq<Site>, l: Line)
    requires l.Kept?
    ensures l in EmitSites(f, sites) <==> Site(l.path, l.ctx, l.node) in sites && Keeps(f, l.node)
  {
    if sites != [] {
      hide Keeps;
      EmittedExactly(f, sites[1..], l);
      var s := sites[0];
      assert l in Emit(f, s.path, s.ctx, s.node) <==> s == Site(l.path, l.ctx, l.node) && Keeps(f, l.node);
      assert forall x :: x in sites <==> x == s || x in sites[1..];
    }
  }

  // --- and where the sites are

  /** The branch heads among some items. */
  function BranchHeads(items: seq<Node>): seq<Cmd> {
    if items == [] then []
    else
      var n := |items| - 1;
      BranchHeads(items[..n]) + if items[n].Branch? then [items[n].cmd] else []
  }

  /** The node at a position, one index for each block entered: a command, or a routine, that no
      routine encloses. */
  predicate IsPosition(items: seq<Node>, at: seq<nat>) {
    && at != [] && at[0] < |items|
    && var n := items[at[0]];
       if |at| == 1 then n.Command? || (n.Block? && IsRoutine(n.head.name))
       else n.Block? && !IsRoutine(n.head.name) && IsPosition(n.items, at[1..])
  }

  function NodeAt(items: seq<Node>, at: seq<nat>): Node
    requires IsPosition(items, at)
  {
    if |at| == 1 then items[at[0]] else NodeAt(items[at[0]].items, at[1..])
  }

  /** The heads that gate it: of each enclosing block, after the branch heads before it there. */
  function GateAt(items: seq<Node>, at: seq<nat>): seq<Cmd>
    requires IsPosition(items, at)
  {
    var before := BranchHeads(items[..at[0]]);
    if |at| == 1 then before else before + [items[at[0]].head] + GateAt(items[at[0]].items, at[1..])
  }

  ghost predicate SiteAt(path: string, items: seq<Node>, ctx: seq<Cmd>, heads: seq<Cmd>, s: Site, at: seq<nat>) {
    IsPosition(items, at) && s == Site(path, ctx + heads + GateAt(items, at), NodeAt(items, at))
  }

  lemma BranchHeadsCons(items: seq<Node>, k: nat)
    requires 0 < k <= |items|
    ensures BranchHeads(items[..k]) == (if items[0].Branch? then [items[0].cmd] else []) + BranchHeads(items[1..][..k - 1])
  {
    assert items[1..][..k - 1] == items[1..k];
    HeadFirst(items[..k]);
    assert items[..k][1..] == items[1..k];
  }

  lemma {:induction false} HeadFirst(items: seq<Node>)
    requires items != []
    ensures BranchHeads(items) == (if items[0].Branch? then [items[0].cmd] else []) + BranchHeads(items[1..])
  {
    var n := |items| - 1;
    if n == 0 {
      assert items[..0] == [] && items[1..] == [];
    } else {
      HeadFirst(items[..n]);
      assert items[..n][1..] == items[1..][..n - 1];
      assert items[1..][n - 1] == items[n];
    }
  }

  /** A position past the first item is a position of the rest. */
  lemma LaterPosition(path: string, items: seq<Node>, ctx: seq<Cmd>, heads: seq<Cmd>, s: Site, at: seq<nat>)
    requires items != [] && at != [] && at[0] > 0
    ensures var more := heads + if items[0].Branch? then [items[0].cmd] else [];
            SiteAt(path, items, ctx, heads, s, at) <==> SiteAt(path, items[1..], ctx, more, s, [at[0] - 1] + at[1..])
  {
    hide BranchHeads;
    var before := [at[0] - 1] + at[1..];
    assert before[1..] == at[1..];
    if at[0] < |items| {
      assert items[1..][at[0] - 1] == items[at[0]];
      BranchHeadsCons(items, at[0]);
      if IsPosition(items, at) {
        var first := if items[0].Branch? then [items[0].cmd] else [];
        assert GateAt(items, at) == first + GateAt(items[1..], before);
        assert ctx + heads + (first + GateAt(items[1..], before)) == ctx + (heads + first) + GateAt(items[1..], before);
      }
    }
  }

  /** The sites of a tree are exactly its positions, each with the heads that gate it. */
  lemma {:induction false} SitesExactly(path: string, items: seq<Node>, ctx: seq<Cmd>, heads: seq<Cmd>, s: Site)
    ensures s in Sites(path, items, ctx, heads) <==> exists at: seq<nat> :: SiteAt(path, items, ctx, heads, s, at)
    decreases items
  {
    if items != [] {
      hide SiteAt;
      var n, rest := items[0], items[1..];
      var more := heads + if n.Branch? then [n.cmd] else [];
      SitesExactly(path, rest, ctx, more, s);
      var inner := ctx + heads + [if n.Block? then n.head else Cmd("", [])];
      if n.Block? { SitesExactly(path, n.items, inner, [], s); }
      SitesCons(path, items, ctx, heads, s);
      if at: seq<nat> :| SiteAt(path, items, ctx, heads, s, at) {
        SiteSplits(path, items, ctx, heads, s, at);
      }
      if at: seq<nat> :| SiteAt(path, rest, ctx, more, s, at) { SiteLater(path, items, ctx, heads, s, at); }
      if n.Block? && !IsRoutine(n.head.name) {
        if at: seq<nat> :| SiteAt(path, n.items, inner, [], s, at) { SiteInside(path, items, ctx, heads, s, at); }
      }
      SiteFirst(path, items, ctx, heads, s);
    } else {
      forall at ensures !SiteAt(path, items, ctx, heads, s, at) {}
    }
  }

  /** What `Sites` does with the first item. */
  lemma SitesCons(path: string, items: seq<Node>, ctx: seq<Cmd>, heads: seq<Cmd>, s: Site)
    requires items != []
    ensures var n := items[0];
            var more := heads + if n.Branch? then [n.cmd] else [];
            s in Sites(path, items, ctx, heads) <==>
            || s in Sites(path, items[1..], ctx, more)
            || ((n.Command? || (n.Block? && IsRoutine(n.head.name))) && s == Site(path, ctx + heads, n))
            || (n.Block? && !IsRoutine(n.head.name) && s in Sites(path, n.items, ctx + heads + [n.head], []))
  {
    hide IsRoutine;
    assert heads + [] == heads;
  }

  lemma SiteSplits(path: string, items: seq<Node>, ctx: seq<Cmd>, heads: seq<Cmd>, s: Site, at: seq<nat>)
    requires items != [] && SiteAt(path, items, ctx, heads, s, at)
    ensures var n := items[0];
            var more := heads + if n.Branch? then [n.cmd] else [];
            || SiteAt(path, items[1..], ctx, more, s, [if at[0] == 0 then 0 else at[0] - 1] + at[1..])
            || ((n.Command? || (n.Block? && IsRoutine(n.head.name))) && s == Site(path, ctx + heads, n))
            || (n.Block? && !IsRoutine(n.head.name) && SiteAt(path, n.items, ctx + heads + [n.head], [], s, at[1..]))
  {
    if at[0] > 0 {
      LaterPosition(path, items, ctx, heads, s, at);
    } else {
      assert items[..0] == [];
      assert ctx + heads + [] == ctx + heads;
      if |at| > 1 {
        var n := items[0];
        var gate := GateAt(n.items, at[1..]);
        assert ctx + heads + ([] + [n.head] + gate) == (ctx + heads + [n.head]) + [] + gate;
      }
    }
  }

  lemma SiteLater(path: string, items: seq<Node>, ctx: seq<Cmd>, heads: seq<Cmd>, s: Site, at: seq<nat>)
    requires items != []
    requires SiteAt(path, items[1..], ctx, heads + if items[0].Branch? then [items[0].cmd] else [], s, at)
    ensures SiteAt(path, items, ctx, heads, s, [at[0] + 1] + at[1..])
  {
    var later := [at[0] + 1] + at[1..];
    assert [later[0] - 1] + later[1..] == at;
    LaterPosition(path, items, ctx, heads, s, later);
  }

  lemma SiteInside(path: string, items: seq<Node>, ctx: seq<Cmd>, heads: seq<Cmd>, s: Site, at: seq<nat>)
    requires items != [] && items[0].Block? && !IsRoutine(items[0].head.name)
    requires SiteAt(path, items[0].items, ctx + heads + [items[0].head], [], s, at)
    ensures SiteAt(path, items, ctx, heads, s, [0] + at)
  {
    var n := items[0];
    var longer := [0] + at;
    assert longer[1..] == at && items[..0] == [];
    var gate := GateAt(n.items, at);
    assert ctx + heads + ([] + [n.head] + gate) == (ctx + heads + [n.head]) + [] + gate;
  }

  lemma SiteFirst(path: string, items: seq<Node>, ctx: seq<Cmd>, heads: seq<Cmd>, s: Site)
    requires items != []
    ensures (items[0].Command? || (items[0].Block? && IsRoutine(items[0].head.name))) && s == Site(path, ctx + heads, items[0]) ==>
              SiteAt(path, items, ctx, heads, s, [0])
  {
    assert items[..0] == [] && ctx + heads + [] == ctx + heads;
  }

  // ------------------------------------------------------- the closure, least

  lemma KeepsMonotone(f: Filter, g: Filter, n: Node)
    requires f.rules == g.rules && f.fns == g.fns && f.closure <= g.closure && Keeps(f, n)
    ensures Keeps(g, n)
  {
  }

  lemma ReadsMonotone(f: Filter, g: Filter, files: seq<File>)
    requires f.rules == g.rules && f.fns == g.fns && f.closure <= g.closure
    ensures LineReads(WalkAll(f, files)) <= LineReads(WalkAll(g, files))
  {
    hide Keeps, EmitSites, AllSites, WalkAll;
    WalkAllIsFilter(f, files);
    WalkAllIsFilter(g, files);
    var sites := AllSites(files);
    forall v | v in LineReads(EmitSites(f, sites)) ensures v in LineReads(EmitSites(g, sites)) {
      var l :| l in EmitSites(f, sites) && v in ReadsAll(LineCommands(l));
      assert l.Kept?;
      EmittedExactly(f, sites, l);
      KeepsMonotone(f, g, l.node);
      EmittedExactly(g, sites, l);
    }
  }

  /** Every variable any site reads: the closure stays inside it. */
  function SiteReads(sites: seq<Site>): set<string> {
    set s, v | s in sites && v in ReadsAll(s.ctx + FlatNode(s.node)) :: v
  }

  lemma ReadsBounded(f: Filter, files: seq<File>)
    ensures LineReads(WalkAll(f, files)) <= SiteReads(AllSites(files))
  {
    hide Keeps, EmitSites, AllSites, WalkAll;
    WalkAllIsFilter(f, files);
    var sites := AllSites(files);
    forall v | v in LineReads(EmitSites(f, sites)) ensures v in SiteReads(sites) {
      var l :| l in EmitSites(f, sites) && v in ReadsAll(LineCommands(l));
      assert l.Kept?;
      EmittedExactly(f, sites, l);
      assert Site(l.path, l.ctx, l.node) in sites;
    }
  }

  /** Consistent: the lines kept with this closure read no variable outside it. */
  predicate IsConsistent(f: Filter, files: seq<File>) {
    LineReads(WalkAll(f, files)) <= f.closure
  }

  /** The closure loop of `cmake_surface`. */
  method Surface(rules: Rules, fns: set<string>, readers: set<string>, files: seq<File>)
    returns (lines: seq<Line>, closure: set<string>)
    ensures lines == WalkAll(Filter(rules, fns, readers, closure), files)
    ensures closure == LineReads(lines)
    ensures forall other: set<string> | IsConsistent(Filter(rules, fns, readers, other), files) :: closure <= other
  {
    hide WalkAll, LineReads, AllSites, SiteReads;
    closure := {};
    ghost var all := SiteReads(AllSites(files));
    while true
      invariant closure <= all
      invariant closure <= LineReads(WalkAll(Filter(rules, fns, readers, closure), files))
      invariant forall other: set<string> | IsConsistent(Filter(rules, fns, readers, other), files) :: closure <= other
      decreases |all - closure|
    {
      var f := Filter(rules, fns, readers, closure);
      lines := WalkAll(f, files);
      var refs := LineReads(lines);
      if refs <= closure { return; }
      ReadsBounded(f, files);
      var next := Filter(rules, fns, readers, closure + refs);
      ReadsMonotone(f, next, files);
      forall other: set<string> | IsConsistent(Filter(rules, fns, readers, other), files) ensures refs <= other {
        ReadsMonotone(f, Filter(rules, fns, readers, other), files);
      }
      var v :| v in refs && v !in closure;
      Shrinks(all, closure, closure + refs);
      closure := closure + refs;
    }
  }

  // ------------------------------------------------------------------ theorems

  /** Every directory-scope write of a variable that an emitted line reads is itself emitted,
      with the heads that gate it. */
  lemma WritesOfReadsAreEmitted(f: Filter, files: seq<File>, s: Site, v: string)
    requires f.closure == LineReads(WalkAll(f, files)) && v in LineReads(WalkAll(f, files))
    requires s in AllSites(files) && s.node.Command? && AssignsAny(s.node.cmd, {v})
    ensures Kept(s.path, s.ctx, s.node) in WalkAll(f, files)
  {
    WalkAllIsFilter(f, files);
    assert AssignsAny(s.node.cmd, f.closure);
    EmittedExactly(f, AllSites(files), Kept(s.path, s.ctx, s.node));
  }

  /** And nothing else is emitted: a kept command is a flag, a call of a flag-bearing routine,
      a `return()`, or a write of a variable some emitted line reads. */
  lemma OnlyNeededIsEmitted(f: Filter, files: seq<File>, l: Line)
    requires f.closure == LineReads(WalkAll(f, files)) && l.Kept? && l in WalkAll(f, files)
    ensures Site(l.path, l.ctx, l.node) in AllSites(files)
    ensures l.node.Command? ==>
              || IsDirectFlag(f.rules, l.node.cmd) || CallsAny(l.node.cmd, f.fns) || l.node.cmd.name == "return"
              || exists v | v in LineReads(WalkAll(f, files)) :: AssignsAny(l.node.cmd, {v})
  {
    WalkAllIsFilter(f, files);
    EmittedExactly(f, AllSites(files), l);
    if l.node.Command? && AssignsAny(l.node.cmd, f.closure) {
      var c := l.node.cmd;
      var k :| 0 <= k < |c.args| && c.args[k] in f.closure && AssignsAny(c, {c.args[k]});
    }
  }
}

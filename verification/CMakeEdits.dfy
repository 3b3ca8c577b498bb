/** What an edit of the source tree does to the surface: a comment or layout edit never moves it,
    and an edit of what is kept does; when that covers every flag, and when it does not. The surface is `cmake_surface`
    over the files `cmake_files` lists, as `main` of `ci/ccache-flag-surface.py` composes them. */
module CMakeEdits {
  import opened Text
  import opened CMakeParse
  import G = CMakeGrammar
  import P = CMakePrint
  import opened CMakeBlocks
  import opened CMakeSubdirs
  import opened CMakeFiles
  import opened CMakeSurface
  import LanePruner

  // ------------------------------------------------------------------ the whole surface

  /** `function_defs`: every routine by its lower-case name, wherever it sits, the last one on top. */
  function DefsIn(items: seq<Node>, defs: map<string, seq<Node>>): map<string, seq<Node>>
    decreases items
  {
    if items == [] then defs
    else
      match items[0]
      case Block(head, body) =>
        var more := if IsRoutine(head.name) && head.args != [] then defs[Lower(head.args[0]) := body] else defs;
        DefsIn(items[1..], DefsIn(body, more))
      case _ => DefsIn(items[1..], defs)
  }

  function DefsOf(files: seq<CMakeSurface.File>, defs: map<string, seq<Node>>): map<string, seq<Node>> {
    if files == [] then defs else DefsOf(files[1..], DefsIn(files[0].tree, defs))
  }

  predicate IsDefinition(c: Cmd) { IsRoutine(c.name) && c.args != [] }

  /** A routine as it is written. */
  datatype Definition = Definition(head: Cmd, body: seq<Node>) {
    function Name(): string { if head.args == [] then "" else Lower(head.args[0]) }
  }

  /** The routines of a tree in the order of their heads, nested ones included. */
  function RoutinesIn(items: seq<Node>): seq<Definition> {
    if items == [] then [] else RoutinesAt(items[0]) + RoutinesIn(items[1..])
  }

  function RoutinesAt(n: Node): seq<Definition> {
    if !n.Block? then []
    else (if IsDefinition(n.head) then [Definition(n.head, n.items)] else []) + RoutinesIn(n.items)
  }

  function HeadsOf(routines: seq<Definition>): seq<Cmd> {
    seq(|routines|, i requires 0 <= i < |routines| => routines[i].head)
  }

  lemma HeadsConcat(a: seq<Definition>, b: seq<Definition>)
    ensures HeadsOf(a + b) == HeadsOf(a) + HeadsOf(b)
  {
  }

  function Definitions(cmds: seq<Cmd>): seq<Cmd> {
    if cmds == [] then [] else (if IsDefinition(cmds[0]) then [cmds[0]] else []) + Definitions(cmds[1..])
  }

  lemma {:induction false} DefinitionsConcat(a: seq<Cmd>, b: seq<Cmd>)
    ensures Definitions(a + b) == Definitions(a) + Definitions(b)
  {
    hide IsDefinition;
    if a == [] {
      assert a + b == b;
    } else {
      assert (a + b)[0] == a[0] && (a + b)[1..] == a[1..] + b;
      DefinitionsConcat(a[1..], b);
    }
  }

  lemma OneDefinition(c: Cmd)
    ensures Definitions([c]) == if IsDefinition(c) then [c] else []
  {
    assert [c][1..] == [];
  }

  /** They are all of them: every routine head among the commands of the tree, in order. */
  lemma {:induction false} RoutinesAreDefinitions(items: seq<Node>, inIf: bool)
    requires ValidNodes(items, inIf)
    ensures HeadsOf(RoutinesIn(items)) == Definitions(Flat(items))
    decreases items, 0
  {
    hide IsDefinition, ValidNode, RoutinesAt, HeadsOf, Definitions, FlatNode;
    if items == [] {
      NoDefinitions();
    } else {
      RoutinesAreDefinitions(items[1..], inIf);
      NodeDefinitions(items[0], inIf);
      DefinitionsConcat(FlatNode(items[0]), Flat(items[1..]));
      HeadsConcat(RoutinesAt(items[0]), RoutinesIn(items[1..]));
    }
  }

  lemma NoDefinitions()
    ensures HeadsOf([]) == [] == Definitions([])
  {
  }

  lemma {:induction false} NodeDefinitions(n: Node, inIf: bool)
    requires ValidNode(n, inIf)
    ensures HeadsOf(RoutinesAt(n)) == Definitions(FlatNode(n))
    decreases n, 1
  {
    hide RoutinesIn, Flat, ValidNodes, Definitions;
    if n.Block? {
      RoutinesAreDefinitions(n.items, n.head.name == "if");
      DefinitionsConcat([n.head], Flat(n.items));
      OneDefinition(n.head);
      HeadsConcat(if IsDefinition(n.head) then [Definition(n.head, n.items)] else [], RoutinesIn(n.items));
    } else {
      OneDefinition(n.cmd);
    }
  }

  /** The routines of all files, one after the other. */
  function AllRoutines(files: seq<CMakeSurface.File>): seq<Definition> {
    if files == [] then [] else RoutinesIn(files[0].tree) + AllRoutines(files[1..])
  }

  function Define(routines: seq<Definition>, defs: map<string, seq<Node>>): map<string, seq<Node>> {
    if routines == [] then defs
    else
      var n := |routines| - 1;
      Define(routines[..n], defs)[routines[n].Name() := routines[n].body]
  }

  lemma {:induction false} DefineConcat(a: seq<Definition>, b: seq<Definition>, defs: map<string, seq<Node>>)
    ensures Define(a + b, defs) == Define(b, Define(a, defs))
  {
    if b == [] {
      assert a + b == a;
    } else {
      var n := |b| - 1;
      assert (a + b)[..|a| + n] == a + b[..n] && (a + b)[|a| + n] == b[n];
      DefineConcat(a, b[..n], defs);
    }
  }

  lemma OneRoutine(d: Definition, defs: map<string, seq<Node>>)
    ensures Define([d], defs) == defs[d.Name() := d.body]
  {
    assert [d][..0] == [];
  }

  lemma {:induction false} DefsAreRoutines(items: seq<Node>, defs: map<string, seq<Node>>)
    ensures DefsIn(items, defs) == Define(RoutinesIn(items), defs)
    decreases items
  {
    hide Lower, IsRoutine, Define;
    if items == [] {
      NoRoutines(defs);
    } else {
      var n, rest := items[0], items[1..];
      DefineConcat(RoutinesAt(n), RoutinesIn(rest), defs);
      NoRoutines(defs);
      if n.Block? {
        var own := if IsDefinition(n.head) then [Definition(n.head, n.items)] else [];
        if IsDefinition(n.head) { OneRoutine(own[0], defs); }
        var more := Define(own, defs);
        DefsAreRoutines(n.items, more);
        DefineConcat(own, RoutinesIn(n.items), defs);
        DefsAreRoutines(rest, DefsIn(n.items, more));
      } else {
        DefsAreRoutines(rest, defs);
      }
    }
  }

  lemma NoRoutines(defs: map<string, seq<Node>>)
    ensures Define([], defs) == defs
  {
  }

  lemma {:induction false} AllDefsAreRoutines(files: seq<CMakeSurface.File>, defs: map<string, seq<Node>>)
    ensures DefsOf(files, defs) == Define(AllRoutines(files), defs)
  {
    hide DefsIn, Define;
    NoRoutines(defs);
    if files != [] {
      DefsAreRoutines(files[0].tree, defs);
      AllDefsAreRoutines(files[1..], DefsIn(files[0].tree, defs));
      DefineConcat(RoutinesIn(files[0].tree), AllRoutines(files[1..]), defs);
    }
  }

  /** Routine `k` is the last of its name. */
  predicate IsLast(routines: seq<Definition>, name: string, k: nat) {
    && k < |routines| && routines[k].Name() == name
    && forall j | k < j < |routines| :: routines[j].Name() != name
  }

  lemma {:induction false} DefineIsLast(routines: seq<Definition>, name: string)
    ensures name in Define(routines, map[]) <==> exists d | d in routines :: d.Name() == name
    ensures name in Define(routines, map[]) ==>
              exists k: nat | IsLast(routines, name, k) :: Define(routines, map[])[name] == routines[k].body
  {
    hide Lower;
    if routines != [] {
      var n := |routines| - 1;
      var before := routines[..n];
      assert routines == before + [routines[n]];
      DefineIsLast(before, name);
      if routines[n].Name() == name {
        assert routines[n] in routines && IsLast(routines, name, n);
      } else if name in Define(routines, map[]) {
        var k: nat :| IsLast(before, name, k) && Define(before, map[])[name] == before[k].body;
        assert IsLast(routines, name, k);
      }
    }
  }

  /** `function_defs` has exactly the names of the routines, nested ones included, and for each the
      body of the last one. */
  lemma DefsAreLast(files: seq<CMakeSurface.File>, name: string)
    ensures var all, defs := AllRoutines(files), DefsOf(files, map[]);
            && (name in defs <==> exists d | d in all :: d.Name() == name)
            && (name in defs ==> exists k: nat | IsLast(all, name, k) :: defs[name] == all[k].body)
  {
    hide Lower, DefsOf, Define, AllRoutines;
    AllDefsAreRoutines(files, map[]);
    DefineIsLast(AllRoutines(files), name);
  }

  /** The flag patterns, and the file readers among the routines of some files. */
  datatype Setup = Setup(rules: Rules, readersOf: seq<CMakeSurface.File> -> set<string>)

  ghost predicate ReadersAreRoutines(setup: Setup) {
    forall files :: setup.readersOf(files) <= DefsOf(files, map[]).Keys
  }

  /** `lines` is consistent with the variables it reads, and no smaller closure is. */
  ghost predicate IsLeastSurface(rules: Rules, fns: set<string>, readers: set<string>, files: seq<CMakeSurface.File>, lines: seq<Line>) {
    && lines == WalkAll(Filter(rules, fns, readers, LineReads(lines)), files)
    && forall other: set<string> | IsConsistent(Filter(rules, fns, readers, other), files) :: LineReads(lines) <= other
  }

  /** The surface of some files. */
  ghost predicate IsSurface(setup: Setup, files: seq<CMakeSurface.File>, lines: seq<Line>) {
    var readers := setup.readersOf(files);
    exists fns: set<string> ::
      && IsLeastClosed(setup.rules, DefsOf(files, map[]), readers, fns)
      && IsLeastSurface(setup.rules, fns, readers, files, lines)
  }

  /** There is only one. */
  lemma SurfaceIsUnique(setup: Setup, files: seq<CMakeSurface.File>, a: seq<Line>, b: seq<Line>)
    requires IsSurface(setup, files, a) && IsSurface(setup, files, b)
    ensures a == b
  {
    hide WalkAll, LineReads, DefsOf, IsClosed;
    var readers := setup.readersOf(files);
    var defs := DefsOf(files, map[]);
    var f: set<string> :| IsLeastClosed(setup.rules, defs, readers, f) && IsLeastSurface(setup.rules, f, readers, files, a);
    var g: set<string> :| IsLeastClosed(setup.rules, defs, readers, g) && IsLeastSurface(setup.rules, g, readers, files, b);
    assert f == g by { assert f <= g && g <= f; }
    assert IsConsistent(Filter(setup.rules, f, readers, LineReads(a)), files);
    assert IsConsistent(Filter(setup.rules, f, readers, LineReads(b)), files);
    assert LineReads(a) == LineReads(b) by { assert LineReads(a) <= LineReads(b) && LineReads(b) <= LineReads(a); }
  }

  /** The listed files with their trees. */
  function TreesOf(src: Source, list: seq<string>): seq<CMakeSurface.File>
    requires forall p | p in list :: Loads(src, p)
  {
    seq(|list|, i requires 0 <= i < |list| => CMakeSurface.File(list[i], Tree(src, list[i])))
  }

  method KeysInOrder(keys: set<string>) returns (order: seq<string>)
    ensures forall f :: f in order <==> f in keys
  {
    order := [];
    var left := keys;
    while left != {}
      invariant left <= keys && forall f :: f in order <==> f in keys && f !in left
    {
      var f :| f in left;
      order, left := order + [f], left - {f};
    }
  }

  /** The surface of a source tree: the files, their routines, the flag routines, the lines. */
  method SurfaceOf(src: Source, pruned: Cmd -> bool, setup: Setup) returns (r: Option<seq<Line>>)
    requires NoDuplicates([ROOT] + src.modules) && ReadersAreRoutines(setup)
    ensures r.Some? <==> Files(src, pruned).Some?
    ensures r.Some? ==>
              && (forall p | p in Files(src, pruned).value :: Loads(src, p))
              && IsSurface(setup, TreesOf(src, Files(src, pruned).value), r.value)
  {
    hide Files, TreesOf, IsLeastClosed, IsConsistent;
    var list := CollectFiles(src, pruned);
    if list.None? { return None; }
    FilesLoad(src, pruned);
    var files := TreesOf(src, list.value);
    var defs := DefsOf(files, map[]);
    var order := KeysInOrder(defs.Keys);
    var fns := FlagRoutines(setup.rules, defs, setup.readersOf(files), order);
    var lines, closure := Surface(setup.rules, fns, setup.readersOf(files), files);
    return Some(lines);
  }

  lemma FilesLoad(src: Source, pruned: Cmd -> bool)
    requires NoDuplicates([ROOT] + src.modules) && Files(src, pruned).Some?
    ensures forall p | p in Files(src, pruned).value :: Loads(src, p)
  {
    hide Follow;
    FilesAreReachable(src, pruned);
  }

  // ------------------------------------------------------------------ layout edits

  /** Two texts with the same commands, however they are laid out and commented. */
  ghost predicate IsLayoutEdit(t: string, u: string) {
    exists f: G.File, g: G.File ::
      && G.ValidFile(f) && G.ValidFile(g) && G.FileText(f) == t && G.FileText(g) == u
      && G.Meaning(f.items) == G.Meaning(g.items)
  }

  lemma LayoutEditParses(t: string, u: string)
    requires IsLayoutEdit(t, u)
    ensures Commands(t, 0) == Commands(u, 0)
  {
    hide Commands, G.FileText, G.ValidFile, G.Meaning;
    var f: G.File, g: G.File :|
      && G.ValidFile(f) && G.ValidFile(g) && G.FileText(f) == t && G.FileText(g) == u
      && G.Meaning(f.items) == G.Meaning(g.items);
    G.ParseOfText(f);
    G.ParseOfText(g);
  }

  /** Printing the same commands with other gaps is a layout edit. */
  lemma ReprintIsLayoutEdit(ps: seq<P.Printed>, qs: seq<P.Printed>)
    requires (forall p | p in ps :: P.ValidPrinted(p)) && (forall q | q in qs :: P.ValidPrinted(q))
    requires P.CommandsOf(ps) == P.CommandsOf(qs)
    ensures IsLayoutEdit(G.FileText(G.File(P.PrintFile(ps), None)), G.FileText(G.File(P.PrintFile(qs), None)))
  {
    hide G.FileText, G.Meaning, P.ValidPrinted, P.CommandsOf, P.PrintFile, G.ValidItem;
    P.FileMeans(ps);
    P.FileMeans(qs);
    var f, g := G.File(P.PrintFile(ps), None), G.File(P.PrintFile(qs), None);
    assert G.ValidFile(f) && G.ValidFile(g);
  }

  /** So is adding a gap, a comment say, between any two commands. */
  lemma NewCommentIsLayoutEdit(f: G.File, k: nat, gap: G.Gap)
    requires G.ValidFile(f) && k <= |f.items| && G.ValidGap(gap)
    ensures IsLayoutEdit(G.FileText(f), G.FileText(f.(items := f.items[..k] + [G.Between(gap)] + f.items[k..])))
  {
    var g := f.(items := f.items[..k] + [G.Between(gap)] + f.items[k..]);
    hide G.FileText, G.ValidGap, G.OneLine;
    forall it | it in g.items ensures G.ValidItem(it) {
      if it != G.Between(gap) { assert it in f.items; }
    }
    MeaningSkips(f.items, k, gap);
    assert G.ValidFile(g);
  }

  lemma {:induction false} MeaningSkips(items: seq<G.Item>, k: nat, gap: G.Gap)
    requires k <= |items|
    ensures G.Meaning(items[..k] + [G.Between(gap)] + items[k..]) == G.Meaning(items)
    decreases k
  {
    var all := items[..k] + [G.Between(gap)] + items[k..];
    if k == 0 {
      assert all[1..] == items;
    } else {
      assert all[0] == items[0] && all[1..] == items[1..][..k - 1] + [G.Between(gap)] + items[1..][k - 1..];
      MeaningSkips(items[1..], k - 1, gap);
    }
  }

  /** Two source trees that differ by layout edits of some of their files. */
  ghost predicate DifferInLayout(a: Source, b: Source) {
    && a.modules == b.modules && a.child == b.child && a.texts.Keys == b.texts.Keys
    && forall p | p in a.texts :: a.texts[p] == b.texts[p] || IsLayoutEdit(a.texts[p], b.texts[p])
  }

  lemma SameCommands(a: Source, b: Source)
    requires DifferInLayout(a, b)
    ensures forall p | p in a.texts :: Commands(a.texts[p], 0) == Commands(b.texts[p], 0)
  {
    hide Commands, IsLayoutEdit;
    forall p | p in a.texts ensures Commands(a.texts[p], 0) == Commands(b.texts[p], 0) {
      if a.texts[p] != b.texts[p] { LayoutEditParses(a.texts[p], b.texts[p]); }
    }
  }

  /** `tracked_cmake_commands`: the commands of the tracked files, or None when the list cannot be
      had or a file on it cannot be read and parsed. */
  function Tracked(src: Source, paths: Option<seq<string>>): Option<seq<Cmd>> {
    match paths
    case None => None
    case Some(list) => TrackedFrom(src, list)
  }

  function TrackedFrom(src: Source, list: seq<string>): Option<seq<Cmd>> {
    if list == [] then Some([])
    else if list[0] !in src.texts then None
    else
      match Commands(src.texts[list[0]], 0)
      case Err(_) => None
      case Ok(cmds) =>
        match TrackedFrom(src, list[1..])
        case None => None
        case Some(more) => Some(cmds + more)
  }

  /** `lane_pruner` on a source tree: without the tracked commands nothing is pruned. */
  function PrunerOf(src: Source, paths: Option<seq<string>>, lane: map<string, LanePruner.Value>, mentions: string): Cmd -> bool {
    match Tracked(src, paths)
    case None => (head: Cmd) => false
    case Some(tracked) => LanePruner.Pruner(tracked, lane, mentions)
  }

  lemma {:induction false} SameTracked(a: Source, b: Source, list: seq<string>)
    requires a.texts.Keys == b.texts.Keys && forall p | p in a.texts :: Commands(a.texts[p], 0) == Commands(b.texts[p], 0)
    ensures TrackedFrom(a, list) == TrackedFrom(b, list)
  {
    hide Commands;
    if list != [] { SameTracked(a, b, list[1..]); }
  }

  /** A comment or layout edit in any of the files, tracked or listed, changes neither what the
      lane prunes, nor the list of files, nor their trees, so whatever is the surface of one tree
      is the surface of the other. */
  lemma LayoutNeverMovesSurface(a: Source, b: Source, paths: Option<seq<string>>, lane: map<string, LanePruner.Value>,
                                mentions: string, setup: Setup)
    requires NoDuplicates([ROOT] + a.modules) && DifferInLayout(a, b)
    ensures PrunerOf(a, paths, lane, mentions) == PrunerOf(b, paths, lane, mentions)
    ensures var pruned := PrunerOf(a, paths, lane, mentions);
            && Files(a, pruned) == Files(b, pruned)
            && (Files(a, pruned).Some? ==>
                  var list := Files(a, pruned).value;
                  && (forall p | p in list :: Loads(a, p) && Loads(b, p))
                  && TreesOf(a, list) == TreesOf(b, list)
                  && forall lines :: IsSurface(setup, TreesOf(a, list), lines) <==> IsSurface(setup, TreesOf(b, list), lines))
  {
    hide Files, Commands, IsLayoutEdit, IsSurface, Split, LanePruner.Pruner;
    SameCommands(a, b);
    if paths.Some? { SameTracked(a, b, paths.value); }
    SameTrees(a, b, PrunerOf(a, paths, lane, mentions));
  }

  lemma SameTrees(a: Source, b: Source, pruned: Cmd -> bool)
    requires NoDuplicates([ROOT] + a.modules) && DifferInLayout(a, b)
    ensures Files(a, pruned) == Files(b, pruned)
    ensures Files(a, pruned).Some? ==>
              var list := Files(a, pruned).value;
              && (forall p | p in list :: Loads(a, p) && Loads(b, p))
              && TreesOf(a, list) == TreesOf(b, list)
  {
    hide Files, Commands, IsLayoutEdit, Split;
    SameCommands(a, b);
    FilesFollowCommands(a, b, pruned);
    if Files(a, pruned).Some? {
      FilesLoad(a, pruned);
      FilesLoad(b, pruned);
      var list := Files(a, pruned).value;
      forall i | 0 <= i < |list| ensures Tree(a, list[i]) == Tree(b, list[i]) { assert list[i] in list; }
      assert TreesOf(a, list) == TreesOf(b, list);
    }
  }

  // ------------------------------------------------------------------ edits that move it

  /** What `fmt` shows of a command: all but the prose of an option or of a cached variable. */
  function Bare(c: Cmd): Cmd {
    if c.name == "option" && c.args != [] then
      Cmd(c.name, [c.args[0], if |c.args| >= 3 then c.args[2] else "OFF"])
    else if c.name == "set" && c.args != [] && CacheAt(c.args, 1) < |c.args| then
      var k := CacheAt(c.args, 1);
      Cmd(c.name, c.args[..Least(k + 2, |c.args|)] + c.args[Least(k + 3, |c.args|)..])
    else c
  }

  function Least(a: nat, b: nat): nat { if a < b then a else b }

  /** The first `CACHE` from `k` on, or the end. */
  function CacheAt(args: seq<string>, k: nat): (r: nat)
    requires k <= |args|
    ensures k <= r <= |args|
    decreases |args| - k
  {
    if k == |args| || args[k] == "CACHE" then k else CacheAt(args, k + 1)
  }

  function BareCmds(cmds: seq<Cmd>): seq<Cmd> {
    seq(|cmds|, i requires 0 <= i < |cmds| => Bare(cmds[i]))
  }

  function BareNodes(nodes: seq<Node>): seq<Node> {
    if nodes == [] then [] else [BareNode(nodes[0])] + BareNodes(nodes[1..])
  }

  function BareNode(n: Node): Node {
    match n
    case Command(c) => Command(Bare(c))
    case Branch(c) => Branch(Bare(c))
    case Block(h, items) => Block(Bare(h), BareNodes(items))
  }

  function BareSite(s: Site): Site { Site(s.path, BareCmds(s.ctx), BareNode(s.node)) }

  function BareSites(sites: seq<Site>): seq<Site> {
    if sites == [] then [] else [BareSite(sites[0])] + BareSites(sites[1..])
  }

  /** What a line shows. */
  function BareLine(l: Line): Line {
    match l
    case Kept(path, ctx, n) => Kept(path, BareCmds(ctx), BareNode(n))
    case Value(path, c) => Value(path, Bare(c))
  }

  function BareLines(lines: seq<Line>): seq<Line> {
    if lines == [] then [] else [BareLine(lines[0])] + BareLines(lines[1..])
  }

  function KeptSites(f: Filter, sites: seq<Site>): seq<Site> {
    if sites == [] then []
    else if Keeps(f, sites[0].node) then [sites[0]] + KeptSites(f, sites[1..])
    else KeptSites(f, sites[1..])
  }

  /** The lines of some kept sites. */
  function LinesOf(readers: set<string>, sites: seq<Site>): seq<Line> {
    if sites == [] then [] else SiteLines(readers, sites[0]) + LinesOf(readers, sites[1..])
  }

  function SiteLines(readers: set<string>, s: Site): seq<Line> {
    if s.node.Command? && s.node.cmd.name in readers then [Kept(s.path, s.ctx, s.node), Value(s.path, s.node.cmd)]
    else [Kept(s.path, s.ctx, s.node)]
  }

  /** The kept sites some lines show. */
  function SitesIn(lines: seq<Line>): seq<Site> {
    if lines == [] then []
    else if lines[0].Kept? then [Site(lines[0].path, lines[0].ctx, lines[0].node)] + SitesIn(lines[1..])
    else SitesIn(lines[1..])
  }

  lemma {:induction false} BareLinesConcat(a: seq<Line>, b: seq<Line>)
    ensures BareLines(a + b) == BareLines(a) + BareLines(b)
  {
    hide BareLine;
    if a == [] {
      assert a + b == b;
    } else {
      assert (a + b)[0] == a[0] && (a + b)[1..] == a[1..] + b;
      BareLinesConcat(a[1..], b);
    }
  }

  lemma {:induction false} SitesInConcat(a: seq<Line>, b: seq<Line>)
    ensures SitesIn(a + b) == SitesIn(a) + SitesIn(b)
  {
    if a == [] {
      assert a + b == b;
    } else {
      assert (a + b)[0] == a[0] && (a + b)[1..] == a[1..] + b;
      SitesInConcat(a[1..], b);
    }
  }

  /** What the emitted lines show depends on what is shown of the kept sites, and on nothing else. */
  lemma {:induction false} ShownLines(f: Filter, sites: seq<Site>)
    ensures BareLines(EmitSites(f, sites)) == LinesOf(f.readers, BareSites(KeptSites(f, sites)))
  {
    hide Keeps, Bare, BareCmds, BareNodes;
    if sites != [] {
      var s := sites[0];
      ShownLines(f, sites[1..]);
      BareLinesConcat(Emit(f, s.path, s.ctx, s.node), EmitSites(f, sites[1..]));
      if Keeps(f, s.node) {
        var kept := [s] + KeptSites(f, sites[1..]);
        assert kept[0] == s && kept[1..] == KeptSites(f, sites[1..]);
        var bare := [BareSite(s)] + BareSites(kept[1..]);
        assert bare[0] == BareSite(s) && bare[1..] == BareSites(kept[1..]);
        ShownSite(f, s);
      }
    }
  }

  lemma ShownSite(f: Filter, s: Site)
    requires Keeps(f, s.node)
    ensures BareLines(Emit(f, s.path, s.ctx, s.node)) == SiteLines(f.readers, BareSite(s))
  {
    hide Keeps, BareCmds, BareNodes;
    assert s.node.Command? ==> Bare(s.node.cmd).name == s.node.cmd.name;
    hide Bare;
    var kept := Kept(s.path, s.ctx, s.node);
    OneLine(kept);
    if s.node.Command? && s.node.cmd.name in f.readers {
      var value := Value(s.path, s.node.cmd);
      OneLine(value);
      BareLinesConcat([kept], [value]);
      assert [kept] + [value] == [kept, value];
    }
  }

  lemma OneLine(l: Line)
    ensures BareLines([l]) == [BareLine(l)]
  {
    hide BareLine;
    assert [l][1..] == [];
  }

  lemma {:induction false} SitesOfLines(readers: set<string>, sites: seq<Site>)
    ensures SitesIn(LinesOf(readers, sites)) == sites
  {
    if sites != [] {
      var s := sites[0];
      SitesOfLines(readers, sites[1..]);
      SitesInConcat(SiteLines(readers, s), LinesOf(readers, sites[1..]));
      var lines := SiteLines(readers, s);
      assert |lines| == 2 ==> lines[1..] == [Value(s.path, s.node.cmd)] && lines[1..][1..] == [];
      assert |lines| == 1 ==> lines[1..] == [];
      assert SitesIn(lines) == [s];
    }
  }

  /** Two sets of file readers agree on the calls among some sites. */
  predicate AgreeOn(r: set<string>, q: set<string>, sites: seq<Site>) {
    forall s | s in sites && s.node.Command? :: s.node.cmd.name in r <==> s.node.cmd.name in q
  }

  lemma {:induction false} LinesAgree(r: set<string>, q: set<string>, sites: seq<Site>)
    ensures LinesOf(r, sites) == LinesOf(q, sites) <==> AgreeOn(r, q, sites)
  {
    if sites != [] {
      var s, rest := sites[0], sites[1..];
      LinesAgree(r, q, rest);
      StartsKept(r, rest);
      StartsKept(q, rest);
      assert forall x :: x in sites <==> x == s || x in rest;
      var u, v := LinesOf(r, sites), LinesOf(q, sites);
      assert u == SiteLines(r, s) + LinesOf(r, rest) && v == SiteLines(q, s) + LinesOf(q, rest);
      if SiteLines(r, s) == SiteLines(q, s) {
        var n := |SiteLines(r, s)|;
        assert u[n..] == LinesOf(r, rest) && v[n..] == LinesOf(q, rest);
      } else if |SiteLines(r, s)| == 2 {
        assert u[1].Value?;
        assert |v| > 1 ==> v[1] == LinesOf(q, rest)[0];
      } else {
        assert v[1].Value?;
        assert |u| > 1 ==> u[1] == LinesOf(r, rest)[0];
      }
    }
  }

  lemma StartsKept(r: set<string>, sites: seq<Site>)
    ensures LinesOf(r, sites) != [] ==> LinesOf(r, sites)[0].Kept?
  {
  }

  /** The surface moves exactly when what is shown of the kept sites does, or a kept call becomes
      or stops being a file reader's. */
  lemma SurfaceMovesExactly(f: Filter, g: Filter, a: seq<CMakeSurface.File>, b: seq<CMakeSurface.File>)
    ensures var kept := BareSites(KeptSites(f, AllSites(a)));
            BareLines(WalkAll(f, a)) == BareLines(WalkAll(g, b)) <==>
            kept == BareSites(KeptSites(g, AllSites(b))) && AgreeOn(f.readers, g.readers, kept)
  {
    hide *;
    KeptSitesAreShown(f, a);
    KeptSitesAreShown(g, b);
    WalkAllIsFilter(f, a);
    WalkAllIsFilter(g, b);
    ShownLines(f, AllSites(a));
    ShownLines(g, AllSites(b));
    LinesAgree(f.readers, g.readers, BareSites(KeptSites(f, AllSites(a))));
  }

  lemma KeptSitesAreShown(f: Filter, files: seq<CMakeSurface.File>)
    ensures SitesIn(BareLines(WalkAll(f, files))) == BareSites(KeptSites(f, AllSites(files)))
  {
    hide *;
    WalkAllIsFilter(f, files);
    ShownLines(f, AllSites(files));
    SitesOfLines(f.readers, BareSites(KeptSites(f, AllSites(files))));
  }

  // ------------------------------------------------------------------ flags

  /** A body holds a command that sets a flag outright. */
  predicate HoldsFlag(rules: Rules, body: seq<Node>) {
    exists c | c in Flat(body) :: IsDirectFlag(rules, c)
  }

  predicate IsFlagNode(rules: Rules, n: Node) {
    match n
    case Command(c) => IsDirectFlag(rules, c)
    case Branch(_) => false
    case Block(_, body) => HoldsFlag(rules, body)
  }

  /** The commands that set a flag outright, and the routines whose bodies hold one. */
  function FlagSites(rules: Rules, sites: seq<Site>): seq<Site> {
    if sites == [] then []
    else if IsFlagNode(rules, sites[0].node) then [sites[0]] + FlagSites(rules, sites[1..])
    else FlagSites(rules, sites[1..])
  }

  /** A routine counts as flag-bearing exactly when it is a file reader, or the definition
      `function_defs` has for its name holds a flag or calls a flag-bearing routine. */
  lemma FlagRoutineExactly(rules: Rules, defs: map<string, seq<Node>>, readers: set<string>, fns: set<string>, name: string)
    requires IsLeastClosed(rules, defs, readers, fns)
    ensures name in fns <==> name in readers || (name in defs && Bears(rules, defs[name], fns))
  {
    hide Bears;
    if name !in readers && !(name in defs && Bears(rules, defs[name], fns)) { StaysClosed(rules, defs, readers, fns, name); }
  }

  /** A routine that nothing earns can be left out. */
  lemma StaysClosed(rules: Rules, defs: map<string, seq<Node>>, readers: set<string>, fns: set<string>, name: string)
    requires IsClosed(rules, defs, readers, fns) && name !in readers && !(name in defs && Bears(rules, defs[name], fns))
    ensures IsClosed(rules, defs, readers, fns - {name})
  {
    hide Bears;
    forall f | f in defs && Bears(rules, defs[f], fns - {name}) ensures f in fns - {name} {
      BearsMonotone(rules, defs[f], fns - {name}, fns);
    }
  }

  /** A routine is on the surface exactly when the last definition of its name earns it: whether
      its own body holds a flag does not matter. */
  lemma RoutineKeptExactly(setup: Setup, files: seq<CMakeSurface.File>, fns: set<string>, lines: seq<Line>, s: Site)
    requires IsSurface(setup, files, lines) && IsLeastClosed(setup.rules, DefsOf(files, map[]), setup.readersOf(files), fns)
    requires s in AllSites(files) && s.node.Block? && IsRoutine(s.node.head.name)
    ensures Kept(s.path, s.ctx, s.node) in lines <==>
            && s.node.head.args != []
            && var name := Lower(s.node.head.args[0]);
               || name in setup.readersOf(files)
               || (name in DefsOf(files, map[]) && Bears(setup.rules, DefsOf(files, map[])[name], fns))
  {
    hide WalkAll, LineReads, DefsOf, IsClosed, Bears, AllSites, Lower, EmitSites;
    var readers, defs := setup.readersOf(files), DefsOf(files, map[]);
    var g: set<string> :| IsLeastClosed(setup.rules, defs, readers, g) && IsLeastSurface(setup.rules, g, readers, files, lines);
    assert g == fns by { assert g <= fns && fns <= g; }
    var f := Filter(setup.rules, fns, readers, LineReads(lines));
    WalkAllIsFilter(f, files);
    EmittedExactly(f, AllSites(files), Kept(s.path, s.ctx, s.node));
    if s.node.head.args != [] { FlagRoutineExactly(setup.rules, defs, readers, fns, Lower(s.node.head.args[0])); }
  }

  /** A routine defined with a flag and then again without. */
  function Redefined(args: seq<string>): seq<CMakeSurface.File> {
    var head := Cmd("function", ["f"]);
    [CMakeSurface.File(ROOT, [Block(head, [Command(Cmd("add_compile_options", args))]), Block(head, [])])]
  }

  function NoReaders(files: seq<CMakeSurface.File>): set<string> { {} }

  /** The first definition's flag is lost: whatever it is, nothing is on the surface. */
  lemma EarlierFlagIsLost(rules: Rules, args: seq<string>)
    ensures IsSurface(Setup(rules, NoReaders), Redefined(args), [])
    ensures HoldsFlag(rules, Redefined(args)[0].tree[0].items)
  {
    var files := Redefined(args);
    RedefinedDefs(args);
    RedefinedLines(rules, args);
    var setup, fns: set<string> := Setup(rules, NoReaders), {};
    assert IsLeastClosed(rules, DefsOf(files, map[]), setup.readersOf(files), fns);
    assert IsLeastSurface(rules, fns, setup.readersOf(files), files, []);
    var flag := Cmd("add_compile_options", args);
    assert Flat([Command(flag)]) == [flag] && IsDirectFlag(rules, flag);
  }

  lemma RedefinedDefs(args: seq<string>)
    ensures forall name | name in DefsOf(Redefined(args), map[]) :: DefsOf(Redefined(args), map[])[name] == []
  {
    var files := Redefined(args);
    var tree := files[0].tree;
    var one: map<string, seq<Node>> := map[Lower("f") := tree[0].items];
    assert DefsIn(tree[0].items, one) == one;
    assert tree[1..] == [tree[1]] && tree[1..][1..] == [];
    assert DefsIn(tree[1..], one) == one[Lower("f") := []];
    assert DefsIn(tree, map[]) == map[Lower("f") := []];
    assert files[1..] == [];
  }

  lemma RedefinedLines(rules: Rules, args: seq<string>)
    ensures WalkAll(Filter(rules, {}, {}, {}), Redefined(args)) == [] && LineReads([]) == {}
  {
    hide Lower;
    var f := Filter(rules, {}, {}, {});
    var files := Redefined(args);
    var tree := files[0].tree;
    assert files[1..] == [] && tree[1..] == [tree[1]] && tree[1..][1..] == [];
    assert Walk(f, ROOT, tree[1..], [], []) == [];
    assert Walk(f, ROOT, tree, [], []) == [];
  }

  /** Every routine that holds a flag is a file reader or has a flag in the last definition of its
      name, as it has when no later definition replaces it. */
  predicate FlagsStand(setup: Setup, files: seq<CMakeSurface.File>) {
    forall s | s in AllSites(files) && s.node.Block? && HoldsFlag(setup.rules, s.node.items) ::
      && s.node.head.args != []
      && var name := Lower(s.node.head.args[0]);
         || name in setup.readersOf(files)
         || (name in DefsOf(files, map[]) && HoldsFlag(setup.rules, DefsOf(files, map[])[name]))
  }

  lemma BareKeepsFlag(rules: Rules, c: Cmd)
    ensures IsDirectFlag(rules, Bare(c)) == IsDirectFlag(rules, c)
  {
    if c.name == "set" {
      assert !IsFlagCommand(c.name) && !IsPropertyCommand(c.name);
    }
  }

  lemma {:induction false} BareFlat(nodes: seq<Node>)
    ensures Flat(BareNodes(nodes)) == BareCmds(Flat(nodes))
    decreases nodes
  {
    hide Bare;
    if nodes != [] {
      var bare := [BareNode(nodes[0])] + BareNodes(nodes[1..]);
      assert bare[0] == BareNode(nodes[0]) && bare[1..] == BareNodes(nodes[1..]);
      BareFlat(nodes[1..]);
      BareFlatNode(nodes[0]);
      assert BareCmds(FlatNode(nodes[0]) + Flat(nodes[1..])) == BareCmds(FlatNode(nodes[0])) + BareCmds(Flat(nodes[1..]));
    }
  }

  lemma {:induction false} BareFlatNode(n: Node)
    ensures FlatNode(BareNode(n)) == BareCmds(FlatNode(n))
    decreases n
  {
    hide Bare;
    if n.Block? {
      BareFlat(n.items);
      assert BareCmds([n.head] + Flat(n.items)) == [Bare(n.head)] + BareCmds(Flat(n.items));
    }
  }

  lemma BareHoldsFlag(rules: Rules, body: seq<Node>)
    ensures HoldsFlag(rules, BareNodes(body)) == HoldsFlag(rules, body)
  {
    hide IsDirectFlag, Bare, BareNodes, Flat;
    BareFlat(body);
    var cmds := Flat(body);
    forall k | 0 <= k < |cmds| ensures IsDirectFlag(rules, BareCmds(cmds)[k]) == IsDirectFlag(rules, cmds[k]) {
      BareKeepsFlag(rules, cmds[k]);
    }
    if HoldsFlag(rules, body) {
      var k :| 0 <= k < |cmds| && IsDirectFlag(rules, cmds[k]);
      assert BareCmds(cmds)[k] in BareCmds(cmds);
    }
  }

  lemma BareIsFlagNode(rules: Rules, n: Node)
    ensures IsFlagNode(rules, BareNode(n)) == IsFlagNode(rules, n)
  {
    hide IsDirectFlag, Bare, BareNodes, HoldsFlag;
    match n
    case Command(c) => BareKeepsFlag(rules, c);
    case Branch(_) =>
    case Block(_, body) => BareHoldsFlag(rules, body);
  }

  lemma {:induction false} FlagsAreKept(f: Filter, sites: seq<Site>)
    requires forall s | s in sites && IsFlagNode(f.rules, s.node) :: Keeps(f, s.node)
    ensures FlagSites(f.rules, BareSites(KeptSites(f, sites))) == BareSites(FlagSites(f.rules, sites))
  {
    hide Keeps, IsFlagNode, BareNode, BareCmds;
    if sites != [] {
      var s, rest := sites[0], sites[1..];
      FlagsAreKept(f, rest);
      BareIsFlagNode(f.rules, s.node);
      if Keeps(f, s.node) {
        var kept := [s] + KeptSites(f, rest);
        assert kept[0] == s && kept[1..] == KeptSites(f, rest);
        var bare := [BareSite(s)] + BareSites(kept[1..]);
        assert bare[0] == BareSite(s) && bare[1..] == BareSites(kept[1..]);
      }
      if IsFlagNode(f.rules, s.node) {
        var flags := [s] + FlagSites(f.rules, rest);
        assert flags[0] == s && flags[1..] == FlagSites(f.rules, rest);
      }
    }
  }

  /** Every flag site is kept when the routines' flags stand. */
  lemma FlagsStandKept(setup: Setup, files: seq<CMakeSurface.File>, fns: set<string>, f: Filter, s: Site)
    requires FlagsStand(setup, files) && IsLeastClosed(setup.rules, DefsOf(files, map[]), setup.readersOf(files), fns)
    requires f.rules == setup.rules && f.fns == fns && s in AllSites(files) && IsFlagNode(setup.rules, s.node)
    ensures Keeps(f, s.node)
  {
    hide DefsOf, AllSites, Flat, IsDirectFlag, Lower, CallsAny, AssignsAny, Sites;
    if s.node.Block? {
      SitesAreRoutines(files, s);
      var name := Lower(s.node.head.args[0]);
      FlagRoutineExactly(setup.rules, DefsOf(files, map[]), setup.readersOf(files), fns, name);
    }
  }

  lemma {:induction false} SitesAreRoutines(files: seq<CMakeSurface.File>, s: Site)
    requires s in AllSites(files) && s.node.Block?
    ensures IsRoutine(s.node.head.name)
  {
    if s in Sites(files[0].path, files[0].tree, [], []) {
      TreeSitesAreRoutines(files[0].path, files[0].tree, [], [], s);
    } else {
      SitesAreRoutines(files[1..], s);
    }
  }

  lemma {:induction false} TreeSitesAreRoutines(path: string, items: seq<Node>, ctx: seq<Cmd>, heads: seq<Cmd>, s: Site)
    requires s in Sites(path, items, ctx, heads) && s.node.Block?
    ensures IsRoutine(s.node.head.name)
    decreases items
  {
    hide IsRoutine;
    match items[0]
    case Branch(c) => TreeSitesAreRoutines(path, items[1..], ctx, heads + [c], s);
    case Command(_) => TreeSitesAreRoutines(path, items[1..], ctx, heads, s);
    case Block(head, body) =>
      if s in Sites(path, items[1..], ctx, heads) {
        TreeSitesAreRoutines(path, items[1..], ctx, heads, s);
      } else if !IsRoutine(head.name) {
        TreeSitesAreRoutines(path, body, ctx + heads + [head], [], s);
      }
  }

  lemma SurfaceShowsFlags(setup: Setup, files: seq<CMakeSurface.File>, lines: seq<Line>)
    requires IsSurface(setup, files, lines) && FlagsStand(setup, files)
    ensures FlagSites(setup.rules, SitesIn(BareLines(lines))) == BareSites(FlagSites(setup.rules, AllSites(files)))
  {
    hide *;
    var fns, f := FilterOf(setup, files, lines);
    KeptSitesAreShown(f, files);
    forall s | s in AllSites(files) && IsFlagNode(f.rules, s.node) ensures Keeps(f, s.node) {
      FlagsStandKept(setup, files, fns, f, s);
    }
    FlagsAreKept(f, AllSites(files));
  }

  lemma FilterOf(setup: Setup, files: seq<CMakeSurface.File>, lines: seq<Line>) returns (fns: set<string>, f: Filter)
    requires IsSurface(setup, files, lines)
    ensures IsLeastClosed(setup.rules, DefsOf(files, map[]), setup.readersOf(files), fns)
    ensures f.rules == setup.rules && f.fns == fns && lines == WalkAll(f, files)
  {
    hide IsLeastClosed, WalkAll, DefsOf, LineReads;
    var readers := setup.readersOf(files);
    fns :| IsLeastClosed(setup.rules, DefsOf(files, map[]), readers, fns) && IsLeastSurface(setup.rules, fns, readers, files, lines);
    f := Filter(setup.rules, fns, readers, LineReads(lines));
  }

  /** A flag edit reaches the surface: when the flag commands of two trees and the routines that
      hold flags, with the heads that gate them, differ in more than prose, so do the surfaces,
      as long as no flag-holding routine is replaced by a definition without one. */
  lemma FlagEditMovesSurface(setup: Setup, a: seq<CMakeSurface.File>, b: seq<CMakeSurface.File>, la: seq<Line>, lb: seq<Line>)
    requires IsSurface(setup, a, la) && IsSurface(setup, b, lb) && FlagsStand(setup, a) && FlagsStand(setup, b)
    requires BareSites(FlagSites(setup.rules, AllSites(a))) != BareSites(FlagSites(setup.rules, AllSites(b)))
    ensures BareLines(la) != BareLines(lb)
  {
    hide *;
    SurfaceShowsFlags(setup, a, la);
    SurfaceShowsFlags(setup, b, lb);
  }
}

/** The files a lane's surface is read from: `cmake_files` of `ci/ccache-flag-surface.py`. */
module CMakeFiles {
  import opened Text
  import opened CMakeParse
  import opened CMakeBlocks
  import opened CMakeSubdirs

  /** The source tree: the readable texts by path, the modules of the cmake directory in sorted order,
      and path arithmetic (`child(path, sub)` is the normalized CMakeLists.txt of `sub` below
      the directory of `path`). */
  datatype Source = Source(texts: map<string, string>, modules: seq<string>, child: (string, string) -> string)

  const ROOT := "CMakeLists.txt"

  predicate IsDirectoryFile(path: string) {
    path == ROOT || (|path| >= 15 && path[|path| - 15..] == "/CMakeLists.txt")
  }

  /** The nested commands of a text, when it parses and nests. */
  function TreeOf(text: string): Option<seq<Node>> {
    match Commands(text, 0)
    case Err(_) => None
    case Ok(cmds) => match Split(cmds) case BadNesting(_) => None case Nested(tree) => Some(tree)
  }

  predicate Loads(src: Source, path: string) {
    path in src.texts && TreeOf(src.texts[path]).Some?
  }

  function Tree(src: Source, path: string): seq<Node>
    requires Loads(src, path)
  {
    TreeOf(src.texts[path]).value
  }

  function StripQuotes(s: string): string {
    if s != "" && s[0] == '"' then StripQuotes(s[1..])
    else if s != "" && s[|s| - 1] == '"' then StripQuotes(s[..|s| - 1])
    else s
  }

  /** The file an `add_subdirectory` names; None when it is refused. */
  function Target(src: Source, path: string, c: Cmd): Option<string> {
    if c.args == [] then None
    else
      var sub := StripQuotes(c.args[0]);
      if '$' in sub || (sub != "" && sub[0] == '/') then None
      else
        var child := src.child(path, sub);
        if "../" <= child then None else Some(child)
  }

  /** The calls a file contributes: none for a module. */
  function Calls(src: Source, path: string, pruned: Cmd -> bool): seq<Cmd>
    requires Loads(src, path)
  {
    if IsDirectoryFile(path) then SubdirCalls(Tree(src, path), pruned, false) else []
  }

  // -------------------------------------------------------------- the worklist

  predicate NoDuplicates(list: seq<string>) {
    forall j, k | 0 <= j < k < |list| :: list[j] != list[k]
  }

  predicate GoodList(src: Source, list: seq<string>) {
    NoDuplicates(list) && forall p | p in list :: Loads(src, p)
  }

  lemma {:induction false} ListFits(list: seq<string>, s: set<string>)
    requires NoDuplicates(list) && forall p | p in list :: p in s
    ensures |list| <= |s|
  {
    if list != [] {
      var last := list[|list| - 1];
      ListFits(list[..|list| - 1], s - {last});
    }
  }

  /** One file's calls: every target not yet listed is appended. */
  function Enqueue(src: Source, path: string, calls: seq<Cmd>, list: seq<string>): (r: Option<seq<string>>)
    requires GoodList(src, list)
    ensures r.Some? ==> GoodList(src, r.value) && list <= r.value
    decreases |calls|
  {
    if calls == [] then Some(list)
    else
      match Target(src, path, calls[0])
      case None => None
      case Some(child) =>
        if child in list then Enqueue(src, path, calls[1..], list)
        else if !Loads(src, child) then None
        else Enqueue(src, path, calls[1..], list + [child])
  }

  function Follow(src: Source, pruned: Cmd -> bool, list: seq<string>, i: nat): (r: Option<seq<string>>)
    requires GoodList(src, list) && i <= |list|
    decreases |src.texts| - i
  {
    if i == |list| then Some(list)
    else
      assert |src.texts| > i by { ListFits(list, src.texts.Keys); }
      match Enqueue(src, list[i], Calls(src, list[i], pruned), list)
      case None => None
      case Some(more) => Follow(src, pruned, more, i + 1)
  }

  /** `cmake_files`: the paths in the order they are found. */
  function Files(src: Source, pruned: Cmd -> bool): (r: Option<seq<string>>)
    requires NoDuplicates([ROOT] + src.modules)
  {
    var start := [ROOT] + src.modules;
    if forall p | p in start :: Loads(src, p) then Follow(src, pruned, start, 0) else None
  }

  /** One file's turn in the worklist loop of `cmake_files`. */
  method EnqueueCalls(src: Source, path: string, calls: seq<Cmd>, list: seq<string>) returns (r: Option<seq<string>>)
    requires GoodList(src, list)
    ensures r == Enqueue(src, path, calls, list)
  {
    var trees := list;
    for k := 0 to |calls|
      invariant GoodList(src, trees)
      invariant Enqueue(src, path, calls, list) == Enqueue(src, path, calls[k..], trees)
    {
      assert calls[k..][0] == calls[k] && calls[k..][1..] == calls[k + 1..];
      var child := Target(src, path, calls[k]);
      if child.None? { return None; }
      if child.value in trees { continue; }
      if !Loads(src, child.value) { return None; }
      trees := trees + [child.value];
    }
    return Some(trees);
  }

  /** `cmake_files`. */
  method CollectFiles(src: Source, pruned: Cmd -> bool) returns (r: Option<seq<string>>)
    requires NoDuplicates([ROOT] + src.modules)
    ensures r == Files(src, pruned)
  {
    hide Enqueue, Calls, Loads, Target;
    var start := [ROOT] + src.modules;
    for j := 0 to |start|
      invariant forall p | p in start[..j] :: Loads(src, p)
    {
      if !Loads(src, start[j]) { return None; }
    }
    assert start[..|start|] == start;
    var trees, i := start, 0;
    while i < |trees|
      invariant GoodList(src, trees) && i <= |trees|
      invariant Follow(src, pruned, trees, i) == Files(src, pruned)
      decreases |src.texts| - i
    {
      GoodKeys(src, trees);
      ListFits(trees, src.texts.Keys);
      var more := EnqueueCalls(src, trees[i], Calls(src, trees[i], pruned), trees);
      if more.None? { return None; }
      trees, i := more.value, i + 1;
    }
    return Some(trees);
  }

  // -------------------------------------------------------------- reachability

  /** `q` is named by a searched call of `p`. */
  ghost predicate Edge(src: Source, pruned: Cmd -> bool, p: string, q: string) {
    Loads(src, p) && exists c | c in Calls(src, p, pruned) :: Target(src, p, c) == Some(q)
  }

  /** `sub` is the argument without the quotes around it. */
  ghost predicate IsUnquoted(arg: string, sub: string) {
    exists i, j | 0 <= i <= j <= |arg| :: UnquotedAt(arg, sub, i, j)
  }

  predicate UnquotedAt(arg: string, sub: string, i: nat, j: nat)
    requires i <= j <= |arg|
  {
    && sub == arg[i..j] && (forall k | 0 <= k < |arg| && (k < i || j <= k) :: arg[k] == '"')
    && (sub != "" ==> sub[0] != '"' && sub[|sub| - 1] != '"')
  }

  lemma {:induction false} UnquotedExists(arg: string)
    ensures IsUnquoted(arg, StripQuotes(arg))
  {
    var sub := StripQuotes(arg);
    if arg != "" && arg[0] == '"' {
      UnquotedExists(arg[1..]);
      var i, j :| 0 <= i <= j <= |arg| - 1 && UnquotedAt(arg[1..], sub, i, j);
      assert arg[1..][i..j] == arg[i + 1..j + 1];
      assert forall k | 0 < k < |arg| :: arg[k] == arg[1..][k - 1];
      assert UnquotedAt(arg, sub, i + 1, j + 1);
    } else if arg != "" && arg[|arg| - 1] == '"' {
      UnquotedExists(arg[..|arg| - 1]);
      var i, j :| 0 <= i <= j <= |arg| - 1 && UnquotedAt(arg[..|arg| - 1], sub, i, j);
      assert arg[..|arg| - 1][i..j] == arg[i..j];
      assert UnquotedAt(arg, sub, i, j);
    } else {
      assert arg[0..|arg|] == arg;
      assert UnquotedAt(arg, sub, 0, |arg|);
    }
  }

  lemma UnquotedIsUnique(arg: string, a: string, b: string)
    requires IsUnquoted(arg, a) && IsUnquoted(arg, b)
    ensures a == b
  {
    var i, j :| 0 <= i <= j <= |arg| && UnquotedAt(arg, a, i, j);
    var k, l :| 0 <= k <= l <= |arg| && UnquotedAt(arg, b, k, l);
    if a != "" {
      assert arg[i] != '"' && arg[j - 1] != '"';
    }
    if b != "" {
      assert arg[k] != '"' && arg[l - 1] != '"';
    }
  }

  /** A call leads to a file: the first argument, without its quotes, is a relative path without
      references, and the file below it is inside the tree. */
  ghost predicate Leads(src: Source, path: string, c: Cmd, q: string) {
    c.args != [] && exists sub ::
      IsUnquoted(c.args[0], sub) && '$' !in sub && !("/" <= sub) && q == src.child(path, sub) && !("../" <= q)
  }

  lemma TargetExactly(src: Source, path: string, c: Cmd, q: string)
    ensures Target(src, path, c) == Some(q) <==> Leads(src, path, c, q)
  {
    hide StripQuotes, IsUnquoted;
    if c.args != [] {
      var sub := StripQuotes(c.args[0]);
      UnquotedExists(c.args[0]);
      forall other | IsUnquoted(c.args[0], other) ensures other == sub { UnquotedIsUnique(c.args[0], other, sub); }
      assert "/" <= sub <==> sub != "" && sub[0] == '/';
    }
  }

  /** One file leads to another exactly when it is a directory's and one of its searched calls
      leads there. */
  lemma EdgeExactly(src: Source, pruned: Cmd -> bool, p: string, q: string)
    ensures Edge(src, pruned, p, q) <==>
            && Loads(src, p) && (p == ROOT || exists dir :: p == dir + "/CMakeLists.txt")
            && exists c | c in SubdirCalls(Tree(src, p), pruned, false) :: Leads(src, p, c, q)
  {
    hide Target, Leads, Tree, SubdirCalls, Loads;
    forall c ensures Target(src, p, c) == Some(q) <==> Leads(src, p, c, q) { TargetExactly(src, p, c, q); }
    DirectoryFiles(p);
  }

  lemma DirectoryFiles(p: string)
    ensures IsDirectoryFile(p) <==> p == ROOT || exists dir :: p == dir + "/CMakeLists.txt"
  {
    if |p| >= 15 { assert p == p[..|p| - 15] + p[|p| - 15..]; }
    if dir :| p == dir + "/CMakeLists.txt" { assert p[|p| - 15..] == "/CMakeLists.txt"; }
  }

  ghost predicate IsRoute(src: Source, pruned: Cmd -> bool, route: seq<string>) {
    && route != [] && route[0] in [ROOT] + src.modules
    && forall k | 0 < k < |route| :: Edge(src, pruned, route[k - 1], route[k])
  }

  ghost predicate Reachable(src: Source, pruned: Cmd -> bool, p: string) {
    exists route :: IsRoute(src, pruned, route) && route[|route| - 1] == p
  }

  /** A file that fails the extract: unreadable, malformed, or with a call that is refused. */
  ghost predicate Bad(src: Source, pruned: Cmd -> bool, p: string) {
    !Loads(src, p) || exists c | c in Calls(src, p, pruned) :: Target(src, p, c).None?
  }

  lemma ReachStart(src: Source, pruned: Cmd -> bool, p: string)
    requires p in [ROOT] + src.modules
    ensures Reachable(src, pruned, p)
  {
    assert IsRoute(src, pruned, [p]);
    assert [p][|[p]| - 1] == p;
  }

  lemma ReachStep(src: Source, pruned: Cmd -> bool, p: string, q: string)
    requires Reachable(src, pruned, p) && Edge(src, pruned, p, q)
    ensures Reachable(src, pruned, q)
  {
    var route :| IsRoute(src, pruned, route) && route[|route| - 1] == p;
    var longer := route + [q];
    forall k | 0 < k < |longer| ensures Edge(src, pruned, longer[k - 1], longer[k]) {
      if k < |route| { assert Edge(src, pruned, route[k - 1], route[k]); }
    }
    assert longer[0] == route[0];
    assert IsRoute(src, pruned, longer);
    assert longer[|longer| - 1] == q;
  }

  /** All targets of a file are listed. */
  ghost predicate Done(src: Source, pruned: Cmd -> bool, p: string, list: seq<string>) {
    && Loads(src, p)
    && forall c | c in Calls(src, p, pruned) ::
         Target(src, p, c).Some? && Target(src, p, c).value in list
  }

  ghost predicate AllReachable(src: Source, pruned: Cmd -> bool, list: seq<string>) {
    forall p | p in list :: Reachable(src, pruned, p)
  }

  lemma {:induction false} EnqueueLists(src: Source, pruned: Cmd -> bool, path: string, calls: seq<Cmd>, list: seq<string>)
    requires GoodList(src, list) && Enqueue(src, path, calls, list).Some?
    requires AllReachable(src, pruned, list) && path in list
    requires forall c | c in calls :: c in Calls(src, path, pruned)
    ensures AllReachable(src, pruned, Enqueue(src, path, calls, list).value)
    ensures forall c | c in calls ::
              && Target(src, path, c).Some?
              && Target(src, path, c).value in Enqueue(src, path, calls, list).value
    decreases |calls|
  {
    hide Target, Calls, Loads, Reachable;
    if calls != [] {
      var child := Target(src, path, calls[0]).value;
      assert calls[0] in calls;
      CallReaches(src, pruned, path, calls[0], child);
      var next := if child in list then list else list + [child];
      EnqueueLists(src, pruned, path, calls[1..], next);
      PrefixMember(next, Enqueue(src, path, calls, list).value, child);
    }
  }

  lemma PrefixMember(a: seq<string>, b: seq<string>, x: string)
    requires a <= b && x in a
    ensures x in b
  {
    assert b[..|a|] == a;
  }

  lemma CallReaches(src: Source, pruned: Cmd -> bool, path: string, c: Cmd, child: string)
    requires Loads(src, path) && Reachable(src, pruned, path)
    requires c in Calls(src, path, pruned) && Target(src, path, c) == Some(child)
    ensures Reachable(src, pruned, child)
  {
    assert Edge(src, pruned, path, child);
    ReachStep(src, pruned, path, child);
  }

  ghost predicate SomeBad(src: Source, pruned: Cmd -> bool) {
    exists p :: Reachable(src, pruned, p) && Bad(src, pruned, p)
  }

  lemma {:induction false} EnqueueFails(src: Source, pruned: Cmd -> bool, path: string, calls: seq<Cmd>, list: seq<string>)
    requires GoodList(src, list) && Enqueue(src, path, calls, list).None?
    requires AllReachable(src, pruned, list) && path in list
    requires forall c | c in calls :: c in Calls(src, path, pruned)
    ensures SomeBad(src, pruned)
    decreases |calls|
  {
    hide Target, Calls, Loads, Reachable;
    assert calls[0] in calls;
    match Target(src, path, calls[0])
    case None => assert Bad(src, pruned, path);
    case Some(child) =>
      CallReaches(src, pruned, path, calls[0], child);
      if child in list {
        EnqueueFails(src, pruned, path, calls[1..], list);
      } else if Loads(src, child) {
        EnqueueFails(src, pruned, path, calls[1..], list + [child]);
      } else {
        assert Bad(src, pruned, child);
      }
  }

  ghost predicate DoneUpTo(src: Source, pruned: Cmd -> bool, list: seq<string>, i: nat)
    requires i <= |list|
  {
    forall k | 0 <= k < i :: Done(src, pruned, list[k], list)
  }

  lemma EnqueueDone(src: Source, pruned: Cmd -> bool, list: seq<string>, i: nat)
    requires GoodList(src, list) && AllReachable(src, pruned, list) && i < |list| && DoneUpTo(src, pruned, list, i)
    requires Enqueue(src, list[i], Calls(src, list[i], pruned), list).Some?
    ensures var more := Enqueue(src, list[i], Calls(src, list[i], pruned), list).value;
            AllReachable(src, pruned, more) && DoneUpTo(src, pruned, more, i + 1)
  {
    hide Target, Calls, Loads, Reachable, NoDuplicates;
    var path := list[i];
    EnqueueLists(src, pruned, path, Calls(src, path, pruned), list);
    var more := Enqueue(src, path, Calls(src, path, pruned), list).value;
    forall k | 0 <= k < i + 1 ensures Done(src, pruned, more[k], more) {
      assert more[k] == list[k];
      if k < i { assert Done(src, pruned, list[k], list); }
    }
  }

  lemma {:induction false} FollowLists(src: Source, pruned: Cmd -> bool, list: seq<string>, i: nat)
    requires GoodList(src, list) && AllReachable(src, pruned, list) && i <= |list| && DoneUpTo(src, pruned, list, i)
    requires Follow(src, pruned, list, i).Some?
    ensures var all := Follow(src, pruned, list, i).value;
            GoodList(src, all) && AllReachable(src, pruned, all) && list <= all && DoneUpTo(src, pruned, all, |all|)
    decreases |src.texts| - i
  {
    hide Target, Calls, Loads, AllReachable, DoneUpTo, NoDuplicates, Enqueue;
    if i < |list| {
      GoodKeys(src, list);
      ListFits(list, src.texts.Keys);
      EnqueueDone(src, pruned, list, i);
      FollowLists(src, pruned, Enqueue(src, list[i], Calls(src, list[i], pruned), list).value, i + 1);
    }
  }

  lemma {:induction false} FollowFails(src: Source, pruned: Cmd -> bool, list: seq<string>, i: nat)
    requires GoodList(src, list) && AllReachable(src, pruned, list) && i <= |list| && DoneUpTo(src, pruned, list, i)
    requires Follow(src, pruned, list, i).None?
    ensures SomeBad(src, pruned)
    decreases |src.texts| - i
  {
    hide Target, Calls, Loads, AllReachable, DoneUpTo, NoDuplicates, Enqueue, SomeBad;
    if i < |list| {
      GoodKeys(src, list);
      ListFits(list, src.texts.Keys);
      var calls := Calls(src, list[i], pruned);
      if Enqueue(src, list[i], calls, list).Some? {
        EnqueueDone(src, pruned, list, i);
        FollowFails(src, pruned, Enqueue(src, list[i], calls, list).value, i + 1);
      } else {
        EnqueueFails(src, pruned, list[i], calls, list);
      }
    }
  }

  lemma GoodKeys(src: Source, list: seq<string>)
    requires GoodList(src, list)
    ensures forall p | p in list :: p in src.texts.Keys
  {
  }

  /** A closed list holds every reachable file, and no reachable file is bad. */
  lemma {:induction false} ClosedHolds(src: Source, pruned: Cmd -> bool, list: seq<string>, route: seq<string>)
    requires forall p | p in [ROOT] + src.modules :: p in list
    requires forall p | p in list :: Done(src, pruned, p, list)
    requires IsRoute(src, pruned, route)
    ensures route[|route| - 1] in list && !Bad(src, pruned, route[|route| - 1])
    decreases |route|
  {
    var n := |route| - 1;
    if n > 0 {
      var shorter := route[..n];
      assert IsRoute(src, pruned, shorter);
      ClosedHolds(src, pruned, list, shorter);
      assert Edge(src, pruned, route[n - 1], route[n]);
      assert Done(src, pruned, route[n - 1], list);
    }
    assert Done(src, pruned, route[n], list);
  }

  // ------------------------------------------------------------------ theorems

  /** On success the list is exactly the reachable files, each once; it fails exactly when a
      reachable file is bad. */
  lemma FilesAreReachable(src: Source, pruned: Cmd -> bool)
    requires NoDuplicates([ROOT] + src.modules)
    ensures var r := Files(src, pruned);
            && (r.Some? ==> NoDuplicates(r.value) && forall p :: p in r.value <==> Reachable(src, pruned, p))
            && (r.None? <==> exists p :: Reachable(src, pruned, p) && Bad(src, pruned, p))
  {
    var start := [ROOT] + src.modules;
    forall p | p in start ensures Reachable(src, pruned, p) { ReachStart(src, pruned, p); }
    if forall p | p in start :: Loads(src, p) {
      var r := Files(src, pruned);
      if r.None? {
        FollowFails(src, pruned, start, 0);
      } else {
        FollowLists(src, pruned, start, 0);
        forall p | Reachable(src, pruned, p) ensures p in r.value && !Bad(src, pruned, p) {
          var route :| IsRoute(src, pruned, route) && route[|route| - 1] == p;
          ClosedHolds(src, pruned, r.value, route);
        }
      }
    } else {
      var p :| p in start && !Loads(src, p);
      assert Reachable(src, pruned, p) && Bad(src, pruned, p);
    }
  }

  /** When both extracts succeed, the pruned files are among the unpruned ones. */
  lemma PrunedFilesAreFewer(src: Source, pruned: Cmd -> bool, none: Cmd -> bool, p: string)
    requires NoDuplicates([ROOT] + src.modules) && forall c :: !none(c)
    requires Files(src, pruned).Some? && Files(src, none).Some?
    requires p in Files(src, pruned).value
    ensures p in Files(src, none).value
  {
    FilesAreReachable(src, pruned);
    FilesAreReachable(src, none);
    var route :| IsRoute(src, pruned, route) && route[|route| - 1] == p;
    forall k | 0 < k < |route| ensures Edge(src, none, route[k - 1], route[k]) {
      assert Edge(src, pruned, route[k - 1], route[k]);
      PrunedEdge(src, pruned, none, route[k - 1], route[k]);
    }
    assert IsRoute(src, none, route);
  }

  lemma PrunedEdge(src: Source, pruned: Cmd -> bool, none: Cmd -> bool, p: string, q: string)
    requires (forall c :: !none(c)) && Edge(src, pruned, p, q)
    ensures Edge(src, none, p, q)
  {
    var c :| c in Calls(src, p, pruned) && Target(src, p, c) == Some(q);
    PrunedYieldsLess(Tree(src, p), pruned, none, false);
    assert c in Yields(Tree(src, p), pruned, false);
    assert c in Calls(src, p, none);
  }

  /** `q` is configured from `p` by some run of `p` that leaves every accepted head false. */
  ghost predicate Configures(src: Source, pruned: Cmd -> bool, p: string, q: string) {
    Loads(src, p) && IsDirectoryFile(p) &&
    exists choices: seq<bool>, c: Cmd ::
      && Obeys(Exec(Tree(src, p), false, map[], choices).trace, pruned)
      && Ran(c) in Exec(Tree(src, p), false, map[], choices).trace
      && c.name == "add_subdirectory" && Target(src, p, c) == Some(q)
  }

  /** A chain of directories each configured by a run of the one before. */
  ghost predicate LaneRoute(src: Source, pruned: Cmd -> bool, route: seq<string>) {
    route != [] && route[0] == ROOT && forall k | 0 < k < |route| :: Configures(src, pruned, route[k - 1], route[k])
  }

  /** Every directory any run of the lane configures is in the lane's list. */
  lemma LaneFilesCovered(src: Source, pruned: Cmd -> bool, route: seq<string>)
    requires NoDuplicates([ROOT] + src.modules) && Files(src, pruned).Some?
    requires LaneRoute(src, pruned, route)
    ensures route[|route| - 1] in Files(src, pruned).value
  {
    FilesAreReachable(src, pruned);
    forall k | 0 < k < |route| ensures Edge(src, pruned, route[k - 1], route[k]) {
      assert Configures(src, pruned, route[k - 1], route[k]);
      ConfiguredEdge(src, pruned, route[k - 1], route[k]);
    }
    assert IsRoute(src, pruned, route);
  }

  lemma ConfiguredEdge(src: Source, pruned: Cmd -> bool, p: string, q: string)
    requires Configures(src, pruned, p, q)
    ensures Edge(src, pruned, p, q)
  {
    var choices, c :| && Obeys(Exec(Tree(src, p), false, map[], choices).trace, pruned)
                      && Ran(c) in Exec(Tree(src, p), false, map[], choices).trace
                      && c.name == "add_subdirectory" && Target(src, p, c) == Some(q);
    PruningSound(Tree(src, p), pruned, choices, c);
  }

  lemma {:induction false} FollowFollowsCommands(a: Source, b: Source, pruned: Cmd -> bool, list: seq<string>, i: nat)
    requires a.modules == b.modules && a.child == b.child && a.texts.Keys == b.texts.Keys
    requires forall p | p in a.texts :: Commands(a.texts[p], 0) == Commands(b.texts[p], 0)
    requires GoodList(a, list) && GoodList(b, list) && i <= |list|
    ensures Follow(a, pruned, list, i) == Follow(b, pruned, list, i)
    decreases |a.texts| - i
  {
    hide Enqueue, Commands, NoDuplicates;
    if i < |list| {
      ListFits(list, a.texts.Keys);
      EnqueueFollowsCommands(a, b, list[i], Calls(a, list[i], pruned), list);
      var r := Enqueue(a, list[i], Calls(a, list[i], pruned), list);
      if r.Some? { FollowFollowsCommands(a, b, pruned, r.value, i + 1); }
    }
  }

  lemma {:induction false} EnqueueFollowsCommands(a: Source, b: Source, path: string, calls: seq<Cmd>, list: seq<string>)
    requires a.child == b.child && a.texts.Keys == b.texts.Keys
    requires forall p | p in a.texts :: Commands(a.texts[p], 0) == Commands(b.texts[p], 0)
    requires GoodList(a, list) && GoodList(b, list)
    ensures Enqueue(a, path, calls, list) == Enqueue(b, path, calls, list)
    decreases |calls|
  {
    if calls != [] {
      var child := Target(a, path, calls[0]);
      if child.Some? && child.value !in list && Loads(a, child.value) {
        EnqueueFollowsCommands(a, b, path, calls[1..], list + [child.value]);
      } else {
        EnqueueFollowsCommands(a, b, path, calls[1..], list);
      }
    }
  }

  /** The list depends on the texts only through the commands they parse to. */
  lemma FilesFollowCommands(a: Source, b: Source, pruned: Cmd -> bool)
    requires NoDuplicates([ROOT] + a.modules)
    requires a.modules == b.modules && a.child == b.child && a.texts.Keys == b.texts.Keys
    requires forall p | p in a.texts :: Commands(a.texts[p], 0) == Commands(b.texts[p], 0)
    ensures Files(a, pruned) == Files(b, pruned)
  {
    hide Follow, Commands;
    var start := [ROOT] + a.modules;
    assert forall p :: Loads(a, p) == Loads(b, p);
    if forall p | p in start :: Loads(a, p) { FollowFollowsCommands(a, b, pruned, start, 0); }
  }
}

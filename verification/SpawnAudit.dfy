/** The named-closure lifetime classifier of tools/audit_co_spawn_named_closure.py: executor
    aliases resolved over a possibly cyclic, branching graph, the verdict for one site, and the
    keep-worst merge over translation units. */
module SpawnAudit {
  import opened Basics
  import opened Text

  // ------------------------------------------------------------------- events

  datatype Place = Place(file: string, off: int, scope: seq<int>)

  datatype Event =
    | ClosureDecl(key: string, at: Place, end: Option<int>)
    | IocDecl(key: string, at: Place)
    | ExecAlias(key: string, at: Place, bases: seq<string>)
    | ClosureCall(key: string, at: Place)
    | Drive(obj: string, at: Place)

  /** A `co_spawn` of a named closure; an empty `execKey` is an executor that was not resolved. */
  datatype Site = Site(closureKey: string, execKey: string, at: Place)

  datatype Verdict = Flag | Manual | SafeDriven | SafeOutlives

  function Rank(v: Verdict): nat {
    match v case Flag => 0 case Manual => 1 case SafeDriven => 2 case SafeOutlives => 3
  }

  predicate IsSafe(v: Verdict) { v.SafeDriven? || v.SafeOutlives? }

  /** Scope `outer` is `inner` or an ancestor of it. */
  predicate Encloses(outer: seq<int>, inner: seq<int>) { outer <= inner }

  predicate Before(a: Place, b: Place) { a.file == b.file && a.off < b.off }

  // ------------------------------------------------------------------- the closure of a site

  predicate IsCandidate(site: Site, e: Event) {
    e.ClosureDecl? && e.key == site.closureKey && Before(e.at, site.at) && Encloses(e.at.scope, site.at.scope)
  }

  /** The candidate with the greatest offset, the first of equals. */
  function Nearest(site: Site, events: seq<Event>): (r: Option<Event>)
    ensures r.None? <==> forall e | e in events :: !IsCandidate(site, e)
    ensures r.Some? ==> r.value in events && IsCandidate(site, r.value)
    ensures r.Some? ==> forall e | e in events && IsCandidate(site, e) :: e.at.off <= r.value.at.off
  {
    if events == [] then None else
      var e := events[|events| - 1];
      var before := Nearest(site, events[..|events| - 1]);
      assert events == events[..|events| - 1] + [e];
      if IsCandidate(site, e) && (before.None? || before.value.at.off < e.at.off) then Some(e) else before
  }

  /** The closure of a site is declared under its key before the site in the same file, in the
      site's block or one around it, and no later such declaration is; without one there is none. */
  lemma NearestExactly(site: Site, events: seq<Event>, d: Event)
    requires d in events && d.ClosureDecl? && d.key == site.closureKey
    requires d.at.file == site.at.file && d.at.off < site.at.off && d.at.scope <= site.at.scope
    ensures Nearest(site, events).Some?
    ensures var c := Nearest(site, events).value;
            && c in events && c.ClosureDecl? && c.key == site.closureKey && c.at.file == site.at.file
            && d.at.off <= c.at.off < site.at.off && c.at.scope <= site.at.scope
  {
    hide Nearest;
    assert IsCandidate(site, d);
  }

  method FindClosure(site: Site, events: seq<Event>) returns (r: Option<Event>)
    ensures r == Nearest(site, events)
  {
    r := None;
    for i := 0 to |events|
      invariant r == Nearest(site, events[..i])
    {
      assert events[..i + 1][..i] == events[..i];
      if IsCandidate(site, events[i]) && (r.None? || r.value.at.off < events[i].at.off) {
        r := Some(events[i]);
      }
    }
    assert events[..|events|] == events;
  }

  // ------------------------------------------------------------------- executor paths

  /** What each executor declaration may stand for; the last record of a key wins. */
  function AliasOf(events: seq<Event>): map<string, seq<string>> {
    if events == [] then map[] else
      var e := events[|events| - 1];
      var before := AliasOf(events[..|events| - 1]);
      if e.ExecAlias? then before[e.key := e.bases] else before
  }

  method CollectAliases(events: seq<Event>) returns (alias: map<string, seq<string>>)
    ensures alias == AliasOf(events)
  {
    alias := map[];
    for i := 0 to |events|
      invariant alias == AliasOf(events[..i])
    {
      assert events[..i + 1][..i] == events[..i];
      if events[i].ExecAlias? { alias := alias[events[i].key := events[i].bases]; }
    }
    assert events[..|events|] == events;
  }

  /** Event `k` is the last alias record of the key. */
  predicate IsLastAlias(events: seq<Event>, key: string, k: nat) {
    && k < |events| && events[k].ExecAlias? && events[k].key == key
    && forall j | k < j < |events| && events[j].ExecAlias? :: events[j].key != key
  }

  /** A key has bases exactly when it has an alias record, and then those of the last. */
  lemma {:induction false} AliasIsLast(events: seq<Event>, key: string)
    ensures key in AliasOf(events) <==> exists k: nat :: IsLastAlias(events, key, k)
    ensures forall k: nat | IsLastAlias(events, key, k) :: key in AliasOf(events) && AliasOf(events)[key] == events[k].bases
  {
    if events != [] {
      var n := |events| - 1;
      var before := events[..n];
      AliasIsLast(before, key);
      if events[n].ExecAlias? && events[n].key == key {
        assert IsLastAlias(events, key, n);
      } else {
        forall k: nat ensures IsLastAlias(events, key, k) <==> IsLastAlias(before, key, k) {}
      }
    }
  }

  function Bases(alias: map<string, seq<string>>, key: string): seq<string> {
    if key in alias then alias[key] else []
  }

  /** The bases of a key are those of its last record, and none without one. */
  lemma BasesExactly(events: seq<Event>, key: string, b: string)
    ensures b in Bases(AliasOf(events), key) <==> exists k: nat | IsLastAlias(events, key, k) :: b in events[k].bases
  {
    hide AliasOf, IsLastAlias;
    AliasIsLast(events, key);
  }

  predicate Distinct(p: seq<string>) {
    forall i, j | 0 <= i < j < |p| :: p[i] != p[j]
  }

  function Elems(p: seq<string>): set<string> { set k | k in p }

  function Unvisited(alias: map<string, seq<string>>, chain: seq<string>): set<string>
    requires chain != []
  {
    alias.Keys - Elems(chain[..|chain| - 1])
  }

  /** The paths that extend `chain`: one per way of following a base until none is left, the
      base is empty, or it closes a cycle. */
  function Walk(alias: map<string, seq<string>>, chain: seq<string>): seq<seq<string>>
    requires chain != [] && Distinct(chain)
    decreases |Unvisited(alias, chain)|, 1, 0
  {
    var bases := Bases(alias, chain[|chain| - 1]);
    if bases == [] then [chain] else Forks(alias, chain, |bases|)
  }

  /** The paths through the first `n` bases of the end of `chain`. */
  function Forks(alias: map<string, seq<string>>, chain: seq<string>, n: nat): seq<seq<string>>
    requires chain != [] && Distinct(chain) && n <= |Bases(alias, chain[|chain| - 1])|
    decreases |Unvisited(alias, chain)|, 0, n
  {
    if n == 0 then [] else
      var b := Bases(alias, chain[|chain| - 1])[n - 1];
      Forks(alias, chain, n - 1) +
      (if b == "" || b in chain then [chain] else (Shrinks(alias, chain, b); Walk(alias, chain + [b])))
  }

  lemma Shrinks(alias: map<string, seq<string>>, chain: seq<string>, b: string)
    requires chain != [] && Distinct(chain) && chain[|chain| - 1] in alias && b !in chain
    ensures Distinct(chain + [b]) && |Unvisited(alias, chain + [b])| < |Unvisited(alias, chain)|
  {
    var last := chain[|chain| - 1];
    var next := chain + [b];
    assert next[..|next| - 1] == chain;
    assert chain == chain[..|chain| - 1] + [last];
    assert last in Unvisited(alias, chain);
    SmallerWithout(Unvisited(alias, next), Unvisited(alias, chain), last);
  }

  /** The recursive `walk`, appending to `paths`. */
  method WalkPaths(alias: map<string, seq<string>>, chain: seq<string>, paths: seq<seq<string>>)
    returns (out: seq<seq<string>>)
    requires chain != [] && Distinct(chain)
    ensures out == paths + Walk(alias, chain)
    decreases |Unvisited(alias, chain)|
  {
    hide Distinct, Unvisited;
    var bases := Bases(alias, chain[|chain| - 1]);
    if bases == [] { return paths + [chain]; }
    out := paths;
    for i := 0 to |bases|
      invariant out == paths + Forks(alias, chain, i)
    {
      var b := bases[i];
      if b == "" || b in chain {
        out := out + [chain];
      } else {
        Shrinks(alias, chain, b);
        out := WalkPaths(alias, chain + [b], out);
      }
    }
  }

  method Resolve(alias: map<string, seq<string>>, key: string) returns (paths: seq<seq<string>>)
    ensures paths == Walk(alias, [key])
  {
    paths := WalkPaths(alias, [key], []);
  }

  // ------------------------------------------------------------------- paths, declaratively

  /** Each step follows a non-empty base. */
  predicate IsChain(alias: map<string, seq<string>>, p: seq<string>)
    requires p != []
    decreases |p|
  {
    |p| == 1 || (var init := p[..|p| - 1];
                 p[|p| - 1] != "" && p[|p| - 1] in Bases(alias, init[|init| - 1]) && IsChain(alias, init))
  }

  /** The path may stop: no base, or a base that is empty or already on the path. */
  predicate MayStop(alias: map<string, seq<string>>, p: seq<string>)
    requires p != []
  {
    var bases := Bases(alias, p[|p| - 1]);
    bases == [] || exists b | b in bases :: b == "" || b in p
  }

  /** An acyclic alias path from `key` that ends where resolution has to end. */
  predicate IsPath(alias: map<string, seq<string>>, key: string, p: seq<string>) {
    p != [] && p[0] == key && Distinct(p) && IsChain(alias, p) && MayStop(alias, p)
  }

  /** `p` is `chain` extended. */
  predicate Extends(alias: map<string, seq<string>>, chain: seq<string>, p: seq<string>)
    requires chain != []
  {
    p != [] && chain <= p && Distinct(p) && IsChain(alias, p) && MayStop(alias, p)
  }

  /** What base `i` of the end of `chain` contributes. */
  predicate ForkGives(alias: map<string, seq<string>>, chain: seq<string>, i: nat, p: seq<string>)
    requires chain != [] && i < |Bases(alias, chain[|chain| - 1])|
  {
    var b := Bases(alias, chain[|chain| - 1])[i];
    if b == "" || b in chain then p == chain else Extends(alias, chain + [b], p)
  }

  lemma {:induction false} WalkIsExtensions(alias: map<string, seq<string>>, chain: seq<string>, p: seq<string>)
    requires chain != [] && Distinct(chain) && IsChain(alias, chain)
    ensures p in Walk(alias, chain) <==> Extends(alias, chain, p)
    decreases |Unvisited(alias, chain)|, 1, 0
  {
    hide Distinct, Unvisited;
    var bases := Bases(alias, chain[|chain| - 1]);
    if bases == [] {
      if Extends(alias, chain, p) { DeadEnd(alias, chain, p); }
    } else {
      ForksAreExtensions(alias, chain, |bases|, p);
      if Extends(alias, chain, p) {
        SomeFork(alias, chain, p);
      } else {
        forall i: nat | i < |bases| ensures !ForkGives(alias, chain, i, p) {
          if ForkGives(alias, chain, i, p) { ForkExtends(alias, chain, i, p); }
        }
      }
    }
  }

  lemma ForkExtends(alias: map<string, seq<string>>, chain: seq<string>, i: nat, p: seq<string>)
    requires chain != [] && Distinct(chain) && IsChain(alias, chain)
    requires i < |Bases(alias, chain[|chain| - 1])| && ForkGives(alias, chain, i, p)
    ensures Extends(alias, chain, p)
  {
    hide Distinct, IsChain;
    var b := Bases(alias, chain[|chain| - 1])[i];
    if b == "" || b in chain {
      assert MayStop(alias, chain);
    } else {
      assert chain <= chain + [b] <= p;
    }
  }

  lemma {:induction false} ForksAreExtensions(
      alias: map<string, seq<string>>, chain: seq<string>, n: nat, p: seq<string>)
    requires chain != [] && Distinct(chain) && IsChain(alias, chain) && n <= |Bases(alias, chain[|chain| - 1])|
    ensures p in Forks(alias, chain, n) <==> exists i: nat | i < n :: ForkGives(alias, chain, i, p)
    decreases |Unvisited(alias, chain)|, 0, n
  {
    hide Distinct, Unvisited, Extends, Walk, IsChain;
    if n > 0 {
      ForksAreExtensions(alias, chain, n - 1, p);
      LastFork(alias, chain, n, p);
      hide Forks;
      var b := Bases(alias, chain[|chain| - 1])[n - 1];
      if !(b == "" || b in chain) {
        Shrinks(alias, chain, b);
        LongerChain(alias, chain, b);
        WalkIsExtensions(alias, chain + [b], p);
      }
      assert p in Forks(alias, chain, n) <==> p in Forks(alias, chain, n - 1) || ForkGives(alias, chain, n - 1, p);
    }
  }

  lemma LongerChain(alias: map<string, seq<string>>, chain: seq<string>, b: string)
    requires chain != [] && IsChain(alias, chain) && b != "" && b in Bases(alias, chain[|chain| - 1])
    ensures IsChain(alias, chain + [b])
  {
    var next := chain + [b];
    assert next[..|next| - 1] == chain;
  }

  lemma LastFork(alias: map<string, seq<string>>, chain: seq<string>, n: nat, p: seq<string>)
    requires chain != [] && Distinct(chain) && 0 < n <= |Bases(alias, chain[|chain| - 1])|
    ensures var b := Bases(alias, chain[|chain| - 1])[n - 1];
            if b == "" || b in chain then p in Forks(alias, chain, n) <==> p in Forks(alias, chain, n - 1) || p == chain
            else Distinct(chain + [b]) &&
                 (p in Forks(alias, chain, n) <==> p in Forks(alias, chain, n - 1) || p in Walk(alias, chain + [b]))
  {
    hide Walk, Distinct, Unvisited;
    var b := Bases(alias, chain[|chain| - 1])[n - 1];
    if !(b == "" || b in chain) { Shrinks(alias, chain, b); }
  }

  lemma SomeFork(alias: map<string, seq<string>>, chain: seq<string>, p: seq<string>)
    requires chain != [] && Bases(alias, chain[|chain| - 1]) != [] && Extends(alias, chain, p)
    ensures exists i: nat | i < |Bases(alias, chain[|chain| - 1])| :: ForkGives(alias, chain, i, p)
  {
    hide Distinct;
    var bases := Bases(alias, chain[|chain| - 1]);
    if p == chain {
      var b :| b in bases && (b == "" || b in chain);
      var i :| 0 <= i < |bases| && bases[i] == b;
      assert ForkGives(alias, chain, i, p);
    } else {
      NextStep(alias, chain, p);
      var i :| 0 <= i < |bases| && bases[i] == p[|chain|];
      assert p[|chain|] !in chain by { NotBefore(chain, p); }
      assert ForkGives(alias, chain, i, p);
    }
  }

  lemma NotBefore(chain: seq<string>, p: seq<string>)
    requires chain < p && Distinct(p)
    ensures p[|chain|] !in chain
  {
  }

  /** A chain that goes on past `chain` follows one of its bases. */
  lemma {:induction false} NextStep(alias: map<string, seq<string>>, chain: seq<string>, p: seq<string>)
    requires chain != [] && chain < p && IsChain(alias, p)
    ensures p[|chain|] != "" && p[|chain|] in Bases(alias, chain[|chain| - 1])
    ensures chain + [p[|chain|]] <= p
    decreases |p|
  {
    var init := p[..|p| - 1];
    if |p| == |chain| + 1 {
      assert init == chain;
    } else {
      assert chain < init;
      NextStep(alias, chain, init);
    }
  }

  lemma DeadEnd(alias: map<string, seq<string>>, chain: seq<string>, p: seq<string>)
    requires chain != [] && Bases(alias, chain[|chain| - 1]) == [] && chain <= p && IsChain(alias, p)
    ensures p == chain
  {
    if chain != p { NextStep(alias, chain, p); }
  }

  /** `resolve` gives exactly the acyclic alias paths, on every alias graph. */
  lemma PathsAreExact(alias: map<string, seq<string>>, key: string, p: seq<string>)
    ensures p in Walk(alias, [key]) <==> IsPath(alias, key, p)
  {
    WalkIsExtensions(alias, [key], p);
    assert [key] <= p <==> p != [] && p[0] == key;
  }

  lemma SomePath(alias: map<string, seq<string>>, chain: seq<string>)
    requires chain != [] && Distinct(chain)
    ensures Walk(alias, chain) != []
    decreases |Unvisited(alias, chain)|
  {
    hide Distinct, Unvisited;
    var bases := Bases(alias, chain[|chain| - 1]);
    if bases != [] {
      var b := bases[|bases| - 1];
      if !(b == "" || b in chain) {
        Shrinks(alias, chain, b);
        SomePath(alias, chain + [b]);
      }
    }
  }

  // ------------------------------------------------------------------- one executor path

  /** A context of the path dies before the closure, by scope and order of declaration. */
  predicate Outlives(decl: Place, keys: set<string>, e: Event) {
    && e.IocDecl? && e.key in keys
    && ((e.at.scope == decl.scope && Before(decl, e.at)) ||
        (|e.at.scope| > |decl.scope| && Encloses(decl.scope, e.at.scope)))
  }

  predicate DrivesWithin(d: Event, keys: set<string>, e: Event)
    requires d.ClosureDecl?
  {
    e.Drive? && e.obj in keys && e.at.file == d.at.file && d.at.off <= e.at.off <= d.end.GetOr(d.at.off)
  }

  /** Some local closure of this key drives a context of the path in its body. */
  predicate IsDrivingClosure(events: seq<Event>, keys: set<string>, key: string) {
    exists d | d in events ::
      d.ClosureDecl? && d.key == key && exists e | e in events :: DrivesWithin(d, keys, e)
  }

  /** A driving call after the spawn, inside the closure's scope. */
  predicate Drives(site: Site, events: seq<Event>, decl: Place, keys: set<string>, e: Event) {
    && Before(site.at, e.at) && Encloses(decl.scope, e.at.scope)
    && match e
       case ClosureCall(key, _) => IsDrivingClosure(events, keys, key)
       case Drive(obj, _) => obj in keys
       case _ => false
  }

  /** The verdict for one executor path. */
  function OnPath(site: Site, events: seq<Event>, decl: Place, keys: set<string>): Verdict {
    if exists e | e in events :: Outlives(decl, keys, e) then SafeOutlives
    else if exists e | e in events :: Drives(site, events, decl, keys, e) then SafeDriven
    else Flag
  }

  method DrivesInBody(d: Event, events: seq<Event>, keys: set<string>) returns (r: bool)
    requires d.ClosureDecl?
    ensures r <==> exists e | e in events :: DrivesWithin(d, keys, e)
  {
    for i := 0 to |events|
      invariant forall e | e in events[..i] :: !DrivesWithin(d, keys, e)
    {
      if DrivesWithin(d, keys, events[i]) { return true; }
    }
    assert events[..|events|] == events;
    return false;
  }

  method DrivingClosures(events: seq<Event>, keys: set<string>) returns (r: set<string>)
    ensures forall key :: key in r <==> IsDrivingClosure(events, keys, key)
  {
    hide DrivesWithin;
    r := {};
    for i := 0 to |events|
      invariant forall key :: key in r <==>
                  exists d | d in events[..i] :: d.ClosureDecl? && d.key == key && exists e | e in events :: DrivesWithin(d, keys, e)
    {
      assert events[..i + 1] == events[..i] + [events[i]];
      if events[i].ClosureDecl? {
        var drives := DrivesInBody(events[i], events, keys);
        if drives { r := r + {events[i].key}; }
      }
    }
    assert events[..|events|] == events;
  }

  method ClassifyOn(site: Site, events: seq<Event>, decl: Place, keys: set<string>) returns (v: Verdict)
    ensures v == OnPath(site, events, decl, keys)
  {
    hide IsDrivingClosure, Before, Encloses;
    for i := 0 to |events|
      invariant forall e | e in events[..i] :: !Outlives(decl, keys, e)
    {
      if Outlives(decl, keys, events[i]) { return SafeOutlives; }
    }
    assert events[..|events|] == events;
    var driving := DrivingClosures(events, keys);
    for i := 0 to |events|
      invariant forall e | e in events[..i] :: !Drives(site, events, decl, keys, e)
    {
      var e := events[i];
      if !Before(site.at, e.at) { continue; }
      if e.ClosureCall? && e.key in driving {
        if Encloses(decl.scope, e.at.scope) {
          assert Drives(site, events, decl, keys, e);
          return SafeDriven;
        }
        continue;
      }
      if !e.Drive? || e.obj !in keys { continue; }
      if Encloses(decl.scope, e.at.scope) {
        assert Drives(site, events, decl, keys, e);
        return SafeDriven;
      }
    }
    return Flag;
  }

  // ------------------------------------------------------------------- the site

  function PathsOf(site: Site, events: seq<Event>): seq<seq<string>> {
    if site.execKey == "" then [] else Walk(AliasOf(events), [site.execKey])
  }

  /** The worst of the path verdicts. */
  function Worst(vs: seq<Verdict>): (v: Verdict)
    requires vs != []
    ensures v in vs && forall u | u in vs :: Rank(v) <= Rank(u)
  {
    if |vs| == 1 then vs[0] else
      var before := Worst(vs[..|vs| - 1]);
      assert vs == vs[..|vs| - 1] + [vs[|vs| - 1]];
      if Rank(vs[|vs| - 1]) < Rank(before) then vs[|vs| - 1] else before
  }

  function PathVerdicts(site: Site, events: seq<Event>, decl: Place, paths: seq<seq<string>>): seq<Verdict> {
    seq(|paths|, i requires 0 <= i < |paths| => OnPath(site, events, decl, Elems(paths[i])))
  }

  lemma EachVerdict(site: Site, events: seq<Event>, decl: Place, paths: seq<seq<string>>)
    ensures |PathVerdicts(site, events, decl, paths)| == |paths|
    ensures forall i | 0 <= i < |paths| ::
              PathVerdicts(site, events, decl, paths)[i] == OnPath(site, events, decl, Elems(paths[i]))
  {
    hide OnPath, Elems;
  }

  function Classification(site: Site, events: seq<Event>): Verdict {
    var decl := Nearest(site, events);
    var paths := PathsOf(site, events);
    if decl.None? || paths == [] then Manual else Worst(PathVerdicts(site, events, decl.value.at, paths))
  }

  method Classify(site: Site, events: seq<Event>) returns (v: Verdict)
    ensures v == Classification(site, events)
  {
    hide OnPath, Walk, Elems, AliasOf, Nearest, PathVerdicts;
    var decl := FindClosure(site, events);
    if decl.None? { return Manual; }
    var alias := CollectAliases(events);
    var paths := [];
    if site.execKey != "" { paths := Resolve(alias, site.execKey); }
    if paths == [] { return Manual; }
    ghost var vs := PathVerdicts(site, events, decl.value.at, paths);
    EachVerdict(site, events, decl.value.at, paths);
    v := ClassifyOn(site, events, decl.value.at, Elems(paths[0]));
    assert vs[..1] == [v];
    for i := 1 to |paths|
      invariant v == Worst(vs[..i])
    {
      var u := ClassifyOn(site, events, decl.value.at, Elems(paths[i]));
      assert vs[..i + 1][..i] == vs[..i] && vs[..i + 1][i] == u;
      if Rank(u) < Rank(v) { v := u; }
    }
    assert vs[..|paths|] == vs;
  }

  // ------------------------------------------------------------------- theorems

  lemma {:induction false} VerdictOfPath(site: Site, events: seq<Event>, decl: Place, paths: seq<seq<string>>, p: seq<string>)
    requires p in paths
    ensures OnPath(site, events, decl, Elems(p)) in PathVerdicts(site, events, decl, paths)
  {
    hide OnPath;
    var i :| 0 <= i < |paths| && paths[i] == p;
    assert PathVerdicts(site, events, decl, paths)[i] == OnPath(site, events, decl, Elems(p));
  }

  lemma {:induction false} PathOfVerdict(site: Site, events: seq<Event>, decl: Place, paths: seq<seq<string>>, v: Verdict)
    requires v in PathVerdicts(site, events, decl, paths)
    ensures exists p | p in paths :: v == OnPath(site, events, decl, Elems(p))
  {
    hide OnPath;
    var vs := PathVerdicts(site, events, decl, paths);
    var i :| 0 <= i < |vs| && vs[i] == v;
    assert paths[i] in paths;
  }

  /** MANUAL is exactly a closure not found or an executor not resolved; otherwise the verdict
      is the worst over the acyclic alias paths: a bound on each and attained on one. */
  lemma VerdictIsWorstPath(site: Site, events: seq<Event>)
    ensures Classification(site, events) == Manual <==> Nearest(site, events).None? || site.execKey == ""
    ensures Nearest(site, events).Some? && site.execKey != "" ==>
              var decl := Nearest(site, events).value.at;
              && (forall p | IsPath(AliasOf(events), site.execKey, p) ::
                    Rank(Classification(site, events)) <= Rank(OnPath(site, events, decl, Elems(p))))
              && (exists p | IsPath(AliasOf(events), site.execKey, p) ::
                    Classification(site, events) == OnPath(site, events, decl, Elems(p)))
  {
    hide IsPath, AliasOf, Walk, Elems;
    if Nearest(site, events).Some? && site.execKey != "" {
      var alias := AliasOf(events);
      var paths := PathsOf(site, events);
      SomePath(alias, [site.execKey]);
      var decl := Nearest(site, events).value.at;
      var vs := PathVerdicts(site, events, decl, paths);
      PathOfVerdict(site, events, decl, paths, Worst(vs));
      forall p ensures p in paths <==> IsPath(alias, site.execKey, p) {
        PathsAreExact(alias, site.execKey, p);
      }
      forall p | p in paths ensures Rank(Worst(vs)) <= Rank(OnPath(site, events, decl, Elems(p))) {
        VerdictOfPath(site, events, decl, paths, p);
      }
      assert forall keys :: OnPath(site, events, decl, keys) != Manual;
    }
  }

  /** A site is SAFE exactly when its closure is found, its executor is resolved, and every
      acyclic alias path is safe on its own. */
  lemma SafeExactly(site: Site, events: seq<Event>)
    ensures IsSafe(Classification(site, events)) <==>
              && Nearest(site, events).Some? && site.execKey != ""
              && forall p | IsPath(AliasOf(events), site.execKey, p) ::
                   IsSafe(OnPath(site, events, Nearest(site, events).value.at, Elems(p)))
  {
    hide IsPath, AliasOf, Elems, Classification, Nearest;
    VerdictIsWorstPath(site, events);
    assert forall decl, keys :: OnPath(site, events, decl, keys) != Manual;
  }

  // ------------------------------------------------------------------- unrelated contexts

  /** Not a context declaration or a drive keyed outside `keys`. */
  predicate Concerns(keys: set<string>, e: Event) {
    (e.IocDecl? ==> e.key in keys) && (e.Drive? ==> e.obj in keys)
  }

  /** The events without the contexts and drives keyed outside `keys`. */
  function Related(events: seq<Event>, keys: set<string>): (r: seq<Event>)
    ensures forall e :: e in r <==> e in events && Concerns(keys, e)
  {
    if events == [] then [] else
      var e := events[|events| - 1];
      assert events == events[..|events| - 1] + [e];
      var before := Related(events[..|events| - 1], keys);
      if Concerns(keys, e) then before + [e] else before
  }

  lemma {:induction false} RelatedKeepsNearest(site: Site, events: seq<Event>, keys: set<string>)
    ensures Nearest(site, Related(events, keys)) == Nearest(site, events)
  {
    hide Before, Encloses;
    if events != [] {
      var init := events[..|events| - 1];
      var e := events[|events| - 1];
      RelatedKeepsNearest(site, init, keys);
      if Concerns(keys, e) {
        var r := Related(events, keys);
        assert r[..|r| - 1] == Related(init, keys) && r[|r| - 1] == e;
      }
    }
  }

  lemma {:induction false} RelatedKeepsAlias(events: seq<Event>, keys: set<string>)
    ensures AliasOf(Related(events, keys)) == AliasOf(events)
  {
    if events != [] {
      var init := events[..|events| - 1];
      var e := events[|events| - 1];
      RelatedKeepsAlias(init, keys);
      if Concerns(keys, e) {
        var r := Related(events, keys);
        assert r[..|r| - 1] == Related(init, keys) && r[|r| - 1] == e;
      }
    }
  }

  lemma RelatedKeepsDriving(events: seq<Event>, all: set<string>, keys: set<string>, key: string)
    requires keys <= all
    ensures IsDrivingClosure(Related(events, all), keys, key) == IsDrivingClosure(events, keys, key)
  {
    var r := Related(events, all);
    if IsDrivingClosure(events, keys, key) {
      var d :| d in events && d.ClosureDecl? && d.key == key && exists e | e in events :: DrivesWithin(d, keys, e);
      var e :| e in events && DrivesWithin(d, keys, e);
      assert d in r && e in r;
    }
  }

  lemma RelatedKeepsPath(site: Site, events: seq<Event>, decl: Place, all: set<string>, keys: set<string>)
    requires keys <= all
    ensures OnPath(site, Related(events, all), decl, keys) == OnPath(site, events, decl, keys)
  {
    hide Before, Encloses, IsDrivingClosure;
    var r := Related(events, all);
    forall e ensures Drives(site, r, decl, keys, e) == Drives(site, events, decl, keys, e) {
      if e.ClosureCall? { RelatedKeepsDriving(events, all, keys, e.key); }
    }
    assert forall e | e in events && Outlives(decl, keys, e) :: e in r;
    assert forall e | e in events && Drives(site, events, decl, keys, e) :: e in r;
  }

  /** Contexts and drives keyed outside every path never change the verdict. */
  lemma RelatedKeepsVerdict(site: Site, events: seq<Event>, all: set<string>)
    requires forall p | p in PathsOf(site, events) :: Elems(p) <= all
    ensures Classification(site, Related(events, all)) == Classification(site, events)
  {
    hide Walk, Elems, OnPath;
    RelatedKeepsNearest(site, events, all);
    RelatedKeepsAlias(events, all);
    var decl := Nearest(site, events);
    var paths := PathsOf(site, events);
    if decl.Some? && paths != [] {
      forall i | 0 <= i < |paths|
        ensures OnPath(site, Related(events, all), decl.value.at, Elems(paths[i])) ==
                OnPath(site, events, decl.value.at, Elems(paths[i]))
      {
        assert paths[i] in paths;
        RelatedKeepsPath(site, events, decl.value.at, all, Elems(paths[i]));
      }
      assert PathVerdicts(site, Related(events, all), decl.value.at, paths) ==
             PathVerdicts(site, events, decl.value.at, paths);
    }
  }

  /** Two event lists that differ only in unrelated contexts and drives, however many and
      wherever they stand, give one verdict. */
  lemma UnrelatedNeverMatters(site: Site, a: seq<Event>, b: seq<Event>, all: set<string>)
    requires forall p | IsPath(AliasOf(a), site.execKey, p) :: Elems(p) <= all
    requires Related(a, all) == Related(b, all)
    ensures Classification(site, a) == Classification(site, b)
  {
    hide Walk, Elems, IsPath, Classification;
    RelatedKeepsAlias(a, all);
    RelatedKeepsAlias(b, all);
    forall p | p in PathsOf(site, a) ensures Elems(p) <= all { PathsAreExact(AliasOf(a), site.execKey, p); }
    RelatedKeepsVerdict(site, a, all);
    RelatedKeepsVerdict(site, b, all);
  }

  // ------------------------------------------------------------------- merge over translation units

  /** A site as one translation unit reports it, keyed by file, line and column. */
  datatype Report = Report(key: (string, nat, nat), verdict: Verdict, why: string)

  /** Flattened in the order the units arrive. */
  function Flatten(units: seq<seq<Report>>): seq<Report> {
    if units == [] then [] else Flatten(units[..|units| - 1]) + units[|units| - 1]
  }

  /** `best` keeps, for exactly the reported keys, a report of the worst rank. */
  predicate KeepsWorst(best: map<(string, nat, nat), Report>, reports: seq<Report>) {
    && (forall key | key in best :: best[key] in reports && best[key].key == key)
    && (forall r | r in reports :: r.key in best && Rank(best[r.key].verdict) <= Rank(r.verdict))
  }

  method Keep(best: map<(string, nat, nat), Report>, unit: seq<Report>, ghost reports: seq<Report>)
    returns (r: map<(string, nat, nat), Report>)
    requires KeepsWorst(best, reports)
    ensures KeepsWorst(r, reports + unit)
  {
    r := best;
    assert reports + unit[..0] == reports;
    for i := 0 to |unit|
      invariant KeepsWorst(r, reports + unit[..i])
    {
      var s := unit[i];
      assert reports + unit[..i + 1] == reports + unit[..i] + [s];
      if s.key !in r || Rank(s.verdict) < Rank(r[s.key].verdict) {
        r := r[s.key := s];
      }
    }
    assert unit[..|unit|] == unit;
  }

  method Merge(units: seq<seq<Report>>) returns (best: map<(string, nat, nat), Report>)
    ensures KeepsWorst(best, Flatten(units))
  {
    hide KeepsWorst;
    best := map[];
    assert KeepsWorst(best, Flatten(units[..0])) by { assert units[..0] == []; EmptyKeeps(); }
    for i := 0 to |units|
      invariant KeepsWorst(best, Flatten(units[..i]))
    {
      assert units[..i + 1][..i] == units[..i];
      best := Keep(best, units[i], Flatten(units[..i]));
    }
    assert units[..|units|] == units;
  }

  lemma EmptyKeeps()
    ensures KeepsWorst(map[], [])
  {
  }

  predicate Reported(units: seq<seq<Report>>, r: Report) {
    exists u | u in units :: r in u
  }

  /** A report stands in some unit exactly when it stands in the flattened list. */
  lemma {:induction false} InFlatten(units: seq<seq<Report>>, r: Report)
    ensures r in Flatten(units) <==> Reported(units, r)
  {
    if units != [] {
      var init := units[..|units| - 1];
      InFlatten(init, r);
      assert units == init + [units[|units| - 1]];
    }
  }

  /** The merged keys and verdicts depend only on which reports there are: the order of the
      units, and of the sites within them, does not matter. */
  lemma MergeIgnoresOrder(a: map<(string, nat, nat), Report>, b: map<(string, nat, nat), Report>,
                          unitsA: seq<seq<Report>>, unitsB: seq<seq<Report>>)
    requires KeepsWorst(a, Flatten(unitsA)) && KeepsWorst(b, Flatten(unitsB))
    requires forall r :: Reported(unitsA, r) <==> Reported(unitsB, r)
    ensures a.Keys == b.Keys && forall key | key in a :: a[key].verdict == b[key].verdict
  {
    hide Flatten;
    forall r ensures r in Flatten(unitsA) <==> r in Flatten(unitsB) {
      InFlatten(unitsA, r);
      InFlatten(unitsB, r);
    }
    forall key | key in a ensures key in b && Rank(b[key].verdict) <= Rank(a[key].verdict) {}
    forall key | key in b ensures key in a && Rank(a[key].verdict) <= Rank(b[key].verdict) {}
  }
}

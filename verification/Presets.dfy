/** Preset inheritance: `preset_cache.resolve` of `ci/ccache-flag-surface.py`. */
module Presets {
  import opened Basics
  import opened Text

  /** A configure preset: its parents in listed order and its own two dictionaries. */
  datatype Preset<V> = Preset(inherits: seq<string>, cache: map<string, V>, env: map<string, V>)

  datatype Layer<V> = Layer(cache: map<string, V>, env: map<string, V>)

  datatype Failure = Missing(name: string) | Cycle(name: string)

  datatype Resolved<+T> = Ok(value: T) | Err(failure: Failure)

  function Update<V>(a: Layer<V>, b: Layer<V>): Layer<V> { Layer(a.cache + b.cache, a.env + b.env) }

  lemma FewerLeft<V>(presets: map<string, Preset<V>>, seen: set<string>, name: string)
    requires name in presets && name !in seen
    ensures |presets.Keys - (seen + {name})| < |presets.Keys - seen|
  {
    SmallerWithout(presets.Keys - (seen + {name}), presets.Keys - seen, name);
  }

  /** `resolve`. */
  function Resolve<V>(presets: map<string, Preset<V>>, name: string, seen: set<string>): Resolved<Layer<V>>
    decreases |presets.Keys - seen|, 0
  {
    if name !in presets then Err(Missing(name))
    else if name in seen then Err(Cycle(name))
    else
      FewerLeft(presets, seen, name);
      var p := presets[name];
      match Parents(presets, p.inherits, seen + {name})
      case Err(e) => Err(e)
      case Ok(layer) => Ok(Update(layer, Layer(p.cache, p.env)))
  }

  /** The parents, from the last listed to the first, each updating what came before. */
  function Parents<V>(presets: map<string, Preset<V>>, parents: seq<string>, seen: set<string>): Resolved<Layer<V>>
    decreases |presets.Keys - seen|, |parents| + 1
  {
    if parents == [] then Ok(Layer(map[], map[]))
    else
      match Parents(presets, parents[1..], seen)
      case Err(e) => Err(e)
      case Ok(later) =>
        match Resolve(presets, parents[0], seen)
        case Err(e) => Err(e)
        case Ok(first) => Ok(Update(later, first))
  }

  // -------------------------------------------------------- when it fails, exactly

  /** Each preset inherits the next. */
  predicate IsChain<V>(presets: map<string, Preset<V>>, path: seq<string>) {
    |path| <= 1 || (path[0] in presets && path[1] in presets[path[0]].inherits && IsChain(presets, path[1..]))
  }

  /** An inherits path from `name` that ends at a missing preset or at one already on it. */
  ghost predicate IsDeadEnd<V>(presets: map<string, Preset<V>>, name: string, seen: set<string>, path: seq<string>) {
    && path != [] && path[0] == name && IsChain(presets, path)
    && var last := path[|path| - 1];
       last !in presets || last in seen || last in path[..|path| - 1]
  }

  lemma {:induction false} ParentFails<V>(presets: map<string, Preset<V>>, parents: seq<string>, seen: set<string>, p: string)
    requires p in parents && Resolve(presets, p, seen).Err?
    ensures Parents(presets, parents, seen).Err?
    decreases |parents|
  {
    if p != parents[0] { ParentFails(presets, parents[1..], seen, p); }
  }

  lemma {:induction false} DeadEndFails<V>(presets: map<string, Preset<V>>, name: string, seen: set<string>, path: seq<string>)
    requires IsDeadEnd(presets, name, seen, path)
    ensures Resolve(presets, name, seen).Err?
    decreases |path|
  {
    if name in presets && name !in seen {
      var n := |path|;
      assert n > 1;
      var rest := path[1..];
      assert path[..n - 1] == [name] + rest[..n - 2];
      DeadEndFails(presets, path[1], seen + {name}, rest);
      ParentFails(presets, presets[name].inherits, seen + {name}, path[1]);
    }
  }

  lemma {:induction false} FailureHasDeadEnd<V>(presets: map<string, Preset<V>>, name: string, seen: set<string>)
    returns (path: seq<string>)
    requires Resolve(presets, name, seen).Err?
    ensures IsDeadEnd(presets, name, seen, path)
    decreases |presets.Keys - seen|, 0
  {
    path := [name];
    if name in presets && name !in seen {
      FewerLeft(presets, seen, name);
      var p, rest := FailedParent(presets, presets[name].inherits, seen + {name});
      path := [name] + rest;
      assert path[1..] == rest;
      assert path[..|path| - 1] == [name] + rest[..|rest| - 1];
    }
  }

  lemma {:induction false} FailedParent<V>(presets: map<string, Preset<V>>, parents: seq<string>, seen: set<string>)
    returns (p: string, path: seq<string>)
    requires Parents(presets, parents, seen).Err?
    ensures p in parents && IsDeadEnd(presets, p, seen, path)
    decreases |presets.Keys - seen|, |parents| + 1
  {
    if Parents(presets, parents[1..], seen).Err? {
      p, path := FailedParent(presets, parents[1..], seen);
    } else {
      p := parents[0];
      path := FailureHasDeadEnd(presets, p, seen);
    }
  }

  /** Resolution fails exactly when some inherits path reaches a missing preset or a preset
      already on that path; reaching one preset over two paths is no failure. */
  lemma FailsExactlyOnDeadEnds<V>(presets: map<string, Preset<V>>, name: string)
    ensures Resolve(presets, name, {}).Err? <==> exists path :: IsDeadEnd(presets, name, {}, path)
  {
    if Resolve(presets, name, {}).Err? { var path := FailureHasDeadEnd(presets, name, {}); }
    forall path | IsDeadEnd(presets, name, {}, path) ensures Resolve(presets, name, {}).Err? {
      DeadEndFails(presets, name, {}, path);
    }
  }

  // -------------------------------------------------------------- which value wins

  /** The presets in preorder of the inherits tree: a preset, then each parent's tree in turn. */
  function Preorder<V>(presets: map<string, Preset<V>>, name: string, seen: set<string>): seq<string>
    decreases |presets.Keys - seen|, 0
  {
    if name !in presets || name in seen then []
    else
      FewerLeft(presets, seen, name);
      [name] + PreorderAll(presets, presets[name].inherits, seen + {name})
  }

  function PreorderAll<V>(presets: map<string, Preset<V>>, parents: seq<string>, seen: set<string>): seq<string>
    decreases |presets.Keys - seen|, |parents| + 1
  {
    if parents == [] then []
    else Preorder(presets, parents[0], seen) + PreorderAll(presets, parents[1..], seen)
  }

  function Get<V>(m: map<string, V>, key: string): Option<V> { if key in m then Some(m[key]) else None }

  /** The value of the first listed preset that defines the key. */
  function FirstCache<V>(presets: map<string, Preset<V>>, names: seq<string>, key: string): Option<V> {
    if names == [] then None
    else if names[0] in presets && key in presets[names[0]].cache then Some(presets[names[0]].cache[key])
    else FirstCache(presets, names[1..], key)
  }

  function FirstEnv<V>(presets: map<string, Preset<V>>, names: seq<string>, key: string): Option<V> {
    if names == [] then None
    else if names[0] in presets && key in presets[names[0]].env then Some(presets[names[0]].env[key])
    else FirstEnv(presets, names[1..], key)
  }

  lemma {:induction false} FirstConcat<V>(presets: map<string, Preset<V>>, a: seq<string>, b: seq<string>, key: string)
    ensures FirstCache(presets, a + b, key) ==
            if FirstCache(presets, a, key).Some? then FirstCache(presets, a, key) else FirstCache(presets, b, key)
    ensures FirstEnv(presets, a + b, key) ==
            if FirstEnv(presets, a, key).Some? then FirstEnv(presets, a, key) else FirstEnv(presets, b, key)
  {
    if a == [] {
      assert a + b == b;
    } else {
      assert (a + b)[0] == a[0] && (a + b)[1..] == a[1..] + b;
      FirstConcat(presets, a[1..], b, key);
    }
  }

  /** A resolved preset gives each key the value of its first definer in preorder. */
  lemma {:induction false} FirstDefinerWins<V>(presets: map<string, Preset<V>>, name: string, seen: set<string>, key: string)
    requires Resolve(presets, name, seen).Ok?
    ensures var layer := Resolve(presets, name, seen).value;
            && Get(layer.cache, key) == FirstCache(presets, Preorder(presets, name, seen), key)
            && Get(layer.env, key) == FirstEnv(presets, Preorder(presets, name, seen), key)
    decreases |presets.Keys - seen|, 0
  {
    FewerLeft(presets, seen, name);
    var all := PreorderAll(presets, presets[name].inherits, seen + {name});
    FirstDefinerOfParents(presets, presets[name].inherits, seen + {name}, key);
    assert ([name] + all)[1..] == all;
  }

  lemma {:induction false} FirstDefinerOfParents<V>(presets: map<string, Preset<V>>, parents: seq<string>,
                                                    seen: set<string>, key: string)
    requires Parents(presets, parents, seen).Ok?
    ensures var layer := Parents(presets, parents, seen).value;
            && Get(layer.cache, key) == FirstCache(presets, PreorderAll(presets, parents, seen), key)
            && Get(layer.env, key) == FirstEnv(presets, PreorderAll(presets, parents, seen), key)
    decreases |presets.Keys - seen|, |parents| + 1
  {
    if parents != [] {
      FirstDefinerOfParents(presets, parents[1..], seen, key);
      FirstDefinerWins(presets, parents[0], seen, key);
      FirstConcat(presets, Preorder(presets, parents[0], seen), PreorderAll(presets, parents[1..], seen), key);
    }
  }
}

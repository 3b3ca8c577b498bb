/** What a command means under the values of the variables, and why the variable closure of
    `cmake_surface` in `ci/ccache-flag-surface.py` is the right one: a command's meaning depends on
    the variables it is said to read, exactly when it computes no name, and the emitted lines mean
    on their own what they mean in the whole tree. */
module CMakeValues {
  import opened Text
  import opened CMakeParse
  import opened CMakeBlocks
  import opened CMakeSurface

  /** The value of every variable; an unset one is empty. */
  type Values = string -> string

  // ----------------------------------------------------------- expanding an argument

  /** CMake's expansion from `i` on: `open` holds the text read so far, one entry for each `${` not
      yet closed on top of the argument itself; a `}` looks up the name it closes, which may itself
      have been computed. None when a `${` stays open. */
  function Expand(a: string, i: nat, open: seq<string>, env: Values): Option<string>
    requires i <= |a| && open != []
    decreases |a| - i
  {
    if i == |a| then (if |open| == 1 then Some(open[0]) else None)
    else if At(a, i, "${") then Expand(a, i + 2, open + [""], env)
    else if a[i] == '}' && |open| > 1 then Expand(a, i + 1, Close(open, env), env)
    else Expand(a, i + 1, Extend(open, a[i]), env)
  }

  /** The name on top is replaced by its value. */
  function Close(open: seq<string>, env: Values): seq<string>
    requires |open| >= 2
  {
    var n := |open| - 1;
    open[..n - 1] + [open[n - 1] + env(open[n])]
  }

  function Extend(open: seq<string>, c: char): seq<string>
    requires open != []
  {
    var n := |open| - 1;
    open[..n] + [open[n] + [c]]
  }

  function ValueOf(a: string, env: Values): Option<string> { Expand(a, 0, [""], env) }

  /** How many `${` are open at the end, with `d` open at `i`. */
  function Depth(a: string, i: nat, d: nat): nat
    requires i <= |a|
    decreases |a| - i
  {
    if i == |a| then d
    else if At(a, i, "${") then Depth(a, i + 2, d + 1)
    else if a[i] == '}' && d > 0 then Depth(a, i + 1, d - 1)
    else Depth(a, i + 1, d)
  }

  /** CMake refuses the argument. */
  predicate StaysOpen(a: string) { Depth(a, 0, 0) > 0 }

  lemma {:induction false} ExpandDepth(a: string, i: nat, open: seq<string>, env: Values)
    requires i <= |a| && open != []
    ensures Expand(a, i, open, env).Some? <==> Depth(a, i, |open| - 1) == 0
    decreases |a| - i
  {
    if i < |a| {
      if At(a, i, "${") {
        ExpandDepth(a, i + 2, open + [""], env);
      } else if a[i] == '}' && |open| > 1 {
        ExpandDepth(a, i + 1, Close(open, env), env);
      } else {
        ExpandDepth(a, i + 1, Extend(open, a[i]), env);
      }
    }
  }

  predicate HasClose(a: string, i: nat, j: nat)
    requires j <= |a|
  {
    exists k | i <= k < j :: a[k] == '}'
  }

  /** The name that starts at `i` is written out: it is not empty, and no `$` or `{` stands in it. */
  predicate NamePlain(a: string, i: nat) {
    forall j | i <= j < |a| && (a[j] == '$' || a[j] == '{' || (a[j] == '}' && j == i)) :: HasClose(a, i, j)
  }

  predicate PlainFrom(a: string, i: nat) {
    forall o: nat | i <= o < |a| && At(a, o, "${") :: NamePlain(a, o + 2)
  }

  /** No name in `${` and `}` is put together from other references. */
  predicate IsPlain(a: string) { PlainFrom(a, 0) }

  /** No `$` and no brace from `i` up to `j`. */
  predicate IsLiteral(a: string, i: nat, j: nat)
    requires j <= |a|
  {
    forall k | i <= k < j :: a[k] != '$' && a[k] != '{' && a[k] != '}'
  }

  /** In a plain argument a name goes on or is closed. */
  lemma PlainName(a: string, o: nat, i: nat)
    requires o + 2 <= i < |a| && At(a, o, "${") && IsLiteral(a, o + 2, i) && IsPlain(a)
    ensures a[i] != '$' && a[i] != '{' && !At(a, i, "${")
    ensures i == o + 2 ==> a[i] != '}'
  {
    assert NamePlain(a, o + 2);
  }

  /** A reference of a plain argument is replaced by the value of the name up to the next `}`. */
  lemma {:induction false} SkipName(a: string, o: nat, i: nat, x: string, env: Values)
    requires o + 2 <= i <= |a| && At(a, o, "${") && IsLiteral(a, o + 2, i) && IsPlain(a)
    ensures var k := Find(a, "}", i);
            var r := Expand(a, i, [x, a[o + 2..i]], env);
            if k.None? then r.None?
            else && o + 2 < k.value < |a| && a[k.value] == '}' && IsLiteral(a, o + 2, k.value)
                 && r == Expand(a, k.value + 1, [x + env(a[o + 2..k.value])], env)
    decreases |a| - i
  {
    hide IsPlain;
    var open := [x, a[o + 2..i]];
    AtChar(a, i, '}');
    if i < |a| {
      PlainName(a, o, i);
      if a[i] == '}' {
        assert Close(open, env) == [x + env(open[1])];
      } else {
        assert a[o + 2..i] + [a[i]] == a[o + 2..i + 1];
        assert Extend(open, a[i]) == [x, a[o + 2..i + 1]];
        SkipName(a, o, i + 1, x, env);
      }
    }
  }

  lemma PlainReference(a: string, o: nat, x: string, env: Values)
    requires At(a, o, "${") && IsPlain(a)
    ensures var k := Find(a, "}", o + 2);
            var r := Expand(a, o, [x], env);
            if k.None? then r.None?
            else && o + 2 < k.value < |a| && IsReference(a, o, k.value) && a[o + 2..k.value] in References(a)
                 && r == Expand(a, k.value + 1, [x + env(a[o + 2..k.value])], env)
  {
    hide IsPlain;
    assert a[o + 2..o + 2] == "" && [x] + [""] == [x, a[o + 2..o + 2]];
    SkipName(a, o, o + 2, x, env);
    var k := Find(a, "}", o + 2);
    if k.Some? {
      assert a[o] == a[o..o + 2][0] == '$' && a[o + 1] == a[o..o + 2][1] == '{';
      assert IsReference(a, o, k.value);
    }
  }

  ghost predicate Agree(d: Values, e: Values, names: set<string>) {
    forall v | v in names :: d(v) == e(v)
  }

  lemma {:induction false} PlainAgrees(a: string, i: nat, x: string, d: Values, e: Values)
    requires i <= |a| && IsPlain(a) && Agree(d, e, References(a))
    ensures Expand(a, i, [x], d) == Expand(a, i, [x], e)
    decreases |a| - i
  {
    hide IsPlain, References;
    if i < |a| {
      if At(a, i, "${") {
        PlainReference(a, i, x, d);
        PlainReference(a, i, x, e);
        var k := Find(a, "}", i + 2);
        if k.Some? { PlainAgrees(a, k.value + 1, x + d(a[i + 2..k.value]), d, e); }
      } else {
        assert Extend([x], a[i]) == [x + [a[i]]];
        PlainAgrees(a, i + 1, x + [a[i]], d, e);
      }
    }
  }

  // ------------------------------------------------------- computed names matter

  function Repeat(c: char, n: nat): (s: string)
    ensures |s| == n && forall k | 0 <= k < n :: s[k] == c
  {
    seq(n, k => c)
  }

  /** The names read outright are short and hold no `$` and no brace. */
  predicate Written(names: set<string>, bound: nat) {
    forall v | v in names :: v != "" && |v| <= bound && '$' !in v && '{' !in v
  }

  /** `near` for the names read outright, `far` for any other. */
  function NearFar(names: set<string>, near: string, far: string): Values {
    v => if v in names then near else far
  }

  /** Whatever is appended, this is no name read outright. */
  predicate IsFar(s: string, bound: nat) { |s| > bound || '$' in s || '{' in s }

  /** A name that is not read outright is being computed, or its value has been taken. */
  predicate Reaches(open: seq<string>, bound: nat, m: nat) {
    |open| >= 3 || (|open| == 2 && IsFar(open[1], bound)) || (open != [] && |open[0]| >= m)
  }

  lemma FarExtends(s: string, t: string, bound: nat)
    requires IsFar(s, bound)
    ensures IsFar(s + t, bound)
  {
    assert forall c | c in s :: c in s + t;
  }

  lemma CloseReaches(open: seq<string>, names: set<string>, near: string, far: string, bound: nat)
    requires |open| >= 2 && Written(names, bound) && |near| > bound && |far| > bound && Reaches(open, bound, |far|)
    ensures Reaches(Close(open, NearFar(names, near, far)), bound, |far|)
  {
    var n := |open| - 1;
    var value := NearFar(names, near, far)(open[n]);
    assert |value| > bound;
    if |open| == 2 && IsFar(open[1], bound) { assert open[1] !in names; }
    var next := Close(open, NearFar(names, near, far));
    assert next[n - 1] == open[n - 1] + value;
  }

  lemma {:induction false} ReachesLong(a: string, i: nat, open: seq<string>, names: set<string>, near: string, far: string,
                                       bound: nat)
    requires i <= |a| && Written(names, bound) && |near| > bound && |far| > bound
    requires open != [] && Reaches(open, bound, |far|)
    ensures var v := Expand(a, i, open, NearFar(names, near, far)); v.Some? ==> |v.value| >= |far|
    decreases |a| - i
  {
    hide IsFar, Written, NearFar;
    if i < |a| {
      if At(a, i, "${") {
        ReachesLong(a, i + 2, open + [""], names, near, far, bound);
      } else if a[i] == '}' && |open| > 1 {
        CloseReaches(open, names, near, far, bound);
        ReachesLong(a, i + 1, Close(open, NearFar(names, near, far)), names, near, far, bound);
      } else {
        if |open| == 2 && IsFar(open[1], bound) { FarExtends(open[1], [a[i]], bound); }
        ReachesLong(a, i + 1, Extend(open, a[i]), names, near, far, bound);
      }
    }
  }

  /** An argument whose value stays short has only written-out names. */
  lemma {:induction false} ShortIsPlain(a: string, i: nat, x: string, names: set<string>, near: string, far: string, bound: nat)
    requires i <= |a| && Written(names, bound) && |near| > bound && |far| > bound
    requires var v := Expand(a, i, [x], NearFar(names, near, far)); v.Some? && |v.value| < |far|
    ensures PlainFrom(a, i)
    decreases |a| - i
  {
    hide Written, NearFar, NamePlain;
    if i < |a| {
      if At(a, i, "${") {
        assert a[i + 2..i + 2] == "" && [x] + [""] == [x, a[i + 2..i + 2]];
        ShortName(a, i, i + 2, x, names, near, far, bound);
      } else {
        assert Extend([x], a[i]) == [x + [a[i]]];
        ShortIsPlain(a, i + 1, x + [a[i]], names, near, far, bound);
      }
    }
  }

  lemma {:induction false} ShortName(a: string, o: nat, i: nat, x: string, names: set<string>, near: string, far: string,
                                     bound: nat)
    requires o + 2 <= i <= |a| && At(a, o, "${") && IsLiteral(a, o + 2, i)
    requires Written(names, bound) && |near| > bound && |far| > bound
    requires var v := Expand(a, i, [x, a[o + 2..i]], NearFar(names, near, far)); v.Some? && |v.value| < |far|
    ensures PlainFrom(a, o)
    decreases |a| - i
  {
    hide Written, NearFar, PlainFrom;
    var open := [x, a[o + 2..i]];
    if At(a, i, "${") {
      ReachesLong(a, i + 2, open + [""], names, near, far, bound);
    } else if a[i] == '}' {
      var y := x + NearFar(names, near, far)(open[1]);
      assert Close(open, NearFar(names, near, far)) == [y];
      if i == o + 2 {
        EmptyIsFar(names, near, far, bound);
        ReachesLong(a, i + 1, [y], names, near, far, bound);
      } else {
        ShortIsPlain(a, i + 1, y, names, near, far, bound);
        PlainJoins(a, o, i);
      }
    } else {
      var next := a[o + 2..i] + [a[i]];
      assert next == a[o + 2..i + 1] && Extend(open, a[i]) == [x, next];
      if a[i] == '$' || a[i] == '{' {
        assert next[|next| - 1] == a[i];
        ReachesLong(a, i + 1, [x, next], names, near, far, bound);
      } else {
        ShortName(a, o, i + 1, x, names, near, far, bound);
      }
    }
  }

  lemma EmptyIsFar(names: set<string>, near: string, far: string, bound: nat)
    requires Written(names, bound)
    ensures NearFar(names, near, far)("") == far
  {
  }

  lemma PlainJoins(a: string, o: nat, i: nat)
    requires o + 2 < i < |a| && At(a, o, "${") && IsLiteral(a, o + 2, i) && a[i] == '}' && PlainFrom(a, i + 1)
    ensures PlainFrom(a, o)
  {
    assert a[o + 1] == a[o..o + 2][1] == '{';
    forall p: nat | o <= p < |a| && At(a, p, "${") ensures NamePlain(a, p + 2) {
      assert a[p] == a[p..p + 2][0] == '$';
      if p == o {
        forall j | o + 2 <= j < |a| && (a[j] == '$' || a[j] == '{' || (a[j] == '}' && j == o + 2)) ensures HasClose(a, o + 2, j) {
          assert i < j;
        }
      }
    }
  }

  /** The length of what is open, and how much `n` characters can add when no value is longer
      than `most`. */
  function Total(open: seq<string>): nat {
    if open == [] then 0 else Total(open[..|open| - 1]) + |open[|open| - 1]|
  }

  function Growth(n: nat, most: nat): nat { if n == 0 then 0 else Growth(n - 1, most) + most + 1 }

  lemma TotalSteps(open: seq<string>, c: char, env: Values, most: nat)
    requires open != [] && forall v :: |env(v)| <= most
    ensures Total(open + [""]) == Total(open) && Total(Extend(open, c)) == Total(open) + 1
    ensures |open| >= 2 ==> Total(Close(open, env)) <= Total(open) + most
  {
    var n := |open| - 1;
    assert (open + [""])[..n + 1] == open;
    assert Extend(open, c)[..n] == open[..n];
    if |open| >= 2 { assert Close(open, env)[..n - 1] == open[..n - 1] == open[..n][..n - 1]; }
  }

  lemma {:induction false} ValueIsShort(a: string, i: nat, open: seq<string>, env: Values, most: nat)
    requires i <= |a| && open != [] && forall v :: |env(v)| <= most
    ensures var v := Expand(a, i, open, env); v.Some? ==> |v.value| <= Total(open) + Growth(|a| - i, most)
    decreases |a| - i
  {
    hide Total;
    OneTotal(open);
    if i < |a| {
      TotalSteps(open, a[i], env, most);
      if At(a, i, "${") {
        assert Growth(|a| - i, most) == Growth(|a| - i - 2, most) + 2 * (most + 1);
        ValueIsShort(a, i + 2, open + [""], env, most);
      } else if a[i] == '}' && |open| > 1 {
        ValueIsShort(a, i + 1, Close(open, env), env, most);
      } else {
        ValueIsShort(a, i + 1, Extend(open, a[i]), env, most);
      }
    }
  }

  lemma OneTotal(open: seq<string>)
    ensures |open| == 1 ==> Total(open) == |open[0]|
  {
    if |open| == 1 { assert open[..0] == []; }
  }

  // ------------------------------------------------------------------ commands

  /** What a command gets for an argument: its value and, in a condition, the value of the variable
      that value names. */
  datatype Input = Input(value: Option<string>, variable: Option<string>)

  function InputOf(isCondition: bool, a: string, env: Values): Input {
    var v := ValueOf(a, env);
    Input(v, if isCondition && v.Some? && IsName(v.value) then Some(env(v.value)) else None)
  }

  function Meaning(c: Cmd, env: Values): seq<Input> {
    seq(|c.args|, k requires 0 <= k < |c.args| => InputOf(IsConditionHead(c.name), c.args[k], env))
  }

  /** The argument can expand to a bare name: nothing but name characters and references from `i`
      on, and no digit in front. */
  predicate CouldBeName(a: string, i: nat, started: bool)
    requires i <= |a|
    decreases |a| - i
  {
    if i == |a| then started
    else if At(a, i, "${") then
      var k := Find(a, "}", i + 2);
      k.Some? && CouldBeName(a, k.value + 1, true)
    else (if started then IsNameChar(a[i]) else IsNameStart(a[i])) && CouldBeName(a, i + 1, true)
  }

  /** No name is computed: neither in a reference nor, in a condition, by one. */
  predicate NothingComputed(isCondition: bool, a: string) {
    StaysOpen(a) || (IsPlain(a) && (isCondition && CouldBeName(a, 0, false) ==> IsName(a)))
  }

  predicate IsDetermined(c: Cmd) {
    forall k | 0 <= k < |c.args| :: NothingComputed(IsConditionHead(c.name), c.args[k])
  }

  ghost predicate DependsOnReads(c: Cmd) {
    forall d: Values, e: Values | Agree(d, e, Reads(c)) :: Meaning(c, d) == Meaning(c, e)
  }

  // --- enough

  lemma {:induction false} BottomStays(a: string, i: nat, open: seq<string>, env: Values)
    requires i <= |a| && open != []
    ensures var v := Expand(a, i, open, env); v.Some? ==> open[0] <= v.value
    decreases |a| - i
  {
    if i < |a| {
      if At(a, i, "${") {
        BottomStays(a, i + 2, open + [""], env);
      } else if a[i] == '}' && |open| > 1 {
        BottomStays(a, i + 1, Close(open, env), env);
      } else {
        BottomStays(a, i + 1, Extend(open, a[i]), env);
      }
    }
  }

  lemma CouldBeMore(a: string, i: nat, started: bool)
    requires i <= |a| && CouldBeName(a, i, started)
    ensures CouldBeName(a, i, true)
  {
  }

  lemma {:induction false} NameCouldBe(a: string, i: nat, x: string, env: Values)
    requires i <= |a| && IsPlain(a)
    requires var v := Expand(a, i, [x], env); v.Some? && IsName(v.value)
    ensures CouldBeName(a, i, x != "")
    decreases |a| - i
  {
    hide IsPlain, References;
    if i < |a| {
      if At(a, i, "${") {
        PlainReference(a, i, x, env);
        var k := Find(a, "}", i + 2).value;
        var y := x + env(a[i + 2..k]);
        NameCouldBe(a, k + 1, y, env);
        CouldBeMore(a, k + 1, y != "");
      } else {
        var y := x + [a[i]];
        assert Extend([x], a[i]) == [y];
        NameCouldBe(a, i + 1, y, env);
        BottomStays(a, i + 1, [y], env);
        assert Expand(a, i, [x], env).value[|x|] == y[|x|] == a[i];
      }
    }
  }

  lemma AtDollar(a: string, i: nat)
    ensures At(a, i, "${") ==> a[i] == '$'
  {
    if At(a, i, "${") { assert a[i] == a[i..i + 2][0]; }
  }

  lemma {:induction false} LiteralIsItself(a: string, i: nat, env: Values)
    requires i <= |a| && IsName(a)
    ensures Expand(a, i, [a[..i]], env) == Some(a)
    decreases |a| - i
  {
    if i < |a| {
      assert IsNameChar(a[i]);
      AtDollar(a, i);
      assert a[..i] + [a[i]] == a[..i + 1];
      assert Extend([a[..i]], a[i]) == [a[..i + 1]];
      LiteralIsItself(a, i + 1, env);
    } else {
      assert a[..i] == a;
    }
  }

  lemma ArgumentAgrees(isCondition: bool, a: string, d: Values, e: Values, names: set<string>)
    requires NothingComputed(isCondition, a) && Agree(d, e, names) && References(a) <= names
    requires isCondition && IsName(a) ==> a in names
    ensures InputOf(isCondition, a, d) == InputOf(isCondition, a, e)
  {
    hide Expand, IsPlain, References, CouldBeName, Depth, IsName;
    ExpandDepth(a, 0, [""], d);
    ExpandDepth(a, 0, [""], e);
    if !StaysOpen(a) {
      PlainAgrees(a, 0, "", d, e);
      var v := ValueOf(a, d);
      if isCondition && IsName(v.value) {
        NameCouldBe(a, 0, "", d);
        assert a[..0] == "";
        LiteralIsItself(a, 0, d);
      }
    }
  }

  // --- and needed

  lemma NamesJoin(x: string, y: string)
    requires IsName(y) && (x == "" || IsName(x))
    ensures IsName(x + y)
  {
  }

  lemma NameGrows(x: string, c: char)
    ensures IsName(x) && IsNameChar(c) ==> IsName(x + [c])
    ensures x == "" && IsNameStart(c) ==> IsName(x + [c])
  {
  }

  /** With long values for the references, an argument that could be a name is a long one. */
  lemma {:induction false} LongName(a: string, i: nat, x: string, env: Values, started: bool, bound: nat)
    requires i <= |a| && IsPlain(a) && CouldBeName(a, i, started) && Expand(a, i, [x], env).Some?
    requires forall v | v in References(a) :: IsName(env(v)) && |env(v)| > bound
    requires if started then IsName(x) else x == ""
    ensures var v := Expand(a, i, [x], env).value; IsName(v) && (|v| > bound || v == x + a[i..])
    decreases |a| - i
  {
    hide IsPlain, References, IsName, At, Find, IsNameChar, IsNameStart;
    if i < |a| {
      if At(a, i, "${") {
        PlainReference(a, i, x, env);
        var k := Find(a, "}", i + 2).value;
        var y := x + env(a[i + 2..k]);
        NamesJoin(x, env(a[i + 2..k]));
        LongName(a, k + 1, y, env, true, bound);
        BottomStays(a, k + 1, [y], env);
      } else {
        var y := x + [a[i]];
        assert Extend([x], a[i]) == [y];
        NameGrows(x, a[i]);
        LongName(a, i + 1, y, env, true, bound);
        assert y + a[i + 1..] == x + a[i..];
      }
    } else {
      assert x + a[i..] == x;
    }
  }

  lemma ComputedNameDiffers(a: string, names: set<string>, bound: nat) returns (d: Values, e: Values)
    requires Written(names, bound) && !IsPlain(a) && !StaysOpen(a)
    ensures Agree(d, e, names) && ValueOf(a, d) != ValueOf(a, e)
  {
    hide Expand, IsPlain, Growth, Depth, Written;
    var near := Repeat('A', bound + 1);
    var far := Repeat('A', Growth(|a|, |near|) + bound + 1);
    d, e := NearFar(names, near, ""), NearFar(names, near, far);
    ExpandDepth(a, 0, [""], d);
    ExpandDepth(a, 0, [""], e);
    OneTotal([""]);
    ValueIsShort(a, 0, [""], d, |near|);
    PlainIsFromStart(a);
    if |ValueOf(a, e).value| < |far| { ShortIsPlain(a, 0, "", names, near, far, bound); }
  }

  lemma PlainIsFromStart(a: string)
    ensures PlainFrom(a, 0) <==> IsPlain(a)
  {
  }

  lemma ComputedVariableDiffers(a: string, names: set<string>, bound: nat) returns (d: Values, e: Values)
    requires Written(names, bound) && References(a) <= names
    requires IsPlain(a) && !StaysOpen(a) && CouldBeName(a, 0, false) && !IsName(a)
    ensures Agree(d, e, names) && InputOf(true, a, d) != InputOf(true, a, e)
  {
    hide Expand, IsPlain, Depth, CouldBeName, References;
    var near := Repeat('A', bound + 1);
    d := NearFar(names, near, "");
    ExpandDepth(a, 0, [""], d);
    LongName(a, 0, "", d, false, bound);
    var v := ValueOf(a, d).value;
    assert "" + a[0..] == a;
    assert v !in names;
    e := w => if w == v then "x" else if w in names then near else "";
    PlainAgrees(a, 0, "", d, e);
  }

  function Longest(args: seq<string>): (n: nat)
    ensures forall k | 0 <= k < |args| :: |args[k]| <= n
  {
    if args == [] then 0
    else
      var rest := Longest(args[..|args| - 1]);
      var last := |args[|args| - 1]|;
      assert forall k | 0 <= k < |args| - 1 :: args[k] == args[..|args| - 1][k];
      if last > rest then last else rest
  }

  lemma ReadsAreWritten(c: Cmd)
    ensures Written(Reads(c), Longest(c.args))
  {
    forall v | v in Reads(c) ensures v != "" && |v| <= Longest(c.args) && '$' !in v && '{' !in v {
      if k, r :| 0 <= k < |c.args| && r in References(c.args[k]) && r == v {
        ReferenceIsWritten(c.args[k], v);
      } else {
        var k :| 0 <= k < |c.args| && IsName(c.args[k]) && c.args[k] == v;
      }
    }
  }

  lemma ReferenceIsWritten(a: string, v: string)
    requires v in References(a)
    ensures v != "" && |v| <= |a| && '$' !in v && '{' !in v
  {
    var i, j :| 0 <= i < |a| && 0 <= j < |a| && IsReference(a, i, j) && a[i + 2..j] == v;
    assert forall k | 0 <= k < |v| :: v[k] == a[i + 2 + k];
  }

  lemma ReadsHold(c: Cmd, k: nat)
    requires k < |c.args|
    ensures References(c.args[k]) <= Reads(c)
    ensures IsConditionHead(c.name) && IsName(c.args[k]) ==> c.args[k] in Reads(c)
  {
  }

  /** What a command means depends only on the variables it is said to read, exactly when it
      computes no name. */
  lemma MeaningDependsExactly(c: Cmd)
    ensures DependsOnReads(c) <==> IsDetermined(c)
  {
    hide Reads, References, IsPlain, CouldBeName, StaysOpen, InputOf, IsName, Written;
    var cond := IsConditionHead(c.name);
    if IsDetermined(c) {
      forall d: Values, e: Values | Agree(d, e, Reads(c)) ensures Meaning(c, d) == Meaning(c, e) {
        DeterminedAgrees(c, d, e);
      }
    } else {
      var k :| 0 <= k < |c.args| && !NothingComputed(cond, c.args[k]);
      var a := c.args[k];
      ReadsAreWritten(c);
      ReadsHold(c, k);
      var d, e;
      if IsPlain(a) {
        d, e := ComputedVariableDiffers(a, Reads(c), Longest(c.args));
      } else {
        d, e := ComputedNameDiffers(a, Reads(c), Longest(c.args));
        ValueInInput(cond, a, d);
        ValueInInput(cond, a, e);
      }
      assert Meaning(c, d)[k] == InputOf(cond, a, d) && Meaning(c, e)[k] == InputOf(cond, a, e);
    }
  }

  /** Two commands that read a variable under a computed name, which no reading of the text finds. */
  lemma ComputedNamesAreMissed()
    ensures !DependsOnReads(Cmd("if", ["${X}"]))
    ensures !DependsOnReads(Cmd("add_compile_options", ["${A${B}}"]))
  {
    hide DependsOnReads;
    var bare, nested := "${X}", "${A${B}}";
    BareIsComputed();
    NestedIsComputed();
    assert Cmd("if", [bare]).args[0] == bare && Cmd("add_compile_options", [nested]).args[0] == nested;
    MeaningDependsExactly(Cmd("if", [bare]));
    MeaningDependsExactly(Cmd("add_compile_options", [nested]));
  }

  lemma BareIsComputed()
    ensures !NothingComputed(true, "${X}")
  {
    var a := "${X}";
    assert At(a, 0, "${") && a[2] == 'X' && a[3] == '}' && |a| == 4;
    AtDollar(a, 2);
    AtDollar(a, 3);
    assert Depth(a, 4, 0) == 0;
    assert Depth(a, 3, 1) == 0;
    assert Depth(a, 2, 1) == 0;
    AtChar(a, 2, '}');
    AtChar(a, 3, '}');
    assert Find(a, "}", 3) == Some(3);
    assert Find(a, "}", 2) == Some(3);
    assert CouldBeName(a, 4, true);
    assert !IsName(a);
  }

  lemma NestedIsComputed()
    ensures !NothingComputed(false, "${A${B}}")
  {
    var a := "${A${B}}";
    assert At(a, 0, "${") && At(a, 3, "${") && |a| == 8;
    AtDollar(a, 2);
    AtDollar(a, 5);
    AtDollar(a, 6);
    AtDollar(a, 7);
    assert a[2] == 'A' && a[3] == '$' && a[5] == 'B' && a[6] == '}' && a[7] == '}';
    assert Depth(a, 8, 0) == 0;
    assert Depth(a, 7, 1) == 0;
    assert Depth(a, 6, 2) == 0;
    assert Depth(a, 5, 2) == 0;
    assert Depth(a, 3, 1) == 0;
    assert Depth(a, 2, 1) == 0;
    assert !HasClose(a, 2, 3);
    assert !NamePlain(a, 2);
  }

  lemma ValueInInput(isCondition: bool, a: string, env: Values)
    ensures InputOf(isCondition, a, env).value == ValueOf(a, env)
  {
  }

  lemma DeterminedAgrees(c: Cmd, d: Values, e: Values)
    requires IsDetermined(c) && Agree(d, e, Reads(c))
    ensures Meaning(c, d) == Meaning(c, e)
  {
    hide Reads, References, NothingComputed, InputOf, IsName, Agree;
    var cond := IsConditionHead(c.name);
    forall k | 0 <= k < |c.args| ensures InputOf(cond, c.args[k], d) == InputOf(cond, c.args[k], e) {
      ReadsHold(c, k);
      ArgumentAgrees(cond, c.args[k], d, e, Reads(c));
    }
  }

  // ------------------------------------------------------------- the emitted lines

  /** The directory-scope commands that assign a variable. */
  predicate Writes(c: Cmd, v: string) {
    || ((c.name == "set" || c.name == "unset" || c.name == "option") && c.args != [] && c.args[0] == v)
    || ((c.name == "string" || c.name == "list") && v in c.args)
  }

  /** What a command leaves in a variable it writes, given what it means and the value before. */
  type Effect = (Cmd, seq<Input>, string, string) -> string

  function After(c: Cmd, env: Values, effect: Effect): Values {
    v => if Writes(c, v) then effect(c, Meaning(c, env), v, env(v)) else env(v)
  }

  /** Some line shows the command: as a gating head, as what is kept, or inside a kept routine. */
  ghost predicate OnSurface(lines: seq<Line>, c: Cmd) {
    exists l | l in lines :: l.Kept? && (c in l.ctx || c in FlatNode(l.node))
  }

  ghost predicate AtDirectoryScope(files: seq<File>, c: Cmd) {
    exists s | s in AllSites(files) :: s.node == Node.Command(c)
  }

  /** The emitted commands of a run, each with what it means at that point. */
  ghost function Observed(lines: seq<Line>, run: seq<Cmd>, env: Values, effect: Effect): seq<(Cmd, seq<Input>)> {
    if run == [] then []
    else
      (if OnSurface(lines, run[0]) then [(run[0], Meaning(run[0], env))] else []) +
      Observed(lines, run[1..], After(run[0], env, effect), effect)
  }

  /** The run without what is not emitted. */
  ghost function Sliced(lines: seq<Line>, run: seq<Cmd>): seq<Cmd> {
    if run == [] then []
    else (if OnSurface(lines, run[0]) then [run[0]] else []) + Sliced(lines, run[1..])
  }

  lemma EmittedAgrees(lines: seq<Line>, c: Cmd, d: Values, e: Values, effect: Effect)
    requires OnSurface(lines, c) && IsDetermined(c) && Agree(d, e, LineReads(lines))
    ensures Meaning(c, d) == Meaning(c, e) && Agree(After(c, d, effect), After(c, e, effect), LineReads(lines))
  {
    hide Reads, IsDetermined, Meaning;
    var l :| l in lines && l.Kept? && (c in l.ctx || c in FlatNode(l.node));
    forall v | v in Reads(c) ensures v in LineReads(lines) {
      assert c in LineCommands(l);
      assert v in ReadsAll(LineCommands(l));
    }
    DeterminedAgrees(c, d, e);
  }

  lemma DroppedAgrees(f: Filter, files: seq<File>, c: Cmd, env: Values, effect: Effect)
    requires f.closure == LineReads(WalkAll(f, files)) && AtDirectoryScope(files, c) && !OnSurface(WalkAll(f, files), c)
    ensures Agree(After(c, env, effect), env, f.closure)
  {
    hide WalkAll, LineReads, AllSites, EmitSites, Meaning, IsDirectFlag, CallsAny;
    var s :| s in AllSites(files) && s.node == Node.Command(c);
    WalkAllIsFilter(f, files);
    var l := Kept(s.path, s.ctx, s.node);
    EmittedExactly(f, AllSites(files), l);
    assert c in FlatNode(l.node);
    assert !AssignsAny(c, f.closure);
    forall v | v in f.closure ensures !Writes(c, v) {}
  }

  /** In every run of directory-scope commands, in whatever order and however often, the emitted
      ones mean what they mean when only they are run: nothing that is left out of the surface
      can change them. */
  lemma {:induction false} EmittedLinesSuffice(f: Filter, files: seq<File>, run: seq<Cmd>, d: Values, e: Values, effect: Effect)
    requires f.closure == LineReads(WalkAll(f, files)) && Agree(d, e, f.closure)
    requires forall c | c in run :: if OnSurface(WalkAll(f, files), c) then IsDetermined(c) else AtDirectoryScope(files, c)
    ensures Observed(WalkAll(f, files), run, d, effect) ==
            Observed(WalkAll(f, files), Sliced(WalkAll(f, files), run), e, effect)
  {
    hide WalkAll, LineReads, OnSurface, AtDirectoryScope, IsDetermined, Meaning, Agree, After;
    if run != [] {
      var lines := WalkAll(f, files);
      var c, rest := run[0], run[1..];
      if OnSurface(lines, c) {
        EmittedAgrees(lines, c, d, e, effect);
        EmittedLinesSuffice(f, files, rest, After(c, d, effect), After(c, e, effect), effect);
        var sliced := [c] + Sliced(lines, rest);
        assert sliced[0] == c && sliced[1..] == Sliced(lines, rest);
      } else {
        DroppedAgrees(f, files, c, d, effect);
        AgreeThrough(After(c, d, effect), d, e, f.closure);
        var o := Observed(lines, rest, After(c, d, effect), effect);
        assert [] + o == o && [] + Sliced(lines, rest) == Sliced(lines, rest);
        EmittedLinesSuffice(f, files, rest, After(c, d, effect), e, effect);
      }
    }
  }

  lemma AgreeThrough(a: Values, b: Values, c: Values, names: set<string>)
    requires Agree(a, b, names) && Agree(b, c, names)
    ensures Agree(a, c, names)
  {
  }

  /** A directory-scope command is emitted exactly when it sets a flag, mentions a flag-bearing
      routine, is a `return()`, or writes a variable that an emitted line reads. */
  lemma CommandEmittedExactly(f: Filter, files: seq<File>, s: Site)
    requires f.closure == LineReads(WalkAll(f, files)) && s in AllSites(files) && s.node.Command?
    ensures var c := s.node.cmd;
            Kept(s.path, s.ctx, s.node) in WalkAll(f, files) <==>
            || IsDirectFlag(f.rules, c) || c.name == "return"
            || (exists fn | fn in f.fns :: Mentions([s.node], fn))
            || (exists v | v in LineReads(WalkAll(f, files)) :: Writes(c, v))
  {
    hide WalkAll, LineReads, AllSites, EmitSites, IsDirectFlag, Lower;
    var c := s.node.cmd;
    WalkAllIsFilter(f, files);
    EmittedExactly(f, AllSites(files), Kept(s.path, s.ctx, s.node));
    assert Flat([s.node]) == [c];
    assert CallsAny(c, f.fns) <==> exists fn | fn in f.fns :: Mentions([s.node], fn) by { MentionsAre(s.node, f.fns); }
    assert AssignsAny(c, f.closure) <==> exists v | v in f.closure :: Writes(c, v) by { WritesAre(c, f.closure); }
  }

  lemma MentionsAre(n: Node, fns: set<string>)
    requires n.Command?
    ensures CallsAny(n.cmd, fns) <==> exists fn | fn in fns :: Mentions([n], fn)
  {
    hide Lower;
    var c := n.cmd;
    assert Flat([n]) == [c] && c in Flat([n]);
    if CallsAny(c, fns) {
      if c.name in fns {
        assert Mentions([n], c.name);
      } else {
        var k :| 0 <= k < |c.args| && Lower(c.args[k]) in fns;
        assert Mentions([n], Lower(c.args[k]));
      }
    }
  }

  lemma WritesAre(c: Cmd, names: set<string>)
    ensures AssignsAny(c, names) <==> exists v | v in names :: Writes(c, v)
  {
    if AssignsAny(c, names) {
      var k :| 0 <= k < |c.args| && c.args[k] in names && Writes(c, c.args[k]);
    }
    if v :| v in names && Writes(c, v) {
      var k :| 0 <= k < |c.args| && c.args[k] == v;
    }
  }
}

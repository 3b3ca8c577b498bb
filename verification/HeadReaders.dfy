/** The readers of class-head tokens in ci/odr-hooks-census.py: balanced groups, template lists,
    attributes and requires-clauses. Each one advances past what it reads or stops at a place its
    result describes. */
module HeadReaders {
  import opened Text

  predicate IsOpen(t: string) { t == "(" || t == "[" || t == "{" }
  predicate IsClose(t: string) { t == ")" || t == "]" || t == "}" }

  /** Opening minus closing tokens of the three kinds in `h[i..j]`. */
  function Nesting(h: seq<string>, i: nat, j: nat): int
    requires i <= j <= |h|
    decreases j
  {
    if i == j then 0
    else Nesting(h, i, j - 1) + (if IsOpen(h[j - 1]) then 1 else if IsClose(h[j - 1]) then -1 else 0)
  }

  /** The group opened at `i` is still open after `h[..j]`. */
  predicate StaysOpen(h: seq<string>, i: nat, j: nat)
    requires i <= j <= |h|
  {
    forall m | i < m <= j :: Nesting(h, i, m) > 0
  }

  predicate IsGroup(h: seq<string>, i: nat, r: nat) {
    i < r <= |h| && IsClose(h[r - 1]) && Nesting(h, i, r) == 0 && StaysOpen(h, i, r - 1)
  }

  /** `skip_group`: the index after the balanced close, exactly when there is one. */
  method SkipGroup(h: seq<string>, i: nat) returns (r: Option<nat>)
    requires i < |h| && IsOpen(h[i])
    ensures r.Some? ==> IsGroup(h, i, r.value) && r.value >= i + 2
    ensures r.None? <==> StaysOpen(h, i, |h|)
  {
    var depth: int := 0;
    for j := i to |h|
      invariant depth == Nesting(h, i, j) && StaysOpen(h, i, j)
      invariant j > i ==> depth > 0
    {
      if IsOpen(h[j]) {
        depth := depth + 1;
      } else if IsClose(h[j]) {
        depth := depth - 1;
        if depth == 0 {
          assert Nesting(h, i, j + 1) == 0;
          return Some(j + 1);
        }
      }
    }
    return None;
  }

  ghost function GroupEnd(h: seq<string>, i: nat): (r: Option<nat>)
    ensures r.Some? ==> IsGroup(h, i, r.value)
  {
    if r: nat :| IsGroup(h, i, r) then Some(r) else None
  }

  lemma GroupEndIs(h: seq<string>, i: nat, r: Option<nat>)
    requires i < |h| && IsOpen(h[i])
    requires if r.Some? then IsGroup(h, i, r.value) else StaysOpen(h, i, |h|)
    ensures GroupEnd(h, i) == r
  {
    hide Nesting;
    assert r.Some? ==> GroupEnd(h, i).Some?;
  }

  // ------------------------------------------------------------------- template lists

  /** Where a reading for template lists ends, and at what depth. A `<` opens a list only after
      a name, `->` is an arrow, and a group is skipped whole. */
  ghost function Angles(h: seq<string>, isName: string -> bool, i: nat, depth: nat, stop: bool): (r: (nat, nat))
    requires i <= |h|
    ensures i <= r.0 <= |h| && (i < |h| ==> i < r.0)
    ensures !stop || r.1 > 0 ==> r.0 == |h|
    ensures stop && depth > 0 && r.1 == 0 ==> i < r.0 && h[r.0 - 1] == ">"
    decreases |h| - i
  {
    if i == |h| then (i, depth)
    else if IsOpen(h[i]) then
      match GroupEnd(h, i) {
        case None => (|h|, depth)
        case Some(j) => Angles(h, isName, j, depth, stop)
      }
    else if h[i] == "-" && i + 1 < |h| && h[i + 1] == ">" then Angles(h, isName, i + 2, depth, stop)
    else if h[i] == "<" && i > 0 && isName(h[i - 1]) then Angles(h, isName, i + 1, depth + 1, stop)
    else if h[i] == ">" && depth > 0 then
      if depth == 1 && stop then (i + 1, 0) else Angles(h, isName, i + 1, depth - 1, stop)
    else Angles(h, isName, i + 1, depth, stop)
  }

  /** `angle_depth`: it always comes to an end. */
  method AngleDepth(h: seq<string>, isName: string -> bool, i0: nat, depth0: nat, stop: bool) returns (i: nat, depth: nat)
    requires i0 <= |h|
    ensures (i, depth) == Angles(h, isName, i0, depth0, stop)
  {
    hide IsGroup, StaysOpen;
    i, depth := i0, depth0;
    while i < |h|
      invariant i <= |h| && Angles(h, isName, i0, depth0, stop) == Angles(h, isName, i, depth, stop)
    {
      var t := h[i];
      if IsOpen(t) {
        var j := SkipGroup(h, i);
        GroupEndIs(h, i, j);
        if j.None? { return |h|, depth; }
        i := j.value;
        continue;
      }
      if t == "-" && i + 1 < |h| && h[i + 1] == ">" {
        i := i + 2;
        continue;
      }
      if t == "<" && i > 0 && isName(h[i - 1]) {
        depth := depth + 1;
      } else if t == ">" && depth > 0 {
        depth := depth - 1;
        if depth == 0 && stop { return i + 1, 0; }
      }
      i := i + 1;
    }
  }

  /** Past the `>` that closes the list opened at `i`, if it closes. */
  ghost function ListEnd(h: seq<string>, isName: string -> bool, i: nat): (r: Option<nat>)
    requires i < |h|
    ensures r.Some? ==> i + 1 < r.value <= |h| && h[r.value - 1] == ">"
  {
    var (j, depth) := Angles(h, isName, i + 1, 1, true);
    if depth > 0 then None else Some(j)
  }

  /** `skip_angle`. */
  method SkipAngle(h: seq<string>, isName: string -> bool, i: nat) returns (r: Option<nat>)
    requires i < |h|
    ensures r == ListEnd(h, isName, i)
  {
    var j, depth := AngleDepth(h, isName, i + 1, 1, true);
    if depth > 0 { return None; }
    return Some(j);
  }

  // ------------------------------------------------------------------- attributes

  predicate IsAttributeWord(t: string) {
    t == "alignas" || t == "__attribute__" || t == "__declspec" || t == "_Alignas"
  }

  predicate StartsAttribute(h: seq<string>, i: nat) {
    i + 1 < |h| && ((h[i] == "[" && h[i + 1] == "[") || (IsAttributeWord(h[i]) && h[i + 1] == "("))
  }

  /** `skip_attrs`: it advances exactly when an attribute starts, and leaves none unread. */
  method SkipAttributes(h: seq<string>, i0: nat) returns (i: nat)
    requires i0 <= |h|
    ensures i0 <= i <= |h| && !StartsAttribute(h, i)
    ensures i > i0 <==> StartsAttribute(h, i0)
  {
    i := i0;
    while i < |h|
      invariant i0 <= i <= |h| && (i > i0 ==> StartsAttribute(h, i0))
    {
      var j: Option<nat>;
      if h[i] == "[" && i + 1 < |h| && h[i + 1] == "[" {
        j := SkipGroup(h, i);
      } else if IsAttributeWord(h[i]) && i + 1 < |h| && h[i + 1] == "(" {
        j := SkipGroup(h, i + 1);
      } else {
        return;
      }
      if j.None? { return |h|; }
      i := j.value;
    }
  }

  // ------------------------------------------------------------------- requires-clauses

  datatype Why = InRequires | InAngle | Unread

  datatype Clause = After(index: nat) | Stopped(why: Why)

  predicate Joins(h: seq<string>, i: nat) {
    i + 1 < |h| && h[i] == h[i + 1] && (h[i] == "&" || h[i] == "|")
  }

  /** The names, lists and `::` of an id-expression from `i` on; None when a list does not close. */
  ghost function NamesEnd(h: seq<string>, isName: string -> bool, i: nat): (r: Option<nat>)
    requires i <= |h|
    ensures r.Some? ==> i <= r.value <= |h| && (i < |h| && isName(h[i]) ==> i < r.value)
    decreases |h| - i
  {
    if i == |h| || !isName(h[i]) then Some(i)
    else
      var list := if i + 1 < |h| && h[i + 1] == "<" then ListEnd(h, isName, i + 1) else Some(i + 1);
      match list {
        case None => None
        case Some(j) =>
          if j < |h| && h[j] == "::" then
            NamesEnd(h, isName, if j + 1 < |h| && h[j + 1] == "template" then j + 2 else j + 1)
          else Some(j)
      }
  }

  /** An id-expression from `i0`. */
  method SkipId(h: seq<string>, isName: string -> bool, i0: nat) returns (r: Option<nat>)
    requires i0 < |h| && (h[i0] == "::" || isName(h[i0]))
    ensures r == NamesEnd(h, isName, if h[i0] == "::" then i0 + 1 else i0)
  {
    hide ListEnd;
    var i := i0;
    if h[i] == "::" { i := i + 1; }
    ghost var start := i;
    while i < |h| && isName(h[i])
      invariant i <= |h| && NamesEnd(h, isName, start) == NamesEnd(h, isName, i)
      decreases |h| - i
    {
      i := i + 1;
      if i < |h| && h[i] == "<" {
        var j := SkipAngle(h, isName, i);
        if j.None? { return None; }
        i := j.value;
      }
      if i < |h| && h[i] == "::" {
        i := i + 1;
        if i < |h| && h[i] == "template" { i := i + 1; }
      } else {
        return Some(i);
      }
    }
    return Some(i);
  }

  /** Where the body of the requires-expression at `i` should open; None when its parameters do
      not close. */
  ghost function BodyStart(h: seq<string>, i: nat): (r: Option<nat>)
    requires i < |h|
    ensures r.Some? ==> i < r.value <= |h|
  {
    if i + 1 < |h| && h[i + 1] == "(" then GroupEnd(h, i + 1) else Some(i + 1)
  }

  /** A requires-expression: past its body; or the head ends where the body would open; or the
      parameters or the body do not close, or something else stands there. */
  ghost function RequiresExpression(h: seq<string>, i: nat): (r: Clause)
    requires i < |h|
    ensures r.After? ==> i < r.index <= |h|
  {
    match BodyStart(h, i)
    case None => Stopped(Unread)
    case Some(b) =>
      if b == |h| then Stopped(InRequires)
      else if h[b] == "{" && GroupEnd(h, b).Some? then After(GroupEnd(h, b).value)
      else Stopped(Unread)
  }

  method SkipRequiresExpression(h: seq<string>, i0: nat) returns (r: Clause)
    requires i0 < |h| && h[i0] == "requires"
    ensures r == RequiresExpression(h, i0)
  {
    hide IsGroup, StaysOpen;
    var i := i0 + 1;
    if i < |h| && h[i] == "(" {
      var j := SkipGroup(h, i);
      GroupEndIs(h, i, j);
      if j.None? { return Stopped(Unread); }
      i := j.value;
    }
    if i >= |h| { return Stopped(InRequires); }
    if h[i] != "{" { return Stopped(Unread); }
    var j := SkipGroup(h, i);
    GroupEndIs(h, i, j);
    if j.None? { return Stopped(Unread); }
    return After(j.value);
  }

  /** One primary: a parenthesised expression, a requires-expression, an id-expression or a literal. */
  ghost function Primary(h: seq<string>, isName: string -> bool, isLiteral: string -> bool, i: nat): (r: Clause)
    requires i < |h|
    ensures r.After? ==> i < r.index <= |h|
  {
    if h[i] == "(" then match GroupEnd(h, i) case None => Stopped(Unread) case Some(j) => After(j)
    else if h[i] == "requires" then RequiresExpression(h, i)
    else if h[i] == "::" || isName(h[i]) then
      match NamesEnd(h, isName, if h[i] == "::" then i + 1 else i) case None => Stopped(InAngle) case Some(j) => After(j)
    else if isLiteral(h[i]) then After(i + 1)
    else Stopped(Unread)
  }

  method SkipPrimary(h: seq<string>, isName: string -> bool, isLiteral: string -> bool, i: nat) returns (r: Clause)
    requires i < |h|
    ensures r == Primary(h, isName, isLiteral, i)
  {
    hide IsGroup, StaysOpen, NamesEnd, RequiresExpression;
    if h[i] == "(" {
      var j := SkipGroup(h, i);
      GroupEndIs(h, i, j);
      if j.None? { return Stopped(Unread); }
      return After(j.value);
    }
    if h[i] == "requires" {
      r := SkipRequiresExpression(h, i);
      return;
    }
    if h[i] == "::" || isName(h[i]) {
      var j := SkipId(h, isName, i);
      if j.None? { return Stopped(InAngle); }
      return After(j.value);
    }
    if isLiteral(h[i]) { return After(i + 1); }
    return Stopped(Unread);
  }

  /** The clause whose next primary is at `i`: it goes on past a connective, ends past a primary
      that lies inside the head and has none after it, stops where a primary does and with its
      reason, and is unread where the head ends instead. */
  ghost function ClauseFrom(h: seq<string>, isName: string -> bool, isLiteral: string -> bool, i: nat): (r: Clause)
    ensures r.After? ==> i < r.index < |h| && !Joins(h, r.index)
    decreases |h| + 1 - i
  {
    if i >= |h| then Stopped(Unread)
    else
      var p := Primary(h, isName, isLiteral, i);
      if p.Stopped? then p
      else if Joins(h, p.index) then ClauseFrom(h, isName, isLiteral, p.index + 2)
      else if p.index < |h| then p
      else Stopped(Unread)
  }

  /** `skip_requires`: every primary and every connective advances, so it comes to an end. */
  method SkipRequires(h: seq<string>, isName: string -> bool, isLiteral: string -> bool, i0: nat) returns (r: Clause)
    requires i0 < |h| && h[i0] == "requires"
    ensures r == ClauseFrom(h, isName, isLiteral, i0 + 1)
  {
    hide Primary;
    var i := i0 + 1;
    while true
      invariant i0 < i <= |h| + 1
      invariant ClauseFrom(h, isName, isLiteral, i0 + 1) == ClauseFrom(h, isName, isLiteral, i)
      decreases |h| + 1 - i
    {
      if i >= |h| { return Stopped(Unread); }
      var p := SkipPrimary(h, isName, isLiteral, i);
      if p.Stopped? { return p; }
      i := p.index;
      if Joins(h, i) {
        i := i + 2;
        continue;
      }
      return if i < |h| then After(i) else Stopped(Unread);
    }
  }
}

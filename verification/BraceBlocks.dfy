/** The brace walk and the line table of ci/cxx_blank.py: `brace_blocks`, `line_starts`,
    `line_index_of`, and the operand blanking of `blank_unevaluated`. */
module BraceBlocks {
  import opened Text

  // ------------------------------------------------------------------- matched pairs

  /** Openers minus closers in `s[i..j]`. */
  function Depth(open: char, close: char, s: string, i: nat, j: nat): int
    requires i <= j <= |s|
    decreases j
  {
    if i == j then 0
    else Depth(open, close, s, i, j - 1) + (if s[j - 1] == open then 1 else if s[j - 1] == close then -1 else 0)
  }

  lemma DepthStep(open: char, close: char, s: string, i: nat, j: nat)
    requires i <= j < |s|
    ensures Depth(open, close, s, i, j + 1) ==
            Depth(open, close, s, i, j) + (if s[j] == open then 1 else if s[j] == close then -1 else 0)
  {
  }

  lemma {:induction false} DepthSplit(open: char, close: char, s: string, i: nat, j: nat, k: nat)
    requires i <= j <= k <= |s|
    ensures Depth(open, close, s, i, k) == Depth(open, close, s, i, j) + Depth(open, close, s, j, k)
    decreases k
  {
    if j < k { DepthSplit(open, close, s, i, j, k - 1); }
  }

  function Braces(s: string, i: nat, j: nat): int
    requires i <= j <= |s|
  {
    Depth('{', '}', s, i, j)
  }

  /** Every prefix of `s[a..b]` from `a + 1` on has an opener to spare. */
  predicate Inside(s: string, a: nat, b: nat)
    requires a <= b <= |s|
  {
    forall m | a < m <= b :: Braces(s, a, m) > 0
  }

  predicate Matched(s: string, a: nat, b: nat) {
    a < b < |s| && s[a] == '{' && s[b] == '}' && Braces(s, a, b + 1) == 0 && Inside(s, a, b)
  }

  predicate Unbalanced(s: string, n: nat)
    requires n <= |s|
  {
    exists k | 0 <= k <= n :: Braces(s, 0, k) < 0
  }

  predicate Balanced(s: string, a: nat, b: nat)
    requires a <= b <= |s|
  {
    Braces(s, a, b) == 0 && forall k | a <= k <= b :: Braces(s, a, k) >= 0
  }

  /** The contents of a matched pair are balanced. */
  lemma ContentsAreBalanced(s: string, a: nat, b: nat)
    requires Matched(s, a, b)
    ensures Balanced(s, a + 1, b)
  {
    hide Depth;
    DepthStep('{', '}', s, a, b);
    DepthOne(s, a);
    var inner := a + 1;
    forall k | a < k <= b ensures Braces(s, a, k) == 1 + Braces(s, inner, k) {
      DepthSplit('{', '}', s, a, inner, k);
    }
    assert Braces(s, a, b) == 1;
  }

  lemma DepthOne(s: string, a: nat)
    requires a < |s| && s[a] == '{'
    ensures Depth('{', '}', s, a, a + 1) == 1
  {
    assert Depth('{', '}', s, a, a) == 0;
  }

  lemma OneClose(s: string, a: nat, b: nat, c: nat)
    requires Matched(s, a, b) && Matched(s, a, c)
    ensures b == c
  {
    hide Depth;
  }

  /** Two matched pairs are nested or disjoint. */
  lemma NestedOrDisjoint(s: string, a: nat, b: nat, c: nat, d: nat)
    requires Matched(s, a, b) && Matched(s, c, d) && a < c
    ensures b < c || d < b
  {
    hide Depth;
    if c <= b {
      DepthSplit('{', '}', s, a, c, b + 1);
      assert Braces(s, a, c) > 0;
      assert Braces(s, c, b + 1) < 0;
    }
  }

  // ------------------------------------------------------------------- the walk

  /** The open offsets after `n` characters: unmatched so far, one depth apart. */
  predicate StackOk(s: string, stack: seq<nat>, n: nat)
    requires n <= |s|
  {
    && Braces(s, 0, n) == |stack|
    && (forall i | 0 <= i < |stack| ::
          stack[i] < n && s[stack[i]] == '{' && Braces(s, stack[i], n) == |stack| - i && Inside(s, stack[i], n))
  }

  predicate BlocksOk(s: string, blocks: seq<(nat, nat)>, n: nat) {
    && (forall p | p in blocks :: p.1 < n && Matched(s, p.0, p.1))
    && (forall i, j | 0 <= i < j < |blocks| :: blocks[i].1 < blocks[j].1)
  }

  predicate IsTaken(stack: seq<nat>, blocks: seq<(nat, nat)>, a: nat) {
    a in stack || exists p | p in blocks :: p.0 == a
  }

  predicate AllTaken(s: string, stack: seq<nat>, blocks: seq<(nat, nat)>, n: nat)
    requires n <= |s|
  {
    forall a | 0 <= a < n && s[a] == '{' :: IsTaken(stack, blocks, a)
  }

  lemma StackPush(s: string, stack: seq<nat>, n: nat)
    requires n < |s| && s[n] == '{' && StackOk(s, stack, n)
    ensures StackOk(s, stack + [n], n + 1)
  {
    var all := stack + [n];
    DepthStep('{', '}', s, 0, n);
    DepthOne(s, n);
    hide Depth;
    forall i | 0 <= i < |stack| ensures Braces(s, all[i], n + 1) == |all| - i && Inside(s, all[i], n + 1) {
      assert all[i] == stack[i];
      DepthStep('{', '}', s, stack[i], n);
    }
  }

  lemma StackPop(s: string, stack: seq<nat>, n: nat)
    requires n < |s| && s[n] == '}' && StackOk(s, stack, n) && stack != []
    ensures StackOk(s, stack[..|stack| - 1], n + 1) && Matched(s, stack[|stack| - 1], n)
  {
    hide Depth;
    DepthStep('{', '}', s, 0, n);
    forall i | 0 <= i < |stack| ensures Braces(s, stack[i], n + 1) == |stack| - i - 1 {
      DepthStep('{', '}', s, stack[i], n);
    }
  }

  lemma StackStay(s: string, stack: seq<nat>, n: nat)
    requires n < |s| && s[n] != '{' && s[n] != '}' && StackOk(s, stack, n)
    ensures StackOk(s, stack, n + 1)
  {
    hide Depth;
    DepthStep('{', '}', s, 0, n);
    forall i | 0 <= i < |stack| ensures Braces(s, stack[i], n + 1) == |stack| - i {
      DepthStep('{', '}', s, stack[i], n);
    }
  }

  /** At the end the blocks are exactly the matched pairs. */
  lemma BlocksAreExact(s: string, stack: seq<nat>, blocks: seq<(nat, nat)>, a: nat, b: nat)
    requires StackOk(s, stack, |s|) && BlocksOk(s, blocks, |s|) && AllTaken(s, stack, blocks, |s|)
    ensures Matched(s, a, b) <==> (a, b) in blocks
  {
    hide Depth;
    if Matched(s, a, b) {
      assert IsTaken(stack, blocks, a);
      if p :| p in blocks && p.0 == a { OneClose(s, a, b, p.1); }
    }
  }

  /** `brace_blocks`: nothing exactly when some prefix has more closers than openers; otherwise
      exactly the matched pairs, in order of close offset. */
  method BraceBlocks(s: string) returns (r: Option<seq<(nat, nat)>>)
    ensures r.None? <==> Unbalanced(s, |s|)
    ensures r.Some? ==> forall a: nat, b: nat :: (a, b) in r.value <==> Matched(s, a, b)
    ensures r.Some? ==> forall i, j | 0 <= i < j < |r.value| :: r.value[i].1 < r.value[j].1
  {
    hide Depth, Inside, Matched;
    var stack: seq<nat>, blocks: seq<(nat, nat)> := [], [];
    assert Braces(s, 0, 0) == 0 by { Zero(s); }
    for n := 0 to |s|
      invariant StackOk(s, stack, n) && BlocksOk(s, blocks, n) && AllTaken(s, stack, blocks, n)
      invariant !Unbalanced(s, n)
    {
      if s[n] == '{' {
        StackPush(s, stack, n);
        stack := stack + [n];
      } else if s[n] == '}' {
        if stack == [] {
          DepthStep('{', '}', s, 0, n);
          return None;
        }
        StackPop(s, stack, n);
        var top := stack[|stack| - 1];
        assert stack == stack[..|stack| - 1] + [top];
        blocks, stack := blocks + [(top, n)], stack[..|stack| - 1];
      } else {
        StackStay(s, stack, n);
      }
    }
    forall a: nat, b: nat ensures Matched(s, a, b) <==> (a, b) in blocks { BlocksAreExact(s, stack, blocks, a, b); }
    return Some(blocks);
  }

  lemma Zero(s: string)
    ensures Depth('{', '}', s, 0, 0) == 0
  {
  }

  // ------------------------------------------------------------------- unevaluated operands

  predicate Parenthesised(s: string, a: nat, b: nat) {
    && a < b < |s| && s[a] == '(' && s[b] == ')' && Depth('(', ')', s, a, b + 1) == 0
    && forall m | a < m <= b :: Depth('(', ')', s, a, m) > 0
  }

  /** The parenthesis that closes the one at `a`, if it closes. */
  method FindClose(s: string, a: nat) returns (r: Option<nat>)
    requires a < |s| && s[a] == '('
    ensures r.Some? ==> a < r.value < |s| && Parenthesised(s, a, r.value)
    ensures r.None? ==> forall b: nat :: !Parenthesised(s, a, b)
  {
    var depth := 0;
    for i := a to |s|
      invariant depth == Depth('(', ')', s, a, i) && (i > a ==> depth > 0)
      invariant forall m | a < m <= i :: Depth('(', ')', s, a, m) > 0
    {
      DepthStep('(', ')', s, a, i);
      if s[i] == '(' {
        depth := depth + 1;
      } else if s[i] == ')' {
        depth := depth - 1;
        if depth == 0 { return Some(i); }
      }
    }
    return None;
  }

  /** Character `k` lies in the operand opened at one of `opens`, before its close. */
  predicate InOperand(s: string, opens: seq<nat>, k: nat) {
    exists a | a in opens :: InOne(s, a, k)
  }

  predicate InOne(s: string, a: nat, k: nat) {
    a <= k && exists b | k < b < |s| :: Parenthesised(s, a, b)
  }

  lemma OneParenthesis(s: string, a: nat, b: nat, k: nat)
    requires Parenthesised(s, a, b)
    ensures InOne(s, a, k) <==> a <= k < b
  {
    hide Depth;
    forall c | k < c < |s| && Parenthesised(s, a, c) ensures b == c {}
  }

  /** `blank_unevaluated`, given where the operands of the `decltype` matches open: exactly the
      characters of the operands that close are blanked, one that does not close is left alone. */
  method BlankUnevaluated(s: string, opens: seq<nat>) returns (r: string)
    requires forall a | a in opens :: a < |s| && s[a] == '('
    ensures |r| == |s| && forall k | 0 <= k < |s| :: r[k] == (if InOperand(s, opens, k) then ' ' else s[k])
  {
    hide Parenthesised, InOne;
    var out := new char[|s|](i requires 0 <= i < |s| => s[i]);
    for n := 0 to |opens|
      invariant forall k | 0 <= k < |s| :: out[k] == (if InOperand(s, opens[..n], k) then ' ' else s[k])
    {
      var a := opens[n];
      assert opens[..n + 1] == opens[..n] + [a] && a in opens;
      var close := FindClose(s, a);
      forall k: nat ensures InOne(s, a, k) <==> close.Some? && a <= k < close.value {
        if close.Some? { OneParenthesis(s, a, close.value, k); } else { NoParenthesis(s, a, k); }
      }
      if close.Some? { BlankRange(out, a, close.value); }
      assert forall k: nat :: InOperand(s, opens[..n + 1], k) <==> InOperand(s, opens[..n], k) || InOne(s, a, k);
    }
    assert opens[..|opens|] == opens;
    r := out[..];
  }

  lemma NoParenthesis(s: string, a: nat, k: nat)
    requires forall b: nat :: !Parenthesised(s, a, b)
    ensures !InOne(s, a, k)
  {
  }

  method BlankRange(out: array<char>, a: nat, b: nat)
    requires a <= b <= out.Length
    modifies out
    ensures forall k | 0 <= k < out.Length :: out[k] == if a <= k < b then ' ' else old(out[k])
  {
    for j := a to b
      invariant forall k | 0 <= k < out.Length :: out[k] == if a <= k < j then ' ' else old(out[k])
    {
      out[j] := ' ';
    }
  }

  // ------------------------------------------------------------------- lines

  /** The newlines in `t[..n]`. */
  function Newlines(t: string, n: nat): nat
    requires n <= |t|
  {
    if n == 0 then 0 else Newlines(t, n - 1) + (if t[n - 1] == '\n' then 1 else 0)
  }

  /** `t[..n].split("\n")`. */
  function Split(t: string, n: nat): (lines: seq<string>)
    requires n <= |t|
    ensures |lines| == Newlines(t, n) + 1
  {
    if n == 0 then [""] else
      var before := Split(t, n - 1);
      if t[n - 1] == '\n' then before + [""]
      else before[..|before| - 1] + [before[|before| - 1] + [t[n - 1]]]
  }

  /** The text of the first `k` lines, each with its newline. */
  function Width(lines: seq<string>, k: nat): nat
    requires k <= |lines|
  {
    if k == 0 then 0 else Width(lines, k - 1) + |lines[k - 1]| + 1
  }

  lemma {:induction false} WidthPrefix(a: seq<string>, b: seq<string>, k: nat)
    requires k <= |a| && k <= |b| && a[..k] == b[..k]
    ensures Width(a, k) == Width(b, k)
  {
    if k > 0 {
      assert a[k - 1] == a[..k][k - 1] && b[k - 1] == b[..k][k - 1];
      assert a[..k - 1] == a[..k][..k - 1] && b[..k - 1] == b[..k][..k - 1];
      WidthPrefix(a, b, k - 1);
    }
  }

  method LineStarts(lines: seq<string>) returns (offs: seq<nat>)
    ensures |offs| == |lines| && forall k | 0 <= k < |lines| :: offs[k] == Width(lines, k)
  {
    offs := [];
    var pos := 0;
    for i := 0 to |lines|
      invariant pos == Width(lines, i) && |offs| == i && forall k | 0 <= k < i :: offs[k] == Width(lines, k)
    {
      offs := offs + [pos];
      pos := pos + |lines[i]| + 1;
    }
  }

  /** `bisect_right(offs, pos) - 1`, for offsets in increasing order. */
  method LineIndexOf(offs: seq<nat>, pos: nat) returns (r: int)
    requires forall i, j | 0 <= i < j < |offs| :: offs[i] <= offs[j]
    ensures -1 <= r < |offs|
    ensures forall k | 0 <= k < |offs| :: offs[k] <= pos <==> k <= r
  {
    var lo, hi := 0, |offs|;
    while lo < hi
      invariant 0 <= lo <= hi <= |offs|
      invariant forall k | 0 <= k < lo :: offs[k] <= pos
      invariant forall k | hi <= k < |offs| :: offs[k] > pos
    {
      var mid := (lo + hi) / 2;
      if pos < offs[mid] { hi := mid; } else { lo := mid + 1; }
    }
    return lo - 1;
  }

  /** The lines of a text end where it does. */
  lemma {:induction false} SplitWidth(t: string, n: nat)
    requires n <= |t|
    ensures var lines := Split(t, n); Width(lines, |lines| - 1) + |lines[|lines| - 1]| == n
  {
    if n > 0 {
      SplitWidth(t, n - 1);
      var before, lines := Split(t, n - 1), Split(t, n);
      WidthPrefix(before, lines, |before| - 1);
      if t[n - 1] == '\n' { assert lines[|before| - 1] == before[|before| - 1]; }
    }
  }

  /** Line `k` of a text starts at or before `pos` exactly when `k` newlines come before `pos`. */
  lemma {:induction false} LineStartsAfter(t: string, n: nat, k: nat, pos: nat)
    requires pos <= n <= |t| && k <= Newlines(t, n)
    ensures Width(Split(t, n), k) <= pos <==> k <= Newlines(t, pos)
    decreases n
  {
    var lines := Split(t, n);
    if n > 0 {
      var before := Split(t, n - 1);
      if k <= Newlines(t, n - 1) {
        assert before[..k] == lines[..k];
        WidthPrefix(before, lines, k);
        if pos < n {
          LineStartsAfter(t, n - 1, k, pos);
        } else {
          LineStartsAfter(t, n - 1, k, n - 1);
        }
      } else {
        SplitWidth(t, n);
        NewlinesGrow(t, pos, n - 1);
      }
    }
  }

  lemma {:induction false} NewlinesGrow(t: string, i: nat, j: nat)
    requires i <= |t| && j <= |t|
    ensures i <= j ==> Newlines(t, i) <= Newlines(t, j)
    decreases j
  {
    if i < j { NewlinesGrow(t, i, j - 1); }
  }

  lemma {:induction false} WidthGrows(lines: seq<string>, i: nat, j: nat)
    requires i <= j <= |lines|
    ensures Width(lines, i) <= Width(lines, j)
    decreases j
  {
    if i < j { WidthGrows(lines, i, j - 1); }
  }

  /** `line_index_of` over `line_starts` of the split text is the number of newlines before the
      offset. */
  method LineOf(t: string, pos: nat) returns (r: int)
    requires pos <= |t|
    ensures r == Newlines(t, pos)
  {
    var lines := Split(t, |t|);
    var offs := LineStarts(lines);
    forall i, j | 0 <= i < j < |offs| ensures offs[i] <= offs[j] { WidthGrows(lines, i, j); }
    r := LineIndexOf(offs, pos);
    NewlinesGrow(t, pos, |t|);
    forall k | 0 <= k < |offs| ensures offs[k] <= pos <==> k <= Newlines(t, pos) { LineStartsAfter(t, |t|, k, pos); }
    assert offs[Newlines(t, pos)] <= pos;
    assert r >= 0 ==> offs[r] <= pos;
  }
}

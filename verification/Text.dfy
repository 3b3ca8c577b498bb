/** The string primitives the scanners share: Python's `str.isspace`, `str.find`,
    `str.lower` on identifiers, and the option type. */
module Text {
  datatype Option<+T> = None | Some(value: T) {
    function GetOr(d: T): T { if None? then d else value }
  }

  /** `str.isspace` of one character (also what `\s` matches). */
  predicate IsSpace(c: char) {
    || '\t' <= c <= '\r' || '\U{1C}' <= c <= ' ' || c == '\U{85}' || c == '\U{A0}'
    || c == '\U{1680}' || '\U{2000}' <= c <= '\U{200A}' || c == '\U{2028}' || c == '\U{2029}'
    || c == '\U{202F}' || c == '\U{205F}' || c == '\U{3000}'
  }

  predicate IsNameStart(c: char) {
    'A' <= c <= 'Z' || 'a' <= c <= 'z' || c == '_'
  }

  predicate IsNameChar(c: char) {
    IsNameStart(c) || '0' <= c <= '9'
  }

  /** The regex `[A-Za-z_][A-Za-z0-9_]*` matched against the whole string. */
  predicate IsName(s: string) {
    s != "" && IsNameStart(s[0]) && forall k | 0 <= k < |s| :: IsNameChar(s[k])
  }

  function LowerChar(c: char): char {
    if 'A' <= c <= 'Z' then 'a' + (c - 'A') else c
  }

  function Lower(s: string): string {
    seq(|s|, i requires 0 <= i < |s| => LowerChar(s[i]))
  }

  /** `w` occurs in `t` at index `i`. */
  predicate At(t: string, i: nat, w: string) {
    i + |w| <= |t| && t[i..i + |w|] == w
  }

  lemma AtChar(t: string, i: nat, c: char)
    ensures At(t, i, [c]) <==> i < |t| && t[i] == c
  {
    if i < |t| { assert t[i..i + 1] == [t[i]]; }
  }

  lemma AtConcat(t: string, i: nat, a: string, b: string)
    ensures At(t, i, a + b) <==> At(t, i, a) && At(t, i + |a|, b)
  {
    if i + |a| + |b| <= |t| {
      assert t[i..i + |a + b|] == t[i..i + |a|] + t[i + |a|..i + |a| + |b|];
      assert (a + b)[..|a|] == a && (a + b)[|a|..] == b;
    }
  }

  /** An occurrence inside an occurrence. */
  lemma AtWithin(t: string, i: nat, w: string, k: nat, p: string)
    requires At(t, i, w) && k + |p| <= |w|
    ensures At(t, i + k, p) <==> At(w, k, p)
  {
    var u, v := w[k..k + |p|], t[i + k..i + k + |p|];
    forall x | 0 <= x < |p| ensures u[x] == v[x] {
      assert w[k + x] == t[i..i + |w|][k + x];
    }
    assert u == v;
  }

  /** `str.find`: where `p` first occurs in `t` from `i` on. */
  function Find(t: string, p: string, i: nat): (r: Option<nat>)
    requires i <= |t|
    ensures r.Some? ==> i <= r.value && r.value + |p| <= |t|
    decreases |t| - i
  {
    if At(t, i, p) then Some(i)
    else if i == |t| then None
    else Find(t, p, i + 1)
  }

  /** `Find` gives an occurrence and none starts earlier; without one there is none. */
  lemma {:induction false} FindFirst(t: string, p: string, i: nat)
    requires i <= |t|
    ensures Find(t, p, i).Some? ==> At(t, Find(t, p, i).value, p)
    ensures forall k | i <= k <= |t| && (Find(t, p, i).Some? ==> k < Find(t, p, i).value) :: !At(t, k, p)
    decreases |t| - i
  {
    if !At(t, i, p) && i < |t| { FindFirst(t, p, i + 1); }
  }

  /** The first occurrence of `p` in `w` is the first from where `w` occurs in a larger text. */
  lemma {:induction false} FindWithin(t: string, i: nat, w: string, p: string, j: nat)
    requires At(t, i, w) && j <= |w| && Find(w, p, j).Some?
    ensures Find(t, p, i + j) == Some(i + Find(w, p, j).value)
    decreases |w| - j
  {
    AtWithin(t, i, w, j, p);
    if !At(w, j, p) { FindWithin(t, i, w, p, j + 1); }
  }

  /** Conversely, cutting the text after the first occurrence keeps it. */
  lemma {:induction false} FindCut(t: string, i: nat, w: string, p: string, j: nat)
    requires At(t, i, w) && j + |p| <= |w| && Find(t, p, i + j) == Some(i + |w| - |p|)
    ensures Find(w, p, j) == Some(|w| - |p|)
    decreases |w| - j
  {
    AtWithin(t, i, w, j, p);
    if !At(w, j, p) { FindCut(t, i, w, p, j + 1); }
  }

  function Digit(n: nat): char
    requires n < 10
  {
    '0' + n as char
  }

  /** The decimal digits of a number, as `std::to_string` and `str` give them. */
  function Decimal(n: nat): string {
    if n < 10 then [Digit(n)] else Decimal(n / 10) + [Digit(n % 10)]
  }

  lemma {:induction false} DecimalInjective(a: nat, b: nat)
    requires Decimal(a) == Decimal(b)
    ensures a == b
  {
    var s := Decimal(a);
    var t := Decimal(b);
    DecimalNotEmpty(a / 10);
    DecimalNotEmpty(b / 10);
    assert s[|s| - 1] == Digit(a % 10) && t[|t| - 1] == Digit(b % 10);
    if a >= 10 && b >= 10 {
      assert s[..|s| - 1] == Decimal(a / 10) && t[..|t| - 1] == Decimal(b / 10);
      DecimalInjective(a / 10, b / 10);
    }
  }

  lemma DecimalNotEmpty(n: nat)
    ensures |Decimal(n)| >= 1
  {
  }
}

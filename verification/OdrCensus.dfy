/** The definition slicer of ci/odr-hooks-census.py (`parse`): one pass over the preprocessed
    tokens that keeps a stack of scopes, the head read so far, the depth of an expression brace
    group inside the head, and one token accumulator per open type definition. What a head means
    is a parameter, so the results hold for every reading of heads. */
module OdrCensus {
  import opened Text

  /** What the `{` after a head opens. A head that the rules refuse is read as `Other`. */
  datatype Kind = TypeBody(name: string) | Namespace(name: string) | Other | Expression

  /** How heads are read: what the brace after a head opens, and what an unnamed type whose body
      opens at a token is called. */
  datatype Rules = Rules(kind: seq<string> -> Kind, anonymous: nat -> string)

  predicate EndsHead(t: string) { t == "}" || t == ";" }

  predicate IsBoundary(t: string) { t == "{" || EndsHead(t) }

  // ------------------------------------------------------------------- heads

  /** Where the head being read starts, and the expression braces open in it. */
  datatype Head = Head(start: nat, expr: nat)

  function HeadStep(toks: seq<string>, rules: Rules, h: Head, n: nat): (r: Head)
    requires h.start <= n < |toks|
    ensures r.start <= n + 1
  {
    var t := toks[n];
    if h.expr > 0 then
      Head(h.start, if t == "{" then h.expr + 1 else if t == "}" then h.expr - 1 else h.expr)
    else if t == "{" then
      if rules.kind(toks[h.start..n]).Expression? then Head(h.start, 1) else Head(n + 1, 0)
    else if t == "}" || t == ";" then Head(n + 1, 0)
    else h
  }

  function HeadAt(toks: seq<string>, rules: Rules, n: nat): (h: Head)
    requires n <= |toks|
    ensures h.start <= n
  {
    if n == 0 then Head(0, 0) else HeadStep(toks, rules, HeadAt(toks, rules, n - 1), n - 1)
  }

  // ------------------------------------------------------------------- scopes

  /** A definition's scope key and which of the definitions with that scope key it is. */
  datatype Name = Name(scopeKey: string, ordinal: nat)

  /** An open scope: the first token of its head, its `{`, whether it is a type inside a type, its
      tag in the scope path, and its name when it is a type. */
  datatype Scope = Scope(start: nat, body: nat, isType: bool, nested: bool, tag: string, name: Name)

  /** A finished type definition. */
  datatype Span = Span(start: nat, body: nat, close: nat, nested: bool, name: Name)

  function SpanOf(c: Scope, n: nat): Span { Span(c.start, c.body, n, c.nested, c.name) }

  /** The scopes open, the definitions finished, and how often each scope key was given. */
  datatype Shape = Shape(open: seq<Scope>, done: seq<Span>, ordinal: map<string, nat>)

  /** The tokens of a head as text. */
  function Spaced(head: seq<string>): string {
    if head == [] then "" else if |head| == 1 then head[0] else Spaced(head[..|head| - 1]) + " " + head[|head| - 1]
  }

  /** The first 60 characters of it: the tag of a scope that is no type and no namespace. */
  function Joined(head: seq<string>): string {
    var all := Spaced(head);
    all[..if |all| < 60 then |all| else 60]
  }

  /** What the scope that opens at token `n` after `head` is called. */
  function TagOf(rules: Rules, head: seq<string>, n: nat): string {
    match rules.kind(head)
    case TypeBody(name) => if name == "" then rules.anonymous(n) else name
    case Namespace(name) => name
    case _ => "{" + Joined(head) + "}"
  }

  /** The tags of the open scopes that have one. */
  function PathOf(tags: seq<string>): string {
    if tags == [] then "" else
      var before := PathOf(tags[..|tags| - 1]);
      var last := tags[|tags| - 1];
      if last == "" then before else if before == "" then last else before + "::" + last
  }

  function TagsOf(open: seq<Scope>): seq<string> {
    seq(|open|, i requires 0 <= i < |open| => open[i].tag)
  }

  function ScopeKey(tags: seq<string>, tag: string): string {
    var path := PathOf(tags);
    if path == "" then tag else path + "::" + tag
  }

  function LastOrdinal(ordinal: map<string, nat>, scopeKey: string): nat {
    if scopeKey in ordinal then ordinal[scopeKey] else 0
  }

  function NextName(ordinal: map<string, nat>, scopeKey: string): Name {
    Name(scopeKey, LastOrdinal(ordinal, scopeKey) + 1)
  }

  function NewScope(toks: seq<string>, rules: Rules, s: Shape, start: nat, n: nat): Scope
    requires start <= n <= |toks|
  {
    var head := toks[start..n];
    var tag := TagOf(rules, head, n);
    Scope(start, n, rules.kind(head).TypeBody?, AnyType(s.open), tag,
          if rules.kind(head).TypeBody? then NextName(s.ordinal, ScopeKey(TagsOf(s.open), tag)) else Name("", 0))
  }

  function Opened(s: Shape, c: Scope): Shape {
    Shape(s.open + [c], s.done, if c.isType then s.ordinal[c.name.scopeKey := c.name.ordinal] else s.ordinal)
  }

  predicate AnyType(open: seq<Scope>) {
    exists s | s in open :: s.isType
  }

  function ShapeStep(toks: seq<string>, rules: Rules, s: Shape, n: nat): Shape
    requires n < |toks|
  {
    var h := HeadAt(toks, rules, n);
    if h.expr > 0 then s
    else if toks[n] == "{" then
      if rules.kind(toks[h.start..n]).Expression? then s else Opened(s, NewScope(toks, rules, s, h.start, n))
    else if toks[n] == "}" && s.open != [] then
      var top := s.open[|s.open| - 1];
      Shape(s.open[..|s.open| - 1], if top.isType then s.done + [SpanOf(top, n)] else s.done, s.ordinal)
    else s
  }

  function ShapeAt(toks: seq<string>, rules: Rules, n: nat): Shape
    requires n <= |toks|
  {
    if n == 0 then Shape([], [], map[]) else ShapeStep(toks, rules, ShapeAt(toks, rules, n - 1), n - 1)
  }

  // ------------------------------------------------------------------- what a slice is

  /** Opening minus closing braces in `toks[i..j]`. */
  function Depth(toks: seq<string>, i: nat, j: nat): int
    requires i <= j <= |toks|
    decreases j
  {
    if i == j then 0
    else Depth(toks, i, j - 1) + (if toks[j - 1] == "{" then 1 else if toks[j - 1] == "}" then -1 else 0)
  }

  /** The brace at `close` matches the one at `body`. */
  predicate Matches(toks: seq<string>, body: nat, close: nat) {
    && body < close < |toks| && toks[body] == "{" && toks[close] == "}"
    && Depth(toks, body, close + 1) == 0
    && forall m | body < m <= close :: Depth(toks, body, m) > 0
  }

  /** `toks[start..body]` is one whole head: it begins the text or follows a token that ends a
      head, and its own `;` and `}` all lie inside balanced braces. */
  predicate IsHead(toks: seq<string>, start: nat, body: nat) {
    && start <= body <= |toks|
    && (start == 0 || IsBoundary(toks[start - 1]))
    && Depth(toks, start, body) == 0
    && forall k | start <= k < body && EndsHead(toks[k]) :: Depth(toks, start, k) > 0
  }

  /** A `{` that opens a type body, read outside expression braces. */
  predicate OpensType(toks: seq<string>, rules: Rules, b: nat) {
    && b < |toks| && toks[b] == "{" && HeadAt(toks, rules, b).expr == 0
    && rules.kind(toks[HeadAt(toks, rules, b).start..b]).TypeBody?
  }

  // ------------------------------------------------------------------- heads are whole

  lemma DepthStep(toks: seq<string>, i: nat, j: nat)
    requires i <= j < |toks|
    ensures Depth(toks, i, j + 1) ==
            Depth(toks, i, j) + (if toks[j] == "{" then 1 else if toks[j] == "}" then -1 else 0)
  {
  }

  /** The head so far: expression braces are its depth, and nothing in it ended it. */
  predicate HeadOk(toks: seq<string>, h: Head, n: nat) {
    && h.start <= n <= |toks|
    && (h.start == 0 || IsBoundary(toks[h.start - 1]))
    && Depth(toks, h.start, n) == h.expr
    && forall k | h.start <= k < n && EndsHead(toks[k]) :: Depth(toks, h.start, k) > 0
  }

  lemma HeadStepOk(toks: seq<string>, rules: Rules, h: Head, n: nat)
    requires n < |toks| && HeadOk(toks, h, n)
    ensures HeadOk(toks, HeadStep(toks, rules, h, n), n + 1)
  {
    var r := HeadStep(toks, rules, h, n);
    DepthStep(toks, h.start, n);
    assert Depth(toks, n + 1, n + 1) == 0;
    hide Depth;
    assert r.start == n + 1 ==> IsBoundary(toks[n]);
  }

  lemma {:induction false} HeadIsWhole(toks: seq<string>, rules: Rules, n: nat)
    requires n <= |toks|
    ensures HeadOk(toks, HeadAt(toks, rules, n), n)
  {
    if n > 0 {
      hide HeadOk, HeadStep;
      HeadIsWhole(toks, rules, n - 1);
      HeadStepOk(toks, rules, HeadAt(toks, rules, n - 1), n - 1);
    }
  }

  // ------------------------------------------------------------------- the invariant of the scopes

  predicate ScopeOk(toks: seq<string>, rules: Rules, s: Scope) {
    && s.start <= s.body < |toks| && toks[s.body] == "{" && HeadAt(toks, rules, s.body) == Head(s.start, 0)
    && (s.isType <==> rules.kind(toks[s.start..s.body]).TypeBody?)
  }

  /** Every open scope lies inside the ones below it and before the head being read. */
  predicate ScopesOk(toks: seq<string>, rules: Rules, open: seq<Scope>, headStart: nat) {
    && (forall i | 0 <= i < |open| :: ScopeOk(toks, rules, open[i]) && open[i].body < headStart)
    && (forall i, j | 0 <= i < j < |open| :: open[i].body < open[j].start)
    && (forall i, j | 0 <= i < j < |open| && open[i].isType :: open[j].nested)
  }

  /** No open scope has been closed yet, and the depth counts the scopes and braces above it. */
  predicate DepthsOk(toks: seq<string>, open: seq<Scope>, n: nat, expr: nat)
    requires n <= |toks|
  {
    forall i | 0 <= i < |open| ::
      && open[i].body < n && Depth(toks, open[i].body, n) == |open| - i + expr
      && forall m | open[i].body < m <= n :: Depth(toks, open[i].body, m) > 0
  }

  predicate SpanOk(toks: seq<string>, rules: Rules, s: Span) {
    && Matches(toks, s.body, s.close) && OpensType(toks, rules, s.body)
    && HeadAt(toks, rules, s.body) == Head(s.start, 0)
  }

  /** One definition lies wholly before the other, or wholly inside its body. */
  predicate Apart(inner: Span, outer: Span) {
    || inner.close < outer.start
    || (outer.body < inner.start && inner.close < outer.close && inner.nested)
  }

  predicate SpansOk(toks: seq<string>, rules: Rules, done: seq<Span>, headStart: nat) {
    && (forall k | 0 <= k < |done| :: done[k].close < headStart && SpanOk(toks, rules, done[k]))
    && (forall k, l | 0 <= k < l < |done| :: done[k].close < done[l].close && Apart(done[k], done[l]))
  }

  predicate LiesIn(s: Span, outer: Scope) {
    s.close < outer.start || (outer.body < s.start && (outer.isType ==> s.nested))
  }

  predicate MixOk(done: seq<Span>, open: seq<Scope>) {
    forall k, i | 0 <= k < |done| && 0 <= i < |open| :: LiesIn(done[k], open[i])
  }

  predicate IsTaken(s: Shape, b: nat) {
    (exists c | c in s.open :: c.isType && c.body == b) || (exists d | d in s.done :: d.body == b)
  }

  predicate AllTaken(toks: seq<string>, rules: Rules, s: Shape, n: nat) {
    forall b: nat | b < n && OpensType(toks, rules, b) :: IsTaken(s, b)
  }

  predicate ShapeOk(toks: seq<string>, rules: Rules, n: nat)
    requires n <= |toks|
  {
    var s := ShapeAt(toks, rules, n);
    var h := HeadAt(toks, rules, n);
    && ScopesOk(toks, rules, s.open, h.start)
    && DepthsOk(toks, s.open, n, h.expr)
    && SpansOk(toks, rules, s.done, h.start)
    && MixOk(s.done, s.open)
    && AllTaken(toks, rules, s, n)
  }

  // --- a token that changes no scope

  lemma DepthsStay(toks: seq<string>, open: seq<Scope>, n: nat, expr: nat, expr': nat)
    requires n < |toks| && DepthsOk(toks, open, n, expr)
    requires expr' == expr + (if toks[n] == "{" then 1 else if toks[n] == "}" then -1 else 0)
    ensures DepthsOk(toks, open, n + 1, expr')
  {
    forall i | 0 <= i < |open|
      ensures Depth(toks, open[i].body, n + 1) == |open| - i + expr'
    {
      DepthStep(toks, open[i].body, n);
    }
  }

  // --- a scope opens

  lemma ScopesPush(toks: seq<string>, rules: Rules, open: seq<Scope>, s: Scope, n: nat)
    requires n < |toks| && ScopesOk(toks, rules, open, s.start) && ScopeOk(toks, rules, s)
    requires s.start <= s.body == n && s.nested == AnyType(open)
    ensures ScopesOk(toks, rules, open + [s], n + 1)
  {
    hide ScopeOk;
    var all := open + [s];
    assert forall i | 0 <= i < |open| :: all[i] == open[i] && open[i] in open;
  }

  lemma DepthsPush(toks: seq<string>, open: seq<Scope>, s: Scope, n: nat)
    requires n < |toks| && toks[n] == "{" && s.body == n && DepthsOk(toks, open, n, 0)
    ensures DepthsOk(toks, open + [s], n + 1, 0)
  {
    var all := open + [s];
    DepthStep(toks, n, n);
    forall i | 0 <= i < |all|
      ensures Depth(toks, all[i].body, n + 1) == |all| - i
    {
      if i < |open| { DepthStep(toks, open[i].body, n); }
    }
  }

  lemma MixPush(toks: seq<string>, rules: Rules, done: seq<Span>, open: seq<Scope>, s: Scope)
    requires MixOk(done, open) && SpansOk(toks, rules, done, s.start)
    ensures MixOk(done, open + [s])
  {
    hide SpanOk;
  }

  lemma ScopesLater(toks: seq<string>, rules: Rules, open: seq<Scope>, a: nat, b: nat)
    requires ScopesOk(toks, rules, open, a) && a <= b
    ensures ScopesOk(toks, rules, open, b)
  {
    hide ScopeOk;
  }

  lemma SpansLater(toks: seq<string>, rules: Rules, done: seq<Span>, a: nat, b: nat)
    requires SpansOk(toks, rules, done, a) && a <= b
    ensures SpansOk(toks, rules, done, b)
  {
    hide SpanOk;
  }

  lemma TakenPush(toks: seq<string>, rules: Rules, s: Shape, c: Scope, n: nat)
    requires AllTaken(toks, rules, s, n) && c.body == n && (OpensType(toks, rules, n) ==> c.isType)
    ensures AllTaken(toks, rules, Opened(s, c), n + 1)
  {
    hide OpensType;
    var t := Opened(s, c);
    assert c in t.open;
    assert forall b: nat | IsTaken(s, b) :: IsTaken(t, b);
  }

  lemma TakenStay(toks: seq<string>, rules: Rules, s: Shape, n: nat)
    requires AllTaken(toks, rules, s, n) && !OpensType(toks, rules, n)
    ensures AllTaken(toks, rules, s, n + 1)
  {
    hide OpensType;
  }

  // --- a scope closes

  lemma DepthsPop(toks: seq<string>, open: seq<Scope>, n: nat)
    requires n < |toks| && toks[n] == "}" && open != [] && DepthsOk(toks, open, n, 0)
    ensures DepthsOk(toks, open[..|open| - 1], n + 1, 0)
    ensures Matches(toks, open[|open| - 1].body, n) || toks[open[|open| - 1].body] != "{"
  {
    forall i | 0 <= i < |open|
      ensures Depth(toks, open[i].body, n + 1) == |open| - i - 1
    {
      DepthStep(toks, open[i].body, n);
    }
  }

  lemma ScopesPop(toks: seq<string>, rules: Rules, open: seq<Scope>, headStart: nat, n: nat)
    requires ScopesOk(toks, rules, open, headStart) && open != [] && headStart <= n
    ensures ScopesOk(toks, rules, open[..|open| - 1], n + 1)
  {
    hide ScopeOk;
  }

  lemma SpansPush(toks: seq<string>, rules: Rules, done: seq<Span>, open: seq<Scope>, top: Scope, s: Span, headStart: nat)
    requires SpansOk(toks, rules, done, headStart) && SpanOk(toks, rules, s)
    requires s == SpanOf(top, s.close) && headStart <= s.close && top.isType
    requires MixOk(done, open) && open != [] && top == open[|open| - 1]
    ensures SpansOk(toks, rules, done + [s], s.close + 1)
  {
    hide SpanOk;
  }

  lemma MixPop(toks: seq<string>, rules: Rules, done: seq<Span>, open: seq<Scope>, headStart: nat, s: Span)
    requires MixOk(done, open) && open != [] && ScopesOk(toks, rules, open, headStart)
    requires s.start == open[|open| - 1].start && s.nested == open[|open| - 1].nested
    ensures MixOk(done + [s], open[..|open| - 1]) && MixOk(done, open[..|open| - 1])
  {
    hide ScopeOk;
  }

  lemma TakenPop(toks: seq<string>, rules: Rules, s: Shape, t: Shape, n: nat)
    requires AllTaken(toks, rules, s, n) && !OpensType(toks, rules, n)
    requires s.open != [] && t.open == s.open[..|s.open| - 1]
    requires var top := s.open[|s.open| - 1];
             t.done == s.done || exists d: Span :: d.body == top.body && t.done == s.done + [d]
    requires s.open[|s.open| - 1].isType ==> t.done != s.done
    ensures AllTaken(toks, rules, t, n + 1)
  {
    hide OpensType;
    var top := s.open[|s.open| - 1];
    assert s.open == t.open + [top];
    assert top.isType ==> t.done[|t.done| - 1] in t.done && t.done[|t.done| - 1].body == top.body;
    forall b: nat | IsTaken(s, b) ensures IsTaken(t, b) {}
  }

  // ------------------------------------------------------------------- every prefix keeps it

  lemma StayKeeps(toks: seq<string>, rules: Rules, n: nat)
    requires n < |toks| && ShapeOk(toks, rules, n) && !OpensType(toks, rules, n)
    requires ShapeAt(toks, rules, n + 1) == ShapeAt(toks, rules, n)
    requires var h, h' := HeadAt(toks, rules, n), HeadAt(toks, rules, n + 1);
             h.start <= h'.start && (ShapeAt(toks, rules, n).open == [] || h'.expr == h.expr + (if toks[n] == "{" then 1 else if toks[n] == "}" then -1 else 0))
    ensures ShapeOk(toks, rules, n + 1)
  {
    var s := ShapeAt(toks, rules, n);
    var h, h' := HeadAt(toks, rules, n), HeadAt(toks, rules, n + 1);
    hide ShapeAt, HeadAt, ScopesOk, SpansOk, AllTaken, OpensType, Depth, MixOk;
    ScopesLater(toks, rules, s.open, h.start, h'.start);
    SpansLater(toks, rules, s.done, h.start, h'.start);
    TakenStay(toks, rules, s, n);
    if s.open != [] { DepthsStay(toks, s.open, n, h.expr, h'.expr); }
  }

  lemma OpenKeeps(toks: seq<string>, rules: Rules, n: nat)
    requires n < |toks| && ShapeOk(toks, rules, n)
    requires toks[n] == "{" && HeadAt(toks, rules, n).expr == 0
    requires !rules.kind(toks[HeadAt(toks, rules, n).start..n]).Expression?
    ensures ShapeOk(toks, rules, n + 1)
  {
    hide ShapeAt, HeadAt, ScopesOk, SpansOk, AllTaken, OpensType, Depth, DepthsOk, MixOk, AnyType;
    OpenStep(toks, rules, n);
    var s, h := ShapeAt(toks, rules, n), HeadAt(toks, rules, n);
    var c := NewScope(toks, rules, s, h.start, n);
    ScopesPush(toks, rules, s.open, c, n);
    DepthsPush(toks, s.open, c, n);
    SpansLater(toks, rules, s.done, h.start, n + 1);
    MixPush(toks, rules, s.done, s.open, c);
    TakenPush(toks, rules, s, c, n);
  }

  /** The top scope, when it is a type, closes as a definition. */
  lemma TopCloses(toks: seq<string>, rules: Rules, n: nat, open: seq<Scope>, headStart: nat, d: Span)
    requires n < |toks| && toks[n] == "}" && open != [] && DepthsOk(toks, open, n, 0)
    requires ScopesOk(toks, rules, open, headStart)
    requires var top := open[|open| - 1]; top.isType && d == SpanOf(top, n)
    ensures SpanOk(toks, rules, d)
  {
    var top := open[|open| - 1];
    assert ScopeOk(toks, rules, top);
    hide DepthsOk, Depth;
    DepthsPop(toks, open, n);
  }

  predicate Extends(toks: seq<string>, rules: Rules, h: Head, n: nat)
    requires h.start <= n < |toks|
  {
    h.expr > 0 || !IsBoundary(toks[n]) || (toks[n] == "{" && rules.kind(toks[h.start..n]).Expression?)
  }

  lemma ExtendStep(toks: seq<string>, rules: Rules, n: nat)
    requires n < |toks| && Extends(toks, rules, HeadAt(toks, rules, n), n)
    ensures var h := HeadAt(toks, rules, n);
            HeadAt(toks, rules, n + 1) ==
            Head(h.start, if toks[n] == "{" then h.expr + 1 else if toks[n] == "}" then h.expr - 1 else h.expr)
    ensures ShapeAt(toks, rules, n + 1) == ShapeAt(toks, rules, n) && !OpensType(toks, rules, n)
  {
  }

  lemma EndStep(toks: seq<string>, rules: Rules, n: nat)
    requires n < |toks| && HeadAt(toks, rules, n).expr == 0
    requires toks[n] == ";" || (toks[n] == "}" && ShapeAt(toks, rules, n).open == [])
    ensures HeadAt(toks, rules, n + 1) == Head(n + 1, 0)
    ensures ShapeAt(toks, rules, n + 1) == ShapeAt(toks, rules, n) && !OpensType(toks, rules, n)
  {
  }

  lemma OpenStep(toks: seq<string>, rules: Rules, n: nat)
    requires n < |toks| && toks[n] == "{" && HeadAt(toks, rules, n).expr == 0
    requires !rules.kind(toks[HeadAt(toks, rules, n).start..n]).Expression?
    ensures var s := ShapeAt(toks, rules, n);
            var start := HeadAt(toks, rules, n).start;
            && HeadAt(toks, rules, n + 1) == Head(n + 1, 0)
            && ShapeAt(toks, rules, n + 1) == Opened(s, NewScope(toks, rules, s, start, n))
            && (OpensType(toks, rules, n) <==> rules.kind(toks[start..n]).TypeBody?)
  {
  }

  lemma CloseStep(toks: seq<string>, rules: Rules, n: nat)
    requires n < |toks| && toks[n] == "}" && HeadAt(toks, rules, n).expr == 0 && ShapeAt(toks, rules, n).open != []
    ensures var s := ShapeAt(toks, rules, n);
            var top := s.open[|s.open| - 1];
            && HeadAt(toks, rules, n + 1) == Head(n + 1, 0)
            && ShapeAt(toks, rules, n + 1) ==
               Shape(s.open[..|s.open| - 1], if top.isType then s.done + [SpanOf(top, n)] else s.done, s.ordinal)
    ensures !OpensType(toks, rules, n)
  {
  }

  lemma CloseKeeps(toks: seq<string>, rules: Rules, n: nat)
    requires n < |toks| && ShapeOk(toks, rules, n)
    requires toks[n] == "}" && HeadAt(toks, rules, n).expr == 0 && ShapeAt(toks, rules, n).open != []
    ensures ShapeOk(toks, rules, n + 1)
  {
    hide ShapeAt, HeadAt, ScopesOk, SpansOk, SpanOk, AllTaken, OpensType, Depth, DepthsOk, MixOk, Matches;
    CloseStep(toks, rules, n);
    var s, t := ShapeAt(toks, rules, n), ShapeAt(toks, rules, n + 1);
    var h := HeadAt(toks, rules, n);
    var top := s.open[|s.open| - 1];
    var d := SpanOf(top, n);
    DepthsPop(toks, s.open, n);
    ScopesPop(toks, rules, s.open, h.start, n);
    MixPop(toks, rules, s.done, s.open, h.start, d);
    if top.isType {
      TopCloses(toks, rules, n, s.open, h.start, d);
      SpansPush(toks, rules, s.done, s.open, top, d, h.start);
      assert t.done == s.done + [d] && |t.done| != |s.done|;
    } else {
      SpansLater(toks, rules, s.done, h.start, n + 1);
    }
    TakenPop(toks, rules, s, t, n);
  }

  lemma NothingYet(toks: seq<string>, rules: Rules)
    ensures ShapeOk(toks, rules, 0)
  {
  }

  lemma {:induction false} ShapeHolds(toks: seq<string>, rules: Rules, n: nat)
    requires n <= |toks|
    ensures ShapeOk(toks, rules, n)
  {
    if n == 0 {
      NothingYet(toks, rules);
    } else {
      hide ShapeOk, ShapeAt, HeadAt, OpensType;
      var h, t := HeadAt(toks, rules, n - 1), toks[n - 1];
      ShapeHolds(toks, rules, n - 1);
      if Extends(toks, rules, h, n - 1) {
        ExtendStep(toks, rules, n - 1);
        StayKeeps(toks, rules, n - 1);
      } else if t == "{" {
        OpenKeeps(toks, rules, n - 1);
      } else if t == "}" && ShapeAt(toks, rules, n - 1).open != [] {
        CloseKeeps(toks, rules, n - 1);
      } else {
        EndStep(toks, rules, n - 1);
        StayKeeps(toks, rules, n - 1);
      }
    }
  }

  // ------------------------------------------------------------------- theorems

  /** The definitions read from a text are exactly the matched bodies of the heads read as types,
      each with its whole head; two of them are apart, or one lies in the other's body and says
      that it is nested. */
  lemma DefinitionsAreExact(toks: seq<string>, rules: Rules)
    ensures var done := ShapeAt(toks, rules, |toks|).done;
            && (forall d | d in done :: IsHead(toks, d.start, d.body) && Matches(toks, d.body, d.close))
            && (forall b: nat, c: nat ::
                  OpensType(toks, rules, b) && Matches(toks, b, c) <==> IsDone(done, b, c))
            && (forall k, l | 0 <= k < l < |done| :: Apart(done[k], done[l]))
  {
    hide *;
    var done := ShapeAt(toks, rules, |toks|).done;
    forall d | d in done ensures IsHead(toks, d.start, d.body) && Matches(toks, d.body, d.close) {
      DoneIsWhole(toks, rules, d);
    }
    forall b: nat, c: nat
      ensures OpensType(toks, rules, b) && Matches(toks, b, c) <==> IsDone(done, b, c)
    {
      DoneExactly(toks, rules, b, c);
    }
    forall k, l | 0 <= k < l < |done| ensures Apart(done[k], done[l]) { DoneAreApart(toks, rules, k, l); }
  }

  lemma DoneIsWhole(toks: seq<string>, rules: Rules, d: Span)
    requires d in ShapeAt(toks, rules, |toks|).done
    ensures SpanOk(toks, rules, d) && IsHead(toks, d.start, d.body) && Matches(toks, d.body, d.close)
  {
    hide ShapeAt, HeadAt, Depth, OpensType, ScopesOk, DepthsOk, MixOk, AllTaken, EndsHead, IsBoundary;
    ShapeHolds(toks, rules, |toks|);
    var done := ShapeAt(toks, rules, |toks|).done;
    var k :| 0 <= k < |done| && done[k] == d;
    HeadIsWhole(toks, rules, d.body);
  }

  lemma DoneAreApart(toks: seq<string>, rules: Rules, k: nat, l: nat)
    requires k < l < |ShapeAt(toks, rules, |toks|).done|
    ensures Apart(ShapeAt(toks, rules, |toks|).done[k], ShapeAt(toks, rules, |toks|).done[l])
  {
    hide ShapeAt, SpanOk, ScopesOk, DepthsOk, MixOk, AllTaken;
    ShapeHolds(toks, rules, |toks|);
  }

  lemma DoneExactly(toks: seq<string>, rules: Rules, b: nat, c: nat)
    ensures OpensType(toks, rules, b) && Matches(toks, b, c) <==> IsDone(ShapeAt(toks, rules, |toks|).done, b, c)
  {
    hide ShapeAt, Matches, OpensType, ShapeOk;
    ShapeHolds(toks, rules, |toks|);
    var s := ShapeAt(toks, rules, |toks|);
    if IsDone(s.done, b, c) {
      var d :| d in s.done && d.body == b && d.close == c;
      DoneIsWhole(toks, rules, d);
    } else if OpensType(toks, rules, b) && Matches(toks, b, c) {
      MatchedIsDone(toks, rules, s, b, c);
    }
  }

  predicate IsDone(done: seq<Span>, b: nat, c: nat) {
    exists d | d in done :: d.body == b && d.close == c
  }

  lemma MatchedIsDone(toks: seq<string>, rules: Rules, s: Shape, b: nat, c: nat)
    requires s == ShapeAt(toks, rules, |toks|) && ShapeOk(toks, rules, |toks|)
    requires OpensType(toks, rules, b) && Matches(toks, b, c)
    ensures IsDone(s.done, b, c)
  {
    hide ShapeAt, HeadAt, OpensType, ScopesOk;
    forall i | 0 <= i < |s.open| ensures !Matches(toks, s.open[i].body, c) {
      OpenIsUnmatched(toks, s.open, HeadAt(toks, rules, |toks|).expr, i, c);
    }
    assert b < |toks| && IsTaken(s, b);
    var d :| d in s.done && d.body == b;
    assert SpanOk(toks, rules, d);
    OneMatch(toks, b, c, d.close);
  }

  lemma OpenIsUnmatched(toks: seq<string>, open: seq<Scope>, expr: nat, i: nat, c: nat)
    requires DepthsOk(toks, open, |toks|, expr) && i < |open|
    ensures !Matches(toks, open[i].body, c)
  {
  }

  lemma OneMatch(toks: seq<string>, b: nat, c: nat, c': nat)
    requires Matches(toks, b, c) && Matches(toks, b, c')
    ensures c == c'
  {
  }

  // ------------------------------------------------------------------- the parser

  class Accumulator {
    var toks: seq<string>

    constructor (init: seq<string>)
      ensures toks == init
    {
      toks := init;
    }
  }

  /** A frame of the scope stack; a type frame shares its accumulator with the parser's list. */
  datatype Frame =
    | TypeFrame(key: string, name: string, line: nat, acc: Accumulator, scopeKey: string, nested: bool)
    | ScopeFrame(name: string)

  datatype Definition = Definition(first: nat, last: nat, text: seq<string>, scopeKey: string, nested: bool)

  function AccsOf(stack: seq<Frame>): seq<Accumulator> {
    if stack == [] then [] else
      var f := stack[|stack| - 1];
      AccsOf(stack[..|stack| - 1]) + (if f.TypeFrame? then [f.acc] else [])
  }

  function KeyOf(name: Name): string {
    if name.ordinal == 1 then name.scopeKey else name.scopeKey + "#" + Decimal(name.ordinal)
  }

  predicate Within(toks: seq<string>, done: seq<Span>) {
    forall d | d in done :: d.start <= d.close < |toks|
  }

  /** What the definitions map holds: each definition under its key, later ones on top. */
  function Recorded(toks: seq<string>, lines: seq<nat>, done: seq<Span>): map<string, Definition>
    requires |lines| == |toks| && Within(toks, done)
  {
    if done == [] then map[] else
      var k := |done| - 1;
      assert done == done[..k] + [done[k]];
      Recorded(toks, lines, done[..k])[KeyOf(done[k].name) := DefinitionOf(toks, lines, done[k])]
  }

  function DefinitionOf(toks: seq<string>, lines: seq<nat>, d: Span): Definition
    requires |lines| == |toks| && d.start <= d.close < |toks|
  {
    Definition(lines[d.start], lines[d.close], toks[d.start..d.close + 1], d.name.scopeKey, d.nested)
  }

  lemma RecordPush(toks: seq<string>, lines: seq<nat>, done: seq<Span>, d: Span)
    requires |lines| == |toks| && d.start <= d.close < |toks| && Within(toks, done)
    ensures Within(toks, done + [d])
    ensures Recorded(toks, lines, done + [d]) ==
            Recorded(toks, lines, done)[KeyOf(d.name) := DefinitionOf(toks, lines, d)]
  {
    assert (done + [d])[..|done|] == done;
  }

  predicate Distinct(accs: seq<Accumulator>) {
    forall i, j | 0 <= i < j < |accs| :: accs[i] != accs[j]
  }

  /** Append `t` to every open accumulator. */
  method AppendAll(accs: seq<Accumulator>, t: string)
    requires Distinct(accs)
    modifies accs
    ensures forall a | a in accs :: a.toks == old(a.toks) + [t]
  {
    for i := 0 to |accs|
      invariant forall j | 0 <= j < i :: accs[j].toks == old(accs[j].toks) + [t]
      invariant forall j | i <= j < |accs| :: accs[j].toks == old(accs[j].toks)
    {
      accs[i].toks := accs[i].toks + [t];
    }
  }

  lemma {:induction false} AccsHold(stack: seq<Frame>)
    ensures forall i | 0 <= i < |stack| && stack[i].TypeFrame? :: stack[i].acc in AccsOf(stack)
    ensures forall a | a in AccsOf(stack) :: exists i :: 0 <= i < |stack| && stack[i].TypeFrame? && stack[i].acc == a
  {
    if stack != [] {
      var n := |stack| - 1;
      AccsHold(stack[..n]);
      forall a | a in AccsOf(stack) ensures exists i :: 0 <= i < |stack| && stack[i].TypeFrame? && stack[i].acc == a {
        if a in AccsOf(stack[..n]) {
          var i :| 0 <= i < n && stack[..n][i].TypeFrame? && stack[..n][i].acc == a;
          assert stack[i].acc == a;
        } else {
          assert stack[n].acc == a;
        }
      }
    }
  }

  /** The frame of a scope whose accumulator is up to token `m`. */
  ghost predicate Fits(toks: seq<string>, lines: seq<nat>, f: Frame, c: Scope, m: nat)
    requires m <= |toks| == |lines|
    reads if f.TypeFrame? then {f.acc} else {}
  {
    && (f.TypeFrame? <==> c.isType) && f.name == c.tag
    && (f.TypeFrame? ==>
          && f.key == KeyOf(c.name) && f.scopeKey == c.name.scopeKey
          && c.start < m && f.acc.toks == toks[c.start..m]
          && f.line == lines[c.start] && f.nested == c.nested)
  }

  /** The accumulators are those of the type frames, one each, and hold the text since the
      first token of the frame's head, up to token `m`. */
  ghost predicate FramesFit(toks: seq<string>, lines: seq<nat>, stack: seq<Frame>, accs: seq<Accumulator>, open: seq<Scope>, m: nat)
    reads accs
  {
    && m <= |toks| == |lines| && |stack| == |open|
    && accs == AccsOf(stack) && Distinct(accs)
    && forall i | 0 <= i < |stack| ::
         (stack[i].TypeFrame? ==> stack[i].acc in accs) && Fits(toks, lines, stack[i], open[i], m)
  }

  lemma FitPush(toks: seq<string>, lines: seq<nat>, stack: seq<Frame>, accs: seq<Accumulator>, open: seq<Scope>, m: nat, f: Frame, c: Scope)
    requires FramesFit(toks, lines, stack, accs, open, m) && Fits(toks, lines, f, c, m)
    requires f.TypeFrame? ==> f.acc !in accs
    ensures FramesFit(toks, lines, stack + [f], if f.TypeFrame? then accs + [f.acc] else accs, open + [c], m)
  {
    hide Fits;
    var all := stack + [f];
    assert all[..|all| - 1] == stack;
    assert accs + [] == accs;
  }

  lemma FitPop(toks: seq<string>, lines: seq<nat>, stack: seq<Frame>, accs: seq<Accumulator>, open: seq<Scope>, m: nat)
    requires FramesFit(toks, lines, stack, accs, open, m) && stack != []
    ensures var f := stack[|stack| - 1];
            && |open| == |stack| && (f.TypeFrame? ==> accs != [] && accs[|accs| - 1] == f.acc)
            && Fits(toks, lines, f, open[|open| - 1], m)
            && FramesFit(toks, lines, stack[..|stack| - 1], if f.TypeFrame? then accs[..|accs| - 1] else accs, open[..|open| - 1], m)
  {
    hide Fits;
    AccsHold(stack[..|stack| - 1]);
    var f := stack[|stack| - 1];
    var below := AccsOf(stack[..|stack| - 1]);
    assert below + [] == below;
    assert f.TypeFrame? ==> accs[..|accs| - 1] == below;
  }

  /** What a type frame holds when its body closes is the definition. */
  lemma FrameIsDefinition(toks: seq<string>, lines: seq<nat>, f: Frame, c: Scope, n: nat)
    requires n < |toks| == |lines| && Fits(toks, lines, f, c, n + 1) && f.TypeFrame?
    ensures c.isType && c.start <= n && f.key == KeyOf(c.name)
    ensures DefinitionOf(toks, lines, SpanOf(c, n)) ==
            Definition(f.line, lines[n], f.acc.toks, f.scopeKey, f.nested)
  {
  }

  lemma ScopeIsNoType(toks: seq<string>, lines: seq<nat>, f: Frame, c: Scope, m: nat)
    requires m <= |toks| == |lines| && Fits(toks, lines, f, c, m) && !f.TypeFrame?
    ensures !c.isType
  {
  }

  class Parser {
    const toks: seq<string>
    const lines: seq<nat>
    const rules: Rules
    var stack: seq<Frame>
    var head: seq<string>
    var headLine: nat
    var expr: nat
    var accs: seq<Accumulator>
    var ordinal: map<string, nat>
    var defs: map<string, Definition>

    constructor (toks: seq<string>, lines: seq<nat>, rules: Rules)
      requires |lines| == |toks| && !rules.kind([]).TypeBody?
      ensures this.toks == toks && this.lines == lines && this.rules == rules
      ensures Holds(0, 0) && accs == []
    {
      this.toks, this.lines, this.rules := toks, lines, rules;
      stack, head, headLine, expr, accs, ordinal, defs := [], [], 0, 0, [], map[], map[];
    }

    ghost predicate HeadHolds(n: nat)
      reads this
    {
      && n <= |toks| == |lines| && |head| <= n && head == toks[n - |head|..n]
      && HeadAt(toks, rules, n) == Head(n - |head|, expr)
      && (head != [] ==> headLine == lines[n - |head|])
    }

    ghost predicate DefsHold(n: nat)
      reads this
    {
      && n <= |toks| == |lines|
      && var done := ShapeAt(toks, rules, n).done;
      && Within(toks, done) && defs == Recorded(toks, lines, done)
    }

    /** After `n` tokens, the accumulators having `m`. */
    ghost predicate Holds(n: nat, m: nat)
      reads this, accs
    {
      && HeadHolds(n) && FramesFit(toks, lines, stack, accs, ShapeAt(toks, rules, n).open, m) && DefsHold(n)
      && ordinal == ShapeAt(toks, rules, n).ordinal && !rules.kind([]).TypeBody?
    }

    /** Name the definition that opens with this name in the scopes on the stack. */
    method NewName(name: string) returns (key: string, scopeKey: string)
      modifies this`ordinal
      ensures scopeKey == ScopeKey(NamesOf(stack), name) && key == KeyOf(NextName(old(ordinal), scopeKey))
      ensures ordinal == old(ordinal)[scopeKey := NextName(old(ordinal), scopeKey).ordinal]
    {
      var path := PathOf(NamesOf(stack));
      scopeKey := if path == "" then name else path + "::" + name;
      var k := LastOrdinal(ordinal, scopeKey) + 1;
      ordinal := ordinal[scopeKey := k];
      key := if k == 1 then scopeKey else scopeKey + "#" + Decimal(k);
    }

    /** Bring every accumulator up to token `n`. */
    method AppendToken(n: nat)
      requires Holds(n, n) && n < |toks|
      modifies accs
      ensures Holds(n, n + 1)
    {
      hide ShapeAt, HeadAt, Recorded;
      ghost var open := ShapeAt(toks, rules, n).open;
      AppendAll(accs, toks[n]);
      forall i | 0 <= i < |stack| && stack[i].TypeFrame?
        ensures Fits(toks, lines, stack[i], open[i], n + 1)
      {
        assert stack[i].acc in accs;
        assert toks[open[i].start..n + 1] == toks[open[i].start..n] + [toks[n]];
      }
    }

    /** A token that ends a head and closes nothing. */
    method EndHead(n: nat)
      requires Holds(n, n + 1) && n < |toks| && expr == 0
      requires toks[n] == ";" || (toks[n] == "}" && stack == [])
      modifies this
      ensures Holds(n + 1, n + 1) && accs == old(accs)
    {
      hide ShapeAt, HeadAt, Recorded, Fits;
      EndStep(toks, rules, n);
      head := [];
    }

    /** A token of the head: an ordinary one, or any inside expression braces. */
    method Extend(n: nat)
      requires Holds(n, n + 1) && n < |toks|
      requires Extends(toks, rules, Head(n - |head|, expr), n)
      modifies this
      ensures Holds(n + 1, n + 1) && accs == old(accs)
    {
      hide ShapeAt, HeadAt, Recorded, FramesFit;
      ExtendStep(toks, rules, n);
      assert head + [toks[n]] == toks[n - |head|..n + 1];
      if head == [] { headLine := lines[n]; }
      head := head + [toks[n]];
      if toks[n] == "{" { expr := expr + 1; } else if toks[n] == "}" { expr := expr - 1; }
    }

    method CloseScope(n: nat)
      requires Holds(n, n + 1) && n < |toks| && toks[n] == "}" && expr == 0
      requires stack != [] && stack[|stack| - 1].ScopeFrame?
      modifies this
      ensures Holds(n + 1, n + 1) && accs == old(accs)
    {
      hide ShapeAt, HeadAt, Recorded, FramesFit, Fits;
      ghost var s := ShapeAt(toks, rules, n);
      FitPop(toks, lines, stack, accs, s.open, n + 1);
      CloseStep(toks, rules, n);
      ScopeIsNoType(toks, lines, stack[|stack| - 1], s.open[|s.open| - 1], n + 1);
      stack, head := stack[..|stack| - 1], [];
    }

    method CloseType(n: nat)
      requires Holds(n, n + 1) && n < |toks| && toks[n] == "}" && expr == 0
      requires stack != [] && stack[|stack| - 1].TypeFrame?
      modifies this
      ensures Holds(n + 1, n + 1) && accs <= old(accs)
    {
      hide ShapeAt, HeadAt, Recorded, FramesFit, KeyOf, Fits, DefinitionOf;
      ghost var s := ShapeAt(toks, rules, n);
      var f := stack[|stack| - 1];
      FitPop(toks, lines, stack, accs, s.open, n + 1);
      CloseStep(toks, rules, n);
      ghost var top := s.open[|s.open| - 1];
      FrameIsDefinition(toks, lines, f, top, n);
      RecordPush(toks, lines, s.done, SpanOf(top, n));
      defs := defs[f.key := Definition(f.line, lines[n], f.acc.toks, f.scopeKey, f.nested)];
      stack, accs, head := stack[..|stack| - 1], accs[..|accs| - 1], [];
    }

    /** One token of `parse`. */
    method Feed(n: nat)
      requires Holds(n, n) && n < |toks|
      modifies this, accs
      ensures Holds(n + 1, n + 1)
      ensures forall a | a in accs :: a in old(accs) || fresh(a)
    {
      var t := toks[n];
      hide ShapeAt, HeadAt, Recorded, FramesFit;
      AppendToken(n);
      if expr > 0 {
        Extend(n);
      } else if t == "{" {
        var kind := rules.kind(head);
        if kind.Expression? {
          Extend(n);
        } else if kind.TypeBody? {
          var name := kind.name;
          if name == "" { name := rules.anonymous(n); }
          OpenType(n, name);
        } else {
          var name := "{" + Joined(head) + "}";
          if kind.Namespace? { name := kind.name; }
          OpenScope(n, name);
        }
      } else if t == "}" && stack != [] {
        if stack[|stack| - 1].TypeFrame? { CloseType(n); } else { CloseScope(n); }
      } else if t == "}" || t == ";" {
        EndHead(n);
      } else {
        Extend(n);
      }
    }

    method OpenScope(n: nat, name: string)
      requires Holds(n, n + 1) && n < |toks| && toks[n] == "{" && expr == 0
      requires !rules.kind(head).TypeBody? && !rules.kind(head).Expression? && name == TagOf(rules, head, n)
      modifies this
      ensures Holds(n + 1, n + 1) && accs == old(accs)
    {
      hide ShapeAt, HeadAt, FramesFit, Recorded, AnyType, TagOf, ScopeKey, TagsOf;
      ghost var s := ShapeAt(toks, rules, n);
      OpenStep(toks, rules, n);
      FitPush(toks, lines, stack, accs, s.open, n + 1, ScopeFrame(name), NewScope(toks, rules, s, n - |head|, n));
      stack := stack + [ScopeFrame(name)];
      head := [];
    }

    method OpenType(n: nat, name: string)
      requires Holds(n, n + 1) && n < |toks| && toks[n] == "{" && expr == 0
      requires rules.kind(head).TypeBody? && name == TagOf(rules, head, n)
      modifies this
      ensures Holds(n + 1, n + 1)
      ensures |accs| == |old(accs)| + 1 && accs[..|old(accs)|] == old(accs) && fresh(accs[|old(accs)|])
    {
      hide ShapeAt, HeadAt, FramesFit, Recorded, AnyType, InType, KeyOf, NextName, TagOf, ScopeKey, TagsOf, NamesOf;
      ghost var s := ShapeAt(toks, rules, n);
      OpenStep(toks, rules, n);
      var nested := InType(stack);
      SameNested(toks, lines, stack, accs, s.open, n + 1);
      var key, scopeKey := NewName(name);
      NextNameIs(old(ordinal), scopeKey);
      var acc := new Accumulator(head + ["{"]);
      assert head + ["{"] == toks[n - |head|..n + 1];
      var f := TypeFrame(key, name, headLine, acc, scopeKey, nested);
      FitPush(toks, lines, stack, accs, s.open, n + 1, f, NewScope(toks, rules, s, n - |head|, n));
      accs := accs + [acc];
      stack := stack + [f];
      head := [];
    }
  }

  lemma NextNameIs(ordinal: map<string, nat>, scopeKey: string)
    ensures NextName(ordinal, scopeKey).scopeKey == scopeKey
  {
  }

  function NamesOf(stack: seq<Frame>): seq<string> {
    seq(|stack|, i requires 0 <= i < |stack| => stack[i].name)
  }

  predicate InType(stack: seq<Frame>) {
    exists f | f in stack :: f.TypeFrame?
  }

  lemma SameNested(toks: seq<string>, lines: seq<nat>, stack: seq<Frame>, accs: seq<Accumulator>, open: seq<Scope>, m: nat)
    requires FramesFit(toks, lines, stack, accs, open, m)
    ensures (InType(stack) <==> AnyType(open)) && NamesOf(stack) == TagsOf(open)
  {
    if AnyType(open) {
      var i :| 0 <= i < |open| && open[i].isType;
      assert stack[i] in stack;
    }
    if InType(stack) {
      var i :| 0 <= i < |stack| && stack[i].TypeFrame?;
      assert open[i] in open;
    }
  }

  /** `parse` over the tokens: the map holds the definitions of the text under the keys their
      scopes and names give them, each with exactly the tokens from the first of its head to the
      brace that closes its body. */
  method Parse(toks: seq<string>, lines: seq<nat>, rules: Rules) returns (defs: map<string, Definition>)
    requires |lines| == |toks| && !rules.kind([]).TypeBody?
    ensures var done := ShapeAt(toks, rules, |toks|).done;
            Within(toks, done) && defs == Recorded(toks, lines, done)
  {
    hide ShapeAt, HeadAt, Recorded, FramesFit, Within;
    var p := new Parser(toks, lines, rules);
    for n := 0 to |toks|
      invariant fresh(p) && (forall i | 0 <= i < |p.accs| :: fresh(p.accs[i]))
      invariant p.toks == toks && p.lines == lines && p.rules == rules
      invariant p.Holds(n, n)
    {
      ghost var before := p.accs;
      p.Feed(n);
      assert forall i | 0 <= i < |p.accs| :: p.accs[i] in p.accs && (p.accs[i] in before || fresh(p.accs[i]));
    }
    defs := p.defs;
  }

  // ------------------------------------------------------------------- names

  /** The name the definition whose body opens at `b` has in its scope. */
  function TagAt(toks: seq<string>, rules: Rules, b: nat): string
    requires b <= |toks|
  {
    TagOf(rules, toks[HeadAt(toks, rules, b).start..b], b)
  }

  /** A scope key is the tag itself, or ends with it after a `::`. */
  predicate IsKeyFor(key: string, tag: string) {
    key == tag || (|tag| + 2 <= |key| && key[|key| - |tag| - 2..] == "::" + tag)
  }

  /** A name was given: it is numbered, and its scope key ends with the name in its scope. */
  predicate Given(toks: seq<string>, rules: Rules, ordinal: map<string, nat>, name: Name, b: nat) {
    && b <= |toks| && 1 <= name.ordinal <= LastOrdinal(ordinal, name.scopeKey)
    && IsKeyFor(name.scopeKey, TagAt(toks, rules, b))
  }

  predicate OpenNames(toks: seq<string>, rules: Rules, s: Shape) {
    && (forall i | 0 <= i < |s.open| && s.open[i].isType :: Given(toks, rules, s.ordinal, s.open[i].name, s.open[i].body))
    && (forall i, j | 0 <= i < j < |s.open| && s.open[i].isType && s.open[j].isType :: s.open[i].name != s.open[j].name)
  }

  predicate DoneNames(toks: seq<string>, rules: Rules, s: Shape) {
    && (forall k | 0 <= k < |s.done| :: Given(toks, rules, s.ordinal, s.done[k].name, s.done[k].body))
    && (forall k, l | 0 <= k < l < |s.done| :: s.done[k].name != s.done[l].name)
  }

  predicate NamesApart(s: Shape) {
    forall i, k | 0 <= i < |s.open| && s.open[i].isType && 0 <= k < |s.done| :: s.open[i].name != s.done[k].name
  }

  predicate NamesOk(toks: seq<string>, rules: Rules, s: Shape) {
    OpenNames(toks, rules, s) && DoneNames(toks, rules, s) && NamesApart(s)
  }

  lemma GivenStays(toks: seq<string>, rules: Rules, ordinal: map<string, nat>, key: string, name: Name, b: nat)
    requires Given(toks, rules, ordinal, name, b)
    ensures Given(toks, rules, ordinal[key := NextName(ordinal, key).ordinal], name, b)
    ensures name != NextName(ordinal, key)
  {
    hide IsKeyFor, TagAt;
  }

  lemma KeyForTag(tags: seq<string>, tag: string)
    ensures IsKeyFor(ScopeKey(tags, tag), tag)
  {
    hide PathOf;
    var key := ScopeKey(tags, tag);
    if PathOf(tags) != "" { assert key == PathOf(tags) + ("::" + tag); }
  }

  lemma NamesOpen(toks: seq<string>, rules: Rules, s: Shape, n: nat)
    requires n < |toks| && NamesOk(toks, rules, s)
    ensures NamesOk(toks, rules, Opened(s, NewScope(toks, rules, s, HeadAt(toks, rules, n).start, n)))
  {
    hide Given, HeadAt, ScopeKey, TagsOf, AnyType, TagOf;
    var c := NewScope(toks, rules, s, HeadAt(toks, rules, n).start, n);
    var t := Opened(s, c);
    if c.isType {
      var key := c.name.scopeKey;
      NewIsGiven(toks, rules, s, n);
      forall i | 0 <= i < |s.open| && s.open[i].isType
        ensures Given(toks, rules, t.ordinal, s.open[i].name, s.open[i].body) && s.open[i].name != c.name
      {
        GivenStays(toks, rules, s.ordinal, key, s.open[i].name, s.open[i].body);
      }
      forall k | 0 <= k < |s.done|
        ensures Given(toks, rules, t.ordinal, s.done[k].name, s.done[k].body) && s.done[k].name != c.name
      {
        GivenStays(toks, rules, s.ordinal, key, s.done[k].name, s.done[k].body);
      }
    }
  }

  lemma NewIsGiven(toks: seq<string>, rules: Rules, s: Shape, n: nat)
    requires n < |toks|
    ensures var c := NewScope(toks, rules, s, HeadAt(toks, rules, n).start, n);
            c.isType ==>
              && c.name == NextName(s.ordinal, c.name.scopeKey)
              && Given(toks, rules, s.ordinal[c.name.scopeKey := c.name.ordinal], c.name, n)
  {
    hide HeadAt, ScopeKey, TagsOf, AnyType, TagOf, IsKeyFor;
    var c := NewScope(toks, rules, s, HeadAt(toks, rules, n).start, n);
    KeyForTag(TagsOf(s.open), c.tag);
  }

  lemma NamesClose(toks: seq<string>, rules: Rules, s: Shape, n: nat)
    requires NamesOk(toks, rules, s) && s.open != []
    ensures var top := s.open[|s.open| - 1];
            NamesOk(toks, rules, Shape(s.open[..|s.open| - 1], if top.isType then s.done + [SpanOf(top, n)] else s.done, s.ordinal))
  {
    hide Given;
  }

  lemma NoNamesYet(toks: seq<string>, rules: Rules)
    ensures NamesOk(toks, rules, ShapeAt(toks, rules, 0))
  {
  }

  /** Every definition is named in its scope, and no two have one name. */
  lemma {:induction false} NamesHold(toks: seq<string>, rules: Rules, n: nat)
    requires n <= |toks|
    ensures NamesOk(toks, rules, ShapeAt(toks, rules, n))
  {
    hide NamesOk, HeadAt, ShapeAt, NewScope, Opened, OpensType, SpanOf;
    if n > 0 {
      NamesHold(toks, rules, n - 1);
      var s, h, t := ShapeAt(toks, rules, n - 1), HeadAt(toks, rules, n - 1), toks[n - 1];
      if Extends(toks, rules, h, n - 1) {
        ExtendStep(toks, rules, n - 1);
      } else if t == "{" {
        OpenStep(toks, rules, n - 1);
        NamesOpen(toks, rules, s, n - 1);
      } else if t == "}" && s.open != [] {
        CloseStep(toks, rules, n - 1);
        NamesClose(toks, rules, s, n - 1);
      } else {
        EndStep(toks, rules, n - 1);
      }
    } else {
      NoNamesYet(toks, rules);
    }
  }

  // ------------------------------------------------------------------- names, exactly

  /** The scope key of the type that opens at `b`. */
  function KeyAt(toks: seq<string>, rules: Rules, b: nat): string
    requires b <= |toks|
  {
    ScopeKey(TagsOf(ShapeAt(toks, rules, b).open), TagAt(toks, rules, b))
  }

  /** How many types with this scope key open before token `n`. */
  function Earlier(toks: seq<string>, rules: Rules, key: string, n: nat): nat
    requires n <= |toks|
  {
    if n == 0 then 0
    else Earlier(toks, rules, key, n - 1) + if OpensType(toks, rules, n - 1) && KeyAt(toks, rules, n - 1) == key then 1 else 0
  }

  ghost predicate IsNamed(toks: seq<string>, rules: Rules, name: Name, b: nat) {
    b < |toks| && name == Name(KeyAt(toks, rules, b), Earlier(toks, rules, KeyAt(toks, rules, b), b) + 1)
  }

  ghost predicate CountsOk(toks: seq<string>, rules: Rules, s: Shape, n: nat)
    requires n <= |toks|
  {
    && (forall key :: LastOrdinal(s.ordinal, key) == Earlier(toks, rules, key, n))
    && (forall i | 0 <= i < |s.open| && s.open[i].isType :: IsNamed(toks, rules, s.open[i].name, s.open[i].body))
    && (forall k | 0 <= k < |s.done| :: IsNamed(toks, rules, s.done[k].name, s.done[k].body))
  }

  lemma CountsOpen(toks: seq<string>, rules: Rules, n: nat)
    requires n < |toks| && toks[n] == "{" && HeadAt(toks, rules, n).expr == 0
    requires !rules.kind(toks[HeadAt(toks, rules, n).start..n]).Expression?
    requires CountsOk(toks, rules, ShapeAt(toks, rules, n), n)
    ensures CountsOk(toks, rules, ShapeAt(toks, rules, n + 1), n + 1)
  {
    hide HeadAt, ShapeAt, ScopeKey, TagsOf, AnyType, TagOf, OpensType, IsNamed;
    var s := ShapeAt(toks, rules, n);
    var start := HeadAt(toks, rules, n).start;
    OpenStep(toks, rules, n);
    var c := NewScope(toks, rules, s, start, n);
    if c.isType {
      assert TagAt(toks, rules, n) == c.tag;
      assert c.name == Name(KeyAt(toks, rules, n), Earlier(toks, rules, KeyAt(toks, rules, n), n) + 1);
      NewIsNamed(toks, rules, n, c.name);
      forall key ensures LastOrdinal(Opened(s, c).ordinal, key) == Earlier(toks, rules, key, n + 1) {
        assert LastOrdinal(s.ordinal, key) == Earlier(toks, rules, key, n);
      }
    } else {
      forall key ensures LastOrdinal(Opened(s, c).ordinal, key) == Earlier(toks, rules, key, n + 1) {
        assert LastOrdinal(s.ordinal, key) == Earlier(toks, rules, key, n);
      }
    }
  }

  lemma NewIsNamed(toks: seq<string>, rules: Rules, n: nat, name: Name)
    requires n < |toks| && name == Name(KeyAt(toks, rules, n), Earlier(toks, rules, KeyAt(toks, rules, n), n) + 1)
    ensures IsNamed(toks, rules, name, n)
  {
    hide KeyAt, Earlier;
  }

  lemma {:induction false} CountsHold(toks: seq<string>, rules: Rules, n: nat)
    requires n <= |toks|
    ensures CountsOk(toks, rules, ShapeAt(toks, rules, n), n)
  {
    hide HeadAt, ShapeAt, OpensType, IsNamed, KeyAt;
    if n == 0 {
      NoShapeYet(toks, rules);
    } else {
      CountsHold(toks, rules, n - 1);
      var s, h, t := ShapeAt(toks, rules, n - 1), HeadAt(toks, rules, n - 1), toks[n - 1];
      if Extends(toks, rules, h, n - 1) {
        ExtendStep(toks, rules, n - 1);
      } else if t == "{" {
        CountsOpen(toks, rules, n - 1);
      } else if t == "}" && s.open != [] {
        CloseStep(toks, rules, n - 1);
        CountsClose(toks, rules, s, n - 1);
      } else {
        EndStep(toks, rules, n - 1);
      }
    }
  }

  lemma CountsClose(toks: seq<string>, rules: Rules, s: Shape, n: nat)
    requires n < |toks| && CountsOk(toks, rules, s, n) && s.open != [] && !OpensType(toks, rules, n)
    ensures var top := s.open[|s.open| - 1];
            CountsOk(toks, rules, Shape(s.open[..|s.open| - 1], if top.isType then s.done + [SpanOf(top, n)] else s.done, s.ordinal), n + 1)
  {
    hide OpensType, IsNamed, KeyAt;
    var top := s.open[|s.open| - 1];
    assert top.isType ==> IsNamed(toks, rules, top.name, top.body);
  }

  lemma NoShapeYet(toks: seq<string>, rules: Rules)
    ensures ShapeAt(toks, rules, 0) == Shape([], [], map[])
  {
  }

  /** A definition is named by the path of the scopes open where its body opens, its own name
      there, and which one of that scope key it is: one more than the types that opened before. */
  lemma NamesExactly(toks: seq<string>, rules: Rules, d: Span)
    requires d in ShapeAt(toks, rules, |toks|).done
    ensures d.body < |toks| && d.name.scopeKey == KeyAt(toks, rules, d.body)
    ensures d.name.ordinal == Earlier(toks, rules, KeyAt(toks, rules, d.body), d.body) + 1
  {
    hide ShapeAt, KeyAt, Earlier;
    CountsHold(toks, rules, |toks|);
    var done := ShapeAt(toks, rules, |toks|).done;
    var k :| 0 <= k < |done| && done[k] == d;
    assert IsNamed(toks, rules, done[k].name, done[k].body);
  }

  /** A `{` that opens a scope of any kind, read outside expression braces. */
  predicate OpensScope(toks: seq<string>, rules: Rules, b: nat) {
    && b < |toks| && toks[b] == "{" && HeadAt(toks, rules, b).expr == 0
    && !rules.kind(toks[HeadAt(toks, rules, b).start..b]).Expression?
  }

  /** The brace at `b` is not closed before token `n`. */
  predicate IsUnclosed(toks: seq<string>, b: nat, n: nat)
    requires n <= |toks|
  {
    b < n && forall m | b < m <= n :: Depth(toks, b, m) > 0
  }

  predicate IsListed(open: seq<Scope>, b: nat) { exists i | 0 <= i < |open| :: open[i].body == b }

  ghost predicate AllListed(toks: seq<string>, rules: Rules, n: nat)
    requires n <= |toks|
  {
    forall b: nat | b < n && OpensScope(toks, rules, b) && IsUnclosed(toks, b, n) :: IsListed(ShapeAt(toks, rules, n).open, b)
  }

  lemma UnclosedBefore(toks: seq<string>, b: nat, n: nat)
    requires n < |toks| && b < n && IsUnclosed(toks, b, n + 1)
    ensures IsUnclosed(toks, b, n)
  {
    hide Depth;
  }

  lemma {:induction false} UnclosedAreListed(toks: seq<string>, rules: Rules, n: nat)
    requires n <= |toks|
    ensures AllListed(toks, rules, n)
  {
    hide HeadAt, ShapeAt, OpensType, OpensScope, IsUnclosed;
    if n > 0 {
      UnclosedAreListed(toks, rules, n - 1);
      var s, h, t := ShapeAt(toks, rules, n - 1), HeadAt(toks, rules, n - 1), toks[n - 1];
      forall b: nat | b < n && OpensScope(toks, rules, b) && IsUnclosed(toks, b, n) ensures IsListed(ShapeAt(toks, rules, n).open, b) {
        if b < n - 1 { UnclosedBefore(toks, b, n - 1); }
        ListedStep(toks, rules, n - 1, b);
      }
    }
  }

  lemma ListedStep(toks: seq<string>, rules: Rules, n: nat, b: nat)
    requires n < |toks| && b <= n && OpensScope(toks, rules, b) && IsUnclosed(toks, b, n + 1)
    requires b < n ==> IsListed(ShapeAt(toks, rules, n).open, b)
    ensures IsListed(ShapeAt(toks, rules, n + 1).open, b)
  {
    hide HeadAt, ShapeAt, OpensType, Depth, AnyType, TagOf;
    var s, h, t := ShapeAt(toks, rules, n), HeadAt(toks, rules, n), toks[n];
    if Extends(toks, rules, h, n) {
      ExtendStep(toks, rules, n);
    } else if t == "{" {
      OpenStep(toks, rules, n);
      var c := NewScope(toks, rules, s, h.start, n);
      var open := s.open + [c];
      if b == n {
        assert open[|open| - 1].body == b;
      } else {
        var i :| 0 <= i < |s.open| && s.open[i].body == b;
        assert open[i].body == b;
      }
    } else if t == "}" && s.open != [] {
      CloseStep(toks, rules, n);
      var i :| 0 <= i < |s.open| && s.open[i].body == b;
      ClosesTop(toks, rules, n);
      assert i < |s.open| - 1;
      assert s.open[..|s.open| - 1][i].body == b;
    } else {
      EndStep(toks, rules, n);
    }
  }

  /** Closing a scope closes its brace. */
  lemma ClosesTop(toks: seq<string>, rules: Rules, n: nat)
    requires n < |toks| && toks[n] == "}" && HeadAt(toks, rules, n).expr == 0 && ShapeAt(toks, rules, n).open != []
    ensures var open := ShapeAt(toks, rules, n).open;
            open[|open| - 1].body <= n && Depth(toks, open[|open| - 1].body, n + 1) == 0
  {
    hide HeadAt, ShapeAt;
    ShapeHolds(toks, rules, n);
    var open := ShapeAt(toks, rules, n).open;
    DepthStep(toks, open[|open| - 1].body, n);
  }

  lemma {:induction false} ListedOpen(toks: seq<string>, rules: Rules, n: nat, i: nat)
    requires n <= |toks| && i < |ShapeAt(toks, rules, n).open|
    ensures OpensScope(toks, rules, ShapeAt(toks, rules, n).open[i].body)
    decreases n
  {
    hide HeadAt, ShapeAt, OpensType, AnyType, TagOf;
    if n == 0 {
      NoShapeYet(toks, rules);
    } else {
      var s, h, t := ShapeAt(toks, rules, n - 1), HeadAt(toks, rules, n - 1), toks[n - 1];
      if i < |s.open| { ListedOpen(toks, rules, n - 1, i); }
      if Extends(toks, rules, h, n - 1) {
        ExtendStep(toks, rules, n - 1);
      } else if t == "{" {
        OpenStep(toks, rules, n - 1);
      } else if t == "}" && s.open != [] {
        CloseStep(toks, rules, n - 1);
      } else {
        EndStep(toks, rules, n - 1);
      }
    }
  }

  /** The scopes open at a token are exactly those of the braces around it, outermost first. */
  lemma OpenExactly(toks: seq<string>, rules: Rules, n: nat)
    requires n <= |toks|
    ensures var open := ShapeAt(toks, rules, n).open;
            && (forall b: nat :: IsListed(open, b) <==> b < n && OpensScope(toks, rules, b) && IsUnclosed(toks, b, n))
            && (forall i, j | 0 <= i < j < |open| :: open[i].body < open[j].body)
  {
    hide ShapeAt, HeadAt, OpensScope, SpansOk, MixOk, AllTaken, ScopeOk;
    UnclosedAreListed(toks, rules, n);
    ShapeHolds(toks, rules, n);
    var open := ShapeAt(toks, rules, n).open;
    forall i: nat | i < |open| ensures OpensScope(toks, rules, open[i].body) && open[i].start <= open[i].body {
      ListedOpen(toks, rules, n, i);
      ScopeStarts(toks, rules, open[i]);
    }
  }

  lemma ScopeStarts(toks: seq<string>, rules: Rules, s: Scope)
    requires ScopeOk(toks, rules, s)
    ensures s.start <= s.body
  {
  }

  // ------------------------------------------------------------------- how names are joined

  function JoinFrom(parts: seq<string>, mark: string): string {
    if parts == [] then "" else if |parts| == 1 then parts[0] else parts[0] + mark + JoinFrom(parts[1..], mark)
  }

  function NotEmpty(tags: seq<string>): seq<string> {
    if tags == [] then [] else (if tags[0] == "" then [] else [tags[0]]) + NotEmpty(tags[1..])
  }

  lemma {:induction false} JoinLast(parts: seq<string>, last: string, mark: string)
    ensures JoinFrom(parts + [last], mark) == if parts == [] then last else JoinFrom(parts, mark) + mark + last
  {
    if parts != [] {
      assert (parts + [last])[0] == parts[0] && (parts + [last])[1..] == parts[1..] + [last];
      JoinLast(parts[1..], last, mark);
      if |parts| == 1 { assert parts[1..] == []; }
    }
  }

  lemma {:induction false} NotEmptyLast(tags: seq<string>, last: string)
    ensures NotEmpty(tags + [last]) == NotEmpty(tags) + if last == "" then [] else [last]
  {
    if tags == [] {
      assert [last][1..] == [] && tags + [last] == [last];
    } else {
      assert (tags + [last])[0] == tags[0] && (tags + [last])[1..] == tags[1..] + [last];
      NotEmptyLast(tags[1..], last);
    }
  }

  lemma JoinHasText(parts: seq<string>, mark: string)
    requires (forall p | p in parts :: p != "") && parts != []
    ensures JoinFrom(parts, mark) != ""
  {
    assert parts[0] in parts;
  }

  lemma {:induction false} NotEmptyHolds(tags: seq<string>)
    ensures forall p | p in NotEmpty(tags) :: p != ""
  {
    if tags != [] { NotEmptyHolds(tags[1..]); }
  }

  /** A path is the tags of the scopes that have one, outermost first, with `::` between. */
  lemma {:induction false} PathIsJoined(tags: seq<string>)
    ensures PathOf(tags) == JoinFrom(NotEmpty(tags), "::")
  {
    if tags != [] {
      var n := |tags| - 1;
      var before, last := tags[..n], tags[n];
      assert tags == before + [last];
      PathIsJoined(before);
      NotEmptyLast(before, last);
      NotEmptyHolds(before);
      if last == "" {
        assert NotEmpty(before) + [] == NotEmpty(before);
      } else {
        JoinLast(NotEmpty(before), last, "::");
        if NotEmpty(before) != [] { JoinHasText(NotEmpty(before), "::"); }
      }
    }
  }

  /** A definition's scope key is its path and its name, with `::` between. */
  lemma ScopeKeyIsJoined(tags: seq<string>, tag: string)
    requires tag != ""
    ensures ScopeKey(tags, tag) == JoinFrom(NotEmpty(tags) + [tag], "::")
  {
    hide PathOf, JoinFrom, NotEmpty;
    PathIsJoined(tags);
    NotEmptyHolds(tags);
    JoinLast(NotEmpty(tags), tag, "::");
    if NotEmpty(tags) != [] { JoinHasText(NotEmpty(tags), "::"); } else { NoParts("::"); }
  }

  lemma NoParts(mark: string)
    ensures JoinFrom([], mark) == ""
  {
  }

  lemma {:induction false} SpacedIsJoined(head: seq<string>)
    ensures Spaced(head) == JoinFrom(head, " ")
  {
    if |head| > 1 {
      var n := |head| - 1;
      assert head == head[..n] + [head[n]];
      SpacedIsJoined(head[..n]);
      JoinLast(head[..n], head[n], " ");
    }
  }

  /** A scope that is no type and no namespace is tagged with its head, cut after 60 characters. */
  lemma OtherTag(rules: Rules, head: seq<string>, n: nat)
    requires rules.kind(head).Other? || rules.kind(head).Expression?
    ensures exists cut: string :: TagOf(rules, head, n) == "{" + cut + "}" && cut <= JoinFrom(head, " ")
                                  && |cut| == if |JoinFrom(head, " ")| <= 60 then |JoinFrom(head, " ")| else 60
  {
    hide Spaced, JoinFrom;
    SpacedIsJoined(head);
    var cut := Joined(head);
    assert TagOf(rules, head, n) == "{" + cut + "}";
  }

  // ------------------------------------------------------------------- keys

  predicate IsDigit(c: char) { '0' <= c <= '9' }

  /** The text ends the way the key of a second definition does: `#` and digits. */
  predicate EndsInOrdinal(s: string) {
    exists k | 0 <= k < |s| - 1 :: s[k] == '#' && forall j | k < j < |s| :: IsDigit(s[j])
  }

  lemma {:induction false} DecimalDigits(n: nat)
    ensures |Decimal(n)| >= 1 && forall j | 0 <= j < |Decimal(n)| :: IsDigit(Decimal(n)[j])
  {
    if n >= 10 { DecimalDigits(n / 10); }
  }

  /** What `read_head` puts a name together from: an identifier, of any word characters, `::`, or
      a closed list in angle brackets, which is also the shape of the name of an unnamed type. */
  predicate IsNamePart(p: string) {
    || (p != "" && IsNameStart(p[0]) && '#' !in p)
    || p == "::"
    || (|p| >= 2 && p[0] == '<' && p[|p| - 1] == '>')
  }

  function Concat(parts: seq<string>): string {
    if parts == [] then "" else Concat(parts[..|parts| - 1]) + parts[|parts| - 1]
  }

  ghost predicate IsTypeName(s: string) {
    exists parts: seq<string> :: parts != [] && (forall p | p in parts :: IsNamePart(p)) && s == Concat(parts)
  }

  /** The heads are read as `read_head` and `declarator_name` read them: a type's name is put
      together from such parts, and so is what an unnamed one is called. */
  ghost predicate NamesTypes(rules: Rules) {
    && (forall head | rules.kind(head).TypeBody? && rules.kind(head).name != "" :: IsTypeName(rules.kind(head).name))
    && (forall n: nat :: IsTypeName(rules.anonymous(n)))
  }

  /** A text that ends in a name part does not end in an ordinal. */
  lemma NameEndsPlain(before: string, part: string)
    requires IsNamePart(part)
    ensures !EndsInOrdinal(before + part)
  {
    var s, n := before + part, |before|;
    assert forall k | n <= k < |s| :: s[k] == part[k - n];
    forall k | 0 <= k < |s| - 1 && s[k] == '#' ensures exists j | k < j < |s| :: !IsDigit(s[j]) {
      if k < n && IsNameStart(part[0]) {
        assert !IsDigit(s[n]);
      } else {
        assert !IsDigit(s[|s| - 1]);
      }
    }
  }

  /** So no type of any text has a name that ends in one. */
  lemma TypeNamesArePlain(toks: seq<string>, rules: Rules)
    requires NamesTypes(rules)
    ensures PlainNames(toks, rules)
  {
    hide HeadAt, IsNamePart, EndsInOrdinal;
    forall b: nat | OpensType(toks, rules, b) ensures !EndsInOrdinal(TagAt(toks, rules, b)) {
      TagIsTypeName(toks, rules, b);
      var parts: seq<string> :| parts != [] && (forall p | p in parts :: IsNamePart(p)) && TagAt(toks, rules, b) == Concat(parts);
      NameEndsPlain(Concat(parts[..|parts| - 1]), parts[|parts| - 1]);
    }
  }

  lemma TagIsTypeName(toks: seq<string>, rules: Rules, b: nat)
    requires NamesTypes(rules) && OpensType(toks, rules, b)
    ensures IsTypeName(TagAt(toks, rules, b))
  {
    hide HeadAt, IsTypeName;
  }

  lemma KeyEndsPlain(key: string, tag: string)
    requires IsKeyFor(key, tag) && !EndsInOrdinal(tag)
    ensures !EndsInOrdinal(key)
  {
    if key != tag {
      var m := |key| - |tag|;
      assert key[m - 1] == key[m - 2..][1];
      assert forall j | m <= j < |key| :: key[j] == key[m - 2..][j - m + 2] == tag[j - m];
      forall k | 0 <= k < |key| - 1 && key[k] == '#' ensures exists j | k < j < |key| :: !IsDigit(key[j]) {
        if k < m {
          assert k != m - 1 && !IsDigit(key[m - 1]);
        } else {
          var j :| k - m < j < |tag| && !IsDigit(tag[j]);
          assert key[m + j] == tag[j];
        }
      }
    }
  }

  /** Names whose scope keys do not end in an ordinal have different keys. */
  lemma KeyInjective(a: Name, b: Name)
    requires !EndsInOrdinal(a.scopeKey) && !EndsInOrdinal(b.scopeKey) && KeyOf(a) == KeyOf(b)
    ensures a == b
  {
    OrdinalEnds(a);
    OrdinalEnds(b);
    if a.ordinal != 1 && b.ordinal != 1 {
      LastHash(a, b);
      var s, i := KeyOf(a), |a.scopeKey|;
      assert s[..i] == a.scopeKey && s[..i] == b.scopeKey;
      assert s[i + 1..] == Decimal(a.ordinal) && s[i + 1..] == Decimal(b.ordinal);
      DecimalInjective(a.ordinal, b.ordinal);
    }
  }

  lemma OrdinalEnds(a: Name)
    ensures a.ordinal != 1 ==> EndsInOrdinal(KeyOf(a))
  {
    if a.ordinal != 1 {
      DecimalDigits(a.ordinal);
      var s, i := KeyOf(a), |a.scopeKey|;
      assert s[i] == '#' && i < |s| - 1;
      assert forall j | i < j < |s| :: s[j] == Decimal(a.ordinal)[j - i - 1];
    }
  }

  lemma LastHash(a: Name, b: Name)
    requires a.ordinal != 1 && b.ordinal != 1 && KeyOf(a) == KeyOf(b)
    ensures |a.scopeKey| == |b.scopeKey|
  {
    DecimalDigits(a.ordinal);
    DecimalDigits(b.ordinal);
    var s, i, j := KeyOf(a), |a.scopeKey|, |b.scopeKey|;
    assert s[i] == '#' && s[j] == '#';
    assert forall k | i < k < |s| :: s[k] == Decimal(a.ordinal)[k - i - 1];
    assert forall k | j < k < |s| :: s[k] == Decimal(b.ordinal)[k - j - 1];
  }

  /** No type of the text has a name in its scope that ends in an ordinal. */
  ghost predicate PlainNames(toks: seq<string>, rules: Rules) {
    forall b: nat | OpensType(toks, rules, b) :: !EndsInOrdinal(TagAt(toks, rules, b))
  }

  lemma KeysDiffer(toks: seq<string>, rules: Rules, k: nat, l: nat)
    requires PlainNames(toks, rules) && k < l < |ShapeAt(toks, rules, |toks|).done|
    ensures var done := ShapeAt(toks, rules, |toks|).done; KeyOf(done[k].name) != KeyOf(done[l].name)
  {
    hide ShapeAt, HeadAt, OpensType, EndsInOrdinal, KeyOf, TagAt, IsKeyFor;
    var done := ShapeAt(toks, rules, |toks|).done;
    NamesHold(toks, rules, |toks|);
    DoneIsWhole(toks, rules, done[k]);
    DoneIsWhole(toks, rules, done[l]);
    KeyEndsPlain(done[k].name.scopeKey, TagAt(toks, rules, done[k].body));
    KeyEndsPlain(done[l].name.scopeKey, TagAt(toks, rules, done[l].body));
    if KeyOf(done[k].name) == KeyOf(done[l].name) { KeyInjective(done[k].name, done[l].name); }
  }

  lemma {:induction false} RecordedExactly(toks: seq<string>, lines: seq<nat>, done: seq<Span>)
    requires |lines| == |toks| && Within(toks, done)
    requires forall k, l | 0 <= k < l < |done| :: KeyOf(done[k].name) != KeyOf(done[l].name)
    ensures |Recorded(toks, lines, done)| == |done|
    ensures Recorded(toks, lines, done).Keys == set d | d in done :: KeyOf(d.name)
    ensures forall d | d in done :: Recorded(toks, lines, done)[KeyOf(d.name)] == DefinitionOf(toks, lines, d)
  {
    hide KeyOf, DefinitionOf;
    if done != [] {
      var k := |done| - 1;
      var before := Recorded(toks, lines, done[..k]);
      assert done == done[..k] + [done[k]];
      RecordedExactly(toks, lines, done[..k]);
      assert KeyOf(done[k].name) !in before;
    }
  }

  /** When no type's name ends in an ordinal, as `TypeNamesArePlain` shows of the names the tool
      reads, the map has one entry per definition, each with the definition's own tokens. */
  lemma NoDefinitionIsLost(toks: seq<string>, lines: seq<nat>, rules: Rules)
    requires |lines| == |toks| && PlainNames(toks, rules)
    ensures var done := ShapeAt(toks, rules, |toks|).done;
            && Within(toks, done)
            && var defs := Recorded(toks, lines, done);
               && |defs| == |done| && defs.Keys == (set d | d in done :: KeyOf(d.name))
               && forall d | d in done ::
                    defs[KeyOf(d.name)] == DefinitionOf(toks, lines, d) && defs[KeyOf(d.name)].text == toks[d.start..d.close + 1]
  {
    hide ShapeAt, Recorded, KeyOf, PlainNames;
    var done := ShapeAt(toks, rules, |toks|).done;
    forall d | d in done ensures d.start <= d.close < |toks| {
      DoneIsWhole(toks, rules, d);
      SpanStartsFirst(toks, rules, d);
    }
    forall k, l | 0 <= k < l < |done| ensures KeyOf(done[k].name) != KeyOf(done[l].name) { KeysDiffer(toks, rules, k, l); }
    RecordedExactly(toks, lines, done);
  }

  lemma SpanStartsFirst(toks: seq<string>, rules: Rules, d: Span)
    requires SpanOk(toks, rules, d)
    ensures d.start <= d.body < d.close < |toks|
  {
    hide Depth;
  }
}

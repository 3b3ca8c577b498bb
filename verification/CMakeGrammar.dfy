/** What a CMake file is, stated without a scanner, and the proof that `parse_cmake` accepts
    exactly these files and returns exactly their commands. */
module CMakeGrammar {
  import opened Text
  import opened CMakeParse

  /** Layout: one white character, `# ...` to the end of the line, or `#[=[ ... ]=]`. */
  datatype Gap =
    | Space(c: char)
    | LineComment(body: string)
    | BracketComment(level: nat, body: string)

  /** What an argument list is made of. A token is a run of Plain, Escaped and Quoted. */
  datatype Elem =
    | Layout(gap: Gap)
    | Plain(c: char)
    | Escaped(c: char)
    | Quoted(body: string)
    | Bracket(level: nat, body: string)
    | Open
    | Close

  datatype Item =
    | Between(gap: Gap)
    | Call(name: string, pad: string, elems: seq<Elem>)

  /** A file: its items, then possibly a last comment without a newline. */
  datatype File = File(items: seq<Item>, tail: Option<string>)

  // ------------------------------------------------------------------- text

  function BracketText(level: nat, body: string): string {
    Opener(level) + (body + Closer(level))
  }

  function GapText(g: Gap): string {
    match g
    case Space(c) => [c]
    case LineComment(body) => "#" + (body + "\n")
    case BracketComment(level, body) => "#" + BracketText(level, body)
  }

  function ElemText(e: Elem): string {
    match e
    case Layout(g) => GapText(g)
    case Plain(c) => [c]
    case Escaped(c) => ['\\', c]
    case Quoted(body) => "\"" + (body + "\"")
    case Bracket(level, body) => BracketText(level, body)
    case Open => "("
    case Close => ")"
  }

  function ElemsText(es: seq<Elem>): string {
    if es == [] then "" else ElemText(es[0]) + ElemsText(es[1..])
  }

  function ItemText(it: Item): string {
    match it
    case Between(g) => GapText(g)
    case Call(name, pad, es) => name + (pad + ("(" + (ElemsText(es) + ")")))
  }

  function ItemsText(its: seq<Item>): string {
    if its == [] then "" else ItemText(its[0]) + ItemsText(its[1..])
  }

  function FileText(f: File): string {
    ItemsText(f.items) + match f.tail case None => "" case Some(body) => "#" + body
  }

  // ---------------------------------------------------------- well-formedness

  /** The body does not contain its own closing bracket before the end. */
  predicate ClosesOnce(level: nat, body: string) {
    Find(body + Closer(level), Closer(level), 0) == Some(|body|)
  }

  /** A comment body that stays on its line and does not turn into a bracket comment. */
  predicate OneLine(body: string) {
    '\n' !in body && OpenLevel(body, 0).None?
  }

  predicate ValidGap(g: Gap) {
    match g
    case Space(c) => IsSpace(c)
    case LineComment(body) => OneLine(body)
    case BracketComment(level, body) => ClosesOnce(level, body)
  }

  predicate QuoteSafe(body: string) {
    body == "" ||
    if body[0] == '\\' then |body| >= 2 && QuoteSafe(body[2..])
    else body[0] != '"' && QuoteSafe(body[1..])
  }

  predicate IsTokenChar(c: char) {
    !IsSpace(c) && c != '#' && c != '"' && c != '(' && c != ')' && c != '\\'
  }

  predicate ValidElem(e: Elem) {
    match e
    case Layout(g) => ValidGap(g)
    case Plain(c) => IsTokenChar(c)
    case Quoted(body) => QuoteSafe(body)
    case Bracket(level, body) => ClosesOnce(level, body)
    case _ => true
  }

  predicate IsPiece(e: Elem) { e.Plain? || e.Escaped? || e.Quoted? }

  /** Well-formed elements; `inTok` says a token is open before them. A bracket argument, and
      a `[` that is not one, are told apart only at the start of a token. */
  predicate ValidElems(es: seq<Elem>, inTok: bool) {
    es == [] ||
    (&& ValidElem(es[0])
     && (es[0].Bracket? ==> !inTok)
     && (es[0] == Plain('[') && !inTok ==> OpenLevel(ElemsText(es), 0).None?)
     && ValidElems(es[1..], IsPiece(es[0])))
  }

  /** The nested parentheses close, and never more than were opened. */
  predicate Balanced(es: seq<Elem>, depth: nat) {
    if es == [] then depth == 0
    else DepthAfter(es[0], depth) >= 0 && Balanced(es[1..], DepthAfter(es[0], depth))
  }

  function DepthAfter(e: Elem, depth: nat): int {
    depth + (if e.Open? then 1 else if e.Close? then -1 else 0)
  }

  predicate ValidItem(it: Item) {
    match it
    case Between(g) => ValidGap(g)
    case Call(name, pad, es) =>
      && IsName(name)
      && (forall k | 0 <= k < |pad| :: IsPad(pad[k]))
      && ValidElems(es, false) && Balanced(es, 0)
  }

  predicate ValidFile(f: File) {
    (forall it | it in f.items :: ValidItem(it)) && (f.tail.Some? ==> OneLine(f.tail.value))
  }

  // ---------------------------------------------------------------- meaning

  /** What an element does to the arguments read so far and the open token. */
  function Absorb(e: Elem, args: seq<string>, tok: string): (seq<string>, string) {
    match e
    case Layout(_) => (Flush(args, tok), "")
    case Bracket(_, _) => (args + [ElemText(e)], "")
    case Open => (Flush(args, tok) + ["("], "")
    case Close => (Flush(args, tok) + [")"], "")
    case _ => (args, tok + ElemText(e))
  }

  /** The tokens an element list stands for, after `args` and the open token `tok`. */
  function Tokens(es: seq<Elem>, args: seq<string>, tok: string): seq<string> {
    if es == [] then Flush(args, tok)
    else Tokens(es[1..], Absorb(es[0], args, tok).0, Absorb(es[0], args, tok).1)
  }

  function Meaning(its: seq<Item>): seq<Cmd> {
    if its == [] then []
    else match its[0]
         case Between(_) => Meaning(its[1..])
         case Call(name, _, es) => [Cmd(Lower(name), Tokens(es, [], ""))] + Meaning(its[1..])
  }

  // ------------------------------------------------------- brackets, both ways

  lemma {:induction false} EqualsAt(t: string, i: nat, n: nat)
    requires At(t, i, Equals(n))
    requires i + n == |t| || t[i + n] != '='
    ensures EqualsEnd(t, i) == i + n
    decreases n
  {
    if n > 0 {
      AtConcat(t, i, "=", Equals(n - 1));
      EqualsAt(t, i + 1, n - 1);
    }
  }

  lemma {:induction false} EqualsEndIs(t: string, i: nat)
    requires i <= |t|
    ensures At(t, i, Equals(EqualsEnd(t, i) - i))
    decreases |t| - i
  {
    if i < |t| && t[i] == '=' {
      EqualsEndIs(t, i + 1);
      AtConcat(t, i, "=", Equals(EqualsEnd(t, i) - i - 1));
    }
  }

  lemma OpenLevelOf(t: string, i: nat, level: nat)
    requires At(t, i, Opener(level))
    ensures OpenLevel(t, i) == Some(level)
  {
    AtConcat(t, i, "[" + Equals(level), "[");
    AtConcat(t, i, "[", Equals(level));
    EqualsAt(t, i + 1, level);
  }

  lemma OpenLevelIs(t: string, i: nat)
    requires i <= |t| && OpenLevel(t, i).Some?
    ensures At(t, i, Opener(OpenLevel(t, i).value))
  {
    var level := OpenLevel(t, i).value;
    EqualsEndIs(t, i + 1);
    AtConcat(t, i, "[", Equals(level));
    AtConcat(t, i, "[" + Equals(level), "[");
  }

  lemma {:induction false} EqualsChars(n: nat, k: nat)
    requires k < n
    ensures Equals(n)[k] == '='
  {
    if k > 0 { EqualsChars(n - 1, k - 1); }
  }

  /** An opener at the front of a piece of text is one in the whole text. */
  lemma OpenLevelWithin(t: string, i: nat, w: string)
    requires At(t, i, w) && OpenLevel(w, 0).Some?
    ensures OpenLevel(t, i) == OpenLevel(w, 0)
  {
    var level := OpenLevel(w, 0).value;
    OpenLevelIs(w, 0);
    AtWithin(t, i, w, 0, Opener(level));
    OpenLevelOf(t, i, level);
  }

  /** No opener appears when what follows can continue neither the `=` run nor the bracket. */
  lemma OpenLevelStops(t: string, i: nat, w: string)
    requires At(t, i, w) && OpenLevel(w, 0).None?
    requires i + |w| < |t| && t[i + |w|] != '=' && t[i + |w|] != '['
    ensures OpenLevel(t, i).None?
  {
    if OpenLevel(t, i).Some? {
      var level := OpenLevel(t, i).value;
      OpenLevelIs(t, i);
      if level + 2 <= |w| {
        AtWithin(t, i, w, 0, Opener(level));
        OpenLevelOf(w, 0, level);
      } else {
        assert t[i + |w|] == t[i..i + level + 2][|w|] == Opener(level)[|w|];
        if 0 < |w| <= level { EqualsChars(level, |w| - 1); }
      }
      assert false;
    }
  }

  lemma BracketTextEnds(t: string, i: nat, level: nat, body: string)
    requires ClosesOnce(level, body) && At(t, i, BracketText(level, body))
    ensures BracketEnd(t, i) == Ok(Some(i + |BracketText(level, body)|))
  {
    hide Find, OpenLevel;
    AtConcat(t, i, Opener(level), body + Closer(level));
    OpenLevelOf(t, i, level);
    FindWithin(t, i + level + 2, body + Closer(level), Closer(level), 0);
  }

  lemma ClosedBodyIs(t: string, i: nat, p: string)
    requires i <= |t| && Find(t, p, i).Some?
    ensures var k := Find(t, p, i).value;
            At(t, i, t[i..k] + p) && Find(t[i..k] + p, p, 0) == Some(k - i)
  {
    var k := Find(t, p, i).value;
    FindFirst(t, p, i);
    AtConcat(t, i, t[i..k], p);
    FindCut(t, i, t[i..k] + p, p, 0);
  }

  /** What `_bracket_close` skips is a bracket with a well-formed body. */
  lemma BracketEndIs(t: string, i: nat) returns (level: nat, body: string)
    requires i <= |t| && BracketEnd(t, i).Ok? && BracketEnd(t, i).value.Some?
    ensures ClosesOnce(level, body) && At(t, i, BracketText(level, body))
    ensures BracketEnd(t, i).value.value == i + |BracketText(level, body)|
  {
    level := OpenLevel(t, i).value;
    var from := i + level + 2;
    body := t[from..Find(t, Closer(level), from).value];
    ClosedBodyIs(t, from, Closer(level));
    OpenLevelIs(t, i);
    AtConcat(t, i, Opener(level), body + Closer(level));
  }

  // ------------------------------------------------------- comments, both ways

  lemma {:induction false} NewlineAt(t: string, i: nat, n: nat)
    requires i <= n < |t| && t[n] == '\n' && forall j | i <= j < n :: t[j] != '\n'
    ensures Find(t, "\n", i) == Some(n)
    decreases n - i
  {
    AtChar(t, i, '\n');
    if i < n { NewlineAt(t, i + 1, n); }
  }

  lemma LineEnd(t: string, i: nat, body: string)
    requires '\n' !in body && At(t, i, "#") && At(t, i + 1, body) && At(t, i + 1 + |body|, "\n")
    ensures Find(t, "\n", i) == Some(i + 1 + |body|)
  {
    forall j | i + 1 <= j < i + 1 + |body| ensures t[j] != '\n' {
      assert t[j] == t[i + 1..i + 1 + |body|][j - i - 1];
    }
    AtChar(t, i, '#');
    AtChar(t, i + 1 + |body|, '\n');
    NewlineAt(t, i, i + 1 + |body|);
  }

  /** A comment's text is skipped whole. */
  lemma CommentSkipped(t: string, i: nat, g: Gap)
    requires ValidGap(g) && !g.Space? && At(t, i, GapText(g))
    ensures CommentEnd(t, i) == Ok(i + |GapText(g)|)
  {
    match g
    case LineComment(body) => LineSkipped(t, i, body);
    case BracketComment(level, body) => BracketSkipped(t, i, level, body);
  }

  lemma LineSkipped(t: string, i: nat, body: string)
    requires ValidGap(LineComment(body)) && At(t, i, GapText(LineComment(body)))
    ensures CommentEnd(t, i) == Ok(i + |GapText(LineComment(body))|)
  {
    AtConcat(t, i, "#", body + "\n");
    AtConcat(t, i + 1, body, "\n");
    AtChar(t, i + 1 + |body|, '\n');
    OpenLevelStops(t, i + 1, body);
    LineEnd(t, i, body);
  }

  lemma BracketSkipped(t: string, i: nat, level: nat, body: string)
    requires ValidGap(BracketComment(level, body)) && At(t, i, GapText(BracketComment(level, body)))
    ensures CommentEnd(t, i) == Ok(i + |GapText(BracketComment(level, body))|)
  {
    AtConcat(t, i, "#", BracketText(level, body));
    BracketTextEnds(t, i + 1, level, body);
  }

  /** The text from a `#` up to a newline, or to the end, when no bracket opens. */
  lemma LineIs(t: string, i: nat, end: nat)
    requires i < end <= |t| && OpenLevel(t, i + 1).None?
    requires forall j | i <= j < end :: t[j] != '\n'
    ensures OneLine(t[i + 1..end])
  {
    var body := t[i + 1..end];
    if OpenLevel(body, 0).Some? { OpenLevelWithin(t, i + 1, body); }
  }

  lemma NewlineIs(t: string, i: nat)
    requires i <= |t|
    ensures var nl := Find(t, "\n", i);
            var end := if nl.Some? then nl.value else |t|;
            (forall j | i <= j < end :: t[j] != '\n') && (nl.Some? ==> At(t, end, "\n"))
  {
    FindFirst(t, "\n", i);
    forall j | i <= j < |t| ensures t[j] != '\n' || At(t, j, "\n") { AtChar(t, j, '\n'); }
  }

  lemma AtSlice(t: string, a: nat, b: nat)
    requires a <= b <= |t|
    ensures At(t, a, t[a..b])
  {
  }

  /** What is skipped is a comment, or at the end of the text a line without its newline. */
  lemma CommentIs(t: string, i: nat) returns (g: Gap)
    requires i < |t| && t[i] == '#' && CommentEnd(t, i).Ok?
    ensures ValidGap(g) && !g.Space?
    ensures var end := CommentEnd(t, i).value;
            || (At(t, i, GapText(g)) && end == i + |GapText(g)|)
            || (g.LineComment? && At(t, i, "#" + g.body) && end == |t| == i + 1 + |g.body|)
  {
    hide Find, At, ClosesOnce, OneLine, BracketText;
    AtChar(t, i, '#');
    if BracketEnd(t, i + 1).value.Some? {
      var level, body := BracketEndIs(t, i + 1);
      AtConcat(t, i, "#", BracketText(level, body));
      g := BracketComment(level, body);
    } else {
      var body := LineCommentIs(t, i);
      g := LineComment(body);
    }
  }

  lemma LineCommentIs(t: string, i: nat) returns (body: string)
    requires i < |t| && At(t, i, "#") && t[i] != '\n' && OpenLevel(t, i + 1).None?
    ensures OneLine(body)
    ensures match Find(t, "\n", i)
            case None => At(t, i, "#" + body) && |t| == i + 1 + |body|
            case Some(nl) => At(t, i, "#" + (body + "\n")) && nl == i + 1 + |body|
  {
    hide Find, At, OneLine;
    NewlineIs(t, i);
    var nl := Find(t, "\n", i);
    var end := if nl.Some? then nl.value else |t|;
    if nl.Some? { AtChar(t, end, '\n'); }
    LineIs(t, i, end);
    body := t[i + 1..end];
    AtSlice(t, i + 1, end);
    AtConcat(t, i, "#", body);
    AtConcat(t, i + 1, body, "\n");
    AtConcat(t, i, "#", body + "\n");
  }

  // ------------------------------------------------- argument lists, both ways

  lemma {:induction false} QuoteSafeEnds(t: string, j: nat, body: string)
    requires QuoteSafe(body) && At(t, j, body) && At(t, j + |body|, "\"")
    ensures QuoteEnd(t, j) == j + |body|
    decreases |body|
  {
    AtChar(t, j + |body|, '"');
    if body != "" {
      var k := if body[0] == '\\' then 2 else 1;
      assert body == body[..k] + body[k..];
      AtConcat(t, j, body[..k], body[k..]);
      assert t[j] == t[j..j + |body|][0];
      QuoteSafeEnds(t, j + k, body[k..]);
    }
  }

  lemma {:induction false} QuoteEndSafe(t: string, j: nat)
    requires QuoteEnd(t, j) < |t|
    ensures QuoteSafe(t[j..QuoteEnd(t, j)])
    decreases |t| - j
  {
    if t[j] != '"' {
      var k := if t[j] == '\\' then 2 else 1;
      QuoteEndSafe(t, j + k);
      var body := t[j..QuoteEnd(t, j)];
      assert body[k..] == t[j + k..QuoteEnd(t, j)];
    }
  }

  lemma NoBracket(t: string, i: nat)
    requires i <= |t|
    ensures BracketEnd(t, i) == Ok(None) <==> OpenLevel(t, i).None?
  {
  }

  lemma TextHead(t: string, i: nat, w: string)
    requires At(t, i, w) && w != ""
    ensures i < |t| && t[i] == w[0]
  {
    assert t[i..i + |w|][0] == w[0];
  }

  /** The scanner step at an element's text is the element's own effect. */
  lemma ReadElem(t: string, i: nat, name: string, e: Elem, args: seq<string>, depth: nat, tok: string)
    requires ValidElem(e) && At(t, i, ElemText(e)) && i < |t|
    requires e.Bracket? ==> tok == ""
    requires e == Plain('[') && tok == "" ==> OpenLevel(t, i).None?
    requires DepthAfter(e, depth) >= 0
    ensures ArgStep(t, i, name, args, depth + 1, tok) ==
            Next(i + |ElemText(e)|, Absorb(e, args, tok).0, DepthAfter(e, depth) + 1, Absorb(e, args, tok).1)
  {
    hide ArgStep;
    if e.Quoted? || e.Bracket? {
      ReadDelimited(t, i, name, e, args, depth, tok);
    } else {
      ReadPlain(t, i, name, e, args, depth, tok);
    }
  }

  lemma ReadDelimited(t: string, i: nat, name: string, e: Elem, args: seq<string>, depth: nat, tok: string)
    requires ValidElem(e) && At(t, i, ElemText(e)) && i < |t| && (e.Quoted? || e.Bracket?)
    requires e.Bracket? ==> tok == ""
    ensures ArgStep(t, i, name, args, depth + 1, tok) ==
            Next(i + |ElemText(e)|, Absorb(e, args, tok).0, depth + 1, Absorb(e, args, tok).1)
  {
    hide CommentEnd, BracketEnd, QuoteEnd, OpenLevel, ClosesOnce, QuoteSafe, OneLine, Flush, BracketText;
    if e.Bracket? { BracketHead(e.level, e.body); }
    TextHead(t, i, ElemText(e));
    match e
    case Quoted(body) =>
      AtConcat(t, i, "\"", body + "\"");
      AtConcat(t, i + 1, body, "\"");
      QuoteSafeEnds(t, i + 1, body);
    case Bracket(level, body) =>
      BracketTextEnds(t, i, level, body);
  }

  lemma ReadPlain(t: string, i: nat, name: string, e: Elem, args: seq<string>, depth: nat, tok: string)
    requires ValidElem(e) && At(t, i, ElemText(e)) && i < |t| && !e.Quoted? && !e.Bracket?
    requires e == Plain('[') && tok == "" ==> OpenLevel(t, i).None?
    requires DepthAfter(e, depth) >= 0
    ensures ArgStep(t, i, name, args, depth + 1, tok) ==
            Next(i + |ElemText(e)|, Absorb(e, args, tok).0, DepthAfter(e, depth) + 1, Absorb(e, args, tok).1)
  {
    hide CommentEnd, BracketEnd, QuoteEnd, OpenLevel, ClosesOnce, QuoteSafe, OneLine, Flush, BracketText;
    TextHead(t, i, ElemText(e));
    match e
    case Layout(g) =>
      if !g.Space? { CommentSkipped(t, i, g); }
    case _ => NoBracket(t, i);
  }

  lemma BracketHead(level: nat, body: string)
    ensures BracketText(level, body) != "" && BracketText(level, body)[0] == '['
  {
  }

  /** A token is open after an element exactly when the element is a piece of one. */
  lemma AbsorbOpens(e: Elem, args: seq<string>, tok: string)
    ensures Absorb(e, args, tok).1 != "" <==> IsPiece(e)
  {
  }

  lemma ArgsDone(t: string, i: nat, name: string, args: seq<string>, tok: string)
    requires i < |t| && t[i] == ')'
    ensures Args(t, i, name, args, 1, tok) == Ok((Flush(args, tok), i + 1))
  {
  }

  /** Every well-formed argument list is read back as its tokens. */
  lemma {:induction false} ArgsOfElems(t: string, i: nat, name: string, es: seq<Elem>, args: seq<string>,
                                       depth: nat, tok: string)
    requires ValidElems(es, tok != "") && Balanced(es, depth)
    requires At(t, i, ElemsText(es)) && At(t, i + |ElemsText(es)|, ")")
    ensures Args(t, i, name, args, depth + 1, tok) == Ok((Tokens(es, args, tok), i + |ElemsText(es)| + 1))
    decreases |es|
  {
    hide ArgStep, Absorb, ElemText, ValidElem, OpenLevel;
    AtChar(t, i + |ElemsText(es)|, ')');
    if es == [] {
      ArgsDone(t, i, name, args, tok);
    } else {
      var e := es[0];
      AtConcat(t, i, ElemText(e), ElemsText(es[1..]));
      if e == Plain('[') && tok == "" { OpenLevelStops(t, i, ElemsText(es)); }
      ReadElem(t, i, name, e, args, depth, tok);
      AbsorbOpens(e, args, tok);
      var (args', tok') := Absorb(e, args, tok);
      ArgsOfElems(t, i + |ElemText(e)|, name, es[1..], args', DepthAfter(e, depth), tok');
    }
  }

  /** Whatever the scanner steps over is a well-formed element. */
  lemma ElemIs(t: string, i: nat, name: string, args: seq<string>, depth: nat, tok: string) returns (e: Elem)
    requires i < |t|
    requires var st := ArgStep(t, i, name, args, depth + 1, tok); st.Next? && st.i < |t|
    ensures ValidElem(e) && At(t, i, ElemText(e))
    ensures e.Bracket? ==> tok == ""
    ensures e == Plain('[') && tok == "" ==> OpenLevel(t, i).None?
    ensures DepthAfter(e, depth) >= 0
  {
    hide CommentEnd, BracketEnd, QuoteEnd, OpenLevel, ClosesOnce, QuoteSafe, OneLine, Flush, BracketText;
    var c := t[i];
    AtChar(t, i, c);
    NoBracket(t, i);
    if c == '#' {
      var g := CommentIs(t, i);
      e := Layout(g);
    } else if c == '"' {
      e := QuotedIs(t, i);
    } else if c == '[' && tok == "" && BracketEnd(t, i) != Ok(None) {
      var level, body := BracketEndIs(t, i);
      e := Bracket(level, body);
    } else if IsSpace(c) {
      e := Layout(Space(c));
    } else if c == '(' {
      e := Open;
    } else if c == ')' {
      e := Close;
    } else if c == '\\' {
      e := Escaped(t[i + 1]);
      assert ElemText(e) == t[i..i + 2];
    } else {
      e := Plain(c);
    }
  }

  lemma QuotedIs(t: string, i: nat) returns (e: Elem)
    requires i < |t| && t[i] == '"' && QuoteEnd(t, i + 1) < |t|
    ensures e.Quoted? && ValidElem(e) && At(t, i, ElemText(e))
  {
    var j := QuoteEnd(t, i + 1);
    QuoteEndSafe(t, i + 1);
    var body := t[i + 1..j];
    AtChar(t, i, '"');
    AtChar(t, j, '"');
    AtConcat(t, i + 1, body, "\"");
    AtConcat(t, i, "\"", body + "\"");
    e := Quoted(body);
  }

  /** Every argument list the parser accepts is well-formed, and its tokens are the result. */
  lemma {:induction false} ElemsOfArgs(t: string, i: nat, name: string, args: seq<string>, depth: nat,
                                       tok: string) returns (es: seq<Elem>)
    requires i <= |t| && Args(t, i, name, args, depth + 1, tok).Ok?
    ensures ValidElems(es, tok != "") && Balanced(es, depth)
    ensures At(t, i, ElemsText(es)) && At(t, i + |ElemsText(es)|, ")")
    ensures Args(t, i, name, args, depth + 1, tok) == Ok((Tokens(es, args, tok), i + |ElemsText(es)| + 1))
    decreases |t| - i
  {
    hide ArgStep, Absorb, ElemText, ValidElem, OpenLevel, ValidElems, Balanced, At, Tokens, ElemsText, IsPiece;
    if ArgStep(t, i, name, args, depth + 1, tok).Done? {
      StepDone(t, i, name, args, depth + 1, tok);
      ArgsDone(t, i, name, args, tok);
      AtChar(t, i, ')');
      NoElems(t, i, args, tok);
      es := [];
    } else {
      var e := ElemIs(t, i, name, args, depth, tok);
      ReadElem(t, i, name, e, args, depth, tok);
      AbsorbOpens(e, args, tok);
      var (args', tok') := Absorb(e, args, tok);
      var more := ElemsOfArgs(t, i + |ElemText(e)|, name, args', DepthAfter(e, depth), tok');
      es := [e] + more;
      ElemsCons(t, i, e, more, args, depth, tok);
    }
  }

  lemma NoElems(t: string, i: nat, args: seq<string>, tok: string)
    requires i <= |t|
    ensures ValidElems([], tok != "") && Balanced([], 0) && ElemsText([]) == "" && At(t, i, "")
    ensures Tokens([], args, tok) == Flush(args, tok)
  {
  }

  lemma ElemsCons(t: string, i: nat, e: Elem, more: seq<Elem>, args: seq<string>, depth: nat, tok: string)
    requires ValidElem(e) && (e.Bracket? ==> tok == "") && At(t, i, ElemText(e))
    requires e == Plain('[') && tok == "" ==> i <= |t| && OpenLevel(t, i).None?
    requires DepthAfter(e, depth) >= 0 && Balanced(more, DepthAfter(e, depth))
    requires ValidElems(more, IsPiece(e)) && At(t, i + |ElemText(e)|, ElemsText(more))
    ensures var es := [e] + more;
            && ValidElems(es, tok != "") && Balanced(es, depth) && At(t, i, ElemsText(es))
            && |ElemsText(es)| == |ElemText(e)| + |ElemsText(more)|
            && Tokens(es, args, tok) == Tokens(more, Absorb(e, args, tok).0, Absorb(e, args, tok).1)
  {
    hide Absorb, ElemText, ValidElem, OpenLevel, At;
    var es := [e] + more;
    assert es[1..] == more;
    AtConcat(t, i, ElemText(e), ElemsText(more));
    if OpenLevel(ElemsText(es), 0).Some? { OpenLevelWithin(t, i, ElemsText(es)); }
  }

  lemma StepDone(t: string, i: nat, name: string, args: seq<string>, depth: nat, tok: string)
    requires i < |t| && depth >= 1 && ArgStep(t, i, name, args, depth, tok).Done?
    ensures t[i] == ')' && depth == 1
  {
  }

  // ----------------------------------------------------------- files, both ways

  lemma {:induction false} NameEndOf(t: string, i: nat, n: nat)
    requires i <= n <= |t| && (forall k | i <= k < n :: IsNameChar(t[k]))
    requires n < |t| ==> !IsNameChar(t[n])
    ensures NameEnd(t, i) == n
    decreases n - i
  {
    if i < n { NameEndOf(t, i + 1, n); }
  }

  lemma {:induction false} NameEndIs(t: string, i: nat)
    requires i <= |t|
    ensures forall k | i <= k < NameEnd(t, i) :: IsNameChar(t[k])
    ensures NameEnd(t, i) < |t| ==> !IsNameChar(t[NameEnd(t, i)])
    decreases |t| - i
  {
    if i < |t| && IsNameChar(t[i]) { NameEndIs(t, i + 1); }
  }

  lemma {:induction false} PadEndOf(t: string, i: nat, n: nat)
    requires i <= n <= |t| && (forall k | i <= k < n :: IsPad(t[k]))
    requires n < |t| ==> !IsPad(t[n])
    ensures PadEnd(t, i) == n
    decreases n - i
  {
    if i < n { PadEndOf(t, i + 1, n); }
  }

  lemma {:induction false} PadEndIs(t: string, i: nat)
    requires i <= |t|
    ensures forall k | i <= k < PadEnd(t, i) :: IsPad(t[k])
    decreases |t| - i
  {
    if i < |t| && IsPad(t[i]) { PadEndIs(t, i + 1); }
  }

  lemma AtChars(t: string, i: nat, w: string)
    requires At(t, i, w)
    ensures forall k | i <= k < i + |w| :: t[k] == w[k - i]
  {
    forall k | i <= k < i + |w| ensures t[k] == w[k - i] {
      assert t[i..i + |w|][k - i] == t[k];
    }
  }

  /** A command's name and padding are found where they end. */
  lemma HeadRead(t: string, i: nat, name: string, pad: string)
    requires IsName(name) && forall k | 0 <= k < |pad| :: IsPad(pad[k])
    requires At(t, i, name) && At(t, i + |name|, pad) && At(t, i + |name| + |pad|, "(")
    ensures NameEnd(t, i) == i + |name| && PadEnd(t, i + |name|) == i + |name| + |pad|
    ensures i < |t| && IsNameStart(t[i]) && t[i + |name| + |pad|] == '('
  {
    AtChars(t, i, name);
    AtChars(t, i + |name|, pad);
    AtChar(t, i + |name| + |pad|, '(');
    NameEndOf(t, i, i + |name|);
    PadEndOf(t, i + |name|, i + |name| + |pad|);
  }

  /** A command is read back whole: its name in lower case and its tokens. */
  lemma CallRead(t: string, i: nat, it: Item)
    requires it.Call? && ValidItem(it) && At(t, i, ItemText(it))
    ensures i < |t| && IsNameStart(t[i])
    ensures Command(t, i) == Ok((Cmd(Lower(it.name), Tokens(it.elems, [], "")), i + |ItemText(it)|))
  {
    hide Args, Tokens, NameEnd, PadEnd, ValidElems, Balanced, ElemsText, Lower, At;
    var p := i + |it.name| + |it.pad|;
    CallParts(t, i, it.name, it.pad, ElemsText(it.elems));
    HeadRead(t, i, it.name, it.pad);
    ArgsOfElems(t, p + 1, Lower(it.name), it.elems, [], 0, "");
  }

  lemma CallParts(t: string, i: nat, name: string, pad: string, text: string)
    requires At(t, i, name + (pad + ("(" + (text + ")"))))
    ensures var n, p := i + |name|, i + |name| + |pad|;
            && At(t, i, name) && At(t, n, pad) && At(t, p, "(") && At(t, p + 1, text) && At(t, p + 1 + |text|, ")")
            && p + 1 <= |t|
  {
    var n, p := i + |name|, i + |name| + |pad|;
    AtConcat(t, i, name, pad + ("(" + (text + ")")));
    AtConcat(t, n, pad, "(" + (text + ")"));
    AtConcat(t, p, "(", text + ")");
    AtConcat(t, p + 1, text, ")");
  }

  lemma CallIs(t: string, i: nat) returns (it: Item)
    requires i < |t| && Command(t, i).Ok?
    ensures it.Call? && ValidItem(it) && At(t, i, ItemText(it)) && 0 < |ItemText(it)|
    ensures Command(t, i) == Ok((Cmd(Lower(it.name), Tokens(it.elems, [], "")), i + |ItemText(it)|))
  {
    hide Args, Tokens, NameEnd, PadEnd, ValidElems, Balanced, ElemsText;
    var n := NameEnd(t, i);
    var p := PadEnd(t, n);
    NameEndIs(t, i);
    PadEndIs(t, n);
    NameStartEnds(t, i);
    var es := ElemsOfArgs(t, p + 1, Lower(t[i..n]), [], 0, "");
    it := Call(t[i..n], t[n..p], es);
    CallText(t, i, n, p, ElemsText(es));
  }

  lemma CallText(t: string, i: nat, n: nat, p: nat, text: string)
    requires i <= n <= p < |t| && t[p] == '(' && At(t, p + 1, text) && At(t, p + 1 + |text|, ")")
    ensures At(t, i, t[i..n] + (t[n..p] + ("(" + (text + ")"))))
  {
    AtConcat(t, p + 1, text, ")");
    AtChar(t, p, '(');
    AtConcat(t, p, "(", text + ")");
    AtConcat(t, n, t[n..p], "(" + (text + ")"));
    AtConcat(t, i, t[i..n], t[n..p] + ("(" + (text + ")")));
  }

  lemma NameStartEnds(t: string, i: nat)
    requires i < |t| && IsNameStart(t[i])
    ensures i < NameEnd(t, i)
  {
  }

  /** The end of the file: nothing, or a comment without its newline. */
  predicate TailAt(t: string, i: nat, tail: Option<string>) {
    match tail
    case None => i == |t|
    case Some(body) => OneLine(body) && At(t, i, "#" + body) && i + 1 + |body| == |t|
  }

  lemma TailRead(t: string, i: nat, tail: Option<string>)
    requires TailAt(t, i, tail)
    ensures i <= |t| && Commands(t, i) == Ok([])
  {
    if tail.Some? {
      var body := tail.value;
      AtConcat(t, i, "#", body);
      AtChar(t, i, '#');
      assert t[i + 1..] == body;
      NoOpenerAtEnd(t, i + 1);
      NewlineIs(t, i);
      NoNewlineAtEnd(t, i);
    }
  }

  lemma NoOpenerAtEnd(t: string, i: nat)
    requires i <= |t| && OpenLevel(t[i..], 0).None?
    ensures OpenLevel(t, i).None?
  {
    if OpenLevel(t, i).Some? {
      OpenLevelIs(t, i);
      AtWithin(t, i, t[i..], 0, Opener(OpenLevel(t, i).value));
      OpenLevelOf(t[i..], 0, OpenLevel(t, i).value);
    }
  }

  lemma NoNewlineAtEnd(t: string, i: nat)
    requires i < |t| && t[i] == '#' && '\n' !in t[i + 1..]
    ensures Find(t, "\n", i).None?
  {
    FindFirst(t, "\n", i);
    assert forall j | i < j < |t| :: t[j] == t[i + 1..][j - i - 1] != '\n';
    if Find(t, "\n", i).Some? { AtChar(t, Find(t, "\n", i).value, '\n'); }
  }

  lemma GapRead(t: string, i: nat, g: Gap)
    requires ValidGap(g) && At(t, i, GapText(g))
    ensures 0 < |GapText(g)| && i + |GapText(g)| <= |t| && Commands(t, i) == Commands(t, i + |GapText(g)|)
  {
    hide CommentEnd, Command;
    TextHead(t, i, GapText(g));
    if !g.Space? { CommentSkipped(t, i, g); }
  }

  /** Every well-formed sequence of items is read back as its commands. */
  lemma {:induction false} ItemsRead(t: string, i: nat, its: seq<Item>, tail: Option<string>)
    requires (forall it | it in its :: ValidItem(it))
    requires At(t, i, ItemsText(its)) && TailAt(t, i + |ItemsText(its)|, tail)
    ensures Commands(t, i) == Ok(Meaning(its))
    decreases |its|
  {
    hide CommentEnd, Command, ItemText, GapText, ValidItem, ValidGap, TailAt, Tokens;
    if its == [] {
      TailRead(t, i, tail);
    } else {
      var it := its[0];
      AtConcat(t, i, ItemText(it), ItemsText(its[1..]));
      ItemsRead(t, i + |ItemText(it)|, its[1..], tail);
      if it.Call? {
        CallRead(t, i, it);
        NotLayout(t[i]);
      } else {
        BetweenIsGap(it);
        GapRead(t, i, it.gap);
      }
    }
  }

  lemma NotLayout(c: char)
    requires IsNameStart(c)
    ensures !IsSpace(c) && c != '#'
  {
  }

  lemma BetweenIsGap(it: Item)
    requires it.Between?
    ensures ItemText(it) == GapText(it.gap) && (ValidItem(it) <==> ValidGap(it.gap))
  {
  }

  /** Every text the parser accepts is a well-formed sequence of items. */
  lemma {:induction false} ItemsOf(t: string, i: nat) returns (its: seq<Item>, tail: Option<string>)
    requires i <= |t| && Commands(t, i).Ok?
    ensures forall it | it in its :: ValidItem(it)
    ensures At(t, i, ItemsText(its)) && TailAt(t, i + |ItemsText(its)|, tail)
    ensures Commands(t, i) == Ok(Meaning(its))
    decreases |t| - i
  {
    hide CommentEnd, Command, ItemText, GapText, ValidItem, ValidGap, Tokens, OneLine;
    its, tail := [], None;
    if i < |t| {
      var it;
      if IsSpace(t[i]) || t[i] == '#' {
        var g, open := LayoutIs(t, i);
        if open {
          tail := Some(g.body);
          TailRead(t, i, tail);
          return;
        }
        it := Between(g);
        BetweenIsGap(it);
        GapRead(t, i, g);
      } else {
        it := CallIs(t, i);
      }
      var more, end := ItemsOf(t, i + |ItemText(it)|);
      its, tail := [it] + more, end;
      assert its[1..] == more;
      AtConcat(t, i, ItemText(it), ItemsText(more));
    }
  }

  /** What the outer loop skips: a gap, or the open comment at the end. */
  lemma LayoutIs(t: string, i: nat) returns (g: Gap, open: bool)
    requires i < |t| && (IsSpace(t[i]) || t[i] == '#') && Commands(t, i).Ok?
    ensures ValidGap(g)
    ensures if open then g.LineComment? && TailAt(t, i, Some(g.body)) else At(t, i, GapText(g))
  {
    hide CommentEnd, Command;
    AtChar(t, i, t[i]);
    if IsSpace(t[i]) {
      g, open := Space(t[i]), false;
    } else {
      g := CommentIs(t, i);
      open := !At(t, i, GapText(g));
    }
  }

  // --------------------------------------------------------------- theorems

  /** Parsing undoes printing: whatever the layout, the commands come back. */
  lemma ParseOfText(f: File)
    requires ValidFile(f)
    ensures Commands(FileText(f), 0) == Ok(Meaning(f.items))
  {
    hide Commands, Meaning, ItemsText;
    var t := FileText(f);
    var end := match f.tail case None => "" case Some(body) => "#" + body;
    AtConcat(t, 0, ItemsText(f.items), end);
    ItemsRead(t, 0, f.items, f.tail);
  }

  /** The parser accepts exactly the well-formed files and returns exactly their commands. */
  lemma ParseIsMeaning(t: string, cmds: seq<Cmd>)
    ensures Commands(t, 0) == Ok(cmds) <==>
            exists f: File :: ValidFile(f) && FileText(f) == t && Meaning(f.items) == cmds
  {
    hide Commands, Meaning, ItemsText;
    forall f: File | ValidFile(f) && FileText(f) == t ensures Commands(t, 0) == Ok(Meaning(f.items)) {
      ParseOfText(f);
    }
    if Commands(t, 0) == Ok(cmds) {
      var its, tail := ItemsOf(t, 0);
      var f := File(its, tail);
      assert FileText(f) == t;
      assert ValidFile(f);
    }
  }
}

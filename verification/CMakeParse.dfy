/** The CMake tokenizer of `ci/ccache-flag-surface.py`: `_bracket_close` and `parse_cmake`.

    The parser is a method over an index; `Commands` is the function it computes. CMakeGrammar
    says, without any scanning, which texts that function accepts and what it returns. */
module CMakeParse {
  import opened Text

  datatype Cmd = Cmd(name: string, args: seq<string>)

  datatype Error =
    | UnterminatedBracket
    | UnexpectedCharacter(c: char)
    | NoOpenParen(name: string)
    | UnbalancedParen(name: string)
    | UnterminatedQuote(name: string)

  datatype Result<+T> = Ok(value: T) | Err(error: Error)

  // ---------------------------------------------------------------- brackets

  function Equals(n: nat): (s: string)
    ensures |s| == n
  {
    if n == 0 then "" else "=" + Equals(n - 1)
  }

  function Opener(level: nat): string { "[" + Equals(level) + "[" }
  function Closer(level: nat): string { "]" + Equals(level) + "]" }

  /** Where the run of `=` from `i` ends. */
  function EqualsEnd(t: string, i: nat): (e: nat)
    requires i <= |t|
    ensures i <= e <= |t|
    decreases |t| - i
  {
    if i < |t| && t[i] == '=' then EqualsEnd(t, i + 1) else i
  }

  /** The level of the bracket opener `[=*[` at `i`, if there is one. */
  function OpenLevel(t: string, i: nat): (r: Option<nat>)
    requires i <= |t|
    ensures r.Some? ==> i + r.value + 2 <= |t|
  {
    if i < |t| && t[i] == '[' then
      var e := EqualsEnd(t, i + 1);
      if e < |t| && t[e] == '[' then Some(e - i - 1) else None
    else None
  }

  /** `_bracket_close`: the index after the matching close, `Ok(None)` when no bracket opens. */
  function BracketEnd(t: string, i: nat): (r: Result<Option<nat>>)
    requires i <= |t|
    ensures r.Ok? && r.value.Some? ==> i < r.value.value <= |t|
  {
    match OpenLevel(t, i)
    case None => Ok(None)
    case Some(level) =>
      match Find(t, Closer(level), i + level + 2)
      case None => Err(UnterminatedBracket)
      case Some(k) => Ok(Some(k + level + 2))
  }

  /** The index after the comment that starts at `i`. */
  function CommentEnd(t: string, i: nat): (r: Result<nat>)
    requires i < |t|
    ensures r.Ok? ==> i < r.value <= |t|
  {
    match BracketEnd(t, i + 1)
    case Err(e) => Err(e)
    case Ok(Some(end)) => Ok(end)
    case Ok(None) =>
      match Find(t, "\n", i)
      case None => Ok(|t|)
      case Some(nl) => Ok(nl + 1)
  }

  // ------------------------------------------------------------ the function

  /** The index of the closing quote from `j` on; `|t|` when there is none. */
  function QuoteEnd(t: string, j: nat): (e: nat)
    ensures e <= |t| && (e < |t| ==> j <= e && t[e] == '"')
    decreases |t| - j
  {
    if j >= |t| then |t|
    else if t[j] == '"' then j
    else QuoteEnd(t, if t[j] == '\\' then j + 2 else j + 1)
  }

  function Flush(args: seq<string>, tok: string): seq<string> {
    if tok == "" then args else args + [tok]
  }

  /** One turn of the argument loop: fail, finish before index `i`, or go on from index `i`
      with new arguments, depth and open token. */
  datatype Step =
    | Fail(error: Error)
    | Done(i: nat, args: seq<string>)
    | Next(i: nat, args: seq<string>, depth: nat, tok: string)

  function ArgStep(t: string, i: nat, name: string, args: seq<string>, depth: nat, tok: string): (st: Step)
    requires i < |t| && depth >= 1
    ensures st.Done? ==> st.i == i + 1
    ensures st.Next? ==> i < st.i <= |t| && st.depth >= 1
  {
    var c := t[i];
    if c == '#' then
      match CommentEnd(t, i)
      case Err(e) => Fail(e)
      case Ok(n) => Next(n, Flush(args, tok), depth, "")
    else if c == '"' then
      var j := QuoteEnd(t, i + 1);
      if j == |t| then Fail(UnterminatedQuote(name))
      else Next(j + 1, args, depth, tok + t[i..j + 1])
    else if c == '[' && tok == "" && BracketEnd(t, i) != Ok(None) then
      match BracketEnd(t, i)
      case Err(e) => Fail(e)
      case Ok(end) => Next(end.value, args + [t[i..end.value]], depth, "")
    else if IsSpace(c) then Next(i + 1, Flush(args, tok), depth, "")
    else if c == '(' then Next(i + 1, Flush(args, tok) + ["("], depth + 1, "")
    else if c == ')' then
      if depth == 1 then Done(i + 1, Flush(args, tok))
      else Next(i + 1, Flush(args, tok) + [")"], depth - 1, "")
    else if c == '\\' && i + 1 < |t| then Next(i + 2, args, depth, tok + t[i..i + 2])
    else Next(i + 1, args, depth, tok + [c])
  }

  /** The argument loop from `i`: the arguments up to the parenthesis that closes the command,
      and the index after it. */
  function Args(t: string, i: nat, name: string, args: seq<string>, depth: nat, tok: string)
    : (r: Result<(seq<string>, nat)>)
    requires i <= |t| && depth >= 1
    ensures r.Ok? ==> i < r.value.1 <= |t|
    decreases |t| - i
  {
    if i == |t| then Err(UnbalancedParen(name))
    else
      match ArgStep(t, i, name, args, depth, tok)
      case Fail(e) => Err(e)
      case Done(n, all) => Ok((all, n))
      case Next(n, args', depth', tok') => Args(t, n, name, args', depth', tok')
  }

  function NameEnd(t: string, i: nat): (e: nat)
    requires i <= |t|
    ensures i <= e <= |t|
    decreases |t| - i
  {
    if i < |t| && IsNameChar(t[i]) then NameEnd(t, i + 1) else i
  }

  predicate IsPad(c: char) { c == ' ' || c == '\t' }

  function PadEnd(t: string, i: nat): (e: nat)
    requires i <= |t|
    ensures i <= e <= |t|
    decreases |t| - i
  {
    if i < |t| && IsPad(t[i]) then PadEnd(t, i + 1) else i
  }

  /** One command, from its name at `i`: the command and the index after it. */
  function Command(t: string, i: nat): (r: Result<(Cmd, nat)>)
    requires i < |t|
    ensures r.Ok? ==> i < r.value.1 <= |t|
  {
    if !IsNameStart(t[i]) then Err(UnexpectedCharacter(t[i]))
    else
      var n := NameEnd(t, i);
      var name := Lower(t[i..n]);
      var open := PadEnd(t, n);
      if open == |t| || t[open] != '(' then Err(NoOpenParen(name))
      else
        match Args(t, open + 1, name, [], 1, "")
        case Err(e) => Err(e)
        case Ok((args, end)) => Ok((Cmd(name, args), end))
  }

  function Prepend(cmds: seq<Cmd>, r: Result<seq<Cmd>>): Result<seq<Cmd>> {
    match r case Ok(more) => Ok(cmds + more) case Err(e) => Err(e)
  }

  /** `parse_cmake` from index `i` on. */
  function Commands(t: string, i: nat): Result<seq<Cmd>>
    requires i <= |t|
    decreases |t| - i
  {
    if i == |t| then Ok([])
    else if IsSpace(t[i]) then Commands(t, i + 1)
    else if t[i] == '#' then
      match CommentEnd(t, i)
      case Err(e) => Err(e)
      case Ok(n) => Commands(t, n)
    else
      match Command(t, i)
      case Err(e) => Err(e)
      case Ok((c, n)) => Prepend([c], Commands(t, n))
  }

  // ------------------------------------------------------------- the methods

  /** The quoted-argument loop, from the opening quote at `i`. */
  method QuoteClose(text: string, i: nat) returns (j: nat)
    requires i < |text|
    ensures if j >= |text| then QuoteEnd(text, i + 1) == |text|
            else i < j && QuoteEnd(text, i + 1) == j
  {
    j := i + 1;
    while j < |text| && text[j] != '"'
      invariant i + 1 <= j
      invariant QuoteEnd(text, i + 1) == QuoteEnd(text, j)
    {
      j := j + if text[j] == '\\' then 2 else 1;
    }
  }

  /** One turn of the argument loop of `parse_cmake`, at index `i`. */
  method ReadElement(text: string, i: nat, name: string, args: seq<string>, depth: nat, tok: string)
    returns (st: Step)
    requires i < |text| && depth >= 1
    ensures st == ArgStep(text, i, name, args, depth, tok)
  {
    var c := text[i];
    if c == '#' {
      var end := CommentEnd(text, i);
      if end.Err? { return Fail(end.error); }
      return Next(end.value, Flush(args, tok), depth, "");
    }
    if c == '"' {
      var j := QuoteClose(text, i);
      if j >= |text| { return Fail(UnterminatedQuote(name)); }
      return Next(j + 1, args, depth, tok + text[i..j + 1]);
    }
    if c == '[' && tok == "" {
      var end := BracketEnd(text, i);
      if end.Err? { return Fail(end.error); }
      if end.value.Some? {
        return Next(end.value.value, args + [text[i..end.value.value]], depth, "");
      }
    }
    if IsSpace(c) || c == '(' || c == ')' {
      var flushed := Flush(args, tok);
      if c == '(' { return Next(i + 1, flushed + ["("], depth + 1, ""); }
      if c == ')' {
        if depth == 1 { return Done(i + 1, flushed); }
        return Next(i + 1, flushed + [")"], depth - 1, "");
      }
      return Next(i + 1, flushed, depth, "");
    }
    if c == '\\' && i + 1 < |text| {
      return Next(i + 2, args, depth, tok + text[i..i + 2]);
    }
    return Next(i + 1, args, depth, tok + [c]);
  }

  /** The argument loop of `parse_cmake`, from just after the opening parenthesis at `start`. */
  method ParseArgs(text: string, name: string, start: nat) returns (r: Result<(seq<string>, nat)>)
    requires start <= |text|
    ensures r == Args(text, start, name, [], 1, "")
  {
    var i := start;
    var args: seq<string>, depth: nat, tok := [], 1, "";
    while i < |text|
      invariant start <= i <= |text| && depth >= 1
      invariant Args(text, i, name, args, depth, tok) == Args(text, start, name, [], 1, "")
    {
      var st := ReadElement(text, i, name, args, depth, tok);
      match st
      case Fail(e) => return Err(e);
      case Done(n, all) => return Ok((all, n));
      case Next(n, args', depth', tok') => i, args, depth, tok := n, args', depth', tok';
    }
    return Err(UnbalancedParen(name));
  }

  method SkipPad(text: string, n: nat) returns (open: nat)
    requires n <= |text|
    ensures open == PadEnd(text, n)
  {
    open := n;
    while open < |text| && IsPad(text[open])
      invariant n <= open <= |text|
      invariant PadEnd(text, open) == PadEnd(text, n)
    {
      open := open + 1;
    }
  }

  /** One command of `parse_cmake`, from the character at `i` that should start its name. */
  method ParseCommand(text: string, i: nat) returns (r: Result<(Cmd, nat)>)
    requires i < |text|
    ensures r == Command(text, i)
  {
    if !IsNameStart(text[i]) { return Err(UnexpectedCharacter(text[i])); }
    var n := NameEnd(text, i);
    var name := Lower(text[i..n]);
    var open := SkipPad(text, n);
    if open >= |text| || text[open] != '(' { return Err(NoOpenParen(name)); }
    var args := ParseArgs(text, name, open + 1);
    if args.Err? { return Err(args.error); }
    return Ok((Cmd(name, args.value.0), args.value.1));
  }

  /** `parse_cmake`. */
  method ParseCMake(text: string) returns (r: Result<seq<Cmd>>)
    ensures r == Commands(text, 0)
  {
    var cmds: seq<Cmd> := [];
    var i := 0;
    assert Commands(text, 0).Ok? ==> [] + Commands(text, 0).value == Commands(text, 0).value;
    while i < |text|
      invariant 0 <= i <= |text|
      invariant Commands(text, 0) == Prepend(cmds, Commands(text, i))
    {
      if IsSpace(text[i]) {
        i := i + 1;
      } else if text[i] == '#' {
        var end := CommentEnd(text, i);
        if end.Err? { return Err(end.error); }
        i := end.value;
      } else {
        var cmd := ParseCommand(text, i);
        if cmd.Err? { return Err(cmd.error); }
        PrependMore(cmds, cmd.value.0, Commands(text, cmd.value.1));
        cmds := cmds + [cmd.value.0];
        i := cmd.value.1;
      }
    }
    assert cmds + [] == cmds;
    return Ok(cmds);
  }

  lemma PrependMore(cmds: seq<Cmd>, c: Cmd, r: Result<seq<Cmd>>)
    ensures Prepend(cmds, Prepend([c], r)) == Prepend(cmds + [c], r)
  {
    assert r.Ok? ==> cmds + ([c] + r.value) == cmds + [c] + r.value;
  }
}

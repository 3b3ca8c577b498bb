/** The offset-preserving blanker of ci/cxx_blank.py: comments, character and string literals and
    raw strings become spaces, newlines stay, and code is left as it is. `str.isalnum` and
    `str.isdigit` are parameters. */
module CxxBlank {
  import opened Text

  datatype Chars = Chars(isAlnum: char -> bool, isDigit: char -> bool)

  // ------------------------------------------------------------------- digit separators

  /** A character a numeric token may continue with. */
  predicate InToken(cs: Chars, c: char) {
    cs.isAlnum(c) || c == '\'' || c == '.'
  }

  /** Where the run of token characters that ends before `i` begins. */
  function TokenStart(cs: Chars, src: string, i: nat): (k: nat)
    requires i <= |src|
    ensures k <= i && (forall j | k <= j < i :: InToken(cs, src[j])) && (k > 0 ==> !InToken(cs, src[k - 1]))
  {
    if i > 0 && InToken(cs, src[i - 1]) then TokenStart(cs, src, i - 1) else i
  }

  /** The apostrophe at `i` stands between characters of a token that begins as a number does. */
  predicate IsSeparator(cs: Chars, src: string, i: nat)
    requires i < |src|
  {
    && 0 < i && i + 1 < |src| && cs.isAlnum(src[i - 1]) && cs.isAlnum(src[i + 1])
    && var k := TokenStart(cs, src, i);
       cs.isDigit(src[if src[k] == '.' then k + 1 else k])
  }

  method IsDigitSeparator(cs: Chars, src: string, i: nat) returns (r: bool)
    requires i < |src|
    ensures r <==> IsSeparator(cs, src, i)
  {
    if i == 0 || i + 1 >= |src| { return false; }
    if !(cs.isAlnum(src[i - 1]) && cs.isAlnum(src[i + 1])) { return false; }
    var j: int := i - 1;
    while j >= 0 && InToken(cs, src[j])
      invariant -1 <= j < i && TokenStart(cs, src, i) == TokenStart(cs, src, j + 1)
    {
      j := j - 1;
    }
    var k := j + 1;
    if k < |src| && src[k] == '.' { k := k + 1; }
    return k < |src| && cs.isDigit(src[k]);
  }

  // ------------------------------------------------------------------- the parts of a source

  predicate Two(src: string, i: nat, a: char, b: char) {
    i + 1 < |src| && src[i] == a && src[i + 1] == b
  }

  predicate InDelimiter(c: char) {
    !IsSpace(c) && c != '(' && c != ')' && c != '\\'
  }

  /** The end of the delimiter characters from `j`, at most `n` of them. */
  function DelimiterEnd(src: string, j: nat, n: nat): (e: nat)
    requires j <= |src|
    ensures j <= e <= |src|
    decreases n
  {
    if n > 0 && j < |src| && InDelimiter(src[j]) then DelimiterEnd(src, j + 1, n - 1) else j
  }

  /** The length of an encoding prefix with `R` and the quote, or 0. */
  function RawPrefix(src: string, i: nat): (k: nat)
    ensures k > 0 ==> 2 <= k && i + k <= |src| && src[i + k - 1] == '"'
  {
    if At(src, i, "u8R\"") then 4
    else if At(src, i, "uR\"") || At(src, i, "UR\"") || At(src, i, "LR\"") then 3
    else if At(src, i, "R\"") then 2
    else 0
  }

  /** Where the delimiter and the text of a raw string at `i` begin and end. */
  function RawOpen(src: string, i: nat): (r: Option<(nat, nat)>)
    ensures r.Some? ==> i + 2 <= r.value.0 <= r.value.1 < |src|
  {
    var k := RawPrefix(src, i);
    if k == 0 then None else
      var e := DelimiterEnd(src, i + k, 16);
      if e < |src| && src[e] == '(' then Some((i + k, e)) else None
  }

  function RawEnd(src: string, open: (nat, nat)): (e: nat)
    requires open.0 <= open.1 < |src|
    ensures open.1 < e <= |src|
  {
    var close := ")" + src[open.0..open.1] + "\"";
    match Find(src, close, open.1 + 1)
    case None => |src|
    case Some(j) => j + |close|
  }

  /** Past the newline that ends a line comment; a backslash before the newline continues it. */
  function LineEnd(src: string, j: nat): (e: nat)
    requires j <= |src|
    ensures j <= e <= |src|
    decreases |src| - j
  {
    if j == |src| then j
    else if Two(src, j, '\\', '\n') then LineEnd(src, j + 2)
    else if Two(src, j, '\\', '\r') && j + 2 < |src| && src[j + 2] == '\n' then LineEnd(src, j + 3)
    else if src[j] == '\n' then j + 1
    else LineEnd(src, j + 1)
  }

  function BlockEnd(src: string, j: nat): (e: nat)
    requires j <= |src|
    ensures j <= e <= |src|
    decreases |src| - j
  {
    if j == |src| then j else if Two(src, j, '*', '/') then j + 2 else BlockEnd(src, j + 1)
  }

  /** Past the closing quote of a literal; a backslash takes the next character with it. */
  function LiteralEnd(src: string, quote: char, j: nat): (e: nat)
    requires j <= |src|
    ensures j <= e <= |src|
    decreases |src| - j
  {
    if j == |src| then j
    else if src[j] == '\\' && j + 1 < |src| then LiteralEnd(src, quote, j + 2)
    else if src[j] == quote then j + 1
    else LiteralEnd(src, quote, j + 1)
  }

  datatype Part = Code | LineComment | BlockComment | Literal | RawString

  function PartAt(cs: Chars, src: string, i: nat): Part
    requires i < |src|
  {
    if RawOpen(src, i).Some? then RawString
    else if Two(src, i, '/', '/') then LineComment
    else if Two(src, i, '/', '*') then BlockComment
    else if src[i] == '\'' && IsSeparator(cs, src, i) then Code
    else if src[i] == '"' || src[i] == '\'' then Literal
    else Code
  }

  function PartEnd(cs: Chars, src: string, i: nat): (e: nat)
    requires i < |src|
    ensures i < e <= |src|
  {
    match PartAt(cs, src, i)
    case Code => i + 1
    case LineComment => LineEnd(src, i + 2)
    case BlockComment => BlockEnd(src, i + 2)
    case Literal => LiteralEnd(src, src[i], i + 1)
    case RawString => RawEnd(src, RawOpen(src, i).value)
  }

  // ------------------------------------------------------------------- the blanked text

  function Blank(c: char): char {
    if c == '\n' then '\n' else ' '
  }

  function Blanks(src: string, a: nat, b: nat): (r: string)
    requires a <= b <= |src|
    ensures |r| == b - a
  {
    seq(b - a, k requires 0 <= k < b - a => Blank(src[a + k]))
  }

  /** What the blanker makes of `src[i..]` when a part starts at `i`. */
  function Blanked(cs: Chars, src: string, i: nat): (r: string)
    requires i <= |src|
    ensures |r| == |src| - i
    decreases |src| - i
  {
    if i == |src| then "" else
      var e := PartEnd(cs, src, i);
      (if PartAt(cs, src, i).Code? then [src[i]] else Blanks(src, i, e)) + Blanked(cs, src, e)
  }

  // ------------------------------------------------------------------- the blanker

  datatype State = InCode | InLine | InBlock | InLiteral

  /** What is still to be written at `i` in each state. */
  function Rest(cs: Chars, src: string, state: State, quote: char, i: nat): string
    requires i <= |src|
  {
    match state
    case InCode => Blanked(cs, src, i)
    case InLine => var e := LineEnd(src, i); Blanks(src, i, e) + Blanked(cs, src, e)
    case InBlock => var e := BlockEnd(src, i); Blanks(src, i, e) + Blanked(cs, src, e)
    case InLiteral => var e := LiteralEnd(src, quote, i); Blanks(src, i, e) + Blanked(cs, src, e)
  }

  /** Writing the first blanks of a stretch leaves the others. */
  lemma Drain(cs: Chars, src: string, a: nat, b: nat, e: nat)
    requires a <= b <= e <= |src|
    ensures Blanks(src, a, e) + Blanked(cs, src, e) == Blanks(src, a, b) + (Blanks(src, b, e) + Blanked(cs, src, e))
  {
    hide Blanked;
    assert Blanks(src, a, e) == Blanks(src, a, b) + Blanks(src, b, e);
  }

  lemma NoBlanks(cs: Chars, src: string, e: nat)
    requires e <= |src|
    ensures Blanks(src, e, e) + Blanked(cs, src, e) == Blanked(cs, src, e)
  {
  }

  lemma BlankedStep(cs: Chars, src: string, i: nat)
    requires i < |src|
    ensures var e := PartEnd(cs, src, i);
            Blanked(cs, src, i) ==
            (if PartAt(cs, src, i).Code? then [src[i]] + Blanked(cs, src, i + 1) else Blanks(src, i, e) + Blanked(cs, src, e))
    ensures PartAt(cs, src, i).Code? ==> PartEnd(cs, src, i) == i + 1
  {
    hide PartAt;
  }

  /** One turn of the code state. */
  method CodeTurn(cs: Chars, src: string, i: nat) returns (written: string, j: nat, state: State, quote: char)
    requires i < |src|
    ensures i < j <= |src| && Blanked(cs, src, i) == written + Rest(cs, src, state, quote, j)
  {
    hide RawEnd, IsSeparator, RawOpen, Blanked, Blanks, LineEnd, BlockEnd, LiteralEnd;
    var e := PartEnd(cs, src, i);
    BlankedStep(cs, src, i);
    quote := ' ';
    var raw := RawOpen(src, i);
    if raw.Some? {
      j := RawEnd(src, raw.value);
      return Blanks(src, i, j), j, InCode, quote;
    }
    var separator := false;
    if src[i] == '\'' { separator := IsDigitSeparator(cs, src, i); }
    if Two(src, i, '/', '/') {
      written, j, state := Blanks(src, i, i + 2), i + 2, InLine;
      Drain(cs, src, i, j, e);
    } else if Two(src, i, '/', '*') {
      written, j, state := Blanks(src, i, i + 2), i + 2, InBlock;
      Drain(cs, src, i, j, e);
    } else if src[i] == '\'' && separator {
      written, j, state := [src[i]], i + 1, InCode;
    } else if src[i] == '"' || src[i] == '\'' {
      quote := src[i];
      written, j, state := Blanks(src, i, i + 1), i + 1, InLiteral;
      Drain(cs, src, i, j, e);
    } else {
      written, j, state := [src[i]], i + 1, InCode;
    }
  }

  method LineTurn(cs: Chars, src: string, i: nat) returns (j: nat, state: State)
    requires i < |src|
    ensures i < j <= |src| && forall q :: Rest(cs, src, InLine, q, i) == Blanks(src, i, j) + Rest(cs, src, state, q, j)
  {
    hide Blanked, Blanks;
    if Two(src, i, '\\', '\n') {
      j, state := i + 2, InLine;
    } else if src[i] == '\\' && i + 2 < |src| && src[i + 1] == '\r' && src[i + 2] == '\n' {
      j, state := i + 3, InLine;
    } else {
      j := i + 1;
      state := if src[i] == '\n' then InCode else InLine;
    }
    Drain(cs, src, i, j, LineEnd(src, i));
    if state == InCode { NoBlanks(cs, src, j); }
  }

  method BlockTurn(cs: Chars, src: string, i: nat) returns (j: nat, state: State)
    requires i < |src|
    ensures i < j <= |src| && forall q :: Rest(cs, src, InBlock, q, i) == Blanks(src, i, j) + Rest(cs, src, state, q, j)
  {
    hide Blanked, Blanks;
    if Two(src, i, '*', '/') {
      j, state := i + 2, InCode;
    } else {
      j, state := i + 1, InBlock;
    }
    Drain(cs, src, i, j, BlockEnd(src, i));
    if state == InCode { NoBlanks(cs, src, j); }
  }

  method LiteralTurn(cs: Chars, src: string, quote: char, i: nat) returns (j: nat, state: State)
    requires i < |src|
    ensures i < j <= |src| && Rest(cs, src, InLiteral, quote, i) == Blanks(src, i, j) + Rest(cs, src, state, quote, j)
  {
    hide Blanked, Blanks;
    j, state := i + 1, InLiteral;
    if src[i] == '\\' && j < |src| {
      j := j + 1;
    } else if src[i] == quote {
      state := InCode;
    }
    Drain(cs, src, i, j, LiteralEnd(src, quote, i));
    if state == InCode { NoBlanks(cs, src, j); }
  }

  method BlankNonCode(cs: Chars, src: string) returns (out: string)
    ensures out == Blanked(cs, src, 0)
  {
    hide Blanks, Blanked, Rest;
    out := "";
    RestOfCode(cs, src, ' ', 0);
    var i, state, quote := 0, InCode, ' ';
    while i < |src|
      invariant i <= |src| && Blanked(cs, src, 0) == out + Rest(cs, src, state, quote, i)
    {
      ghost var before := out;
      var written, j, next;
      match state {
        case InCode =>
          RestOfCode(cs, src, quote, i);
          written, j, next, quote := CodeTurn(cs, src, i);
        case InLine => j, next := LineTurn(cs, src, i); written := Blanks(src, i, j);
        case InBlock => j, next := BlockTurn(cs, src, i); written := Blanks(src, i, j);
        case InLiteral => j, next := LiteralTurn(cs, src, quote, i); written := Blanks(src, i, j);
      }
      out := out + written;
      assert before + (written + Rest(cs, src, next, quote, j)) == out + Rest(cs, src, next, quote, j);
      i, state := j, next;
    }
    RestEnds(cs, src, state, quote);
    assert out + "" == out;
  }

  lemma RestOfCode(cs: Chars, src: string, quote: char, i: nat)
    requires i <= |src|
    ensures Rest(cs, src, InCode, quote, i) == Blanked(cs, src, i)
  {
  }

  lemma RestEnds(cs: Chars, src: string, state: State, quote: char)
    ensures Rest(cs, src, state, quote, |src|) == ""
  {
  }

  // ------------------------------------------------------------------- theorems

  /** A part begins at `p`, reading the parts from `i` on. */
  predicate Begins(cs: Chars, src: string, i: nat, p: nat)
    requires i <= |src|
    decreases |src| - i
  {
    i == p || (i < p && i < |src| && Begins(cs, src, PartEnd(cs, src, i), p))
  }

  predicate IsCode(cs: Chars, src: string, i: nat, p: nat)
    requires i <= |src|
  {
    p < |src| && Begins(cs, src, i, p) && PartAt(cs, src, p).Code?
  }

  /** Every character of code is kept, every other one is blanked. */
  lemma {:induction false} KeptExactly(cs: Chars, src: string, i: nat, p: nat)
    requires i <= p < |src|
    ensures Blanked(cs, src, i)[p - i] == (if IsCode(cs, src, i, p) then src[p] else Blank(src[p]))
    decreases |src| - i
  {
    hide PartAt, PartEnd, Blanked;
    var e := PartEnd(cs, src, i);
    BlankedStep(cs, src, i);
    if e <= p {
      assert Blanked(cs, src, i)[p - i] == Blanked(cs, src, e)[p - e];
      KeptExactly(cs, src, e, p);
    } else {
      assert !Begins(cs, src, e, p);
      assert IsCode(cs, src, i, p) <==> PartAt(cs, src, i).Code?;
    }
  }

  /** The offset-preserving contract: one length, and each character unchanged or a space in
      place of something other than a newline. */
  lemma OffsetsArePreserved(cs: Chars, src: string)
    ensures |Blanked(cs, src, 0)| == |src|
    ensures forall p | 0 <= p < |src| ::
              Blanked(cs, src, 0)[p] == src[p] || (Blanked(cs, src, 0)[p] == ' ' && src[p] != '\n')
  {
    hide Blanked, IsCode;
    forall p | 0 <= p < |src|
      ensures Blanked(cs, src, 0)[p] == src[p] || (Blanked(cs, src, 0)[p] == ' ' && src[p] != '\n')
    {
      KeptExactly(cs, src, 0, p);
    }
  }

  /** Nothing that opens a literal or a comment is left. */
  lemma NothingOpens(cs: Chars, src: string)
    ensures '"' !in Blanked(cs, src, 0)
    ensures forall p | 0 <= p :: !Two(Blanked(cs, src, 0), p, '/', '/') && !Two(Blanked(cs, src, 0), p, '/', '*')
  {
    hide Blanked, Begins, RawOpen, IsSeparator;
    forall p | 0 <= p < |src|
      ensures Blanked(cs, src, 0)[p] != '"'
      ensures Blanked(cs, src, 0)[p] == '/' ==> PartAt(cs, src, p).Code? && src[p] == '/'
    {
      KeptExactly(cs, src, 0, p);
    }
    forall p: nat
      ensures !Two(Blanked(cs, src, 0), p, '/', '/') && !Two(Blanked(cs, src, 0), p, '/', '*')
    {
      if p + 1 < |src| { KeptExactly(cs, src, 0, p + 1); }
    }
  }

  // ------------------------------------------------------------------- where the parts end

  /** The newline at `k` is continued by a backslash, or a backslash and a carriage return,
      inside the comment text that starts at `j`. */
  predicate Spliced(src: string, j: nat, k: nat)
    requires k < |src|
  {
    (j < k && src[k - 1] == '\\') || (j + 1 < k && src[k - 1] == '\r' && src[k - 2] == '\\')
  }

  predicate EndsLine(src: string, j: nat, k: nat)
    requires k < |src|
  {
    src[k] == '\n' && !Spliced(src, j, k)
  }

  /** `e` is past the first newline of `src[j..]` that is not spliced, or the end. */
  predicate IsFirstLineEnd(src: string, j: nat, e: nat)
    requires j <= e <= |src|
  {
    (e == |src| || (e > j && EndsLine(src, j, e - 1))) && forall k | j <= k < e - 1 :: !EndsLine(src, j, k)
  }

  /** A line comment ends with the first newline that is not spliced. */
  lemma {:induction false} LineEndsFirst(src: string, j: nat, i: nat)
    requires j <= i <= |src|
    requires forall k | j <= k < i :: !EndsLine(src, j, k)
    requires i == j || src[i - 1] != '\\' || i == |src| || src[i] != '\n'
    requires i < j + 2 || src[i - 2] != '\\' || src[i - 1] != '\r' || i == |src| || src[i] != '\n'
    requires i == j || src[i - 1] != '\\' || !Two(src, i, '\r', '\n')
    ensures IsFirstLineEnd(src, j, LineEnd(src, i))
    decreases |src| - i
  {
    if i < |src| {
      if Two(src, i, '\\', '\n') {
        LineEndsFirst(src, j, i + 2);
      } else if Two(src, i, '\\', '\r') && i + 2 < |src| && src[i + 2] == '\n' {
        LineEndsFirst(src, j, i + 3);
      } else if src[i] != '\n' {
        LineEndsFirst(src, j, i + 1);
      }
    }
  }

  /** The backslashes right before `k`, back to `j`. */
  function Backslashes(src: string, j: nat, k: nat): nat
    requires j <= k <= |src|
    decreases k
  {
    if k > j && src[k - 1] == '\\' then Backslashes(src, j, k - 1) + 1 else 0
  }

  predicate Closes(src: string, quote: char, j: nat, k: nat)
    requires j <= k < |src|
  {
    src[k] == quote && Backslashes(src, j, k) % 2 == 0
  }

  /** `e` is past the first closing quote of `src[j..]`, or the end. */
  predicate IsFirstClose(src: string, quote: char, j: nat, e: nat)
    requires j <= e <= |src|
  {
    (e == |src| || (e > j && Closes(src, quote, j, e - 1))) && forall k | j <= k < e - 1 :: !Closes(src, quote, j, k)
  }

  /** A literal ends with the first quote that an even number of backslashes precedes. */
  lemma {:induction false} LiteralEndsFirst(src: string, quote: char, j: nat, i: nat)
    requires j <= i <= |src| && quote != '\\' && Backslashes(src, j, i) % 2 == 0
    requires forall k | j <= k < i :: !Closes(src, quote, j, k)
    ensures IsFirstClose(src, quote, j, LiteralEnd(src, quote, i))
    decreases |src| - i
  {
    if i < |src| {
      if src[i] == '\\' && i + 1 < |src| {
        assert Backslashes(src, j, i + 1) == Backslashes(src, j, i) + 1;
        assert Backslashes(src, j, i + 2) % 2 == 0;
        LiteralEndsFirst(src, quote, j, i + 2);
      } else if src[i] != quote && i + 1 < |src| {
        LiteralEndsFirst(src, quote, j, i + 1);
      }
    }
  }

  /** A block comment ends with the first star and slash after its opening. */
  lemma {:induction false} BlockEndsFirst(src: string, j: nat)
    requires j <= |src|
    ensures var e := BlockEnd(src, j);
            && (e == |src| || (e >= j + 2 && Two(src, e - 2, '*', '/')))
            && forall k | j <= k < e - 2 :: !Two(src, k, '*', '/')
    decreases |src| - j
  {
    if j < |src| && !Two(src, j, '*', '/') { BlockEndsFirst(src, j + 1); }
  }

  /** Where the parts of a source end: a line comment with the first newline no backslash continues. */
  lemma LineCommentEnds(cs: Chars, src: string, i: nat)
    requires i < |src| && PartAt(cs, src, i).LineComment?
    ensures i + 2 <= PartEnd(cs, src, i) && IsFirstLineEnd(src, i + 2, PartEnd(cs, src, i))
  {
    hide RawOpen, EndsLine, IsSeparator;
    LineEndsFirst(src, i + 2, i + 2);
  }

  /** A block comment with the first star and slash after its opening. */
  lemma BlockCommentEnds(cs: Chars, src: string, i: nat)
    requires i < |src| && PartAt(cs, src, i).BlockComment?
    ensures var e := PartEnd(cs, src, i);
            && (e == |src| || (e >= i + 4 && Two(src, e - 2, '*', '/')))
            && forall k | i + 2 <= k < e - 2 :: !Two(src, k, '*', '/')
  {
    hide RawOpen, IsSeparator;
    BlockEndsFirst(src, i + 2);
  }

  /** A literal with the first quote of its kind that an even number of backslashes precedes. */
  lemma LiteralPartEnds(cs: Chars, src: string, i: nat)
    requires i < |src| && PartAt(cs, src, i).Literal?
    ensures IsFirstClose(src, src[i], i + 1, PartEnd(cs, src, i))
  {
    hide RawOpen, IsSeparator;
    LiteralEndsFirst(src, src[i], i + 1, i + 1);
  }

  /** A raw string with the first closing parenthesis, delimiter and quote after its opening one. */
  lemma RawStringEnds(cs: Chars, src: string, i: nat)
    requires i < |src| && PartAt(cs, src, i).RawString?
    ensures var e := PartEnd(cs, src, i);
            var (from, open) := RawOpen(src, i).value;
            var close := ")" + src[from..open] + "\"";
            && src[open] == '('
            && (e == |src| || (open + 1 + |close| <= e && At(src, e - |close|, close)))
            && forall k | open < k < e - |close| :: !At(src, k, close)
  {
    hide Find, At, IsSeparator, RawPrefix, DelimiterEnd;
    var (from, open) := RawOpen(src, i).value;
    var close := ")" + src[from..open] + "\"";
    FindFirst(src, close, open + 1);
  }

  // ------------------------------------------------------------------- where the parts begin

  predicate IsPrefix(s: string) { s == "" || s == "u8" || s == "u" || s == "U" || s == "L" }

  /** At most 16 characters other than white space, parentheses and backslashes. */
  predicate IsDelimiter(s: string) {
    |s| <= 16 && forall k | 0 <= k < |s| :: !IsSpace(s[k]) && s[k] != '(' && s[k] != ')' && s[k] != '\\'
  }

  predicate OpensRaw(src: string, i: nat, prefix: string, delimiter: string) {
    IsPrefix(prefix) && IsDelimiter(delimiter) && At(src, i, prefix + "R\"" + delimiter + "(")
  }

  /** The first character of the word at `i`. */
  lemma AtFirst(src: string, i: nat, w: string, k: nat)
    requires At(src, i, w) && k < |w|
    ensures src[i + k] == w[k]
  {
    assert src[i..i + |w|][k] == w[k];
  }

  lemma PrefixIs(src: string, i: nat, prefix: string)
    requires IsPrefix(prefix) && At(src, i, prefix + "R\"")
    ensures RawPrefix(src, i) == |prefix| + 2
  {
    var w := prefix + "R\"";
    assert "u8R\"" == "u8" + "R\"" && "uR\"" == "u" + "R\"" && "UR\"" == "U" + "R\"" && "LR\"" == "L" + "R\"";
    AtFirst(src, i, w, 0);
    AtFirst(src, i, w, 1);
    Excludes(src, i, "u8R\"", 0);
    Excludes(src, i, "u8R\"", 1);
    Excludes(src, i, "uR\"", 0);
    Excludes(src, i, "uR\"", 1);
    Excludes(src, i, "UR\"", 0);
    Excludes(src, i, "LR\"", 0);
    assert prefix == "" ==> w == "R\"";
  }

  lemma Excludes(src: string, i: nat, w: string, k: nat)
    requires k < |w| && i + k < |src|
    ensures src[i + k] != w[k] ==> !At(src, i, w)
  {
    if At(src, i, w) { AtFirst(src, i, w, k); }
  }

  lemma {:induction false} DelimiterIs(src: string, j: nat, n: nat, m: nat)
    requires j + m < |src| && m <= n && src[j + m] == '(' && forall k | j <= k < j + m :: InDelimiter(src[k])
    ensures DelimiterEnd(src, j, n) == j + m
    decreases m
  {
    if m > 0 { DelimiterIs(src, j + 1, n - 1, m - 1); }
  }

  lemma {:induction false} DelimiterHolds(src: string, j: nat, n: nat)
    requires j <= |src|
    ensures var e := DelimiterEnd(src, j, n); e - j <= n && forall k | j <= k < e :: InDelimiter(src[k])
    decreases n
  {
    if n > 0 && j < |src| && InDelimiter(src[j]) { DelimiterHolds(src, j + 1, n - 1); }
  }

  /** A raw string opens exactly where a prefix, `R`, a quote, a delimiter and a parenthesis stand,
      and its text begins after them. */
  lemma RawOpens(src: string, i: nat, prefix: string, delimiter: string)
    requires OpensRaw(src, i, prefix, delimiter)
    ensures RawOpen(src, i) == Some((i + |prefix| + 2, i + |prefix| + 2 + |delimiter|))
  {
    hide RawPrefix, DelimiterEnd, At, IsPrefix;
    var head := prefix + "R\"";
    assert head + delimiter + "(" == head + (delimiter + "(");
    AtConcat(src, i, head, delimiter + "(");
    PrefixIs(src, i, prefix);
    var j := i + |head|;
    AtConcat(src, j, delimiter, "(");
    AtChar(src, j + |delimiter|, '(');
    forall k | j <= k < j + |delimiter| ensures InDelimiter(src[k]) { AtFirst(src, j, delimiter, k - j); }
    DelimiterIs(src, j, 16, |delimiter|);
  }

  lemma RawOpened(src: string, i: nat) returns (prefix: string, delimiter: string)
    requires RawOpen(src, i).Some?
    ensures OpensRaw(src, i, prefix, delimiter)
  {
    hide DelimiterEnd, At, IsSpace;
    prefix := PrefixOf(src, i);
    var (j, e) := RawOpen(src, i).value;
    DelimiterHolds(src, j, 16);
    delimiter := src[j..e];
    var head := prefix + "R\"";
    assert At(src, j, delimiter) by { AtSlice(src, j, e); }
    AtChar(src, e, '(');
    AtConcat(src, j, delimiter, "(");
    AtConcat(src, i, head, delimiter + "(");
    assert head + delimiter + "(" == head + (delimiter + "(");
  }

  lemma AtSlice(src: string, j: nat, e: nat)
    requires j <= e <= |src|
    ensures At(src, j, src[j..e])
  {
  }

  lemma PrefixOf(src: string, i: nat) returns (prefix: string)
    requires RawPrefix(src, i) > 0
    ensures IsPrefix(prefix) && At(src, i, prefix + "R\"") && RawPrefix(src, i) == |prefix| + 2
  {
    hide At;
    prefix := if At(src, i, "u8R\"") then "u8" else if At(src, i, "uR\"") then "u" else if At(src, i, "UR\"") then "U"
              else if At(src, i, "LR\"") then "L" else "";
    assert "u8" + "R\"" == "u8R\"" && "u" + "R\"" == "uR\"" && "U" + "R\"" == "UR\"" && "L" + "R\"" == "LR\"";
    assert "" + "R\"" == "R\"";
  }

  /** The apostrophe at `i` stands between two alphanumerics in a run of alphanumerics, apostrophes
      and dots that begins, at `k`, with a digit or with a dot and a digit. */
  predicate SeparatesFrom(cs: Chars, src: string, i: nat, k: nat)
    requires i < |src|
  {
    && k < i && i + 1 < |src| && cs.isAlnum(src[i - 1]) && cs.isAlnum(src[i + 1])
    && (forall j | k <= j < i :: cs.isAlnum(src[j]) || src[j] == '\'' || src[j] == '.')
    && (k > 0 ==> !cs.isAlnum(src[k - 1]) && src[k - 1] != '\'' && src[k - 1] != '.')
    && (if src[k] == '.' then cs.isDigit(src[k + 1]) else cs.isDigit(src[k]))
  }

  lemma SeparatorExactly(cs: Chars, src: string, i: nat)
    requires i < |src|
    ensures IsSeparator(cs, src, i) <==> exists k: nat | k < |src| :: SeparatesFrom(cs, src, i, k)
  {
    var start := TokenStart(cs, src, i);
    if IsSeparator(cs, src, i) {
      assert InToken(cs, src[i - 1]);
      assert start < i;
      assert SeparatesFrom(cs, src, i, start);
    }
    if k: nat :| k < |src| && SeparatesFrom(cs, src, i, k) { StartIsUnique(cs, src, i, k, start); }
  }

  lemma StartIsUnique(cs: Chars, src: string, i: nat, k: nat, l: nat)
    requires i < |src| && k <= i && l <= i
    requires (forall j | k <= j < i :: InToken(cs, src[j])) && (k > 0 ==> !InToken(cs, src[k - 1]))
    requires (forall j | l <= j < i :: InToken(cs, src[j])) && (l > 0 ==> !InToken(cs, src[l - 1]))
    ensures k == l
  {
  }

  ghost predicate IsRawAt(src: string, i: nat) {
    exists prefix, delimiter :: OpensRaw(src, i, prefix, delimiter)
  }

  ghost predicate IsSeparatorAt(cs: Chars, src: string, i: nat)
    requires i < |src|
  {
    src[i] == '\'' && exists k: nat | k < |src| :: SeparatesFrom(cs, src, i, k)
  }

  /** What begins at a place of the code: a raw string, a comment, a literal at every double quote
      and at every apostrophe that is no digit separator, or code. */
  lemma PartExactly(cs: Chars, src: string, i: nat)
    requires i < |src|
    ensures PartAt(cs, src, i) ==
            if IsRawAt(src, i) then RawString
            else if At(src, i, "//") then LineComment
            else if At(src, i, "/*") then BlockComment
            else if (src[i] == '"' || src[i] == '\'') && !IsSeparatorAt(cs, src, i) then Literal
            else Code
  {
    hide RawOpen, At, IsSeparator, SeparatesFrom, OpensRaw;
    RawIs(src, i);
    TwoIs(src, i, '/', '/');
    TwoIs(src, i, '/', '*');
    assert "//" == ['/', '/'] && "/*" == ['/', '*'];
    SeparatorExactly(cs, src, i);
  }

  lemma RawIs(src: string, i: nat)
    ensures RawOpen(src, i).Some? <==> IsRawAt(src, i)
  {
    hide RawOpen, OpensRaw;
    if RawOpen(src, i).Some? { var prefix, delimiter := RawOpened(src, i); }
    if prefix, delimiter :| OpensRaw(src, i, prefix, delimiter) { RawOpens(src, i, prefix, delimiter); }
  }

  lemma TwoIs(src: string, i: nat, a: char, b: char)
    ensures Two(src, i, a, b) <==> At(src, i, [a, b])
  {
    if i + 1 < |src| { assert src[i..i + 2] == [src[i], src[i + 1]]; }
  }
}

/** The shell-argument splitter of ci/assert-ccache-floor-callers.py (`split_args`): quotes,
    empty arguments, folded continuations, and GitHub expressions that stay in one token. */
module SplitArgs {
  import opened Text

  const OPEN := "${{"
  const CLOSE := "}}"

  predicate IsQuote(c: char) { c == '"' || c == '\'' }

  /** Where the GitHub expression that opens at `i` ends. */
  function ExpressionEnd(text: string, i: nat): (e: nat)
    requires At(text, i, OPEN)
    ensures i < e <= |text|
  {
    match Find(text, CLOSE, i)
    case None => |text|
    case Some(k) => k + 2
  }

  /** The tokens still to come at `i`: inside a quote or not, with a token begun or not. */
  function Scan(text: string, i: nat, quote: Option<char>, cur: string, started: bool): seq<string>
    requires i <= |text|
    decreases |text| - i
  {
    if i == |text| then (if started then [cur] else [])
    else if quote.Some? then
      if text[i] == quote.value then Scan(text, i + 1, None, cur, started)
      else Scan(text, i + 1, quote, cur + [text[i]], started)
    else if At(text, i, OPEN) then
      var e := ExpressionEnd(text, i);
      Scan(text, e, None, cur + text[i..e], true)
    else if IsQuote(text[i]) then Scan(text, i + 1, Some(text[i]), cur, true)
    else if text[i] == '\\' then Scan(text, i + 1, None, cur, started)
    else if IsSpace(text[i]) then
      (if started then [cur] else []) + Scan(text, i + 1, None, if started then "" else cur, false)
    else Scan(text, i + 1, None, cur + [text[i]], true)
  }

  function Split(text: string): seq<string> {
    Scan(text, 0, None, "", false)
  }

  method SplitArgs(text: string) returns (out: seq<string>)
    ensures out == Split(text)
  {
    hide Find, IsSpace, At;
    out := [];
    var cur, quote: Option<char>, started, i := "", None, false, 0;
    while i < |text|
      invariant i <= |text| && Split(text) == out + Scan(text, i, quote, cur, started)
    {
      var ch := text[i];
      if quote.Some? {
        if ch == quote.value { quote := None; } else { cur := cur + [ch]; }
        i := i + 1;
        continue;
      }
      if At(text, i, OPEN) {
        var end := ExpressionEnd(text, i);
        cur, started, i := cur + text[i..end], true, end;
        continue;
      }
      if IsQuote(ch) {
        quote, started, i := Some(ch), true, i + 1;
        continue;
      }
      if ch == '\\' {
        i := i + 1;
        continue;
      }
      if IsSpace(ch) {
        if started {
          assert out + ([cur] + Scan(text, i + 1, None, "", false)) == out + [cur] + Scan(text, i + 1, None, "", false);
          out := out + [cur];
          cur, started := "", false;
        }
        i := i + 1;
        continue;
      }
      cur, started, i := cur + [ch], true, i + 1;
    }
    if started { out := out + [cur]; }
  }

  // ------------------------------------------------------------------- a grammar of argument text

  /** A piece of argument text. The last two run to the end of the text. */
  datatype Piece =
    | Space(c: char)
    | Continuation
    | Plain(c: char)
    | Quoted(quote: char, text: string)
    | Expression(text: string)
    | OpenQuote(quote: char, text: string)
    | OpenExpression(text: string)

  function Written(p: Piece): string {
    match p
    case Space(c) => [c]
    case Continuation => "\\"
    case Plain(c) => [c]
    case Quoted(q, t) => [q] + t + [q]
    case Expression(t) => OPEN + t + CLOSE
    case OpenQuote(q, t) => [q] + t
    case OpenExpression(t) => OPEN + t
  }

  /** What a piece adds to its token. */
  function Value(p: Piece): string {
    match p
    case Quoted(_, t) => t
    case OpenQuote(_, t) => t
    case _ => Written(p)
  }

  predicate IsOpenEnded(p: Piece) { p.OpenQuote? || p.OpenExpression? }

  predicate ValidPiece(p: Piece) {
    match p
    case Space(c) => IsSpace(c)
    case Continuation => true
    case Plain(c) => !IsQuote(c) && !IsSpace(c) && c != '\\'
    case Quoted(q, t) => IsQuote(q) && q !in t
    case Expression(t) => Find(Written(p), CLOSE, 0) == Some(|Written(p)| - 2)
    case OpenQuote(q, t) => IsQuote(q) && q !in t
    case OpenExpression(t) => Find(Written(p), CLOSE, 0) == None
  }

  function WrittenAll(ps: seq<Piece>): string {
    if ps == [] then "" else Written(ps[0]) + WrittenAll(ps[1..])
  }

  /** Well-formed pieces: a plain dollar sign opens no expression with what follows it, and
      nothing follows a piece that runs to the end. */
  predicate Valid(ps: seq<Piece>) {
    ps == [] ||
    (&& ValidPiece(ps[0])
     && (IsOpenEnded(ps[0]) ==> |ps| == 1)
     && (ps[0] == Plain('$') ==> !("{{" <= WrittenAll(ps[1..])))
     && Valid(ps[1..]))
  }

  /** The tokens: whitespace separates them, continuations vanish. */
  function Tokens(ps: seq<Piece>, cur: string, started: bool): seq<string> {
    if ps == [] then (if started then [cur] else [])
    else if ps[0].Continuation? then Tokens(ps[1..], cur, started)
    else if ps[0].Space? then
      (if started then [cur] else []) + Tokens(ps[1..], if started then "" else cur, false)
    else Tokens(ps[1..], cur + Value(ps[0]), true)
  }

  // ------------------------------------------------------------------- pieces are read back

  /** Inside a quote, the characters up to `k` join the token. */
  lemma {:induction false} ScanQuoted(text: string, i: nat, q: char, t: string, k: nat, cur: string)
    requires At(text, i, t) && k <= |t| && q !in t
    ensures Scan(text, i + k, Some(q), cur + t[..k], true) == Scan(text, i + |t|, Some(q), cur + t, true)
    decreases |t| - k
  {
    hide IsSpace;
    if k < |t| {
      assert t[k] == text[i..i + |t|][k] == text[i + k];
      assert cur + t[..k] + [text[i + k]] == cur + t[..k + 1];
      ScanQuoted(text, i, q, t, k + 1, cur);
    } else {
      assert t[..k] == t;
    }
  }

  lemma OpenIs(text: string, i: nat)
    requires i < |text|
    ensures At(text, i, OPEN) <==> text[i] == '$' && "{{" <= text[i + 1..]
  {
    if i + 3 <= |text| { assert text[i..i + 3] == [text[i]] + text[i + 1..][..2]; }
  }

  /** The opening quote: what is between it and its end joins the token. */
  lemma ScanQuote(text: string, i: nat, q: char, t: string, cur: string, started: bool)
    requires IsQuote(q) && q !in t && At(text, i, [q] + t)
    ensures Scan(text, i, None, cur, started) == Scan(text, i + 1 + |t|, Some(q), cur + t, true)
  {
    hide IsSpace;
    AtConcat(text, i, [q], t);
    AtChar(text, i, q);
    OpenIs(text, i);
    ScanQuoted(text, i + 1, q, t, 0, cur);
    assert cur + t[..0] == cur;
  }

  lemma ScanExpression(text: string, i: nat, w: string, cur: string, started: bool)
    requires At(text, i, OPEN) && At(text, i, w) && ExpressionEnd(text, i) == i + |w|
    ensures Scan(text, i, None, cur, started) == Scan(text, i + |w|, None, cur + w, true)
  {
    hide Find, IsSpace;
  }

  /** A piece that ends before the text does. */
  lemma ScanPiece(text: string, i: nat, p: Piece, cur: string, started: bool)
    requires ValidPiece(p) && !IsOpenEnded(p) && At(text, i, Written(p))
    requires p == Plain('$') ==> !("{{" <= text[i + 1..])
    ensures var j := i + |Written(p)|;
            Scan(text, i, None, cur, started) ==
            if p.Continuation? then Scan(text, j, None, cur, started)
            else if p.Space? then
              (if started then [cur] else []) + Scan(text, j, None, if started then "" else cur, false)
            else Scan(text, j, None, cur + Value(p), true)
  {
    match p
    case Quoted(q, t) =>
      hide IsSpace;
      AtConcat(text, i, [q] + t, [q]);
      AtChar(text, i + 1 + |t|, q);
      ScanQuote(text, i, q, t, cur, started);
    case Expression(t) =>
      AtConcat(text, i, OPEN, t + CLOSE);
      assert OPEN + (t + CLOSE) == Written(p);
      FindWithin(text, i, Written(p), CLOSE, 0);
      ScanExpression(text, i, Written(p), cur, started);
    case _ => ScanChar(text, i, p, cur, started);
  }

  lemma ScanChar(text: string, i: nat, p: Piece, cur: string, started: bool)
    requires ValidPiece(p) && (p.Space? || p.Continuation? || p.Plain?) && At(text, i, Written(p))
    requires p == Plain('$') ==> !("{{" <= text[i + 1..])
    ensures Scan(text, i, None, cur, started) ==
            if p.Continuation? then Scan(text, i + 1, None, cur, started)
            else if p.Space? then
              (if started then [cur] else []) + Scan(text, i + 1, None, if started then "" else cur, false)
            else Scan(text, i + 1, None, cur + Value(p), true)
  {
    assert !IsSpace('\\') && !IsSpace('"') && !IsSpace('\'') && !IsSpace('$');
    AtChar(text, i, Written(p)[0]);
    OpenIs(text, i);
    hide IsSpace;
  }

  /** A piece that runs to the end of the text. */
  lemma ScanOpenEnded(text: string, i: nat, p: Piece, cur: string, started: bool)
    requires ValidPiece(p) && IsOpenEnded(p) && At(text, i, Written(p)) && i + |Written(p)| == |text|
    ensures Scan(text, i, None, cur, started) == [cur + Value(p)]
  {
    hide IsSpace;
    match p
    case OpenQuote(q, t) => ScanQuote(text, i, q, t, cur, started);
    case OpenExpression(t) =>
      AtConcat(text, i, OPEN, t);
      FindNowhere(text, i, Written(p), 0);
      ScanExpression(text, i, Written(p), cur, started);
  }

  lemma {:induction false} FindNowhere(text: string, i: nat, w: string, j: nat)
    requires At(text, i, w) && i + |w| == |text| && j <= |w| && Find(w, CLOSE, j).None?
    ensures Find(text, CLOSE, i + j).None?
    decreases |w| - j
  {
    if j + 2 <= |w| { AtWithin(text, i, w, j, CLOSE); }
    if j < |w| { FindNowhere(text, i, w, j + 1); }
  }

  /** Well-formed text is split into its tokens. */
  lemma {:induction false} ReadPieces(text: string, i: nat, ps: seq<Piece>, cur: string, started: bool)
    requires Valid(ps) && i <= |text| && text[i..] == WrittenAll(ps)
    ensures Scan(text, i, None, cur, started) == Tokens(ps, cur, started)
    decreases |ps|
  {
    hide ValidPiece, Written, Value;
    if ps == [] {
      assert i == |text|;
    } else {
      hide Scan;
      var p, rest := ps[0], ps[1..];
      var j := i + |Written(p)|;
      assert text[i..] == Written(p) + WrittenAll(rest);
      assert At(text, i, Written(p)) && text[j..] == WrittenAll(rest);
      if IsOpenEnded(p) {
        assert rest == [];
        ScanOpenEnded(text, i, p, cur, started);
      } else {
        PlainLength(p);
        ScanPiece(text, i, p, cur, started);
        if p.Space? {
          ReadPieces(text, j, rest, if started then "" else cur, false);
        } else if p.Continuation? {
          ReadPieces(text, j, rest, cur, started);
        } else {
          ReadPieces(text, j, rest, cur + Value(p), true);
        }
      }
    }
  }

  lemma PlainLength(p: Piece)
    ensures p.Plain? ==> |Written(p)| == 1
  {
  }

  // ------------------------------------------------------------------- every text is well formed

  /** The piece at `i`. */
  lemma PieceAt(text: string, i: nat) returns (p: Piece)
    requires i < |text|
    ensures ValidPiece(p) && At(text, i, Written(p)) && Written(p) != ""
    ensures IsOpenEnded(p) ==> i + |Written(p)| == |text|
    ensures p == Plain('$') ==> !("{{" <= text[i + 1..])
  {
    if At(text, i, OPEN) {
      p := ExpressionAt(text, i);
    } else if IsQuote(text[i]) {
      p := QuoteAt(text, i);
    } else {
      var c := text[i];
      AtChar(text, i, c);
      OpenIs(text, i);
      p := if c == '\\' then Continuation else if IsSpace(c) then Space(c) else Plain(c);
    }
  }

  lemma ExpressionAt(text: string, i: nat) returns (p: Piece)
    requires At(text, i, OPEN)
    ensures (p.Expression? || p.OpenExpression?) && ValidPiece(p) && At(text, i, Written(p))
    ensures i + |Written(p)| == ExpressionEnd(text, i) && (p.OpenExpression? ==> i + |Written(p)| == |text|)
  {
    hide Find;
    CloseAfterOpen(text, i);
    if Find(text, CLOSE, i).Some? {
      p := ClosedExpressionAt(text, i);
    } else {
      p := OpenExpressionAt(text, i);
    }
  }

  lemma ClosedExpressionAt(text: string, i: nat) returns (p: Piece)
    requires At(text, i, OPEN) && Find(text, CLOSE, i).Some? && Find(text, CLOSE, i).value >= i + 3
    ensures p.Expression? && ValidPiece(p) && At(text, i, Written(p)) && i + |Written(p)| == Find(text, CLOSE, i).value + 2
  {
    hide Find;
    FindFirst(text, CLOSE, i);
    var e := Find(text, CLOSE, i).value + 2;
    var w := text[i..e];
    p := Expression(w[3..|w| - 2]);
    assert w[..3] == text[i..i + 3] && w[|w| - 2..] == text[e - 2..e];
    assert w == OPEN + w[3..|w| - 2] + CLOSE;
    FindCut(text, i, w, CLOSE, 0);
  }

  lemma OpenExpressionAt(text: string, i: nat) returns (p: Piece)
    requires At(text, i, OPEN) && Find(text, CLOSE, i).None?
    ensures p.OpenExpression? && ValidPiece(p) && At(text, i, Written(p)) && i + |Written(p)| == |text|
  {
    hide Find;
    var w := text[i..];
    p := OpenExpression(w[3..]);
    assert w[..3] == text[i..i + 3];
    assert w == OPEN + w[3..];
    FoundNowhere(text, i, w, 0);
  }

  lemma CloseAfterOpen(text: string, i: nat)
    requires At(text, i, OPEN)
    ensures Find(text, CLOSE, i).Some? ==> Find(text, CLOSE, i).value >= i + 3
    ensures ExpressionEnd(text, i) >= i + 3
  {
    FindFirst(text, CLOSE, i);
    forall k | i <= k < i + 3 ensures !At(text, k, CLOSE) {
      assert text[k] == text[i..i + 3][k - i];
      AtConcat(text, k, "}", "}");
      AtChar(text, k, '}');
    }
  }

  lemma {:induction false} FoundNowhere(text: string, i: nat, w: string, j: nat)
    requires At(text, i, w) && j <= |w| && Find(text, CLOSE, i + j).None?
    ensures Find(w, CLOSE, j).None?
    decreases |w| - j
  {
    if j + 2 <= |w| { AtWithin(text, i, w, j, CLOSE); }
    if j < |w| { FoundNowhere(text, i, w, j + 1); }
  }

  /** The first `q` from `i` on, or the end. */
  function QuoteEnd(text: string, q: char, i: nat): (e: nat)
    requires i <= |text|
    ensures i <= e <= |text| && q !in text[i..e] && (e < |text| ==> text[e] == q)
    decreases |text| - i
  {
    if i == |text| || text[i] == q then i
    else
      var e := QuoteEnd(text, q, i + 1);
      assert text[i..e] == [text[i]] + text[i + 1..e];
      e
  }

  lemma QuoteAt(text: string, i: nat) returns (p: Piece)
    requires i < |text| && IsQuote(text[i])
    ensures (p.Quoted? || p.OpenQuote?) && ValidPiece(p) && At(text, i, Written(p))
    ensures p.OpenQuote? ==> i + |Written(p)| == |text|
  {
    var q := text[i];
    var e := QuoteEnd(text, q, i + 1);
    var t := text[i + 1..e];
    assert text[i..e] == [q] + t;
    if e < |text| {
      p := Quoted(q, t);
      assert text[i..e + 1] == text[i..e] + [q];
    } else {
      p := OpenQuote(q, t);
    }
  }

  lemma {:induction false} PiecesOf(text: string, i: nat) returns (ps: seq<Piece>)
    requires i <= |text|
    ensures Valid(ps) && text[i..] == WrittenAll(ps)
    decreases |text| - i
  {
    hide ValidPiece, Written;
    if i == |text| {
      ps := [];
    } else {
      var p := PieceAt(text, i);
      var j := i + |Written(p)|;
      var rest := PiecesOf(text, j);
      ps := [p] + rest;
      assert ps[1..] == rest;
      assert text[i..] == text[i..j] + text[j..];
      if IsOpenEnded(p) { NothingWritten(rest); }
      PlainLength(p);
    }
  }

  lemma NothingWritten(ps: seq<Piece>)
    requires Valid(ps) && WrittenAll(ps) == ""
    ensures ps == []
  {
  }

  /** `split_args` on every text: the tokens are those of the text's pieces, quoted text and
      GitHub expressions whole, an unclosed quote or expression running to the end. */
  lemma SplitIsTokens(text: string, tokens: seq<string>)
    ensures Split(text) == tokens <==>
            exists ps: seq<Piece> :: Valid(ps) && WrittenAll(ps) == text && Tokens(ps, "", false) == tokens
  {
    hide Scan, Valid, Tokens, WrittenAll;
    assert text[0..] == text;
    forall ps: seq<Piece> | Valid(ps) && WrittenAll(ps) == text ensures Split(text) == Tokens(ps, "", false) {
      ReadPieces(text, 0, ps, "", false);
    }
    var ps := PiecesOf(text, 0);
    assert Valid(ps) && WrittenAll(ps) == text;
  }

  // ------------------------------------------------------------------- expressions stay whole

  /** The scan comes to `p` outside quotes. */
  predicate Reaches(text: string, i: nat, quote: Option<char>, p: nat)
    requires i <= |text|
    decreases |text| - i
  {
    || (i == p && quote.None?)
    || (i < |text| &&
        if quote.Some? then Reaches(text, i + 1, if text[i] == quote.value then None else quote, p)
        else if At(text, i, OPEN) then Reaches(text, ExpressionEnd(text, i), None, p)
        else Reaches(text, i + 1, if IsQuote(text[i]) then Some(text[i]) else None, p))
  }

  predicate Contains(t: string, s: string) {
    exists k | 0 <= k <= |t| :: At(t, k, s)
  }

  /** A token once begun comes out with what it has. */
  lemma {:induction false} FirstBegins(text: string, i: nat, quote: Option<char>, cur: string)
    requires i <= |text|
    ensures var ts := Scan(text, i, quote, cur, true); ts != [] && cur <= ts[0]
    decreases |text| - i
  {
    hide IsSpace, Find, At;
    if i < |text| {
      if quote.Some? {
        if text[i] == quote.value {
          FirstBegins(text, i + 1, None, cur);
        } else {
          FirstBegins(text, i + 1, quote, cur + [text[i]]);
        }
      } else if At(text, i, OPEN) {
        FirstBegins(text, ExpressionEnd(text, i), None, cur + text[i..ExpressionEnd(text, i)]);
      } else if IsQuote(text[i]) {
        FirstBegins(text, i + 1, Some(text[i]), cur);
      } else if text[i] == '\\' {
        FirstBegins(text, i + 1, None, cur);
      } else if !IsSpace(text[i]) {
        FirstBegins(text, i + 1, None, cur + [text[i]]);
      }
    }
  }

  predicate SomeContains(ts: seq<string>, s: string) {
    exists t | t in ts :: Contains(t, s)
  }

  lemma {:induction false} StaysWhole(text: string, i: nat, quote: Option<char>, cur: string, started: bool, p: nat)
    requires i <= |text| && Reaches(text, i, quote, p) && At(text, p, OPEN)
    ensures SomeContains(Scan(text, i, quote, cur, started), text[p..ExpressionEnd(text, p)])
    decreases |text| - i
  {
    var s := text[p..ExpressionEnd(text, p)];
    hide IsSpace, Find, At;
    if i == p && quote.None? {
      FirstBegins(text, ExpressionEnd(text, p), None, cur + s);
      JoinedContains(Scan(text, ExpressionEnd(text, p), None, cur + s, true)[0], cur, s);
    } else if quote.Some? {
      StaysWhole(text, i + 1, if text[i] == quote.value then None else quote,
                 if text[i] == quote.value then cur else cur + [text[i]], started, p);
    } else if At(text, i, OPEN) {
      StaysWhole(text, ExpressionEnd(text, i), None, cur + text[i..ExpressionEnd(text, i)], true, p);
    } else if IsQuote(text[i]) {
      StaysWhole(text, i + 1, Some(text[i]), cur, true, p);
    } else if text[i] == '\\' {
      StaysWhole(text, i + 1, None, cur, started, p);
    } else if IsSpace(text[i]) {
      StaysWhole(text, i + 1, None, if started then "" else cur, false, p);
    } else {
      StaysWhole(text, i + 1, None, cur + [text[i]], true, p);
    }
  }

  lemma JoinedContains(t: string, cur: string, s: string)
    requires cur + s <= t
    ensures Contains(t, s)
  {
    assert t[|cur|..|cur| + |s|] == (cur + s)[|cur|..];
    assert At(t, |cur|, s);
  }

  /** In every text, an unquoted GitHub expression stays inside a single token. */
  lemma ExpressionStaysWhole(text: string, p: nat)
    requires Reaches(text, 0, None, p) && At(text, p, OPEN)
    ensures SomeContains(Split(text), text[p..ExpressionEnd(text, p)])
  {
    hide Scan;
    StaysWhole(text, 0, None, "", false, p);
  }

  // ------------------------------------------------------------------- quoting any token

  function ValueOf(ps: seq<Piece>): string {
    if ps == [] then "" else Value(ps[0]) + ValueOf(ps[1..])
  }

  /** A token of any characters in single quotes, each apostrophe in double quotes. */
  function Quote(token: string): seq<Piece> {
    match Find(token, "'", 0)
    case None => [Quoted('\'', token)]
    case Some(k) => [Quoted('\'', token[..k]), Quoted('"', "'")] + Quote(token[k + 1..])
  }

  predicate IsQuoting(ps: seq<Piece>) {
    ps != [] && forall p | p in ps :: p.Quoted? && ValidPiece(p)
  }

  lemma NoApostrophe(token: string, k: nat)
    requires k <= |token| && forall i | 0 <= i < k :: !At(token, i, "'")
    ensures ValidPiece(Quoted('\'', token[..k]))
  {
    forall i | 0 <= i < k ensures token[i] != '\'' { AtChar(token, i, '\''); }
  }

  lemma Apostrophe()
    ensures ValidPiece(Quoted('"', "'"))
  {
  }

  lemma {:induction false} QuoteIsQuoting(token: string)
    ensures IsQuoting(Quote(token)) && ValueOf(Quote(token)) == token
    decreases |token|
  {
    hide ValidPiece, Find, At, ValueOf;
    FindFirst(token, "'", 0);
    match Find(token, "'", 0)
    case None =>
      assert token[..|token|] == token;
      NoApostrophe(token, |token|);
      ValueOfNext(Quoted('\'', token), []);
    case Some(k) =>
      AtChar(token, k, '\'');
      NoApostrophe(token, k);
      Apostrophe();
      var rest := token[k + 1..];
      QuoteIsQuoting(rest);
      var one, two, more := Quoted('\'', token[..k]), Quoted('"', "'"), Quote(rest);
      ValueOfNext(two, more);
      ValueOfNext(one, [two] + more);
      assert [one, two] + more == [one] + ([two] + more);
      assert token == token[..k] + ("'" + rest);
  }

  lemma ValueOfNext(p: Piece, more: seq<Piece>)
    ensures ValueOf([p] + more) == Value(p) + ValueOf(more) && ValueOf([]) == ""
    ensures more == [] ==> ValueOf([p]) == Value(p)
  {
    assert ([p] + more)[1..] == more;
    if more == [] { assert [p] + more == [p] && Value(p) + "" == Value(p); }
  }

  /** The tokens quoted and separated by single spaces. */
  function QuoteAll(tokens: seq<string>): seq<Piece> {
    if tokens == [] then []
    else if |tokens| == 1 then Quote(tokens[0])
    else Quote(tokens[0]) + ([Space(' ')] + QuoteAll(tokens[1..]))
  }

  /** Quoted pieces before anything well formed. */
  lemma {:induction false} QuotingFirst(qs: seq<Piece>, rest: seq<Piece>, cur: string, started: bool)
    requires (forall p | p in qs :: p.Quoted? && ValidPiece(p)) && Valid(rest)
    ensures Valid(qs + rest)
    ensures Tokens(qs + rest, cur, started) == Tokens(rest, cur + ValueOf(qs), started || qs != [])
    decreases |qs|
  {
    hide ValidPiece, WrittenAll;
    if qs == [] {
      assert qs + rest == rest && cur + "" == cur;
    } else {
      var all := qs + rest;
      assert all[0] == qs[0] && all[1..] == qs[1..] + rest;
      QuotingFirst(qs[1..], rest, cur + Value(qs[0]), true);
      assert cur + Value(qs[0]) + ValueOf(qs[1..]) == cur + ValueOf(qs);
    }
  }

  lemma {:induction false} QuoteAllTokens(tokens: seq<string>)
    ensures Valid(QuoteAll(tokens)) && Tokens(QuoteAll(tokens), "", false) == tokens
  {
    hide ValidPiece, Quote, ValueOf, WrittenAll;
    if tokens != [] {
      var t := tokens[0];
      QuoteIsQuoting(t);
      assert "" + t == t;
      if |tokens| == 1 {
        QuotingFirst(Quote(t), [], "", false);
        assert Quote(t) + [] == Quote(t);
      } else {
        QuoteAllTokens(tokens[1..]);
        var rest := [Space(' ')] + QuoteAll(tokens[1..]);
        assert rest[1..] == QuoteAll(tokens[1..]);
        Blank();
        QuotingFirst(Quote(t), rest, "", false);
      }
    }
  }

  lemma Blank()
    ensures ValidPiece(Space(' '))
  {
  }

  /** Quoting then splitting is the identity on every list of tokens, empty ones and those with
      both kinds of quote included. */
  lemma SplitUndoesQuoting(tokens: seq<string>)
    ensures Split(WrittenAll(QuoteAll(tokens))) == tokens
  {
    hide Scan, Valid, Tokens, WrittenAll, QuoteAll;
    QuoteAllTokens(tokens);
    var text := WrittenAll(QuoteAll(tokens));
    assert text[0..] == text;
    ReadPieces(text, 0, QuoteAll(tokens), "", false);
  }
}

/** Printing an argument list: any well-formed arguments with any layout between them are
    read back as those arguments. */
module CMakePrint {
  import opened Text
  import opened CMakeParse
  import opened CMakeGrammar

  datatype Arg =
    | Word(pieces: seq<Elem>)
    | Bracketed(level: nat, body: string)
    | ParenOpen
    | ParenClose

  function ArgElems(a: Arg): seq<Elem> {
    match a
    case Word(pieces) => pieces
    case Bracketed(level, body) => [Bracket(level, body)]
    case ParenOpen => [Open]
    case ParenClose => [Close]
  }

  function ArgText(a: Arg): string { ElemsText(ArgElems(a)) }

  predicate Pieces(es: seq<Elem>) {
    forall e | e in es :: IsPiece(e) && ValidElem(e)
  }

  predicate ValidArg(a: Arg) {
    match a
    case Word(pieces) => pieces != [] && Pieces(pieces) && OpenLevel(ElemsText(pieces), 0).None?
    case Bracketed(level, body) => ClosesOnce(level, body)
    case _ => true
  }

  /** A nesting of parentheses over a list of arguments. */
  predicate Nested(args: seq<Arg>, depth: nat) {
    if args == [] then depth == 0
    else match args[0]
         case ParenOpen => Nested(args[1..], depth + 1)
         case ParenClose => depth > 0 && Nested(args[1..], depth - 1)
         case _ => Nested(args[1..], depth)
  }

  function Layouts(gaps: seq<Gap>): seq<Elem> {
    if gaps == [] then [] else [Layout(gaps[0])] + Layouts(gaps[1..])
  }

  /** Each argument followed by its gaps. */
  function Print(args: seq<Arg>, gaps: seq<seq<Gap>>): seq<Elem>
    requires |gaps| == |args|
  {
    if args == [] then []
    else ArgElems(args[0]) + (Layouts(gaps[0]) + Print(args[1..], gaps[1..]))
  }

  /** Gaps are well-formed, and a word is separated from what would otherwise join it. */
  predicate Separated(args: seq<Arg>, gaps: seq<seq<Gap>>)
    requires |gaps| == |args|
  {
    args == [] ||
    (&& (forall g | g in gaps[0] :: ValidGap(g))
     && (args[0].Word? && |args| > 1 && !args[1].ParenOpen? && !args[1].ParenClose? ==> gaps[0] != [])
     && Separated(args[1..], gaps[1..]))
  }

  function Texts(args: seq<Arg>): seq<string> {
    if args == [] then [] else [ArgText(args[0])] + Texts(args[1..])
  }

  /** The elements that may follow a word without joining it. */
  predicate EndsToken(es: seq<Elem>) {
    es == [] || es[0].Layout? || es[0].Open? || es[0].Close?
  }

  lemma {:induction false} ElemsTextConcat(a: seq<Elem>, b: seq<Elem>)
    ensures ElemsText(a + b) == ElemsText(a) + ElemsText(b)
  {
    if a == [] {
      assert a + b == b;
    } else {
      assert (a + b)[0] == a[0] && (a + b)[1..] == a[1..] + b;
      ElemsTextConcat(a[1..], b);
      assert ElemText(a[0]) + (ElemsText(a[1..]) + ElemsText(b)) == ElemsText(a) + ElemsText(b);
    }
  }

  /** The pieces of a word collect into one token. */
  lemma {:induction false} WordTokens(pieces: seq<Elem>, es: seq<Elem>, args: seq<string>, tok: string)
    requires Pieces(pieces)
    ensures Tokens(pieces + es, args, tok) == Tokens(es, args, tok + ElemsText(pieces))
  {
    if pieces == [] {
      assert pieces + es == es && tok + ElemsText([]) == tok;
    } else {
      assert (pieces + es)[0] == pieces[0] && (pieces + es)[1..] == pieces[1..] + es;
      var text := ElemText(pieces[0]);
      assert pieces[0] in pieces;
      WordTokens(pieces[1..], es, args, tok + text);
      assert tok + text + ElemsText(pieces[1..]) == tok + ElemsText(pieces);
    }
  }

  /** A word followed by something that ends it is well-formed. */
  lemma {:induction false} WordValid(pieces: seq<Elem>, es: seq<Elem>, inTok: bool)
    requires Pieces(pieces) && ValidElems(es, true)
    requires !inTok ==> pieces != [] && OpenLevel(ElemsText(pieces + es), 0).None?
    ensures ValidElems(pieces + es, inTok)
  {
    hide ElemsText, ValidElem, OpenLevel;
    if pieces == [] {
      assert pieces + es == es;
    } else {
      assert (pieces + es)[0] == pieces[0] && (pieces + es)[1..] == pieces[1..] + es;
      WordValid(pieces[1..], es, true);
    }
  }

  /** What ends a word neither starts with `=` nor with `[`. */
  lemma EndHead(es: seq<Elem>)
    requires EndsToken(es) && ValidElems(es, true) && es != []
    ensures ElemsText(es) != "" && ElemsText(es)[0] != '=' && ElemsText(es)[0] != '['
  {
  }

  lemma NoOpenerBefore(w: string, es: seq<Elem>)
    requires OpenLevel(w, 0).None? && EndsToken(es) && ValidElems(es, true)
    ensures OpenLevel(w + ElemsText(es), 0).None?
  {
    if es == [] {
      assert w + ElemsText(es) == w;
    } else {
      EndHead(es);
      AtConcat(w + ElemsText(es), 0, w, ElemsText(es));
      OpenLevelStops(w + ElemsText(es), 0, w);
    }
  }

  lemma {:induction false} LayoutsValid(gaps: seq<Gap>, es: seq<Elem>, inTok: bool)
    requires (forall g | g in gaps :: ValidGap(g)) && ValidElems(es, inTok && gaps == [])
    ensures ValidElems(Layouts(gaps) + es, inTok)
    ensures gaps != [] ==> EndsToken(Layouts(gaps) + es)
  {
    hide ValidGap, OpenLevel, ElemsText;
    if gaps == [] {
      assert Layouts(gaps) + es == es;
    } else {
      assert (Layouts(gaps) + es)[1..] == Layouts(gaps[1..]) + es;
      LayoutsValid(gaps[1..], es, false);
    }
  }

  lemma {:induction false} LayoutsTokens(gaps: seq<Gap>, es: seq<Elem>, args: seq<string>, tok: string)
    ensures Tokens(Layouts(gaps) + es, args, tok) ==
            if gaps == [] then Tokens(es, args, tok) else Tokens(es, Flush(args, tok), "")
  {
    if gaps == [] {
      assert Layouts(gaps) + es == es;
    } else {
      assert (Layouts(gaps) + es)[1..] == Layouts(gaps[1..]) + es;
      LayoutsTokens(gaps[1..], es, Flush(args, tok), "");
    }
  }

  /** With what comes after a word, its open token is flushed first. */
  lemma TokenEnds(es: seq<Elem>, args: seq<string>, tok: string)
    requires EndsToken(es)
    ensures Tokens(es, args, tok) == Tokens(es, Flush(args, tok), "")
  {
  }

  lemma {:induction false} PrintValid(args: seq<Arg>, gaps: seq<seq<Gap>>)
    requires |gaps| == |args| && Separated(args, gaps) && forall a | a in args :: ValidArg(a)
    ensures ValidElems(Print(args, gaps), false)
    ensures args != [] && (args[0].ParenOpen? || args[0].ParenClose?) ==>
              EndsToken(Print(args, gaps)) && ValidElems(Print(args, gaps), true)
  {
    if args != [] {
      hide ValidElem, OpenLevel, ElemsText, ClosesOnce, ValidElems, Layouts;
      var a, rest := args[0], Print(args[1..], gaps[1..]);
      assert ValidArg(args[0]);
      PrintValid(args[1..], gaps[1..]);
      var after := Layouts(gaps[0]) + rest;
      match a
      case Word(pieces) =>
        assert |args| > 1 ==> args[1] == args[1..][0];
        LayoutsValid(gaps[0], rest, true);
        if gaps[0] == [] { NoLayouts(rest); }
        NoOpenerBefore(ElemsText(pieces), after);
        ElemsTextConcat(pieces, after);
        WordValid(pieces, after, false);
      case Bracketed(level, body) =>
        LayoutsValid(gaps[0], rest, false);
        BracketFirst(level, body, after);
      case _ =>
        LayoutsValid(gaps[0], rest, false);
        ParenFirst(ArgElems(a)[0], after);
    }
  }

  lemma NoLayouts(es: seq<Elem>)
    ensures Layouts([]) + es == es
  {
  }

  lemma BracketFirst(level: nat, body: string, es: seq<Elem>)
    requires ClosesOnce(level, body) && ValidElems(es, false)
    ensures ValidElems([Bracket(level, body)] + es, false)
  {
    assert ([Bracket(level, body)] + es)[1..] == es;
  }

  lemma ParenFirst(e: Elem, es: seq<Elem>)
    requires (e.Open? || e.Close?) && ValidElems(es, false)
    ensures ValidElems([e] + es, false) && ValidElems([e] + es, true) && EndsToken([e] + es)
  {
    assert ([e] + es)[1..] == es;
  }

  /** One argument and its gaps contribute the argument's text. */
  lemma ArgTokens(a: Arg, after: seq<Elem>, acc: seq<string>)
    requires ValidArg(a) && (a.Word? ==> EndsToken(after))
    ensures Tokens(ArgElems(a) + after, acc, "") == Tokens(after, acc + [ArgText(a)], "")
  {
    match a
    case Word(pieces) =>
      WordTokens(pieces, after, acc, "");
      WordNotEmpty(pieces);
      assert "" + ElemsText(pieces) == ElemsText(pieces);
      TokenEnds(after, acc, ElemsText(pieces));
    case _ =>
      OneElem(ArgElems(a)[0]);
      assert (ArgElems(a) + after)[1..] == after;
  }

  /** Printing any arguments with any layout and reading the tokens gives the arguments. */
  lemma {:induction false} PrintTokens(args: seq<Arg>, gaps: seq<seq<Gap>>, acc: seq<string>)
    requires |gaps| == |args| && Separated(args, gaps) && forall a | a in args :: ValidArg(a)
    ensures Tokens(Print(args, gaps), acc, "") == acc + Texts(args)
  {
    hide ArgElems, ArgText, Layouts, Tokens, ValidArg, EndsToken, Flush;
    if args == [] {
      NoTokens(acc);
      assert acc + Texts(args) == acc;
    } else {
      var a, rest := args[0], Print(args[1..], gaps[1..]);
      var after := Layouts(gaps[0]) + rest;
      PrintTokens(args[1..], gaps[1..], acc + [ArgText(a)]);
      LayoutsTokens(gaps[0], rest, acc + [ArgText(a)], "");
      FlushNothing(acc + [ArgText(a)]);
      assert acc + [ArgText(a)] + Texts(args[1..]) == acc + Texts(args);
      if a.Word? { PrintEnds(args, gaps); }
      assert ValidArg(args[0]);
      ArgTokens(a, after, acc);
    }
  }

  lemma NoTokens(acc: seq<string>)
    ensures Tokens([], acc, "") == acc
  {
  }

  lemma FlushNothing(acc: seq<string>)
    ensures Flush(acc, "") == acc
  {
  }

  lemma WordNotEmpty(pieces: seq<Elem>)
    requires pieces != [] && Pieces(pieces)
    ensures ElemsText(pieces) != ""
  {
    assert pieces[0] in pieces;
  }

  lemma OneElem(e: Elem)
    ensures ElemsText([e]) == ElemText(e)
  {
    assert ElemText(e) + ElemsText([]) == ElemText(e);
  }

  /** After a word comes something that ends it. */
  lemma PrintEnds(args: seq<Arg>, gaps: seq<seq<Gap>>)
    requires |gaps| == |args| && args != [] && args[0].Word?
    requires Separated(args, gaps) && forall a | a in args :: ValidArg(a)
    ensures EndsToken(Layouts(gaps[0]) + Print(args[1..], gaps[1..]))
  {
    var rest := Print(args[1..], gaps[1..]);
    PrintValid(args[1..], gaps[1..]);
    if gaps[0] == [] { assert Layouts(gaps[0]) + rest == rest; }
  }

  lemma {:induction false} PrintBalanced(args: seq<Arg>, gaps: seq<seq<Gap>>, depth: nat)
    requires |gaps| == |args| && Nested(args, depth) && forall a | a in args :: ValidArg(a)
    ensures Balanced(Print(args, gaps), depth)
  {
    if args != [] {
      var a, rest := args[0], Print(args[1..], gaps[1..]);
      var after := Layouts(gaps[0]) + rest;
      var d := if a.ParenOpen? then depth + 1 else if a.ParenClose? then depth - 1 else depth;
      PrintBalanced(args[1..], gaps[1..], d);
      LayoutsFlat(gaps[0]);
      FlatBalanced(Layouts(gaps[0]), rest, d);
      assert ValidArg(args[0]);
      if a.Word? {
        FlatBalanced(a.pieces, after, d);
      } else {
        assert (ArgElems(a) + after)[1..] == after;
      }
    }
  }

  lemma {:induction false} LayoutsFlat(gaps: seq<Gap>)
    ensures forall e | e in Layouts(gaps) :: e.Layout?
  {
    if gaps != [] { LayoutsFlat(gaps[1..]); }
  }

  lemma {:induction false} FlatBalanced(es: seq<Elem>, rest: seq<Elem>, depth: nat)
    requires Balanced(rest, depth) && forall e | e in es :: !e.Open? && !e.Close?
    ensures Balanced(es + rest, depth)
  {
    if es == [] {
      assert es + rest == rest;
    } else {
      assert (es + rest)[0] == es[0] && (es + rest)[1..] == es[1..] + rest;
      FlatBalanced(es[1..], rest, depth);
    }
  }

  /** A command to print: the gaps before it, its name, and its arguments with their gaps. */
  datatype Printed =
    Printed(before: seq<Gap>, name: string, pad: string, lead: seq<Gap>, args: seq<Arg>, gaps: seq<seq<Gap>>)

  predicate ValidPrinted(p: Printed) {
    && (forall g | g in p.before :: ValidGap(g)) && (forall g | g in p.lead :: ValidGap(g))
    && IsName(p.name) && (forall k | 0 <= k < |p.pad| :: IsPad(p.pad[k]))
    && |p.gaps| == |p.args| && Separated(p.args, p.gaps) && Nested(p.args, 0) && (forall a | a in p.args :: ValidArg(a))
  }

  function PrintedCall(p: Printed): Item
    requires ValidPrinted(p)
  {
    Call(p.name, p.pad, Layouts(p.lead) + Print(p.args, p.gaps))
  }

  /** A printed command is well-formed and stands for its arguments. */
  lemma CallMeans(p: Printed)
    requires ValidPrinted(p)
    ensures ValidItem(PrintedCall(p)) && Tokens(PrintedCall(p).elems, [], "") == Texts(p.args)
  {
    hide ValidElems, Balanced, Tokens, Layouts, Print, Texts, Nested, Separated, ValidArg;
    var es := Print(p.args, p.gaps);
    PrintValid(p.args, p.gaps);
    LayoutsValid(p.lead, es, false);
    PrintBalanced(p.args, p.gaps, 0);
    LayoutsFlat(p.lead);
    FlatBalanced(Layouts(p.lead), es, 0);
    PrintTokens(p.args, p.gaps, []);
    LayoutsTokens(p.lead, es, [], "");
    assert Flush([], "") == [] && [] + Texts(p.args) == Texts(p.args);
  }

  function Betweens(gaps: seq<Gap>): seq<Item> {
    if gaps == [] then [] else [Between(gaps[0])] + Betweens(gaps[1..])
  }

  function PrintFile(ps: seq<Printed>): seq<Item>
    requires forall p | p in ps :: ValidPrinted(p)
  {
    if ps == [] then [] else Betweens(ps[0].before) + ([PrintedCall(ps[0])] + PrintFile(ps[1..]))
  }

  function CommandsOf(ps: seq<Printed>): seq<Cmd> {
    if ps == [] then [] else [Cmd(Lower(ps[0].name), Texts(ps[0].args))] + CommandsOf(ps[1..])
  }

  lemma {:induction false} BetweensMean(gaps: seq<Gap>, rest: seq<Item>)
    requires forall g | g in gaps :: ValidGap(g)
    ensures Meaning(Betweens(gaps) + rest) == Meaning(rest) && forall it | it in Betweens(gaps) :: ValidItem(it)
  {
    hide ValidGap, Lower, Tokens;
    if gaps == [] {
      assert Betweens(gaps) + rest == rest;
    } else {
      var all := Betweens(gaps) + rest;
      assert all[0] == Between(gaps[0]) && all[1..] == Betweens(gaps[1..]) + rest;
      BetweensMean(gaps[1..], rest);
    }
  }

  lemma {:induction false} FileMeans(ps: seq<Printed>)
    requires forall p | p in ps :: ValidPrinted(p)
    ensures Meaning(PrintFile(ps)) == CommandsOf(ps) && forall it | it in PrintFile(ps) :: ValidItem(it)
  {
    hide ValidPrinted, ValidItem, Lower, Tokens, PrintedCall, Betweens, Texts;
    if ps != [] {
      var p := ps[0];
      assert p in ps;
      PrintedShape(p);
      CallMeans(p);
      FileMeans(ps[1..]);
      var rest := [PrintedCall(p)] + PrintFile(ps[1..]);
      BetweensMean(p.before, rest);
      assert rest[0] == PrintedCall(p) && rest[1..] == PrintFile(ps[1..]);
    }
  }

  lemma PrintedShape(p: Printed)
    requires ValidPrinted(p)
    ensures forall g | g in p.before :: ValidGap(g)
    ensures PrintedCall(p).Call? && PrintedCall(p).name == p.name
  {
  }

  /** Parsing undoes printing: any commands, printed with any layout between them and between
      their arguments and with any comment at the end, are parsed as exactly those commands. */
  lemma PrintedFileParses(ps: seq<Printed>, tail: Option<string>)
    requires (forall p | p in ps :: ValidPrinted(p)) && (tail.Some? ==> OneLine(tail.value))
    ensures Commands(FileText(File(PrintFile(ps), tail)), 0) == Ok(CommandsOf(ps))
  {
    hide Commands, FileText, Meaning, PrintFile, CommandsOf, ValidItem, OneLine, ValidPrinted;
    FileMeans(ps);
    ParseOfText(File(PrintFile(ps), tail));
  }
}

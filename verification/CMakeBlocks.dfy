/** Nesting the flat command list: `split_blocks` and `flat_commands` of
    `ci/ccache-flag-surface.py`. */
module CMakeBlocks {
  import opened Text
  import opened CMakeParse

  /** A body item: a command, a branch head of the enclosing `if`, or a nested block. */
  datatype Node =
    | Command(cmd: Cmd)
    | Branch(cmd: Cmd)
    | Block(head: Cmd, items: seq<Node>)

  datatype BlockError =
    | OutsideIf(name: string)
    | Unmatched(name: string)
    | Unterminated(name: string)

  datatype Nesting<+T> = Nested(value: T) | BadNesting(error: BlockError)

  function CloserOf(name: string): Option<string> {
    if name == "if" then Some("endif")
    else if name == "foreach" then Some("endforeach")
    else if name == "while" then Some("endwhile")
    else if name == "block" then Some("endblock")
    else if name == "function" then Some("endfunction")
    else if name == "macro" then Some("endmacro")
    else None
  }

  predicate IsOpener(name: string) { CloserOf(name).Some? }

  predicate IsCloser(name: string) {
    || name == "endif" || name == "endforeach" || name == "endwhile"
    || name == "endblock" || name == "endfunction" || name == "endmacro"
  }

  predicate IsBranch(name: string) { name == "elseif" || name == "else" }

  /** No name is of two kinds, and what closes a block is a closer. */
  lemma Kinds(name: string)
    ensures IsOpener(name) <==> CloserOf(name).Some?
    ensures IsOpener(name) ==> !IsCloser(name) && !IsBranch(name)
    ensures IsBranch(name) ==> !IsCloser(name)
    ensures IsOpener(name) ==> IsCloser(CloserOf(name).value)
    ensures IsCloser(name) ==> !IsOpener(name) && !IsBranch(name)
    ensures IsOpener("if")
  {
  }

  // ------------------------------------------------- well-nested command lists

  /** A tree of blocks; `inIf` says the items are an `if` body, the only place for branches. */
  predicate ValidNodes(nodes: seq<Node>, inIf: bool) {
    nodes == [] || (ValidNode(nodes[0], inIf) && ValidNodes(nodes[1..], inIf))
  }

  predicate ValidNode(n: Node, inIf: bool) {
    match n
    case Command(c) => !IsOpener(c.name) && !IsCloser(c.name) && !IsBranch(c.name)
    case Branch(c) => inIf && IsBranch(c.name)
    case Block(h, items) => IsOpener(h.name) && ValidNodes(items, h.name == "if")
  }

  /** The command list a tree is the nesting of; closers are written without arguments. */
  function Serial(nodes: seq<Node>): seq<Cmd> {
    if nodes == [] then [] else SerialNode(nodes[0]) + Serial(nodes[1..])
  }

  function SerialNode(n: Node): seq<Cmd> {
    match n
    case Command(c) => [c]
    case Branch(c) => [c]
    case Block(h, items) => [h] + Serial(items) + [Cmd(CloserOf(h.name).GetOr(""), [])]
  }

  /** A closer's arguments carry nothing. */
  function DropCloserArgs(c: Cmd): Cmd { if IsCloser(c.name) then Cmd(c.name, []) else c }

  function WithoutCloserArgs(cmds: seq<Cmd>): seq<Cmd> {
    if cmds == [] then [] else [DropCloserArgs(cmds[0])] + WithoutCloserArgs(cmds[1..])
  }

  /** The commands other than closers, in order. */
  function Openings(cmds: seq<Cmd>): seq<Cmd> {
    if cmds == [] then []
    else (if IsCloser(cmds[0].name) then [] else [cmds[0]]) + Openings(cmds[1..])
  }

  /** `flat_commands`. */
  function Flat(nodes: seq<Node>): seq<Cmd> {
    if nodes == [] then [] else FlatNode(nodes[0]) + Flat(nodes[1..])
  }

  function FlatNode(n: Node): seq<Cmd> {
    match n
    case Command(c) => [c]
    case Branch(c) => [c]
    case Block(h, items) => [h] + Flat(items)
  }

  // ----------------------------------------------------------------- the stack

  /** An open block and the items read into it so far; the bottom frame has no head. */
  datatype Frame = Frame(head: Option<Cmd>, items: seq<Node>)

  predicate IsIf(f: Frame) { f.head.Some? && f.head.value.name == "if" }

  /** One command of `split_blocks`. */
  function Step(stack: seq<Frame>, c: Cmd): (r: Nesting<seq<Frame>>)
    requires stack != []
    ensures r.Nested? ==> r.value != []
  {
    var below, top := stack[..|stack| - 1], stack[|stack| - 1];
    if IsOpener(c.name) then Nested(stack + [Frame(Some(c), [])])
    else if IsBranch(c.name) then
      if !IsIf(top) then BadNesting(OutsideIf(c.name))
      else Nested(below + [Frame(top.head, top.items + [Branch(c)])])
    else if IsCloser(c.name) then
      if |stack| == 1 || top.head.None? || CloserOf(top.head.value.name) != Some(c.name)
      then BadNesting(Unmatched(c.name))
      else Nested(Add(below, [Block(top.head.value, top.items)]))
    else Nested(Add(stack, [Command(c)]))
  }

  /** Append items to the open block. */
  function Add(stack: seq<Frame>, nodes: seq<Node>): (r: seq<Frame>)
    requires stack != []
    ensures |r| == |stack|
  {
    var top := stack[|stack| - 1];
    stack[..|stack| - 1] + [Frame(top.head, top.items + nodes)]
  }

  function Run(stack: seq<Frame>, cmds: seq<Cmd>): (r: Nesting<seq<Frame>>)
    requires stack != []
    ensures r.Nested? ==> r.value != []
    decreases |cmds|
  {
    if cmds == [] then Nested(stack)
    else
      match Step(stack, cmds[0])
      case BadNesting(e) => BadNesting(e)
      case Nested(next) => Run(next, cmds[1..])
  }

  function Finish(stack: seq<Frame>): Nesting<seq<Node>>
    requires stack != []
  {
    var top := stack[|stack| - 1];
    if |stack| == 1 then Nested(top.items)
    else BadNesting(Unterminated(if top.head.Some? then top.head.value.name else ""))
  }

  /** `split_blocks`, as a function of the command list. */
  function Split(cmds: seq<Cmd>): Nesting<seq<Node>> {
    match Run([Frame(None, [])], cmds)
    case BadNesting(e) => BadNesting(e)
    case Nested(stack) => Finish(stack)
  }

  /** `split_blocks`. */
  method SplitBlocks(cmds: seq<Cmd>) returns (r: Nesting<seq<Node>>)
    ensures r == Split(cmds)
  {
    var stack := [Frame(None, [])];
    assert cmds[0..] == cmds;
    for i := 0 to |cmds|
      invariant stack != []
      invariant Run([Frame(None, [])], cmds) == Run(stack, cmds[i..])
    {
      var c := cmds[i];
      assert cmds[i..][0] == c && cmds[i..][1..] == cmds[i + 1..];
      var top := stack[|stack| - 1];
      if IsOpener(c.name) {
        stack := stack + [Frame(Some(c), [])];
      } else if IsBranch(c.name) {
        if top.head.None? || top.head.value.name != "if" { return BadNesting(OutsideIf(c.name)); }
        stack := stack[..|stack| - 1] + [Frame(top.head, top.items + [Branch(c)])];
      } else if IsCloser(c.name) {
        if |stack| == 1 || top.head.None? || CloserOf(top.head.value.name) != Some(c.name) {
          return BadNesting(Unmatched(c.name));
        }
        stack := Add(stack[..|stack| - 1], [Block(top.head.value, top.items)]);
      } else {
        stack := Add(stack, [Command(c)]);
      }
    }
    return Finish(stack);
  }

  // ------------------------------------------------------------------- proofs

  lemma {:induction false} SerialConcat(a: seq<Node>, b: seq<Node>)
    ensures Serial(a + b) == Serial(a) + Serial(b)
    decreases |a|
  {
    if a == [] {
      assert a + b == b;
    } else {
      assert (a + b)[0] == a[0] && (a + b)[1..] == a[1..] + b;
      SerialConcat(a[1..], b);
      assert SerialNode(a[0]) + (Serial(a[1..]) + Serial(b)) == Serial(a) + Serial(b);
    }
  }

  lemma {:induction false} ValidConcat(a: seq<Node>, b: seq<Node>, inIf: bool)
    ensures ValidNodes(a + b, inIf) <==> ValidNodes(a, inIf) && ValidNodes(b, inIf)
    decreases |a|
  {
    if a == [] {
      assert a + b == b;
    } else {
      assert (a + b)[0] == a[0] && (a + b)[1..] == a[1..] + b;
      ValidConcat(a[1..], b, inIf);
    }
  }

  /** Frames hold well-nested items, and only the bottom one has no head. */
  predicate ValidStack(stack: seq<Frame>) {
    && stack != []
    && (forall k | 0 <= k < |stack| :: stack[k].head.None? <==> k == 0)
    && (forall k | 1 <= k < |stack| :: IsOpener(stack[k].head.value.name))
    && (forall k | 0 <= k < |stack| :: ValidNodes(stack[k].items, IsIf(stack[k])))
  }

  /** The commands read into the frames. */
  function StackSerial(stack: seq<Frame>): seq<Cmd> {
    if stack == [] then []
    else
      var top := stack[|stack| - 1];
      StackSerial(stack[..|stack| - 1]) + (if top.head.Some? then [top.head.value] else []) + Serial(top.items)
  }

  lemma AddSerial(stack: seq<Frame>, nodes: seq<Node>)
    requires stack != []
    ensures StackSerial(Add(stack, nodes)) == StackSerial(stack) + Serial(nodes)
  {
    var top, below := stack[|stack| - 1], stack[..|stack| - 1];
    var next := Add(stack, nodes);
    assert next[..|next| - 1] == below;
    SerialConcat(top.items, nodes);
    var h := StackSerial(below) + if top.head.Some? then [top.head.value] else [];
    assert h + (Serial(top.items) + Serial(nodes)) == h + Serial(top.items) + Serial(nodes);
  }

  lemma AddValid(stack: seq<Frame>, nodes: seq<Node>)
    requires ValidStack(stack) && ValidNodes(nodes, IsIf(stack[|stack| - 1]))
    ensures ValidStack(Add(stack, nodes))
  {
    var top := stack[|stack| - 1];
    ValidConcat(top.items, nodes, IsIf(top));
  }

  lemma OneSerial(n: Node)
    ensures Serial([n]) == SerialNode(n)
    ensures forall inIf :: ValidNodes([n], inIf) <==> ValidNode(n, inIf)
  {
    assert SerialNode(n) + Serial([]) == SerialNode(n);
  }

  /** A step keeps the stack valid and reads exactly the command. */
  lemma StepReads(stack: seq<Frame>, c: Cmd)
    requires ValidStack(stack) && Step(stack, c).Nested?
    ensures ValidStack(Step(stack, c).value)
    ensures StackSerial(Step(stack, c).value) == StackSerial(stack) + [DropCloserArgs(c)]
  {
    hide IsOpener, IsCloser, IsBranch, CloserOf, Serial, SerialNode, ValidNodes, Add, StackSerial;
    Kinds(c.name);
    if IsOpener(c.name) {
      OpenReads(stack, c);
    } else if IsBranch(c.name) {
      OneSerial(Branch(c));
      AddValid(stack, [Branch(c)]);
      AddSerial(stack, [Branch(c)]);
      AddIs(stack, [Branch(c)]);
      BranchSerial(c);
    } else if IsCloser(c.name) {
      CloseReads(stack, c);
    } else {
      OneSerial(Command(c));
      AddValid(stack, [Command(c)]);
      AddSerial(stack, [Command(c)]);
      BranchSerial(c);
    }
  }

  lemma BranchSerial(c: Cmd)
    ensures SerialNode(Command(c)) == [c] == SerialNode(Branch(c))
  {
  }

  lemma AddIs(stack: seq<Frame>, nodes: seq<Node>)
    requires stack != []
    ensures var top := stack[|stack| - 1];
            Add(stack, nodes) == stack[..|stack| - 1] + [Frame(top.head, top.items + nodes)]
  {
  }

  lemma OpenReads(stack: seq<Frame>, c: Cmd)
    requires ValidStack(stack) && IsOpener(c.name)
    ensures ValidStack(stack + [Frame(Some(c), [])])
    ensures StackSerial(stack + [Frame(Some(c), [])]) == StackSerial(stack) + [c]
  {
    hide IsOpener, CloserOf;
    var next := stack + [Frame(Some(c), [])];
    assert next[..|next| - 1] == stack;
    assert StackSerial(stack) + [c] + Serial([]) == StackSerial(stack) + [c];
  }

  lemma CloseReads(stack: seq<Frame>, c: Cmd)
    requires ValidStack(stack) && |stack| > 1 && CloserOf(stack[|stack| - 1].head.value.name) == Some(c.name)
    ensures var below, top := stack[..|stack| - 1], stack[|stack| - 1];
            var next := Add(below, [Block(top.head.value, top.items)]);
            ValidStack(next) && StackSerial(next) == StackSerial(stack) + [Cmd(c.name, [])]
  {
    hide IsOpener, CloserOf, Add;
    var below, top := stack[..|stack| - 1], stack[|stack| - 1];
    var b := Block(top.head.value, top.items);
    OneSerial(b);
    AddValid(below, [b]);
    AddSerial(below, [b]);
    var s, h, t := StackSerial(below), [top.head.value], Serial(top.items);
    assert s + (h + t + [Cmd(c.name, [])]) == s + h + t + [Cmd(c.name, [])];
  }

  lemma {:induction false} RunReads(stack: seq<Frame>, cmds: seq<Cmd>)
    requires stack != [] && ValidStack(stack) && Run(stack, cmds).Nested?
    ensures ValidStack(Run(stack, cmds).value)
    ensures StackSerial(Run(stack, cmds).value) == StackSerial(stack) + WithoutCloserArgs(cmds)
    decreases |cmds|
  {
    hide Step, StackSerial, ValidStack, ValidNodes, IsOpener, DropCloserArgs;
    if cmds == [] {
      assert StackSerial(stack) + [] == StackSerial(stack);
    } else {
      StepReads(stack, cmds[0]);
      var next := Step(stack, cmds[0]).value;
      RunReads(next, cmds[1..]);
      var read, b, more := StackSerial(stack), [DropCloserArgs(cmds[0])], WithoutCloserArgs(cmds[1..]);
      assert read + b + more == read + (b + more);
    }
  }

  /** Reading the serial form of well-nested items adds exactly those items. */
  lemma {:induction false} RunSerial(stack: seq<Frame>, nodes: seq<Node>, rest: seq<Cmd>)
    requires stack != [] && ValidNodes(nodes, IsIf(stack[|stack| - 1]))
    ensures Run(stack, Serial(nodes) + rest) == Run(Add(stack, nodes), rest)
    decreases nodes
  {
    if nodes == [] {
      assert Serial(nodes) + rest == rest;
      AddNothing(stack);
    } else {
      var n, more := nodes[0], nodes[1..];
      assert Serial(nodes) + rest == SerialNode(n) + (Serial(more) + rest);
      RunNode(stack, n, Serial(more) + rest);
      var mid := Add(stack, [n]);
      RunSerial(mid, more, rest);
      AddTwice(stack, [n], more);
      assert [n] + more == nodes;
    }
  }

  lemma {:induction false} RunNode(stack: seq<Frame>, n: Node, rest: seq<Cmd>)
    requires stack != [] && ValidNode(n, IsIf(stack[|stack| - 1]))
    ensures Run(stack, SerialNode(n) + rest) == Run(Add(stack, [n]), rest)
    decreases n
  {
    hide IsOpener, IsCloser, IsBranch, CloserOf, Step, Run;
    match n
    case Command(c) =>
      RunOne(stack, c, rest);
      StepPlain(stack, n);
    case Branch(c) =>
      RunOne(stack, c, rest);
      StepPlain(stack, n);
    case Block(h, items) =>
      Kinds(h.name);
      var close := Cmd(CloserOf(h.name).GetOr(""), []);
      assert SerialNode(n) + rest == [h] + (Serial(items) + ([close] + rest));
      RunOne(stack, h, Serial(items) + ([close] + rest));
      var open := stack + [Frame(Some(h), [])];
      StepBlock(stack, h, items);
      RunSerial(open, items, [close] + rest);
      RunOne(Add(open, items), close, rest);
  }

  lemma RunOne(stack: seq<Frame>, c: Cmd, rest: seq<Cmd>)
    requires stack != []
    ensures var st := Step(stack, c);
            Run(stack, [c] + rest) == if st.Nested? then Run(st.value, rest) else BadNesting(st.error)
  {
    hide Step;
    assert ([c] + rest)[1..] == rest;
  }

  lemma StepPlain(stack: seq<Frame>, n: Node)
    requires stack != [] && !n.Block? && ValidNode(n, IsIf(stack[|stack| - 1]))
    ensures Step(stack, n.cmd) == Nested(Add(stack, [n]))
  {
    hide IsOpener, IsCloser, IsBranch, CloserOf;
    Kinds(n.cmd.name);
  }

  lemma StepBlock(stack: seq<Frame>, h: Cmd, items: seq<Node>)
    requires stack != [] && IsOpener(h.name)
    ensures Step(stack, h) == Nested(stack + [Frame(Some(h), [])])
    ensures Step(Add(stack + [Frame(Some(h), [])], items), Cmd(CloserOf(h.name).value, [])) ==
            Nested(Add(stack, [Block(h, items)]))
  {
    hide IsOpener, IsCloser, IsBranch, CloserOf;
    Kinds(h.name);
    Kinds(CloserOf(h.name).value);
    var full := Add(stack + [Frame(Some(h), [])], items);
    assert [] + items == items;
    assert full[..|full| - 1] == stack;
  }

  lemma AddNothing(stack: seq<Frame>)
    requires stack != []
    ensures Add(stack, []) == stack
  {
    var top := stack[|stack| - 1];
    assert top.items + [] == top.items;
  }

  lemma AddTwice(stack: seq<Frame>, a: seq<Node>, b: seq<Node>)
    requires stack != []
    ensures Add(Add(stack, a), b) == Add(stack, a + b)
  {
    var top := stack[|stack| - 1];
    assert top.items + a + b == top.items + (a + b);
    assert Add(stack, a)[..|stack| - 1] == stack[..|stack| - 1];
  }

  /** The arguments of closers are not looked at. */
  lemma {:induction false} RunBare(stack: seq<Frame>, cmds: seq<Cmd>)
    requires stack != []
    ensures Run(stack, WithoutCloserArgs(cmds)) == Run(stack, cmds)
    decreases |cmds|
  {
    hide IsOpener, IsCloser, IsBranch, CloserOf;
    if cmds != [] {
      Kinds(cmds[0].name);
      assert WithoutCloserArgs(cmds)[1..] == WithoutCloserArgs(cmds[1..]);
      assert Step(stack, DropCloserArgs(cmds[0])) == Step(stack, cmds[0]);
      if Step(stack, cmds[0]).Nested? { RunBare(Step(stack, cmds[0]).value, cmds[1..]); }
    }
  }

  // ----------------------------------------------------------------- theorems

  /** `split_blocks` succeeds with `tree` exactly when the commands are the serial form of
      that well-nested tree. */
  lemma SplitIsNesting(cmds: seq<Cmd>, tree: seq<Node>)
    ensures Split(cmds) == Nested(tree) <==> ValidNodes(tree, false) && Serial(tree) == WithoutCloserArgs(cmds)
  {
    var root := [Frame(None, [])];
    assert StackSerial(root) == [] by { assert StackSerial([]) + [] + Serial([]) == []; }
    if Split(cmds) == Nested(tree) {
      RunReads(root, cmds);
      var stack := Run(root, cmds).value;
      assert stack[..0] == [];
      assert [] + [] + Serial(tree) == Serial(tree);
      assert [] + WithoutCloserArgs(cmds) == WithoutCloserArgs(cmds);
    }
    if ValidNodes(tree, false) && Serial(tree) == WithoutCloserArgs(cmds) {
      RunBare(root, cmds);
      RunSerial(root, tree, []);
      assert Serial(tree) + [] == Serial(tree);
      assert [] + tree == tree;
    }
  }

  /** It fails exactly when no well-nested tree has these commands. */
  lemma SplitFailsExactly(cmds: seq<Cmd>)
    ensures Split(cmds).BadNesting? <==>
            !exists tree: seq<Node> :: ValidNodes(tree, false) && Serial(tree) == WithoutCloserArgs(cmds)
  {
    forall tree: seq<Node>
      ensures Split(cmds) == Nested(tree) <==> ValidNodes(tree, false) && Serial(tree) == WithoutCloserArgs(cmds)
    {
      SplitIsNesting(cmds, tree);
    }
    hide Split;
    if Split(cmds).Nested? {
      var tree := Split(cmds).value;
      assert ValidNodes(tree, false) && Serial(tree) == WithoutCloserArgs(cmds);
    }
  }

  lemma {:induction false} OpeningsConcat(a: seq<Cmd>, b: seq<Cmd>)
    ensures Openings(a + b) == Openings(a) + Openings(b)
  {
    if a == [] {
      assert a + b == b;
    } else {
      assert (a + b)[0] == a[0] && (a + b)[1..] == a[1..] + b;
      OpeningsConcat(a[1..], b);
      var h := if IsCloser(a[0].name) then [] else [a[0]];
      assert h + (Openings(a[1..]) + Openings(b)) == Openings(a) + Openings(b);
    }
  }

  lemma {:induction false} OpeningsBare(cmds: seq<Cmd>)
    ensures Openings(WithoutCloserArgs(cmds)) == Openings(cmds)
  {
    if cmds != [] {
      assert WithoutCloserArgs(cmds)[1..] == WithoutCloserArgs(cmds[1..]);
      OpeningsBare(cmds[1..]);
    }
  }

  lemma {:induction false} FlatIsOpenings(nodes: seq<Node>, inIf: bool)
    requires ValidNodes(nodes, inIf)
    ensures Flat(nodes) == Openings(Serial(nodes))
    decreases nodes
  {
    if nodes != [] {
      FlatNodeIsOpenings(nodes[0], inIf);
      FlatIsOpenings(nodes[1..], inIf);
      OpeningsConcat(SerialNode(nodes[0]), Serial(nodes[1..]));
    }
  }

  lemma {:induction false} FlatNodeIsOpenings(n: Node, inIf: bool)
    requires ValidNode(n, inIf)
    ensures FlatNode(n) == Openings(SerialNode(n))
    decreases n
  {
    hide IsOpener, IsCloser, IsBranch, CloserOf;
    match n
    case Command(c) => assert [c][1..] == [];
    case Branch(c) =>
      Kinds(c.name);
      assert [c][1..] == [];
    case Block(h, items) =>
      FlatIsOpenings(items, h.name == "if");
      Kinds(h.name);
      var close := Cmd(CloserOf(h.name).GetOr(""), []);
      OpeningsConcat([h] + Serial(items), [close]);
      OpeningsConcat([h], Serial(items));
      assert [h][1..] == [] && [close][1..] == [];
      assert [h] + Flat(items) + [] == [h] + Flat(items);
  }

  /** Flattening the tree gives back the commands, in order, without the closers. */
  lemma FlatOfSplit(cmds: seq<Cmd>)
    requires Split(cmds).Nested?
    ensures Flat(Split(cmds).value) == Openings(cmds)
  {
    var tree := Split(cmds).value;
    SplitIsNesting(cmds, tree);
    FlatIsOpenings(tree, false);
    OpeningsBare(cmds);
  }
}

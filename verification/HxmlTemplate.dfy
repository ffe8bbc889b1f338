/**
  HXML templates as trees: the stack parser of the editor, which matches tags and Django
  blocks in one pass, and the trees it accepts.
 */
module HxmlTemplate {
  import opened Wrappers

  const HV_NAMESPACE := "https://hyperview.org/hyperview"
  const STRUCTURAL_ELEMENTS: set<string> := {
    "screen", "styles", "body", "header", "view", "list", "section-list",
    "section", "section-title", "items", "item", "form"}
  const DJANGO_BLOCKS: set<string> := {"if", "for", "with", "block", "autoescape"}
  const DJANGO_SINGLE_TAGS: set<string> := {
    "load", "extends", "include", "url", "now", "cycle", "resetcycle", "firstof",
    "lorem", "csrf_token", "hv_csrf_token", "debug", "templatetag", "widthratio",
    "regroup", "translate", "trans", "static", "get_static_prefix", "get_media_prefix"}

  /**
    An opening tag. `namespaces` are its `xmlns` attributes; `space` is an `xml:space`
    other than `default`; `text` is its source span.
   */
  datatype Tag = Tag(
    prefix: string, local: string, namespaces: map<string, string>, space: bool, preformatted: bool, text: string)

  /** A lexed span of the source, with its text. `Raw` is a whole block such as `comment`. */
  datatype Token =
    | Open(tag: Tag) | SelfClosing(tag: Tag) | Close(prefix: string, local: string, text: string)
    | Text(text: string) | Literal(cdata: bool, text: string)
    | Variable(text: string) | Raw(text: string) | Comment(text: string)
    | Command(command: string, argument: string, text: string)

  /** `preserve`: the element and all below it keep their source span. */
  datatype Node =
    | Leaf(token: Token)
    | Element(tag: Tag, close: Token, preserve: bool, children: seq<Node>)

  datatype Tree = Tree(preserve: bool, children: seq<Node>)

  // ---------------------------------------------------------------------------
  // Trees and their tokens
  // ---------------------------------------------------------------------------

  function Flatten(n: Node): seq<Token>
    decreases n, 1
  {
    match n
    case Leaf(token) => [token]
    case Element(tag, close, _, children) => [Open(tag)] + FlattenAll(children) + [close]
  }

  function FlattenAll(ns: seq<Node>): seq<Token>
    decreases ns, 0
  {
    if ns == [] then [] else Flatten(ns[0]) + FlattenAll(ns[1..])
  }

  predicate IsLeaf(token: Token) { !token.Open? && !token.Close? }

  predicate Closes(close: Token, tag: Tag) {
    close.Close? && close.prefix == tag.prefix && close.local == tag.local
  }

  /** Every element is closed by its own name. */
  predicate Named(n: Node)
    decreases n, 1
  {
    match n
    case Leaf(token) => IsLeaf(token)
    case Element(tag, close, _, children) => Closes(close, tag) && NamedAll(children)
  }

  predicate NamedAll(ns: seq<Node>)
    decreases ns, 0
  {
    ns == [] || (Named(ns[0]) && NamedAll(ns[1..]))
  }

  predicate XmlSpace(c: char) { c == '\t' || c == '\n' || c == '\r' || c == ' ' }

  predicate Blank(s: string) { forall i | 0 <= i < |s| :: XmlSpace(s[i]) }

  predicate Single(command: string) { command in DJANGO_SINGLE_TAGS }

  /** Content whose surrounding whitespace may matter: its element must be preserved. */
  predicate Touches(token: Token) {
    match token
    case Variable(_) => true
    case Raw(_) => true
    case Literal(cdata, _) => cdata
    case Text(text) => !Blank(text)
    case Command(command, _, _) => Single(command) && command != "load"
    case _ => false
  }

  predicate Touched(ns: seq<Node>) {
    ns != [] && ((ns[0].Leaf? && Touches(ns[0].token)) || Touched(ns[1..]))
  }

  function Inherit(namespaces: map<string, string>, tag: Tag): map<string, string> {
    namespaces + tag.namespaces
  }

  /** An element that is not known to be element-only, given the namespaces in its scope. */
  predicate Unknown(tag: Tag, namespaces: map<string, string>) {
    || !(tag.prefix in namespaces && namespaces[tag.prefix] == HV_NAMESPACE)
    || tag.local !in STRUCTURAL_ELEMENTS
    || tag.space
    || tag.preformatted
  }

  /** Exactly the elements that must keep their source span are marked. */
  predicate Marked(n: Node, namespaces: map<string, string>)
    decreases n, 1
  {
    match n
    case Leaf(_) => true
    case Element(tag, _, preserve, children) =>
      && preserve == (Unknown(tag, Inherit(namespaces, tag)) || Touched(children))
      && MarkedAll(children, Inherit(namespaces, tag))
  }

  predicate MarkedAll(ns: seq<Node>, namespaces: map<string, string>)
    decreases ns, 0
  {
    ns == [] || (Marked(ns[0], namespaces) && MarkedAll(ns[1..], namespaces))
  }

  const ROOT_NAMESPACES: map<string, string> := map["" := HV_NAMESPACE]

  // ---------------------------------------------------------------------------
  // Django blocks
  // ---------------------------------------------------------------------------

  /** An open block; `stack` identifies the elements that were open when it began. */
  datatype Block = Block(command: string, argument: string, terminal: bool, stack: seq<nat>)

  predicate StartsBlock(command: string) { command in DJANGO_BLOCKS }

  predicate EndsBlock(command: string) { "end" <= command }

  predicate Branches(command: string) {
    command in {"else", "elif", "empty"} || EndsBlock(command)
  }

  /** What a branch or an end does to the innermost block, which began among the same elements. */
  function BranchBlock(block: Block, command: string, argument: string): Option<Option<Block>> {
    if command == "end" + block.command then
      if argument != "" && (block.command != "block" || argument != block.argument) then None else Some(None)
    else if !block.terminal
            && ((block.command == "if" && command in {"else", "elif"}) || (block.command == "for" && command == "empty")) then
      if (command == "elif") != (argument != "") then None else Some(Some(block.(terminal := command != "elif")))
    else None
  }

  /** The open blocks after one `{% command argument %}` among the elements `here`; `None` is an error. */
  function Blocks(blocks: seq<Block>, command: string, argument: string, here: seq<nat>): Option<seq<Block>> {
    if StartsBlock(command) then
      if argument == "" then None else Some(blocks + [Block(command, argument, false, here)])
    else if Branches(command) then
      if blocks == [] || blocks[|blocks| - 1].stack != here then None
      else
        var outer := blocks[..|blocks| - 1];
        match BranchBlock(blocks[|blocks| - 1], command, argument)
        case None => None
        case Some(None) => Some(outer)
        case Some(Some(block)) => Some(outer + [block])
    else if Single(command) then Some(blocks)
    else None
  }

  function BlocksAfter(blocks: seq<Block>, token: Token, here: seq<nat>): Option<seq<Block>> {
    if token.Command? then Blocks(blocks, token.command, token.argument, here) else Some(blocks)
  }

  /** Follows the commands that stand directly in a list of siblings, and not those deeper in. */
  function Follow(blocks: seq<Block>, ns: seq<Node>, here: seq<nat>): Option<seq<Block>>
    decreases ns
  {
    if ns == [] then Some(blocks)
    else
      var next := if ns[0].Leaf? then BlocksAfter(blocks, ns[0].token, here) else Some(blocks);
      if next.None? then None else Follow(next.value, ns[1..], here)
  }

  /** Blocks begin, branch and end among the same siblings. */
  predicate Balanced(ns: seq<Node>) {
    Follow([], ns, []) == Some([])
  }

  /** Below every element, the siblings are balanced. */
  predicate InnerBalanced(n: Node)
    decreases n, 1
  {
    n.Leaf? || (Balanced(n.children) && InnerBalancedAll(n.children))
  }

  predicate InnerBalancedAll(ns: seq<Node>)
    decreases ns, 0
  {
    ns == [] || (InnerBalanced(ns[0]) && InnerBalancedAll(ns[1..]))
  }

  /** The trees that templates may have. */
  predicate Proper(t: Tree) {
    && NamedAll(t.children) && MarkedAll(t.children, ROOT_NAMESPACES)
    && Balanced(t.children) && InnerBalancedAll(t.children)
    && t.preserve == Touched(t.children)
  }

  // ---------------------------------------------------------------------------
  // The parser
  // ---------------------------------------------------------------------------

  /** An open element, or the root; `id` is its identity. */
  datatype Frame = Frame(id: nat, tag: Tag, namespaces: map<string, string>, preserve: bool, children: seq<Node>)

  /** `unused` is the identity of the next element to open. */
  datatype State = State(stack: seq<Frame>, blocks: seq<Block>, unused: nat)

  const ROOT := Frame(0, Tag("", "", map[], false, false, ""), ROOT_NAMESPACES, false, [])

  const START := State([ROOT], [], 1)

  function Ids(stack: seq<Frame>): (ids: seq<nat>)
    ensures |ids| == |stack| && forall i | 0 <= i < |ids| :: ids[i] == stack[i].id
  {
    if stack == [] then [] else Ids(stack[..|stack| - 1]) + [stack[|stack| - 1].id]
  }

  function Top(s: State): Frame
    requires s.stack != []
  {
    s.stack[|s.stack| - 1]
  }

  /** Adds a child to the innermost open element, and marks the element if the child says so. */
  function Push(stack: seq<Frame>, child: Node, mark: bool): seq<Frame>
    requires stack != []
  {
    var n := |stack| - 1;
    var top := stack[n];
    stack[..n] + [top.(children := top.children + [child], preserve := top.preserve || mark)]
  }

  function Closed(frame: Frame, close: Token): Node {
    Element(frame.tag, close, frame.preserve, frame.children)
  }

  function Entered(s: State, tag: Tag): State
    requires s.stack != []
  {
    var namespaces := Inherit(Top(s).namespaces, tag);
    State(s.stack + [Frame(s.unused, tag, namespaces, Unknown(tag, namespaces), [])], s.blocks, s.unused + 1)
  }

  /** One token; `None` is an error. */
  function Advance(s: State, token: Token): Option<State>
    requires s.stack != []
  {
    var n := |s.stack| - 1;
    match token
    case Open(tag) => Some(Entered(s, tag))
    case Close(_, _, _) =>
      if n == 0 || !Closes(token, s.stack[n].tag) then None
      else Some(s.(stack := Push(s.stack[..n], Closed(s.stack[n], token), false)))
    case _ =>
      var blocks := BlocksAfter(s.blocks, token, Ids(s.stack));
      if blocks.None? then None
      else Some(s.(stack := Push(s.stack, Leaf(token), Touches(token)), blocks := blocks.value))
  }

  function Parse(s: State, tokens: seq<Token>): Option<Tree>
    requires s.stack != []
    decreases |tokens|
  {
    if tokens == [] then
      if |s.stack| == 1 && s.blocks == [] then Some(Tree(s.stack[0].preserve, s.stack[0].children)) else None
    else
      var next := Advance(s, tokens[0]);
      if next.None? then None else Parse(next.value, tokens[1..])
  }

  // ---------------------------------------------------------------------------
  // What the parser accepts spells the tokens
  // ---------------------------------------------------------------------------

  /** The tokens that led to a stack. */
  function Consumed(stack: seq<Frame>): seq<Token>
    requires stack != []
  {
    var n := |stack| - 1;
    (if n == 0 then [] else Consumed(stack[..n]) + [Open(stack[n].tag)]) + FlattenAll(stack[n].children)
  }

  ghost predicate FrameSound(stack: seq<Frame>, k: nat)
    requires k < |stack|
  {
    var f := stack[k];
    && NamedAll(f.children) && MarkedAll(f.children, f.namespaces)
    && f.namespaces == (if k == 0 then ROOT_NAMESPACES else Inherit(stack[k - 1].namespaces, f.tag))
    && f.preserve == ((k > 0 && Unknown(f.tag, f.namespaces)) || Touched(f.children))
  }

  ghost predicate StackSound(stack: seq<Frame>) {
    stack != [] && forall k: nat | k < |stack| :: FrameSound(stack, k)
  }

  lemma {:induction false} FlattenAppend(ns: seq<Node>, n: Node, namespaces: map<string, string>)
    ensures FlattenAll(ns + [n]) == FlattenAll(ns) + Flatten(n)
    ensures NamedAll(ns + [n]) <==> NamedAll(ns) && Named(n)
    ensures MarkedAll(ns + [n], namespaces) <==> MarkedAll(ns, namespaces) && Marked(n, namespaces)
    ensures Touched(ns + [n]) <==> Touched(ns) || (n.Leaf? && Touches(n.token))
  {
    hide Named, Marked, Touches, Flatten;
    if ns == [] {
      assert [n][1..] == [] && ns + [n] == [n];
    } else {
      assert (ns + [n])[0] == ns[0] && (ns + [n])[1..] == ns[1..] + [n];
      FlattenAppend(ns[1..], n, namespaces);
    }
  }

  lemma PushSound(stack: seq<Frame>, child: Node, mark: bool)
    requires StackSound(stack) && Named(child) && Marked(child, stack[|stack| - 1].namespaces)
    requires mark == (child.Leaf? && Touches(child.token))
    ensures StackSound(Push(stack, child, mark))
  {
    var n := |stack| - 1;
    var next := Push(stack, child, mark);
    FlattenAppend(stack[n].children, child, stack[n].namespaces);
    hide NamedAll, MarkedAll, Touched, Named, Marked, FlattenAll, Flatten, Unknown, Touches;
    assert forall k: nat | k < n :: next[k] == stack[k];
    forall k: nat | k < |next| ensures FrameSound(next, k) {
      assert FrameSound(stack, k);
    }
  }

  lemma ConsumedLast(stack: seq<Frame>)
    requires stack != []
    ensures var n := |stack| - 1;
            Consumed(stack) ==
            (if n == 0 then [] else Consumed(stack[..n]) + [Open(stack[n].tag)]) + FlattenAll(stack[n].children)
  {
  }

  lemma PushConsumes(stack: seq<Frame>, child: Node, mark: bool)
    requires stack != []
    ensures Consumed(Push(stack, child, mark)) == Consumed(stack) + Flatten(child)
  {
    hide FlattenAll, Flatten, Consumed;
    var n := |stack| - 1;
    FlattenAppend(stack[n].children, child, map[]);
    ConsumedLast(stack);
    ConsumedLast(Push(stack, child, mark));
    assert Push(stack, child, mark)[..n] == stack[..n];
  }

  /** Adding a sound child keeps a stack sound and consumes the child's tokens. */
  lemma PushKeeps(stack: seq<Frame>, child: Node, mark: bool)
    requires StackSound(stack) && Named(child) && Marked(child, stack[|stack| - 1].namespaces)
    requires mark == (child.Leaf? && Touches(child.token))
    ensures StackSound(Push(stack, child, mark))
    ensures Consumed(Push(stack, child, mark)) == Consumed(stack) + Flatten(child)
  {
    assert stack != [];
    PushSound(stack, child, mark);
    hide *;
    PushConsumes(stack, child, mark);
  }

  lemma EnterKeeps(s: State, tag: Tag)
    requires StackSound(s.stack)
    ensures StackSound(Entered(s, tag).stack)
    ensures Consumed(Entered(s, tag).stack) == Consumed(s.stack) + [Open(tag)]
  {
    var next := Entered(s, tag).stack;
    assert next[..|s.stack|] == s.stack;
    forall k: nat | k < |next| ensures FrameSound(next, k) {
      if k < |s.stack| {
        assert FrameSound(s.stack, k);
      }
    }
  }

  lemma CloseKeeps(stack: seq<Frame>, close: Token)
    requires StackSound(stack) && |stack| > 1 && Closes(close, stack[|stack| - 1].tag)
    ensures var next := Push(stack[..|stack| - 1], Closed(stack[|stack| - 1], close), false);
            StackSound(next) && Consumed(next) == Consumed(stack) + [close]
  {
    var n := |stack| - 1;
    assert FrameSound(stack, n);
    forall k: nat | k < n ensures FrameSound(stack[..n], k) {
      assert FrameSound(stack, k);
    }
    PushKeeps(stack[..n], Closed(stack[n], close), false);
  }

  lemma AdvanceKeeps(s: State, token: Token)
    requires StackSound(s.stack) && Advance(s, token).Some?
    ensures StackSound(Advance(s, token).value.stack)
    ensures Consumed(Advance(s, token).value.stack) == Consumed(s.stack) + [token]
  {
    match token
    case Open(tag) => EnterKeeps(s, tag);
    case Close(_, _, _) => CloseKeeps(s.stack, token);
    case _ => PushKeeps(s.stack, Leaf(token), Touches(token));
  }

  /** A tree the parser returns spells the tokens, is closed by name and is marked right. */
  lemma {:induction false} ParseSpells(s: State, tokens: seq<Token>)
    requires StackSound(s.stack) && Parse(s, tokens).Some?
    ensures var t := Parse(s, tokens).value;
            && FlattenAll(t.children) == Consumed(s.stack) + tokens
            && NamedAll(t.children) && MarkedAll(t.children, ROOT_NAMESPACES) && t.preserve == Touched(t.children)
    decreases |tokens|
  {
    hide FrameSound, Advance, Consumed, Parse, FlattenAll, NamedAll, MarkedAll, Touched;
    if tokens == [] {
      ParsedWhole(s);
    } else {
      ParseUnfolds(s, tokens);
      AdvanceKeeps(s, tokens[0]);
      ParseSpells(Advance(s, tokens[0]).value, tokens[1..]);
      assert Consumed(s.stack) + tokens == Consumed(s.stack) + [tokens[0]] + tokens[1..];
    }
  }

  lemma ParseUnfolds(s: State, tokens: seq<Token>)
    requires s.stack != [] && tokens != [] && Parse(s, tokens).Some?
    ensures Advance(s, tokens[0]).Some? && Advance(s, tokens[0]).value.stack != []
    ensures Parse(s, tokens) == Parse(Advance(s, tokens[0]).value, tokens[1..])
  {
  }

  lemma ParsedWhole(s: State)
    requires StackSound(s.stack) && Parse(s, []).Some?
    ensures var t := Parse(s, []).value;
            && FlattenAll(t.children) == Consumed(s.stack) + []
            && NamedAll(t.children) && MarkedAll(t.children, ROOT_NAMESPACES) && t.preserve == Touched(t.children)
  {
    hide NamedAll, MarkedAll, Touched, FlattenAll;
    assert FrameSound(s.stack, 0);
    assert Consumed(s.stack) == [] + FlattenAll(s.stack[0].children);
  }

  // ---------------------------------------------------------------------------
  // The parser follows the tree
  // ---------------------------------------------------------------------------

  /** The same blocks, among other elements. */
  function Move(blocks: seq<Block>, here: seq<nat>): (moved: seq<Block>)
    ensures |moved| == |blocks|
    ensures forall i | 0 <= i < |blocks| :: moved[i] == blocks[i].(stack := here)
  {
    if blocks == [] then [] else Move(blocks[..|blocks| - 1], here) + [blocks[|blocks| - 1].(stack := here)]
  }

  predicate Unplaced(blocks: seq<Block>) { forall i | 0 <= i < |blocks| :: blocks[i].stack == [] }

  /** None of the blocks began among these elements. */
  predicate Apart(blocks: seq<Block>, here: seq<nat>) { forall i | 0 <= i < |blocks| :: blocks[i].stack != here }

  function Lift(base: seq<Block>, local: Option<seq<Block>>, here: seq<nat>): Option<seq<Block>> {
    if local.None? then None else Some(base + Move(local.value, here))
  }

  lemma BranchMoves(block: Block, command: string, argument: string, here: seq<nat>)
    ensures var moved := BranchBlock(block.(stack := here), command, argument);
            match BranchBlock(block, command, argument)
            case None => moved == None
            case Some(None) => moved == Some(None)
            case Some(Some(b)) => moved == Some(Some(b.(stack := here))) && b.stack == block.stack
  {
  }

  /** A command acts on the blocks of its siblings only. */
  lemma BlocksAbove(base: seq<Block>, local: seq<Block>, token: Token, here: seq<nat>)
    requires Unplaced(local) && Apart(base, here)
    ensures BlocksAfter(base + Move(local, here), token, here) == Lift(base, BlocksAfter(local, token, []), here)
    ensures BlocksAfter(local, token, []).Some? ==> Unplaced(BlocksAfter(local, token, []).value)
  {
    if token.Command? && !StartsBlock(token.command) && Branches(token.command) {
      BranchAbove(base, local, token.command, token.argument, here);
    } else if token.Command? && StartsBlock(token.command) {
      LiftMore(base, local, Block(token.command, token.argument, false, []), here);
    }
  }

  lemma LiftLast(base: seq<Block>, local: seq<Block>, here: seq<nat>)
    requires local != []
    ensures var all, n := base + Move(local, here), |local| - 1;
            all[|all| - 1] == local[n].(stack := here) && all[..|all| - 1] == base + Move(local[..n], here)
  {
  }

  lemma LiftMore(base: seq<Block>, local: seq<Block>, b: Block, here: seq<nat>)
    ensures base + Move(local, here) + [b.(stack := here)] == base + Move(local + [b], here)
  {
    assert (local + [b])[..|local|] == local;
  }

  lemma BlocksByLast(blocks: seq<Block>, command: string, argument: string, here: seq<nat>)
    requires !StartsBlock(command) && Branches(command) && blocks != [] && blocks[|blocks| - 1].stack == here
    ensures Blocks(blocks, command, argument, here) ==
            match BranchBlock(blocks[|blocks| - 1], command, argument)
            case None => None
            case Some(None) => Some(blocks[..|blocks| - 1])
            case Some(Some(block)) => Some(blocks[..|blocks| - 1] + [block])
  {
    hide StartsBlock, Single, Branches, BranchBlock;
  }

  lemma BranchAboveLast(base: seq<Block>, local: seq<Block>, command: string, argument: string, here: seq<nat>)
    requires Unplaced(local) && local != [] && !StartsBlock(command) && Branches(command)
    ensures Blocks(base + Move(local, here), command, argument, here) == Lift(base, Blocks(local, command, argument, []), here)
  {
    var n := |local| - 1;
    LiftLast(base, local, here);
    BlocksByLast(local, command, argument, []);
    BlocksByLast(base + Move(local, here), command, argument, here);
    BranchMoves(local[n], command, argument, here);
    hide Blocks, BranchBlock, Move, StartsBlock, Branches, Unplaced;
    match BranchBlock(local[n], command, argument) {
      case Some(Some(b)) => LiftMore(base, local[..n], b, here);
      case _ =>
    }
  }

  lemma BranchUnplaced(local: seq<Block>, command: string, argument: string)
    requires Unplaced(local) && !StartsBlock(command) && Branches(command)
    ensures Blocks(local, command, argument, []).Some? ==> Unplaced(Blocks(local, command, argument, []).value)
  {
    if local != [] {
      BlocksByLast(local, command, argument, []);
      BranchMoves(local[|local| - 1], command, argument, []);
    }
    hide BranchBlock, StartsBlock, Branches;
  }

  lemma BranchAbove(base: seq<Block>, local: seq<Block>, command: string, argument: string, here: seq<nat>)
    requires Unplaced(local) && Apart(base, here) && !StartsBlock(command) && Branches(command)
    ensures Blocks(base + Move(local, here), command, argument, here) == Lift(base, Blocks(local, command, argument, []), here)
    ensures Blocks(local, command, argument, []).Some? ==> Unplaced(Blocks(local, command, argument, []).value)
  {
    hide StartsBlock, Single, Branches, BranchBlock;
    BranchUnplaced(local, command, argument);
    if local == [] {
      assert base + Move(local, here) == base;
    } else {
      BranchAboveLast(base, local, command, argument, here);
    }
  }

  /** Identities in use are below `unused`. */
  ghost predicate Numbered(s: State) {
    && (forall k | 0 <= k < |s.stack| :: s.stack[k].id < s.unused)
    && (forall i | 0 <= i < |s.blocks| :: forall k | 0 <= k < |s.blocks[i].stack| :: s.blocks[i].stack[k] < s.unused)
  }

  /** A block began inside an element that has been closed since; nothing can end it. */
  ghost predicate Doomed(s: State) {
    exists i, k :: 0 <= i < |s.blocks| && 0 <= k < |s.blocks[i].stack| && Lost(s, s.blocks[i].stack[k])
  }

  ghost predicate Lost(s: State, id: nat) {
    id < s.unused && id !in Ids(s.stack)
  }

  lemma PushIds(stack: seq<Frame>, child: Node, mark: bool)
    requires stack != []
    ensures Ids(Push(stack, child, mark)) == Ids(stack)
  {
    var n := |stack| - 1;
    assert Push(stack, child, mark)[..n] == stack[..n];
  }

  lemma StillLost(s: State, token: Token, id: nat)
    requires s.stack != [] && Lost(s, id) && Advance(s, token).Some?
    ensures Lost(Advance(s, token).value, id)
  {
    var n := |s.stack| - 1;
    match token
    case Open(tag) =>
      assert Entered(s, tag).stack[..n + 1] == s.stack;
    case Close(_, _, _) =>
      PushIds(s.stack[..n], Closed(s.stack[n], token), false);
      assert Ids(s.stack) == Ids(s.stack[..n]) + [s.stack[n].id];
    case _ => PushIds(s.stack, Leaf(token), Touches(token));
  }

  lemma StillDoomed(s: State, token: Token)
    requires s.stack != [] && Doomed(s) && Advance(s, token).Some?
    ensures Doomed(Advance(s, token).value)
  {
    var i, k :| 0 <= i < |s.blocks| && 0 <= k < |s.blocks[i].stack| && Lost(s, s.blocks[i].stack[k]);
    var next := Advance(s, token).value;
    var id := s.blocks[i].stack[k];
    StillLost(s, token, id);
    assert s.blocks[i].stack != Ids(s.stack);
    assert i < |next.blocks| && next.blocks[i] == s.blocks[i];
    assert Lost(next, next.blocks[i].stack[k]);
  }

  lemma {:induction false} DoomedFails(s: State, tokens: seq<Token>)
    requires s.stack != [] && Doomed(s)
    ensures Parse(s, tokens) == None
    decreases |tokens|
  {
    if tokens != [] && Advance(s, tokens[0]).Some? {
      StillDoomed(s, tokens[0]);
      DoomedFails(Advance(s, tokens[0]).value, tokens[1..]);
    }
  }

  function Opened(ns: seq<Node>): nat
    decreases ns
  {
    if ns == [] then 0
    else (if ns[0].Leaf? then 0 else 1 + Opened(ns[0].children)) + Opened(ns[1..])
  }

  /** The innermost open element with more children. */
  function Filled(stack: seq<Frame>, ns: seq<Node>): seq<Frame>
    requires stack != []
  {
    var n := |stack| - 1;
    stack[..n] + [stack[n].(children := stack[n].children + ns, preserve := stack[n].preserve || Touched(ns))]
  }

  function After(s: State, ns: seq<Node>, blocks: seq<Block>): State
    requires s.stack != []
  {
    State(Filled(s.stack, ns), blocks, s.unused + Opened(ns))
  }

  /** A state whose innermost blocks are `local`, and where the forest `ns` may follow. */
  ghost predicate Ready(s: State, base: seq<Block>, local: seq<Block>, ns: seq<Node>) {
    && s.stack != [] && Numbered(s)
    && Unplaced(local) && Apart(base, Ids(s.stack)) && s.blocks == base + Move(local, Ids(s.stack))
    && NamedAll(ns) && MarkedAll(ns, Top(s).namespaces)
  }

  /** What parsing a forest comes to: on with its siblings' blocks, or an error. */
  ghost predicate Parsed(s: State, base: seq<Block>, local: seq<Block>, ns: seq<Node>, rest: seq<Token>)
    requires s.stack != []
  {
    var blocks := Follow(local, ns, []);
    Parse(s, FlattenAll(ns) + rest) ==
    if blocks.Some? && InnerBalancedAll(ns) then
      Parse(After(s, ns, base + Move(blocks.value, Ids(s.stack))), rest)
    else None
  }

  lemma ParseFirst(s: State, token: Token, tokens: seq<Token>)
    requires s.stack != []
    ensures Parse(s, [token] + tokens) ==
            if Advance(s, token).None? then None else Parse(Advance(s, token).value, tokens)
  {
    assert ([token] + tokens)[1..] == tokens;
  }

  lemma FilledMore(stack: seq<Frame>, n: Node, ns: seq<Node>)
    requires stack != []
    ensures Filled(Push(stack, n, n.Leaf? && Touches(n.token)), ns) == Filled(stack, [n] + ns)
    ensures Ids(Filled(stack, ns)) == Ids(stack)
  {
    var k := |stack| - 1;
    var pushed := Push(stack, n, n.Leaf? && Touches(n.token));
    assert pushed[..k] == stack[..k] == Filled(stack, ns)[..k];
    assert stack[k].children + [n] + ns == stack[k].children + ([n] + ns);
    assert ([n] + ns)[1..] == ns;
  }

  lemma FilledNone(stack: seq<Frame>)
    requires stack != []
    ensures Filled(stack, []) == stack
  {
    var n := |stack| - 1;
    assert stack[n].children + [] == stack[n].children;
    assert stack == stack[..n] + [stack[n]];
  }

  /** After a leaf, the rest of the forest may follow. */
  lemma LeafReady(s: State, base: seq<Block>, local: seq<Block>, ns: seq<Node>)
    requires Ready(s, base, local, ns) && ns != [] && ns[0].Leaf? && BlocksAfter(local, ns[0].token, []).Some?
    ensures Advance(s, ns[0].token) ==
            Some(State(Push(s.stack, ns[0], Touches(ns[0].token)),
                       base + Move(BlocksAfter(local, ns[0].token, []).value, Ids(s.stack)), s.unused))
    ensures Ready(Advance(s, ns[0].token).value, base, BlocksAfter(local, ns[0].token, []).value, ns[1..])
  {
    assert Named(ns[0]);
    BlocksAbove(base, local, ns[0].token, Ids(s.stack));
    PushIds(s.stack, ns[0], Touches(ns[0].token));
  }

  /** The tokens of a forest are those of its head, then those of the rest. */
  lemma FlattenFirst(ns: seq<Node>, rest: seq<Token>)
    requires ns != []
    ensures FlattenAll(ns) + rest == Flatten(ns[0]) + (FlattenAll(ns[1..]) + rest)
  {
  }

  /** Filling the stack with the head and then the rest fills it with all. */
  lemma AfterFirst(s: State, t: State, ns: seq<Node>, blocks: seq<Block>)
    requires s.stack != [] && ns != []
    requires t.stack == Push(s.stack, ns[0], ns[0].Leaf? && Touches(ns[0].token))
    requires t.unused == s.unused + Opened([ns[0]])
    ensures After(t, ns[1..], blocks) == After(s, ns, blocks)
    ensures Ids(t.stack) == Ids(s.stack)
  {
    FilledMore(s.stack, ns[0], ns[1..]);
    PushIds(s.stack, ns[0], ns[0].Leaf? && Touches(ns[0].token));
    assert [ns[0]] + ns[1..] == ns;
    assert [ns[0]][1..] == [];
  }

  /** The state after a leaf that leaves these blocks open. */
  function AfterLeaf(s: State, base: seq<Block>, leaf: Node, local: seq<Block>): State
    requires s.stack != [] && leaf.Leaf?
  {
    State(Push(s.stack, leaf, Touches(leaf.token)), base + Move(local, Ids(s.stack)), s.unused)
  }

  /** One leaf of a forest. */
  lemma LeafStep(s: State, base: seq<Block>, local: seq<Block>, ns: seq<Node>, rest: seq<Token>)
    requires Ready(s, base, local, ns) && ns != [] && ns[0].Leaf?
    ensures s.stack != []
    ensures var next := BlocksAfter(local, ns[0].token, []);
            && (next.None? ==> Parse(s, FlattenAll(ns) + rest) == None)
            && (next.Some? ==>
                  var t := AfterLeaf(s, base, ns[0], next.value);
                  && t.stack != [] && Ready(t, base, next.value, ns[1..])
                  && Parse(s, FlattenAll(ns) + rest) == Parse(t, FlattenAll(ns[1..]) + rest))
  {
    var token := ns[0].token;
    FlattenFirst(ns, rest);
    ParseFirst(s, token, FlattenAll(ns[1..]) + rest);
    hide Parse;
    if BlocksAfter(local, token, []).Some? {
      LeafReady(s, base, local, ns);
    } else {
      assert Named(ns[0]);
      BlocksAbove(base, local, token, Ids(s.stack));
    }
  }

  /** Parsing the head and then the rest is parsing all. */
  lemma ThenRest(s: State, t: State, base: seq<Block>, local: seq<Block>, next: seq<Block>, ns: seq<Node>, rest: seq<Token>)
    requires s.stack != [] && ns != [] && t.stack != []
    requires t.stack == Push(s.stack, ns[0], ns[0].Leaf? && Touches(ns[0].token))
    requires t.unused == s.unused + Opened([ns[0]])
    requires Parse(s, FlattenAll(ns) + rest) == Parse(t, FlattenAll(ns[1..]) + rest)
    requires Follow(local, ns, []) == Follow(next, ns[1..], [])
    requires InnerBalancedAll(ns) <==> InnerBalancedAll(ns[1..])
    requires Parsed(t, base, next, ns[1..], rest)
    ensures Parsed(s, base, local, ns, rest)
  {
    hide Push, Opened, Parse, FlattenAll, Follow, InnerBalancedAll, Ids, Move, After, Filled;
    var blocks := Follow(local, ns, []);
    if blocks.Some? {
      AfterFirst(s, t, ns, base + Move(blocks.value, Ids(s.stack)));
    }
  }

  lemma {:induction false} RunLeaf(s: State, base: seq<Block>, local: seq<Block>, ns: seq<Node>, rest: seq<Token>)
    requires Ready(s, base, local, ns) && ns != [] && ns[0].Leaf?
    ensures Parsed(s, base, local, ns, rest)
    decreases ns, 0
  {
    LeafStep(s, base, local, ns, rest);
    hide Ready, Parse, Push, FlattenAll, Ids, Move, BlocksAfter;
    var next := BlocksAfter(local, ns[0].token, []);
    if next.Some? {
      var t := AfterLeaf(s, base, ns[0], next.value);
      RunForest(t, base, next.value, ns[1..], rest);
      hide Parsed;
      assert [ns[0]][1..] == [];
      ThenRest(s, t, base, local, next.value, ns, rest);
    }
  }

  lemma RunNone(s: State, base: seq<Block>, local: seq<Block>, rest: seq<Token>)
    requires s.stack != [] && s.blocks == base + Move(local, Ids(s.stack))
    ensures Parsed(s, base, local, [], rest)
  {
    assert FlattenAll([]) + rest == rest;
    FilledNone(s.stack);
    hide Parse, Move, Ids, Filled;
  }

  lemma {:induction false} RunForest(s: State, base: seq<Block>, local: seq<Block>, ns: seq<Node>, rest: seq<Token>)
    requires Ready(s, base, local, ns)
    ensures Parsed(s, base, local, ns, rest)
    decreases ns, 1
  {
    if ns == [] {
      RunNone(s, base, local, rest);
    } else if ns[0].Leaf? {
      RunLeaf(s, base, local, ns, rest);
    } else {
      RunElement(s, base, local, ns, rest);
    }
  }

  /** Inside an element that was just opened, its children may follow. */
  lemma EnteredReady(s: State, base: seq<Block>, local: seq<Block>, ns: seq<Node>)
    requires Ready(s, base, local, ns) && ns != [] && ns[0].Element?
    ensures Ready(Entered(s, ns[0].tag), s.blocks, [], ns[0].children)
  {
    var t := Entered(s, ns[0].tag);
    assert Named(ns[0]) && Marked(ns[0], Top(s).namespaces);
    assert t.stack[..|s.stack|] == s.stack;
    assert Ids(t.stack)[|s.stack|] == s.unused;
    assert s.blocks + [] == s.blocks;
  }

  /** The state once the element at the head of a forest is closed. */
  function Passed(s: State, n: Node): State
    requires s.stack != [] && n.Element?
  {
    State(Push(s.stack, n, false), s.blocks, s.unused + 1 + Opened(n.children))
  }

  /** The stack inside an element whose children have all been parsed. */
  lemma EnteredFilled(s: State, tag: Tag, ns: seq<Node>)
    requires s.stack != []
    ensures var namespaces := Inherit(Top(s).namespaces, tag);
            Filled(Entered(s, tag).stack, ns) ==
            s.stack + [Frame(s.unused, tag, namespaces, Unknown(tag, namespaces) || Touched(ns), ns)]
  {
    assert [] + ns == ns;
    assert Entered(s, tag).stack[..|s.stack|] == s.stack;
  }

  lemma CloseFilled(stack: seq<Frame>, frame: Frame, close: Token, blocks: seq<Block>, unused: nat)
    requires stack != [] && Closes(close, frame.tag)
    ensures Advance(State(stack + [frame], blocks, unused), close) ==
            Some(State(Push(stack, Closed(frame, close), false), blocks, unused))
  {
    assert (stack + [frame])[..|stack|] == stack;
  }

  /** Closing an element, whatever blocks its children left open. */
  lemma Leaving(s: State, base: seq<Block>, local: seq<Block>, ns: seq<Node>, blocks: seq<Block>)
    requires Ready(s, base, local, ns) && ns != [] && ns[0].Element?
    ensures var t := Entered(s, ns[0].tag);
            var before := After(t, ns[0].children, s.blocks + Move(blocks, Ids(t.stack)));
            Advance(before, ns[0].close) == Some(Passed(s, ns[0]).(blocks := before.blocks))
  {
    var n := ns[0];
    var t := Entered(s, n.tag);
    assert Named(n) && Marked(n, Top(s).namespaces);
    hide NamedAll, MarkedAll, Ids, Move, Ready;
    var namespaces := Inherit(Top(s).namespaces, n.tag);
    var frame := Frame(s.unused, n.tag, namespaces, n.preserve, n.children);
    EnteredFilled(s, n.tag, n.children);
    hide Unknown, Touched, Filled, Push;
    CloseFilled(s.stack, frame, n.close, s.blocks + Move(blocks, Ids(t.stack)), s.unused + 1 + Opened(n.children));
  }

  /** A block that is still open when its element is closed can never end. */
  lemma LeftOpen(s: State, n: Node, blocks: seq<Block>)
    requires s.stack != [] && Numbered(s) && n.Element? && blocks != []
    ensures var t := Entered(s, n.tag);
            Doomed(Passed(s, n).(blocks := s.blocks + Move(blocks, Ids(t.stack))))
  {
    var t := Entered(s, n.tag);
    var next := Passed(s, n).(blocks := s.blocks + Move(blocks, Ids(t.stack)));
    PushIds(s.stack, n, false);
    var i, k := |s.blocks|, |s.stack|;
    assert next.blocks[i].stack == Ids(t.stack) && Ids(t.stack)[k] == s.unused;
    assert Lost(next, next.blocks[i].stack[k]);
  }

  lemma PassedReady(s: State, base: seq<Block>, local: seq<Block>, ns: seq<Node>)
    requires Ready(s, base, local, ns) && ns != [] && ns[0].Element?
    ensures Ready(Passed(s, ns[0]), base, local, ns[1..])
    ensures Ids(Passed(s, ns[0]).stack) == Ids(s.stack)
  {
    PushIds(s.stack, ns[0], false);
  }

  /** The tokens of an element and what follows it. */
  lemma FlattenElement(ns: seq<Node>, rest: seq<Token>)
    requires ns != [] && ns[0].Element?
    ensures FlattenAll(ns) + rest ==
            [Open(ns[0].tag)] + (FlattenAll(ns[0].children) + ([ns[0].close] + (FlattenAll(ns[1..]) + rest)))
  {
    FlattenFirst(ns, rest);
  }

  /** One element of a forest, given how its children are parsed. */
  lemma ElementStep(s: State, base: seq<Block>, local: seq<Block>, ns: seq<Node>, rest: seq<Token>)
    requires Ready(s, base, local, ns) && ns != [] && ns[0].Element?
    requires Parsed(Entered(s, ns[0].tag), s.blocks, [], ns[0].children, [ns[0].close] + (FlattenAll(ns[1..]) + rest))
    ensures Parse(s, FlattenAll(ns) + rest) ==
            if InnerBalanced(ns[0]) then Parse(Passed(s, ns[0]), FlattenAll(ns[1..]) + rest) else None
  {
    var n, tail := ns[0], FlattenAll(ns[1..]) + rest;
    var t := Entered(s, n.tag);
    FlattenElement(ns, rest);
    ParseFirst(s, Open(n.tag), FlattenAll(n.children) + ([n.close] + tail));
    assert Advance(s, Open(n.tag)) == Some(t) && t.stack != [];
    assert InnerBalanced(n) <==> Follow([], n.children, []) == Some([]) && InnerBalancedAll(n.children);
    hide InnerBalanced, InnerBalancedAll, Balanced, FlattenAll, Parse, Ids;
    var blocks := Follow([], n.children, []);
    if blocks.Some? && InnerBalancedAll(n.children) {
      Leaving(s, base, local, ns, blocks.value);
      var before := After(t, n.children, s.blocks + Move(blocks.value, Ids(t.stack)));
      var next := Passed(s, n).(blocks := before.blocks);
      assert before.stack != [] && next.stack != [];
      assert blocks.value == [] ==> before.blocks == s.blocks;
      assert blocks.value != [] ==> Doomed(next) by {
        if blocks.value != [] {
          LeftOpen(s, n, blocks.value);
        }
      }
      hide Follow, Advance, After, Ready, Doomed;
      ParseFirst(before, n.close, tail);
      if blocks.value != [] {
        DoomedFails(next, tail);
      }
    }
  }

  lemma {:induction false} RunElement(s: State, base: seq<Block>, local: seq<Block>, ns: seq<Node>, rest: seq<Token>)
    requires Ready(s, base, local, ns) && ns != [] && ns[0].Element?
    ensures Parsed(s, base, local, ns, rest)
    decreases ns, 0
  {
    var n := ns[0];
    EnteredReady(s, base, local, ns);
    RunForest(Entered(s, n.tag), s.blocks, [], n.children, [n.close] + (FlattenAll(ns[1..]) + rest));
    ElementStep(s, base, local, ns, rest);
    if InnerBalanced(n) {
      PassedReady(s, base, local, ns);
      RunForest(Passed(s, n), base, local, ns[1..], rest);
      assert [n][1..] == [];
      ThenRest(s, Passed(s, n), base, local, local, ns, rest);
    }
  }

  // ---------------------------------------------------------------------------
  // The parser accepts exactly the proper trees
  // ---------------------------------------------------------------------------

  /** A forest that is closed by name and marked right is parsed if its blocks are balanced. */
  lemma ParseForest(ns: seq<Node>)
    requires NamedAll(ns) && MarkedAll(ns, ROOT_NAMESPACES)
    ensures Parse(START, FlattenAll(ns)) ==
            if Balanced(ns) && InnerBalancedAll(ns) then Some(Tree(Touched(ns), ns)) else None
  {
    assert Ids(START.stack) == [0];
    RunForest(START, [], [], ns, []);
    assert FlattenAll(ns) + [] == FlattenAll(ns);
    hide Follow, FlattenAll, InnerBalancedAll, NamedAll, MarkedAll, Touched;
    var blocks := Follow([], ns, []);
    if blocks.Some? && InnerBalancedAll(ns) {
      assert [] + Move(blocks.value, [0]) == Move(blocks.value, [0]);
      assert ROOT.children + ns == ns;
      var end := After(START, ns, Move(blocks.value, [0]));
      assert Parse(end, []) == if end.blocks == [] then Some(Tree(Touched(ns), ns)) else None;
    }
  }

  /** A template has a proper tree exactly if the parser finds it, and it has no other. */
  lemma ParseIsExact(tokens: seq<Token>, t: Tree)
    ensures Parse(START, tokens) == Some(t) <==> Proper(t) && FlattenAll(t.children) == tokens
  {
    if Parse(START, tokens) == Some(t) {
      StartSound();
      ParseSpells(START, tokens);
      assert [] + tokens == tokens;
    }
    if NamedAll(t.children) && MarkedAll(t.children, ROOT_NAMESPACES) && FlattenAll(t.children) == tokens {
      ParseForest(t.children);
    }
  }

  lemma StartSound()
    ensures StackSound(START.stack) && Consumed(START.stack) == []
  {
    assert FrameSound(START.stack, 0);
  }
}

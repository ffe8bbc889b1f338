/**
  The editor's formatter: it lays out the children of element-only elements on lines of
  their own and copies everything else.
 */
module HxmlFormatter {
  import opened HxmlTemplate
  import opened Wrappers

  function TextOf(token: Token): string {
    match token
    case Open(tag) => tag.text
    case SelfClosing(tag) => tag.text
    case Close(_, _, text) => text
    case Text(text) => text
    case Literal(_, text) => text
    case Variable(text) => text
    case Raw(text) => text
    case Comment(text) => text
    case Command(_, _, text) => text
  }

  /** The source that tokens span. */
  function Spell(tokens: seq<Token>): string {
    if tokens == [] then "" else TextOf(tokens[0]) + Spell(tokens[1..])
  }

  function Indent(depth: nat): string {
    if depth == 0 then "" else "  " + Indent(depth - 1)
  }

  predicate IsText(n: Node) { n.Leaf? && n.token.Text? }

  /** Something but text is among the siblings. */
  predicate Meaningful(ns: seq<Node>) {
    ns != [] && (!IsText(ns[0]) || Meaningful(ns[1..]))
  }

  /** The formatter lays out this element's children. */
  predicate Rewritten(n: Node) {
    n.Element? && !n.preserve && Meaningful(n.children)
  }

  // ---------------------------------------------------------------------------
  // Rendering
  // ---------------------------------------------------------------------------

  /** `render` of an element below the root. */
  function Render(n: Node, depth: nat): string
    requires depth > 0
    decreases n, 1
  {
    if !Rewritten(n) then Spell(Flatten(n))
    else
      n.tag.text + "\n" + Join(RenderAll(n.children, depth)) + "\n" + Indent(depth - 1) + TextOf(n.close)
  }

  /** The indented lines of the meaningful children. */
  function RenderAll(ns: seq<Node>, depth: nat): (lines: seq<string>)
    ensures lines != [] <==> Meaningful(ns)
    decreases ns, 0
  {
    if ns == [] then []
    else if IsText(ns[0]) then RenderAll(ns[1..], depth)
    else [Indent(depth) + Render(ns[0], depth + 1)] + RenderAll(ns[1..], depth)
  }

  function Join(lines: seq<string>): string {
    if lines == [] then "" else if |lines| == 1 then lines[0] else lines[0] + "\n" + Join(lines[1..])
  }

  /** `render` of the root. */
  function RenderTree(t: Tree): string {
    if t.preserve || !Meaningful(t.children) then Spell(FlattenAll(t.children))
    else Join(RenderAll(t.children, 0))
  }

  // ---------------------------------------------------------------------------
  // The rendered text as a tree
  // ---------------------------------------------------------------------------

  /** A line break, and the indentation of the next line. */
  function Break(depth: nat): Node { Leaf(Text("\n" + Indent(depth))) }

  function Reformat(n: Node, depth: nat): (r: Node)
    requires depth > 0
    ensures IsText(r) <==> IsText(n)
    decreases n, 1
  {
    if !Rewritten(n) then n
    else Element(n.tag, n.close, n.preserve, Lines(n.children, depth) + [Break(depth - 1)])
  }

  /** A break before each meaningful child. */
  function Lines(ns: seq<Node>, depth: nat): (ls: seq<Node>)
    ensures ls != [] <==> Meaningful(ns)
    ensures ls != [] ==> ls[0] == Break(depth)
    decreases ns, 0
  {
    if ns == [] then []
    else if IsText(ns[0]) then Lines(ns[1..], depth)
    else [Break(depth), Reformat(ns[0], depth + 1)] + Lines(ns[1..], depth)
  }

  function ReformatTree(t: Tree): Tree {
    if t.preserve || !Meaningful(t.children) then t else t.(children := Lines(t.children, 0)[1..])
  }

  lemma {:induction false} SpellConcat(a: seq<Token>, b: seq<Token>)
    ensures Spell(a + b) == Spell(a) + Spell(b)
  {
    if a == [] {
      assert a + b == b;
    } else {
      assert (a + b)[0] == a[0] && (a + b)[1..] == a[1..] + b;
      SpellConcat(a[1..], b);
    }
  }

  lemma {:induction false} FlattenConcat(a: seq<Node>, b: seq<Node>)
    ensures FlattenAll(a + b) == FlattenAll(a) + FlattenAll(b)
  {
    if a == [] {
      assert a + b == b;
    } else {
      assert (a + b)[0] == a[0] && (a + b)[1..] == a[1..] + b;
      FlattenConcat(a[1..], b);
    }
  }

  lemma FlattenOne(n: Node)
    ensures FlattenAll([n]) == Flatten(n)
  {
    assert [n][1..] == [];
  }

  lemma SpellOne(token: Token)
    ensures Spell([token]) == TextOf(token)
  {
    assert [token][1..] == [];
  }

  lemma SpellCons(n: Node, ns: seq<Node>)
    ensures Spell(FlattenAll([n] + ns)) == Spell(Flatten(n)) + Spell(FlattenAll(ns))
  {
    assert ([n] + ns)[1..] == ns;
    SpellConcat(Flatten(n), FlattenAll(ns));
  }

  lemma SpellElement(n: Node)
    requires n.Element?
    ensures Spell(Flatten(n)) == n.tag.text + Spell(FlattenAll(n.children)) + TextOf(n.close)
  {
    SpellConcat([Open(n.tag)] + FlattenAll(n.children), [n.close]);
    SpellConcat([Open(n.tag)], FlattenAll(n.children));
    SpellOne(Open(n.tag));
    SpellOne(n.close);
  }

  /** What is rendered is the reformatted tree, written out. */
  lemma {:induction false} RenderSpells(n: Node, depth: nat)
    requires depth > 0
    ensures Render(n, depth) == Spell(Flatten(Reformat(n, depth)))
    decreases n, 1
  {
    if Rewritten(n) {
      var lines := Lines(n.children, depth);
      var r := Reformat(n, depth);
      LinesSpell(n.children, depth);
      SpellElement(r);
      FlattenConcat(lines, [Break(depth - 1)]);
      FlattenOne(Break(depth - 1));
      SpellConcat(FlattenAll(lines), [Break(depth - 1).token]);
      SpellOne(Break(depth - 1).token);
      hide RenderAll, Join, Spell, FlattenAll, Flatten, Lines, Indent;
      Regroup(n.tag.text, Join(RenderAll(n.children, depth)), Indent(depth - 1), TextOf(n.close));
    }
  }

  lemma Regroup(a: string, b: string, c: string, d: string)
    ensures a + (("\n" + b) + ("\n" + c)) + d == a + "\n" + b + "\n" + c + d
  {
  }

  lemma {:induction false} LinesSpell(ns: seq<Node>, depth: nat)
    ensures Meaningful(ns) ==> Spell(FlattenAll(Lines(ns, depth))) == "\n" + Join(RenderAll(ns, depth))
    decreases ns, 0
  {
    if ns != [] && IsText(ns[0]) {
      LinesSpell(ns[1..], depth);
    } else if ns != [] {
      var r, rest := Reformat(ns[0], depth + 1), Lines(ns[1..], depth);
      LinesUnfold(ns, depth);
      LinesSpell(ns[1..], depth);
      RenderSpells(ns[0], depth + 1);
      SpellCons(Break(depth), [r] + rest);
      SpellCons(r, rest);
      SpellBreak(depth);
      LineSpells(ns, depth);
      assert rest == [] ==> Spell(FlattenAll(rest)) == "";
      hide *;
      RegroupLine("\n", Indent(depth), Render(ns[0], depth + 1), Spell(FlattenAll(rest)));
    }
  }

  lemma LinesUnfold(ns: seq<Node>, depth: nat)
    requires ns != [] && !IsText(ns[0])
    ensures Lines(ns, depth) == [Break(depth)] + ([Reformat(ns[0], depth + 1)] + Lines(ns[1..], depth))
  {
  }

  lemma SpellBreak(depth: nat)
    ensures Spell(Flatten(Break(depth))) == "\n" + Indent(depth)
  {
    SpellOne(Break(depth).token);
  }

  lemma RegroupLine(a: string, b: string, c: string, d: string)
    ensures (a + b) + (c + d) == a + ((b + c) + d)
    ensures d == "" ==> (a + b) + (c + d) == a + (b + c)
  {
  }

  /** The first line and the others. */
  lemma LineSpells(ns: seq<Node>, depth: nat)
    requires ns != [] && !IsText(ns[0])
    ensures var line := Indent(depth) + Render(ns[0], depth + 1);
            Join(RenderAll(ns, depth)) ==
            if Meaningful(ns[1..]) then line + ("\n" + Join(RenderAll(ns[1..], depth))) else line
  {
    var line, more := Indent(depth) + Render(ns[0], depth + 1), RenderAll(ns[1..], depth);
    assert RenderAll(ns, depth) == [line] + more;
    assert ([line] + more)[1..] == more;
  }

  lemma RenderTreeSpells(t: Tree)
    ensures RenderTree(t) == Spell(FlattenAll(ReformatTree(t).children))
  {
    if !t.preserve && Meaningful(t.children) {
      var lines := Lines(t.children, 0);
      LinesSpell(t.children, 0);
      assert lines == [Break(0)] + lines[1..];
      SpellCons(Break(0), lines[1..]);
      SpellOne(Break(0).token);
      var body := Spell(FlattenAll(lines[1..]));
      assert ("\n" + Join(RenderAll(t.children, 0)))[1..] == ("\n" + body)[1..];
    }
  }

  // ---------------------------------------------------------------------------
  // The reformatted tree is proper
  // ---------------------------------------------------------------------------

  lemma IndentIsBlank(depth: nat)
    ensures Blank(Indent(depth)) && Blank("\n" + Indent(depth))
  {
  }

  lemma BreakIsHarmless(depth: nat, namespaces: map<string, string>)
    ensures !Touches(Break(depth).token) && Named(Break(depth)) && Marked(Break(depth), namespaces)
  {
    IndentIsBlank(depth);
  }

  lemma {:induction false} NamedConcat(a: seq<Node>, b: seq<Node>, namespaces: map<string, string>)
    ensures NamedAll(a + b) <==> NamedAll(a) && NamedAll(b)
    ensures MarkedAll(a + b, namespaces) <==> MarkedAll(a, namespaces) && MarkedAll(b, namespaces)
    ensures Touched(a + b) <==> Touched(a) || Touched(b)
    ensures InnerBalancedAll(a + b) <==> InnerBalancedAll(a) && InnerBalancedAll(b)
  {
    if a == [] {
      assert a + b == b;
    } else {
      assert (a + b)[0] == a[0] && (a + b)[1..] == a[1..] + b;
      NamedConcat(a[1..], b, namespaces);
    }
  }

  /** Adding a break changes nothing but the text. */
  lemma WithBreak(ns: seq<Node>, depth: nat, namespaces: map<string, string>)
    ensures NamedAll(ns + [Break(depth)]) <==> NamedAll(ns)
    ensures MarkedAll(ns + [Break(depth)], namespaces) <==> MarkedAll(ns, namespaces)
    ensures Touched(ns + [Break(depth)]) <==> Touched(ns)
    ensures InnerBalancedAll(ns + [Break(depth)]) <==> InnerBalancedAll(ns)
  {
    BreakIsHarmless(depth, namespaces);
    assert [Break(depth)][1..] == [];
    NamedConcat(ns, [Break(depth)], namespaces);
  }

  lemma {:induction false} ReformatNamed(n: Node, depth: nat, namespaces: map<string, string>)
    requires depth > 0 && Named(n) && Marked(n, namespaces)
    ensures Named(Reformat(n, depth)) && Marked(Reformat(n, depth), namespaces)
    decreases n, 1
  {
    if Rewritten(n) {
      var inner := Inherit(namespaces, n.tag);
      LinesNamed(n.children, depth, inner);
      WithBreak(Lines(n.children, depth), depth - 1, inner);
    }
  }

  lemma {:induction false} LinesNamed(ns: seq<Node>, depth: nat, namespaces: map<string, string>)
    requires NamedAll(ns) && MarkedAll(ns, namespaces) && !Touched(ns)
    ensures NamedAll(Lines(ns, depth)) && MarkedAll(Lines(ns, depth), namespaces) && !Touched(Lines(ns, depth))
    decreases ns, 0
  {
    if ns != [] {
      LinesNamed(ns[1..], depth, namespaces);
      if !IsText(ns[0]) {
        var r, rest := Reformat(ns[0], depth + 1), Lines(ns[1..], depth);
        ReformatNamed(ns[0], depth + 1, namespaces);
        BreakIsHarmless(depth, namespaces);
        LineUnfolds(Break(depth), r, rest);
      }
    }
  }

  lemma LineUnfolds(b: Node, r: Node, rest: seq<Node>)
    ensures ([b, r] + rest)[0] == b && ([b, r] + rest)[1..] == [r] + rest && ([r] + rest)[1..] == rest
  {
  }

  lemma {:induction false} FollowConcat(blocks: seq<Block>, a: seq<Node>, b: seq<Node>, here: seq<nat>)
    ensures Follow(blocks, a + b, here) ==
            if Follow(blocks, a, here).None? then None else Follow(Follow(blocks, a, here).value, b, here)
    decreases a
  {
    if a == [] {
      assert a + b == b;
    } else {
      assert (a + b)[0] == a[0] && (a + b)[1..] == a[1..] + b;
      var next := if a[0].Leaf? then BlocksAfter(blocks, a[0].token, here) else Some(blocks);
      if next.Some? {
        FollowConcat(next.value, a[1..], b, here);
      }
    }
  }

  /** Text does not move blocks, nor does an element. */
  lemma {:induction false} LinesFollow(blocks: seq<Block>, ns: seq<Node>, depth: nat, here: seq<nat>)
    ensures Follow(blocks, Lines(ns, depth), here) == Follow(blocks, ns, here)
    decreases ns
  {
    if ns != [] {
      var next := if ns[0].Leaf? then BlocksAfter(blocks, ns[0].token, here) else Some(blocks);
      if next.Some? {
        LinesFollow(next.value, ns[1..], depth, here);
      }
      if !IsText(ns[0]) {
        LineUnfolds(Break(depth), Reformat(ns[0], depth + 1), Lines(ns[1..], depth));
      }
    }
  }

  lemma LinesBalanced(ns: seq<Node>, depth: nat, k: nat)
    requires Balanced(ns)
    ensures Balanced(Lines(ns, depth) + [Break(k)])
    ensures Meaningful(ns) ==> Balanced(Lines(ns, depth)[1..])
  {
    LinesFollow([], ns, depth, []);
    FollowConcat([], Lines(ns, depth), [Break(k)], []);
  }

  lemma {:induction false} ReformatBalanced(n: Node, depth: nat)
    requires depth > 0 && InnerBalanced(n)
    ensures InnerBalanced(Reformat(n, depth))
    decreases n, 1
  {
    if Rewritten(n) {
      LinesBalanced(n.children, depth, depth - 1);
      LinesInnerBalanced(n.children, depth);
      WithBreak(Lines(n.children, depth), depth - 1, map[]);
    }
  }

  lemma {:induction false} LinesInnerBalanced(ns: seq<Node>, depth: nat)
    requires InnerBalancedAll(ns)
    ensures InnerBalancedAll(Lines(ns, depth))
    decreases ns, 0
  {
    if ns != [] {
      LinesInnerBalanced(ns[1..], depth);
      if !IsText(ns[0]) {
        var r, rest := Reformat(ns[0], depth + 1), Lines(ns[1..], depth);
        ReformatBalanced(ns[0], depth + 1);
        LineUnfolds(Break(depth), r, rest);
        assert InnerBalancedAll([r] + rest);
      }
    }
  }

  /** The output parses, to the reformatted tree. */
  lemma ReformatIsProper(t: Tree)
    requires Proper(t)
    ensures Proper(ReformatTree(t))
  {
    if !t.preserve && Meaningful(t.children) {
      LinesNamed(t.children, 0, ROOT_NAMESPACES);
      LinesBalanced(t.children, 0, 0);
      LinesInnerBalanced(t.children, 0);
    }
  }

  // ---------------------------------------------------------------------------
  // Formatting again changes nothing
  // ---------------------------------------------------------------------------

  lemma {:induction false} LinesAgain(ns: seq<Node>, depth: nat)
    ensures Lines(Lines(ns, depth), depth) == Lines(ns, depth)
    decreases ns, 0
  {
    if ns != [] {
      LinesAgain(ns[1..], depth);
      if !IsText(ns[0]) {
        var r, rest := Reformat(ns[0], depth + 1), Lines(ns[1..], depth);
        LineUnfolds(Break(depth), r, rest);
        ReformatAgain(ns[0], depth + 1);
        assert Lines([r] + rest, depth) == [Break(depth), r] + rest;
      }
    }
  }

  lemma {:induction false} LinesAndBreak(ns: seq<Node>, depth: nat, k: nat)
    ensures Lines(ns + [Break(k)], depth) == Lines(ns, depth)
  {
    if ns == [] {
      assert [] + [Break(k)] == [Break(k)] && [Break(k)][1..] == [];
    } else {
      assert (ns + [Break(k)])[0] == ns[0] && (ns + [Break(k)])[1..] == ns[1..] + [Break(k)];
      LinesAndBreak(ns[1..], depth, k);
    }
  }

  lemma {:induction false} ReformatAgain(n: Node, depth: nat)
    requires depth > 0
    ensures Reformat(Reformat(n, depth), depth) == Reformat(n, depth)
    decreases n, 1
  {
    if Rewritten(n) {
      LinesAgain(n.children, depth);
      LinesAndBreak(Lines(n.children, depth), depth, depth - 1);
      LinesMeaningful(n.children, depth, [Break(depth - 1)]);
    }
  }

  lemma LinesMeaningful(ns: seq<Node>, depth: nat, more: seq<Node>)
    requires Meaningful(ns)
    ensures Meaningful(Lines(ns, depth) + more) && Meaningful(Lines(ns, depth)[1..])
    decreases ns
  {
    if IsText(ns[0]) {
      LinesMeaningful(ns[1..], depth, more);
    } else {
      var r, rest := Reformat(ns[0], depth + 1), Lines(ns[1..], depth);
      assert ([Break(depth), r] + rest + more)[1..][0] == r;
      assert ([Break(depth), r] + rest)[1..][0] == r;
    }
  }

  lemma TreeAgain(t: Tree)
    ensures ReformatTree(ReformatTree(t)) == ReformatTree(t)
  {
    if !t.preserve && Meaningful(t.children) {
      var lines := Lines(t.children, 0);
      LinesAgain(t.children, 0);
      LinesMeaningful(t.children, 0, []);
      assert Lines(lines, 0) == Lines(lines[1..], 0);
    }
  }

  // ---------------------------------------------------------------------------
  // The output is the same tree
  // ---------------------------------------------------------------------------

  /** The tree without the text between the children of rewritten elements; others are whole. */
  function Erased(n: Node): Node
    decreases n, 1
  {
    if !Rewritten(n) then n else n.(children := ErasedAll(n.children))
  }

  function ErasedAll(ns: seq<Node>): seq<Node>
    decreases ns, 0
  {
    if ns == [] then []
    else if IsText(ns[0]) then ErasedAll(ns[1..])
    else [Erased(ns[0])] + ErasedAll(ns[1..])
  }

  function ErasedTree(t: Tree): Tree {
    if t.preserve || !Meaningful(t.children) then t else t.(children := ErasedAll(t.children))
  }

  lemma {:induction false} LinesErased(ns: seq<Node>, depth: nat, k: nat)
    ensures ErasedAll(Lines(ns, depth)) == ErasedAll(ns)
    ensures ErasedAll(Lines(ns, depth) + [Break(k)]) == ErasedAll(ns)
    decreases ns, 0
  {
    if ns == [] {
      assert [] + [Break(k)] == [Break(k)] && [Break(k)][1..] == [];
    } else {
      LinesErased(ns[1..], depth, k);
      if !IsText(ns[0]) {
        var r, rest := Reformat(ns[0], depth + 1), Lines(ns[1..], depth);
        ReformatErased(ns[0], depth + 1);
        LineUnfolds(Break(depth), r, rest);
        LineUnfolds(Break(depth), r, rest + [Break(k)]);
        assert Lines(ns, depth) + [Break(k)] == [Break(depth), r] + (rest + [Break(k)]);
      }
    }
  }

  lemma {:induction false} ReformatErased(n: Node, depth: nat)
    requires depth > 0
    ensures Erased(Reformat(n, depth)) == Erased(n)
    decreases n, 1
  {
    if Rewritten(n) {
      LinesErased(n.children, depth, depth - 1);
      LinesMeaningful(n.children, depth, [Break(depth - 1)]);
    }
  }

  lemma TreeErased(t: Tree)
    ensures ErasedTree(ReformatTree(t)) == ErasedTree(t)
  {
    if !t.preserve && Meaningful(t.children) {
      LinesErased(t.children, 0, 0);
      LinesMeaningful(t.children, 0, []);
    }
  }

  // ---------------------------------------------------------------------------
  // Only whitespace between rewritten tags changes
  // ---------------------------------------------------------------------------

  /** The tokens but for those that are whitespace only. */
  function Essential(tokens: seq<Token>): seq<Token> {
    if tokens == [] then [] else EssentialOf(tokens[0]) + Essential(tokens[1..])
  }

  function EssentialOf(token: Token): seq<Token> {
    if token.Text? && Blank(token.text) then [] else [token]
  }

  lemma {:induction false} EssentialConcat(a: seq<Token>, b: seq<Token>)
    ensures Essential(a + b) == Essential(a) + Essential(b)
  {
    hide Essential, EssentialOf;
    if a == [] {
      assert a + b == b;
      EssentialOfNone();
    } else {
      assert (a + b)[0] == a[0] && (a + b)[1..] == a[1..] + b;
      EssentialConcat(a[1..], b);
      EssentialFirst(a);
      EssentialFirst(a + b);
    }
  }

  lemma EssentialOfNone()
    ensures forall b :: Essential([]) + Essential(b) == Essential(b)
  {
  }

  lemma EssentialFirst(tokens: seq<Token>)
    requires tokens != []
    ensures Essential(tokens) == EssentialOf(tokens[0]) + Essential(tokens[1..])
  {
  }

  lemma EssentialBreak(depth: nat)
    ensures Essential([Break(depth).token]) == []
  {
    IndentIsBlank(depth);
    assert [Break(depth).token][1..] == [];
  }

  lemma EssentialWithBreak(lines: seq<Node>, depth: nat)
    ensures Essential(FlattenAll(lines + [Break(depth)])) == Essential(FlattenAll(lines))
  {
    FlattenConcat(lines, [Break(depth)]);
    FlattenOne(Break(depth));
    EssentialConcat(FlattenAll(lines), [Break(depth).token]);
    EssentialBreak(depth);
    hide Essential, FlattenAll;
    assert Essential(FlattenAll(lines)) + [] == Essential(FlattenAll(lines));
  }

  lemma EssentialElement(n: Node)
    requires n.Element? && Named(n)
    ensures Essential(Flatten(n)) == [Open(n.tag)] + Essential(FlattenAll(n.children)) + [n.close]
  {
    EssentialConcat([Open(n.tag)] + FlattenAll(n.children), [n.close]);
    EssentialConcat([Open(n.tag)], FlattenAll(n.children));
    assert [Open(n.tag)][1..] == [] && [n.close][1..] == [];
  }

  lemma {:induction false} ReformatKeeps(n: Node, depth: nat, namespaces: map<string, string>)
    requires depth > 0 && Named(n) && Marked(n, namespaces)
    ensures Essential(Flatten(Reformat(n, depth))) == Essential(Flatten(n))
    decreases n, 1
  {
    if Rewritten(n) {
      var r, lines := Reformat(n, depth), Lines(n.children, depth);
      LinesKeep(n.children, depth, Inherit(namespaces, n.tag));
      ReformatNamed(n, depth, namespaces);
      EssentialElement(n);
      EssentialElement(r);
      EssentialWithBreak(lines, depth - 1);
      assert r == Element(n.tag, n.close, n.preserve, lines + [Break(depth - 1)]);
      hide *;
    }
  }

  lemma {:induction false} LinesKeep(ns: seq<Node>, depth: nat, namespaces: map<string, string>)
    requires NamedAll(ns) && MarkedAll(ns, namespaces) && !Touched(ns)
    ensures Essential(FlattenAll(Lines(ns, depth))) == Essential(FlattenAll(ns))
    decreases ns, 0
  {
    if ns != [] {
      LinesKeep(ns[1..], depth, namespaces);
      EssentialConcat(Flatten(ns[0]), FlattenAll(ns[1..]));
      if IsText(ns[0]) {
        assert [ns[0].token][1..] == [];
      } else {
        var r, rest := Reformat(ns[0], depth + 1), Lines(ns[1..], depth);
        LineUnfolds(Break(depth), r, rest);
        ReformatKeeps(ns[0], depth + 1, namespaces);
        EssentialConcat(Flatten(r), FlattenAll(rest));
        EssentialConcat([Break(depth).token], Flatten(r) + FlattenAll(rest));
        EssentialBreak(depth);
        assert FlattenAll([r] + rest) == Flatten(r) + FlattenAll(rest);
      }
    }
  }

  // ---------------------------------------------------------------------------
  // The output reads back as the tokens it was written from
  // ---------------------------------------------------------------------------

  /** No text is next to text, as in every list that the lexer makes. */
  ghost predicate TextsApart(tokens: seq<Token>) {
    forall i | 0 < i < |tokens| :: !(tokens[i - 1].Text? && tokens[i].Text?)
  }

  /** The list neither begins nor ends with text, and is not empty. */
  predicate Edged(tokens: seq<Token>) {
    tokens != [] && !tokens[0].Text? && !tokens[|tokens| - 1].Text?
  }

  lemma FlattenEdged(n: Node)
    requires Named(n) && !IsText(n)
    ensures Edged(Flatten(n))
  {
  }

  lemma ApartParts(a: seq<Token>, b: seq<Token>)
    requires TextsApart(a + b)
    ensures TextsApart(a) && TextsApart(b)
  {
    forall i | 0 < i < |a| ensures !(a[i - 1].Text? && a[i].Text?) {
      assert (a + b)[i - 1] == a[i - 1] && (a + b)[i] == a[i];
    }
    forall i | 0 < i < |b| ensures !(b[i - 1].Text? && b[i].Text?) {
      assert (a + b)[|a| + i - 1] == b[i - 1] && (a + b)[|a| + i] == b[i];
    }
  }

  lemma ApartJoin(a: seq<Token>, b: seq<Token>)
    requires TextsApart(a) && TextsApart(b)
    requires a == [] || b == [] || !a[|a| - 1].Text? || !b[0].Text?
    ensures TextsApart(a + b)
  {
  }

  lemma ElementApart(n: Node)
    requires n.Element? && Named(n)
    ensures TextsApart(Flatten(n)) <==> TextsApart(FlattenAll(n.children))
  {
    var body := FlattenAll(n.children);
    if TextsApart(Flatten(n)) {
      ApartParts([Open(n.tag)] + body, [n.close]);
      ApartParts([Open(n.tag)], body);
    }
    if TextsApart(body) {
      ApartJoin([Open(n.tag)], body);
      ApartJoin([Open(n.tag)] + body, [n.close]);
    }
  }

  lemma {:induction false} ReformatApart(n: Node, depth: nat)
    requires depth > 0 && Named(n) && Named(Reformat(n, depth)) && TextsApart(Flatten(n))
    ensures TextsApart(Flatten(Reformat(n, depth)))
    decreases n, 1
  {
    if Rewritten(n) {
      var r, lines := Reformat(n, depth), Lines(n.children, depth);
      ElementApart(n);
      NamedConcat(lines, [Break(depth - 1)], map[]);
      LinesApart(n.children, depth);
      FlattenConcat(lines, [Break(depth - 1)]);
      FlattenOne(Break(depth - 1));
      ApartJoin(FlattenAll(lines), [Break(depth - 1).token]);
      ElementApart(r);
    }
  }

  /** The lines alternate: a break, and a child that neither begins nor ends with text. */
  lemma {:induction false} LinesApart(ns: seq<Node>, depth: nat)
    requires NamedAll(ns) && NamedAll(Lines(ns, depth)) && TextsApart(FlattenAll(ns))
    ensures TextsApart(FlattenAll(Lines(ns, depth)))
    ensures var tokens := FlattenAll(Lines(ns, depth)); tokens == [] || !tokens[|tokens| - 1].Text?
    decreases ns, 0
  {
    if ns != [] {
      ApartParts(Flatten(ns[0]), FlattenAll(ns[1..]));
      if IsText(ns[0]) {
        LinesApart(ns[1..], depth);
      } else {
        var r, rest := Reformat(ns[0], depth + 1), Lines(ns[1..], depth);
        LineUnfolds(Break(depth), r, rest);
        assert NamedAll([r] + rest);
        LinesApart(ns[1..], depth);
        ReformatApart(ns[0], depth + 1);
        FlattenEdged(r);
        ApartJoin(Flatten(r), FlattenAll(rest));
        ApartJoin([Break(depth).token], Flatten(r) + FlattenAll(rest));
        assert FlattenAll([r] + rest) == Flatten(r) + FlattenAll(rest);
      }
    }
  }

  // ---------------------------------------------------------------------------
  // The formatter
  // ---------------------------------------------------------------------------

  /** The tokens of the formatted source; `None` where the formatter gives up. */
  function Format(tokens: seq<Token>): Option<seq<Token>> {
    var t := Parse(START, tokens);
    if t.None? then None else Some(FlattenAll(ReformatTree(t.value).children))
  }

  /**
    When formatting succeeds, the output parses to the same tree but for text between the
    children of rewritten elements, and formatting it again changes nothing.
   */
  lemma FormatIsLossless(tokens: seq<Token>)
    requires Format(tokens).Some?
    ensures var out := Format(tokens).value;
            && Parse(START, out).Some?
            && ErasedTree(Parse(START, out).value) == ErasedTree(Parse(START, tokens).value)
            && Format(out) == Some(out)
  {
    var t := Parse(START, tokens).value;
    var r := ReformatTree(t);
    ParseIsExact(tokens, t);
    ReformatIsProper(t);
    ParseIsExact(FlattenAll(r.children), r);
    TreeErased(t);
    TreeAgain(t);
  }

  /** Every token that is not whitespace only is kept, in order. */
  lemma FormatKeepsTokens(tokens: seq<Token>)
    requires Format(tokens).Some?
    ensures Essential(Format(tokens).value) == Essential(tokens)
  {
    var t := Parse(START, tokens).value;
    ParseIsExact(tokens, t);
    if !t.preserve && Meaningful(t.children) {
      var lines := Lines(t.children, 0);
      LinesKeep(t.children, 0, ROOT_NAMESPACES);
      EssentialConcat([Break(0).token], FlattenAll(lines[1..]));
      EssentialBreak(0);
    }
  }

  /** In the output no text is next to text, so lexing it yields these tokens again. */
  lemma FormatKeepsTextsApart(tokens: seq<Token>)
    requires Format(tokens).Some? && TextsApart(tokens)
    ensures TextsApart(Format(tokens).value)
  {
    var t := Parse(START, tokens).value;
    ParseIsExact(tokens, t);
    if !t.preserve && Meaningful(t.children) {
      var lines := Lines(t.children, 0);
      LinesNamed(t.children, 0, ROOT_NAMESPACES);
      LinesApart(t.children, 0);
      ApartParts([Break(0).token], FlattenAll(lines[1..]));
    }
  }

  /** The formatter fails exactly on the templates that have no proper tree. */
  lemma FormatFailsExactly(tokens: seq<Token>)
    ensures Format(tokens).None? <==> forall t :: Proper(t) ==> FlattenAll(t.children) != tokens
  {
    if Format(tokens).Some? {
      ParseIsExact(tokens, Parse(START, tokens).value);
    } else {
      forall t | Proper(t) ensures FlattenAll(t.children) != tokens {
        ParseIsExact(tokens, t);
      }
    }
  }

  /** `formatHxml`: the formatted source, or the source as it was. */
  method FormatHxml(tokens: seq<Token>) returns (ok: bool, value: string)
    ensures ok <==> Format(tokens).Some?
    ensures value == Spell(if ok then Format(tokens).value else tokens)
  {
    var s := START;
    var cursor := 0;
    while cursor < |tokens|
      invariant cursor <= |tokens| && s.stack != []
      invariant Parse(s, tokens[cursor..]) == Parse(START, tokens)
    {
      var next := Advance(s, tokens[cursor]);
      assert tokens[cursor..][0] == tokens[cursor] && tokens[cursor..][1..] == tokens[cursor + 1..];
      if next.None? {
        return false, Spell(tokens);
      }
      s := next.value;
      cursor := cursor + 1;
    }
    if |s.stack| != 1 || s.blocks != [] {
      return false, Spell(tokens);
    }
    var t := Tree(s.stack[0].preserve, s.stack[0].children);
    RenderTreeSpells(t);
    return true, RenderTree(t);
  }
}

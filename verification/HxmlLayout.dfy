/**
  Where the formatter puts things: on which lines, and how far to the right.
 */
module HxmlLayout {
  import opened HxmlFormatter
  import opened HxmlTemplate
  import opened Wrappers

  /** One line break and two spaces for each open ancestor. */
  predicate NewLine(text: string, ancestors: nat) {
    && |text| == 1 + 2 * ancestors && text[0] == '\n'
    && forall i | 0 < i < |text| :: text[i] == ' '
  }

  predicate IsNewLine(n: Node, ancestors: nat) { IsText(n) && NewLine(n.token.text, ancestors) }

  /** Some child is not text. */
  ghost predicate HasContent(ns: seq<Node>) { exists k :: 0 <= k < |ns| && !IsText(ns[k]) }

  /**
    The children of an element with so many open elements, itself included: each child
    that is not text stands directly behind a text that starts its line, the closing tag
    behind one that starts a line one level further out, and there is no other text. The
    same holds in every such child that is laid out itself.
   */
  ghost predicate LaidOut(n: Node, open: nat) {
    n.Element? && !n.preserve && HasContent(n.children) ==>
      && open > 0 && |n.children| % 2 == 1
      && (forall k | 0 <= k < |n.children| :: IsText(n.children[k]) <==> k % 2 == 0)
      && (forall k | 0 < k < |n.children| && !IsText(n.children[k]) :: IsNewLine(n.children[k - 1], open))
      && IsNewLine(n.children[|n.children| - 1], open - 1)
      && (forall k | 0 <= k < |n.children| :: LaidOut(n.children[k], open + 1))
  }

  /** The root: its first child has nothing before it, and there is nothing behind its last. */
  ghost predicate TreeLaidOut(t: Tree) {
    !t.preserve && HasContent(t.children) ==>
      && |t.children| % 2 == 1
      && (forall k | 0 <= k < |t.children| :: IsText(t.children[k]) <==> k % 2 == 1)
      && (forall k | 0 < k < |t.children| && !IsText(t.children[k]) :: IsNewLine(t.children[k - 1], 0))
      && (forall k | 0 <= k < |t.children| :: LaidOut(t.children[k], 1))
  }

  lemma {:induction false} IndentIsSpaces(depth: nat)
    ensures |Indent(depth)| == 2 * depth && forall i | 0 <= i < |Indent(depth)| :: Indent(depth)[i] == ' '
  {
    if depth > 0 {
      IndentIsSpaces(depth - 1);
    }
  }

  lemma BreakIsNewLine(depth: nat)
    ensures IsNewLine(Break(depth), depth)
  {
    IndentIsSpaces(depth);
  }

  lemma {:induction false} MeaningfulIff(ns: seq<Node>)
    ensures Meaningful(ns) <==> HasContent(ns)
  {
    if ns != [] {
      MeaningfulIff(ns[1..]);
      if HasContent(ns) && IsText(ns[0]) {
        var k :| 0 <= k < |ns| && !IsText(ns[k]);
        assert ns[1..][k - 1] == ns[k];
      }
    }
  }

  /** Break, child, break, child. */
  ghost predicate Alternate(ls: seq<Node>, depth: nat) {
    && |ls| % 2 == 0
    && (forall k | 0 <= k < |ls| :: IsText(ls[k]) <==> k % 2 == 0)
    && (forall k | 0 <= k < |ls| && IsText(ls[k]) :: IsNewLine(ls[k], depth))
    && (forall k | 0 <= k < |ls| :: LaidOut(ls[k], depth + 1))
  }

  lemma {:induction false} LinesAlternate(ns: seq<Node>, depth: nat)
    ensures Alternate(Lines(ns, depth), depth)
    decreases ns, 0
  {
    if ns != [] {
      LinesAlternate(ns[1..], depth);
      if !IsText(ns[0]) {
        var r, rest := Reformat(ns[0], depth + 1), Lines(ns[1..], depth);
        ReformatIsLaidOut(ns[0], depth + 1);
        BreakIsNewLine(depth);
        hide IsNewLine, LaidOut, Lines, Reformat;
        assert Lines(ns, depth) == [Break(depth), r] + rest by {
          LinesUnfold(ns, depth);
        }
        AlternateMore(Break(depth), r, rest, depth);
      }
    }
  }

  lemma AlternateMore(b: Node, r: Node, rest: seq<Node>, depth: nat)
    requires Alternate(rest, depth) && IsNewLine(b, depth) && !IsText(r) && LaidOut(r, depth + 1)
    ensures Alternate([b, r] + rest, depth)
  {
    hide IsNewLine;
    var ls := [b, r] + rest;
    NewLineIsText(b, depth);
    assert LaidOut(b, depth + 1);
    hide LaidOut;
    forall k | 0 <= k < |ls|
      ensures (IsText(ls[k]) <==> k % 2 == 0) && LaidOut(ls[k], depth + 1) && (IsText(ls[k]) ==> IsNewLine(ls[k], depth))
    {
      if k >= 2 {
        assert ls[k] == rest[k - 2];
      }
    }
  }

  lemma NewLineIsText(n: Node, depth: nat)
    requires IsNewLine(n, depth)
    ensures IsText(n)
  {
  }

  lemma {:induction false} ReformatIsLaidOut(n: Node, depth: nat)
    requires depth > 0
    ensures LaidOut(Reformat(n, depth), depth)
    decreases n, 1
  {
    if Rewritten(n) {
      LinesAlternate(n.children, depth);
      BreakIsNewLine(depth - 1);
      ElementIsLaidOut(Reformat(n, depth), Lines(n.children, depth), Break(depth - 1), depth);
    } else if n.Element? {
      MeaningfulIff(n.children);
    }
  }

  /** The lines, and the break in front of the closing tag. */
  lemma LastBreak(ls: seq<Node>, last: Node, depth: nat)
    requires depth > 0 && Alternate(ls, depth) && IsNewLine(last, depth - 1)
    ensures var ns := ls + [last];
            && (forall k | 0 <= k < |ns| :: IsText(ns[k]) <==> k % 2 == 0)
            && (forall k | 0 < k < |ns| && !IsText(ns[k]) :: IsNewLine(ns[k - 1], depth))
            && (forall k | 0 <= k < |ns| :: LaidOut(ns[k], depth + 1))
  {
    hide IsNewLine;
    NewLineIsText(last, depth - 1);
    assert LaidOut(last, depth + 1);
    hide LaidOut;
    var ns := ls + [last];
    forall k | 0 < k < |ns| && !IsText(ns[k]) ensures IsNewLine(ns[k - 1], depth) {
      assert ns[k] == ls[k] && ns[k - 1] == ls[k - 1] && IsText(ls[k - 1]);
    }
  }

  lemma ElementIsLaidOut(n: Node, ls: seq<Node>, last: Node, depth: nat)
    requires depth > 0 && n.Element? && n.children == ls + [last]
    requires Alternate(ls, depth) && IsNewLine(last, depth - 1)
    ensures LaidOut(n, depth)
  {
    LastBreak(ls, last, depth);
    hide IsNewLine;
  }

  lemma ReformatTreeIsLaidOut(t: Tree)
    ensures TreeLaidOut(ReformatTree(t))
  {
    MeaningfulIff(t.children);
    if !t.preserve && Meaningful(t.children) {
      var ls := Lines(t.children, 0);
      LinesAlternate(t.children, 0);
      var r := ReformatTree(t).children;
      hide IsNewLine, LaidOut, Lines;
      forall k | 0 <= k < |r| ensures r[k] == ls[k + 1] {}
    }
  }

  /**
    The output of the formatter, read as a template: in a root that is not preserved, and
    in every element below it that is not preserved, is in no preserved one and has
    content, each child that is not text starts a line of its own and is indented by two
    spaces for each open ancestor.
   */
  lemma FormatLaysOut(tokens: seq<Token>)
    requires Format(tokens).Some?
    ensures var out := Format(tokens).value;
            && Parse(START, out).Some?
            && FlattenAll(Parse(START, out).value.children) == out
            && TreeLaidOut(Parse(START, out).value)
  {
    var t := Parse(START, tokens).value;
    var r := ReformatTree(t);
    ParseIsExact(tokens, t);
    ReformatIsProper(t);
    ParseIsExact(FlattenAll(r.children), r);
    ReformatTreeIsLaidOut(t);
  }

  // ---------------------------------------------------------------------------
  // Which elements are preserved
  // ---------------------------------------------------------------------------

  /** A child around which whitespace may show. */
  predicate ShowsWhitespace(n: Node) {
    n.Leaf? &&
    match n.token
    case Variable(_) => true
    case Raw(_) => true
    case Literal(cdata, _) => cdata
    case Text(text) => exists i :: 0 <= i < |text| && text[i] !in {'\t', '\n', '\r', ' '}
    case Command(command, _, _) =>
      command in {"extends", "include", "url", "now", "cycle", "resetcycle", "firstof", "lorem", "csrf_token",
                  "hv_csrf_token", "debug", "templatetag", "widthratio", "regroup", "translate", "trans", "static",
                  "get_static_prefix", "get_media_prefix"}
    case _ => false
  }

  /**
    An element that is none of the twelve structural elements of the Hyperview namespace,
    or that says itself that its whitespace counts; `scope` are the namespaces around it.
   */
  predicate NotStructural(tag: Tag, scope: map<string, string>) {
    var inner := scope + tag.namespaces;
    || tag.prefix !in inner || inner[tag.prefix] != "https://hyperview.org/hyperview"
    || tag.local !in {"screen", "styles", "body", "header", "view", "list", "section-list", "section",
                      "section-title", "items", "item", "form"}
    || tag.space || tag.preformatted
  }

  /** In the element and all below it, exactly the elements are preserved that must be. */
  ghost predicate PreservedRight(n: Node, scope: map<string, string>) {
    n.Element? ==>
      && (n.preserve <==>
            NotStructural(n.tag, scope) || exists k :: 0 <= k < |n.children| && ShowsWhitespace(n.children[k]))
      && forall k | 0 <= k < |n.children| :: PreservedRight(n.children[k], scope + n.tag.namespaces)
  }

  lemma TouchesShows(n: Node)
    requires n.Leaf?
    ensures Touches(n.token) <==> ShowsWhitespace(n)
  {
  }

  lemma {:induction false} TouchedIff(ns: seq<Node>)
    ensures Touched(ns) <==> exists k :: 0 <= k < |ns| && ShowsWhitespace(ns[k])
  {
    hide ShowsWhitespace, Touches;
    if ns != [] {
      TouchedIff(ns[1..]);
      if ns[0].Leaf? {
        TouchesShows(ns[0]);
      } else {
        ElementsShowNothing(ns[0]);
      }
      assert forall k | 0 <= k < |ns| - 1 :: ns[1..][k] == ns[k + 1];
      assert forall k | 0 < k < |ns| :: ns[k] == ns[1..][k - 1];
    }
  }

  lemma ElementsShowNothing(n: Node)
    requires n.Element?
    ensures !ShowsWhitespace(n)
  {
  }

  lemma {:induction false} MarkedIsRight(n: Node, scope: map<string, string>)
    requires Marked(n, scope)
    ensures PreservedRight(n, scope)
    decreases n, 1
  {
    hide ShowsWhitespace;
    if n.Element? {
      TouchedIff(n.children);
      AllMarkedAreRight(n.children, scope + n.tag.namespaces);
    }
  }

  lemma {:induction false} AllMarkedAreRight(ns: seq<Node>, scope: map<string, string>)
    requires MarkedAll(ns, scope)
    ensures forall k | 0 <= k < |ns| :: PreservedRight(ns[k], scope)
    decreases ns, 0
  {
    hide PreservedRight, Marked;
    if ns != [] {
      MarkedIsRight(ns[0], scope);
      AllMarkedAreRight(ns[1..], scope);
      assert forall k | 0 < k < |ns| :: ns[k] == ns[1..][k - 1];
    }
  }

  /** What the parser marks as preserved, at every depth, and for the root. */
  lemma ParsePreservesRight(tokens: seq<Token>)
    requires Parse(START, tokens).Some?
    ensures var t := Parse(START, tokens).value;
            && (t.preserve <==> exists k :: 0 <= k < |t.children| && ShowsWhitespace(t.children[k]))
            && forall k | 0 <= k < |t.children| ::
                 PreservedRight(t.children[k], map["" := "https://hyperview.org/hyperview"])
  {
    var t := Parse(START, tokens).value;
    ParseIsExact(tokens, t);
    TouchedIff(t.children);
    AllMarkedAreRight(t.children, ROOT_NAMESPACES);
  }
}

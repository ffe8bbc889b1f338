/** The bounds on a parsed document: nodes, depth, attributes, and namespaces in scope. */
module TreeLimits {
  const MAX_ATTRIBUTES := 128
  const MAX_NAMESPACES := 8
  const MAX_NAMESPACE_DECLARATIONS := 32

  /**
    An element, or a comment or processing instruction, which has no attributes that
    count. `prefixes` are those the element declares, in order.
   */
  datatype Node = Node(element: bool, attributes: nat, prefixes: seq<string>, children: seq<Node>)

  // ---------------------------------------------------------------------------
  // Nodes, depth and attributes
  // ---------------------------------------------------------------------------

  function Size(n: Node): nat
    decreases n, 1
  {
    1 + SizeAll(n.children)
  }

  function SizeAll(ns: seq<Node>): nat
    decreases ns, 0
  {
    if ns == [] then 0 else Size(ns[0]) + SizeAll(ns[1..])
  }

  /** Every node below, and this one, is at most `levels` deep. */
  predicate Shallow(n: Node, levels: int)
    decreases n, 1
  {
    1 <= levels && ShallowAll(n.children, levels - 1)
  }

  predicate ShallowAll(ns: seq<Node>, levels: int)
    decreases ns, 0
  {
    ns == [] || (Shallow(ns[0], levels) && ShallowAll(ns[1..], levels))
  }

  predicate FewAttributes(n: Node)
    decreases n, 1
  {
    (n.element ==> n.attributes <= MAX_ATTRIBUTES) && FewAttributesAll(n.children)
  }

  predicate FewAttributesAll(ns: seq<Node>)
    decreases ns, 0
  {
    ns == [] || (FewAttributes(ns[0]) && FewAttributesAll(ns[1..]))
  }

  /** A node that waits to be visited, and its depth. */
  datatype Pending = Pending(node: Node, depth: nat)

  function PendingSize(ps: seq<Pending>): nat {
    if ps == [] then 0 else Size(ps[0].node) + PendingSize(ps[1..])
  }

  predicate PendingShallow(ps: seq<Pending>, maxDepth: nat) {
    ps == [] || (Shallow(ps[0].node, maxDepth - ps[0].depth + 1) && PendingShallow(ps[1..], maxDepth))
  }

  predicate PendingFew(ps: seq<Pending>) {
    ps == [] || (FewAttributes(ps[0].node) && PendingFew(ps[1..]))
  }

  function AtDepth(ns: seq<Node>, depth: nat): (ps: seq<Pending>)
    ensures |ps| == |ns|
  {
    if ns == [] then [] else [Pending(ns[0], depth)] + AtDepth(ns[1..], depth)
  }

  lemma {:induction false} AtDepthMeasures(ns: seq<Node>, depth: nat, maxDepth: nat)
    ensures PendingSize(AtDepth(ns, depth)) == SizeAll(ns)
    ensures PendingShallow(AtDepth(ns, depth), maxDepth) <==> ShallowAll(ns, maxDepth - depth + 1)
    ensures PendingFew(AtDepth(ns, depth)) <==> FewAttributesAll(ns)
  {
    if ns != [] {
      AtDepthMeasures(ns[1..], depth, maxDepth);
      assert AtDepth(ns, depth)[1..] == AtDepth(ns[1..], depth);
    }
  }

  lemma {:induction false} PendingConcat(a: seq<Pending>, b: seq<Pending>, maxDepth: nat)
    ensures PendingSize(a + b) == PendingSize(a) + PendingSize(b)
    ensures PendingShallow(a + b, maxDepth) <==> PendingShallow(a, maxDepth) && PendingShallow(b, maxDepth)
    ensures PendingFew(a + b) <==> PendingFew(a) && PendingFew(b)
  {
    if a == [] {
      assert a + b == b;
    } else {
      assert (a + b)[0] == a[0] && (a + b)[1..] == a[1..] + b;
      PendingConcat(a[1..], b, maxDepth);
    }
  }

  /** Taking the last pending node and putting its children in its place. */
  lemma VisitMeasures(pending: seq<Pending>, maxDepth: nat)
    requires pending != []
    ensures var rest, p := pending[..|pending| - 1], pending[|pending| - 1];
            var next := rest + AtDepth(p.node.children, p.depth + 1);
            && PendingSize(pending) == PendingSize(next) + 1
            && (PendingShallow(pending, maxDepth) <==> p.depth <= maxDepth && PendingShallow(next, maxDepth))
            && (PendingFew(pending) <==>
                (p.node.element ==> p.node.attributes <= MAX_ATTRIBUTES) && PendingFew(next))
  {
    var rest, p := pending[..|pending| - 1], pending[|pending| - 1];
    assert pending == rest + [p];
    PendingConcat(rest, [p], maxDepth);
    PendingConcat(rest, AtDepth(p.node.children, p.depth + 1), maxDepth);
    AtDepthMeasures(p.node.children, p.depth + 1, maxDepth);
    assert [p][1..] == [];
  }

  datatype Verdict = Accepted | TooDeep | TooManyNodes | TooManyAttributes

  /**
    `_check_limits`: it accepts exactly the documents within all three bounds, a
    rejection names a bound that is exceeded, and it visits at most one node too many.
   */
  method CheckLimits(roots: seq<Node>, maxDepth: nat, maxNodes: nat) returns (r: Verdict, nodes: nat)
    ensures r == Accepted <==>
            SizeAll(roots) <= maxNodes && ShallowAll(roots, maxDepth) && FewAttributesAll(roots)
    ensures r == TooDeep ==> !ShallowAll(roots, maxDepth)
    ensures r == TooManyNodes ==> maxNodes < SizeAll(roots)
    ensures r == TooManyAttributes ==> !FewAttributesAll(roots)
    ensures nodes <= maxNodes + 1 && nodes <= SizeAll(roots)
  {
    nodes := 0;
    var pending := AtDepth(roots, 1);
    AtDepthMeasures(roots, 1, maxDepth);
    while pending != []
      invariant nodes <= maxNodes
      invariant SizeAll(roots) == nodes + PendingSize(pending)
      invariant ShallowAll(roots, maxDepth) <==> PendingShallow(pending, maxDepth)
      invariant FewAttributesAll(roots) <==> PendingFew(pending)
      decreases PendingSize(pending)
    {
      VisitMeasures(pending, maxDepth);
      var p := pending[|pending| - 1];
      pending := pending[..|pending| - 1];
      nodes := nodes + 1;
      if p.depth > maxDepth {
        return TooDeep, nodes;
      }
      if nodes > maxNodes {
        return TooManyNodes, nodes;
      }
      if p.node.element && p.node.attributes > MAX_ATTRIBUTES {
        return TooManyAttributes, nodes;
      }
      pending := pending + AtDepth(p.node.children, p.depth + 1);
    }
    r := Accepted;
  }

  // ---------------------------------------------------------------------------
  // Namespaces
  // ---------------------------------------------------------------------------

  /** The distinct prefixes of a list of declarations. */
  function Distinct(prefixes: seq<string>): nat { |set p | p in prefixes| }

  predicate WithinCaps(path: seq<string>) {
    |path| <= MAX_NAMESPACE_DECLARATIONS && Distinct(path) <= MAX_NAMESPACES
  }

  /** The declarations on the path from the root are within the caps at every element. */
  predicate InScope(n: Node, path: seq<string>)
    decreases n, 1
  {
    WithinCaps(path + n.prefixes) && InScopeAll(n.children, path + n.prefixes)
  }

  predicate InScopeAll(ns: seq<Node>, path: seq<string>)
    decreases ns, 0
  {
    ns == [] || (InScope(ns[0], path) && InScopeAll(ns[1..], path))
  }

  datatype Event = StartNs(prefix: string) | EndNs

  function Starts(prefixes: seq<string>): (es: seq<Event>)
  {
    if prefixes == [] then [] else [StartNs(prefixes[0])] + Starts(prefixes[1..])
  }

  function EndsOf(k: nat): seq<Event> { if k == 0 then [] else [EndNs] + EndsOf(k - 1) }

  /** What walking a tree reports: declarations on entering an element, their ends on leaving it. */
  function Events(n: Node): seq<Event>
    decreases n, 1
  {
    Starts(n.prefixes) + EventsAll(n.children) + EndsOf(|n.prefixes|)
  }

  function EventsAll(ns: seq<Node>): seq<Event>
    decreases ns, 0
  {
    if ns == [] then [] else Events(ns[0]) + EventsAll(ns[1..])
  }

  datatype Scope = Inside | TooManyDeclarations | TooManyPrefixes | Unbalanced

  /** What is left of the walk, with the declarations of the current path. */
  function Walk(events: seq<Event>, declared: seq<string>): Scope {
    if events == [] then Inside
    else if events[0].StartNs? then
      var more := declared + [events[0].prefix];
      if |more| > MAX_NAMESPACE_DECLARATIONS then TooManyDeclarations
      else if Distinct(more) > MAX_NAMESPACES then TooManyPrefixes
      else Walk(events[1..], more)
    else if declared == [] then Unbalanced
    else Walk(events[1..], declared[..|declared| - 1])
  }

  predicate Rejected(s: Scope) { s == TooManyDeclarations || s == TooManyPrefixes }

  lemma DistinctMore(path: seq<string>, more: seq<string>)
    ensures Distinct(path) <= Distinct(path + more)
  {
    var a, b := set p | p in path, set p | p in path + more;
    assert a <= b;
    assert b == a + (b - a);
  }

  lemma WalkStart(prefix: string, rest: seq<Event>, path: seq<string>)
    ensures var more := path + [prefix];
            && (WithinCaps(more) ==> Walk([StartNs(prefix)] + rest, path) == Walk(rest, more))
            && (!WithinCaps(more) ==> Rejected(Walk([StartNs(prefix)] + rest, path)))
  {
    hide Distinct;
    assert ([StartNs(prefix)] + rest)[1..] == rest;
  }

  /** The caps are monotone, so checking after each declaration finds what the whole list exceeds. */
  lemma {:induction false} WalkStarts(prefixes: seq<string>, rest: seq<Event>, path: seq<string>)
    requires WithinCaps(path)
    ensures WithinCaps(path + prefixes) ==> Walk(Starts(prefixes) + rest, path) == Walk(rest, path + prefixes)
    ensures !WithinCaps(path + prefixes) ==> Rejected(Walk(Starts(prefixes) + rest, path))
    decreases prefixes
  {
    if prefixes == [] {
      assert path + prefixes == path && Starts(prefixes) + rest == rest;
    } else {
      var more := path + [prefixes[0]];
      assert Starts(prefixes) + rest == [StartNs(prefixes[0])] + (Starts(prefixes[1..]) + rest);
      assert path + prefixes == more + prefixes[1..];
      DistinctMore(more, prefixes[1..]);
      WalkStart(prefixes[0], Starts(prefixes[1..]) + rest, path);
      hide Distinct, Walk, Starts;
      if WithinCaps(more) {
        WalkStarts(prefixes[1..], rest, more);
      }
    }
  }

  lemma {:induction false} WalkEnds(path: seq<string>, prefixes: seq<string>, rest: seq<Event>)
    ensures Walk(EndsOf(|prefixes|) + rest, path + prefixes) == Walk(rest, path)
    decreases |prefixes|
  {
    if prefixes == [] {
      assert path + prefixes == path && EndsOf(0) + rest == rest;
    } else {
      var n := |prefixes| - 1;
      var events := EndsOf(|prefixes|) + rest;
      assert events[0] == EndNs && events[1..] == EndsOf(n) + rest;
      assert (path + prefixes)[..|path + prefixes| - 1] == path + prefixes[..n];
      WalkEnds(path, prefixes[..n], rest);
    }
  }

  lemma {:induction false} WalkNode(n: Node, rest: seq<Event>, path: seq<string>)
    requires WithinCaps(path)
    ensures InScope(n, path) ==> Walk(Events(n) + rest, path) == Walk(rest, path)
    ensures !InScope(n, path) ==> Rejected(Walk(Events(n) + rest, path))
    decreases n, 1
  {
    var ends := EndsOf(|n.prefixes|) + rest;
    var behind := EventsAll(n.children) + ends;
    assert Events(n) + rest == Starts(n.prefixes) + behind;
    WalkStarts(n.prefixes, behind, path);
    if WithinCaps(path + n.prefixes) {
      WalkNodes(n.children, ends, path + n.prefixes);
      WalkEnds(path, n.prefixes, rest);
    }
  }

  lemma {:induction false} WalkNodes(ns: seq<Node>, rest: seq<Event>, path: seq<string>)
    requires WithinCaps(path)
    ensures InScopeAll(ns, path) ==> Walk(EventsAll(ns) + rest, path) == Walk(rest, path)
    ensures !InScopeAll(ns, path) ==> Rejected(Walk(EventsAll(ns) + rest, path))
    decreases ns, 0
  {
    if ns == [] {
      assert EventsAll(ns) + rest == rest;
    } else {
      var behind := EventsAll(ns[1..]) + rest;
      assert EventsAll(ns) + rest == Events(ns[0]) + behind;
      WalkNode(ns[0], behind, path);
      WalkNodes(ns[1..], rest, path);
    }
  }

  /** The counter of prefixes agrees with the stack of declarations. */
  ghost predicate Counts(inScope: map<string, nat>, declared: seq<string>) {
    && inScope.Keys == (set p | p in declared)
    && forall p | p in inScope :: inScope[p] == multiset(declared)[p]
  }

  /** Counts one more declaration of a prefix. */
  method Declare(inScope: map<string, nat>, prefix: string, ghost declared: seq<string>) returns (more: map<string, nat>)
    requires Counts(inScope, declared)
    ensures Counts(more, declared + [prefix]) && |more| == Distinct(declared + [prefix])
  {
    more := inScope[prefix := (if prefix in inScope then inScope[prefix] else 0) + 1];
    assert Counts(more, declared + [prefix]);
    assert |more| == |more.Keys|;
  }

  /** Counts the end of the last declaration. */
  method Leave(inScope: map<string, nat>, declared: seq<string>) returns (less: map<string, nat>)
    requires Counts(inScope, declared) && declared != []
    ensures Counts(less, declared[..|declared| - 1])
  {
    var prefix := declared[|declared| - 1];
    assert declared == declared[..|declared| - 1] + [prefix];
    less := inScope[prefix := inScope[prefix] - 1];
    if less[prefix] == 0 {
      less := less - {prefix};
    }
  }

  /** `_check_namespace_scope`: it accepts a document exactly when every path is within the caps. */
  method CheckNamespaceScope(root: Node) returns (r: Scope)
    ensures r == Inside <==> InScope(root, [])
    ensures r != Inside ==> Rejected(r)
  {
    var events := Events(root);
    var inScope: map<string, nat> := map[];
    var declared: seq<string> := [];
    WalkNode(root, [], []);
    assert events + [] == events;
    assert Counts(inScope, declared);
    hide InScope, InScopeAll, Events, EventsAll, WithinCaps, Counts, Distinct;
    var i := 0;
    while i < |events|
      invariant i <= |events|
      invariant Counts(inScope, declared)
      invariant Walk(events[i..], declared) == Walk(events, [])
    {
      assert events[i..][0] == events[i] && events[i..][1..] == events[i + 1..];
      if events[i].StartNs? {
        inScope := Declare(inScope, events[i].prefix, declared);
        declared := declared + [events[i].prefix];
        if |declared| > MAX_NAMESPACE_DECLARATIONS {
          return TooManyDeclarations;
        }
        if |inScope| > MAX_NAMESPACES {
          return TooManyPrefixes;
        }
      } else {
        inScope := Leave(inScope, declared);
        declared := declared[..|declared| - 1];
      }
      i := i + 1;
    }
    r := Inside;
  }
}

/** Budgeted expansion of literal includes in an unsaved template draft. */
module IncludeExpansion {
  import opened Text
  import opened Splicing
  import opened Wrappers

  const MAX_LITERAL_INCLUDES := 64

  /** An include tag: its span, its literal target if it has one, and whether it stands in XML text. */
  datatype Include = Include(start: nat, end: nat, target: Option<string>, inText: bool)

  /** `tooLarge`: the source has includes, and no masked document can be built for it. */
  datatype Compiled = SyntaxError | Compiled(includes: seq<Include>, tooLarge: bool)

  /** `Refused` is a source that fails validation, which ends the whole check. */
  datatype Resolution = Found(name: string, content: string) | Invalid | Missing | Unavailable | Refused

  /** The diagnostics an expansion reports; only `Exhausted` is about the budget. */
  datatype Note =
    | Cycle(target: string) | Exhausted | TooLarge | NotFound(target: string, why: Resolution)
    | Syntax(target: string) | TooDeep(target: string) | Schema(name: string)

  /**
    The parts of the engine an expansion calls. The resolver may answer every call
    differently; `schema` says whether the static schema check reports anything.
   */
  datatype Engine = Engine(
    resolve: (nat, string) -> Resolution, compile: string -> Compiled, schema: (string, string) -> bool, maxBytes: nat)

  predicate Span(n: Include, content: string) { n.start < n.end <= |content| }

  /** The include tags of a template are separate spans of it. */
  ghost predicate Tags(includes: seq<Include>, content: string) {
    && (forall i | 0 <= i < |includes| :: Span(includes[i], content))
    && (forall i, j | 0 <= i < j < |includes| :: includes[i].end <= includes[j].start || includes[j].end <= includes[i].start)
  }

  ghost predicate Lexes(e: Engine) {
    forall content :: e.compile(content).Compiled? ==> Tags(e.compile(content).includes, content)
  }

  // ---------------------------------------------------------------------------
  // What an expansion is
  // ---------------------------------------------------------------------------

  /** The resolver gave this content for the target, in one of its answers. */
  ghost predicate Answers(e: Engine, target: string, content: string) {
    exists k, name :: e.resolve(k, target) == Found(name, content)
  }

  /**
    The text is the content with some of its includes replaced by expansions of their
    targets. `stack` are the templates around it: none of them is a target again, at any
    depth.
   */
  ghost predicate Expansion(e: Engine, content: string, out: string, stack: seq<string>, depth: nat)
    decreases depth, 4
  {
    exists rs :: ExpandedBy(e, content, out, rs, stack, depth)
  }

  ghost predicate ExpandedBy(e: Engine, content: string, out: string, rs: seq<Splice>, stack: seq<string>, depth: nat)
    decreases depth, 3
  {
    && Ascending(rs, content, 0) && out == Substituted(content, rs, 0)
    && forall i | 0 <= i < |rs| :: ExpandsATag(e, content, rs[i], stack, depth)
  }

  ghost predicate ExpandsATag(e: Engine, content: string, r: Splice, stack: seq<string>, depth: nat)
    decreases depth, 2
  {
    && e.compile(content).Compiled?
    && exists k :: 0 <= k < |e.compile(content).includes| && ExpandsTag(e, e.compile(content).includes[k], r, stack, depth)
  }

  ghost predicate ExpandsTag(e: Engine, tag: Include, r: Splice, stack: seq<string>, depth: nat)
    decreases depth, 1
  {
    && r.start == tag.start && r.end == tag.end && tag.target.Some? && tag.inText
    && TargetExpanded(e, tag.target.value, r.included, stack, depth)
  }

  ghost predicate TargetExpanded(e: Engine, target: string, out: string, stack: seq<string>, depth: nat)
    decreases depth, 0
  {
    depth > 0 && target !in stack
    && exists content :: Answers(e, target, content) && Expansion(e, content, out, stack + [target], depth - 1)
  }

  /** Room for deeper includes does not undo an expansion. */
  lemma {:induction false} ExpansionMore(e: Engine, content: string, out: string, stack: seq<string>,
                                         depth: nat, more: nat)
    requires depth <= more && Expansion(e, content, out, stack, depth)
    ensures Expansion(e, content, out, stack, more)
    decreases depth, 2
  {
    var rs :| ExpandedBy(e, content, out, rs, stack, depth);
    forall i | 0 <= i < |rs| ensures ExpandsATag(e, content, rs[i], stack, more) {
      TagMore(e, content, rs[i], stack, depth, more);
    }
    assert ExpandedBy(e, content, out, rs, stack, more);
  }

  lemma {:induction false} TagMore(e: Engine, content: string, r: Splice, stack: seq<string>, depth: nat, more: nat)
    requires depth <= more && ExpandsATag(e, content, r, stack, depth)
    ensures ExpandsATag(e, content, r, stack, more)
    decreases depth, 1
  {
    var includes := e.compile(content).includes;
    var k :| 0 <= k < |includes| && ExpandsTag(e, includes[k], r, stack, depth);
    TargetMore(e, includes[k].target.value, r.included, stack, depth, more);
    assert ExpandsTag(e, includes[k], r, stack, more);
  }

  lemma {:induction false} TargetMore(e: Engine, target: string, out: string, stack: seq<string>, depth: nat, more: nat)
    requires depth <= more && TargetExpanded(e, target, out, stack, depth)
    ensures TargetExpanded(e, target, out, stack, more)
    decreases depth, 0
  {
    var content :| Answers(e, target, content) && Expansion(e, content, out, stack + [target], depth - 1);
    ExpansionMore(e, content, out, stack + [target], depth - 1, more - 1);
  }

  function Exhaustions(notes: seq<Note>): nat {
    if notes == [] then 0 else (if notes[0] == Exhausted then 1 else 0) + Exhaustions(notes[1..])
  }

  lemma {:induction false} ExhaustionsConcat(a: seq<Note>, b: seq<Note>)
    ensures Exhaustions(a + b) == Exhaustions(a) + Exhaustions(b)
  {
    if a == [] {
      assert a + b == b;
    } else {
      assert (a + b)[0] == a[0] && (a + b)[1..] == a[1..] + b;
      ExhaustionsConcat(a[1..], b);
    }
  }

  lemma ExhaustionsOne(note: Note)
    ensures Exhaustions([note]) == if note == Exhausted then 1 else 0
  {
    assert [note][1..] == [];
  }

  class Budget {
    /** Bytes of source resolved so far, the draft included. */
    var size: nat
    var edges: nat
    var exhausted: bool

    /** The targets the resolver was asked for, and how many they were when the budget ran out. */
    ghost var calls: seq<string>
    ghost var callsAtEnd: nat
    /** Bytes of the draft and of the templates that were admitted. */
    ghost var kept: nat

    ghost predicate Sound(maxBytes: nat)
      reads this
    {
      && |calls| == edges <= MAX_LITERAL_INCLUDES
      && kept <= maxBytes
      && (if exhausted then edges == callsAtEnd else kept == size)
    }

    constructor (draft: nat)
      ensures size == draft && kept == draft && edges == 0 && !exhausted && calls == []
    {
      size, edges, exhausted := draft, 0, false;
      calls, callsAtEnd, kept := [], 0, draft;
    }

    method Exhaust()
      modifies this`exhausted, this`callsAtEnd
      ensures exhausted && callsAtEnd == edges
    {
      exhausted := true;
      callsAtEnd := edges;
    }
  }

  /** One resolver call; a target that would make the result too large exhausts the budget. */
  method Admit(e: Engine, target: string, budget: Budget) returns (r: Resolution)
    requires budget.Sound(e.maxBytes) && !budget.exhausted && budget.edges < MAX_LITERAL_INCLUDES
    modifies budget
    ensures budget.Sound(e.maxBytes)
    ensures budget.edges == old(budget.edges) + 1 && budget.calls == old(budget.calls) + [target]
    ensures r == e.resolve(budget.edges, target)
    ensures budget.exhausted ==> r.Found? && budget.kept == old(budget.kept)
    ensures !budget.exhausted ==> budget.kept == old(budget.kept) + if r.Found? then Bytes(r.content) else 0
  {
    budget.edges := budget.edges + 1;
    budget.calls := budget.calls + [target];
    r := e.resolve(budget.edges, target);
    if r.Found? {
      budget.size := budget.size + Bytes(r.content);
      if budget.size > e.maxBytes {
        budget.Exhaust();
      } else {
        budget.kept := budget.kept + Bytes(r.content);
      }
    }
  }

  /** Every replacement is the expansion of one of the first `n` include tags. */
  ghost predicate OfTags(e: Engine, rs: seq<Splice>, includes: seq<Include>, n: nat, stack: seq<string>, depth: nat)
    requires n <= |includes|
  {
    forall i | 0 <= i < |rs| :: OfTag(e, rs[i], includes, n, stack, depth)
  }

  ghost predicate OfTag(e: Engine, r: Splice, includes: seq<Include>, n: nat, stack: seq<string>, depth: nat)
    requires n <= |includes|
  {
    exists k :: 0 <= k < n && ExpandsTag(e, includes[k], r, stack, depth)
  }

  ghost predicate Replacements(e: Engine, rs: seq<Splice>, includes: seq<Include>, n: nat, content: string,
                               stack: seq<string>, depth: nat)
    requires n <= |includes|
  {
    OfTags(e, rs, includes, n, stack, depth) && FitsAll(rs, content) && DisjointAll(rs)
  }

  /** The tags that an expansion without a note replaces. */
  predicate Expandable(tag: Include) { tag.target.Some? && tag.inText }

  ghost predicate Replaces(rs: seq<Splice>, tag: Include) {
    exists i :: 0 <= i < |rs| && rs[i].start == tag.start && rs[i].end == tag.end
  }

  ghost predicate ReplacesAll(rs: seq<Splice>, includes: seq<Include>, n: nat)
    requires n <= |includes|
  {
    forall k | 0 <= k < n && Expandable(includes[k]) :: Replaces(rs, includes[k])
  }

  lemma NoReplacements(e: Engine, includes: seq<Include>, content: string, stack: seq<string>, depth: nat)
    ensures Replacements(e, [], includes, 0, content, stack, depth) && ReplacesAll([], includes, 0)
    ensures Included(Sorted([])) == 0 && Exhaustions([]) == 0
  {
  }

  lemma SameTags(e: Engine, rs: seq<Splice>, includes: seq<Include>, n: nat, content: string,
                 stack: seq<string>, depth: nat)
    requires n < |includes| && Replacements(e, rs, includes, n, content, stack, depth)
    ensures Replacements(e, rs, includes, n + 1, content, stack, depth)
  {
    forall i | 0 <= i < |rs| ensures OfTag(e, rs[i], includes, n + 1, stack, depth) {
      assert OfTag(e, rs[i], includes, n, stack, depth);
    }
  }

  lemma OneMoreTag(e: Engine, rs: seq<Splice>, r: Splice, includes: seq<Include>, n: nat, content: string,
                   stack: seq<string>, depth: nat)
    requires n < |includes| && Tags(includes, content) && Replacements(e, rs, includes, n, content, stack, depth)
    requires ExpandsTag(e, includes[n], r, stack, depth)
    ensures Replacements(e, rs + [r], includes, n + 1, content, stack, depth)
  {
    forall i | 0 <= i < |rs| ensures OfTag(e, rs[i], includes, n + 1, stack, depth) && Disjoint(rs[i], r) {
      assert OfTag(e, rs[i], includes, n, stack, depth);
      var k :| 0 <= k < n && ExpandsTag(e, includes[k], rs[i], stack, depth);
      assert includes[k].end <= includes[n].start || includes[n].end <= includes[k].start;
    }
    assert OfTag(e, r, includes, n + 1, stack, depth);
  }

  lemma ReplacesMore(rs: seq<Splice>, more: seq<Splice>, includes: seq<Include>, n: nat)
    requires n < |includes| && ReplacesAll(rs, includes, n)
    requires Expandable(includes[n]) ==> more != [] && more[0].start == includes[n].start && more[0].end == includes[n].end
    ensures ReplacesAll(rs + more, includes, n + 1)
  {
    var all := rs + more;
    forall k | 0 <= k < n + 1 && Expandable(includes[k]) ensures Replaces(all, includes[k]) {
      if k < n {
        assert Replaces(rs, includes[k]);
        var i :| 0 <= i < |rs| && rs[i].start == includes[k].start && rs[i].end == includes[k].end;
        assert all[i] == rs[i];
      } else {
        assert all[|rs|] == more[0];
      }
    }
  }

  function Place(rs: seq<Splice>, tag: Include, included: Option<string>): seq<Splice> {
    if included.None? then rs else rs + [Splice(tag.start, tag.end, included.value)]
  }

  /** Placing what a tag expands to, if anything, at the end of the replacements. */
  lemma Placed(e: Engine, rs: seq<Splice>, includes: seq<Include>, n: nat, content: string, stack: seq<string>,
               left: nat, depth: nat,
               included: Option<string>, complete: bool)
    requires n < |includes| && Tags(includes, content) && Replacements(e, rs, includes, n, content, stack, depth)
    requires left <= depth
    requires included.Some? ==>
               ExpandsTag(e, includes[n], Splice(includes[n].start, includes[n].end, included.value), stack, left)
    requires complete ==> ReplacesAll(rs, includes, n) && (Expandable(includes[n]) ==> included.Some?)
    ensures Replacements(e, Place(rs, includes[n], included), includes, n + 1, content, stack, depth)
    ensures Included(Sorted(Place(rs, includes[n], included))) ==
            Included(Sorted(rs)) + if included.Some? then Bytes(included.value) else 0
    ensures complete ==> ReplacesAll(Place(rs, includes[n], included), includes, n + 1)
  {
    if included.Some? {
      var r := Splice(includes[n].start, includes[n].end, included.value);
      TargetMore(e, includes[n].target.value, included.value, stack, left, depth);
      OneMoreTag(e, rs, r, includes, n, content, stack, depth);
      SortedMore(rs, r);
      if complete {
        ReplacesMore(rs, [r], includes, n);
      }
    } else {
      SameTags(e, rs, includes, n, content, stack, depth);
      if complete {
        ReplacesMore(rs, [], includes, n);
        assert rs + [] == rs;
      }
    }
  }

  /** Sorting keeps what the replacements are, and what they replace. */
  lemma SortedSame(e: Engine, rs: seq<Splice>, content: string, n: nat, stack: seq<string>, depth: nat)
    requires e.compile(content).Compiled? && n <= |e.compile(content).includes|
    requires Replacements(e, rs, e.compile(content).includes, n, content, stack, depth)
    ensures Ascending(Sorted(rs), content, 0)
    ensures ExpandedBy(e, content, Substituted(content, Sorted(rs), 0), Sorted(rs), stack, depth)
    ensures ReplacesAll(rs, e.compile(content).includes, n) ==> ReplacesAll(Sorted(rs), e.compile(content).includes, n)
  {
    var includes := e.compile(content).includes;
    SortedAscends(rs, content);
    forall i | 0 <= i < |Sorted(rs)| ensures ExpandsATag(e, content, Sorted(rs)[i], stack, depth) {
      assert Sorted(rs)[i] in rs;
      var j :| 0 <= j < |rs| && rs[j] == Sorted(rs)[i];
      assert OfTag(e, rs[j], includes, n, stack, depth);
    }
    forall tag | Replaces(rs, tag) ensures Replaces(Sorted(rs), tag) {
      var i :| 0 <= i < |rs| && rs[i].start == tag.start && rs[i].end == tag.end;
      assert rs[i] in Sorted(rs);
    }
  }

  /** The text with the includes expanded, or what ends the expansion. */
  datatype Outcome = Expanded(content: string, notes: seq<Note>) | Broken | Stopped

  /**
    `_expand_literal_includes`; `rs` are the expanded includes. Whatever is nested how
    deep, the budget is shared: the resolver is asked 64 times at most and never once
    the budget is exhausted, and that is noted once.
   */
  method Expand(e: Engine, name: string, content: string, stack: seq<string>, budget: Budget, hxml: bool)
    returns (r: Outcome, ghost rs: seq<Splice>)
    requires Lexes(e) && budget.Sound(e.maxBytes) && !budget.exhausted
    modifies budget
    ensures budget.Sound(e.maxBytes) && old(budget.calls) <= budget.calls && old(budget.kept) <= budget.kept
    ensures r.Expanded? ==> Exhaustions(r.notes) <= if budget.exhausted then 1 else 0
    ensures r.Expanded? && budget.exhausted ==> r.notes != []
    ensures r.Expanded? ==>
              && ExpandedBy(e, content, r.content, rs, stack, MAX_LITERAL_INCLUDES - old(budget.edges))
              && Included(rs) <= budget.kept - old(budget.kept)
    ensures r.Expanded? && r.notes == [] && hxml ==>
              && e.compile(content).Compiled?
              && ReplacesAll(rs, e.compile(content).includes, |e.compile(content).includes|)
    ensures r.Broken? <==> e.compile(content).SyntaxError?
    decreases MAX_LITERAL_INCLUDES - budget.edges, 2
  {
    rs := [];
    ghost var depth := MAX_LITERAL_INCLUDES - budget.edges;
    var compiled := e.compile(content);
    if compiled.SyntaxError? {
      return Broken, rs;
    }
    assert content[0..] == content;
    if compiled.includes != [] && compiled.tooLarge {
      ExhaustionsOne(TooLarge);
      return Expanded(content, [TooLarge]), rs;
    }
    hide Tags, Lexes, ExpandedBy, ExpandsTag, Replacements, ReplacesAll, Sorted, Included, Exhaustions, Substituted;
    var refused, notes, replacements, n := Collect(e, name, content, compiled.includes, stack, budget, hxml);
    if refused {
      return Stopped, rs;
    }
    rs := Sorted(replacements);
    SortedSame(e, replacements, content, n, stack, depth);
    var out := ReplaceFromTheEnd(content, Sorted(replacements));
    r := Expanded(out, notes);
  }

  /** The loop over the include tags; it stops at tag number `n`, or after the last. */
  method Collect(e: Engine, name: string, content: string, includes: seq<Include>, stack: seq<string>,
                 budget: Budget, hxml: bool)
    returns (refused: bool, notes: seq<Note>, replacements: seq<Splice>, ghost n: nat)
    requires Lexes(e) && budget.Sound(e.maxBytes) && !budget.exhausted && Tags(includes, content)
    modifies budget
    ensures budget.Sound(e.maxBytes) && old(budget.calls) <= budget.calls && old(budget.kept) <= budget.kept
    ensures !refused ==>
              && Exhaustions(notes) <= (if budget.exhausted then 1 else 0)
              && (budget.exhausted ==> notes != [])
              && n <= |includes|
              && Replacements(e, replacements, includes, n, content, stack, MAX_LITERAL_INCLUDES - old(budget.edges))
              && (notes == [] && hxml ==> n == |includes| && ReplacesAll(replacements, includes, n))
              && Included(Sorted(replacements)) <= budget.kept - old(budget.kept)
    decreases MAX_LITERAL_INCLUDES - budget.edges, 1
  {
    hide Tags, Lexes, ExpandsTag, Replacements, ReplacesAll, Sorted, Included, Exhaustions;
    ghost var depth := MAX_LITERAL_INCLUDES - budget.edges;
    refused, notes, replacements := false, [], [];
    var i := 0;
    NoReplacements(e, includes, content, stack, depth);
    while i < |includes|
      invariant i <= |includes| && budget.Sound(e.maxBytes)
      invariant old(budget.calls) <= budget.calls && old(budget.kept) <= budget.kept
      invariant Exhaustions(notes) <= if budget.exhausted then 1 else 0
      invariant budget.exhausted ==> notes != []
      invariant Replacements(e, replacements, includes, i, content, stack, depth)
      invariant notes == [] && hxml ==> ReplacesAll(replacements, includes, i)
      invariant Included(Sorted(replacements)) <= budget.kept - old(budget.kept)
    {
      ghost var left := MAX_LITERAL_INCLUDES - budget.edges;
      var stop, ends, more, included := Visit(e, name, includes[i], stack, budget, hxml);
      if ends {
        return true, notes, replacements, i;
      }
      ExhaustionsConcat(notes, more);
      notes := notes + more;
      if stop {
        return false, notes, replacements, i;
      }
      Placed(e, replacements, includes, i, content, stack, left, depth, included, notes == [] && hxml);
      replacements := Place(replacements, includes[i], included);
      i := i + 1;
    }
    n := i;
  }

  /**
    One include tag: whether to stop there, or for good; the notes; and the expanded
    template, if it is to take the tag's place.
   */
  method Visit(e: Engine, name: string, tag: Include, stack: seq<string>, budget: Budget, hxml: bool)
    returns (stop: bool, refused: bool, notes: seq<Note>, included: Option<string>)
    requires Lexes(e) && budget.Sound(e.maxBytes)
    modifies budget
    ensures budget.Sound(e.maxBytes) && old(budget.calls) <= budget.calls && old(budget.kept) <= budget.kept
    ensures old(budget.exhausted) ==> budget.exhausted && budget.calls == old(budget.calls) && included == None
    ensures Exhaustions(notes) <= if budget.exhausted && !old(budget.exhausted) then 1 else 0
    ensures !refused && budget.exhausted && !old(budget.exhausted) ==> notes != []
    ensures stop ==> budget.exhausted
    ensures included.Some? ==>
              && Bytes(included.value) <= budget.kept - old(budget.kept)
              && ExpandsTag(e, tag, Splice(tag.start, tag.end, included.value), stack, MAX_LITERAL_INCLUDES - old(budget.edges))
    ensures notes == [] && !stop && !refused && hxml && Expandable(tag) ==> included.Some?
    decreases MAX_LITERAL_INCLUDES - budget.edges, 0
  {
    stop, refused, notes, included := false, false, [], None;
    if tag.target == None {
      return;
    }
    var target := tag.target.value;
    if target in stack {
      notes := [Cycle(target)];
      ExhaustionsOne(notes[0]);
      return;
    }
    if budget.exhausted || budget.edges >= MAX_LITERAL_INCLUDES {
      stop := true;
      if !budget.exhausted {
        budget.Exhaust();
        notes := [Exhausted];
        ExhaustionsOne(Exhausted);
      }
      return;
    }
    var found := Admit(e, target, budget);
    if found.Refused? {
      refused := true;
    } else if !found.Found? {
      notes := [NotFound(target, found)];
      ExhaustionsOne(notes[0]);
    } else if budget.exhausted {
      stop, notes := true, [Exhausted];
      ExhaustionsOne(Exhausted);
    } else {
      assert Answers(e, target, found.content) by {
        assert e.resolve(budget.edges, target) == Found(found.name, found.content);
      }
      refused, notes, included := Descend(e, target, found, stack, budget, hxml && tag.inText);
    }
  }

  /** The recursive call for an admitted target. `deep` stands for Python's `RecursionError`. */
  method Descend(e: Engine, target: string, found: Resolution, stack: seq<string>, budget: Budget, inner: bool)
    returns (refused: bool, notes: seq<Note>, included: Option<string>)
    requires Lexes(e) && target !in stack && found.Found?
    requires budget.Sound(e.maxBytes) && !budget.exhausted
    modifies budget
    ensures budget.Sound(e.maxBytes) && old(budget.calls) <= budget.calls && old(budget.kept) <= budget.kept
    ensures Exhaustions(notes) <= if budget.exhausted then 1 else 0
    ensures !refused && budget.exhausted ==> notes != []
    ensures included.Some? ==>
              && inner && Bytes(included.value) <= Bytes(found.content) + budget.kept - old(budget.kept)
              && Expansion(e, found.content, included.value, stack + [target], MAX_LITERAL_INCLUDES - old(budget.edges))
    ensures !refused && notes == [] && inner ==> included.Some?
    decreases MAX_LITERAL_INCLUDES - budget.edges, 3
  {
    refused, notes, included := false, [], None;
    var sub, rs := Expand(e, found.name, found.content, stack + [target], budget, inner);
    var deep: bool := *;
    if deep {
      notes := [TooDeep(target)];
      ExhaustionsOne(notes[0]);
    } else if sub.Stopped? {
      refused := true;
    } else if sub.Broken? {
      notes := [Syntax(target)];
      ExhaustionsOne(notes[0]);
    } else {
      notes := sub.notes;
      if inner {
        SubstitutedSize(found.content, rs, 0);
        assert found.content[0..] == found.content;
        if e.schema(found.name, sub.content) {
          ExhaustionsOne(Schema(found.name));
          ExhaustionsConcat(notes, [Schema(found.name)]);
          notes := notes + [Schema(found.name)];
        }
        included := Some(sub.content);
      }
    }
  }

  /**
    The expansion of a draft that is itself within the limit: at most 64 resolver calls,
    one exhaustion note and `maxBytes` bytes. `texts` stand in the place of the include
    tags, each with what its tag includes on one line, and every literal character of the
    draft stands on its line.
   */
  method ExpandDraft(e: Engine, name: string, draft: string) returns (r: Outcome, ghost rs: seq<Splice>,
                     ghost texts: seq<string>, ghost calls: seq<string>)
    requires Lexes(e) && Bytes(draft) <= e.maxBytes
    ensures |calls| <= MAX_LITERAL_INCLUDES
    ensures r.Expanded? ==> Exhaustions(r.notes) <= 1 && Bytes(r.content) <= e.maxBytes
    ensures r.Expanded? ==> ExpandedBy(e, draft, r.content, rs, [name], MAX_LITERAL_INCLUDES)
    ensures r.Expanded? ==> SplicedAs(r.content, draft, rs, texts, 0)
    ensures r.Expanded? && r.notes == [] ==>
              && e.compile(draft).Compiled?
              && ReplacesAll(rs, e.compile(draft).includes, |e.compile(draft).includes|)
    ensures r.Expanded? ==> forall p: nat | p < |draft| && Outside(rs, p) ::
              var at := Where(draft, rs, 0, p);
              at < |r.content| && r.content[at] == draft[p] && Count(r.content[..at], '\n') == Count(draft[..p], '\n')
    ensures r.Broken? <==> e.compile(draft).SyntaxError?
  {
    var budget := new Budget(Bytes(draft));
    r, rs := Expand(e, name, draft, [name], budget, true);
    calls, texts := budget.calls, [];
    if r.Expanded? {
      texts := SubstitutedIsSpliced(draft, rs, 0);
      hide SplicedAs;
      SubstitutedSize(draft, rs, 0);
      assert draft[0..] == draft;
      forall p: nat | p < |draft| && Outside(rs, p)
        ensures var at := Where(draft, rs, 0, p);
                at < |r.content| && r.content[at] == draft[p] && Count(r.content[..at], '\n') == Count(draft[..p], '\n')
      {
        LiteralsKeepTheirLines(draft, rs, 0, p);
        assert draft[0..p] == draft[..p];
      }
    }
  }
}

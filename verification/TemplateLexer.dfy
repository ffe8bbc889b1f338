/**
  Linear-time lexing of Django template source.

  The first half states what Django's lazy patterns mean, character by character;
  the second half is the one-pass scanner that replaces them.
 */
module TemplateLexer {
  import opened Text

  // ---------------------------------------------------------------------------
  // What Django's pattern means
  // ---------------------------------------------------------------------------

  /** What the scan reports of one opener; `end` is -1 when it closes no tag. */
  datatype Opener = Opener(start: nat, end: int, lineEnd: nat)

  datatype Span = Span(start: nat, end: nat)

  predicate OpensAt(s: string, i: nat) {
    i + 1 < |s| && s[i] == '{' && (s[i + 1] == '%' || s[i + 1] == '{' || s[i + 1] == '#')
  }

  function Closer(kind: char): (c: string)
    ensures |c| == 2
  {
    if kind == '%' then "%}" else if kind == '{' then "}}" else "#}"
  }

  /**
    The lazy pattern `.*?closer` from `j`: try the closer, else consume one character
    that is not a line break. The result is the end of the match or -1.
   */
  function LazyEnd(s: string, closer: string, j: nat): (e: int)
    ensures e >= 0 ==> j + |closer| <= e <= |s|
    decreases |s| - j
  {
    if MatchAt(s, closer, j) then j + |closer|
    else if j >= |s| || s[j] == '\n' then -1
    else LazyEnd(s, closer, j + 1)
  }

  /** How many characters the lazy pattern consumes from `j` before it gives up. */
  function LazyReads(s: string, closer: string, j: nat): nat
    decreases |s| - j
  {
    if MatchAt(s, closer, j) || j >= |s| || s[j] == '\n' then 0
    else 1 + LazyReads(s, closer, j + 1)
  }

  /** The end of the tag that starts at `i`, or -1. */
  function TagEnd(s: string, i: nat): (e: int)
    ensures -1 <= e
    ensures e >= 0 ==> OpensAt(s, i) && i + 4 <= e <= |s|
  {
    if OpensAt(s, i) then
      var e := LazyEnd(s, Closer(s[i + 1]), i + 2);
      if e < 0 then -1 else e
    else -1
  }

  /** The two characters that close each kind of tag. */
  predicate ClosesTag(kind: char, closer: string) {
    || (kind == '%' && closer == "%}")
    || (kind == '{' && closer == "}}")
    || (kind == '#' && closer == "#}")
  }

  lemma {:induction false} LazyEndIs(s: string, closer: string, j: nat, e: nat)
    requires j <= e && MatchAt(s, closer, e)
    requires forall k: nat | j <= k < e :: k < |s| && s[k] != '\n' && !MatchAt(s, closer, k)
    ensures LazyEnd(s, closer, j) == e + |closer|
    decreases e - j
  {
    if j < e {
      LazyEndIs(s, closer, j + 1, e);
    }
  }

  /** A tag written out, on one line and closed for the first time at its end. */
  lemma TagIsClosed(before: string, kind: char, body: string, closer: string, rest: string)
    requires ClosesTag(kind, closer)
    requires forall k | 0 <= k < |body| :: body[k] != '\n'
    requires forall k: nat | k < |body| :: !MatchAt(body + closer, closer, k)
    ensures TagEnd(before + ['{', kind] + body + closer + rest, |before|) == |before| + 2 + |body| + 2
  {
    var head := before + ['{', kind];
    var s := head + body + closer + rest;
    assert s == head + ((body + closer) + rest);
    var e := |head| + |body|;
    assert s[e..e + 2] == closer;
    forall k: nat | |head| <= k < e ensures k < |s| && s[k] != '\n' && !MatchAt(s, closer, k) {
      assert s[k] == body[k - |head|];
      assert s[k..k + 2] == (body + closer)[k - |head|..k - |head| + 2];
      assert !MatchAt(body + closer, closer, k - |head|);
    }
    LazyEndIs(s, closer, |head|, e);
    assert s[|before|] == '{' && s[|before| + 1] == kind;
  }

  /** Matching the pattern everywhere from `p`, as a regular expression engine does. */
  function NaiveTags(s: string, p: nat): seq<Span>
    decreases |s| - p
  {
    if p >= |s| then []
    else if TagEnd(s, p) >= 0 then [Span(p, TagEnd(s, p))] + NaiveTags(s, TagEnd(s, p))
    else NaiveTags(s, p + 1)
  }

  /** The characters the engine reads at `p` for an opener that closes no tag. */
  function WastedAt(s: string, p: nat): nat {
    if OpensAt(s, p) && TagEnd(s, p) < 0 then 2 + LazyReads(s, Closer(s[p + 1]), p + 2) else 0
  }

  /** The sum of those reads from `p` on. */
  function WastedReads(s: string, p: nat): nat
    decreases |s| - p
  {
    if p >= |s| then 0
    else if TagEnd(s, p) >= 0 then WastedReads(s, TagEnd(s, p))
    else WastedAt(s, p) + WastedReads(s, p + 1)
  }

  /** Neither a line break nor a closer at `j` or later, before `k`. */
  ghost predicate Uninterrupted(s: string, closer: string, j: nat, k: nat) {
    forall i: nat | j <= i < k :: i < |s| && s[i] != '\n' && !MatchAt(s, closer, i)
  }

  /** A tag in one sentence: an opener and its nearest closer on the same line. */
  ghost predicate ShortestTag(s: string, tag: Span) {
    && OpensAt(s, tag.start)
    && tag.start + 4 <= tag.end <= |s|
    && var closer := Closer(s[tag.start + 1]);
    && MatchAt(s, closer, tag.end - 2)
    && Uninterrupted(s, closer, tag.start + 2, tag.end - 2)
  }

  predicate InOrder(p: nat, tags: seq<Span>)
    decreases |tags|
  {
    tags == [] || (p <= tags[0].start < tags[0].end && InOrder(tags[0].end, tags[1..]))
  }

  ghost predicate Covered(tags: seq<Span>, i: nat) {
    exists tag :: tag in tags && tag.start <= i < tag.end
  }

  /** The tags at or after `p`: disjoint, in order, each shortest, none left out. */
  ghost predicate LeftmostTags(s: string, p: nat, tags: seq<Span>) {
    && InOrder(p, tags)
    && (forall tag | tag in tags :: ShortestTag(s, tag))
    && (forall tag: Span | ShortestTag(s, tag) && p <= tag.start :: Covered(tags, tag.start))
  }

  lemma {:induction false} LazyEndIsShortest(s: string, closer: string, j: nat, k: nat)
    requires |closer| == 2
    requires j <= k && Uninterrupted(s, closer, j, k)
    ensures LazyEnd(s, closer, j) == LazyEnd(s, closer, k)
    decreases k - j
  {
    if j < k {
      LazyEndIsShortest(s, closer, j + 1, k);
    }
  }

  lemma {:induction false} LazyEndFinds(s: string, closer: string, j: nat)
    requires |closer| == 2
    ensures var e := LazyEnd(s, closer, j);
            e >= 0 ==> MatchAt(s, closer, e - 2) && Uninterrupted(s, closer, j, e - 2)
    decreases |s| - j
  {
    if !MatchAt(s, closer, j) && j < |s| && s[j] != '\n' {
      LazyEndFinds(s, closer, j + 1);
    }
  }

  lemma LazyEndAtCloser(s: string, closer: string, j: nat)
    requires MatchAt(s, closer, j)
    ensures LazyEnd(s, closer, j) == j + |closer|
  {
  }

  lemma ShortestTagIsTagEnd(s: string, tag: Span)
    requires ShortestTag(s, tag)
    ensures TagEnd(s, tag.start) == tag.end
  {
    hide LazyEnd, Uninterrupted, MatchAt, Closer, OpensAt;
    LazyEndIsShortest(s, Closer(s[tag.start + 1]), tag.start + 2, tag.end - 2);
    LazyEndAtCloser(s, Closer(s[tag.start + 1]), tag.end - 2);
  }

  lemma TagEndIsShortestTag(s: string, i: nat)
    requires TagEnd(s, i) >= 0
    ensures ShortestTag(s, Span(i, TagEnd(s, i)))
  {
    hide LazyEnd, Uninterrupted, MatchAt;
    LazyEndFinds(s, Closer(s[i + 1]), i + 2);
  }

  /** The engine's tag end at `i` is exactly the one-sentence tag. */
  lemma TagEndIsShortest(s: string, tag: Span)
    ensures ShortestTag(s, tag) <==> TagEnd(s, tag.start) == tag.end
  {
    if ShortestTag(s, tag) {
      ShortestTagIsTagEnd(s, tag);
    } else if TagEnd(s, tag.start) >= 0 {
      TagEndIsShortestTag(s, tag.start);
    }
  }

  /** The same properties with the engine's tag end in place of the sentence. */
  ghost predicate EngineTags(s: string, p: nat, tags: seq<Span>) {
    && InOrder(p, tags)
    && (forall tag | tag in tags :: TagEnd(s, tag.start) == tag.end)
    && (forall i: nat | p <= i && TagEnd(s, i) >= 0 :: Covered(tags, i))
  }

  lemma LeftmostAreEngineTags(s: string, p: nat, tags: seq<Span>)
    ensures LeftmostTags(s, p, tags) <==> EngineTags(s, p, tags)
  {
    forall tag: Span ensures ShortestTag(s, tag) <==> TagEnd(s, tag.start) == tag.end {
      TagEndIsShortest(s, tag);
    }
    if LeftmostTags(s, p, tags) {
      forall i: nat | p <= i && TagEnd(s, i) >= 0 ensures Covered(tags, i) {
        assert ShortestTag(s, Span(i, TagEnd(s, i)));
      }
    }
  }

  lemma {:induction false} NaiveTagsInOrder(s: string, p: nat)
    ensures InOrder(p, NaiveTags(s, p))
    ensures forall tag | tag in NaiveTags(s, p) :: TagEnd(s, tag.start) == tag.end
    decreases |s| - p
  {
    if p < |s| {
      NaiveTagsInOrder(s, if TagEnd(s, p) >= 0 then TagEnd(s, p) else p + 1);
    }
  }

  lemma {:induction false} NaiveTagsCover(s: string, p: nat, i: nat)
    requires p <= i && TagEnd(s, i) >= 0
    ensures Covered(NaiveTags(s, p), i)
    decreases |s| - p
  {
    var end := TagEnd(s, p);
    if end >= 0 {
      assert Span(p, end) in NaiveTags(s, p);
      if end <= i {
        NaiveTagsCover(s, end, i);
      }
    } else {
      NaiveTagsCover(s, p + 1, i);
    }
  }

  /** The engine finds the tags that are leftmost, disjoint and shortest, and all of them. */
  lemma NaiveTagsAreLeftmost(s: string, p: nat)
    ensures LeftmostTags(s, p, NaiveTags(s, p))
  {
    NaiveTagsInOrder(s, p);
    forall i: nat | p <= i && TagEnd(s, i) >= 0 ensures Covered(NaiveTags(s, p), i) {
      NaiveTagsCover(s, p, i);
    }
    LeftmostAreEngineTags(s, p, NaiveTags(s, p));
  }

  lemma {:induction false} StartsFollow(p: nat, tags: seq<Span>)
    requires InOrder(p, tags)
    ensures forall tag | tag in tags :: p <= tag.start < tag.end
    decreases |tags|
  {
    if tags != [] {
      StartsFollow(tags[0].end, tags[1..]);
    }
  }

  lemma CoveredByRest(tags: seq<Span>, i: nat)
    requires tags != [] && tags[0].end <= i && Covered(tags, i)
    ensures Covered(tags[1..], i)
  {
    var tag :| tag in tags && tag.start <= i < tag.end;
    assert tags == [tags[0]] + tags[1..];
    assert tag in tags[1..];
  }

  lemma CoveredByFirst(p: nat, tags: seq<Span>)
    requires InOrder(p, tags) && Covered(tags, p)
    ensures tags != [] && tags[0].start == p
  {
    StartsFollow(tags[0].end, tags[1..]);
    var tag :| tag in tags && tag.start <= p < tag.end;
    assert tags == [tags[0]] + tags[1..];
  }

  lemma FirstEngineTag(s: string, p: nat, tags: seq<Span>)
    requires EngineTags(s, p, tags) && TagEnd(s, p) >= 0
    ensures tags != [] && tags[0] == Span(p, TagEnd(s, p))
    ensures EngineTags(s, TagEnd(s, p), tags[1..])
  {
    assert Covered(tags, p);
    CoveredByFirst(p, tags);
    assert tags[0] in tags;
    forall i: nat | tags[0].end <= i && TagEnd(s, i) >= 0 ensures Covered(tags[1..], i) {
      CoveredByRest(tags, i);
    }
  }

  lemma NotAnEngineTag(s: string, p: nat, tags: seq<Span>)
    requires EngineTags(s, p, tags) && TagEnd(s, p) < 0
    ensures EngineTags(s, p + 1, tags)
    ensures p >= |s| ==> tags == []
  {
    if tags != [] {
      assert tags[0] in tags;
    }
  }

  lemma {:induction false} EngineTagsAreUnique(s: string, p: nat, tags: seq<Span>)
    requires EngineTags(s, p, tags)
    ensures tags == NaiveTags(s, p)
    decreases |s| - p
  {
    if TagEnd(s, p) >= 0 {
      FirstEngineTag(s, p, tags);
      EngineTagsAreUnique(s, TagEnd(s, p), tags[1..]);
      assert tags == [tags[0]] + tags[1..];
    } else {
      NotAnEngineTag(s, p, tags);
      if p < |s| {
        EngineTagsAreUnique(s, p + 1, tags);
      }
    }
  }

  /** Nothing else has those properties: they determine the list of tags. */
  lemma LeftmostTagsAreUnique(s: string, p: nat, tags: seq<Span>)
    requires LeftmostTags(s, p, tags)
    ensures tags == NaiveTags(s, p)
  {
    LeftmostAreEngineTags(s, p, tags);
    EngineTagsAreUnique(s, p, tags);
  }

  // ---------------------------------------------------------------------------
  // The scan
  // ---------------------------------------------------------------------------

  /** Whether `find` has to search again: nothing is known of the marker, or its hit is passed. */
  predicate Stale(positions: map<string, int>, marker: string, start: nat) {
    marker !in positions || 0 <= positions[marker] < start
  }

  /** What is remembered after asking for `marker` from `start`. */
  function Remember(s: string, positions: map<string, int>, marker: string, start: nat): map<string, int> {
    if Stale(positions, marker, start) then positions[marker := Find(s, marker, start)] else positions
  }

  /** The positions that asking for `marker` from `start` tries. */
  function Cost(s: string, positions: map<string, int>, marker: string, start: nat): nat {
    if Stale(positions, marker, start) then Tried(s, marker, start) else 0
  }

  /** The positions that are still to be tried for a marker: those behind its last hit. */
  function Room(s: string, positions: map<string, int>, marker: string): nat {
    if marker !in positions then |s| + 1
    else if 0 <= positions[marker] <= |s| then |s| - positions[marker]
    else 0
  }

  /**
    No text is searched twice for one marker: what a call tries is taken out of the
    marker's room, and other markers keep theirs.
   */
  lemma SearchedOnce(s: string, positions: map<string, int>, marker: string, start: nat)
    requires start <= |s|
    ensures var remembered := Remember(s, positions, marker, start);
            && Cost(s, positions, marker, start) + Room(s, remembered, marker) <= Room(s, positions, marker)
            && forall m | m != marker :: Room(s, remembered, m) == Room(s, positions, m)
  {
  }

  /**
    `_forward_find`: the answers of `str.find`, as long as the searches of each marker
    start at or after the previous one.

    `asked` is the start of the last search of each marker and `examined` counts the
    positions that were tried in all.
   */
  class ForwardFind {
    const document: string
    var positions: map<string, int>
    ghost var asked: map<string, nat>
    ghost var examined: nat

    ghost predicate Valid()
      reads this
    {
      && asked.Keys == positions.Keys
      && forall m | m in positions :: positions[m] == Find(document, m, asked[m])
    }

    constructor (document: string)
      ensures Valid() && this.document == document
      ensures positions == map[] && asked == map[] && examined == 0
    {
      this.document := document;
      positions, asked, examined := map[], map[], 0;
    }

    method FindNext(marker: string, start: nat) returns (position: int)
      requires Valid()
      requires marker != "" && start <= |document|
      requires marker in asked ==> asked[marker] <= start
      modifies this
      ensures Valid()
      ensures position == Find(document, marker, start)
      ensures positions == Remember(document, old(positions), marker, start)
      ensures asked == old(asked)[marker := start]
      ensures examined == old(examined) + Cost(document, old(positions), marker, start)
    {
      if marker !in positions || 0 <= positions[marker] < start {
        position := Find(document, marker, start);
        examined := examined + Tried(document, marker, start);
        positions := positions[marker := position];
      } else {
        position := positions[marker];
        FindFromLater(document, marker, asked[marker], start);
      }
      asked := asked[marker := start];
    }
  }

  /** What the scan reports of the opener at `p`, read off the engine's definition. */
  function OpenerAt(s: string, p: nat): Opener
    requires OpensAt(s, p)
  {
    Opener(p, TagEnd(s, p), LineEnd(s, p + 2))
  }

  /** Where matching resumes: behind the tag, or one character on. */
  function Resume(opener: Opener): nat {
    if opener.end >= 0 then opener.end else opener.start + 1
  }

  function Openers(s: string, p: nat): seq<Opener>
    decreases |s| - p
  {
    if p >= |s| then []
    else if OpensAt(s, p) then [OpenerAt(s, p)] + Openers(s, Resume(OpenerAt(s, p)))
    else Openers(s, p + 1)
  }

  /** The nearest closer counts exactly when no line break comes before it. */
  lemma {:induction false} LazyEndByFind(s: string, closer: string, j: nat)
    requires j <= |s| && |closer| == 2 && '\n' !in closer
    ensures var c, n := Find(s, closer, j), Find(s, "\n", j);
            && LazyEnd(s, closer, j) == (if c >= 0 && (n < 0 || n > c) then c + 2 else -1)
            && LineEnd(s, j) == (if n < 0 then |s| else n)
    decreases |s| - j
  {
    var c, n := Find(s, closer, j), Find(s, "\n", j);
    if j < |s| {
      assert s[j..j + 1] == "\n" <==> s[j] == '\n';
      if MatchAt(s, closer, j) {
        assert s[j] == closer[0];
        if s[j] != '\n' { LazyEndByFind(s, closer, j + 1); }
      } else if s[j] != '\n' {
        LazyEndByFind(s, closer, j + 1);
      }
    }
  }

  /** Two searches decide what the pattern makes of an opener. */
  lemma OpenerByFind(s: string, start: nat, c: int, n: int)
    requires OpensAt(s, start)
    requires c == Find(s, Closer(s[start + 1]), start + 2) && n == Find(s, "\n", start + 2)
    ensures OpenerAt(s, start).end == if c >= 0 && (n < 0 || n > c) then c + 2 else -1
    ensures OpenerAt(s, start).lineEnd == if n < 0 then |s| else n
  {
    LazyEndByFind(s, Closer(s[start + 1]), start + 2);
  }

  /** The next opener from `p` on, or the end of the source. */
  function OpenerFrom(s: string, p: nat): (start: nat)
    requires p <= |s|
    ensures p <= start <= |s|
    ensures start < |s| ==> OpensAt(s, start)
    decreases |s| - p
  {
    if p == |s| || OpensAt(s, p) then p else OpenerFrom(s, p + 1)
  }

  /** The positions the opener search tries from `p`. */
  function OpenerTried(s: string, p: nat): nat
    requires p <= |s|
  {
    OpenerFrom(s, p) - p + if OpenerFrom(s, p) < |s| then 1 else 0
  }

  /** Every position that the scan tries from `p` on, when `memo` is what the searches left. */
  function WorkFrom(s: string, p: nat, memo: map<string, int>): nat
    requires p <= |s|
    decreases |s| - p
  {
    var start := OpenerFrom(s, p);
    if start == |s| then OpenerTried(s, p)
    else
      var closer := Closer(s[start + 1]);
      var memo' := Remember(s, memo, closer, start + 2);
      OpenerTried(s, p)
      + Cost(s, memo, closer, start + 2)
      + Cost(s, memo', "\n", start + 2)
      + WorkFrom(s, Resume(OpenerAt(s, start)), Remember(s, memo', "\n", start + 2))
  }

  function Rooms(s: string, memo: map<string, int>): nat {
    Room(s, memo, "%}") + Room(s, memo, "}}") + Room(s, memo, "#}") + Room(s, memo, "\n")
  }

  lemma AskedOnce(s: string, memo: map<string, int>, marker: string, start: nat)
    requires start <= |s| && marker in {"%}", "}}", "#}", "\n"}
    ensures Cost(s, memo, marker, start) + Rooms(s, Remember(s, memo, marker, start)) <= Rooms(s, memo)
  {
    SearchedOnce(s, memo, marker, start);
    hide Cost, Remember, Room;
  }

  lemma WorkAtTheEnd(s: string, p: nat, memo: map<string, int>)
    requires p <= |s| && OpenerFrom(s, p) == |s|
    ensures WorkFrom(s, p, memo) == OpenerTried(s, p) && WorkFrom(s, |s|, memo) == 0
    ensures Openers(s, |s|) == []
  {
  }

  lemma WorkOfOneOpener(s: string, p: nat, memo: map<string, int>, start: nat)
    requires p <= |s| && OpenerFrom(s, p) == start < |s|
    ensures var closer := Closer(s[start + 1]);
            var memo' := Remember(s, memo, closer, start + 2);
            WorkFrom(s, p, memo)
            == OpenerTried(s, p) + Cost(s, memo, closer, start + 2) + Cost(s, memo', "\n", start + 2)
               + WorkFrom(s, Resume(OpenerAt(s, start)), Remember(s, memo', "\n", start + 2))
    ensures Openers(s, start) == [OpenerAt(s, start)] + Openers(s, Resume(OpenerAt(s, start)))
  {
    hide Remember, Cost, OpenerFrom, OpenerTried, OpenerAt, Resume, Closer, OpensAt;
  }

  /** The rest of the scan tries each opener position once, and what room the markers have left. */
  lemma {:induction false} RestIsLinear(s: string, p: nat, memo: map<string, int>)
    requires p <= |s|
    ensures WorkFrom(s, p, memo) <= |s| - p + Rooms(s, memo)
    decreases |s| - p
  {
    hide WorkFrom, Cost, Remember, Rooms, OpenerFrom, TagEnd, LineEnd;
    var start := OpenerFrom(s, p);
    if start == |s| {
      WorkAtTheEnd(s, p, memo);
    } else {
      var closer := Closer(s[start + 1]);
      var memo' := Remember(s, memo, closer, start + 2);
      AskedOnce(s, memo, closer, start + 2);
      AskedOnce(s, memo', "\n", start + 2);
      WorkOfOneOpener(s, p, memo, start);
      RestIsLinear(s, Resume(OpenerAt(s, start)), Remember(s, memo', "\n", start + 2));
    }
  }

  /** The whole scan tries five positions per character, and four more. */
  lemma WorkIsLinear(s: string)
    ensures WorkFrom(s, 0, map[]) <= 5 * |s| + 4
  {
    RestIsLinear(s, 0, map[]);
  }

  /** The generator `_scan`: one opener per call, in one pass over the source. */
  class Scanner {
    const source: string
    const find: ForwardFind
    var position: nat
    ghost var tried: nat

    ghost predicate Valid()
      reads this, find
    {
      position <= |source| && FindReady(position)
    }

    /** No marker has been searched from beyond the opener that ends before `p + 2`. */
    ghost predicate FindReady(p: nat)
      reads this, find
    {
      && find.Valid() && find.document == source
      && forall m | m in find.asked :: find.asked[m] <= p + 1
    }

    /** Every position any of the searches has tried. */
    ghost function Work(): nat
      reads this, find
    {
      tried + find.examined
    }

    /** What the rest of the scan will try. */
    ghost function Rest(): nat
      requires position <= |source|
      reads this, find
    {
      WorkFrom(source, position, find.positions)
    }

    constructor (source: string)
      ensures Valid() && fresh(find) && this.source == source && position == 0
      ensures Work() == 0 && Rest() == WorkFrom(source, 0, map[])
    {
      this.source := source;
      find := new ForwardFind(source);
      position, tried := 0, 0;
    }

    /** `_OPENER.search(source, position)`; `steps` counts the positions it tries. */
    method SearchOpener() returns (start: nat, ghost steps: nat)
      requires position <= |source|
      ensures start == OpenerFrom(source, position) && steps == OpenerTried(source, position)
      ensures Openers(source, position) == Openers(source, start)
    {
      start, steps := position, 0;
      while start < |source| && !OpensAt(source, start)
        invariant position <= start <= |source| && steps == start - position
        invariant OpenerFrom(source, position) == OpenerFrom(source, start)
        invariant Openers(source, position) == Openers(source, start)
      {
        start, steps := start + 1, steps + 1;
      }
      if start < |source| {
        steps := steps + 1;
      }
    }

    /** The nearest closer of the opener at `start` and the nearest line break. */
    method SearchCloser(start: nat) returns (closer: int, newline: int)
      requires FindReady(start) && OpensAt(source, start)
      modifies find
      ensures FindReady(start + 1)
      ensures closer == Find(source, Closer(source[start + 1]), start + 2)
      ensures newline == Find(source, "\n", start + 2)
      ensures var kind, memo := Closer(source[start + 1]), old(find.positions);
              var memo' := Remember(source, memo, kind, start + 2);
              && find.positions == Remember(source, memo', "\n", start + 2)
              && Work() == old(Work()) + Cost(source, memo, kind, start + 2) + Cost(source, memo', "\n", start + 2)
    {
      hide Find, Remember, Cost;
      closer := find.FindNext(Closer(source[start + 1]), start + 2);
      newline := find.FindNext("\n", start + 2);
    }

    method Next() returns (opener: seq<Opener>)
      requires Valid()
      modifies this, find
      ensures Valid()
      ensures |opener| <= 1
      ensures Openers(source, old(position)) == opener + Openers(source, position)
      ensures position <= |source| && (opener == [] ==> position == |source|)
      ensures opener != [] ==> old(position) < position && opener[0].start < opener[0].lineEnd
      ensures Work() + Rest() == old(Work() + Rest())
    {
      hide Find, Remember, Cost, LineEnd, LazyEnd, OpenerFrom, TagEnd, WorkFrom, Openers, Closer;
      var start, steps := SearchOpener();
      tried := tried + steps;
      if start == |source| {
        WorkAtTheEnd(source, position, find.positions);
        position := start;
        return [];
      }
      WorkOfOneOpener(source, position, find.positions, start);
      var closer, newline := SearchCloser(start);
      OpenerByFind(source, start, closer, newline);
      var lineEnd := if newline < 0 then |source| else newline;
      if closer >= 0 && (newline < 0 || newline > closer) {
        opener := [Opener(start, closer + 2, lineEnd)];
        position := closer + 2;
      } else {
        opener := [Opener(start, -1, lineEnd)];
        position := start + 1;
      }
      assert opener[0] == OpenerAt(source, start) && position == Resume(opener[0]);
    }

    lemma NothingIsLeft()
      requires Valid() && position == |source|
      ensures Rest() == 0 && Openers(source, position) == []
    {
    }
  }

  // ---------------------------------------------------------------------------
  // Its three clients
  // ---------------------------------------------------------------------------

  function ClosedSpans(openers: seq<Opener>): seq<Span> {
    if openers == [] then []
    else
      (if openers[0].end >= 0 then [Span(openers[0].start, openers[0].end)] else [])
      + ClosedSpans(openers[1..])
  }

  lemma {:induction false} ClosedOpenersAreTags(s: string, p: nat)
    ensures ClosedSpans(Openers(s, p)) == NaiveTags(s, p)
    decreases |s| - p
  {
    if p < |s| {
      var end := TagEnd(s, p);
      if OpensAt(s, p) {
        var next := Resume(OpenerAt(s, p));
        ClosedOpenersAreTags(s, next);
        assert Openers(s, p)[1..] == Openers(s, next);
      } else {
        ClosedOpenersAreTags(s, p + 1);
      }
    }
  }

  /**
    Collect the span of every tag: exactly the engine's, in linear time. `work` is the sum
    of the positions that the opener search and the four marker searches try.
   */
  method TagSpans(source: string) returns (tags: seq<Span>, ghost work: nat)
    ensures tags == NaiveTags(source, 0)
    ensures work == WorkFrom(source, 0, map[])
    ensures work <= 5 * |source| + 4
  {
    hide WorkFrom, Openers, NaiveTags, Scanner.Valid, Scanner.Work, Scanner.Rest;
    var scan := new Scanner(source);
    tags := [];
    var more := true;
    while more
      invariant scan.Valid() && fresh(scan) && fresh(scan.find) && scan.source == source
      invariant ClosedSpans(Openers(source, 0)) == tags + ClosedSpans(Openers(source, scan.position))
      invariant scan.position <= |source|
      invariant scan.Work() + scan.Rest() == WorkFrom(source, 0, map[])
      invariant !more ==> scan.position == |source|
      decreases more, |source| - scan.position
    {
      var opener := scan.Next();
      ghost var rest := Openers(source, scan.position);
      if opener == [] {
        assert opener + rest == rest;
        more := false;
      } else {
        assert (opener + rest)[1..] == rest && (opener + rest)[0] == opener[0];
        if opener[0].end >= 0 {
          tags := tags + [Span(opener[0].start, opener[0].end)];
        }
      }
    }
    scan.NothingIsLeft();
    WorkIsLinear(source);
    work := scan.Work();
    ClosedOpenersAreTags(source, 0);
  }

  /** The sum over the openers that close no tag, of the text up to the end of their line. */
  function CostOf(openers: seq<Opener>): int {
    if openers == [] then 0
    else
      (if openers[0].end < 0 then openers[0].lineEnd - openers[0].start else 0)
      + CostOf(openers[1..])
  }

  lemma {:induction false} LazyReadsTheLine(s: string, closer: string, j: nat)
    requires j <= |s| && LazyEnd(s, closer, j) < 0
    ensures LazyReads(s, closer, j) == LineEnd(s, j) - j
    decreases |s| - j
  {
    if j < |s| && s[j] != '\n' {
      LazyReadsTheLine(s, closer, j + 1);
    }
  }

  lemma {:induction false} SameLine(s: string, i: nat, j: nat)
    requires i <= |s| && i <= j <= LineEnd(s, i)
    ensures LineEnd(s, j) == LineEnd(s, i)
    decreases j - i
  {
    if i < j {
      SameLine(s, i + 1, j);
    }
  }

  lemma WastedAtIsRestOfLine(s: string, p: nat)
    requires OpensAt(s, p) && TagEnd(s, p) < 0
    ensures WastedAt(s, p) == LineEnd(s, p + 2) - p == LineEnd(s, p) - p
  {
    LazyReadsTheLine(s, Closer(s[p + 1]), p + 2);
    assert LineEnd(s, p) == LineEnd(s, p + 1) == LineEnd(s, p + 2);
  }

  /** The sum the scan adds up is the work Django's engine wastes. */
  lemma {:induction false} CostIsWastedReads(s: string, p: nat)
    ensures CostOf(Openers(s, p)) == WastedReads(s, p)
    decreases |s| - p
  {
    if p < |s| {
      var end := TagEnd(s, p);
      if OpensAt(s, p) {
        var next := Resume(OpenerAt(s, p));
        CostIsWastedReads(s, next);
        assert Openers(s, p)[1..] == Openers(s, next);
        if end < 0 {
          WastedAtIsRestOfLine(s, p);
        }
      } else {
        CostIsWastedReads(s, p + 1);
      }
    }
  }

  /**
    Count the wasted reads, and stop once the count is over `limit` if there is one.
   */
  method UnclosedCost(source: string, limit: int, limited: bool) returns (cost: nat)
    ensures !limited ==> cost == WastedReads(source, 0)
    ensures limited ==> cost <= WastedReads(source, 0)
    ensures limited && cost <= limit ==> cost == WastedReads(source, 0)
  {
    var scan := new Scanner(source);
    cost := 0;
    CostIsWastedReads(source, 0);
    var more := true;
    while more
      invariant scan.Valid() && fresh(scan) && fresh(scan.find) && scan.source == source
      invariant CostOf(Openers(source, 0)) == cost + CostOf(Openers(source, scan.position))
      invariant !more ==> Openers(source, scan.position) == []
      decreases more, |source| - scan.position
    {
      var opener := scan.Next();
      CostIsWastedReads(source, scan.position);
      if opener == [] {
        more := false;
      } else {
        assert (opener + Openers(source, scan.position))[1..] == Openers(source, scan.position);
        if opener[0].end < 0 {
          cost := cost + (opener[0].lineEnd - opener[0].start);
          if limited && cost > limit {
            return;
          }
        }
      }
    }
  }

  /** The length of the longest line from `from` on. */
  function LongestLine(s: string, from: nat): nat
    requires from <= |s|
    decreases |s| - from
  {
    var e := LineEnd(s, from);
    if e == |s| then e - from
    else
      var rest := LongestLine(s, e + 1);
      if e - from < rest then rest else e - from
  }

  lemma {:induction false} NoLineIsLonger(s: string, from: nat, i: nat)
    requires from <= i <= |s|
    ensures LineEnd(s, i) - i <= LongestLine(s, from)
    decreases |s| - from
  {
    var e := LineEnd(s, from);
    if i <= e {
      SameLine(s, from, i);
    } else {
      NoLineIsLonger(s, e + 1, i);
    }
  }

  ghost predicate LinesAtMost(s: string, longest: nat) {
    forall i: nat | i <= |s| :: LineEnd(s, i) - i <= longest
  }

  lemma MultiplyMonotone(a: nat, b: nat, factor: nat)
    requires a <= b
    ensures a * factor <= b * factor
  {
  }

  lemma MultiplyDistributes(a: nat, b: nat, factor: nat)
    ensures (a + b) * factor == a * factor + b * factor
  {
  }

  lemma WastedAtBound(s: string, p: nat, next: nat, longest: nat)
    requires p < next <= |s| && LinesAtMost(s, longest)
    ensures WastedAt(s, p) <= Count(s[p..next], '{') * longest
  {
    if OpensAt(s, p) && TagEnd(s, p) < 0 {
      WastedAtIsRestOfLine(s, p);
      assert s[p..next][0] == '{';
      MultiplyMonotone(1, Count(s[p..next], '{'), longest);
    }
  }

  /** Every wasted read belongs to a brace and to its line. */
  lemma {:induction false} WastedReadsBound(s: string, p: nat, longest: nat)
    requires p <= |s| && LinesAtMost(s, longest)
    ensures WastedReads(s, p) <= Count(s[p..], '{') * longest
    decreases |s| - p
  {
    if p < |s| {
      var next := if TagEnd(s, p) >= 0 then TagEnd(s, p) else p + 1;
      WastedReadsBound(s, next, longest);
      WastedAtBound(s, p, next, longest);
      assert s[p..] == s[p..next] + s[next..];
      CountConcat(s[p..next], s[next..], '{');
      MultiplyDistributes(Count(s[p..next], '{'), Count(s[next..], '{'), longest);
    }
  }

  /** `_unclosed_cost_exceeds`: a cheap bound first, the scan only when it must be. */
  method UnclosedCostExceeds(source: string, limit: int) returns (exceeds: bool)
    ensures exceeds <==> Count(source, '{') > 0 && WastedReads(source, 0) > limit
  {
    var braces := Count(source, '{');
    if braces == 0 || braces * LongestLine(source, 0) <= limit {
      assert LinesAtMost(source, LongestLine(source, 0)) by {
        forall i: nat | i <= |source| ensures LineEnd(source, i) - i <= LongestLine(source, 0) {
          NoLineIsLonger(source, 0, i);
        }
      }
      WastedReadsBound(source, 0, LongestLine(source, 0));
      assert source[0..] == source;
      return false;
    }
    var cost := UnclosedCost(source, limit, true);
    return cost > limit;
  }

  /**
    The answer of `UnclosedCostExceeds` is the exact one for every source if and only
    if the limit is not negative, or the source holds a brace: a source without braces
    is cleared before the limit is looked at.
   */
  lemma ExceedsIsExactIff(source: string, limit: int)
    ensures (Count(source, '{') > 0 && WastedReads(source, 0) > limit) == (WastedReads(source, 0) > limit)
            <==> limit >= 0 || Count(source, '{') > 0
  {
    if Count(source, '{') == 0 {
      WastedReadsBound(source, 0, |source|);
      assert source[0..] == source;
    }
  }

  /** An empty source wastes nothing, which is more than any limit below zero; it is cleared. */
  lemma EmptySourceIsCleared(limit: int)
    requires limit < 0
    ensures WastedReads("", 0) > limit && Count("", '{') == 0
  {
  }

  /** A token with its source span, the line it starts on, and whether it is a tag. */
  datatype Token = Token(begin: nat, finish: nat, lineno: nat, inTag: bool)

  function TagsIn(tokens: seq<Token>): seq<Span> {
    if tokens == [] then []
    else
      var token := tokens[|tokens| - 1];
      TagsIn(tokens[..|tokens| - 1]) + if token.inTag then [Span(token.begin, token.finish)] else []
  }

  /** Non-empty tokens cover the source up to `end` without a gap, each with its true line. */
  ghost predicate Tiles(s: string, tokens: seq<Token>, end: nat) {
    if tokens == [] then end == 0
    else
      var token := tokens[|tokens| - 1];
      && token.begin < token.finish == end <= |s|
      && token.lineno == 1 + Count(s[..token.begin], '\n')
      && Tiles(s, tokens[..|tokens| - 1], token.begin)
  }

  ghost predicate TextIsMaximal(tokens: seq<Token>) {
    forall k | 0 < k < |tokens| :: tokens[k - 1].inTag || tokens[k].inTag
  }

  ghost function Texts(s: string, tokens: seq<Token>): string {
    if tokens == [] then ""
    else
      var token := tokens[|tokens| - 1];
      Texts(s, tokens[..|tokens| - 1])
      + if token.begin <= token.finish <= |s| then s[token.begin..token.finish] else ""
  }

  /** Tiling loses nothing: the texts of the tokens are the source. */
  lemma {:induction false} TokensSpellTheSource(s: string, tokens: seq<Token>, end: nat)
    requires Tiles(s, tokens, end)
    ensures Texts(s, tokens) == s[..end]
    decreases |tokens|
  {
    if tokens != [] {
      var n := |tokens| - 1;
      var token := tokens[n];
      TokensSpellTheSource(s, tokens[..n], token.begin);
      assert s[..token.begin] + s[token.begin..token.finish] == s[..token.finish];
    }
  }

  lemma LastSpanCancels(a: seq<Span>, x: Span, b: seq<Span>, y: Span)
    requires a + [x] == b + [y]
    ensures a == b && x == y
  {
    assert a == (a + [x])[..|a + [x]| - 1] && x == (a + [x])[|a + [x]| - 1];
    assert b == (b + [y])[..|b + [y]| - 1] && y == (b + [y])[|b + [y]| - 1];
  }

  lemma LastTokenIsDetermined(s: string, a: seq<Token>, x: Token, b: seq<Token>, y: Token)
    requires Tiles(s, a, x.begin) && Tiles(s, b, y.begin)
    requires x.begin < x.finish == y.finish && y.begin < y.finish
    requires x.inTag || a == [] || a[|a| - 1].inTag
    requires y.inTag || b == [] || b[|b| - 1].inTag
    requires TagsIn(a) + (if x.inTag then [Span(x.begin, x.finish)] else [])
             == TagsIn(b) + if y.inTag then [Span(y.begin, y.finish)] else []
    ensures x.begin == y.begin && x.inTag == y.inTag && TagsIn(a) == TagsIn(b)
  {
    TagsEndBy(s, a, x.begin);
    TagsEndBy(s, b, y.begin);
    assert x.inTag ==> Span(x.begin, x.finish) in TagsIn(a) + [Span(x.begin, x.finish)];
    assert y.inTag ==> Span(y.begin, y.finish) in TagsIn(b) + [Span(y.begin, y.finish)];
    assert TagsIn(a) + [] == TagsIn(a) && TagsIn(b) + [] == TagsIn(b);
    assert x.inTag == y.inTag;
    if x.inTag {
      LastSpanCancels(TagsIn(a), Span(x.begin, x.finish), TagsIn(b), Span(y.begin, y.finish));
    } else {
      TextStartsAfterTags(s, a, x.begin);
      TextStartsAfterTags(s, b, y.begin);
    }
  }

  lemma ButLast(s: string, tokens: seq<Token>, end: nat)
    requires Tiles(s, tokens, end) && TextIsMaximal(tokens) && tokens != []
    ensures var n := |tokens| - 1;
            var token, before := tokens[n], tokens[..n];
            && tokens == before + [token]
            && Tiles(s, before, token.begin) && TextIsMaximal(before) && token.begin < token.finish == end
            && (token.inTag || before == [] || before[|before| - 1].inTag)
            && token.lineno == 1 + Count(s[..token.begin], '\n')
            && TagsIn(tokens) == TagsIn(before) + if token.inTag then [Span(token.begin, token.finish)] else []
  {
  }

  lemma EmptyTiles(s: string, tokens: seq<Token>, end: nat)
    requires Tiles(s, tokens, end)
    ensures tokens == [] <==> end == 0
  {
  }

  /** Tiling, the tags and maximal text leave one possible list of tokens. */
  lemma {:induction false} TokensAreDetermined(s: string, a: seq<Token>, b: seq<Token>, end: nat)
    requires Tiles(s, a, end) && Tiles(s, b, end) && TextIsMaximal(a) && TextIsMaximal(b)
    requires TagsIn(a) == TagsIn(b)
    ensures a == b
    decreases |a|
  {
    hide Tiles, TextIsMaximal, TagsIn, Count;
    EmptyTiles(s, a, end);
    EmptyTiles(s, b, end);
    if a != [] {
      var x, y := a[|a| - 1], b[|b| - 1];
      ButLast(s, a, end);
      ButLast(s, b, end);
      LastTokenIsDetermined(s, a[..|a| - 1], x, b[..|b| - 1], y);
      TokensAreDetermined(s, a[..|a| - 1], b[..|b| - 1], x.begin);
    }
  }

  lemma {:induction false} TagsEndBy(s: string, tokens: seq<Token>, end: nat)
    requires Tiles(s, tokens, end)
    ensures forall tag | tag in TagsIn(tokens) :: tag.start < tag.end <= end
    decreases |tokens|
  {
    if tokens != [] {
      TagsEndBy(s, tokens[..|tokens| - 1], tokens[|tokens| - 1].begin);
    }
  }

  lemma TextStartsAfterTags(s: string, tokens: seq<Token>, end: nat)
    requires Tiles(s, tokens, end)
    requires tokens != [] ==> tokens[|tokens| - 1].inTag
    ensures end == if TagsIn(tokens) == [] then 0 else TagsIn(tokens)[|TagsIn(tokens)| - 1].end
  {
  }

  method Emit(source: string, tokens: seq<Token>, begin: nat, finish: nat, lineno: nat, inTag: bool)
    returns (tokens': seq<Token>, lineno': nat)
    requires Tiles(source, tokens, begin) && begin <= finish <= |source|
    requires lineno == 1 + Count(source[..begin], '\n')
    ensures Tiles(source, tokens', finish)
    ensures lineno' == 1 + Count(source[..finish], '\n')
    ensures tokens' == tokens + if begin < finish then [Token(begin, finish, lineno, inTag)] else []
    ensures TagsIn(tokens') == TagsIn(tokens) + if begin < finish && inTag then [Span(begin, finish)] else []
  {
    tokens', lineno' := tokens, lineno;
    if finish > begin {
      tokens' := tokens + [Token(begin, finish, lineno, inTag)];
      assert tokens'[..|tokens'| - 1] == tokens;
      lineno' := lineno + Count(source[begin..finish], '\n');
      assert source[..finish] == source[..begin] + source[begin..finish];
      CountConcat(source[..begin], source[begin..finish], '\n');
    }
  }

  /** What holds after `k` tags: everything up to `last` is tokenized. */
  ghost predicate Progress(s: string, tokens: seq<Token>, spans: seq<Span>, k: nat, last: nat, lineno: nat) {
    && k <= |spans| && last <= |s|
    && Tiles(s, tokens, last) && TextIsMaximal(tokens)
    && lineno == 1 + Count(s[..last], '\n')
    && TagsIn(tokens) == spans[..k]
    && InOrder(last, spans[k..])
    && (tokens != [] ==> tokens[|tokens| - 1].inTag)
  }

  /** Both pieces of one round: the text before a tag, then the tag. */
  method EmitRound(source: string, tokens: seq<Token>, ghost spans: seq<Span>, ghost k: nat,
                   tag: Span, last: nat, lineno: nat)
    returns (tokens': seq<Token>, lineno': nat)
    requires Progress(source, tokens, spans, k, last, lineno)
    requires k < |spans| && tag == spans[k] && tag.end <= |source|
    ensures Progress(source, tokens', spans, k + 1, tag.end, lineno')
  {
    hide TagsIn, Count;
    assert spans[k..][0] == tag && spans[k..][1..] == spans[k + 1..];
    tokens', lineno' := Emit(source, tokens, last, tag.start, lineno, false);
    tokens', lineno' := Emit(source, tokens', tag.start, tag.end, lineno', true);
    assert spans[..k + 1] == spans[..k] + [tag];
  }

  lemma AllTokensSpellTheSource(s: string, tokens: seq<Token>)
    requires Tiles(s, tokens, |s|)
    ensures Texts(s, tokens) == s
  {
    TokensSpellTheSource(s, tokens, |s|);
    assert s[..|s|] == s;
  }

  lemma StartsEmpty(s: string)
    ensures Tiles(s, [], 0) && TagsIn([]) == [] && Count(s[..0], '\n') == 0
  {
  }

  /** `_LinearLexer.tokenize`: text and tags alternate and only empty strings are skipped. */
  method Tokenize(source: string) returns (tokens: seq<Token>)
    ensures Tiles(source, tokens, |source|)
    ensures TagsIn(tokens) == NaiveTags(source, 0)
    ensures TextIsMaximal(tokens)
    ensures Texts(source, tokens) == source
  {
    hide Texts, Tiles, TagsIn, Count, NaiveTags, TagEnd, WorkFrom;
    var spans, _ := TagSpans(source);
    StartsEmpty(source);
    NaiveTagsInOrder(source, 0);
    tokens := [];
    var lineno: nat, last: nat, k := 1, 0, 0;
    while k < |spans|
      invariant Progress(source, tokens, spans, k, last, lineno)
    {
      assert spans[k] in spans;
      tokens, lineno := EmitRound(source, tokens, spans, k, spans[k], last, lineno);
      last, k := spans[k].end, k + 1;
    }
    assert spans[..k] == spans;
    tokens, lineno := Emit(source, tokens, last, |source|, lineno, false);
    AllTokensSpellTheSource(source, tokens);
  }
}

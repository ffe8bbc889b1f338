/**
  The scan of a rendered document for DTD and entity declarations. It jumps from one
  candidate to the next and reuses its delimiter searches; the definition it is proved
  against looks at every character and searches every delimiter afresh.
 */
module DeclarationScan {
  import opened Text
  import opened TemplateLexer

  datatype Block = Block(opening: string, closing: string)

  const COMMENT := Block("<!--", "-->")
  const CDATA := Block("<![CDATA[", "]]>")
  const INSTRUCTION := Block("<?", "?>")

  /** The block whose opening is at `i`, in the order of `IGNORED_BLOCKS`, if any. */
  function BlockAt(d: string, i: nat): (block: seq<Block>)
    ensures |block| <= 1
    ensures block != [] ==> MatchAt(d, block[0].opening, i) && 2 <= |block[0].opening|
    ensures block != [] ==> block[0].closing in {"-->", "]]>", "?>"}
  {
    if MatchAt(d, COMMENT.opening, i) then [COMMENT]
    else if MatchAt(d, CDATA.opening, i) then [CDATA]
    else if MatchAt(d, INSTRUCTION.opening, i) then [INSTRUCTION]
    else []
  }

  predicate DeclaresAt(d: string, i: nat) {
    MatchAt(d, "<!DOCTYPE", i) || MatchAt(d, "<!ENTITY", i)
  }

  /** The end of the block at `i`; an unclosed one reaches to the end of the document. */
  function BlockEnd(d: string, i: nat): (e: nat)
    requires BlockAt(d, i) != []
    ensures i < e <= |d|
  {
    var block := BlockAt(d, i)[0];
    var end := Find(d, block.closing, i + |block.opening|);
    if end < 0 then |d| else end + |block.closing|
  }

  /**
    Whether a declaration is spelled at or after `i`, outside comments, CDATA sections
    and processing instructions.
   */
  predicate ForbiddenFrom(d: string, i: nat)
    decreases |d| - i
  {
    if i >= |d| then false
    else if BlockAt(d, i) != [] then ForbiddenFrom(d, BlockEnd(d, i))
    else DeclaresAt(d, i) || ForbiddenFrom(d, i + 1)
  }

  /** `<!` or `<?`: every construct the scan acts on starts with one of them. */
  predicate CandidateAt(d: string, i: nat) {
    i + 1 < |d| && d[i] == '<' && (d[i + 1] == '!' || d[i + 1] == '?')
  }

  lemma CandidatesOnly(d: string, i: nat)
    requires BlockAt(d, i) != [] || DeclaresAt(d, i)
    ensures CandidateAt(d, i)
  {
    var marker :=
      if MatchAt(d, COMMENT.opening, i) then COMMENT.opening
      else if MatchAt(d, CDATA.opening, i) then CDATA.opening
      else if MatchAt(d, INSTRUCTION.opening, i) then INSTRUCTION.opening
      else if MatchAt(d, "<!DOCTYPE", i) then "<!DOCTYPE" else "<!ENTITY";
    assert MatchAt(d, marker, i);
    assert d[i..i + |marker|][0] == d[i] && d[i..i + |marker|][1] == d[i + 1];
  }

  /** A document that does not spell a declaration anywhere does not declare one. */
  lemma {:induction false} ForbiddenIsSpelled(d: string, i: nat)
    requires ForbiddenFrom(d, i)
    ensures Find(d, "<!DOCTYPE", 0) >= 0 || Find(d, "<!ENTITY", 0) >= 0
    decreases |d| - i
  {
    if BlockAt(d, i) != [] {
      ForbiddenIsSpelled(d, BlockEnd(d, i));
    } else if !DeclaresAt(d, i) {
      ForbiddenIsSpelled(d, i + 1);
    }
  }

  /** The next candidate from `i` on, or the end of the document. */
  function CandidateFrom(d: string, i: nat): (c: nat)
    requires i <= |d|
    ensures i <= c <= |d|
    ensures c < |d| ==> CandidateAt(d, c)
    decreases |d| - i
  {
    if i == |d| || CandidateAt(d, i) then i else CandidateFrom(d, i + 1)
  }

  /** The positions the candidate search tries from `i`. */
  function CandidateTried(d: string, i: nat): nat
    requires i <= |d|
  {
    CandidateFrom(d, i) - i + if CandidateFrom(d, i) < |d| then 1 else 0
  }

  /**
    The work of the loop from `index` on, when `memo` is what the closer searches left:
    one for each index it stops at, and every position that one of its searches tries.
   */
  function WorkFrom(d: string, index: nat, memo: map<string, int>): nat
    requires index <= |d|
    decreases |d| - index
  {
    if index == |d| then 0
    else if BlockAt(d, index) != [] then
      var block := BlockAt(d, index)[0];
      var from := index + |block.opening|;
      1 + Cost(d, memo, block.closing, from)
      + WorkFrom(d, BlockEnd(d, index), Remember(d, memo, block.closing, from))
    else if DeclaresAt(d, index) then 1
    else 1 + CandidateTried(d, index + 1) + WorkFrom(d, CandidateFrom(d, index + 1), memo)
  }

  predicate Spelled(d: string) {
    Find(d, "<!DOCTYPE", 0) >= 0 || Find(d, "<!ENTITY", 0) >= 0
  }

  /** The work of the whole function: the two tests it starts with, and the loop. */
  function WorkOf(d: string): nat {
    Tried(d, "<!DOCTYPE", 0)
    + (if Find(d, "<!DOCTYPE", 0) < 0 then Tried(d, "<!ENTITY", 0) else 0)
    + (if Spelled(d) then WorkFrom(d, 0, map[]) else 0)
  }

  function Rooms(d: string, memo: map<string, int>): nat {
    Room(d, memo, "-->") + Room(d, memo, "]]>") + Room(d, memo, "?>")
  }

  lemma AskedOnce(d: string, memo: map<string, int>, closing: string, start: nat)
    requires start <= |d| && closing in {"-->", "]]>", "?>"}
    ensures Cost(d, memo, closing, start) + Rooms(d, Remember(d, memo, closing, start)) <= Rooms(d, memo)
  {
    SearchedOnce(d, memo, closing, start);
    hide Cost, Remember, Room;
  }

  lemma WorkAtTheEnd(d: string, memo: map<string, int>)
    ensures WorkFrom(d, |d|, memo) == 0
  {
  }

  lemma WorkOfOneStep(d: string, index: nat, memo: map<string, int>)
    requires index < |d|
    ensures BlockAt(d, index) != [] ==>
              var block := BlockAt(d, index)[0];
              var from := index + |block.opening|;
              WorkFrom(d, index, memo)
              == 1 + Cost(d, memo, block.closing, from)
                 + WorkFrom(d, BlockEnd(d, index), Remember(d, memo, block.closing, from))
    ensures BlockAt(d, index) == [] ==>
              WorkFrom(d, index, memo)
              <= 1 + CandidateTried(d, index + 1) + WorkFrom(d, CandidateFrom(d, index + 1), memo)
  {
    hide BlockAt, BlockEnd, CandidateFrom, DeclaresAt, Cost, Remember, Find;
  }

  /** The rest of the loop tries each index twice at most, and what room the closers have left. */
  lemma {:induction false} RestIsLinear(d: string, index: nat, memo: map<string, int>)
    requires index <= |d|
    ensures WorkFrom(d, index, memo) <= 2 * (|d| - index) + Rooms(d, memo)
    decreases |d| - index
  {
    hide WorkFrom, Cost, Remember, Rooms, BlockAt, BlockEnd, CandidateFrom, DeclaresAt;
    if index == |d| {
      WorkAtTheEnd(d, memo);
    } else {
      WorkOfOneStep(d, index, memo);
      if BlockAt(d, index) != [] {
        var block := BlockAt(d, index)[0];
        var from := index + |block.opening|;
        AskedOnce(d, memo, block.closing, from);
        RestIsLinear(d, BlockEnd(d, index), Remember(d, memo, block.closing, from));
      } else {
        RestIsLinear(d, CandidateFrom(d, index + 1), memo);
      }
    }
  }

  /** The whole scan tries seven positions per character, and five more. */
  lemma WorkIsLinear(d: string)
    ensures WorkOf(d) <= 7 * |d| + 5
  {
    hide WorkFrom, Tried, Find;
    RestIsLinear(d, 0, map[]);
  }

  /** `_XML_CANDIDATE.search(document, start)`; `steps` counts the positions it tries. */
  method SearchCandidate(d: string, start: nat) returns (following: nat, ghost steps: nat)
    requires start <= |d|
    ensures following == CandidateFrom(d, start) && steps == CandidateTried(d, start)
    ensures ForbiddenFrom(d, start) == ForbiddenFrom(d, following)
  {
    following, steps := start, 0;
    while following < |d| && !CandidateAt(d, following)
      invariant start <= following <= |d| && steps == following - start
      invariant CandidateFrom(d, start) == CandidateFrom(d, following)
      invariant ForbiddenFrom(d, start) == ForbiddenFrom(d, following)
    {
      if BlockAt(d, following) != [] || DeclaresAt(d, following) {
        CandidatesOnly(d, following);
      }
      following, steps := following + 1, steps + 1;
    }
    if following < |d| {
      steps := steps + 1;
    }
  }

  ghost predicate Ready(find: ForwardFind, d: string, index: nat)
    reads find
  {
    && find.Valid() && find.document == d
    && forall m | m in find.asked :: find.asked[m] <= index
  }

  /** Where the scan goes on behind the block at `index`. */
  method SkipBlock(find: ForwardFind, d: string, index: nat, block: Block) returns (next: nat)
    requires Ready(find, d, index) && index < |d| && BlockAt(d, index) == [block]
    modifies find
    ensures next == BlockEnd(d, index) && Ready(find, d, next)
    ensures find.positions == Remember(d, old(find.positions), block.closing, index + |block.opening|)
    ensures find.examined
            == old(find.examined) + Cost(d, old(find.positions), block.closing, index + |block.opening|)
  {
    hide Find, Remember, Cost, BlockAt;
    var end := find.FindNext(block.closing, index + |block.opening|);
    next := if end < 0 then |d| else end + |block.closing|;
  }

  /** What is left to do after a step. */
  ghost function Rest(find: ForwardFind, d: string, index: nat, found: bool): nat
    requires index <= |d|
    reads find
  {
    if found then 0 else WorkFrom(d, index, find.positions)
  }

  /** One step of the loop: a block, a declaration, or a jump to the next candidate. */
  method Step(find: ForwardFind, d: string, index: nat) returns (found: bool, next: nat, ghost steps: nat)
    requires Ready(find, d, index) && index < |d|
    modifies find
    ensures index < next <= |d| && Ready(find, d, next)
    ensures ForbiddenFrom(d, index) == (found || ForbiddenFrom(d, next))
    ensures steps + find.examined + Rest(find, d, next, found)
            == old(find.examined) + WorkFrom(d, index, old(find.positions))
  {
    hide Find, Remember, Cost, CandidateFrom;
    found, steps := false, 1;
    var block := BlockAt(d, index);
    if block != [] {
      next := SkipBlock(find, d, index, block[0]);
    } else if DeclaresAt(d, index) {
      found, next := true, index + 1;
    } else {
      ghost var tried;
      next, tried := SearchCandidate(d, index + 1);
      steps := steps + tried;
    }
  }

  /**
    `_contains_forbidden_declaration` of a rendered document. `work` is the sum of the
    indices it stops at and the positions that its substring tests, its candidate search
    and the searches of the three closers try.
   */
  method ContainsForbiddenDeclaration(d: string) returns (found: bool, ghost work: nat)
    ensures found == ForbiddenFrom(d, 0)
    ensures work == WorkOf(d)
    ensures work <= 7 * |d| + 5
  {
    WorkIsLinear(d);
    work := Tried(d, "<!DOCTYPE", 0) + if Find(d, "<!DOCTYPE", 0) < 0 then Tried(d, "<!ENTITY", 0) else 0;
    if Find(d, "<!DOCTYPE", 0) < 0 && Find(d, "<!ENTITY", 0) < 0 {
      if ForbiddenFrom(d, 0) {
        ForbiddenIsSpelled(d, 0);
      }
      return false, work;
    }
    var find := new ForwardFind(d);
    var index: nat := 0;
    ghost var tried: nat := 0;
    found := false;
    while index < |d| && !found
      invariant index <= |d|
      invariant fresh(find) && Ready(find, d, index)
      invariant ForbiddenFrom(d, 0) == (found || ForbiddenFrom(d, index))
      invariant tried + find.examined + Rest(find, d, index, found) == WorkFrom(d, 0, map[])
      decreases |d| - index
    {
      hide Find, Remember, Cost, Tried, Ready;
      ghost var step: nat;
      found, index, step := Step(find, d, index);
      tried := tried + step;
    }
    work := work + tried + find.examined;
  }
}

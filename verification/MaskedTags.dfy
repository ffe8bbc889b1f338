/**
  Which marker stands for which tag in the masked document, and where.
 */
module MaskedTags {
  import opened MaskedSource
  import opened Splicing
  import opened Text
  import opened Wrappers

  // ---------------------------------------------------------------------------
  // The XML context from the literal text
  // ---------------------------------------------------------------------------

  /** The state behind pieces of literal text, read one after the other. */
  function Read(texts: seq<string>, state: Xml): Xml {
    if texts == [] then state else Read(texts[1..], StateAfter(texts[0], state, 0))
  }

  lemma MatchShifts(a: string, b: string, w: string, k: nat)
    ensures MatchAt(a + b, w, |a| + k) <==> MatchAt(b, w, k)
  {
    if k + |w| <= |b| {
      assert (a + b)[|a| + k..|a| + k + |w|] == b[k..k + |w|];
    }
  }

  /** What is read does not depend on what is in front of it. */
  lemma {:induction false} StateShifts(a: string, b: string, state: Xml, k: nat)
    ensures StateAfter(a + b, state, |a| + k) == StateAfter(b, state, k)
    decreases |b| - k
  {
    hide MatchAt;
    if k < |b| {
      if state == InText {
        MatchShifts(a, b, "<!--", k);
        MatchShifts(a, b, "<![CDATA[", k);
        MatchShifts(a, b, "<?", k);
        var (next, n) := if b[k] == '<' then Begins(b, k) else (InText, 1);
        StateShifts(a, b, next, k + n);
      } else if state == InTag {
        StateShifts(a, b, InTagNext(b[k]), k + 1);
      } else {
        MatchShifts(a, b, Closer(state), k);
        if MatchAt(b, Closer(state), k) {
          StateShifts(a, b, AfterCloser(state), k + |Closer(state)|);
        } else {
          StateShifts(a, b, state, k + 1);
        }
      }
    }
  }

  lemma StateOfPart(s: string, state: Xml, p: nat, e: nat)
    requires p <= e <= |s|
    ensures StateAfter(s[..e], state, p) == StateAfter(s[p..e], state, 0)
  {
    assert s[..e] == s[..p] + s[p..e];
    StateShifts(s[..p], s[p..e], state, 0);
  }

  // ---------------------------------------------------------------------------
  // Where a token stands in the masked document
  // ---------------------------------------------------------------------------

  /** From token number `j` on, token number `i` is not inside a comment or a verbatim block. */
  predicate Reached(tokens: seq<Token>, j: nat, i: nat)
    requires j <= i < |tokens|
    decreases i - j
  {
    i == j || (Treat(tokens, j).0 <= i && Reached(tokens, Treat(tokens, j).0, i))
  }

  /** The literal text between them, token by token. */
  function Literals(content: string, tokens: seq<Token>, j: nat, i: nat): seq<string>
    requires Tiles(tokens, content) && j <= i < |tokens| && Reached(tokens, j, i)
    decreases i - j
  {
    assert TileAt(tokens, j, content);
    if i == j then []
    else
      (if tokens[j].kind == TextToken then [content[tokens[j].start..tokens[j].end]] else [])
      + Literals(content, tokens, Treat(tokens, j).0, i)
  }

  predicate Stands(out: string, at: nat, text: string) {
    at + |text| <= |out| && out[at..at + |text|] == text
  }

  /** What is masked is as long as the source and its markers. */
  lemma {:induction false} MaskedLength(content: string, tokens: seq<Token>, i: nat, state: Xml, m: Markers)
    requires Tiles(tokens, content) && i <= |tokens|
    ensures |MaskedFrom(content, tokens, i, state, m)|
            == |content| - Start(content, tokens, i) + MarkerLength(content, tokens, i, state, m)
    decreases |tokens| - i
  {
    if i < |tokens| {
      StartGrows(content, tokens, i, Treat(tokens, i).0);
      MaskedLength(content, tokens, Treat(tokens, i).0, NextState(content, tokens, i, state), m);
    }
  }

  lemma ReadNext(content: string, tokens: seq<Token>, j: nat, i: nat, state: Xml)
    requires Tiles(tokens, content) && j < i < |tokens| && Reached(tokens, j, i)
    ensures var next := Treat(tokens, j).0;
            && next <= i && Reached(tokens, next, i)
            && Read(Literals(content, tokens, j, i), state)
               == Read(Literals(content, tokens, next, i), NextState(content, tokens, j, state))
  {
    assert TileAt(tokens, j, content);
    var next := Treat(tokens, j).0;
    var more := Literals(content, tokens, next, i);
    if tokens[j].kind == TextToken {
      var text := content[tokens[j].start..tokens[j].end];
      StateOfPart(content, state, tokens[j].start, tokens[j].end);
      assert ([text] + more)[1..] == more;
    } else {
      assert [] + more == more;
    }
  }

  lemma StandsBehind(a: string, b: string, at: nat, text: string)
    requires Stands(b, at, text)
    ensures Stands(a + b, |a| + at, text)
  {
    assert (a + b)[|a| + at..|a| + at + |text|] == b[at..at + |text|];
  }

  lemma FirstPieceStands(content: string, tokens: seq<Token>, i: nat, state: Xml, m: Markers)
    requires Tiles(tokens, content) && i < |tokens|
    ensures MaskedFrom(content, tokens, i, state, m)
            == MaskedPiece(content, tokens, i, state, m)
               + MaskedFrom(content, tokens, Treat(tokens, i).0, NextState(content, tokens, i, state), m)
    ensures Stands(MaskedFrom(content, tokens, i, state, m), 0, MaskedPiece(content, tokens, i, state, m))
    ensures Reached(tokens, i, i) && Literals(content, tokens, i, i) == [] && Read([], state) == state
  {
    hide MaskedPiece, NextState, Treat, Tiles;
  }

  /** A token that is reached is masked in the state that the literal text before it leads to. */
  lemma {:induction false} ReachedIsMasked(content: string, tokens: seq<Token>, j: nat, i: nat, state: Xml, m: Markers)
    returns (at: nat)
    requires Tiles(tokens, content) && j <= i < |tokens| && Reached(tokens, j, i)
    ensures var here := Read(Literals(content, tokens, j, i), state);
            && Stands(MaskedFrom(content, tokens, j, state, m), at, MaskedPiece(content, tokens, i, here, m))
            && |MaskedFrom(content, tokens, j, state, m)| == at + |MaskedFrom(content, tokens, i, here, m)|
    decreases i - j
  {
    hide Literals, Read, NextState, MaskedFrom, MaskedPiece, Tiles, Reached, Stands, Treat;
    FirstPieceStands(content, tokens, j, state, m);
    if i == j {
      at := 0;
    } else {
      var next, after := Treat(tokens, j).0, NextState(content, tokens, j, state);
      ReadNext(content, tokens, j, i, state);
      at := ReachedIsMasked(content, tokens, next, i, after, m);
      StandsBehind(MaskedPiece(content, tokens, j, state, m), MaskedFrom(content, tokens, next, after, m), at,
                   MaskedPiece(content, tokens, i, Read(Literals(content, tokens, j, i), state), m));
      at := |MaskedPiece(content, tokens, j, state, m)| + at;
    }
  }

  // ---------------------------------------------------------------------------
  // What a token becomes
  // ---------------------------------------------------------------------------

  predicate IsEndComment(token: Token) { token.kind == BlockTag && token.contents == "endcomment" }

  /** A comment tag that is closed somewhere behind. */
  ghost predicate ClosedComment(tokens: seq<Token>, i: nat)
    requires i < |tokens|
  {
    && tokens[i].kind == BlockTag && tokens[i].command == "comment"
    && exists k :: i < k < |tokens| && IsEndComment(tokens[k])
  }

  predicate Verbatim(token: Token) {
    && token.kind == BlockTag && token.command != "comment"
    && (token.contents == "verbatim" || "verbatim " <= token.contents)
  }

  /** Neither literal text nor a tag that is only blanked: the token gets a marker. */
  ghost predicate RendersOutput(tokens: seq<Token>, i: nat)
    requires i < |tokens|
  {
    || tokens[i].kind == Variable
    || (tokens[i].kind == BlockTag && tokens[i].command != "load" && !ClosedComment(tokens, i) && !Verbatim(tokens[i]))
  }

  /** The last token of what is blanked together from token number `i` on. */
  ghost predicate BlankedUpTo(tokens: seq<Token>, i: nat, e: nat)
    requires i < |tokens|
  {
    i <= e < |tokens| &&
    if ClosedComment(tokens, i) then
      i < e && IsEndComment(tokens[e]) && forall k | i < k < e :: !IsEndComment(tokens[k])
    else if Verbatim(tokens[i]) then
      && (forall k | i < k < e :: tokens[k].kind == TextToken)
      && (e == i ==> i == |tokens| - 1)
      && (e > i && tokens[e].kind == TextToken ==> e == |tokens| - 1)
    else e == i
  }

  lemma TreatmentIs(tokens: seq<Token>, i: nat)
    requires i < |tokens|
    ensures var (next, how) := Treat(tokens, i);
            && (how == Kept <==> tokens[i].kind == TextToken)
            && (how == Marked <==> RendersOutput(tokens, i))
            && (how == Marked || how == Kept ==> next == i + 1)
            && (how == Blank ==> BlankedUpTo(tokens, i, next - 1))
  {
    if tokens[i].kind == BlockTag && tokens[i].command == "comment" {
      var j := EndComment(tokens, i + 1);
      assert ClosedComment(tokens, i) <==> j < |tokens| by {
        if j < |tokens| {
          assert IsEndComment(tokens[j]);
        }
      }
    }
  }

  predicate Quoted(state: Xml) { state == DoubleQuoted || state == SingleQuoted }

  /**
    The marker of a variable or a block tag, by the XML around it: `value` where it cannot
    change the structure, which is in a quoted attribute, for a variable in text that is
    not marked safe, and for the nine tags that render a scalar.
   */
  predicate GetsValue(token: Token, state: Xml) {
    || Quoted(state)
    || (token.kind == Variable && state != InTag && !token.safe)
    || (token.kind == BlockTag && token.command in {
          "blocktranslate", "endblocktranslate", "firstof", "now", "static", "trans", "translate", "url", "widthratio"})
  }

  lemma MarkerIs(token: Token, state: Xml, m: Markers)
    requires token.kind == Variable || token.kind == BlockTag
    ensures MarkerFor(token, state, m) == if GetsValue(token, state) then m.value else m.structure
  {
  }

  lemma SpanIs(content: string, tokens: seq<Token>, i: nat) returns (e: nat)
    requires Tiles(tokens, content) && i < |tokens|
    ensures e == Treat(tokens, i).0 - 1 && tokens[i].start < tokens[i].end <= tokens[e].end <= |content|
    ensures Piece(content, tokens, i) == content[tokens[i].start..tokens[e].end]
  {
    var next := Treat(tokens, i).0;
    e := next - 1;
    assert TileAt(tokens, i, content);
    StartGrows(content, tokens, i, next);
    if i < e {
      StartGrows(content, tokens, i + 1, next);
    }
    hide Treat, Tiles;
  }

  lemma PieceIs(content: string, tokens: seq<Token>, i: nat, state: Xml, m: Markers) returns (e: nat)
    requires Tiles(tokens, content) && i < |tokens|
    ensures tokens[i].start < tokens[i].end <= |content|
    ensures var token, piece := tokens[i], MaskedPiece(content, tokens, i, state, m);
            var span := content[token.start..token.end];
            && (token.kind == TextToken ==> piece == span)
            && (RendersOutput(tokens, i) ==>
                  piece == (if GetsValue(token, state) then m.value else m.structure) + Blanked(span))
            && (token.kind != TextToken && !RendersOutput(tokens, i) ==>
                  && BlankedUpTo(tokens, i, e) && token.start <= tokens[e].end <= |content|
                  && piece == Blanked(content[token.start..tokens[e].end]))
  {
    e := SpanIs(content, tokens, i);
    TreatmentIs(tokens, i);
    KindOfMarked(tokens, i);
    var blanks := Blanked(Piece(content, tokens, i));
    assert "" + blanks == blanks;
    hide Treat, RendersOutput, BlankedUpTo, Tiles, Piece, Start, MarkerFor, GetsValue, Blanked;
    if RendersOutput(tokens, i) {
      MarkerIs(tokens[i], state, m);
    }
  }

  lemma KindOfMarked(tokens: seq<Token>, i: nat)
    requires i < |tokens|
    ensures RendersOutput(tokens, i) ==> tokens[i].kind == Variable || tokens[i].kind == BlockTag
  {
  }

  /**
    What stands in the masked document for a token that no comment and no verbatim block
    holds: literal text as it is; one marker in front of the blanks for a token that
    renders output; and blanks alone for all others.
   */
  lemma TagsAreMasked(content: string, tokens: seq<Token>, i: nat, m: Markers) returns (at: nat)
    requires Tiles(tokens, content) && i < |tokens| && Reached(tokens, 0, i)
    ensures tokens[i].start < tokens[i].end <= |content|
    ensures var out, token := MaskedFrom(content, tokens, 0, InText, m), tokens[i];
            var span, here := content[token.start..token.end], Read(Literals(content, tokens, 0, i), InText);
            && |out| == at + (|content| - token.start) + MarkerLength(content, tokens, i, here, m)
            && (token.kind == TextToken ==> Stands(out, at, span))
            && (RendersOutput(tokens, i) ==>
                  Stands(out, at, (if GetsValue(token, here) then m.value else m.structure) + Blanked(span)))
            && (token.kind != TextToken && !RendersOutput(tokens, i) ==>
                  exists e: nat :: && BlankedUpTo(tokens, i, e) && token.start <= tokens[e].end <= |content|
                              && Stands(out, at, Blanked(content[token.start..tokens[e].end])))
  {
    var here := Read(Literals(content, tokens, 0, i), InText);
    var e := PieceIs(content, tokens, i, here, m);
    at := ReachedIsMasked(content, tokens, 0, i, InText, m);
    MaskedLength(content, tokens, i, here, m);
    assert Start(content, tokens, i) == tokens[i].start by {
      assert TileAt(tokens, i, content);
    }
    hide Read, Literals, MaskedFrom, MaskedPiece, MarkerLength, RendersOutput, BlankedUpTo, Tiles, Stands;
  }

  // ---------------------------------------------------------------------------
  // What literal text leads to
  // ---------------------------------------------------------------------------

  /** In a tag, outside of quotes. */
  predicate InsideTag(s: string) { forall k | 0 <= k < |s| :: s[k] != '>' && s[k] != '"' && s[k] != '\'' }

  predicate Lacks(s: string, c: char) { forall k | 0 <= k < |s| :: s[k] != c }

  /** Text, tags and quoted attributes: what begins and what ends them. */
  lemma LiteralTextLeadsTo(a: string, b: string, q: char, c: string)
    requires Lacks(a, '<') && InsideTag(b) && (q == '"' || q == '\'') && Lacks(c, q)
    ensures StateAfter(a, InText, 0) == InText
    ensures !MatchAt("<" + b, "<!--", 0) && !MatchAt("<" + b, "<![CDATA[", 0) && !MatchAt("<" + b, "<?", 0) ==>
              StateAfter("<" + b, InText, 0) == InTag
    ensures StateAfter(b + (">" + a), InTag, 0) == InText
    ensures var quoted := if q == '"' then DoubleQuoted else SingleQuoted;
            StateAfter(b + ([q] + c), InTag, 0) == quoted && StateAfter(c + ([q] + b), quoted, 0) == InTag
  {
    var quoted := if q == '"' then DoubleQuoted else SingleQuoted;
    StateStays(a, InText, 0, |a|);
    StateStays(b, InTag, 0, |b|);
    NoCloser(c, q);
    StateStays(c, quoted, 0, |c|);
    StateShifts("<", b, InTag, 0);
    Then(b, '>', a, InText);
    Then(b, q, c, quoted);
    StateStays(b + (">" + a), InTag, 0, |b|);
    StateStays(b + ([q] + c), InTag, 0, |b|);
    NoCloserBehind(c, q, b);
    StateStays(c + ([q] + b), quoted, 0, |c|);
    Then(c, q, b, InTag);
  }

  /** Behind a character, whatever is in front of it. */
  lemma Then(a: string, c: char, b: string, next: Xml)
    ensures StateAfter(a + ([c] + b), next, |a| + 1) == StateAfter(b, next, 0)
    ensures (a + ([c] + b))[|a|] == c && MatchAt(a + ([c] + b), [c], |a|)
  {
    var s := a + ([c] + b);
    assert s == (a + [c]) + b && |a + [c]| == |a| + 1;
    StateShifts(a + [c], b, next, 0);
    assert s[|a|..|a| + 1] == [c];
    hide StateAfter;
  }

  lemma NoCloser(c: string, q: char)
    requires Lacks(c, q)
    ensures forall k: nat :: !MatchAt(c, [q], k)
  {
    forall k: nat ensures !MatchAt(c, [q], k) {
      if k < |c| {
        assert c[k..k + 1] == [c[k]];
      }
    }
  }

  lemma NoCloserBehind(c: string, q: char, b: string)
    requires Lacks(c, q)
    ensures forall k: nat | k < |c| :: !MatchAt(c + ([q] + b), [q], k)
  {
    forall k: nat | k < |c| ensures !MatchAt(c + ([q] + b), [q], k) {
      assert (c + ([q] + b))[k..k + 1] == [c[k]];
    }
  }

  /** Comments, CDATA sections and processing instructions: their openings and their ends. */
  predicate Section(open: string, end: string, state: Xml) {
    || (open == "<!--" && end == "-->" && state == InComment)
    || (open == "<![CDATA[" && end == "]]>" && state == InCdata)
    || (open == "<?" && end == "?>" && state == InInstruction)
  }

  lemma Differs(s: string, w: string, k: nat)
    requires k < |w| && k < |s| && s[k] != w[k]
    ensures !MatchAt(s, w, 0)
  {
    if |w| <= |s| {
      assert s[0..|w|][k] == s[k];
    }
  }

  lemma SectionBegins(open: string, end: string, state: Xml, d: string)
    requires Section(open, end, state)
    ensures Closer(state) == end && AfterCloser(state) == InText
    ensures StateAfter(open + d, InText, 0) == StateAfter(d, state, 0)
  {
    var s := open + d;
    assert s[0..|open|] == open;
    if open == "<?" {
      Differs(s, "<!--", 1);
      Differs(s, "<![CDATA[", 1);
    } else if open == "<![CDATA[" {
      Differs(s, "<!--", 2);
    }
    StateShifts(open, d, state, 0);
  }

  lemma SectionEnds(end: string, state: Xml, d: string, a: string)
    requires state != InText && state != InTag && Closer(state) == end && AfterCloser(state) == InText && Lacks(a, '<')
    requires forall k: nat | k < |d| :: !MatchAt(d + (end + a), end, k)
    ensures StateAfter(d + (end + a), state, 0) == InText
  {
    var s := d + (end + a);
    StateStays(s, state, 0, |d|);
    assert s == (d + end) + a && |d + end| == |d| + |end|;
    StateShifts(d + end, a, InText, 0);
    StateStays(a, InText, 0, |a|);
    AtEnd(s, end, state, |d|);
    assert s[|d|..|d| + |end|] == end;
    hide StateAfter, Closer;
  }

  lemma AtEnd(s: string, end: string, state: Xml, p: nat)
    requires state != InText && state != InTag && Closer(state) == end && AfterCloser(state) == InText
    ensures MatchAt(s, end, p) ==> StateAfter(s, state, p) == StateAfter(s, InText, p + |end|)
  {
  }

  lemma SectionsLeadTo(open: string, end: string, state: Xml, d: string, a: string)
    requires Section(open, end, state) && Lacks(a, '<')
    ensures !Occurs(d, end) ==> StateAfter(open + d, InText, 0) == state
    ensures (forall k: nat | k < |d| :: !MatchAt(d + (end + a), end, k)) ==> StateAfter(d + (end + a), state, 0) == InText
  {
    SectionBegins(open, end, state, d);
    hide StateAfter, MatchAt;
    if !Occurs(d, end) {
      StateStays(d, state, 0, |d|);
      NothingLeft(d, state, |d|);
    }
    if forall k: nat | k < |d| :: !MatchAt(d + (end + a), end, k) {
      SectionEnds(end, state, d, a);
    }
  }
}

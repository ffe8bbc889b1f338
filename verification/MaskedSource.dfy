/**
  The masked document of the static check: Django tags give way to blanks and markers, and
  XML declarations to blanks, without moving a line.
 */
module MaskedSource {
  import opened Text
  import opened Splicing
  import Decimal
  import Marker
  import opened Wrappers

  const MASK_FACTOR := 4

  // ---------------------------------------------------------------------------
  // The XML around a tag
  // ---------------------------------------------------------------------------

  datatype Xml = InText | InTag | DoubleQuoted | SingleQuoted | InComment | InCdata | InInstruction

  function Closer(state: Xml): (c: string)
    requires state != InText && state != InTag
    ensures c != ""
  {
    match state
    case DoubleQuoted => "\""
    case SingleQuoted => "'"
    case InComment => "-->"
    case InCdata => "]]>"
    case InInstruction => "?>"
  }

  function AfterCloser(state: Xml): Xml {
    if state == DoubleQuoted || state == SingleQuoted then InTag else InText
  }

  /** What a `<` in text begins, and the length of its opening. */
  function Begins(s: string, p: nat): (Xml, nat) {
    if MatchAt(s, "<!--", p) then (InComment, 4)
    else if MatchAt(s, "<![CDATA[", p) then (InCdata, 9)
    else if MatchAt(s, "<?", p) then (InInstruction, 2)
    else (InTag, 1)
  }

  /** What a character in a tag leads to. */
  function InTagNext(c: char): Xml {
    if c == '>' then InText else if c == '"' then DoubleQuoted else if c == '\'' then SingleQuoted else InTag
  }

  /** The state after the text from `p` on, read character by character. */
  function StateAfter(s: string, state: Xml, p: nat): Xml
    decreases |s| - p
  {
    if p >= |s| then state
    else if state == InText then
      if s[p] == '<' then StateAfter(s, Begins(s, p).0, p + Begins(s, p).1) else StateAfter(s, InText, p + 1)
    else if state == InTag then StateAfter(s, InTagNext(s[p]), p + 1)
    else if MatchAt(s, Closer(state), p) then StateAfter(s, AfterCloser(state), p + |Closer(state)|)
    else StateAfter(s, state, p + 1)
  }

  /** Where nothing begins or ends, the state stays. */
  lemma {:induction false} StateStays(s: string, state: Xml, p: nat, q: nat)
    requires p <= q <= |s|
    requires state == InText ==> forall k | p <= k < q :: s[k] != '<'
    requires state == InTag ==> forall k | p <= k < q :: InTagNext(s[k]) == InTag
    requires state != InText && state != InTag ==> forall k: nat | p <= k < q :: !MatchAt(s, Closer(state), k)
    ensures StateAfter(s, state, p) == StateAfter(s, state, q)
    decreases q - p
  {
    if p < q {
      StateStays(s, state, p + 1, q);
    }
  }

  /** The first character of `'`, `"` and `>` from `p` on, or the end. */
  function Delimiter(s: string, p: nat): (q: nat)
    requires p <= |s|
    ensures p <= q <= |s| && (forall k | p <= k < q :: InTagNext(s[k]) == InTag)
    ensures q < |s| ==> InTagNext(s[q]) != InTag
    decreases |s| - p
  {
    if p == |s| || InTagNext(s[p]) != InTag then p else Delimiter(s, p + 1)
  }

  lemma FindsOpening(s: string, p: nat)
    requires p <= |s|
    ensures var found := Find(s, "<", p);
            var q := if found < 0 then |s| else found;
            p <= q <= |s| && (forall k | p <= k < q :: s[k] != '<') && (found >= 0 ==> q < |s| && s[q] == '<')
  {
    var found := Find(s, "<", p);
    var q := if found < 0 then |s| else found;
    forall k | p <= k < q ensures s[k] != '<' {
      assert !MatchAt(s, "<", k);
      assert s[k..k + 1] == [s[k]];
    }
    assert found >= 0 ==> s[q..q + 1] == "<";
  }

  /** A jump to the next delimiter, and over it. */
  lemma JumpsInText(s: string, p: nat)
    requires p <= |s|
    ensures var found := Find(s, "<", p);
            StateAfter(s, InText, p) ==
            if found < 0 then InText else StateAfter(s, Begins(s, found).0, found + Begins(s, found).1)
  {
    FindsOpening(s, p);
    var found := Find(s, "<", p);
    StateStays(s, InText, p, if found < 0 then |s| else found);
  }

  lemma JumpsInTag(s: string, p: nat)
    requires p <= |s|
    ensures var q := Delimiter(s, p);
            StateAfter(s, InTag, p) == if q == |s| then InTag else StateAfter(s, InTagNext(s[q]), q + 1)
  {
    StateStays(s, InTag, p, Delimiter(s, p));
  }

  lemma JumpsToCloser(s: string, state: Xml, p: nat)
    requires p <= |s| && state != InText && state != InTag
    ensures var found := Find(s, Closer(state), p);
            StateAfter(s, state, p) ==
            if found < 0 then state else StateAfter(s, AfterCloser(state), found + |Closer(state)|)
  {
    var found := Find(s, Closer(state), p);
    StateStays(s, state, p, if found < 0 then |s| else found);
  }

  /** `_advance_xml_state`, for the text up to its end: it jumps from one delimiter to the next. */
  method AdvanceXmlState(s: string, start: Xml, from: nat) returns (state: Xml)
    requires from <= |s|
    ensures state == StateAfter(s, start, from)
  {
    hide StateAfter, Find, MatchAt;
    state := start;
    var p := from;
    while p < |s|
      invariant StateAfter(s, state, p) == StateAfter(s, start, from)
      decreases |s| - p
    {
      if state == InText {
        JumpsInText(s, p);
        var found := Find(s, "<", p);
        if found < 0 {
          return;
        }
        state, p := Begins(s, found).0, found + Begins(s, found).1;
      } else if state == InTag {
        JumpsInTag(s, p);
        var q := Delimiter(s, p);
        if q == |s| {
          return;
        }
        state, p := InTagNext(s[q]), q + 1;
      } else {
        JumpsToCloser(s, state, p);
        var found := Find(s, Closer(state), p);
        if found < 0 {
          return;
        }
        state, p := AfterCloser(state), found + |Closer(state)|;
      }
    }
    NothingLeft(s, state, p);
  }

  lemma NothingLeft(s: string, state: Xml, p: nat)
    requires |s| <= p
    ensures StateAfter(s, state, p) == state
  {
  }

  // ---------------------------------------------------------------------------
  // Blanks
  // ---------------------------------------------------------------------------

  /** `_blank_preserving_lines` without a marker. */
  function Blanked(s: string): (b: string)
    ensures |b| == |s| && forall k | 0 <= k < |s| :: b[k] == if s[k] == '\n' then '\n' else ' '
  {
    if s == "" then "" else [if s[0] == '\n' then '\n' else ' '] + Blanked(s[1..])
  }

  lemma {:induction false} BlankedMeasures(s: string)
    ensures Count(Blanked(s), '\n') == Count(s, '\n') && Bytes(Blanked(s)) <= Bytes(s)
  {
    if s != "" {
      BlankedMeasures(s[1..]);
      assert Blanked(s)[1..] == Blanked(s[1..]);
    }
  }

  predicate Ascii(s: string) { forall k | 0 <= k < |s| :: s[k] < '\U{80}' }

  lemma {:induction false} AsciiBytes(s: string)
    requires Ascii(s)
    ensures Bytes(s) == |s|
  {
    if s != "" {
      AsciiBytes(s[1..]);
    }
  }

  predicate OneLiner(s: string) { forall k | 0 <= k < |s| :: s[k] != '\n' }

  lemma {:induction false} OneLinerHasNoLines(s: string)
    requires OneLiner(s)
    ensures Count(s, '\n') == 0
  {
    if s != "" {
      OneLinerHasNoLines(s[1..]);
    }
  }

  // ---------------------------------------------------------------------------
  // Masking
  // ---------------------------------------------------------------------------

  datatype Kind = TextToken | Variable | BlockTag | Comment

  /** A token of Django's lexer. `command` is the first word of a block tag. */
  datatype Token = Token(kind: Kind, start: nat, end: nat, contents: string, command: string, safe: bool)

  ghost predicate TileAt(tokens: seq<Token>, i: nat, content: string)
    requires i < |tokens|
  {
    tokens[i].start < tokens[i].end <= |content| && tokens[i].start == if i == 0 then 0 else tokens[i - 1].end
  }

  /** The tokens tile the source. */
  ghost predicate Tiles(tokens: seq<Token>, content: string) {
    && (forall i: nat | i < |tokens| :: TileAt(tokens, i, content))
    && (if tokens == [] then content == "" else tokens[|tokens| - 1].end == |content|)
  }

  /** The first `{% endcomment %}` from number `i` on, or the number of tokens. */
  function EndComment(tokens: seq<Token>, i: nat): (j: nat)
    requires i <= |tokens|
    ensures i <= j <= |tokens|
    ensures j < |tokens| ==> tokens[j].kind == BlockTag && tokens[j].contents == "endcomment"
    ensures forall k | i <= k < j :: !(tokens[k].kind == BlockTag && tokens[k].contents == "endcomment")
    decreases |tokens| - i
  {
    if i == |tokens| || (tokens[i].kind == BlockTag && tokens[i].contents == "endcomment") then i
    else EndComment(tokens, i + 1)
  }

  /** The first token from number `i` on that is no text, or the number of tokens. */
  function NextTag(tokens: seq<Token>, i: nat): (j: nat)
    requires i <= |tokens|
    ensures i <= j <= |tokens| && (forall k | i <= k < j :: tokens[k].kind == TextToken)
    ensures j < |tokens| ==> tokens[j].kind != TextToken
    decreases |tokens| - i
  {
    if i == |tokens| || tokens[i].kind != TextToken then i else NextTag(tokens, i + 1)
  }

  predicate OpensVerbatim(contents: string) {
    contents == "verbatim" || "verbatim " <= contents
  }

  /** What becomes of the tokens from number `i` on: the number behind them, and how they are masked. */
  datatype Treatment = Kept | Blank | Marked

  function Treat(tokens: seq<Token>, i: nat): (r: (nat, Treatment))
    requires i < |tokens|
    ensures i < r.0 <= |tokens|
    ensures r.1 == Kept <==> tokens[i].kind == TextToken
  {
    var token := tokens[i];
    if token.kind == TextToken then (i + 1, Kept)
    else if token.kind == BlockTag && token.command == "comment" && EndComment(tokens, i + 1) < |tokens| then
      (EndComment(tokens, i + 1) + 1, Blank)
    else if token.kind == BlockTag && token.command != "comment" && OpensVerbatim(token.contents) then
      var j := NextTag(tokens, i + 1);
      (if j < |tokens| then j + 1 else j, Blank)
    else if token.kind == Comment || (token.kind == BlockTag && token.command == "load") then (i + 1, Blank)
    else (i + 1, Marked)
  }

  datatype Context = Text | Tag | Attribute

  function ContextOf(state: Xml): Context {
    match state
    case InTag => Tag
    case DoubleQuoted => Attribute
    case SingleQuoted => Attribute
    case _ => Context.Text
  }

  const SCALAR_TAGS: set<string> := {
    "blocktranslate", "endblocktranslate", "firstof", "now", "static", "trans", "translate", "url", "widthratio"}

  /** Whether what the tag renders may change the structure of the document. */
  predicate IsStructure(token: Token, state: Xml) {
    if token.kind == Variable then
      ContextOf(state) == Tag || (ContextOf(state) == Context.Text && token.safe)
    else ContextOf(state) != Attribute && token.command !in SCALAR_TAGS
  }

  datatype Markers = Markers(value: string, structure: string)

  predicate Plain(m: Markers) { Ascii(m.value) && OneLiner(m.value) && Ascii(m.structure) && OneLiner(m.structure) }

  function MarkerFor(token: Token, state: Xml, m: Markers): string {
    if IsStructure(token, state) then m.structure else m.value
  }

  /** Where token number `i` begins, or the end of the source. */
  function Start(content: string, tokens: seq<Token>, i: nat): (p: nat)
    requires Tiles(tokens, content) && i <= |tokens|
    ensures p <= |content| && (i == 0 ==> p == 0) && (i > 0 ==> p == tokens[i - 1].end)
    ensures i < |tokens| ==> p < |content|
  {
    assert i < |tokens| ==> TileAt(tokens, i, content);
    if i < |tokens| then tokens[i].start else |content|
  }

  lemma {:induction false} StartGrows(content: string, tokens: seq<Token>, i: nat, j: nat)
    requires Tiles(tokens, content) && i < j <= |tokens|
    ensures Start(content, tokens, i) < Start(content, tokens, j)
    decreases j
  {
    assert TileAt(tokens, j - 1, content);
    if i < j - 1 {
      StartGrows(content, tokens, i, j - 1);
    }
  }

  /** The source span that is treated as one, from token number `i` on. */
  function Piece(content: string, tokens: seq<Token>, i: nat): string
    requires Tiles(tokens, content) && i < |tokens|
  {
    StartGrows(content, tokens, i, Treat(tokens, i).0);
    content[Start(content, tokens, i)..Start(content, tokens, Treat(tokens, i).0)]
  }

  function NextState(content: string, tokens: seq<Token>, i: nat, state: Xml): Xml
    requires Tiles(tokens, content) && i < |tokens|
  {
    assert TileAt(tokens, i, content);
    if tokens[i].kind == TextToken then StateAfter(content[..tokens[i].end], state, tokens[i].start) else state
  }

  function Mark(tokens: seq<Token>, i: nat, state: Xml, m: Markers): string
    requires i < |tokens|
  {
    if Treat(tokens, i).1 == Marked then MarkerFor(tokens[i], state, m) else ""
  }

  function MaskedPiece(content: string, tokens: seq<Token>, i: nat, state: Xml, m: Markers): string
    requires Tiles(tokens, content) && i < |tokens|
  {
    var piece := Piece(content, tokens, i);
    if Treat(tokens, i).1 == Kept then piece else Mark(tokens, i, state, m) + Blanked(piece)
  }

  /** The source from token number `i` on, masked. */
  function MaskedFrom(content: string, tokens: seq<Token>, i: nat, state: Xml, m: Markers): string
    requires Tiles(tokens, content) && i <= |tokens|
    decreases |tokens| - i
  {
    if i == |tokens| then ""
    else
      MaskedPiece(content, tokens, i, state, m)
      + MaskedFrom(content, tokens, Treat(tokens, i).0, NextState(content, tokens, i, state), m)
  }

  /** The length of all markers from token number `i` on. */
  function MarkerLength(content: string, tokens: seq<Token>, i: nat, state: Xml, m: Markers): nat
    requires Tiles(tokens, content) && i <= |tokens|
    decreases |tokens| - i
  {
    if i == |tokens| then 0
    else
      |Mark(tokens, i, state, m)|
      + MarkerLength(content, tokens, Treat(tokens, i).0, NextState(content, tokens, i, state), m)
  }

  /** The loop of `_scan_template`; `None` stands for `_MaskTooLarge`. */
  method Mask(content: string, tokens: seq<Token>, m: Markers, maxBytes: nat) returns (r: Option<string>)
    requires Tiles(tokens, content)
    ensures r == if Bytes(content) + MarkerLength(content, tokens, 0, InText, m) > MASK_FACTOR * maxBytes then None
                 else Some(MaskedFrom(content, tokens, 0, InText, m))
  {
    var room: int := MASK_FACTOR * maxBytes - Bytes(content);
    if room < 0 {
      return None;
    }
    var masked, state, i := "", InText, 0;
    while i < |tokens|
      invariant i <= |tokens| && 0 <= room
      invariant masked + MaskedFrom(content, tokens, i, state, m) == MaskedFrom(content, tokens, 0, InText, m)
      invariant MASK_FACTOR * maxBytes - Bytes(content) - room + MarkerLength(content, tokens, i, state, m)
             == MarkerLength(content, tokens, 0, InText, m)
    {
      NextPiece(content, tokens, i, state, m, masked);
      assert TileAt(tokens, i, content);
      hide Bytes, MaskedFrom, MarkerLength, MaskedPiece, Tiles, StateAfter;
      room := room - |Mark(tokens, i, state, m)|;
      if room < 0 {
        return None;
      }
      masked := masked + MaskedPiece(content, tokens, i, state, m);
      if tokens[i].kind == TextToken {
        state := AdvanceXmlState(content[..tokens[i].end], state, tokens[i].start);
      }
      i := Treat(tokens, i).0;
    }
    assert masked + "" == masked;
    r := Some(masked);
  }

  /** One step of the loop. */
  lemma NextPiece(content: string, tokens: seq<Token>, i: nat, state: Xml, m: Markers, masked: string)
    requires Tiles(tokens, content) && i < |tokens|
    ensures var next, after := Treat(tokens, i).0, NextState(content, tokens, i, state);
            && masked + MaskedFrom(content, tokens, i, state, m) ==
               masked + MaskedPiece(content, tokens, i, state, m) + MaskedFrom(content, tokens, next, after, m)
            && MarkerLength(content, tokens, i, state, m) ==
               |Mark(tokens, i, state, m)| + MarkerLength(content, tokens, next, after, m)
  {
    var next, after := Treat(tokens, i).0, NextState(content, tokens, i, state);
    JoinNext(masked, MaskedPiece(content, tokens, i, state, m), MaskedFrom(content, tokens, next, after, m));
  }

  lemma JoinNext(a: string, b: string, c: string)
    ensures a + b + c == a + (b + c)
  {
  }

  lemma MarkIsPlain(tokens: seq<Token>, i: nat, state: Xml, m: Markers)
    requires i < |tokens| && Plain(m)
    ensures Count(Mark(tokens, i, state, m), '\n') == 0
    ensures Bytes(Mark(tokens, i, state, m)) == |Mark(tokens, i, state, m)|
  {
    OneLinerHasNoLines(Mark(tokens, i, state, m));
    AsciiBytes(Mark(tokens, i, state, m));
  }

  lemma PieceMeasures(content: string, tokens: seq<Token>, i: nat, state: Xml, m: Markers)
    requires Tiles(tokens, content) && i < |tokens| && Plain(m)
    ensures Count(MaskedPiece(content, tokens, i, state, m), '\n') == Count(Piece(content, tokens, i), '\n')
    ensures Bytes(MaskedPiece(content, tokens, i, state, m)) <= Bytes(Piece(content, tokens, i)) + |Mark(tokens, i, state, m)|
  {
    var piece, mark := Piece(content, tokens, i), Mark(tokens, i, state, m);
    BlankedMeasures(piece);
    MarkIsPlain(tokens, i, state, m);
    CountConcat(mark, Blanked(piece), '\n');
    BytesConcat(mark, Blanked(piece));
  }

  /** The rest of the source is the next piece and what follows it. */
  lemma RestSplits(content: string, tokens: seq<Token>, i: nat)
    requires Tiles(tokens, content) && i < |tokens|
    ensures var next := Treat(tokens, i).0;
            content[Start(content, tokens, i)..] == Piece(content, tokens, i) + content[Start(content, tokens, next)..]
  {
    StartGrows(content, tokens, i, Treat(tokens, i).0);
  }

  /** Masking moves no line and adds the markers only. */
  lemma {:induction false} MaskMeasures(content: string, tokens: seq<Token>, i: nat, state: Xml, m: Markers)
    requires Tiles(tokens, content) && i <= |tokens| && Plain(m)
    ensures var rest := content[Start(content, tokens, i)..];
            && Count(MaskedFrom(content, tokens, i, state, m), '\n') == Count(rest, '\n')
            && Bytes(MaskedFrom(content, tokens, i, state, m)) <= Bytes(rest) + MarkerLength(content, tokens, i, state, m)
    decreases |tokens| - i
  {
    if i < |tokens| {
      var next, after := Treat(tokens, i).0, NextState(content, tokens, i, state);
      var piece, masked := Piece(content, tokens, i), MaskedPiece(content, tokens, i, state, m);
      var rest, more := content[Start(content, tokens, next)..], MaskedFrom(content, tokens, next, after, m);
      MaskMeasures(content, tokens, next, after, m);
      PieceMeasures(content, tokens, i, state, m);
      RestSplits(content, tokens, i);
      hide Piece, MaskedPiece, Count, Bytes, Treat, NextState, Tiles;
      CountConcat(piece, rest, '\n');
      CountConcat(masked, more, '\n');
      BytesConcat(piece, rest);
      BytesConcat(masked, more);
    }
  }

  /** The masked document takes at most four times the limit. */
  lemma MaskIsBounded(content: string, tokens: seq<Token>, m: Markers, maxBytes: nat)
    requires Tiles(tokens, content) && Plain(m)
    requires Bytes(content) + MarkerLength(content, tokens, 0, InText, m) <= MASK_FACTOR * maxBytes
    ensures Bytes(MaskedFrom(content, tokens, 0, InText, m)) <= MASK_FACTOR * maxBytes
  {
    MaskMeasures(content, tokens, 0, InText, m);
    assert content[0..] == content;
  }

  /** The character at `p` is literal text, in no comment and no verbatim block. */
  predicate IsLiteral(content: string, tokens: seq<Token>, i: nat, p: nat)
    requires Tiles(tokens, content) && i <= |tokens|
    decreases |tokens| - i
  {
    i < |tokens|
    && (if p < Start(content, tokens, Treat(tokens, i).0) then tokens[i].kind == TextToken && tokens[i].start <= p
        else IsLiteral(content, tokens, Treat(tokens, i).0, p))
  }

  /** Where it is in the masked document. */
  function WhereMasked(content: string, tokens: seq<Token>, i: nat, state: Xml, m: Markers, p: nat): nat
    requires Tiles(tokens, content) && i <= |tokens| && IsLiteral(content, tokens, i, p)
    decreases |tokens| - i
  {
    if p < Start(content, tokens, Treat(tokens, i).0) then p - tokens[i].start
    else
      |MaskedPiece(content, tokens, i, state, m)|
      + WhereMasked(content, tokens, Treat(tokens, i).0, NextState(content, tokens, i, state), m, p)
  }

  lemma BehindAPiece(a: string, b: string, k: nat)
    requires k < |b|
    ensures (a + b)[|a| + k] == b[k] && Count((a + b)[..|a| + k], '\n') == Count(a, '\n') + Count(b[..k], '\n')
  {
    assert (a + b)[..|a| + k] == a + b[..k];
    CountConcat(a, b[..k], '\n');
  }

  /** The character at `p` is in the masked source from token `i` on, with as many lines before it. */
  ghost predicate StaysAt(content: string, tokens: seq<Token>, i: nat, masked: string, p: nat, at: nat)
    requires Tiles(tokens, content) && i <= |tokens|
  {
    && Start(content, tokens, i) <= p < |content| && at < |masked| && masked[at] == content[p]
    && Count(masked[..at], '\n') == Count(content[Start(content, tokens, i)..p], '\n')
  }

  lemma StaysHere(content: string, tokens: seq<Token>, i: nat, state: Xml, m: Markers, p: nat, more: string)
    requires Tiles(tokens, content) && i < |tokens| && IsLiteral(content, tokens, i, p)
    requires p < Start(content, tokens, Treat(tokens, i).0)
    ensures StaysAt(content, tokens, i, MaskedPiece(content, tokens, i, state, m) + more, p, p - tokens[i].start)
  {
    StartGrows(content, tokens, i, Treat(tokens, i).0);
    assert TileAt(tokens, i, content);
    var masked := MaskedPiece(content, tokens, i, state, m) + more;
    assert masked[..p - tokens[i].start] == content[tokens[i].start..p];
  }

  lemma StaysLater(content: string, tokens: seq<Token>, i: nat, state: Xml, m: Markers, p: nat, more: string, at: nat)
    requires Tiles(tokens, content) && i < |tokens| && Plain(m)
    requires StaysAt(content, tokens, Treat(tokens, i).0, more, p, at)
    ensures var masked := MaskedPiece(content, tokens, i, state, m);
            StaysAt(content, tokens, i, masked + more, p, |masked| + at)
  {
    hide Piece, MaskedPiece, Count, Treat, Tiles, Plain, Start, Bytes;
    PieceMeasures(content, tokens, i, state, m);
    LinesBefore(content, tokens, i, p);
    BehindAPiece(MaskedPiece(content, tokens, i, state, m), more, at);
  }

  /** Where a character behind the next piece is, in the masked source and in what follows the piece. */
  lemma LiteralBehind(content: string, tokens: seq<Token>, i: nat, state: Xml, m: Markers, p: nat)
    requires Tiles(tokens, content) && i <= |tokens| && IsLiteral(content, tokens, i, p)
    ensures i < |tokens|
    ensures var next, after := Treat(tokens, i).0, NextState(content, tokens, i, state);
            && MaskedFrom(content, tokens, i, state, m) ==
               MaskedPiece(content, tokens, i, state, m) + MaskedFrom(content, tokens, next, after, m)
            && (p < Start(content, tokens, next) ==>
                  WhereMasked(content, tokens, i, state, m, p) == p - tokens[i].start)
            && (p >= Start(content, tokens, next) ==>
                  && IsLiteral(content, tokens, next, p)
                  && WhereMasked(content, tokens, i, state, m, p) ==
                     |MaskedPiece(content, tokens, i, state, m)| + WhereMasked(content, tokens, next, after, m, p))
  {
    hide MaskedPiece, NextState, Treat;
  }

  /** Every literal character is kept, on its line. */
  lemma {:induction false} LiteralsStay(content: string, tokens: seq<Token>, i: nat, state: Xml, m: Markers, p: nat)
    requires Tiles(tokens, content) && i <= |tokens| && Plain(m) && IsLiteral(content, tokens, i, p)
    ensures StaysAt(content, tokens, i, MaskedFrom(content, tokens, i, state, m), p,
                    WhereMasked(content, tokens, i, state, m, p))
    decreases |tokens| - i
  {
    hide Tiles, IsLiteral, WhereMasked, StaysAt, MaskedPiece, MaskedFrom, NextState, Treat, Plain, Start;
    LiteralBehind(content, tokens, i, state, m, p);
    var next, after := Treat(tokens, i).0, NextState(content, tokens, i, state);
    var more := MaskedFrom(content, tokens, next, after, m);
    if p < Start(content, tokens, next) {
      StaysHere(content, tokens, i, state, m, p, more);
    } else {
      LiteralsStay(content, tokens, next, after, m, p);
      StaysLater(content, tokens, i, state, m, p, more, WhereMasked(content, tokens, next, after, m, p));
    }
  }

  lemma LinesBefore(content: string, tokens: seq<Token>, i: nat, p: nat)
    requires Tiles(tokens, content) && i < |tokens| && Start(content, tokens, Treat(tokens, i).0) <= p <= |content|
    ensures var next := Start(content, tokens, Treat(tokens, i).0);
            && Start(content, tokens, i) <= p
            && Count(content[Start(content, tokens, i)..p], '\n') ==
               Count(Piece(content, tokens, i), '\n') + Count(content[next..p], '\n')
  {
    var next := Start(content, tokens, Treat(tokens, i).0);
    StartGrows(content, tokens, i, Treat(tokens, i).0);
    assert content[Start(content, tokens, i)..p] == Piece(content, tokens, i) + content[next..p];
    CountConcat(Piece(content, tokens, i), content[next..p], '\n');
  }

  // ---------------------------------------------------------------------------
  // XML declarations
  // ---------------------------------------------------------------------------

  /** `<\?xml(?:\s|\?)` without regard to case; `space` says what `\s` matches. */
  predicate DeclaresAt(s: string, i: nat, space: char -> bool) {
    && i + 6 <= |s| && s[i] == '<' && s[i + 1] == '?'
    && (s[i + 2] == 'x' || s[i + 2] == 'X') && (s[i + 3] == 'm' || s[i + 3] == 'M') && (s[i + 4] == 'l' || s[i + 4] == 'L')
    && (space(s[i + 5]) || s[i + 5] == '?')
  }

  /** The end of a declaration at `i`, or 0 if it is not closed. */
  function DeclarationEnd(s: string, i: nat, space: char -> bool): (e: nat)
    requires DeclaresAt(s, i, space)
    ensures e == 0 || i < e <= |s|
  {
    var found := Find(s, "?>", i + 6);
    if found < 0 then 0 else found + 2
  }

  /** Where XML ends the instruction at `i`: the first `?>` behind `<?`. */
  function InstructionEnd(s: string, i: nat): nat {
    var found := Find(s, "?>", i + 2);
    if found < 0 then 0 else found + 2
  }

  lemma EndBegins(s: string, k: nat)
    ensures MatchAt(s, "?>", k) ==> s[k] == '?'
  {
    if MatchAt(s, "?>", k) {
      assert s[k..k + 2][0] == s[k];
    }
  }

  lemma NoEndInName(s: string, i: nat, k: nat, space: char -> bool)
    requires DeclaresAt(s, i, space) && i + 2 <= k < i + 5
    ensures !MatchAt(s, "?>", k)
  {
    EndBegins(s, k);
  }

  /**
    A declaration is taken to end where XML ends it if and only if `?>` does not follow
    the name at once: the search begins behind the character after the name.
   */
  lemma DeclarationEndsAsInXmlIff(s: string, i: nat, space: char -> bool)
    requires DeclaresAt(s, i, space)
    ensures DeclarationEnd(s, i, space) == InstructionEnd(s, i) <==> !MatchAt(s, "?>", i + 5)
  {
    var own := Find(s, "?>", i + 2);
    if own >= 0 {
      assert own >= i + 5 by {
        if own < i + 5 {
          NoEndInName(s, i, own, space);
        }
      }
    }
    FindFromLater(s, "?>", i + 2, i + 5);
    if !MatchAt(s, "?>", i + 5) {
      FindFromLater(s, "?>", i + 5, i + 6);
    }
  }

  /** The shortest declaration that is missed: its own end is passed over. */
  lemma EndBehindNameIsMissed(space: char -> bool)
    ensures DeclaresAt("<?xml?>", 0, space)
    ensures InstructionEnd("<?xml?>", 0) == 7 && DeclarationEnd("<?xml?>", 0, space) == 0
  {
    var s := "<?xml?>";
    assert s[5..5 + 2] == "?>";
    assert MatchAt(s, "?>", 5);
  }

  predicate ClosedAt(s: string, i: nat, space: char -> bool) {
    DeclaresAt(s, i, space) && DeclarationEnd(s, i, space) > 0
  }

  /** The text from `i` on, read character by character, with every closed declaration blanked. */
  function WithoutDeclarations(s: string, i: nat, space: char -> bool): string
    requires i <= |s|
    decreases |s| - i
  {
    if i == |s| then ""
    else if ClosedAt(s, i, space) then
      var end := DeclarationEnd(s, i, space);
      Blanked(s[i..end]) + WithoutDeclarations(s, end, space)
    else [s[i]] + WithoutDeclarations(s, i + 1, space)
  }

  /** The next match of the opening, or the end. */
  function NextOpening(s: string, i: nat, space: char -> bool): (q: nat)
    requires i <= |s|
    ensures i <= q <= |s| && (q < |s| ==> DeclaresAt(s, q, space))
    ensures forall k | i <= k < q :: !DeclaresAt(s, k, space)
    decreases |s| - i
  {
    if i == |s| || DeclaresAt(s, i, space) then i else NextOpening(s, i + 1, space)
  }

  lemma OneCharacterOn(s: string, i: nat, space: char -> bool)
    requires i < |s| && !ClosedAt(s, i, space)
    ensures WithoutDeclarations(s, i, space) == [s[i]] + WithoutDeclarations(s, i + 1, space)
  {
    hide ClosedAt;
  }

  lemma OneDeclarationOn(s: string, i: nat, space: char -> bool)
    requires i < |s| && ClosedAt(s, i, space)
    ensures var end := DeclarationEnd(s, i, space);
            i < end <= |s| && WithoutDeclarations(s, i, space) == Blanked(s[i..end]) + WithoutDeclarations(s, end, space)
  {
    hide DeclaresAt, DeclarationEnd;
  }

  /** Text without declarations is kept as it is. */
  lemma {:induction false} NoDeclaration(s: string, i: nat, j: nat, space: char -> bool)
    requires i <= j <= |s| && forall k | i <= k < j :: !ClosedAt(s, k, space)
    ensures WithoutDeclarations(s, i, space) == s[i..j] + WithoutDeclarations(s, j, space)
    decreases j - i
  {
    hide WithoutDeclarations, ClosedAt;
    if i < j {
      NoDeclaration(s, i + 1, j, space);
      OneCharacterOn(s, i, space);
      assert s[i..j] == [s[i]] + s[i + 1..j];
      JoinNext([s[i]], s[i + 1..j], WithoutDeclarations(s, j, space));
    }
  }

  /** Once a declaration is not closed, no later one is. */
  lemma OpenToTheEnd(s: string, i: nat, k: nat, space: char -> bool)
    requires DeclaresAt(s, i, space) && !ClosedAt(s, i, space) && i <= k
    ensures !ClosedAt(s, k, space)
  {
    if DeclaresAt(s, k, space) {
      FindFromLater(s, "?>", i + 6, k + 6);
    }
  }

  lemma NoOverlap(s: string, i: nat, k: nat, space: char -> bool)
    requires DeclaresAt(s, i, space) && i < k < i + 6 && !space('<')
    ensures !DeclaresAt(s, k, space)
  {
  }

  /**
    `_blank_xml_declarations`: it goes from one opening to the next and skips those inside
    a declaration it has blanked.
   */
  method BlankXmlDeclarations(s: string, space: char -> bool) returns (out: string)
    requires !space('<')
    ensures out == WithoutDeclarations(s, 0, space)
  {
    hide WithoutDeclarations, ClosedAt, DeclarationEnd, Blanked, Find;
    out := "";
    var cursor, from := 0, 0;
    assert "" + WithoutDeclarations(s, 0, space) == WithoutDeclarations(s, 0, space);
    while true
      invariant cursor <= |s| && from <= |s|
      invariant out + WithoutDeclarations(s, cursor, space) == WithoutDeclarations(s, 0, space)
      invariant forall k: nat | cursor <= k < from :: !ClosedAt(s, k, space)
      decreases |s| - from
    {
      var q := NextOpening(s, from, space);
      NoneBefore(s, from, space);
      if q == |s| {
        Unchanged(s, cursor, space);
        return out + s[cursor..];
      }
      BehindOpening(s, q, space);
      hide DeclaresAt, NextOpening;
      if cursor <= q {
        var closer := Find(s, "?>", q + 6);
        if closer < 0 {
          Unchanged(s, cursor, space);
          return out + s[cursor..];
        }
        BlankedTo(out, s, cursor, q, closer + 2, space);
        out := out + s[cursor..q] + Blanked(s[q..closer + 2]);
        cursor := closer + 2;
      }
      from := q + 6;
    }
  }

  lemma NoneBefore(s: string, i: nat, space: char -> bool)
    requires i <= |s|
    ensures forall k: nat | i <= k < NextOpening(s, i, space) :: !ClosedAt(s, k, space)
  {
  }

  lemma BlankedTo(out: string, s: string, cursor: nat, q: nat, end: nat, space: char -> bool)
    requires cursor <= q <= end <= |s| && forall k: nat | cursor <= k < q :: !ClosedAt(s, k, space)
    requires WithoutDeclarations(s, q, space) == Blanked(s[q..end]) + WithoutDeclarations(s, end, space)
    ensures out + s[cursor..q] + Blanked(s[q..end]) + WithoutDeclarations(s, end, space)
         == out + WithoutDeclarations(s, cursor, space)
  {
    NoDeclaration(s, cursor, q, space);
    Appended(out, s[cursor..q], Blanked(s[q..end]), WithoutDeclarations(s, end, space));
  }

  /** At an opening: what a closed one gives way to, and where the next opening can be. */
  lemma BehindOpening(s: string, q: nat, space: char -> bool)
    requires DeclaresAt(s, q, space) && !space('<')
    ensures q + 6 <= |s| && forall k: nat | q < k < q + 6 :: !ClosedAt(s, k, space)
    ensures var closer := Find(s, "?>", q + 6);
            && closer + 2 <= |s|
            && (closer < 0 ==> forall k: nat | q <= k :: !ClosedAt(s, k, space))
            && (closer >= 0 ==>
                  && q + 6 <= closer
                  && WithoutDeclarations(s, q, space) == Blanked(s[q..closer + 2]) + WithoutDeclarations(s, closer + 2, space))
  {
    hide DeclaresAt, ClosedAt, Blanked, WithoutDeclarations, Find, MatchAt;
    NoneInside(s, q, space);
    NoneBehind(s, q, space);
    EndOfDeclaration(s, q, space);
    if ClosedAt(s, q, space) {
      OneDeclarationOn(s, q, space);
    }
  }

  lemma EndOfDeclaration(s: string, q: nat, space: char -> bool)
    requires DeclaresAt(s, q, space)
    ensures var closer := Find(s, "?>", q + 6);
            && q + 6 <= |s| && closer + 2 <= |s| && (closer >= 0 ==> q + 6 <= closer)
            && (ClosedAt(s, q, space) <==> closer >= 0)
            && (closer >= 0 ==> DeclarationEnd(s, q, space) == closer + 2)
  {
  }

  lemma NoneInside(s: string, q: nat, space: char -> bool)
    requires DeclaresAt(s, q, space) && !space('<')
    ensures forall k: nat | q < k < q + 6 :: !ClosedAt(s, k, space)
  {
    forall k: nat | q < k < q + 6 ensures !ClosedAt(s, k, space) {
      NoOverlap(s, q, k, space);
    }
  }

  lemma NoneBehind(s: string, q: nat, space: char -> bool)
    requires DeclaresAt(s, q, space)
    ensures Find(s, "?>", q + 6) < 0 ==> forall k: nat | q <= k :: !ClosedAt(s, k, space)
  {
    if Find(s, "?>", q + 6) < 0 {
      assert !ClosedAt(s, q, space);
      forall k: nat | q <= k ensures !ClosedAt(s, k, space) {
        hide ClosedAt, DeclaresAt, Find;
        OpenToTheEnd(s, q, k, space);
      }
    }
  }

  lemma Appended(a: string, b: string, c: string, d: string)
    ensures a + (b + (c + d)) == a + b + c + d
  {
  }

  lemma Unchanged(s: string, cursor: nat, space: char -> bool)
    requires cursor <= |s| && forall k: nat | cursor <= k < |s| :: !ClosedAt(s, k, space)
    ensures WithoutDeclarations(s, cursor, space) == s[cursor..]
  {
    NoDeclaration(s, cursor, |s|, space);
    assert s[cursor..|s|] + "" == s[cursor..];
  }

  /** Whether `k` is inside a closed declaration, when they are taken one after the other from `i`. */
  predicate InDeclaration(s: string, i: nat, k: nat, space: char -> bool)
    requires i <= k < |s|
    decreases |s| - i
  {
    if ClosedAt(s, i, space) then
      k < DeclarationEnd(s, i, space) || InDeclaration(s, DeclarationEnd(s, i, space), k, space)
    else i < k && InDeclaration(s, i + 1, k, space)
  }

  /** What is left of the character at `k`. */
  function Seen(s: string, i: nat, k: nat, space: char -> bool): char
    requires i <= k < |s|
  {
    if InDeclaration(s, i, k, space) && s[k] != '\n' then ' ' else s[k]
  }

  /**
    Blanking keeps every position: exactly the characters of closed declarations become
    blanks, and line breaks stay even there.
   */
  lemma {:induction false} DeclarationsKeepPositions(s: string, i: nat, space: char -> bool)
    requires i <= |s|
    ensures |WithoutDeclarations(s, i, space)| == |s| - i
    ensures forall k | i <= k < |s| :: WithoutDeclarations(s, i, space)[k - i] == Seen(s, i, k, space)
    decreases |s| - i
  {
    hide WithoutDeclarations, DeclaresAt, DeclarationEnd, Seen;
    if i == |s| {
      NothingBlanked(s, space);
    } else if ClosedAt(s, i, space) {
      var end := DeclarationEnd(s, i, space);
      OneDeclarationOn(s, i, space);
      DeclarationsKeepPositions(s, end, space);
      SeenInPieces(s, i, end, space, Blanked(s[i..end]), WithoutDeclarations(s, end, space));
    } else {
      OneCharacterOn(s, i, space);
      DeclarationsKeepPositions(s, i + 1, space);
      SeenInPieces(s, i, i + 1, space, [s[i]], WithoutDeclarations(s, i + 1, space));
    }
  }

  lemma NothingBlanked(s: string, space: char -> bool)
    ensures WithoutDeclarations(s, |s|, space) == ""
  {
  }

  lemma SeenInPieces(s: string, i: nat, end: nat, space: char -> bool, head: string, more: string)
    requires i < end <= |s| && |head| == end - i && |more| == |s| - end
    requires end == if ClosedAt(s, i, space) then DeclarationEnd(s, i, space) else i + 1
    requires head == if ClosedAt(s, i, space) then Blanked(s[i..end]) else [s[i]]
    requires forall k | end <= k < |s| :: more[k - end] == Seen(s, end, k, space)
    ensures forall k | i <= k < |s| :: (head + more)[k - i] == Seen(s, i, k, space)
  {
    hide ClosedAt, DeclarationEnd, Seen;
    forall k | i <= k < |s| ensures (head + more)[k - i] == Seen(s, i, k, space) {
      SeenBehind(s, i, end, k, space);
      if k < end {
        assert (head + more)[k - i] == head[k - i] && s[i..end][k - i] == s[k];
      } else {
        assert (head + more)[k - i] == more[k - end];
      }
    }
  }

  lemma SeenBehind(s: string, i: nat, end: nat, k: nat, space: char -> bool)
    requires i < end <= |s| && i <= k < |s|
    requires end == if ClosedAt(s, i, space) then DeclarationEnd(s, i, space) else i + 1
    ensures k < end ==> Seen(s, i, k, space) == if ClosedAt(s, i, space) && s[k] != '\n' then ' ' else s[k]
    ensures end <= k ==> Seen(s, i, k, space) == Seen(s, end, k, space)
  {
    hide ClosedAt, DeclarationEnd;
  }

  /** Blanking adds no bytes. */
  lemma {:induction false} DeclarationsAddNoBytes(s: string, i: nat, space: char -> bool)
    requires i <= |s|
    ensures Bytes(WithoutDeclarations(s, i, space)) <= Bytes(s[i..])
    decreases |s| - i
  {
    if i < |s| {
      var end := if ClosedAt(s, i, space) then DeclarationEnd(s, i, space) else i + 1;
      var head := if ClosedAt(s, i, space) then Blanked(s[i..end]) else [s[i]];
      var more := WithoutDeclarations(s, end, space);
      DeclarationsAddNoBytes(s, end, space);
      BlankedMeasures(s[i..end]);
      BytesConcat(head, more);
      BytesConcat(s[i..end], s[end..]);
      assert s[i..] == s[i..end] + s[end..];
      assert !ClosedAt(s, i, space) ==> s[i..end] == [s[i]];
    }
  }

  // ---------------------------------------------------------------------------
  // The masked document
  // ---------------------------------------------------------------------------

  /** The document that the XML parser of the static check gets. */
  function MaskedDocument(content: string, tokens: seq<Token>, m: Markers, space: char -> bool): string
    requires Tiles(tokens, content)
  {
    WithoutDeclarations(MaskedFrom(content, tokens, 0, InText, m), 0, space)
  }

  lemma {:induction false} SameBreaks(a: string, b: string)
    requires |a| == |b| && forall k | 0 <= k < |a| :: a[k] == '\n' <==> b[k] == '\n'
    ensures Count(a, '\n') == Count(b, '\n')
  {
    if a != "" {
      SameBreaks(a[1..], b[1..]);
    }
  }

  lemma BreaksStay(s: string, at: nat, space: char -> bool)
    requires at <= |s|
    ensures |WithoutDeclarations(s, 0, space)| == |s|
    ensures Count(WithoutDeclarations(s, 0, space)[..at], '\n') == Count(s[..at], '\n')
  {
    DeclarationsKeepPositions(s, 0, space);
    var out := WithoutDeclarations(s, 0, space);
    forall k | 0 <= k < at ensures out[..at][k] == '\n' <==> s[..at][k] == '\n' {
      assert out[k - 0] == Seen(s, 0, k, space);
    }
    SameBreaks(out[..at], s[..at]);
  }

  /** Markers that `_unused_marker` makes are ASCII and on one line. */
  lemma GeneratedMarkersArePlain(content: string, value: Marker.Digits)
    requires Marker.UnusedMarker(content, Marker.DYNAMIC_VALUE, value).Some?
    requires Marker.UnusedMarker(content, Marker.DYNAMIC_STRUCTURE, value).Some?
    ensures Plain(Markers(Marker.UnusedMarker(content, Marker.DYNAMIC_VALUE, value).value,
                          Marker.UnusedMarker(content, Marker.DYNAMIC_STRUCTURE, value).value))
  {
    NumberedIsPlain(Marker.DYNAMIC_VALUE, Marker.Highest(content, Marker.DYNAMIC_VALUE, 0, value) + 1);
    NumberedIsPlain(Marker.DYNAMIC_STRUCTURE, Marker.Highest(content, Marker.DYNAMIC_STRUCTURE, 0, value) + 1);
  }

  lemma NumberedIsPlain(base: string, n: nat)
    requires Ascii(base) && OneLiner(base)
    ensures Ascii(base + Decimal.Print(n)) && OneLiner(base + Decimal.Print(n))
  {
    var digits := Decimal.Print(n);
    forall k | 0 <= k < |digits| ensures digits[k] < '\U{80}' && digits[k] != '\n' {
      assert Decimal.IsDigit(digits[k]);
    }
  }

  /** The masked document is within four times the limit and has the lines of the source. */
  lemma MaskedDocumentMeasures(content: string, tokens: seq<Token>, m: Markers, maxBytes: nat, space: char -> bool)
    requires Tiles(tokens, content) && Plain(m)
    requires Bytes(content) + MarkerLength(content, tokens, 0, InText, m) <= MASK_FACTOR * maxBytes
    ensures Bytes(MaskedDocument(content, tokens, m, space)) <= MASK_FACTOR * maxBytes
    ensures Count(MaskedDocument(content, tokens, m, space), '\n') == Count(content, '\n')
  {
    var masked := MaskedFrom(content, tokens, 0, InText, m);
    MaskIsBounded(content, tokens, m, maxBytes);
    MaskMeasures(content, tokens, 0, InText, m);
    DeclarationsAddNoBytes(masked, 0, space);
    BreaksStay(masked, |masked|, space);
    hide WithoutDeclarations, MaskedFrom, Bytes, Count;
    assert masked[0..] == masked == masked[..|masked|] && content[0..] == content;
    assert MaskedDocument(content, tokens, m, space)[..|masked|] == MaskedDocument(content, tokens, m, space);
  }

  /**
    Every literal character is in it on its own line, as it is, or as a blank if it is inside
    a closed declaration of the masked source and no line break.
   */
  lemma LiteralsStayInDocument(content: string, tokens: seq<Token>, m: Markers, space: char -> bool, p: nat)
    requires Tiles(tokens, content) && Plain(m) && IsLiteral(content, tokens, 0, p)
    ensures var document, at := MaskedDocument(content, tokens, m, space), WhereMasked(content, tokens, 0, InText, m, p);
            var masked := MaskedFrom(content, tokens, 0, InText, m);
            && p < |content| && at < |masked| == |document|
            && document[at] == (if InDeclaration(masked, 0, at, space) && content[p] != '\n' then ' ' else content[p])
            && Count(document[..at], '\n') == Count(content[..p], '\n')
  {
    var masked, at := MaskedFrom(content, tokens, 0, InText, m), WhereMasked(content, tokens, 0, InText, m, p);
    LiteralsStay(content, tokens, 0, InText, m, p);
    hide MaskedFrom, WhereMasked, IsLiteral, Tiles, WithoutDeclarations, Count, InDeclaration;
    assert content[0..p] == content[..p];
    BreaksStay(masked, at, space);
    DeclarationsKeepPositions(masked, 0, space);
    assert MaskedDocument(content, tokens, m, space)[at - 0] == Seen(masked, 0, at, space);
  }
}

/**
  Content-Type parameters: how they are printed, how a header is split into them, and how
  quoted values are read (sections 5.6.2, 5.6.4 and 5.6.6 of RFC 9110).
 */
module HeaderParameters {
  import opened Wrappers

  // ---------------------------------------------------------------------------
  // Printing
  // ---------------------------------------------------------------------------

  const TOKEN_MARKS := "!#$%&'*+.^_`|~-"

  predicate TokenChar(c: char) {
    '0' <= c <= '9' || 'A' <= c <= 'Z' || 'a' <= c <= 'z' || c in TOKEN_MARKS
  }

  predicate Token(s: string) { s != "" && forall i | 0 <= i < |s| :: TokenChar(s[i]) }

  predicate QuotableChar(c: char) { c == '\t' || ' ' <= c <= '~' || '\U{80}' <= c <= '\U{FF}' }

  predicate Quotable(s: string) { forall i | 0 <= i < |s| :: QuotableChar(s[i]) }

  predicate EndsInBackslash(s: string) { s != "" && s[|s| - 1] == '\\' }

  function EscapedChar(c: char): (e: string)
    ensures e != ""
  {
    if c == '"' || c == '\\' then ['\\', c] else [c]
  }

  function Escaped(s: string): string {
    if s == "" then "" else Escaped(s[..|s| - 1]) + EscapedChar(s[|s| - 1])
  }

  function Quoted(value: string): string { ['"'] + Escaped(value) + ['"'] }

  function PrintedValue(value: string): string { if Token(value) then value else Quoted(value) }

  predicate Accepted(key: string, value: string) {
    Token(key) && Quotable(value) && !EndsInBackslash(value)
  }

  /** `_parameter`; `None` stands for `ValueError`. */
  function Parameter(key: string, value: string): Option<string> {
    if Accepted(key, value) then Some(key + "=" + PrintedValue(value)) else None
  }

  /** What separates tokens in a header (section 5.6.2 of RFC 9110). */
  const DELIMITERS := "\"(),/:;<=>?@[\\]{}"

  predicate Visible(c: char) { '!' <= c <= '~' }

  predicate Control(c: char) { c < ' ' || c == '\U{7F}' }

  lemma MarksAre(c: char)
    ensures c in TOKEN_MARKS <==>
            || c == '!' || '#' <= c <= '\'' || c == '*' || c == '+' || c == '-' || c == '.' || '^' <= c <= '`'
            || c == '|' || c == '~'
  {
    var marks: seq<char> := TOKEN_MARKS;
    assert |marks| == 15;
  }

  lemma DelimitersAre(c: char)
    ensures c in DELIMITERS <==>
            || c == '"' || c == '(' || c == ')' || c == ',' || c == '/' || ':' <= c <= '@' || '[' <= c <= ']'
            || c == '{' || c == '}'
  {
    var delimiters: seq<char> := DELIMITERS;
    assert |delimiters| == 17;
  }

  lemma TokenCharIff(c: char)
    ensures TokenChar(c) <==> Visible(c) && c !in DELIMITERS
  {
    MarksAre(c);
    DelimitersAre(c);
  }

  /**
    A parameter is refused exactly if its name is empty or has a character that is not
    visible or is a delimiter, or its value has a control character other than a tab, has
    a character above U+FF, or ends in a backslash.
   */
  lemma ParameterRefusedIff(key: string, value: string)
    ensures Parameter(key, value).None? <==>
            || key == ""
            || (exists i :: 0 <= i < |key| && !(Visible(key[i]) && key[i] !in DELIMITERS))
            || (exists i :: 0 <= i < |value| && ((Control(value[i]) && value[i] != '\t') || value[i] > '\U{FF}'))
            || (value != "" && value[|value| - 1] == '\\')
  {
    forall c: char ensures TokenChar(c) <==> Visible(c) && c !in DELIMITERS {
      TokenCharIff(c);
    }
    hide TokenChar;
  }

  // ---------------------------------------------------------------------------
  // Splitting
  // ---------------------------------------------------------------------------

  /** `s.count('"')`. */
  function Quotes(s: string): nat {
    if s == "" then 0 else Quotes(s[..|s| - 1]) + if s[|s| - 1] == '"' then 1 else 0
  }

  /** `s.count('\\"')`: a backslash and a quote; two such pairs never overlap. */
  function EscapedQuotes(s: string): nat {
    if |s| < 2 then 0
    else EscapedQuotes(s[..|s| - 1]) + if s[|s| - 2] == '\\' && s[|s| - 1] == '"' then 1 else 0
  }

  /** Quotes, those behind a backslash not counted. */
  function Net(s: string): int { Quotes(s) - EscapedQuotes(s) }

  /** A semicolon where the header is split: at the start, or behind an even count of quotes. */
  predicate SplitsAt(s: string, e: nat) {
    e < |s| && s[e] == ';' && (e == 0 || Net(s[..e]) % 2 == 0)
  }

  /** The first split, or the end. */
  function NextSplit(s: string, from: nat): (e: nat)
    requires from <= |s|
    ensures from <= e <= |s| && (e < |s| ==> SplitsAt(s, e))
    ensures forall k | from <= k < e :: !SplitsAt(s, k)
    decreases |s| - from
  {
    if from == |s| || SplitsAt(s, from) then from else NextSplit(s, from + 1)
  }

  function Split(s: string): (pieces: seq<string>)
    ensures pieces != []
    decreases |s|
  {
    var e := NextSplit(s, 0);
    if e == |s| then [s] else [s[..e]] + Split(s[e + 1..])
  }

  /** The text before the first `=` of a piece, if there is one. */
  function Partition(piece: string): (p: (string, Option<string>))
    ensures p.1.Some? ==> piece == p.0 + "=" + p.1.value
    ensures p.1.None? ==> p.0 == piece
    ensures forall i | 0 <= i < |p.0| :: p.0[i] != '='
    decreases |piece|
  {
    if piece == "" then ("", None)
    else if piece[0] == '=' then ("", Some(piece[1..]))
    else
      var rest := Partition(piece[1..]);
      ([piece[0]] + rest.0, rest.1)
  }

  /** What `str.strip` takes for whitespace: `str.isspace` of one character. */
  predicate Space(c: char) {
    || '\t' <= c <= '\r' || '\U{1C}' <= c <= ' ' || c == '\U{85}' || c == '\U{A0}' || c == '\U{1680}'
    || '\U{2000}' <= c <= '\U{200A}' || c == '\U{2028}' || c == '\U{2029}' || c == '\U{202F}'
    || c == '\U{205F}' || c == '\U{3000}'
  }

  /** `s.strip()`. */
  function Strip(s: string): (r: string)
    ensures |r| <= |s|
    decreases |s|
  {
    if s != "" && Space(s[0]) then Strip(s[1..])
    else if s != "" && Space(s[|s| - 1]) then Strip(s[..|s| - 1])
    else s
  }

  predicate EndsInStar(s: string) { s != "" && s[|s| - 1] == '*' }

  predicate ExtendedName(piece: string) {
    Partition(piece).1.Some? && EndsInStar(Strip(Partition(piece).0))
  }

  ghost predicate AnyExtended(pieces: seq<string>) {
    exists i :: 0 <= i < |pieces| && ExtendedName(pieces[i])
  }

  /** The search for the end of a piece: semicolons inside quotes are passed over. */
  method PieceEnd(s: string) returns (end: nat)
    ensures end == NextSplit(s, 0)
  {
    end := 0;
    while end < |s| && !(s[end] == ';' && (end == 0 || (Quotes(s[..end]) - EscapedQuotes(s[..end])) % 2 == 0))
      invariant end <= |s| && NextSplit(s, end) == NextSplit(s, 0)
    {
      end := end + 1;
    }
  }

  /** `_has_extended_name`. */
  method HasExtendedName(header: string) returns (found: bool)
    ensures found <==> AnyExtended(Split(header))
  {
    var rest := header;
    var more := true;
    while more
      invariant more ==> (AnyExtended(Split(rest)) <==> AnyExtended(Split(header)))
      invariant !more ==> !AnyExtended(Split(header))
      decreases more, |rest|
    {
      var end := PieceEnd(rest);
      FirstPiece(rest);
      if ExtendedName(rest[..end]) {
        return true;
      }
      more := end < |rest|;
      rest := if more then rest[end + 1..] else "";
    }
    found := false;
  }

  lemma FirstPiece(s: string)
    ensures var e := NextSplit(s, 0);
            AnyExtended(Split(s)) <==> ExtendedName(s[..e]) || (e < |s| && AnyExtended(Split(s[e + 1..])))
  {
    var e := NextSplit(s, 0);
    hide AnyExtended, ExtendedName, SplitsAt, NextSplit;
    if e == |s| {
      AnyCons(s, []);
      assert s[..e] == s && [s] + [] == [s];
    } else {
      AnyCons(s[..e], Split(s[e + 1..]));
    }
  }

  lemma AnyCons(piece: string, later: seq<string>)
    ensures AnyExtended([piece] + later) <==> ExtendedName(piece) || AnyExtended(later)
    ensures !AnyExtended([])
  {
    hide ExtendedName;
    var all := [piece] + later;
    assert all[0] == piece;
    if AnyExtended(later) {
      var i :| 0 <= i < |later| && ExtendedName(later[i]);
      assert all[i + 1] == later[i];
    }
  }

  // ---------------------------------------------------------------------------
  // Quotes in what is printed
  // ---------------------------------------------------------------------------

  /** A character counts if it is a quote that is not behind a backslash. */
  lemma NetMore(s: string, c: char)
    ensures Net(s + [c]) == Net(s) + if c == '"' && !EndsInBackslash(s) then 1 else 0
  {
    var t := s + [c];
    assert t[..|t| - 1] == s;
    if s != "" {
      assert t[|t| - 2] == s[|s| - 1];
    }
  }

  /** An escaped character never counts. */
  lemma NetEscapedChar(s: string, c: char)
    ensures Net(s + EscapedChar(c)) == Net(s)
    ensures EndsInBackslash(s + EscapedChar(c)) <==> c == '\\'
  {
    var e := EscapedChar(c);
    if |e| == 2 {
      NetMore(s, e[0]);
      NetMore(s + [e[0]], e[1]);
      assert s + e == s + [e[0]] + [e[1]];
    } else {
      NetMore(s, c);
    }
  }

  lemma {:induction false} NetEscaped(s: string, value: string)
    ensures Net(s + Escaped(value)) == Net(s)
    ensures value != "" ==> (EndsInBackslash(s + Escaped(value)) <==> EndsInBackslash(value))
    decreases |value|
  {
    if value == "" {
      assert s + "" == s;
    } else {
      var n := |value| - 1;
      NetEscaped(s, value[..n]);
      NetEscapedChar(s + Escaped(value[..n]), value[n]);
      assert s + Escaped(value) == s + Escaped(value[..n]) + EscapedChar(value[n]);
    }
  }

  /** Text without quotes does not count. */
  lemma {:induction false} NetPlain(s: string, plain: string)
    requires forall i | 0 <= i < |plain| :: plain[i] != '"'
    ensures Net(s + plain) == Net(s)
    decreases |plain|
  {
    if plain == "" {
      assert s + "" == s;
    } else {
      var n := |plain| - 1;
      NetPlain(s, plain[..n]);
      NetMore(s + plain[..n], plain[n]);
      assert s + plain == s + plain[..n] + [plain[n]];
    }
  }

  /** The closing quote counts unless the value ends in a backslash: that is why such values are refused. */
  lemma NetQuoted(head: string, value: string)
    requires !EndsInBackslash(head)
    ensures Net(head + Quoted(value)) == Net(head) + if EndsInBackslash(value) then 1 else 2
  {
    hide Net;
    var begun := head + ['"'];
    NetMore(head, '"');
    NetEscaped(begun, value);
    NetMore(begun + Escaped(value), '"');
    assert begun + Escaped(value) + ['"'] == head + Quoted(value);
    assert begun + "" == begun;
  }

  /** A semicolon of an escaped text stands for one of the value. */
  lemma {:induction false} EscapedAt(value: string, p: nat)
    requires p < |Escaped(value)| && Escaped(value)[p] == ';'
    ensures exists k: nat :: k < |value| && Escaped(value)[..p] == Escaped(value[..k])
    decreases |value|
  {
    var n := |value| - 1;
    var before := Escaped(value[..n]);
    if p < |before| {
      assert Escaped(value)[p] == before[p];
      EscapedAt(value[..n], p);
      var k: nat :| k < n && before[..p] == Escaped(value[..n][..k]);
      assert value[..n][..k] == value[..k];
      assert Escaped(value)[..p] == before[..p];
    } else {
      assert Escaped(value)[p] == EscapedChar(value[n])[p - |before|];
      assert Escaped(value)[..p] == before;
    }
  }

  // ---------------------------------------------------------------------------
  // Splitting what is printed
  // ---------------------------------------------------------------------------

  /** A piece that the splitting rule neither cuts nor leaves open. */
  ghost predicate Whole(q: string) {
    Net(q) % 2 == 0 && forall e | 0 <= e < |q| && q[e] == ';' :: e > 0 && Net(q[..e]) % 2 == 1
  }

  lemma {:induction false} NextSplitIs(s: string, from: nat, e: nat)
    requires from <= e <= |s| && (e < |s| ==> SplitsAt(s, e)) && forall k | from <= k < e :: !SplitsAt(s, k)
    ensures NextSplit(s, from) == e
    decreases e - from
  {
    if from < e {
      NextSplitIs(s, from + 1, e);
    }
  }

  lemma SplitOne(q: string)
    requires Whole(q)
    ensures Split(q) == [q]
  {
    NextSplitIs(q, 0, |q|);
  }

  lemma SplitFirst(q: string, more: string)
    requires Whole(q)
    ensures Split(q + ";" + more) == [q] + Split(more)
  {
    var s := q + ";" + more;
    forall k | 0 <= k < |q| ensures !SplitsAt(s, k) {
      assert s[k] == q[k] && s[..k] == q[..k];
    }
    assert s[..|q|] == q && s[|q| + 1..] == more;
    assert |q| == 0 || Net(q) % 2 == 0;
    NextSplitIs(s, 0, |q|);
  }

  predicate Unmarked(s: string) { forall i | 0 <= i < |s| :: s[i] != ';' && s[i] != '"' }

  lemma UnmarkedIsWhole(s: string)
    requires Unmarked(s)
    ensures Whole(s) && Net(s) == 0
  {
    NetPlain("", s);
    assert "" + s == s;
  }

  lemma TokenIsUnmarked(s: string)
    requires Token(s)
    ensures Unmarked(s) && s[0] != '"' && !EndsInBackslash(s)
    ensures forall i | 0 <= i < |s| :: s[i] != '=' && !Space(s[i])
  {
    forall i | 0 <= i < |s| ensures s[i] != ';' && s[i] != '"' && s[i] != '=' && !Space(s[i]) && s[i] != '\\' {
      assert TokenChar(s[i]);
      NoMark(s[i]);
    }
  }

  lemma NoMark(c: char)
    requires TokenChar(c)
    ensures c != ';' && c != '"' && c != '=' && !Space(c) && c != '\\'
  {
    if c in TOKEN_MARKS {
      var i :| 0 <= i < |TOKEN_MARKS| && TOKEN_MARKS[i] == c;
      assert |TOKEN_MARKS| == 15;
    }
  }

  /** A parameter in a header, behind the separating semicolon. */
  function Piece(key: string, value: string): string { " " + key + "=" + PrintedValue(value) }

  function Head(key: string): string { " " + key + "=" }

  lemma HeadIsUnmarked(key: string)
    requires Token(key)
    ensures Unmarked(Head(key)) && Net(Head(key)) == 0 && !EndsInBackslash(Head(key))
  {
    TokenIsUnmarked(key);
    UnmarkedIsWhole(Head(key));
  }

  /** Inside the quotes the count is odd, so no semicolon of the value splits the header. */
  lemma QuotedIsWhole(key: string, value: string)
    requires Token(key) && !EndsInBackslash(value)
    ensures Whole(Head(key) + Quoted(value))
  {
    var head := Head(key);
    var q := head + Quoted(value);
    HeadIsUnmarked(key);
    NetQuoted(head, value);
    forall e | 0 <= e < |q| && q[e] == ';' ensures e > 0 && Net(q[..e]) % 2 == 1 {
      InsideQuotes(key, value, e);
    }
  }

  lemma InsideQuotes(key: string, value: string, e: nat)
    requires Token(key) && e < |Head(key) + Quoted(value)| && (Head(key) + Quoted(value))[e] == ';'
    ensures e > 0 && Net((Head(key) + Quoted(value))[..e]) == 1
  {
    var head := Head(key);
    var q := head + Quoted(value);
    HeadIsUnmarked(key);
    BehindUnmarked(head, Quoted(value), e);
    var p := e - |head| - 1;
    InEscaped(value, p + 1);
    EscapedAt(value, p);
    var k: nat :| k < |value| && Escaped(value)[..p] == Escaped(value[..k]);
    Before(head, value, p);
    NetMore(head, '"');
    NetEscaped(head + ['"'], value[..k]);
  }

  lemma BehindUnmarked(a: string, b: string, e: nat)
    requires Unmarked(a) && e < |a + b| && (a + b)[e] == ';'
    ensures |a| <= e && b[e - |a|] == ';'
  {
  }

  lemma InEscaped(value: string, j: nat)
    requires j < |Quoted(value)| && Quoted(value)[j] == ';'
    ensures 0 < j <= |Escaped(value)| && Escaped(value)[j - 1] == ';'
  {
  }

  lemma Before(head: string, value: string, p: nat)
    requires p < |Escaped(value)|
    ensures (head + Quoted(value))[..|head| + 1 + p] == head + ['"'] + Escaped(value)[..p]
  {
  }

  lemma PieceIsWhole(key: string, value: string)
    requires Accepted(key, value)
    ensures Whole(Piece(key, value))
  {
    assert Piece(key, value) == Head(key) + PrintedValue(value);
    if Token(value) {
      HeadIsUnmarked(key);
      TokenIsUnmarked(value);
      hide Token, TokenChar, Head;
      UnmarkedIsWhole(Head(key) + value);
    } else {
      QuotedIsWhole(key, value);
    }
  }

  /** A value that ends in a backslash, quoted, would leave the quotes open. */
  lemma TrailingBackslashIsNotWhole(key: string, value: string)
    requires Token(key) && EndsInBackslash(value)
    ensures !Whole(Head(key) + Quoted(value))
  {
    HeadIsUnmarked(key);
    NetQuoted(Head(key), value);
  }

  datatype Param = Param(key: string, value: string)

  function Pieces(params: seq<Param>): seq<string> {
    if params == [] then [] else [Piece(params[0].key, params[0].value)] + Pieces(params[1..])
  }

  predicate AllAccepted(params: seq<Param>) {
    forall i | 0 <= i < |params| :: Accepted(params[i].key, params[i].value)
  }

  /** `"; ".join([media, *extra])`. */
  function Header(first: string, params: seq<Param>): string
    decreases |params|
  {
    if params == [] then first
    else first + ";" + Header(Piece(params[0].key, params[0].value), params[1..])
  }

  lemma {:induction false} SplitHeader(first: string, params: seq<Param>)
    requires Whole(first) && AllAccepted(params)
    ensures Split(Header(first, params)) == [first] + Pieces(params)
    decreases |params|
  {
    if params == [] {
      SplitOne(first);
    } else {
      var p := params[0];
      PieceIsWhole(p.key, p.value);
      SplitHeader(Piece(p.key, p.value), params[1..]);
      SplitFirst(first, Header(Piece(p.key, p.value), params[1..]));
    }
  }

  // ---------------------------------------------------------------------------
  // Reading values
  // ---------------------------------------------------------------------------

  /** A quoted-pair stands for its second character. */
  function Unescaped(s: string): string {
    if s == "" then ""
    else if s[0] == '\\' && |s| > 1 then [s[1]] + Unescaped(s[2..])
    else [s[0]] + Unescaped(s[1..])
  }

  function Unquoted(v: string): string {
    if |v| >= 2 && v[0] == '"' && v[|v| - 1] == '"' then Unescaped(v[1..|v| - 1]) else v
  }

  /** The parameter a piece spells. */
  function Read(piece: string): Option<Param> {
    var p := Partition(piece);
    if p.1.None? then None else Some(Param(Strip(p.0), Unquoted(p.1.value)))
  }

  lemma EscapedLast(s: string)
    ensures Escaped("") == ""
    ensures s != "" ==> Escaped(s) == Escaped(s[..|s| - 1]) + EscapedChar(s[|s| - 1])
  {
  }

  lemma {:induction false} EscapedFirst(c: char, s: string)
    ensures Escaped([c] + s) == EscapedChar(c) + Escaped(s)
    decreases |s|
  {
    hide Escaped, EscapedChar;
    var t := [c] + s;
    EscapedLast(t);
    EscapedLast(s);
    if s == "" {
      assert t[..0] == "" && "" + EscapedChar(c) == EscapedChar(c) + "";
    } else {
      var n := |s| - 1;
      EscapedFirst(c, s[..n]);
      assert t[..|t| - 1] == [c] + s[..n];
      JoinedAgain(EscapedChar(c), Escaped(s[..n]), EscapedChar(s[n]));
    }
  }

  lemma JoinedAgain(a: string, b: string, c: string)
    ensures (a + b) + c == a + (b + c)
  {
  }

  lemma {:induction false} UnescapedIsInverse(value: string)
    ensures Unescaped(Escaped(value)) == value
  {
    if value != "" {
      var c, rest := value[0], value[1..];
      assert value == [c] + rest;
      EscapedFirst(c, rest);
      UnescapedIsInverse(rest);
      var e := Escaped(value);
      assert e[|EscapedChar(c)|..] == Escaped(rest);
    }
  }

  lemma UnquotedIsInverse(value: string)
    ensures Unquoted(PrintedValue(value)) == value
  {
    if Token(value) {
      TokenIsUnmarked(value);
    } else {
      UnescapedIsInverse(value);
      var q := Quoted(value);
      assert |q| >= 2 && q[0] == '"' && q[|q| - 1] == '"' && q[1..|q| - 1] == Escaped(value);
    }
  }

  lemma {:induction false} PartitionAt(name: string, rest: string)
    requires forall i | 0 <= i < |name| :: name[i] != '='
    ensures Partition(name + "=" + rest) == (name, Some(rest))
    decreases |name|
  {
    var piece := name + "=" + rest;
    if name == "" {
      assert piece[1..] == rest;
    } else {
      PartitionAt(name[1..], rest);
      assert piece[0] == name[0] && piece[1..] == name[1..] + "=" + rest;
      assert name == [name[0]] + name[1..];
    }
  }

  lemma StripToken(key: string)
    requires Token(key)
    ensures Strip(" " + key) == key
  {
    TokenIsUnmarked(key);
    assert (" " + key)[1..] == key;
  }

  /** A printed parameter reads back as it was. */
  lemma ReadsBack(key: string, value: string)
    requires Accepted(key, value)
    ensures Read(Piece(key, value)) == Some(Param(key, value))
    ensures ExtendedName(Piece(key, value)) <==> EndsInStar(key)
  {
    TokenIsUnmarked(key);
    PartitionAt(" " + key, PrintedValue(value));
    StripToken(key);
    UnquotedIsInverse(value);
  }

  function ReadAll(pieces: seq<string>): seq<Option<Param>> {
    if pieces == [] then [] else [Read(pieces[0])] + ReadAll(pieces[1..])
  }

  function AllSome(params: seq<Param>): seq<Option<Param>> {
    if params == [] then [] else [Some(params[0])] + AllSome(params[1..])
  }

  lemma {:induction false} PiecesReadBack(params: seq<Param>)
    requires AllAccepted(params)
    ensures ReadAll(Pieces(params)) == AllSome(params)
  {
    if params != [] {
      ReadsBack(params[0].key, params[0].value);
      PiecesReadBack(params[1..]);
      assert Pieces(params)[1..] == Pieces(params[1..]);
    }
  }

  /** The media type and the parameters, joined; `None` if one of them is refused. */
  function Printed(media: string, params: seq<Param>): Option<string>
    decreases |params|
  {
    if params == [] then Some(media)
    else
      var first := Parameter(params[0].key, params[0].value);
      if first.None? then None else Printed(media + "; " + first.value, params[1..])
  }

  lemma HeaderBehind(a: string, b: string, params: seq<Param>)
    ensures Header(a + b, params) == a + Header(b, params)
  {
    if params != [] {
      var rest := Header(Piece(params[0].key, params[0].value), params[1..]);
      assert (a + b) + ";" + rest == a + (b + ";" + rest);
    }
  }

  /** Printing fails exactly if a parameter is refused, and otherwise makes the header. */
  lemma {:induction false} PrintedIsHeader(media: string, params: seq<Param>)
    ensures Printed(media, params) == if AllAccepted(params) then Some(Header(media, params)) else None
    decreases |params|
  {
    hide Token, Quotable, EndsInBackslash, PrintedValue;
    if params != [] {
      var p := params[0];
      var more := media + "; " + (p.key + "=" + PrintedValue(p.value));
      PrintedIsHeader(more, params[1..]);
      assert more == (media + ";") + Piece(p.key, p.value);
      HeaderBehind(media + ";", Piece(p.key, p.value), params[1..]);
      assert params == [p] + params[1..];
    }
  }

  /**
    A header is printed exactly if every parameter is accepted. It is then split into the
    media type and the printed parameters, and every parameter reads back, whatever
    semicolons, quotes and backslashes its value holds.
   */
  lemma HeaderReadsBack(media: string, params: seq<Param>)
    requires Unmarked(media)
    ensures var header := Printed(media, params);
            && (header.Some? <==> forall i | 0 <= i < |params| :: Parameter(params[i].key, params[i].value).Some?)
            && (header.Some? ==>
                  var pieces := Split(header.value);
                  pieces[0] == media && ReadAll(pieces[1..]) == AllSome(params))
  {
    PrintedIsHeader(media, params);
    if AllAccepted(params) {
      UnmarkedIsWhole(media);
      SplitHeader(media, params);
      assert ([media] + Pieces(params))[1..] == Pieces(params);
      PiecesReadBack(params);
    }
  }
}

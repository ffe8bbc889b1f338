/** Replacing spans of a text, from the last to the first, without moving its lines. */
module Splicing {
  import opened Text

  /** How many bytes UTF-8 takes for a character. */
  function Width(c: char): nat {
    if c < '\U{80}' then 1 else if c < '\U{800}' then 2 else if c < '\U{10000}' then 3 else 4
  }

  /** `len(s.encode())`. */
  function Bytes(s: string): nat {
    if s == "" then 0 else Width(s[0]) + Bytes(s[1..])
  }

  lemma {:induction false} BytesConcat(a: string, b: string)
    ensures Bytes(a + b) == Bytes(a) + Bytes(b)
    decreases |a|
  {
    if a == "" {
      assert a + b == b;
    } else {
      assert (a + b)[1..] == a[1..] + b;
      BytesConcat(a[1..], b);
    }
  }

  // ---------------------------------------------------------------------------
  // Flattening
  // ---------------------------------------------------------------------------

  /** The length of the line ending a text begins with, or 0: `\r\n|\r|\n`. */
  function Ending(s: string): (n: nat)
    ensures n <= |s|
  {
    if |s| >= 2 && s[0] == '\r' && s[1] == '\n' then 2
    else if s != "" && (s[0] == '\r' || s[0] == '\n') then 1
    else 0
  }

  /** Every line ending becomes a space. */
  function OneLine(s: string): string {
    if s == "" then ""
    else if Ending(s) > 0 then " " + OneLine(s[Ending(s)..])
    else [s[0]] + OneLine(s[1..])
  }

  /** The line endings of a text, joined. */
  function LineEndings(s: string): string {
    if s == "" then ""
    else if Ending(s) > 0 then s[..Ending(s)] + LineEndings(s[Ending(s)..])
    else LineEndings(s[1..])
  }

  /** `_flatten_include`: the included text on one line, then the line endings it replaces. */
  function FlattenInclude(included: string, replaced: string): string {
    OneLine(included) + LineEndings(replaced)
  }

  lemma {:induction false} OneLineHasNoLines(s: string)
    ensures Count(OneLine(s), '\n') == 0 && Bytes(OneLine(s)) <= Bytes(s)
    decreases |s|
  {
    if s != "" {
      var n := if Ending(s) > 0 then Ending(s) else 1;
      var head := if Ending(s) > 0 then " " else [s[0]];
      OneLineHasNoLines(s[n..]);
      CountConcat(head, OneLine(s[n..]), '\n');
      BytesConcat(head, OneLine(s[n..]));
      BytesConcat(s[..n], s[n..]);
      assert s == s[..n] + s[n..];
      assert s[..n] == [s[0]] + s[1..n];
      assert head[1..] == "" && s[..n][1..] == s[1..n];
    }
  }

  lemma {:induction false} LineEndingsKeepLines(s: string)
    ensures Count(LineEndings(s), '\n') == Count(s, '\n') && Bytes(LineEndings(s)) <= Bytes(s)
    decreases |s|
  {
    if s != "" {
      var n := if Ending(s) > 0 then Ending(s) else 1;
      LineEndingsKeepLines(s[n..]);
      assert s == s[..n] + s[n..];
      CountConcat(s[..n], s[n..], '\n');
      BytesConcat(s[..n], s[n..]);
      if Ending(s) > 0 {
        CountConcat(s[..n], LineEndings(s[n..]), '\n');
        BytesConcat(s[..n], LineEndings(s[n..]));
      } else {
        assert s[..1] == [s[0]] && [s[0]][1..] == "";
      }
    }
  }

  /** What takes the place of a tag has the tag's line breaks, and the bytes of both at most. */
  lemma FlattenKeepsLines(included: string, replaced: string)
    ensures Count(FlattenInclude(included, replaced), '\n') == Count(replaced, '\n')
    ensures Bytes(FlattenInclude(included, replaced)) <= Bytes(included) + Bytes(replaced)
  {
    OneLineHasNoLines(included);
    LineEndingsKeepLines(replaced);
    CountConcat(OneLine(included), LineEndings(replaced), '\n');
    BytesConcat(OneLine(included), LineEndings(replaced));
  }

  // ---------------------------------------------------------------------------
  // What takes the place of a tag, character by character
  // ---------------------------------------------------------------------------

  predicate IsBreak(c: char) { c == '\r' || c == '\n' }

  /** The second half of a `\r\n`. */
  predicate SecondHalf(s: string, i: nat)
    requires i < |s|
  {
    i > 0 && s[i] == '\n' && s[i - 1] == '\r'
  }

  /** The `\r\n` that end before position `i`. */
  function Pairs(s: string, i: nat): (n: nat)
    requires i <= |s|
    ensures n <= i
  {
    if i == 0 then 0 else Pairs(s, i - 1) + if SecondHalf(s, i - 1) then 1 else 0
  }

  /** `t` is `s` with a space for each `\r\n`, `\r` or `\n`, and every other character in its place. */
  ghost predicate OnOneLine(s: string, t: string) {
    && |t| == |s| - Pairs(s, |s|)
    && forall i: nat {:trigger StandsAt(s, t, i)} | i < |s| && !SecondHalf(s, i) :: StandsAt(s, t, i)
  }

  /** Where the character at `i` is in the text on one line, and what it is there. */
  predicate StandsAt(s: string, t: string, i: nat)
    requires i < |s|
  {
    i - Pairs(s, i) < |t| && t[i - Pairs(s, i)] == if IsBreak(s[i]) then ' ' else s[i]
  }

  function Breaks(s: string): nat { Count(s, '\n') + Count(s, '\r') }

  /** `t` is the line break characters of `s`, in their order. */
  ghost predicate BreaksOf(s: string, t: string) {
    && |t| == Breaks(s)
    && forall i: nat | i < |s| && IsBreak(s[i]) :: Breaks(s[..i]) < |t| && t[Breaks(s[..i])] == s[i]
  }

  /** The included text on one line, and then the line breaks of the tag. */
  ghost predicate TakesThePlace(included: string, replaced: string, t: string) {
    exists k: nat :: k <= |t| && OnOneLine(included, t[..k]) && BreaksOf(replaced, t[k..])
  }

  lemma {:induction false} PairsBehind(s: string, n: nat, i: nat)
    requires n + i <= |s| && (n < |s| ==> !SecondHalf(s, n))
    ensures Pairs(s, n + i) == Pairs(s, n) + Pairs(s[n..], i)
    ensures i > 0 && n + i < |s| ==> (SecondHalf(s, n + i) <==> SecondHalf(s[n..], i))
    decreases i
  {
    if i > 0 {
      PairsBehind(s, n, i - 1);
    }
  }

  lemma BehindFirst(s: string, n: nat, c: char, rest: string, i: nat)
    requires 0 < n <= i < |s| && StandsAt(s[n..], rest, i - n)
    requires Pairs(s, i) == n - 1 + Pairs(s[n..], i - n)
    ensures StandsAt(s, [c] + rest, i)
  {
    hide Pairs, IsBreak;
    assert s[n..][i - n] == s[i];
  }

  /** What stands in the rest stands in the whole. */
  lemma StandsInRest(s: string, n: nat, rest: string, i: nat)
    requires 0 < n <= i < |s| && OnOneLine(s[n..], rest) && !SecondHalf(s, i) && !SecondHalf(s, n)
    ensures Pairs(s, i) == Pairs(s, n) + Pairs(s[n..], i - n)
    ensures StandsAt(s[n..], rest, i - n)
  {
    PairsBehind(s, n, i - n);
    assert !SecondHalf(s[n..], i - n);
    hide Pairs, SecondHalf, StandsAt;
  }

  /** One line ending, or one other character, in front of the rest. */
  lemma OnOneLineBehind(s: string, n: nat, c: char, rest: string)
    requires 0 < n <= |s| && OnOneLine(s[n..], rest)
    requires Pairs(s, n) == n - 1 && (n < |s| ==> !SecondHalf(s, n))
    requires forall i | 0 < i < n :: SecondHalf(s, i)
    requires c == if IsBreak(s[0]) then ' ' else s[0]
    ensures OnOneLine(s, [c] + rest)
  {
    hide Pairs, SecondHalf, StandsAt;
    PairsBehind(s, n, |s| - n);
    assert |[c] + rest| == |s| - Pairs(s, |s|);
    forall i: nat | i < |s| && !SecondHalf(s, i) ensures StandsAt(s, [c] + rest, i) {
      if i >= n {
        StandsInRest(s, n, rest, i);
        BehindFirst(s, n, c, rest, i);
      } else {
        FirstStands(s, c, rest);
      }
    }
  }

  lemma FirstStands(s: string, c: char, rest: string)
    requires s != "" && c == if IsBreak(s[0]) then ' ' else s[0]
    ensures StandsAt(s, [c] + rest, 0)
  {
    assert Pairs(s, 0) == 0;
  }

  lemma EndingInFront(s: string, n: nat)
    requires s != "" && n == if Ending(s) > 0 then Ending(s) else 1
    ensures Pairs(s, n) == n - 1 && (n < |s| ==> !SecondHalf(s, n))
    ensures forall i | 0 < i < n :: SecondHalf(s, i)
    ensures Ending(s) > 0 <==> IsBreak(s[0])
  {
    assert Pairs(s, 1) == 0;
  }

  lemma {:induction false} OneLineIsOnOneLine(s: string)
    ensures OnOneLine(s, OneLine(s))
    decreases |s|
  {
    if s != "" {
      var n := if Ending(s) > 0 then Ending(s) else 1;
      OneLineIsOnOneLine(s[n..]);
      EndingInFront(s, n);
      OnOneLineBehind(s, n, if Ending(s) > 0 then ' ' else s[0], OneLine(s[n..]));
      hide OnOneLine, Ending, Pairs, SecondHalf;
    }
  }

  lemma BreaksConcat(a: string, b: string)
    ensures Breaks(a + b) == Breaks(a) + Breaks(b)
  {
    CountConcat(a, b, '\n');
    CountConcat(a, b, '\r');
  }

  /** Line breaks in front, and those of the rest. */
  lemma BreaksBehind(head: string, tail: string, first: string, rest: string)
    requires BreaksOf(head, first) && BreaksOf(tail, rest)
    ensures BreaksOf(head + tail, first + rest)
  {
    var s := head + tail;
    BreaksConcat(head, tail);
    hide Breaks;
    forall i: nat | i < |s| && IsBreak(s[i])
      ensures Breaks(s[..i]) < |first + rest| && (first + rest)[Breaks(s[..i])] == s[i]
    {
      if i < |head| {
        assert s[..i] == head[..i];
      } else {
        assert s[..i] == head + tail[..i - |head|];
        BreaksConcat(head, tail[..i - |head|]);
      }
    }
  }

  lemma BreaksOfEnding(s: string)
    requires s != ""
    ensures var n := if Ending(s) > 0 then Ending(s) else 1;
            BreaksOf(s[..n], if Ending(s) > 0 then s[..n] else "")
  {
    BreaksOfOne(s[0]);
    if Ending(s) == 2 {
      BreaksOfOne(s[1]);
      BreaksBehind([s[0]], [s[1]], [s[0]], [s[1]]);
      assert s[..2] == [s[0]] + [s[1]];
    } else {
      assert s[..1] == [s[0]];
    }
  }

  lemma CountOne(c: char, d: char)
    ensures Count([c], d) == if c == d then 1 else 0
  {
    assert [c][1..] == "";
  }

  lemma BreaksOfOne(c: char)
    ensures BreaksOf([c], if IsBreak(c) then [c] else "")
  {
    var s := [c];
    CountOne(c, '\n');
    CountOne(c, '\r');
    forall i: nat | i < |s| && IsBreak(s[i])
      ensures Breaks(s[..i]) < |[c]| && [c][Breaks(s[..i])] == s[i]
    {
      assert s[..i] == "";
    }
  }

  lemma {:induction false} LineEndingsAreBreaks(s: string)
    ensures BreaksOf(s, LineEndings(s))
    decreases |s|
  {
    if s != "" {
      var n := if Ending(s) > 0 then Ending(s) else 1;
      LineEndingsAreBreaks(s[n..]);
      BreaksOfEnding(s);
      assert s == s[..n] + s[n..];
      assert "" + LineEndings(s[n..]) == LineEndings(s[n..]);
      BreaksBehind(s[..n], s[n..], if Ending(s) > 0 then s[..n] else "", LineEndings(s[n..]));
    }
  }

  lemma FlattenTakesThePlace(included: string, replaced: string)
    ensures TakesThePlace(included, replaced, FlattenInclude(included, replaced))
  {
    OneLineIsOnOneLine(included);
    LineEndingsAreBreaks(replaced);
    var t, k := FlattenInclude(included, replaced), |OneLine(included)|;
    assert t[..k] == OneLine(included) && t[k..] == LineEndings(replaced);
  }

  /** A text without line breaks stands whole. */
  lemma OnOneLineIsWhole(s: string, t: string)
    requires OnOneLine(s, t) && forall i | 0 <= i < |s| :: !IsBreak(s[i])
    ensures t == s
  {
    NoPairs(s, |s|);
    forall i: nat | i < |s| ensures i < |t| && t[i] == s[i] {
      NoPairs(s, i);
      assert !SecondHalf(s, i);
      assert StandsAt(s, t, i);
    }
  }

  /** Included text without line breaks stands whole, followed by the line breaks of the tag alone. */
  lemma PlainTextStandsWhole(included: string, replaced: string, t: string)
    requires TakesThePlace(included, replaced, t) && forall i | 0 <= i < |included| :: !IsBreak(included[i])
    ensures |included| <= |t| && t[..|included|] == included && BreaksOf(replaced, t[|included|..])
  {
    var k: nat :| k <= |t| && OnOneLine(included, t[..k]) && BreaksOf(replaced, t[k..]);
    OnOneLineIsWhole(included, t[..k]);
  }

  lemma {:induction false} NoPairs(s: string, i: nat)
    requires i <= |s| && forall k | 0 <= k < |s| :: !IsBreak(s[k])
    ensures Pairs(s, i) == 0
  {
    if i > 0 {
      NoPairs(s, i - 1);
    }
  }

  // ---------------------------------------------------------------------------
  // Substitution
  // ---------------------------------------------------------------------------

  /** A span of the text, and the template that takes its place. */
  datatype Splice = Splice(start: nat, end: nat, included: string)

  predicate Fits(r: Splice, content: string) { r.start < r.end <= |content| }

  predicate Disjoint(a: Splice, b: Splice) { a.end <= b.start || b.end <= a.start }

  /** In ascending order from `from`, without overlap. */
  predicate Ascending(rs: seq<Splice>, content: string, from: nat) {
    from <= |content|
    && (rs == [] || (from <= rs[0].start && Fits(rs[0], content) && Ascending(rs[1..], content, rs[0].end)))
  }

  function Replacement(content: string, r: Splice): string
    requires Fits(r, content)
  {
    FlattenInclude(r.included, content[r.start..r.end])
  }

  /** All spans replaced at once. */
  function Substituted(content: string, rs: seq<Splice>, from: nat): string
    requires Ascending(rs, content, from)
  {
    if rs == [] then content[from..]
    else content[from..rs[0].start] + Replacement(content, rs[0]) + Substituted(content, rs[1..], rs[0].end)
  }

  lemma Cut(s: string, i: nat, j: nat, k: nat)
    requires i <= j <= k <= |s|
    ensures s[i..k] == s[i..j] + s[j..k]
  {
  }

  lemma CutTwice(s: string, i: nat, j: nat, k: nat)
    requires i <= j <= k <= |s|
    ensures s[i..] == s[i..j] + s[j..k] + s[k..]
  {
  }

  lemma Regroup(a: string, b: string, c: string, d: string)
    ensures a + b + c + d == a + (b + c + d)
  {
  }

  lemma {:induction false} AscendingPrefix(rs: seq<Splice>, content: string, from: nat, n: nat)
    requires Ascending(rs, content, from) && n < |rs|
    ensures var before := if n == 0 then from else rs[n - 1].end;
            from <= before <= rs[n].start && Fits(rs[n], content) && Ascending(rs[n..], content, before)
    decreases n
  {
    if n == 0 {
      assert rs[0..] == rs;
    } else {
      AscendingPrefix(rs[1..], content, rs[0].end, n - 1);
      assert rs[1..][n - 1..] == rs[n..];
    }
  }

  /** The last spans from number `n` on are replaced, and the text before them is as it was. */
  ghost predicate ReplacedFrom(out: string, content: string, rs: seq<Splice>, n: nat)
    requires n <= |rs|
  {
    var from := if n == 0 then 0 else rs[n - 1].end;
    Ascending(rs[n..], content, from) && out == content[..from] + Substituted(content, rs[n..], from)
  }

  lemma ReplaceOneMore(out: string, content: string, rs: seq<Splice>, n: nat)
    requires 0 < n <= |rs| && Ascending(rs, content, 0) && ReplacedFrom(out, content, rs, n)
    ensures var r := rs[n - 1];
            && Fits(r, content) && r.end <= |out|
            && ReplacedFrom(out[..r.start] + Replacement(content, r) + out[r.end..], content, rs, n - 1)
  {
    var r := rs[n - 1];
    var from := if n == 1 then 0 else rs[n - 2].end;
    var rest := Substituted(content, rs[n..], r.end);
    AscendingPrefix(rs, content, 0, n - 1);
    assert rs[n - 1..][1..] == rs[n..];
    assert out[..r.start] == content[..r.start] && out[r.end..] == rest;
    Cut(content, 0, from, r.start);
    assert content[..r.start] == content[..from] + content[from..r.start];
    Regroup(content[..from], content[from..r.start], Replacement(content, r), rest);
  }

  /** The loop that replaces span after span, the last one first, replaces all at once. */
  method ReplaceFromTheEnd(content: string, rs: seq<Splice>) returns (out: string)
    requires Ascending(rs, content, 0)
    ensures out == Substituted(content, rs, 0)
  {
    out := content;
    var n: nat := |rs|;
    assert ReplacedFrom(out, content, rs, n) by {
      if n > 0 {
        AscendingPrefix(rs, content, 0, n - 1);
      }
    }
    while n > 0
      invariant n <= |rs| && ReplacedFrom(out, content, rs, n)
    {
      n := n - 1;
      ReplaceOneMore(out, content, rs, n + 1);
      var r := rs[n];
      out := out[..r.start] + Replacement(content, r) + out[r.end..];
    }
    assert rs[0..] == rs && content[..0] == "";
  }

  // ---------------------------------------------------------------------------
  // Where everything stands
  // ---------------------------------------------------------------------------

  /** Where the text for span `i` begins: behind the characters and the texts in front of it. */
  function TextBegins(rs: seq<Splice>, texts: seq<string>, from: nat, i: nat): int
    requires i < |rs| == |texts|
    decreases i
  {
    if i == 0 then rs[0].start - from
    else rs[0].start - from + |texts[0]| + TextBegins(rs[1..], texts[1..], rs[0].end, i - 1)
  }

  /**
    The text for span `i` stands in `out`, in front of the characters that follow the
    span up to the next one.
   */
  ghost predicate StandsIn(out: string, content: string, rs: seq<Splice>, texts: seq<string>, from: nat, i: nat)
    requires i < |rs| == |texts|
  {
    var at := TextBegins(rs, texts, from, i);
    var next := if i + 1 < |rs| then TextBegins(rs, texts, from, i + 1) else |out|;
    var end := if i + 1 < |rs| then rs[i + 1].start else |content|;
    && Fits(rs[i], content) && 0 <= at && at + |texts[i]| <= next <= |out|
    && out[at..at + |texts[i]|] == texts[i]
    && TakesThePlace(rs[i].included, content[rs[i].start..rs[i].end], texts[i])
    && rs[i].end <= end <= |content| && out[at + |texts[i]|..next] == content[rs[i].end..end]
  }

  /**
    The content from `from` on with one text in the place of each span: in front of the
    first, between them and behind the last, all is as it was.
   */
  ghost predicate SplicedAs(out: string, content: string, rs: seq<Splice>, texts: seq<string>, from: nat) {
    && |texts| == |rs| && from <= |content|
    && (rs == [] ==> out == content[from..])
    && (rs != [] ==>
          && from <= rs[0].start <= |content| && rs[0].start - from <= |out|
          && out[..rs[0].start - from] == content[from..rs[0].start])
    && (forall i: nat | i < |rs| :: StandsIn(out, content, rs, texts, from, i))
  }

  /** One more span in front. */
  lemma SplicedInFront(rest: string, content: string, rs: seq<Splice>, text: string, texts: seq<string>, from: nat)
    requires rs != [] && from <= rs[0].start && Fits(rs[0], content)
    requires SplicedAs(rest, content, rs[1..], texts, rs[0].end)
    requires TakesThePlace(rs[0].included, content[rs[0].start..rs[0].end], text)
    ensures SplicedAs(content[from..rs[0].start] + text + rest, content, rs, [text] + texts, from)
  {
    hide TakesThePlace;
    var head := content[from..rs[0].start] + text;
    var out, all := head + rest, [text] + texts;
    assert all[1..] == texts;
    forall i: nat | i < |rs| ensures StandsIn(out, content, rs, all, from, i) {
      if i == 0 {
        if |rs| > 1 {
          assert rest[..rs[1].start - rs[0].end] == content[rs[0].end..rs[1].start];
        }
      } else {
        assert StandsIn(rest, content, rs[1..], texts, rs[0].end, i - 1);
        StandsBehind(head, rest, content, rs, all, from, i);
      }
    }
  }

  lemma StandsBehind(head: string, rest: string, content: string, rs: seq<Splice>, texts: seq<string>, from: nat, i: nat)
    requires 0 < i < |rs| == |texts| && |head| == rs[0].start - from + |texts[0]|
    requires StandsIn(rest, content, rs[1..], texts[1..], rs[0].end, i - 1)
    ensures StandsIn(head + rest, content, rs, texts, from, i)
  {
    hide TakesThePlace;
    var at := TextBegins(rs[1..], texts[1..], rs[0].end, i - 1);
    var next := if i + 1 < |rs| then TextBegins(rs[1..], texts[1..], rs[0].end, i) else |rest|;
    SliceBehind(head, rest, at, at + |texts[i]|);
    SliceBehind(head, rest, at + |texts[i]|, next);
  }

  lemma SliceBehind(a: string, b: string, i: nat, j: nat)
    requires i <= j <= |b|
    ensures (a + b)[|a| + i..|a| + j] == b[i..j]
  {
  }

  /** What the substitution puts where. */
  lemma {:induction false} SubstitutedIsSpliced(content: string, rs: seq<Splice>, from: nat) returns (texts: seq<string>)
    requires Ascending(rs, content, from)
    ensures SplicedAs(Substituted(content, rs, from), content, rs, texts, from)
    decreases |rs|
  {
    if rs == [] {
      texts := [];
    } else {
      var r := rs[0];
      var rest := SubstitutedIsSpliced(content, rs[1..], r.end);
      FlattenTakesThePlace(r.included, content[r.start..r.end]);
      SplicedInFront(Substituted(content, rs[1..], r.end), content, rs, Replacement(content, r), rest, from);
      texts := [Replacement(content, r)] + rest;
    }
  }

  // ---------------------------------------------------------------------------
  // Sorting
  // ---------------------------------------------------------------------------

  function Insert(r: Splice, rs: seq<Splice>): seq<Splice> {
    if rs == [] || r.start <= rs[0].start then [r] + rs else [rs[0]] + Insert(r, rs[1..])
  }

  /** `sorted(replacements)`; the loop takes them in reverse. */
  function Sorted(rs: seq<Splice>): seq<Splice> {
    if rs == [] then [] else Insert(rs[|rs| - 1], Sorted(rs[..|rs| - 1]))
  }

  ghost predicate FitsAll(rs: seq<Splice>, content: string) {
    forall i | 0 <= i < |rs| :: Fits(rs[i], content)
  }

  ghost predicate DisjointAll(rs: seq<Splice>) {
    forall i, j | 0 <= i < j < |rs| :: Disjoint(rs[i], rs[j])
  }

  ghost predicate DisjointFrom(r: Splice, rs: seq<Splice>) {
    forall i | 0 <= i < |rs| :: Disjoint(r, rs[i])
  }

  lemma {:induction false} InsertAscends(r: Splice, rs: seq<Splice>, content: string, from: nat)
    requires Ascending(rs, content, from) && Fits(r, content) && DisjointFrom(r, rs) && from <= r.start
    ensures Ascending(Insert(r, rs), content, from)
    decreases |rs|
  {
    var all := Insert(r, rs);
    if rs == [] {
      assert all[1..] == [];
    } else if r.start <= rs[0].start {
      assert Disjoint(r, rs[0]);
      assert all[1..] == rs;
    } else {
      assert Disjoint(r, rs[0]);
      assert forall i | 0 <= i < |rs[1..]| :: rs[1..][i] == rs[i + 1];
      InsertAscends(r, rs[1..], content, rs[0].end);
      assert all[1..] == Insert(r, rs[1..]);
    }
  }

  lemma {:induction false} InsertHolds(r: Splice, rs: seq<Splice>)
    ensures forall x :: x in Insert(r, rs) <==> x == r || x in rs
    ensures Included(Insert(r, rs)) == Bytes(r.included) + Included(rs)
    decreases |rs|
  {
    if rs == [] || r.start <= rs[0].start {
      assert ([r] + rs)[1..] == rs;
    } else {
      InsertHolds(r, rs[1..]);
      assert Insert(r, rs)[1..] == Insert(r, rs[1..]);
      assert rs == [rs[0]] + rs[1..];
      assert Insert(r, rs) == [rs[0]] + Insert(r, rs[1..]);
    }
  }

  /** The bytes of all included templates. */
  function Included(rs: seq<Splice>): nat {
    if rs == [] then 0 else Bytes(rs[0].included) + Included(rs[1..])
  }

  /** Sorted by their start, spans that do not overlap ascend. */
  lemma {:induction false} SortedAscends(rs: seq<Splice>, content: string)
    requires FitsAll(rs, content) && DisjointAll(rs)
    ensures Ascending(Sorted(rs), content, 0)
    ensures forall x :: x in Sorted(rs) <==> x in rs
    decreases |rs|
  {
    if rs != [] {
      var n := |rs| - 1;
      var r, before := rs[n], rs[..n];
      SortedAscends(before, content);
      forall i | 0 <= i < |Sorted(before)| ensures Disjoint(r, Sorted(before)[i]) {
        assert Sorted(before)[i] in before;
        var j :| 0 <= j < n && before[j] == Sorted(before)[i];
        assert Disjoint(rs[j], rs[n]);
      }
      InsertAscends(r, Sorted(before), content, 0);
      InsertHolds(r, Sorted(before));
      assert rs == before + [r];
    }
  }

  lemma {:induction false} SortedMore(rs: seq<Splice>, r: Splice)
    ensures Included(Sorted(rs + [r])) == Included(Sorted(rs)) + Bytes(r.included)
  {
    assert (rs + [r])[..|rs|] == rs;
    InsertHolds(r, Sorted(rs));
  }

  // ---------------------------------------------------------------------------
  // Size and lines
  // ---------------------------------------------------------------------------

  lemma BytesOfThree(a: string, b: string, c: string)
    ensures Bytes(a + b + c) == Bytes(a) + Bytes(b) + Bytes(c)
  {
    BytesConcat(a + b, c);
    BytesConcat(a, b);
  }

  /** Substituting adds at most the bytes of the included templates. */
  lemma {:induction false} SubstitutedSize(content: string, rs: seq<Splice>, from: nat)
    requires Ascending(rs, content, from)
    ensures Bytes(Substituted(content, rs, from)) <= Bytes(content[from..]) + Included(rs)
    decreases |rs|
  {
    if rs == [] {
    } else {
      hide Replacement, Bytes, FlattenInclude;
      var r := rs[0];
      var head, span, tail := content[from..r.start], content[r.start..r.end], content[r.end..];
      var text, rest := Replacement(content, r), Substituted(content, rs[1..], r.end);
      SubstitutedSize(content, rs[1..], r.end);
      FlattenKeepsLines(r.included, span);
      BytesOfThree(head, text, rest);
      BytesOfThree(head, span, tail);
      CutTwice(content, from, r.start, r.end);
    }
  }

  /** No span covers the character at `p`. */
  predicate Outside(rs: seq<Splice>, p: nat) {
    forall i | 0 <= i < |rs| :: p < rs[i].start || rs[i].end <= p
  }

  /** Where a literal character of the text is after the substitution. */
  function Where(content: string, rs: seq<Splice>, from: nat, p: nat): nat
    requires Ascending(rs, content, from) && from <= p
  {
    if rs == [] || p < rs[0].end then p - from
    else rs[0].start - from + |Replacement(content, rs[0])| + Where(content, rs[1..], rs[0].end, p)
  }

  /** Every literal character is kept, on the line it was on. */
  lemma {:induction false} LiteralsKeepTheirLines(content: string, rs: seq<Splice>, from: nat, p: nat)
    requires Ascending(rs, content, from) && from <= p < |content| && Outside(rs, p)
    ensures var out, at := Substituted(content, rs, from), Where(content, rs, from, p);
            && at < |out| && out[at] == content[p]
            && Count(out[..at], '\n') == Count(content[from..p], '\n')
    decreases |rs|
  {
    hide Substituted, Replacement, Where, Count;
    if rs == [] || p < rs[0].end {
      LiteralInFront(content, rs, from, p);
    } else {
      LiteralBehind(content, rs, from, p);
      var r := rs[0];
      assert forall i | 0 <= i < |rs[1..]| :: rs[1..][i] == rs[i + 1];
      LiteralsKeepTheirLines(content, rs[1..], r.end, p);
      BehindTheFirst(content[from..r.start], Replacement(content, r), Substituted(content, rs[1..], r.end),
        Where(content, rs[1..], r.end, p));
    }
  }

  /** A character before the first span is where it was. */
  lemma LiteralInFront(content: string, rs: seq<Splice>, from: nat, p: nat)
    requires Ascending(rs, content, from) && from <= p < |content| && Outside(rs, p)
    requires rs == [] || p < rs[0].end
    ensures var out, at := Substituted(content, rs, from), Where(content, rs, from, p);
            at < |out| && out[at] == content[p] && out[..at] == content[from..p]
  {
    hide Replacement;
    assert rs != [] ==> p < rs[0].start;
  }

  /** A character behind the first span: what is before it, and the lines there. */
  lemma LiteralBehind(content: string, rs: seq<Splice>, from: nat, p: nat)
    requires Ascending(rs, content, from) && rs != [] && rs[0].end <= p < |content|
    ensures var r := rs[0];
            var head, text := content[from..r.start], Replacement(content, r);
            && Substituted(content, rs, from) == head + text + Substituted(content, rs[1..], r.end)
            && Where(content, rs, from, p) == |head| + |text| + Where(content, rs[1..], r.end, p)
            && Count(content[from..p], '\n') == Count(head, '\n') + Count(text, '\n') + Count(content[r.end..p], '\n')
  {
    var r := rs[0];
    var head, span := content[from..r.start], content[r.start..r.end];
    FlattenKeepsLines(r.included, span);
    Cut(content, from, r.start, p);
    Cut(content, r.start, r.end, p);
    CountConcat(head, content[r.start..p], '\n');
    CountConcat(span, content[r.end..p], '\n');
  }

  lemma BehindTheFirst(head: string, text: string, rest: string, k: nat)
    requires k < |rest|
    ensures var out := head + text + rest;
            var at := |head| + |text| + k;
            && out[at] == rest[k]
            && Count(out[..at], '\n') == Count(head, '\n') + Count(text, '\n') + Count(rest[..k], '\n')
  {
    assert (head + text + rest)[..|head| + |text| + k] == head + text + rest[..k];
    CountConcat(head + text, rest[..k], '\n');
    CountConcat(head, text, '\n');
  }
}

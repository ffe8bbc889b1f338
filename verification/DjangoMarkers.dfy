/**
  Protecting Django tokens by numbered markers and restoring them, and exactly when this
  gives the source back.
 */
module DjangoMarkers {
  import opened Decimal
  import opened Text

  const MARKER := "DJHVTOKEN"

  // ---------------------------------------------------------------------------
  // Protecting and restoring
  // ---------------------------------------------------------------------------

  function Closer(c: char): string {
    if c == '{' then "}}" else if c == '%' then "%}" else "#}"
  }

  /** The length of the token a text begins with: an opener up to its nearest closer; or 0. */
  function TokenLength(s: string): (n: nat)
    ensures n <= |s| && (n > 0 ==> n >= 4 && s[0] == '{')
  {
    if |s| < 2 || s[0] != '{' || !(s[1] == '{' || s[1] == '%' || s[1] == '#') then 0
    else
      var found := Find(s, Closer(s[1]), 2);
      if found < 0 then 0 else found + 2
  }

  function TokensOf(s: string): seq<string> {
    if s == "" then []
    else if TokenLength(s) > 0 then [s[..TokenLength(s)]] + TokensOf(s[TokenLength(s)..])
    else TokensOf(s[1..])
  }

  /** Every token replaced by the prefix and its number, from `k` on. */
  function Protected(s: string, k: nat, prefix: string): string {
    if s == "" then ""
    else if TokenLength(s) > 0 then prefix + Print(k) + Protected(s[TokenLength(s)..], k + 1, prefix)
    else [s[0]] + Protected(s[1..], k, prefix)
  }

  function Digits(s: string): (n: nat)
    ensures n <= |s| && AllDigits(s[..n]) && (n < |s| ==> !IsDigit(s[n]))
  {
    if s == "" || !IsDigit(s[0]) then 0
    else
      var n := 1 + Digits(s[1..]);
      assert forall i | 0 < i < n :: s[..n][i] == s[1..][..n - 1][i - 1];
      n
  }

  /** What JavaScript makes of `tokens[index]`. */
  function Lookup(tokens: seq<string>, index: nat): string {
    if index < |tokens| then tokens[index] else "undefined"
  }

  /** The prefix and all digits behind it are replaced by the token of that number. */
  function Restored(p: string, tokens: seq<string>, prefix: string): string
    requires prefix != ""
    decreases |p|
  {
    if p == "" then ""
    else if prefix <= p && Digits(p[|prefix|..]) > 0 then
      var behind := p[|prefix|..];
      Lookup(tokens, Parse(behind[..Digits(behind)])) + Restored(behind[Digits(behind)..], tokens, prefix)
    else [p[0]] + Restored(p[1..], tokens, prefix)
  }

  /** `MARKER` and some underscores. */
  predicate IsPrefix(prefix: string) {
    MARKER <= prefix && forall i | |MARKER| <= i < |prefix| :: prefix[i] == '_'
  }

  /** `protectDjango`: underscores are added until the prefix is not in the source. */
  method ProtectDjango(source: string) returns (p: string, tokens: seq<string>, prefix: string)
    ensures IsPrefix(prefix) && !Occurs(source, prefix)
    ensures tokens == TokensOf(source) && p == Protected(source, 0, prefix)
  {
    prefix := MARKER;
    while Find(source, prefix, 0) >= 0
      invariant IsPrefix(prefix)
      decreases |source| + 1 - |prefix|
    {
      prefix := prefix + "_";
    }
    tokens := TokensOf(source);
    p := Protected(source, 0, prefix);
  }

  // ---------------------------------------------------------------------------
  // Tokens and prefixes
  // ---------------------------------------------------------------------------

  predicate IsToken(t: string) { t != "" && TokenLength(t) == |t| }

  /** What follows a token does not change where it ends. */
  lemma TokenEndsItself(t: string, u: string)
    requires IsToken(t)
    ensures TokenLength(t + u) == |t|
  {
    var w := Closer(t[1]);
    forall i: nat | i + 2 <= |t| ensures MatchAt(t + u, w, i) <==> MatchAt(t, w, i) {
      MatchInFront(t, u, w, i);
    }
    assert Find(t, w, 2) == |t| - 2;
    assert MatchAt(t + u, w, |t| - 2);
  }

  lemma TokenIsToken(s: string)
    requires TokenLength(s) > 0
    ensures IsToken(s[..TokenLength(s)])
  {
    var n := TokenLength(s);
    var t, w := s[..n], Closer(s[1]);
    assert s == t + s[n..];
    forall i: nat | i + 2 <= n ensures MatchAt(s, w, i) <==> MatchAt(t, w, i) {
      MatchInFront(t, s[n..], w, i);
    }
    assert MatchAt(t, w, n - 2);
  }

  lemma {:induction false} TokensAreTokens(s: string)
    ensures forall i | 0 <= i < |TokensOf(s)| :: IsToken(TokensOf(s)[i])
    decreases |s|
  {
    if s == "" {
    } else if TokenLength(s) > 0 {
      TokenIsToken(s);
      TokensAreTokens(s[TokenLength(s)..]);
    } else {
      TokensAreTokens(s[1..]);
    }
  }

  /** Two tokens that begin the same text are the same token. */
  lemma OneTokenBegins(a: string, u: string, b: string, v: string)
    requires IsToken(a) && IsToken(b) && a + u == b + v
    ensures a == b && u == v
  {
    TokenEndsItself(a, u);
    TokenEndsItself(b, v);
    assert a == (a + u)[..|a|] && b == (b + v)[..|b|];
    assert u == (a + u)[|a|..] && v == (b + v)[|b|..];
  }

  predicate NoCapitalD(w: string) { forall i | 0 <= i < |w| :: w[i] != 'D' }

  lemma PrefixTail(prefix: string)
    requires IsPrefix(prefix)
    ensures prefix[0] == 'D' && NoCapitalD(prefix[1..])
  {
    assert forall i | 0 <= i < |MARKER| :: prefix[i] == MARKER[i];
  }

  lemma ProtectedUnfolds(s: string, k: nat, prefix: string)
    requires IsPrefix(prefix) && s != ""
    ensures TokenLength(s) > 0 ==> Protected(s, k, prefix) != "" && Protected(s, k, prefix)[0] == 'D'
    ensures TokenLength(s) == 0 ==>
              Protected(s, k, prefix)[0] == s[0] && Protected(s, k, prefix)[1..] == Protected(s[1..], k, prefix)
  {
    PrefixTail(prefix);
  }

  /** A word that no marker can begin in is in the protected text only if it is in the source. */
  lemma {:induction false} PlainWord(s: string, k: nat, prefix: string, w: string)
    requires IsPrefix(prefix) && NoCapitalD(w) && w <= Protected(s, k, prefix)
    ensures w <= s
    decreases |w|
  {
    if w != "" {
      ProtectedUnfolds(s, k, prefix);
      assert w[0] == Protected(s, k, prefix)[0];
      assert w[1..] <= Protected(s, k, prefix)[1..];
      PlainWord(s[1..], k, prefix, w[1..]);
      assert w == [w[0]] + w[1..] && s == [s[0]] + s[1..];
    }
  }

  lemma OccursInTail(s: string, n: nat, w: string)
    requires n <= |s| && Occurs(s[n..], w)
    ensures Occurs(s, w)
  {
    var i: nat :| MatchAt(s[n..], w, i);
    MatchBehind(s[..n], s[n..], w, i);
    assert s == s[..n] + s[n..];
  }

  lemma BeginsWith(s: string, w: string)
    ensures w <= s ==> Occurs(s, w)
  {
    if w <= s {
      assert MatchAt(s, w, 0);
    }
  }

  /** A prefix in front of the protected text is one in front of the source, if no token is there. */
  lemma PrefixInSource(s: string, k: nat, prefix: string)
    requires IsPrefix(prefix) && s != "" && TokenLength(s) == 0 && prefix <= Protected(s, k, prefix)
    ensures prefix <= s
  {
    var p := Protected(s, k, prefix);
    PrefixTail(prefix);
    ProtectedUnfolds(s, k, prefix);
    assert prefix[0] == p[0] && prefix[1..] <= p[1..];
    PlainWord(s[1..], k, prefix, prefix[1..]);
    assert prefix == [prefix[0]] + prefix[1..] && s == [s[0]] + s[1..];
  }

  /** Outside the markers the prefix does not occur. */
  lemma NoMarkerHere(s: string, k: nat, prefix: string)
    requires IsPrefix(prefix) && s != "" && TokenLength(s) == 0 && !Occurs(s, prefix)
    ensures !(prefix <= Protected(s, k, prefix))
  {
    BeginsWith(s, prefix);
    if prefix <= Protected(s, k, prefix) {
      PrefixInSource(s, k, prefix);
    }
  }

  // ---------------------------------------------------------------------------
  // When restoring gives the source back
  // ---------------------------------------------------------------------------

  /** No token is followed by a digit at once. */
  predicate NoDigitBehindToken(s: string) {
    if s == "" then true
    else if TokenLength(s) > 0 then
      var rest := s[TokenLength(s)..];
      (rest == "" || !IsDigit(rest[0])) && NoDigitBehindToken(rest)
    else NoDigitBehindToken(s[1..])
  }

  ghost predicate Agrees(s: string, k: nat, tokens: seq<string>, prefix: string)
    requires prefix != ""
  {
    Restored(Protected(s, k, prefix), tokens, prefix) == s <==> NoDigitBehindToken(s)
  }

  /** The tokens of the source, and those of the rest of it from number `k` on. */
  ghost predicate Numbered(s: string, k: nat, tokens: seq<string>) {
    k <= |tokens| && tokens[k..] == TokensOf(s) && forall i | 0 <= i < |tokens| :: IsToken(tokens[i])
  }

  lemma {:induction false} DigitsOfRun(a: string, b: string)
    requires AllDigits(a)
    ensures Digits(a + b) == |a| + Digits(b)
  {
    if a == "" {
      assert a + b == b;
    } else {
      assert IsDigit(a[0]);
      assert (a + b)[0] == a[0] && (a + b)[1..] == a[1..] + b;
      DigitsOfRun(a[1..], b);
    }
  }

  /** What a marker and the text behind it come to. */
  lemma RestoreMarker(k: nat, q: string, tokens: seq<string>, prefix: string)
    requires prefix != ""
    ensures var n := Digits(q);
            Restored(prefix + Print(k) + q, tokens, prefix) ==
            Lookup(tokens, Parse(Print(k) + q[..n])) + Restored(q[n..], tokens, prefix)
  {
    hide Print, Parse, Lookup, IsPrefix;
    var p, run := prefix + Print(k) + q, Print(k);
    assert p[|prefix|..] == run + q;
    DigitsOfRun(run, q);
    hide Digits;
    assert (run + q)[..|run| + Digits(q)] == run + q[..Digits(q)];
    assert (run + q)[|run| + Digits(q)..] == q[Digits(q)..];
    assert prefix <= p && p != "";
  }

  /** Restored text begins with a digit only if the text did. */
  lemma RestoredBegins(p: string, tokens: seq<string>, prefix: string)
    requires IsPrefix(prefix) && forall i | 0 <= i < |tokens| :: IsToken(tokens[i])
    requires p != "" ==> !IsDigit(p[0])
    ensures var r := Restored(p, tokens, prefix); r == "" || !IsDigit(r[0])
  {
    if p != "" && prefix <= p && Digits(p[|prefix|..]) > 0 {
      var behind := p[|prefix|..];
      var index := Parse(behind[..Digits(behind)]);
      if index < |tokens| {
        assert IsToken(tokens[index]);
      }
    }
  }

  /** Digits in front of the protected rest are digits in front of the rest. */
  lemma ProtectedBegins(s: string, k: nat, prefix: string)
    requires IsPrefix(prefix)
    ensures Digits(Protected(s, k, prefix)) > 0 <==> s != "" && IsDigit(s[0])
  {
    if s != "" {
      ProtectedUnfolds(s, k, prefix);
    }
  }

  /** A digit behind a token is read as part of the marker's number, and lost. */
  lemma DigitIsLost(token: string, rest: string, k: nat, tokens: seq<string>, prefix: string)
    requires IsPrefix(prefix) && IsToken(token) && rest != "" && IsDigit(rest[0])
    requires forall i | 0 <= i < |tokens| :: IsToken(tokens[i])
    ensures Restored(prefix + Print(k) + Protected(rest, k + 1, prefix), tokens, prefix) != token + rest
  {
    var q := Protected(rest, k + 1, prefix);
    var n := Digits(q);
    var behind := Restored(q[n..], tokens, prefix);
    var found := Lookup(tokens, Parse(Print(k) + q[..n]));
    ProtectedBegins(rest, k + 1, prefix);
    RestoreMarker(k, q, tokens, prefix);
    RestoredBegins(q[n..], tokens, prefix);
    if found + behind == token + rest {
      assert (found + behind)[0] == token[0] == '{';
      FoundIsToken(found, behind, tokens);
      OneTokenBegins(found, behind, token, rest);
    }
  }

  /** What was looked up is a token if it begins like one. */
  lemma FoundIsToken(found: string, behind: string, tokens: seq<string>)
    requires (exists i: nat :: found == Lookup(tokens, i)) && found + behind != "" && (found + behind)[0] == '{'
    requires forall i | 0 <= i < |tokens| :: IsToken(tokens[i])
    ensures IsToken(found)
  {
    UndefinedBegins(behind);
  }

  lemma UndefinedBegins(behind: string)
    ensures ("undefined" + behind)[0] == 'u'
  {
  }

  lemma {:induction false} RestoredIff(s: string, k: nat, tokens: seq<string>, prefix: string)
    requires IsPrefix(prefix) && !Occurs(s, prefix) && Numbered(s, k, tokens)
    ensures Agrees(s, k, tokens, prefix)
    decreases |s|
  {
    var n := TokenLength(s);
    if s == "" {
    } else if n > 0 {
      RestTail(s, n, prefix);
      TokenIsToken(s);
      TokenCase(s, k, tokens, prefix);
    } else {
      RestTail(s, 1, prefix);
      NoMarkerHere(s, k, prefix);
      ProtectedUnfolds(s, k, prefix);
      RestoredIff(s[1..], k, tokens, prefix);
      assert s == [s[0]] + s[1..];
    }
  }

  lemma RestTail(s: string, n: nat, prefix: string)
    requires n <= |s| && !Occurs(s, prefix)
    ensures !Occurs(s[n..], prefix)
  {
    if Occurs(s[n..], prefix) {
      OccursInTail(s, n, prefix);
    }
  }

  lemma {:induction false} TokenCase(s: string, k: nat, tokens: seq<string>, prefix: string)
    requires IsPrefix(prefix) && Numbered(s, k, tokens) && TokenLength(s) > 0 && !Occurs(s[TokenLength(s)..], prefix)
    ensures Agrees(s, k, tokens, prefix)
    decreases |s|, 0
  {
    var n := TokenLength(s);
    var token, rest := s[..n], s[n..];
    var q := Protected(rest, k + 1, prefix);
    assert s == token + rest;
    TokenIsToken(s);
    assert tokens[k..][0] == token && tokens[k + 1..] == tokens[k..][1..] == TokensOf(rest);
    RestoredIff(rest, k + 1, tokens, prefix);
    if rest != "" && IsDigit(rest[0]) {
      DigitIsLost(token, rest, k, tokens, prefix);
    } else {
      ProtectedBegins(rest, k + 1, prefix);
      RestoreMarker(k, q, tokens, prefix);
      ParsePrint(k);
      assert Print(k) + q[..0] == Print(k) && q[0..] == q;
      SameTail(token, Restored(q, tokens, prefix), rest);
    }
  }

  lemma SameTail(token: string, a: string, b: string)
    ensures token + a == token + b <==> a == b
  {
    assert (token + a)[|token|..] == a && (token + b)[|token|..] == b;
  }

  /** Restoring gives the source back if and only if no token is followed by a digit at once. */
  lemma RestoreProtectIff(source: string, prefix: string)
    requires IsPrefix(prefix) && !Occurs(source, prefix)
    ensures Restored(Protected(source, 0, prefix), TokensOf(source), prefix) == source <==> NoDigitBehindToken(source)
  {
    TokensAreTokens(source);
    assert TokensOf(source)[0..] == TokensOf(source);
    RestoredIff(source, 0, TokensOf(source), prefix);
  }

  /** The shortest input that is lost: the marker `0` and the digit `1` are read as token 1. */
  lemma VariableBeforeDigit()
    ensures Protected("{{a}}1", 0, MARKER) == MARKER + "01" && TokensOf("{{a}}1") == ["{{a}}"]
    ensures Restored(MARKER + "01", ["{{a}}"], MARKER) == "undefined"
  {
    var source, behind := "{{a}}1", "01";
    assert source[3..3 + 2] == "}}" && source[2..2 + 2] == "a}";
    assert TokenLength(source) == 5;
    assert source[5..] == "1" && source[..5] == "{{a}}";
    assert TokenLength("1") == 0 && "1"[1..] == "";
    assert Print(0) == "0";
    assert (MARKER + behind)[|MARKER|..] == behind;
    assert Digits(behind) == 2 by {
      assert behind[1..] == "1" && "1"[1..] == "";
    }
    assert behind[..2] == behind && behind[2..] == "";
    assert Parse(behind) == 1 by {
      assert behind[..1] == "0" && "0"[..0] == "";
    }
  }
}

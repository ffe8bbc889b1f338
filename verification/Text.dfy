/** Searching in text the way Python's `str.startswith` and `str.find` do. */
module Text {
  /** `s.startswith(marker, i)`. */
  predicate MatchAt(s: string, marker: string, i: nat) {
    i + |marker| <= |s| && s[i..i + |marker|] == marker
  }

  /** `s.find(marker, start)`: the first match at or after `start`, or -1. */
  function Find(s: string, marker: string, start: nat): (p: int)
    ensures -1 <= p
    ensures 0 <= p ==> start <= p && MatchAt(s, marker, p)
    ensures forall i: nat | start <= i && (0 <= p ==> i < p) :: !MatchAt(s, marker, i)
    decreases |s| - start
  {
    if start + |marker| > |s| then -1
    else if MatchAt(s, marker, start) then start
    else Find(s, marker, start + 1)
  }

  /** How many positions that search tries, the last one included. */
  function Tried(s: string, marker: string, start: nat): (n: nat)
    ensures start <= |s| ==>
              1 <= n <= (if Find(s, marker, start) < 0 then |s| else Find(s, marker, start)) - start + 1
    decreases |s| - start
  {
    if start + |marker| > |s| || MatchAt(s, marker, start) then 1
    else 1 + Tried(s, marker, start + 1)
  }

  /** A hit stays the answer until it is passed, and a miss stays one. */
  lemma {:induction false} FindFromLater(s: string, marker: string, start: nat, later: nat)
    requires start <= later
    requires Find(s, marker, start) < 0 || later <= Find(s, marker, start)
    ensures Find(s, marker, later) == Find(s, marker, start)
    decreases later - start
  {
    if start < later && start + |marker| <= |s| {
      FindFromLater(s, marker, start + 1, later);
    }
  }

  /** The end of the line that holds position `i`, without its line break. */
  function LineEnd(s: string, i: nat): (e: nat)
    requires i <= |s|
    ensures i <= e <= |s|
    ensures forall k | i <= k < e :: s[k] != '\n'
    ensures e < |s| ==> s[e] == '\n'
    decreases |s| - i
  {
    if i == |s| || s[i] == '\n' then i else LineEnd(s, i + 1)
  }

  /** How often `c` occurs in `s`. */
  function Count(s: string, c: char): nat {
    if s == "" then 0 else (if s[0] == c then 1 else 0) + Count(s[1..], c)
  }

  lemma {:induction false} CountConcat(a: string, b: string, c: char)
    ensures Count(a + b, c) == Count(a, c) + Count(b, c)
    decreases |a|
  {
    if a == "" {
      assert a + b == b;
    } else {
      assert (a + b)[1..] == a[1..] + b;
      CountConcat(a[1..], b, c);
    }
  }

  ghost predicate Occurs(s: string, w: string) {
    exists i: nat :: MatchAt(s, w, i)
  }

  lemma MatchInFront(a: string, b: string, w: string, i: nat)
    requires i + |w| <= |a|
    ensures MatchAt(a + b, w, i) <==> MatchAt(a, w, i)
  {
    assert (a + b)[i..i + |w|] == a[i..i + |w|];
  }

  lemma MatchBehind(a: string, b: string, w: string, i: nat)
    requires MatchAt(b, w, i)
    ensures MatchAt(a + b, w, |a| + i)
  {
    assert (a + b)[|a| + i..|a| + i + |w|] == b[i..i + |w|];
  }
}

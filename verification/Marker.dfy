/**
  Masking markers: a name and a number that occur neither in a source nor in what its
  character references stand for.
 */
module Marker {
  import opened Text
  import opened Decimal
  import opened Wrappers

  const DYNAMIC_VALUE := "DJHVSTATICDYNAMIC"
  const DYNAMIC_STRUCTURE := "DJHVSTATICSTRUCTURE"
  const LAST := 99_999_999

  // ---------------------------------------------------------------------------
  // Numbered occurrences
  // ---------------------------------------------------------------------------

  /**
    What `\d` matches: the digits of any script, each with its value. ASCII digits have
    the values `int` gives them.
   */
  type Digits = char -> Option<nat>

  ghost predicate ExtendsAscii(value: Digits) {
    && (forall c: char | IsDigit(c) :: value(c) == Some(c as int - '0' as int))
    && (forall c: char :: value(c).Some? ==> value(c).value <= 9)
  }

  /** The digits from `i` on, `limit` at most. */
  function Run(s: string, i: nat, limit: nat, value: Digits): (n: nat)
    requires i <= |s|
    ensures i + n <= |s| && n <= limit
    ensures forall k | i <= k < i + n :: value(s[k]).Some?
    decreases limit
  {
    if limit == 0 || i == |s| || value(s[i]).None? then 0 else 1 + Run(s, i + 1, limit - 1, value)
  }

  /** `int` of digits. */
  function Number(s: string, value: Digits): nat
    requires forall k | 0 <= k < |s| :: value(s[k]).Some?
  {
    if s == "" then 0 else 10 * Number(s[..|s| - 1], value) + value(s[|s| - 1]).value
  }

  /** `base + r"(\d{1,8})"` matches at `i`. */
  predicate NumberedAt(content: string, base: string, i: nat, value: Digits) {
    MatchAt(content, base, i) && Run(content, i + |base|, 8, value) > 0
  }

  function EndOfMatch(content: string, base: string, i: nat, value: Digits): (end: nat)
    requires NumberedAt(content, base, i, value)
    ensures i + |base| < end <= |content|
  {
    i + |base| + Run(content, i + |base|, 8, value)
  }

  function NumberAt(content: string, base: string, i: nat, value: Digits): nat
    requires NumberedAt(content, base, i, value)
  {
    Number(content[i + |base|..EndOfMatch(content, base, i, value)], value)
  }

  /** The highest number of `re.finditer(base + r"(\d{1,8})", content)` from `i` on, or -1. */
  function Highest(content: string, base: string, i: nat, value: Digits): (h: int)
    requires base != ""
    ensures h >= -1
    decreases |content| - i
  {
    if i + |base| > |content| then -1
    else if NumberedAt(content, base, i, value) then
      Max(NumberAt(content, base, i, value), Highest(content, base, EndOfMatch(content, base, i, value), value))
    else Highest(content, base, i + 1, value)
  }

  function Max(a: int, b: int): int { if a < b then b else a }

  /** `_unused_marker`; `None` stands for `_MaskTooLarge`. */
  function UnusedMarker(content: string, base: string, value: Digits): Option<string>
    requires base != ""
  {
    var highest := Highest(content, base, 0, value);
    if highest >= LAST then None else Some(base + Print(highest + 1))
  }

  /** An occurrence of the base never begins inside another one, nor in a number. */
  ghost predicate Separate(base: string, value: Digits) {
    && base != ""
    && (forall k: nat | 0 < k < |base| :: base[k..] != base[..|base| - k])
    && (forall k: nat | k < |base| :: value(base[k]).None?)
  }

  /** Two overlapping matches would make the base begin as it ends. */
  lemma Overlap(content: string, base: string, i: nat, j: nat)
    requires MatchAt(content, base, i) && MatchAt(content, base, j) && i < j < i + |base|
    ensures base[j - i..] == base[..|base| - (j - i)]
  {
    assert content[i..i + |base|][j - i..] == content[j..i + |base|] == content[j..j + |base|][..|base| - (j - i)];
  }

  lemma MatchBegins(content: string, base: string, i: nat)
    requires MatchAt(content, base, i) && base != ""
    ensures content[i] == base[0]
  {
    assert content[i..i + |base|][0] == content[i];
  }

  /** Before the end of a match no other match begins. */
  lemma NoMatchInside(content: string, base: string, i: nat, j: nat, value: Digits)
    requires Separate(base, value) && NumberedAt(content, base, i, value)
    requires i < j < EndOfMatch(content, base, i, value)
    ensures !MatchAt(content, base, j)
  {
    if MatchAt(content, base, j) {
      MatchBegins(content, base, j);
      if j < i + |base| {
        Overlap(content, base, i, j);
      }
    }
  }

  /** The number of every match is counted: none is above the highest. */
  lemma {:induction false} HighestBounds(content: string, base: string, i: nat, j: nat, value: Digits)
    requires Separate(base, value) && i <= j && NumberedAt(content, base, j, value)
    ensures NumberAt(content, base, j, value) <= Highest(content, base, i, value)
    decreases |content| - i
  {
    assert j + |base| < EndOfMatch(content, base, j, value);
    if i < j {
      if NumberedAt(content, base, i, value) {
        if j < EndOfMatch(content, base, i, value) {
          NoMatchInside(content, base, i, j, value);
        } else {
          HighestBounds(content, base, EndOfMatch(content, base, i, value), j, value);
        }
      } else {
        HighestBounds(content, base, i + 1, j, value);
      }
    }
  }

  /** More digits never make a number smaller. */
  lemma {:induction false} NumberGrows(s: string, k: nat, value: Digits)
    requires (forall i | 0 <= i < |s| :: value(s[i]).Some?) && k <= |s|
    ensures Number(s[..k], value) <= Number(s, value)
    decreases |s|
  {
    if k == |s| {
      assert s[..k] == s;
    } else {
      NumberGrows(s[..|s| - 1], k, value);
      assert s[..|s| - 1][..k] == s[..k];
    }
  }

  /** ASCII digits mean what `int` reads. */
  lemma {:induction false} NumberIsParse(s: string, value: Digits)
    requires ExtendsAscii(value) && AllDigits(s)
    ensures Number(s, value) == Parse(s)
  {
    if s != "" {
      assert IsDigit(s[|s| - 1]);
      NumberIsParse(s[..|s| - 1], value);
    }
  }

  /** A run of ASCII digits, shorter than the limit, is at least that long. */
  lemma {:induction false} RunCovers(s: string, i: nat, n: nat, limit: nat, value: Digits)
    requires ExtendsAscii(value) && i + n <= |s| && n <= limit && AllDigits(s[i..i + n])
    ensures n <= Run(s, i, limit, value)
    decreases n
  {
    if n > 0 {
      assert IsDigit(s[i..i + n][0]);
      assert s[i + 1..i + 1 + (n - 1)] == s[i..i + n][1..];
      RunCovers(s, i + 1, n - 1, limit - 1, value);
    }
  }

  /** A match that begins with certain ASCII digits has at least their number. */
  lemma NumberFromPrefix(content: string, from: nat, digits: string, value: Digits)
    requires ExtendsAscii(value) && |digits| <= 8 && AllDigits(digits) && MatchAt(content, digits, from)
    ensures var n := Run(content, from, 8, value);
            |digits| <= n && Parse(digits) <= Number(content[from..from + n], value)
  {
    RunCovers(content, from, |digits|, 8, value);
    var run := content[from..from + Run(content, from, 8, value)];
    NumberGrows(run, |digits|, value);
    assert run[..|digits|] == digits;
    NumberIsParse(digits, value);
  }

  lemma MatchParts(content: string, a: string, b: string, i: nat)
    requires MatchAt(content, a + b, i)
    ensures MatchAt(content, a, i) && MatchAt(content, b, i + |a|)
  {
    var both := content[i..i + |a + b|];
    assert content[i..i + |a|] == both[..|a|] && content[i + |a|..i + |a| + |b|] == both[|a|..];
  }

  /** A number after the highest one starts no run of the source. */
  lemma NewNumberIsUnused(content: string, base: string, n: nat, i: nat, value: Digits)
    requires Separate(base, value) && ExtendsAscii(value) && |Print(n)| <= 8
    requires MatchAt(content, base + Print(n), i)
    ensures n <= Highest(content, base, 0, value)
  {
    hide Print, Parse, Number, Run, Highest, MatchAt;
    MatchParts(content, base, Print(n), i);
    NumberFromPrefix(content, i + |base|, Print(n), value);
    HighestBounds(content, base, 0, i, value);
    ParsePrint(n);
  }

  /** The marker is not in the source, and is its base with at most eight digits. */
  lemma MarkerIsUnused(content: string, base: string, value: Digits)
    requires Separate(base, value) && ExtendsAscii(value) && UnusedMarker(content, base, value).Some?
    ensures !Occurs(content, UnusedMarker(content, base, value).value)
    ensures |UnusedMarker(content, base, value).value| <= |base| + 8
    ensures base < UnusedMarker(content, base, value).value
  {
    var n := Highest(content, base, 0, value) + 1;
    assert Ten(8) == 100_000_000;
    PrintLength(n, 8);
    forall i: nat | MatchAt(content, base + Print(n), i) ensures false {
      NewNumberIsUnused(content, base, n, i, value);
    }
  }

  lemma NoBorder(base: string, k: nat)
    requires 0 < k < |base|
    requires base[k] != base[0] || (k + 1 < |base| && base[k + 1] != base[1])
    ensures base[k..] != base[..|base| - k]
  {
    var a, b := base[k..], base[..|base| - k];
    assert a[0] == base[k] && b[0] == base[0];
    assert k + 1 < |base| ==> a[1] == base[k + 1] && b[1] == base[1];
  }

  /** The two names the check uses. */
  lemma NamesAreSeparate(value: Digits)
    requires forall c: char | 'A' <= c <= 'Z' :: value(c).None?
    ensures Separate(DYNAMIC_VALUE, value) && Separate(DYNAMIC_STRUCTURE, value)
  {
    forall k: nat | 0 < k < |DYNAMIC_VALUE| ensures DYNAMIC_VALUE[k..] != DYNAMIC_VALUE[..|DYNAMIC_VALUE| - k] {
      NoBorder(DYNAMIC_VALUE, k);
    }
    forall k: nat | 0 < k < |DYNAMIC_STRUCTURE|
      ensures DYNAMIC_STRUCTURE[k..] != DYNAMIC_STRUCTURE[..|DYNAMIC_STRUCTURE| - k]
    {
      NoBorder(DYNAMIC_STRUCTURE, k);
    }
  }

  // ---------------------------------------------------------------------------
  // Numeric character references
  // ---------------------------------------------------------------------------

  const MAX_CODE_POINT := 0x10FFFF

  /** The value of a digit `[0-9]`, or of `[0-9a-fA-F]` for radix 16. */
  function DigitOf(c: char, radix: nat): (d: Option<nat>)
    requires radix == 10 || radix == 16
    ensures d.Some? ==> d.value < radix
  {
    if IsDigit(c) then Some(c as int - '0' as int)
    else if radix == 16 && 'a' <= c <= 'f' then Some(c as int - 'a' as int + 10)
    else if radix == 16 && 'A' <= c <= 'F' then Some(c as int - 'A' as int + 10)
    else None
  }

  /** The digits from `i` on. */
  function DigitRun(s: string, i: nat, radix: nat): (n: nat)
    requires (radix == 10 || radix == 16) && i <= |s|
    ensures i + n <= |s| && forall k | i <= k < i + n :: DigitOf(s[k], radix).Some?
    ensures i + n < |s| ==> DigitOf(s[i + n], radix).None?
    decreases |s| - i
  {
    if i == |s| || DigitOf(s[i], radix).None? then 0 else 1 + DigitRun(s, i + 1, radix)
  }

  function ValueOf(s: string, radix: nat): nat
    requires radix == 10 || radix == 16
    requires forall k | 0 <= k < |s| :: DigitOf(s[k], radix).Some?
  {
    if s == "" then 0 else radix * ValueOf(s[..|s| - 1], radix) + DigitOf(s[|s| - 1], radix).value
  }

  function Zeros(s: string): (n: nat)
    ensures n <= |s| && (forall k | 0 <= k < n :: s[k] == '0') && (n < |s| ==> s[n] != '0')
  {
    if s == "" || s[0] != '0' then 0 else 1 + Zeros(s[1..])
  }

  /** Where the digits of a reference at `i` begin, and their radix; the radix is 0 if there is none. */
  function Prefix(s: string, i: nat): (p: (nat, nat))
    ensures p.1 == 0 || (p.1 == 10 && p.0 == i + 2 <= |s|) || (p.1 == 16 && p.0 == i + 3 <= |s|)
  {
    if MatchAt(s, "&#x", i) then (i + 3, 16) else if MatchAt(s, "&#", i) then (i + 2, 10) else (i, 0)
  }

  /** The digits of a reference at `i` that is closed by a semicolon, or "". */
  function ReferenceDigits(s: string, i: nat): (d: string)
    ensures d != "" ==>
              && Prefix(s, i).1 > 0 && Prefix(s, i).0 + |d| < |s|
              && forall k | 0 <= k < |d| :: DigitOf(d[k], Prefix(s, i).1).Some?
  {
    var (from, radix) := Prefix(s, i);
    if radix == 0 then ""
    else
      var n := DigitRun(s, from, radix);
      if from + n < |s| && s[from + n] == ';' then s[from..from + n] else ""
  }

  predicate IsCharacter(value: nat) { value <= MAX_CODE_POINT && !(0xD800 <= value <= 0xDFFF) }

  /** The match of `&#(?:0*([0-9]{1,7})|x0*([0-9a-fA-F]{1,6}));` at `i`: the value it names. */
  function BoundedReference(s: string, i: nat): Option<nat> {
    var digits, radix := ReferenceDigits(s, i), Prefix(s, i).1;
    if digits == "" then None
    else
      var significant := digits[Zeros(digits)..];
      if |significant| <= (if radix == 10 then 7 else 6) then Some(ValueOf(significant, radix)) else None
  }

  /** What the XML parser reads at `i`: a reference of any length to a character that exists. */
  function Reference(s: string, i: nat): Option<nat> {
    var digits, radix := ReferenceDigits(s, i), Prefix(s, i).1;
    if digits == "" then None else Some(ValueOf(digits, radix))
  }

  /** `_decode_character_references` from `i` on. */
  function Decoded(s: string, i: nat): string
    decreases |s| - i
  {
    if i >= |s| then ""
    else if BoundedReference(s, i).Some? && IsCharacter(BoundedReference(s, i).value) then
      [BoundedReference(s, i).value as char] + Decoded(s, ReferenceEnd(s, i))
    else [s[i]] + Decoded(s, i + 1)
  }

  /** The text once every reference to a character is resolved, once. */
  function Resolved(s: string, i: nat): string
    decreases |s| - i
  {
    if i >= |s| then ""
    else if Reference(s, i).Some? && IsCharacter(Reference(s, i).value) then
      [Reference(s, i).value as char] + Resolved(s, ReferenceEnd(s, i))
    else [s[i]] + Resolved(s, i + 1)
  }

  function ReferenceEnd(s: string, i: nat): (end: nat)
    requires ReferenceDigits(s, i) != ""
    ensures i < end <= |s|
  {
    Prefix(s, i).0 + |ReferenceDigits(s, i)| + 1
  }

  function Power(radix: nat, k: nat): nat { if k == 0 then 1 else radix * Power(radix, k - 1) }

  /** Leading zeros do not count. */
  lemma {:induction false} LeadingZeros(s: string, radix: nat, k: nat)
    requires radix == 10 || radix == 16
    requires forall j | 0 <= j < |s| :: DigitOf(s[j], radix).Some?
    requires k <= |s| && forall j | 0 <= j < k :: s[j] == '0'
    ensures ValueOf(s, radix) == ValueOf(s[k..], radix)
    decreases |s|
  {
    if k == |s| {
      if k > 0 {
        LeadingZeros(s[..k - 1], radix, k - 1);
        assert s[..k - 1][k - 1..] == "" && s[k..] == "";
      } else {
        assert s[k..] == s;
      }
    } else {
      var n := |s| - 1;
      LeadingZeros(s[..n], radix, k);
      assert s[..n][k..] == s[k..][..n - k];
    }
  }

  /** A number with `k` digits, the first one not zero, is at least the radix to the power `k - 1`. */
  lemma {:induction false} ManyDigits(s: string, radix: nat)
    requires radix == 10 || radix == 16
    requires s != "" && s[0] != '0' && forall j | 0 <= j < |s| :: DigitOf(s[j], radix).Some?
    ensures Power(radix, |s| - 1) <= ValueOf(s, radix)
  {
    if |s| == 1 {
      assert s[..0] == "";
    } else {
      ManyDigits(s[..|s| - 1], radix);
    }
  }

  lemma AtLeast(radix: nat, p: nat)
    requires radix >= 1
    ensures p <= radix * p
  {
  }

  lemma {:induction false} PowerGrows(radix: nat, j: nat, k: nat)
    requires radix >= 1 && j <= k
    ensures Power(radix, j) <= Power(radix, k)
    decreases k
  {
    if j < k {
      PowerGrows(radix, j, k - 1);
      AtLeast(radix, Power(radix, k - 1));
    }
  }

  lemma LongNumbersAreNoCharacters(significant: string, radix: nat)
    requires radix == 10 || radix == 16
    requires forall j | 0 <= j < |significant| :: DigitOf(significant[j], radix).Some?
    requires significant != "" ==> significant[0] != '0'
    requires |significant| > if radix == 10 then 7 else 6
    ensures !IsCharacter(ValueOf(significant, radix))
  {
    ManyDigits(significant, radix);
    if radix == 10 {
      PowerGrows(10, 7, |significant| - 1);
      assert Power(10, 3) == 1000 && Power(10, 7) == 10 * (10 * (10 * (10 * Power(10, 3))));
    } else {
      PowerGrows(16, 6, |significant| - 1);
      assert Power(16, 3) == 4096 && Power(16, 6) == 16 * (16 * (16 * Power(16, 3)));
    }
  }

  /** Bounding the digits loses no character: longer numbers are above the last code point. */
  lemma BoundedIsEnough(s: string, i: nat)
    ensures var a, b := BoundedReference(s, i), Reference(s, i);
            && (a.Some? ==> a == b)
            && (a.None? && b.Some? ==> !IsCharacter(b.value))
  {
    var digits, radix := ReferenceDigits(s, i), Prefix(s, i).1;
    if digits != "" {
      var zeros := Zeros(digits);
      LeadingZeros(digits, radix, zeros);
      if BoundedReference(s, i).None? {
        LongNumbersAreNoCharacters(digits[zeros..], radix);
      }
    }
  }

  lemma {:induction false} DecodedIsResolved(s: string, i: nat)
    ensures Decoded(s, i) == Resolved(s, i)
    decreases |s| - i
  {
    if i < |s| {
      BoundedIsEnough(s, i);
      if Reference(s, i).Some? && IsCharacter(Reference(s, i).value) {
        DecodedIsResolved(s, ReferenceEnd(s, i));
      } else {
        DecodedIsResolved(s, i + 1);
      }
    }
  }

  /** The text that is searched: the source, and what the parser makes of its references. */
  function Searched(content: string): string { content + "\n" + Decoded(content, 0) }

  /** The marker occurs neither in the source nor in the source as the parser reads it. */
  lemma MarkerIsAbsent(content: string, base: string, value: Digits)
    requires Separate(base, value) && ExtendsAscii(value) && UnusedMarker(Searched(content), base, value).Some?
    ensures var marker := UnusedMarker(Searched(content), base, value).value;
            !Occurs(content, marker) && !Occurs(Resolved(content, 0), marker)
  {
    var marker := UnusedMarker(Searched(content), base, value).value;
    MarkerIsUnused(Searched(content), base, value);
    DecodedIsResolved(content, 0);
    OccursInPart(content, "\n", Decoded(content, 0), marker);
  }

  /** Both markers of a scan are absent, whatever `\d` matches, as long as that is no capital letter. */
  lemma MarkersAreAbsent(content: string, value: Digits, base: string)
    requires ExtendsAscii(value) && forall c: char | 'A' <= c <= 'Z' :: value(c).None?
    requires base == DYNAMIC_VALUE || base == DYNAMIC_STRUCTURE
    ensures var marker := UnusedMarker(Searched(content), base, value);
            marker.Some? ==> !Occurs(content, marker.value) && !Occurs(Resolved(content, 0), marker.value)
  {
    NamesAreSeparate(value);
    if UnusedMarker(Searched(content), base, value).Some? {
      MarkerIsAbsent(content, base, value);
    }
  }

  lemma OccursInPart(a: string, b: string, c: string, marker: string)
    ensures Occurs(a, marker) ==> Occurs(a + b + c, marker)
    ensures Occurs(c, marker) ==> Occurs(a + b + c, marker)
  {
    assert a + b + c == a + (b + c);
    if i: nat :| MatchAt(a, marker, i) {
      MatchInFront(a, b + c, marker, i);
    }
    if i: nat :| MatchAt(c, marker, i) {
      MatchBehind(a + b, c, marker, i);
    }
  }
}

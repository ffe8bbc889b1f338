/**
  The stable identity of a configured source: option values are brought to a normal
  form, and the canonical JSON text of that form is what is hashed. Two sources may
  share cache entries exactly when these texts are equal.
 */
module Fingerprint {
  import opened Decimal
  import opened Wrappers

  // ---------------------------------------------------------------------------
  // Option values
  // ---------------------------------------------------------------------------

  type Byte = n: nat | n < 256

  /** A finite float: `num / 2^exp` in lowest terms; negative zero is told apart. */
  datatype Dyadic = Dyadic(num: int, exp: nat, negativeZero: bool)

  type Float = d: Dyadic | LowestTerms(d) witness Dyadic(0, 0, false)

  predicate LowestTerms(d: Dyadic) {
    (d.exp == 0 || d.num % 2 == 1) && (d.negativeZero ==> d.num == 0)
  }

  /**
    `Callable` holds the import path when the path leads back to the callable.
    `Unsupported` is any other type, and a float that is not finite.
   */
  datatype Value =
    | Nothing | Bool(b: bool) | Int(n: int) | Real(f: Float)
    | Path(windows: bool, path: string) | Str(s: string) | Bytes(bytes: seq<Byte>)
    | Callable(importPath: Option<string>)
    | Dict(entries: seq<Entry>) | List(items: seq<Value>) | Tuple(items: seq<Value>)
    | Unsupported

  datatype Entry = Entry(key: Value, value: Value)

  // ---------------------------------------------------------------------------
  // Canonical text
  // ---------------------------------------------------------------------------

  datatype Json =
    | JBool(b: bool) | JInt(n: int) | JFloat(f: Float) | JStr(s: string) | JArray(items: seq<Json>)

  function IntText(n: int): string {
    if n < 0 then "-" + Print(-n) else Print(n)
  }

  /**
    Stands for Python's shortest `repr`: it prints different floats differently and no
    float like an integer.
   */
  function FloatText(f: Float): string {
    (if f.negativeZero then "-" else "") + IntText(f.num) + "." + Print(f.exp)
  }

  /** A character of a JSON string literal; only the characters that must be are escaped. */
  function Escape(c: char): (e: string)
    ensures e != "" && e[0] != '"'
  {
    if c == '"' then "\\\"" else if c == '\\' then "\\\\"
    else if c == '\n' then "\\n" else if c == '\r' then "\\r" else if c == '\t' then "\\t"
    else if c == '\U{8}' then "\\b" else if c == '\U{c}' then "\\f"
    else if c < ' ' then "\\u00" + HexByte(c as int) else [c]
  }

  function HexDigit(d: nat): char
    requires d < 16
  {
    if d < 10 then Digit(d) else ('a' as int + d - 10) as char
  }

  function HexByte(n: nat): string
    requires n < 256
  {
    [HexDigit(n / 16), HexDigit(n % 16)]
  }

  function EscapeAll(s: string): (e: string)
    ensures s != "" ==> e != "" && e[0] != '"'
  {
    if s == "" then "" else Escape(s[0]) + EscapeAll(s[1..])
  }

  /** `json.dumps(value, ensure_ascii=False, separators=(",", ":"))`. */
  function Text(j: Json): string
    decreases j, 1
  {
    match j
    case JBool(b) => if b then "true" else "false"
    case JInt(n) => IntText(n)
    case JFloat(f) => FloatText(f)
    case JStr(s) => "\"" + EscapeAll(s) + "\""
    case JArray(items) => "[" + Texts(items) + "]"
  }

  function Texts(items: seq<Json>): string
    decreases items, 0
  {
    if items == [] then ""
    else if |items| == 1 then Text(items[0])
    else Text(items[0]) + "," + Texts(items[1..])
  }

  // ---------------------------------------------------------------------------
  // The text determines the value it was printed from
  // ---------------------------------------------------------------------------

  /** What may follow a value in its container, or at the end of the text. */
  predicate Ends(rest: string) {
    rest == "" || rest[0] == ',' || rest[0] == ']'
  }

  predicate NumberChar(c: char) { IsDigit(c) || c == '-' || c == '.' }

  predicate NumberText(s: string) { forall i | 0 <= i < |s| :: NumberChar(s[i]) }

  predicate NoPoint(s: string) { forall i | 0 <= i < |s| :: s[i] != '.' }

  lemma {:induction false} NumberRunsSplit(a: string, x: string, b: string, y: string)
    requires NumberText(a) && NumberText(b) && Ends(x) && Ends(y)
    requires a + x == b + y
    ensures a == b && x == y
    decreases |a|
  {
    if a == "" || b == "" {
      assert a == "" ==> a + x == x;
      assert b == "" ==> b + y == y;
    } else {
      assert (a + x)[0] == a[0] && (b + y)[0] == b[0];
      assert (a + x)[1..] == a[1..] + x && (b + y)[1..] == b[1..] + y;
      NumberRunsSplit(a[1..], x, b[1..], y);
      assert a == [a[0]] + a[1..] && b == [b[0]] + b[1..];
    }
  }

  lemma PrintInjective(m: nat, n: nat)
    requires Print(m) == Print(n)
    ensures m == n
  {
    ParsePrint(m);
    ParsePrint(n);
  }

  lemma IntTextShape(n: int)
    ensures NumberText(IntText(n)) && NoPoint(IntText(n)) && IntText(n) != ""
    ensures IntText(n)[0] == '-' <==> n < 0
  {
    var digits := Print(if n < 0 then -n else n);
    assert IsDigit(digits[0]);
  }

  lemma IntTextInjective(m: int, n: int)
    requires IntText(m) == IntText(n)
    ensures m == n
  {
    IntTextShape(m);
    IntTextShape(n);
    if m < 0 {
      assert IntText(m)[1..] == Print(-m) && IntText(n)[1..] == Print(-n);
      PrintInjective(-m, -n);
    } else {
      PrintInjective(m, n);
    }
  }

  /** Two texts that split at their first point split the same way. */
  lemma {:induction false} PointSplits(a: string, x: string, b: string, y: string)
    requires NoPoint(a) && NoPoint(b) && a + ['.'] + x == b + ['.'] + y
    ensures a == b && x == y
    decreases |a|
  {
    var s, t := a + ['.'] + x, b + ['.'] + y;
    if a == "" || b == "" {
      assert a == "" ==> s[0] == '.';
      assert b == "" ==> t[0] == '.';
      assert x == s[|a| + 1..] && y == t[|b| + 1..];
    } else {
      assert s[0] == a[0] && t[0] == b[0];
      assert s[1..] == a[1..] + ['.'] + x && t[1..] == b[1..] + ['.'] + y;
      PointSplits(a[1..], x, b[1..], y);
      assert a == [a[0]] + a[1..] && b == [b[0]] + b[1..];
    }
  }

  function Signed(f: Float): string {
    (if f.negativeZero then "-" else "") + IntText(f.num)
  }

  lemma SignedShape(f: Float)
    ensures NumberText(Signed(f)) && NoPoint(Signed(f)) && Signed(f) != ""
  {
    IntTextShape(f.num);
  }

  lemma NegativeZeroIsNoInt(n: int)
    ensures IntText(n) != "-" + Print(0)
  {
    IntTextShape(n);
    if n < 0 {
      ParsePrint(-n);
      ParsePrint(0);
      assert IntText(n)[1..] == Print(-n) && ("-" + Print(0))[1..] == Print(0);
    }
  }

  lemma SignedInjective(f: Float, g: Float)
    requires Signed(f) == Signed(g)
    ensures f.num == g.num && f.negativeZero == g.negativeZero
  {
    NegativeZeroIsNoInt(f.num);
    NegativeZeroIsNoInt(g.num);
    assert f.negativeZero == g.negativeZero;
    var k := if f.negativeZero then 1 else 0;
    assert Signed(f)[k..] == IntText(f.num) && Signed(g)[k..] == IntText(g.num);
    IntTextInjective(f.num, g.num);
  }

  lemma FloatTextShape(f: Float)
    ensures NumberText(FloatText(f)) && FloatText(f) == Signed(f) + ['.'] + Print(f.exp)
    ensures !NoPoint(FloatText(f))
  {
    SignedShape(f);
    assert FloatText(f)[|Signed(f)|] == '.';
  }

  lemma FloatTextInjective(f: Float, g: Float)
    requires FloatText(f) == FloatText(g)
    ensures f == g
  {
    FloatTextShape(f);
    FloatTextShape(g);
    SignedShape(f);
    SignedShape(g);
    PointSplits(Signed(f), Print(f.exp), Signed(g), Print(g.exp));
    SignedInjective(f, g);
    PrintInjective(f.exp, g.exp);
  }

  lemma EscapeSplits(c: char, x: string, d: char, y: string)
    requires Escape(c) + x == Escape(d) + y
    ensures c == d && x == y
  {
    var s := Escape(c) + x;
    assert s[0] == Escape(c)[0] && s[0] == Escape(d)[0];
    assert s[0] == '\\' ==> |Escape(c)| >= 2 && |Escape(d)| >= 2;
    assert s[0] == '\\' ==> s[1] == Escape(c)[1] && s[1] == Escape(d)[1];
    assert Escape(c) == s[..|Escape(c)|] && Escape(d) == s[..|Escape(d)|];
    assert |Escape(c)| == |Escape(d)|;
    assert x == s[|Escape(c)|..] && y == s[|Escape(d)|..];
    if |Escape(c)| == 6 {
      assert Escape(c)[4] == HexDigit(c as int / 16) && Escape(c)[5] == HexDigit(c as int % 16);
      assert Escape(d)[4] == HexDigit(d as int / 16) && Escape(d)[5] == HexDigit(d as int % 16);
    }
  }

  /** The rest of a string literal behind its opening quote, and what follows it. */
  function Literal(s: string, x: string): string {
    EscapeAll(s) + (['"'] + x)
  }

  lemma LiteralUnfolds(s: string, x: string)
    ensures s == "" ==> Literal(s, x) == ['"'] + x
    ensures s != "" ==> Literal(s, x) == Escape(s[0]) + Literal(s[1..], x)
    ensures Literal(s, x) != "" && (Literal(s, x)[0] == '"' <==> s == "")
  {
    if s == "" {
      assert Literal(s, x) == ['"'] + x;
    } else {
      assert Literal(s, x) == Escape(s[0]) + Literal(s[1..], x);
    }
  }

  lemma {:induction false} StringSplits(s: string, x: string, t: string, y: string)
    requires Literal(s, x) == Literal(t, y)
    ensures s == t && x == y
    decreases |s|
  {
    LiteralUnfolds(s, x);
    LiteralUnfolds(t, y);
    if s == "" {
      assert x == (['"'] + x)[1..] && y == (['"'] + y)[1..];
    } else {
      EscapeSplits(s[0], Literal(s[1..], x), t[0], Literal(t[1..], y));
      StringSplits(s[1..], x, t[1..], y);
      assert s == [s[0]] + s[1..] && t == [t[0]] + t[1..];
    }
  }

  lemma TextStart(j: Json)
    ensures var s := Text(j);
            && s != ""
            && (s[0] == 't' <==> j == JBool(true)) && (s[0] == 'f' <==> j == JBool(false))
            && (s[0] == '"' <==> j.JStr?) && (s[0] == '[' <==> j.JArray?)
            && (NumberChar(s[0]) <==> j.JInt? || j.JFloat?)
            && s[0] != ']'
  {
    match j
    case JInt(n) => IntTextShape(n);
    case JFloat(f) => FloatTextShape(f); SignedShape(f);
    case _ =>
  }

  lemma NumberSplits(a: Json, x: string, b: Json, y: string)
    requires a.JInt? || a.JFloat?
    requires b.JInt? || b.JFloat?
    requires Ends(x) && Ends(y) && Text(a) + x == Text(b) + y
    ensures a == b && x == y
  {
    match a { case JInt(n) => IntTextShape(n); case JFloat(f) => FloatTextShape(f); }
    match b { case JInt(n) => IntTextShape(n); case JFloat(f) => FloatTextShape(f); }
    NumberRunsSplit(Text(a), x, Text(b), y);
    if a.JInt? {
      IntTextInjective(a.n, b.n);
    } else {
      FloatTextInjective(a.f, b.f);
    }
  }

  lemma Associate(a: string, b: string, c: string)
    ensures a + b + c == a + (b + c)
  {
  }

  lemma TailOf(c: char, s: string, x: string)
    ensures ([c] + s + x)[0] == c && ([c] + s + x)[1..] == s + x
  {
  }

  lemma SameTail(c: char, s: string, x: string, d: char, t: string, y: string)
    requires [c] + s + x == [d] + t + y
    ensures c == d && s + x == t + y
  {
    assert ([c] + s + x)[0] == c && ([d] + t + y)[0] == d;
    assert s + x == ([c] + s + x)[1..] && t + y == ([d] + t + y)[1..];
  }

  /** A string: behind the quotes, the two literals read the same. */
  lemma StringTextSplits(s: string, x: string, t: string, y: string)
    requires Text(JStr(s)) + x == Text(JStr(t)) + y
    ensures s == t && x == y
  {
    var s', t' := EscapeAll(s) + ['"'], EscapeAll(t) + ['"'];
    assert Text(JStr(s)) == ['"'] + s' && Text(JStr(t)) == ['"'] + t';
    SameTail('"', s', x, '"', t', y);
    assert s' + x == Literal(s, x) && t' + y == Literal(t, y);
    StringSplits(s, x, t, y);
  }

  lemma ArrayText(items: seq<Json>)
    ensures Text(JArray(items)) == ['['] + (Texts(items) + [']'])
  {
    hide Texts;
  }

  /** An array: behind the brackets, the two lists of items read the same. */
  lemma ArrayTextTail(a: seq<Json>, x: string, b: seq<Json>, y: string)
    requires Text(JArray(a)) + x == Text(JArray(b)) + y
    ensures Texts(a) + ([']'] + x) == Texts(b) + ([']'] + y)
  {
    hide Text, Texts;
    var s, t := Texts(a) + [']'], Texts(b) + [']'];
    ArrayText(a);
    ArrayText(b);
    SameTail('[', s, x, '[', t, y);
    assert s + x == Texts(a) + ([']'] + x) && t + y == Texts(b) + ([']'] + y);
  }

  lemma SameStart(a: Json, x: string, b: Json, y: string)
    requires Text(a) + x == Text(b) + y
    ensures a.JBool? ==> a == b
    ensures a.JStr? <==> b.JStr?
    ensures a.JArray? <==> b.JArray?
    ensures a.JInt? || a.JFloat? <==> b.JInt? || b.JFloat?
  {
    TextStart(a);
    TextStart(b);
    assert (Text(a) + x)[0] == Text(a)[0] && (Text(b) + y)[0] == Text(b)[0];
  }

  /** A text and what ends it can be read in one way only. */
  lemma {:induction false} TextSplits(a: Json, x: string, b: Json, y: string)
    requires Ends(x) && Ends(y) && Text(a) + x == Text(b) + y
    ensures a == b && x == y
    decreases a, 1
  {
    SameStart(a, x, b, y);
    match a
    case JBool(_) =>
      assert x == (Text(a) + x)[|Text(a)|..] && y == (Text(a) + y)[|Text(a)|..];
    case JInt(_) => NumberSplits(a, x, b, y);
    case JFloat(_) => NumberSplits(a, x, b, y);
    case JStr(s) => StringTextSplits(s, x, b.s, y);
    case JArray(items) =>
      ArrayTextTail(items, x, b.items, y);
      TextsSplit(items, [']'] + x, b.items, [']'] + y);
      assert x == ([']'] + x)[1..] && y == ([']'] + y)[1..];
  }

  /** The first item, and what follows it: the end of the list or a comma. */
  lemma ItemsUnfold(items: seq<Json>, x: string)
    requires items != [] && x != "" && x[0] == ']'
    ensures Texts(items) + x == Text(items[0]) + (Behind(items) + x)
    ensures Ends(Behind(items) + x) && ((Behind(items) + x)[0] == ']' <==> |items| == 1)
    ensures |items| == 1 ==> Behind(items) + x == x
    ensures |items| > 1 ==> (Behind(items) + x)[1..] == Texts(items[1..]) + x
  {
    var first, behind := Text(items[0]), Behind(items);
    assert Texts(items) == first + behind;
    Associate(first, behind, x);
    if |items| > 1 {
      TailOf(',', Texts(items[1..]), x);
    } else {
      assert behind + x == x;
    }
  }

  lemma NoTexts(x: string)
    ensures Texts([]) + x == x
  {
    assert "" + x == x;
  }

  lemma {:induction false} TextsSplit(a: seq<Json>, x: string, b: seq<Json>, y: string)
    requires x != "" && x[0] == ']' && y != "" && y[0] == ']'
    requires Texts(a) + x == Texts(b) + y
    ensures a == b && x == y
    decreases a, 0
  {
    hide Text, Texts, Behind;
    TextsStart(a, x);
    TextsStart(b, y);
    if a == [] {
      NoTexts(x);
      NoTexts(y);
    } else {
      ItemsUnfold(a, x);
      ItemsUnfold(b, y);
      TextSplits(a[0], Behind(a) + x, b[0], Behind(b) + y);
      if |a| > 1 {
        TextsSplit(a[1..], x, b[1..], y);
      }
      assert a == [a[0]] + a[1..] && b == [b[0]] + b[1..];
    }
  }

  /** What follows the first of several items. */
  function Behind(items: seq<Json>): (s: string)
    requires items != []
    ensures s == "" || s[0] == ','
    ensures s == "" <==> |items| == 1
    ensures Texts(items) == Text(items[0]) + s
  {
    if |items| == 1 then "" else [','] + Texts(items[1..])
  }

  lemma TextsStart(items: seq<Json>, x: string)
    requires x != "" && x[0] == ']'
    ensures (Texts(items) + x)[0] == ']' <==> items == []
  {
    if items != [] {
      TextStart(items[0]);
    }
  }

  /** The canonical text determines the normal form. */
  lemma TextInjective(a: Json, b: Json)
    requires Text(a) == Text(b)
    ensures a == b
  {
    assert Text(a) + "" == Text(a) && Text(b) + "" == Text(b);
    TextSplits(a, "", b, "");
  }

  // ---------------------------------------------------------------------------
  // The normal form
  // ---------------------------------------------------------------------------

  function Pow2(k: nat): nat { if k == 0 then 1 else 2 * Pow2(k - 1) }

  function Hex(bytes: seq<Byte>): string {
    if bytes == [] then "" else HexByte(bytes[0]) + Hex(bytes[1..])
  }

  function PathForm(windows: bool, path: string): Json {
    JArray([JStr("path"), JStr(if windows then "windows" else "posix"), JStr(path)])
  }

  predicate IsNumber(v: Value) { v.Bool? || v.Int? || v.Real? }

  /** The exact ratio of a number: `int(value)` over 1, or `as_integer_ratio`. */
  function Ratio(v: Value): Float
    requires IsNumber(v)
  {
    match v
    case Bool(b) => Dyadic(if b then 1 else 0, 0, false)
    case Int(n) => Dyadic(n, 0, false)
    case Real(f) => f
  }

  function Tagged(tag: string, form: Option<seq<Json>>): Option<Json> {
    if form.None? then None else Some(JArray([JStr(tag), JArray(form.value)]))
  }

  function Sequence(kind: string, form: Option<seq<Json>>): Option<Json> {
    if form.None? then None else Some(JArray([JStr("sequence"), JStr(kind), JArray(form.value)]))
  }

  /** `_normalize_mapping_key`: numbers by value, tuples of keys, anything else as a value. */
  function NormalizeKey(v: Value): Option<Json>
    decreases v, 1
  {
    if IsNumber(v) then
      Some(JArray([JStr("number"), JInt(Ratio(v).num), JInt(Pow2(Ratio(v).exp))]))
    else if v.Tuple? then Tagged("tuple", NormalizeKeys(v.items))
    else Normalize(v)
  }

  /** `_normalize_fingerprint`; `None` stands for the `TypeError` that disables caching. */
  function Normalize(v: Value): Option<Json>
    decreases v, 0
  {
    match v
    case Nothing => Some(JArray([JStr("none")]))
    case Bool(b) => Some(JArray([JStr("bool"), JBool(b)]))
    case Int(n) => Some(JArray([JStr("int"), JInt(n)]))
    case Real(f) => Some(JArray([JStr("float"), JFloat(f)]))
    case Path(windows, path) => Some(PathForm(windows, path))
    case Str(s) => Some(JArray([JStr("str"), JStr(s)]))
    case Bytes(bytes) => Some(JArray([JStr("bytes"), JStr(Hex(bytes))]))
    case Callable(path) => if path.None? then None else Some(JArray([JStr("callable"), JStr(path.value)]))
    case Dict(entries) =>
      var pairs := NormalizeEntries(entries);
      if pairs.None? then None else Tagged("mapping", Some(Sort(pairs.value)))
    case List(items) => Sequence("builtins.list", NormalizeAll(items))
    case Tuple(items) => Sequence("builtins.tuple", NormalizeAll(items))
    case Unsupported => None
  }

  function NormalizeAll(items: seq<Value>): (r: Option<seq<Json>>)
    ensures r.Some? ==> |r.value| == |items| && forall i | 0 <= i < |items| :: Normalize(items[i]) == Some(r.value[i])
    ensures r.None? ==> exists i :: 0 <= i < |items| && Normalize(items[i]) == None
    decreases items, 0
  {
    if items == [] then Some([])
    else
      var first, rest := Normalize(items[0]), NormalizeAll(items[1..]);
      if first.None? || rest.None? then None else Some([first.value] + rest.value)
  }

  function NormalizeKeys(items: seq<Value>): (r: Option<seq<Json>>)
    ensures r.Some? ==> |r.value| == |items| && forall i | 0 <= i < |items| :: NormalizeKey(items[i]) == Some(r.value[i])
    decreases items, 0
  {
    if items == [] then Some([])
    else
      var first, rest := NormalizeKey(items[0]), NormalizeKeys(items[1..]);
      if first.None? || rest.None? then None else Some([first.value] + rest.value)
  }

  function Pair(key: Json, value: Json): Json { JArray([key, value]) }

  /** One `(key, value)` pair of a dictionary. */
  function NormalizeEntry(e: Entry): Option<Json>
    decreases e, 2
  {
    var key, value := NormalizeKey(e.key), Normalize(e.value);
    if key.None? || value.None? then None else Some(Pair(key.value, value.value))
  }

  function NormalizeEntries(entries: seq<Entry>): (r: Option<seq<Json>>)
    ensures r.Some? ==> |r.value| == |entries| && forall i | 0 <= i < |entries| :: NormalizeEntry(entries[i]) == Some(r.value[i])
    decreases entries, 0
  {
    if entries == [] then Some([])
    else
      var first, rest := NormalizeEntry(entries[0]), NormalizeEntries(entries[1..]);
      if first.None? || rest.None? then None else Some([first.value] + rest.value)
  }

  /** The order of texts by character, which is also the order of their UTF-8 bytes. */
  predicate LexLe(a: string, b: string) {
    a == "" || (b != "" && (a[0] < b[0] || (a[0] == b[0] && LexLe(a[1..], b[1..]))))
  }

  function Insert(j: Json, sorted: seq<Json>): seq<Json> {
    if sorted == [] || LexLe(Text(j), Text(sorted[0])) then [j] + sorted
    else [sorted[0]] + Insert(j, sorted[1..])
  }

  /** `pairs.sort(key=_canonical_bytes)`. */
  function Sort(pairs: seq<Json>): seq<Json> {
    if pairs == [] then [] else Insert(pairs[0], Sort(pairs[1..]))
  }

  // ---------------------------------------------------------------------------
  // Sorting: equal lists of pairs come from equal multisets
  // ---------------------------------------------------------------------------

  lemma {:induction false} LexTotal(a: string, b: string)
    ensures LexLe(a, b) || LexLe(b, a)
    decreases |a|
  {
    if a != "" && b != "" {
      LexTotal(a[1..], b[1..]);
    }
  }

  lemma {:induction false} LexTransitive(a: string, b: string, c: string)
    requires LexLe(a, b) && LexLe(b, c)
    ensures LexLe(a, c)
    decreases |a|
  {
    if a != "" && a[0] == b[0] == c[0] {
      LexTransitive(a[1..], b[1..], c[1..]);
    }
  }

  lemma {:induction false} LexAntisymmetric(a: string, b: string)
    requires LexLe(a, b) && LexLe(b, a)
    ensures a == b
    decreases |a|
  {
    if a != "" {
      LexAntisymmetric(a[1..], b[1..]);
      assert a == [a[0]] + a[1..] && b == [b[0]] + b[1..];
    }
  }

  /** Nothing in the list has a smaller text than `j`. */
  ghost predicate Least(j: Json, list: seq<Json>) {
    forall k | 0 <= k < |list| :: LexLe(Text(j), Text(list[k]))
  }

  ghost predicate Sorted(list: seq<Json>) {
    list == [] || (Least(list[0], list[1..]) && Sorted(list[1..]))
  }

  lemma Uncons<T>(list: seq<T>)
    requires list != []
    ensures multiset(list) == multiset([list[0]]) + multiset(list[1..])
  {
    assert list == [list[0]] + list[1..];
  }

  lemma {:induction false} InsertKeeps(j: Json, list: seq<Json>)
    ensures multiset(Insert(j, list)) == multiset([j]) + multiset(list)
  {
    if list == [] || LexLe(Text(j), Text(list[0])) {
      assert Insert(j, list) == [j] + list;
    } else {
      var rest := Insert(j, list[1..]);
      assert Insert(j, list) == [list[0]] + rest;
      assert multiset([list[0]] + rest) == multiset([list[0]]) + multiset(rest);
      InsertKeeps(j, list[1..]);
      Uncons(list);
    }
  }

  lemma {:induction false} SortKeeps(pairs: seq<Json>)
    ensures multiset(Sort(pairs)) == multiset(pairs)
  {
    if pairs != [] {
      SortKeeps(pairs[1..]);
      InsertKeeps(pairs[0], Sort(pairs[1..]));
      assert pairs == [pairs[0]] + pairs[1..];
    }
  }

  lemma LeastOfMore(j: Json, more: seq<Json>, i: Json, list: seq<Json>)
    requires Least(j, list) && LexLe(Text(j), Text(i))
    requires multiset(more) == multiset([i]) + multiset(list)
    ensures Least(j, more)
  {
    forall k | 0 <= k < |more| ensures LexLe(Text(j), Text(more[k])) {
      assert more[k] in multiset(more);
      assert more[k] == i || more[k] in list;
    }
  }

  lemma LeastBelow(j: Json, i: Json, list: seq<Json>)
    requires LexLe(Text(j), Text(i)) && Least(i, list)
    ensures Least(j, list)
  {
    forall k | 0 <= k < |list| ensures LexLe(Text(j), Text(list[k])) {
      LexTransitive(Text(j), Text(i), Text(list[k]));
    }
  }

  lemma {:induction false} InsertSorts(j: Json, list: seq<Json>)
    requires Sorted(list)
    ensures Sorted(Insert(j, list))
  {
    if list == [] {
      assert Insert(j, list)[1..] == [];
    } else if LexLe(Text(j), Text(list[0])) {
      LeastBelow(j, list[0], list[1..]);
      assert Insert(j, list)[1..] == list;
      LeastOfMore(j, list, list[0], list[1..]) by { assert list == [list[0]] + list[1..]; }
    } else {
      var rest := Insert(j, list[1..]);
      InsertSorts(j, list[1..]);
      InsertKeeps(j, list[1..]);
      LexTotal(Text(j), Text(list[0]));
      LeastOfMore(list[0], rest, j, list[1..]);
      assert Insert(j, list)[1..] == rest;
    }
  }

  lemma {:induction false} SortSorts(pairs: seq<Json>)
    ensures Sorted(Sort(pairs))
  {
    if pairs != [] {
      SortSorts(pairs[1..]);
      InsertSorts(pairs[0], Sort(pairs[1..]));
    }
  }

  lemma LeastOfAll(list: seq<Json>, j: Json)
    requires list != [] && Sorted(list) && j in list
    ensures LexLe(Text(list[0]), Text(j))
  {
    LexTotal(Text(j), Text(j));
  }

  lemma SameLeast(a: seq<Json>, b: seq<Json>)
    requires Sorted(a) && Sorted(b) && multiset(a) == multiset(b) && a != [] && b != []
    ensures a[0] == b[0]
  {
    assert a[0] in multiset(b) && b[0] in multiset(a);
    LeastOfAll(a, b[0]);
    LeastOfAll(b, a[0]);
    LexAntisymmetric(Text(a[0]), Text(b[0]));
    TextInjective(a[0], b[0]);
  }

  /** Sorted lists of the same pairs are equal: distinct pairs have distinct texts. */
  lemma {:induction false} SortedIsUnique(a: seq<Json>, b: seq<Json>)
    requires Sorted(a) && Sorted(b) && multiset(a) == multiset(b)
    ensures a == b
    decreases |a|
  {
    assert |a| == |multiset(a)| && |b| == |multiset(b)|;
    if a != [] {
      SameLeast(a, b);
      Uncons(a);
      Uncons(b);
      assert multiset(a[1..]) == multiset(a) - multiset([a[0]]);
      SortedIsUnique(a[1..], b[1..]);
      assert a == [a[0]] + a[1..] && b == [b[0]] + b[1..];
    }
  }

  /** The serializer being injective is what makes the sorted list of pairs canonical. */
  lemma SortIsCanonical(a: seq<Json>, b: seq<Json>)
    ensures Sort(a) == Sort(b) <==> multiset(a) == multiset(b)
  {
    SortKeeps(a);
    SortKeeps(b);
    if multiset(a) == multiset(b) {
      SortSorts(a);
      SortSorts(b);
      SortedIsUnique(Sort(a), Sort(b));
    }
  }

  // ---------------------------------------------------------------------------
  // When two option values are the same
  // ---------------------------------------------------------------------------

  /** Equal as rational numbers; Python compares numeric dictionary keys like this. */
  predicate SameNumber(f: Float, g: Float) {
    f.num * Pow2(g.exp) == g.num * Pow2(f.exp)
  }

  /** The same tree of the same types; the order of dictionary entries does not matter. */
  ghost predicate Same(a: Value, b: Value)
    decreases a, 0
  {
    match a
    case Dict(entries) => b.Dict? && SameEntries(entries, b.entries)
    case List(items) => b.List? && SameAll(items, b.items)
    case Tuple(items) => b.Tuple? && SameAll(items, b.items)
    case _ => a == b
  }

  ghost predicate SameKey(a: Value, b: Value)
    decreases a, 1
  {
    if IsNumber(a) then IsNumber(b) && SameNumber(Ratio(a), Ratio(b))
    else if a.Tuple? then b.Tuple? && SameKeys(a.items, b.items)
    else Same(a, b)
  }

  ghost predicate SameEntry(d: Entry, e: Entry)
    decreases d, 2
  {
    SameKey(d.key, e.key) && Same(d.value, e.value)
  }

  ghost predicate SameAll(a: seq<Value>, b: seq<Value>)
    decreases a, 0
  {
    if a == [] then b == []
    else b != [] && Same(a[0], b[0]) && SameAll(a[1..], b[1..])
  }

  ghost predicate SameKeys(a: seq<Value>, b: seq<Value>)
    decreases a, 0
  {
    if a == [] then b == []
    else b != [] && SameKey(a[0], b[0]) && SameKeys(a[1..], b[1..])
  }

  function Without<T>(s: seq<T>, i: nat): seq<T>
    requires i < |s|
  {
    s[..i] + s[i + 1..]
  }

  /** The entries can be paired off, in whatever order they stand. */
  ghost predicate SameEntries(a: seq<Entry>, b: seq<Entry>)
    decreases a, 0
  {
    if a == [] then b == []
    else exists i :: 0 <= i < |b| && SameEntry(a[0], b[i]) && SameEntries(a[1..], Without(b, i))
  }

  // ---------------------------------------------------------------------------
  // The normal form agrees with sameness
  // ---------------------------------------------------------------------------

  lemma HexByteInjective(m: Byte, n: Byte)
    requires HexByte(m) == HexByte(n)
    ensures m == n
  {
    assert HexByte(m)[0] == HexDigit(m / 16) && HexByte(m)[1] == HexDigit(m % 16);
    assert HexByte(n)[0] == HexDigit(n / 16) && HexByte(n)[1] == HexDigit(n % 16);
  }

  lemma {:induction false} HexInjective(a: seq<Byte>, b: seq<Byte>)
    requires Hex(a) == Hex(b)
    ensures a == b
  {
    if a != [] && b != [] {
      assert Hex(a)[..2] == HexByte(a[0]) && Hex(b)[..2] == HexByte(b[0]);
      assert Hex(a)[2..] == Hex(a[1..]) && Hex(b)[2..] == Hex(b[1..]);
      HexByteInjective(a[0], b[0]);
      HexInjective(a[1..], b[1..]);
      assert a == [a[0]] + a[1..] && b == [b[0]] + b[1..];
    }
  }

  lemma TimesTwo(x: int, p: int)
    ensures x * (2 * p) == 2 * (x * p)
  {
  }

  /** An even number is no odd number scaled by a smaller power of two. */
  lemma {:induction false} OddIsNoMultiple(x: int, y: int, i: nat, j: nat)
    requires i < j && x * Pow2(j) == y * Pow2(i)
    ensures y % 2 == 0
    decreases i
  {
    TimesTwo(x, Pow2(j - 1));
    if i > 0 {
      TimesTwo(y, Pow2(i - 1));
      OddIsNoMultiple(x, y, i - 1, j - 1);
    }
  }

  lemma {:induction false} CancelPow2(x: int, y: int, k: nat)
    requires x * Pow2(k) == y * Pow2(k)
    ensures x == y
  {
    if k > 0 {
      TimesTwo(x, Pow2(k - 1));
      TimesTwo(y, Pow2(k - 1));
      CancelPow2(x, y, k - 1);
    }
  }

  /** Fractions in lowest terms have one numerator and one denominator. */
  lemma LowestTermsAreUnique(f: Float, g: Float)
    ensures SameNumber(f, g) <==> f.num == g.num && Pow2(f.exp) == Pow2(g.exp)
  {
    if SameNumber(f, g) {
      if f.exp < g.exp {
        OddIsNoMultiple(f.num, g.num, f.exp, g.exp);
      } else if g.exp < f.exp {
        OddIsNoMultiple(g.num, f.num, g.exp, f.exp);
      } else {
        CancelPow2(f.num, g.num, f.exp);
      }
    }
  }

  ghost predicate BothNormal(a: Value, b: Value) {
    Normalize(a).Some? && Normalize(b).Some?
  }

  ghost predicate BothKeysNormal(a: Value, b: Value) {
    NormalizeKey(a).Some? && NormalizeKey(b).Some?
  }

  /** The tag a normal form starts with. */
  function Kind(v: Value): (k: string)
    ensures k != ""
  {
    match v
    case Nothing => "none"
    case Bool(_) => "bool"
    case Int(_) => "int"
    case Real(_) => "float"
    case Path(_, _) => "path"
    case Str(_) => "str"
    case Bytes(_) => "bytes"
    case Callable(_) => "callable"
    case Dict(_) => "mapping"
    case _ => "sequence"
  }

  function KeyKind(v: Value): (k: string)
    ensures k != ""
  {
    if IsNumber(v) then "number" else if v.Tuple? then "tuple" else Kind(v)
  }

  predicate TaggedBy(j: Json, kind: string) {
    j.JArray? && j.items != [] && j.items[0] == JStr(kind)
  }

  lemma NormalTag(v: Value)
    requires Normalize(v).Some?
    ensures TaggedBy(Normalize(v).value, Kind(v))
  {
  }

  lemma KeyTag(v: Value)
    requires NormalizeKey(v).Some?
    ensures TaggedBy(NormalizeKey(v).value, KeyKind(v))
  {
  }

  /** Length and first letter tell the tags apart. */
  lemma KindsDiffer(a: Value, b: Value)
    requires !a.Unsupported? && !b.Unsupported? && Kind(a) == Kind(b)
    ensures a.Nothing? <==> b.Nothing?
    ensures a.Bool? <==> b.Bool?
    ensures a.Int? <==> b.Int?
    ensures a.Real? <==> b.Real?
    ensures a.Path? <==> b.Path?
    ensures a.Str? <==> b.Str?
    ensures a.Bytes? <==> b.Bytes?
    ensures a.Callable? <==> b.Callable?
    ensures a.Dict? <==> b.Dict?
  {
    assert |Kind(a)| == |Kind(b)| && Kind(a)[0] == Kind(b)[0];
  }

  lemma KeyKindsDiffer(a: Value, b: Value)
    requires !a.Unsupported? && !b.Unsupported? && KeyKind(a) == KeyKind(b)
    ensures IsNumber(a) <==> IsNumber(b)
    ensures a.Tuple? <==> b.Tuple?
  {
    assert |KeyKind(a)| == |KeyKind(b)| && KeyKind(a)[0] == KeyKind(b)[0];
  }

  lemma {:induction false} NormalAgrees(a: Value, b: Value)
    requires BothNormal(a, b)
    ensures Normalize(a) == Normalize(b) <==> Same(a, b)
    decreases a, 0
  {
    NormalTag(a);
    NormalTag(b);
    if Kind(a) == Kind(b) {
      KindsDiffer(a, b);
      match a
      case Dict(entries) => DictAgrees(entries, b.entries);
      case List(items) => SequenceAgrees(a, b);
      case Tuple(items) => SequenceAgrees(a, b);
      case _ => LeafAgrees(a, b);
    }
  }

  predicate IsLeaf(v: Value) { !v.Dict? && !v.List? && !v.Tuple? }

  lemma LeafAgrees(a: Value, b: Value)
    requires BothNormal(a, b) && Kind(a) == Kind(b) && IsLeaf(a) && IsLeaf(b)
    ensures Normalize(a) == Normalize(b) <==> Same(a, b)
  {
    KindsDiffer(a, b);
    var m, n := Normalize(a).value.items, Normalize(b).value.items;
    if m == n && |m| > 1 {
      assert m[1] == n[1];
      assert |m| == 3 ==> m[2] == n[2];
      if a.Bytes? {
        HexInjective(a.bytes, b.bytes);
      }
      if a.Path? {
        assert "windows"[0] != "posix"[0];
      }
    }
  }

  lemma {:induction false} SequenceAgrees(a: Value, b: Value)
    requires BothNormal(a, b) && (a.List? || a.Tuple?) && (b.List? || b.Tuple?)
    ensures Normalize(a) == Normalize(b) <==> Same(a, b)
    decreases a.items, 1
  {
    var m, n := Normalize(a).value.items, Normalize(b).value.items;
    assert |m| == 3 && |n| == 3 && m[0] == n[0];
    if a.List? == b.List? {
      AllAgree(a.items, b.items);
      assert m[1] == n[1];
    } else {
      assert m[1] != n[1] by { assert "builtins.list"[9] != "builtins.tuple"[9]; }
    }
  }

  lemma {:induction false} AllAgree(a: seq<Value>, b: seq<Value>)
    requires NormalizeAll(a).Some? && NormalizeAll(b).Some?
    ensures NormalizeAll(a) == NormalizeAll(b) <==> SameAll(a, b)
    decreases a, 0
  {
    var m, n := NormalizeAll(a).value, NormalizeAll(b).value;
    if a != [] && b != [] {
      NormalAgrees(a[0], b[0]);
      AllAgree(a[1..], b[1..]);
      assert m[0] == Normalize(a[0]).value && m[1..] == NormalizeAll(a[1..]).value;
      assert n[0] == Normalize(b[0]).value && n[1..] == NormalizeAll(b[1..]).value;
      assert m == [m[0]] + m[1..] && n == [n[0]] + n[1..];
    }
  }

  lemma {:induction false} KeyAgrees(a: Value, b: Value)
    requires BothKeysNormal(a, b)
    ensures NormalizeKey(a) == NormalizeKey(b) <==> SameKey(a, b)
    decreases a, 1
  {
    KeyTag(a);
    KeyTag(b);
    if KeyKind(a) == KeyKind(b) {
      KeyKindsDiffer(a, b);
      if IsNumber(a) {
        NumberKeyAgrees(a, b);
      } else if a.Tuple? {
        KeysAgree(a.items, b.items);
        TaggedAgrees("tuple", NormalizeKeys(a.items), NormalizeKeys(b.items));
      } else {
        NormalAgrees(a, b);
      }
    }
  }

  lemma TaggedAgrees(tag: string, a: Option<seq<Json>>, b: Option<seq<Json>>)
    requires a.Some? && b.Some?
    ensures Tagged(tag, a) == Tagged(tag, b) <==> a == b
  {
    assert Tagged(tag, a).value.items[1] == JArray(a.value) && Tagged(tag, b).value.items[1] == JArray(b.value);
  }

  lemma NumberKeyAgrees(a: Value, b: Value)
    requires IsNumber(a) && IsNumber(b)
    ensures NormalizeKey(a) == NormalizeKey(b) <==> SameKey(a, b)
  {
    LowestTermsAreUnique(Ratio(a), Ratio(b));
    var m, n := NormalizeKey(a).value.items, NormalizeKey(b).value.items;
    assert m == n <==> m[1] == n[1] && m[2] == n[2];
  }

  lemma {:induction false} KeysAgree(a: seq<Value>, b: seq<Value>)
    requires NormalizeKeys(a).Some? && NormalizeKeys(b).Some?
    ensures NormalizeKeys(a) == NormalizeKeys(b) <==> SameKeys(a, b)
    decreases a, 0
  {
    var m, n := NormalizeKeys(a).value, NormalizeKeys(b).value;
    if a != [] && b != [] {
      KeyAgrees(a[0], b[0]);
      KeysAgree(a[1..], b[1..]);
      assert m[0] == NormalizeKey(a[0]).value && m[1..] == NormalizeKeys(a[1..]).value;
      assert n[0] == NormalizeKey(b[0]).value && n[1..] == NormalizeKeys(b[1..]).value;
      assert m == [m[0]] + m[1..] && n == [n[0]] + n[1..];
    }
  }

  lemma {:induction false} EntryAgrees(d: Entry, e: Entry)
    requires NormalizeEntry(d).Some? && NormalizeEntry(e).Some?
    ensures NormalizeEntry(d) == NormalizeEntry(e) <==> SameEntry(d, e)
    decreases d, 2
  {
    KeyAgrees(d.key, e.key);
    NormalAgrees(d.value, e.value);
    var m, n := NormalizeEntry(d).value.items, NormalizeEntry(e).value.items;
    assert m == n <==> m[0] == n[0] && m[1] == n[1];
  }

  lemma {:induction false} DictAgrees(a: seq<Entry>, b: seq<Entry>)
    requires BothNormal(Dict(a), Dict(b))
    ensures Normalize(Dict(a)) == Normalize(Dict(b)) <==> Same(Dict(a), Dict(b))
    decreases a, 1
  {
    var m, n := NormalizeEntries(a).value, NormalizeEntries(b).value;
    EntriesAgree(a, b);
    SortIsCanonical(m, n);
    TaggedAgrees("mapping", Some(Sort(m)), Some(Sort(n)));
  }

  lemma ConsNormal(e: Entry, rest: seq<Entry>)
    requires NormalizeEntry(e).Some? && NormalizeEntries(rest).Some?
    ensures NormalizeEntries([e] + rest) == Some([NormalizeEntry(e).value] + NormalizeEntries(rest).value)
  {
    assert ([e] + rest)[1..] == rest;
  }

  lemma WithoutLater<T>(s: seq<T>, i: nat)
    requires 0 < i < |s|
    ensures Without(s, i) == [s[0]] + Without(s[1..], i - 1)
  {
  }

  /** Leaving out an entry leaves out its pair. */
  lemma {:induction false} NormalizeWithout(entries: seq<Entry>, i: nat)
    requires i < |entries| && NormalizeEntries(entries).Some?
    ensures NormalizeEntries(Without(entries, i)).Some?
    ensures NormalizeEntries(Without(entries, i)).value == Without(NormalizeEntries(entries).value, i)
    decreases i
  {
    var pairs := NormalizeEntries(entries).value;
    assert NormalizeEntries(entries[1..]).Some? && pairs[1..] == NormalizeEntries(entries[1..]).value;
    if i == 0 {
      assert Without(entries, 0) == entries[1..] && Without(pairs, 0) == pairs[1..];
    } else {
      NormalizeWithout(entries[1..], i - 1);
      WithoutLater(entries, i);
      WithoutLater(pairs, i);
      ConsNormal(entries[0], Without(entries[1..], i - 1));
    }
  }

  lemma WithoutKeeps<T>(s: seq<T>, i: nat)
    requires i < |s|
    ensures multiset(s) == multiset([s[i]]) + multiset(Without(s, i))
  {
    assert s == s[..i] + [s[i]] + s[i + 1..];
  }

  lemma {:induction false} EntriesAgree(a: seq<Entry>, b: seq<Entry>)
    requires NormalizeEntries(a).Some? && NormalizeEntries(b).Some?
    ensures multiset(NormalizeEntries(a).value) == multiset(NormalizeEntries(b).value) <==> SameEntries(a, b)
    decreases a, 0
  {
    var m, n := NormalizeEntries(a).value, NormalizeEntries(b).value;
    if a == [] {
      assert |multiset(n)| == |n|;
    } else {
      if SameEntries(a, b) {
        var i :| 0 <= i < |b| && SameEntry(a[0], b[i]) && SameEntries(a[1..], Without(b, i));
        EntryAgrees(a[0], b[i]);
        PairedOff(a, b, i);
      }
      if multiset(m) == multiset(n) {
        Uncons(m);
        assert m[0] in multiset(n);
        var i :| 0 <= i < |n| && n[i] == m[0];
        EntryAgrees(a[0], b[i]);
        PairedOff(a, b, i);
      }
    }
  }

  /** Pairing off the first entry reduces the question to the rest. */
  lemma {:induction false} PairedOff(a: seq<Entry>, b: seq<Entry>, i: nat)
    requires a != [] && i < |b| && NormalizeEntries(a).Some? && NormalizeEntries(b).Some?
    requires NormalizeEntries(a).value[0] == NormalizeEntries(b).value[i]
    ensures SameEntries(a[1..], Without(b, i))
            <==> multiset(NormalizeEntries(a).value) == multiset(NormalizeEntries(b).value)
    decreases a[1..], 1
  {
    var m, n := NormalizeEntries(a).value, NormalizeEntries(b).value;
    NormalizeWithout(b, i);
    assert m[1..] == NormalizeEntries(a[1..]).value;
    EntriesAgree(a[1..], Without(b, i));
    Uncons(m);
    WithoutKeeps(n, i);
    assert multiset(m[1..]) == multiset(m) - multiset([m[0]]);
    assert multiset(Without(n, i)) == multiset(n) - multiset([m[0]]);
  }

  // ---------------------------------------------------------------------------
  // Source identities
  // ---------------------------------------------------------------------------

  /** The text that is hashed into a source's identity, or `None`: the source is not cached. */
  function Identity(index: nat, backend: string, options: Value): Option<string> {
    var normal := Normalize(List([Int(index), Str(backend), options]));
    if normal.None? then None else Some(Text(normal.value))
  }

  /** Two option values have the same text exactly when they are the same tree. */
  lemma EqualTextsAreSameValues(a: Value, b: Value)
    requires BothNormal(a, b)
    ensures Text(Normalize(a).value) == Text(Normalize(b).value) <==> Same(a, b)
  {
    NormalAgrees(a, b);
    if Text(Normalize(a).value) == Text(Normalize(b).value) {
      TextInjective(Normalize(a).value, Normalize(b).value);
    }
  }

  /** Sources share an identity only if position, backend and options are the same. */
  lemma IdentitiesAreExact(i: nat, backend: string, options: Value, i': nat, backend': string, options': Value)
    requires Identity(i, backend, options).Some? && Identity(i', backend', options').Some?
    ensures Identity(i, backend, options) == Identity(i', backend', options')
            <==> i == i' && backend == backend' && Same(options, options')
  {
    var a, b := [Int(i), Str(backend), options], [Int(i'), Str(backend'), options'];
    EqualTextsAreSameValues(List(a), List(b));
    SameTriple(Int(i), Str(backend), options, Int(i'), Str(backend'), options');
  }

  lemma SameTriple(x: Value, y: Value, z: Value, x': Value, y': Value, z': Value)
    ensures Same(List([x, y, z]), List([x', y', z'])) <==> Same(x, x') && Same(y, y') && Same(z, z')
  {
    assert [x, y, z][1..] == [y, z] && [y, z][1..] == [z] && [z][1..] == [];
    assert [x', y', z'][1..] == [y', z'] && [y', z'][1..] == [z'] && [z'][1..] == [];
    assert SameAll([z], [z']) <==> Same(z, z');
    assert SameAll([y, z], [y', z']) <==> Same(y, y') && SameAll([z], [z']);
  }


  /** Every value in the tree is of a supported type, and every callable has an import path. */
  predicate Supported(v: Value)
    decreases v, 0
  {
    match v
    case Unsupported => false
    case Callable(path) => path.Some?
    case Dict(entries) => forall i | 0 <= i < |entries| :: SupportedEntry(entries[i])
    case List(items) => forall i | 0 <= i < |items| :: Supported(items[i])
    case Tuple(items) => forall i | 0 <= i < |items| :: Supported(items[i])
    case _ => true
  }

  predicate SupportedEntry(e: Entry)
    decreases e, 1
  {
    Supported(e.key) && Supported(e.value)
  }

  lemma {:induction false} NormalIffSupported(v: Value)
    ensures Normalize(v).Some? <==> Supported(v)
    decreases v, 0
  {
    match v
    case Dict(entries) =>
      forall i | 0 <= i < |entries| ensures NormalizeEntry(entries[i]).Some? <==> SupportedEntry(entries[i]) {
        KeyIffSupported(entries[i].key);
        NormalIffSupported(entries[i].value);
      }
      EntriesIff(entries);
    case List(items) =>
      forall i | 0 <= i < |items| ensures Normalize(items[i]).Some? <==> Supported(items[i]) {
        NormalIffSupported(items[i]);
      }
    case Tuple(items) =>
      forall i | 0 <= i < |items| ensures Normalize(items[i]).Some? <==> Supported(items[i]) {
        NormalIffSupported(items[i]);
      }
    case _ =>
  }

  lemma {:induction false} KeyIffSupported(v: Value)
    ensures NormalizeKey(v).Some? <==> Supported(v)
    decreases v, 1
  {
    if v.Tuple? {
      forall i | 0 <= i < |v.items| ensures NormalizeKey(v.items[i]).Some? <==> Supported(v.items[i]) {
        KeyIffSupported(v.items[i]);
      }
      KeysIff(v.items);
    } else {
      NormalIffSupported(v);
    }
  }

  lemma {:induction false} KeysIff(items: seq<Value>)
    ensures NormalizeKeys(items).Some? <==> forall i | 0 <= i < |items| :: NormalizeKey(items[i]).Some?
  {
    if items != [] {
      KeysIff(items[1..]);
      assert items == [items[0]] + items[1..];
    }
  }

  lemma {:induction false} EntriesIff(entries: seq<Entry>)
    ensures NormalizeEntries(entries).Some? <==> forall i | 0 <= i < |entries| :: NormalizeEntry(entries[i]).Some?
  {
    if entries != [] {
      EntriesIff(entries[1..]);
      assert entries == [entries[0]] + entries[1..];
    }
  }

  /** A source has an identity, and is cached, exactly if its options are supported throughout. */
  lemma IdentityIffSupported(index: nat, backend: string, options: Value)
    ensures Identity(index, backend, options).Some? <==> Supported(options)
  {
    var all := [Int(index), Str(backend), options];
    NormalIffSupported(List(all));
    assert Supported(List(all)) <==> Supported(options) by {
      assert all[2] == options && Supported(all[0]) && Supported(all[1]);
    }
  }
}

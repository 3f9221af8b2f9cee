/**
 * The few Python built-ins the scripts rely on, stated over Dafny values:
 * `str.isspace`/`str.strip`, `str.startswith`, `str.split(sep)`, `int(str)`,
 * `str(int)`, ASCII `str.lower`, the slice `xs[:n]`, truthiness and `float(x)`.
 */
module PyBuiltins {

  datatype Option<+T> = None | Some(value: T)

  /** A result, or the exception that ended the computation. */
  datatype Result<+T, +E> = Ok(value: T) | Err(error: E)

  /** A Python value as it reaches the scripts from JSON or from `**kwargs`. */
  datatype Value =
    | NoneV
    | BoolV(b: bool)
    | IntV(i: int)
    | FloatV(r: real)
    | StrV(s: string)
    | DictV(entries: map<string, string>)
    | SetV(members: set<string>)
    | ListV(items: seq<Value>)
    | ObjectV(name: string)   // any other object, opaque here

  /** Python truthiness (`if x:`). */
  predicate Truthy(v: Value) {
    match v
    case NoneV => false
    case BoolV(b) => b
    case IntV(i) => i != 0
    case FloatV(r) => r != 0.0
    case StrV(s) => s != []
    case DictV(m) => |m| != 0
    case SetV(xs) => |xs| != 0
    case ListV(xs) => |xs| != 0
    case ObjectV(_) => true
  }

  /** `float(v)`, or None where Python raises (or where the string-to-float parser would be needed). */
  function AsFloat(v: Value): (r: Option<real>)
    ensures v.FloatV? ==> r == Some(v.r)
    ensures v.IntV? ==> r == Some(v.i as real)
    ensures (v.NoneV? || v.StrV? || v.DictV? || v.SetV? || v.ListV? || v.ObjectV?) ==> r == None
  {
    match v
    case BoolV(b) => Some(if b then 1.0 else 0.0)
    case IntV(i) => Some(i as real)
    case FloatV(x) => Some(x)
    case _ => None
  }

  // ---------------------------------------------------------------- whitespace

  /** `c.isspace()`: the characters Python's `str.strip()` removes. */
  predicate IsSpace(c: char) {
    var n := c as int;
    (0x09 <= n <= 0x0D) || (0x1C <= n <= 0x20) || n == 0x85 || n == 0xA0 || n == 0x1680
    || (0x2000 <= n <= 0x200A) || n == 0x2028 || n == 0x2029 || n == 0x202F || n == 0x205F || n == 0x3000
  }

  predicate AllSpace(s: string) {
    forall i :: 0 <= i < |s| ==> IsSpace(s[i])
  }

  lemma AllSpaceConcat(a: string, b: string)
    requires AllSpace(a) && AllSpace(b)
    ensures AllSpace(a + b)
  {
    forall k | 0 <= k < |a + b| ensures IsSpace((a + b)[k]) {
      if k < |a| { assert (a + b)[k] == a[k]; } else { assert (a + b)[k] == b[k - |a|]; }
    }
  }

  /** `s.lstrip()`: what is left after the leading whitespace. */
  function LStrip(s: string): (r: string)
    ensures |r| <= |s|
    ensures r == [] || !IsSpace(r[0])
    decreases |s|
  {
    if s != [] && IsSpace(s[0]) then LStrip(s[1..]) else s
  }

  /** `s.rstrip()`: what is left before the trailing whitespace. */
  function RStrip(s: string): (r: string)
    ensures |r| <= |s|
    ensures r == [] || !IsSpace(r[|r| - 1])
    decreases |s|
  {
    if s != [] && IsSpace(s[|s| - 1]) then RStrip(s[..|s| - 1]) else s
  }

  /** `lstrip` removes a whitespace prefix and keeps the rest. */
  lemma {:induction false} LStripRemovesSpacePrefix(s: string)
    ensures |LStrip(s)| <= |s|
    ensures LStrip(s) == s[|s| - |LStrip(s)|..]
    ensures AllSpace(s[..|s| - |LStrip(s)|])
    decreases |s|
  {
    if s != [] && IsSpace(s[0]) {
      LStripRemovesSpacePrefix(s[1..]);
      var k := |s| - |LStrip(s)|;
      assert s[1..][k - 1..] == s[k..];
      assert s[..k] == [s[0]] + s[1..][..k - 1];
      AllSpaceConcat([s[0]], s[1..][..k - 1]);
    }
  }

  /** `rstrip` removes a whitespace suffix and keeps the rest. */
  lemma {:induction false} RStripRemovesSpaceSuffix(s: string)
    ensures |RStrip(s)| <= |s|
    ensures RStrip(s) == s[..|RStrip(s)|]
    ensures AllSpace(s[|RStrip(s)|..])
    decreases |s|
  {
    if s != [] && IsSpace(s[|s| - 1]) {
      var p := s[..|s| - 1];
      RStripRemovesSpaceSuffix(p);
      var k := |RStrip(s)|;
      assert p[..k] == s[..k];
      assert s[k..] == p[k..] + [s[|s| - 1]];
      AllSpaceConcat(p[k..], [s[|s| - 1]]);
    }
  }

  lemma {:induction false} LStripAllSpace(s: string)
    ensures LStrip(s) == [] <==> AllSpace(s)
    decreases |s|
  {
    if s != [] {
      LStripAllSpace(s[1..]);
      if IsSpace(s[0]) {
        assert s == [s[0]] + s[1..];
        if AllSpace(s[1..]) { AllSpaceConcat([s[0]], s[1..]); }
        if AllSpace(s) { assert forall k :: 0 <= k < |s[1..]| ==> s[1..][k] == s[k + 1]; }
      }
    }
  }

  lemma {:induction false} RStripAllSpace(s: string)
    ensures RStrip(s) == [] <==> AllSpace(s)
    decreases |s|
  {
    if s != [] {
      var p := s[..|s| - 1];
      RStripAllSpace(p);
      if IsSpace(s[|s| - 1]) {
        assert s == p + [s[|s| - 1]];
        if AllSpace(p) { AllSpaceConcat(p, [s[|s| - 1]]); }
        if AllSpace(s) { assert forall k :: 0 <= k < |p| ==> p[k] == s[k]; }
      }
    }
  }

  /** `s.strip()`. */
  function Strip(s: string): (r: string)
    ensures |r| <= |s|
    ensures r == [] || (!IsSpace(r[0]) && !IsSpace(r[|r| - 1]))
    ensures r == [] <==> AllSpace(s)
  {
    var l := LStrip(s);
    LStripAllSpace(s);
    RStripAllSpace(l);
    RStripRemovesSpaceSuffix(l);
    assert RStrip(l) != [] ==> RStrip(l)[0] == l[0];
    RStrip(l)
  }

  /** What `strip()` removes is whitespace, at both ends, and nothing from the middle. */
  lemma StripTrimsOnlySpace(s: string)
    ensures exists i, j :: 0 <= i <= j <= |s| && Strip(s) == s[i..j] && AllSpace(s[..i]) && AllSpace(s[j..])
  {
    var l := LStrip(s);
    var r := RStrip(l);
    LStripRemovesSpacePrefix(s);
    RStripRemovesSpaceSuffix(l);
    var i := |s| - |l|;
    assert r == s[i..i + |r|];
    assert s[i + |r|..] == l[|r|..];
  }

  lemma {:induction false} LStripSpacePrefix(w: string, y: string)
    requires AllSpace(w)
    ensures LStrip(w + y) == LStrip(y)
    decreases |w|
  {
    if w != [] {
      assert (w + y)[0] == w[0] && IsSpace(w[0]);
      assert (w + y)[1..] == w[1..] + y;
      LStripSpacePrefix(w[1..], y);
    } else {
      assert w + y == y;
    }
  }

  lemma {:induction false} LStripAppend(s: string, w: string)
    requires !AllSpace(s)
    ensures LStrip(s + w) == LStrip(s) + w
    decreases |s|
  {
    assert (s + w)[0] == s[0];
    if IsSpace(s[0]) {
      assert (s + w)[1..] == s[1..] + w;
      assert !AllSpace(s[1..]);
      LStripAppend(s[1..], w);
    }
  }

  lemma {:induction false} RStripSpaceSuffix(y: string, w: string)
    requires AllSpace(w)
    ensures RStrip(y + w) == RStrip(y)
    decreases |w|
  {
    if w != [] {
      assert (y + w)[|y + w| - 1] == w[|w| - 1] && IsSpace(w[|w| - 1]);
      assert (y + w)[..|y + w| - 1] == y + w[..|w| - 1];
      RStripSpaceSuffix(y, w[..|w| - 1]);
    } else {
      assert y + w == y;
    }
  }

  /** Whitespace added around a string does not change what `strip()` returns. */
  lemma StripWithPadding(w1: string, s: string, w2: string)
    requires AllSpace(w1) && AllSpace(w2)
    ensures Strip(w1 + s + w2) == Strip(s)
  {
    assert w1 + s + w2 == w1 + (s + w2);
    LStripSpacePrefix(w1, s + w2);
    if AllSpace(s) {
      AllSpaceConcat(s, w2);
      LStripAllSpace(s + w2);
      LStripAllSpace(s);
    } else {
      LStripAppend(s, w2);
      RStripSpaceSuffix(LStrip(s), w2);
    }
  }

  /** A string with no whitespace at its ends strips to itself. */
  lemma StripUnpadded(s: string)
    requires s == [] || (!IsSpace(s[0]) && !IsSpace(s[|s| - 1]))
    ensures Strip(s) == s
  {
  }

  /** Stripping twice is stripping once. */
  lemma StripIdempotent(s: string)
    ensures Strip(Strip(s)) == Strip(s)
  {
    StripUnpadded(Strip(s));
  }

  // ---------------------------------------------------------------- prefixes, split

  /** `s.startswith(p)`. */
  predicate StartsWith(s: string, p: string) {
    |p| <= |s| && s[..|p|] == p
  }

  /** `s.split(sep)` for a one-character separator. */
  function Split(s: string, sep: char): (parts: seq<string>)
    ensures |parts| >= 1
    ensures (sep in s) <==> |parts| >= 2
    ensures forall k :: 0 <= k < |parts| ==> sep !in parts[k]
    decreases |s|
  {
    if s == [] then [""]
    else
      var rest := Split(s[1..], sep);
      if s[0] == sep then [""] + rest
      else [[s[0]] + rest[0]] + rest[1..]
  }

  /** `sep.join(parts)`. */
  function Join(parts: seq<string>, sep: char): string
    requires |parts| >= 1
  {
    if |parts| == 1 then parts[0] else parts[0] + [sep] + Join(parts[1..], sep)
  }

  /** Splitting loses nothing: joining the parts gives the string back. */
  lemma {:induction false} SplitJoin(s: string, sep: char)
    ensures Join(Split(s, sep), sep) == s
    decreases |s|
  {
    if s != [] {
      var rest := Split(s[1..], sep);
      SplitJoin(s[1..], sep);
      if s[0] != sep {
        if |rest| > 1 {
          assert Split(s, sep)[1..] == rest[1..];
          ConcatAssoc4([s[0]], rest[0], [sep], Join(rest[1..], sep));
        }
        assert s == [s[0]] + s[1..];
      } else {
        assert Split(s, sep)[1..] == rest;
      }
    }
  }

  lemma ConcatAssoc<T>(h: seq<T>, x: seq<T>, y: seq<T>)
    ensures h + (x + y) == (h + x) + y
  {
  }

  lemma ConcatAssoc4<T>(h: seq<T>, a: seq<T>, m: seq<T>, j: seq<T>)
    ensures (h + a) + m + j == h + (a + m + j)
  {
  }

  /** The part after the first separator, when the text begins with a prefix ending in it. */
  lemma {:induction false} SplitAfterPrefix(p: string, rest: string, sep: char)
    requires |p| >= 1 && p[|p| - 1] == sep && sep !in p[..|p| - 1]
    ensures |Split(p + rest, sep)| >= 2
    ensures Split(p + rest, sep)[1] == Split(rest, sep)[0]
    decreases |p|
  {
    assert (p + rest)[|p| - 1] == sep;
    if |p| == 1 {
      assert (p + rest)[1..] == rest;
    } else {
      assert (p + rest)[1..] == p[1..] + rest;
      assert p[1..][..|p[1..]| - 1] == p[..|p| - 1][1..];
      SplitAfterPrefix(p[1..], rest, sep);
      assert p[0] != sep by { assert p[0] == p[..|p| - 1][0]; }
    }
  }

  /** The first part of a split is the text before the first separator. */
  lemma {:induction false} SplitFirstPart(a: string, sep: char, b: string)
    requires sep !in a
    ensures Split(a + [sep] + b, sep)[0] == a
    ensures Split(a, sep) == [a]
    decreases |a|
  {
    if a == [] {
      assert a + [sep] + b == [sep] + b;
    } else {
      assert (a + [sep] + b)[1..] == a[1..] + [sep] + b;
      SplitFirstPart(a[1..], sep, b);
      assert a == [a[0]] + a[1..];
    }
  }

  /** A field free of the separator, followed by nothing or by the separator, is the first part. */
  lemma SplitFirstField(a: string, rest: string, sep: char)
    requires sep !in a && (rest == [] || rest[0] == sep)
    ensures Split(a + rest, sep)[0] == a
  {
    if rest == [] {
      SplitFirstPart(a, sep, []);
      assert a + rest == a;
    } else {
      SplitFirstPart(a, sep, rest[1..]);
      assert a + rest == a + [sep] + rest[1..];
    }
  }

  // ---------------------------------------------------------------- int(), str()

  predicate IsDigit(c: char) { '0' <= c <= '9' }

  function DigitValue(c: char): nat
    requires IsDigit(c)
  {
    c as int - '0' as int
  }

  function DigitChar(d: nat): (c: char)
    requires d < 10
    ensures IsDigit(c) && DigitValue(c) == d
  {
    ('0' as int + d) as char
  }

  /** The body of a base-10 literal as `int()` accepts it: digits, with single underscores between digits. */
  predicate IsDecimalLiteral(s: string) {
    && |s| > 0 && IsDigit(s[0]) && IsDigit(s[|s| - 1])
    && (forall i :: 0 <= i < |s| ==> IsDigit(s[i]) || s[i] == '_')
    && (forall i :: 0 <= i < |s| - 1 ==> s[i] == '_' ==> s[i + 1] != '_')
  }

  /** The value of a digit string, underscores ignored. */
  function LiteralValue(s: string): nat
    requires forall i :: 0 <= i < |s| ==> IsDigit(s[i]) || s[i] == '_'
  {
    if s == [] then 0
    else if s[|s| - 1] == '_' then LiteralValue(s[..|s| - 1])
    else 10 * LiteralValue(s[..|s| - 1]) + DigitValue(s[|s| - 1])
  }

  /** `int(s)`: None where Python raises ValueError. Surrounding whitespace and a sign are accepted. */
  function ParseInt(s: string): (r: Option<int>)
    ensures r.Some? ==> Strip(s) != []
    ensures AllSpace(s) ==> r == None
  {
    var t := Strip(s);
    if |t| > 0 && (t[0] == '+' || t[0] == '-') then
      if IsDecimalLiteral(t[1..]) then
        var v: int := LiteralValue(t[1..]);
        Some(if t[0] == '-' then -v else v)
      else None
    else if IsDecimalLiteral(t) then Some(LiteralValue(t))
    else None
  }

  /** `str(n)` for a natural number. */
  function ShowNat(n: nat): (r: string)
    ensures IsDecimalLiteral(r)
    ensures forall i :: 0 <= i < |r| ==> IsDigit(r[i])
  {
    if n < 10 then [DigitChar(n)] else ShowNat(n / 10) + [DigitChar(n % 10)]
  }

  /** `str(i)`. */
  function ShowInt(i: int): string {
    if i < 0 then "-" + ShowNat(-i) else ShowNat(i)
  }

  lemma {:induction false} LiteralValueShowNat(n: nat)
    ensures LiteralValue(ShowNat(n)) == n
  {
    if n >= 10 {
      var r := ShowNat(n);
      assert r[..|r| - 1] == ShowNat(n / 10);
      LiteralValueShowNat(n / 10);
    }
  }

  /** `int(str(i)) == i`. */
  lemma ParseShowRoundTrip(i: int)
    ensures ParseInt(ShowInt(i)) == Some(i)
  {
    if i < 0 { ParseShowNegative(i); } else { ParseShowNonNegative(i); }
  }

  lemma ParseShowNonNegative(i: int)
    requires i >= 0
    ensures ParseInt(ShowInt(i)) == Some(i)
  {
    var s := ShowInt(i);
    assert IsDigit(s[0]) && IsDigit(s[|s| - 1]);
    StripUnpadded(s);
    LiteralValueShowNat(i);
  }

  lemma ParseShowNegative(i: int)
    requires i < 0
    ensures ParseInt(ShowInt(i)) == Some(i)
  {
    var body := ShowNat(-i);
    LiteralValueShowNat(-i);
    ParseNegativeLiteral(body, -i);
    assert ShowInt(i) == "-" + body;
  }

  /** A minus sign followed by a decimal literal parses as the negated value. */
  lemma ParseNegativeLiteral(body: string, n: nat)
    requires IsDecimalLiteral(body) && LiteralValue(body) == n
    ensures ParseInt("-" + body) == Some(-(n as int))
  {
    var s := "-" + body;
    assert s[1..] == body;
    assert s[|s| - 1] == body[|body| - 1];
    assert IsDigit(s[|s| - 1]);
    StripUnpadded(s);
  }

  /** `int()` ignores whitespace around its argument. */
  lemma ParseIntPadded(w1: string, s: string, w2: string)
    requires AllSpace(w1) && AllSpace(w2)
    ensures ParseInt(w1 + s + w2) == ParseInt(s)
  {
    StripWithPadding(w1, s, w2);
  }

  /** `int(s.strip())` is `int(s)`. */
  lemma ParseIntStripped(s: string)
    ensures ParseInt(Strip(s)) == ParseInt(s)
  {
    StripIdempotent(s);
  }

  /** `str(i)` is made of digits and perhaps a minus sign. */
  lemma ShowIntChars(i: int)
    ensures forall k :: 0 <= k < |ShowInt(i)| ==> ShowInt(i)[k] == '-' || IsDigit(ShowInt(i)[k])
  {
  }

  /** `int(" " + str(i)) == i`. */
  lemma ParseSpacedShow(i: int)
    ensures ParseInt(" " + ShowInt(i)) == Some(i)
  {
    ParseIntPadded(" ", ShowInt(i), "");
    assert " " + ShowInt(i) + "" == " " + ShowInt(i);
    ParseShowRoundTrip(i);
  }

  // ---------------------------------------------------------------- lower, slicing

  function LowerChar(c: char): char {
    if 'A' <= c <= 'Z' then (c as int + 32) as char else c
  }

  /** `s.lower()` on ASCII letters. */
  function Lower(s: string): (r: string)
    ensures |r| == |s|
    ensures forall i :: 0 <= i < |r| ==> !('A' <= r[i] <= 'Z')
    ensures forall i :: 0 <= i < |s| && 'A' <= s[i] <= 'Z' ==> r[i] as int == s[i] as int + 32
    ensures forall i :: 0 <= i < |s| && !('A' <= s[i] <= 'Z') ==> r[i] == s[i]
  {
    seq(|s|, i requires 0 <= i < |s| => LowerChar(s[i]))
  }

  /** The slice `s[:n]`, including Python's meaning of a negative `n` (count from the end). */
  function SliceTo<T>(s: seq<T>, n: int): (r: seq<T>)
    ensures |r| <= |s| && r == s[..|r|]
    ensures n >= 0 ==> |r| == if n < |s| then n else |s|
    ensures n < 0 ==> |r| == if -n < |s| then |s| + n else 0
  {
    if n >= 0 then (if n < |s| then s[..n] else s)
    else (if -n < |s| then s[..|s| + n] else [])
  }
}

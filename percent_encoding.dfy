/**
 * `urllib.parse.quote(s)` with its default `safe='/'`, as used to build the
 * badge URL. The text is first encoded as UTF-8 (`str.encode`), then every
 * byte outside the unreserved set of section 2.3 of RFC 3986 (ASCII letters,
 * digits, `-`, `.`, `_`, `~`) and other than `/` is written as a
 * percent-encoded octet `%XX` with upper-case hexadecimal digits
 * (section 2.1 of RFC 3986).
 *
 * The partner definitions are a UTF-8 decoder and a percent decoder; the
 * round trip `Unquote(Quote(s)) == Some(s)` is proved for every string.
 */
module PercentEncoding {
  import opened PyBuiltins

  type Byte = b: int | 0 <= b < 0x100

  /** The unreserved characters of section 2.3 of RFC 3986. */
  predicate IsUnreserved(c: char) {
    'A' <= c <= 'Z' || 'a' <= c <= 'z' || '0' <= c <= '9' ||
    c == '-' || c == '.' || c == '_' || c == '~'
  }

  /** Characters `quote` leaves alone: the unreserved ones plus the default `safe='/'`. */
  predicate IsSafe(c: char) {
    IsUnreserved(c) || c == '/'
  }

  predicate AllSafe(s: string) {
    forall i :: 0 <= i < |s| ==> IsSafe(s[i])
  }

  /** A byte `quote` copies through: the code of a safe ASCII character. */
  predicate IsSafeByte(b: Byte) {
    b < 0x80 && IsSafe(b as char)
  }

  // ------------------------------------------------------------------ UTF-8

  predicate IsContinuation(b: Byte) {
    0x80 <= b < 0xC0
  }

  /** The UTF-8 encoding of one character (a Unicode scalar value). */
  function Utf8Char(c: char): (bs: seq<Byte>)
    ensures 1 <= |bs| <= 4
    ensures |bs| == 1 <==> (c as int) < 0x80
    ensures |bs| == 1 ==> bs[0] == c as int
    ensures |bs| > 1 ==> bs[0] >= 0xC2
    ensures forall i :: 1 <= i < |bs| ==> IsContinuation(bs[i])
  {
    var n := c as int;
    if n < 0x80 then [n]
    else if n < 0x800 then [0xC0 + n / 64, 0x80 + n % 64]
    else if n < 0x1_0000 then [0xE0 + n / 4096, 0x80 + (n / 64) % 64, 0x80 + n % 64]
    else [0xF0 + n / 262144, 0x80 + (n / 4096) % 64, 0x80 + (n / 64) % 64, 0x80 + n % 64]
  }

  /** `s.encode("utf-8")`. */
  function Encode(s: string): (bs: seq<Byte>)
    ensures |bs| >= |s|
  {
    if s == [] then [] else Utf8Char(s[0]) + Encode(s[1..])
  }

  predicate IsScalar(n: int) {
    0 <= n < 0xD800 || 0xE000 <= n < 0x11_0000
  }

  /**
   * Reads one well-formed UTF-8 sequence from the front of `bs`: the
   * character and the number of bytes it takes. Overlong forms, surrogates
   * and values above U+10FFFF are rejected.
   */
  function DecodeFirst(bs: seq<Byte>): (r: Option<(char, nat)>)
    requires |bs| > 0
    ensures r.Some? ==> 1 <= r.value.1 <= |bs|
  {
    var b0: int := bs[0];
    if b0 < 0x80 then Some((b0 as char, 1))
    else if 0xC2 <= b0 < 0xE0 && |bs| >= 2 && IsContinuation(bs[1]) then
      Some((((b0 - 0xC0) * 64 + (bs[1] as int - 0x80)) as char, 2))
    else if 0xE0 <= b0 < 0xF0 && |bs| >= 3 && IsContinuation(bs[1]) && IsContinuation(bs[2]) then
      var n := (b0 - 0xE0) * 4096 + (bs[1] as int - 0x80) * 64 + (bs[2] as int - 0x80);
      if 0x800 <= n && IsScalar(n) then Some((n as char, 3)) else None
    else if 0xF0 <= b0 < 0xF5 && |bs| >= 4 && IsContinuation(bs[1]) && IsContinuation(bs[2]) && IsContinuation(bs[3]) then
      var n := (b0 - 0xF0) * 262144 + (bs[1] as int - 0x80) * 4096 + (bs[2] as int - 0x80) * 64 + (bs[3] as int - 0x80);
      if 0x1_0000 <= n && IsScalar(n) then Some((n as char, 4)) else None
    else None
  }

  /** `bs.decode("utf-8")` in strict mode: None for malformed input. */
  function Decode(bs: seq<Byte>): (r: Option<string>)
    decreases |bs|
  {
    if bs == [] then Some([])
    else
      match DecodeFirst(bs)
      case None => None
      case Some((c, k)) =>
        match Decode(bs[k..])
        case None => None
        case Some(rest) => Some([c] + rest)
  }

  // ------------------------------------------------------------------ percent-encoding

  const HexDigits: string := "0123456789ABCDEF"

  predicate IsUpperHex(c: char) {
    '0' <= c <= '9' || 'A' <= c <= 'F'
  }

  predicate IsHex(c: char) {
    IsUpperHex(c) || 'a' <= c <= 'f'
  }

  function HexValue(c: char): (v: nat)
    requires IsHex(c)
    ensures v < 16
  {
    if '0' <= c <= '9' then c as int - '0' as int
    else if 'A' <= c <= 'F' then c as int - 'A' as int + 10
    else c as int - 'a' as int + 10
  }

  /** One byte as `quote` writes it: the character itself if safe, else `%XX`. */
  function QuoteByte(b: Byte): (r: string)
    ensures IsSafeByte(b) ==> r == [b as char]
    ensures !IsSafeByte(b) ==> |r| == 3 && r[0] == '%' && IsUpperHex(r[1]) && IsUpperHex(r[2])
  {
    if IsSafeByte(b) then [b as char] else ['%', HexDigits[b / 16], HexDigits[b % 16]]
  }

  /** `quote_from_bytes(bs, safe='/')`. */
  function QuoteBytes(bs: seq<Byte>): (r: string)
    ensures |r| >= |bs|
  {
    if bs == [] then "" else QuoteByte(bs[0]) + QuoteBytes(bs[1..])
  }

  /** `urllib.parse.quote(s)`. */
  function Quote(s: string): (r: string)
    ensures |r| >= |s|
  {
    QuoteBytes(Encode(s))
  }

  /** Reverses `QuoteBytes`: `%` with two hexadecimal digits (either case) gives one byte, a safe character gives its own code; anything else is malformed. */
  function UnquoteBytes(t: string): (r: Option<seq<Byte>>)
    decreases |t|
  {
    if t == [] then Some([])
    else if t[0] == '%' then
      if |t| >= 3 && IsHex(t[1]) && IsHex(t[2]) then
        match UnquoteBytes(t[3..])
        case None => None
        case Some(rest) => Some([HexValue(t[1]) * 16 + HexValue(t[2])] + rest)
      else None
    else if IsSafe(t[0]) then
      match UnquoteBytes(t[1..])
      case None => None
      case Some(rest) => Some([t[0] as int] + rest)
    else None
  }

  /** Percent-decoding followed by strict UTF-8 decoding. */
  function Unquote(t: string): Option<string> {
    match UnquoteBytes(t)
    case None => None
    case Some(bs) => Decode(bs)
  }

  // ------------------------------------------------------------------ properties

  lemma {:induction false} EncodeConcat(a: string, b: string)
    ensures Encode(a + b) == Encode(a) + Encode(b)
    decreases |a|
  {
    if a == [] {
      assert a + b == b;
    } else {
      assert (a + b)[1..] == a[1..] + b;
      EncodeConcat(a[1..], b);
    }
  }

  lemma {:induction false} QuoteBytesConcat(a: seq<Byte>, b: seq<Byte>)
    ensures QuoteBytes(a + b) == QuoteBytes(a) + QuoteBytes(b)
    decreases |a|
  {
    if a == [] {
      assert a + b == b;
    } else {
      assert (a + b)[1..] == a[1..] + b;
      QuoteBytesConcat(a[1..], b);
    }
  }

  /** Quoting works character by character: `quote(a + b) == quote(a) + quote(b)`. */
  lemma QuoteConcat(a: string, b: string)
    ensures Quote(a + b) == Quote(a) + Quote(b)
  {
    EncodeConcat(a, b);
    QuoteBytesConcat(Encode(a), Encode(b));
  }

  /** Quoting the first character separately. */
  lemma QuoteCons(s: string)
    requires s != []
    ensures Quote(s) == QuoteBytes(Utf8Char(s[0])) + Quote(s[1..])
  {
    QuoteBytesConcat(Utf8Char(s[0]), Encode(s[1..]));
  }

  /** A safe character is quoted as itself; every other character becomes at least one `%XX` escape. */
  lemma QuoteOneChar(c: char)
    ensures IsSafe(c) ==> QuoteBytes(Utf8Char(c)) == [c]
    ensures !IsSafe(c) ==> |QuoteBytes(Utf8Char(c))| >= 3 && QuoteBytes(Utf8Char(c))[0] == '%'
  {
    var bs := Utf8Char(c);
    assert QuoteBytes(bs) == QuoteByte(bs[0]) + QuoteBytes(bs[1..]);
    if (c as int) < 0x80 {
      assert bs == [c as int];
      assert (c as int) as char == c;
      assert bs[1..] == [];
    } else {
      assert !IsSafeByte(bs[0]);
    }
  }

  /** `quote` changes a string exactly when it holds a character outside the safe set. */
  lemma {:induction false} QuoteIdentity(s: string)
    ensures Quote(s) == s <==> AllSafe(s)
    ensures AllSafe(s) || |Quote(s)| >= |s| + 2
    decreases |s|
  {
    if s != [] {
      if IsSafe(s[0]) {
        QuoteIdentity(s[1..]);
        SafeHeadKept(s);
      } else {
        UnsafeHeadEscaped(s);
      }
    }
  }

  /** A safe first character is copied, so the rest decides. */
  lemma SafeHeadKept(s: string)
    requires s != [] && IsSafe(s[0])
    requires Quote(s[1..]) == s[1..] <==> AllSafe(s[1..])
    requires AllSafe(s[1..]) || |Quote(s[1..])| >= |s[1..]| + 2
    ensures Quote(s) == s <==> AllSafe(s)
    ensures AllSafe(s) || |Quote(s)| >= |s| + 2
  {
    QuoteCons(s);
    QuoteOneChar(s[0]);
    CopiedHead(s, Quote(s), Quote(s[1..]));
  }

  /** The sequence argument behind `SafeHeadKept`, for any text `q` that copies the first character of `s`. */
  lemma CopiedHead(s: string, q: string, tail: string)
    requires s != [] && IsSafe(s[0]) && q == [s[0]] + tail
    requires tail == s[1..] <==> AllSafe(s[1..])
    requires AllSafe(s[1..]) || |tail| >= |s[1..]| + 2
    ensures q == s <==> AllSafe(s)
    ensures AllSafe(s) || |q| >= |s| + 2
  {
    assert AllSafe(s) <==> AllSafe(s[1..]) by {
      assert forall i :: 1 <= i < |s| ==> s[i] == s[1..][i - 1];
    }
    assert s == [s[0]] + s[1..];
    assert q == s ==> tail == q[1..] == s[1..];
  }

  /** An unsafe first character becomes an escape of at least three characters. */
  lemma UnsafeHeadEscaped(s: string)
    requires s != [] && !IsSafe(s[0])
    ensures !AllSafe(s) && |Quote(s)| >= |s| + 2
  {
    QuoteCons(s);
    QuoteOneChar(s[0]);
    assert |Quote(s[1..])| >= |s| - 1;
  }

  /** Every character `quote` produces is safe, a `%`, or an upper-case hexadecimal digit. */
  lemma {:induction false} QuoteBytesAlphabet(bs: seq<Byte>)
    ensures forall i :: 0 <= i < |QuoteBytes(bs)| ==>
      IsSafe(QuoteBytes(bs)[i]) || QuoteBytes(bs)[i] == '%' || IsUpperHex(QuoteBytes(bs)[i])
    decreases |bs|
  {
    if bs != [] {
      QuoteBytesAlphabet(bs[1..]);
      var head := QuoteByte(bs[0]);
      var tail := QuoteBytes(bs[1..]);
      forall i | 0 <= i < |head + tail|
        ensures IsSafe((head + tail)[i]) || (head + tail)[i] == '%' || IsUpperHex((head + tail)[i])
      {
        if i >= |head| {
          assert (head + tail)[i] == tail[i - |head|];
        }
      }
    }
  }

  lemma QuoteAlphabet(s: string)
    ensures forall i :: 0 <= i < |Quote(s)| ==>
      IsSafe(Quote(s)[i]) || Quote(s)[i] == '%' || IsUpperHex(Quote(s)[i])
  {
    QuoteBytesAlphabet(Encode(s));
  }

  /** Each escape reads back as the byte it was written from. */
  lemma QuoteByteReadsBack(b: Byte, rest: string)
    ensures UnquoteBytes(QuoteByte(b) + rest) ==
      match UnquoteBytes(rest)
      case None => None
      case Some(tail) => Some([b] + tail)
  {
    if IsSafeByte(b) {
      UnquoteSafeChar(b as char, rest);
    } else {
      var hi, lo := b / 16, b % 16;
      HexDigitValue(hi);
      HexDigitValue(lo);
      UnquoteEscape(HexDigits[hi], HexDigits[lo], rest);
    }
  }

  lemma UnquoteSafeChar(c: char, rest: string)
    requires IsSafe(c)
    ensures UnquoteBytes([c] + rest) ==
      match UnquoteBytes(rest)
      case None => None
      case Some(tail) => Some([c as int] + tail)
  {
    assert ([c] + rest)[1..] == rest;
  }

  lemma UnquoteEscape(x: char, y: char, rest: string)
    requires IsHex(x) && IsHex(y)
    ensures UnquoteBytes(['%', x, y] + rest) ==
      match UnquoteBytes(rest)
      case None => None
      case Some(tail) => Some([HexValue(x) * 16 + HexValue(y)] + tail)
  {
    assert (['%', x, y] + rest)[3..] == rest;
  }

  lemma HexDigitValue(d: nat)
    requires d < 16
    ensures IsHex(HexDigits[d]) && HexValue(HexDigits[d]) == d
  {
  }

  lemma {:induction false} UnquoteQuoteBytes(bs: seq<Byte>)
    ensures UnquoteBytes(QuoteBytes(bs)) == Some(bs)
    decreases |bs|
  {
    if bs != [] {
      UnquoteQuoteBytes(bs[1..]);
      QuoteByteReadsBack(bs[0], QuoteBytes(bs[1..]));
      assert [bs[0]] + bs[1..] == bs;
    }
  }

  lemma TwoByteDigits(n: int)
    requires 0x80 <= n < 0x800
    ensures (n / 64) * 64 + n % 64 == n
  {
  }

  lemma ThreeByteDigits(n: int)
    requires 0x800 <= n < 0x1_0000
    ensures (n / 4096) * 4096 + ((n / 64) % 64) * 64 + n % 64 == n
  {
    var q := n / 64;
    assert q * 64 + n % 64 == n;
    assert q / 64 == n / 4096;
    assert (q / 64) * 64 + q % 64 == q;
  }

  lemma FourByteDigits(n: int)
    requires 0x1_0000 <= n < 0x11_0000
    ensures (n / 262144) * 262144 + ((n / 4096) % 64) * 4096 + ((n / 64) % 64) * 64 + n % 64 == n
  {
    var q := n / 64;
    assert q * 64 + n % 64 == n;
    var p := q / 64;
    assert p * 64 + q % 64 == q;
    assert p == n / 4096;
    assert p / 64 == n / 262144;
    assert (p / 64) * 64 + p % 64 == p;
  }

  /** The decoder reads back exactly the character the encoder wrote, and no more. */
  lemma DecodeFirstUtf8Char(c: char, rest: seq<Byte>)
    ensures DecodeFirst(Utf8Char(c) + rest) == Some((c, |Utf8Char(c)|))
  {
    var n := c as int;
    if n < 0x80 {
      assert (Utf8Char(c) + rest)[0] == n;
    } else if n < 0x800 {
      DecodeTwoBytes(n, rest);
    } else if n < 0x1_0000 {
      DecodeThreeBytes(n, rest);
    } else {
      DecodeFourBytes(n, rest);
    }
  }

  lemma DecodeTwoBytes(n: int, rest: seq<Byte>)
    requires 0x80 <= n < 0x800
    ensures DecodeFirst([0xC0 + n / 64, 0x80 + n % 64] + rest) == Some((n as char, 2))
  {
    TwoByteDigits(n);
  }

  lemma DecodeThreeBytes(n: int, rest: seq<Byte>)
    requires 0x800 <= n < 0x1_0000 && IsScalar(n)
    ensures DecodeFirst([0xE0 + n / 4096, 0x80 + (n / 64) % 64, 0x80 + n % 64] + rest) == Some((n as char, 3))
  {
    ThreeByteDigits(n);
  }

  lemma DecodeFourBytes(n: int, rest: seq<Byte>)
    requires 0x1_0000 <= n < 0x11_0000
    ensures DecodeFirst([0xF0 + n / 262144, 0x80 + (n / 4096) % 64, 0x80 + (n / 64) % 64, 0x80 + n % 64] + rest) ==
      Some((n as char, 4))
  {
    FourByteDigits(n);
  }

  /** UTF-8 decoding inverts UTF-8 encoding. */
  lemma {:induction false} DecodeEncode(s: string)
    ensures Decode(Encode(s)) == Some(s)
    decreases |s|
  {
    if s != [] {
      var head := Utf8Char(s[0]);
      var bs := Encode(s);
      assert bs == head + Encode(s[1..]);
      DecodeFirstUtf8Char(s[0], Encode(s[1..]));
      assert bs[|head|..] == Encode(s[1..]);
      DecodeEncode(s[1..]);
      assert [s[0]] + s[1..] == s;
    }
  }

  /** Percent-decoding the badge URL part gives back the original label or message. */
  lemma UnquoteQuote(s: string)
    ensures Unquote(Quote(s)) == Some(s)
  {
    UnquoteQuoteBytes(Encode(s));
    DecodeEncode(s);
  }

  /** Different texts are quoted differently. */
  lemma QuoteInjective(a: string, b: string)
    requires Quote(a) == Quote(b)
    ensures a == b
  {
    UnquoteQuote(a);
    UnquoteQuote(b);
  }

  /** A space becomes `%20` and a percent sign, as in a score message, `%25`. */
  lemma QuoteAsciiExamples()
    ensures Quote(" ") == "%20"
    ensures Quote("%") == "%25"
  {
    assert Encode(" ") == [0x20];
    assert QuoteBytes([0x20]) == QuoteByte(0x20);
    assert Encode("%") == [0x25];
    assert QuoteBytes([0x25]) == QuoteByte(0x25);
  }

  /** `é` becomes the two escapes of its UTF-8 bytes. */
  lemma QuoteNonAsciiExample()
    ensures Quote("é") == "%C3%A9"
  {
    assert Utf8Char('é') == [0xC3, 0xA9];
    assert Encode("é") == [0xC3, 0xA9];
    assert QuoteBytes([0xA9]) == QuoteByte(0xA9);
    assert QuoteBytes([0xC3, 0xA9]) == QuoteByte(0xC3) + QuoteBytes([0xA9]);
  }
}

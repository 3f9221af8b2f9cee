/**
 * The Shields.io URL built by `_write_badge`, and how the badge service
 * reads it back.
 *
 * Shields.io's static badge path is `/badge/<label>-<message>-<color>`,
 * after percent-decoding: a single `-` separates the fields, `--` stands
 * for a literal `-`, `__` for a literal `_`, and a single `_` for a space.
 * `quote` leaves `-` and `_` unchanged, so a label such as the benchmark
 * mode `python-slugify` cannot be told apart from a shorter label followed
 * by a longer message. `ShieldsUrl` doubles both characters before quoting
 * and is read back exactly.
 */
module BadgeUrl {
  import opened PyBuiltins
  import opened PercentEncoding
  import opened Badge

  const ShieldsPrefix: string := "https://img.shields.io/badge/"
  const SvgSuffix: string := ".svg"

  /** The URL exactly as `_write_badge` formats it. */
  function Url(b: BadgeSpec): (u: string)
    ensures StartsWith(u, ShieldsPrefix) && u[|u| - |SvgSuffix|..] == SvgSuffix
  {
    ShieldsPrefix + UrlPath(b) + SvgSuffix
  }

  /** The part of the URL between the fixed prefix and `.svg`. */
  function UrlPath(b: BadgeSpec): (p: string)
    ensures |p| >= |b.labelText| + |b.message| + |b.color| + 2
  {
    Quote(b.labelText) + "-" + Quote(b.message) + "-" + b.color
  }

  /** `--` for `-` and `__` for `_`, as the badge path requires. */
  function ShieldsEscape(s: string): (r: string)
    ensures |r| >= |s|
  {
    if s == [] then []
    else (if s[0] == '-' then "--" else if s[0] == '_' then "__" else [s[0]]) + ShieldsEscape(s[1..])
  }

  /** The URL with each field escaped for the badge path before quoting. */
  function ShieldsUrl(b: BadgeSpec): string {
    ShieldsPrefix + ShieldsPath(b) + SvgSuffix
  }

  function ShieldsPath(b: BadgeSpec): string {
    Quote(ShieldsEscape(b.labelText)) + "-" + Quote(ShieldsEscape(b.message)) + "-" + b.color
  }

  /**
   * Reads one field of a decoded badge path, up to the first single `-`:
   * the field's text and what follows the separator.
   */
  function ReadField(t: string): (r: (string, string))
    ensures |r.1| <= |t|
    decreases |t|
  {
    if t == [] then ([], [])
    else if t[0] == '-' then
      if |t| >= 2 && t[1] == '-' then var (f, rest) := ReadField(t[2..]); (['-'] + f, rest)
      else ([], t[1..])
    else if t[0] == '_' then
      if |t| >= 2 && t[1] == '_' then var (f, rest) := ReadField(t[2..]); (['_'] + f, rest)
      else var (f, rest) := ReadField(t[1..]); ([' '] + f, rest)
    else var (f, rest) := ReadField(t[1..]); ([t[0]] + f, rest)
  }

  /** The badge the service draws for a URL, if the URL has the badge form and decodes. */
  function ReadBadge(url: string): Option<BadgeSpec> {
    if |url| < |ShieldsPrefix| + |SvgSuffix| || url[..|ShieldsPrefix|] != ShieldsPrefix
       || url[|url| - |SvgSuffix|..] != SvgSuffix then None
    else ReadPath(url[|ShieldsPrefix|..|url| - |SvgSuffix|])
  }

  /** The three fields of a quoted badge path. */
  function ReadPath(quoted: string): Option<BadgeSpec> {
    match Unquote(quoted)
    case None => None
    case Some(path) =>
      var (labelText, r1) := ReadField(path);
      var (message, r2) := ReadField(r1);
      var (color, _) := ReadField(r2);
      Some(BadgeSpec(labelText, message, color))
  }

  /** A URL with the badge prefix and suffix is read through its path. */
  lemma ReadBadgeOfPath(path: string)
    ensures ReadBadge(ShieldsPrefix + path + SvgSuffix) == ReadPath(path)
  {
    var url := ShieldsPrefix + path + SvgSuffix;
    assert url[..|ShieldsPrefix|] == ShieldsPrefix;
    assert url[|url| - |SvgSuffix|..] == SvgSuffix;
    assert url[|ShieldsPrefix|..|url| - |SvgSuffix|] == path;
  }

  /** A colour name the path carries verbatim: safe characters, no `-` or `_`. */
  predicate PlainColor(color: string) {
    AllSafe(color) && forall i :: 0 <= i < |color| ==> color[i] != '-' && color[i] != '_'
  }

  // ------------------------------------------------------------------ the URL as written

  /** The quoted fields and the colour, joined by `-`, decode to the raw texts joined by `-`. */
  lemma UrlPathDecodes(b: BadgeSpec)
    requires AllSafe(b.color)
    ensures Unquote(UrlPath(b)) == Some(b.labelText + "-" + b.message + "-" + b.color)
  {
    JoinQuoted(b.labelText, b.message, b.color);
    UnquoteQuote(b.labelText + "-" + b.message + "-" + b.color);
  }

  /** Quoting keeps a dash between two texts. */
  lemma QuoteAroundDash(x: string, y: string)
    ensures Quote(x + "-" + y) == Quote(x) + "-" + Quote(y)
  {
    QuoteIdentity("-");
    QuoteConcat(x, "-");
    QuoteConcat(x + "-", y);
  }

  lemma JoinQuoted(x: string, y: string, color: string)
    requires AllSafe(color)
    ensures Quote(x) + "-" + Quote(y) + "-" + color == Quote(x + "-" + y + "-" + color)
  {
    var yc := y + "-" + color;
    QuoteSafeTail(y, color);
    QuoteAroundDash(x, yc);
    Reassociate(x, y, color);
  }

  lemma QuoteSafeTail(y: string, color: string)
    requires AllSafe(color)
    ensures Quote(y + "-" + color) == Quote(y) + "-" + color
  {
    QuoteIdentity(color);
    QuoteAroundDash(y, color);
  }

  lemma Reassociate(x: string, y: string, color: string)
    ensures x + "-" + y + "-" + color == x + "-" + (y + "-" + color)
    ensures Quote(x) + "-" + (Quote(y) + "-" + color) == Quote(x) + "-" + Quote(y) + "-" + color
  {
  }

  /** A dash inside the label can move to the message without changing the URL. */
  lemma UrlAmbiguous(a: string, z: string, message: string, color: string)
    ensures Url(BadgeSpec(a + "-" + z, message, color)) == Url(BadgeSpec(a, z + "-" + message, color))
  {
    UrlPathAmbiguous(a, z, message, color);
  }

  lemma UrlPathAmbiguous(a: string, z: string, message: string, color: string)
    ensures UrlPath(BadgeSpec(a + "-" + z, message, color)) == UrlPath(BadgeSpec(a, z + "-" + message, color))
  {
    var qa, qz, qm := Quote(a), Quote(z), Quote(message);
    QuoteAroundDash(a, z);
    QuoteAroundDash(z, message);
    assert UrlPath(BadgeSpec(a + "-" + z, message, color)) == Quote(a + "-" + z) + "-" + qm + "-" + color;
    assert UrlPath(BadgeSpec(a, z + "-" + message, color)) == qa + "-" + Quote(z + "-" + message) + "-" + color;
    DashesAssociate(qa, qz, qm, color);
  }

  lemma DashesAssociate(x: string, y: string, m: string, color: string)
    ensures (x + "-" + y) + "-" + m + "-" + color == x + "-" + (y + "-" + m) + "-" + color
  {
  }

  /** The benchmark mode `python-slugify` as a label: no reading of the URL can give that label back. */
  lemma PythonSlugifyLabelLost(message: string, color: string)
    ensures Url(BadgeSpec("python-slugify", message, color)) == Url(BadgeSpec("python", "slugify-" + message, color))
    ensures ReadBadge(Url(BadgeSpec("python-slugify", message, color))) != Some(BadgeSpec("python-slugify", message, color))
      || ReadBadge(Url(BadgeSpec("python", "slugify-" + message, color))) != Some(BadgeSpec("python", "slugify-" + message, color))
  {
    assert "python-slugify" == "python" + "-" + "slugify";
    assert "slugify-" + message == "slugify" + "-" + message;
    UrlAmbiguous("python", "slugify", message, color);
  }

  // ------------------------------------------------------------------ the corrected URL

  /** An escaped field is read back exactly, and reading stops at the separator after it. */
  lemma {:induction false} ReadEscapedField(s: string, rest: string)
    requires rest == [] || rest[0] != '-'
    ensures ReadField(ShieldsEscape(s) + "-" + rest) == (s, rest)
    decreases |s|
  {
    var t := ShieldsEscape(s) + "-" + rest;
    if s == [] {
      assert t == "-" + rest;
    } else {
      var head := if s[0] == '-' then "--" else if s[0] == '_' then "__" else [s[0]];
      var tail := ShieldsEscape(s[1..]) + "-" + rest;
      assert t == head + tail;
      ReadEscapedField(s[1..], rest);
      if s[0] == '-' || s[0] == '_' {
        assert t[2..] == tail;
      } else {
        assert t[1..] == tail;
      }
      assert [s[0]] + s[1..] == s;
    }
  }

  /** A plain colour name is read as itself, with nothing after it. */
  lemma {:induction false} ReadPlainColor(color: string)
    requires PlainColor(color)
    ensures ReadField(color) == (color, [])
    decreases |color|
  {
    if color != [] {
      ReadPlainColor(color[1..]);
      assert [color[0]] + color[1..] == color;
    }
  }

  lemma {:induction false} EscapeFirst(s: string)
    requires s != [] && s[0] != '-'
    ensures ShieldsEscape(s) != [] && ShieldsEscape(s)[0] == s[0]
  {
  }

  lemma EscapedJoinQuoted(l: string, m: string, color: string)
    requires AllSafe(color)
    ensures Quote(ShieldsEscape(l)) + "-" + Quote(ShieldsEscape(m)) + "-" + color ==
      Quote(ShieldsEscape(l) + "-" + ShieldsEscape(m) + "-" + color)
  {
    JoinQuoted(ShieldsEscape(l), ShieldsEscape(m), color);
  }

  /**
   * The corrected URL is read back as the badge it was built from, whenever
   * the message does not itself start with a dash and the colour is a plain
   * name.
   */
  lemma ShieldsUrlReadsBack(b: BadgeSpec)
    requires b.message != [] && b.message[0] != '-'
    requires PlainColor(b.color) && b.color != []
    ensures ReadBadge(ShieldsUrl(b)) == Some(b)
  {
    ReadBadgeOfPath(ShieldsPath(b));
    ShieldsPathReadsBack(b);
  }

  lemma ShieldsPathReadsBack(b: BadgeSpec)
    requires b.message != [] && b.message[0] != '-'
    requires PlainColor(b.color) && b.color != []
    ensures ReadPath(ShieldsPath(b)) == Some(b)
  {
    var el, em := ShieldsEscape(b.labelText), ShieldsEscape(b.message);
    EscapedJoinQuoted(b.labelText, b.message, b.color);
    UnquoteQuote(el + "-" + em + "-" + b.color);
    ReadEscapedPath(b);
  }

  lemma ReadEscapedPath(b: BadgeSpec)
    requires b.message != [] && b.message[0] != '-'
    requires PlainColor(b.color) && b.color != []
    ensures var path := ShieldsEscape(b.labelText) + "-" + ShieldsEscape(b.message) + "-" + b.color;
      ReadField(path) == (b.labelText, ShieldsEscape(b.message) + "-" + b.color) &&
      ReadField(ShieldsEscape(b.message) + "-" + b.color) == (b.message, b.color) &&
      ReadField(b.color) == (b.color, [])
  {
    var el, em := ShieldsEscape(b.labelText), ShieldsEscape(b.message);
    EscapeFirst(b.message);
    assert el + "-" + em + "-" + b.color == el + "-" + (em + "-" + b.color);
    ReadEscapedField(b.labelText, em + "-" + b.color);
    ReadEscapedField(b.message, b.color);
    ReadPlainColor(b.color);
  }

  /** Different badges give different corrected URLs. */
  lemma ShieldsUrlInjective(b1: BadgeSpec, b2: BadgeSpec)
    requires b1.message != [] && b1.message[0] != '-' && PlainColor(b1.color) && b1.color != []
    requires b2.message != [] && b2.message[0] != '-' && PlainColor(b2.color) && b2.color != []
    requires ShieldsUrl(b1) == ShieldsUrl(b2)
    ensures b1 == b2
  {
    ShieldsUrlReadsBack(b1);
    ShieldsUrlReadsBack(b2);
  }

  /** Escaping works character by character. */
  lemma {:induction false} EscapeConcat(a: string, b: string)
    ensures ShieldsEscape(a + b) == ShieldsEscape(a) + ShieldsEscape(b)
    decreases |a|
  {
    if a == [] {
      assert a + b == b;
    } else {
      var head := if a[0] == '-' then "--" else if a[0] == '_' then "__" else [a[0]];
      assert (a + b)[0] == a[0];
      assert (a + b)[1..] == a[1..] + b;
      EscapeConcat(a[1..], b);
      ConcatAssoc(head, ShieldsEscape(a[1..]), ShieldsEscape(b));
    }
  }

  /**
   * Outside the conditions of `ShieldsUrlReadsBack` the corrected URL is
   * still ambiguous: a label ending in `-` and a message starting with `-`
   * give the same URL, since both paths hold three dashes in a row.
   */
  lemma ShieldsUrlDashAmbiguous(l: string, m: string, color: string)
    ensures BadgeSpec(l + "-", m, color) != BadgeSpec(l, "-" + m, color)
    ensures ShieldsUrl(BadgeSpec(l + "-", m, color)) == ShieldsUrl(BadgeSpec(l, "-" + m, color))
  {
    assert |l + "-"| != |l|;
    var el, em := ShieldsEscape(l), ShieldsEscape(m);
    EscapeConcat(l, "-");
    EscapeConcat("-", m);
    assert ShieldsEscape("-") == "--";
    QuoteConcat(el, "--");
    QuoteConcat("--", em);
    QuoteIdentity("--");
    DashesRegroup(Quote(el), Quote(em), color);
  }

  lemma DashesRegroup(ql: string, qm: string, color: string)
    ensures (ql + "--") + "-" + qm + "-" + color == ql + "-" + ("--" + qm) + "-" + color
  {
  }

  /** Labels with no `-` or `_` get the same URL either way. */
  lemma {:induction false} EscapeKeepsPlainText(s: string)
    requires forall i :: 0 <= i < |s| ==> s[i] != '-' && s[i] != '_'
    ensures ShieldsEscape(s) == s
    decreases |s|
  {
    if s != [] {
      EscapeKeepsPlainText(s[1..]);
      assert [s[0]] + s[1..] == s;
    }
  }
}

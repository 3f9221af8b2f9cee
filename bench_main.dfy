/**
 * The deterministic parts of the benchmark runner's `main` and of
 * `load_realworld_data`: which data set is used, how input lines are
 * trimmed and cut, which modes run with which flags, and the JSON records
 * written for the badge generator. Timings are parameters.
 */
module BenchMain {
  import opened PyBuiltins
  import opened BenchSteps
  import opened Badge
  import BadgeUrl

  // ------------------------------------------------------------------ input data

  /** `[line.strip() for line in f if line.strip()]`. */
  function NonBlankStripped(lines: seq<string>): (r: seq<string>)
    ensures |r| <= |lines|
    ensures forall i :: 0 <= i < |r| ==> r[i] != []
  {
    if lines == [] then []
    else
      var s := Strip(lines[0]);
      (if s != [] then [s] else []) + NonBlankStripped(lines[1..])
  }

  /** The built-in sample used when no input file is given. */
  const BuiltinSample: seq<string> := [
    "Café del Mar",
    "naïve façade coöperate soupçon",
    "Добро пожаловать",
    "中文测试",
    "Español: ¿Cómo estás?",
    "français: déjà vu",
    "日本語のテスト",
    "I love 🍕 and 🍔!",
    "smörgåsbord",
    "crème brûlée",
    "São Paulo",
    "München",
    "emoji: 😎🤖🎉",
    "مرحبا بالعالم",
    "हिन्दी भाषा",
    "Zażółć gęślą jaźń",
    "Grüß Gott!",
    "résumé",
    "coördinate",
    "touché",
    "mañana",
    "piñata",
    "über-cool",
    "façade",
    "Pokémon",
    "smile 😊",
    "中文: 你好，世界！",
    "emoji+accents: crème 🍦 brûlée",
    "🏆 Winner takes all! 🏆",
    "100% — done!"
  ]

  /**
   * `load_realworld_data(input_file, n)`: `file` holds the lines of the input
   * file, or is None when no (non-empty) path is given.
   */
  function LoadRealworldData(file: Option<seq<string>>, n: Option<int>): (r: seq<string>)
    ensures var all := if file.Some? then NonBlankStripped(file.value) else BuiltinSample;
      |r| <= |all| && r == all[..|r|]
    ensures var all := if file.Some? then NonBlankStripped(file.value) else BuiltinSample;
      (n.None? || n.value == 0) ==> r == all
  {
    var all := if file.Some? then NonBlankStripped(file.value) else BuiltinSample;
    if n.Some? && n.value != 0 then SliceTo(all, n.value) else all
  }

  // ------------------------------------------------------------------ modes and flags

  /** The `--mode` choices. */
  const AllChoice: string := "all"

  predicate IsModeChoice(mode: Option<string>) {
    mode.None? || mode.value == AllChoice || IsKnownMode(mode.value)
  }

  /** The modes `main` runs, in order. */
  function ModesFor(mode: Option<string>): (modes: seq<string>)
    ensures |modes| == 1 || modes == KnownModes
  {
    if mode.None? || mode.value == AllChoice then KnownModes else [mode.value]
  }

  /** `(process_emoji, process_transliteration)` for a mode. */
  function FlagsFor(mode: string): (flags: (bool, bool))
    ensures flags.0 <==> mode == EmojiOnly || mode == BothSteps
    ensures flags.1 <==> mode == TranslitOnly || mode == BothSteps
  {
    if mode == EmojiOnly then (true, false)
    else if mode == TranslitOnly then (false, true)
    else if mode == BothSteps then (true, true)
    else (false, false)
  }

  /** Where the benchmark data comes from. */
  datatype DataSource =
    | SyntheticMixed(count: int, length: int)
    | RealWorld(path: string, n: Option<int>)
    | SyntheticAscii(count: int, length: int)
    | BuiltIn

  /** The `if`/`elif` chain at the top of `main`; `args.n or 10000` gives 10000 for a missing or zero `--n`. */
  function ChooseData(syntheticMixed: bool, input: Option<string>, n: Option<int>, length: int): (d: DataSource)
    ensures d.BuiltIn? <==> !syntheticMixed && (input.None? || input.value == "") && n.None?
    ensures d.SyntheticMixed? ==> d.count != 0
  {
    if syntheticMixed then SyntheticMixed(if n.Some? && n.value != 0 then n.value else 10000, length)
    else if input.Some? && input.value != "" then RealWorld(input.value, n)
    else if n.Some? then SyntheticAscii(n.value, length)
    else BuiltIn
  }

  /** How many strings the synthetic generators return for `n`: the length of `range(n)`. */
  function GeneratedCount(n: int): (k: nat)
    ensures k == 0 <==> n <= 0
    ensures n > 0 ==> k == n
  {
    if n > 0 then n else 0
  }

  // ------------------------------------------------------------------ results

  /** `(total seconds, average ms per item)` as `bench_one`/`bench_batch` return them. */
  datatype Timing = Timing(seconds: real, avgMs: real)

  /** `(mode, t1, avg1, t2, avg2, t3, avg3)`. */
  datatype ModeResult = ModeResult(mode: string, single: Timing, reference: Timing, batch: Timing)

  /** The loop over modes; the timings come from the parameters. */
  method RunModes(modes: seq<string>, reference: Timing, single: string -> Timing, batch: string -> Timing)
    returns (results: seq<ModeResult>)
    ensures |results| == |modes|
    ensures forall i :: 0 <= i < |modes| ==>
      results[i] == ModeResult(modes[i], single(modes[i]), reference, batch(modes[i]))
  {
    results := [];
    for i := 0 to |modes|
      invariant |results| == i
      invariant forall j :: 0 <= j < i ==>
        results[j] == ModeResult(modes[j], single(modes[j]), reference, batch(modes[j]))
    {
      var mode := modes[i];
      results := results + [ModeResult(mode, single(mode), reference, batch(mode))];
    }
  }

  /** One JSON record; `round(x, digits)` is the parameter `round`. */
  function Record(mode: string, methodName: string, t: Timing, digits: nat, round: (real, nat) -> real): (r: JsonObject)
    ensures IsComplete(r)
    ensures r["mode"] == StrV(mode) && r["method"] == StrV(methodName)
  {
    map["mode" := StrV(mode),
        "method" := StrV(methodName),
        "total_ms" := FloatV(round(t.seconds * 1000.0, digits)),
        "avg_ms_per_item" := FloatV(round(t.avgMs, digits))]
  }

  const ReferenceMode: string := "python-slugify"

  /** The two records per mode, in mode order. */
  function ModeRecords(results: seq<ModeResult>, digits: nat, round: (real, nat) -> real): (json: seq<JsonObject>)
    ensures |json| == 2 * |results|
  {
    if results == [] then []
    else
      var last := results[|results| - 1];
      ModeRecords(results[..|results| - 1], digits, round) +
        [Record(last.mode, "sluggi.slugify", last.single, digits, round),
         Record(last.mode, "sluggi.batch", last.batch, digits, round)]
  }

  /** The list `--json` prints (digits 6) and `--json-summary` writes (digits 3). */
  function JsonSpec(results: seq<ModeResult>, reference: Timing, digits: nat, round: (real, nat) -> real): (json: seq<JsonObject>)
    ensures |json| == 2 * |results| + 1
  {
    ModeRecords(results, digits, round) + [Record(ReferenceMode, "python-slugify (single)", reference, digits, round)]
  }

  method JsonResults(results: seq<ModeResult>, reference: Timing, digits: nat, round: (real, nat) -> real)
    returns (json: seq<JsonObject>)
    ensures json == JsonSpec(results, reference, digits, round)
  {
    json := [];
    for i := 0 to |results|
      invariant json == ModeRecords(results[..i], digits, round)
    {
      assert results[..i + 1][..i] == results[..i];
      var r := results[i];
      var single := Record(r.mode, "sluggi.slugify", r.single, digits, round);
      var batch := Record(r.mode, "sluggi.batch", r.batch, digits, round);
      assert ModeRecords(results[..i + 1], digits, round) == json + [single, batch];
      json := json + [single];
      json := json + [batch];
    }
    assert results[..|results|] == results;
    json := json + [Record(ReferenceMode, "python-slugify (single)", reference, digits, round)];
  }

  // ------------------------------------------------------------------ properties

  /** Loaded lines are stripped and never blank. */
  lemma LoadedLinesTrimmed(lines: seq<string>, n: Option<int>)
    ensures forall i :: 0 <= i < |LoadRealworldData(Some(lines), n)| ==>
      LoadRealworldData(Some(lines), n)[i] != [] && Strip(LoadRealworldData(Some(lines), n)[i]) == LoadRealworldData(Some(lines), n)[i]
  {
    var all := NonBlankStripped(lines);
    var r := LoadRealworldData(Some(lines), n);
    NonBlankStrippedTrimmed(lines);
    forall i | 0 <= i < |r|
      ensures r[i] != [] && Strip(r[i]) == r[i]
    {
      assert r[i] == all[i];
      assert all[i] in all;
    }
  }

  /** Every kept line is already in stripped form. */
  lemma {:induction false} NonBlankStrippedTrimmed(lines: seq<string>)
    ensures forall x :: x in NonBlankStripped(lines) ==> Strip(x) == x
    decreases |lines|
  {
    if lines != [] {
      NonBlankStrippedTrimmed(lines[1..]);
      StripIdempotent(lines[0]);
    }
  }

  /** A positive `n` keeps the first `n` lines (or all when fewer); a negative one drops that many from the end. */
  lemma LoadCount(file: Option<seq<string>>, n: int)
    requires n != 0
    ensures var all := if file.Some? then NonBlankStripped(file.value) else BuiltinSample;
      |LoadRealworldData(file, Some(n))| ==
        if n > 0 then (if n < |all| then n else |all|) else (if -n < |all| then |all| + n else 0)
  {
  }

  /** Trimming works line by line: a file's lines can be loaded in parts. */
  lemma {:induction false} NonBlankStrippedConcat(a: seq<string>, b: seq<string>)
    ensures NonBlankStripped(a + b) == NonBlankStripped(a) + NonBlankStripped(b)
    decreases |a|
  {
    if a == [] {
      assert a + b == b;
    } else {
      var s := Strip(a[0]);
      var head := if s != [] then [s] else [];
      assert (a + b)[0] == a[0];
      assert (a + b)[1..] == a[1..] + b;
      NonBlankStrippedConcat(a[1..], b);
      ConcatAssoc(head, NonBlankStripped(a[1..]), NonBlankStripped(b));
    }
  }

  /** A line is kept exactly when it is not all whitespace, and then in stripped form. */
  lemma {:induction false} NonBlankStrippedMembers(lines: seq<string>, x: string)
    ensures x in NonBlankStripped(lines) <==> x != [] && exists i :: 0 <= i < |lines| && Strip(lines[i]) == x
    decreases |lines|
  {
    if lines != [] {
      NonBlankStrippedMembers(lines[1..], x);
      SomeLineSplit(lines, x);
    }
  }

  lemma SomeLineSplit(lines: seq<string>, x: string)
    requires lines != []
    ensures (exists i :: 0 <= i < |lines| && Strip(lines[i]) == x) <==>
      Strip(lines[0]) == x || exists i :: 0 <= i < |lines[1..]| && Strip(lines[1..][i]) == x
  {
    if exists i :: 0 <= i < |lines| && Strip(lines[i]) == x {
      var i :| 0 <= i < |lines| && Strip(lines[i]) == x;
      if i > 0 {
        assert lines[1..][i - 1] == lines[i];
      }
    }
    if exists i :: 0 <= i < |lines[1..]| && Strip(lines[1..][i]) == x {
      var i :| 0 <= i < |lines[1..]| && Strip(lines[1..][i]) == x;
      assert lines[i + 1] == lines[1..][i];
    }
  }

  /**
   * `--synthetic-mixed` generates 10000 strings for a missing or zero `--n`,
   * `n` strings for a positive one, and none for a negative one; the
   * ASCII generator likewise gives none for a negative `--n`.
   */
  lemma SyntheticDataCount(input: Option<string>, n: Option<int>, length: int)
    ensures var d := ChooseData(true, input, n, length);
      d.SyntheticMixed? &&
      ((n.None? || n.value == 0) ==> GeneratedCount(d.count) == 10000) &&
      (n.Some? && n.value > 0 ==> GeneratedCount(d.count) == n.value) &&
      (n.Some? && n.value < 0 ==> GeneratedCount(d.count) == 0)
    ensures var d := ChooseData(false, input, n, length);
      d.SyntheticAscii? ==> n.Some? && (GeneratedCount(d.count) == 0 <==> n.value <= 0)
  {
  }

  /** The built-in sample has 30 entries, all of which are used unless `n` says otherwise. */
  lemma BuiltinSampleSize()
    ensures |BuiltinSample| == 30
    ensures |LoadRealworldData(None, None)| == 30
    ensures |LoadRealworldData(None, Some(5))| == 5
  {
  }

  /** Every mode `--mode` allows runs: `slugify_custom` never raises its ValueError from `main`. */
  lemma ChosenModesAreKnown(mode: Option<string>, steps: seq<StepName>)
    requires IsModeChoice(mode)
    ensures forall i :: 0 <= i < |ModesFor(mode)| ==> SelectSteps(steps, ModesFor(mode)[i]).Ok?
  {
  }

  /**
   * The flags `main` passes agree with the steps the mode keeps: a mode
   * keeps the emoji step exactly when its emoji flag is set, and the
   * transliteration step exactly when its transliteration flag is set.
   */
  lemma FlagsMatchSteps(steps: seq<StepName>, mode: string)
    requires IsKnownMode(mode)
    ensures EmojiStep in steps ==>
      (EmojiStep in SelectSteps(steps, mode).value <==> FlagsFor(mode).0)
    ensures TransliterateStep in steps ==>
      (TransliterateStep in SelectSteps(steps, mode).value <==> FlagsFor(mode).1)
  {
    if mode != BothSteps {
      WithoutMembers(steps, ExcludedBy(mode), EmojiStep);
      WithoutMembers(steps, ExcludedBy(mode), TransliterateStep);
    }
  }

  /** `None` and `all` run the four modes in order; any other choice runs just that mode. */
  lemma ModesForChoices(mode: string)
    ensures ModesFor(None) == KnownModes
    ensures ModesFor(Some(AllChoice)) == KnownModes
    ensures mode != AllChoice ==> ModesFor(Some(mode)) == [mode]
  {
  }

  /** Every record the runner writes holds the four keys the badge generator requires. */
  lemma {:induction false} ModeRecordsComplete(results: seq<ModeResult>, digits: nat, round: (real, nat) -> real)
    ensures forall i :: 0 <= i < |ModeRecords(results, digits, round)| ==> IsComplete(ModeRecords(results, digits, round)[i])
    ensures forall i :: 0 <= i < |ModeRecords(results, digits, round)| ==>
      "mode" in ModeRecords(results, digits, round)[i] && ModeRecords(results, digits, round)[i]["mode"].StrV? &&
      "avg_ms_per_item" in ModeRecords(results, digits, round)[i] &&
      ModeRecords(results, digits, round)[i]["avg_ms_per_item"].FloatV?
    decreases |results|
  {
    if results != [] {
      ModeRecordsComplete(results[..|results| - 1], digits, round);
    }
  }

  lemma RecordComplete(mode: string, methodName: string, t: Timing, digits: nat, round: (real, nat) -> real)
    ensures IsComplete(Record(mode, methodName, t, digits, round))
    ensures Record(mode, methodName, t, digits, round)["mode"] == StrV(mode)
    ensures Record(mode, methodName, t, digits, round)["avg_ms_per_item"] == FloatV(round(t.avgMs, digits))
  {
  }

  /** The JSON the runner writes always gives a benchmark badge: no record is dropped and no average fails to convert. */
  lemma JsonFeedsBadge(results: seq<ModeResult>, reference: Timing, digits: nat, round: (real, nat) -> real,
                       opts: Options, fixed: (real, nat) -> string)
    ensures var json := JsonSpec(results, reference, digits, round);
      |KeepComplete(json)| == |json| == 2 * |results| + 1
    ensures var json := JsonSpec(results, reference, digits, round);
      BenchmarkBadge(KeepComplete(json), opts, fixed).Ok?
  {
    var json := JsonSpec(results, reference, digits, round);
    ModeRecordsComplete(results, digits, round);
    RecordComplete(ReferenceMode, "python-slugify (single)", reference, digits, round);
    KeepCompleteAll(json);
    var rows := KeepComplete(json);
    assert forall i :: 0 <= i < |rows| ==> rows[i].mode.StrV? && rows[i].avg.FloatV?;
    var keys := AverageKeys(rows);
    assert keys.Ok?;
  }

  /** The rows the badge generator reads from the runner's JSON: the per-mode records, then the reference record. */
  lemma JsonRows(results: seq<ModeResult>, reference: Timing, digits: nat, round: (real, nat) -> real)
    ensures var json := JsonSpec(results, reference, digits, round);
      var rows := KeepComplete(json);
      |rows| == |json| &&
      rows[|rows| - 1] == Row(StrV(ReferenceMode), StrV("python-slugify (single)"),
                              FloatV(round(reference.seconds * 1000.0, digits)), FloatV(round(reference.avgMs, digits))) &&
      forall j :: 0 <= j < |rows| - 1 ==>
        IsComplete(ModeRecords(results, digits, round)[j]) && rows[j] == RowOf(ModeRecords(results, digits, round)[j])
  {
    var json := JsonSpec(results, reference, digits, round);
    ModeRecordsComplete(results, digits, round);
    RecordComplete(ReferenceMode, "python-slugify (single)", reference, digits, round);
    KeepCompleteAll(json);
  }

  /**
   * When the reference library is strictly the fastest, the default badge
   * label is `python-slugify`, a label holding a dash.
   */
  lemma ReferenceFastestLabel(results: seq<ModeResult>, reference: Timing, digits: nat, round: (real, nat) -> real,
                              fixed: (real, nat) -> string)
    requires forall i :: 0 <= i < |results| ==>
      round(reference.avgMs, digits) < round(results[i].single.avgMs, digits) &&
      round(reference.avgMs, digits) < round(results[i].batch.avgMs, digits)
    ensures var badge := BenchmarkBadge(KeepComplete(JsonSpec(results, reference, digits, round)), BenchmarkDefaults, fixed);
      badge.Ok? && badge.value.labelText == ReferenceMode
  {
    var rows := KeepComplete(JsonSpec(results, reference, digits, round));
    ReferenceRowIsFastest(results, reference, digits, round);
    BenchmarkBadgeShowsFastest(rows, BenchmarkDefaults, fixed, |rows| - 1);
    LowerReferenceMode();
  }

  lemma LowerReferenceMode()
    ensures Lower(ReferenceMode) == ReferenceMode
  {
  }

  /** Under the same condition the reference record is the fastest row. */
  lemma ReferenceRowIsFastest(results: seq<ModeResult>, reference: Timing, digits: nat, round: (real, nat) -> real)
    requires forall i :: 0 <= i < |results| ==>
      round(reference.avgMs, digits) < round(results[i].single.avgMs, digits) &&
      round(reference.avgMs, digits) < round(results[i].batch.avgMs, digits)
    ensures var rows := KeepComplete(JsonSpec(results, reference, digits, round));
      |rows| > 0 && rows[|rows| - 1].mode == StrV(ReferenceMode) &&
      (forall i :: 0 <= i < |rows| ==> AsFloat(rows[i].avg).Some?) &&
      IsFastest(rows, |rows| - 1)
  {
    var rows := KeepComplete(JsonSpec(results, reference, digits, round));
    var best := round(reference.avgMs, digits);
    JsonRows(results, reference, digits, round);
    ModeRecordsAverages(results, digits, round, best);
    var k := |rows| - 1;
    assert forall j :: 0 <= j < k ==> AsFloat(rows[j].avg).Some? && AsFloat(rows[j].avg).value > best;
    assert AsFloat(rows[k].avg) == Some(best);
  }

  /** ... and the URL for that badge is the same as for a badge labelled `python` with message `slugify-...`. */
  lemma ReferenceFastestUrlAmbiguous(results: seq<ModeResult>, reference: Timing, digits: nat, round: (real, nat) -> real,
                                     fixed: (real, nat) -> string)
    requires forall i :: 0 <= i < |results| ==>
      round(reference.avgMs, digits) < round(results[i].single.avgMs, digits) &&
      round(reference.avgMs, digits) < round(results[i].batch.avgMs, digits)
    ensures var badge := BenchmarkBadge(KeepComplete(JsonSpec(results, reference, digits, round)), BenchmarkDefaults, fixed);
      badge.Ok? &&
      BadgeUrl.Url(badge.value) == BadgeUrl.Url(BadgeSpec("python", "slugify-" + badge.value.message, badge.value.color))
  {
    ReferenceFastestLabel(results, reference, digits, round, fixed);
    var badge := BenchmarkBadge(KeepComplete(JsonSpec(results, reference, digits, round)), BenchmarkDefaults, fixed);
    BadgeUrl.PythonSlugifyLabelLost(badge.value.message, badge.value.color);
  }

  /** Every per-mode average in the records is above a bound that all the rounded averages exceed. */
  lemma {:induction false} ModeRecordsAverages(results: seq<ModeResult>, digits: nat, round: (real, nat) -> real, bound: real)
    requires forall i :: 0 <= i < |results| ==>
      bound < round(results[i].single.avgMs, digits) && bound < round(results[i].batch.avgMs, digits)
    ensures forall j :: 0 <= j < |ModeRecords(results, digits, round)| ==>
      "avg_ms_per_item" in ModeRecords(results, digits, round)[j] &&
      AsFloat(ModeRecords(results, digits, round)[j]["avg_ms_per_item"]).Some? &&
      AsFloat(ModeRecords(results, digits, round)[j]["avg_ms_per_item"]).value > bound
    decreases |results|
  {
    if results != [] {
      var init := results[..|results| - 1];
      assert forall i :: 0 <= i < |init| ==> init[i] == results[i];
      ModeRecordsAverages(init, digits, round, bound);
    }
  }
}

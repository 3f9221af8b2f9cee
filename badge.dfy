/**
 * The decision logic of the badge generator, everything before the HTTP
 * fetch: which benchmark records are kept, which one is the fastest, the
 * two three-band colour classifiers, and the label and message defaults.
 * Number formatting (`:.2f`, `:.1f`) is a parameter `fixed(x, digits)`.
 */
module Badge {
  import opened PyBuiltins
  import opened MutmutCache
  import opened ThresholdGate

  /** A benchmark record as `json.load` gives it. */
  type JsonObject = map<string, Value>

  const RequiredKeys: seq<string> := ["mode", "method", "total_ms", "avg_ms_per_item"]

  /** An entry is kept only when it holds all four keys. */
  predicate IsComplete(e: JsonObject) {
    forall k | k in RequiredKeys :: k in e
  }

  /** The tuple `(mode, method, total_ms, avg_ms_per_item)` appended to `results`. */
  datatype Row = Row(mode: Value, methodName: Value, totalMs: Value, avg: Value)

  function RowOf(e: JsonObject): Row
    requires IsComplete(e)
  {
    Row(e["mode"], e["method"], e["total_ms"], e["avg_ms_per_item"])
  }

  /** The rows read from the JSON list: complete entries, in file order. */
  function KeepComplete(data: seq<JsonObject>): (rows: seq<Row>)
    ensures |rows| <= |data|
  {
    if data == [] then []
    else
      var last := data[|data| - 1];
      KeepComplete(data[..|data| - 1]) + (if IsComplete(last) then [RowOf(last)] else [])
  }

  /** The loop over the JSON list that skips entries with a missing key. */
  method CollectResults(data: seq<JsonObject>) returns (results: seq<Row>)
    ensures results == KeepComplete(data)
  {
    results := [];
    for i := 0 to |data|
      invariant results == KeepComplete(data[..i])
    {
      assert data[..i + 1][..i] == data[..i];
      var entry := data[i];
      if !IsComplete(entry) {
        continue;
      }
      results := results + [RowOf(entry)];
    }
    assert data[..|data|] == data;
  }

  // ------------------------------------------------------------------ fastest record

  /**
   * `min(keys)` by position: the first index holding the smallest key, as
   * Python's `min` keeps the earliest of equal keys.
   */
  function FirstMinIndex(keys: seq<real>): (i: nat)
    requires |keys| > 0
    ensures i < |keys|
    ensures forall j :: 0 <= j < |keys| ==> keys[i] <= keys[j]
    ensures forall j :: 0 <= j < i ==> keys[j] > keys[i]
  {
    if |keys| == 1 then 0
    else
      var i := FirstMinIndex(keys[..|keys| - 1]);
      if keys[|keys| - 1] < keys[i] then |keys| - 1 else i
  }

  /** `float(r[3])` for every row, or the position of the first row where it raises. */
  function AverageKeys(rows: seq<Row>): (r: Result<seq<real>, nat>)
    ensures r.Ok? ==> (|r.value| == |rows| &&
      forall i :: 0 <= i < |rows| ==> AsFloat(rows[i].avg) == Some(r.value[i]))
    ensures r.Err? ==> (r.error < |rows| && AsFloat(rows[r.error].avg).None? &&
      forall i :: 0 <= i < r.error ==> AsFloat(rows[i].avg).Some?)
  {
    if rows == [] then Ok([])
    else
      match AsFloat(rows[0].avg)
      case None => Err(0)
      case Some(x) =>
        match AverageKeys(rows[1..])
        case Err(i) => Err(i + 1)
        case Ok(xs) => Ok([x] + xs)
  }

  // ------------------------------------------------------------------ colours

  datatype Band = Green | Yellow | Red {
    /** Green is the best band, red the worst. */
    function Rank(): nat {
      match this
      case Green => 0
      case Yellow => 1
      case Red => 2
    }
  }

  datatype Colors = Colors(green: string, yellow: string, red: string)

  const DefaultColors := Colors("brightgreen", "yellow", "red")

  function ColorOf(b: Band, colors: Colors): string {
    match b
    case Green => colors.green
    case Yellow => colors.yellow
    case Red => colors.red
  }

  /** Benchmark colours: a smaller average is better, and both comparisons are strict. */
  function BenchmarkBand(avg: real, green: real, yellow: real): (b: Band)
    ensures b == Green <==> avg < green
    ensures b == Yellow <==> green <= avg < yellow
    ensures b == Red <==> green <= avg && yellow <= avg
  {
    if avg < green then Green else if avg < yellow then Yellow else Red
  }

  /** Mutation colours: a larger score is better, and reaching a threshold is enough. */
  function MutationBand(score: real, green: real, yellow: real): (b: Band)
    ensures b == Green <==> score >= green
    ensures b == Yellow <==> yellow <= score < green
    ensures b == Red <==> score < green && score < yellow
  {
    if score >= green then Green else if score >= yellow then Yellow else Red
  }

  // ------------------------------------------------------------------ badges

  /** The command-line settings of one badge type. */
  datatype Options = Options(
    thresholdGreen: real,
    thresholdYellow: real,
    colors: Colors,
    customLabel: Option<string>,
    customMessage: Option<string>)

  const BenchmarkDefaults := Options(0.05, 0.10, DefaultColors, None, None)
  const MutationDefaults := Options(90.0, 75.0, DefaultColors, None, None)

  /** What `_write_badge` is called with. */
  datatype BadgeSpec = BadgeSpec(labelText: string, message: string, color: string)

  datatype BadgeError =
    | NoResults                  // "No benchmark results found."
    | AverageNotNumber(row: nat) // `float(r[3])` raised
    | ModeNotText                // `mode.lower()` on a value that is not a string
    | CounterNotInteger(line: nat) // `int()` raised on that line of the cache

  /** `x if x is not None else default`. */
  function OrElse(x: Option<string>, default: string): string {
    if x.Some? then x.value else default
  }

  /** The benchmark label: the explicit one, else the lower-cased mode, else `benchmark` for a falsy mode. */
  function BenchmarkLabel(custom: Option<string>, mode: Value): (r: Result<string, BadgeError>)
    ensures custom.Some? ==> r == Ok(custom.value)
    ensures custom.None? && !Truthy(mode) ==> r == Ok("benchmark")
    ensures custom.None? && Truthy(mode) ==> (r.Ok? <==> mode.StrV?)
    ensures custom.None? && mode.StrV? && mode.s != [] ==> r == Ok(Lower(mode.s))
    ensures custom.None? && r.Ok? ==> r.value != [] && forall i :: 0 <= i < |r.value| ==> !('A' <= r.value[i] <= 'Z')
  {
    if custom.Some? then Ok(custom.value)
    else if !Truthy(mode) then Ok("benchmark")
    else if mode.StrV? then Ok(Lower(mode.s))
    else Err(ModeNotText)
  }

  /** A JSON array as the mode: an empty one is falsy and gives `benchmark`; any other has no `.lower()`. */
  lemma ListModeLabel(items: seq<Value>)
    ensures BenchmarkLabel(None, ListV(items)) == if items == [] then Ok("benchmark") else Err(ModeNotText)
  {
  }

  /** The benchmark badge for the collected rows. */
  function BenchmarkBadge(rows: seq<Row>, opts: Options, fixed: (real, nat) -> string): (r: Result<BadgeSpec, BadgeError>)
    ensures r == Err(NoResults) <==> rows == []
    ensures r.Err? && r.error.AverageNotNumber? ==> AverageKeys(rows) == Err(r.error.row)
  {
    if rows == [] then Err(NoResults)
    else
      match AverageKeys(rows)
      case Err(i) => Err(AverageNotNumber(i))
      case Ok(keys) =>
        var best := FirstMinIndex(keys);
        var avg := keys[best];
        match BenchmarkLabel(opts.customLabel, rows[best].mode)
        case Err(e) => Err(e)
        case Ok(text) =>
          Ok(BadgeSpec(text, OrElse(opts.customMessage, fixed(avg, 2) + "ms"),
                       ColorOf(BenchmarkBand(avg, opts.thresholdGreen, opts.thresholdYellow), opts.colors)))
  }

  /** `generate_benchmark_badge` on a JSON list of records. */
  method GenerateBenchmarkBadge(data: seq<JsonObject>, opts: Options, fixed: (real, nat) -> string)
    returns (r: Result<BadgeSpec, BadgeError>)
    ensures r == BenchmarkBadge(KeepComplete(data), opts, fixed)
  {
    var results := CollectResults(data);
    if |results| == 0 {
      return Err(NoResults);
    }
    r := BenchmarkBadge(results, opts, fixed);
  }

  /** The mutation score shown on the badge: 100 when there are no mutants. */
  function MutationScore(c: Counts): (score: real)
    ensures c.Total() != 0 ==> score * c.Total() as real == 100.0 * c.killed as real
  {
    if c.Total() == 0 then 100.0 else Score(c)
  }

  /** The mutation badge for a cache file. */
  function MutationBadge(lines: seq<string>, opts: Options, fixed: (real, nat) -> string): (r: Result<BadgeSpec, BadgeError>)
    ensures r.Err? <==> ParseCache(lines).Err?
    ensures r.Err? ==> r.error == CounterNotInteger(ParseCache(lines).error)
  {
    match ParseCache(lines)
    case Err(k) => Err(CounterNotInteger(k))
    case Ok(c) =>
      var score := MutationScore(c);
      Ok(BadgeSpec(OrElse(opts.customLabel, "mutation"),
                   OrElse(opts.customMessage, fixed(score, 1) + "%"),
                   ColorOf(MutationBand(score, opts.thresholdGreen, opts.thresholdYellow), opts.colors)))
  }

  /** A cache that records no mutants shows a score of 100, whatever the options. */
  lemma NoMutantsFullScore(lines: seq<string>, opts: Options, fixed: (real, nat) -> string)
    requires ParseCache(lines).Ok? && ParseCache(lines).value.Total() == 0
    ensures MutationBadge(lines, opts, fixed).Ok?
    ensures MutationBadge(lines, opts, fixed).value.message == OrElse(opts.customMessage, fixed(100.0, 1) + "%")
    ensures MutationBadge(lines, opts, fixed).value.color ==
      ColorOf(MutationBand(100.0, opts.thresholdGreen, opts.thresholdYellow), opts.colors)
  {
  }

  /**
   * A readable cache gives a badge labelled `mutation` unless a label is
   * given, showing the score to one decimal with `%`, coloured by the `>=`
   * bands of that score.
   */
  lemma MutationBadgeShowsScore(lines: seq<string>, opts: Options, fixed: (real, nat) -> string)
    requires ParseCache(lines).Ok?
    ensures var c := ParseCache(lines).value;
      var score := MutationScore(c);
      MutationBadge(lines, opts, fixed) ==
        Ok(BadgeSpec(OrElse(opts.customLabel, "mutation"),
                     OrElse(opts.customMessage, fixed(score, 1) + "%"),
                     ColorOf(MutationBand(score, opts.thresholdGreen, opts.thresholdYellow), opts.colors)))
    ensures var c := ParseCache(lines).value;
      c.Total() != 0 ==> MutationScore(c) * c.Total() as real == 100.0 * c.killed as real
  {
  }

  /** `generate_mutation_badge`: the same counter loop as the CI gate, then the score and colour. */
  method GenerateMutationBadge(lines: seq<string>, opts: Options, fixed: (real, nat) -> string)
    returns (r: Result<BadgeSpec, BadgeError>)
    ensures r == MutationBadge(lines, opts, fixed)
  {
    var counts := ParseCounters(lines);
    if counts.Err? {
      return Err(CounterNotInteger(counts.error));
    }
    var killed, survived := counts.value.killed, counts.value.survived;
    var score: real;
    if killed + survived == 0 {
      score := 100.0;
    } else {
      score := 100.0 * killed as real / (killed + survived) as real;
    }
    var band := MutationBand(score, opts.thresholdGreen, opts.thresholdYellow);
    var text := if opts.customLabel.Some? then opts.customLabel.value else "mutation";
    var message := if opts.customMessage.Some? then opts.customMessage.value else fixed(score, 1) + "%";
    r := Ok(BadgeSpec(text, message, ColorOf(band, opts.colors)));
  }

  // ------------------------------------------------------------------ properties

  /** Filtering distributes over concatenation, so kept entries stay in file order. */
  lemma {:induction false} KeepCompleteConcat(a: seq<JsonObject>, b: seq<JsonObject>)
    ensures KeepComplete(a + b) == KeepComplete(a) + KeepComplete(b)
    decreases |b|
  {
    if b == [] {
      assert a + b == a;
    } else {
      var b' := b[..|b| - 1];
      assert (a + b)[..|a + b| - 1] == a + b';
      KeepCompleteConcat(a, b');
    }
  }

  /** A single entry is kept exactly when it is complete. */
  lemma KeepCompleteSingle(e: JsonObject)
    ensures KeepComplete([e]) == if IsComplete(e) then [RowOf(e)] else []
  {
    assert [e][..0] == [];
  }

  /** When every entry is complete, every entry becomes a row, position by position. */
  lemma {:induction false} KeepCompleteAll(data: seq<JsonObject>)
    requires forall i :: 0 <= i < |data| ==> IsComplete(data[i])
    ensures |KeepComplete(data)| == |data|
    ensures forall i :: 0 <= i < |data| ==> KeepComplete(data)[i] == RowOf(data[i])
    decreases |data|
  {
    if data != [] {
      KeepCompleteAll(data[..|data| - 1]);
    }
  }

  /** No row survives exactly when no entry holds all four keys (the "No benchmark results found." exit). */
  lemma {:induction false} KeepCompleteEmpty(data: seq<JsonObject>)
    ensures KeepComplete(data) == [] <==> forall i :: 0 <= i < |data| ==> !IsComplete(data[i])
    decreases |data|
  {
    if data != [] {
      var init := data[..|data| - 1];
      KeepCompleteEmpty(init);
      assert forall i :: 0 <= i < |init| ==> init[i] == data[i];
    }
  }

  /** Every row comes from a complete entry, and every complete entry gives a row. */
  lemma {:induction false} KeepCompleteMembers(data: seq<JsonObject>)
    ensures forall i :: 0 <= i < |data| && IsComplete(data[i]) ==> RowOf(data[i]) in KeepComplete(data)
    ensures forall r :: r in KeepComplete(data) ==> exists i :: 0 <= i < |data| && IsComplete(data[i]) && RowOf(data[i]) == r
    decreases |data|
  {
    if data != [] {
      var init := data[..|data| - 1];
      KeepCompleteMembers(init);
      assert forall i :: 0 <= i < |init| ==> init[i] == data[i];
    }
  }

  /** The first minimum is the only index that is minimal and strictly beats every earlier one. */
  lemma FirstMinUnique(keys: seq<real>, k: nat)
    requires k < |keys|
    requires forall j :: 0 <= j < |keys| ==> keys[k] <= keys[j]
    requires forall j :: 0 <= j < k ==> keys[j] > keys[k]
    ensures FirstMinIndex(keys) == k
  {
  }

  /** The row with the smallest average, the earliest among equals. */
  predicate IsFastest(rows: seq<Row>, k: nat)
    requires forall i :: 0 <= i < |rows| ==> AsFloat(rows[i].avg).Some?
  {
    k < |rows| &&
    (forall j :: 0 <= j < |rows| ==> AsFloat(rows[k].avg).value <= AsFloat(rows[j].avg).value) &&
    (forall j :: 0 <= j < k ==> AsFloat(rows[j].avg).value > AsFloat(rows[k].avg).value)
  }

  /** The benchmark badge shows the fastest row: its label, its average and the band of that average. */
  lemma BenchmarkBadgeShowsFastest(rows: seq<Row>, opts: Options, fixed: (real, nat) -> string, k: nat)
    requires forall i :: 0 <= i < |rows| ==> AsFloat(rows[i].avg).Some?
    requires IsFastest(rows, k)
    ensures var r := BenchmarkBadge(rows, opts, fixed);
      var avg := AsFloat(rows[k].avg).value;
      match BenchmarkLabel(opts.customLabel, rows[k].mode)
      case Err(e) => r == Err(e)
      case Ok(text) => r == Ok(BadgeSpec(text, OrElse(opts.customMessage, fixed(avg, 2) + "ms"),
                                         ColorOf(BenchmarkBand(avg, opts.thresholdGreen, opts.thresholdYellow), opts.colors)))
  {
    var keys := AverageKeys(rows);
    if keys.Ok? {
      FirstMinUnique(keys.value, k);
    }
  }

  /** Any row whose average is not a number makes the benchmark badge fail at the first such row. */
  lemma AverageErrorIsFirstBadRow(rows: seq<Row>, opts: Options, fixed: (real, nat) -> string, k: nat)
    requires k < |rows| && AsFloat(rows[k].avg).None?
    requires forall i :: 0 <= i < k ==> AsFloat(rows[i].avg).Some?
    ensures BenchmarkBadge(rows, opts, fixed) == Err(AverageNotNumber(k))
  {
  }

  /** Explicit label and message always win over the defaults. */
  lemma ExplicitTextWins(rows: seq<Row>, lines: seq<string>, opts: Options, fixed: (real, nat) -> string)
    requires opts.customLabel.Some? && opts.customMessage.Some?
    ensures rows != [] && AverageKeys(rows).Ok? ==>
      BenchmarkBadge(rows, opts, fixed).Ok? &&
      BenchmarkBadge(rows, opts, fixed).value.labelText == opts.customLabel.value &&
      BenchmarkBadge(rows, opts, fixed).value.message == opts.customMessage.value
    ensures MutationBadge(lines, opts, fixed).Ok? ==>
      MutationBadge(lines, opts, fixed).value.labelText == opts.customLabel.value &&
      MutationBadge(lines, opts, fixed).value.message == opts.customMessage.value
  {
  }

  /** A slower benchmark never gets a better colour. */
  lemma BenchmarkBandMonotone(a1: real, a2: real, green: real, yellow: real)
    requires a1 <= a2
    ensures BenchmarkBand(a1, green, yellow).Rank() <= BenchmarkBand(a2, green, yellow).Rank()
  {
  }

  /** A higher mutation score never gets a worse colour. */
  lemma MutationBandMonotone(s1: real, s2: real, green: real, yellow: real)
    requires s1 <= s2
    ensures MutationBand(s2, green, yellow).Rank() <= MutationBand(s1, green, yellow).Rank()
  {
  }

  /** At a threshold exactly, the mutation badge already earns the better colour and the benchmark badge does not. */
  lemma BandBoundaries(t: real, other: real)
    ensures MutationBand(t, t, other) == Green
    ensures BenchmarkBand(t, t, other) != Green
    ensures other < t ==> MutationBand(other, t, other) == Yellow
    ensures t < other ==> BenchmarkBand(t, t, other) == Yellow
  {
  }

  /** With non-negative counts the badge score is a percentage, and 100 exactly when no mutant survived. */
  lemma MutationScoreIsPercentage(c: Counts)
    requires c.killed >= 0 && c.survived >= 0
    ensures 0.0 <= MutationScore(c) <= 100.0
    ensures MutationScore(c) == 100.0 <==> c.survived == 0
  {
    if c.Total() == 0 {
      assert c.survived == 0 && MutationScore(c) == 100.0;
    } else {
      ScoreIsPercentage(c);
    }
  }

  /**
   * The badge and the CI gate agree: with the gate's threshold as the
   * badge's green threshold, a cache with mutants gets the green colour
   * when the gate passes, and only then when the green colour differs from
   * the other two; with no mutants the gate is skipped and the badge is
   * coloured as a score of 100.
   */
  lemma BadgeAgreesWithGate(lines: seq<string>, opts: Options, fixed: (real, nat) -> string)
    requires ParseCache(lines).Ok?
    ensures MutationBadge(lines, opts, fixed).Ok?
    ensures var c := ParseCache(lines).value;
      c.Total() != 0 ==>
        (MutationBand(MutationScore(c), opts.thresholdGreen, opts.thresholdYellow) == Green <==>
         Decide(Some(lines), opts.thresholdGreen).Met?)
    ensures Decide(Some(lines), opts.thresholdGreen).Met? ==>
      MutationBadge(lines, opts, fixed).value.color == opts.colors.green
    ensures var c := ParseCache(lines).value;
      c.Total() != 0 && opts.colors.green != opts.colors.yellow && opts.colors.green != opts.colors.red ==>
        (MutationBadge(lines, opts, fixed).value.color == opts.colors.green <==>
         Decide(Some(lines), opts.thresholdGreen).Met?)
    ensures var c := ParseCache(lines).value;
      c.Total() == 0 ==>
        Decide(Some(lines), opts.thresholdGreen) == Skipped &&
        MutationBadge(lines, opts, fixed).value.color ==
          ColorOf(MutationBand(100.0, opts.thresholdGreen, opts.thresholdYellow), opts.colors)
  {
    var c := ParseCache(lines).value;
    DecideOnCounts(lines, c, opts.thresholdGreen);
    MutationBadgeShowsScore(lines, opts, fixed);
    if c.Total() != 0 {
      GreenIsNotBelow(Score(c), opts.thresholdGreen, opts.thresholdYellow);
    }
  }

  lemma GreenIsNotBelow(score: real, threshold: real, yellow: real)
    ensures MutationBand(score, threshold, yellow) == Green <==> !(score < threshold)
  {
  }

  /** With the default settings an empty cache gives a green badge, as does the gate's default threshold being met. */
  lemma DefaultMutationBadgeGreen(lines: seq<string>, fixed: (real, nat) -> string)
    requires ParseCache(lines).Ok?
    requires Decide(Some(lines), DefaultThreshold).Met? || Decide(Some(lines), DefaultThreshold).Skipped?
    ensures MutationBadge(lines, MutationDefaults, fixed).Ok?
    ensures MutationBadge(lines, MutationDefaults, fixed).value.color == "brightgreen"
    ensures MutationBadge(lines, MutationDefaults, fixed).value.labelText == "mutation"
  {
  }
}

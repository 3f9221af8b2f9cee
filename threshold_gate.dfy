/**
 * The CI quality gate: read the mutmut cache, skip when it records no
 * mutants, otherwise fail when the mutation score is below the threshold.
 * Exit codes are returned as values.
 */
module ThresholdGate {
  import opened PyBuiltins
  import opened MutmutCache

  /** The `--threshold` default. */
  const DefaultThreshold: real := 90.0

  /** `100.0 * killed / total`, over exact reals. */
  function Score(c: Counts): (score: real)
    requires c.Total() != 0
    ensures score * c.Total() as real == 100.0 * c.killed as real
  {
    100.0 * c.killed as real / c.Total() as real
  }

  datatype Outcome =
    | FileMissing          // "::error::Cache file ... not found."
    | ParseFailed(line: nat) // `int()` raised on that line of the cache
    | Skipped              // "No mutants found. Skipping threshold check."
    | Met(score: real)     // "Mutation score threshold met."
    | Below(score: real)   // "::error::Mutation score ... is below threshold ...!"

  /** The process exit status of each outcome (an uncaught ValueError exits with 1). */
  function ExitCode(o: Outcome): (code: int)
    ensures code == 0 <==> (o.Skipped? || o.Met?)
    ensures code == 0 || code == 1
  {
    match o
    case Skipped => 0
    case Met(_) => 0
    case _ => 1
  }

  /** The gate's verdict on a cache file (None when the file does not exist). */
  function Decide(cache: Option<seq<string>>, threshold: real): (o: Outcome)
    ensures o.FileMissing? <==> cache.None?
    ensures o.ParseFailed? <==> cache.Some? && ParseCache(cache.value).Err?
  {
    match cache
    case None => FileMissing
    case Some(lines) =>
      match ParseCache(lines)
      case Err(at) => ParseFailed(at)
      case Ok(c) =>
        if c.Total() == 0 then Skipped
        else if Score(c) < threshold then Below(Score(c))
        else Met(Score(c))
  }

  /** `parse_mutmut_cache` followed by `main`'s decision. */
  method CheckThreshold(cache: Option<seq<string>>, threshold: real) returns (outcome: Outcome, exitCode: int)
    ensures outcome == Decide(cache, threshold)
    ensures exitCode == ExitCode(outcome)
  {
    if cache.None? {
      return FileMissing, 1;
    }
    var counts := ParseCounters(cache.value);
    if counts.Err? {
      return ParseFailed(counts.error), 1;
    }
    var killed, survived := counts.value.killed, counts.value.survived;
    var total := killed + survived;
    if total == 0 {
      return Skipped, 0;
    }
    var score := 100.0 * killed as real / total as real;
    if score < threshold {
      outcome, exitCode := Below(score), 1;
    } else {
      outcome, exitCode := Met(score), 0;
    }
  }

  // ------------------------------------------------------------------ properties

  /** Once the cache has been read, the verdict depends only on the counts. */
  lemma DecideOnCounts(lines: seq<string>, c: Counts, threshold: real)
    requires ParseCache(lines) == Ok(c)
    ensures Decide(Some(lines), threshold) ==
      if c.Total() == 0 then Skipped else if Score(c) < threshold then Below(Score(c)) else Met(Score(c))
  {
  }

  /** A missing cache is an error and no counts are read. */
  lemma MissingCacheFails(threshold: real)
    ensures Decide(None, threshold) == FileMissing
    ensures ExitCode(Decide(None, threshold)) == 1
  {
  }

  /** No mutants: the gate is skipped with exit 0, whatever the threshold. */
  lemma NoMutantsSkips(lines: seq<string>, c: Counts, threshold: real)
    requires ParseCache(lines) == Ok(c) && c.Total() == 0
    ensures Decide(Some(lines), threshold) == Skipped
    ensures ExitCode(Decide(Some(lines), threshold)) == 0
  {
  }

  /** Otherwise the gate fails exactly when the score is below the threshold. */
  lemma FailsExactlyBelowThreshold(lines: seq<string>, c: Counts, threshold: real)
    requires ParseCache(lines) == Ok(c) && c.Total() != 0
    ensures ExitCode(Decide(Some(lines), threshold)) == 1 <==> Score(c) < threshold
    ensures ExitCode(Decide(Some(lines), threshold)) == 1 <==>
      if c.Total() > 0 then 100.0 * c.killed as real < threshold * c.Total() as real
      else 100.0 * c.killed as real > threshold * c.Total() as real
  {
    DecideOnCounts(lines, c, threshold);
    CrossMultiplied(Score(c), c.Total() as real, 100.0 * c.killed as real, threshold);
  }

  /** `s < threshold` for `s = k / t`, with the division cleared. */
  lemma CrossMultiplied(s: real, t: real, k: real, threshold: real)
    requires t != 0.0 && s * t == k
    ensures s < threshold <==> if t > 0.0 then k < threshold * t else k > threshold * t
  {
    if t > 0.0 {
      assert s < threshold <==> s * t < threshold * t;
    } else {
      assert s < threshold <==> s * t > threshold * t;
    }
  }

  /** Raising the threshold can only turn a pass into a failure. */
  lemma ThresholdMonotone(cache: Option<seq<string>>, low: real, high: real)
    requires low <= high
    ensures ExitCode(Decide(cache, high)) == 0 ==> ExitCode(Decide(cache, low)) == 0
  {
  }

  /** With non-negative counts and some mutants, the score is a percentage; it is 100 exactly when none survived. */
  lemma ScoreIsPercentage(c: Counts)
    requires c.killed >= 0 && c.survived >= 0 && c.Total() > 0
    ensures 0.0 <= Score(c) <= 100.0
    ensures Score(c) == 100.0 <==> c.survived == 0
  {
    var t := c.Total() as real;
    var s := Score(c);
    assert s * t == 100.0 * c.killed as real;
    assert (100.0 - s) * t == 100.0 * c.survived as real;
    SignOfProduct(s, t);
    SignOfProduct(100.0 - s, t);
  }

  /** Multiplying by a positive factor keeps the sign. */
  lemma SignOfProduct(x: real, t: real)
    requires t > 0.0
    ensures x * t >= 0.0 <==> x >= 0.0
    ensures x * t == 0.0 <==> x == 0.0
  {
    if x < 0.0 { assert x * t < 0.0 * t; }
    if x > 0.0 { assert x * t > 0.0 * t; }
  }

  /** A parse error in the cache fails the gate whatever the threshold. */
  lemma ParseErrorFails(lines: seq<string>, threshold: real)
    requires ParseCache(lines).Err?
    ensures ExitCode(Decide(Some(lines), threshold)) == 1
  {
  }

  /** At the default threshold of 90, 9 killed and 1 survived just meets the bar. */
  lemma DefaultThresholdMet()
    ensures Decide(Some([KilledPrefix + " " + ShowInt(9), SurvivedPrefix + " " + ShowInt(1)]), DefaultThreshold) == Met(90.0)
  {
    var lines := [KilledPrefix + " " + ShowInt(9), SurvivedPrefix + " " + ShowInt(1)];
    ReadWrittenCounters(9, 1);
    DecideOnCounts(lines, Counts(9, 1), DefaultThreshold);
    ScoreOfCounts(9, 1, 90.0);
  }

  /** At the default threshold of 90, 8 killed and 2 survived fails. */
  lemma DefaultThresholdMissed()
    ensures Decide(Some([KilledPrefix + " " + ShowInt(8), SurvivedPrefix + " " + ShowInt(2)]), DefaultThreshold) == Below(80.0)
  {
    var lines := [KilledPrefix + " " + ShowInt(8), SurvivedPrefix + " " + ShowInt(2)];
    ReadWrittenCounters(8, 2);
    DecideOnCounts(lines, Counts(8, 2), DefaultThreshold);
    ScoreOfCounts(8, 2, 80.0);
  }

  lemma ScoreOfCounts(k: int, s: int, score: real)
    requires k + s == 10 && score == 10.0 * k as real
    ensures Score(Counts(k, s)) == score
  {
  }

  /** A cache holding one `KILLED:` line and then one `SURVIVED:` line reads back both numbers. */
  lemma ReadWrittenCounters(k: int, s: int)
    ensures ParseCache([KilledPrefix + " " + ShowInt(k), SurvivedPrefix + " " + ShowInt(s)]) == Ok(Counts(k, s))
  {
    WrittenCounterLines(k);
    WrittenCounterLines(s);
    ReadKilledThenSurvived(KilledPrefix + " " + ShowInt(k), SurvivedPrefix + " " + ShowInt(s), k, s);
  }

  lemma ReadKilledThenSurvived(l1: string, l2: string, k: int, s: int)
    requires Classify(l1) == KilledLine && CounterValue(l1) == Some(k)
    requires Classify(l2) == SurvivedLine && CounterValue(l2) == Some(s)
    ensures ParseCache([l1, l2]) == Ok(Counts(k, s))
  {
    ReadKilledLine(l1, k);
    ReadOneMoreLine([l1], l2, Counts(k, 0));
    assert [l1] + [l2] == [l1, l2];
  }

  lemma ReadKilledLine(l1: string, k: int)
    requires Classify(l1) == KilledLine && CounterValue(l1) == Some(k)
    ensures ParseCache([l1]) == Ok(Counts(k, 0))
  {
    ReadOneMoreLine([], l1, Counts(0, 0));
    assert [] + [l1] == [l1];
  }
}

# sluggi CI scripts — a Dafny model

This project models the three maintenance scripts of the sluggi slug library and proves properties of them:

- **`scripts/check_mutmut_threshold.py`** is the CI quality gate.
  - It reads the mutmut cache. Each line beginning with `KILLED:` or `SURVIVED:` sets that counter to the integer after the colon, and the last such line wins.
  - With no mutants recorded, it skips.
  - Otherwise it exits with status 1 when `100 * killed / total` is below the threshold (default 90).
- **`scripts/generate_badge.py`** decides what the Shields.io badge shows, up to the HTTP fetch.
  - Benchmark badge: keeps the JSON records that hold all four keys, picks the first record with the smallest `avg_ms_per_item`, and derives its label, message and a three-band colour (strict `<` thresholds, 0.05 / 0.10 ms).
  - Mutation badge: reads the same counters as the gate and colours the score with `>=` thresholds (90 / 75). An empty cache scores 100.
  - Both badges are then turned into the badge URL with `urllib.parse.quote`.
- **`scripts/run_benchmarks.py`** holds the deterministic parts of the benchmark runner:
  - `slugify_custom`: a mode selects a filtered copy of the default step list, and the keyword arguments become the pipeline configuration;
  - `batch_slugify_custom`;
  - `load_realworld_data` (stripped non-blank lines, or a built-in 30-line sample, cut to `n`);
  - the choice of data source;
  - the list of modes and the per-mode flags;
  - the JSON records the badge generator later reads.

Modules, one per concern:

| file | module | models |
|---|---|---|
| `py_builtins.dfy` | `PyBuiltins` | the Python built-ins the scripts rely on: `strip`, `startswith`, `split`, `int()`, `str(int)`, ASCII `lower`, `xs[:n]`, truthiness, `float()` |
| `mutmut_cache.dfy` | `MutmutCache` | the counter loop shared by the gate and the mutation badge |
| `threshold_gate.dfy` | `ThresholdGate` | the mutation score, the gate's verdict and exit status |
| `percent_encoding.dfy` | `PercentEncoding` | `quote(s)` with `safe='/'`: UTF-8 encoding, then percent-encoding of every byte outside the unreserved set of section 2.3 of RFC 3986 and `/` (section 2.1 of RFC 3986); a decoder and the round trip |
| `badge.dfy` | `Badge` | record filtering, the fastest record, colour bands, label and message defaults |
| `badge_url.dfy` | `BadgeUrl` | the badge URL as written, the Shields.io reading of a badge path, and a corrected URL |
| `bench_steps.dfy` | `BenchSteps` | step selection, configuration, the pipeline objects, `slugify_custom` and its batch |
| `bench_main.dfy` | `BenchMain` | data loading, data-source choice, modes and flags, the result loop, the JSON records |

Choices of representation:

- A file is the sequence of its lines.
- A missing cache file is `None`.
- Exit statuses are returned values.
- A Python exception is the `Err` case of a `Result`.
- Scores and averages are exact reals.
- A JSON or keyword-argument value is a `Value`: `None`, a bool, int, float, string, dict, set, array, or any other object, each with Python's truthiness.
- `f"{x:.Nf}"` is a parameter `fixed(x, N)`, and `round(x, N)` is a parameter `round(x, N)`.
- Measured timings are parameters.
- Running a configured slug pipeline is a parameter `run(steps, config, text)`.

## Model

| member | source | states |
|---|---|---|
| PyBuiltins.AsFloat | scripts/generate_badge.py:104 | `float(v)` of a JSON value: a float is itself, an int its value; `None`, strings, arrays and other objects give no number |
| PyBuiltins.Strip | scripts/check_mutmut_threshold.py:21 | the stripped text is no longer than the input, has no whitespace at either end, and is empty exactly when the input is all whitespace |
| PyBuiltins.StripTrimsOnlySpace | scripts/run_benchmarks.py:154 | `strip` removes only whitespace: the result is a slice of the input with whitespace on both sides of it |
| PyBuiltins.StripWithPadding | scripts/run_benchmarks.py:154 | whitespace padding on either side does not change the stripped text |
| PyBuiltins.StripIdempotent | scripts/run_benchmarks.py:154 | stripping twice is stripping once |
| PyBuiltins.Split | scripts/check_mutmut_threshold.py:21 | `split(sep)` gives at least one part, at least two exactly when the separator occurs, and no part contains the separator |
| PyBuiltins.SplitJoin | scripts/check_mutmut_threshold.py:21 | joining the parts with the separator gives the text back |
| PyBuiltins.ParseInt | scripts/check_mutmut_threshold.py:21 | `int()` rejects a blank text and accepts only texts with something left after stripping |
| PyBuiltins.ParseShowRoundTrip | scripts/check_mutmut_threshold.py:21 | `int(str(i)) == i` for every integer, negative ones included (the model has no digit-count limit; see "Left out") |
| PyBuiltins.ParseIntStripped | scripts/check_mutmut_threshold.py:21 | `int()` ignores surrounding whitespace |
| PyBuiltins.Lower | scripts/generate_badge.py:107 | `lower()` keeps the length, turns each upper-case ASCII letter into its lower-case letter (code + 32), and changes no other character |
| PyBuiltins.SliceTo | scripts/run_benchmarks.py:155-156 | `xs[:n]` is a prefix of length `min(n, len)` for `n >= 0`, and `len + n` (at least 0) for negative `n` |
| MutmutCache.FirstBadLine | scripts/check_mutmut_threshold.py:19-23 | the position of the first counter line whose number `int()` rejects, with no such line before it |
| MutmutCache.ParseCounters | scripts/check_mutmut_threshold.py:14-27 | the loop over the lines computes the reference reading: it fails exactly when some counter line does not parse, at the first such line; otherwise each counter is the value of its last line |
| MutmutCache.NoCounterLinesReadZero | scripts/check_mutmut_threshold.py:16-23 | a cache without counter lines reads as 0 killed and 0 survived |
| MutmutCache.LastOccurrenceWins | scripts/check_mutmut_threshold.py:19-23 | the counter is the value of the last line of its kind, whatever earlier lines said |
| MutmutCache.ReadOneMoreLine | scripts/check_mutmut_threshold.py:19-23 | one more line sets (does not add to) its own counter and leaves the other; a non-counter line changes nothing |
| MutmutCache.BadLineFails | scripts/check_mutmut_threshold.py:19-23 | a bad counter line after a clean prefix fails the read at that line, whatever follows |
| MutmutCache.Classify | scripts/check_mutmut_threshold.py:20-22 | a line is a survived line exactly when it starts with `SURVIVED:` and a killed line exactly when it starts with `KILLED:` (the two prefixes exclude each other); see also PrefixIsExact and WrittenCounterLines |
| MutmutCache.CounterValue | scripts/check_mutmut_threshold.py:21-23 | a counter line always has a colon, and a blank field after it is an error; which number is read is in CounterValueAfterPrefix, SecondColonIgnored and NegativeCounter |
| MutmutCache.ParseCache | scripts/check_mutmut_threshold.py:14-27 | the reading fails exactly when some counter line's number does not parse, and then names such a line; the loop is proved equal to it in ParseCounters, and the counts are in LastOccurrenceWins, ReadOneMoreLine and BadLineFails |
| MutmutCache.CounterValueAfterPrefix | scripts/check_mutmut_threshold.py:20-23 | the counter is the text between the prefix and the next colon, stripped and given to `int()` |
| MutmutCache.WrittenCounterLines | scripts/check_mutmut_threshold.py:20-23 | the lines `KILLED: n` and `SURVIVED: n` are classified by their prefix and read back as `n` |
| MutmutCache.EmptyCounterIsError | scripts/check_mutmut_threshold.py:23 | `KILLED:` with no number makes the read fail at that line |
| MutmutCache.SecondColonIgnored | scripts/check_mutmut_threshold.py:23 | text after a second colon is ignored: `KILLED: 7:x` reads 7 |
| MutmutCache.NegativeCounter | scripts/check_mutmut_threshold.py:23 | a sign is accepted: `KILLED: -3` reads -3 |
| MutmutCache.PrefixIsExact | scripts/check_mutmut_threshold.py:20-22 | the prefix test is case-sensitive and anchored at the first column |
| ThresholdGate.Score | scripts/check_mutmut_threshold.py:61 | the score times the total is 100 times the killed count |
| ThresholdGate.ExitCode | scripts/check_mutmut_threshold.py:58-71 | the status is 0 exactly for a skipped or met gate, and 1 otherwise |
| ThresholdGate.Decide | scripts/check_mutmut_threshold.py:17-71 | a missing file is reported exactly when there is no cache, and a parse failure exactly when the cache read fails; the score cases are in FailsExactlyBelowThreshold and NoMutantsSkips |
| ThresholdGate.CheckThreshold | scripts/check_mutmut_threshold.py:56-71 | reading the cache and deciding gives the reference verdict and its exit status |
| ThresholdGate.MissingCacheFails | scripts/check_mutmut_threshold.py:24-26 | a missing cache file fails the gate with status 1 |
| ThresholdGate.NoMutantsSkips | scripts/check_mutmut_threshold.py:57-60 | with no mutants the gate is skipped with status 0, whatever the threshold |
| ThresholdGate.FailsExactlyBelowThreshold | scripts/check_mutmut_threshold.py:61-71 | with mutants the gate fails exactly when the score is below the threshold, which is `100 * killed < threshold * total` for a positive total |
| ThresholdGate.ThresholdMonotone | scripts/check_mutmut_threshold.py:63-71 | a cache that passes a threshold passes every lower one |
| ThresholdGate.ScoreIsPercentage | scripts/check_mutmut_threshold.py:61 | with non-negative counts the score lies in [0, 100], and is 100 exactly when nothing survived |
| ThresholdGate.ParseErrorFails | scripts/check_mutmut_threshold.py:17-27 | a counter line `int()` rejects fails the gate whatever the threshold |
| ThresholdGate.DefaultThresholdMet | scripts/check_mutmut_threshold.py:45 | at the default threshold 9 killed and 1 survived (score 90) passes |
| ThresholdGate.DefaultThresholdMissed | scripts/check_mutmut_threshold.py:45 | at the default threshold 8 killed and 2 survived (score 80) fails |
| ThresholdGate.ReadWrittenCounters | scripts/check_mutmut_threshold.py:19-23 | a cache with `KILLED: k` then `SURVIVED: s` reads back `(k, s)` for all integers |
| PercentEncoding.Utf8Char | scripts/generate_badge.py:188 | a character encodes to 1 to 4 bytes, one byte exactly for ASCII (its own code), otherwise a lead byte of at least 0xC2 followed by continuation bytes |
| PercentEncoding.QuoteByte | scripts/generate_badge.py:188 | a safe byte is copied; any other byte becomes `%` and two upper-case hexadecimal digits |
| PercentEncoding.Quote | scripts/generate_badge.py:188 | `quote(s)` is never shorter than `s`; its inverse is in UnquoteQuote, its identity cases in QuoteIdentity |
| PercentEncoding.QuoteConcat | scripts/generate_badge.py:188 | quoting a concatenation is concatenating the quotes |
| PercentEncoding.QuoteIdentity | scripts/generate_badge.py:188 | quoting leaves a text unchanged exactly when every character is unreserved or `/`; otherwise the text grows by at least two characters |
| PercentEncoding.QuoteAlphabet | scripts/generate_badge.py:188 | a quoted text holds only safe characters, `%` and upper-case hexadecimal digits |
| PercentEncoding.UnquoteQuoteBytes | scripts/generate_badge.py:188 | percent-decoding the quoted bytes gives the bytes back |
| PercentEncoding.DecodeFirstUtf8Char | scripts/generate_badge.py:188 | the UTF-8 decoder reads back one encoded character and its length from the front of any byte string |
| PercentEncoding.DecodeEncode | scripts/generate_badge.py:188 | decoding the UTF-8 encoding of any text gives the text back |
| PercentEncoding.UnquoteQuote | scripts/generate_badge.py:188 | unquoting a quoted text gives it back, for every text |
| PercentEncoding.QuoteInjective | scripts/generate_badge.py:188 | different texts quote differently |
| PercentEncoding.QuoteAsciiExamples | scripts/generate_badge.py:188 | a space quotes to `%20` and `%` to `%25` |
| PercentEncoding.QuoteNonAsciiExample | scripts/generate_badge.py:188 | `é` quotes to `%C3%A9` |
| Badge.KeepComplete | scripts/generate_badge.py:56-70 | no more rows than entries |
| Badge.CollectResults | scripts/generate_badge.py:56-70 | the loop that skips entries with a missing key computes the reference filter |
| Badge.KeepCompleteConcat | scripts/generate_badge.py:56-70 | filtering distributes over concatenation, so kept rows stay in file order |
| Badge.KeepCompleteSingle | scripts/generate_badge.py:58-70 | one entry gives its row exactly when it holds all four keys |
| Badge.KeepCompleteAll | scripts/generate_badge.py:56-70 | when every entry is complete, the rows are the entries, position by position |
| Badge.KeepCompleteEmpty | scripts/generate_badge.py:56-70 | no row is kept exactly when no entry holds all four keys |
| Badge.KeepCompleteMembers | scripts/generate_badge.py:56-70 | every complete entry gives a row, and every row comes from a complete entry |
| Badge.FirstMinIndex | scripts/generate_badge.py:104 | the chosen index holds a minimum, and every earlier key is strictly larger: `min` keeps the first among equals |
| Badge.FirstMinUnique | scripts/generate_badge.py:104 | the first minimum is the only index that is minimal and strictly beats all earlier ones |
| Badge.AverageKeys | scripts/generate_badge.py:104 | either every row's average converts with `float()`, or the error names the first row where it does not |
| Badge.AverageErrorIsFirstBadRow | scripts/generate_badge.py:104 | a row whose average is not a number fails the badge at the first such row |
| Badge.BenchmarkBand | scripts/generate_badge.py:110-116 | green exactly below the green threshold, yellow exactly from there to below the yellow threshold, red otherwise |
| Badge.MutationBand | scripts/generate_badge.py:161-166 | green exactly at or above the green threshold, yellow exactly from the yellow threshold up to below green, red otherwise |
| Badge.BenchmarkBandMonotone | scripts/generate_badge.py:110-116 | a slower average never gets a better colour |
| Badge.MutationBandMonotone | scripts/generate_badge.py:161-166 | a higher score never gets a worse colour |
| Badge.BandBoundaries | scripts/generate_badge.py:161-166 | a score exactly at a mutation threshold earns that colour, while an average exactly at a benchmark threshold does not |
| Badge.BenchmarkLabel | scripts/generate_badge.py:106-108 | an explicit label wins; otherwise a falsy mode gives `benchmark`, and a non-empty string mode gives exactly `Lower` of it, and any other truthy mode an error; a default label is non-empty with no upper-case ASCII letter |
| Badge.ListModeLabel | scripts/generate_badge.py:106-108 | a JSON array as the mode gives `benchmark` when empty (falsy) and an error when not (no `.lower()`) |
| Badge.BenchmarkBadge | scripts/generate_badge.py:99-117 | the badge fails with "no results" exactly when no row was kept; an unconvertible average is reported at the first such row |
| Badge.GenerateBenchmarkBadge | scripts/generate_badge.py:49-117 | collecting the rows, then choosing, gives the reference badge |
| Badge.BenchmarkBadgeShowsFastest | scripts/generate_badge.py:104-116 | the badge shows the fastest row: its label, its average with two decimals and `ms`, and the band of that average |
| Badge.ExplicitTextWins | scripts/generate_badge.py:106-109 | an explicit label and message always appear on either badge |
| Badge.MutationScore | scripts/generate_badge.py:156-159 | with mutants, the score times the total is 100 times the killed count |
| Badge.MutationScoreIsPercentage | scripts/generate_badge.py:156-159 | with non-negative counts the badge score lies in [0, 100], and is 100 exactly when nothing survived |
| Badge.NoMutantsFullScore | scripts/generate_badge.py:156-167 | a cache with no mutants shows a score of 100 (the message `fixed(100.0, 1)%` unless one is given) and the colour of a score of 100, for any options |
| Badge.MutationBadge | scripts/generate_badge.py:147-167 | the badge fails exactly when the cache read fails, at the same line; what a readable cache shows is in MutationBadgeShowsScore |
| Badge.MutationBadgeShowsScore | scripts/generate_badge.py:156-167 | a readable cache gives a badge labelled `mutation` unless a label is given, with message `fixed(score, 1) + "%"` unless a message is given, coloured by the `>=` band of the score, where score times total is 100 times killed when there are mutants |
| Badge.GenerateMutationBadge | scripts/generate_badge.py:147-168 | the counter loop followed by the score and colour gives the reference badge |
| Badge.BadgeAgreesWithGate | scripts/generate_badge.py:156-166 | with the gate's threshold as the green threshold: a passing gate gives the badge the green colour; with mutants the badge's band is green exactly when the gate passes, and so its colour is the green one exactly then when that colour differs from the other two; without mutants the gate skips and the badge is coloured as a score of 100 |
| Badge.DefaultMutationBadgeGreen | scripts/generate_badge.py:156-166 | with the default settings, a cache that passes or skips the default gate gets a green badge labelled `mutation` |
| BadgeUrl.Url | scripts/generate_badge.py:188 | the URL starts with the Shields.io badge prefix and ends in `.svg`; what it reads back as is in UrlPathDecodes, UrlAmbiguous and PythonSlugifyLabelLost |
| BadgeUrl.UrlPath | scripts/generate_badge.py:188 | the quoted `label-message-color` path is at least as long as its three fields and two dashes; how it decodes is in UrlPathDecodes and UrlAmbiguous |
| BadgeUrl.ReadBadgeOfPath | scripts/generate_badge.py:188 | a URL with the badge prefix and `.svg` suffix is read through its path |
| BadgeUrl.UrlPathDecodes | scripts/generate_badge.py:188 | the quoted path decodes to the raw label, message and colour joined by `-` |
| BadgeUrl.QuoteAroundDash | scripts/generate_badge.py:188 | quoting keeps a `-` between two texts as it is |
| BadgeUrl.UrlAmbiguous | scripts/generate_badge.py:188 | moving a dash-separated tail of the label to the front of the message leaves the URL unchanged |
| BadgeUrl.PythonSlugifyLabelLost | scripts/generate_badge.py:188 | the label `python-slugify` gives the same URL as label `python` with message `slugify-…`, so the service cannot draw both correctly |
| BadgeUrl.ReadEscapedField | scripts/generate_badge.py:188 | a field with `-` and `_` doubled is read back exactly, up to the separator after it |
| BadgeUrl.ShieldsUrlReadsBack | scripts/generate_badge.py:188 | the corrected URL is read back as the badge it was built from, for a non-empty message not starting with `-` and a non-empty plain colour |
| BadgeUrl.ShieldsUrlInjective | scripts/generate_badge.py:188 | different badges give different corrected URLs, under the same conditions on message and colour |
| BadgeUrl.ShieldsUrlDashAmbiguous | scripts/generate_badge.py:188 | outside those conditions the corrected URL still collides: label `l-` with message `m` and label `l` with message `-m` are different badges with the same URL |
| BadgeUrl.EscapeConcat | scripts/generate_badge.py:188 | the corrected escaping works character by character |
| BadgeUrl.EscapeKeepsPlainText | scripts/generate_badge.py:188 | for texts without `-` or `_` the corrected URL equals the URL as written |
| BenchSteps.Without | scripts/run_benchmarks.py:281-288 | no kept step is excluded, and the list does not grow |
| BenchSteps.ExcludedBy | scripts/run_benchmarks.py:281-290 | the step names a mode removes are among the emoji and transliteration steps: the emoji step exactly for `noemoji_notranslit` and `translit_only`, transliteration exactly for `noemoji_notranslit` and `emoji_only` |
| BenchSteps.SelectSteps | scripts/run_benchmarks.py:281-292 | an unknown mode is an error, and only an unknown mode; `both` keeps the steps and the other modes filter by ExcludedBy (see ModeRemovesExactly) |
| BenchSteps.ChooseReplacement | scripts/run_benchmarks.py:257-262 | a supplied `replacement_config` wins; otherwise a truthy `custom_map` is converted; otherwise the default configuration |
| BenchSteps.StepList.constructor | scripts/run_benchmarks.py:280 | a list holds the given step names |
| BenchSteps.StepList.Copy | scripts/run_benchmarks.py:280 | `copy()` gives a new list with the same steps |
| BenchSteps.SlugPipeline.Default | scripts/run_benchmarks.py:279 | a default pipeline holds the default step list and no configuration |
| BenchSteps.ConfigurePipeline | scripts/run_benchmarks.py:246-294 | an unknown mode raises; otherwise a new pipeline with a new step list holds the selected steps and the built configuration, and the default step list is left unchanged |
| BenchSteps.SlugifyCustom | scripts/run_benchmarks.py:232-295 | the result is the configured pipeline run on the text, and the default step list is unchanged |
| BenchSteps.BatchSlugifyCustom | scripts/run_benchmarks.py:298-302 | the loop computes the batch reference, and the default step list is unchanged |
| BenchSteps.BatchErrorIsFinal | scripts/run_benchmarks.py:302 | once a prefix of the batch fails, the whole batch fails the same way |
| BenchSteps.WithoutMembers | scripts/run_benchmarks.py:281-288 | a step survives the filter exactly when it was there and is not excluded |
| BenchSteps.WithoutCounts | scripts/run_benchmarks.py:281-288 | every occurrence of an excluded step is removed and every other occurrence kept |
| BenchSteps.WithoutConcat | scripts/run_benchmarks.py:281-288 | filtering distributes over concatenation |
| BenchSteps.WithoutKeepsOrder | scripts/run_benchmarks.py:281-288 | the remaining steps keep their original relative order |
| BenchSteps.WithoutNothing | scripts/run_benchmarks.py:281-288 | with nothing to remove the list is unchanged |
| BenchSteps.WithoutTwice | scripts/run_benchmarks.py:281-288 | filtering by one set, then another, is filtering once by their union |
| BenchSteps.ModeRemovesExactly | scripts/run_benchmarks.py:281-291 | a known mode removes every occurrence of the steps it excludes, keeps every other step with its multiplicity, and keeps their order |
| BenchSteps.NoEmojiNoTranslitComposes | scripts/run_benchmarks.py:281-288 | `noemoji_notranslit` is `emoji_only` without the emoji step, and `translit_only` without the transliteration step |
| BenchSteps.SelectStepsIdempotent | scripts/run_benchmarks.py:281-292 | selecting again with the same mode changes nothing |
| BenchSteps.BuildConfig | scripts/run_benchmarks.py:246-278 | with none of the keys it reads, the `config` dict holds the documented defaults; see also ConfigReadsOnlyKnownKeys and ModeFlagsIgnored |
| BenchSteps.ConfigReadsOnlyKnownKeys | scripts/run_benchmarks.py:246-278 | only the twelve keyword arguments read matter to the configuration |
| BenchSteps.ModeFlagsIgnored | scripts/run_benchmarks.py:246-295 | `process_emoji` and `process_transliteration` change nothing: the mode alone picks the steps |
| BenchSteps.DefaultConfig | scripts/run_benchmarks.py:246-262 | without keyword arguments the configuration holds the defaults: separator `-`, lowercase and decoding on, no limits, default replacements |
| BenchSteps.BatchPointwise | scripts/run_benchmarks.py:298-302 | the batch fails exactly for an unknown mode on a non-empty list; otherwise it has one slug per text, each the single-text result |
| BenchSteps.EmptyBatchNeverFails | scripts/run_benchmarks.py:298-302 | an empty batch succeeds even with an unknown mode, which a single text rejects |
| BenchMain.NonBlankStripped | scripts/run_benchmarks.py:154 | the kept lines are non-empty and no more than the input lines |
| BenchMain.NonBlankStrippedTrimmed | scripts/run_benchmarks.py:154 | every kept line is already in stripped form (`strip` is idempotent) |
| BenchMain.NonBlankStrippedConcat | scripts/run_benchmarks.py:154 | trimming works line by line, so a file's lines can be loaded in parts |
| BenchMain.NonBlankStrippedMembers | scripts/run_benchmarks.py:154 | a text is loaded exactly when it is non-empty and is the stripped form of some line |
| BenchMain.LoadRealworldData | scripts/run_benchmarks.py:141-193 | the result is a prefix of the trimmed file lines (or of the built-in sample), and all of them when `n` is missing or 0 |
| BenchMain.LoadedLinesTrimmed | scripts/run_benchmarks.py:152-157 | every loaded line is stripped and non-empty |
| BenchMain.LoadCount | scripts/run_benchmarks.py:152-193 | a positive `n` keeps the first `n` lines (all when fewer), and a negative one drops that many from the end |
| BenchMain.BuiltinSampleSize | scripts/run_benchmarks.py:158-193 | the built-in sample has 30 strings, all used without `n` and the first 5 with `n = 5` |
| BenchMain.ChooseData | scripts/run_benchmarks.py:376-394 | the built-in sample is used exactly when there is no synthetic flag, no non-empty input path and no `--n`; `--synthetic-mixed` never asks for a count of 0 |
| BenchMain.GeneratedCount | scripts/run_benchmarks.py:58 | the generators return no strings exactly for `n <= 0`, and `n` strings otherwise (the length of `range(n)`) |
| BenchMain.SyntheticDataCount | scripts/run_benchmarks.py:376-389 | a missing or zero `--n` gives 10000 mixed strings, a positive one that many, and a negative one none; the ASCII generator gives none for `--n <= 0` |
| BenchMain.ModesFor | scripts/run_benchmarks.py:396-400 | the runner runs one mode or the four known modes |
| BenchMain.ModesForChoices | scripts/run_benchmarks.py:396-400 | no choice and `all` run the four modes in order; any other choice runs just that mode |
| BenchMain.ChosenModesAreKnown | scripts/run_benchmarks.py:322-332 | every mode the command line allows is accepted by `slugify_custom` |
| BenchMain.FlagsFor | scripts/run_benchmarks.py:406-417 | the emoji flag is set exactly for `emoji_only` and `both`, the transliteration flag exactly for `translit_only` and `both` |
| BenchMain.FlagsMatchSteps | scripts/run_benchmarks.py:404-417 | the per-mode flags say which of the emoji and transliteration steps the mode keeps |
| BenchMain.RunModes | scripts/run_benchmarks.py:404-434 | one result per mode, in order, holding that mode's timings and the shared reference timing |
| BenchMain.ModeRecords | scripts/run_benchmarks.py:439-456 | two records per mode |
| BenchMain.Record | scripts/run_benchmarks.py:441-464 | a record holds the four keys the badge reader needs, with the given mode and method names |
| BenchMain.JsonSpec | scripts/run_benchmarks.py:436-466 | the list holds two records per mode and one reference record |
| BenchMain.JsonResults | scripts/run_benchmarks.py:436-466 | the loop builds the reference list: the per-mode records, then the reference record |
| BenchMain.RecordComplete | scripts/run_benchmarks.py:441-456 | each record holds the four keys, its mode as text and its rounded average as a number |
| BenchMain.ModeRecordsComplete | scripts/run_benchmarks.py:439-456 | every per-mode record holds the four keys, a text mode and a numeric average |
| BenchMain.ModeRecordsAverages | scripts/run_benchmarks.py:439-456 | every per-mode record's average exceeds any bound that all the rounded mode averages exceed |
| BenchMain.JsonFeedsBadge | scripts/run_benchmarks.py:436-466 | no record the runner writes is dropped by the badge generator, and the benchmark badge always succeeds on them |
| BenchMain.JsonRows | scripts/run_benchmarks.py:436-466 | the badge generator reads the per-mode records in order, then the reference record |
| BenchMain.ReferenceRowIsFastest | scripts/run_benchmarks.py:457-464 | when the reference average is the strictly smallest, its record is the fastest row |
| BenchMain.LowerReferenceMode | scripts/run_benchmarks.py:459 | the reference mode is already lower-case |
| BenchMain.ReferenceFastestLabel | scripts/run_benchmarks.py:457-464 | in that case the default benchmark badge is labelled `python-slugify` |
| BenchMain.ReferenceFastestUrlAmbiguous | scripts/run_benchmarks.py:457-464 | and then its URL equals that of a badge labelled `python` with message `slugify-…` |

## Left out

- Reading files. A file is given as its sequence of lines. `for line in f` keeps each line's newline and `splitlines()` does not; `splitlines()` also breaks at other separators. Neither difference is modelled; `strip` removes the newline from the counter either way.
- Missing files are modelled only for the gate's cache (`None`). The badge generator's `open` and `load_realworld_data`'s `open` raising `FileNotFoundError` are left out.
- `json.load` is left out: benchmark input is a list of already decoded JSON objects. Entries that are not objects, and the exception handler that falls back to the legacy parser after some rows were appended (scripts/generate_badge.py:71-76), are left out.
- The legacy plain-text benchmark parser (scripts/generate_badge.py:78-97) is a regular-expression scan. It is not modelled.
- Floating point is left out: scores, averages and thresholds are exact reals, and NaN and infinities are not modelled. `:.2f`, `:.1f` and `round` enter as parameters.
- PyBuiltins.AsFloat: `float()` of a numeric string (such as `"0.5"`) gives no number in the model, because Python's string-to-float parser is not modelled; records the runner writes hold numbers.
- PercentEncoding.Quote: Dafny strings hold only Unicode scalar values, so a label, message or mode holding a lone surrogate (from a command-line argument that is not valid UTF-8, or a `\ud800` escape in the JSON) cannot be given; on such text `quote` raises `UnicodeEncodeError` at scripts/generate_badge.py:188, and that exception path is not modelled.
- PyBuiltins.Lower: lower-cases ASCII letters only; Python's full Unicode case mapping is not modelled.
- PyBuiltins.ParseInt: accepts ASCII digits only; Python's `int()` also accepts other Unicode decimal digits. It also has no digit-count limit: since CPython 3.10.7, `int()` of a decimal text longer than 4300 digits (and `str()` of such an integer) raises `ValueError`, so a cache line with such a counter crashes the gate (scripts/check_mutmut_threshold.py:23) and the badge generator (scripts/generate_badge.py:155), while the model reads the number.
- The HTTP fetch, the status check, writing the SVG file and the dry-run printout (scripts/generate_badge.py:189-204) are I/O. The model stops at the URL.
- All printed messages and command-line parsing are left out. The `argparse` defaults appear as constants.
- BenchMain.RunModes: `bench_one` and `bench_batch` divide by `len(data)` (scripts/run_benchmarks.py:211, 229), so on empty data the reference benchmark at line 403 raises `ZeroDivisionError` before any mode runs. The data is empty for `--n 0` or a negative `--n` (GeneratedCount, SyntheticDataCount), for an input file with only blank lines, and for `--input f --n -k` with `k` at least the number of lines (LoadCount). The model takes timings as parameters and always produces results; this exception path is not modelled.
- Timing (`bench_one`, `bench_batch`, `time.perf_counter`), the random data generators and the `python-slugify` reference call are clock, randomness and external code. Timings enter as parameters, and generated data only as a named data source.
- `SlugPipeline.run`, the pipeline steps, `ReplacementEngine`, `ReplacementConfig` and `custom_map_to_config` belong to the sluggi library and are not part of this model. Running a pipeline is the parameter `run`, and the replacement configuration records only which source was chosen.
- BenchSteps.SlugPipeline.Default: whether `SlugPipeline.default()` shares its step list between pipelines is not visible here; the model takes the sharing case, in which the copy at scripts/run_benchmarks.py:280 matters.
- `batch_slugify`, the library batch API timed by the runner, is not part of this model.
- The human-readable summary table (scripts/run_benchmarks.py:501-537) is terminal output and is left out.
- BadgeUrl.ReadBadge models the field escapes of the Shields.io badge path (`--`, `__`, `_`, single `-`). The service's complete route matching, including how it answers a path with too many single dashes, is not modelled.
- scripts/run_profiler.py and scripts/debug_pipeline_steps.py are not part of this model.

## Findings

| source | as written | input that shows it | evidently intended | confidence | as-written member | corrected member |
|---|---|---|---|---|---|---|
| scripts/generate_badge.py:188 | `quote` leaves `-` and `_` unescaped, but the badge path uses a single `-` as its field separator and `_` for a space | the runner's JSON when its `python-slugify` reference record (scripts/run_benchmarks.py:457-464) is the fastest: the label `python-slugify` gives the same URL as label `python` with message `slugify-<avg>ms`; a mode such as `noemoji_notranslit` would be drawn with a space | each field escaped for the badge path (`-` to `--`, `_` to `__`) before quoting, so that the URL is read back as the badge whenever the message is non-empty and does not start with `-` and the colour is a plain name (a label ending in `-` next to a message starting with `-` still collides: ShieldsUrlDashAmbiguous) | medium, not executed | BadgeUrl.UrlAmbiguous | BadgeUrl.ShieldsUrlReadsBack |

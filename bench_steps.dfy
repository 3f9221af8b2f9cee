/**
 * `slugify_custom` and `batch_slugify_custom` of the benchmark runner: a
 * mode selects a filtered copy of the default pipeline's step list by step
 * name, the keyword arguments become the pipeline configuration, and the
 * configured pipeline runs on the text.
 *
 * The steps themselves and `SlugPipeline.run` belong to the library and are
 * not part of this model: steps are their `__name__`s and running a
 * configured pipeline is the parameter `run`.
 */
module BenchSteps {
  import opened PyBuiltins

  type StepName = string

  const EmojiStep: StepName := "emoji_step"
  const TransliterateStep: StepName := "transliterate_step"

  const NoEmojiNoTranslit: string := "noemoji_notranslit"
  const EmojiOnly: string := "emoji_only"
  const TranslitOnly: string := "translit_only"
  const BothSteps: string := "both"

  /** The modes `slugify_custom` accepts, in the order `main` runs them. */
  const KnownModes: seq<string> := [NoEmojiNoTranslit, EmojiOnly, TranslitOnly, BothSteps]

  predicate IsKnownMode(mode: string) {
    mode == NoEmojiNoTranslit || mode == EmojiOnly || mode == TranslitOnly || mode == BothSteps
  }

  /** `ValueError(f"Unknown mode: {mode}")`. */
  datatype ModeError = UnknownMode(mode: string)

  // ------------------------------------------------------------------ step filtering

  /** `[s for s in steps if s.__name__ not in excluded]`. */
  function Without(steps: seq<StepName>, excluded: set<StepName>): (r: seq<StepName>)
    ensures |r| <= |steps|
    ensures forall i :: 0 <= i < |r| ==> r[i] !in excluded
  {
    if steps == [] then []
    else (if steps[0] in excluded then [] else [steps[0]]) + Without(steps[1..], excluded)
  }

  /** The step names a known mode removes. */
  function ExcludedBy(mode: string): (excluded: set<StepName>)
    requires IsKnownMode(mode)
    ensures excluded <= {EmojiStep, TransliterateStep}
    ensures EmojiStep in excluded <==> mode == NoEmojiNoTranslit || mode == TranslitOnly
    ensures TransliterateStep in excluded <==> mode == NoEmojiNoTranslit || mode == EmojiOnly
  {
    if mode == NoEmojiNoTranslit then {EmojiStep, TransliterateStep}
    else if mode == EmojiOnly then {TransliterateStep}
    else if mode == TranslitOnly then {EmojiStep}
    else {}
  }

  /** The step list `slugify_custom` installs for `mode`. */
  function SelectSteps(steps: seq<StepName>, mode: string): (r: Result<seq<StepName>, ModeError>)
    ensures r.Err? <==> !IsKnownMode(mode)
    ensures r.Err? ==> r.error == UnknownMode(mode)
  {
    if mode == BothSteps then Ok(steps)
    else if IsKnownMode(mode) then Ok(Without(steps, ExcludedBy(mode)))
    else Err(UnknownMode(mode))
  }

  // ------------------------------------------------------------------ configuration

  /** The keyword arguments of `slugify_custom`. */
  type Kwargs = map<string, Value>

  /** `kwargs.get(key, default)`. */
  function Get(kwargs: Kwargs, key: string, default: Value): Value {
    if key in kwargs then kwargs[key] else default
  }

  /** Where the replacement configuration comes from. */
  datatype Replacement =
    | Supplied(config: Value)          // the `replacement_config` argument
    | FromCustomMap(customMap: Value)  // `custom_map_to_config(custom_map)`
    | DefaultReplacements              // `ReplacementConfig()`

  /** The replacement configuration: the supplied one, else one derived from a truthy `custom_map`, else the default. */
  function ChooseReplacement(kwargs: Kwargs): (r: Replacement)
    ensures r.Supplied? <==> !Get(kwargs, "replacement_config", NoneV).NoneV?
    ensures r.FromCustomMap? <==>
      Get(kwargs, "replacement_config", NoneV).NoneV? && Truthy(Get(kwargs, "custom_map", NoneV))
    ensures r.Supplied? ==> r.config == kwargs["replacement_config"]
    ensures r.FromCustomMap? ==> r.customMap == kwargs["custom_map"]
  {
    var supplied := Get(kwargs, "replacement_config", NoneV);
    if !supplied.NoneV? then Supplied(supplied)
    else
      var customMap := Get(kwargs, "custom_map", NoneV);
      if Truthy(customMap) then FromCustomMap(customMap) else DefaultReplacements
  }

  /**
   * The `config` dict `slugify_custom` gives the pipeline. Its `engine`
   * entry is `ReplacementEngine(replacement_config)`, a function of the
   * `replacement` field.
   */
  datatype Config = Config(
    separator: Value,
    customMap: Value,
    stopwords: Value,
    lowercase: Value,
    wordRegex: Value,
    decodeEntities: Value,
    decodeDecimal: Value,
    decodeHexadecimal: Value,
    maxLength: Value,
    wordBoundary: Value,
    saveOrder: Value,
    replacement: Replacement)

  /** The keyword arguments `slugify_custom` reads. */
  const ConfigKeys: set<string> := {
    "separator", "custom_map", "stopwords", "lowercase", "word_regex",
    "decode_entities", "decode_decimal", "decode_hexadecimal", "max_length",
    "word_boundary", "save_order", "replacement_config"}

  function BuildConfig(kwargs: Kwargs): (c: Config)
    ensures kwargs.Keys !! ConfigKeys ==>
      c == Config(StrV("-"), NoneV, NoneV, BoolV(true), NoneV, BoolV(true), BoolV(true),
                  BoolV(true), NoneV, BoolV(true), BoolV(true), DefaultReplacements)
  {
    Config(
      Get(kwargs, "separator", StrV("-")),
      Get(kwargs, "custom_map", NoneV),
      Get(kwargs, "stopwords", NoneV),
      Get(kwargs, "lowercase", BoolV(true)),
      Get(kwargs, "word_regex", NoneV),
      Get(kwargs, "decode_entities", BoolV(true)),
      Get(kwargs, "decode_decimal", BoolV(true)),
      Get(kwargs, "decode_hexadecimal", BoolV(true)),
      Get(kwargs, "max_length", NoneV),
      Get(kwargs, "word_boundary", BoolV(true)),
      Get(kwargs, "save_order", BoolV(true)),
      ChooseReplacement(kwargs))
  }

  // ------------------------------------------------------------------ the pipeline objects

  /** A Python list of steps; several pipelines may hold the same list. */
  class StepList {
    var items: seq<StepName>

    constructor (items0: seq<StepName>)
      ensures items == items0
    {
      items := items0;
    }

    /** `list.copy()`. */
    method Copy() returns (c: StepList)
      ensures fresh(c) && c.items == items
    {
      c := new StepList(items);
    }
  }

  /**
   * A `SlugPipeline`: its step list and its configuration. `config` is None
   * for the configuration `SlugPipeline.default()` installs, which is not
   * part of this model.
   */
  class SlugPipeline {
    var steps: StepList
    var config: Option<Config>

    /**
     * `SlugPipeline.default()`, taken in the least favourable form: the new
     * pipeline holds the default step list itself, not a copy.
     */
    constructor Default(template: StepList)
      ensures steps == template && config == None
    {
      steps := template;
      config := None;
    }
  }

  /**
   * Everything `slugify_custom` does before `pipeline.run(text)`: the
   * pipeline gets a new list holding the selected steps, and the default
   * list it started from is left as it was.
   */
  method ConfigurePipeline(mode: string, kwargs: Kwargs, template: StepList)
    returns (r: Result<SlugPipeline, ModeError>)
    ensures r.Err? <==> !IsKnownMode(mode)
    ensures r.Err? ==> r.error == UnknownMode(mode)
    ensures r.Ok? ==> fresh(r.value) && fresh(r.value.steps)
    ensures r.Ok? ==> r.value.steps.items == SelectSteps(template.items, mode).value
    ensures r.Ok? ==> r.value.config == Some(BuildConfig(kwargs))
    ensures template.items == old(template.items)
  {
    var config := BuildConfig(kwargs);
    var pipeline := new SlugPipeline.Default(template);
    var steps := pipeline.steps.Copy();
    if mode == NoEmojiNoTranslit {
      steps := new StepList(Without(steps.items, {EmojiStep, TransliterateStep}));
    } else if mode == EmojiOnly {
      steps := new StepList(Without(steps.items, {TransliterateStep}));
    } else if mode == TranslitOnly {
      steps := new StepList(Without(steps.items, {EmojiStep}));
    } else if mode == BothSteps {
      // keep all steps
    } else {
      return Err(UnknownMode(mode));
    }
    pipeline.steps := steps;
    pipeline.config := Some(config);
    return Ok(pipeline);
  }

  /** What `slugify_custom(text, mode, **kwargs)` returns, given how a configured pipeline runs. */
  function SlugifyCustomSpec(text: string, mode: string, kwargs: Kwargs, steps: seq<StepName>,
                             run: (seq<StepName>, Config, string) -> string): Result<string, ModeError>
  {
    match SelectSteps(steps, mode)
    case Err(e) => Err(e)
    case Ok(selected) => Ok(run(selected, BuildConfig(kwargs), text))
  }

  method SlugifyCustom(text: string, mode: string, kwargs: Kwargs, template: StepList,
                       run: (seq<StepName>, Config, string) -> string)
    returns (r: Result<string, ModeError>)
    ensures r == SlugifyCustomSpec(text, mode, kwargs, template.items, run)
    ensures template.items == old(template.items)
  {
    var pipeline := ConfigurePipeline(mode, kwargs, template);
    if pipeline.Err? {
      return Err(pipeline.error);
    }
    r := Ok(run(pipeline.value.steps.items, pipeline.value.config.value, text));
  }

  /** `[slugify_custom(t, mode=mode, **kwargs) for t in texts]`. */
  function BatchSpec(texts: seq<string>, mode: string, kwargs: Kwargs, steps: seq<StepName>,
                     run: (seq<StepName>, Config, string) -> string): Result<seq<string>, ModeError>
  {
    if texts == [] then Ok([])
    else
      match BatchSpec(texts[..|texts| - 1], mode, kwargs, steps, run)
      case Err(e) => Err(e)
      case Ok(done) =>
        match SlugifyCustomSpec(texts[|texts| - 1], mode, kwargs, steps, run)
        case Err(e) => Err(e)
        case Ok(slug) => Ok(done + [slug])
  }

  method BatchSlugifyCustom(texts: seq<string>, mode: string, kwargs: Kwargs, template: StepList,
                            run: (seq<StepName>, Config, string) -> string)
    returns (r: Result<seq<string>, ModeError>)
    ensures r == BatchSpec(texts, mode, kwargs, template.items, run)
    ensures template.items == old(template.items)
  {
    var slugs: seq<string> := [];
    for i := 0 to |texts|
      invariant BatchSpec(texts[..i], mode, kwargs, template.items, run) == Ok(slugs)
      invariant template.items == old(template.items)
    {
      assert texts[..i + 1][..i] == texts[..i];
      var slug := SlugifyCustom(texts[i], mode, kwargs, template, run);
      if slug.Err? {
        assert BatchSpec(texts[..i + 1], mode, kwargs, template.items, run) == Err(slug.error);
        BatchErrorIsFinal(texts, i + 1, mode, kwargs, template.items, run);
        assert texts[..|texts|] == texts;
        return Err(slug.error);
      }
      slugs := slugs + [slug.value];
    }
    assert texts[..|texts|] == texts;
    return Ok(slugs);
  }

  /** Once a prefix of the batch fails, the whole batch fails the same way. */
  lemma {:induction false} BatchErrorIsFinal(texts: seq<string>, k: nat, mode: string, kwargs: Kwargs,
                                              steps: seq<StepName>, run: (seq<StepName>, Config, string) -> string)
    requires k <= |texts|
    requires BatchSpec(texts[..k], mode, kwargs, steps, run).Err?
    ensures BatchSpec(texts, mode, kwargs, steps, run) == BatchSpec(texts[..k], mode, kwargs, steps, run)
    decreases |texts| - k
  {
    if k < |texts| {
      assert texts[..k + 1][..k] == texts[..k];
      BatchErrorIsFinal(texts, k + 1, mode, kwargs, steps, run);
    } else {
      assert texts[..k] == texts;
    }
  }

  // ------------------------------------------------------------------ properties of the filter

  /** A step survives exactly when it was there and is not excluded. */
  lemma {:induction false} WithoutMembers(steps: seq<StepName>, excluded: set<StepName>, x: StepName)
    ensures x in Without(steps, excluded) <==> x in steps && x !in excluded
    decreases |steps|
  {
    if steps != [] {
      WithoutMembers(steps[1..], excluded, x);
      assert steps == [steps[0]] + steps[1..];
    }
  }

  /** Filtering removes every occurrence of an excluded name and keeps every other occurrence. */
  lemma {:induction false} WithoutCounts(steps: seq<StepName>, excluded: set<StepName>, x: StepName)
    ensures multiset(Without(steps, excluded))[x] == if x in excluded then 0 else multiset(steps)[x]
    decreases |steps|
  {
    if steps != [] {
      var head := if steps[0] in excluded then [] else [steps[0]];
      WithoutCounts(steps[1..], excluded, x);
      assert steps == [steps[0]] + steps[1..];
      assert multiset(Without(steps, excluded)) == multiset(head) + multiset(Without(steps[1..], excluded));
    }
  }

  /** Filtering distributes over concatenation. */
  lemma {:induction false} WithoutConcat(a: seq<StepName>, b: seq<StepName>, excluded: set<StepName>)
    ensures Without(a + b, excluded) == Without(a, excluded) + Without(b, excluded)
    decreases |a|
  {
    if a == [] {
      assert a + b == b;
    } else {
      assert (a + b)[1..] == a[1..] + b;
      WithoutConcat(a[1..], b, excluded);
    }
  }

  /** `a` is `b` with some elements left out, the rest in their original order. */
  predicate IsSubsequence(a: seq<StepName>, b: seq<StepName>)
    decreases |b|
  {
    if a == [] then true
    else if b == [] then false
    else (a[0] == b[0] && IsSubsequence(a[1..], b[1..])) || IsSubsequence(a, b[1..])
  }

  lemma {:induction false} SubsequenceOfSelf(a: seq<StepName>)
    ensures IsSubsequence(a, a)
    decreases |a|
  {
    if a != [] {
      SubsequenceOfSelf(a[1..]);
    }
  }

  /** The remaining steps keep their original relative order. */
  lemma {:induction false} WithoutKeepsOrder(steps: seq<StepName>, excluded: set<StepName>)
    ensures IsSubsequence(Without(steps, excluded), steps)
    decreases |steps|
  {
    if steps != [] {
      var rest := Without(steps[1..], excluded);
      WithoutKeepsOrder(steps[1..], excluded);
      if steps[0] in excluded {
        assert Without(steps, excluded) == rest;
        if rest != [] {
          assert IsSubsequence(rest, steps[1..]);
        }
      } else {
        assert Without(steps, excluded) == [steps[0]] + rest;
        assert ([steps[0]] + rest)[1..] == rest;
      }
    }
  }

  /** Nothing to remove leaves the list as it is. */
  lemma {:induction false} WithoutNothing(steps: seq<StepName>, excluded: set<StepName>)
    requires forall i :: 0 <= i < |steps| ==> steps[i] !in excluded
    ensures Without(steps, excluded) == steps
    decreases |steps|
  {
    if steps != [] {
      WithoutNothing(steps[1..], excluded);
      assert [steps[0]] + steps[1..] == steps;
    }
  }

  /** Filtering twice is filtering once by both sets. */
  lemma {:induction false} WithoutTwice(steps: seq<StepName>, a: set<StepName>, b: set<StepName>)
    ensures Without(Without(steps, a), b) == Without(steps, a + b)
    decreases |steps|
  {
    if steps != [] {
      WithoutTwice(steps[1..], a, b);
      var head := if steps[0] in a then [] else [steps[0]];
      WithoutConcat(head, Without(steps[1..], a), b);
      if steps[0] !in a {
        assert Without(head, b) == Without([steps[0]][1..], b) + (if steps[0] in b then [] else [steps[0]]) by {
          assert [steps[0]][1..] == [];
        }
      }
    }
  }

  // ------------------------------------------------------------------ properties of the modes

  /**
   * Each known mode removes exactly the steps it names, every occurrence of
   * them, keeps every other step, and keeps the order.
   */
  lemma ModeRemovesExactly(steps: seq<StepName>, mode: string, x: StepName)
    requires IsKnownMode(mode)
    ensures SelectSteps(steps, mode).Ok?
    ensures multiset(SelectSteps(steps, mode).value)[x] ==
      if x in ExcludedBy(mode) then 0 else multiset(steps)[x]
    ensures IsSubsequence(SelectSteps(steps, mode).value, steps)
  {
    if mode == BothSteps {
      SubsequenceOfSelf(steps);
    } else {
      WithoutCounts(steps, ExcludedBy(mode), x);
      WithoutKeepsOrder(steps, ExcludedBy(mode));
    }
  }

  /** `noemoji_notranslit` is `emoji_only` followed by dropping the emoji step. */
  lemma NoEmojiNoTranslitComposes(steps: seq<StepName>)
    ensures SelectSteps(steps, NoEmojiNoTranslit).value ==
      Without(SelectSteps(steps, EmojiOnly).value, {EmojiStep})
    ensures SelectSteps(steps, NoEmojiNoTranslit).value ==
      Without(SelectSteps(steps, TranslitOnly).value, {TransliterateStep})
  {
    WithoutTwice(steps, {TransliterateStep}, {EmojiStep});
    assert {TransliterateStep} + {EmojiStep} == {EmojiStep, TransliterateStep};
    WithoutTwice(steps, {EmojiStep}, {TransliterateStep});
    assert {EmojiStep} + {TransliterateStep} == {EmojiStep, TransliterateStep};
  }

  /** Selecting again with the same mode changes nothing. */
  lemma SelectStepsIdempotent(steps: seq<StepName>, mode: string)
    requires IsKnownMode(mode)
    ensures SelectSteps(SelectSteps(steps, mode).value, mode) == SelectSteps(steps, mode)
  {
    if mode != BothSteps {
      var ex := ExcludedBy(mode);
      WithoutTwice(steps, ex, ex);
      assert ex + ex == ex;
    }
  }

  // ------------------------------------------------------------------ properties of the configuration

  /** Only the twelve keys `slugify_custom` reads matter; any other keyword argument is ignored. */
  lemma ConfigReadsOnlyKnownKeys(k1: Kwargs, k2: Kwargs)
    requires forall key :: key in ConfigKeys ==> Get(k1, key, NoneV) == Get(k2, key, NoneV) && (key in k1 <==> key in k2)
    ensures BuildConfig(k1) == BuildConfig(k2)
  {
    assert "replacement_config" in ConfigKeys && "custom_map" in ConfigKeys;
    assert "separator" in ConfigKeys && "stopwords" in ConfigKeys && "lowercase" in ConfigKeys;
    assert "word_regex" in ConfigKeys && "decode_entities" in ConfigKeys && "decode_decimal" in ConfigKeys;
    assert "decode_hexadecimal" in ConfigKeys && "max_length" in ConfigKeys;
    assert "word_boundary" in ConfigKeys && "save_order" in ConfigKeys;
  }

  /** `main` passes `process_emoji` and `process_transliteration`, and they change nothing: the mode alone picks the steps. */
  lemma ModeFlagsIgnored(kwargs: Kwargs, text: string, mode: string, steps: seq<StepName>,
                         run: (seq<StepName>, Config, string) -> string)
    ensures var plain := kwargs - {"process_emoji", "process_transliteration"};
      SlugifyCustomSpec(text, mode, kwargs, steps, run) == SlugifyCustomSpec(text, mode, plain, steps, run)
  {
    var plain := kwargs - {"process_emoji", "process_transliteration"};
    forall key | key in ConfigKeys
      ensures Get(kwargs, key, NoneV) == Get(plain, key, NoneV) && (key in kwargs <==> key in plain)
    {
      assert key != "process_emoji" && key != "process_transliteration";
    }
    ConfigReadsOnlyKnownKeys(kwargs, plain);
  }

  /** Without keyword arguments the configuration holds the documented defaults. */
  lemma DefaultConfig()
    ensures BuildConfig(map[]) == Config(StrV("-"), NoneV, NoneV, BoolV(true), NoneV, BoolV(true), BoolV(true),
                                         BoolV(true), NoneV, BoolV(true), BoolV(true), DefaultReplacements)
  {
  }

  // ------------------------------------------------------------------ properties of the batch

  /** The batch has one slug per text, each equal to slugifying that text alone; it fails only for an unknown mode on a non-empty list. */
  lemma {:induction false} BatchPointwise(texts: seq<string>, mode: string, kwargs: Kwargs, steps: seq<StepName>,
                                          run: (seq<StepName>, Config, string) -> string)
    ensures BatchSpec(texts, mode, kwargs, steps, run).Err? <==> texts != [] && !IsKnownMode(mode)
    ensures BatchSpec(texts, mode, kwargs, steps, run).Ok? ==>
      |BatchSpec(texts, mode, kwargs, steps, run).value| == |texts| &&
      forall i :: 0 <= i < |texts| ==>
        Ok(BatchSpec(texts, mode, kwargs, steps, run).value[i]) == SlugifyCustomSpec(texts[i], mode, kwargs, steps, run)
    decreases |texts|
  {
    if texts != [] {
      var init := texts[..|texts| - 1];
      BatchPointwise(init, mode, kwargs, steps, run);
      assert forall i :: 0 <= i < |init| ==> init[i] == texts[i];
    }
  }

  /** An empty batch succeeds even with an unknown mode: the error is only raised per text. */
  lemma EmptyBatchNeverFails(mode: string, kwargs: Kwargs, steps: seq<StepName>,
                             run: (seq<StepName>, Config, string) -> string)
    ensures BatchSpec([], mode, kwargs, steps, run) == Ok([])
    ensures !IsKnownMode(mode) ==> SlugifyCustomSpec("", mode, kwargs, steps, run) == Err(UnknownMode(mode))
  {
  }
}

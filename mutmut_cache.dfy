/**
 * The mutmut cache reader shared by the CI gate and the badge generator:
 * it walks the lines of the cache, and each line that begins with
 * `SURVIVED:` or `KILLED:` sets that counter to the integer found between
 * the first and the second colon. A line whose number does not parse ends
 * the walk with an error (Python's `int()` raising ValueError).
 */
module MutmutCache {
  import opened PyBuiltins

  const SurvivedPrefix := "SURVIVED:"
  const KilledPrefix := "KILLED:"

  datatype Counts = Counts(killed: int, survived: int) {
    function Total(): int { killed + survived }
  }

  datatype LineKind = SurvivedLine | KilledLine | OtherLine

  /** The `startswith` tests, `SURVIVED:` first: case-sensitive and anchored at column 0. */
  function Classify(line: string): (k: LineKind)
    ensures k == SurvivedLine <==> StartsWith(line, SurvivedPrefix)
    ensures k == KilledLine <==> StartsWith(line, KilledPrefix)
  {
    if StartsWith(line, SurvivedPrefix) then
      assert line[0] == SurvivedPrefix[0] != KilledPrefix[0];
      SurvivedLine
    else if StartsWith(line, KilledPrefix) then KilledLine
    else OtherLine
  }

  predicate IsCounterLine(line: string) {
    Classify(line) != OtherLine
  }

  /** `int(line.split(":")[1].strip())` on a counter line. */
  function CounterValue(line: string): (v: Option<int>)
    requires IsCounterLine(line)
    ensures ':' in line
    ensures AllSpace(Split(line, ':')[1]) ==> v.None?
  {
    var p := if Classify(line) == SurvivedLine then SurvivedPrefix else KilledPrefix;
    assert ':' in line by { assert line[|p| - 1] == line[..|p|][|p| - 1] == ':'; }
    ParseInt(Strip(Split(line, ':')[1]))
  }

  /** A counter line whose number `int()` rejects. */
  predicate IsBadLine(line: string) {
    IsCounterLine(line) && CounterValue(line).None?
  }

  predicate NoBadLine(lines: seq<string>) {
    NoBadLineBefore(lines, |lines|)
  }

  /** No line before index `n` is bad. */
  predicate NoBadLineBefore(lines: seq<string>, n: nat)
    requires n <= |lines|
  {
    forall i :: 0 <= i < n ==> !IsBadLine(lines[i])
  }

  /** The index of the first bad line, or |lines| when every counter line parses. */
  function FirstBadLine(lines: seq<string>): (k: nat)
    ensures k <= |lines|
    ensures NoBadLineBefore(lines, k)
    ensures k < |lines| ==> IsBadLine(lines[k])
  {
    if lines == [] then 0
    else if IsBadLine(lines[0]) then 0
    else
      var k := FirstBadLine(lines[1..]);
      assert forall i :: 1 <= i < |lines| ==> lines[i] == lines[1..][i - 1];
      k + 1
  }

  /** The value of the last line of the given kind, or 0 when there is none: the last occurrence wins. */
  function LastCount(lines: seq<string>, kind: LineKind): int
    requires kind != OtherLine && NoBadLine(lines)
  {
    if lines == [] then 0
    else
      var last := lines[|lines| - 1];
      assert forall i :: 0 <= i < |lines| - 1 ==> lines[..|lines| - 1][i] == lines[i];
      if Classify(last) == kind then CounterValue(last).value
      else LastCount(lines[..|lines| - 1], kind)
  }

  /** What reading the cache yields: both counters, or the index of the line whose number did not parse. */
  function ParseCache(lines: seq<string>): (r: Result<Counts, nat>)
    ensures r.Err? <==> !NoBadLine(lines)
    ensures r.Err? ==> r.error < |lines| && IsBadLine(lines[r.error])
  {
    var k := FirstBadLine(lines);
    if k < |lines| then Err(k)
    else
      assert lines[..k] == lines;
      Ok(Counts(LastCount(lines, KilledLine), LastCount(lines, SurvivedLine)))
  }

  /** The `for line in f` loop of the reader, with the two counters starting at 0. */
  method ParseCounters(lines: seq<string>) returns (r: Result<Counts, nat>)
    ensures r == ParseCache(lines)
    ensures r.Err? <==> !NoBadLine(lines)
    ensures r.Err? ==> r.error < |lines| && IsBadLine(lines[r.error]) && NoBadLineBefore(lines, r.error)
  {
    var killed, survived := 0, 0;
    var i := 0;
    while i < |lines|
      invariant 0 <= i <= |lines|
      invariant NoBadLineBefore(lines, i)
      invariant NoBadLine(lines[..i])
      invariant killed == LastCount(lines[..i], KilledLine)
      invariant survived == LastCount(lines[..i], SurvivedLine)
    {
      var line := lines[i];
      assert lines[..i + 1][..i] == lines[..i];
      if StartsWith(line, SurvivedPrefix) {
        var v := CounterValue(line);
        if v.None? {
          FirstBadLineAt(lines, i);
          return Err(i);
        }
        survived := v.value;
      } else if StartsWith(line, KilledPrefix) {
        var v := CounterValue(line);
        if v.None? {
          FirstBadLineAt(lines, i);
          return Err(i);
        }
        killed := v.value;
      }
      i := i + 1;
    }
    assert lines[..i] == lines;
    r := Ok(Counts(killed, survived));
  }

  /** The first bad line is the bad line that has no bad line before it. */
  lemma FirstBadLineAt(lines: seq<string>, i: nat)
    requires i < |lines| && IsBadLine(lines[i]) && NoBadLineBefore(lines, i)
    ensures FirstBadLine(lines) == i
    ensures !NoBadLine(lines)
  {
  }

  // ------------------------------------------------------------------ properties

  /** Both counters start at 0: a cache without counter lines reads as (0, 0). */
  lemma {:induction false} NoCounterLinesReadZero(lines: seq<string>)
    requires forall i :: 0 <= i < |lines| ==> !IsCounterLine(lines[i])
    ensures ParseCache(lines) == Ok(Counts(0, 0))
  {
    LastCountWithoutKind(lines, KilledLine);
    LastCountWithoutKind(lines, SurvivedLine);
  }

  lemma {:induction false} LastCountWithoutKind(lines: seq<string>, kind: LineKind)
    requires kind != OtherLine && NoBadLine(lines)
    requires forall i :: 0 <= i < |lines| ==> Classify(lines[i]) != kind
    ensures LastCount(lines, kind) == 0
  {
    if lines != [] {
      var init := lines[..|lines| - 1];
      assert forall i :: 0 <= i < |init| ==> init[i] == lines[i];
      LastCountWithoutKind(init, kind);
    }
  }

  /**
   * The last occurrence wins: when line `i` is the last line of its kind,
   * that counter holds exactly the value written on line `i`.
   */
  lemma {:induction false} LastOccurrenceWins(lines: seq<string>, i: nat, kind: LineKind)
    requires kind != OtherLine && NoBadLine(lines)
    requires i < |lines| && Classify(lines[i]) == kind
    requires forall j :: i < j < |lines| ==> Classify(lines[j]) != kind
    ensures LastCount(lines, kind) == CounterValue(lines[i]).value
    decreases |lines|
  {
    if i < |lines| - 1 {
      var init := lines[..|lines| - 1];
      assert forall j :: 0 <= j < |init| ==> init[j] == lines[j];
      LastOccurrenceWins(init, i, kind);
    }
  }

  lemma NoBadLineAppend(lines: seq<string>, line: string)
    requires NoBadLine(lines) && !IsBadLine(line)
    ensures NoBadLine(lines + [line])
    ensures FirstBadLine(lines + [line]) == |lines| + 1
  {
    var all := lines + [line];
    forall j | 0 <= j < |all|
      ensures !IsBadLine(all[j])
    {
      if j < |lines| {
        assert all[j] == lines[j];
      }
    }
  }

  /**
   * A line changes at most its own counter: a `KILLED:` line sets `killed`
   * (assigned, never added), a `SURVIVED:` line sets `survived`, any other
   * line changes nothing.
   */
  lemma ReadOneMoreLine(lines: seq<string>, line: string, c: Counts)
    requires ParseCache(lines) == Ok(c)
    requires !IsBadLine(line)
    ensures ParseCache(lines + [line]) ==
      match Classify(line)
      case KilledLine => Ok(Counts(CounterValue(line).value, c.survived))
      case SurvivedLine => Ok(Counts(c.killed, CounterValue(line).value))
      case OtherLine => Ok(c)
  {
    var all := lines + [line];
    assert FirstBadLine(lines) == |lines|;
    assert lines[..|lines|] == lines;
    NoBadLineAppend(lines, line);
    assert all[..|all| - 1] == lines;
    assert all[|all| - 1] == line;
  }

  /** A bad counter line after a clean prefix makes the whole read fail at that line. */
  lemma BadLineFails(lines: seq<string>, line: string, rest: seq<string>)
    requires NoBadLine(lines) && IsBadLine(line)
    ensures ParseCache(lines + [line] + rest) == Err(|lines|)
  {
    var all := lines + [line] + rest;
    assert forall j :: 0 <= j < |lines| ==> all[j] == lines[j];
    assert all[|lines|] == line;
    FirstBadLineAt(all, |lines|);
  }

  /** The counter's text is what follows the prefix up to the next colon, stripped and parsed by `int()`. */
  lemma CounterValueAfterPrefix(rest: string)
    ensures Classify(KilledPrefix + rest) == KilledLine
    ensures CounterValue(KilledPrefix + rest) == ParseInt(Strip(Split(rest, ':')[0]))
    ensures Classify(SurvivedPrefix + rest) == SurvivedLine
    ensures CounterValue(SurvivedPrefix + rest) == ParseInt(Strip(Split(rest, ':')[0]))
  {
    KilledLineShape(rest);
    SurvivedLineShape(rest);
  }

  lemma KilledLineShape(rest: string)
    ensures Classify(KilledPrefix + rest) == KilledLine
    ensures Split(KilledPrefix + rest, ':')[1] == Split(rest, ':')[0]
  {
    assert (KilledPrefix + rest)[..|KilledPrefix|] == KilledPrefix;
    assert (KilledPrefix + rest)[0] == 'K';
    assert KilledPrefix[..|KilledPrefix| - 1] == "KILLED";
    SplitAfterPrefix(KilledPrefix, rest, ':');
  }

  lemma SurvivedLineShape(rest: string)
    ensures Classify(SurvivedPrefix + rest) == SurvivedLine
    ensures Split(SurvivedPrefix + rest, ':')[1] == Split(rest, ':')[0]
  {
    assert (SurvivedPrefix + rest)[..|SurvivedPrefix|] == SurvivedPrefix;
    assert SurvivedPrefix[..|SurvivedPrefix| - 1] == "SURVIVED";
    SplitAfterPrefix(SurvivedPrefix, rest, ':');
  }

  /** `KILLED:` with nothing after it makes `int('')` raise. */
  lemma EmptyCounterIsError()
    ensures ParseCache([KilledPrefix]) == Err(0)
  {
    EmptyCounterIsBad();
    BadLineFails([], KilledPrefix, []);
    assert [] + [KilledPrefix] + [] == [KilledPrefix];
  }

  lemma EmptyCounterIsBad()
    ensures IsBadLine(KilledPrefix)
  {
    KilledLineShape("");
    assert KilledPrefix + "" == KilledPrefix;
    SplitFirstPart("", ':', "");
    assert Strip("") == "";
  }

  /**
   * A counter written as `KILLED: <n>` reads back as n, whatever follows a
   * further colon.
   */
  lemma CounterOfWrittenNumber(n: int, rest: string)
    requires rest == [] || rest[0] == ':'
    ensures Classify(KilledPrefix + " " + ShowInt(n) + rest) == KilledLine
    ensures CounterValue(KilledPrefix + " " + ShowInt(n) + rest) == Some(n)
  {
    var field := " " + ShowInt(n);
    assert KilledPrefix + " " + ShowInt(n) + rest == KilledPrefix + field + rest;
    NoColonInWritten(n);
    KilledCounterOf(field, rest);
    WrittenNumberParses(n);
  }

  /** On a `KILLED:` line the counter is the stripped text up to the next colon. */
  lemma KilledCounterOf(field: string, rest: string)
    requires ':' !in field && (rest == [] || rest[0] == ':')
    ensures Classify(KilledPrefix + field + rest) == KilledLine
    ensures CounterValue(KilledPrefix + field + rest) == ParseInt(Strip(field))
  {
    var t := field + rest;
    assert KilledPrefix + field + rest == KilledPrefix + t;
    KilledLineShape(t);
    SplitFirstField(field, rest, ':');
  }

  lemma NoColonInWritten(n: int)
    ensures ':' !in " " + ShowInt(n)
  {
    ShowIntChars(n);
  }

  lemma WrittenNumberParses(n: int)
    ensures ParseInt(Strip(" " + ShowInt(n))) == Some(n)
  {
    ParseIntStripped(" " + ShowInt(n));
    ParseSpacedShow(n);
  }

  /** The lines mutmut writes, `KILLED: <n>` and `SURVIVED: <n>`, are good counter lines of their kind. */
  lemma WrittenCounterLines(n: int)
    ensures Classify(KilledPrefix + " " + ShowInt(n)) == KilledLine
    ensures CounterValue(KilledPrefix + " " + ShowInt(n)) == Some(n)
    ensures Classify(SurvivedPrefix + " " + ShowInt(n)) == SurvivedLine
    ensures CounterValue(SurvivedPrefix + " " + ShowInt(n)) == Some(n)
  {
    WrittenKilledLine(n);
    WrittenSurvivedLine(n);
  }

  lemma WrittenKilledLine(n: int)
    ensures Classify(KilledPrefix + " " + ShowInt(n)) == KilledLine
    ensures CounterValue(KilledPrefix + " " + ShowInt(n)) == Some(n)
  {
    var a := " " + ShowInt(n);
    assert KilledPrefix + " " + ShowInt(n) == KilledPrefix + a;
    KilledLineShape(a);
    NumberFieldParses(n);
  }

  lemma WrittenSurvivedLine(n: int)
    ensures Classify(SurvivedPrefix + " " + ShowInt(n)) == SurvivedLine
    ensures CounterValue(SurvivedPrefix + " " + ShowInt(n)) == Some(n)
  {
    var a := " " + ShowInt(n);
    assert SurvivedPrefix + " " + ShowInt(n) == SurvivedPrefix + a;
    SurvivedLineShape(a);
    NumberFieldParses(n);
  }

  lemma NumberFieldParses(n: int)
    ensures ParseInt(Strip(Split(" " + ShowInt(n), ':')[0])) == Some(n)
  {
    var a := " " + ShowInt(n);
    ShowIntChars(n);
    assert ':' !in a;
    SplitFirstPart(a, ':', []);
    WrittenNumberParses(n);
  }

  /** `KILLED: 7:x` gives 7: the text after a second colon is ignored. */
  lemma SecondColonIgnored()
    ensures CounterValue("KILLED: 7:x") == Some(7)
  {
    CounterOfWrittenNumber(7, ":x");
    assert ShowInt(7) == "7";
    assert KilledPrefix + " " + "7" + ":x" == "KILLED: 7:x";
  }

  /** A sign is accepted: `KILLED: -3` sets killed to -3. */
  lemma NegativeCounter()
    ensures CounterValue("KILLED: -3") == Some(-3)
  {
    CounterOfWrittenNumber(-3, "");
    MinusThreeLine();
  }

  lemma MinusThreeLine()
    ensures KilledPrefix + " " + ShowInt(-3) + "" == "KILLED: -3"
  {
    assert ShowInt(-3) == "-3";
  }

  /** The prefix test is case-sensitive and anchored at column 0. */
  lemma PrefixIsExact()
    ensures Classify("killed: 3") == OtherLine
    ensures Classify(" KILLED: 3") == OtherLine
    ensures Classify("survived: 3") == OtherLine
  {
    FirstCharNotCounter("killed: 3");
    FirstCharNotCounter(" KILLED: 3");
    FirstCharNotCounter("survived: 3");
  }

  /** A line that starts with neither `S` nor `K` is not a counter line. */
  lemma FirstCharNotCounter(line: string)
    requires line != [] && line[0] != 'S' && line[0] != 'K'
    ensures Classify(line) == OtherLine
  {
    assert SurvivedPrefix[0] == 'S' && KilledPrefix[0] == 'K';
  }
}

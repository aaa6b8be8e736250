/** What the reference CPU verifier measures: raw cgroup texts, the comparison of
    quotas and the counters' increase (adjudication.py, _quota to observations). */
module CpuEvidence {
  import opened Results
  import opened Text
  import opened TextFields

  /** `cpu.max`: microseconds of CPU time allowed in each period. */
  datatype Quota = Quota(micros: nat, period: nat)

  datatype Counts = Counts(periods: nat, throttled: nat, micros: nat)

  type Counters = map<string, nat>

  const PERIODS := "nr_periods"
  const THROTTLED := "nr_throttled"
  const THROTTLED_MICROS := "throttled_usec"

  datatype Measurements = Measurements(
    target: string,
    baselineCpuMax: string,
    activeCpuMax: string,
    beforeCpuStat: string,
    afterCpuStat: string)

  datatype Observations = Observations(
    target: string,
    baseline: Quota,
    active: Quota,
    before: Counts,
    after: Counts,
    faultObserved: bool,
    healthyObserved: bool)

  /** Two positive decimal numerals; `max` and anything else is refused. */
  function ParseQuota(text: string): Result<Quota> {
    var fields := Words(text);
    :- Need(|fields| == 2 && AllDigits(fields[0]) && AllDigits(fields[1]));
    var quota := Quota(Value(fields[0]), Value(fields[1]));
    :- Need(quota.micros > 0 && quota.period > 0);
    Ok(quota)
  }

  /** The counters of some lines, each a new name and a decimal numeral. */
  function ParseCounters(lines: seq<string>): Result<Counters> {
    if lines == [] then Ok(map[]) else
      var n := |lines| - 1;
      var earlier :- ParseCounters(lines[..n]);
      var fields := Words(lines[n]);
      :- Need(|fields| == 2 && AllDigits(fields[1]));
      :- Need(fields[0] !in earlier);
      Ok(earlier[fields[0] := Value(fields[1])])
  }

  predicate Complete(c: Counters) {
    PERIODS in c && THROTTLED in c && THROTTLED_MICROS in c && c[THROTTLED] <= c[PERIODS]
  }

  function CountsOf(c: Counters): Counts
    requires Complete(c)
  {
    Counts(c[PERIODS], c[THROTTLED], c[THROTTLED_MICROS])
  }

  function ParseStat(text: string): Result<Counts> {
    if Blank(text) then Err else
      var counters :- ParseCounters(Lines(text));
      :- Need(Complete(counters));
      Ok(CountsOf(counters))
  }

  lemma {:induction false} CountersErrorStays(lines: seq<string>, k: nat)
    requires k <= |lines| && ParseCounters(lines[..k]).Err?
    ensures ParseCounters(lines).Err?
    decreases |lines|
  {
    if k == |lines| {
      assert lines[..k] == lines;
    } else {
      assert lines[..|lines| - 1][..k] == lines[..k];
      CountersErrorStays(lines[..|lines| - 1], k);
    }
  }

  /** The line-by-line reader. */
  method ReadStat(text: string) returns (r: Result<Counts>)
    ensures r == ParseStat(text)
  {
    if Blank(text) {
      return Err;
    }
    var lines, counters := Lines(text), map[];
    for i := 0 to |lines|
      invariant ParseCounters(lines[..i]) == Ok(counters)
    {
      assert lines[..i + 1][..i] == lines[..i];
      var fields := Words(lines[i]);
      if |fields| != 2 || !AllDigits(fields[1]) || fields[0] in counters {
        CountersErrorStays(lines, i + 1);
        return Err;
      }
      counters := counters[fields[0] := Value(fields[1])];
    }
    assert lines[..|lines|] == lines;
    if !Complete(counters) {
      return Err;
    }
    return Ok(CountsOf(counters));
  }

  predicate Increased(before: Counts, after: Counts) {
    after.throttled > before.throttled && after.micros > before.micros
  }

  predicate Unchanged(before: Counts, after: Counts) {
    after.throttled == before.throttled && after.micros == before.micros
  }

  /** The counters ran over a nonempty window and never fell. */
  predicate ValidWindow(before: Counts, after: Counts) {
    && after.periods > before.periods && after.throttled >= before.throttled && after.micros >= before.micros
    && after.throttled - before.throttled <= after.periods - before.periods
  }

  /** The measurements as the packet shows them. Quotas are compared by cross
      multiplication. */
  function Measured(m: Measurements, target: string, frozenCpuMax: string): Result<Observations> {
    if m.target != target then Err else
    var baseline :- ParseQuota(m.baselineCpuMax);
    var active :- ParseQuota(m.activeCpuMax);
    var frozen :- ParseQuota(frozenCpuMax);
    :- Need(baseline == frozen);
    var before :- ParseStat(m.beforeCpuStat);
    var after :- ParseStat(m.afterCpuStat);
    :- Need(ValidWindow(before, after));
    var comparison := active.micros * baseline.period - baseline.micros * active.period;
    Ok(Observations(target, baseline, active, before, after,
                    comparison < 0 && Increased(before, after),
                    comparison == 0 && Unchanged(before, after)))
  }

  /** The share of a processor a quota allows. */
  function Cores(q: Quota): real
    requires q.period > 0
  {
    q.micros as real / q.period as real
  }

  lemma CrossMultiplied(a: Quota, b: Quota)
    requires a.period > 0 && b.period > 0
    ensures Cores(a) < Cores(b) <==> a.micros * b.period < b.micros * a.period
    ensures Cores(a) == Cores(b) <==> a.micros * b.period == b.micros * a.period
  {
    var x, y := a.period as real, b.period as real;
    assert Cores(a) * x == a.micros as real && Cores(b) * y == b.micros as real;
    assert (a.micros * b.period) as real == (Cores(a) * x) * y == Cores(a) * (x * y);
    assert (b.micros * a.period) as real == (Cores(b) * y) * x == Cores(b) * (x * y);
    Scaled(Cores(a), Cores(b), x * y);
  }

  lemma Scaled(a: real, b: real, k: real)
    requires k > 0.0
    ensures a < b <==> a * k < b * k
    ensures a == b <==> a * k == b * k
  {
  }

  /** A fault is a smaller share of the processor with more throttling; health is
      the same share and none. They exclude each other. */
  lemma ObservedMeaning(m: Measurements, target: string, frozenCpuMax: string)
    requires Measured(m, target, frozenCpuMax).Ok?
    ensures var o := Measured(m, target, frozenCpuMax).value;
      && o.active.period > 0 && o.baseline.period > 0 && o.target == m.target
      && ParseQuota(frozenCpuMax) == Ok(o.baseline)
      && (o.faultObserved <==> Cores(o.active) < Cores(o.baseline) && Increased(o.before, o.after))
      && (o.healthyObserved <==> Cores(o.active) == Cores(o.baseline) && Unchanged(o.before, o.after))
      && !(o.faultObserved && o.healthyObserved)
  {
    hide ParseStat;
    var o := Measured(m, target, frozenCpuMax).value;
    CrossMultiplied(o.active, o.baseline);
  }

  // Reading back what the kernel writes

  /** Every finite quota survives being written and read. */
  lemma QuotaRoundTrip(q: Quota)
    requires q.micros > 0 && q.period > 0
    ensures ParseQuota(Decimal(q.micros) + " " + Decimal(q.period)) == Ok(q)
  {
    DecimalIsWord(q.micros);
    DecimalIsWord(q.period);
    WordsOfPair(Decimal(q.micros), Decimal(q.period));
    DecimalValue(q.micros);
    DecimalValue(q.period);
  }

  function StatLines(entries: seq<(string, nat)>): seq<string> {
    seq(|entries|, i requires 0 <= i < |entries| => entries[i].0 + " " + Decimal(entries[i].1))
  }

  function Counted(entries: seq<(string, nat)>): Counters {
    if entries == [] then map[]
    else
      var n := |entries| - 1;
      Counted(entries[..n])[entries[n].0 := entries[n].1]
  }

  predicate CounterNames(entries: seq<(string, nat)>) {
    && (forall e | e in entries :: IsWord(e.0))
    && forall i, j | 0 <= i < j < |entries| :: entries[i].0 != entries[j].0
  }

  lemma {:induction false} CountedNames(entries: seq<(string, nat)>)
    ensures forall name :: name in Counted(entries) <==> exists e | e in entries :: e.0 == name
  {
    if entries != [] {
      var n := |entries| - 1;
      CountedNames(entries[..n]);
      assert entries == entries[..n] + [entries[n]];
    }
  }

  lemma {:induction false} CountersRoundTrip(entries: seq<(string, nat)>)
    requires CounterNames(entries)
    ensures ParseCounters(StatLines(entries)) == Ok(Counted(entries))
  {
    if entries != [] {
      var n := |entries| - 1;
      var (name, value) := entries[n];
      assert StatLines(entries)[..n] == StatLines(entries[..n]);
      assert entries[n] in entries;
      CountersRoundTrip(entries[..n]);
      CountedNames(entries[..n]);
      DecimalIsWord(value);
      WordsOfPair(name, Decimal(value));
      DecimalValue(value);
    }
  }

  /** A counter file, written one counter a line, is read back exactly, in
      whatever order and with whatever further counters it is written. */
  lemma StatRoundTrip(entries: seq<(string, nat)>)
    requires CounterNames(entries) && Complete(Counted(entries))
    ensures ParseStat(Unlines(StatLines(entries))) == Ok(CountsOf(Counted(entries)))
  {
    hide Complete;
    CountersRoundTrip(entries);
    forall i | 0 <= i < |entries|
      ensures OneLine(StatLines(entries)[i])
    {
      assert entries[i] in entries;
      DecimalIsWord(entries[i].1);
    }
    LinesOfUnlines(StatLines(entries));
    NotBlank(entries);
  }

  lemma NotBlank(entries: seq<(string, nat)>)
    requires CounterNames(entries) && Complete(Counted(entries))
    ensures !Blank(Unlines(StatLines(entries)))
  {
    CountedNames(entries);
    hide Counted;
    var text := Unlines(StatLines(entries));
    assert entries[0] in entries;
    assert text[0] == entries[0].0[0];
    BlankIsSpace(text);
  }
}

/** Fitted CPU limits and the verdict that they never bound (cpu_limits.py,
    fit_limit and verdict_from_readings). */
module CpuLimits {
  import opened Results
  import opened Text
  import opened CpuDemand
  import opened DemandProperties
  import opened Numbers

  const MULTIPLIER := 2.0
  const FLOOR_CORES := 8.0

  /** Twice the peak or the floor, rounded up to hundredths. */
  function FitLimit(peak: real): Result<real> {
    if peak < 0.0 then Err
    else Ok(Ceiling(Larger(MULTIPLIER * peak, FLOOR_CORES) * 100.0) as real / 100.0)
  }

  /** A fitted limit covers its rule, by less than a hundredth, and grows with the peak. */
  lemma FittedCovers(peak: real, higher: real)
    requires 0.0 <= peak <= higher
    ensures FitLimit(peak).Ok? && FitLimit(higher).Ok?
    ensures var rule, limit := Larger(MULTIPLIER * peak, FLOOR_CORES), FitLimit(peak).value;
      rule <= limit < rule + 0.01 && limit <= FitLimit(higher).value
  {
  }

  /** A limit fitted to a measured service's peak is at least twice its mean. */
  lemma LimitCoversMean(service: string, samples: seq<Sample>, interval: real)
    ensures var d := DemandOf(service, TallyOf(samples, interval));
      FitLimit(d.peakCores).Ok? && FitLimit(d.peakCores).value >= 2.0 * d.meanCores
  {
    MeanAtMostPeak(service, samples, interval);
    var d := DemandOf(service, TallyOf(samples, interval));
    FittedCovers(d.peakCores, d.peakCores);
  }

  // The throttling verdict

  datatype ThrottleReading = ThrottleReading(periods: int, throttled: int, micros: int, quota: Option<real>)

  datatype Entry = Entry(service: string, periods: int, throttled: int, micros: int, quota: Option<real>,
                         cumulative: int)

  datatype Fault = NothingExpected | Decreased(service: string) | QuotaDiffers(service: string)

  datatype Missing = Unread(service: string) | NotFitted(service: string)

  type Readings = map<string, ThrottleReading>

  datatype Verdict = Verdict(
    services: seq<Entry>,
    unmeasured: seq<string>,
    missing: seq<Missing>,
    bound: seq<string>,
    faults: seq<Fault>)
  {
    predicate Accepted() {
      faults == [] && unmeasured == [] && missing == [] && bound == []
    }
  }

  datatype Window = Window(before: Readings, after: Readings, expected: map<string, real>)

  predicate Read(w: Window, name: string) {
    name in w.before && name in w.after
  }

  predicate Falls(w: Window, name: string) {
    Read(w, name)
      && (w.after[name].throttled < w.before[name].throttled || w.after[name].micros < w.before[name].micros)
  }

  predicate QuotaOff(w: Window, name: string)
    requires name in w.expected
  {
    Read(w, name) && (w.before[name].quota != Some(w.expected[name]) || w.after[name].quota != Some(w.expected[name]))
  }

  predicate Idle(w: Window, name: string) {
    Read(w, name) && w.after[name].periods <= w.before[name].periods
  }

  predicate Throttled(w: Window, name: string) {
    Read(w, name) && w.after[name].throttled > 0
  }

  function EntryOf(w: Window, name: string): Entry
    requires Read(w, name)
  {
    var a, b := w.before[name], w.after[name];
    Entry(name, b.periods - a.periods, b.throttled - a.throttled, b.micros - a.micros, b.quota, b.throttled)
  }

  /** One more fitted service. */
  function NextVerdict(w: Window, v: Verdict, name: string): Verdict
    requires name in w.expected
  {
    if !Read(w, name) then v.(missing := v.missing + [Unread(name)])
    else
      Verdict(
        v.services + [EntryOf(w, name)],
        v.unmeasured + (if Idle(w, name) then [name] else []),
        v.missing,
        v.bound + (if Throttled(w, name) then [name] else []),
        v.faults + (if Falls(w, name) then [Decreased(name)] else [])
          + (if QuotaOff(w, name) then [QuotaDiffers(name)] else []))
  }

  function VerdictOver(w: Window, names: seq<string>): Verdict
    requires forall n | n in names :: n in w.expected
  {
    if names == [] then Verdict([], [], [], [], if w.expected == map[] then [NothingExpected] else [])
    else NextVerdict(w, VerdictOver(w, names[..|names| - 1]), names[|names| - 1])
  }

  function Unfitted(names: seq<string>): (r: seq<Missing>)
    ensures |r| == |names|
  {
    seq(|names|, i requires 0 <= i < |names| => NotFitted(names[i]))
  }

  /** The whole verdict: the fitted services in name order, then what was not fitted. */
  function VerdictFor(w: Window): Verdict {
    var fitted := VerdictOver(w, SortedNames(w.expected.Keys));
    fitted.(missing := fitted.missing + Unfitted(SortedNames(w.after.Keys - w.expected.Keys)))
  }

  method JudgeService(w: Window, start: Verdict, name: string) returns (v: Verdict)
    requires name in w.expected
    ensures v == NextVerdict(w, start, name)
  {
    v := start;
    if !Read(w, name) {
      return v.(missing := v.missing + [Unread(name)]);
    }
    if Falls(w, name) {
      v := v.(faults := v.faults + [Decreased(name)]);
    }
    if QuotaOff(w, name) {
      v := v.(faults := v.faults + [QuotaDiffers(name)]);
    }
    var entry := EntryOf(w, name);
    v := v.(services := v.services + [entry]);
    if entry.periods <= 0 {
      v := v.(unmeasured := v.unmeasured + [name]);
    }
    if entry.cumulative > 0 {
      v := v.(bound := v.bound + [name]);
    }
  }

  method VerdictFromReadings(w: Window) returns (v: Verdict)
    ensures v == VerdictFor(w)
  {
    hide NextVerdict;
    v := Verdict([], [], [], [], if w.expected == map[] then [NothingExpected] else []);
    var names := SortedNames(w.expected.Keys);
    for i := 0 to |names|
      invariant v == VerdictOver(w, names[..i])
    {
      assert names[..i + 1][..i] == names[..i] && names[i] in names;
      v := JudgeService(w, v, names[i]);
    }
    assert names[..|names|] == names;
    var extra := SortedNames(w.after.Keys - w.expected.Keys);
    v := AddUnfitted(v, extra);
  }

  method AddUnfitted(start: Verdict, extra: seq<string>) returns (v: Verdict)
    ensures v == start.(missing := start.missing + Unfitted(extra))
  {
    v := start;
    for i := 0 to |extra|
      invariant v == start.(missing := start.missing + Unfitted(extra[..i]))
    {
      v := v.(missing := v.missing + [NotFitted(extra[i])]);
    }
    assert extra[..|extra|] == extra;
  }

  /** A service that was read at both ends, never throttled since it started, with
      its fitted quota, over a window the scheduler accounted. */
  predicate Clean(w: Window, name: string)
    requires name in w.expected
  {
    && Read(w, name)
    && w.after[name].throttled <= 0
    && w.after[name].throttled >= w.before[name].throttled && w.after[name].micros >= w.before[name].micros
    && w.before[name].quota == Some(w.expected[name]) && w.after[name].quota == Some(w.expected[name])
    && w.after[name].periods > w.before[name].periods
  }

  lemma {:induction false} FittedAccepted(w: Window, names: seq<string>)
    requires forall n | n in names :: n in w.expected
    ensures VerdictOver(w, names).Accepted() <==> w.expected != map[] && forall n | n in names :: Clean(w, n)
  {
    if names != [] {
      var k := |names| - 1;
      FittedAccepted(w, names[..k]);
      assert names == names[..k] + [names[k]];
      CleanService(w, VerdictOver(w, names[..k]), names[k]);
    }
  }

  lemma CleanService(w: Window, v: Verdict, name: string)
    requires name in w.expected
    ensures NextVerdict(w, v, name).Accepted() <==> v.Accepted() && Clean(w, name)
  {
  }

  /** The verdict is accepted exactly when something was fitted, every fitted service
      is clean, and nothing else was running. */
  lemma AcceptedExactly(w: Window)
    ensures VerdictFor(w).Accepted() <==>
      w.expected != map[] && w.after.Keys <= w.expected.Keys && forall n | n in w.expected :: Clean(w, n)
  {
    hide Clean, VerdictOver;
    var names, extra := SortedNames(w.expected.Keys), SortedNames(w.after.Keys - w.expected.Keys);
    FittedAccepted(w, names);
    NothingExtra(w, extra);
    assert forall n :: n in names <==> n in w.expected;
  }

  lemma NothingExtra(w: Window, extra: seq<string>)
    requires forall n :: n in extra <==> n in w.after.Keys - w.expected.Keys
    ensures extra == [] <==> w.after.Keys <= w.expected.Keys
  {
    assert extra != [] ==> extra[0] in extra;
    assert forall n | n in w.after.Keys && n !in w.expected.Keys :: n in w.after.Keys - w.expected.Keys;
  }
}

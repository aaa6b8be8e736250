/** The load the generator offered: rates between counter readings, the fitted band
    and the verdicts over a window (offered_load.py). */
module OfferedLoads {
  import opened Results
  import opened Sequences
  import opened LoadStatistics
  import CpuLimits

  const MIN_WINDOW_SECONDS := 30.0
  const MIN_FIT_SAMPLES := 5
  const BAND_FRACTION := 0.2

  function Running(): string { "running" }

  function LoadService(): string { "load-generator" }

  datatype Reading = Reading(clock: real, requests: int, failures: int, users: int, state: string)

  datatype Achieved = Achieved(requests: int, failures: int, elapsed: real, rate: real, failureRatio: real,
                               users: int, state: string)

  datatype Band = Band(hostClass: string, target: real, fraction: real, expectedUsers: int) {
    function Low(): real { target * (1.0 - fraction) }

    function High(): real { target * (1.0 + fraction) }

    predicate Admits(rate: real) {
      Low() <= rate <= High()
    }
  }

  datatype Reason =
    | OutOfBand | ShortWindow | NotRunning | WrongUsers | NoRequests | GeneratorThrottled

  datatype Verdict = Verdict(achieved: Achieved, inBand: bool, scored: bool, reasons: seq<Reason>)

  /** Two readings as a rate; a counter that fell means a restarted generator. */
  function AchievedBetween(first: Reading, second: Reading): Result<Achieved> {
    if second.clock <= first.clock || second.requests < first.requests || second.failures < first.failures then Err
    else
      var elapsed, delta, failures := second.clock - first.clock, second.requests - first.requests,
        second.failures - first.failures;
      Ok(Achieved(delta, failures, elapsed, delta as real / elapsed,
                  if delta != 0 then failures as real / delta as real else 0.0, second.users, second.state))
  }

  function Also(reasons: seq<Reason>, applies: bool, reason: Reason): seq<Reason> {
    if applies then reasons + [reason] else reasons
  }

  /** Every reason a healthy cycle's window may not be scored, in order. */
  function HealthyReasons(a: Achieved, band: Band, minWindow: real): seq<Reason> {
    var outside := Also([], !band.Admits(a.rate), OutOfBand);
    var short := Also(outside, a.elapsed < minWindow, ShortWindow);
    var stopped := Also(short, a.state != Running(), NotRunning);
    var users := Also(stopped, a.users != band.expectedUsers, WrongUsers);
    Also(users, a.requests == 0, NoRequests)
  }

  method EvaluateOfferedLoad(a: Achieved, band: Band, minWindow: real) returns (v: Verdict)
    ensures var reasons := HealthyReasons(a, band, minWindow);
      v == Verdict(a, band.Admits(a.rate), reasons == [], reasons)
  {
    var reasons: seq<Reason> := [];
    var inBand := band.Low() <= a.rate <= band.High();
    if !inBand {
      reasons := reasons + [OutOfBand];
    }
    if a.elapsed < minWindow {
      reasons := reasons + [ShortWindow];
    }
    if a.state != Running() {
      reasons := reasons + [NotRunning];
    }
    if a.users != band.expectedUsers {
      reasons := reasons + [WrongUsers];
    }
    if a.requests == 0 {
      reasons := reasons + [NoRequests];
    }
    return Verdict(a, inBand, reasons == [], reasons);
  }

  predicate CleanGenerator(v: CpuLimits.Verdict) {
    v.Accepted() && (set e | e in v.services :: e.service) == {LoadService()}
  }

  function IncidentReasons(first: Reading, second: Reading, a: Achieved, users: int,
                           generator: CpuLimits.Verdict): seq<Reason> {
    var wrong := Also([], users <= 0 || first.users != users || second.users != users, WrongUsers);
    var stopped := Also(wrong, first.state != Running() || second.state != Running(), NotRunning);
    var short := Also(stopped, a.elapsed < MIN_WINDOW_SECONDS, ShortWindow);
    var idle := Also(short, a.requests <= 0, NoRequests);
    Also(idle, !CleanGenerator(generator), GeneratorThrottled)
  }

  method EvaluateIncidentLoad(first: Reading, second: Reading, users: int, generator: CpuLimits.Verdict)
    returns (r: Result<(Achieved, seq<Reason>)>)
    ensures r.Ok? <==> AchievedBetween(first, second).Ok?
    ensures r.Ok? ==>
      var a := AchievedBetween(first, second).value;
      r.value == (a, IncidentReasons(first, second, a, users, generator))
  {
    var achieved := AchievedBetween(first, second);
    if achieved.Err? {
      return Err;
    }
    var reasons: seq<Reason> := [];
    if users <= 0 || first.users != users || second.users != users {
      reasons := reasons + [WrongUsers];
    }
    if first.state != Running() || second.state != Running() {
      reasons := reasons + [NotRunning];
    }
    if achieved.value.elapsed < MIN_WINDOW_SECONDS {
      reasons := reasons + [ShortWindow];
    }
    if achieved.value.requests <= 0 {
      reasons := reasons + [NoRequests];
    }
    if !CleanGenerator(generator) {
      reasons := reasons + [GeneratorThrottled];
    }
    return Ok((achieved.value, reasons));
  }

  function Distance(x: real, y: real): real {
    if x >= y then x - y else y - x
  }

  /** A band admits the rates whose distance from the target is at most the fraction
      of it. */
  lemma BandWidth(band: Band, rate: real)
    ensures band.Admits(rate) <==> Distance(rate, band.target) <= band.fraction * band.target
  {
    assert band.Low() == band.target - band.fraction * band.target;
    assert band.High() == band.target + band.fraction * band.target;
  }

  /** Each reason a healthy window is refused, in the fields it is decided on. */
  lemma HealthyExactly(a: Achieved, band: Band, minWindow: real)
    ensures var reasons := HealthyReasons(a, band, minWindow);
      && (OutOfBand in reasons <==> Distance(a.rate, band.target) > band.fraction * band.target)
      && (ShortWindow in reasons <==> a.elapsed < minWindow)
      && (NotRunning in reasons <==> a.state != "running")
      && (WrongUsers in reasons <==> a.users != band.expectedUsers)
      && (NoRequests in reasons <==> a.requests == 0)
      && GeneratorThrottled !in reasons
  {
    hide Band.Admits;
    BandWidth(band, a.rate);
  }

  /** Each reason a window of an incident is refused: both of its readings count. */
  lemma IncidentExactly(first: Reading, second: Reading, users: int, generator: CpuLimits.Verdict)
    requires AchievedBetween(first, second).Ok?
    ensures var reasons := IncidentReasons(first, second, AchievedBetween(first, second).value, users, generator);
      && (WrongUsers in reasons <==> users <= 0 || first.users != users || second.users != users)
      && (NotRunning in reasons <==> first.state != "running" || second.state != "running")
      && (ShortWindow in reasons <==> second.clock - first.clock < 30.0)
      && (NoRequests in reasons <==> second.requests == first.requests)
      && (GeneratorThrottled in reasons <==>
            !generator.Accepted() || (set e | e in generator.services :: e.service) != {"load-generator"})
      && OutOfBand !in reasons
  {
    hide CpuLimits.Verdict.Accepted;
  }

  /** What two readings achieved: the differences of the counters over the time
      between them, and the share of the new requests that failed. */
  lemma AchievedExactly(first: Reading, second: Reading)
    ensures AchievedBetween(first, second).Ok? <==>
      first.clock < second.clock && first.requests <= second.requests && first.failures <= second.failures
    ensures AchievedBetween(first, second).Ok? ==>
      var a := AchievedBetween(first, second).value;
      && first.requests + a.requests == second.requests && first.failures + a.failures == second.failures
      && first.clock + a.elapsed == second.clock
      && a.rate * a.elapsed == a.requests as real
      && a.failureRatio * a.requests as real == (if a.requests == 0 then 0.0 else a.failures as real)
      && (a.requests == 0 ==> a.failureRatio == 0.0)
      && a.users == second.users && a.state == second.state
  {
  }

  // Adjacent windows

  /** Load is additive over adjacent windows, and the joint rate lies between theirs. */
  lemma AdjacentWindows(a: Reading, b: Reading, c: Reading)
    requires AchievedBetween(a, b).Ok? && AchievedBetween(b, c).Ok?
    ensures AchievedBetween(a, c).Ok?
    ensures var x, y, z := AchievedBetween(a, b).value, AchievedBetween(b, c).value, AchievedBetween(a, c).value;
      && z.requests == x.requests + y.requests && z.failures == x.failures + y.failures
      && z.elapsed == x.elapsed + y.elapsed
      && (x.rate <= z.rate <= y.rate || y.rate <= z.rate <= x.rate)
  {
  }

  /** Two adjacent windows that may both be scored make one that may be scored. */
  lemma HealthyWindowsJoin(a: Reading, b: Reading, c: Reading, band: Band, minWindow: real)
    requires AchievedBetween(a, b).Ok? && AchievedBetween(b, c).Ok?
    requires HealthyReasons(AchievedBetween(a, b).value, band, minWindow) == []
    requires HealthyReasons(AchievedBetween(b, c).value, band, minWindow) == []
    ensures AchievedBetween(a, c).Ok? && HealthyReasons(AchievedBetween(a, c).value, band, minWindow) == []
  {
    AdjacentWindows(a, b, c);
  }

  /** The same for the windows of an incident. */
  lemma IncidentWindowsJoin(a: Reading, b: Reading, c: Reading, users: int, generator: CpuLimits.Verdict)
    requires AchievedBetween(a, b).Ok? && AchievedBetween(b, c).Ok?
    requires IncidentReasons(a, b, AchievedBetween(a, b).value, users, generator) == []
    requires IncidentReasons(b, c, AchievedBetween(b, c).value, users, generator) == []
    ensures AchievedBetween(a, c).Ok? && IncidentReasons(a, c, AchievedBetween(a, c).value, users, generator) == []
  {
  }

  // The fitted band

  /** The middle value, or the mean of the two middle values. */
  function Median(values: seq<real>): real
    requires values != []
  {
    var ordered, half := Sorted(values), |values| / 2;
    if |values| % 2 == 1 then ordered[half] else (ordered[half - 1] + ordered[half]) / 2.0
  }

  function FitBand(samples: seq<real>, hostClass: string, expectedUsers: int, fraction: real,
                   minSamples: nat): Result<Band> {
    if |samples| < minSamples || samples == [] || exists v | v in samples :: v <= 0.0 then Err
    else Ok(Band(hostClass, Median(samples), fraction, expectedUsers))
  }

  /** A band is fitted exactly on enough positive samples, and keeps the host, the users
      and the fraction it was fitted with. */
  lemma FittedExactly(samples: seq<real>, hostClass: string, expectedUsers: int, fraction: real, minSamples: nat)
    ensures var r := FitBand(samples, hostClass, expectedUsers, fraction, minSamples);
      && (r.Ok? <==> |samples| >= minSamples && |samples| > 0 && forall i | 0 <= i < |samples| :: samples[i] > 0.0)
      && (r.Ok? ==> r.value.hostClass == hostClass && r.value.expectedUsers == expectedUsers
                    && r.value.fraction == fraction)
  {
    hide Median;
    assert forall i | 0 <= i < |samples| :: samples[i] in samples;
  }

  /** The samples a band would itself reject. */
  function BandCovers(band: Band, samples: seq<real>): seq<real> {
    if samples == [] then []
    else
      var n := |samples| - 1;
      BandCovers(band, samples[..n]) + if band.Admits(samples[n]) then [] else [samples[n]]
  }

  lemma {:induction false} ConcatBounds(good: seq<real>, bad: seq<real>, lo: real, hi: real)
    requires forall i | 0 <= i < |good| :: lo <= good[i] <= hi
    ensures Count(good + bad, Below(lo)) <= |bad| && Count(good + bad, Above(hi)) <= |bad|
  {
    CountConcat(good, bad, Below(lo));
    CountConcat(good, bad, Above(hi));
    CountAll(good, Below(lo));
    CountAll(good, Above(hi));
  }

  /** A sorted list's element past the values below a bound is at least that bound. */
  lemma PastBelow(s: seq<real>, k: nat, lo: real)
    requires Ascending(s) && k < |s| && Count(s, Below(lo)) <= k
    ensures s[k] >= lo
  {
    hide Count;
    if s[k] < lo {
      CountSplit(s, k + 1, Below(lo));
    }
  }

  lemma BeforeAbove(s: seq<real>, k: nat, hi: real)
    requires Ascending(s) && k < |s| && Count(s, Above(hi)) <= |s| - 1 - k
    ensures s[k] <= hi
  {
  }

  /** The median's breakdown point: when fewer than half of the samples are bad,
      however bad, the fitted target lies within the good ones. */
  lemma FittedWithinGood(samples: seq<real>, good: seq<real>, bad: seq<real>, lo: real, hi: real,
                         hostClass: string, expectedUsers: int, fraction: real, minSamples: nat)
    requires multiset(samples) == multiset(good + bad) && |bad| < |good|
    requires forall i | 0 <= i < |good| :: lo <= good[i] <= hi
    requires FitBand(samples, hostClass, expectedUsers, fraction, minSamples).Ok?
    ensures lo <= FitBand(samples, hostClass, expectedUsers, fraction, minSamples).value.target <= hi
  {
    hide Sorted, Count, Ascending;
    assert |multiset(samples)| == |samples| && |multiset(good + bad)| == |good| + |bad|;
    var ordered, n := Sorted(samples), |samples|;
    ConcatBounds(good, bad, lo, hi);
    CountPermutation(good + bad, ordered, Below(lo));
    CountPermutation(good + bad, ordered, Above(hi));
    assert n % 2 == 0 ==> |bad| <= n / 2 - 1;
    PastBelow(ordered, n / 2, lo);
    BeforeAbove(ordered, n / 2, hi);
    if n % 2 == 0 {
      PastBelow(ordered, n / 2 - 1, lo);
      BeforeAbove(ordered, n / 2 - 1, hi);
    }
  }

  /** `h` copies of a value. */
  function Copies(h: nat, x: real): (r: seq<real>)
    ensures |r| == h && forall i | 0 <= i < h :: r[i] == x
  {
    seq(h, i => x)
  }

  /** Half is too many: as many bad samples as good ones move the target off every good one. */
  lemma HalfBad(h: nat, x: real, y: real, hostClass: string, expectedUsers: int)
    requires h >= MIN_FIT_SAMPLES && 0.0 < x < y
    ensures var samples := Copies(h, x) + Copies(h, y);
      var fitted := FitBand(samples, hostClass, expectedUsers, BAND_FRACTION, MIN_FIT_SAMPLES);
      fitted.Ok? && fitted.value.target == (x + y) / 2.0 > x
  {
    hide Sorted, Count, Ascending;
    var low, high := Copies(h, x), Copies(h, y);
    var samples := low + high;
    var ordered := Sorted(samples);
    forall p: real -> bool
      ensures Count(ordered, p) == (if p(x) then h else 0) + (if p(y) then h else 0)
    {
      CountConcat(low, high, p);
      CountAll(low, p);
      CountAll(high, p);
      CountPermutation(samples, ordered, p);
    }
    PastBelow(ordered, h - 1, x);
    BeforeAbove(ordered, h - 1, x);
    PastBelow(ordered, h, y);
    BeforeAbove(ordered, h, y);
    assert |samples| / 2 == h;
  }

  lemma {:induction false} CoversCount(band: Band, samples: seq<real>)
    ensures BandCovers(band, samples) == [] <==> forall i | 0 <= i < |samples| :: band.Admits(samples[i])
    ensures |BandCovers(band, samples)| <= Count(samples, Below(band.Low())) + Count(samples, Above(band.High()))
  {
    hide Band.Low, Band.High;
    if samples != [] {
      CoversCount(band, samples[..|samples| - 1]);
      assert forall i | 0 <= i < |samples| - 1 :: samples[..|samples| - 1][i] == samples[i];
    }
  }

  /** At most half of the values lie strictly on either side of the median. */
  lemma MedianHalves(samples: seq<real>)
    requires samples != []
    ensures Count(samples, Below(Median(samples))) <= |samples| / 2
    ensures Count(samples, Above(Median(samples))) <= |samples| / 2
  {
    hide Sorted, Count, Median, Ascending;
    var ordered, half, m := Sorted(samples), |samples| / 2, Median(samples);
    var k := if |samples| % 2 == 1 then half else half - 1;
    MedianBetween(samples);
    RankOf(ordered, half);
    RankOf(ordered, k);
    CountImplies(ordered, Below(m), Below(ordered[half]));
    CountImplies(ordered, Above(m), Above(ordered[k]));
    CountPermutation(samples, ordered, Below(m));
    CountPermutation(samples, ordered, Above(m));
  }

  lemma MedianBetween(samples: seq<real>)
    requires samples != []
    ensures var ordered, half := Sorted(samples), |samples| / 2;
      ordered[if |samples| % 2 == 1 then half else half - 1] <= Median(samples) <= ordered[half]
  {
    hide Sorted;
    var ordered, half := Sorted(samples), |samples| / 2;
    assert |samples| % 2 == 0 ==> ordered[half - 1] <= ordered[half];
  }

  /** A fitted band rejects at most half of its own samples on either side. */
  lemma RejectsAtMostHalf(samples: seq<real>, hostClass: string, expectedUsers: int, fraction: real, minSamples: nat)
    requires FitBand(samples, hostClass, expectedUsers, fraction, minSamples).Ok? && fraction >= 0.0
    ensures var band := FitBand(samples, hostClass, expectedUsers, fraction, minSamples).value;
      && Count(samples, Below(band.Low())) <= |samples| / 2
      && Count(samples, Above(band.High())) <= |samples| / 2
  {
    hide Count, Median;
    var band := FitBand(samples, hostClass, expectedUsers, fraction, minSamples).value;
    MedianHalves(samples);
    MedianPositive(samples);
    assert band.target * fraction >= 0.0;
    assert band.Low() <= band.target <= band.High();
    CountImplies(samples, Below(band.Low()), Below(band.target));
    CountImplies(samples, Above(band.High()), Above(band.target));
  }

  lemma MedianPositive(samples: seq<real>)
    requires samples != [] && forall v | v in samples :: v > 0.0
    ensures Median(samples) > 0.0
  {
    hide Sorted;
    var ordered := Sorted(samples);
    forall i | 0 <= i < |ordered|
      ensures ordered[i] > 0.0
    {
      SortedCounts(samples, ordered[i]);
      assert ordered[i] in ordered;
    }
  }
}

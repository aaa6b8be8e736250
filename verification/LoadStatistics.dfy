/** Order statistics over latencies and rates: the nearest-rank percentile, stalls,
    and the fitted load band (load.py and offered_load.py). */
module LoadStatistics {
  import opened Results
  import opened Sequences
  import opened Numbers

  // Sorting and counting

  predicate Ascending(s: seq<real>) {
    forall i, j | 0 <= i < j < |s| :: s[i] <= s[j]
  }

  function Inserted(s: seq<real>, x: real): seq<real> {
    if s == [] || x <= s[0] then [x] + s else [s[0]] + Inserted(s[1..], x)
  }

  lemma {:induction false} InsertedKeeps(s: seq<real>, x: real)
    requires Ascending(s)
    ensures Ascending(Inserted(s, x)) && |Inserted(s, x)| == |s| + 1
    ensures Inserted(s, x)[0] == if s == [] || x <= s[0] then x else s[0]
  {
    if s != [] && x > s[0] {
      InsertedKeeps(s[1..], x);
      AscendingCons(s[0], Inserted(s[1..], x));
    } else {
      AscendingCons(x, s);
    }
  }

  lemma AscendingCons(x: real, s: seq<real>)
    requires Ascending(s)
    ensures s == [] || x <= s[0] ==> Ascending([x] + s)
  {
  }

  lemma {:induction false} InsertedMultiset(s: seq<real>, x: real)
    ensures multiset(Inserted(s, x)) == multiset(s) + multiset{x}
  {
    if s != [] && x > s[0] {
      InsertedMultiset(s[1..], x);
      assert s == [s[0]] + s[1..];
    }
  }

  /** `sorted(values)`. */
  function Sorted(values: seq<real>): (r: seq<real>)
    ensures Ascending(r) && multiset(r) == multiset(values) && |r| == |values|
  {
    if values == [] then []
    else
      var n := |values| - 1;
      assert values == values[..n] + [values[n]];
      InsertedKeeps(Sorted(values[..n]), values[n]);
      InsertedMultiset(Sorted(values[..n]), values[n]);
      Inserted(Sorted(values[..n]), values[n])
  }

  function AtMost(x: real): real -> bool { v => v <= x }

  function Below(x: real): real -> bool { v => v < x }

  function Above(x: real): real -> bool { v => v > x }

  /** When a property holds before position `k` and nowhere after, `k` is its count. */
  lemma CountSplit(s: seq<real>, k: nat, p: real -> bool)
    requires k <= |s|
    ensures (forall i | 0 <= i < k :: p(s[i])) ==> Count(s, p) >= k
    ensures (forall i | k <= i < |s| :: !p(s[i])) ==> Count(s, p) <= k
    ensures (forall i | 0 <= i < k :: !p(s[i])) ==> Count(s, p) <= |s| - k
  {
    hide Count;
    assert s == s[..k] + s[k..];
    CountConcat(s[..k], s[k..], p);
    CountAll(s[..k], p);
    CountAll(s[k..], p);
  }

  /** Where an element of a sorted list stands. */
  lemma RankOf(s: seq<real>, i: nat)
    requires Ascending(s) && i < |s|
    ensures Count(s, AtMost(s[i])) >= i + 1 && Count(s, Below(s[i])) <= i
    ensures Count(s, Above(s[i])) <= |s| - 1 - i
  {
    hide Count;
    CountSplit(s, i + 1, AtMost(s[i]));
    CountSplit(s, i, Below(s[i]));
    CountSplit(s, i + 1, Above(s[i]));
  }

  // The percentile

  function Max(a: int, b: int): int { if a >= b then a else b }

  function Min(a: int, b: int): int { if a <= b then a else b }

  /** ⌈f·n⌉ */
  function NearestRank(fraction: real, n: nat): int {
    Ceiling(fraction * n as real)
  }

  /** Nearest rank: `None` for no values at all, an error for a fraction outside (0, 1]. */
  function Percentile(values: seq<real>, fraction: real): Result<Option<real>> {
    if values == [] then Ok(None)
    else if !(0.0 < fraction <= 1.0) then Err
    else
      var ordered := Sorted(values);
      var rank := Max(1, NearestRank(fraction, |ordered|));
      Ok(Some(ordered[Min(rank, |ordered|) - 1]))
  }

  /** No values have no percentile; otherwise the fraction must lie in (0, 1]. */
  lemma PercentileDefined(values: seq<real>, fraction: real)
    ensures Percentile(values, fraction) == Ok(None) <==> |values| == 0
    ensures Percentile(values, fraction).Err? <==> |values| > 0 && (fraction <= 0.0 || fraction > 1.0)
  {
    hide Sorted, NearestRank;
  }

  lemma RankInRange(fraction: real, n: nat)
    requires 0.0 < fraction <= 1.0 && n > 0
    ensures 1 <= NearestRank(fraction, n) <= n
  {
  }

  lemma SortedCounts(values: seq<real>, x: real)
    ensures Count(values, Below(x)) == Count(Sorted(values), Below(x))
    ensures Count(values, AtMost(x)) == Count(Sorted(values), AtMost(x))
    ensures x in values <==> x in Sorted(values)
  {
    hide Count, Sorted;
    CountPermutation(values, Sorted(values), Below(x));
    CountPermutation(values, Sorted(values), AtMost(x));
    assert x in values <==> x in multiset(values);
  }

  /** At most one value has a given rank. */
  lemma RankUnique(s: seq<real>, rank: int, v: real, p: real)
    requires Count(s, Below(v)) < rank <= Count(s, AtMost(v)) && Count(s, Below(p)) < rank <= Count(s, AtMost(p))
    ensures v == p
  {
    hide Count;
    if v < p {
      CountImplies(s, AtMost(v), Below(p));
    } else if p < v {
      CountImplies(s, AtMost(p), Below(v));
    }
  }

  /** The percentile is the exact order statistic: the one value such that at least
      ⌈f·n⌉ values are at most it and fewer than ⌈f·n⌉ are below it. */
  lemma PercentileExact(values: seq<real>, fraction: real, v: real)
    requires values != [] && 0.0 < fraction <= 1.0
    ensures var rank := NearestRank(fraction, |values|);
      Percentile(values, fraction) == Ok(Some(v)) <==>
        Count(values, Below(v)) < rank && Count(values, AtMost(v)) >= rank && v in values
  {
    hide Sorted, NearestRank, Count;
    var ordered, rank := Sorted(values), NearestRank(fraction, |values|);
    RankInRange(fraction, |values|);
    var p := ordered[rank - 1];
    assert p in ordered;
    RankOf(ordered, rank - 1);
    SortedCounts(values, v);
    SortedCounts(values, p);
    if Count(values, Below(v)) < rank && Count(values, AtMost(v)) >= rank {
      RankUnique(values, rank, v, p);
    }
  }

  lemma RankMonotone(f: real, g: real, n: nat)
    requires f <= g
    ensures NearestRank(f, n) <= NearestRank(g, n)
  {
    assert (g - f) * n as real >= 0.0;
  }

  /** A larger fraction never has a smaller percentile. */
  lemma PercentileMonotone(values: seq<real>, f: real, g: real)
    requires values != [] && 0.0 < f <= g <= 1.0
    ensures Percentile(values, f).Ok? && Percentile(values, f).value.Some?
    ensures Percentile(values, g).Ok? && Percentile(values, g).value.Some?
    ensures Percentile(values, f).value.value <= Percentile(values, g).value.value
  {
    hide Sorted;
    var n := |values|;
    RankInRange(f, n);
    RankInRange(g, n);
    RankMonotone(f, g, n);
    hide NearestRank;
    var a, b := NearestRank(f, n), NearestRank(g, n);
    var ordered := Sorted(values);
    assert a == b || ordered[a - 1] <= ordered[b - 1];
  }

  // Stalls

  function Exceeding(values: seq<real>, threshold: real): seq<real> {
    if values == [] then []
    else Exceeding(values[..|values| - 1], threshold)
         + if values[|values| - 1] > threshold then [values[|values| - 1]] else []
  }

  function Reversed(s: seq<real>): (r: seq<real>)
    ensures |r| == |s| && forall i | 0 <= i < |s| :: r[i] == s[|s| - 1 - i]
  {
    seq(|s|, i requires 0 <= i < |s| => s[|s| - 1 - i])
  }

  datatype Stalls = NoLatencies | Stalls(threshold: real, values: seq<real>)

  /** Latencies strictly above a multiple of their own median, largest first. */
  function DetectStalls(latencies: seq<real>, factor: real): Stalls {
    if latencies == [] then NoLatencies
    else
      var threshold := Percentile(latencies, 0.5).value.value * factor;
      Stalls(threshold, Reversed(Sorted(Exceeding(latencies, threshold))))
  }

  lemma {:induction false} ExceedingCount(values: seq<real>, threshold: real)
    ensures |Exceeding(values, threshold)| == Count(values, Above(threshold))
    ensures forall v :: v in Exceeding(values, threshold) <==> v in values && v > threshold
  {
    if values != [] {
      var n := |values| - 1;
      ExceedingCount(values[..n], threshold);
      assert values == values[..n] + [values[n]];
    }
  }

  lemma ReversedMultiset(s: seq<real>)
    ensures multiset(Reversed(s)) == multiset(s)
  {
    ReversedMembers(s, Reversed(s));
  }

  lemma {:induction false} ReversedMembers(s: seq<real>, r: seq<real>)
    requires |r| == |s| && forall i | 0 <= i < |s| :: r[i] == s[|s| - 1 - i]
    ensures multiset(r) == multiset(s)
    decreases |s|
  {
    if s != [] {
      var n := |s| - 1;
      ReversedMembers(s[..n], r[1..]);
      assert s == s[..n] + [s[n]] && r == [r[0]] + r[1..];
    }
  }

  /** The lower median: fewer than half of the values lie below it, and at least half
      do not lie above it. */
  predicate LowerMedian(values: seq<real>, m: real) {
    m in values && 2 * Count(values, Below(m)) < |values| <= 2 * Count(values, AtMost(m))
  }

  /** The threshold of a nonempty sample is the factor times its lower median; the
      stalls are exactly the latencies strictly above it, each as often as it was
      measured, largest first. */
  lemma StallsExactly(latencies: seq<real>, factor: real)
    ensures latencies == [] ==> DetectStalls(latencies, factor).NoLatencies?
    ensures latencies != [] ==>
      var d := DetectStalls(latencies, factor);
      && d.Stalls?
      && (exists m :: LowerMedian(latencies, m) && d.threshold == m * factor)
      && (forall m | LowerMedian(latencies, m) :: d.threshold == m * factor)
      && (forall v :: multiset(d.values)[v] == if v > d.threshold then multiset(latencies)[v] else 0)
      && forall i, j | 0 <= i < j < |d.values| :: d.values[i] >= d.values[j]
  {
    if latencies != [] {
      hide DetectStalls, LowerMedian;
      StallThreshold(latencies, factor);
      StallValues(latencies, factor);
    }
  }

  lemma StallThreshold(latencies: seq<real>, factor: real)
    requires latencies != []
    ensures var d := DetectStalls(latencies, factor);
      && d.Stalls?
      && (exists m :: LowerMedian(latencies, m) && d.threshold == m * factor)
      && (forall m | LowerMedian(latencies, m) :: d.threshold == m * factor)
  {
    hide LowerMedian, DetectStalls, Percentile, Sorted, Reversed, Exceeding, Count;
    MedianExact(latencies, 0.0);
    var median := Percentile(latencies, 0.5).value.value;
    MedianExact(latencies, median);
    StallsUnfold(latencies, factor, median);
    forall m | LowerMedian(latencies, m)
      ensures m == median
    {
      MedianExact(latencies, m);
    }
  }

  lemma StallValues(latencies: seq<real>, factor: real)
    requires latencies != []
    ensures var d := DetectStalls(latencies, factor);
      && d.Stalls?
      && (forall v :: multiset(d.values)[v] == if v > d.threshold then multiset(latencies)[v] else 0)
      && forall i, j | 0 <= i < j < |d.values| :: d.values[i] >= d.values[j]
  {
    hide DetectStalls, Percentile, Sorted, Reversed, Exceeding, Count;
    MedianExact(latencies, 0.0);
    var median := Percentile(latencies, 0.5).value.value;
    StallsUnfold(latencies, factor, median);
    ValuesExactly(latencies, median * factor);
  }

  lemma StallsUnfold(latencies: seq<real>, factor: real, median: real)
    requires latencies != [] && Percentile(latencies, 0.5) == Ok(Some(median))
    ensures var threshold := median * factor;
      DetectStalls(latencies, factor) == Stalls(threshold, Reversed(Sorted(Exceeding(latencies, threshold))))
  {
    hide Percentile, Sorted, Exceeding, Reversed;
  }

  lemma ValuesExactly(values: seq<real>, threshold: real)
    ensures var found := Reversed(Sorted(Exceeding(values, threshold)));
      && (forall v :: multiset(found)[v] == if v > threshold then multiset(values)[v] else 0)
      && forall i, j | 0 <= i < j < |found| :: found[i] >= found[j]
  {
    hide Exceeding;
    var above := Exceeding(values, threshold);
    var ordered := Sorted(above);
    ReversedMultiset(ordered);
    forall v
      ensures multiset(above)[v] == if v > threshold then multiset(values)[v] else 0
    {
      ExceedingMultiset(values, threshold, v);
    }
    assert Ascending(ordered);
    hide Sorted;
    var found := Reversed(ordered);
    forall i, j | 0 <= i < j < |found|
      ensures found[i] >= found[j]
    {
      assert ordered[|ordered| - 1 - j] <= ordered[|ordered| - 1 - i];
    }
  }

  lemma MedianExact(values: seq<real>, m: real)
    requires values != []
    ensures Percentile(values, 0.5).Ok? && Percentile(values, 0.5).value.Some?
    ensures LowerMedian(values, m) <==> m == Percentile(values, 0.5).value.value
  {
    hide Count, Percentile;
    PercentileMonotone(values, 0.5, 0.5);
    PercentileExact(values, 0.5, m);
    var rank := NearestRank(0.5, |values|);
    assert 2 * rank - 1 <= |values| <= 2 * rank;
  }

  lemma {:induction false} ExceedingMultiset(values: seq<real>, threshold: real, v: real)
    ensures multiset(Exceeding(values, threshold))[v] == if v > threshold then multiset(values)[v] else 0
  {
    if values != [] {
      var n := |values| - 1;
      ExceedingMultiset(values[..n], threshold, v);
      assert values == values[..n] + [values[n]];
    }
  }

  /** With nonnegative latencies and a factor of at least one, at most half of the
      requests, rounded down, are stalls. */
  lemma FewStalls(latencies: seq<real>, factor: real)
    requires latencies != [] && factor >= 1.0 && forall v | v in latencies :: v >= 0.0
    ensures DetectStalls(latencies, factor).Stalls?
    ensures |DetectStalls(latencies, factor).values| <= |latencies| / 2
  {
    hide Sorted, Exceeding, Percentile, Count;
    PercentileMonotone(latencies, 0.5, 0.5);
    var median := Percentile(latencies, 0.5).value.value;
    var threshold := median * factor;
    PercentileExact(latencies, 0.5, median);
    assert median >= 0.0;
    assert median * (factor - 1.0) >= 0.0;
    assert threshold >= median;
    ExceedingCount(latencies, threshold);
    CountImplies(latencies, Above(threshold), Above(median));
    CountNot(latencies, AtMost(median), Above(median));
    assert NearestRank(0.5, |latencies|) >= |latencies| - |latencies| / 2;
  }

  function Times(k: real, x: real): real { k * x }

  function Scaled(k: real, s: seq<real>): (r: seq<real>)
    ensures |r| == |s| && forall i | 0 <= i < |s| :: r[i] == Times(k, s[i])
  {
    seq(|s|, i requires 0 <= i < |s| => Times(k, s[i]))
  }

  lemma TimesOrder(k: real, a: real, b: real)
    requires k > 0.0
    ensures a <= b <==> Times(k, a) <= Times(k, b)
  {
  }

  lemma {:induction false} InsertedScaled(k: real, s: seq<real>, x: real)
    requires k > 0.0
    ensures Inserted(Scaled(k, s), Times(k, x)) == Scaled(k, Inserted(s, x))
  {
    hide Times;
    if s != [] {
      TimesOrder(k, x, s[0]);
      if x > s[0] {
        InsertedScaled(k, s[1..], x);
        assert Scaled(k, s)[1..] == Scaled(k, s[1..]);
      }
    }
  }

  lemma {:induction false} SortedScaled(k: real, s: seq<real>)
    requires k > 0.0
    ensures Sorted(Scaled(k, s)) == Scaled(k, Sorted(s))
  {
    hide Times, Inserted;
    if s != [] {
      var n := |s| - 1;
      SortedScaled(k, s[..n]);
      assert Scaled(k, s)[..n] == Scaled(k, s[..n]);
      InsertedScaled(k, Sorted(s[..n]), s[n]);
    }
  }

  lemma {:induction false} ExceedingScaled(k: real, s: seq<real>, threshold: real)
    requires k > 0.0
    ensures Exceeding(Scaled(k, s), Times(k, threshold)) == Scaled(k, Exceeding(s, threshold))
  {
    hide Times;
    if s != [] {
      var n := |s| - 1;
      ExceedingScaled(k, s[..n], threshold);
      TimesOrder(k, s[n], threshold);
      assert Scaled(k, s)[..n] == Scaled(k, s[..n]);
    }
  }

  lemma ReversedScaled(k: real, s: seq<real>)
    ensures Reversed(Scaled(k, s)) == Scaled(k, Reversed(s))
  {
    hide Times;
  }

  lemma MedianScaled(k: real, values: seq<real>)
    requires k > 0.0 && values != []
    ensures Percentile(values, 0.5).Ok? && Percentile(values, 0.5).value.Some?
    ensures Percentile(Scaled(k, values), 0.5) == Ok(Some(Times(k, Percentile(values, 0.5).value.value)))
  {
    hide Sorted, Times, NearestRank;
    SortedScaled(k, values);
    RankInRange(0.5, |values|);
  }

  /** Measuring in another unit scales the threshold and the stalls and changes
      nothing else. */
  lemma StallsScale(k: real, latencies: seq<real>, factor: real)
    requires k > 0.0 && latencies != []
    ensures DetectStalls(latencies, factor).Stalls?
    ensures var d := DetectStalls(latencies, factor);
      DetectStalls(Scaled(k, latencies), factor) == Stalls(k * d.threshold, Scaled(k, d.values))
  {
    hide Sorted, Exceeding, Scaled, Reversed, Percentile, Times;
    MedianScaled(k, latencies);
    var median := Percentile(latencies, 0.5).value.value;
    TimesAssociates(k, median, factor);
    var threshold := median * factor;
    ExceedingScaled(k, latencies, threshold);
    SortedScaled(k, Exceeding(latencies, threshold));
    ReversedScaled(k, Sorted(Exceeding(latencies, threshold)));
    var d, scaled := DetectStalls(latencies, factor), DetectStalls(Scaled(k, latencies), factor);
    assert Scaled(k, latencies) != [];
    assert Times(k, median) * factor == Times(k, threshold);
    assert scaled.Stalls?;
    assert scaled.threshold == Times(k, threshold);
    assert d.threshold == threshold && d.values == Reversed(Sorted(Exceeding(latencies, threshold)));
    assert scaled.values == Scaled(k, Reversed(Sorted(Exceeding(latencies, threshold))));
  }

  lemma TimesAssociates(k: real, a: real, b: real)
    ensures Times(k, a) * b == Times(k, a * b) == k * (a * b)
  {
  }

  // Timestamped stalls

  datatype Request = Request(startedAt: real, latency: real)

  datatype StallEvent = StallEvent(latency: real, epoch: real, phaseElapsed: real, suiteElapsed: Option<real>)

  datatype Clocks = Clocks(epochOffset: real, phaseStart: real, suiteStart: Option<real>)

  function EventFor(r: Request, clocks: Clocks): StallEvent {
    var epoch := r.startedAt + clocks.epochOffset;
    StallEvent(r.latency, epoch, r.startedAt - clocks.phaseStart,
               if clocks.suiteStart.Some? then Some(epoch - clocks.suiteStart.value) else None)
  }

  function EventsOf(requests: seq<Request>, threshold: real, clocks: Clocks): seq<StallEvent> {
    if requests == [] then []
    else
      var n := |requests| - 1;
      EventsOf(requests[..n], threshold, clocks)
      + if requests[n].latency <= threshold then [] else [EventFor(requests[n], clocks)]
  }

  predicate Timely(events: seq<StallEvent>) {
    forall i, j | 0 <= i < j < |events| :: events[i].epoch <= events[j].epoch
  }

  /** A stable insertion: after the events that are not later. */
  function Placed(events: seq<StallEvent>, e: StallEvent): seq<StallEvent> {
    if events == [] || events[|events| - 1].epoch <= e.epoch then events + [e]
    else Placed(events[..|events| - 1], e) + [events[|events| - 1]]
  }

  function ByEpoch(events: seq<StallEvent>): seq<StallEvent> {
    if events == [] then [] else Placed(ByEpoch(events[..|events| - 1]), events[|events| - 1])
  }

  lemma {:induction false} PlacedKeeps(events: seq<StallEvent>, e: StallEvent)
    requires Timely(events)
    ensures Timely(Placed(events, e)) && multiset(Placed(events, e)) == multiset(events) + multiset{e}
  {
    if events != [] && events[|events| - 1].epoch > e.epoch {
      var n := |events| - 1;
      PlacedKeeps(events[..n], e);
      assert events == events[..n] + [events[n]];
      PlacedBefore(events[..n], e, events[n]);
    } else {
      TimelySnoc(events, e);
    }
  }

  lemma PlacedBefore(events: seq<StallEvent>, e: StallEvent, last: StallEvent)
    requires Timely(Placed(events, e)) && multiset(Placed(events, e)) == multiset(events) + multiset{e}
    requires Timely(events + [last]) && e.epoch <= last.epoch
    ensures Timely(Placed(events, e) + [last])
  {
    hide Placed;
    var all := events + [last];
    forall x | x in Placed(events, e)
      ensures x.epoch <= last.epoch
    {
      assert x in multiset(Placed(events, e));
      if x != e {
        assert x in multiset(events) && x in events;
        var i :| 0 <= i < |events| && events[i] == x;
        assert all[i] == x && all[|events|] == last;
      }
    }
    TimelySnoc(Placed(events, e), last);
  }

  lemma TimelySnoc(events: seq<StallEvent>, e: StallEvent)
    requires Timely(events)
    requires (events == [] || events[|events| - 1].epoch <= e.epoch) || forall x | x in events :: x.epoch <= e.epoch
    ensures Timely(events + [e])
  {
    assert forall i | 0 <= i < |events| :: events[i] in events;
  }

  lemma {:induction false} ByEpochKeeps(events: seq<StallEvent>)
    ensures Timely(ByEpoch(events)) && multiset(ByEpoch(events)) == multiset(events)
  {
    hide Placed;
    if events != [] {
      var n := |events| - 1;
      ByEpochKeeps(events[..n]);
      PlacedKeeps(ByEpoch(events[..n]), events[n]);
      assert events == events[..n] + [events[n]];
    }
  }

  /** The events in order of time. */
  method StallEvents(requests: seq<Request>, threshold: Option<real>, clocks: Clocks) returns (r: seq<StallEvent>)
    ensures threshold.None? ==> r == []
    ensures threshold.Some? ==> r == ByEpoch(EventsOf(requests, threshold.value, clocks))
    ensures Timely(r)
  {
    if threshold.None? {
      return [];
    }
    var events := [];
    for i := 0 to |requests|
      invariant events == EventsOf(requests[..i], threshold.value, clocks)
    {
      assert requests[..i + 1][..i] == requests[..i];
      if requests[i].latency > threshold.value {
        events := events + [EventFor(requests[i], clocks)];
      }
    }
    assert requests[..|requests|] == requests;
    ByEpochKeeps(events);
    return ByEpoch(events);
  }

  /** The event is this request's, on all three clocks. */
  predicate Stamps(e: StallEvent, r: Request, clocks: Clocks) {
    && e.latency == r.latency
    && e.epoch - clocks.epochOffset == r.startedAt && e.phaseElapsed + clocks.phaseStart == r.startedAt
    && match clocks.suiteStart
       case None => e.suiteElapsed == None
       case Some(start) => e.suiteElapsed.Some? && start + e.suiteElapsed.value == e.epoch
  }

  lemma {:induction false} EventsListed(requests: seq<Request>, threshold: real, clocks: Clocks, e: StallEvent)
    ensures e in EventsOf(requests, threshold, clocks) <==>
      exists i | 0 <= i < |requests| :: requests[i].latency > threshold && Stamps(e, requests[i], clocks)
    ensures |EventsOf(requests, threshold, clocks)|
         == Count(requests, (r: Request) => r.latency > threshold)
  {
    if requests != [] {
      var n := |requests| - 1;
      EventsListed(requests[..n], threshold, clocks, e);
      assert Stamps(e, requests[n], clocks) <==> e == EventFor(requests[n], clocks);
    }
  }

  /** The events are the requests slower than the threshold, each stamped with its own
      times, one for each such request, earliest first. */
  lemma EventsExactly(requests: seq<Request>, threshold: real, clocks: Clocks, e: StallEvent)
    ensures var events := ByEpoch(EventsOf(requests, threshold, clocks));
      && (e in events <==>
            exists i | 0 <= i < |requests| :: requests[i].latency > threshold && Stamps(e, requests[i], clocks))
      && |events| == |set i | 0 <= i < |requests| && requests[i].latency > threshold|
      && forall i, j | 0 <= i < j < |events| :: !(events[j].epoch < events[i].epoch)
  {
    hide EventsOf, ByEpoch, Stamps;
    var listed := EventsOf(requests, threshold, clocks);
    EventsListed(requests, threshold, clocks, e);
    ByEpochKeeps(listed);
    CountIndices(requests, (r: Request) => r.latency > threshold,
      set i | 0 <= i < |requests| && requests[i].latency > threshold);
    assert |multiset(ByEpoch(listed))| == |multiset(listed)|;
    assert e in ByEpoch(listed) <==> e in multiset(listed);
  }

  function LatenciesOf(requests: seq<Request>): (r: seq<real>)
    ensures |r| == |requests| && forall i | 0 <= i < |r| :: r[i] == requests[i].latency
  {
    seq(|requests|, i requires 0 <= i < |requests| => requests[i].latency)
  }

  function EventLatencies(events: seq<StallEvent>): (r: seq<real>)
    ensures |r| == |events| && forall i | 0 <= i < |r| :: r[i] == events[i].latency
  {
    seq(|events|, i requires 0 <= i < |events| => events[i].latency)
  }

  lemma {:induction false} EventsExceed(requests: seq<Request>, threshold: real, clocks: Clocks)
    ensures EventLatencies(EventsOf(requests, threshold, clocks)) == Exceeding(LatenciesOf(requests), threshold)
  {
    if requests != [] {
      var n := |requests| - 1;
      EventsExceed(requests[..n], threshold, clocks);
      assert LatenciesOf(requests)[..n] == LatenciesOf(requests[..n]);
    }
  }

  lemma {:induction false} PlacedLatencies(events: seq<StallEvent>, e: StallEvent)
    ensures multiset(EventLatencies(Placed(events, e))) == multiset(EventLatencies(events)) + multiset{e.latency}
  {
    if events != [] && events[|events| - 1].epoch > e.epoch {
      var n := |events| - 1;
      PlacedLatencies(events[..n], e);
      LatenciesSnoc(events[..n], events[n]);
      LatenciesSnoc(Placed(events[..n], e), events[n]);
      assert events == events[..n] + [events[n]];
    } else {
      LatenciesSnoc(events, e);
    }
  }

  lemma LatenciesSnoc(events: seq<StallEvent>, e: StallEvent)
    ensures EventLatencies(events + [e]) == EventLatencies(events) + [e.latency]
  {
  }

  lemma {:induction false} ByEpochLatencies(events: seq<StallEvent>)
    ensures multiset(EventLatencies(ByEpoch(events))) == multiset(EventLatencies(events))
  {
    if events != [] {
      var n := |events| - 1;
      ByEpochLatencies(events[..n]);
      PlacedLatencies(ByEpoch(events[..n]), events[n]);
      LatenciesSnoc(events[..n], events[n]);
      assert events == events[..n] + [events[n]];
    }
  }

  /** The timestamped stalls have exactly the detected stalls' latencies. */
  lemma EventsAreStalls(requests: seq<Request>, factor: real, clocks: Clocks)
    requires requests != []
    ensures DetectStalls(LatenciesOf(requests), factor).Stalls?
    ensures var d := DetectStalls(LatenciesOf(requests), factor);
      multiset(EventLatencies(ByEpoch(EventsOf(requests, d.threshold, clocks)))) == multiset(d.values)
  {
    hide Sorted, Exceeding, Percentile, ByEpoch, Reversed;
    var latencies := LatenciesOf(requests);
    var d := DetectStalls(latencies, factor);
    EventsExceed(requests, d.threshold, clocks);
    ByEpochLatencies(EventsOf(requests, d.threshold, clocks));
    ReversedMultiset(Sorted(Exceeding(latencies, d.threshold)));
  }
}

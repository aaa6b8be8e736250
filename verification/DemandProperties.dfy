/** The demand reduction is robust: means telescope, a lost reading changes
    nothing but its own service's peak, and fitted limits cover what was measured
    (cpu_limits.py, parse_demand_stream, fit_limit and verdict_from_readings). */
module DemandProperties {
  import opened Results
  import opened Sequences
  import opened CpuDemand

  // Any stream at all

  /** A counted total is at most the peak over the counted time; gaps are counted intervals. */
  predicate Bounded(t: Tally) {
    && t.gaps <= t.count && t.peak >= 0.0 && t.elapsed >= 0.0
    && t.total <= t.peak * t.elapsed
    && (t.count > 0 <==> t.elapsed > 0.0)
  }

  lemma {:induction false} TallyBounded(samples: seq<Sample>, interval: real)
    ensures Bounded(TallyOf(samples, interval))
  {
    hide NextTally;
    if samples != [] {
      var n := |samples| - 1;
      TallyBounded(samples[..n], interval);
      StepBounded(TallyOf(samples[..n], interval), samples[n], interval);
    }
  }

  lemma StepBounded(t: Tally, s: Sample, interval: real)
    requires Bounded(t)
    ensures Bounded(NextTally(t, s, interval))
  {
  }

  lemma QuotientBounded(total: real, elapsed: real, bound: real)
    requires elapsed > 0.0 && total <= bound * elapsed
    ensures total / elapsed <= bound
  {
  }

  /** Whatever the readings, a service's mean is at most its peak. */
  lemma MeanAtMostPeak(service: string, samples: seq<Sample>, interval: real)
    ensures var d := DemandOf(service, TallyOf(samples, interval));
      d.meanCores <= d.peakCores && d.gapIntervals <= d.intervals && d.peakCores >= 0.0
  {
    TallyBounded(samples, interval);
    var t := TallyOf(samples, interval);
    if t.elapsed > 0.0 {
      QuotientBounded(t.total, t.elapsed, t.peak);
    }
  }

  // Increasing clocks and nondecreasing counters

  predicate Regular(samples: seq<Sample>) {
    forall i, j | 0 <= i < j < |samples| :: samples[i].clock < samples[j].clock && samples[i].usage <= samples[j].usage
  }

  /** Totals telescope to the difference of the last and the first reading. */
  lemma {:induction false} Telescopes(samples: seq<Sample>, interval: real)
    requires Regular(samples) && samples != []
    ensures var t, n := TallyOf(samples, interval), |samples| - 1;
      && t.last == Some(samples[n])
      && t.total == Seconds(samples[n].usage - samples[0].usage)
      && t.elapsed == samples[n].clock - samples[0].clock
      && t.count == n
  {
    var n := |samples| - 1;
    if n > 0 {
      Telescopes(samples[..n], interval);
    } else {
      assert samples[..0] == [];
    }
  }

  /** The rate between two neighbouring readings. */
  function RateAt(samples: seq<Sample>, i: nat): real
    requires Regular(samples) && 0 < i < |samples|
  {
    Rate(samples[i - 1], samples[i])
  }

  /** The larger of the earlier peak and the last rate. */
  lemma PeakStep(samples: seq<Sample>, interval: real)
    requires Regular(samples) && |samples| > 1
    ensures Regular(samples[..|samples| - 1])
    ensures TallyOf(samples, interval).peak
         == Larger(TallyOf(samples[..|samples| - 1], interval).peak, RateAt(samples, |samples| - 1))
    ensures RateAt(samples, |samples| - 1) >= 0.0
  {
    hide Rate;
    var n := |samples| - 1;
    Telescopes(samples[..n], interval);
    RateNonNegative(samples[n - 1], samples[n]);
  }

  /** The peak is the largest rate between neighbours. */
  lemma {:induction false} PeakAttained(samples: seq<Sample>, interval: real)
    requires Regular(samples)
    ensures forall i | 0 < i < |samples| :: RateAt(samples, i) <= TallyOf(samples, interval).peak
    ensures |samples| > 1 ==> exists i :: 0 < i < |samples| && RateAt(samples, i) == TallyOf(samples, interval).peak
    ensures |samples| <= 1 ==> TallyOf(samples, interval).peak == 0.0
  {
    if |samples| > 1 {
      hide TallyOf, Rate;
      var n := |samples| - 1;
      var earlier := samples[..n];
      PeakAttained(earlier, interval);
      PeakStep(samples, interval);
      assert forall i | 0 < i < n :: RateAt(samples, i) == RateAt(earlier, i);
      if n > 1 {
        var i :| 0 < i < n && RateAt(earlier, i) == TallyOf(earlier, interval).peak;
        assert RateAt(samples, i) == TallyOf(earlier, interval).peak;
      }
    } else if |samples| == 1 {
      assert samples[..0] == [];
    }
  }

  lemma RateNonNegative(a: Sample, b: Sample)
    requires a.clock < b.clock && a.usage <= b.usage
    ensures Rate(a, b) >= 0.0
  {
  }

  /** The rate over two intervals lies below the larger of the two rates. */
  lemma Mediant(a: Sample, m: Sample, b: Sample)
    requires a.clock < m.clock < b.clock
    ensures Rate(a, b) <= Larger(Rate(a, m), Rate(m, b))
  {
  }

  lemma LossRegular(samples: seq<Sample>, p: nat)
    requires Regular(samples) && p < |samples|
    ensures Regular(Without(samples, p)) && |Without(samples, p)| == |samples| - 1
    ensures forall i | 0 <= i < p :: Without(samples, p)[i] == samples[i]
    ensures forall i | p <= i < |samples| - 1 :: Without(samples, p)[i] == samples[i + 1]
  {
  }

  /** Every rate left after a loss lies below the peak. */
  lemma RateAfterLoss(samples: seq<Sample>, p: nat, i: nat, interval: real)
    requires Regular(samples) && 0 < p < |samples| - 1 && 0 < i < |samples| - 1
    ensures Regular(Without(samples, p)) && |Without(samples, p)| == |samples| - 1
    ensures RateAt(Without(samples, p), i) <= TallyOf(samples, interval).peak
  {
    LossRegular(samples, p);
    PeakAttained(samples, interval);
    hide TallyOf, Rate, Without;
    if i < p {
      assert RateAt(Without(samples, p), i) == RateAt(samples, i);
    } else if i > p {
      assert RateAt(Without(samples, p), i) == RateAt(samples, i + 1);
    } else {
      assert samples[p - 1].clock < samples[p].clock < samples[p + 1].clock;
      Mediant(samples[p - 1], samples[p], samples[p + 1]);
      assert RateAt(samples, p) == Rate(samples[p - 1], samples[p]);
      assert RateAt(samples, p + 1) == Rate(samples[p], samples[p + 1]);
    }
  }

  /** Losing a reading that is neither the first nor the last leaves the mean as it
      was and never raises the peak. */
  lemma InteriorLoss(service: string, samples: seq<Sample>, p: nat, interval: real)
    requires Regular(samples) && 0 < p < |samples| - 1
    ensures var full, short := DemandOf(service, TallyOf(samples, interval)),
      DemandOf(service, TallyOf(Without(samples, p), interval));
      && Regular(Without(samples, p))
      && short.meanCores == full.meanCores && short.peakCores <= full.peakCores
      && short.intervals == full.intervals - 1
  {
    hide TallyOf, RateAt, Without;
    var short := Without(samples, p);
    LossRegular(samples, p);
    Telescopes(samples, interval);
    Telescopes(short, interval);
    PeakAttained(short, interval);
    var i :| 0 < i < |short| && RateAt(short, i) == TallyOf(short, interval).peak;
    RateAfterLoss(samples, p, i, interval);
  }

  // A reading lost from a frame

  /** The frames without reading `j` of frame `k`. */
  function LostAt(frames: seq<Frame>, k: nat, j: nat): seq<Frame>
    requires k < |frames| && j < |frames[k].readings|
  {
    frames[k := frames[k].(readings := Without(frames[k].readings, j))]
  }

  lemma {:induction false} InFrameConcat(a: seq<Reading>, b: seq<Reading>, clock: real, services: map<string, string>,
                                         service: string)
    ensures InFrame(a + b, clock, services, service) == InFrame(a, clock, services, service)
      + InFrame(b, clock, services, service)
  {
    if b == [] {
      assert a + b == a;
    } else {
      var n := |b| - 1;
      assert (a + b)[..|a| + n] == a + b[..n];
      InFrameConcat(a, b[..n], clock, services, service);
    }
  }

  lemma LostInFrame(readings: seq<Reading>, clock: real, services: map<string, string>, service: string, j: nat)
    requires j < |readings|
    ensures var full, short := InFrame(readings, clock, services, service),
      InFrame(Without(readings, j), clock, services, service);
      if readings[j].id in services && services[readings[j].id] == service
      then exists p :: 0 <= p < |full| && short == Without(full, p) else short == full
  {
    hide InFrame, Without;
    var a, r, b := readings[..j], readings[j], readings[j + 1..];
    WithoutSplit(readings, j);
    InFrameConcat(a, [r] + b, clock, services, service);
    InFrameConcat([r], b, clock, services, service);
    InFrameConcat(a, b, clock, services, service);
    InFrameSingle(r, clock, services, service);
    var kept, after := InFrame(a, clock, services, service), InFrame(b, clock, services, service);
    WithoutMiddle(kept, Sample(clock, r.usage), after);
    assert [] + after == after;
  }

  lemma InFrameSingle(r: Reading, clock: real, services: map<string, string>, service: string)
    ensures InFrame([r], clock, services, service)
         == if r.id in services && services[r.id] == service then [Sample(clock, r.usage)] else []
  {
    assert [r][..0] == [];
  }

  lemma {:induction false} LostInStream(frames: seq<Frame>, services: map<string, string>, service: string, k: nat,
                                        j: nat)
    requires k < |frames| && j < |frames[k].readings|
    ensures var id := frames[k].readings[j].id;
      var full, short := SamplesOf(frames, services, service), SamplesOf(LostAt(frames, k, j), services, service);
      if id in services && services[id] == service
      then exists p :: 0 <= p < |full| && short == Without(full, p) else short == full
  {
    hide Without, InFrame;
    var n := |frames| - 1;
    var id := frames[k].readings[j].id;
    var short := SamplesOf(LostAt(frames, k, j), services, service);
    var earlier := SamplesOf(frames[..n], services, service);
    var own := InFrame(frames[n].readings, frames[n].clock, services, service);
    if k == n {
      LostInFrame(frames[n].readings, frames[n].clock, services, service, j);
      assert LostAt(frames, k, j)[..n] == frames[..n];
      if id in services && services[id] == service {
        var lost := InFrame(Without(frames[n].readings, j), frames[n].clock, services, service);
        var p: nat :| p < |own| && lost == Without(own, p);
        WithoutInConcat(earlier, own, p);
        assert short == Without(earlier + own, |earlier| + p);
      }
    } else {
      LostInStream(frames[..n], services, service, k, j);
      assert LostAt(frames, k, j)[..n] == LostAt(frames[..n], k, j);
      if id in services && services[id] == service {
        var p: nat :| p < |earlier| && SamplesOf(LostAt(frames[..n], k, j), services, service) == Without(earlier, p);
        WithoutInConcat(earlier, own, p);
        assert short == Without(earlier + own, p);
      }
    }
  }

  /** A failed read of one container: every other service's demand is the same, and
      its own, if the reading was neither first nor last, keeps its mean and never
      gains a peak. */
  lemma LostReading(frames: seq<Frame>, services: map<string, string>, k: nat, j: nat, service: string, interval: real)
    requires k < |frames| && j < |frames[k].readings|
    ensures var id := frames[k].readings[j].id;
      var full, short := SamplesOf(frames, services, service), SamplesOf(LostAt(frames, k, j), services, service);
      var more, less := DemandOf(service, TallyOf(full, interval)), DemandOf(service, TallyOf(short, interval));
      if id in services && services[id] == service then
        exists p :: 0 <= p < |full| && short == Without(full, p)
          && (Regular(full) && 0 < p < |full| - 1 ==>
                less.meanCores == more.meanCores && less.peakCores <= more.peakCores)
      else less == more
  {
    hide TallyOf, SamplesOf, DemandOf, Regular, Without, LostAt;
    LostInStream(frames, services, service, k, j);
    var id := frames[k].readings[j].id;
    if id in services && services[id] == service {
      var full, short := SamplesOf(frames, services, service), SamplesOf(LostAt(frames, k, j), services, service);
      var p: nat :| p < |full| && short == Without(full, p);
      if Regular(full) && 0 < p < |full| - 1 {
        InteriorLoss(service, full, p, interval);
      }
    }
  }
}

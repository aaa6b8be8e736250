/** What a measured demand says of the readings themselves: the text they were
    written in, the intervals that count, and the peak and the mean over them
    (cpu_limits.py, parse_demand_stream). */
module DemandReadings {
  import opened Results
  import opened Text
  import opened TextFields
  import opened CpuDemand
  import opened DemandProperties
  import opened LostLines

  // The intervals of one service

  /** Reading `i` and the one before it make a counted interval: the clock moved on
      and the counter did not fall. */
  predicate Counted(samples: seq<Sample>, i: int) {
    && 0 < i < |samples|
    && samples[i - 1].clock < samples[i].clock && samples[i - 1].usage <= samples[i].usage
  }

  ghost predicate NoneCounted(samples: seq<Sample>) {
    forall i :: !Counted(samples, i)
  }

  function Elapsed(samples: seq<Sample>, i: int): real
    requires Counted(samples, i)
  {
    samples[i].clock - samples[i - 1].clock
  }

  function Used(samples: seq<Sample>, i: int): int
    requires Counted(samples, i)
  {
    samples[i].usage - samples[i - 1].usage
  }

  /** A counted interval of more than one and a half times the expected length. */
  predicate IsGap(samples: seq<Sample>, interval: real, i: int) {
    Counted(samples, i) && Elapsed(samples, i) > interval * 1.5
  }

  function AllElapsed(samples: seq<Sample>): real {
    if samples == [] then 0.0
    else
      var n := |samples| - 1;
      AllElapsed(samples[..n]) + if Counted(samples, n) then Elapsed(samples, n) else 0.0
  }

  function AllUsed(samples: seq<Sample>): int {
    if samples == [] then 0
    else
      var n := |samples| - 1;
      AllUsed(samples[..n]) + if Counted(samples, n) then Used(samples, n) else 0
  }

  lemma LastSample(samples: seq<Sample>, interval: real)
    ensures TallyOf(samples, interval).last == if samples == [] then None else Some(samples[|samples| - 1])
  {
  }

  lemma CountedEarlier(samples: seq<Sample>, n: nat)
    requires |samples| == n + 1
    ensures forall i | i < n :: Counted(samples[..n], i) <==> Counted(samples, i)
    ensures forall i | i < n && Counted(samples, i) ::
      Elapsed(samples[..n], i) == Elapsed(samples, i) && Used(samples[..n], i) == Used(samples, i)
  {
  }

  lemma CountedBelow(samples: seq<Sample>, i: int)
    ensures Counted(samples, i) ==> 0 < i < |samples|
  {
  }

  /** How many intervals count, how many of them are gaps, and what they add up to. */
  lemma {:induction false} TallySums(samples: seq<Sample>, interval: real)
    ensures var t := TallyOf(samples, interval);
      && t.count == |set i | 0 < i < |samples| && Counted(samples, i)|
      && t.gaps == |set i | 0 < i < |samples| && IsGap(samples, interval, i)|
      && t.elapsed == AllElapsed(samples)
      && t.total * 1_000_000.0 == AllUsed(samples) as real
  {
    if samples != [] {
      hide TallyOf, Counted;
      var n := |samples| - 1;
      TallySums(samples[..n], interval);
      SumsAfter(samples, interval);
      CountedSet(samples);
      GapSet(samples, interval);
    }
  }

  lemma CountedSet(samples: seq<Sample>)
    requires samples != []
    ensures var n := |samples| - 1;
      |set i | 0 < i < |samples| && Counted(samples, i)|
      == |set i | 0 < i < n && Counted(samples[..n], i)| + (if Counted(samples, n) then 1 else 0)
  {
    var n := |samples| - 1;
    CountedEarlier(samples, n);
    hide Counted;
    CountedBelow(samples, n);
    assert (set i | 0 < i < |samples| && Counted(samples, i))
      == (set i | 0 < i < n && Counted(samples[..n], i)) + if Counted(samples, n) then {n} else {};
  }

  lemma GapSet(samples: seq<Sample>, interval: real)
    requires samples != []
    ensures var n := |samples| - 1;
      |set i | 0 < i < |samples| && IsGap(samples, interval, i)|
      == |set i | 0 < i < n && IsGap(samples[..n], interval, i)| + (if IsGap(samples, interval, n) then 1 else 0)
  {
    var n := |samples| - 1;
    CountedEarlier(samples, n);
    assert forall i | i < n :: IsGap(samples[..n], interval, i) <==> IsGap(samples, interval, i);
    CountedBelow(samples, n);
    hide IsGap, Counted;
    assert (set i | 0 < i < |samples| && IsGap(samples, interval, i))
      == (set i | 0 < i < n && IsGap(samples[..n], interval, i)) + if IsGap(samples, interval, n) then {n} else {};
  }

  lemma SumsAfter(samples: seq<Sample>, interval: real)
    requires samples != []
    ensures var n := |samples| - 1;
      var before, after := TallyOf(samples[..n], interval), TallyOf(samples, interval);
      && after.count == before.count + (if Counted(samples, n) then 1 else 0)
      && after.gaps == before.gaps + (if IsGap(samples, interval, n) then 1 else 0)
      && after.elapsed == before.elapsed + (if Counted(samples, n) then Elapsed(samples, n) else 0.0)
      && after.total * 1_000_000.0
         == before.total * 1_000_000.0 + (if Counted(samples, n) then Used(samples, n) as real else 0.0)
  {
    LastSample(samples[..|samples| - 1], interval);
  }

  /** The peak covers every counted interval's usage. */
  ghost predicate Covers(peak: real, samples: seq<Sample>) {
    forall i | Counted(samples, i) :: Used(samples, i) as real <= peak * Elapsed(samples, i) * 1_000_000.0
  }

  /** The peak is one counted interval's usage over its time. */
  predicate Attains(peak: real, samples: seq<Sample>, i: int) {
    Counted(samples, i) && Used(samples, i) as real == peak * Elapsed(samples, i) * 1_000_000.0
  }

  lemma PairRate(a: Sample, b: Sample, peak: real)
    requires a.clock < b.clock
    ensures (b.usage - a.usage) as real == Rate(a, b) * (b.clock - a.clock) * 1_000_000.0
    ensures Rate(a, b) <= peak ==> (b.usage - a.usage) as real <= peak * (b.clock - a.clock) * 1_000_000.0
  {
  }

  lemma CoversMore(small: real, large: real, samples: seq<Sample>)
    requires Covers(small, samples) && small <= large
    ensures Covers(large, samples)
  {
    forall i | Counted(samples, i)
      ensures Used(samples, i) as real <= large * Elapsed(samples, i) * 1_000_000.0
    {
      assert small * Elapsed(samples, i) <= large * Elapsed(samples, i);
    }
  }

  lemma PeakAfter(samples: seq<Sample>, interval: real)
    requires samples != []
    ensures var n := |samples| - 1;
      TallyOf(samples, interval).peak
      == if Counted(samples, n) then Larger(TallyOf(samples[..n], interval).peak, Rate(samples[n - 1], samples[n]))
         else TallyOf(samples[..n], interval).peak
  {
    LastSample(samples[..|samples| - 1], interval);
  }

  lemma {:induction false} TallyCovers(samples: seq<Sample>, interval: real)
    ensures TallyOf(samples, interval).peak >= 0.0 && Covers(TallyOf(samples, interval).peak, samples)
  {
    if samples != [] {
      hide Rate, TallyOf, Elapsed, Used, Covers;
      var n := |samples| - 1;
      var before, peak := TallyOf(samples[..n], interval).peak, TallyOf(samples, interval).peak;
      TallyCovers(samples[..n], interval);
      PeakAfter(samples, interval);
      CoversMore(before, peak, samples[..n]);
      CoversLast(samples, peak);
    }
  }

  lemma CoversLast(samples: seq<Sample>, peak: real)
    requires samples != [] && Covers(peak, samples[..|samples| - 1])
    requires Counted(samples, |samples| - 1) ==> Rate(samples[|samples| - 2], samples[|samples| - 1]) <= peak
    ensures Covers(peak, samples)
  {
    hide Rate, Counted, Elapsed, Used;
    var n := |samples| - 1;
    CountedEarlier(samples, n);
    forall i | Counted(samples, i)
      ensures Used(samples, i) as real <= peak * Elapsed(samples, i) * 1_000_000.0
    {
      if i == n {
        OwnRate(samples, n, peak);
      } else {
        CountedBelow(samples, i);
        assert Counted(samples[..n], i);
      }
    }
  }

  lemma OwnRate(samples: seq<Sample>, i: int, peak: real)
    requires Counted(samples, i) && Rate(samples[i - 1], samples[i]) <= peak
    ensures Used(samples, i) as real <= peak * Elapsed(samples, i) * 1_000_000.0
    ensures Attains(Rate(samples[i - 1], samples[i]), samples, i)
  {
    PairRate(samples[i - 1], samples[i], peak);
  }

  lemma AttainsLater(peak: real, samples: seq<Sample>, i: int)
    requires samples != [] && Attains(peak, samples[..|samples| - 1], i)
    ensures Attains(peak, samples, i)
  {
  }

  lemma NoneBefore(samples: seq<Sample>, interval: real)
    requires samples != [] && NoneCounted(samples[..|samples| - 1])
    requires TallyOf(samples[..|samples| - 1], interval).peak == 0.0
    ensures Counted(samples, |samples| - 1) ==>
      TallyOf(samples, interval).peak == Rate(samples[|samples| - 2], samples[|samples| - 1])
    ensures !Counted(samples, |samples| - 1) ==>
      TallyOf(samples, interval).peak == 0.0 && NoneCounted(samples)
  {
    var n := |samples| - 1;
    PeakAfter(samples, interval);
    CountedEarlier(samples, n);
    if Counted(samples, n) {
      RateNonNegative(samples[n - 1], samples[n]);
    }
  }

  lemma {:induction false} TallyAttains(samples: seq<Sample>, interval: real)
    ensures var peak := TallyOf(samples, interval).peak;
      || (peak == 0.0 && NoneCounted(samples))
      || exists i :: Attains(peak, samples, i)
  {
    if samples != [] {
      hide Rate, TallyOf, Elapsed, Used, Counted, Attains;
      var n := |samples| - 1;
      var earlier := samples[..n];
      var before, peak := TallyOf(earlier, interval).peak, TallyOf(samples, interval).peak;
      TallyAttains(earlier, interval);
      PeakAfter(samples, interval);
      if Counted(samples, n) && peak == Rate(samples[n - 1], samples[n]) {
        OwnRate(samples, n, peak);
      } else if exists i :: Attains(before, earlier, i) {
        var i :| Attains(before, earlier, i);
        AttainsLater(before, samples, i);
      } else {
        NoneBefore(samples, interval);
      }
    }
  }

  /** A single counted interval is both the peak and the mean. */
  predicate Single(t: Tally) {
    && (t.count == 0 ==> t.total == t.elapsed == t.peak == 0.0)
    && (t.count == 1 ==> t.elapsed > 0.0 && t.total == t.peak * t.elapsed)
  }

  lemma {:induction false} TallySingle(samples: seq<Sample>, interval: real)
    ensures Single(TallyOf(samples, interval))
  {
    hide NextTally, Single;
    if samples == [] {
      NothingSingle();
    } else {
      var n := |samples| - 1;
      TallySingle(samples[..n], interval);
      SingleAfter(TallyOf(samples[..n], interval), samples[n], interval);
    }
  }

  lemma NothingSingle()
    ensures Single(NOTHING)
  {
  }

  lemma SingleAfter(t: Tally, s: Sample, interval: real)
    requires Single(t)
    ensures Single(NextTally(t, s, interval))
  {
    hide Rate, Seconds;
    if t.last.Some? && t.last.value.clock < s.clock && t.last.value.usage <= s.usage {
      RateTimes(t.last.value, s);
      if t.count == 0 {
        assert NextTally(t, s, interval).peak == Rate(t.last.value, s);
      }
    }
  }

  lemma RateTimes(a: Sample, b: Sample)
    requires a.clock < b.clock && a.usage <= b.usage
    ensures Rate(a, b) * (b.clock - a.clock) == Seconds(b.usage - a.usage) && Rate(a, b) >= 0.0
  {
  }

  /** A service's demand, read off its readings, whatever they are: how many neighbouring
      pairs count and how many of them are gaps, the mean as all counted usage over all
      counted time, and a peak that covers every counted pair and is reached by one. */
  lemma DemandReads(service: string, samples: seq<Sample>, interval: real)
    ensures var d := DemandOf(service, TallyOf(samples, interval));
      && d.service == service
      && d.intervals == |set i | 0 < i < |samples| && Counted(samples, i)|
      && d.gapIntervals == |set i | 0 < i < |samples| && IsGap(samples, interval, i)|
      && d.meanCores * AllElapsed(samples) * 1_000_000.0 == AllUsed(samples) as real
      && Covers(d.peakCores, samples)
      && (if d.intervals == 0 then d.peakCores == d.meanCores == 0.0 else exists i :: Attains(d.peakCores, samples, i))
      && (d.intervals == 1 ==> d.peakCores == d.meanCores)
  {
    hide TallyOf, Covers, Attains, Counted, IsGap;
    TallySums(samples, interval);
    TallyCovers(samples, interval);
    TallyAttains(samples, interval);
    TallySingle(samples, interval);
    assert Single(TallyOf(samples, interval));
    TallyBounded(samples, interval);
    NoneMeansEmpty(samples);
  }

  lemma NoneMeansEmpty(samples: seq<Sample>)
    ensures NoneCounted(samples) <==> |set i | 0 < i < |samples| && Counted(samples, i)| == 0
  {
    var counted := set i | 0 < i < |samples| && Counted(samples, i);
    if i :| Counted(samples, i) {
      assert i in counted;
    }
  }

  // From the stream to the readings

  /** A sample of a service is a reading of one of its containers under its frame's clock. */
  lemma {:induction false} SampleSource(frames: seq<Frame>, services: map<string, string>, service: string, s: Sample)
    ensures s in SamplesOf(frames, services, service) <==>
      exists f, r :: f in frames && r in f.readings && r.id in services && services[r.id] == service
                     && s == Sample(f.clock, r.usage)
  {
    if frames != [] {
      var n := |frames| - 1;
      SampleSource(frames[..n], services, service, s);
      FrameSource(frames[n].readings, frames[n].clock, services, service, s);
      assert frames == frames[..n] + [frames[n]];
    }
  }

  lemma {:induction false} FrameSource(readings: seq<Reading>, clock: real, services: map<string, string>,
                                       service: string, s: Sample)
    ensures s in InFrame(readings, clock, services, service) <==>
      exists r :: r in readings && r.id in services && services[r.id] == service && s == Sample(clock, r.usage)
  {
    if readings != [] {
      var n := |readings| - 1;
      FrameSource(readings[..n], clock, services, service, s);
      assert readings == readings[..n] + [readings[n]];
    }
  }

  lemma NextSamples(frames: seq<Frame>, f: Frame, services: map<string, string>, service: string)
    ensures SamplesOf(frames + [f], services, service)
         == SamplesOf(frames, services, service) + InFrame(f.readings, f.clock, services, service)
  {
    assert (frames + [f])[..|frames|] == frames;
  }

  /** Samples come in the order of the stream: first those of earlier frames, and in a
      frame those read first. */
  lemma {:induction false} SamplesInOrder(a: seq<Frame>, b: seq<Frame>, services: map<string, string>, service: string)
    ensures SamplesOf(a + b, services, service)
         == SamplesOf(a, services, service) + SamplesOf(b, services, service)
  {
    if b == [] {
      assert a + b == a;
    } else {
      hide SamplesOf, InFrame;
      var n := |b| - 1;
      assert a + b == (a + b[..n]) + [b[n]] && b == b[..n] + [b[n]];
      SamplesInOrder(a, b[..n], services, service);
      NextSamples(a + b[..n], b[n], services, service);
      NextSamples(b[..n], b[n], services, service);
      Regroup(SamplesOf(a, services, service), SamplesOf(b[..n], services, service),
              InFrame(b[n].readings, b[n].clock, services, service));
    }
  }

  lemma Regroup<T>(x: seq<T>, y: seq<T>, z: seq<T>)
    ensures (x + y) + z == x + (y + z)
  {
  }

  lemma FrameInOrder(clock: real, a: seq<Reading>, b: seq<Reading>, services: map<string, string>, service: string)
    ensures SamplesOf([Frame(clock, a + b)], services, service)
         == SamplesOf([Frame(clock, a)], services, service) + SamplesOf([Frame(clock, b)], services, service)
  {
    InFrameConcat(a, b, clock, services, service);
    forall readings
      ensures SamplesOf([Frame(clock, readings)], services, service) == InFrame(readings, clock, services, service)
    {
      assert [Frame(clock, readings)][..0] == [];
    }
  }

  // The sampler's text

  /** A stream as the sampler writes it. */
  function WrittenFrame(f: Frame, write: real -> string): (lines: seq<string>)
    requires forall r | r in f.readings :: r.usage >= 0
    ensures |lines| == |f.readings| + 1
  {
    ["@" + write(f.clock)]
    + seq(|f.readings|, i requires 0 <= i < |f.readings| =>
        assert f.readings[i] in f.readings; f.readings[i].id + " " + Decimal(f.readings[i].usage))
  }

  /** Frames the sampler can write: container names are fields that are no clock line,
      and counters are not negative. */
  ghost predicate Writable(frames: seq<Frame>) {
    forall f | f in frames :: OneEntryEach(f.readings)
      && forall r | r in f.readings :: IsWord(r.id) && r.id[0] != '@' && r.usage >= 0
  }

  function Written(frames: seq<Frame>, write: real -> string): seq<string>
    requires Writable(frames)
  {
    if frames == [] then []
    else
      var n := |frames| - 1;
      assert frames[n] in frames;
      Written(frames[..n], write) + WrittenFrame(frames[n], write)
  }

  /** The parsers read back what was written. */
  ghost predicate ReadsBack(numbers: Numbers, write: real -> string) {
    && (forall c :: IsWord(write(c)) && numbers.clock(write(c)) == Some(c))
    && forall n: nat :: numbers.count(Decimal(n)) == Some(n)
  }

  lemma ClockLine(p: Parse, numbers: Numbers, write: real -> string, clock: real)
    requires ReadsBack(numbers, write)
    ensures NextLine(p, "@" + write(clock), numbers) == Parse(Closed(p), Some(clock), [])
  {
    var word := write(clock);
    var line := "@" + word;
    assert line[|line| - 1] == word[|word| - 1];
    assert Strip(line) == line && line[1..] == word;
  }

  lemma ReadingLine(p: Parse, numbers: Numbers, r: Reading)
    requires IsWord(r.id) && r.id[0] != '@' && r.usage >= 0 && numbers.count(Decimal(r.usage)) == Some(r.usage)
    requires p.clock.Some? && forall x | x in p.current :: x.id != r.id
    ensures NextLine(p, r.id + " " + Decimal(r.usage), numbers) == p.(current := p.current + [r])
  {
    hide Words, Put, Decimal;
    var count := Decimal(r.usage);
    var line := r.id + " " + count;
    DecimalIsWord(r.usage);
    WordsOfPair(r.id, count);
    assert line[0] == r.id[0] && line[|line| - 1] == count[|count| - 1];
    assert Strip(line) == line;
    PutNew(p.current, r.id, r.usage);
  }

  lemma {:induction false} FrameParsed(before: seq<string>, f: Frame, numbers: Numbers, write: real -> string, k: nat)
    requires Writable([f]) && ReadsBack(numbers, write) && k <= |f.readings|
    ensures f in [f]
    ensures ParseLines(before + WrittenFrame(f, write)[..k + 1], numbers)
         == Parse(Closed(ParseLines(before, numbers)), Some(f.clock), f.readings[..k])
  {
    hide NextLine, Closed, ParseLines;
    assert f in [f];
    var lines := WrittenFrame(f, write);
    assert lines[..k + 1] == lines[..k] + [lines[k]];
    assert before + lines[..k + 1] == (before + lines[..k]) + [lines[k]];
    ParseSnoc(before + lines[..k], lines[k], numbers);
    if k == 0 {
      assert before + lines[..0] == before;
      ClockLine(ParseLines(before, numbers), numbers, write, f.clock);
    } else {
      FrameParsed(before, f, numbers, write, k - 1);
      var r := f.readings[k - 1];
      assert r in f.readings;
      assert forall x | x in f.readings[..k - 1] :: x.id != r.id;
      ReadingLine(ParseLines(before + lines[..k], numbers), numbers, r);
      assert f.readings[..k] == f.readings[..k - 1] + [r];
    }
  }

  lemma {:induction false} FramesParsed(frames: seq<Frame>, numbers: Numbers, write: real -> string)
    requires Writable(frames) && ReadsBack(numbers, write)
    ensures Closed(ParseLines(Written(frames, write), numbers)) == frames
  {
    hide NextLine, ReadsBack, WrittenFrame;
    if frames != [] {
      var n := |frames| - 1;
      assert frames == frames[..n] + [frames[n]];
      FramesParsed(frames[..n], numbers, write);
      var f := frames[n];
      FrameParsed(Written(frames[..n], write), f, numbers, write, |f.readings|);
      assert WrittenFrame(f, write)[..|f.readings| + 1] == WrittenFrame(f, write);
      assert f.readings[..|f.readings|] == f.readings;
    }
  }

  lemma {:induction false} WrittenOneLine(frames: seq<Frame>, numbers: Numbers, write: real -> string)
    requires Writable(frames) && ReadsBack(numbers, write)
    ensures forall line | line in Written(frames, write) :: OneLine(line)
  {
    if frames != [] {
      var n := |frames| - 1;
      WrittenOneLine(frames[..n], numbers, write);
      var f := frames[n];
      assert f in frames;
      forall i | 0 <= i < |WrittenFrame(f, write)|
        ensures OneLine(WrittenFrame(f, write)[i])
      {
        if i > 0 {
          assert f.readings[i - 1] in f.readings;
          DecimalIsWord(f.readings[i - 1].usage);
        }
      }
    }
  }

  /** A stream written by the sampler is read back frame by frame. */
  lemma StreamRoundTrip(frames: seq<Frame>, numbers: Numbers, write: real -> string)
    requires Writable(frames) && ReadsBack(numbers, write)
    ensures FramesOf(Unlines(Written(frames, write)), numbers) == frames
  {
    hide ParseLines, Writable, Lines;
    WrittenOneLine(frames, numbers, write);
    LinesOfUnlines(Written(frames, write));
    FramesParsed(frames, numbers, write);
  }
}

/** CPU demand from the kernel's usage counters: the sampler's text, the fold over
    its frames, and what a lost reading changes (cpu_limits.py, parse_demand_stream). */
module CpuDemand {
  import opened Results
  import opened Text
  import opened TextFields

  /** One container's cumulative usage, in microseconds. */
  datatype Reading = Reading(id: string, usage: int)

  /** A frame's readings are a dictionary: one entry for an id, in first-seen order. */
  datatype Frame = Frame(clock: real, readings: seq<Reading>)

  /** The number parsers of the host language, `None` where they raise. */
  datatype Numbers = Numbers(clock: string -> Option<real>, count: string -> Option<int>)

  datatype Demand = Demand(service: string, peakCores: real, meanCores: real, intervals: nat, gapIntervals: nat)

  // The sampler's text

  function Put(readings: seq<Reading>, id: string, usage: int): seq<Reading> {
    if readings == [] then [Reading(id, usage)]
    else if readings[0].id == id then [Reading(id, usage)] + readings[1..]
    else [readings[0]] + Put(readings[1..], id, usage)
  }

  predicate OneEntryEach(readings: seq<Reading>) {
    forall i, j | 0 <= i < j < |readings| :: readings[i].id != readings[j].id
  }

  lemma {:induction false} PutKeeps(readings: seq<Reading>, id: string, usage: int)
    requires OneEntryEach(readings)
    ensures OneEntryEach(Put(readings, id, usage)) && Reading(id, usage) in Put(readings, id, usage)
    ensures forall r | r in Put(readings, id, usage) :: r.id == id || r in readings
    ensures forall r | r in readings && r.id != id :: r in Put(readings, id, usage)
  {
    if readings != [] && readings[0].id != id {
      PutKeeps(readings[1..], id, usage);
      assert forall i | 0 < i < |readings| :: readings[i] == readings[1..][i - 1];
    }
  }

  datatype Parse = Parse(frames: seq<Frame>, clock: Option<real>, current: seq<Reading>)

  function Closed(p: Parse): seq<Frame> {
    if p.clock.Some? then p.frames + [Frame(p.clock.value, p.current)] else p.frames
  }

  /** One line: a clock line closes the open frame, a reading joins it, and
      anything else is passed over. */
  function NextLine(p: Parse, raw: string, numbers: Numbers): Parse {
    var line := Strip(raw);
    if line == "" then p
    else if line[0] == '@' then Parse(Closed(p), numbers.clock(line[1..]), [])
    else
      var parts := Words(line);
      if |parts| == 2 && p.clock.Some? && numbers.count(parts[1]).Some?
      then p.(current := Put(p.current, parts[0], numbers.count(parts[1]).value))
      else p
  }

  function ParseLines(lines: seq<string>, numbers: Numbers): Parse {
    if lines == [] then Parse([], None, [])
    else NextLine(ParseLines(lines[..|lines| - 1], numbers), lines[|lines| - 1], numbers)
  }

  function FramesOf(text: string, numbers: Numbers): seq<Frame> {
    Closed(ParseLines(Lines(text), numbers))
  }

  method ReadFrames(text: string, numbers: Numbers) returns (r: seq<Frame>)
    ensures r == FramesOf(text, numbers)
  {
    var lines := Lines(text);
    var frames, clock, current := [], None, [];
    for i := 0 to |lines|
      invariant Parse(frames, clock, current) == ParseLines(lines[..i], numbers)
    {
      assert lines[..i + 1][..i] == lines[..i];
      var line := Strip(lines[i]);
      if line == "" {
      } else if line[0] == '@' {
        if clock.Some? {
          frames := frames + [Frame(clock.value, current)];
        }
        clock, current := numbers.clock(line[1..]), [];
      } else {
        var parts := Words(line);
        if |parts| == 2 && clock.Some? {
          var count := numbers.count(parts[1]);
          if count.Some? {
            current := Put(current, parts[0], count.value);
          }
        }
      }
    }
    assert lines[..|lines|] == lines;
    if clock.Some? {
      frames := frames + [Frame(clock.value, current)];
    }
    return frames;
  }

  /** Every frame holds one reading for an id, the last one written under its clock. */
  lemma {:induction false} FramesAreDictionaries(lines: seq<string>, numbers: Numbers)
    ensures OneEntryEach(ParseLines(lines, numbers).current)
    ensures forall f | f in ParseLines(lines, numbers).frames :: OneEntryEach(f.readings)
  {
    if lines != [] {
      var n := |lines| - 1;
      FramesAreDictionaries(lines[..n], numbers);
      var p := ParseLines(lines[..n], numbers);
      var parts := Words(Strip(lines[n]));
      if |parts| == 2 && numbers.count(parts[1]).Some? {
        PutKeeps(p.current, parts[0], numbers.count(parts[1]).value);
      }
    }
  }

  // One service

  datatype Sample = Sample(clock: real, usage: int)

  /** What has been added up for one service. */
  datatype Tally = Tally(last: Option<Sample>, peak: real, total: real, elapsed: real, count: nat, gaps: nat)

  const NOTHING := Tally(None, 0.0, 0.0, 0.0, 0, 0)

  function Seconds(usage: int): real {
    usage as real / 1_000_000.0
  }

  function Rate(a: Sample, b: Sample): real
    requires b.clock > a.clock
  {
    Seconds(b.usage - a.usage) / (b.clock - a.clock)
  }

  function Larger(a: real, b: real): real {
    if a >= b then a else b
  }

  /** One more reading: a tied or falling clock and a falling counter carry no information. */
  function NextTally(t: Tally, s: Sample, interval: real): Tally {
    if t.last.None? || s.clock <= t.last.value.clock || s.usage < t.last.value.usage then t.(last := Some(s))
    else
      var dt := s.clock - t.last.value.clock;
      Tally(Some(s), Larger(t.peak, Rate(t.last.value, s)), t.total + Seconds(s.usage - t.last.value.usage),
            t.elapsed + dt, t.count + 1, t.gaps + if dt > interval * 1.5 then 1 else 0)
  }

  function TallyOf(samples: seq<Sample>, interval: real): Tally {
    if samples == [] then NOTHING
    else NextTally(TallyOf(samples[..|samples| - 1], interval), samples[|samples| - 1], interval)
  }

  function DemandOf(service: string, t: Tally): Demand {
    Demand(service, t.peak, if t.elapsed > 0.0 then t.total / t.elapsed else 0.0, t.count, t.gaps)
  }

  // All services

  /** The readings of one service's containers, frame by frame. */
  function InFrame(readings: seq<Reading>, clock: real, services: map<string, string>, service: string): seq<Sample> {
    if readings == [] then []
    else
      var n := |readings| - 1;
      var id := readings[n].id;
      InFrame(readings[..n], clock, services, service)
      + if id in services && services[id] == service then [Sample(clock, readings[n].usage)] else []
  }

  function SamplesOf(frames: seq<Frame>, services: map<string, string>, service: string): seq<Sample> {
    if frames == [] then []
    else
      var n := |frames| - 1;
      SamplesOf(frames[..n], services, service) + InFrame(frames[n].readings, frames[n].clock, services, service)
  }

  /** The fold's dictionaries, by service. */
  datatype Tables = Tables(
    last: map<string, Sample>,
    peaks: map<string, real>,
    totals: map<string, real>,
    elapsed: map<string, real>,
    counts: map<string, nat>,
    gaps: map<string, nat>)

  function Found<T>(table: map<string, T>, service: string, default: T): T {
    if service in table then table[service] else default
  }

  /** The dictionaries hold a service's tally. */
  ghost predicate Agrees(d: Tables, service: string, t: Tally) {
    && t.last == (if service in d.last then Some(d.last[service]) else None)
    && t.peak == Found(d.peaks, service, 0.0)
    && t.total == Found(d.totals, service, 0.0)
    && t.elapsed == Found(d.elapsed, service, 0.0)
    && t.count == Found(d.counts, service, 0)
    && t.gaps == Found(d.gaps, service, 0)
    && (service in d.peaks <==> t.count > 0)
    && (service in d.peaks ==> service in d.totals && service in d.elapsed && service in d.counts)
  }

  /** They hold every service's tally over some frames and the start of the next. */
  ghost predicate Tracks(d: Tables, frames: seq<Frame>, readings: seq<Reading>, clock: real,
                         services: map<string, string>, interval: real) {
    forall s :: Agrees(d, s, TallyOf(SamplesOf(frames, services, s) + InFrame(readings, clock, services, s), interval))
  }

  /** The sampler's fold: dictionaries updated reading by reading. */
  method MeasureDemand(frames: seq<Frame>, services: map<string, string>, interval: real)
    returns (r: Result<map<string, Demand>>)
    ensures r.Ok? <==> |frames| >= 2
    ensures r.Ok? ==> forall s :: s in r.value <==> TallyOf(SamplesOf(frames, services, s), interval).count > 0
    ensures r.Ok? ==>
      forall s | s in r.value :: r.value[s] == DemandOf(s, TallyOf(SamplesOf(frames, services, s), interval))
  {
    if |frames| < 2 {
      return Err;
    }
    var d := Tables(map[], map[], map[], map[], map[], map[]);
    assert forall s :: SamplesOf([], services, s) + InFrame([], 0.0, services, s) == [];
    for i := 0 to |frames|
      invariant Tracks(d, frames[..i], [], 0.0, services, interval)
    {
      hide Tracks;
      NextFrame(d, frames, services, i, interval);
      d := MeasureFrame(d, frames[..i], frames[i], services, interval);
      FrameDone(d, frames, services, i, interval);
    }
    assert frames[..|frames|] == frames;
    forall s
      ensures s in d.peaks <==> TallyOf(SamplesOf(frames, services, s), interval).count > 0
      ensures DemandIn(d, s) == DemandOf(s, TallyOf(SamplesOf(frames, services, s), interval))
    {
      assert SamplesOf(frames, services, s) + InFrame([], 0.0, services, s) == SamplesOf(frames, services, s);
      DemandRead(d, s, TallyOf(SamplesOf(frames, services, s), interval));
    }
    return Ok(map s | s in d.peaks :: DemandIn(d, s));
  }

  function DemandIn(d: Tables, s: string): Demand {
    var elapsed := Found(d.elapsed, s, 0.0);
    Demand(s, Found(d.peaks, s, 0.0), if elapsed > 0.0 then Found(d.totals, s, 0.0) / elapsed else 0.0,
           Found(d.counts, s, 0), Found(d.gaps, s, 0))
  }

  lemma DemandRead(d: Tables, s: string, t: Tally)
    requires Agrees(d, s, t)
    ensures s in d.peaks <==> t.count > 0
    ensures DemandIn(d, s) == DemandOf(s, t)
  {
  }

  method MeasureFrame(start: Tables, ghost frames: seq<Frame>, frame: Frame, services: map<string, string>,
                      interval: real)
    returns (d: Tables)
    requires Tracks(start, frames, [], frame.clock, services, interval)
    ensures Tracks(d, frames, frame.readings, frame.clock, services, interval)
  {
    hide TallyOf, NextTally, SamplesOf, InFrame, Agrees;
    var clock, readings := frame.clock, frame.readings;
    d := start;
    for j := 0 to |readings|
      invariant Tracks(d, frames, readings[..j], clock, services, interval)
    {
      NextReading(frames, readings, clock, services, j, interval);
      if readings[j].id in services {
        var service := services[readings[j].id];
        ghost var seen := SamplesOf(frames, services, service) + InFrame(readings[..j], clock, services, service);
        d := AddReading(d, service, Sample(clock, readings[j].usage), interval, TallyOf(seen, interval));
      }
    }
    assert readings[..|readings|] == readings;
  }

  method AddReading(start: Tables, service: string, sample: Sample, interval: real, ghost t: Tally) returns (d: Tables)
    requires Agrees(start, service, t)
    ensures Agrees(d, service, NextTally(t, sample, interval))
    ensures forall s, u | s != service && Agrees(start, s, u) :: Agrees(d, s, u)
  {
    d := start.(last := start.last[service := sample]);
    if service !in start.last {
      return;
    }
    var previous := start.last[service];
    if sample.clock <= previous.clock || sample.usage < previous.usage {
      return;
    }
    d := Accumulated(d, service, sample.clock - previous.clock, sample.usage - previous.usage, Rate(previous, sample),
      interval);
    hide Agrees, Accumulated, NextTally, Rate;
    AccumulatedOwn(start.(last := start.last[service := sample]), service, t.(last := Some(sample)),
                   previous, sample, interval, t);
    AccumulatedOthers(start, service, sample, sample.clock - previous.clock, sample.usage - previous.usage,
                      Rate(previous, sample), interval);
  }

  /** The five accumulating dictionaries after one counted interval. */
  function Accumulated(d: Tables, service: string, dt: real, delta: int, cores: real, interval: real): Tables {
    d.(peaks := d.peaks[service := Larger(Found(d.peaks, service, 0.0), cores)],
       totals := d.totals[service := Found(d.totals, service, 0.0) + Seconds(delta)],
       elapsed := d.elapsed[service := Found(d.elapsed, service, 0.0) + dt],
       counts := d.counts[service := Found(d.counts, service, 0) + 1],
       gaps := if dt > interval * 1.5 then d.gaps[service := Found(d.gaps, service, 0) + 1] else d.gaps)
  }

  lemma AccumulatedOwn(d: Tables, service: string, noted: Tally, previous: Sample, sample: Sample, interval: real,
                       t: Tally)
    requires Agrees(d, service, noted) && noted == t.(last := Some(sample)) && t.last == Some(previous)
    requires sample.clock > previous.clock && sample.usage >= previous.usage
    ensures Agrees(Accumulated(d, service, sample.clock - previous.clock, sample.usage - previous.usage,
                               Rate(previous, sample), interval),
                   service, NextTally(t, sample, interval))
  {
    hide Larger, Seconds, Rate;
  }

  lemma AccumulatedOthers(start: Tables, service: string, sample: Sample, dt: real, delta: int, cores: real,
                          interval: real)
    ensures forall s, u | s != service && Agrees(start, s, u) ::
      Agrees(Accumulated(start.(last := start.last[service := sample]), service, dt, delta, cores, interval), s, u)
  {
    hide Larger, Seconds;
  }

  lemma NextFrame(d: Tables, frames: seq<Frame>, services: map<string, string>, i: nat, interval: real)
    requires i < |frames| && Tracks(d, frames[..i], [], 0.0, services, interval)
    ensures Tracks(d, frames[..i], [], frames[i].clock, services, interval)
  {
  }

  lemma FrameDone(d: Tables, frames: seq<Frame>, services: map<string, string>, i: nat, interval: real)
    requires i < |frames| && Tracks(d, frames[..i], frames[i].readings, frames[i].clock, services, interval)
    ensures Tracks(d, frames[..i + 1], [], 0.0, services, interval)
  {
    hide TallyOf, Agrees;
    assert frames[..i + 1][..i] == frames[..i];
    forall s
      ensures Agrees(d, s, TallyOf(SamplesOf(frames[..i + 1], services, s) + InFrame([], 0.0, services, s), interval))
    {
      assert SamplesOf(frames[..i + 1], services, s) + InFrame([], 0.0, services, s)
        == SamplesOf(frames[..i], services, s) + InFrame(frames[i].readings, frames[i].clock, services, s);
    }
  }

  lemma NextReading(frames: seq<Frame>, readings: seq<Reading>, clock: real, services: map<string, string>, j: nat,
                    interval: real)
    requires j < |readings|
    ensures forall s ::
      var before := TallyOf(SamplesOf(frames, services, s) + InFrame(readings[..j], clock, services, s), interval);
      TallyOf(SamplesOf(frames, services, s) + InFrame(readings[..j + 1], clock, services, s), interval)
        == if readings[j].id in services && services[readings[j].id] == s
           then NextTally(before, Sample(clock, readings[j].usage), interval) else before
  {
    hide NextTally;
    assert readings[..j + 1][..j] == readings[..j];
    forall s
      ensures TallyOf(SamplesOf(frames, services, s) + InFrame(readings[..j + 1], clock, services, s), interval)
        == var before := TallyOf(SamplesOf(frames, services, s) + InFrame(readings[..j], clock, services, s), interval);
           if readings[j].id in services && services[readings[j].id] == s
           then NextTally(before, Sample(clock, readings[j].usage), interval) else before
    {
      var a := SamplesOf(frames, services, s) + InFrame(readings[..j], clock, services, s);
      var b := SamplesOf(frames, services, s) + InFrame(readings[..j + 1], clock, services, s);
      if readings[j].id in services && services[readings[j].id] == s {
        assert b == a + [Sample(clock, readings[j].usage)];
        assert b[..|b| - 1] == a;
      } else {
        assert b == a;
      }
    }
  }
}

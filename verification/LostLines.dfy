/** A failed read in the sampler's text: deleting one reading's line removes that
    reading from its frame and changes nothing else (cpu_limits.py, parse_demand_stream). */
module LostLines {
  import opened Results
  import opened Text
  import opened TextFields
  import opened Sequences
  import opened CpuDemand
  import opened DemandProperties

  /** The line opens a new frame. */
  predicate IsClock(line: string) {
    Strip(line) != "" && Strip(line)[0] == '@'
  }

  /** The line is a reading of this container. */
  predicate Reads(line: string, id: string, numbers: Numbers) {
    && Strip(line) != "" && Strip(line)[0] != '@'
    && var parts := Words(Strip(line));
       |parts| == 2 && parts[0] == id && numbers.count(parts[1]).Some?
  }

  /** No line reads the container again before a new frame opens. */
  predicate NotAgain(lines: seq<string>, id: string, numbers: Numbers) {
    forall i | 0 <= i < |lines| && Reads(lines[i], id, numbers) :: exists j | 0 <= j < i :: IsClock(lines[j])
  }

  lemma {:induction false} PutNew(readings: seq<Reading>, id: string, usage: int)
    requires forall r | r in readings :: r.id != id
    ensures Put(readings, id, usage) == readings + [Reading(id, usage)]
  {
    if readings != [] {
      PutNew(readings[1..], id, usage);
      assert readings == [readings[0]] + readings[1..];
    }
  }

  /** Another container's reading commutes with the loss. */
  lemma {:induction false} PutWithout(readings: seq<Reading>, j: nat, id: string, usage: int)
    requires j < |readings| && readings[j].id != id
    ensures j < |Put(readings, id, usage)| && Put(readings, id, usage)[j] == readings[j]
    ensures Put(Without(readings, j), id, usage) == Without(Put(readings, id, usage), j)
  {
    if j > 0 {
      if readings[0].id != id {
        PutWithout(readings[1..], j - 1, id, usage);
        assert Without(readings, j)[1..] == Without(readings[1..], j - 1);
      }
    } else {
      assert Without(readings, 0) == readings[1..];
    }
  }

  /** The parse with the reading and the parse without it: before the frame closes
      they differ in the open frame, afterwards in the closed one. */
  ghost predicate Differ(full: Parse, short: Parse, id: string, k: nat, j: nat, closed: bool) {
    && full.clock == short.clock
    && (if closed then
          && full.current == short.current && k < |full.frames| && j < |full.frames[k].readings|
          && full.frames[k].readings[j].id == id
          && short.frames == LostAt(full.frames, k, j)
        else
          && full.clock.Some? && full.frames == short.frames && |full.frames| == k
          && j < |full.current| && full.current[j].id == id && short.current == Without(full.current, j))
  }

  lemma ClosedDiffer(full: Parse, short: Parse, id: string, k: nat, j: nat, closed: bool)
    requires Differ(full, short, id, k, j, closed)
    ensures k < |Closed(full)| && j < |Closed(full)[k].readings| && Closed(full)[k].readings[j].id == id
    ensures Closed(short) == LostAt(Closed(full), k, j)
  {
    hide Without;
  }

  lemma StepDiffers(full: Parse, short: Parse, line: string, numbers: Numbers, id: string, k: nat, j: nat, closed: bool)
    requires Differ(full, short, id, k, j, closed)
    requires !closed ==> !Reads(line, id, numbers)
    ensures Differ(NextLine(full, line, numbers), NextLine(short, line, numbers), id, k, j, closed || IsClock(line))
  {
    hide Without, Put, Closed, LostAt;
    var l := Strip(line);
    if IsClock(line) {
      ClosedDiffer(full, short, id, k, j, closed);
    } else if l != "" {
      var parts := Words(l);
      if |parts| == 2 && full.clock.Some? && numbers.count(parts[1]).Some? && !closed {
        PutWithout(full.current, j, parts[0], numbers.count(parts[1]).value);
      }
    }
  }

  predicate AnyClock(lines: seq<string>) {
    exists i | 0 <= i < |lines| :: IsClock(lines[i])
  }

  lemma AgainSnoc(lines: seq<string>, id: string, numbers: Numbers)
    requires lines != [] && NotAgain(lines, id, numbers)
    ensures var n := |lines| - 1;
      && NotAgain(lines[..n], id, numbers)
      && (AnyClock(lines[..n]) || !Reads(lines[n], id, numbers))
      && (AnyClock(lines) <==> AnyClock(lines[..n]) || IsClock(lines[n]))
  {
    hide Reads, IsClock;
    var n := |lines| - 1;
    assert forall i | 0 <= i < n :: lines[..n][i] == lines[i];
  }

  lemma ParseSnoc(lines: seq<string>, line: string, numbers: Numbers)
    ensures ParseLines(lines + [line], numbers) == NextLine(ParseLines(lines, numbers), line, numbers)
  {
    assert (lines + [line])[..|lines|] == lines;
  }

  /** The reading itself, read or deleted. */
  lemma ReadingDiffers(before: Parse, line: string, numbers: Numbers, id: string)
    requires Reads(line, id, numbers) && before.clock.Some? && forall r | r in before.current :: r.id != id
    ensures Differ(NextLine(before, line, numbers), before, id, |before.frames|, |before.current|, false)
  {
    var usage := numbers.count(Words(Strip(line))[1]).value;
    PutNew(before.current, id, usage);
    assert Without(before.current + [Reading(id, usage)], |before.current|) == before.current;
  }

  lemma {:induction false} RestDiffers(before: seq<string>, line: string, rest: seq<string>, numbers: Numbers,
                                       id: string)
    requires Reads(line, id, numbers) && NotAgain(rest, id, numbers)
    requires ParseLines(before, numbers).clock.Some? && forall r | r in ParseLines(before, numbers).current ::
      r.id != id
    ensures var p := ParseLines(before, numbers);
      Differ(ParseLines(before + [line] + rest, numbers), ParseLines(before + rest, numbers), id,
             |p.frames|, |p.current|, AnyClock(rest))
    decreases |rest|
  {
    hide Reads, IsClock, NextLine, Differ, ParseLines, NotAgain, AnyClock;
    var p := ParseLines(before, numbers);
    if rest == [] {
      assert before + [line] + rest == before + [line] && before + rest == before;
      ParseSnoc(before, line, numbers);
      ReadingDiffers(p, line, numbers, id);
      NoClock();
    } else {
      var n := |rest| - 1;
      var full, short := before + [line] + rest[..n], before + rest[..n];
      assert rest == rest[..n] + [rest[n]];
      assert before + [line] + rest == full + [rest[n]] && before + rest == short + [rest[n]];
      AgainSnoc(rest, id, numbers);
      RestDiffers(before, line, rest[..n], numbers, id);
      ParseSnoc(full, rest[n], numbers);
      ParseSnoc(short, rest[n], numbers);
      StepDiffers(ParseLines(full, numbers), ParseLines(short, numbers), rest[n], numbers, id,
                  |p.frames|, |p.current|, AnyClock(rest[..n]));
    }
  }

  lemma NoClock()
    ensures !AnyClock([])
  {
  }

  /** The sampler's text, line by line. */
  function FramesFrom(lines: seq<string>, numbers: Numbers): seq<Frame> {
    FramesOf(Unlines(lines), numbers)
  }

  lemma FramesParsed(lines: seq<string>, numbers: Numbers)
    requires forall line | line in lines :: OneLine(line)
    ensures FramesFrom(lines, numbers) == Closed(ParseLines(lines, numbers))
  {
    LinesOfUnlines(lines);
    hide Lines, Unlines, ParseLines, Closed;
  }

  /** The line at `i` is the only reading of its container in an open frame. */
  predicate OnlyReading(lines: seq<string>, i: nat, id: string, numbers: Numbers) {
    && i < |lines| && Reads(lines[i], id, numbers) && NotAgain(lines[i + 1..], id, numbers)
    && var p := ParseLines(lines[..i], numbers);
       p.clock.Some? && forall r | r in p.current :: r.id != id
  }

  /** Deleting the line removes exactly that reading from its frame. */
  lemma LostLine(lines: seq<string>, i: nat, id: string, numbers: Numbers)
    requires OnlyReading(lines, i, id, numbers) && forall line | line in lines :: OneLine(line)
    ensures var p := ParseLines(lines[..i], numbers);
      var k, j := |p.frames|, |p.current|;
      var frames := FramesFrom(lines, numbers);
      && k < |frames| && j < |frames[k].readings| && frames[k].readings[j].id == id
      && FramesFrom(Without(lines, i), numbers) == LostAt(frames, k, j)
  {
    hide Reads, ParseLines, NotAgain, Closed, Differ, LostAt, FramesFrom, OneLine;
    var before, line, rest := lines[..i], lines[i], lines[i + 1..];
    var p := ParseLines(before, numbers);
    assert lines == before + [line] + rest && Without(lines, i) == before + rest;
    RestDiffers(before, line, rest, numbers, id);
    ClosedDiffer(ParseLines(lines, numbers), ParseLines(before + rest, numbers), id, |p.frames|, |p.current|,
      AnyClock(rest));
    FramesParsed(lines, numbers);
    FramesParsed(before + rest, numbers);
  }

  /** A failed read of one container, in the sampler's text: every other service's
      demand is the same; its own service loses one reading, and if that was neither
      its first nor its last, keeps its mean and never gains a peak. */
  lemma LostLineDemand(lines: seq<string>, i: nat, id: string, numbers: Numbers, services: map<string, string>,
                       service: string, interval: real)
    requires OnlyReading(lines, i, id, numbers) && forall line | line in lines :: OneLine(line)
    ensures var full := SamplesOf(FramesFrom(lines, numbers), services, service);
      var short := SamplesOf(FramesFrom(Without(lines, i), numbers), services, service);
      var more, less := DemandOf(service, TallyOf(full, interval)), DemandOf(service, TallyOf(short, interval));
      if id in services && services[id] == service then
        exists p :: 0 <= p < |full| && short == Without(full, p)
          && (Regular(full) && 0 < p < |full| - 1 ==>
            less.meanCores == more.meanCores && less.peakCores <= more.peakCores)
      else less == more
  {
    hide SamplesOf, TallyOf, DemandOf, Regular, Without, LostAt, FramesFrom, ParseLines, Reads, NotAgain;
    LostLine(lines, i, id, numbers);
    var p := ParseLines(lines[..i], numbers);
    LostReading(FramesFrom(lines, numbers), services, |p.frames|, |p.current|, service, interval);
  }
}

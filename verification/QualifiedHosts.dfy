/** The re-qualification gate in the host's own facts: fingerprints, records,
    readiness and what a suite records (qualification.py and trials.py). */
module QualifiedHosts {
  import opened Results
  import opened Sequences
  import opened Text
  import opened Qualification
  import opened QualificationSuites

  // Fingerprints

  predicate NoSlash(s: string) {
    forall i | 0 <= i < |s| :: s[i] != '/'
  }

  predicate Plain(fact: Option<string>) {
    fact.Some? ==> NoSlash(fact.value)
  }

  /** How a fingerprint shows a version, and an unknown one. */
  function Shown(fact: Option<string>): string {
    match fact
    case None => "?"
    case Some(text) => if |text| == 0 then "?" else text
  }

  lemma {:induction false} FirstPart(a: string, rest: string)
    requires NoSlash(a)
    ensures Parts(a + "/" + rest) == [a] + Parts(rest)
  {
    var s := a + "/" + rest;
    if a == "" {
      assert s[1..] == rest;
    } else {
      assert s[1..] == a[1..] + "/" + rest && s[0] == a[0];
      FirstPart(a[1..], rest);
      assert a == [a[0]] + a[1..];
    }
  }

  lemma {:induction false} OnlyPart(a: string)
    requires NoSlash(a)
    ensures Parts(a) == [a]
  {
    if a != "" {
      OnlyPart(a[1..]);
      assert a == [a[0]] + a[1..];
    }
  }

  lemma FourParts(a: string, b: string, c: string, d: string)
    requires NoSlash(a) && NoSlash(b) && NoSlash(c) && NoSlash(d)
    ensures Parts(a + "/" + b + "/" + c + "/" + d) == [a, b, c, d]
  {
    hide Parts, NoSlash;
    assert a + "/" + b + "/" + c + "/" + d == a + "/" + (b + "/" + (c + "/" + d));
    FirstPart(a, b + "/" + (c + "/" + d));
    FirstPart(b, c + "/" + d);
    FirstPart(c, d);
    OnlyPart(d);
  }

  lemma ShownPlain(prefix: string, fact: Option<string>)
    requires Plain(fact) && NoSlash(prefix)
    ensures NoSlash(prefix + Shown(fact)) && OrUnknown(fact) == Shown(fact)
  {
  }

  /** A fingerprint reads as the class and the three versions, each in its place. */
  lemma FingerprintParts(facts: HostFacts)
    requires Plain(facts.classId) && Plain(facts.osRelease) && Plain(facts.dockerEngine) && Plain(facts.pythonVersion)
    ensures Parts(FingerprintOf(facts)) ==
      [if facts.classId.Some? then facts.classId.value else "unclassified",
       "os" + Shown(facts.osRelease), "docker" + Shown(facts.dockerEngine), "py" + Shown(facts.pythonVersion)]
  {
    var host := if facts.classId.Some? then facts.classId.value else "unclassified";
    ShownPlain("os", facts.osRelease);
    ShownPlain("docker", facts.dockerEngine);
    ShownPlain("py", facts.pythonVersion);
    var x, y, z := Shown(facts.osRelease), Shown(facts.dockerEngine), Shown(facts.pythonVersion);
    hide Parts, Shown, OrUnknown, NoSlash;
    FourParts(host, "os" + x, "docker" + y, "py" + z);
    assert "/os" == "/" + "os" && "/docker" == "/" + "docker" && "/py" == "/" + "py";
    Tagged(host, "/os", "os", x);
    var a := host + "/" + ("os" + x);
    Tagged(a, "/docker", "docker", y);
    Tagged(a + "/" + ("docker" + y), "/py", "py", z);
  }

  lemma Tagged(a: string, slashed: string, tag: string, x: string)
    requires slashed == "/" + tag
    ensures a + slashed + x == a + "/" + (tag + x)
  {
  }

  /** Two fingerprints match exactly when both are there and the same; whatever is
      missing is never comparable, and the drift lists each place once, in order. */
  lemma ComparedExactly(observed: Option<string>, fitted: Option<string>)
    ensures var c := Compared(observed, fitted);
      && c.observed == observed && c.fitted == fitted
      && (c.matches <==> observed.Some? && observed == fitted)
      && (c.comparable <==> observed.Some? && fitted.Some?)
      && (c.matches || !c.comparable ==> c.drift == [])
      && forall i, j | 0 <= i < j < |c.drift| :: c.drift[i].index < c.drift[j].index
  {
    hide Parts;
    if observed.Some? && fitted.Some? {
      var left, right := Parts(fitted.value), Parts(observed.value);
      DriftOrdered(left, right, Width(left, right));
      hide DriftUpTo;
    }
  }

  predicate InOrder(drift: seq<Drift>, width: nat) {
    && (forall i | 0 <= i < |drift| :: drift[i].index < width)
    && forall i, j | 0 <= i < j < |drift| :: drift[i].index < drift[j].index
  }

  lemma InOrderNext(drift: seq<Drift>, width: nat, d: Drift)
    requires InOrder(drift, width) && d.index == width
    ensures InOrder(drift, width + 1) && InOrder(drift + [d], width + 1)
  {
  }

  lemma {:induction false} DriftOrdered(fitted: seq<string>, observed: seq<string>, width: nat)
    ensures InOrder(DriftUpTo(fitted, observed, width), width)
  {
    if width > 0 {
      var i := width - 1;
      DriftOrdered(fitted, observed, i);
      InOrderNext(DriftUpTo(fitted, observed, i), i, Drift(i, PartAt(fitted, i), PartAt(observed, i)));
      hide InOrder;
      assert DriftUpTo(fitted, observed, i) + [] == DriftUpTo(fitted, observed, i);
    }
  }

  // Records

  /** The record is of this class, fingerprint and bounds, over three cycles or more. */
  predicate Covers(r: Requalification, hostClass: string, fingerprint: string, fittedAt: Option<string>) {
    && fittedAt == Some(r.fittedAtCommit) && r.fittedAtCommit != ""
    && r.hostClass == hostClass && r.fingerprint == fingerprint && r.cycles >= 3
  }

  lemma CoversExactly(r: Requalification, hostClass: string, fingerprint: string, fittedAt: Option<string>)
    ensures Clears(r, hostClass, fingerprint, fittedAt) <==> Covers(r, hostClass, fingerprint, fittedAt)
  {
  }

  /** Record `k` covers, no covering record is later, and those after it are earlier. */
  ghost predicate Latest(records: seq<Requalification>, k: int, hostClass: string, fingerprint: string,
                         fittedAt: Option<string>)
  {
    && 0 <= k < |records| && Covers(records[k], hostClass, fingerprint, fittedAt)
    && (forall j | 0 <= j < |records| && Covers(records[j], hostClass, fingerprint, fittedAt) ::
          !Before(records[k].recordedAt, records[j].recordedAt))
    && (forall j | k < j < |records| && Covers(records[j], hostClass, fingerprint, fittedAt) ::
          Before(records[j].recordedAt, records[k].recordedAt))
  }

  /** The record found is the latest that covers, and of equally late ones the last. */
  lemma {:induction false} FoundExactly(records: seq<Requalification>, hostClass: string, fingerprint: string,
                                        fittedAt: Option<string>)
    ensures match Found(records, hostClass, fingerprint, fittedAt)
      case None => forall j | 0 <= j < |records| :: !Covers(records[j], hostClass, fingerprint, fittedAt)
      case Some(r) => exists k :: Latest(records, k, hostClass, fingerprint, fittedAt) && records[k] == r
  {
    if records != [] {
      hide Clears, Before, Covers;
      var n := |records| - 1;
      FoundExactly(records[..n], hostClass, fingerprint, fittedAt);
      CoversExactly(records[n], hostClass, fingerprint, fittedAt);
      var earlier := Found(records[..n], hostClass, fingerprint, fittedAt);
      if earlier.Some? {
        var k :| Latest(records[..n], k, hostClass, fingerprint, fittedAt) && records[..n][k] == earlier.value;
        LatestOfTwo(records, k, hostClass, fingerprint, fittedAt);
      } else if Covers(records[n], hostClass, fingerprint, fittedAt) {
        NeverEarlier(records[n].recordedAt);
        assert Latest(records, n, hostClass, fingerprint, fittedAt);
      }
    }
  }

  lemma NeverEarlier(t: string)
    ensures !Before(t, t)
  {
    BeforeTrichotomy(t, t);
  }

  lemma LatestOfTwo(records: seq<Requalification>, k: int, hostClass: string, fingerprint: string,
                    fittedAt: Option<string>)
    requires records != [] && Latest(records[..|records| - 1], k, hostClass, fingerprint, fittedAt)
    ensures var n := |records| - 1;
      var later := Covers(records[n], hostClass, fingerprint, fittedAt)
        && !Before(records[n].recordedAt, records[k].recordedAt);
      Latest(records, if later then n else k, hostClass, fingerprint, fittedAt)
  {
    hide Before, Covers;
    var n := |records| - 1;
    var last, best := records[n].recordedAt, records[k].recordedAt;
    BeforeTrichotomy(last, best);
    NeverEarlier(last);
    if Covers(records[n], hostClass, fingerprint, fittedAt) && !Before(last, best) {
      forall j | 0 <= j < n && Covers(records[j], hostClass, fingerprint, fittedAt)
        ensures !Before(last, records[j].recordedAt)
      {
        assert records[..n][j] == records[j];
        if Before(last, records[j].recordedAt) && last != best {
          BeforeTransitive(best, last, records[j].recordedAt);
        }
      }
    } else {
      assert forall j | 0 <= j < n :: records[..n][j] == records[j];
    }
  }

  // Readiness

  /** Why a host may or may not start scored trials: the first of these that applies. */
  function WhyReady(facts: Option<HostFacts>, fitted: Option<string>, resolved: bool, requalified: bool)
    : ReadinessReason
  {
    match facts
    case None => HostNotObserved
    case Some(host) =>
      if !resolved then NoFrozenBounds
      else if fitted == Some(FingerprintOf(host)) then FingerprintUnchanged
      else if host.classId == None then NotClassified
      else if requalified then Requalified
      else if fitted == None then NotComparable
      else Drifted
  }

  /** Readiness compares the host's own fingerprint, is allowed for exactly two reasons,
      and shows a record exactly when that record is why. */
  lemma ReadinessExactly(facts: Option<HostFacts>, fitted: Option<string>, resolved: bool, fittedAt: Option<string>,
                         records: seq<Requalification>)
    ensures var r := ScoredReadiness(facts, fitted, resolved, fittedAt, records);
      && r.comparison == Compared(if facts.Some? then Some(FingerprintOf(facts.value)) else None, fitted)
      && r.reason == WhyReady(facts, fitted, resolved,
           facts.Some? && facts.value.classId.Some? && exists i | 0 <= i < |records| ::
             Covers(records[i], facts.value.classId.value, FingerprintOf(facts.value), fittedAt))
      && (r.allowed <==> r.reason == FingerprintUnchanged || r.reason == Requalified)
      && (r.requalification.Some? <==> r.reason == Requalified)
      && (r.requalification.Some? ==>
            exists k :: Latest(records, k, facts.value.classId.value, FingerprintOf(facts.value), fittedAt)
                        && r.requalification == Some(records[k]))
  {
    hide FingerprintOf, Found, Covers, DriftUpTo, Parts, Latest;
    if facts.Some? && facts.value.classId.Some? {
      FoundExactly(records, facts.value.classId.value, FingerprintOf(facts.value), fittedAt);
      LatestCovers(records, facts.value.classId.value, FingerprintOf(facts.value), fittedAt);
    }
  }

  lemma LatestCovers(records: seq<Requalification>, hostClass: string, fingerprint: string, fittedAt: Option<string>)
    ensures forall k | Latest(records, k, hostClass, fingerprint, fittedAt) ::
      0 <= k < |records| && Covers(records[k], hostClass, fingerprint, fittedAt)
  {
  }

  // Suites

  /** The bounds are those frozen for the host's class. */
  predicate InForce(s: Suite, bounds: ToleranceSet) {
    && s.facts.Some? && s.facts.value.classId.Some?
    && s.facts.value.classId.value in s.frozen && s.frozen[s.facts.value.classId.value] == bounds
  }

  lemma {:induction false} SuccessfulCount(results: seq<Cycle>)
    ensures |Successful(results)| == Count(results, (c: Cycle) => c.ok)
    ensures forall c :: c in Successful(results) <==> c in results && c.ok
  {
    if results != [] {
      var n := |results| - 1;
      SuccessfulCount(results[..n]);
      assert results == results[..n] + [results[n]];
    }
  }

  /** A suite met its exit criterion exactly when bounds are in force and all held, it
      had as many successful cycles as planned, each with its incident verified, every
      cycle was cleaned up and lost at most five seconds, and it degraded within its
      budgets. */
  lemma ExitExactly(s: Suite)
    ensures ExitMet(s) <==>
      var m := s.measured;
      && (exists bounds :: InForce(s, bounds))
      && |m.withinTolerance| > 0 && (forall i | 0 <= i < |m.withinTolerance| :: m.withinTolerance[i])
      && |set i | 0 <= i < |m.results| && m.results[i].ok| == m.cycles
      && (forall i | 0 <= i < |m.results| ::
            && m.results[i].cleanupVerified && m.results[i].suspension <= 5.0
            && (m.results[i].ok ==> m.results[i].incidentVerified))
      && m.degraded && m.errorsWithin && m.stallsWithin
  {
    var m := s.measured;
    SuccessfulCount(m.results);
    CountIndices(m.results, (c: Cycle) => c.ok, set i | 0 <= i < |m.results| && m.results[i].ok);
    hide Successful;
    assert VerdictPossible(s) <==> (exists bounds :: InForce(s, bounds)) && |m.withinTolerance| > 0 by {
      if Resolved(s).Some? {
        assert InForce(s, Resolved(s).value);
      }
    }
    hide VerdictPossible;
    assert forall i | 0 <= i < |m.results| :: m.results[i] in m.results;
    assert forall i | 0 <= i < |m.withinTolerance| :: m.withinTolerance[i] in m.withinTolerance;
  }

  /** What a finished suite records, and when: it met its criterion over three cycles or
      more on a classified host that was not allowed before. */
  lemma RecordExactly(s: Suite, prior: seq<Requalification>, commit: string, now: string, r: Requalification)
    ensures Recordable(ReportFor(s, prior), commit, now) == Some(r) <==>
      exists bounds ::
        && InForce(s, bounds) && ExitMet(s) && s.measured.cycles >= 3
        && r == Requalification(s.facts.value.classId.value, FingerprintOf(s.facts.value), now, s.measured.cycles,
                                s.measured.suiteId, commit, bounds.fittedAtCommit)
        && r.hostClass != "" && bounds.fittedFingerprint != Some(r.fingerprint)
        && forall i | 0 <= i < |prior| :: !Covers(prior[i], r.hostClass, r.fingerprint, Some(bounds.fittedAtCommit))
  {
    hide FingerprintOf, Successful, ScoredReadiness, Covers, ExitMet;
    var bounds := Resolved(s);
    ReadinessExactly(s.facts, if bounds.Some? then bounds.value.fittedFingerprint else None, VerdictPossible(s),
      if bounds.Some? then Some(bounds.value.fittedAtCommit) else None, prior);
    ExitPossible(s);
    if s.facts.Some? {
      FingerprintThere(s.facts.value);
    }
    if bounds.Some? {
      assert InForce(s, bounds.value);
    }
  }

  lemma ExitPossible(s: Suite)
    ensures ExitMet(s) ==> VerdictPossible(s)
  {
  }

  lemma FingerprintThere(facts: HostFacts)
    ensures FingerprintOf(facts) != ""
  {
  }

  // Interleavings

  /** Only a new suite's beginning adds a suite, with the records of that moment; only a
      reload changes what it will write back to; only a write-back changes the store. */
  lemma StepExactly(w: World, step: Step, time: nat, id: nat)
    ensures var v := Stepped(w, step, time);
      && (id in v.suites <==> id in w.suites || (step.Begin? && step.id == id))
      && (id in w.suites ==>
            v.suites[id].(reloaded := None) == w.suites[id].(reloaded := None))
      && (id in w.suites && step == Reload(id) ==> v.suites[id].reloaded == Some(w.records))
      && (id in w.suites && step.id != id ==> v.suites[id] == w.suites[id])
      && (id !in w.suites && id in v.suites ==> v.suites[id] == Progress(step.suite, w.records, time, None))
      && (!step.WriteBack? ==> v.records == w.records)
      && (step.WriteBack? && step.id == id && id in w.suites && w.suites[id].reloaded.Some? ==>
            match RecordOf(w.suites[id], step.now)
            case None => v == w
            case Some(r) => v.records == w.suites[id].reloaded.value + [r] && v.suites[id].reloaded == None)
      && (step.WriteBack? && step.id == id && (id !in w.suites || w.suites[id].reloaded.None?) ==> v == w)
  {
    hide RecordOf;
  }

  lemma AfterLast(trace: seq<Step>, step: Step)
    ensures After(trace + [step]) == Stepped(After(trace), step, |trace|)
  {
    assert (trace + [step])[..|trace|] == trace;
  }

  /** On a drifted host a first suite records and is not itself allowed; a second one
      that begins afterwards, under the same bounds, is. */
  lemma SecondSuiteAllowed(s: Suite, t: Suite, now: string, r: Requalification)
    requires RecordOf(Progress(s, [], 0, None), now) == Some(r) && r.fittedAtCommit != ""
    requires t.facts == s.facts && VerdictPossible(t) && Resolved(t).value.fittedAtCommit == r.fittedAtCommit
    ensures var w := After([Begin(0, s), Reload(0), WriteBack(0, now), Begin(1, t)]);
      && 0 in w.suites && !ReportFor(s, w.suites[0].prior).readiness.allowed
      && 1 in w.suites && w.suites[1].suite == t && w.suites[1].prior == w.records == [r]
      && ReportFor(t, w.suites[1].prior).readiness.allowed
  {
    hide RecordOf, ReportFor, VerdictPossible, Resolved, ExitMet;
    AfterLast([Begin(0, s), Reload(0), WriteBack(0, now)], Begin(1, t));
    AfterLast([Begin(0, s), Reload(0)], WriteBack(0, now));
    AfterLast([Begin(0, s)], Reload(0));
    AfterLast([], Begin(0, s));
    assert [Begin(0, s), Reload(0), WriteBack(0, now), Begin(1, t)]
      == [Begin(0, s), Reload(0), WriteBack(0, now)] + [Begin(1, t)];
    assert [Begin(0, s), Reload(0), WriteBack(0, now)] == [Begin(0, s), Reload(0)] + [WriteBack(0, now)];
    assert [Begin(0, s), Reload(0)] == [Begin(0, s)] + [Reload(0)];
    assert [Begin(0, s)] == [] + [Begin(0, s)];
    RecordStays(Progress(s, [], 0, None), Some([]), now);
    RecordedMet(Progress(s, [], 0, None), now);
    NextSuiteAllowed(Progress(s, [], 0, None), now, t, [r]);
  }

  /** What a suite records does not depend on what it reloaded. */
  lemma RecordStays(p: Progress, reloaded: Option<seq<Requalification>>, now: string)
    ensures RecordOf(p.(reloaded := reloaded), now) == RecordOf(p, now)
  {
  }
}

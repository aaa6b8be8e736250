/** Suites that share one machine's qualification store: their verdicts, what they
    record, and that none clears its own gate (trials.py and qualification.py). */
module QualificationSuites {
  import opened Results
  import opened Qualification

  const MAX_SUSPENSION := 5.0

  datatype Cycle = Cycle(ok: bool, cleanupVerified: bool, incidentVerified: bool, suspension: real)

  /** One frozen set of bounds for a host class. */
  datatype ToleranceSet = ToleranceSet(fittedFingerprint: Option<string>, fittedAtCommit: string)

  /** What a suite measured: its cycles, each frozen bound's outcome, and the
      degradation and budget verdicts over its statistics. */
  datatype Measured = Measured(
    suiteId: string,
    driverCommit: string,
    cycles: int,
    results: seq<Cycle>,
    withinTolerance: seq<bool>,
    degraded: bool,
    errorsWithin: bool,
    stallsWithin: bool)

  datatype Suite = Suite(facts: Option<HostFacts>, frozen: map<string, ToleranceSet>, measured: Measured)

  datatype Report = Report(
    suiteId: string, cycles: int, exitMet: bool, verdictPossible: bool, observedClass: Option<string>,
    fittedAtCommit: Option<string>, readiness: Readiness)

  /** The frozen bounds of the observed class, if there are any. */
  function Resolved(s: Suite): Option<ToleranceSet> {
    if s.facts.Some? && s.facts.value.classId.Some? && s.facts.value.classId.value in s.frozen
    then Some(s.frozen[s.facts.value.classId.value]) else None
  }

  function Successful(results: seq<Cycle>): seq<Cycle> {
    if results == [] then []
    else Successful(results[..|results| - 1]) + if results[|results| - 1].ok then [results[|results| - 1]] else []
  }

  /** Something was checked; with no bounds resolved there are none to check. */
  predicate VerdictPossible(s: Suite) {
    Resolved(s).Some? && s.measured.withinTolerance != []
  }

  predicate ExitMet(s: Suite) {
    var m := s.measured;
    && VerdictPossible(s)
    && |Successful(m.results)| == m.cycles
    && (forall c | c in m.results :: c.cleanupVerified)
    && (forall c | c in Successful(m.results) :: c.incidentVerified)
    && (forall w | w in m.withinTolerance :: w)
    && m.degraded && m.errorsWithin && m.stallsWithin
    && forall c | c in m.results :: c.suspension <= MAX_SUSPENSION
  }

  /** The verdict part of the report, against the records read before the suite ran. */
  function ReportFor(s: Suite, prior: seq<Requalification>): Report {
    var bounds := Resolved(s);
    Report(
      s.measured.suiteId, s.measured.cycles, ExitMet(s), VerdictPossible(s),
      if s.facts.Some? then s.facts.value.classId else None,
      if bounds.Some? then Some(bounds.value.fittedAtCommit) else None,
      ScoredReadiness(s.facts, if bounds.Some? then bounds.value.fittedFingerprint else None, VerdictPossible(s),
                      if bounds.Some? then Some(bounds.value.fittedAtCommit) else None, prior))
  }

  /** What a finished suite records, if anything. */
  function Recordable(r: Report, driverCommit: string, now: string): Option<Requalification> {
    if !r.exitMet || !r.verdictPossible || r.readiness.allowed then None
    else
      var fingerprint := r.readiness.comparison.observed;
      if fingerprint.None? || fingerprint.value == "" || r.observedClass.None? || r.observedClass.value == "" then None
      else if r.cycles < MIN_CYCLES then None
      else Some(Requalification(r.observedClass.value, fingerprint.value, now, r.cycles, r.suiteId, driverCommit,
                                if r.fittedAtCommit.Some? then r.fittedAtCommit.value else ""))
  }

  class QualificationStore {
    var records: seq<Requalification>

    constructor ()
      ensures records == []
    {
      records := [];
    }

    method Load() returns (r: seq<Requalification>)
      ensures r == records
    {
      return records;
    }

    /** The file is written whole: what was read before, and the new record. */
    method Write(existing: seq<Requalification>, r: Requalification)
      modifies this
      ensures records == existing + [r]
    {
      records := existing + [r];
    }

    /** Recording reads the store again; too few cycles are refused. */
    method Record(r: Requalification) returns (ok: bool)
      modifies this
      ensures ok <==> r.cycles >= MIN_CYCLES
      ensures records == if ok then old(records) + [r] else old(records)
    {
      if r.cycles < MIN_CYCLES {
        return false;
      }
      var existing := Load();
      Write(existing, r);
      return true;
    }

    /** After the report: record a passing suite that was blocked. */
    method MaybeRecord(report: Report, driverCommit: string, now: string) returns (recorded: bool)
      modifies this
      ensures recorded <==> Recordable(report, driverCommit, now).Some?
      ensures records == if recorded then old(records) + [Recordable(report, driverCommit, now).value] else old(records)
    {
      if !report.exitMet || !report.verdictPossible || report.readiness.allowed {
        return false;
      }
      var fingerprint, hostClass := report.readiness.comparison.observed, report.observedClass;
      if fingerprint.None? || fingerprint.value == "" || hostClass.None? || hostClass.value == ""
        || report.cycles < MIN_CYCLES {
        return false;
      }
      var fittedAt := if report.fittedAtCommit.Some? then report.fittedAtCommit.value else "";
      recorded := Record(Requalification(hostClass.value, fingerprint.value, now, report.cycles, report.suiteId,
                                         driverCommit, fittedAt));
    }
  }

  // Interleaved suites

  /** A suite reads the store when it begins. When it ends, recording reads the
      store again and later writes it back, so writes of other suites may be lost
      in between. */
  datatype Step =
    | Begin(id: nat, suite: Suite)
    | Reload(id: nat)
    | WriteBack(id: nat, now: string)

  datatype Progress = Progress(suite: Suite, prior: seq<Requalification>, begun: nat,
                               reloaded: Option<seq<Requalification>>)

  datatype World = World(records: seq<Requalification>, suites: map<nat, Progress>)

  function RecordOf(p: Progress, now: string): Option<Requalification> {
    Recordable(ReportFor(p.suite, p.prior), p.suite.measured.driverCommit, now)
  }

  function Stepped(w: World, step: Step, time: nat): World {
    match step
    case Begin(id, suite) =>
      if id in w.suites then w
      else w.(suites := w.suites[id := Progress(suite, w.records, time, None)])
    case Reload(id) =>
      if id !in w.suites then w
      else w.(suites := w.suites[id := w.suites[id].(reloaded := Some(w.records))])
    case WriteBack(id, now) =>
      if id !in w.suites || w.suites[id].reloaded.None? || RecordOf(w.suites[id], now).None? then w
      else World(w.suites[id].reloaded.value + [RecordOf(w.suites[id], now).value],
                 w.suites[id := w.suites[id].(reloaded := None)])
  }

  /** A step of some suite, carried out on the store itself. */
  method Perform(store: QualificationStore, suites: map<nat, Progress>, step: Step, time: nat)
    returns (after: map<nat, Progress>)
    modifies store
    ensures World(store.records, after) == Stepped(World(old(store.records), suites), step, time)
  {
    after := suites;
    match step
    case Begin(id, suite) =>
      if id !in suites {
        var prior := store.Load();
        after := after[id := Progress(suite, prior, time, None)];
      }
    case Reload(id) =>
      if id in suites {
        var existing := store.Load();
        after := after[id := suites[id].(reloaded := Some(existing))];
      }
    case WriteBack(id, now) =>
      if id in suites && suites[id].reloaded.Some? && RecordOf(suites[id], now).Some? {
        store.Write(suites[id].reloaded.value, RecordOf(suites[id], now).value);
        after := after[id := suites[id].(reloaded := None)];
      }
  }

  /** A whole trace on a new store leaves the world that the theorems speak of. */
  method PerformAll(trace: seq<Step>) returns (store: QualificationStore, suites: map<nat, Progress>)
    ensures fresh(store) && World(store.records, suites) == After(trace)
  {
    store := new QualificationStore();
    suites := map[];
    for i := 0 to |trace|
      invariant fresh(store) && World(store.records, suites) == After(trace[..i])
    {
      assert trace[..i + 1][..i] == trace[..i];
      suites := Perform(store, suites, trace[i], i);
    }
    assert trace[..|trace|] == trace;
  }

  /** Undisturbed, reading again and writing back is recording at once: the store
      gains what `MaybeRecord` says, or nothing. */
  lemma RecordedAtOnce(w: World, id: nat, now: string, time: nat)
    requires id in w.suites
    ensures var p := w.suites[id];
      var done := Stepped(Stepped(w, Reload(id), time), WriteBack(id, now), time + 1);
      && done.records == (if RecordOf(p, now).Some? then w.records + [RecordOf(p, now).value] else w.records)
      && (RecordOf(p, now).Some? ==> RecordOf(p, now).value.cycles >= MIN_CYCLES)
  {
    hide ReportFor;
  }

  /** The world after some steps, from an empty store. */
  function After(trace: seq<Step>): World {
    if trace == [] then World([], map[])
    else Stepped(After(trace[..|trace| - 1]), trace[|trace| - 1], |trace| - 1)
  }

  /** Step `k` wrote the record: an earlier suite's, and it met its exit criterion. */
  ghost predicate WrittenAt(trace: seq<Step>, k: nat, r: Requalification)
    requires k < |trace|
  {
    && trace[k].WriteBack?
    && trace[k].id in After(trace[..k]).suites
    && RecordOf(After(trace[..k]).suites[trace[k].id], trace[k].now) == Some(r)
  }

  ghost predicate FromBefore(trace: seq<Step>, limit: nat, r: Requalification)
    requires limit <= |trace|
  {
    exists k :: 0 <= k < limit && WrittenAt(trace, k, r)
  }

  ghost predicate AllFromBefore(trace: seq<Step>, limit: nat, records: seq<Requalification>)
    requires limit <= |trace|
  {
    forall r | r in records :: FromBefore(trace, limit, r)
  }

  /** Every record anywhere was written by an earlier step; what a suite read when
      it began was written before it began. */
  ghost predicate Traced(trace: seq<Step>) {
    var w := After(trace);
    && AllFromBefore(trace, |trace|, w.records)
    && forall id | id in w.suites ::
         && w.suites[id].begun < |trace| && trace[w.suites[id].begun] == Begin(id, w.suites[id].suite)
         && AllFromBefore(trace, w.suites[id].begun, w.suites[id].prior)
         && (w.suites[id].reloaded.Some? ==> AllFromBefore(trace, |trace|, w.suites[id].reloaded.value))
  }

  lemma Extended(trace: seq<Step>, step: Step, limit: nat, later: nat, records: seq<Requalification>)
    requires limit <= |trace| && limit <= later <= |trace| + 1 && AllFromBefore(trace, limit, records)
    ensures AllFromBefore(trace + [step], later, records)
  {
    hide After, RecordOf;
    var longer := trace + [step];
    forall r | r in records
      ensures FromBefore(longer, later, r)
    {
      var k :| 0 <= k < limit && WrittenAt(trace, k, r);
      assert longer[..k] == trace[..k];
      assert WrittenAt(longer, k, r);
    }
  }

  lemma {:induction false} EverythingTraced(trace: seq<Step>)
    ensures Traced(trace)
  {
    if trace == [] {
      NothingTraced();
    } else {
      hide Traced;
      var n := |trace| - 1;
      EverythingTraced(trace[..n]);
      assert trace == trace[..n] + [trace[n]];
      TracedStep(trace[..n], trace[n]);
    }
  }

  lemma NothingTraced()
    ensures Traced([])
  {
  }

  lemma TracedStep(trace: seq<Step>, step: Step)
    requires Traced(trace)
    ensures Traced(trace + [step])
  {
    hide AllFromBefore, RecordOf;
    var longer, w := trace + [step], After(trace);
    assert longer[..|longer| - 1] == trace;
    Extended(trace, step, |trace|, |trace| + 1, w.records);
    Extended(trace, step, |trace|, |trace|, w.records);
    forall id | id in w.suites
      ensures AllFromBefore(longer, w.suites[id].begun, w.suites[id].prior)
      ensures w.suites[id].reloaded.Some? ==> AllFromBefore(longer, |longer|, w.suites[id].reloaded.value)
    {
      Extended(trace, step, w.suites[id].begun, w.suites[id].begun, w.suites[id].prior);
      if w.suites[id].reloaded.Some? {
        Extended(trace, step, |trace|, |trace| + 1, w.suites[id].reloaded.value);
      }
    }
    if step.WriteBack? && step.id in w.suites && w.suites[step.id].reloaded.Some?
      && RecordOf(w.suites[step.id], step.now).Some? {
      WriteTraced(trace, step);
    }
  }

  lemma WriteTraced(trace: seq<Step>, step: Step)
    requires Traced(trace) && step.WriteBack? && step.id in After(trace).suites
    requires var p := After(trace).suites[step.id]; p.reloaded.Some? && RecordOf(p, step.now).Some?
    ensures var p := After(trace).suites[step.id];
      AllFromBefore(trace + [step], |trace| + 1, p.reloaded.value + [RecordOf(p, step.now).value])
  {
    hide After, RecordOf;
    var longer, p := trace + [step], After(trace).suites[step.id];
    Extended(trace, step, |trace|, |trace| + 1, p.reloaded.value);
    assert longer[..|trace|] == trace;
    assert WrittenAt(longer, |trace|, RecordOf(p, step.now).value);
  }

  /** A suite's progress never changes its beginning. */
  lemma {:induction false} BegunStays(trace: seq<Step>, k: nat, id: nat)
    requires k <= |trace| && id in After(trace[..k]).suites
    ensures id in After(trace).suites
    ensures var p, q := After(trace[..k]).suites[id], After(trace).suites[id];
      p.suite == q.suite && p.prior == q.prior && p.begun == q.begun < k
    decreases |trace|
  {
    hide AllFromBefore, RecordOf;
    EverythingTraced(trace[..k]);
    if k == |trace| {
      assert trace[..k] == trace;
    } else {
      var n := |trace| - 1;
      assert trace[..n][..k] == trace[..k];
      BegunStays(trace[..n], k, id);
    }
  }

  /** A suite that recorded had met its exit criterion over at least three measured
      cycles, on the class, fingerprint and bounds it records. */
  lemma RecordedMet(p: Progress, now: string)
    requires RecordOf(p, now).Some?
    ensures var r := RecordOf(p, now).value;
      && ExitMet(p.suite) && p.suite.facts.Some? && p.suite.facts.value.classId == Some(r.hostClass)
      && FingerprintOf(p.suite.facts.value) == r.fingerprint
      && r.hostClass in p.suite.frozen && p.suite.frozen[r.hostClass].fittedAtCommit == r.fittedAtCommit
      && r.cycles == |Successful(p.suite.measured.results)| >= MIN_CYCLES
      && !ReportFor(p.suite, p.prior).readiness.allowed
  {
    hide Found, FingerprintOf;
  }

  /** Suite `j` cleared suite `i`: it recorded, before `i` began, on the same class,
      fingerprint and bounds, having met its exit criterion over three cycles. */
  ghost predicate Clearing(trace: seq<Step>, i: nat, j: nat)
    requires i in After(trace).suites
  {
    var p := After(trace).suites[i];
    && j != i && j in After(trace).suites
    && var q := After(trace).suites[j];
       && p.suite.facts.Some? && q.suite.facts.Some?
       && p.suite.facts.value.classId.Some? && q.suite.facts.value.classId == p.suite.facts.value.classId
       && FingerprintOf(q.suite.facts.value) == FingerprintOf(p.suite.facts.value)
       && Resolved(p.suite).Some? && Resolved(q.suite).Some?
       && Resolved(q.suite).value.fittedAtCommit == Resolved(p.suite).value.fittedAtCommit
       && ExitMet(q.suite) && |Successful(q.suite.measured.results)| >= MIN_CYCLES
       && q.begun < p.begun
       && exists k, r ::
         q.begun < k < p.begun && k < |trace| && trace[k].WriteBack? && trace[k].id == j && WrittenAt(trace, k, r)
  }

  /** From an empty store, over any interleaving of suites, reloads and writes: a
      suite that may start scored trials runs on the fitted fingerprint, or another
      suite had recorded, before this one began, that the same bounds hold on the
      same class and fingerprint. No suite clears its own gate. */
  lemma ScoredStartSafe(trace: seq<Step>, i: nat)
    requires i in After(trace).suites
    requires var p := After(trace).suites[i]; ReportFor(p.suite, p.prior).readiness.allowed
    ensures var s := After(trace).suites[i].suite;
      && s.facts.Some? && Resolved(s).Some?
      && (Resolved(s).value.fittedFingerprint == Some(FingerprintOf(s.facts.value))
          || exists j :: Clearing(trace, i, j))
  {
    hide After, ScoredReadiness, FingerprintOf;
    EverythingTraced(trace);
    var p := After(trace).suites[i];
    var bounds := Resolved(p.suite);
    AllowedExactly(p.suite.facts,
                   if bounds.Some? then bounds.value.fittedFingerprint else None, VerdictPossible(p.suite),
                   if bounds.Some? then Some(bounds.value.fittedAtCommit) else None, p.prior);
    if bounds.value.fittedFingerprint != Some(FingerprintOf(p.suite.facts.value)) {
      var r :| r in p.prior && Clears(r, p.suite.facts.value.classId.value, FingerprintOf(p.suite.facts.value),
        Some(bounds.value.fittedAtCommit));
      assert FromBefore(trace, p.begun, r);
      var k: nat :| k < p.begun && WrittenAt(trace, k, r);
      ClearedBy(trace, i, k, r);
    }
  }

  lemma ClearedBy(trace: seq<Step>, i: nat, k: nat, r: Requalification)
    requires Traced(trace) && i in After(trace).suites && k < After(trace).suites[i].begun && k < |trace|
      && WrittenAt(trace, k, r)
    requires var s := After(trace).suites[i].suite;
      && s.facts.Some? && s.facts.value.classId.Some? && Resolved(s).Some?
      && Clears(r, s.facts.value.classId.value, FingerprintOf(s.facts.value), Some(Resolved(s).value.fittedAtCommit))
    ensures Clearing(trace, i, trace[k].id)
  {
    hide After, Traced, RecordOf, ExitMet, FingerprintOf, Successful;
    var j := trace[k].id;
    var q := After(trace[..k]).suites[j];
    BegunStays(trace, k, j);
    EverythingTraced(trace[..k]);
    RecordedMet(q, trace[k].now);
  }

  /** A recorded suite opens the gate: a suite that reads its record is allowed to
      start on the same class and fingerprint, while the same bounds are in force. */
  lemma NextSuiteAllowed(p: Progress, now: string, next: Suite, prior: seq<Requalification>)
    requires RecordOf(p, now).Some? && RecordOf(p, now).value in prior
    requires next.facts.Some? && next.facts.value.classId == p.suite.facts.value.classId
    requires FingerprintOf(next.facts.value) == FingerprintOf(p.suite.facts.value)
    requires VerdictPossible(next) && Resolved(next).value.fittedAtCommit == RecordOf(p, now).value.fittedAtCommit != ""
    ensures ReportFor(next, prior).readiness.allowed
  {
    hide FingerprintOf, ScoredReadiness, ExitMet, Successful;
    RecordedMet(p, now);
    AllowedExactly(next.facts, Resolved(next).value.fittedFingerprint, true,
      Some(Resolved(next).value.fittedAtCommit), prior);
  }
}

/** The two independent reductions of a journal, the exported report and the
    retry-inclusive accounting, and their reconciliation (campaign.py, export and accounting). */
module CampaignReports {
  import opened Results
  import opened Sequences
  import opened JsonValues
  import opened Rosters
  import opened TrialOutcomes
  import opened Verification
  import opened Journals
  import opened JournalRefinement
  import opened CampaignProtocol

  datatype Status = Pending | Running | ExcludedTwice | Result(terminal: Terminal)

  /** The assignment fields that may leave the store. */
  datatype PublicFields = PublicFields(
    runId: string, pairId: string, arm: Arm, model: string, incident: string, seed: string,
    configurationId: string, expectedFault: bool)

  datatype ReportRow = ReportRow(
    fields: PublicFields,
    status: Status,
    attempts: int,
    harnessFailures: int,
    recordDigest: Option<string>,
    validators: Option<Marks>,
    reportedFault: Option<bool>,
    metrics: Metrics)

  const NO_METRICS := Metrics(None, None, None)

  function Public(a: Assignment): PublicFields {
    PublicFields(a.runId, a.pairId, a.arm, a.model, a.incident, a.seed, a.configurationId, a.expectedFault)
  }

  // One history

  predicate IsFinished(a: Attempt) {
    a.finished.Some?
  }

  predicate HasAgentClass(a: Attempt) {
    a.finished.Some? && IsAgentClass(a.finished.value.verified.outcome.terminal)
  }

  /** The last attempt's record, when every attempt is finished. */
  function FinalRecord(history: seq<Attempt>): Option<Finish> {
    if history != [] && Count(history, IsFinished) == |history| then history[|history| - 1].finished else None
  }

  /** The exporter's status of one assignment. */
  function StatusOf(history: seq<Attempt>): Status {
    var failures := Count(history, IsHarnessFailure);
    var final := FinalRecord(history);
    if history == [] then Pending
    else if final.None? || (failures == 1 && |history| == 1) then Running
    else if failures == 2 then ExcludedTwice
    else Result(final.value.verified.outcome.terminal)
  }

  predicate IsTerminal(s: Status) {
    s.ExcludedTwice? || (s.Result? && IsAgentClass(s.terminal))
  }

  function ReportedFault(outcome: TrialOutcome): Option<bool> {
    if outcome.submission.Some? && outcome.submission.value.Obj?
       && Get(outcome.submission.value.fields, FaultKey).Bool?
    then Some(Get(outcome.submission.value.fields, FaultKey).b) else None
  }

  function RowFor(a: Assignment, history: seq<Attempt>): ReportRow {
    var status := StatusOf(history);
    var final := FinalRecord(history);
    var failures := Count(history, IsHarnessFailure);
    if IsTerminal(status) && final.Some? then
      var record := final.value.verified;
      ReportRow(Public(a), status, |history|, failures, Some(final.value.recordDigest),
                Some(record.outcome.validators), ReportedFault(record.outcome), record.metrics)
    else
      ReportRow(Public(a), status, |history|, failures, None, None, None, NO_METRICS)
  }

  function HistoryOf(attempts: Attempts, runId: string): seq<Attempt> {
    if runId in attempts then attempts[runId] else []
  }

  function Report(rows: seq<Assignment>, attempts: Attempts): (r: seq<ReportRow>)
    ensures |r| == |rows|
    ensures forall i | 0 <= i < |rows| :: r[i] == RowFor(rows[i], HistoryOf(attempts, rows[i].runId))
  {
    seq(|rows|, i requires 0 <= i < |rows| => RowFor(rows[i], HistoryOf(attempts, rows[i].runId)))
  }

  // The accounting

  function AgentSecondsOf(m: Metrics): Option<real> { m.agentSeconds }

  function ToolCallsOf(m: Metrics): Option<real> {
    if m.toolCalls.Some? then Some(m.toolCalls.value as real) else None
  }

  function AiCreditsOf(m: Metrics): Option<real> { m.aiCredits }

  function MetricIn(a: Attempt, metric: Metrics -> Option<real>): Option<real> {
    if a.finished.Some? then metric(a.finished.value.verified.metrics) else None
  }

  function OrZero(v: Option<real>): real {
    if v.Some? then v.value else 0.0
  }

  function MetricSum(history: seq<Attempt>, metric: Metrics -> Option<real>): real {
    if history == [] then 0.0
    else MetricSum(history[..|history| - 1], metric) + OrZero(MetricIn(history[|history| - 1], metric))
  }

  function MetricCount(history: seq<Attempt>, metric: Metrics -> Option<real>): int {
    if history == [] then 0
    else MetricCount(history[..|history| - 1], metric) + if MetricIn(history[|history| - 1], metric).Some? then 1 else 0
  }

  function TotalReal(rows: seq<Assignment>, attempts: Attempts, weight: seq<Attempt> -> real): real {
    if rows == [] then 0.0
    else TotalReal(rows[..|rows| - 1], attempts, weight) + weight(HistoryOf(attempts, rows[|rows| - 1].runId))
  }

  datatype MetricTotal = MetricTotal(availableSum: Option<real>, availableAttempts: int, missingAttempts: int)

  datatype Accounting = Accounting(
    planned: int, pending: int, running: int, scored: int, excluded: int, completed: int,
    attempts: int, finishedAttempts: int, harnessFailures: int,
    agentSeconds: MetricTotal, toolCalls: MetricTotal, aiCredits: MetricTotal)

  function Scored(history: seq<Attempt>): int { Count(history, HasAgentClass) }

  function Failures(history: seq<Attempt>): int { Count(history, IsHarnessFailure) }

  function Completions(history: seq<Attempt>): int { Count(history, IsFinished) }

  function PendingWeight(history: seq<Attempt>): int { if history == [] then 1 else 0 }

  function ExcludedWeight(history: seq<Attempt>): int { if Excluded(history) then 1 else 0 }

  function TotalOf(rows: seq<Assignment>, attempts: Attempts, metric: Metrics -> Option<real>): MetricTotal {
    var available := Total(rows, attempts, h => MetricCount(h, metric));
    MetricTotal(
      if available > 0 then Some(TotalReal(rows, attempts, h => MetricSum(h, metric))) else None,
      available,
      Total(rows, attempts, AttemptCount) - available)
  }

  /** The accounting of a state: sums over every attempt, and running as what is left. */
  function Account(rows: seq<Assignment>, attempts: Attempts): Accounting {
    var pending, scored, excluded :=
      Total(rows, attempts, PendingWeight), Total(rows, attempts, Scored), Total(rows, attempts, ExcludedWeight);
    Accounting(
      |rows|, pending, |rows| - scored - excluded - pending, scored, excluded, scored + excluded,
      Total(rows, attempts, AttemptCount), Total(rows, attempts, Completions), Total(rows, attempts, Failures),
      TotalOf(rows, attempts, AgentSecondsOf), TotalOf(rows, attempts, ToolCallsOf),
      TotalOf(rows, attempts, AiCreditsOf))
  }

  // Reconciliation

  /** The shape every history of a readable journal has. */
  predicate Regular(history: seq<Attempt>) {
    && |history| <= 2
    && (|history| == 2 ==> IsHarnessFailure(history[0]))
    && forall a | a in history && a.finished.Some? ::
         (IsHarnessFailure(a) || HasAgentClass(a)) && ValidMetrics(a.finished.value.verified.metrics)
  }

  lemma HistoryRegular(store: Store, st: State, runId: string)
    requires Invariant(store, st) && runId in st.attempts
    ensures Regular(st.attempts[runId])
  {
    hide ValidSpec, BlockSettled;
    var history := st.attempts[runId];
    assert GoodHistory(store, st, runId);
    forall i | 0 <= i < |history| && history[i].finished.Some?
      ensures IsHarnessFailure(history[i]) || HasAgentClass(history[i])
      ensures ValidMetrics(history[i].finished.value.verified.metrics)
    {
      assert GoodAttempt(store, st.spec, runId, i + 1, history[i]);
      FinishedClass(store, st.spec.campaign.phase, history[i]);
    }
  }

  lemma FinishedClass(store: Store, phase: Phase, a: Attempt)
    requires a.finished.Some?
    requires Replayed(store, phase, a.binding, InKeyOrder(AsMap(a.sources))) == Ok(a.finished.value.verified)
    ensures IsHarnessFailure(a) || HasAgentClass(a)
    ensures ValidMetrics(a.finished.value.verified.metrics)
  {
    hide Verify;
    var captures := DecodeSources(store.codec, InKeyOrder(AsMap(a.sources))).value;
    VerifiedClass(a.binding, captures, store.registry, phase);
  }

  lemma CountUpToTwo(history: seq<Attempt>, p: Attempt -> bool)
    requires |history| <= 2
    ensures Count(history, p) == (if |history| > 0 && p(history[0]) then 1 else 0)
                                 + (if |history| > 1 && p(history[1]) then 1 else 0)
  {
  }

  /** Each history falls into exactly one status, and the accounting's weights
      recognise the same one; the exporter's terminal statuses are the protocol's
      terminated histories. */
  lemma StatusMatchesWeights(history: seq<Attempt>)
    requires Regular(history)
    ensures PendingWeight(history) == if StatusOf(history).Pending? then 1 else 0
    ensures ExcludedWeight(history) == if StatusOf(history).ExcludedTwice? then 1 else 0
    ensures Scored(history) == if StatusOf(history).Result? then 1 else 0
    ensures IsTerminal(StatusOf(history)) <==> StatusOf(history).ExcludedTwice? || StatusOf(history).Result?
    ensures IsTerminal(StatusOf(history)) <==> Terminated(history)
    ensures IsTerminal(StatusOf(history)) ==> FinalRecord(history).Some?
  {
    CountUpToTwo(history, IsFinished);
    CountUpToTwo(history, IsHarnessFailure);
    CountUpToTwo(history, HasAgentClass);
    assert |history| > 0 ==> history[0] in history;
    assert |history| > 1 ==> history[1] in history;
  }

  function SumRows(report: seq<ReportRow>, f: ReportRow -> int): int {
    if report == [] then 0 else SumRows(report[..|report| - 1], f) + f(report[|report| - 1])
  }

  function SumRowsReal(report: seq<ReportRow>, f: ReportRow -> real): real {
    if report == [] then 0.0 else SumRowsReal(report[..|report| - 1], f) + f(report[|report| - 1])
  }

  function PendingRow(r: ReportRow): int { if r.status.Pending? then 1 else 0 }

  function RunningRow(r: ReportRow): int { if r.status.Running? then 1 else 0 }

  function ScoredRow(r: ReportRow): int { if r.status.Result? then 1 else 0 }

  function ExcludedRow(r: ReportRow): int { if r.status.ExcludedTwice? then 1 else 0 }

  function AttemptsRow(r: ReportRow): int { r.attempts }

  function FailuresRow(r: ReportRow): int { r.harnessFailures }

  function RunningWeight(history: seq<Attempt>): int { if StatusOf(history).Running? then 1 else 0 }

  ghost predicate AllRegular(rows: seq<Assignment>, attempts: Attempts) {
    forall r | r in rows :: r.runId in attempts && Regular(attempts[r.runId])
  }

  lemma ReportPrefix(rows: seq<Assignment>, attempts: Attempts)
    requires rows != []
    ensures Report(rows, attempts)[..|rows| - 1] == Report(rows[..|rows| - 1], attempts)
  {
  }

  /** A column of the report sums to the total of the matching weight. */
  lemma {:induction false} ColumnTotal(rows: seq<Assignment>, attempts: Attempts, f: ReportRow -> int,
                                       weight: seq<Attempt> -> int)
    requires AllRegular(rows, attempts)
    requires forall a, h :: Regular(h) ==> f(RowFor(a, h)) == weight(h)
    ensures SumRows(Report(rows, attempts), f) == Total(rows, attempts, weight)
  {
    hide RowFor, Regular;
    if rows != [] {
      var n := |rows| - 1;
      assert rows == rows[..n] + [rows[n]];
      ColumnTotal(rows[..n], attempts, f, weight);
      ReportPrefix(rows, attempts);
      assert rows[n] in rows;
    }
  }

  lemma {:induction false} StatusesPartition(rows: seq<Assignment>, attempts: Attempts)
    requires AllRegular(rows, attempts)
    ensures Total(rows, attempts, PendingWeight) + Total(rows, attempts, RunningWeight)
          + Total(rows, attempts, Scored) + Total(rows, attempts, ExcludedWeight) == |rows|
    ensures Total(rows, attempts, PendingWeight) >= 0 && Total(rows, attempts, RunningWeight) >= 0
    ensures Total(rows, attempts, Scored) >= 0 && Total(rows, attempts, ExcludedWeight) >= 0
    ensures Total(rows, attempts, Scored) + Total(rows, attempts, ExcludedWeight) == |rows|
       <==> forall r | r in rows :: Terminated(attempts[r.runId])
  {
    hide StatusOf, PendingWeight, ExcludedWeight, Scored, Regular, Terminated;
    if rows != [] {
      var n := |rows| - 1;
      assert rows == rows[..n] + [rows[n]];
      StatusesPartition(rows[..n], attempts);
      assert rows[n] in rows;
      StatusMatchesWeights(attempts[rows[n].runId]);
    }
  }

  /** Every part of a readable journal's roster has regular histories. */
  lemma RosterRegular(store: Store, rows: seq<Row>)
    requires Read(store, rows).Ok?
    ensures AllRegular(Read(store, rows).value.spec.assignments, Read(store, rows).value.attempts)
  {
    hide Read, Regular, Invariant;
    var st := Read(store, rows).value;
    ReadableInvariant(store, rows);
    EveryRunListed(store, st);
    forall r | r in st.spec.assignments
      ensures Regular(st.attempts[r.runId])
    {
      HistoryRegular(store, st, r.runId);
    }
  }

  lemma ColumnsMatch(rows: seq<Assignment>, attempts: Attempts)
    requires AllRegular(rows, attempts)
    ensures var report := Report(rows, attempts);
      && SumRows(report, PendingRow) == Total(rows, attempts, PendingWeight)
      && SumRows(report, RunningRow) == Total(rows, attempts, RunningWeight)
      && SumRows(report, ScoredRow) == Total(rows, attempts, Scored)
      && SumRows(report, ExcludedRow) == Total(rows, attempts, ExcludedWeight)
      && SumRows(report, AttemptsRow) == Total(rows, attempts, AttemptCount)
      && SumRows(report, FailuresRow) == Total(rows, attempts, Failures)
  {
    hide Report, SumRows, Total, AllRegular;
    forall a: Assignment, h: seq<Attempt> | Regular(h)
      ensures PendingRow(RowFor(a, h)) == PendingWeight(h) && RunningRow(RowFor(a, h)) == RunningWeight(h)
      ensures ScoredRow(RowFor(a, h)) == Scored(h) && ExcludedRow(RowFor(a, h)) == ExcludedWeight(h)
    {
      hide StatusOf;
      StatusMatchesWeights(h);
    }
    ColumnTotal(rows, attempts, PendingRow, PendingWeight);
    ColumnTotal(rows, attempts, RunningRow, RunningWeight);
    ColumnTotal(rows, attempts, ScoredRow, Scored);
    ColumnTotal(rows, attempts, ExcludedRow, ExcludedWeight);
    ColumnTotal(rows, attempts, AttemptsRow, AttemptCount);
    ColumnTotal(rows, attempts, FailuresRow, Failures);
  }

  /** The two reductions of one readable journal reconcile: the accounting's counts
      are nonnegative, sum to the planned roster, and equal the status counts of the
      report's rows; attempts and harness failures equal the row sums; and every row
      has its final result exactly when completed equals planned. */
  lemma Reconciled(store: Store, rows: seq<Row>)
    requires Read(store, rows).Ok?
    ensures var st := Read(store, rows).value;
      var report, account := Report(st.spec.assignments, st.attempts), Account(st.spec.assignments, st.attempts);
      && account.pending >= 0 && account.running >= 0 && account.scored >= 0 && account.excluded >= 0
      && account.pending + account.running + account.scored + account.excluded == account.planned == |report|
      && account.pending == SumRows(report, PendingRow) && account.running == SumRows(report, RunningRow)
      && account.scored == SumRows(report, ScoredRow) && account.excluded == SumRows(report, ExcludedRow)
      && account.attempts == SumRows(report, AttemptsRow)
      && account.harnessFailures == SumRows(report, FailuresRow)
      && ((forall r | r in report :: IsTerminal(r.status)) <==> account.completed == account.planned)
  {
    hide Read, Invariant, Regular, Total, SumRows, StatusOf, Terminated, TotalOf, IsTerminal;
    RosterRegular(store, rows);
    var st := Read(store, rows).value;
    var assignments := st.spec.assignments;
    StatusesPartition(assignments, st.attempts);
    ColumnsMatch(assignments, st.attempts);
    TerminalRows(assignments, st.attempts);
  }

  lemma TerminalRows(rows: seq<Assignment>, attempts: Attempts)
    requires AllRegular(rows, attempts)
    ensures (forall r | r in Report(rows, attempts) :: IsTerminal(r.status))
       <==> forall r | r in rows :: r.runId in attempts && Terminated(attempts[r.runId])
  {
    hide StatusOf, Terminated, Regular;
    var report := Report(rows, attempts);
    forall i | 0 <= i < |rows|
      ensures IsTerminal(report[i].status) <==> rows[i].runId in attempts && Terminated(attempts[rows[i].runId])
    {
      assert rows[i] in rows;
      StatusMatchesWeights(attempts[rows[i].runId]);
    }
    assert forall i | 0 <= i < |rows| :: report[i] in report && rows[i] in rows;
  }

  // Metric sums

  ghost predicate NonNegative(metric: Metrics -> Option<real>) {
    && (forall m :: ValidMetrics(m) ==> OrZero(metric(m)) >= 0.0)
    && metric(NO_METRICS) == None
  }

  lemma RowMetricCovered(a: Assignment, history: seq<Attempt>, metric: Metrics -> Option<real>)
    requires Regular(history) && NonNegative(metric)
    ensures var v := metric(RowFor(a, history).metrics);
      && OrZero(v) <= MetricSum(history, metric)
      && MetricCount(history, metric) >= 0
      && (v.Some? ==> MetricCount(history, metric) > 0)
  {
  }

  lemma {:induction false} MetricTotalsCover(rows: seq<Assignment>, attempts: Attempts, metric: Metrics -> Option<real>)
    requires AllRegular(rows, attempts) && NonNegative(metric)
    ensures SumRowsReal(Report(rows, attempts), (r: ReportRow) => OrZero(metric(r.metrics)))
         <= TotalReal(rows, attempts, h => MetricSum(h, metric))
    ensures Total(rows, attempts, h => MetricCount(h, metric)) >= 0
    ensures (exists r | r in Report(rows, attempts) :: metric(r.metrics).Some?)
        ==> Total(rows, attempts, h => MetricCount(h, metric)) > 0
  {
    hide RowFor, MetricSum, MetricCount, Regular, NonNegative;
    if rows != [] {
      var n := |rows| - 1;
      assert rows == rows[..n] + [rows[n]];
      MetricTotalsCover(rows[..n], attempts, metric);
      ReportPrefix(rows, attempts);
      assert rows[n] in rows;
      RowMetricCovered(rows[n], attempts[rows[n].runId], metric);
      var report := Report(rows, attempts);
      assert report == report[..n] + [report[n]];
    }
  }

  /** Each retry-inclusive sum is at least the same metric summed over the exported
      final attempts, and is available whenever one of them is. */
  lemma MetricsReconciled(store: Store, rows: seq<Row>, metric: Metrics -> Option<real>)
    requires Read(store, rows).Ok?
    requires metric == AgentSecondsOf || metric == ToolCallsOf || metric == AiCreditsOf
    ensures var st := Read(store, rows).value;
      var report := Report(st.spec.assignments, st.attempts);
      var total := TotalOf(st.spec.assignments, st.attempts, metric);
      && ((exists r | r in report :: metric(r.metrics).Some?) ==> total.availableSum.Some?)
      && (total.availableSum.Some? ==>
            SumRowsReal(report, (r: ReportRow) => OrZero(metric(r.metrics))) <= total.availableSum.value)
  {
    hide Read, Report, Total, TotalReal, SumRowsReal, AllRegular;
    RosterRegular(store, rows);
    var st := Read(store, rows).value;
    MetricTotalsCover(st.spec.assignments, st.attempts, metric);
  }
}

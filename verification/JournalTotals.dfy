/** The retry-inclusive totals, event by event: what the accounting says of a
    journal, in the journal's own events (campaign.py, accounting). */
module JournalTotals {
  import opened Results
  import opened Sequences
  import opened Rosters
  import opened TrialOutcomes
  import opened Verification
  import opened Journals
  import opened JournalRefinement
  import opened JournalHistory
  import opened CampaignProtocol
  import opened CampaignReports

  type Field = Metrics -> Option<real>

  function Seconds(m: Metrics): Option<real> { m.agentSeconds }

  function Calls(m: Metrics): Option<real> {
    match m.toolCalls
    case None => None
    case Some(n) => Some(n as real)
  }

  function Credits(m: Metrics): Option<real> { m.aiCredits }

  // Over the events of a journal

  function DataOf(codec: Codec, row: Row): Option<Data> {
    match codec.decode(row.payload)
    case Ok(event) => Some(event.data)
    case Err => None
  }

  /** What one row's event adds to a metric. */
  function Added(codec: Codec, row: Row, field: Field): Option<real> {
    match DataOf(codec, row)
    case Some(Finished(_, _, verified)) => field(verified.metrics)
    case _ => None
  }

  function SumOver(codec: Codec, rows: seq<Row>, field: Field): real {
    if rows == [] then 0.0
    else
      var n := |rows| - 1;
      SumOver(codec, rows[..n], field) + match Added(codec, rows[n], field) case None => 0.0 case Some(v) => v
  }

  predicate StartRow(codec: Codec, row: Row) {
    DataOf(codec, row).Some? && DataOf(codec, row).value.Started?
  }

  predicate FinishRow(codec: Codec, row: Row) {
    DataOf(codec, row).Some? && DataOf(codec, row).value.Finished?
  }

  /** The class a finished event records. */
  function ClassOf(codec: Codec, row: Row): Option<Terminal> {
    match DataOf(codec, row)
    case Some(Finished(_, _, verified)) => Some(verified.outcome.terminal)
    case _ => None
  }

  // Over one history

  lemma CountLast<T>(s: seq<T>, x: T, p: T -> bool)
    ensures Count(s + [x], p) == Count(s, p) + if p(x) then 1 else 0
  {
    assert (s + [x])[..|s|] == s;
  }

  /** A step leaves the earlier attempts of a run alone. */
  lemma EffectLast(history: seq<Attempt>, data: Data, recordDigest: string)
    requires !data.Prepared? && (!data.Started? ==> history != [] && history[|history| - 1].finished.None?)
    ensures data.Started? ==> Effect(history, data, recordDigest) == history + [Attempt(data.binding, [], None)]
    ensures !data.Started? ==>
      var n := |history| - 1;
      var after := Effect(history, data, recordDigest);
      && |after| == n + 1 && history == history[..n] + [history[n]] && after == history[..n] + [after[n]]
      && after[n].finished == if data.Finished? then Some(Finish(data.verified, recordDigest)) else None
  {
  }

  /** A property of finished attempts is counted once more exactly by the finish of
      an attempt that has it. */
  lemma CountEffect(history: seq<Attempt>, data: Data, recordDigest: string, p: Attempt -> bool)
    requires !data.Prepared? && (!data.Started? ==> history != [] && history[|history| - 1].finished.None?)
    requires forall a: Attempt :: a.finished.None? ==> !p(a)
    ensures var after := Effect(history, data, recordDigest);
      Count(after, p) == Count(history, p) + if data.Finished? && p(after[|after| - 1]) then 1 else 0
  {
    hide Count, Effect;
    EffectLast(history, data, recordDigest);
    if data.Started? {
      CountLast(history, Attempt(data.binding, [], None), p);
    } else {
      var n := |history| - 1;
      CountLast(history[..n], history[n], p);
      CountLast(history[..n], Effect(history, data, recordDigest)[n], p);
    }
  }

  lemma SumLast(history: seq<Attempt>, a: Attempt, metric: Field)
    ensures MetricSum(history + [a], metric) == MetricSum(history, metric) + OrZero(MetricIn(a, metric))
    ensures MetricCount(history + [a], metric) == MetricCount(history, metric) + if MetricIn(a, metric).Some? then 1
      else 0
  {
    assert (history + [a])[..|history|] == history;
  }

  lemma SumEffect(history: seq<Attempt>, data: Data, recordDigest: string, metric: Field)
    requires !data.Prepared? && (!data.Started? ==> history != [] && history[|history| - 1].finished.None?)
    ensures var after := Effect(history, data, recordDigest);
      var v := if data.Finished? then metric(data.verified.metrics) else None;
      && MetricSum(after, metric) == MetricSum(history, metric) + OrZero(v)
      && MetricCount(after, metric) == MetricCount(history, metric) + if v.Some? then 1 else 0
  {
    hide MetricSum, MetricCount, Effect;
    EffectLast(history, data, recordDigest);
    if data.Started? {
      SumLast(history, Attempt(data.binding, [], None), metric);
    } else {
      var n := |history| - 1;
      SumLast(history[..n], history[n], metric);
      SumLast(history[..n], Effect(history, data, recordDigest)[n], metric);
    }
  }

  // Over a whole roster

  /** The event may be the next one of a run with this history. */
  predicate Follows(history: seq<Attempt>, data: Data) {
    !data.Prepared? && (!data.Started? ==> history != [] && history[|history| - 1].finished.None?)
  }

  /** The weight of a run's history goes up by one with each of these rows, and with no other. */
  ghost predicate Tallies(codec: Codec, weight: seq<Attempt> -> int, q: Row -> bool) {
    && weight([]) == 0
    && (forall row: Row | DataOf(codec, row).Some? && DataOf(codec, row).value.Prepared? :: !q(row))
    && forall row: Row, history | DataOf(codec, row).Some? && Follows(history, DataOf(codec, row).value) ::
         weight(Effect(history, DataOf(codec, row).value, codec.digest(row.payload)))
         == weight(history) + if q(row) then 1 else 0
  }

  lemma {:induction false} EmptyTotals(rows: seq<Assignment>, attempts: Attempts, weight: seq<Attempt> -> int,
                                       amount: seq<Attempt> -> real)
    requires forall r | r in attempts :: attempts[r] == []
    requires weight([]) == 0 && amount([]) == 0.0
    ensures Total(rows, attempts, weight) == 0 && TotalReal(rows, attempts, amount) == 0.0
  {
    if rows != [] {
      EmptyTotals(rows[..|rows| - 1], attempts, weight, amount);
    }
  }

  lemma {:induction false} TotalRealElsewhere(rows: seq<Assignment>, attempts: Attempts, amount: seq<Attempt> -> real,
                                              runId: string, history: seq<Attempt>)
    requires runId !in RunIds(rows)
    ensures TotalReal(rows, attempts[runId := history], amount) == TotalReal(rows, attempts, amount)
  {
    if rows != [] {
      var n := |rows| - 1;
      assert rows == rows[..n] + [rows[n]];
      TotalRealElsewhere(rows[..n], attempts, amount, runId, history);
    }
  }

  lemma {:induction false} TotalRealUpdate(rows: seq<Assignment>, attempts: Attempts, amount: seq<Attempt> -> real,
                                           runId: string, history: seq<Attempt>)
    requires UniqueRuns(rows) && runId in RunIds(rows) && runId in attempts
    ensures TotalReal(rows, attempts[runId := history], amount)
         == TotalReal(rows, attempts, amount) - amount(attempts[runId]) + amount(history)
  {
    var n := |rows| - 1;
    assert rows == rows[..n] + [rows[n]];
    if rows[n].runId == runId {
      assert runId !in RunIds(rows[..n]);
      TotalRealElsewhere(rows[..n], attempts, amount, runId, history);
    } else {
      TotalRealUpdate(rows[..n], attempts, amount, runId, history);
    }
  }

  /** What an admitted event does to the attempts: it follows its own run's history. */
  lemma StepFollows(store: Store, st: State, data: Data)
    requires Invariant(store, st) && Admits(store, st, data)
    ensures Follows([], data) || !data.Started?
    ensures !data.Prepared? && UniqueRuns(st.spec.assignments)
    ensures data.binding.assignment.runId in st.attempts
    ensures data.binding.assignment.runId in RunIds(st.spec.assignments)
    ensures Follows(st.attempts[data.binding.assignment.runId], data)
  {
    hide GoodHistory, Replayed, BlockSettled, DecodeSource, CanStart;
  }

  /** A tallied weight, summed over the roster, counts the journal's rows. */
  lemma {:induction false} TallyCounts(store: Store, rows: seq<Row>, weight: seq<Attempt> -> int, q: Row -> bool)
    requires Read(store, rows).Ok? && Tallies(store.codec, weight, q)
    ensures var st := Read(store, rows).value;
      Total(st.spec.assignments, st.attempts, weight) == Count(rows, q)
  {
    hide Admits, Read, Invariant, Effect, UniqueRuns, RunIds, Total, Count, TotalReal;
    LastRow(store, rows);
    var st, n := Read(store, rows).value, |rows| - 1;
    var data := EventOf(store, rows[n]).data;
    assert rows == rows[..n] + [rows[n]];
    CountLast(rows[..n], rows[n], q);
    if n == 0 {
      CountAll(rows[..0], q);
      EmptyTotals(st.spec.assignments, st.attempts, weight, h => 0.0);
    } else {
      TallyCounts(store, rows[..n], weight, q);
      ReadableInvariant(store, rows[..n]);
      var before := Read(store, rows[..n]).value;
      StepFollows(store, before, data);
      var runId, dig := data.binding.assignment.runId, store.codec.digest(rows[n].payload);
      assert DataOf(store.codec, rows[n]) == Some(data) && Follows(before.attempts[runId], data);
      TotalUpdate(before.spec.assignments, before.attempts, weight, runId,
        Effect(before.attempts[runId], data, dig));
    }
  }

  /** A metric's sums, summed over the roster, add up the journal's finished events. */
  lemma {:induction false} SumsAdded(store: Store, rows: seq<Row>, field: Field)
    requires Read(store, rows).Ok?
    ensures var st := Read(store, rows).value;
      TotalReal(st.spec.assignments, st.attempts, h => MetricSum(h, field)) == SumOver(store.codec, rows, field)
  {
    hide Admits, Read, Invariant, Effect, UniqueRuns, RunIds, Total, TotalReal;
    LastRow(store, rows);
    var st, n := Read(store, rows).value, |rows| - 1;
    var data := EventOf(store, rows[n]).data;
    var amount := h => MetricSum(h, field);
    assert rows[..0] == [];
    if n == 0 {
      EmptyTotals(st.spec.assignments, st.attempts, h => 0, amount);
    } else {
      SumsAdded(store, rows[..n], field);
      ReadableInvariant(store, rows[..n]);
      var before := Read(store, rows[..n]).value;
      StepFollows(store, before, data);
      var runId, dig := data.binding.assignment.runId, store.codec.digest(rows[n].payload);
      SumEffect(before.attempts[runId], data, dig, field);
      TotalRealUpdate(before.spec.assignments, before.attempts, amount, runId,
        Effect(before.attempts[runId], data, dig));
    }
  }

  // The accounting

  /** A metric total as the journal's events give it: the sum and the number of the
      finished events that carry the metric, and how many started attempts do not. */
  ghost predicate TotalFrom(codec: Codec, rows: seq<Row>, total: MetricTotal, field: Field) {
    && total.availableAttempts == Count(rows, row => Added(codec, row, field).Some?)
    && total.missingAttempts == Count(rows, row => StartRow(codec, row)) - total.availableAttempts
    && total.availableSum == if total.availableAttempts > 0 then Some(SumOver(codec, rows, field)) else None
  }

  lemma CountedMetric(store: Store, rows: seq<Row>, field: Field)
    requires Read(store, rows).Ok?
    ensures var st, codec := Read(store, rows).value, store.codec;
      Total(st.spec.assignments, st.attempts, h => MetricCount(h, field))
      == Count(rows, row => Added(codec, row, field).Some?)
  {
    hide Read, Total, Count, Effect;
    var codec := store.codec;
    var q := (row: Row) => Added(codec, row, field).Some?;
    var weight := (h: seq<Attempt>) => MetricCount(h, field);
    forall row: Row, history |
      DataOf(codec, row).Some? && Follows(history, DataOf(codec, row).value)
      ensures weight(Effect(history, DataOf(codec, row).value, codec.digest(row.payload)))
        == weight(history) + if q(row) then 1 else 0
    {
      SumEffect(history, DataOf(codec, row).value, codec.digest(row.payload), field);
    }
    TallyCounts(store, rows, weight, q);
  }

  lemma CountedStarts(store: Store, rows: seq<Row>)
    requires Read(store, rows).Ok?
    ensures var st, codec := Read(store, rows).value, store.codec;
      Total(st.spec.assignments, st.attempts, AttemptCount) == Count(rows, row => StartRow(codec, row))
  {
    hide Read, Total, Count;
    var codec := store.codec;
    TallyCounts(store, rows, AttemptCount, row => StartRow(codec, row));
  }

  lemma CountedFinishes(store: Store, rows: seq<Row>)
    requires Read(store, rows).Ok?
    ensures var st, codec := Read(store, rows).value, store.codec;
      && Total(st.spec.assignments, st.attempts, Completions) == Count(rows, row => FinishRow(codec, row))
      && Total(st.spec.assignments, st.attempts, Failures)
         == Count(rows, row => ClassOf(codec, row) == Some(HarnessFailure))
      && Total(st.spec.assignments, st.attempts, CampaignReports.Scored)
         == Count(rows, row => ClassOf(codec, row).Some? && IsAgentClass(ClassOf(codec, row).value))
  {
    hide Read, Total, Count, Effect;
    var codec := store.codec;
    var finished := (row: Row) => FinishRow(codec, row);
    var failed := (row: Row) => ClassOf(codec, row) == Some(HarnessFailure);
    var scored := (row: Row) => ClassOf(codec, row).Some? && IsAgentClass(ClassOf(codec, row).value);
    CountAll<Attempt>([], IsFinished);
    CountAll<Attempt>([], IsHarnessFailure);
    CountAll<Attempt>([], HasAgentClass);
    forall row: Row, history | DataOf(codec, row).Some? && Follows(history, DataOf(codec, row).value)
      ensures var after := Effect(history, DataOf(codec, row).value, codec.digest(row.payload));
        && Completions(after) == Completions(history) + (if finished(row) then 1 else 0)
        && Failures(after) == Failures(history) + (if failed(row) then 1 else 0)
        && CampaignReports.Scored(after) == CampaignReports.Scored(history) + if scored(row) then 1 else 0
    {
      var data, dig := DataOf(codec, row).value, codec.digest(row.payload);
      EffectLast(history, data, dig);
      CountEffect(history, data, dig, IsFinished);
      CountEffect(history, data, dig, IsHarnessFailure);
      CountEffect(history, data, dig, HasAgentClass);
    }
    TallyCounts(store, rows, Completions, finished);
    TallyCounts(store, rows, Failures, failed);
    TallyCounts(store, rows, CampaignReports.Scored, scored);
  }

  /** The accounting of a readable journal, read off its events: every attempt started,
      every one finished and with which class, and for each metric its sum over all
      finished events, the failed first attempts among them. */
  lemma AccountFromJournal(store: Store, rows: seq<Row>)
    requires Read(store, rows).Ok?
    ensures var st, codec := Read(store, rows).value, store.codec;
      var account := Account(st.spec.assignments, st.attempts);
      && account.planned == |st.spec.assignments|
      && account.attempts == Count(rows, row => StartRow(codec, row))
      && account.finishedAttempts == Count(rows, row => FinishRow(codec, row))
      && account.harnessFailures == Count(rows, row => ClassOf(codec, row) == Some(HarnessFailure))
      && account.scored == Count(rows, row => ClassOf(codec, row).Some? && IsAgentClass(ClassOf(codec, row).value))
      && TotalFrom(codec, rows, account.agentSeconds, Seconds)
      && TotalFrom(codec, rows, account.toolCalls, Calls)
      && TotalFrom(codec, rows, account.aiCredits, Credits)
  {
    hide Read, Total, TotalReal, Count, SumOver;
    CountedStarts(store, rows);
    CountedFinishes(store, rows);
    MetricFromJournal(store, rows, AgentSecondsOf, Seconds);
    MetricFromJournal(store, rows, ToolCallsOf, Calls);
    MetricFromJournal(store, rows, AiCreditsOf, Credits);
  }

  lemma {:induction false} SameMetric(codec: Codec, rows: seq<Row>, metric: Field, field: Field)
    requires forall m :: metric(m) == field(m)
    ensures SumOver(codec, rows, metric) == SumOver(codec, rows, field)
    ensures Count(rows, row => Added(codec, row, metric).Some?) == Count(rows, row => Added(codec, row, field).Some?)
  {
    if rows != [] {
      SameMetric(codec, rows[..|rows| - 1], metric, field);
    }
  }

  lemma MetricFromJournal(store: Store, rows: seq<Row>, metric: Field, field: Field)
    requires Read(store, rows).Ok? && forall m :: metric(m) == field(m)
    ensures var st := Read(store, rows).value;
      TotalFrom(store.codec, rows, TotalOf(st.spec.assignments, st.attempts, metric), field)
  {
    hide Read, Total, TotalReal, Count, SumOver;
    CountedStarts(store, rows);
    CountedMetric(store, rows, metric);
    SumsAdded(store, rows, metric);
    SameMetric(store.codec, rows, metric, field);
  }

  // Event by event

  /** How one event changes a metric's total. */
  ghost predicate TotalStep(before: MetricTotal, after: MetricTotal, started: bool, carried: Option<real>) {
    && after.availableAttempts == before.availableAttempts + (if carried.Some? then 1 else 0)
    && after.missingAttempts == before.missingAttempts + (if started then 1 else 0) - (if carried.Some? then 1 else 0)
    && after.availableSum == match carried
                             case None => before.availableSum
                             case Some(v) => Some(v + OrZero(before.availableSum))
  }

  lemma {:induction false} NothingCarried(codec: Codec, rows: seq<Row>, field: Field)
    requires Count(rows, row => Added(codec, row, field).Some?) == 0
    ensures SumOver(codec, rows, field) == 0.0
  {
    if rows != [] {
      NothingCarried(codec, rows[..|rows| - 1], field);
    }
  }

  lemma TotalSteps(codec: Codec, rows: seq<Row>, row: Row, before: MetricTotal, after: MetricTotal, field: Field)
    requires TotalFrom(codec, rows, before, field) && TotalFrom(codec, rows + [row], after, field)
    ensures TotalStep(before, after, StartRow(codec, row), Added(codec, row, field))
  {
    hide Count;
    CountLast(rows, row, r => Added(codec, r, field).Some?);
    CountLast(rows, row, r => StartRow(codec, r));
    assert (rows + [row])[..|rows|] == rows;
    if before.availableAttempts == 0 {
      NothingCarried(codec, rows, field);
    }
  }

  /** A prepared campaign has no attempts and no totals. */
  lemma PreparedAccount(store: Store, row: Row)
    requires Read(store, [row]).Ok?
    ensures var st := Read(store, [row]).value;
      var account := Account(st.spec.assignments, st.attempts);
      && account.attempts == account.finishedAttempts == account.harnessFailures == account.scored == 0
      && account.agentSeconds == account.toolCalls == account.aiCredits == MetricTotal(None, 0, 0)
  {
    hide Read, Account;
    AccountFromJournal(store, [row]);
    LastRow(store, [row]);
    assert [row][..0] == [];
  }

  /** A start adds one missing attempt to every total, a capture changes nothing, and a
      finish adds exactly the metrics its event records, whatever its class. */
  lemma AccountSteps(store: Store, rows: seq<Row>, row: Row)
    requires rows != [] && Read(store, rows + [row]).Ok?
    ensures Read(store, rows).Ok? && DataOf(store.codec, row).Some?
    ensures var st, st' := Read(store, rows).value, Read(store, rows + [row]).value;
      var before, after := Account(st.spec.assignments, st.attempts), Account(st'.spec.assignments, st'.attempts);
      var data := DataOf(store.codec, row).value;
      var metrics := if data.Finished? then data.verified.metrics else NO_METRICS;
      && TotalStep(before.agentSeconds, after.agentSeconds, data.Started?, Seconds(metrics))
      && TotalStep(before.toolCalls, after.toolCalls, data.Started?, Calls(metrics))
      && TotalStep(before.aiCredits, after.aiCredits, data.Started?, Credits(metrics))
  {
    hide Read, Account, TotalFrom, TotalStep;
    var n := |rows|;
    LastRow(store, rows + [row]);
    assert (rows + [row])[..n] == rows && (rows + [row])[n] == row;
    AccountFromJournal(store, rows);
    AccountFromJournal(store, rows + [row]);
    var st, st' := Read(store, rows).value, Read(store, rows + [row]).value;
    var before, after := Account(st.spec.assignments, st.attempts), Account(st'.spec.assignments, st'.attempts);
    TotalSteps(store.codec, rows, row, before.agentSeconds, after.agentSeconds, Seconds);
    TotalSteps(store.codec, rows, row, before.toolCalls, after.toolCalls, Calls);
    TotalSteps(store.codec, rows, row, before.aiCredits, after.aiCredits, Credits);
  }

  // One run

  /** The row is an event of this run. */
  predicate OfRun(codec: Codec, row: Row, runId: string) {
    match DataOf(codec, row)
    case None | Some(Prepared(_)) => false
    case Some(Started(b)) => b.assignment.runId == runId
    case Some(Captured(b, _, _)) => b.assignment.runId == runId
    case Some(Finished(b, _, _)) => b.assignment.runId == runId
  }

  /** A tallied weight of one run counts that run's rows. */
  lemma {:induction false} RunTally(store: Store, rows: seq<Row>, runId: string, weight: seq<Attempt> -> int,
                                    q: Row -> bool)
    requires Read(store, rows).Ok? && Tallies(store.codec, weight, q)
    requires runId in Read(store, rows).value.attempts
    ensures weight(Read(store, rows).value.attempts[runId])
         == Count(rows, row => OfRun(store.codec, row, runId) && q(row))
  {
    hide Admits, Read, Invariant, Effect, Count;
    LastRow(store, rows);
    var n := |rows| - 1;
    var data, codec := EventOf(store, rows[n]).data, store.codec;
    var mine := (row: Row) => OfRun(codec, row, runId) && q(row);
    assert rows == rows[..n] + [rows[n]];
    CountLast(rows[..n], rows[n], mine);
    if n == 0 {
      CountAll(rows[..0], mine);
    } else {
      ReadableInvariant(store, rows[..n]);
      var before := Read(store, rows[..n]).value;
      StepFollows(store, before, data);
      SameRuns(before.attempts, data, codec.digest(rows[n].payload));
      RunTally(store, rows[..n], runId, weight, q);
      assert DataOf(codec, rows[n]) == Some(data) && Follows(before.attempts[data.binding.assignment.runId], data);
    }
  }

  function Starts(codec: Codec, rows: seq<Row>, runId: string): nat {
    Count(rows, row => OfRun(codec, row, runId) && StartRow(codec, row))
  }

  /** How often a run's attempts were finished with this class. */
  function Finishes(codec: Codec, rows: seq<Row>, runId: string, t: Terminal): nat {
    Count(rows, row => OfRun(codec, row, runId) && ClassOf(codec, row) == Some(t))
  }

  predicate Ended(a: Attempt, t: Terminal) {
    a.finished.Some? && a.finished.value.verified.outcome.terminal == t
  }

  lemma RunFinishes(store: Store, rows: seq<Row>, runId: string, t: Terminal)
    requires Read(store, rows).Ok? && runId in Read(store, rows).value.attempts
    ensures Count(Read(store, rows).value.attempts[runId], a => Ended(a, t)) == Finishes(store.codec, rows, runId, t)
  {
    hide Read, Count, Effect;
    var codec := store.codec;
    var ended := (a: Attempt) => Ended(a, t);
    var weight := (h: seq<Attempt>) => Count(h, ended);
    var q := (row: Row) => ClassOf(codec, row) == Some(t);
    CountAll([], ended);
    forall row: Row, history | DataOf(codec, row).Some? && Follows(history, DataOf(codec, row).value)
      ensures weight(Effect(history, DataOf(codec, row).value, codec.digest(row.payload)))
        == weight(history) + if q(row) then 1 else 0
    {
      var data, dig := DataOf(codec, row).value, codec.digest(row.payload);
      EffectLast(history, data, dig);
      CountEffect(history, data, dig, ended);
    }
    RunTally(store, rows, runId, weight, q);
    SameCount(rows, row => OfRun(codec, row, runId) && q(row),
      row => OfRun(codec, row, runId) && ClassOf(codec, row) == Some(t));
  }

  lemma {:induction false} SameCount<T>(s: seq<T>, p: T -> bool, q: T -> bool)
    requires forall x :: p(x) <==> q(x)
    ensures Count(s, p) == Count(s, q)
  {
    if s != [] {
      SameCount(s[..|s| - 1], p, q);
    }
  }

  lemma RunStarts(store: Store, rows: seq<Row>, runId: string)
    requires Read(store, rows).Ok? && runId in Read(store, rows).value.attempts
    ensures |Read(store, rows).value.attempts[runId]| == Starts(store.codec, rows, runId)
  {
    hide Read, Count;
    var codec := store.codec;
    var q := (row: Row) => StartRow(codec, row);
    RunTally(store, rows, runId, AttemptCount, q);
    SameCount(rows, row => OfRun(codec, row, runId) && q(row), row => OfRun(codec, row, runId) && StartRow(codec, row));
  }

  /** The status of a history, in the classes its attempts ended with. */
  lemma StatusByClasses(history: seq<Attempt>)
    requires Regular(history)
    ensures var failures := Count(history, a => Ended(a, HarnessFailure));
      && Failures(history) == failures
      && (StatusOf(history).Pending? <==> history == [])
      && (StatusOf(history).ExcludedTwice? <==> failures == 2)
    ensures forall t :: StatusOf(history) == Result(t) <==> IsAgentClass(t) && Count(history, a => Ended(a, t)) > 0
  {
    hide Count;
    SameCount(history, IsHarnessFailure, a => Ended(a, HarnessFailure));
    CountUpToTwo(history, IsFinished);
    CountUpToTwo(history, IsHarnessFailure);
    assert |history| > 0 ==> history[0] in history;
    assert |history| > 1 ==> history[1] in history;
    forall t
      ensures StatusOf(history) == Result(t) <==> IsAgentClass(t) && Count(history, a => Ended(a, t)) > 0
    {
      CountUpToTwo(history, a => Ended(a, t));
    }
  }

  /** An exported row, read off the journal: its attempts are the run's started events,
      its status is pending when there is none, excluded after two harness failures, and
      the result of the one event that ended an attempt with an agent class; the row
      copies the public fields, and shows a result exactly when it has a record. */
  lemma RowFromJournal(store: Store, rows: seq<Row>, a: Assignment)
    requires Read(store, rows).Ok? && a in Read(store, rows).value.spec.assignments
    ensures a.runId in Read(store, rows).value.attempts
    ensures var row := RowFor(a, Read(store, rows).value.attempts[a.runId]);
      && row.attempts == Starts(store.codec, rows, a.runId)
      && row.harnessFailures == Finishes(store.codec, rows, a.runId, HarnessFailure)
      && (row.status == Pending <==> Starts(store.codec, rows, a.runId) == 0)
      && (row.status == ExcludedTwice <==> Finishes(store.codec, rows, a.runId, HarnessFailure) == 2)
      && (forall t :: row.status == Result(t) <==> IsAgentClass(t) && Finishes(store.codec, rows, a.runId, t) > 0)
      && row.fields.runId == a.runId && row.fields.pairId == a.pairId && row.fields.arm == a.arm
      && row.fields.model == a.model && row.fields.incident == a.incident && row.fields.seed == a.seed
      && row.fields.configurationId == a.configurationId && row.fields.expectedFault == a.expectedFault
      && (row.recordDigest.Some? <==> row.status.ExcludedTwice? || row.status.Result?)
      && (row.recordDigest.None? ==>
            && row.validators.None? && row.reportedFault.None? && row.metrics.agentSeconds.None?
            && row.metrics.toolCalls.None? && row.metrics.aiCredits.None?)
  {
    hide Read, Regular, StatusOf, Finishes, Starts, Invariant;
    RosterRegular(store, rows);
    var history := Read(store, rows).value.attempts[a.runId];
    StatusByClasses(history);
    StatusMatchesWeights(history);
    RunStarts(store, rows, a.runId);
    forall t
      ensures Count(history, x => Ended(x, t)) == Finishes(store.codec, rows, a.runId, t)
    {
      RunFinishes(store, rows, a.runId, t);
    }
  }

  lemma {:induction false} RosterCounts(store: Store, rows: seq<Row>, assignments: seq<Assignment>)
    requires Read(store, rows).Ok? && forall a | a in assignments :: a in Read(store, rows).value.spec.assignments
    ensures var attempts, codec := Read(store, rows).value.attempts, store.codec;
      && Total(assignments, attempts, PendingWeight)
        == Count(assignments, (a: Assignment) => Starts(codec, rows, a.runId) == 0)
      && Total(assignments, attempts, ExcludedWeight)
         == Count(assignments, (a: Assignment) => Finishes(codec, rows, a.runId, HarnessFailure) == 2)
  {
    hide Read, RowFor, Starts, Finishes, Regular, StatusOf, PendingWeight, ExcludedWeight;
    if assignments != [] {
      var n := |assignments| - 1;
      RosterCounts(store, rows, assignments[..n]);
      var a := assignments[n];
      RowFromJournal(store, rows, a);
      RosterRegular(store, rows);
      StatusMatchesWeights(Read(store, rows).value.attempts[a.runId]);
      RowStatus(a, Read(store, rows).value.attempts[a.runId]);
    }
  }

  lemma RowStatus(a: Assignment, history: seq<Attempt>)
    ensures RowFor(a, history).status == StatusOf(history)
  {
  }

  /** How many assignments are pending, excluded, running and completed, in the
      journal's events. */
  lemma PlanFromJournal(store: Store, rows: seq<Row>)
    requires Read(store, rows).Ok?
    ensures var st, codec := Read(store, rows).value, store.codec;
      var account := Account(st.spec.assignments, st.attempts);
      && account.pending == Count(st.spec.assignments, (a: Assignment) => Starts(codec, rows, a.runId) == 0)
      && account.excluded
        == Count(st.spec.assignments, (a: Assignment) => Finishes(codec, rows, a.runId, HarnessFailure) == 2)
      && account.completed == account.scored + account.excluded
      && account.running == account.planned - account.pending - account.completed
  {
    hide Read, Total, Count, Starts, Finishes;
    RosterCounts(store, rows, Read(store, rows).value.spec.assignments);
  }
}

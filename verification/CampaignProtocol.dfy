/** The retry protocol over whole journals: safety, the block barrier, progress
    and termination. */
module CampaignProtocol {
  import opened Results
  import opened ByteStrings
  import opened Rosters
  import opened Verification
  import opened Journals
  import opened JournalRefinement
  import opened JournalHistory

  predicate IsOpenAttempt(a: Attempt) {
    a.finished.None?
  }

  predicate AgentFinal(history: seq<Attempt>) {
    && history != []
    && history[|history| - 1].finished.Some?
    && !IsHarnessFailure(history[|history| - 1])
  }

  predicate Excluded(history: seq<Attempt>) {
    |history| == 2 && IsHarnessFailure(history[0]) && IsHarnessFailure(history[1])
  }

  /** The assignment has its final result. */
  predicate Terminated(history: seq<Attempt>) {
    AgentFinal(history) || Excluded(history)
  }

  lemma HistorySafety(store: Store, st: State, runId: string)
    requires Invariant(store, st) && runId in st.attempts
    ensures var history := st.attempts[runId];
      && |history| <= 2
      && (forall i | 0 <= i < |history| - 1 :: IsHarnessFailure(history[i]))
      && (Terminated(history) ==> !CanStart(st, runId))
  {
    hide GoodAttempts, ValidSpec, BlockSettled;
    assert GoodHistory(store, st, runId);
  }

  /** At most two attempts; every one but the last is a finished harness failure,
      so at most one is open; a terminated assignment cannot start again. */
  lemma RetrySafety(store: Store, rows: seq<Row>, runId: string)
    requires Read(store, rows).Ok? && runId in Read(store, rows).value.attempts
    ensures var st := Read(store, rows).value;
      var history := st.attempts[runId];
      && |history| <= 2
      && (forall i | 0 <= i < |history| - 1 :: IsHarnessFailure(history[i]))
      && (forall i | 0 <= i < |history| && IsOpenAttempt(history[i]) :: i == |history| - 1)
      && (Terminated(history) ==> !CanStart(st, runId))
  {
    hide Read, CanStart, Terminated, Invariant;
    ReadableInvariant(store, rows);
    HistorySafety(store, Read(store, rows).value, runId);
  }

  lemma TerminatedStays(store: Store, st: State, data: Data, recordDigest: string, runId: string)
    requires Invariant(store, st) && Admits(store, st, data) && runId in st.attempts
    requires Terminated(st.attempts[runId])
    ensures EffectOn(st.attempts, data, recordDigest)[runId] == st.attempts[runId]
  {
    hide Replayed, BlockSettled, DecodeSource, ValidSpec, GoodAttempts;
    assert GoodHistory(store, st, runId);
  }

  /** Once an assignment is terminated its history never changes again. */
  lemma {:induction false} FinalForever(store: Store, rows: seq<Row>, k: nat, runId: string)
    requires Read(store, rows).Ok? && 0 < k <= |rows| && Read(store, rows[..k]).Ok?
    requires runId in Read(store, rows[..k]).value.attempts
    requires Terminated(Read(store, rows[..k]).value.attempts[runId])
    ensures runId in Read(store, rows).value.attempts
    ensures Read(store, rows).value.attempts[runId] == Read(store, rows[..k]).value.attempts[runId]
    decreases |rows|
  {
    hide Admits, EffectOn, Read, Terminated, Invariant;
    var n := |rows| - 1;
    if k == |rows| {
      assert rows[..k] == rows;
    } else {
      LastRow(store, rows);
      assert rows[..n][..k] == rows[..k];
      FinalForever(store, rows[..n], k, runId);
      ReadableInvariant(store, rows[..n]);
      var before, data := Read(store, rows[..n]).value, EventOf(store, rows[n]).data;
      SameRuns(before.attempts, data, store.codec.digest(rows[n].payload));
      TerminatedStays(store, before, data, store.codec.digest(rows[n].payload), runId);
    }
  }

  // The block barrier

  ghost predicate StartsSecond(store: Store, row: Row, blockId: string) {
    && store.codec.decode(row.payload).Ok?
    && var data := EventOf(store, row).data;
       data.Started? && data.binding.attempt == 2 && data.binding.assignment.blockId == blockId
  }

  ghost predicate FinishesFirst(store: Store, row: Row, runId: string, blockId: string) {
    && store.codec.decode(row.payload).Ok?
    && var data := EventOf(store, row).data;
       && data.Finished? && data.binding.attempt == 1
       && data.binding.assignment.runId == runId && data.binding.assignment.blockId == blockId
  }

  /** When a second attempt starts, the whole block's first attempts are finished. */
  lemma SecondStartSettled(store: Store, rows: seq<Row>, j: nat, blockId: string)
    requires Read(store, rows).Ok? && 0 < j < |rows| && StartsSecond(store, rows[j], blockId)
    ensures Read(store, rows[..j]).Ok? && BlockSettled(Read(store, rows[..j]).value, blockId)
  {
    hide Read, BlockSettled, Stepped;
    StepAt(store, rows, j);
    AssignedRun(Read(store, rows[..j]).value.spec.assignments, EventOf(store, rows[j]).data.binding.assignment.runId);
  }

  /** In journal order, every first-attempt finish of a block comes before every
      second-attempt start in that block. */
  lemma FinishesBeforeRetries(store: Store, rows: seq<Row>, i: nat, j: nat, runId: string, blockId: string)
    requires Read(store, rows).Ok? && 0 < i < |rows| && 0 < j < |rows|
    requires FinishesFirst(store, rows[i], runId, blockId) && StartsSecond(store, rows[j], blockId)
    ensures i < j
  {
    hide Read, Stepped, Admits, BlockSettled, Grows;
    SecondStartSettled(store, rows, j, blockId);
    StepAt(store, rows, i);
    var st := Read(store, rows[..i]).value;
    FirstStillOpen(store, st, EventOf(store, rows[i]).data);
    if j < i {
      PrefixReadable(store, rows[..i], j);
      assert rows[..i][..j] == rows[..j];
      SettledStays(Read(store, rows[..j]).value, st, blockId);
    }
  }

  lemma FirstStillOpen(store: Store, st: State, data: Data)
    requires Admits(store, st, data) && data.Finished? && data.binding.attempt == 1
    ensures !BlockSettled(st, data.binding.assignment.blockId)
  {
    hide Replayed;
    AssignedRun(st.spec.assignments, data.binding.assignment.runId);
  }

  /** When a second attempt starts, each assignment of its block has an earlier
      event that finished its first attempt. */
  lemma RetryWaitsForBlock(store: Store, rows: seq<Row>, j: nat, a: Assignment)
    requires Read(store, rows).Ok? && 0 < j < |rows| && StartsSecond(store, rows[j], a.blockId)
    requires a in Read(store, rows).value.spec.assignments
    ensures exists i | 0 < i < j :: FinishesFirst(store, rows[i], a.runId, a.blockId)
  {
    hide Read, Stepped, Admits, AsMap, BlockSettled, Invariant, StartsSecond;
    SecondStartSettled(store, rows, j, a.blockId);
    PrefixReadable(store, rows, j);
    var st := Read(store, rows[..j]).value;
    ReadableInvariant(store, rows[..j]);
    FirstBinding(store, st, a);
    FinishedByEvent(store, rows[..j], a.runId, 0);
    var i: nat :| FinishedAt(store, rows[..j], i, st.attempts[a.runId][0]);
    assert rows[..j][i] == rows[i];
    PrefixReadable(store, rows, 1);
    LastRow(store, rows[..1]);
    assert FinishesFirst(store, rows[i], a.runId, a.blockId);
  }

  lemma FirstBinding(store: Store, st: State, a: Assignment)
    requires Invariant(store, st) && BlockSettled(st, a.blockId) && a in st.spec.assignments
    ensures a.runId in st.attempts && st.attempts[a.runId] != [] && st.attempts[a.runId][0].finished.Some?
    ensures st.attempts[a.runId][0].binding == Binding(store.receipt, a, 1)
  {
    hide Replayed, GoodSources;
    assert GoodHistory(store, st, a.runId);
    assert GoodAttempt(store, st.spec, a.runId, 1, st.attempts[a.runId][0]);
    AssignedUnique(st.spec.assignments, a);
  }

  lemma {:induction false} AssignedUnique(rows: seq<Assignment>, a: Assignment)
    requires UniqueRuns(rows) && a in rows
    ensures AssignedTo(rows, a.runId) == Some(a)
  {
    var n := |rows| - 1;
    var k :| 0 <= k <= n && rows[k] == a;
    if k < n {
      assert rows[k].runId != rows[n].runId;
      assert rows[..n][k] == a;
      AssignedUnique(rows[..n], a);
    }
  }

  // Progress

  /** In an incomplete state with no open attempt some start is enabled: a pending
      run's first attempt, or a retry whose block is settled. */
  lemma SomeStartEnabled(store: Store, st: State, unfinished: string)
    requires Invariant(store, st)
    requires forall r | r in st.attempts && st.attempts[r] != [] :: !IsOpenAttempt(Last(st, r))
    requires unfinished in st.attempts && !Terminated(st.attempts[unfinished])
    ensures exists runId :: runId in st.attempts && CanStart(st, runId) && Proposed(store, st, Start(runId)).Ok?
  {
    hide ValidSpec, GoodAttempts;
    if pending :| pending in st.attempts && st.attempts[pending] == [] {
      RunAssigned(st.spec.assignments, pending);
      assert CanStart(st, pending);
    } else {
      RunAssigned(st.spec.assignments, unfinished);
      assert GoodHistory(store, st, unfinished);
      var blockId := AssignedTo(st.spec.assignments, unfinished).value.blockId;
      forall a | a in st.spec.assignments && a.blockId == blockId
        ensures a.runId in st.attempts && st.attempts[a.runId] != [] && st.attempts[a.runId][0].finished.Some?
      {
        assert a.runId in RunIds(st.spec.assignments);
        assert GoodHistory(store, st, a.runId);
        assert !IsOpenAttempt(Last(st, a.runId));
      }
      assert BlockSettled(st, blockId);
      assert CanStart(st, unfinished);
    }
  }

  lemma {:induction false} RunAssigned(rows: seq<Assignment>, runId: string)
    requires runId in RunIds(rows)
    ensures AssignedTo(rows, runId).Some?
  {
    var n := |rows| - 1;
    assert rows == rows[..n] + [rows[n]];
    if rows[n].runId != runId {
      RunAssigned(rows[..n], runId);
    }
  }

  // Termination

  /** The sum over the roster of a weight of each assignment's history. */
  function Total(rows: seq<Assignment>, attempts: Attempts, weight: seq<Attempt> -> int): int {
    if rows == [] then 0
    else
      var n := |rows| - 1;
      Total(rows[..n], attempts, weight)
      + if rows[n].runId in attempts then weight(attempts[rows[n].runId]) else 0
  }

  lemma {:induction false} TotalElsewhere(rows: seq<Assignment>, attempts: Attempts, weight: seq<Attempt> -> int,
                                          runId: string, history: seq<Attempt>)
    requires runId !in RunIds(rows)
    ensures Total(rows, attempts[runId := history], weight) == Total(rows, attempts, weight)
  {
    if rows != [] {
      var n := |rows| - 1;
      assert rows == rows[..n] + [rows[n]];
      TotalElsewhere(rows[..n], attempts, weight, runId, history);
    }
  }

  /** Changing one run's history changes the total by that run's weight. */
  lemma {:induction false} TotalUpdate(rows: seq<Assignment>, attempts: Attempts, weight: seq<Attempt> -> int,
                                       runId: string, history: seq<Attempt>)
    requires UniqueRuns(rows) && runId in RunIds(rows) && runId in attempts
    ensures Total(rows, attempts[runId := history], weight)
         == Total(rows, attempts, weight) - weight(attempts[runId]) + weight(history)
  {
    var n := |rows| - 1;
    assert rows == rows[..n] + [rows[n]];
    if rows[n].runId == runId {
      assert runId !in RunIds(rows[..n]);
      TotalElsewhere(rows[..n], attempts, weight, runId, history);
    } else {
      TotalUpdate(rows[..n], attempts, weight, runId, history);
    }
  }

  /** What is left to do on an assignment: 4, less two for each attempt, plus one while it is open. */
  function Remaining(history: seq<Attempt>): int {
    4 - 2 * |history| + (if history != [] && IsOpenAttempt(history[|history| - 1]) then 1 else 0)
  }

  function AttemptCount(history: seq<Attempt>): int {
    |history|
  }

  /** Events that start or finish an attempt. */
  function Moves(store: Store, rows: seq<Row>): nat {
    if rows == [] then 0
    else
      var n := |rows| - 1;
      var event := store.codec.decode(rows[n].payload);
      Moves(store, rows[..n]) + if event.Ok? && (event.value.data.Started? || event.value.data.Finished?) then 1 else 0
  }

  lemma StepCosts(store: Store, st: State, data: Data, recordDigest: string)
    requires Admits(store, st, data)
    ensures var runId := data.binding.assignment.runId;
      Remaining(Effect(st.attempts[runId], data, recordDigest))
      == Remaining(st.attempts[runId]) - if data.Captured? then 0 else 1
  {
    hide Replayed, BlockSettled, DecodeSource, BindingFits;
  }

  lemma {:induction false} StartingTotal(rows: seq<Assignment>, attempts: Attempts)
    requires forall r | r in rows :: r.runId in attempts && attempts[r.runId] == []
    ensures Total(rows, attempts, Remaining) == 4 * |rows|
  {
    if rows != [] {
      var n := |rows| - 1;
      assert rows == rows[..n] + [rows[n]];
      StartingTotal(rows[..n], attempts);
    }
  }

  lemma {:induction false} RemainingBounds(store: Store, st: State, rows: seq<Assignment>)
    requires Invariant(store, st)
    ensures 0 <= Total(rows, st.attempts, Remaining)
    ensures Total(rows, st.attempts, AttemptCount) <= 2 * |rows|
  {
    hide ValidSpec, GoodAttempts, BlockSettled;
    if rows != [] {
      var n := |rows| - 1;
      RemainingBounds(store, st, rows[..n]);
      if rows[n].runId in st.attempts {
        assert GoodHistory(store, st, rows[n].runId);
      }
    }
  }

  /** Every start and every finish uses up exactly one unit of what remains, and a
      capture none; so a campaign has at most four such events and at most two
      attempts for each planned assignment. */
  lemma {:induction false} CampaignTerminates(store: Store, rows: seq<Row>)
    requires Read(store, rows).Ok?
    ensures var st := Read(store, rows).value;
      var planned := |st.spec.assignments|;
      && Moves(store, rows) == 4 * planned - Total(st.spec.assignments, st.attempts, Remaining)
      && Moves(store, rows) <= 4 * planned
      && Total(st.spec.assignments, st.attempts, AttemptCount) <= 2 * planned
  {
    hide Admits, Read, Invariant, ValidSpec, UniqueRuns, Effect, EffectOn;
    var st := Read(store, rows).value;
    ReadableInvariant(store, rows);
    RemainingBounds(store, st, st.spec.assignments);
    LastRow(store, rows);
    var n := |rows| - 1;
    if n == 0 {
      assert rows[..0] == [];
      EveryRunListed(store, st);
      StartingTotal(st.spec.assignments, st.attempts);
    } else {
      CampaignTerminates(store, rows[..n]);
      var data := EventOf(store, rows[n]).data;
      ReadableInvariant(store, rows[..n]);
      StepCharges(store, Read(store, rows[..n]).value, data, rows[n].payload, store.codec.digest(rows[n].payload));
    }
  }

  lemma EveryRunListed(store: Store, st: State)
    requires Invariant(store, st)
    ensures forall r | r in st.spec.assignments :: r.runId in st.attempts
  {
    assert forall r | r in st.spec.assignments :: r.runId in RunIds(st.spec.assignments);
  }

  lemma StepCharges(store: Store, st: State, data: Data, payload: Bytes, recordDigest: string)
    requires Invariant(store, st) && Admits(store, st, data)
    ensures !data.Prepared?
    ensures var st' := Stepped(st, data, payload, recordDigest);
      Total(st'.spec.assignments, st'.attempts, Remaining)
      == Total(st.spec.assignments, st.attempts, Remaining) - if data.Captured? then 0 else 1
  {
    StepCosts(store, st, data, recordDigest);
    hide Replayed, Effect, Remaining, BlockSettled, GoodHistory, CanStart, AttemptOpen;
    var runId := data.binding.assignment.runId;
    TotalUpdate(st.spec.assignments, st.attempts, Remaining, runId, Effect(st.attempts[runId], data, recordDigest));
  }

  /** A readable journal that is incomplete and has no open attempt can always go on. */
  lemma Progress(store: Store, rows: seq<Row>, unfinished: string)
    requires Read(store, rows).Ok?
    requires var st := Read(store, rows).value;
      && unfinished in st.attempts && !Terminated(st.attempts[unfinished])
      && forall r | r in st.attempts && st.attempts[r] != [] :: !IsOpenAttempt(Last(st, r))
    ensures exists runId :: Proposed(store, Read(store, rows).value, Start(runId)).Ok?
  {
    hide Read, Proposed, Invariant, Terminated;
    ReadableInvariant(store, rows);
    SomeStartEnabled(store, Read(store, rows).value, unfinished);
  }
}

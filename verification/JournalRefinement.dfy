/** The replaying reader and the writers never disagree: what every readable
    journal satisfies, and what re-reading returns after each write. */
module JournalRefinement {
  import opened Results
  import opened ByteStrings
  import opened Text
  import opened Rosters
  import opened Verification
  import opened Journals

  // What a readable state satisfies

  ghost predicate GoodSources(codec: Codec, sources: seq<Stored>) {
    && (forall i, j | 0 <= i < j < |sources| :: sources[i].name != sources[j].name)
    && (forall s | s in sources :: DecodeSource(codec, s).Ok?)
  }

  /** An attempt of a run: bound to its assignment and number, with good sources,
      and finished only with what its verifier returns on them. */
  ghost predicate GoodAttempt(store: Store, spec: Spec, runId: string, number: nat, a: Attempt) {
    && AssignedTo(spec.assignments, runId) == Some(a.binding.assignment)
    && a.binding.preparationDigest == store.receipt && a.binding.attempt == number
    && GoodSources(store.codec, a.sources)
    && (a.finished.Some? ==>
          Replayed(store, spec.campaign.phase, a.binding, InKeyOrder(AsMap(a.sources)))
            == Ok(a.finished.value.verified))
  }

  ghost predicate GoodAttempts(store: Store, spec: Spec, runId: string, history: seq<Attempt>) {
    forall i | 0 <= i < |history| :: GoodAttempt(store, spec, runId, i + 1, history[i])
  }

  /** At most two attempts; a second one only after a harness failure and with the block settled. */
  ghost predicate GoodHistory(store: Store, st: State, runId: string)
    requires runId in st.attempts
  {
    var history := st.attempts[runId];
    && |history| <= 2
    && GoodAttempts(store, st.spec, runId, history)
    && (|history| == 2 ==>
          IsHarnessFailure(history[0]) && BlockSettled(st, history[0].binding.assignment.blockId))
  }

  ghost predicate Invariant(store: Store, st: State) {
    && ValidSpec(st.spec)
    && st.attempts.Keys == RunIds(st.spec.assignments)
    && st.raw != []
    && forall runId | runId in st.attempts :: GoodHistory(store, st, runId)
  }

  // How states grow

  ghost predicate AttemptGrows(a: Attempt, b: Attempt) {
    && a.binding == b.binding
    && a.sources <= b.sources
    && (a.finished.Some? ==> a == b)
  }

  ghost predicate HistoryGrows(h: seq<Attempt>, k: seq<Attempt>) {
    |h| <= |k| && forall i | 0 <= i < |h| :: AttemptGrows(h[i], k[i])
  }

  /** Nothing recorded is ever changed: histories only gain attempts, attempts only
      gain sources, and a finished attempt stays as it is. */
  ghost predicate Grows(st: State, st': State) {
    && st.spec == st'.spec
    && st.attempts.Keys == st'.attempts.Keys
    && st.raw <= st'.raw
    && forall runId | runId in st.attempts :: HistoryGrows(st.attempts[runId], st'.attempts[runId])
  }

  lemma GrowsTransitive(a: State, b: State, c: State)
    requires Grows(a, b) && Grows(b, c)
    ensures Grows(a, c)
  {
  }

  lemma SettledStays(st: State, st': State, blockId: string)
    requires Grows(st, st') && BlockSettled(st, blockId)
    ensures BlockSettled(st', blockId)
  {
  }

  lemma EffectGrows(history: seq<Attempt>, data: Data, recordDigest: string)
    requires data.Started? || (history != [] && history[|history| - 1].finished.None?)
    ensures HistoryGrows(history, Effect(history, data, recordDigest))
  {
  }

  lemma StepGrows(store: Store, st: State, data: Data, payload: Bytes, recordDigest: string)
    requires Admits(store, st, data)
    ensures Grows(st, Stepped(st, data, payload, recordDigest))
  {
    hide Replayed, DecodeSource, BlockSettled, AsMap;
    EffectGrows(st.attempts[data.binding.assignment.runId], data, recordDigest);
    hide Effect;
    assert forall h :: HistoryGrows(h, h);
  }

  // The invariant holds in every readable journal

  lemma AssignedRun(rows: seq<Assignment>, runId: string)
    requires AssignedTo(rows, runId).Some?
    ensures AssignedTo(rows, runId).value.runId == runId && AssignedTo(rows, runId).value in rows
  {
  }

  lemma AppendedSourceGood(codec: Codec, sources: seq<Stored>, s: Stored)
    requires GoodSources(codec, sources) && !HasName(sources, s.name) && DecodeSource(codec, s).Ok?
    ensures GoodSources(codec, sources + [s])
  {
  }

  lemma AttemptAdded(store: Store, spec: Spec, runId: string, history: seq<Attempt>, a: Attempt)
    requires GoodAttempts(store, spec, runId, history)
    requires GoodAttempt(store, spec, runId, |history| + 1, a)
    ensures GoodAttempts(store, spec, runId, history + [a])
  {
  }

  lemma AttemptReplaced(store: Store, spec: Spec, runId: string, history: seq<Attempt>, a: Attempt)
    requires history != [] && GoodAttempts(store, spec, runId, history)
    requires GoodAttempt(store, spec, runId, |history|, a)
    ensures GoodAttempts(store, spec, runId, history[..|history| - 1] + [a])
  {
  }

  /** The changed run's attempts after a step. */
  lemma StepKeepsAttempts(store: Store, st: State, data: Data, recordDigest: string)
    requires Invariant(store, st) && Admits(store, st, data)
    ensures var runId := data.binding.assignment.runId;
      GoodAttempts(store, st.spec, runId, Effect(st.attempts[runId], data, recordDigest))
  {
    hide ValidSpec, BlockSettled, AsMap, InKeyOrder, Replayed, DecodeSource, AssignedTo;
    var runId := data.binding.assignment.runId;
    var history := st.attempts[runId];
    assert GoodHistory(store, st, runId);
    if data.Started? {
      AttemptAdded(store, st.spec, runId, history, Attempt(data.binding, [], None));
    } else {
      var last := Last(st, runId);
      assert GoodAttempt(store, st.spec, runId, |history|, last);
      if data.Captured? {
        AppendedSourceGood(store.codec, last.sources, Stored(data.name, data.source));
        AttemptReplaced(store, st.spec, runId, history,
          last.(sources := last.sources + [Stored(data.name, data.source)]));
      } else {
        AttemptReplaced(store, st.spec, runId, history, last.(finished := Some(Finish(data.verified, recordDigest))));
      }
    }
  }

  lemma StepKeepsHistory(store: Store, st: State, data: Data, payload: Bytes, recordDigest: string, runId: string)
    requires Invariant(store, st) && Admits(store, st, data) && runId in st.attempts
    ensures GoodHistory(store, Stepped(st, data, payload, recordDigest), runId)
  {
    hide Replayed, DecodeSource, BlockSettled, AsMap, GoodAttempt, ValidSpec;
    var st' := Stepped(st, data, payload, recordDigest);
    assert GoodHistory(store, st, runId);
    StepKeepsAttempts(store, st, data, recordDigest);
    StepGrows(store, st, data, payload, recordDigest);
    assert HistoryGrows(st.attempts[runId], st'.attempts[runId]);
    if |st'.attempts[runId]| == 2 {
      SecondStarts(store, st, data, recordDigest);
      SettledStays(st, st', st'.attempts[runId][0].binding.assignment.blockId);
    }
  }

  /** A run has two attempts after a step only if it had, or may start the second one now. */
  lemma SecondStarts(store: Store, st: State, data: Data, recordDigest: string)
    requires Invariant(store, st) && Admits(store, st, data)
    ensures var runId := data.binding.assignment.runId;
      |Effect(st.attempts[runId], data, recordDigest)| == 2 ==>
        && IsHarnessFailure(st.attempts[runId][0])
        && BlockSettled(st, st.attempts[runId][0].binding.assignment.blockId)
  {
    hide Replayed, DecodeSource, BlockSettled, AsMap, ValidSpec;
    var runId := data.binding.assignment.runId;
    assert GoodHistory(store, st, runId);
    if st.attempts[runId] != [] {
      assert GoodAttempt(store, st.spec, runId, 1, st.attempts[runId][0]);
    }
  }

  lemma StepKeepsInvariant(store: Store, st: State, data: Data, payload: Bytes, recordDigest: string)
    requires Invariant(store, st) && Admits(store, st, data)
    ensures Invariant(store, Stepped(st, data, payload, recordDigest))
  {
    hide Admits, GoodHistory, ValidSpec, Effect;
    var st' := Stepped(st, data, payload, recordDigest);
    forall runId | runId in st'.attempts
      ensures GoodHistory(store, st', runId)
    {
      StepKeepsHistory(store, st, data, payload, recordDigest, runId);
    }
  }

  /** Every readable journal rebuilds a state that satisfies the invariant. */
  lemma {:induction false} ReadableInvariant(store: Store, rows: seq<Row>)
    requires Read(store, rows).Ok?
    ensures Invariant(store, Read(store, rows).value)
  {
    var n := |rows| - 1;
    hide Admits, Stepped, ValidSpec, Replayed;
    if n > 0 {
      hide Invariant;
      ReadableInvariant(store, rows[..n]);
      var st := Read(store, rows[..n]).value;
      var event := store.codec.decode(rows[n].payload).value;
      StepKeepsInvariant(store, st, event.data, rows[n].payload, store.codec.digest(rows[n].payload));
    }
  }

  // Re-reading after a write

  /** The verifier gives the same result on an attempt's sources in the order they
      were captured, as `finish` runs it, and in key order, as every later read does. */
  predicate SameInBothOrders(store: Store, st: State, b: Binding)
    requires b.assignment.runId in st.attempts && st.attempts[b.assignment.runId] != []
  {
    var sources, phase := Last(st, b.assignment.runId).sources, st.spec.campaign.phase;
    Replayed(store, phase, b, InKeyOrder(AsMap(sources))) == Replayed(store, phase, b, sources)
  }

  lemma OpenBindingFits(store: Store, st: State, b: Binding)
    requires Invariant(store, st) && IsOpen(st, b)
    ensures BindingFits(store, st, b) && AttemptOpen(st, b)
  {
    hide ValidSpec, Replayed, BlockSettled, GoodSources;
    var runId := b.assignment.runId;
    assert GoodHistory(store, st, runId);
    assert GoodAttempt(store, st.spec, runId, |st.attempts[runId]|, Last(st, runId));
  }

  lemma StoredSourceDecodes(codec: Codec, name: string, bytes: Bytes)
    requires codec.Faithful() && IsIdentifier(name) && bytes != []
    ensures DecodeSource(codec, Stored(name, Source(codec.digest(bytes), codec.encode64(bytes))))
      == Ok(Capture(name, bytes))
  {
    hide IsDigest;
  }

  /** What an operation proposes is admitted by the reader, unless it is a finish
      whose verifier depends on the order of the sources. */
  lemma ProposedAdmitted(store: Store, st: State, op: Operation)
    requires store.codec.Faithful() && Invariant(store, st) && Proposed(store, st, op).Ok?
    ensures var data := Proposed(store, st, op).value;
      && !data.Prepared? && BindingFits(store, st, data.binding) && data.binding.assignment.runId in st.attempts
      && (data.Finished? ==> st.attempts[data.binding.assignment.runId] != [])
      && (Admits(store, st, data) <==> (data.Finished? ==> SameInBothOrders(store, st, data.binding)))
  {
    hide ValidSpec, Replayed, BlockSettled, AsMap, InKeyOrder;
    match op
    case Start(runId) =>
      AssignedRun(st.spec.assignments, runId);
    case CaptureSource(b, name, bytes) =>
      OpenBindingFits(store, st, b);
      StoredSourceDecodes(store.codec, name, bytes);
    case FinishAttempt(b) =>
      OpenBindingFits(store, st, b);
  }

  /** Reading one more row, written as an operation writes it. */
  lemma ReadAppended(store: Store, rows: seq<Row>, st: State, data: Data)
    requires store.codec.decode(Payload(store, st, data)) == Ok(Event(|st.raw| + 1, Head(store.codec, st.raw), data))
    requires Read(store, rows) == Ok(st)
    ensures var payload := Payload(store, st, data);
      Read(store, Appended(store, rows, st, data)) ==
        if Admits(store, st, data) then Ok(Stepped(st, data, payload, store.codec.digest(payload))) else Err
  {
    hide Admits, Stepped, OpenPreparation;
    var all := Appended(store, rows, st, data);
    assert all[..|rows|] == rows && all[|rows|] == Row(|st.raw| + 1, Payload(store, st, data));
  }

  lemma PayloadDecodes(codec: Codec, event: Event)
    requires codec.Faithful()
    ensures codec.decode(codec.encode(event)) == Ok(event)
  {
  }

  /** After any successful start, capture or finish the longer journal is readable,
      and its state is the old one plus exactly that step; except that a finish
      leaves the journal unreadable when its verifier tells the two orders apart. */
  lemma WriteThenRead(store: Store, rows: seq<Row>, st: State, op: Operation)
    requires store.codec.Faithful() && Read(store, rows) == Ok(st) && Proposed(store, st, op).Ok?
    ensures var data := Proposed(store, st, op).value;
      var payload := Payload(store, st, data);
      && !data.Prepared? && data.binding.assignment.runId in st.attempts
      && (data.Finished? ==> st.attempts[data.binding.assignment.runId] != [])
      && Commit(store, rows, op) == rows + [Row(|rows| + 1, payload)]
      && Read(store, Commit(store, rows, op)) ==
           if data.Finished? && !SameInBothOrders(store, st, data.binding) then Err
           else Ok(Stepped(st, data, payload, store.codec.digest(payload)))
  {
    hide Codec.Faithful, Proposed, Admits, Invariant, SameInBothOrders, Stepped, Read, BindingFits;
    ReadableInvariant(store, rows);
    ProposedAdmitted(store, st, op);
    var data := Proposed(store, st, op).value;
    PayloadDecodes(store.codec, Event(|st.raw| + 1, Head(store.codec, st.raw), data));
    ReadAppended(store, rows, st, data);
  }
}

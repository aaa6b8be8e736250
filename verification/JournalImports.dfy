/** Review imports on the journal itself: any run of writers in which every capture
    on one attempt comes from an import command, with the starts, captures and
    finishes of all attempts in between (adjudication.py, main; campaign.py). */
module JournalImports {
  import opened Results
  import opened ByteStrings
  import opened Rosters
  import opened Verification
  import opened Adjudication
  import opened Journals
  import opened JournalRefinement
  import opened JournalRuns
  import opened ReviewImports

  // One attempt of a journal

  predicate HoldsAttempt(st: State, b: Binding) {
    && b.assignment.runId in st.attempts
    && 1 <= b.attempt <= |st.attempts[b.assignment.runId]|
    && st.attempts[b.assignment.runId][b.attempt - 1].binding == b
  }

  function SourcesFor(st: State, b: Binding): seq<Stored>
    requires HoldsAttempt(st, b)
  {
    st.attempts[b.assignment.runId][b.attempt - 1].sources
  }

  /** The journal holds the attempt, open or finished, with these captures. */
  ghost predicate Holding(store: Store, rows: seq<Row>, b: Binding, captures: seq<Capture>) {
    && Read(store, rows).Ok?
    && HoldsAttempt(Read(store, rows).value, b)
    && DecodeEach(store.codec, SourcesFor(Read(store, rows).value, b)) == Ok(captures)
  }

  ghost function CapturesOf(store: Store, rows: seq<Row>, b: Binding): seq<Capture> {
    if Read(store, rows).Ok? && HoldsAttempt(Read(store, rows).value, b) then
      var decoded := DecodeEach(store.codec, SourcesFor(Read(store, rows).value, b));
      if decoded.Ok? then decoded.value else []
    else []
  }

  lemma HoldingCaptures(store: Store, rows: seq<Row>, b: Binding, captures: seq<Capture>)
    requires Holding(store, rows, b, captures)
    ensures CapturesOf(store, rows, b) == captures
  {
    hide Read, DecodeEach;
  }

  // What a command captures

  /** The operation is not a capture on this attempt, or an import command's. */
  ghost predicate ByImport(store: Store, rows: seq<Row>, ref: Reference, b: Binding, op: Operation) {
    op.CaptureSource? && op.binding == b ==>
      exists step :: Issued(ref, b, CapturesOf(store, rows, b), step) == Some(Capture(op.name, op.bytes))
  }

  /** Every capture on this attempt along the run is an import command's. */
  ghost predicate AllByImport(store: Store, rows: seq<Row>, ref: Reference, b: Binding, ops: seq<Operation>)
    decreases |ops|
  {
    ops == []
    || (ByImport(store, rows, ref, b, ops[0]) && AllByImport(store, Commit(store, rows, ops[0]), ref, b, ops[1..]))
  }

  // One operation

  /** An event that is not a capture on the attempt leaves its sources alone. */
  lemma EffectElsewhere(st: State, data: Data, payload: Bytes, recordDigest: string, b: Binding)
    requires HoldsAttempt(st, b) && !data.Prepared? && data.binding.assignment.runId in st.attempts
    requires !data.Started? ==> IsOpen(st, data.binding)
    requires data.Captured? ==> data.binding != b
    ensures var next := Stepped(st, data, payload, recordDigest);
      HoldsAttempt(next, b) && SourcesFor(next, b) == SourcesFor(st, b)
  {
  }

  lemma ProposedOpen(store: Store, st: State, op: Operation)
    requires Proposed(store, st, op).Ok?
    ensures var data := Proposed(store, st, op).value;
      && (!data.Started? ==> IsOpen(st, data.binding))
      && (data.Captured? ==> op.CaptureSource? && data.binding == op.binding)
  {
    hide Replayed, HasName;
  }

  lemma OperationElsewhere(store: Store, rows: seq<Row>, b: Binding, captures: seq<Capture>, op: Operation)
    requires store.codec.Faithful() && Holding(store, rows, b, captures)
    requires !(op.CaptureSource? && op.binding == b)
    requires Read(store, Commit(store, rows, op)).Ok?
    ensures Holding(store, Commit(store, rows, op), b, captures)
  {
    hide Codec.Faithful, Read, Stepped, DecodeEach, Proposed, HoldsAttempt, SourcesFor, SameInBothOrders, IsOpen;
    var st := Read(store, rows).value;
    if Proposed(store, st, op).Ok? {
      var data := Proposed(store, st, op).value;
      var payload := Payload(store, st, data);
      WriteThenRead(store, rows, st, op);
      ProposedOpen(store, st, op);
      EffectElsewhere(st, data, payload, store.codec.digest(payload), b);
    }
  }

  lemma OpenIsLast(store: Store, st: State, b: Binding)
    requires Invariant(store, st) && IsOpen(st, b)
    ensures HoldsAttempt(st, b) && SourcesFor(st, b) == Last(st, b.assignment.runId).sources
  {
    hide ValidSpec, Replayed, BlockSettled, GoodSources;
    assert GoodHistory(store, st, b.assignment.runId);
    assert GoodAttempt(store, st.spec, b.assignment.runId, |st.attempts[b.assignment.runId]|,
      Last(st, b.assignment.runId));
  }

  /** A capture on the attempt adds the source, or is refused. */
  lemma CaptureHere(store: Store, rows: seq<Row>, b: Binding, captures: seq<Capture>, name: string, bytes: Bytes)
    requires store.codec.Faithful() && Holding(store, rows, b, captures)
    ensures var next := Commit(store, rows, CaptureSource(b, name, bytes));
      Holding(store, next, b, CapturedAs(captures, name, bytes)) || (next == rows && Holding(store, next, b, captures))
  {
    hide Codec.Faithful, Read, DecodeEach, Invariant, IsOpen, HoldsAttempt, SourcesFor;
    var st := Read(store, rows).value;
    if IsOpen(st, b) {
      ReadableInvariant(store, rows);
      OpenIsLast(store, st, b);
      CaptureOnJournal(store, rows, st, b, name, bytes);
      var next := Commit(store, rows, CaptureSource(b, name, bytes));
      ReadableInvariant(store, next);
      OpenIsLast(store, Read(store, next).value, b);
    }
  }

  /** One operation keeps the attempt's review log, unless it makes the journal unreadable. */
  lemma OperationKeepsLog(store: Store, rows: seq<Row>, ref: Reference, b: Binding, captures: seq<Capture>,
                          op: Operation)
    returns (next: seq<Capture>)
    requires store.codec.Faithful() && Holding(store, rows, b, captures) && ReviewLog(ref, b, captures)
    requires ByImport(store, rows, ref, b, op) && Read(store, Commit(store, rows, op)).Ok?
    ensures Holding(store, Commit(store, rows, op), b, next) && ReviewLog(ref, b, next) && captures <= next
  {
    hide Codec.Faithful, Read, Holding, ReviewLog, Commit, Issued, CapturesOf, CapturedAs;
    next := captures;
    if op.CaptureSource? && op.binding == b {
      HoldingCaptures(store, rows, b, captures);
      var step :| Issued(ref, b, CapturesOf(store, rows, b), step) == Some(Capture(op.name, op.bytes));
      StepKeepsLog(ref, b, captures, step);
      CaptureHere(store, rows, b, captures, op.name, op.bytes);
      if Holding(store, Commit(store, rows, op), b, CapturedAs(captures, op.name, op.bytes)) {
        next := CapturedAs(captures, op.name, op.bytes);
      }
    } else {
      OperationElsewhere(store, rows, b, captures, op);
    }
  }

  // Whole runs

  lemma {:induction false} RunKeepsLog(store: Store, rows: seq<Row>, ref: Reference, b: Binding, captures: seq<Capture>,
                                       ops: seq<Operation>)
    requires store.codec.Faithful() && Holding(store, rows, b, captures) && ReviewLog(ref, b, captures)
    requires AllByImport(store, rows, ref, b, ops) && Read(store, Run(store, rows, ops)).Ok?
    ensures var final := CapturesOf(store, Run(store, rows, ops), b);
      Holding(store, Run(store, rows, ops), b, final) && ReviewLog(ref, b, final) && captures <= final
    decreases |ops|
  {
    hide Codec.Faithful, Read, Holding, ReviewLog, Commit, ByImport, CapturesOf;
    if ops == [] {
      HoldingCaptures(store, rows, b, captures);
    } else {
      var rows' := Commit(store, rows, ops[0]);
      if Read(store, rows').Err? {
        UnreadableStays(store, rows', ops[1..]);
      } else {
        var next := OperationKeepsLog(store, rows, ref, b, captures, ops[0]);
        RunKeepsLog(store, rows', ref, b, next, ops[1..]);
      }
    }
  }

  /** The journal's own version: over any run of writers, with starts, captures and
      finishes of every attempt between the import commands and stale snapshots in
      them, as long as the journal is readable the attempt's captures were never
      changed or lost, its reviews are numbered without a gap, every review's raw
      bytes are kept, and the reviews ask for more until at most one, the last, decides. */
  lemma JournalImportsSafe(store: Store, rows: seq<Row>, ref: Reference, b: Binding, captures: seq<Capture>,
                           ops: seq<Operation>, n: nat)
    requires store.codec.Faithful() && Holding(store, rows, b, captures) && DistinctCaptures(captures)
    requires NamesWith(captures, REVIEW_PREFIX) == [] && NamesWith(captures, INPUT_PREFIX) == []
    requires AllByImport(store, rows, ref, b, ops) && Read(store, Run(store, rows, ops)).Ok?
    requires var final := CapturesOf(store, Run(store, rows, ops), b);
      n <= |final| && PacketFor(ref, b, final[..n]).Ok?
    ensures var final := CapturesOf(store, Run(store, rows, ops), b);
      && Holding(store, Run(store, rows, ops), b, final)
      && captures <= final
      && SafeReviews(ref, b, final, PacketFor(ref, b, final[..n]).value)
  {
    hide Codec.Faithful, Read, Holding, Run, AllByImport, CapturesOf, PacketFor, NamesWith, DistinctCaptures;
    EmptyLog(ref, b, captures);
    RunKeepsLog(store, rows, ref, b, captures, ops);
    LogSafe(ref, b, CapturesOf(store, Run(store, rows, ops), b), n);
  }
}

/** Which event a readable journal admits next, and which operations write one, in
    the journal's own events (campaign.py, _read, start, capture and finish). */
module JournalEvents {
  import opened Results
  import opened ByteStrings
  import opened Text
  import opened Sequences
  import opened Rosters
  import opened PreparedRosters
  import opened TrialOutcomes
  import opened Verification
  import opened Journals
  import opened JournalRefinement
  import opened JournalHistory
  import opened CampaignProtocol
  import opened CampaignReports
  import opened JournalTotals

  // The events of one run

  /** How many attempts of a run were finished, whatever their class. */
  function Ends(codec: Codec, rows: seq<Row>, runId: string): nat {
    Count(rows, row => OfRun(codec, row, runId) && FinishRow(codec, row))
  }

  /** The sources captured under a binding, in the order of their events. */
  function CapturesIn(codec: Codec, rows: seq<Row>, b: Binding): seq<Stored> {
    if rows == [] then []
    else
      var n := |rows| - 1;
      CapturesIn(codec, rows[..n], b) + CaptureOf(codec, rows[n], b)
  }

  function CaptureOf(codec: Codec, row: Row, b: Binding): seq<Stored> {
    match DataOf(codec, row)
    case Some(Captured(bound, name, source)) => if bound == b then [Stored(name, source)] else []
    case _ => []
  }

  lemma RunEnds(store: Store, rows: seq<Row>, runId: string)
    requires Read(store, rows).Ok? && runId in Read(store, rows).value.attempts
    ensures Count(Read(store, rows).value.attempts[runId], IsFinished) == Ends(store.codec, rows, runId)
  {
    hide Read, Count, Effect;
    var codec := store.codec;
    var weight := (h: seq<Attempt>) => Count(h, IsFinished);
    var q := (row: Row) => FinishRow(codec, row);
    CountAll<Attempt>([], IsFinished);
    forall row: Row, history | DataOf(codec, row).Some? && Follows(history, DataOf(codec, row).value)
      ensures weight(Effect(history, DataOf(codec, row).value, codec.digest(row.payload)))
        == weight(history) + if q(row) then 1 else 0
    {
      var data, dig := DataOf(codec, row).value, codec.digest(row.payload);
      EffectLast(history, data, dig);
      CountEffect(history, data, dig, IsFinished);
    }
    RunTally(store, rows, runId, weight, q);
    SameCount(rows, row => OfRun(codec, row, runId) && q(row), row => OfRun(codec, row, runId)
      && FinishRow(codec, row));
  }

  /** The binding names this attempt. */
  predicate Names(st: State, b: Binding) {
    && b.assignment.runId in st.attempts
    && 1 <= b.attempt <= |st.attempts[b.assignment.runId]|
    && st.attempts[b.assignment.runId][b.attempt - 1].binding == b
  }

  function SourcesUnder(st: State, b: Binding): seq<Stored> {
    if Names(st, b) then st.attempts[b.assignment.runId][b.attempt - 1].sources else []
  }

  /** A step adds to the sources under each binding what its event captures. */
  lemma StepCaptures(store: Store, st: State, data: Data, payload: Bytes, recordDigest: string, b: Binding)
    requires Invariant(store, st) && Admits(store, st, data)
    ensures SourcesUnder(Stepped(st, data, payload, recordDigest), b)
         == SourcesUnder(st, b)
          + if data.Captured? && data.binding == b then [Stored(data.name, data.source)] else []
  {
    hide ValidSpec, Replayed, DecodeSource, BlockSettled, GoodSources, AssignedTo, AsMap;
    var runId := data.binding.assignment.runId;
    assert GoodHistory(store, st, runId);
    if !data.Started? {
      assert GoodAttempt(store, st.spec, runId, |st.attempts[runId]|, Last(st, runId));
    }
  }

  lemma {:induction false} SourcesCaptured(store: Store, rows: seq<Row>, b: Binding)
    requires Read(store, rows).Ok?
    ensures SourcesUnder(Read(store, rows).value, b) == CapturesIn(store.codec, rows, b)
  {
    hide Admits, Read, Invariant, Stepped, SourcesUnder;
    LastRow(store, rows);
    var n := |rows| - 1;
    if n == 0 {
      assert rows[..0] == [];
      NoneUnder(Read(store, rows).value, b);
    } else {
      SourcesCaptured(store, rows[..n], b);
      ReadableInvariant(store, rows[..n]);
      StepCaptures(store, Read(store, rows[..n]).value, EventOf(store, rows[n]).data, rows[n].payload,
        store.codec.digest(rows[n].payload), b);
    }
  }

  lemma NoneUnder(st: State, b: Binding)
    requires forall r | r in st.attempts :: st.attempts[r] == []
    ensures SourcesUnder(st, b) == []
  {
  }

  // The next event

  /** The binding is of a planned assignment, under this store's receipt. */
  predicate Bound(store: Store, planned: seq<Assignment>, b: Binding) {
    b.preparationDigest == store.receipt && b.assignment in planned
  }

  /** A first attempt of a run that has none, or a second one after a harness failure,
      once every run of the block has a finished attempt. */
  ghost predicate MayStart(codec: Codec, rows: seq<Row>, planned: seq<Assignment>, b: Binding) {
    var runId := b.assignment.runId;
    && b.attempt == Starts(codec, rows, runId) + 1
    && (b.attempt == 1
        || (b.attempt == 2 && Finishes(codec, rows, runId, HarnessFailure) == 1
            && forall a | a in planned && a.blockId == b.assignment.blockId :: Ends(codec, rows, a.runId) > 0))
  }

  /** The binding is of the run's last attempt, which no event has finished. */
  predicate IsCurrent(codec: Codec, rows: seq<Row>, b: Binding) {
    b.attempt == Starts(codec, rows, b.assignment.runId) == Ends(codec, rows, b.assignment.runId) + 1
  }

  /** A new public name and some bytes under their digest. */
  predicate NewSource(codec: Codec, earlier: seq<Stored>, name: string, source: Source) {
    && (forall i | 0 <= i < |earlier| :: earlier[i].name != name)
    && PublicName(name) && DigestText(source.digest)
    && match codec.decode64(source.text)
       case Err => false
       case Ok(bytes) => |bytes| > 0 && codec.digest(bytes) == source.digest
  }

  ghost predicate Admissible(store: Store, rows: seq<Row>, spec: Spec, data: Data) {
    var codec, planned := store.codec, spec.assignments;
    match data
    case Prepared(_) => false
    case Started(b) => Bound(store, planned, b) && MayStart(codec, rows, planned, b)
    case Captured(b, name, source) =>
      Bound(store, planned, b) && IsCurrent(codec, rows, b)
        && NewSource(codec, CapturesIn(codec, rows, b), name, source)
    case Finished(b, sources, verified) =>
      && Bound(store, planned, b) && IsCurrent(codec, rows, b) && sources == AsMap(CapturesIn(codec, rows, b))
      && Replayed(store, spec.campaign.phase, b, InKeyOrder(sources)) == Ok(verified)
  }

  lemma BoundExactly(store: Store, st: State, b: Binding)
    requires Invariant(store, st)
    ensures AssignedTo(st.spec.assignments, b.assignment.runId) == Some(b.assignment) <==>
      b.assignment in st.spec.assignments
    ensures b.assignment in st.spec.assignments ==> b.assignment.runId in st.attempts
  {
    hide ValidRow, ValidCampaign, GoodHistory, PairsConsistent, ArmsComplete;
    EveryRunListed(store, st);
    if b.assignment in st.spec.assignments {
      AssignedUnique(st.spec.assignments, b.assignment);
    }
    if AssignedTo(st.spec.assignments, b.assignment.runId).Some? {
      AssignedRun(st.spec.assignments, b.assignment.runId);
    }
  }

  /** The state's view of a run, in its events. */
  lemma RunNow(store: Store, rows: seq<Row>, runId: string)
    requires Read(store, rows).Ok? && runId in Read(store, rows).value.attempts
    ensures var history := Read(store, rows).value.attempts[runId];
      && |history| == Starts(store.codec, rows, runId) && |history| <= 2
      && (history != [] ==>
            && (history[|history| - 1].finished.None? <==>
                  Starts(store.codec, rows, runId) == Ends(store.codec, rows, runId) + 1)
            && (history[0].finished.Some? <==> Ends(store.codec, rows, runId) > 0))
      && (history == [] ==> Ends(store.codec, rows, runId) == 0)
      && (|history| == 1 ==>
            (IsHarnessFailure(history[0]) <==> Finishes(store.codec, rows, runId, HarnessFailure) == 1))
  {
    hide Read, Invariant, Starts, Ends, Finishes;
    RunStarts(store, rows, runId);
    RunEnds(store, rows, runId);
    RunFinishes(store, rows, runId, HarnessFailure);
    ReadableInvariant(store, rows);
    var st := Read(store, rows).value;
    var history := st.attempts[runId];
    AtMostTwo(store, st, runId);
    CountUpToTwo(history, IsFinished);
    CountUpToTwo(history, a => Ended(a, HarnessFailure));
  }

  lemma AtMostTwo(store: Store, st: State, runId: string)
    requires Invariant(store, st) && runId in st.attempts
    ensures |st.attempts[runId]| <= 2
    ensures |st.attempts[runId]| == 2 ==> st.attempts[runId][0].finished.Some?
  {
    hide ValidSpec, BlockSettled, GoodAttempts;
    assert GoodHistory(store, st, runId);
  }

  lemma BlockExactly(store: Store, rows: seq<Row>, blockId: string)
    requires Read(store, rows).Ok?
    ensures var st := Read(store, rows).value;
      BlockSettled(st, blockId) <==>
        forall a | a in st.spec.assignments && a.blockId == blockId :: Ends(store.codec, rows, a.runId) > 0
  {
    hide Read, Invariant, Starts, Ends, Finishes;
    ReadableInvariant(store, rows);
    var st := Read(store, rows).value;
    EveryRunListed(store, st);
    forall a | a in st.spec.assignments
      ensures Ends(store.codec, rows, a.runId) > 0 <==>
        st.attempts[a.runId] != [] && st.attempts[a.runId][0].finished.Some?
    {
      RunNow(store, rows, a.runId);
    }
  }

  lemma SourceExactly(codec: Codec, earlier: seq<Stored>, name: string, source: Source)
    ensures !HasName(earlier, name) && DecodeSource(codec, Stored(name, source)).Ok? <==>
      NewSource(codec, earlier, name, source)
  {
    hide IsIdentifier, PublicName, IsDigest, DigestText;
    ShapesExactly(name);
    ShapesExactly(source.digest);
    assert HasName(earlier, name) <==> exists i :: 0 <= i < |earlier| && earlier[i].name == name;
  }

  /** A stored source and what it holds: a public name, and bytes under their digest. */
  predicate HoldsBytes(codec: Codec, s: Stored, c: Capture) {
    && c.name == s.name && PublicName(s.name) && DigestText(s.source.digest) && |c.data| > 0
    && codec.decode64(s.source.text) == Ok(c.data) && codec.digest(c.data) == s.source.digest
  }

  lemma HeldExactly(codec: Codec, s: Stored, c: Capture)
    ensures DecodeSource(codec, s) == Ok(c) <==> HoldsBytes(codec, s, c)
  {
    hide IsIdentifier, PublicName, IsDigest, DigestText;
    ShapesExactly(s.name);
    ShapesExactly(s.source.digest);
  }

  lemma EachNext(codec: Codec, sources: seq<Stored>, captures: seq<Capture>)
    requires |captures| == |sources| > 0
    ensures var n := |sources| - 1;
      DecodeEach(codec, sources) == Ok(captures) <==>
        DecodeEach(codec, sources[..n]) == Ok(captures[..n]) && DecodeSource(codec, sources[n]) == Ok(captures[n])
  {
    hide DecodeSource;
    var n := |sources| - 1;
    assert captures == captures[..n] + [captures[n]];
  }

  lemma {:induction false} EachExactly(codec: Codec, sources: seq<Stored>, captures: seq<Capture>)
    ensures DecodeEach(codec, sources) == Ok(captures) <==>
      |captures| == |sources| && forall i | 0 <= i < |sources| :: HoldsBytes(codec, sources[i], captures[i])
  {
    hide DecodeSource, HoldsBytes;
    if sources != [] && |captures| == |sources| {
      hide DecodeEach;
      var n := |sources| - 1;
      EachExactly(codec, sources[..n], captures[..n]);
      HeldExactly(codec, sources[n], captures[n]);
      EachNext(codec, sources, captures);
    }
  }

  /** The sources of an attempt are read, and as which captures, exactly when there are
      some and each holds its capture's bytes. */
  lemma DecodedExactly(codec: Codec, sources: seq<Stored>, captures: seq<Capture>)
    ensures DecodeSources(codec, sources) == Ok(captures) <==>
      && |sources| > 0 && |captures| == |sources|
      && forall i | 0 <= i < |sources| :: HoldsBytes(codec, sources[i], captures[i])
  {
    hide DecodeEach, HoldsBytes;
    EachExactly(codec, sources, captures);
  }

  lemma CurrentExactly(store: Store, rows: seq<Row>, b: Binding)
    requires Read(store, rows).Ok? && Bound(store, Read(store, rows).value.spec.assignments, b)
    requires b.assignment.runId in Read(store, rows).value.attempts
    ensures AttemptOpen(Read(store, rows).value, b) <==> IsCurrent(store.codec, rows, b)
    ensures IsCurrent(store.codec, rows, b) ==>
      Last(Read(store, rows).value, b.assignment.runId).sources == CapturesIn(store.codec, rows, b)
  {
    hide Read, Starts, Ends, Invariant;
    RunNow(store, rows, b.assignment.runId);
    if IsCurrent(store.codec, rows, b) {
      ReadableInvariant(store, rows);
      LastBound(store, Read(store, rows).value, b);
      SourcesCaptured(store, rows, b);
    }
  }

  lemma LastBound(store: Store, st: State, b: Binding)
    requires Invariant(store, st) && Bound(store, st.spec.assignments, b) && b.assignment.runId in st.attempts
    requires b.attempt == |st.attempts[b.assignment.runId]| > 0
    ensures Last(st, b.assignment.runId).binding == b
  {
    hide ValidSpec, BlockSettled, GoodSources, Replayed, AssignedTo;
    BoundExactly(store, st, b);
    assert GoodHistory(store, st, b.assignment.runId);
    assert GoodAttempt(store, st.spec, b.assignment.runId, b.attempt, Last(st, b.assignment.runId));
  }

  lemma StartExactly(store: Store, rows: seq<Row>, b: Binding)
    requires Read(store, rows).Ok? && Bound(store, Read(store, rows).value.spec.assignments, b)
    requires b.assignment.runId in Read(store, rows).value.attempts
    requires AssignedTo(Read(store, rows).value.spec.assignments, b.assignment.runId) == Some(b.assignment)
    ensures var st := Read(store, rows).value;
      CanStart(st, b.assignment.runId) && b.attempt == |st.attempts[b.assignment.runId]| + 1
      <==> MayStart(store.codec, rows, st.spec.assignments, b)
  {
    hide Read, Starts, Ends, Finishes, BlockSettled;
    RunNow(store, rows, b.assignment.runId);
    BlockExactly(store, rows, b.assignment.blockId);
  }

  /** The reader admits an event exactly when the events before it allow it. */
  lemma AdmitsExactly(store: Store, rows: seq<Row>, data: Data)
    requires Read(store, rows).Ok?
    ensures var st := Read(store, rows).value;
      Admits(store, st, data) <==> Admissible(store, rows, st.spec, data)
  {
    hide Read, Invariant, MayStart, IsCurrent, CanStart, AttemptOpen, AssignedTo, NewSource, HasName, DecodeSource,
         CapturesIn, Replayed;
    if !data.Prepared? {
      var b, st := data.binding, Read(store, rows).value;
      ReadableInvariant(store, rows);
      BoundExactly(store, st, b);
      if Bound(store, st.spec.assignments, b) {
        StartExactly(store, rows, b);
        CurrentExactly(store, rows, b);
        NumberedTwice(store.codec, rows, st.spec.assignments, b);
        AttemptsNumbered(store, rows, b);
        if data.Captured? {
          SourceExactly(store.codec, CapturesIn(store.codec, rows, b), data.name, data.source);
        }
      }
    }
  }

  lemma NumberedTwice(codec: Codec, rows: seq<Row>, planned: seq<Assignment>, b: Binding)
    ensures MayStart(codec, rows, planned, b) ==> b.attempt == 1 || b.attempt == 2
  {
  }

  lemma AttemptsNumbered(store: Store, rows: seq<Row>, b: Binding)
    requires Read(store, rows).Ok? && b.assignment.runId in Read(store, rows).value.attempts
    ensures IsCurrent(store.codec, rows, b) ==> b.attempt == 1 || b.attempt == 2
    ensures AttemptOpen(Read(store, rows).value, b) ==> Read(store, rows).value.attempts[b.assignment.runId] != []
  {
    hide Read, Starts, Ends, Finishes;
    RunNow(store, rows, b.assignment.runId);
  }

  /** One more row keeps a journal readable exactly when it holds the canonical bytes of
      an event that carries the next number and the last row's digest, and that the
      events before it allow. */
  lemma ReadNext(store: Store, rows: seq<Row>, row: Row)
    requires Read(store, rows).Ok?
    ensures rows != []
    ensures Read(store, rows + [row]).Ok? <==>
      && row.sequence == |rows| + 1
      && store.codec.decode(row.payload).Ok?
      && var event := EventOf(store, row);
         && store.codec.encode(event) == row.payload
         && event.sequence == |rows| + 1 && event.previous == Some(store.codec.digest(rows[|rows| - 1].payload))
         && Admissible(store, rows, Read(store, rows).value.spec, event.data)
  {
    hide Admits, Admissible, Stepped, OpenPreparation;
    LastRow(store, rows);
    assert (rows + [row])[..|rows|] == rows && (rows + [row])[|rows|] == row;
    if store.codec.decode(row.payload).Ok? {
      AdmitsExactly(store, rows, EventOf(store, row).data);
    }
  }

  /** A single row is a journal exactly when it is the canonical, first event of a
      preparation whose bytes have the receipt's digest. */
  lemma ReadFirst(store: Store, row: Row)
    ensures Read(store, [row]).Ok? <==>
      && row.sequence == 1
      && store.codec.decode(row.payload).Ok?
      && var event := EventOf(store, row);
         && store.codec.encode(event) == row.payload && event.sequence == 1 && event.previous == None
         && event.data.Prepared? && store.codec.digest(row.payload) == store.receipt && ValidSpec(event.data.spec)
  {
    hide ValidSpec;
  }

  /** The plan is the first event's, ever after. */
  lemma PlanIsFirst(store: Store, rows: seq<Row>)
    requires Read(store, rows).Ok?
    ensures rows != [] && store.codec.decode(rows[0].payload).Ok? && EventOf(store, rows[0]).data.Prepared?
    ensures Read(store, rows).value.spec == EventOf(store, rows[0]).data.spec
  {
    hide Read;
    LastRow(store, rows);
    PrefixReadable(store, rows, 1);
    LastRow(store, rows[..1]);
  }

  // The writers

  /** The row a transaction adds: the next number, the last row's digest, canonical bytes. */
  function NextRow(codec: Codec, rows: seq<Row>, data: Data): Row
    requires rows != []
  {
    Row(|rows| + 1,
        codec.encode(Event(|rows| + 1, Some(codec.digest(rows[|rows| - 1].payload)), data)))
  }

  /** The operation writes this event here. */
  ghost predicate Writes(store: Store, rows: seq<Row>, spec: Spec, op: Operation, data: Data) {
    var codec, planned := store.codec, spec.assignments;
    match op
    case Start(runId) =>
      && data.Started? && data.binding.assignment.runId == runId
      && Bound(store, planned, data.binding) && MayStart(codec, rows, planned, data.binding)
    case CaptureSource(b, name, bytes) =>
      && Bound(store, planned, b) && IsCurrent(codec, rows, b)
      && PublicName(name) && |bytes| > 0
      && (forall i | 0 <= i < |CapturesIn(codec, rows, b)| :: CapturesIn(codec, rows, b)[i].name != name)
      && data == Captured(b, name, Source(codec.digest(bytes), codec.encode64(bytes)))
    case FinishAttempt(b) =>
      && Bound(store, planned, b) && IsCurrent(codec, rows, b)
      && data.Finished? && data.binding == b && data.sources == AsMap(CapturesIn(codec, rows, b))
      && Replayed(store, spec.campaign.phase, b, CapturesIn(codec, rows, b)) == Ok(data.verified)
  }

  lemma OpenExactly(store: Store, rows: seq<Row>, b: Binding)
    requires Read(store, rows).Ok?
    ensures var st := Read(store, rows).value;
      IsOpen(st, b) <==> Bound(store, st.spec.assignments, b) && IsCurrent(store.codec, rows, b)
    ensures IsOpen(Read(store, rows).value, b) ==>
      Last(Read(store, rows).value, b.assignment.runId).sources == CapturesIn(store.codec, rows, b)
  {
    hide Read, Invariant, IsCurrent, Bound;
    var st := Read(store, rows).value;
    ReadableInvariant(store, rows);
    BoundExactly(store, st, b);
    if IsOpen(st, b) {
      OpenBound(store, st, b);
      CurrentExactly(store, rows, b);
    } else if Bound(store, st.spec.assignments, b) && IsCurrent(store.codec, rows, b) {
      BoundPlanned(store, st.spec.assignments, b);
      CurrentExactly(store, rows, b);
      LastBound(store, st, b);
    }
  }

  lemma BoundPlanned(store: Store, planned: seq<Assignment>, b: Binding)
    requires Bound(store, planned, b)
    ensures b.assignment in planned
  {
  }

  lemma OpenBound(store: Store, st: State, b: Binding)
    requires Invariant(store, st) && IsOpen(st, b)
    ensures Bound(store, st.spec.assignments, b) && AttemptOpen(st, b)
  {
    hide ValidSpec, BlockSettled, GoodSources, Replayed;
    BoundExactly(store, st, b);
    assert GoodHistory(store, st, b.assignment.runId);
    assert GoodAttempt(store, st.spec, b.assignment.runId, |st.attempts[b.assignment.runId]|,
        Last(st, b.assignment.runId));
  }

  lemma StartProposed(store: Store, rows: seq<Row>, runId: string, data: Data)
    requires Read(store, rows).Ok?
    ensures var st := Read(store, rows).value;
      Proposed(store, st, Start(runId)) == Ok(data) <==> Writes(store, rows, st.spec, Start(runId), data)
  {
    hide Read, Invariant, MayStart, CanStart, AssignedTo;
    var st := Read(store, rows).value;
    ReadableInvariant(store, rows);
    if data.Started? {
      BoundExactly(store, st, data.binding);
      if Bound(store, st.spec.assignments, data.binding) {
        StartExactly(store, rows, data.binding);
      }
    }
    if AssignedTo(st.spec.assignments, runId).Some? {
      AssignedRun(st.spec.assignments, runId);
    }
  }

  lemma ProposedExactly(store: Store, rows: seq<Row>, op: Operation, data: Data)
    requires Read(store, rows).Ok?
    ensures var st := Read(store, rows).value;
      Proposed(store, st, op) == Ok(data) <==> Writes(store, rows, st.spec, op, data)
  {
    match op
    case Start(runId) =>
      StartProposed(store, rows, runId, data);
    case CaptureSource(b, name, bytes) =>
      hide Read, IsOpen, Bound, IsCurrent, IsIdentifier, PublicName, CapturesIn;
      OpenExactly(store, rows, b);
      ShapesExactly(name);
      NewName(CapturesIn(store.codec, rows, b), name);
    case FinishAttempt(b) =>
      hide Read, IsOpen, Bound, IsCurrent, CapturesIn, Replayed, AsMap;
      OpenExactly(store, rows, b);
  }

  lemma NewName(earlier: seq<Stored>, name: string)
    ensures HasName(earlier, name) <==> exists i :: 0 <= i < |earlier| && earlier[i].name == name
  {
  }

  /** A transaction adds to a readable journal the one row of the event its operation
      writes here, and leaves it as it is when there is none. */
  lemma CommitExactly(store: Store, rows: seq<Row>, op: Operation)
    requires Read(store, rows).Ok?
    ensures rows != []
    ensures var spec := Read(store, rows).value.spec;
      && (forall data | Writes(store, rows, spec, op, data) ::
            Commit(store, rows, op) == rows + [NextRow(store.codec, rows, data)])
      && ((forall data :: !Writes(store, rows, spec, op, data)) ==> Commit(store, rows, op) == rows)
  {
    hide Read, Proposed, Writes;
    LastRow(store, rows);
    forall data
      ensures Proposed(store, Read(store, rows).value, op) == Ok(data)
         <==> Writes(store, rows, Read(store, rows).value.spec, op, data)
    {
      ProposedExactly(store, rows, op, data);
    }
    RowsAreRaw(store, rows);
  }
}

/** The store's operations as transactions over the shared journal (campaign.py, CampaignStore). */
module CampaignStores {
  import opened Results
  import opened ByteStrings
  import opened Text
  import opened Submissions
  import opened Rosters
  import opened TrialOutcomes
  import opened OutcomeChecks
  import opened Verification
  import opened Journals
  import opened JournalRefinement
  import opened JournalHistory
  import opened CampaignProtocol
  import opened CampaignReports
  import opened JournalRuns

  // Looking up a terminal record

  predicate IsRecord(codec: Codec, payload: Bytes, recordDigest: string) {
    && codec.digest(payload) == recordDigest
    && var event := codec.decode(payload);
       event.Ok? && event.value.data.Finished?
  }

  function Matches(codec: Codec, raw: seq<Bytes>, recordDigest: string): seq<Bytes> {
    if raw == [] then []
    else
      var n := |raw| - 1;
      Matches(codec, raw[..n], recordDigest) + if IsRecord(codec, raw[n], recordDigest) then [raw[n]] else []
  }

  lemma {:induction false} OneMatch(codec: Codec, raw: seq<Bytes>, recordDigest: string, i: nat)
    requires i < |raw|
    requires forall j | 0 <= j < |raw| :: IsRecord(codec, raw[j], recordDigest) <==> j == i
    ensures Matches(codec, raw, recordDigest) == [raw[i]]
  {
    hide IsRecord;
    var n := |raw| - 1;
    if i == n {
      NoMatch(codec, raw[..n], recordDigest);
    } else {
      OneMatch(codec, raw[..n], recordDigest, i);
    }
  }

  lemma {:induction false} NoMatch(codec: Codec, raw: seq<Bytes>, recordDigest: string)
    requires forall j | 0 <= j < |raw| :: !IsRecord(codec, raw[j], recordDigest)
    ensures Matches(codec, raw, recordDigest) == []
  {
    hide IsRecord;
    if raw != [] {
      NoMatch(codec, raw[..|raw| - 1], recordDigest);
    }
  }

  /** What looking a digest up returns: its one terminal record. */
  ghost function Retrieved(store: Store, rows: seq<Row>, recordDigest: string): Result<Bytes> {
    if !IsDigest(recordDigest) || Read(store, rows).Err? then Err
    else
      var matches := Matches(store.codec, Read(store, rows).value.raw, recordDigest);
      if |matches| == 1 then Ok(matches[0]) else Err
  }

  /** Row `i` finished an attempt, in bytes with this digest. */
  predicate RecordRow(codec: Codec, rows: seq<Row>, i: int, recordDigest: string) {
    && 0 <= i < |rows| && codec.digest(rows[i].payload) == recordDigest
    && match codec.decode(rows[i].payload)
       case Err => false
       case Ok(event) => event.data.Finished?
  }

  lemma {:induction false} MatchesCount(codec: Codec, raw: seq<Bytes>, recordDigest: string)
    ensures |Matches(codec, raw, recordDigest)| == |set i | 0 <= i < |raw| && IsRecord(codec, raw[i], recordDigest)|
    ensures forall b :: b in Matches(codec, raw, recordDigest) <==> b in raw && IsRecord(codec, b, recordDigest)
  {
    hide IsRecord;
    if raw != [] {
      var n := |raw| - 1;
      MatchesCount(codec, raw[..n], recordDigest);
      assert raw == raw[..n] + [raw[n]];
      var before := set i | 0 <= i < n && IsRecord(codec, raw[..n][i], recordDigest);
      assert (set i | 0 <= i < |raw| && IsRecord(codec, raw[i], recordDigest))
        == before + if IsRecord(codec, raw[n], recordDigest) then {n} else {};
    }
  }

  /** A digest looks up a record exactly when one row, and only one, finished an attempt
      in bytes with that digest; it is that row's payload. */
  lemma LookupExactly(store: Store, rows: seq<Row>, recordDigest: string, record: Bytes)
    ensures Retrieved(store, rows, recordDigest) == Ok(record) <==>
      && Read(store, rows).Ok? && IsDigest(recordDigest)
      && exists i :: RecordRow(store.codec, rows, i, recordDigest) && rows[i].payload == record
           && forall j | RecordRow(store.codec, rows, j, recordDigest) :: j == i
  {
    hide Read, IsDigest, Matches;
    if Read(store, rows).Ok? {
      var raw := Read(store, rows).value.raw;
      RowsAreRaw(store, rows);
      MatchesCount(store.codec, raw, recordDigest);
      var indices := set i | 0 <= i < |raw| && IsRecord(store.codec, raw[i], recordDigest);
      assert forall i :: i in indices <==> RecordRow(store.codec, rows, i, recordDigest);
      hide IsRecord, RecordRow;
      if |indices| == 1 {
        var i :| i in indices;
        assert indices == {i} by {
          assert |indices - {i}| == 0;
        }
        var matches := Matches(store.codec, raw, recordDigest);
        assert matches[0] in matches && raw[i] in matches;
        assert matches == [raw[i]];
      }
      if i :| RecordRow(store.codec, rows, i, recordDigest)
              && forall j | RecordRow(store.codec, rows, j, recordDigest) :: j == i {
        assert indices == {i};
      }
    }
  }

  /** Row `j` of a readable journal carries the number `j + 1`. */
  lemma SequenceAt(store: Store, rows: seq<Row>, j: nat)
    requires Read(store, rows).Ok? && j < |rows|
    ensures rows[j].payload == Read(store, rows).value.raw[j]
    ensures store.codec.decode(rows[j].payload).Ok? && EventOf(store, rows[j]).sequence == j + 1
  {
    hide Read, Admits, Stepped;
    RowsAreRaw(store, rows);
    PrefixReadable(store, rows, j + 1);
    LastRow(store, rows[..j + 1]);
  }

  /** The record digest of every finished attempt is found again: looking it up
      returns the finish of that attempt, with its captures and its result. */
  lemma RecordResolves(store: Store, rows: seq<Row>, runId: string, k: nat)
    requires store.codec.Faithful() && NoCollision(store.codec, rows, rows)
    requires Read(store, rows).Ok? && runId in Read(store, rows).value.attempts
    requires k < |Read(store, rows).value.attempts[runId]|
    requires Read(store, rows).value.attempts[runId][k].finished.Some?
    ensures var a := Read(store, rows).value.attempts[runId][k];
      var found := Retrieved(store, rows, a.finished.value.recordDigest);
      && found.Ok? && store.codec.decode(found.value).Ok?
      && store.codec.decode(found.value).value.data == Finished(a.binding, AsMap(a.sources), a.finished.value.verified)
      && AssignedTo(Read(store, rows).value.spec.assignments, runId) == Some(a.binding.assignment)
  {
    hide Read, AsMap, Invariant;
    var st := Read(store, rows).value;
    var a := st.attempts[runId][k];
    FinishedByEvent(store, rows, runId, k);
    var i: nat :| FinishedAt(store, rows, i, a);
    forall j: nat | j < |rows|
      ensures IsRecord(store.codec, st.raw[j], a.finished.value.recordDigest) <==> j == i
    {
      SequenceAt(store, rows, j);
      SequenceAt(store, rows, i);
      assert store.codec.digest(rows[j].payload) == store.codec.digest(rows[i].payload)
        ==> rows[j].payload == rows[i].payload;
    }
    SequenceAt(store, rows, i);
    hide IsRecord;
    OneMatch(store.codec, st.raw, a.finished.value.recordDigest, i);
    ReadableInvariant(store, rows);
    AttemptBound(store, st, runId, k);
  }

  /** An attempt's binding names its assignment, this receipt and its own number. */
  lemma AttemptBound(store: Store, st: State, runId: string, k: nat)
    requires Invariant(store, st) && runId in st.attempts && k < |st.attempts[runId]|
    ensures var b := st.attempts[runId][k].binding;
      AssignedTo(st.spec.assignments, runId) == Some(b.assignment) && b.preparationDigest == store.receipt
      && b.attempt == k + 1
  {
    hide ValidSpec, BlockSettled, GoodSources, Replayed, AssignedTo;
    assert GoodHistory(store, st, runId);
    assert GoodAttempt(store, st.spec, runId, k + 1, st.attempts[runId][k]);
  }

  /** The finished event shows the row: its assignment, status, marks and metrics, and
      the fault flag of its answer as re-read.
      A twice-excluded row shows its second harness failure. */
  ghost predicate Shows(data: Data, a: Assignment, row: ReportRow) {
    && data.Finished? && data.binding.assignment == a
    && (if row.status.ExcludedTwice? then data.verified.outcome.terminal == HarnessFailure && data.binding.attempt == 2
        else row.status == Result(data.verified.outcome.terminal))
    && row.validators == Some(data.verified.outcome.validators)
    && row.metrics == data.verified.metrics
    && (match SavedAnswer(data.verified.outcome.submission)
        case Err => false
        case Ok(None) => row.reportedFault == None
        case Ok(Some(answer)) => row.reportedFault == Some(answer.faultPresent))
  }

  /** Every digest in an export is found again, as the finished event its row shows. */
  lemma ExportedRecordsResolve(store: Store, rows: seq<Row>, i: nat)
    requires store.codec.Faithful() && NoCollision(store.codec, rows, rows)
    requires Read(store, rows).Ok? && i < |Read(store, rows).value.spec.assignments|
    ensures var st := Read(store, rows).value;
      var row := Report(st.spec.assignments, st.attempts)[i];
      row.recordDigest.Some? ==>
        var found := Retrieved(store, rows, row.recordDigest.value);
        && found.Ok? && store.codec.decode(found.value).Ok?
        && Shows(store.codec.decode(found.value).value.data, st.spec.assignments[i], row)
  {
    hide Read, NoCollision, AsMap, Matches, RowFor, Invariant, UniqueRuns, Codec.Faithful, Retrieved, Regular;
    var st := Read(store, rows).value;
    var a := st.spec.assignments[i];
    var history := HistoryOf(st.attempts, a.runId);
    if RowFor(a, history).recordDigest.Some? {
      RosterRegular(store, rows);
      assert a in st.spec.assignments;
      RowOfRecord(a, history);
      RecordResolves(store, rows, a.runId, |history| - 1);
      ReadableInvariant(store, rows);
      RosterUnique(store, st);
      AssignedUnique(st.spec.assignments, a);
      AttemptBound(store, st, a.runId, |history| - 1);
      AttemptAccepted(store, st, a.runId, |history| - 1);
    }
  }

  /** A finished attempt's outcome was accepted, so its answer reads back, with the
      fault flag the report shows. */
  lemma AttemptAccepted(store: Store, st: State, runId: string, k: nat)
    requires Invariant(store, st) && runId in st.attempts && k < |st.attempts[runId]|
    requires st.attempts[runId][k].finished.Some?
    ensures var outcome := st.attempts[runId][k].finished.value.verified.outcome;
      && SavedAnswer(outcome.submission).Ok?
      && ReportedFault(outcome) == match SavedAnswer(outcome.submission).value
                                   case None => None
                                   case Some(answer) => Some(answer.faultPresent)
  {
    hide ValidSpec, BlockSettled, GoodSources, AssignedTo, Replayed, SavedAnswer, ReportedFault;
    assert GoodHistory(store, st, runId);
    assert GoodAttempt(store, st.spec, runId, k + 1, st.attempts[runId][k]);
    var a := st.attempts[runId][k];
    ReplayedAccepted(store, st.spec.campaign.phase, a.binding, InKeyOrder(AsMap(a.sources)));
    FaultReported(a.finished.value.verified.outcome);
  }

  lemma ReplayedAccepted(store: Store, phase: Phase, b: Binding, sources: seq<Stored>)
    requires Replayed(store, phase, b, sources).Ok?
    ensures SavedAnswer(Replayed(store, phase, b, sources).value.outcome.submission).Ok?
  {
    hide SavedAnswer, DecodeSources, ClassesConsistent, ReasonsGiven, ConfinementHeld, LifecycleShown;
  }

  lemma FaultReported(outcome: TrialOutcome)
    requires SavedAnswer(outcome.submission).Ok?
    ensures ReportedFault(outcome) == match SavedAnswer(outcome.submission).value
                                      case None => None
                                      case Some(answer) => Some(answer.faultPresent)
  {
    hide Reparsed, AnswerFields;
    if outcome.submission.Some? {
      AnswerKeys(Reparsed(outcome.submission.value.fields).value);
    }
  }

  /** A row with a record shows the last attempt's result. */
  lemma RowOfRecord(a: Assignment, history: seq<Attempt>)
    requires Regular(history) && RowFor(a, history).recordDigest.Some?
    ensures history != [] && history[|history| - 1].finished.Some?
    ensures var row, f := RowFor(a, history), history[|history| - 1].finished.value;
      && row.recordDigest == Some(f.recordDigest)
      && (if row.status.ExcludedTwice? then f.verified.outcome.terminal == HarnessFailure && |history| == 2
          else row.status == Result(f.verified.outcome.terminal))
      && row.validators == Some(f.verified.outcome.validators) && row.metrics == f.verified.metrics
      && row.reportedFault == ReportedFault(f.verified.outcome)
  {
    CountUpToTwo(history, IsHarnessFailure);
    CountUpToTwo(history, IsFinished);
  }

  lemma RosterUnique(store: Store, st: State)
    requires Invariant(store, st)
    ensures UniqueRuns(st.spec.assignments)
  {
  }

  /** One of these assignments' last attempts is open under the handle. */
  ghost predicate OpenAmong(store: Store, st: State, rows: seq<Assignment>, b: Binding) {
    exists a | a in rows :: OpenFor(store, st, a, b)
  }

  /** The handle recovered for an attempt. */
  function HandleOf(store: Store, a: Attempt): Binding {
    Binding(store.receipt, a.binding.assignment, a.binding.attempt)
  }

  predicate OpenFor(store: Store, st: State, a: Assignment, b: Binding) {
    var history := HistoryOf(st.attempts, a.runId);
    && history != [] && history[|history| - 1].finished.None?
    && b == HandleOf(store, history[|history| - 1])
  }

  function OpenHandles(store: Store, st: State, rows: seq<Assignment>): seq<Binding> {
    if rows == [] then []
    else
      var n := |rows| - 1;
      var history := HistoryOf(st.attempts, rows[n].runId);
      OpenHandles(store, st, rows[..n])
      + if history != [] && history[|history| - 1].finished.None?
        then [HandleOf(store, history[|history| - 1])] else []
  }

  lemma OpenSnoc(store: Store, st: State, rows: seq<Assignment>, b: Binding)
    requires rows != []
    ensures OpenAmong(store, st, rows, b)
       <==> OpenAmong(store, st, rows[..|rows| - 1], b) || OpenFor(store, st, rows[|rows| - 1], b)
  {
  }

  lemma {:induction false} HandlesOpen(store: Store, st: State, rows: seq<Assignment>)
    ensures forall b :: b in OpenHandles(store, st, rows) <==> OpenAmong(store, st, rows, b)
  {
    if rows != [] {
      HandlesOpen(store, st, rows[..|rows| - 1]);
      forall b
        ensures b in OpenHandles(store, st, rows) <==> OpenAmong(store, st, rows, b)
      {
        hide OpenAmong;
        OpenSnoc(store, st, rows, b);
      }
    }
  }

  lemma OpenBound(store: Store, st: State, b: Binding)
    requires Invariant(store, st)
    ensures OpenAmong(store, st, st.spec.assignments, b) <==> IsOpen(st, b)
  {
    hide Invariant, AssignedTo;
    forall a | a in st.spec.assignments && OpenFor(store, st, a, b)
      ensures IsOpen(st, b)
    {
      AttemptBound(store, st, a.runId, |st.attempts[a.runId]| - 1);
      AssignedRun(st.spec.assignments, a.runId);
    }
    if IsOpen(st, b) {
      AttemptBound(store, st, b.assignment.runId, |st.attempts[b.assignment.runId]| - 1);
      AssignedRun(st.spec.assignments, b.assignment.runId);
      assert OpenFor(store, st, b.assignment, b);
    }
  }

  // The store

  class CampaignStore {
    const store: Store
    var journal: seq<Row>

    constructor (store: Store, journal: seq<Row>)
      ensures this.store == store && this.journal == journal
    {
      this.store, this.journal := store, journal;
    }

    /** A new journal holding the prepared roster, or a refusal of the roster or of
        a path that already holds a file. */
    static method Prepare(codec: Codec, registry: Registry, spec: Spec, occupied: bool)
      returns (r: Result<CampaignStore>)
      ensures r.Ok? <==> ValidSpec(spec) && !occupied
      ensures r.Ok? ==> fresh(r.value)
      ensures r.Ok? && codec.Faithful() ==>
        && r.value.store.codec == codec
        && Read(r.value.store, r.value.journal).Ok?
        && Read(r.value.store, r.value.journal).value.spec == spec
        && forall runId :: runId in RunIds(spec.assignments) <==>
             runId in Read(r.value.store, r.value.journal).value.attempts
    {
      var valid := ValidatePreparation(spec);
      if !valid || occupied {
        return Err;
      }
      var event := Event(1, None, Prepared(spec));
      var payload := codec.encode(event);
      var store := Store(codec, registry, codec.digest(payload));
      var campaign := new CampaignStore(store, [Row(1, payload)]);
      if codec.Faithful() {
        PayloadDecodes(codec, event);
      }
      return Ok(campaign);
    }

    method Decode(sources: seq<Stored>) returns (r: Result<seq<Capture>>)
      ensures r == DecodeSources(store.codec, sources)
    {
      if sources == [] {
        return Err;
      }
      var captures: seq<Capture> := [];
      for i := 0 to |sources|
        invariant DecodeEach(store.codec, sources[..i]) == Ok(captures)
      {
        assert sources[..i + 1][..i] == sources[..i];
        var one := DecodeSource(store.codec, sources[i]);
        if one.Err? {
          DecodeErrorStays(store.codec, sources, i + 1);
          return Err;
        }
        captures := captures + [one.value];
      }
      assert sources[..|sources|] == sources;
      return Ok(captures);
    }

    method Replay(phase: Phase, b: Binding, sources: seq<Stored>) returns (r: Result<Verified>)
      ensures r == Replayed(store, phase, b, sources)
    {
      var captures := Decode(sources);
      if captures.Err? {
        return Err;
      }
      r := VerifyAttempt(b, captures.value, store.registry, phase);
    }

    /** One turn of the reader's loop: the row's chain, its binding, its step. */
    method ReadEvent(st: State, row: Row) returns (r: Result<State>)
      ensures r == ReadRow(store, st, row)
    {
      var decoded := store.codec.decode(row.payload);
      if decoded.Err? {
        return Err;
      }
      var event, ordinal := decoded.value, |st.raw| + 1;
      if row.sequence != ordinal || event.sequence != ordinal || event.previous != Head(store.codec, st.raw)
         || store.codec.encode(event) != row.payload {
        return Err;
      }
      var data := event.data;
      if data.Prepared? || !BindingFits(store, st, data.binding) {
        return Err;
      }
      var runId := data.binding.assignment.runId;
      if data.Started? {
        if !CanStart(st, runId) || data.binding.attempt != |st.attempts[runId]| + 1 {
          return Err;
        }
      } else {
        if !AttemptOpen(st, data.binding) {
          return Err;
        }
        var current := Last(st, runId);
        if data.Captured? {
          if HasName(current.sources, data.name) || DecodeSource(store.codec, Stored(data.name, data.source)).Err? {
            return Err;
          }
        } else {
          if data.sources != AsMap(current.sources) {
            return Err;
          }
          var replayed := Replay(st.spec.campaign.phase, data.binding, InKeyOrder(data.sources));
          if replayed != Ok(data.verified) {
            return Err;
          }
        }
      }
      return Ok(Stepped(st, data, row.payload, store.codec.digest(row.payload)));
    }

    method OpenFirst(row: Row) returns (r: Result<State>)
      ensures r == OpenPreparation(store, row)
    {
      var decoded := store.codec.decode(row.payload);
      if decoded.Err? {
        return Err;
      }
      var event := decoded.value;
      if row.sequence != 1 || event.sequence != 1 || event.previous != None || store.codec.encode(event) != row.payload
         || !event.data.Prepared? || store.codec.digest(row.payload) != store.receipt {
        return Err;
      }
      var valid := ValidatePreparation(event.data.spec);
      if !valid {
        return Err;
      }
      return Ok(State(event.data.spec, map r | r in RunIds(event.data.spec.assignments) :: [], [row.payload]));
    }

    /** Every operation re-reads the whole log before it acts. */
    method ReadJournal() returns (r: Result<State>)
      ensures r == Read(store, journal)
    {
      hide ReadRow, OpenPreparation;
      if journal == [] {
        return Err;
      }
      r := OpenFirst(journal[0]);
      assert journal[..1][..0] == [];
      for i := 1 to |journal|
        invariant r == Read(store, journal[..i])
      {
        assert journal[..i + 1][..i] == journal[..i];
        if r.Err? {
          ReadErrorStays(store, journal, i);
          return Err;
        }
        r := ReadEvent(r.value, journal[i]);
      }
      assert journal[..|journal|] == journal;
    }

    method Append(st: State, data: Data) returns (recordDigest: string)
      modifies this`journal
      ensures journal == Appended(store, old(journal), st, data)
      ensures recordDigest == store.codec.digest(Payload(store, st, data))
    {
      var payload := store.codec.encode(Event(|st.raw| + 1, Head(store.codec, st.raw), data));
      journal := journal + [Row(|st.raw| + 1, payload)];
      recordDigest := store.codec.digest(payload);
    }

    /** Start the next attempt of a run. */
    method StartRun(runId: string) returns (r: Result<Binding>)
      modifies this`journal
      ensures journal == Commit(store, old(journal), Start(runId))
      ensures r.Err? ==> journal == old(journal)
      ensures r.Ok? ==>
        && Read(store, old(journal)).Ok?
        && Proposed(store, Read(store, old(journal)).value, Start(runId)) == Ok(Started(r.value))
    {
      var state := ReadJournal();
      if state.Err? {
        return Err;
      }
      var st := state.value;
      var planned := AssignedTo(st.spec.assignments, runId);
      if !CanStart(st, runId) || planned.None? {
        return Err;
      }
      var binding := Binding(store.receipt, planned.value, |st.attempts[runId]| + 1);
      var _ := Append(st, Started(binding));
      return Ok(binding);
    }

    /** Persist raw evidence before any verification. */
    method CaptureEvidence(binding: Binding, name: string, bytes: Bytes) returns (r: Result<string>)
      modifies this`journal
      ensures journal == Commit(store, old(journal), CaptureSource(binding, name, bytes))
      ensures r.Err? ==> journal == old(journal)
      ensures r.Ok? ==>
        |journal| == |old(journal)| + 1 && r.value == store.codec.digest(journal[|old(journal)|].payload)
    {
      var state := ReadJournal();
      if state.Err? || !IsIdentifier(name) || bytes == [] {
        return Err;
      }
      var st := state.value;
      if !IsOpen(st, binding) || HasName(Last(st, binding.assignment.runId).sources, name) {
        return Err;
      }
      var source := Source(store.codec.digest(bytes), store.codec.encode64(bytes));
      var recordDigest := Append(st, Captured(binding, name, source));
      return Ok(recordDigest);
    }

    /** Replay the verifier on the attempt's captures and record its result. */
    method FinishRun(binding: Binding) returns (r: Result<string>)
      modifies this`journal
      ensures journal == Commit(store, old(journal), FinishAttempt(binding))
      ensures r.Err? ==> journal == old(journal)
      ensures r.Ok? ==>
        |journal| == |old(journal)| + 1 && r.value == store.codec.digest(journal[|old(journal)|].payload)
    {
      var state := ReadJournal();
      if state.Err? {
        return Err;
      }
      var st := state.value;
      if !IsOpen(st, binding) {
        return Err;
      }
      var sources := Last(st, binding.assignment.runId).sources;
      var verified := Replay(st.spec.campaign.phase, binding, sources);
      if verified.Err? {
        return Err;
      }
      var recordDigest := Append(st, Finished(binding, AsMap(sources), verified.value));
      return Ok(recordDigest);
    }

    /** An open attempt's raw inputs, in the order they were captured. */
    method CapturedSources(binding: Binding) returns (r: Result<seq<Capture>>)
      ensures r.Ok? <==>
        && Read(store, journal).Ok? && IsOpen(Read(store, journal).value, binding)
        && Last(Read(store, journal).value, binding.assignment.runId).sources != []
      ensures r.Ok? ==>
        DecodeSources(store.codec, Last(Read(store, journal).value, binding.assignment.runId).sources) == r
    {
      hide Read, DecodeEach, Invariant;
      var state := ReadJournal();
      if state.Err? || !IsOpen(state.value, binding) {
        return Err;
      }
      ReadableInvariant(store, journal);
      LastSourcesGood(store, state.value, binding.assignment.runId);
      DecodedNames(store.codec, Last(state.value, binding.assignment.runId).sources);
      r := Decode(Last(state.value, binding.assignment.runId).sources);
    }

    /** The handles of unfinished attempts: exactly those that may still capture or finish. */
    method OpenAttempts() returns (r: Result<seq<Binding>>)
      ensures r.Ok? <==> Read(store, journal).Ok?
      ensures r.Ok? ==> forall b :: b in r.value <==> IsOpen(Read(store, journal).value, b)
    {
      hide Read, Invariant;
      var state := ReadJournal();
      if state.Err? {
        return Err;
      }
      var st := state.value;
      ReadableInvariant(store, journal);
      var rows, open := st.spec.assignments, [];
      for i := 0 to |rows|
        invariant open == OpenHandles(store, st, rows[..i])
      {
        assert rows[..i + 1][..i] == rows[..i];
        var history := HistoryOf(st.attempts, rows[i].runId);
        if history != [] && history[|history| - 1].finished.None? {
          open := open + [HandleOf(store, history[|history| - 1])];
        }
      }
      HandlesOpen(store, st, rows);
      assert rows[..|rows|] == rows;
      forall b
        ensures OpenAmong(store, st, rows, b) <==> IsOpen(st, b)
      {
        OpenBound(store, st, b);
      }
      return Ok(open);
    }

    /** The one terminal record a report's digest names. */
    method RecordBytes(recordDigest: string) returns (r: Result<Bytes>)
      ensures r == Retrieved(store, journal, recordDigest)
      ensures r.Ok? ==> store.codec.digest(r.value) == recordDigest
    {
      if !IsDigest(recordDigest) {
        return Err;
      }
      var state := ReadJournal();
      if state.Err? {
        return Err;
      }
      var raw := state.value.raw;
      var matches: seq<Bytes> := [];
      for i := 0 to |raw|
        invariant matches == Matches(store.codec, raw[..i], recordDigest)
        invariant forall m | m in matches :: store.codec.digest(m) == recordDigest
      {
        assert raw[..i + 1][..i] == raw[..i];
        if IsRecord(store.codec, raw[i], recordDigest) {
          matches := matches + [raw[i]];
        }
      }
      assert raw[..|raw|] == raw;
      if |matches| != 1 {
        return Err;
      }
      assert matches[0] in matches;
      return Ok(matches[0]);
    }

    /** The report, row by row; a complete one is refused while anything is unfinished. */
    method Export(complete: bool) returns (r: Result<seq<ReportRow>>)
      ensures Read(store, journal).Err? ==> r.Err?
      ensures Read(store, journal).Ok? ==>
        var st := Read(store, journal).value;
        var report := Report(st.spec.assignments, st.attempts);
        && (r.Err? <==> complete && exists row | row in report :: !IsTerminal(row.status))
        && (r.Ok? ==> r.value == report)
    {
      var state := ReadJournal();
      if state.Err? {
        return Err;
      }
      var st := state.value;
      var rows: seq<ReportRow> := [];
      for i := 0 to |st.spec.assignments|
        invariant rows == Report(st.spec.assignments[..i], st.attempts)
      {
        var a := st.spec.assignments[i];
        rows := rows + [RowFor(a, HistoryOf(st.attempts, a.runId))];
        assert st.spec.assignments[..i + 1] == st.spec.assignments[..i] + [a];
      }
      assert st.spec.assignments[..|st.spec.assignments|] == st.spec.assignments;
      if complete && exists row | row in rows :: !IsTerminal(row.status) {
        return Err;
      }
      return Ok(rows);
    }

    /** Retry-inclusive totals. */
    method AccountCampaign() returns (r: Result<Accounting>)
      ensures r.Ok? <==> Read(store, journal).Ok?
      ensures r.Ok? ==>
        r.value == Account(Read(store, journal).value.spec.assignments, Read(store, journal).value.attempts)
    {
      var state := ReadJournal();
      if state.Err? {
        return Err;
      }
      return Ok(Account(state.value.spec.assignments, state.value.attempts));
    }
  }

  lemma {:induction false} DecodeErrorStays(codec: Codec, sources: seq<Stored>, k: nat)
    requires k <= |sources| && DecodeEach(codec, sources[..k]).Err?
    ensures DecodeEach(codec, sources).Err?
    decreases |sources|
  {
    if k == |sources| {
      assert sources[..k] == sources;
    } else {
      assert sources[..|sources| - 1][..k] == sources[..k];
      DecodeErrorStays(codec, sources[..|sources| - 1], k);
    }
  }

  lemma {:induction false} ReadErrorStays(store: Store, rows: seq<Row>, k: nat)
    requires 0 < k <= |rows| && Read(store, rows[..k]).Err?
    ensures Read(store, rows).Err?
  {
    hide Read;
    if Read(store, rows).Ok? {
      PrefixReadable(store, rows, k);
    }
  }
}

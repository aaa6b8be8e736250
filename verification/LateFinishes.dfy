/** The failing finish, exhibited: a journal reached by a start and captures alone
    on which a committed finish is the last event anyone can read. */
module LateFinishes {
  import opened Results
  import opened ByteStrings
  import opened Text
  import opened Sequences
  import opened Submissions
  import opened Rosters
  import opened TrialOutcomes
  import opened Verification
  import opened CpuEvidence
  import opened NumberedNames
  import opened Adjudication
  import opened ReferenceVerdicts
  import opened Journals
  import opened JournalRefinement
  import opened JournalHistory
  import opened JournalRuns
  import opened ReferenceJournal
  import opened ReviewImports
  import opened ManyReviews

  // On captures

  /** The captures in name order. */
  function ByName(captures: seq<Capture>): (r: seq<Capture>)
    ensures |r| == |SortedNames(Contents(captures).Keys)|
    ensures forall i | 0 <= i < |r| ::
      var name := SortedNames(Contents(captures).Keys)[i];
      name in Contents(captures) && r[i] == Capture(name, Contents(captures)[name])
  {
    var contents := Contents(captures);
    var names := SortedNames(contents.Keys);
    seq(|names|, i requires 0 <= i < |names| => assert names[i] in names; Capture(names[i], contents[names[i]]))
  }

  lemma ByNamePermutes(captures: seq<Capture>)
    requires DistinctCaptures(captures)
    ensures multiset(ByName(captures)) == multiset(captures)
    ensures DistinctCaptures(ByName(captures)) && NamesIncrease(ByName(captures))
  {
    ContentsLookup(captures);
    hide Contents;
    var names, sorted := SortedNames(Contents(captures).Keys), ByName(captures);
    forall i, j | 0 <= i < j < |sorted|
      ensures Before(sorted[i].name, sorted[j].name) && sorted[i].name != sorted[j].name
    {
      assert Before(names[i], names[j]);
      BeforeTrichotomy(names[i], names[j]);
    }
    forall c
      ensures c in sorted <==> c in captures
    {
      if c in sorted {
        var i :| 0 <= i < |sorted| && sorted[i] == c;
        var d :| d in captures && d.name == c.name;
        assert d == c;
      }
      if c in captures {
        assert c.name in names;
        var i :| 0 <= i < |names| && names[i] == c.name;
        assert sorted[i] == c;
      }
    }
    DistinctPermutation(sorted, captures);
  }

  lemma SuccessReplays(b: Binding, n: nat)
    requires n > 0 && HealthyAssignment(b.assignment)
    ensures var replayed := ReplayCaptures(ReferenceFor(b), b, Reviewed(n));
      replayed.Some? && replayed.value.outcome.terminal == ValidatedSuccess
    ensures HasAnswer(ReferenceFor(b), b, Contents(Reviewed(n)))
    ensures NamesWith(Reviewed(n), REVIEW_PREFIX) == Numberings(REVIEW_PREFIX, n)
    ensures EarnedOn(ReferenceFor(b), b, Reviewed(n))
  {
    hide ReplayCaptures, Contents, Reviewed, NamesWith, Numberings, ReferenceFor, Earned, ReviewWith, Answer, Sound;
    SuccessWithAnyReviews(b, n);
    ReviewedSound(n);
    EarnedCaptures(ReferenceFor(b), b, Reviewed(n));
    AnswerHeld(b, n);
  }

  lemma AnswerHeld(b: Binding, n: nat)
    requires n > 0 && HealthyAssignment(b.assignment)
    ensures HasAnswer(ReferenceFor(b), b, Contents(Reviewed(n)))
  {
    var ref := ReferenceFor(b);
    Gathers(b, n);
    hide Gather, Contents, Reviewed, OneCall, FirstValid, ReferenceFor;
    AliasesOf(ref.config);
    CallAccepted(ComponentMaps.Table(ref.config.componentAliases));
    RecordedFirst(ComponentMaps.Table(ref.config.componentAliases), OneCall().calls, 0, Answer());
  }

  /** An earned success with `n` reviews replays in name order to the same attempt
      exactly up to 9999 reviews; past that the same captures are refused. */
  lemma SortedReplay(b: Binding, n: nat)
    requires n > 0 && HealthyAssignment(b.assignment)
    ensures var ref, captures := ReferenceFor(b), Reviewed(n);
      && ReplayCaptures(ref, b, captures).Some? && HasAnswer(ref, b, Contents(captures))
      && multiset(ByName(captures)) == multiset(captures) && NamesIncrease(ByName(captures))
      && (ReplayCaptures(ref, b, ByName(captures)) == ReplayCaptures(ref, b, captures) <==> n <= 9999)
  {
    hide ReplayCaptures, Contents, NamesWith, Reviewed, ReferenceFor, HasAnswer, NamesIncrease, EarnedOn, ByName,
         Numbered, HealthyAssignment;
    SuccessReplays(b, n);
    ReviewedSound(n);
    ByNamePermutes(Reviewed(n));
    CapturesInKeyOrder(ReferenceFor(b), b, Reviewed(n), ByName(Reviewed(n)));
  }

  // A campaign of one healthy pair

  const RUN := "run-1"

  function HealthyRow(runId: string, arm: Arm): Assignment {
    Assignment(runId, "pair-1", "block-1", arm, "model-1", HealthyIncident(), "seed-1", CONFIGURATION, false,
               VerifierName(), Checksum())
  }

  function HealthySpec(): Spec {
    Spec("radius-campaign-v1", Campaign("campaign-1", Pilot, "commit-1", "plan-1"),
         [HealthyRow(RUN, Native), HealthyRow("run-2", Architecture), HealthyRow("run-3", Radius)])
  }

  lemma NamesPublic()
    ensures IsIdentifier("pair-1") && IsIdentifier("block-1") && IsIdentifier("model-1") && IsIdentifier("seed-1")
    ensures IsIdentifier(CONFIGURATION) && IsIdentifier(RUN) && IsIdentifier("run-2") && IsIdentifier("run-3")
  {
  }

  lemma VocabularyPublic()
    ensures IsIdentifier(HealthyIncident()) && IsIdentifier(VerifierName())
    ensures IsIdentifier("campaign-1") && IsIdentifier("commit-1") && IsIdentifier("plan-1")
  {
  }

  lemma RowValid(runId: string, arm: Arm)
    requires IsIdentifier(runId) && !arm.UnknownArm?
    ensures ValidRow(HealthyRow(runId, arm))
  {
    ChecksumIsDigest();
    NamesPublic();
    VocabularyPublic();
    hide Checksum, IsIdentifier, IsDigest, HealthyIncident, VerifierName;
  }

  lemma SpecValid()
    ensures ValidSpec(HealthySpec())
  {
    NamesPublic();
    VocabularyPublic();
    hide IsIdentifier, ValidRow, ArmsComplete, HealthyIncident, VerifierName, Checksum;
    RowValid(RUN, Native);
    RowValid("run-2", Architecture);
    RowValid("run-3", Radius);
    SpecArms();
    SpecRuns();
    hide UniqueRuns;
  }

  lemma SpecRuns()
    ensures UniqueRuns(HealthySpec().assignments)
  {
    hide HealthyIncident, VerifierName, Checksum;
    assert RUN[4] == '1' && "run-2"[4] == '2' && "run-3"[4] == '3';
  }

  lemma SpecArms()
    ensures ArmsComplete(HealthySpec().assignments)
  {
    hide HealthyIncident, VerifierName, Checksum;
    var rows := HealthySpec().assignments;
    assert rows[0] in rows && rows[1] in rows && rows[2] in rows;
    assert rows[0].pairId == rows[1].pairId == rows[2].pairId == "pair-1";
    assert AllArms(rows, "pair-1");
  }

  /** The receipt of the prepared campaign, its first binding, and an operator's store. */
  function Preparation(codec: Codec): Bytes {
    codec.encode(Event(1, None, Prepared(HealthySpec())))
  }

  function FirstBinding(codec: Codec): Binding {
    Binding(codec.digest(Preparation(codec)), HealthyRow(RUN, Native), 1)
  }

  function HealthyStore(codec: Codec): Store {
    Store(codec, map[VerifierName() := ReferenceVerifier(ReferenceFor(FirstBinding(codec)), Checksum())],
          codec.digest(Preparation(codec)))
  }

  function PreparedJournal(codec: Codec): seq<Row> {
    [Row(1, Preparation(codec))]
  }

  function PreparedState(codec: Codec): State {
    State(HealthySpec(), map r | r in RunIds(HealthySpec().assignments) :: [], [Preparation(codec)])
  }

  lemma PreparedReads(codec: Codec)
    requires codec.Faithful()
    ensures Read(HealthyStore(codec), PreparedJournal(codec)) == Ok(PreparedState(codec))
  {
    hide HealthySpec, ValidSpec, RunIds, HealthyStore, Codec.Faithful, Read;
    SpecValid();
    PayloadDecodes(codec, Event(1, None, Prepared(HealthySpec())));
    StoreParts(codec);
    PreparationOpens(HealthyStore(codec), HealthySpec(), Preparation(codec));
  }

  lemma PreparationOpens(store: Store, spec: Spec, payload: Bytes)
    requires store.codec.encode(Event(1, None, Prepared(spec))) == payload
    requires store.codec.decode(payload) == Ok(Event(1, None, Prepared(spec)))
    requires store.codec.digest(payload) == store.receipt && ValidSpec(spec)
    ensures Read(store, [Row(1, payload)]) == Ok(State(spec, map r | r in RunIds(spec.assignments) :: [], [payload]))
  {
    hide ValidSpec, ReadRow;
  }

  lemma StoreParts(codec: Codec)
    ensures HealthyStore(codec).codec == codec && HealthyStore(codec).receipt == codec.digest(Preparation(codec))
  {
  }

  /** Captures as operations on one attempt. */
  function CaptureAll(b: Binding, captures: seq<Capture>): (r: seq<Operation>)
    ensures |r| == |captures| && forall i | 0 <= i < |r| :: r[i] == CaptureSource(b, captures[i].name, captures[i].data)
  {
    seq(|captures|, i requires 0 <= i < |captures| => CaptureSource(b, captures[i].name, captures[i].data))
  }

  /** An attempt that is open with these captures. */
  ghost predicate OpenWith(store: Store, rows: seq<Row>, b: Binding, captures: seq<Capture>) {
    && Read(store, rows).Ok?
    && IsOpen(Read(store, rows).value, b)
    && DecodeEach(store.codec, Last(Read(store, rows).value, b.assignment.runId).sources) == Ok(captures)
  }

  /** Capturing new, named and nonempty sources one by one, on any readable journal,
      leaves the attempt open with all of them. */
  lemma {:induction false} CapturesRun(store: Store, rows: seq<Row>, b: Binding, done: seq<Capture>, todo: seq<Capture>)
    requires store.codec.Faithful() && OpenWith(store, rows, b, done)
    requires DistinctCaptures(done + todo) && forall c | c in todo :: IsIdentifier(c.name) && c.data != []
    ensures OpenWith(store, Run(store, rows, CaptureAll(b, todo)), b, done + todo)
    decreases |todo|
  {
    hide Codec.Faithful, Read, DecodeEach, IsOpen, IsIdentifier, Commit;
    var ops := CaptureAll(b, todo);
    if todo == [] {
      assert done + todo == done;
    } else {
      var c, rest := todo[0], todo[1..];
      CaptureOnJournal(store, rows, Read(store, rows).value, b, c.name, c.data);
      assert c in todo;
      NotYet(done, todo);
      assert ops[1..] == CaptureAll(b, rest);
      assert done + todo == (done + [c]) + rest;
      CapturesRun(store, Commit(store, rows, ops[0]), b, done + [c], rest);
    }
  }

  lemma NotYet(done: seq<Capture>, todo: seq<Capture>)
    requires todo != [] && DistinctCaptures(done + todo)
    ensures !Holds(done, todo[0].name)
  {
    var all := done + todo;
    assert all[|done|] == todo[0] && forall i | 0 <= i < |done| :: all[i] == done[i];
  }

  lemma StartOpens(codec: Codec)
    requires codec.Faithful()
    ensures OpenWith(HealthyStore(codec), Commit(HealthyStore(codec), PreparedJournal(codec), Start(RUN)),
      FirstBinding(codec), [])
  {
    hide Codec.Faithful, Read, Commit, HealthyStore, CanStart, PreparedJournal, PreparedState, Payload, FirstBinding,
         Proposed, SameInBothOrders, OpenWith;
    var store, st, b := HealthyStore(codec), PreparedState(codec), FirstBinding(codec);
    StoreParts(codec);
    PreparedReads(codec);
    FirstProposed(codec);
    WriteThenRead(store, PreparedJournal(codec), st, Start(RUN));
    FirstRun(codec);
    var payload := Payload(store, st, Started(b));
    StartedOpen(st, b, payload, store.codec.digest(payload));
    OpenBy(store, Commit(store, PreparedJournal(codec), Start(RUN)), b,
      Stepped(st, Started(b), payload, store.codec.digest(payload)));
  }

  lemma FirstRun(codec: Codec)
    ensures FirstBinding(codec).assignment.runId == RUN
  {
  }

  lemma OpenBy(store: Store, rows: seq<Row>, b: Binding, st: State)
    requires Read(store, rows) == Ok(st) && IsOpen(st, b) && Last(st, b.assignment.runId).sources == []
    ensures OpenWith(store, rows, b, [])
  {
    hide Read;
  }

  lemma StartedOpen(st: State, b: Binding, payload: Bytes, recordDigest: string)
    requires b.assignment.runId in st.attempts
    ensures var next := Stepped(st, Started(b), payload, recordDigest);
      IsOpen(next, b) && Last(next, b.assignment.runId).sources == []
  {
  }

  lemma FirstProposed(codec: Codec)
    ensures Proposed(HealthyStore(codec), PreparedState(codec), Start(RUN)) == Ok(Started(FirstBinding(codec)))
    ensures RUN in PreparedState(codec).attempts && PreparedState(codec).attempts[RUN] == []
  {
    StoreParts(codec);
    FirstAssigned();
    hide HealthyRow, HealthyStore, AssignedTo;
  }

  lemma FirstAssigned()
    ensures AssignedTo(HealthySpec().assignments, RUN) == Some(HealthyRow(RUN, Native))
    ensures RUN in RunIds(HealthySpec().assignments)
  {
    hide HealthyIncident, VerifierName, Checksum;
    var rows := HealthySpec().assignments;
    assert RUN[4] == '1' && "run-2"[4] == '2' && "run-3"[4] == '3';
    assert rows[0] in rows;
    assert rows[..2][..1] == [rows[0]] && rows[..2] == [rows[0], rows[1]];
    assert AssignedTo([rows[0]], RUN) == Some(rows[0]);
    assert AssignedTo(rows[..2], RUN) == Some(rows[0]);
  }

  // The finish

  /** The operations of one attempt with `n` reviews: its start and its captures. */
  function UpToFinish(codec: Codec, n: nat): seq<Operation>
    requires n > 0
  {
    [Start(RUN)] + CaptureAll(FirstBinding(codec), Reviewed(n))
  }

  ghost function JournalWith(codec: Codec, n: nat): seq<Row>
    requires n > 0
  {
    Run(HealthyStore(codec), PreparedJournal(codec), UpToFinish(codec, n))
  }

  lemma ReviewedOpen(codec: Codec, n: nat)
    requires codec.Faithful() && n > 0
    ensures OpenWith(HealthyStore(codec), JournalWith(codec, n), FirstBinding(codec), Reviewed(n))
  {
    hide Codec.Faithful, OpenWith, Commit, HealthyStore, PreparedJournal, FirstBinding, Reviewed, NumberedFrom1, INPUTS;
    var store, b, ops := HealthyStore(codec), FirstBinding(codec), UpToFinish(codec, n);
    StoreParts(codec);
    StartOpens(codec);
    ReviewedSound(n);
    assert forall c | c in Reviewed(n) :: Proper(c);
    assert ops[0] == Start(RUN) && ops[1..] == CaptureAll(b, Reviewed(n));
    assert [] + Reviewed(n) == Reviewed(n);
    CapturesRun(store, Commit(store, PreparedJournal(codec), Start(RUN)), b, [], Reviewed(n));
  }

  lemma StoreRegistered(codec: Codec)
    ensures Registered(ReferenceFor(FirstBinding(codec)), FirstBinding(codec).assignment, HealthyStore(codec).registry)
    ensures HealthyAssignment(FirstBinding(codec).assignment)
  {
    hide ReferenceFor, VerifierName, Checksum, HealthyIncident, Preparation;
  }

  /** The journal accepts the attempt's evidence, in the order it was captured. */
  lemma ReviewedVerified(b: Binding, n: nat, registry: Registry)
    requires n > 0 && HealthyAssignment(b.assignment) && Registered(ReferenceFor(b), b.assignment, registry)
    ensures Verify(b, Reviewed(n), registry, Pilot).Ok?
  {
    hide Verify, Registered, Contents, NamesWith, Reviewed, ReferenceFor, HealthyAssignment, EarnedOn, Numberings,
         HasAnswer, INPUTS, NumberedFrom1, DistinctCaptures;
    SuccessReplays(b, n);
    ReviewedSound(n);
    assert forall c | c in Reviewed(n) :: Proper(c);
    ProperWellFormed(Reviewed(n));
    hide WellFormed, Sound;
    NeverStopped(b, Reviewed(n));
    JournalledVerdict(ReferenceFor(b), b, Reviewed(n), registry, Pilot);
  }

  lemma ProperWellFormed(captures: seq<Capture>)
    requires forall c | c in captures :: Proper(c)
    ensures captures != [] ==> WellFormed(captures)
  {
    hide IsIdentifier, INPUTS;
  }

  /** An accepted answer leaves no stop reason in use. */
  lemma NeverStopped(b: Binding, captures: seq<Capture>)
    requires ReplayCaptures(ReferenceFor(b), b, captures).Some?
    requires HasAnswer(ReferenceFor(b), b, Contents(captures))
    ensures Reports(ReferenceFor(b), b, captures)
  {
    hide Replay, Contents, NamesWith, ReferenceFor, Score, Grading, Measured, Gather, Recorded, Audited, ValidUsage,
         Configuration.Valid;
    ReplayScores(ReferenceFor(b), b, Contents(captures), NamesWith(captures, REVIEW_PREFIX));
  }

  /** The campaign's phase is the prepared one. */
  lemma SpecKept(codec: Codec, n: nat)
    requires codec.Faithful() && n > 0 && Read(HealthyStore(codec), JournalWith(codec, n)).Ok?
    ensures Read(HealthyStore(codec), JournalWith(codec, n)).value.spec.campaign.phase == Pilot
  {
    hide Codec.Faithful, Read, HealthyStore, Run, FinishesAgree, UpToFinish, HistoryGrows, Preparation;
    var store, rows := HealthyStore(codec), JournalWith(codec, n);
    StoreParts(codec);
    PreparedReads(codec);
    RunReadableExactly(store, PreparedJournal(codec), PreparedState(codec), UpToFinish(codec, n));
    assert rows[..1] == PreparedJournal(codec);
    PrefixReadable(store, rows, 1);
  }

  /** An open attempt whose captures verify may be finished. */
  lemma VerifiedFinishes(store: Store, rows: seq<Row>, b: Binding, captures: seq<Capture>)
    requires OpenWith(store, rows, b, captures) && captures != []
    requires Verify(b, captures, store.registry, Read(store, rows).value.spec.campaign.phase).Ok?
    ensures Proposed(store, Read(store, rows).value, FinishAttempt(b)).Ok?
  {
    hide Read, Verify, DecodeEach;
  }

  lemma CommitAppends(store: Store, rows: seq<Row>, op: Operation)
    requires Read(store, rows).Ok? && Proposed(store, Read(store, rows).value, op).Ok?
    ensures |Commit(store, rows, op)| == |rows| + 1
  {
    hide Read, Proposed;
  }

  /** On a journal reached by one start and captures alone, with every review in
      its place, the finish commits; and the journal it leaves is readable exactly
      up to 9999 reviews. */
  lemma FinishReadable(codec: Codec, n: nat)
    requires codec.Faithful() && n > 0
    ensures var store, rows, finish := HealthyStore(codec), JournalWith(codec, n), FinishAttempt(FirstBinding(codec));
      && Read(store, rows).Ok?
      && Proposed(store, Read(store, rows).value, finish).Ok?
      && |Commit(store, rows, finish)| == |rows| + 1
      && (Read(store, Commit(store, rows, finish)).Ok? <==> n <= 9999)
  {
    hide Codec.Faithful, Read, JournalWith, Registered, HealthyAssignment, Reviewed, ReferenceFor, FirstBinding,
         HealthyStore, Contents, NamesWith, HasAnswer, Numberings, EarnedOn, DecodeEach, Verify, ReplayCaptures,
         IsOpen, Commit, Proposed, Sound;
    var store, rows, b := HealthyStore(codec), JournalWith(codec, n), FirstBinding(codec);
    ReviewedOpen(codec, n);
    StoreParts(codec);
    StoreRegistered(codec);
    SuccessReplays(b, n);
    ReviewedVerified(b, n, store.registry);
    SpecKept(codec, n);
    ReviewedSound(n);
    VerifiedFinishes(store, rows, b, Reviewed(n));
    CommitAppends(store, rows, FinishAttempt(b));
    FinishKeepsReadable(store, rows, Read(store, rows).value, ReferenceFor(b), b);
  }

  ghost function FinishedJournal(codec: Codec, n: nat): seq<Row>
    requires n > 0
  {
    Commit(HealthyStore(codec), JournalWith(codec, n), FinishAttempt(FirstBinding(codec)))
  }

  /** The finish commits on a readable journal and leaves an unreadable one. */
  ghost predicate FinishBreaks(codec: Codec, n: nat)
    requires n > 0
  {
    && Read(HealthyStore(codec), JournalWith(codec, n)).Ok?
    && |FinishedJournal(codec, n)| == |JournalWith(codec, n)| + 1
    && Read(HealthyStore(codec), FinishedJournal(codec, n)).Err?
  }

  /** The failing input: 9999 reviews that ask for more review, then one decision. */
  lemma LateFinishUnreadable(codec: Codec)
    requires codec.Faithful()
    ensures FinishBreaks(codec, 10000)
  {
    hide Codec.Faithful, Read, Commit, JournalWith, HealthyStore, FirstBinding, Proposed;
    FinishReadable(codec, 10000);
  }
}

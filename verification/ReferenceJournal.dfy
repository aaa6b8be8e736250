/** The reference verifier behind the journal: which of its results the journal
    accepts, and when finishing in capture order keeps the journal readable. */
module ReferenceJournal {
  import opened Results
  import opened Text
  import opened ComponentMaps
  import opened Submissions
  import opened Diagnosis
  import opened TrialOutcomes
  import opened OutcomeChecks
  import opened ScoringRefinement
  import opened Rosters
  import opened Verification
  import opened CpuEvidence
  import opened NumberedNames
  import opened Adjudication
  import opened ReferenceVerdicts
  import opened Journals
  import opened JournalRefinement
  import opened JournalRuns

  function ReferenceVerifier(ref: Reference, fingerprint: string): Verifier {
    Verifier(VerifierName(), (b, captures) => ReplayCaptures(ref, b, captures), fingerprint, true)
  }

  /** The registry holds the reference verifier, as the assignment froze it. */
  ghost predicate Registered(ref: Reference, row: Assignment, registry: Registry) {
    && row.verifierId in registry
    && registry[row.verifierId] == ReferenceVerifier(ref, row.verifierDigest)
    && row.verifierId == VerifierName()
  }

  // Acceptance

  predicate NoEmptySource(sources: Sources) {
    forall name | name in sources :: sources[name] != []
  }

  lemma InputsNamed(sources: Sources)
    requires SourcesNamed(sources)
    ensures LIFECYCLE in sources && MEASUREMENTS in sources && forall name | name in INPUTS :: name in sources
  {
  }

  lemma InputsReferenced(sources: Sources)
    requires SourcesNamed(sources) && NoEmptySource(sources)
    ensures References(INPUTS, sources) && References([LIFECYCLE], sources)
  {
  }

  lemma GradeReferenced(target: string, expectedFault: bool, s: Submission, name: string, review: Review,
                        sources: Sources)
    requires NoEmptySource(sources) && name in sources && MEASUREMENTS in sources
    ensures var grade := GradeOf(target, expectedFault, s, name, review);
      && References(grade.mechanismEvidence, sources) && ReviewsExamined(grade.reviews, sources)
      && grade.expected.faultPresent == expectedFault
  {
  }

  /** A replayed outcome passes the journal's check unless its stop reason in use is blank. */
  lemma OutcomeAccepted(ref: Reference, b: Binding, sources: Sources, names: seq<string>)
    requires ReachesScorer(ref, b, sources, names) && NoEmptySource(sources)
    ensures var x := ScorerInputs(ref, b, sources, names);
      && Score(x).Scored?
      && (Accepted(Score(x).outcome, b.assignment.expectedFault, sources) <==> !BlankStopReason(x))
  {
    var x := ScorerInputs(ref, b, sources, names);
    InputsFit(ref, b, sources, names);
    hide Score, Accepted, ReachesScorer, ScorerInputs, Inputs.Valid, FromCalls, BlankStopReason;
    ScorerRefinesCheck(x, Table(ref.config.componentAliases), Gather(ref, b, sources).value.adapter.calls,
                       b.assignment.expectedFault, sources);
  }

  lemma InputsFit(ref: Reference, b: Binding, sources: Sources, names: seq<string>)
    requires ReachesScorer(ref, b, sources, names) && NoEmptySource(sources)
    ensures Buildable(ref.config.componentAliases)
    ensures var x := ScorerInputs(ref, b, sources, names);
      && x.Valid() && Score(x).Scored?
      && FromCalls(x, Table(ref.config.componentAliases), Gather(ref, b, sources).value.adapter.calls)
      && (Admissible(x, b.assignment.expectedFault, sources) <==> !BlankStopReason(x))
  {
    hide Gather, Grading, Recorded, Measured, Audited, ValidUsage, Configuration.Valid, SourcesNamed,
         ReferenceAssignment, Established, BlankStopReason, Score, References, ReviewsExamined, SelfResolving,
         Buildable, Table, Grade.Valid, Scoring, Inputs.Valid, Admissible;
    var g := Gather(ref, b, sources).value;
    var o := Measured(g.measurements, ref.config.target, ref.config.baselineCpuMax).value;
    AliasesOf(ref.config);
    InputsReferenced(sources);
    var record := Recording(ref, g.adapter);
    var grade := Grading(ref, b, sources, names, record.submission, o).value;
    var established := Established(o, b.assignment.expectedFault);
    GradeFits(ref, b, sources, names, g.adapter, o);
    ScoringSucceeds(g.adapter, record, grade, established, g.lifecycle);
    ScoringFits(g.adapter, record, grade, established, g.lifecycle, b.assignment.expectedFault, sources);
  }

  lemma ScoringFits(adapter: Adapter, record: Record, grade: Option<Grade>, established: bool, audit: Audit,
                    expectedFault: bool, sources: Sources)
    requires References([LIFECYCLE], sources)
    requires grade.Some? ==>
      && grade.value.Valid() && grade.value.expected.faultPresent == expectedFault
      && References(grade.value.mechanismEvidence, sources) && ReviewsExamined(grade.value.reviews, sources)
    ensures var x := Scoring(adapter, record, grade, established, audit);
      && x.Valid() && x.record == record
      && (Admissible(x, expectedFault, sources) <==> !BlankStopReason(x))
  {
    hide BlankStopReason, References, ReviewsExamined, Grade.Valid, OnlyReads, ResourcesGone, NotEstablished, Blank;
    MeasurementsNotBlank();
  }

  lemma GradeFits(ref: Reference, b: Binding, sources: Sources, names: seq<string>, adapter: Adapter, o: Observations)
    requires SourcesNamed(sources) && ref.config.Valid() && NoEmptySource(sources)
    requires Grading(ref, b, sources, names, Recording(ref, adapter).submission, o).Ok?
    ensures var answer := Recording(ref, adapter).submission;
      var grade := Grading(ref, b, sources, names, answer, o).value;
      && (grade.Some? <==> answer.Some?)
      && (grade.Some? ==>
            && grade.value.Valid() && grade.value.submission == answer.value && grade.value.mechanismPassed.Some?
            && grade.value.expected.faultPresent == b.assignment.expectedFault
            && References(grade.value.mechanismEvidence, sources) && ReviewsExamined(grade.value.reviews, sources))
  {
    hide Configuration.Valid, SourcesNamed, Recorded, Decide, SingleDecision, Grade.Valid, References,
         ReviewsExamined, GradeOf, Blank, FirstValid, Hits, ReviewPasses, Cited, RequiredSignals, NoEmptySource,
         IsIdentifier, INPUTS;
    GradingFacts(ref, b, sources, names, adapter, o);
    var answer := Recording(ref, adapter).submission;
    if answer.Some? {
      var d := Decide(ref, PacketOf(ref, b, sources, answer.value, o), sources, names);
      AliasesOf(ref.config);
      InputsNamed(sources);
      GradeValid(ref.config.target, b.assignment.expectedFault, answer.value, d.name, d.review);
      GradeReferenced(ref.config.target, b.assignment.expectedFault, answer.value, d.name, d.review, sources);
    }
  }

  lemma {:induction false} ContentsNotEmpty(captures: seq<Capture>)
    requires forall c | c in captures :: c.data != []
    ensures NoEmptySource(Contents(captures))
  {
    if captures != [] {
      var n := |captures| - 1;
      assert captures == captures[..n] + [captures[n]];
      ContentsNotEmpty(captures[..n]);
    }
  }

  /** What the journal's verification of a reference attempt comes down to. */
  lemma VerifyReference(ref: Reference, b: Binding, captures: seq<Capture>, registry: Registry, phase: Phase)
    requires Registered(ref, b.assignment, registry)
    ensures var replayed := ReplayCaptures(ref, b, captures);
      && (Verify(b, captures, registry, phase).Ok? <==>
            && phase != ScoredPhase && WellFormed(captures) && replayed.Some?
            && References(replayed.value.examined, Contents(captures)) && ValidMetrics(replayed.value.metrics)
            && Accepted(replayed.value.outcome, b.assignment.expectedFault, Contents(captures)))
      && (Verify(b, captures, registry, phase).Ok? ==>
            Verify(b, captures, registry, phase).value.outcome == replayed.value.outcome)
  {
    hide ReplayCaptures, Contents, WellFormed, Accepted, References, ValidMetrics, VerifierName;
  }

  lemma ReplayedOutcome(ref: Reference, b: Binding, sources: Sources, names: seq<string>)
    requires NoEmptySource(sources)
    ensures Replay(ref, b, sources, names).Ok? <==> ReachesScorer(ref, b, sources, names)
    ensures Replay(ref, b, sources, names).Ok? ==>
      var attempt := Replay(ref, b, sources, names).value;
      && References(attempt.examined, sources) && ValidMetrics(attempt.metrics)
      && (Accepted(attempt.outcome, b.assignment.expectedFault, sources) <==>
            !BlankStopReason(ScorerInputs(ref, b, sources, names)))
  {
    ReplayScores(ref, b, sources, names);
    if ReachesScorer(ref, b, sources, names) {
      OutcomeAccepted(ref, b, sources, names);
      ReachesNamed(ref, b, sources, names);
      InputsReferenced(sources);
    }
    hide Replay, ReachesScorer, ScorerInputs, Score, Accepted, BlankStopReason, References, ValidMetrics, SourcesNamed,
         NoEmptySource, INPUTS;
  }

  /** The replay reaches a verdict and does not report a blank stop reason. */
  predicate Reports(ref: Reference, b: Binding, captures: seq<Capture>) {
    var sources, names := Contents(captures), NamesWith(captures, REVIEW_PREFIX);
    ReachesScorer(ref, b, sources, names) && !BlankStopReason(ScorerInputs(ref, b, sources, names))
  }

  /** The captures hold everything a success takes. */
  ghost predicate EarnedOn(ref: Reference, b: Binding, captures: seq<Capture>) {
    exists k, s, review :: Earned(ref, b, Contents(captures), NamesWith(captures, REVIEW_PREFIX), k, s, review)
  }

  lemma EarnedCaptures(ref: Reference, b: Binding, captures: seq<Capture>)
    ensures EarnedOn(ref, b, captures) <==>
      && ReplayCaptures(ref, b, captures).Some?
      && ReplayCaptures(ref, b, captures).value.outcome.terminal == ValidatedSuccess
  {
    hide Replay, Earned, Contents, NamesWith;
    SuccessExactlyEarned(ref, b, Contents(captures), NamesWith(captures, REVIEW_PREFIX));
  }

  lemma ReportedCaptures(ref: Reference, b: Binding, captures: seq<Capture>)
    requires WellFormed(captures)
    ensures Reports(ref, b, captures) <==>
      && ReplayCaptures(ref, b, captures).Some?
      && References(ReplayCaptures(ref, b, captures).value.examined, Contents(captures))
      && ValidMetrics(ReplayCaptures(ref, b, captures).value.metrics)
      && Accepted(ReplayCaptures(ref, b, captures).value.outcome, b.assignment.expectedFault, Contents(captures))
  {
    hide Replay, ReachesScorer, ScorerInputs, Accepted, BlankStopReason, References, ValidMetrics, Contents,
         NamesWith, NoEmptySource;
    ContentsNotEmpty(captures);
    ReplayedOutcome(ref, b, Contents(captures), NamesWith(captures, REVIEW_PREFIX));
  }

  /** The journal accepts a reference attempt exactly outside scored campaigns, when
      the replay reaches a verdict and reports no blank stop reason; and a journalled
      success is exactly an earned one. */
  lemma JournalledVerdict(ref: Reference, b: Binding, captures: seq<Capture>, registry: Registry, phase: Phase)
    requires Registered(ref, b.assignment, registry) && WellFormed(captures)
    ensures Verify(b, captures, registry, phase).Ok? <==> phase != ScoredPhase && Reports(ref, b, captures)
    ensures Verify(b, captures, registry, phase).Ok? ==>
      (Verify(b, captures, registry, phase).value.outcome.terminal == ValidatedSuccess <==> EarnedOn(ref, b, captures))
  {
    hide Registered, Contents, Accepted, References, ValidMetrics, WellFormed, Verify, ReplayCaptures, Reports,
         EarnedOn;
    VerifyReference(ref, b, captures, registry, phase);
    ReportedCaptures(ref, b, captures);
    EarnedCaptures(ref, b, captures);
  }

  lemma ReachesNamed(ref: Reference, b: Binding, sources: Sources, names: seq<string>)
    requires ReachesScorer(ref, b, sources, names)
    ensures SourcesNamed(sources)
  {
    hide Gather, SourcesNamed, Grading, Measured, Audited, ValidUsage, Configuration.Valid;
  }

  // Capture order and key order

  predicate NamesIncrease(captures: seq<Capture>) {
    forall i, j | 0 <= i < j < |captures| :: Before(captures[i].name, captures[j].name)
  }

  lemma {:induction false} NamesInOrder(captures: seq<Capture>, prefix: string)
    requires NamesIncrease(captures)
    ensures Increasing(NamesWith(captures, prefix))
  {
    if captures != [] {
      var n := |captures| - 1;
      NamesInOrder(captures[..n], prefix);
      NamesMembers(captures[..n], prefix);
      var earlier := NamesWith(captures[..n], prefix);
      forall i | 0 <= i < |earlier|
        ensures Before(earlier[i], captures[n].name)
      {
        assert earlier[i] in earlier;
        var c :| c in captures[..n] && c.name == earlier[i];
      }
    }
  }

  /** A numbered sequence sorts into itself up to 9999 names; a longer one never
      sorts into any numbered sequence. */
  lemma SortedNumberings(names: seq<string>, sorted: seq<string>)
    requires names == Numberings(REVIEW_PREFIX, |names|) && Increasing(sorted)
    requires forall x :: x in names <==> x in sorted
    ensures |names| <= 9999 ==> sorted == names
    ensures |names| > 9999 ==> sorted != Numberings(REVIEW_PREFIX, |sorted|)
  {
    hide Numbered;
    NumberingsIncreasing(REVIEW_PREFIX, |names|);
    if |names| <= 9999 {
      IncreasingUnique(names, sorted);
    } else {
      NumberingsIncreasing(REVIEW_PREFIX, |sorted|);
      if sorted == Numberings(REVIEW_PREFIX, |sorted|) {
        assert names[9999] == Numbered(REVIEW_PREFIX, 10000) && names[9999] in names;
        var j :| 0 <= j < |sorted| && sorted[j] == names[9999];
        NumberedInjective(REVIEW_PREFIX, j + 1, 10000);
      }
    }
  }

  predicate HasAnswer(ref: Reference, b: Binding, sources: Sources) {
    Gather(ref, b, sources).Ok? && Recording(ref, Gather(ref, b, sources).value.adapter).submission.Some?
  }

  /** A replay that worked in one order works in sorted order, with the same
      result, exactly when no answer was accepted or there are at most 9999 reviews. */
  lemma ReplayInKeyOrder(ref: Reference, b: Binding, sources: Sources, names: seq<string>, sorted: seq<string>)
    requires Replay(ref, b, sources, names).Ok? && Increasing(sorted)
    requires forall x :: x in names <==> x in sorted
    ensures Replay(ref, b, sources, sorted) == Replay(ref, b, sources, names)
       <==> (!HasAnswer(ref, b, sources) || |names| <= 9999)
  {
    hide Configuration.Valid, SourcesNamed, ReferenceAssignment, Score, Scoring, Measured, Audited, ValidUsage, Gather,
         Recorded, Established, MetricsOf, PacketOf, Scan, GradeOf, Numberings, Increasing;
    if HasAnswer(ref, b, sources) {
      var g := Gather(ref, b, sources).value;
      var o := Measured(g.measurements, ref.config.target, ref.config.baselineCpuMax).value;
      var grading := Grading(ref, b, sources, names, Recording(ref, g.adapter).submission, o);
      assert grading.Ok?;
      SortedNumberings(names, sorted);
    }
  }

  /** The same for captures: `sorted` is a permutation of them in name order. */
  lemma CapturesInKeyOrder(ref: Reference, b: Binding, captures: seq<Capture>, sorted: seq<Capture>)
    requires DistinctCaptures(captures) && DistinctCaptures(sorted) && multiset(captures) == multiset(sorted)
    requires NamesIncrease(sorted) && ReplayCaptures(ref, b, captures).Some?
    ensures Contents(sorted) == Contents(captures)
    ensures ReplayCaptures(ref, b, sorted) == ReplayCaptures(ref, b, captures)
       <==> (!HasAnswer(ref, b, Contents(captures)) || |NamesWith(captures, REVIEW_PREFIX)| <= 9999)
  {
    hide Replay, HasAnswer, Contents, NamesWith, DistinctCaptures, Increasing, NamesIncrease;
    ContentsPermuted(captures, sorted);
    NamesMembers(captures, REVIEW_PREFIX);
    NamesMembers(sorted, REVIEW_PREFIX);
    NamesInOrder(sorted, REVIEW_PREFIX);
    assert forall c :: c in captures <==> c in multiset(captures);
    assert forall c :: c in sorted <==> c in multiset(sorted);
    var names, ordered := NamesWith(captures, REVIEW_PREFIX), NamesWith(sorted, REVIEW_PREFIX);
    assert forall x :: x in names <==> x in ordered;
    ReplayInKeyOrder(ref, b, Contents(captures), names, ordered);
  }

  /** The journalled record carries the whole replayed attempt. */
  lemma RecordCarries(ref: Reference, b: Binding, captures: seq<Capture>, registry: Registry, phase: Phase)
    requires Registered(ref, b.assignment, registry) && Verify(b, captures, registry, phase).Ok?
    ensures var v := Verify(b, captures, registry, phase).value;
      ReplayCaptures(ref, b, captures) == Some(VerifiedAttempt(v.outcome, v.metrics, v.examined))
  {
    hide ReplayCaptures, Contents, WellFormed, Accepted, References, ValidMetrics, VerifierName;
  }

  lemma VerifySame(ref: Reference, b: Binding, captures: seq<Capture>, sorted: seq<Capture>, registry: Registry,
                   phase: Phase)
    requires Registered(ref, b.assignment, registry)
    requires WellFormed(captures) == WellFormed(sorted) && Contents(captures) == Contents(sorted)
    requires ReplayCaptures(ref, b, sorted) == ReplayCaptures(ref, b, captures)
    ensures Verify(b, sorted, registry, phase) == Verify(b, captures, registry, phase)
  {
    hide ReplayCaptures, Contents, WellFormed, Accepted, References, ValidMetrics, VerifierName;
  }

  /** The verification follows the replay from one order to the other. */
  lemma VerifyInKeyOrder(ref: Reference, b: Binding, captures: seq<Capture>, sorted: seq<Capture>, registry: Registry,
                         phase: Phase)
    requires Registered(ref, b.assignment, registry) && Verify(b, captures, registry, phase).Ok?
    requires multiset(captures) == multiset(sorted) && Contents(captures) == Contents(sorted)
    ensures Verify(b, sorted, registry, phase) == Verify(b, captures, registry, phase)
       <==> ReplayCaptures(ref, b, sorted) == ReplayCaptures(ref, b, captures)
    ensures ReplayCaptures(ref, b, captures).Some?
  {
    WellFormedPermuted(captures, sorted);
    hide Verify, ReplayCaptures, Contents, WellFormed, Registered;
    RecordCarries(ref, b, captures, registry, phase);
    if Verify(b, sorted, registry, phase).Ok? {
      RecordCarries(ref, b, sorted, registry, phase);
    }
    if ReplayCaptures(ref, b, sorted) == ReplayCaptures(ref, b, captures) {
      VerifySame(ref, b, captures, sorted, registry, phase);
    }
  }

  lemma KeyOrderIncreases(codec: Codec, m: map<string, Source>)
    requires GoodSources(codec, InKeyOrder(m))
    ensures DecodeEach(codec, InKeyOrder(m)).Ok? && NamesIncrease(DecodeEach(codec, InKeyOrder(m)).value)
  {
    hide GoodSources, DecodeEach;
    DecodedNames(codec, InKeyOrder(m));
    assert Increasing(SortedNames(m.Keys));
  }

  /** Finishing with the reference verifier in capture order leaves the journal
      readable exactly when no answer was accepted or at most 9999 reviews were
      captured; a later read replays the sources in key order. */
  lemma ReferenceOrders(store: Store, phase: Phase, ref: Reference, b: Binding, sources: seq<Stored>)
    requires GoodSources(store.codec, sources) && Registered(ref, b.assignment, store.registry)
    requires Replayed(store, phase, b, sources).Ok?
    ensures DecodeEach(store.codec, sources).Ok?
    ensures var captures := DecodeEach(store.codec, sources).value;
      Replayed(store, phase, b, InKeyOrder(AsMap(sources))) == Replayed(store, phase, b, sources) <==>
        (!HasAnswer(ref, b, Contents(captures)) || |NamesWith(captures, REVIEW_PREFIX)| <= 9999)
  {
    hide Registered, Verify, DecodeEach, GoodSources, DistinctCaptures, InKeyOrder, AsMap, Increasing, NamesIncrease,
         ReplayCaptures, HasAnswer, Contents, NamesWith;
    var ordered := InKeyOrder(AsMap(sources));
    DistinctNames(store.codec, sources);
    KeyOrderMembers(sources);
    KeyOrderDistinct(AsMap(sources));
    OrderedGood(store.codec, ordered, sources);
    DecodedMembers(store.codec, ordered, sources);
    KeyOrderIncreases(store.codec, AsMap(sources));
    SameEmptiness(ordered, sources);
    var captures, sorted := DecodeEach(store.codec, sources).value, DecodeEach(store.codec, ordered).value;
    ContentsPermuted(captures, sorted);
    VerifyInKeyOrder(ref, b, captures, sorted, store.registry, phase);
    CapturesInKeyOrder(ref, b, captures, sorted);
  }

  /** On the journal: a committed finish of a reference attempt keeps the journal
      readable exactly when no answer was accepted or at most 9999 reviews were captured. */
  lemma FinishKeepsReadable(store: Store, rows: seq<Row>, st: State, ref: Reference, b: Binding)
    requires store.codec.Faithful() && Read(store, rows) == Ok(st) && Proposed(store, st, FinishAttempt(b)).Ok?
    requires Registered(ref, b.assignment, store.registry)
    ensures b.assignment.runId in st.attempts && st.attempts[b.assignment.runId] != []
    ensures DecodeEach(store.codec, Last(st, b.assignment.runId).sources).Ok?
    ensures var captures := DecodeEach(store.codec, Last(st, b.assignment.runId).sources).value;
      Read(store, Commit(store, rows, FinishAttempt(b))).Ok? <==>
        (!HasAnswer(ref, b, Contents(captures)) || |NamesWith(captures, REVIEW_PREFIX)| <= 9999)
  {
    hide Codec.Faithful, Read, Stepped, Invariant, Payload, Replayed, Registered, HasAnswer, Contents, NamesWith,
         DecodeEach, GoodSources, Commit, AsMap, InKeyOrder;
    ReadableInvariant(store, rows);
    LastSourcesGood(store, st, b.assignment.runId);
    ReferenceOrders(store, st.spec.campaign.phase, ref, b, Last(st, b.assignment.runId).sources);
    WriteThenRead(store, rows, st, FinishAttempt(b));
  }
}

/** When the reference verifier reports a success, end to end, and when its result
    may enter the journal. */
module ReferenceVerdicts {
  import opened Results
  import opened Text
  import opened ComponentMaps
  import opened Submissions
  import opened Diagnosis
  import opened SandboxGates
  import opened TrialOutcomes
  import opened OutcomeChecks
  import opened Verification
  import opened CpuEvidence
  import opened NumberedNames
  import opened Adjudication

  // Success, end to end

  /** The measurements establish the assigned state: a smaller share of the
      processor with growing throttling, or the same share with none. */
  predicate ShowsState(m: Measurements, config: Configuration, expectedFault: bool) {
    && Measured(m, config.target, config.baselineCpuMax).Ok?
    && var o := Measured(m, config.target, config.baselineCpuMax).value;
       && o.active.period > 0 && o.baseline.period > 0
       && (if expectedFault then Cores(o.active) < Cores(o.baseline) && Increased(o.before, o.after)
           else Cores(o.active) == Cores(o.baseline) && Unchanged(o.before, o.after))
  }

  predicate Completed(a: Adapter) {
    && IsAgentClass(a.completion) && a.completion != IsolationViolation
    && (a.error.None? || a.error.value == "")
  }

  /** The answer names the target and the cause, or claims health. */
  predicate Hits(s: Submission, target: string, expectedFault: bool) {
    if expectedFault then s.faultPresent && s.causalCategory == Some(CpuSaturation()) && s.component == Some(target)
    else !s.faultPresent
  }

  predicate ReviewPasses(r: Review) {
    && r.mechanismPassed == Some(true)
    && forall c | c in r.citations :: c.relevant == Some(true) && c.supported == Some(true)
  }

  predicate LeftClean(a: Audit) {
    a.workspaceBefore == a.workspaceAfter && OnlyReads(a) && ResourcesGone(a)
  }

  /** The reviews are numbered from one without a gap; every earlier one asked for
      more review, and the last is this decision. */
  ghost predicate SingleDecision(ref: Reference, packet: Packet, sources: Sources, names: seq<string>, review: Review) {
    && names != [] && names == Numberings(REVIEW_PREFIX, |names|)
    && AllAwait(ref, packet, sources, names[..|names| - 1])
    && ReviewIs(ref, packet, sources, names[|names| - 1], Decided)
    && ref.docs.review(sources[names[|names| - 1]]) == Ok(review)
  }

  /** Everything a success takes: payload `k` is the first valid answer `s`, and
      `review` is the one decision about it. */
  ghost predicate Earned(ref: Reference, b: Binding, sources: Sources, names: seq<string>, k: nat, s: Submission,
                         review: Review) {
    && Gather(ref, b, sources).Ok?
    && var g := Gather(ref, b, sources).value;
       && ShowsState(g.measurements, ref.config, b.assignment.expectedFault)
       && Completed(g.adapter)
       && FirstValid(Table(ref.config.componentAliases), g.adapter.calls, k, s)
       && Hits(s, ref.config.target, b.assignment.expectedFault)
       && Cited(s) == RequiredSignals(ref.config.target)
       && SingleDecision(ref,
         PacketOf(ref, b, sources, s, Measured(g.measurements, ref.config.target, ref.config.baselineCpuMax).value),
                         sources, names, review)
       && ReviewPasses(review)
       && Audited(g.lifecycle) && LeftClean(g.lifecycle)
       && ValidUsage(g.usage)
  }

  predicate Success(r: Result<VerifiedAttempt>) {
    r.Ok? && r.value.outcome.terminal == ValidatedSuccess
  }

  lemma ScoringSucceeds(adapter: Adapter, record: Record, grade: Option<Grade>, established: bool, audit: Audit)
    requires adapter.completion != RemediationFailure
    requires grade.Some? <==> record.submission.Some?
    requires grade.Some? ==> grade.value.submission == record.submission.value && grade.value.mechanismPassed.Some?
    ensures var r := Score(Scoring(adapter, record, grade, established, audit));
      && r.Scored?
      && (r.outcome.terminal == ValidatedSuccess <==>
            && established && Completed(adapter) && grade.Some?
            && grade.value.DiagnosisPassed() && grade.value.EvidencePassed() && LeftClean(audit))
  {
    hide OnlyReads, ResourcesGone, Grade.DiagnosisPassed, Grade.EvidencePassed, NotEstablished, HarnessReasons,
         AgentReasons;
    var x := Scoring(adapter, record, grade, established, audit);
    assert NotEstablished() != "";
    assert !x.AwaitsReview();
  }

  /** One citation's review, as the grade holds it. */
  lemma CitationPasses(target: string, expectedFault: bool, s: Submission, name: string, review: Review, i: nat)
    requires i < |s.evidence| && |review.citations| == |s.evidence|
    ensures GradeOf(target, expectedFault, s, name, review).reviews[i].Passed() <==>
      && s.evidence[i].signal in RequiredSignals(target) && RequiredSignals(target) <= Cited(s)
      && review.citations[i].relevant == Some(true) && review.citations[i].supported == Some(true)
  {
    hide RequiredSignals, Cited, ExpectedFor;
  }

  lemma EvidencePasses(target: string, expectedFault: bool, s: Submission, name: string, review: Review)
    requires s.evidence != [] && |review.citations| == |s.evidence|
    ensures GradeOf(target, expectedFault, s, name, review).EvidencePassed() <==>
      && Cited(s) == RequiredSignals(target)
      && forall c | c in review.citations :: c.relevant == Some(true) && c.supported == Some(true)
  {
    hide RequiredSignals, Cited, Inspected, EvidenceReview.Passed, ExpectedFor;
    var reviews := GradeOf(target, expectedFault, s, name, review).reviews;
    forall i: nat | i < |s.evidence|
      ensures reviews[i].Passed() <==>
        && s.evidence[i].signal in RequiredSignals(target) && RequiredSignals(target) <= Cited(s)
        && review.citations[i].relevant == Some(true) && review.citations[i].supported == Some(true)
    {
      CitationPasses(target, expectedFault, s, name, review, i);
    }
    CitedAll(s, RequiredSignals(target));
    AllPass(reviews, s, RequiredSignals(target), review.citations);
  }

  lemma AllPass(reviews: seq<EvidenceReview>, s: Submission, required: set<string>, citations: seq<CitationReview>)
    requires s.evidence != [] && |reviews| == |citations| == |s.evidence|
    requires forall i: nat | i < |s.evidence| ::
      reviews[i].Passed() <==>
        && s.evidence[i].signal in required && required <= Cited(s)
        && citations[i].relevant == Some(true) && citations[i].supported == Some(true)
    requires Cited(s) <= required <==> forall i | 0 <= i < |s.evidence| :: s.evidence[i].signal in required
    ensures (forall r | r in reviews :: r.Passed()) <==>
      && Cited(s) == required
      && forall c | c in citations :: c.relevant == Some(true) && c.supported == Some(true)
  {
    hide Cited, EvidenceReview.Passed;
    if forall r | r in reviews :: r.Passed() {
      assert forall i | 0 <= i < |reviews| :: reviews[i] in reviews;
      assert reviews[0].Passed();
    }
    if forall c | c in citations :: c.relevant == Some(true) && c.supported == Some(true) {
      assert forall i | 0 <= i < |citations| :: citations[i] in citations;
    }
  }

  lemma CitedAll(s: Submission, required: set<string>)
    ensures Cited(s) <= required <==> forall i | 0 <= i < |s.evidence| :: s.evidence[i].signal in required
  {
    assert forall i | 0 <= i < |s.evidence| :: s.evidence[i] in s.evidence && s.evidence[i].signal in Cited(s);
  }

  lemma GradePasses(target: string, expectedFault: bool, s: Submission, name: string, review: Review)
    requires s.evidence != [] && |review.citations| == |s.evidence|
    ensures var grade := GradeOf(target, expectedFault, s, name, review);
      grade.DiagnosisPassed() && grade.EvidencePassed() <==>
        Hits(s, target, expectedFault) && Cited(s) == RequiredSignals(target) && ReviewPasses(review)
  {
    EvidencePasses(target, expectedFault, s, name, review);
    hide RequiredSignals, Cited, CpuSaturation, Grade.EvidencePassed, Inspected;
  }

  /** The recorded answer is the first valid call's. */
  lemma RecordedFirst(aliases: Aliases, calls: seq<JsonValues.Json>, k: nat, s: Submission)
    requires FirstValid(aliases, calls, k, s)
    ensures Recorded(aliases, calls).submission == Some(s)
  {
    hide Validated;
    FirstValidWins(aliases, calls);
    var r := Recorded(aliases, calls).submission;
    if r.Some? {
      var j: nat :| FirstValid(aliases, calls, j, r.value);
      assert j == k;
    }
  }

  lemma RecordedEvidence(aliases: Aliases, calls: seq<JsonValues.Json>)
    requires SelfResolving(aliases) && Recorded(aliases, calls).submission.Some?
    ensures Recorded(aliases, calls).submission.value.evidence != []
    ensures exists k :: FirstValid(aliases, calls, k, Recorded(aliases, calls).submission.value)
  {
    hide Validated, SelfResolving;
    FirstValidWins(aliases, calls);
    var s := Recorded(aliases, calls).submission.value;
    var k: nat :| FirstValid(aliases, calls, k, s);
    AcceptedIsCanonical(calls[k], aliases);
  }

  lemma DecisionIs(ref: Reference, packet: Packet, sources: Sources, names: seq<string>)
    ensures var d := Decide(ref, packet, sources, names);
      && (d.DecidedBy? ==> SingleDecision(ref, packet, sources, names, d.review) && Fits(ref, packet, d.review)
                           && d.review.status == Decided && d.name in sources && d.name in names && !Blank(d.name))
      && (forall review :: SingleDecision(ref, packet, sources, names, review) ==> d.DecidedBy? && d.review == review)
  {
    hide Fits, Scan, Numberings, AllAwait, Blank;
    ScanMeaning(ref, packet, sources, names);
    if Decide(ref, packet, sources, names).DecidedBy? {
      DecidedNotBlank(ref, packet, sources, names);
    }
  }

  /** Everything is readable, decided and audited: the replay reaches the scorer. */
  predicate ReachesScorer(ref: Reference, b: Binding, sources: Sources, names: seq<string>) {
    && Gather(ref, b, sources).Ok?
    && var g := Gather(ref, b, sources).value;
       && g.adapter.completion != RemediationFailure
       && Measured(g.measurements, ref.config.target, ref.config.baselineCpuMax).Ok?
       && Grading(ref, b, sources, names, Recording(ref, g.adapter).submission,
                  Measured(g.measurements, ref.config.target, ref.config.baselineCpuMax).value).Ok?
       && Audited(g.lifecycle) && ValidUsage(g.usage)
  }

  /** What the scorer is then given. */
  function ScorerInputs(ref: Reference, b: Binding, sources: Sources, names: seq<string>): Inputs
    requires ReachesScorer(ref, b, sources, names)
  {
    var g := Gather(ref, b, sources).value;
    var record := Recording(ref, g.adapter);
    var o := Measured(g.measurements, ref.config.target, ref.config.baselineCpuMax).value;
    Scoring(g.adapter, record, Grading(ref, b, sources, names, record.submission, o).value,
            Established(o, b.assignment.expectedFault), g.lifecycle)
  }

  lemma ReplayScores(ref: Reference, b: Binding, sources: Sources, names: seq<string>)
    ensures Replay(ref, b, sources, names).Ok? <==>
      ReachesScorer(ref, b, sources, names) && Score(ScorerInputs(ref, b, sources, names)).Scored?
    ensures Replay(ref, b, sources, names).Ok? ==>
      && Replay(ref, b, sources, names).value.outcome == Score(ScorerInputs(ref, b, sources, names)).outcome
      && Replay(ref, b, sources, names).value.examined == INPUTS
      && ValidMetrics(Replay(ref, b, sources, names).value.metrics)
  {
    hide Configuration.Valid, SourcesNamed, ReferenceAssignment, Score, Scoring, Measured, Grading, Audited, ValidUsage,
         Gather, Established, MetricsOf, ValidMetrics, Recorded;
  }

  /** A replay that succeeds was earned. */
  lemma SuccessEarned(ref: Reference, b: Binding, sources: Sources, names: seq<string>)
    requires Success(Replay(ref, b, sources, names))
    ensures exists k, s, review :: Earned(ref, b, sources, names, k, s, review)
  {
    ReplayScores(ref, b, sources, names);
    hide Replay, Configuration.Valid, SourcesNamed, ReferenceAssignment, Score, Scoring, Decide, Measured, GradeOf,
         FirstValid, Audited, ValidUsage, SingleDecision, Fits, Hits, ReviewPasses, LeftClean, Completed,
         RequiredSignals, Cited, Recorded, PacketOf, ShowsState, Established, Grading, Gather;
    var g := Gather(ref, b, sources).value;
    var record := Recording(ref, g.adapter);
    var o := Measured(g.measurements, ref.config.target, ref.config.baselineCpuMax).value;
    var grade := Grading(ref, b, sources, names, record.submission, o).value;
    StateShown(g.measurements, ref.config, b.assignment.expectedFault);
    GradingFacts(ref, b, sources, names, g.adapter, o);
    ScoringSucceeds(g.adapter, record, grade, Established(o, b.assignment.expectedFault), g.lifecycle);
    AliasesOf(ref.config);
    var k: nat :| FirstValid(Table(ref.config.componentAliases), g.adapter.calls, k, record.submission.value);
    var review := Decide(ref, PacketOf(ref, b, sources, record.submission.value, o), sources, names).review;
    assert Earned(ref, b, sources, names, k, record.submission.value, review);
  }

  lemma StateShown(m: Measurements, config: Configuration, expectedFault: bool)
    requires Measured(m, config.target, config.baselineCpuMax).Ok?
    ensures Established(Measured(m, config.target, config.baselineCpuMax).value, expectedFault)
       <==> ShowsState(m, config, expectedFault)
  {
    hide Measured;
    ObservedMeaning(m, config.target, config.baselineCpuMax);
  }

  /** The grade in use: its review, its answer and when it passes. */
  lemma GradingFacts(ref: Reference, b: Binding, sources: Sources, names: seq<string>, adapter: Adapter,
                     o: Observations)
    requires SourcesNamed(sources) && ref.config.Valid()
    requires Grading(ref, b, sources, names, Recording(ref, adapter).submission, o).Ok?
    ensures var answer := Recording(ref, adapter).submission;
      var grade := Grading(ref, b, sources, names, answer, o).value;
      && (grade.Some? <==> answer.Some?)
      && (answer.Some? ==>
            var d := Decide(ref, PacketOf(ref, b, sources, answer.value, o), sources, names);
            && d.DecidedBy? && SingleDecision(ref, PacketOf(ref, b, sources, answer.value, o), sources, names, d.review)
            && d.name in sources && !Blank(d.name)
            && grade == Some(GradeOf(ref.config.target, b.assignment.expectedFault, answer.value, d.name, d.review))
            && grade.value.submission == answer.value && grade.value.mechanismPassed.Some?
            && answer.value.evidence != []
            && (exists k :: FirstValid(Table(ref.config.componentAliases), adapter.calls, k, answer.value))
            && (grade.value.DiagnosisPassed() && grade.value.EvidencePassed() <==>
                  && Hits(answer.value, ref.config.target, b.assignment.expectedFault)
                  && Cited(answer.value) == RequiredSignals(ref.config.target) && ReviewPasses(d.review)))
  {
    hide Configuration.Valid, SourcesNamed, Decide, SingleDecision, Hits, ReviewPasses, RequiredSignals, Cited,
         Recorded, FirstValid, Blank;
    var answer := Recording(ref, adapter).submission;
    if answer.Some? {
      AliasesOf(ref.config);
      RecordedEvidence(Table(ref.config.componentAliases), adapter.calls);
      var packet := PacketOf(ref, b, sources, answer.value, o);
      DecisionIs(ref, packet, sources, names);
      var d := Decide(ref, packet, sources, names);
      DecidedFits(ref, packet, d.review);
      GradePasses(ref.config.target, b.assignment.expectedFault, answer.value, d.name, d.review);
    }
  }

  lemma DecidedFits(ref: Reference, packet: Packet, review: Review)
    requires Fits(ref, packet, review) && review.status == Decided
    ensures review.mechanismPassed.Some? && |review.citations| == |packet.answer.evidence|
  {
  }

  lemma AliasesOf(config: Configuration)
    requires config.Valid()
    ensures Buildable(config.componentAliases) && SelfResolving(Table(config.componentAliases))
    ensures IsIdentifier(config.target)
  {
    hide Buildable, Table, ParseQuota, IsIdentifier;
    TableSelfResolving(config.componentAliases);
  }

  /** What was earned is a success. */
  lemma EarnedSucceeds(ref: Reference, b: Binding, sources: Sources, names: seq<string>, k: nat, s: Submission,
                       review: Review)
    requires Earned(ref, b, sources, names, k, s, review)
    ensures Success(Replay(ref, b, sources, names))
  {
    ReplayScores(ref, b, sources, names);
    hide Replay, Gather, Configuration.Valid, SourcesNamed, ReferenceAssignment, Score, Scoring, Decide, Measured,
         GradeOf, FirstValid, Audited, ValidUsage, SingleDecision, Fits, Hits, ReviewPasses, LeftClean,
         RequiredSignals, Cited, Recorded, PacketOf, Established;
    var g := Gather(ref, b, sources).value;
    AliasesOf(ref.config);
    var record := Recording(ref, g.adapter);
    RecordedFirst(Table(ref.config.componentAliases), g.adapter.calls, k, s);
    var o := Measured(g.measurements, ref.config.target, ref.config.baselineCpuMax).value;
    DecisionIs(ref, PacketOf(ref, b, sources, s, o), sources, names);
    StateShown(g.measurements, ref.config, b.assignment.expectedFault);
    GradingFacts(ref, b, sources, names, g.adapter, o);
    hide ShowsState, Grading;
    var grade := Grading(ref, b, sources, names, record.submission, o).value;
    ScoringSucceeds(g.adapter, record, grade, Established(o, b.assignment.expectedFault), g.lifecycle);
  }

  /** The reference verifier reports a success exactly when it was earned: the
      measured share of the processor and the throttling establish the assigned
      state, the session completed, the first valid answer hits the target and
      cites exactly its two required signals, the single decided review passes the
      mechanism and every citation, and the workspace, the actions and the
      resources are clean. */
  lemma SuccessExactlyEarned(ref: Reference, b: Binding, sources: Sources, names: seq<string>)
    ensures Success(Replay(ref, b, sources, names))
       <==> exists k, s, review :: Earned(ref, b, sources, names, k, s, review)
  {
    hide Success, Replay, Earned;
    if Success(Replay(ref, b, sources, names)) {
      SuccessEarned(ref, b, sources, names);
    }
    forall k, s, review | Earned(ref, b, sources, names, k, s, review)
      ensures Success(Replay(ref, b, sources, names))
    {
      EarnedSucceeds(ref, b, sources, names, k, s, review);
    }
  }
}

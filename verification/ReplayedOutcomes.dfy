/** What the reference verifier reports of an attempt, read off the attempt's own
    documents (adjudication.py, inputs to replay). */
module ReplayedOutcomes {
  import opened Results
  import opened Text
  import opened ComponentMaps
  import opened Submissions
  import opened Diagnosis
  import opened DiagnosisTargets
  import opened SandboxGates
  import opened TrialOutcomes
  import opened OutcomeChecks
  import opened Rosters
  import opened Verification
  import opened ScoringRefinement
  import opened OutcomeClasses
  import opened CpuEvidence
  import opened Adjudication
  import opened ReferenceVerdicts

  // The documents

  /** The source belongs to the reference: one of the four inputs or a review file. */
  predicate OfReference(name: string) {
    || name == "adapter" || name == "measurements" || name == "lifecycle" || name == "usage"
    || "human-review-" <= name || "review-input-" <= name
  }

  /** The four inputs are read from sources of this very attempt, whose assignment is
      one of the two incidents of this configuration. */
  ghost predicate ReadsInputs(ref: Reference, b: Binding, sources: Sources, g: Gathered) {
    && ref.config.Valid() && b.assignment.configurationId == ref.docs.identity(ref.config)
    && b.assignment.incident == (if b.assignment.expectedFault then "cpu-quota-fault/v1" else "cpu-quota-healthy/v1")
    && (forall name | name in sources :: OfReference(name))
    && "adapter" in sources && ref.docs.adapter(sources["adapter"]) == Ok(Envelope(b, g.adapter))
    && "measurements" in sources && ref.docs.measurements(sources["measurements"]) == Ok(Envelope(b, g.measurements))
    && "lifecycle" in sources && ref.docs.lifecycle(sources["lifecycle"]) == Ok(Envelope(b, g.lifecycle))
    && "usage" in sources && ref.docs.usage(sources["usage"]) == Ok(Envelope(b, g.usage))
  }

  lemma SourcesExactly(sources: Sources)
    ensures SourcesNamed(sources) <==>
      && (forall name | name in sources :: OfReference(name))
      && "adapter" in sources && "measurements" in sources && "lifecycle" in sources && "usage" in sources
  {
    assert forall name :: name in INPUTS <==>
      name == "adapter" || name == "measurements" || name == "lifecycle" || name == "usage" by {
      assert INPUTS[0] == "adapter" && INPUTS[1] == "measurements" && INPUTS[2] == "lifecycle" && INPUTS[3] == "usage";
    }
    assert forall name :: ReferenceSource(name) <==> OfReference(name);
  }

  lemma GatheredExactly(ref: Reference, b: Binding, sources: Sources, g: Gathered)
    ensures Gather(ref, b, sources) == Ok(g) <==> ReadsInputs(ref, b, sources, g)
  {
    hide Configuration.Valid, SourcesNamed, OfReference;
    SourcesExactly(sources);
    assert FaultIncident() != HealthyIncident() by {
      assert FaultIncident()[10] != HealthyIncident()[10];
    }
  }

  // The measurements

  /** The share of a processor a quota allows. */
  predicate LessShare(a: Quota, b: Quota) {
    a.micros * b.period < b.micros * a.period
  }

  /** What the measured texts read as, over a nonempty window whose counters did not fall. */
  predicate ReadsAs(m: Measurements, target: string, frozenCpuMax: string, o: Observations) {
    && m.target == target == o.target
    && ParseQuota(m.baselineCpuMax) == Ok(o.baseline) == ParseQuota(frozenCpuMax)
    && ParseQuota(m.activeCpuMax) == Ok(o.active)
    && ParseStat(m.beforeCpuStat) == Ok(o.before) && ParseStat(m.afterCpuStat) == Ok(o.after)
    && o.before.periods < o.after.periods
    && o.before.throttled <= o.after.throttled && o.before.micros <= o.after.micros
    && o.after.throttled - o.before.throttled <= o.after.periods - o.before.periods
  }

  /** The assigned state is shown: less of the processor and more throttling, or as
      much of it and none. */
  predicate ShowsFault(o: Observations, expectedFault: bool) {
    if expectedFault then
      && LessShare(o.active, o.baseline)
      && o.before.throttled < o.after.throttled && o.before.micros < o.after.micros
    else
      && !LessShare(o.active, o.baseline) && !LessShare(o.baseline, o.active)
      && o.before.throttled == o.after.throttled && o.before.micros == o.after.micros
  }

  lemma MeasuredExactly(m: Measurements, target: string, frozenCpuMax: string, o: Observations)
    ensures Measured(m, target, frozenCpuMax) == Ok(o) <==>
      && ReadsAs(m, target, frozenCpuMax, o)
      && (o.faultObserved <==> ShowsFault(o, true)) && (o.healthyObserved <==> ShowsFault(o, false))
  {
    hide ParseQuota, ParseStat;
  }

  // The lifecycle and the usage

  predicate Changed(a: Audit) { a.workspaceBefore != a.workspaceAfter }

  predicate Touched(a: Audit) {
    exists i | 0 <= i < |a.actions| :: a.actions[i].kind != ReadAction
  }

  predicate Remains(a: Audit) {
    exists r | r in a.resourcesAfter :: a.resourcesAfter[r]
  }

  predicate ListsFiles(workspace: map<string, string>) {
    && |workspace| > 0
    && forall path | path in workspace :: (exists c | c in path :: !IsSpace(c)) && IsDigest(workspace[path])
  }

  ghost predicate WellAudited(a: Audit) {
    && ListsFiles(a.workspaceBefore) && ListsFiles(a.workspaceAfter)
    && |a.actions| > 0
    && (forall i | 0 <= i < |a.actions| :: IsIdentifier(a.actions[i].id))
    && (forall i, j | 0 <= i < |a.actions| && 0 <= j < |a.actions| && a.actions[i].id == a.actions[j].id :: i == j)
    && |a.resourcesBefore| > 0
    && (forall r :: r in a.resourcesBefore <==> r in a.resourcesAfter)
    && !exists r | r in a.resourcesBefore :: !a.resourcesBefore[r]
  }

  lemma AuditedExactly(a: Audit)
    ensures Audited(a) <==> WellAudited(a)
    ensures OnlyReads(a) <==> !Touched(a)
    ensures ResourcesGone(a) <==> !Remains(a)
  {
    hide IsIdentifier, IsDigest, Blank, IsSpace;
    FilesListed(a.workspaceBefore);
    FilesListed(a.workspaceAfter);
    hide Inventory, ListsFiles;
    assert (forall action | action in a.actions :: IsIdentifier(action.id))
      <==> forall i | 0 <= i < |a.actions| :: IsIdentifier(a.actions[i].id);
    assert (forall action | action in a.actions :: action.kind == ReadAction)
      <==> forall i | 0 <= i < |a.actions| :: a.actions[i].kind == ReadAction;
  }

  lemma FilesListed(workspace: map<string, string>)
    ensures Inventory(workspace) <==> ListsFiles(workspace)
  {
    hide IsSpace, IsDigest, Blank;
    forall path: string
      ensures Blank(path) <==> forall c | c in path :: IsSpace(c)
    {
      BlankIsSpace(path);
      assert (forall c | c in path :: IsSpace(c)) <==> forall i | 0 <= i < |path| :: IsSpace(path[i]);
    }
  }

  /** The session's clock, its tool calls and its credits, each measured or not. */
  ghost predicate Accounts(u: Usage, m: Metrics) {
    && (match u.started
        case None => u.finished == None && m.agentSeconds == None
        case Some(start) =>
          && u.finished.Some? && 0 <= start <= u.finished.value && m.agentSeconds.Some?
          && m.agentSeconds.value * 1_000_000_000.0 == (u.finished.value - start) as real)
    && (match u.toolCallIds
        case None => m.toolCalls == None
        case Some(ids) =>
          && m.toolCalls == Some(|ids|)
          && (forall i | 0 <= i < |ids| :: ids[i] != "")
          && forall i, j | 0 <= i < |ids| && 0 <= j < |ids| && ids[i] == ids[j] :: i == j)
    && m.aiCredits == u.aiCredits && (u.aiCredits.Some? ==> u.aiCredits.value >= 0.0)
  }

  lemma MetricsExactly(u: Usage, m: Metrics)
    ensures ValidUsage(u) && MetricsOf(u) == m <==> Accounts(u, m)
  {
    if u.toolCallIds.Some? {
      var ids := u.toolCallIds.value;
      assert forall i | 0 <= i < |ids| :: ids[i] in ids;
    }
    if u.started.Some? && u.finished.Some? && m.agentSeconds.Some? {
      SecondsExactly(u.started.value, u.finished.value, m.agentSeconds.value);
    }
  }

  lemma SecondsExactly(start: int, end: int, seconds: real)
    ensures seconds == SecondsBetween(start, end) <==> seconds * 1_000_000_000.0 == (end - start) as real
  {
  }

  // The result

  /** The recorder's answer to the adapter's calls. */
  ghost predicate Answered(ref: Reference, g: Gathered, s: Submission)
    requires ref.config.Valid()
  {
    exists k :: FirstValid(Table(ref.config.componentAliases), g.adapter.calls, k, s)
  }

  ghost predicate Unanswered(ref: Reference, g: Gathered)
    requires ref.config.Valid()
  {
    forall i | 0 <= i < |g.adapter.calls| :: Validated(g.adapter.calls[i], Table(ref.config.componentAliases)).Err?
  }

  /** The single decision about an answer. */
  ghost predicate Reviewed(ref: Reference, b: Binding, sources: Sources, names: seq<string>, s: Submission,
                           o: Observations, review: Review)
    requires SourcesNamed(sources)
  {
    SingleDecision(ref, PacketOf(ref, b, sources, s, o), sources, names, review)
  }

  /** The documents are readable and of this attempt, the adapter does not claim
      remediation, and the first valid call's answer, if any, has its decision. */
  ghost predicate Replayable(ref: Reference, b: Binding, sources: Sources, names: seq<string>, g: Gathered,
                             o: Observations)
  {
    && ReadsInputs(ref, b, sources, g) && SourcesNamed(sources)
    && g.adapter.completion != RemediationFailure
    && Measured(g.measurements, ref.config.target, ref.config.baselineCpuMax) == Ok(o)
    && (forall s | Answered(ref, g, s) :: exists review :: Reviewed(ref, b, sources, names, s, o, review))
    && WellAudited(g.lifecycle) && exists m :: Accounts(g.usage, m)
  }

  lemma UnansweredRecorded(ref: Reference, g: Gathered)
    requires ref.config.Valid()
    ensures Unanswered(ref, g) <==> Recording(ref, g.adapter).submission == None
  {
    hide Configuration.Valid, FirstValid, Validated, Recorded;
    AliasesOf(ref.config);
    FirstValidWins(Table(ref.config.componentAliases), g.adapter.calls);
  }

  lemma AnsweredRecorded(ref: Reference, g: Gathered, s: Submission)
    requires ref.config.Valid()
    ensures Answered(ref, g, s) <==> Recording(ref, g.adapter).submission == Some(s)
  {
    hide Configuration.Valid, FirstValid, Validated, Recorded;
    AliasesOf(ref.config);
    var aliases := Table(ref.config.componentAliases);
    FirstValidWins(aliases, g.adapter.calls);
    if Answered(ref, g, s) {
      var k: nat :| FirstValid(aliases, g.adapter.calls, k, s);
      RecordedFirst(aliases, g.adapter.calls, k, s);
    }
  }

  lemma ReplayableReaches(ref: Reference, b: Binding, sources: Sources, names: seq<string>, g: Gathered,
                          o: Observations)
    requires Gather(ref, b, sources) == Ok(g)
    requires Measured(g.measurements, ref.config.target, ref.config.baselineCpuMax) == Ok(o)
    ensures ReachesScorer(ref, b, sources, names) <==> Replayable(ref, b, sources, names, g, o)
  {
    hide Gather, Measured, Configuration.Valid, SourcesNamed, Audited, ValidUsage, WellAudited, Accounts, MetricsOf,
         Reviewed, Answered, Grading, ReadsInputs, OnlyReads, ResourcesGone, Recording;
    GatheredExactly(ref, b, sources, g);
    AuditedExactly(g.lifecycle);
    MetricsExactly(g.usage, MetricsOf(g.usage));
    forall m | Accounts(g.usage, m)
      ensures ValidUsage(g.usage)
    {
      MetricsExactly(g.usage, m);
    }
    GradedExactly(ref, b, sources, names, g, o);
  }

  lemma GradedExactly(ref: Reference, b: Binding, sources: Sources, names: seq<string>, g: Gathered, o: Observations)
    requires Gather(ref, b, sources) == Ok(g)
    ensures Grading(ref, b, sources, names, Recording(ref, g.adapter).submission, o).Ok? <==>
      forall s | Answered(ref, g, s) :: exists review :: Reviewed(ref, b, sources, names, s, o, review)
  {
    hide Gather, Configuration.Valid, SourcesNamed, Answered, Recording, PacketOf, SingleDecision, Decide, GradeOf;
    var answer := Recording(ref, g.adapter).submission;
    forall s
      ensures Answered(ref, g, s) <==> answer == Some(s)
    {
      AnsweredRecorded(ref, g, s);
    }
    if answer.Some? {
      var packet := PacketOf(ref, b, sources, answer.value, o);
      DecisionIs(ref, packet, sources, names);
      var d := Decide(ref, packet, sources, names);
      assert d.DecidedBy? ==> Reviewed(ref, b, sources, names, answer.value, o, d.review);
      assert forall review | Reviewed(ref, b, sources, names, answer.value, o, review) :: d.DecidedBy?;
    }
  }

  /** A replay succeeds exactly on an attempt that can be replayed. */
  lemma ReplayedExactly(ref: Reference, b: Binding, sources: Sources, names: seq<string>)
    ensures Replay(ref, b, sources, names).Ok? <==> exists g, o :: Replayable(ref, b, sources, names, g, o)
  {
    ReplayScores(ref, b, sources, names);
    hide Replay, Score, ScorerInputs, Gather, Measured, Grading, Recording, Replayable, Audited, ValidUsage;
    forall g, o | Replayable(ref, b, sources, names, g, o)
      ensures ReachesScorer(ref, b, sources, names)
    {
      ReplayableReads(ref, b, sources, names, g, o);
      ReplayableReaches(ref, b, sources, names, g, o);
    }
    if ReachesScorer(ref, b, sources, names) {
      var g := Gather(ref, b, sources).value;
      var o := Measured(g.measurements, ref.config.target, ref.config.baselineCpuMax).value;
      ReplayableReaches(ref, b, sources, names, g, o);
      AlwaysScored(ref, b, sources, names);
    }
  }

  lemma ReplayableReads(ref: Reference, b: Binding, sources: Sources, names: seq<string>, g: Gathered,
                        o: Observations)
    requires Replayable(ref, b, sources, names, g, o)
    ensures Gather(ref, b, sources) == Ok(g)
    ensures Measured(g.measurements, ref.config.target, ref.config.baselineCpuMax) == Ok(o)
  {
    hide Gather, Measured, WellAudited, Accounts, Reviewed, Answered, ReadsInputs;
    GatheredExactly(ref, b, sources, g);
  }

  lemma AlwaysScored(ref: Reference, b: Binding, sources: Sources, names: seq<string>)
    requires ReachesScorer(ref, b, sources, names)
    ensures Score(ScorerInputs(ref, b, sources, names)).Scored?
  {
    hide Score, Scoring, Gather, Measured, Grading, Audited, ValidUsage, Configuration.Valid, SourcesNamed, Recorded,
         Established, LeftClean, SingleDecision, GradeOf, Decide, PacketOf, Hits, Cited, ReviewPasses;
    var g := Gather(ref, b, sources).value;
    var o := Measured(g.measurements, ref.config.target, ref.config.baselineCpuMax).value;
    var record := Recording(ref, g.adapter);
    GradingFacts(ref, b, sources, names, g.adapter, o);
    ScoringSucceeds(g.adapter, record, Grading(ref, b, sources, names, record.submission, o).value,
      Established(o, b.assignment.expectedFault), g.lifecycle);
  }

  // What is reported

  predicate Prohibited(g: Gathered) {
    g.adapter.completion == IsolationViolation || Changed(g.lifecycle) || Touched(g.lifecycle)
  }

  /** The session, not the agent, failed. */
  predicate Broke(g: Gathered, o: Observations, expectedFault: bool) {
    || !ShowsFault(o, expectedFault)
    || g.adapter.error !in {None, Some("")}
    || g.adapter.completion == HarnessFailure
  }

  /** The answer names the target as saturated, or claims health. */
  predicate OnTarget(s: Submission, target: string, expectedFault: bool) {
    && s.faultPresent == expectedFault
    && (expectedFault ==> s.causalCategory == Some("cpu_saturation") && s.component == Some(target))
  }

  /** Both of the target's files are cited and nothing else, and every citation was
      found relevant and supported. */
  ghost predicate WellCited(s: Submission, target: string, review: Review) {
    && (set c | c in s.evidence :: c.signal) == {target + "/cpu.max", target + "/cpu.stat"}
    && forall i | 0 <= i < |review.citations| ::
         review.citations[i].relevant == Some(true) && review.citations[i].supported == Some(true)
  }

  /** What the scorer is given of an attempt. */
  predicate Handed(x: Inputs, g: Gathered, broke: bool) {
    && x.completion == Class(g.adapter.completion)
    && x.gate == None && x.budgetStop == g.adapter.budgetStop && !x.shellEnabled && x.screen == On
    && x.scope == Some(ValidationCheck(!Changed(g.lifecycle), ["lifecycle"]))
    && x.safety == Some(ValidationCheck(!Touched(g.lifecycle), ["lifecycle"]))
    && x.cleanup == Some(ValidationCheck(!Remains(g.lifecycle), ["lifecycle"]))
    && (SessionBroke(x) <==> broke)
  }

  lemma ScoringHanded(g: Gathered, record: Record, grade: Option<Grade>, o: Observations, expectedFault: bool)
    requires o.faultObserved <==> ShowsFault(o, true)
    requires o.healthyObserved <==> ShowsFault(o, false)
    ensures Handed(Scoring(g.adapter, record, grade, Established(o, expectedFault), g.lifecycle), g,
              Broke(g, o, expectedFault))
  {
    hide ShowsFault, OnlyReads, ResourcesGone, Touched, Remains;
    AuditedExactly(g.lifecycle);
    assert LIFECYCLE == "lifecycle";
    assert NotEstablished() != "";
  }

  lemma InputsShown(ref: Reference, b: Binding, sources: Sources, names: seq<string>, g: Gathered, o: Observations)
    requires Replayable(ref, b, sources, names, g, o)
    ensures ReachesScorer(ref, b, sources, names) && ref.config.Valid()
    ensures var x := ScorerInputs(ref, b, sources, names);
      x.record == Recording(ref, g.adapter) && Handed(x, g, Broke(g, o, b.assignment.expectedFault))
  {
    hide Replayable, Configuration.Valid, Gather, Measured, Grading, Recording, Audited, ValidUsage, Handed, Broke,
         ShowsFault, Established;
    ReplayableReads(ref, b, sources, names, g, o);
    ReplayableReaches(ref, b, sources, names, g, o);
    MeasuredExactly(g.measurements, ref.config.target, ref.config.baselineCpuMax, o);
    var record := Recording(ref, g.adapter);
    ScoringHanded(g, record, Grading(ref, b, sources, names, record.submission, o).value, o,
      b.assignment.expectedFault);
  }

  /** The grade of an answer that has its decision, in the answer's and the review's fields. */
  lemma GradeShownBy(target: string, expectedFault: bool, s: Submission, name: string, review: Review)
    requires s.evidence != [] && |review.citations| == |s.evidence|
    ensures var grade := GradeOf(target, expectedFault, s, name, review);
      && grade.submission == s
      && (Correct(grade) <==> OnTarget(s, target, expectedFault) && review.mechanismPassed == Some(true))
      && (Evidenced(grade.reviews) <==> WellCited(s, target, review))
  {
    EvidencePasses(target, expectedFault, s, name, review);
    EvidenceExactly(GradeOf(target, expectedFault, s, name, review));
    ReviewsAll(review);
    hide Grade.EvidencePassed, Inspected;
    assert Cited(s) == set c | c in s.evidence :: c.signal;
  }

  lemma ReviewsAll(review: Review)
    ensures (forall c | c in review.citations :: c.relevant == Some(true) && c.supported == Some(true))
       <==> forall i | 0 <= i < |review.citations| ::
              review.citations[i].relevant == Some(true) && review.citations[i].supported == Some(true)
  {
    assert forall i | 0 <= i < |review.citations| :: review.citations[i] in review.citations;
  }

  /** The answer's grade, as the scorer is given it. */
  lemma AnswerGraded(ref: Reference, b: Binding, sources: Sources, names: seq<string>, g: Gathered, o: Observations,
                     s: Submission, review: Review)
    requires Replayable(ref, b, sources, names, g, o)
    requires Answered(ref, g, s) && Reviewed(ref, b, sources, names, s, o, review)
    ensures ReachesScorer(ref, b, sources, names)
    ensures var x := ScorerInputs(ref, b, sources, names);
      && x.record.submission == Some(s) && GradesAnswer(x)
      && (Correct(x.grade.value) <==>
            OnTarget(s, ref.config.target, b.assignment.expectedFault) && review.mechanismPassed == Some(true))
      && (Evidenced(x.grade.value.reviews) <==> WellCited(s, ref.config.target, review))
  {
    hide Replayable, Configuration.Valid, Gather, Measured, Grading, Recording, Audited, ValidUsage, Answered,
         SingleDecision, GradeOf, Decide, PacketOf, Hits, Cited, ReviewPasses, Correct, Evidenced, OnTarget, WellCited;
    ReplayableReads(ref, b, sources, names, g, o);
    ReplayableReaches(ref, b, sources, names, g, o);
    AnsweredRecorded(ref, g, s);
    GradingFacts(ref, b, sources, names, g.adapter, o);
    var packet := PacketOf(ref, b, sources, s, o);
    DecisionIs(ref, packet, sources, names);
    var d := Decide(ref, packet, sources, names);
    DecidedFits(ref, packet, d.review);
    PacketEvidence(ref, b, sources, s, o);
    GradeShownBy(ref.config.target, b.assignment.expectedFault, s, d.name, d.review);
  }

  lemma PacketEvidence(ref: Reference, b: Binding, sources: Sources, s: Submission, o: Observations)
    requires SourcesNamed(sources)
    ensures PacketOf(ref, b, sources, s, o).answer.evidence == s.evidence
  {
  }

  /** The replay reports what the scorer makes of those inputs. */
  lemma ReplayIs(ref: Reference, b: Binding, sources: Sources, names: seq<string>, g: Gathered, o: Observations)
    requires Replayable(ref, b, sources, names, g, o)
    ensures ReachesScorer(ref, b, sources, names) && ref.config.Valid() && Replay(ref, b, sources, names).Ok?
    ensures var x := ScorerInputs(ref, b, sources, names);
      && Score(x).Scored? && Replay(ref, b, sources, names).value.outcome == Score(x).outcome
      && FromCalls(x, Table(ref.config.componentAliases), g.adapter.calls)
      && Handed(x, g, Broke(g, o, b.assignment.expectedFault))
  {
    hide Replay, Replayable, ReachesScorer, ScorerInputs, Score, Configuration.Valid, Recorded, SelfResolving, Handed;
    InputsShown(ref, b, sources, names, g, o);
    ReplayScores(ref, b, sources, names);
    AlwaysScored(ref, b, sources, names);
    AliasesOf(ref.config);
  }

  lemma MarksHanded(x: Inputs, g: Gathered, broke: bool)
    requires Handed(x, g, broke) && Score(x).Scored?
    ensures var out := Score(x).outcome;
      && out.validators.scope == Some(if Changed(g.lifecycle) then Failing else Passing)
      && out.validators.safety == Some(if Touched(g.lifecycle) then Failing else Passing)
      && out.validators.cleanup == Some(if Remains(g.lifecycle) then Failing else Passing)
      && out.evidence.scope == out.evidence.safety == out.evidence.cleanup == Some(["lifecycle"])
  {
    hide Score, Touched, Changed, Remains, SessionBroke;
    ChecksShown(x);
  }

  /** A replayed attempt carries its own calls, checks and usage. */
  lemma ReplayRecord(ref: Reference, b: Binding, sources: Sources, names: seq<string>, g: Gathered, o: Observations)
    requires Replayable(ref, b, sources, names, g, o)
    ensures Replay(ref, b, sources, names).Ok?
    ensures var v := Replay(ref, b, sources, names).value;
      var out := v.outcome;
      && Accounts(g.usage, v.metrics) && v.examined == ["adapter", "measurements", "lifecycle", "usage"]
      && out.validators.scope == Some(if Changed(g.lifecycle) then Failing else Passing)
      && out.validators.safety == Some(if Touched(g.lifecycle) then Failing else Passing)
      && out.validators.cleanup == Some(if Remains(g.lifecycle) then Failing else Passing)
      && out.evidence.scope == out.evidence.safety == out.evidence.cleanup == Some(["lifecycle"])
      && out.budgetStop == g.adapter.budgetStop && out.sandbox == None && out.screen == On && !out.shellEnabled
  {
    hide Replay, Replayable, ReachesScorer, ScorerInputs, Score, Configuration.Valid, Accounts, Changed, Touched,
         Remains, FromCalls, SessionBroke, Broke;
    ReplayIs(ref, b, sources, names, g, o);
    AliasesOf(ref.config);
    var x := ScorerInputs(ref, b, sources, names);
    MarksHanded(x, g, Broke(g, o, b.assignment.expectedFault));
    SessionKept(x, Table(ref.config.componentAliases), g.adapter.calls);
    ReplayUsage(ref, b, sources, names, g, o);
  }

  /** Its answer is the first valid call's, and every other call was rejected. */
  lemma ReplayAnswer(ref: Reference, b: Binding, sources: Sources, names: seq<string>, g: Gathered, o: Observations,
                     s: Submission)
    requires Replayable(ref, b, sources, names, g, o)
    ensures ref.config.Valid() && Replay(ref, b, sources, names).Ok?
    ensures var out, calls := Replay(ref, b, sources, names).value.outcome, |g.adapter.calls|;
      && (Unanswered(ref, g) ==> out.submission == None && out.rejected == calls)
      && (Answered(ref, g, s) ==>
            out.submission == Some(JsonValues.Obj(AnswerFields(s))) && out.rejected == calls - 1)
  {
    hide Replay, Replayable, ReachesScorer, ScorerInputs, Score, Configuration.Valid, AnswerFields, Unanswered,
         Answered, Handed, FromCalls, Recording;
    ReplayIs(ref, b, sources, names, g, o);
    AliasesOf(ref.config);
    var x := ScorerInputs(ref, b, sources, names);
    SessionKept(x, Table(ref.config.componentAliases), g.adapter.calls);
    InputsShown(ref, b, sources, names, g, o);
    AnsweredRecorded(ref, g, s);
    UnansweredRecorded(ref, g);
  }

  lemma ReplayUsage(ref: Reference, b: Binding, sources: Sources, names: seq<string>, g: Gathered, o: Observations)
    requires Replayable(ref, b, sources, names, g, o) && Replay(ref, b, sources, names).Ok?
    ensures Accounts(g.usage, Replay(ref, b, sources, names).value.metrics)
    ensures Replay(ref, b, sources, names).value.examined == ["adapter", "measurements", "lifecycle", "usage"]
  {
    hide Replayable, ReachesScorer, ScorerInputs, Score, Scoring, Configuration.Valid, Gather, Measured, Recording,
         Grading, Accounts, Audited, ValidUsage, MetricsOf;
    ReplayableReads(ref, b, sources, names, g, o);
    MetricsExactly(g.usage, MetricsOf(g.usage));
    assert ValidUsage(g.usage);
  }

  /** The class of an outcome, when no answer was accepted and in general. */
  ghost predicate ClassedBy(out: TrialOutcome, g: Gathered, broke: bool, unanswered: bool) {
    var completion := g.adapter.completion;
    var silent := !Prohibited(g) && unanswered && completion !in {Refusal, BudgetExhaustion};
    && out.agent.Some?
    && (out.terminal == HarnessFailure <==> broke || Remains(g.lifecycle))
    && (out.terminal != HarnessFailure ==> out.agent == Some(out.terminal))
    && (out.agent == Some(IsolationViolation) <==> Prohibited(g))
    && (out.agent == Some(Refusal) <==> !Prohibited(g) && unanswered && completion == Refusal)
    && (out.agent == Some(BudgetExhaustion) <==> !Prohibited(g) && unanswered && completion == BudgetExhaustion)
    && (out.agent == Some(InvalidOutput) <==> silent && g.adapter.calls != [])
    && (out.agent == Some(NoSubmission) <==> silent && g.adapter.calls == [])
  }

  lemma IsolatedHanded(x: Inputs, g: Gathered, broke: bool)
    requires Handed(x, g, broke)
    ensures Isolated(x) <==> Prohibited(g)
    ensures !Unconfined(x) && (Fails(x.cleanup) <==> Remains(g.lifecycle))
    ensures x.scope.Some? && x.safety.Some? && x.cleanup.Some?
  {
    hide Touched, Changed, Remains, SessionBroke;
  }

  lemma ClassesHanded(x: Inputs, aliases: Aliases, g: Gathered, broke: bool)
    requires Handed(x, g, broke) && FromCalls(x, aliases, g.adapter.calls) && Score(x).Scored?
    requires x.record.submission.Some? ==> GradesAnswer(x)
    ensures ClassedBy(Score(x).outcome, g, broke, x.record.submission.None?)
    ensures x.record.submission.Some? ==>
      var agent, right := Score(x).outcome.agent, Correct(x.grade.value) && Evidenced(x.grade.value.reviews);
      && (agent == Some(ValidatedSuccess) <==> !Prohibited(g) && right)
      && (agent == Some(DiagnosisFailure) <==> !Prohibited(g) && !right)
  {
    IsolatedHanded(x, g, broke);
    AgentClasses(x, aliases, g.adapter.calls);
    ReportedClass(x);
    hide Score, FromCalls, Isolated, Prohibited, Correct, Evidenced, Fails, Unconfined, SessionBroke, GradesAnswer;
  }

  /** The class of a replayed attempt, from its documents: a harness failure exactly
      when the session broke, the assigned state was not shown or a resource remains;
      otherwise the agent's own result, in which a prohibited act comes first and an
      attempt without an answer is named by its stop or by its calls. */
  lemma ReplayClasses(ref: Reference, b: Binding, sources: Sources, names: seq<string>, g: Gathered, o: Observations)
    requires Replayable(ref, b, sources, names, g, o)
    ensures ref.config.Valid() && Replay(ref, b, sources, names).Ok?
    ensures ClassedBy(Replay(ref, b, sources, names).value.outcome, g, Broke(g, o, b.assignment.expectedFault),
      Unanswered(ref, g))
  {
    hide Replay, Replayable, ReachesScorer, ScorerInputs, Score, Configuration.Valid, Unanswered, Answered, Reviewed,
         Handed, FromCalls, Recording, Broke, ClassedBy, GradesAnswer, Correct, Evidenced, SourcesNamed;
    ReplayIs(ref, b, sources, names, g, o);
    AliasesOf(ref.config);
    InputsShown(ref, b, sources, names, g, o);
    var x := ScorerInputs(ref, b, sources, names);
    AnswersReviewed(ref, b, sources, names, g, o);
    if x.record.submission.Some? {
      var s := x.record.submission.value;
      AnsweredRecorded(ref, g, s);
      var review :| Reviewed(ref, b, sources, names, s, o, review);
      AnswerGraded(ref, b, sources, names, g, o, s, review);
    }
    UnansweredRecorded(ref, g);
    ClassesHanded(x, Table(ref.config.componentAliases), g, Broke(g, o, b.assignment.expectedFault));
  }

  lemma AnswersReviewed(ref: Reference, b: Binding, sources: Sources, names: seq<string>, g: Gathered, o: Observations)
    requires Replayable(ref, b, sources, names, g, o)
    ensures ref.config.Valid() && SourcesNamed(sources)
    ensures forall s | Answered(ref, g, s) :: exists review :: Reviewed(ref, b, sources, names, s, o, review)
  {
    hide Configuration.Valid, SourcesNamed, Answered, Reviewed, Measured, WellAudited, Accounts;
  }

  /** An attempt's first valid answer is a success exactly when nothing prohibited was
      done, it is on target and well cited, and the review accepted its mechanism. */
  lemma ReplaySuccess(ref: Reference, b: Binding, sources: Sources, names: seq<string>, g: Gathered, o: Observations,
                      s: Submission, review: Review)
    requires Replayable(ref, b, sources, names, g, o)
    requires Answered(ref, g, s) && Reviewed(ref, b, sources, names, s, o, review)
    ensures Replay(ref, b, sources, names).Ok?
    ensures var agent := Replay(ref, b, sources, names).value.outcome.agent;
      var right := OnTarget(s, ref.config.target, b.assignment.expectedFault)
        && review.mechanismPassed == Some(true) && WellCited(s, ref.config.target, review);
      && (agent == Some(ValidatedSuccess) <==> !Prohibited(g) && right)
      && (agent == Some(DiagnosisFailure) <==> !Prohibited(g) && !right)
  {
    hide Replay, Replayable, ReachesScorer, ScorerInputs, Score, Configuration.Valid, Unanswered, Answered, Reviewed,
         Handed, FromCalls, Recording, Broke, ClassedBy, GradesAnswer, Correct, Evidenced, SourcesNamed, OnTarget,
         WellCited, Prohibited;
    ReplayIs(ref, b, sources, names, g, o);
    AliasesOf(ref.config);
    AnswerGraded(ref, b, sources, names, g, o, s, review);
    ClassesHanded(ScorerInputs(ref, b, sources, names), Table(ref.config.componentAliases), g,
      Broke(g, o, b.assignment.expectedFault));
  }
}

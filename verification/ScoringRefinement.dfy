/** The scorer and the journal's separately written check agree. */
module ScoringRefinement {
  import opened Results
  import opened Text
  import opened ComponentMaps
  import opened JsonValues
  import opened Submissions
  import opened Diagnosis
  import opened SandboxGates
  import opened TrialOutcomes
  import opened OutcomeChecks

  /** A stop reason made only of white space is reported as the agent's reason. */
  predicate BlankStopReason(x: Inputs) {
    x.StoppedEarly() && x.budgetStop.Some? && x.budgetStop.value != "" && Blank(x.budgetStop.value)
  }

  predicate CheckResolves(check: Option<ValidationCheck>, sources: Sources) {
    check.Some? ==> References(check.value.examined, sources)
  }

  /** What a caller can look up before scoring: the references in use resolve to
      captured sources, a grade in use belongs to the assigned state, and the
      stop reason in use is not blank. */
  predicate Admissible(x: Inputs, expectedFault: bool, sources: Sources) {
    && CheckResolves(x.scope, sources) && CheckResolves(x.safety, sources) && CheckResolves(x.cleanup, sources)
    && (x.Graded() ==>
          && x.grade.value.expected.faultPresent == expectedFault
          && References(x.grade.value.mechanismEvidence, sources)
          && ReviewsExamined(x.grade.value.reviews, sources))
    && !BlankStopReason(x)
  }

  /** The recorder holds what some calls under some fixture table left in it. */
  ghost predicate FromCalls(x: Inputs, aliases: Aliases, payloads: seq<Json>) {
    SelfResolving(aliases) && x.record == Recorded(aliases, payloads)
  }

  lemma AnswerReparses(x: Inputs, aliases: Aliases, payloads: seq<Json>)
    requires FromCalls(x, aliases, payloads)
    ensures SavedAnswer(AnswerJson(x.record.submission)) ==
      Ok(if x.record.submission.Some? then Some(InCanonicalNames(x.record.submission.value)) else None)
    ensures x.record.submission.Some? ==> x.record.submission.value.evidence != []
  {
    hide Validated, AnswerFields, SelfResolving, Reparsed, CanonicalName, CausalCategories;
    FirstValidWins(aliases, payloads);
    if x.record.submission.Some? {
      var s := x.record.submission.value;
      var k: nat :| FirstValid(aliases, payloads, k, s);
      AcceptedIsCanonical(payloads[k], aliases);
      CanonicalFixedPoint(s, aliases);
      SubmittedSpellingsOnly(s);
    }
  }

  lemma SubmittedSpellingsOnly(s: Submission)
    ensures SameCanonicalFields(AnswerFields(s), AnswerFields(InCanonicalNames(s)))
  {
    AnswerKeys(s);
    AnswerKeys(InCanonicalNames(s));
    hide AnswerFields;
  }

  /** The grade does not look at the submitted spellings. */
  lemma GradeIgnoresSpellings(g: Grade)
    ensures var h := g.(submission := InCanonicalNames(g.submission));
      h.Valid() == g.Valid() && h.DiagnosisPassed() == g.DiagnosisPassed() && h.EvidencePassed() == g.EvidencePassed()
  {
  }

  lemma AgentReasonsBlank(x: Inputs)
    requires !x.AwaitsReview()
    ensures BlankStopReason(x) ==> AgentReasons(x) == [Free(x.budgetStop.value)]
    ensures !BlankStopReason(x) ==> forall r | r in AgentReasons(x) && r.Free? :: !Blank(r.text)
    ensures AgentReasons(x) == [] ==> AgentResult(x) == None || AgentResult(x) == Some(ValidatedSuccess)
  {
  }

  lemma ReasonsScored(x: Inputs)
    requires Score(x).Scored?
    ensures ReasonsGiven(Score(x).outcome) <==> !BlankStopReason(x)
  {
    AgentReasonsBlank(x);
    var h, a := HarnessReasons(x), AgentReasons(x);
    hide HarnessReasons, AgentReasons, AgentResult, BlankStopReason;
    assert forall r :: r in h + a <==> r in h || r in a;
    assert a != [] ==> a[0] in a;
  }

  lemma ClassesScored(x: Inputs)
    requires Score(x).Scored?
    ensures ClassesConsistent(Score(x).outcome) && ConfinementHeld(Score(x).outcome) && EvidenceCovers(Score(x).outcome)
  {
  }

  lemma LifecycleScored(x: Inputs, sources: Sources)
    requires Score(x).Scored?
    ensures LifecycleShown(Score(x).outcome, sources) <==>
      CheckResolves(x.scope, sources) && CheckResolves(x.safety, sources) && CheckResolves(x.cleanup, sources)
  {
  }

  lemma AgentScored(x: Inputs)
    requires Score(x).Scored?
    ensures AgentConsistent(Score(x).outcome,
      if x.record.submission.Some? then Some(InCanonicalNames(x.record.submission.value)) else None)
  {
  }

  lemma GradeScored(x: Inputs, expectedFault: bool, sources: Sources)
    requires Score(x).Scored? && x.Valid()
    requires x.record.submission.Some? ==> x.record.submission.value.evidence != []
    ensures var parsed := if x.record.submission.Some? then Some(InCanonicalNames(x.record.submission.value)) else None;
      GradeConfirmed(Score(x).outcome, parsed, expectedFault, sources) <==>
        (x.Graded() ==>
           && x.grade.value.expected.faultPresent == expectedFault
           && References(x.grade.value.mechanismEvidence, sources)
           && ReviewsExamined(x.grade.value.reviews, sources))
  {
    hide HarnessReasons, AgentReasons, AgentResult;
    if x.Graded() {
      GradeIgnoresSpellings(x.grade.value);
      assert x.grade.value.reviews != [];
    }
  }

  /** Every outcome the scorer returns is accepted by the check exactly when the
      inputs are admissible: for every completion, recorder, grade, sandbox
      result, check and setting. */
  lemma ScorerRefinesCheck(x: Inputs, aliases: Aliases, payloads: seq<Json>, expectedFault: bool, sources: Sources)
    requires x.Valid() && FromCalls(x, aliases, payloads) && Score(x).Scored?
    ensures Accepted(Score(x).outcome, expectedFault, sources) <==> Admissible(x, expectedFault, sources)
  {
    AnswerReparses(x, aliases, payloads);
    ReasonsScored(x);
    ClassesScored(x);
    LifecycleScored(x, sources);
    AgentScored(x);
    GradeScored(x, expectedFault, sources);
  }

  /** An attempt without an answer that ran out of budget, every check passing. */
  function OutOfBudget(stop: string): Inputs {
    var check := Some(ValidationCheck(true, ["lifecycle"]));
    Inputs(Class(BudgetExhaustion), Record([], None), None, Some(stop), None, false, On, None, check, check, check)
  }

  /** The one way a well-referenced attempt is refused, on a concrete input: the
      stop reason " " is refused where "tokens" is accepted. */
  lemma BlankStopReasonRefused(sources: Sources)
    requires "lifecycle" in sources && sources["lifecycle"] != []
    ensures Score(OutOfBudget(" ")).Scored? && !Accepted(Score(OutOfBudget(" ")).outcome, true, sources)
    ensures Score(OutOfBudget("tokens")).Scored? && Accepted(Score(OutOfBudget("tokens")).outcome, true, sources)
  {
    ValidOutOfBudget(" ");
    ValidOutOfBudget("tokens");
    hide Accepted, Score, Admissible;
    AdmissibleOutOfBudget(sources);
    ScorerRefinesCheck(OutOfBudget(" "), map[], [], true, sources);
    ScorerRefinesCheck(OutOfBudget("tokens"), map[], [], true, sources);
  }

  lemma AdmissibleOutOfBudget(sources: Sources)
    requires "lifecycle" in sources && sources["lifecycle"] != []
    ensures !Admissible(OutOfBudget(" "), true, sources) && Admissible(OutOfBudget("tokens"), true, sources)
  {
    assert Strip(" ") == "" && Strip("tokens") == "tokens";
  }

  lemma ValidOutOfBudget(stop: string)
    ensures OutOfBudget(stop).Valid() && Score(OutOfBudget(stop)).Scored? && FromCalls(OutOfBudget(stop), map[], [])
  {
    assert Strip("lifecycle") == "lifecycle";
  }
}

/** What an accepted outcome says, and that the check accepts nothing the scorer
    could not have reported (campaign.py, _validate_outcome). */
module AcceptedOutcomes {
  import opened Results
  import opened Text
  import opened ComponentMaps
  import opened JsonValues
  import opened Submissions
  import opened Diagnosis
  import opened DiagnosisTargets
  import opened SandboxGates
  import opened TrialOutcomes
  import opened OutcomeChecks
  import opened ScoringRefinement
  import opened OutcomeClasses

  // The two diagnosis marks

  /** The saved mechanism decision and declared target, against the answer as re-read. */
  predicate SavedCorrect(o: TrialOutcome, answer: Submission)
    requires o.evidence.diagnosis.Some?
  {
    Identifies(o.evidence.diagnosis.value.expected, answer) && o.evidence.diagnosis.value.mechanismPassed
  }

  /** Both diagnosis marks of any accepted outcome are true in both directions: a
      pass names the declared target with its mechanism accepted, a failure misses
      the target or had its mechanism rejected; the evidence passes exactly when no
      citation's review is negative in any of its three decisions. */
  lemma MarksTrue(o: TrialOutcome, expectedFault: bool, sources: Sources)
    requires Accepted(o, expectedFault, sources)
    ensures SavedAnswer(o.submission).Ok?
    ensures var answer := SavedAnswer(o.submission).value;
      && (o.validators.diagnosis.Some? <==> o.evidence.diagnosis.Some?)
      && (o.validators.evidence.Some? <==> o.evidence.evidence.Some?)
      && (o.evidence.diagnosis.Some? <==> o.evidence.evidence.Some?)
      && (o.evidence.diagnosis.Some? ==>
            && answer.Some?
            && (o.validators.diagnosis == Some(Passing) <==> SavedCorrect(o, answer.value))
            && (o.validators.diagnosis == Some(Failing) <==> !SavedCorrect(o, answer.value))
            && (o.validators.evidence == Some(Passing) <==> Evidenced(o.evidence.evidence.value))
            && (o.validators.evidence == Some(Failing) <==>
                  exists r | r in o.evidence.evidence.value :: !r.present || !r.relevant || !r.supported))
  {
    var answer := SavedAnswer(o.submission).value;
    if o.evidence.diagnosis.Some? {
      var target, reviews := o.evidence.diagnosis.value, o.evidence.evidence.value;
      var g := DiagnosisGrade(answer.value, target.expected, reviews, Some(target.mechanismPassed),
        target.mechanismExamined);
      DiagnosisExactly(g);
      EvidenceExactly(g);
      SomeNegative(reviews);
    }
    hide Identifies, SavedAnswer, ClassesConsistent, ReasonsGiven, ConfinementHeld, LifecycleShown, AgentConsistent,
         Grade.Valid, Grade.DiagnosisPassed, Grade.EvidencePassed, Evidenced, References, ReviewsExamined;
  }

  lemma SomeNegative(reviews: seq<EvidenceReview>)
    requires reviews != []
    ensures !Evidenced(reviews) <==> exists r | r in reviews :: !r.present || !r.relevant || !r.supported
  {
    assert forall i | 0 <= i < |reviews| :: reviews[i] in reviews;
  }

  /** An accepted diagnosis failure really failed: the answer misses the target, or
      its mechanism or one of its citations was rejected; and an accepted success
      has none of these. */
  lemma FailureFailed(o: TrialOutcome, expectedFault: bool, sources: Sources)
    requires Accepted(o, expectedFault, sources) && o.agent in {Some(DiagnosisFailure), Some(ValidatedSuccess)}
    ensures SavedAnswer(o.submission).Ok? && SavedAnswer(o.submission).value.Some?
    ensures o.evidence.diagnosis.Some? && o.evidence.evidence.Some?
    ensures var answer, target := SavedAnswer(o.submission).value.value, o.evidence.diagnosis.value;
      o.agent == Some(DiagnosisFailure) <==>
        || !Identifies(target.expected, answer) || !target.mechanismPassed
        || exists r | r in o.evidence.evidence.value :: !r.present || !r.relevant || !r.supported
  {
    MarksTrue(o, expectedFault, sources);
    BothMarks(o, expectedFault, sources);
    hide Accepted, Identifies, SavedAnswer;
    SomeNegative(o.evidence.evidence.value);
  }

  lemma BothMarks(o: TrialOutcome, expectedFault: bool, sources: Sources)
    requires Accepted(o, expectedFault, sources) && o.agent in {Some(DiagnosisFailure), Some(ValidatedSuccess)}
    ensures o.validators.diagnosis.Some? && o.validators.evidence.Some? && SavedAnswer(o.submission).value.Some?
    ensures o.agent == Some(ValidatedSuccess) <==>
      o.validators.diagnosis == Some(Passing) && o.validators.evidence == Some(Passing)
    ensures o.evidence.evidence.Some? && o.evidence.evidence.value != []
  {
    hide SavedAnswer, ReasonsGiven, ConfinementHeld, LifecycleShown, References, ReviewsExamined, Grade.Valid,
         Grade.DiagnosisPassed, Grade.EvidencePassed;
  }

  // Nothing but what the scorer reports

  /** A session that ends as the outcome says: rejected calls, then the saved answer. */
  function Payloads(o: TrialOutcome): seq<Json>
    requires o.rejected >= 0
  {
    seq(o.rejected, i => Null) + if o.submission.Some? then [o.submission.value] else []
  }

  function TableOf(o: TrialOutcome): Aliases
    requires SavedAnswer(o.submission).Ok?
  {
    if o.submission.Some? then Table(ReplayMap(o.submission.value.fields)) else map[]
  }

  function CheckOf(mark: Option<Mark>, examined: Option<seq<string>>): Option<ValidationCheck> {
    if mark.Some? && examined.Some? then Some(ValidationCheck(mark.value == Passing, examined.value)) else None
  }

  function GradeSaved(o: TrialOutcome): Option<Grade>
    requires SavedAnswer(o.submission).Ok?
  {
    var answer := SavedAnswer(o.submission).value;
    if answer.Some? && o.evidence.diagnosis.Some? && o.evidence.evidence.Some? then
      var target := o.evidence.diagnosis.value;
      Some(DiagnosisGrade(answer.value, target.expected, o.evidence.evidence.value,
                          Some(target.mechanismPassed), target.mechanismExamined))
    else None
  }

  /** What a scorer would have been given. */
  function Given(o: TrialOutcome): Inputs
    requires SavedAnswer(o.submission).Ok? && o.rejected >= 0
  {
    Inputs(Class(o.terminal), Recorded(TableOf(o), Payloads(o)), o.sandbox, o.budgetStop, None, o.shellEnabled,
      o.screen,
           GradeSaved(o),
           CheckOf(o.validators.scope, o.evidence.scope),
           CheckOf(o.validators.safety, o.evidence.safety),
           CheckOf(o.validators.cleanup, o.evidence.cleanup))
  }

  /** The same outcome but for the reasons' texts and the answer's submitted spellings. */
  predicate SameReport(a: TrialOutcome, b: TrialOutcome) {
    a.(reasons := b.reasons, submission := b.submission) == b && SameAnswer(a.submission, b.submission)
  }

  predicate SameAnswer(a: Option<Json>, b: Option<Json>) {
    match (a, b)
    case (None, None) => true
    case (Some(Obj(f)), Some(Obj(g))) => f.Keys == g.Keys == ANSWER_KEYS && SameCanonicalFields(f, g)
    case _ => false
  }

  lemma {:induction false} RejectedAll(aliases: Aliases, n: nat)
    ensures Recorded(aliases, seq(n, i => Null)) == Record(seq(n, i => Call(Null, false)), None)
    ensures Rejections(seq(n, i => Call(Null, false))) == n
  {
    var payloads: seq<Json>, calls := seq(n, i => Null), seq(n, i => Call(Null, false));
    if n > 0 {
      RejectedAll(aliases, n - 1);
      assert payloads[..n - 1] == seq(n - 1, i => Null);
      assert calls[..n - 1] == seq(n - 1, i => Call(Null, false));
      assert calls == calls[..n - 1] + [Call(Null, false)];
    }
  }

  /** The rebuilt session leaves the saved answer in the recorder, and as many rejections. */
  lemma GivenRecord(o: TrialOutcome)
    requires SavedAnswer(o.submission).Ok? && o.rejected >= 0
    ensures Given(o).record.submission == SavedAnswer(o.submission).value
    ensures Rejections(Given(o).record.calls) == o.rejected
    ensures SelfResolving(TableOf(o))
  {
    var aliases, n := TableOf(o), o.rejected;
    RejectedAll(aliases, n);
    GivenChecks(o);
    hide Given, Validated, Buildable, Table, SelfResolving, ReplayMap, SameCanonicalFields, AnswerFields;
    if o.submission.Some? {
      SavedTable(o);
      AnswerLast(aliases, n, o.submission.value, SavedAnswer(o.submission).value.value);
    } else {
      assert Payloads(o) == seq(n, i => Null);
      EmptyResolving();
    }
  }

  lemma SavedTable(o: TrialOutcome)
    requires SavedAnswer(o.submission).Ok? && o.submission.Some?
    ensures SelfResolving(TableOf(o)) && SavedAnswer(o.submission).value.Some?
    ensures Validated(o.submission.value, TableOf(o)) == Ok(SavedAnswer(o.submission).value.value)
  {
    hide Validated, Buildable, Table, SelfResolving, ReplayMap, SameCanonicalFields, AnswerFields;
    TableSelfResolving(ReplayMap(o.submission.value.fields));
  }

  lemma AnswerLast(aliases: Aliases, n: nat, payload: Json, s: Submission)
    requires Validated(payload, aliases) == Ok(s)
    ensures var r := Recorded(aliases, seq(n, i => Null) + [payload]);
      r.submission == Some(s) && Rejections(r.calls) == n
  {
    RejectedAll(aliases, n);
    hide Validated;
    var payloads: seq<Json> := seq(n, i => Null) + [payload];
    var calls := seq(n, i => Call(Null, false)) + [Call(payload, true)];
    assert payloads[..|payloads| - 1] == seq(n, i => Null);
    assert calls[..n] == seq(n, i => Call(Null, false));
  }

  lemma EmptyResolving()
    ensures SelfResolving(map[])
  {
  }

  // Each part of the report

  /** Captured names are public, hence not blank. */
  predicate NamedSources(sources: Sources) {
    forall name | name in sources :: IsIdentifier(name)
  }

  /** The outcomes that leave the harness and say nothing beside their class. */
  predicate Reportable(o: TrialOutcome) {
    o.terminal != HarnessFailure && (o.terminal == IsolationViolation ==> o.evidence.diagnosis.None?)
  }

  lemma LifecycleFacts(o: TrialOutcome, expectedFault: bool, sources: Sources)
    requires Accepted(o, expectedFault, sources) && o.terminal != HarnessFailure
    ensures o.validators.scope.Some? && o.validators.safety.Some? && o.validators.cleanup == Some(Passing)
    ensures o.evidence.scope.Some? && References(o.evidence.scope.value, sources)
    ensures o.evidence.safety.Some? && References(o.evidence.safety.value, sources)
    ensures o.evidence.cleanup.Some? && References(o.evidence.cleanup.value, sources)
    ensures o.terminal != IsolationViolation ==>
      o.validators.scope == Some(Passing) && o.validators.safety == Some(Passing)
    ensures (o.sandbox.Some? ==> o.sandbox.value.passed) && (o.shellEnabled && o.screen == Off ==> o.sandbox.Some?)
    ensures o.agent == Some(o.terminal) && o.terminal != RemediationFailure && o.rejected >= 0
    ensures (o.scored <==> o.terminal == ValidatedSuccess) && o.valid
  {
    hide SavedAnswer, GradeConfirmed, AgentConsistent, References, ReasonsGiven;
  }

  lemma AnswerFacts(o: TrialOutcome, expectedFault: bool, sources: Sources)
    requires Accepted(o, expectedFault, sources)
    ensures SavedAnswer(o.submission).Ok?
    ensures o.agent.Some? && o.agent.value in {NoSubmission, InvalidOutput, Refusal, BudgetExhaustion} ==>
      SavedAnswer(o.submission).value.None?
    ensures o.agent == Some(NoSubmission) ==> o.rejected == 0
    ensures o.agent == Some(InvalidOutput) ==> o.rejected > 0
  {
    hide SavedAnswer, GradeConfirmed, ReasonsGiven, ConfinementHeld, LifecycleShown, EvidenceCovers;
  }

  lemma GradeFacts(o: TrialOutcome, expectedFault: bool, sources: Sources)
    requires Accepted(o, expectedFault, sources)
    ensures SavedAnswer(o.submission).Ok?
    ensures GradeSaved(o).Some? ==> GradeSaved(o).value.Valid()
    ensures GradeSaved(o).Some? <==> o.evidence.diagnosis.Some?
  {
    hide SavedAnswer, ReasonsGiven, ConfinementHeld, LifecycleShown, ClassesConsistent, AgentConsistent, Grade.Valid,
         Grade.DiagnosisPassed, Grade.EvidencePassed, References, ReviewsExamined;
  }

  lemma GivenValid(o: TrialOutcome, expectedFault: bool, sources: Sources)
    requires Accepted(o, expectedFault, sources) && o.terminal != HarnessFailure && NamedSources(sources)
    ensures SavedAnswer(o.submission).Ok? && o.rejected >= 0 && Given(o).Valid()
  {
    LifecycleFacts(o, expectedFault, sources);
    GradeFacts(o, expectedFault, sources);
    hide Accepted, SavedAnswer, Grade.Valid, IsIdentifier, Blank, Recorded;
    NotBlankReferences(o.evidence.scope.value, sources);
    NotBlankReferences(o.evidence.safety.value, sources);
    NotBlankReferences(o.evidence.cleanup.value, sources);
    hide References, ExaminedReferences;
  }

  lemma NotBlankReferences(refs: seq<string>, sources: Sources)
    requires References(refs, sources) && NamedSources(sources)
    ensures ExaminedReferences(refs)
  {
    forall r | r in refs
      ensures !Blank(r)
    {
      IdentifierNotBlank(r);
    }
  }

  /** No harness fault, and the class the outcome says. */
  lemma GivenClass(o: TrialOutcome, expectedFault: bool, sources: Sources)
    requires Accepted(o, expectedFault, sources) && Reportable(o)
    ensures SavedAnswer(o.submission).Ok? && o.rejected >= 0
    ensures Score(Given(o)).Scored?
    ensures Score(Given(o)).outcome.agent == Some(o.terminal) && Score(Given(o)).outcome.terminal == o.terminal
  {
    LifecycleFacts(o, expectedFault, sources);
    AnswerFacts(o, expectedFault, sources);
    GivenRecord(o);
    GivenCalls(o);
    var x := Given(o);
    if o.terminal in {ValidatedSuccess, DiagnosisFailure} {
      GivenGraded(o, expectedFault, sources);
    }
    hide Accepted, SavedAnswer, Score, References, SelfResolving, Correct, Evidenced, Recorded, Payloads, TableOf,
         Given, GradesAnswer, CheckOf, GradeSaved, Unconfined;
    GivenChecks(o);
    PassingChecks(o);
    NoFault(x);
    ScoredExactly(x);
    AgentClasses(x, TableOf(o), Payloads(o));
    ReportedClass(x);
  }

  lemma PassingChecks(o: TrialOutcome)
    ensures o.validators.scope.Some? && o.evidence.scope.Some? ==>
      var c := CheckOf(o.validators.scope, o.evidence.scope);
      c.Some? && (Fails(c) <==> o.validators.scope == Some(Failing))
    ensures o.validators.safety.Some? && o.evidence.safety.Some? ==>
      var c := CheckOf(o.validators.safety, o.evidence.safety);
      c.Some? && (Fails(c) <==> o.validators.safety == Some(Failing))
    ensures o.validators.cleanup.Some? && o.evidence.cleanup.Some? ==>
      var c := CheckOf(o.validators.cleanup, o.evidence.cleanup);
      c.Some? && (Fails(c) <==> o.validators.cleanup == Some(Failing))
  {
  }

  lemma NoFault(x: Inputs)
    requires (x.gate.Some? ==> x.gate.value.passed) && (x.shellEnabled && x.screen == Off ==> x.gate.Some?)
    requires x.error == None && x.completion.Class? && x.completion.terminal != HarnessFailure
    ensures !Unconfined(x) && !SessionBroke(x)
  {
  }

  lemma GivenCalls(o: TrialOutcome)
    requires SavedAnswer(o.submission).Ok? && o.rejected >= 0
    ensures o.submission.None? ==> (Payloads(o) == [] <==> o.rejected == 0)
    ensures FromCallsOf(o)
    ensures o.submission.None? <==> SavedAnswer(o.submission).value.None?
  {
    GivenRecord(o);
    hide Reparsed, Recorded, SelfResolving, TableOf, SameCanonicalFields;
  }

  ghost predicate FromCallsOf(o: TrialOutcome)
    requires SavedAnswer(o.submission).Ok? && o.rejected >= 0
  {
    FromCalls(Given(o), TableOf(o), Payloads(o))
  }

  lemma GivenChecks(o: TrialOutcome)
    requires SavedAnswer(o.submission).Ok? && o.rejected >= 0
    ensures var x := Given(o);
      && x.completion == Class(o.terminal) && x.error == None && x.gate == o.sandbox && x.budgetStop == o.budgetStop
      && x.shellEnabled == o.shellEnabled && x.screen == o.screen
      && x.scope == CheckOf(o.validators.scope, o.evidence.scope)
      && x.safety == CheckOf(o.validators.safety, o.evidence.safety)
      && x.cleanup == CheckOf(o.validators.cleanup, o.evidence.cleanup)
      && x.grade == GradeSaved(o)
      && x.record == Recorded(TableOf(o), Payloads(o))
  {
    hide SavedAnswer, Recorded, TableOf, Payloads, CheckOf, GradeSaved;
  }

  /** The rebuilt grade belongs to the answer and passes as the outcome says. */
  lemma GivenGraded(o: TrialOutcome, expectedFault: bool, sources: Sources)
    requires Accepted(o, expectedFault, sources) && o.terminal in {ValidatedSuccess, DiagnosisFailure}
    requires o.rejected >= 0
    ensures SavedAnswer(o.submission).Ok?
    ensures var x := Given(o);
      && x.record.submission.Some? && GradesAnswer(x) && x.grade.value.mechanismPassed.Some?
      && (o.terminal == ValidatedSuccess <==> Correct(x.grade.value) && Evidenced(x.grade.value.reviews))
  {
    LifecycleFacts(o, expectedFault, sources);
    MarksTrue(o, expectedFault, sources);
    BothMarks(o, expectedFault, sources);
    GivenRecord(o);
    hide Accepted, SavedAnswer, Identifies, Evidenced, Recorded, Payloads, TableOf, SelfResolving;
  }

  /** The check accepts nothing the scorer could not have reported: every accepted
      outcome that leaves the harness, and says nothing of a grade beside a
      violation, is the report of some session with some checks and some grade. */
  lemma AcceptedIsScored(o: TrialOutcome, expectedFault: bool, sources: Sources)
    requires Accepted(o, expectedFault, sources) && Reportable(o) && NamedSources(sources)
    ensures SavedAnswer(o.submission).Ok? && o.rejected >= 0
    ensures var x := Given(o);
      && x.Valid() && FromCalls(x, TableOf(o), Payloads(o))
      && Score(x).Scored? && SameReport(Score(x).outcome, o)
  {
    GivenValid(o, expectedFault, sources);
    GivenClass(o, expectedFault, sources);
    GivenCalls(o);
    var x := Given(o);
    SessionSame(o);
    ChecksSame(o, expectedFault, sources);
    GradeSame(o, expectedFault, sources);
    LifecycleFacts(o, expectedFault, sources);
    ReportedClass(x);
    hide Accepted, SavedAnswer, Score, Given, Payloads, TableOf, FromCalls, Inputs.Valid, Stands, GradesAnswer, Correct,
         References, SameCanonicalFields, Unconfined, SessionBroke;
  }

  lemma SessionSame(o: TrialOutcome)
    requires SavedAnswer(o.submission).Ok? && o.rejected >= 0 && Score(Given(o)).Scored?
    ensures var a := Score(Given(o)).outcome;
      && a.rejected == o.rejected && a.budgetStop == o.budgetStop && a.sandbox == o.sandbox
      && a.screen == o.screen && a.shellEnabled == o.shellEnabled
      && SameAnswer(a.submission, o.submission)
  {
    hide Score, Given, Payloads, TableOf, Recorded, Reparsed, SelfResolving, AnswerFields, SameCanonicalFields,
         FromCalls;
    GivenRecord(o);
    GivenCalls(o);
    GivenChecks(o);
    SavedFields(o);
    SessionKept(Given(o), TableOf(o), Payloads(o));
    RejectionsCounted(TableOf(o), Payloads(o));
  }

  lemma SavedFields(o: TrialOutcome)
    requires SavedAnswer(o.submission).Ok?
    ensures match SavedAnswer(o.submission).value
      case None => o.submission.None?
      case Some(s) => SameAnswer(Some(Obj(AnswerFields(s))), o.submission)
  {
    hide Reparsed, AnswerFields;
    if o.submission.Some? {
      AnswerKeys(SavedAnswer(o.submission).value.value);
    }
  }

  lemma ChecksSame(o: TrialOutcome, expectedFault: bool, sources: Sources)
    requires Accepted(o, expectedFault, sources) && o.terminal != HarnessFailure
    ensures SavedAnswer(o.submission).Ok? && o.rejected >= 0
    ensures Score(Given(o)).Scored? ==>
      var a := Score(Given(o)).outcome;
      && a.validators.scope == o.validators.scope && a.evidence.scope == o.evidence.scope
      && a.validators.safety == o.validators.safety && a.evidence.safety == o.evidence.safety
      && a.validators.cleanup == o.validators.cleanup && a.evidence.cleanup == o.evidence.cleanup
  {
    LifecycleFacts(o, expectedFault, sources);
    AnswerFacts(o, expectedFault, sources);
    GivenChecks(o);
    hide Accepted, SavedAnswer, Score, Given, References;
    if Score(Given(o)).Scored? {
      ChecksShown(Given(o));
    }
  }

  lemma GradeSame(o: TrialOutcome, expectedFault: bool, sources: Sources)
    requires Accepted(o, expectedFault, sources) && Reportable(o)
    ensures SavedAnswer(o.submission).Ok? && o.rejected >= 0 && Score(Given(o)).Scored?
    ensures var a := Score(Given(o)).outcome;
      && a.validators.diagnosis == o.validators.diagnosis && a.evidence.diagnosis == o.evidence.diagnosis
      && a.validators.evidence == o.validators.evidence && a.evidence.evidence == o.evidence.evidence
  {
    GivenClass(o, expectedFault, sources);
    MarksTrue(o, expectedFault, sources);
    AnswerFacts(o, expectedFault, sources);
    GivenRecord(o);
    GivenChecks(o);
    if o.terminal in {ValidatedSuccess, DiagnosisFailure} {
      BothMarks(o, expectedFault, sources);
    }
    NeverWithout(o, expectedFault, sources);
    hide Accepted, SavedAnswer, Score, Given, Identifies, Evidenced, Isolated;
    GradeShown(Given(o));
  }

  /** A grade is saved only beside an answer's own class, outside violations. */
  lemma NeverWithout(o: TrialOutcome, expectedFault: bool, sources: Sources)
    requires Accepted(o, expectedFault, sources) && Reportable(o)
    ensures o.evidence.diagnosis.Some? <==> o.terminal in {ValidatedSuccess, DiagnosisFailure}
    ensures SavedAnswer(o.submission).Ok? && o.rejected >= 0
    ensures o.terminal != IsolationViolation ==> !Isolated(Given(o))
    ensures o.terminal == IsolationViolation ==> Isolated(Given(o))
  {
    LifecycleFacts(o, expectedFault, sources);
    AnswerFacts(o, expectedFault, sources);
    MarksTrue(o, expectedFault, sources);
    if o.terminal in {ValidatedSuccess, DiagnosisFailure} {
      BothMarks(o, expectedFault, sources);
    }
    GivenChecks(o);
    hide Accepted, SavedAnswer, Given, Identifies, Evidenced, References;
  }

  // All accepted outcomes

  /** Every reference of an accepted outcome, in any gate, was captured and is not
      empty; its grade is for the assigned state; and no free reason is blank. */
  lemma AcceptedReferences(o: TrialOutcome, expectedFault: bool, sources: Sources, name: string)
    requires Accepted(o, expectedFault, sources)
    requires
      || (o.evidence.scope.Some? && name in o.evidence.scope.value)
      || (o.evidence.safety.Some? && name in o.evidence.safety.value)
      || (o.evidence.cleanup.Some? && name in o.evidence.cleanup.value)
      || (o.evidence.diagnosis.Some? && name in o.evidence.diagnosis.value.mechanismExamined)
      || (o.evidence.evidence.Some? && exists r | r in o.evidence.evidence.value :: name in r.examined)
    ensures name in sources && |sources[name]| > 0
    ensures o.evidence.diagnosis.Some? ==> o.evidence.diagnosis.value.expected.faultPresent == expectedFault
  {
    hide SavedAnswer, ClassesConsistent, ReasonsGiven, ConfinementHeld, AgentConsistent, Grade.Valid,
         Grade.DiagnosisPassed, Grade.EvidencePassed;
  }

  /** A harness failure may claim less than the scorer says: this one is accepted,
      with no result and no answer, and no session is scored so. */
  function BareFailure(): TrialOutcome {
    TrialOutcome(false, false, HarnessFailure, [SessionError], None, 0, None, None, On, false, None,
                 Marks(None, None, None, None, None), Evidence(None, None, None, None, None))
  }

  lemma BareFailureAccepted(expectedFault: bool, sources: Sources, x: Inputs, aliases: Aliases, payloads: seq<Json>)
    ensures Accepted(BareFailure(), expectedFault, sources)
    ensures FromCalls(x, aliases, payloads) && Score(x).Scored? ==> !SameReport(Score(x).outcome, BareFailure())
  {
    BareAccepted(expectedFault, sources);
    hide Accepted, FromCalls, Score, SameCanonicalFields;
    if FromCalls(x, aliases, payloads) && Score(x).Scored? {
      BareUnscored(x, aliases, payloads);
    }
  }

  lemma BareAccepted(expectedFault: bool, sources: Sources)
    ensures Accepted(BareFailure(), expectedFault, sources)
  {
    hide Reparsed, AnswerFields, Grade.Valid, Grade.DiagnosisPassed, Grade.EvidencePassed, SameCanonicalFields;
  }

  lemma BareUnscored(x: Inputs, aliases: Aliases, payloads: seq<Json>)
    requires FromCalls(x, aliases, payloads) && Score(x).Scored?
    ensures Score(x).outcome.agent == None ==> Score(x).outcome.submission.Some?
  {
    hide FromCalls, Score, AnswerFields, Correct, Evidenced, Isolated, GradesAnswer;
    AgentClasses(x, aliases, payloads);
    SessionKept(x, aliases, payloads);
  }
}

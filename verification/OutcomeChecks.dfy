/** The journal's own check of a saved outcome (campaign.py, _validate_outcome):
    it re-reads the answer and recomputes the grade. */
module OutcomeChecks {
  import opened Results
  import opened ByteStrings
  import opened Text
  import opened JsonValues
  import opened Submissions
  import opened Diagnosis
  import opened SandboxGates
  import opened TrialOutcomes

  type Sources = map<string, Bytes>

  /** Some source was examined, and every examined source was captured and is not empty. */
  predicate References(refs: seq<string>, sources: Sources) {
    refs != [] && forall r | r in refs :: r in sources && sources[r] != []
  }

  predicate ClassesConsistent(o: TrialOutcome) {
    && o.terminal != RemediationFailure
    && (o.agent.Some? ==> IsAgentClass(o.agent.value))
    && (o.scored <==> o.terminal == ValidatedSuccess)
    && (o.valid <==> o.terminal != HarnessFailure)
    && (o.terminal != HarnessFailure ==> o.agent == Some(o.terminal))
    && o.rejected >= 0
  }

  predicate ReasonsGiven(o: TrialOutcome) {
    && (forall r | r in o.reasons && r.Free? :: !Blank(r.text))
    && (o.terminal == ValidatedSuccess || o.reasons != [])
  }

  predicate ConfinementHeld(o: TrialOutcome) {
    o.terminal == HarnessFailure
    || ((o.sandbox.Some? ==> o.sandbox.value.passed)
        && (o.shellEnabled && o.screen == Off ==> o.sandbox.Some?))
  }

  predicate EvidenceCovers(o: TrialOutcome) {
    && (o.validators.diagnosis.Some? <==> o.evidence.diagnosis.Some?)
    && (o.validators.evidence.Some? <==> o.evidence.evidence.Some?)
    && (o.validators.scope.Some? <==> o.evidence.scope.Some?)
    && (o.validators.safety.Some? <==> o.evidence.safety.Some?)
    && (o.validators.cleanup.Some? <==> o.evidence.cleanup.Some?)
  }

  predicate LifecycleShown(o: TrialOutcome, sources: Sources) {
    && (o.evidence.scope.Some? ==> References(o.evidence.scope.value, sources))
    && (o.evidence.safety.Some? ==> References(o.evidence.safety.value, sources))
    && (o.evidence.cleanup.Some? ==> References(o.evidence.cleanup.value, sources))
    && (o.terminal != HarnessFailure ==>
          && o.validators.scope.Some? && o.validators.safety.Some? && o.validators.cleanup == Some(Passing)
          && (o.terminal != IsolationViolation ==>
                o.validators.scope == Some(Passing) && o.validators.safety == Some(Passing)))
  }

  /** The saved answer re-parses, has exactly the answer's keys, and is canonical
      in every field but the submitted spellings. */
  function SavedAnswer(saved: Option<Json>): Result<Option<Submission>> {
    if saved.None? then Ok(None) else
      :- Need(saved.value.Obj?);
      var fields := saved.value.fields;
      var parsed :- Reparsed(fields);
      :- Need(fields.Keys == ANSWER_KEYS && SameCanonicalFields(fields, AnswerFields(parsed)));
      Ok(Some(parsed))
  }

  predicate SameCanonicalFields(saved: map<Key, Json>, canonical: map<Key, Json>)
    requires saved.Keys == ANSWER_KEYS && canonical.Keys == ANSWER_KEYS
  {
    forall k | k in ANSWER_KEYS && k != SubmittedComponentKey && k != SubmittedEdgeKey :: saved[k] == canonical[k]
  }

  predicate ReviewsExamined(reviews: seq<EvidenceReview>, sources: Sources) {
    forall r | r in reviews :: References(r.examined, sources)
  }

  /** A saved diagnosis grade belongs to the assigned state, names captured
      sources, and its two marks are what the shared gate recomputes. */
  predicate GradeConfirmed(o: TrialOutcome, parsed: Option<Submission>, expectedFault: bool, sources: Sources) {
    o.evidence.diagnosis.Some? || o.evidence.evidence.Some? ==>
      && parsed.Some? && o.evidence.diagnosis.Some? && o.evidence.evidence.Some?
      && var target, reviews := o.evidence.diagnosis.value, o.evidence.evidence.value;
         var grade := DiagnosisGrade(parsed.value, target.expected, reviews,
                                     Some(target.mechanismPassed), target.mechanismExamined);
         && References(target.mechanismExamined, sources)
         && target.expected.faultPresent == expectedFault
         && reviews != [] && ReviewsExamined(reviews, sources)
         && grade.Valid()
         && o.validators.diagnosis == Some(MarkOf(grade.DiagnosisPassed()))
         && o.validators.evidence == Some(MarkOf(grade.EvidencePassed()))
  }

  predicate AgentConsistent(o: TrialOutcome, parsed: Option<Submission>) {
    && (o.agent == Some(ValidatedSuccess) || o.agent == Some(DiagnosisFailure) ==>
          && parsed.Some? && o.validators.diagnosis.Some? && o.validators.evidence.Some?
          && (o.agent == Some(ValidatedSuccess) <==>
                o.validators.diagnosis == Some(Passing) && o.validators.evidence == Some(Passing)))
    && (o.agent.Some? && o.agent.value in {NoSubmission, InvalidOutput, Refusal, BudgetExhaustion} ==> parsed.None?)
    && (o.agent == Some(NoSubmission) ==> o.rejected == 0)
    && (o.agent == Some(InvalidOutput) ==> o.rejected > 0)
  }

  /** The outcomes that may enter the journal for an assignment. */
  predicate Accepted(o: TrialOutcome, expectedFault: bool, sources: Sources) {
    && ClassesConsistent(o)
    && ReasonsGiven(o)
    && ConfinementHeld(o)
    && EvidenceCovers(o)
    && LifecycleShown(o, sources)
    && SavedAnswer(o.submission).Ok?
    && GradeConfirmed(o, SavedAnswer(o.submission).value, expectedFault, sources)
    && AgentConsistent(o, SavedAnswer(o.submission).value)
  }

  /** The check as written: it rebuilds the grade review by review. */
  method ValidateOutcome(o: TrialOutcome, expectedFault: bool, sources: Sources) returns (accepted: bool)
    ensures accepted <==> Accepted(o, expectedFault, sources)
  {
    if !ClassesConsistent(o) || !ReasonsGiven(o) || !ConfinementHeld(o) || !EvidenceCovers(o)
      || !LifecycleShown(o, sources) {
      return false;
    }
    var parsed := ReadSavedAnswer(o.submission);
    if parsed.Err? {
      return false;
    }
    if o.validators.diagnosis.Some? || o.validators.evidence.Some? {
      if parsed.value.None? || o.validators.diagnosis.None? || o.validators.evidence.None? {
        return false;
      }
      var confirmed := RecomputeGrade(o, parsed.value.value, expectedFault, sources);
      if !confirmed {
        return false;
      }
    }
    return AgentConsistent(o, parsed.value);
  }

  method ReadSavedAnswer(saved: Option<Json>) returns (r: Result<Option<Submission>>)
    ensures r == SavedAnswer(saved)
  {
    if saved.None? {
      return Ok(None);
    }
    if !saved.value.Obj? {
      return Err;
    }
    var fields := saved.value.fields;
    var parsed := Reparse(fields);
    if parsed.Err? || fields.Keys != ANSWER_KEYS {
      return Err;
    }
    AnswerKeys(parsed.value);
    if !SameCanonicalFields(fields, AnswerFields(parsed.value)) {
      return Err;
    }
    return Ok(Some(parsed.value));
  }

  method RecomputeGrade(o: TrialOutcome, parsed: Submission, expectedFault: bool, sources: Sources)
    returns (confirmed: bool)
    requires o.evidence.diagnosis.Some? && o.evidence.evidence.Some?
    ensures confirmed <==> GradeConfirmed(o, Some(parsed), expectedFault, sources)
  {
    var target, reviews := o.evidence.diagnosis.value, o.evidence.evidence.value;
    if !References(target.mechanismExamined, sources) || !target.expected.Valid()
       || target.expected.faultPresent != expectedFault || reviews == [] {
      return false;
    }
    var results: seq<EvidenceReview> := [];
    for i := 0 to |reviews|
      invariant results == reviews[..i]
      invariant ReviewsExamined(results, sources) && forall r | r in results :: r.Valid()
    {
      assert reviews[i] in reviews;
      if !References(reviews[i].examined, sources) || !reviews[i].Valid() {
        return false;
      }
      results := results + [reviews[i]];
    }
    assert results == reviews;
    var grade := DiagnosisGrade(parsed, target.expected, results, Some(target.mechanismPassed),
      target.mechanismExamined);
    return grade.Valid()
      && o.validators.diagnosis == Some(MarkOf(grade.DiagnosisPassed()))
      && o.validators.evidence == Some(MarkOf(grade.EvidencePassed()));
  }

  /** An accepted success really passed: all five gates, no failed sandbox gate,
      and the re-read answer hits the assigned state's declared target with every
      citation's review positive. */
  lemma AcceptedSuccess(o: TrialOutcome, expectedFault: bool, sources: Sources)
    requires Accepted(o, expectedFault, sources) && o.terminal == ValidatedSuccess
    ensures o.validators == Marks(Some(Passing), Some(Passing), Some(Passing), Some(Passing), Some(Passing))
    ensures o.sandbox.Some? ==> o.sandbox.value.passed
    ensures SavedAnswer(o.submission).Ok? && SavedAnswer(o.submission).value.Some?
    ensures var answer, target := SavedAnswer(o.submission).value.value, o.evidence.diagnosis.value;
      && target.expected.faultPresent == expectedFault && target.expected.MatchedBy(answer)
      && target.mechanismPassed
      && Reviews(o.evidence.evidence.value, answer.evidence)
      && forall r | r in o.evidence.evidence.value :: r.Passed() && References(r.examined, sources)
  {
  }
}

/** What the scorer reports, from its inputs alone (trial_outcome.py, score_trial). */
module OutcomeClasses {
  import opened Results
  import opened JsonValues
  import opened Submissions
  import opened ComponentMaps
  import opened Diagnosis
  import opened DiagnosisTargets
  import opened SandboxGates
  import opened TrialOutcomes
  import opened ScoringRefinement

  // Conditions on what the scorer is given

  predicate Fails(check: Option<ValidationCheck>) {
    check.Some? && !check.value.passed
  }

  /** The adapter reported an isolation attempt, or a mutation or safety check failed. */
  predicate Isolated(x: Inputs) {
    x.completion == Class(IsolationViolation) || Fails(x.scope) || Fails(x.safety)
  }

  /** The answer was accepted and nothing overtook it. */
  predicate Stands(x: Inputs) {
    !Isolated(x) && x.record.submission.Some?
  }

  predicate GradesAnswer(x: Inputs) {
    x.grade.Some? && x.record.submission == Some(x.grade.value.submission)
  }

  /** The diagnosis gate, in the fields of the grade. */
  predicate Correct(g: Grade) {
    Identifies(g.expected, g.submission) && g.mechanismPassed == Some(true)
  }

  /** The evidence gate, in the fields of its reviews. */
  predicate Evidenced(reviews: seq<EvidenceReview>) {
    && |reviews| > 0
    && forall i | 0 <= i < |reviews| :: reviews[i].present && reviews[i].relevant && reviews[i].supported
  }

  predicate SessionBroke(x: Inputs) {
    || x.error !in {None, Some("")}
    || x.completion in {LegacyError, LegacyAdapterFailure, Class(HarnessFailure)}
  }

  predicate Unconfined(x: Inputs) {
    match x.gate
    case Some(result) => !result.passed
    case None => x.shellEnabled && x.screen == Off
  }

  // The class

  /** Each class of the agent's own result, and when it is reported. An attempt
      without an answer is named by the adapter's refusal or budget stop; otherwise
      by whether the submit tool was called at all. */
  lemma AgentClasses(x: Inputs, aliases: Aliases, payloads: seq<Json>)
    requires Score(x).Scored? && FromCalls(x, aliases, payloads)
    ensures var agent, answer := Score(x).outcome.agent, x.record.submission;
      var silent := !Isolated(x) && answer.None? && x.completion !in {Class(Refusal), Class(BudgetExhaustion)};
      && (agent == Some(IsolationViolation) <==> Isolated(x))
      && (agent == None <==> Stands(x) && !GradesAnswer(x))
      && (agent == Some(ValidatedSuccess) <==>
            Stands(x) && GradesAnswer(x) && Correct(x.grade.value) && Evidenced(x.grade.value.reviews))
      && (agent == Some(DiagnosisFailure) <==>
            Stands(x) && GradesAnswer(x) && !(Correct(x.grade.value) && Evidenced(x.grade.value.reviews)))
      && (agent == Some(Refusal) <==> !Isolated(x) && answer.None? && x.completion == Class(Refusal))
      && (agent == Some(BudgetExhaustion) <==> !Isolated(x) && answer.None? && x.completion == Class(BudgetExhaustion))
      && (agent == Some(InvalidOutput) <==> silent && payloads != [])
      && (agent == Some(NoSubmission) <==> silent && payloads == [])
      && agent != Some(HarnessFailure) && agent != Some(RemediationFailure)
  {
    RejectionsCounted(aliases, payloads);
    if x.grade.Some? {
      DiagnosisExactly(x.grade.value);
      EvidenceExactly(x.grade.value);
    }
    hide Identifies, Grade.DiagnosisPassed, Grade.EvidencePassed, Evidenced, SelfResolving, Recorded, Rejections,
         HarnessReasons, AgentReasons;
  }

  /** A harness fault, and only that, replaces the agent's result; only a success is
      scored, and only a harness failure is invalid. */
  lemma ReportedClass(x: Inputs)
    requires Score(x).Scored?
    ensures var o := Score(x).outcome;
      && (o.terminal == HarnessFailure <==>
            || Unconfined(x) || SessionBroke(x)
            || x.scope.None? || x.safety.None? || x.cleanup.None? || Fails(x.cleanup)
            || (Stands(x) && !GradesAnswer(x)))
      && (o.terminal != HarnessFailure ==> o.agent == Some(o.terminal))
      && (o.scored <==> o.terminal == ValidatedSuccess) && (o.valid <==> o.terminal != HarnessFailure)
  {
    hide Grade.DiagnosisPassed, Grade.EvidencePassed, Rejections, HarnessReasons, AgentReasons;
  }

  /** The scorer refuses remediation, and waits for review exactly when an answer
      that stands has its grade but no mechanism decision. */
  lemma ScoredExactly(x: Inputs)
    ensures Score(x).Refused? <==> x.completion == Class(RemediationFailure)
    ensures Score(x).ReviewRequired? <==>
      && x.completion != Class(RemediationFailure)
      && Stands(x) && GradesAnswer(x) && x.grade.value.mechanismPassed.None?
  {
  }

  // The record

  /** The outcome carries the answer, the calls and the session as they were given. */
  lemma SessionKept(x: Inputs, aliases: Aliases, payloads: seq<Json>)
    requires Score(x).Scored? && FromCalls(x, aliases, payloads)
    ensures var o := Score(x).outcome;
      && (match x.record.submission
          case None => o.submission == None && o.rejected == |payloads|
          case Some(s) => o.submission == Some(Obj(AnswerFields(s))) && o.rejected == |payloads| - 1)
      && o.budgetStop == x.budgetStop && o.sandbox == x.gate && o.screen == x.screen
      && o.shellEnabled == x.shellEnabled
  {
    RejectionsCounted(aliases, payloads);
    hide SelfResolving, Recorded, Rejections, HarnessReasons, AgentReasons, AgentResult, AnswerFields;
  }

  predicate Shows(mark: Option<Mark>, check: Option<ValidationCheck>) {
    mark == match check case None => None case Some(c) => Some(if c.passed then Passing else Failing)
  }

  predicate Names(refs: Option<seq<string>>, check: Option<ValidationCheck>) {
    refs == match check case None => None case Some(c) => Some(c.examined)
  }

  /** Each check leaves its own mark and the references it examined. */
  lemma ChecksShown(x: Inputs)
    requires Score(x).Scored?
    ensures var o := Score(x).outcome;
      && Shows(o.validators.scope, x.scope) && Names(o.evidence.scope, x.scope)
      && Shows(o.validators.safety, x.safety) && Names(o.evidence.safety, x.safety)
      && Shows(o.validators.cleanup, x.cleanup) && Names(o.evidence.cleanup, x.cleanup)
  {
    hide HarnessReasons, AgentReasons, AgentResult;
  }

  /** An answer that stands with its grade leaves both diagnosis marks, the declared
      target, the mechanism decision and every citation's review; nothing else does. */
  lemma GradeShown(x: Inputs)
    requires Score(x).Scored?
    ensures var o := Score(x).outcome;
      if Stands(x) && GradesAnswer(x) then
        var g := x.grade.value;
        && o.validators.diagnosis == Some(if Correct(g) then Passing else Failing)
        && o.validators.evidence == Some(if Evidenced(g.reviews) then Passing else Failing)
        && o.evidence.diagnosis.Some? && o.evidence.diagnosis.value.expected == g.expected
        && g.mechanismPassed == Some(o.evidence.diagnosis.value.mechanismPassed)
        && o.evidence.diagnosis.value.mechanismExamined == g.mechanismEvidence
        && o.evidence.evidence == Some(g.reviews)
      else
        && o.validators.diagnosis == None && o.validators.evidence == None
        && o.evidence.diagnosis == None && o.evidence.evidence == None
  {
    if x.grade.Some? {
      DiagnosisExactly(x.grade.value);
      EvidenceExactly(x.grade.value);
    }
    hide Identifies, Grade.DiagnosisPassed, Grade.EvidencePassed, Evidenced, HarnessReasons, AgentReasons, AgentResult;
  }

  predicate StoppedEarly(agent: Option<Terminal>) {
    agent == Some(Refusal) || agent == Some(BudgetExhaustion)
  }

  /** The cause of each reason, after `calls` submit calls and the agent's own result. */
  predicate Cause(x: Inputs, calls: nat, agent: Option<Terminal>, r: Reason) {
    match r
    case SandboxFailed => x.gate.Some? && !x.gate.value.passed
    case ConfinementUnrecorded => x.gate.None? && x.shellEnabled && x.screen == Off
    case SessionError => SessionBroke(x)
    case MissingCheck(gate) =>
      || (gate == ScopeGate && x.scope.None?)
      || (gate == SafetyGate && x.safety.None?)
      || (gate == CleanupGate && x.cleanup.None?)
    case CleanupFailed => Fails(x.cleanup)
    case MissingGrade => Stands(x) && x.grade.None?
    case ForeignGrade => Stands(x) && x.grade.Some? && !GradesAnswer(x)
    case Prohibited => agent == Some(IsolationViolation)
    case NotPassed => agent == Some(DiagnosisFailure)
    case NeverSubmitted => agent == Some(NoSubmission)
    case Rejected(count) => agent == Some(InvalidOutput) && count == calls
    case Free(text) => StoppedEarly(agent) && x.budgetStop == Some(text) && text != ""
    case Stopped(t) => StoppedEarly(agent) && agent == Some(t) && (x.budgetStop.None? || x.budgetStop.value == "")
  }

  lemma MissingReasons(x: Inputs)
    ensures forall r :: r in MissingChecks(x) <==> r.MissingCheck? && Cause(x, 0, None, r)
  {
    assert forall r :: r in MissingChecks(x) <==>
      || (r == MissingCheck(ScopeGate) && x.scope.None?)
      || (r == MissingCheck(SafetyGate) && x.safety.None?)
      || (r == MissingCheck(CleanupGate) && x.cleanup.None?);
  }

  lemma EnvironmentReasonsGiven(x: Inputs)
    ensures forall r :: r in EnvironmentReasons(x) <==>
      (r.SandboxFailed? || r.ConfinementUnrecorded? || r.SessionError? || r.MissingCheck? || r.CleanupFailed?)
      && Cause(x, 0, None, r)
  {
    MissingReasons(x);
    hide MissingChecks;
    var a, b, c := Sandboxed(x), SessionFault(x), CleanupFault(x);
    assert EnvironmentReasons(x) == a + b + MissingChecks(x) + c;
    Joined(a, b, MissingChecks(x), c);
    SingleFaults(x);
    hide EnvironmentReasons, Cause, Sandboxed, SessionFault, CleanupFault;
  }

  function OneIf(applies: bool, reason: Reason): (r: seq<Reason>)
    ensures forall q :: q in r <==> applies && q == reason
  {
    if applies then [reason] else []
  }

  function Sandboxed(x: Inputs): seq<Reason> {
    if x.gate.Some? then OneIf(!x.gate.value.passed, SandboxFailed)
    else OneIf(x.shellEnabled && x.screen == Off, ConfinementUnrecorded)
  }

  function SessionFault(x: Inputs): seq<Reason> {
    OneIf(x.SessionFailed(), SessionError)
  }

  function CleanupFault(x: Inputs): seq<Reason> {
    OneIf(x.cleanup.Some? && !x.cleanup.value.passed, CleanupFailed)
  }

  lemma SingleFaults(x: Inputs)
    ensures forall r :: r in Sandboxed(x) <==> (r.SandboxFailed? || r.ConfinementUnrecorded?) && Cause(x, 0, None, r)
    ensures forall r :: r in SessionFault(x) <==> r.SessionError? && Cause(x, 0, None, r)
    ensures forall r :: r in CleanupFault(x) <==> r.CleanupFailed? && Cause(x, 0, None, r)
  {
    hide OneIf;
    assert x.SessionFailed() <==> SessionBroke(x);
    forall r
      ensures r in SessionFault(x) <==> r.SessionError? && Cause(x, 0, None, r)
      ensures r in CleanupFault(x) <==> r.CleanupFailed? && Cause(x, 0, None, r)
      ensures r in Sandboxed(x) <==> (r.SandboxFailed? || r.ConfinementUnrecorded?) && Cause(x, 0, None, r)
    {
    }
  }

  lemma Joined(a: seq<Reason>, b: seq<Reason>, c: seq<Reason>, d: seq<Reason>)
    ensures forall r :: r in a + b + c + d <==> r in a || r in b || r in c || r in d
  {
  }

  lemma AgentReasonsGiven(x: Inputs)
    requires !x.AwaitsReview()
    ensures forall r :: r in AgentReasons(x) <==>
      (r.Prohibited? || r.NotPassed? || r.NeverSubmitted? || r.Rejected? || r.Free? || r.Stopped?)
      && Cause(x, Rejections(x.record.calls), AgentResult(x), r)
  {
    hide AgentResult, Rejections;
    NeverHarness(x);
    assert AgentReasons(x)
      == OneIf(AgentResult(x).Some? && AgentResult(x).value != ValidatedSuccess, AgentReason(x));
    hide AgentReasons, OneIf;
  }

  /** The agent's own reason, if its result needs one. */
  function AgentReason(x: Inputs): Reason
    requires !x.AwaitsReview()
  {
    var agent := AgentResult(x);
    if agent == Some(IsolationViolation) then Prohibited
    else if agent == Some(DiagnosisFailure) then NotPassed
    else if agent == Some(InvalidOutput) then Rejected(Rejections(x.record.calls))
    else if agent == Some(NoSubmission) || agent.None? then NeverSubmitted
    else if x.budgetStop.None? || x.budgetStop.value == "" then Stopped(agent.value)
    else Free(x.budgetStop.value)
  }

  lemma NeverHarness(x: Inputs)
    requires !x.AwaitsReview()
    ensures AgentResult(x) != Some(HarnessFailure) && AgentResult(x) != Some(RemediationFailure)
  {
  }

  lemma MissingGradesGiven(x: Inputs)
    ensures forall r :: r in MissingGrades(x) <==>
      (r.MissingGrade? || r.ForeignGrade?) && Cause(x, 0, None, r)
  {
  }

  /** Every reason is given exactly when its cause is there. */
  lemma ReasonsShown(x: Inputs, aliases: Aliases, payloads: seq<Json>)
    requires Score(x).Scored? && FromCalls(x, aliases, payloads)
    ensures var o := Score(x).outcome;
      forall r :: r in o.reasons <==> Cause(x, |payloads|, o.agent, r)
  {
    RejectionsCounted(aliases, payloads);
    ReasonsJoined(x);
    EnvironmentReasonsGiven(x);
    MissingGradesGiven(x);
    AgentReasonsGiven(x);
    var o := Score(x).outcome;
    NoAnswerRejected(x);
    hide Cause, SelfResolving, Recorded, Rejections, EnvironmentReasons, AgentReasons, MissingGrades, AgentResult,
         Score;
    forall r
      ensures r in o.reasons <==> Cause(x, |payloads|, o.agent, r)
    {
      CauseLocal(x, |payloads|, Rejections(x.record.calls), o.agent, r);
    }
  }

  /** Only the count of a rejection depends on the calls, and environment reasons on no result. */
  lemma CauseLocal(x: Inputs, calls: nat, rejected: nat, agent: Option<Terminal>, r: Reason)
    requires agent == Some(InvalidOutput) ==> calls == rejected
    ensures Cause(x, calls, agent, r) <==> Cause(x, rejected, agent, r)
    ensures !(r.Prohibited? || r.NotPassed? || r.NeverSubmitted? || r.Rejected? || r.Free? || r.Stopped?) ==>
      (Cause(x, 0, None, r) <==> Cause(x, calls, agent, r))
  {
  }

  lemma NoAnswerRejected(x: Inputs)
    requires !x.AwaitsReview()
    ensures AgentResult(x) == Some(InvalidOutput) ==> x.record.submission.None?
  {
  }

  lemma ReasonsJoined(x: Inputs)
    requires Score(x).Scored?
    ensures Score(x).outcome.agent == AgentResult(x) && !x.AwaitsReview()
    ensures forall r :: r in Score(x).outcome.reasons <==>
      r in EnvironmentReasons(x) || r in MissingGrades(x) || r in AgentReasons(x)
  {
    hide EnvironmentReasons, AgentReasons, AgentResult, MissingGrades;
  }
}

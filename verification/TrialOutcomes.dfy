/** Resolving one diagnosis attempt (trial_outcome.py). */
module TrialOutcomes {
  import opened Results
  import opened JsonValues
  import opened Submissions
  import opened Diagnosis
  import opened SandboxGates

  datatype Terminal =
    | HarnessFailure | IsolationViolation | NoSubmission | InvalidOutput | Refusal
    | BudgetExhaustion | DiagnosisFailure | RemediationFailure | ValidatedSuccess

  /** The classes that end an assignment with an agent result. */
  predicate IsAgentClass(t: Terminal) {
    t != HarnessFailure && t != RemediationFailure
  }

  /** What the adapter reported, including its two legacy failure labels. */
  datatype Completion = Class(terminal: Terminal) | LegacyError | LegacyAdapterFailure

  datatype ValidationCheck = ValidationCheck(passed: bool, examined: seq<string>) {
    predicate Valid() {
      ExaminedReferences(examined)
    }
  }

  datatype GateName = DiagnosisGate | EvidenceGate | ScopeGate | SafetyGate | CleanupGate

  datatype Mark = Passing | Failing

  function MarkOf(passed: bool): Mark {
    if passed then Passing else Failing
  }

  /** Fixed reason texts are never blank; free text may be. */
  datatype Reason =
    | SandboxFailed | ConfinementUnrecorded | SessionError | MissingCheck(gate: GateName) | CleanupFailed
    | MissingGrade | ForeignGrade | Prohibited | NotPassed | Stopped(terminal: Terminal) | Rejected(count: int)
    | NeverSubmitted
    | Free(text: string)

  /** The `validators` dictionary: a mark for each gate it holds. */
  datatype Marks = Marks(
    diagnosis: Option<Mark>,
    evidence: Option<Mark>,
    scope: Option<Mark>,
    safety: Option<Mark>,
    cleanup: Option<Mark>)

  /** The saved target and the mechanism review of a grade. */
  datatype Target = Target(expected: ExpectedDiagnosis, mechanismPassed: bool, mechanismExamined: seq<string>)

  /** The `validatorEvidence` dictionary. */
  datatype Evidence = Evidence(
    diagnosis: Option<Target>,
    evidence: Option<seq<EvidenceReview>>,
    scope: Option<seq<string>>,
    safety: Option<seq<string>>,
    cleanup: Option<seq<string>>)

  datatype TrialOutcome = TrialOutcome(
    scored: bool,
    valid: bool,
    terminal: Terminal,
    reasons: seq<Reason>,
    submission: Option<Json>,
    rejected: int,
    budgetStop: Option<string>,
    sandbox: Option<SandboxResult>,
    screen: Screen,
    shellEnabled: bool,
    agent: Option<Terminal>,
    validators: Marks,
    evidence: Evidence)

  datatype Inputs = Inputs(
    completion: Completion,
    record: Record,
    gate: Option<SandboxResult>,
    budgetStop: Option<string>,
    error: Option<string>,
    shellEnabled: bool,
    screen: Screen,
    grade: Option<Grade>,
    scope: Option<ValidationCheck>,
    safety: Option<ValidationCheck>,
    cleanup: Option<ValidationCheck>)
  {
    /** The constructors' own checks on what the caller passes. */
    predicate Valid() {
      && (grade.Some? ==> grade.value.Valid())
      && (forall c | c in [scope, safety, cleanup] && c.Some? :: c.value.Valid())
    }

    predicate Violation() {
      || completion == Class(IsolationViolation)
      || (scope.Some? && !scope.value.passed)
      || (safety.Some? && !safety.value.passed)
    }

    /** The answer reaches the diagnosis gate: accepted, and not overtaken by a violation. */
    predicate Answered() {
      !Violation() && record.submission.Some?
    }

    predicate OwnGrade() {
      grade.Some? && Some(grade.value.submission) == record.submission
    }

    predicate Graded() {
      Answered() && OwnGrade() && grade.value.mechanismPassed.Some?
    }

    predicate AwaitsReview() {
      Answered() && OwnGrade() && grade.value.mechanismPassed.None?
    }

    predicate StoppedEarly() {
      !Violation() && record.submission.None?
      && (completion == Class(BudgetExhaustion) || completion == Class(Refusal))
    }

    predicate SessionFailed() {
      || (error.Some? && error.value != "")
      || completion == LegacyError || completion == LegacyAdapterFailure || completion == Class(HarnessFailure)
    }

    predicate HarnessFault() {
      || (if gate.Some? then !gate.value.passed else shellEnabled && screen == Off)
      || SessionFailed()
      || scope.None? || safety.None? || cleanup.None?
      || (cleanup.Some? && !cleanup.value.passed)
      || (Answered() && !OwnGrade())
    }
  }

  datatype Scored = Scored(outcome: TrialOutcome) | ReviewRequired | Refused

  /** The agent's own result, independent of harness faults. */
  function AgentResult(x: Inputs): Option<Terminal>
    requires !x.AwaitsReview()
  {
    if x.Violation() then Some(IsolationViolation)
    else if x.record.submission.Some? then
      if !x.OwnGrade() then None
      else if x.grade.value.DiagnosisPassed() && x.grade.value.EvidencePassed() then Some(ValidatedSuccess)
      else Some(DiagnosisFailure)
    else if x.StoppedEarly() then Some(x.completion.terminal)
    else if Rejections(x.record.calls) > 0 then Some(InvalidOutput)
    else Some(NoSubmission)
  }

  function AgentReasons(x: Inputs): seq<Reason>
    requires !x.AwaitsReview()
  {
    match AgentResult(x)
    case None => []
    case Some(t) =>
      if t == IsolationViolation then [Prohibited]
      else if t == DiagnosisFailure then [NotPassed]
      else if t == BudgetExhaustion || t == Refusal then
        [if x.budgetStop.Some? && x.budgetStop.value != "" then Free(x.budgetStop.value) else Stopped(t)]
      else if t == InvalidOutput then [Rejected(Rejections(x.record.calls))]
      else if t == NoSubmission then [NeverSubmitted]
      else []
  }

  function MissingChecks(x: Inputs): (r: seq<Reason>)
    ensures r == [] <==> x.scope.Some? && x.safety.Some? && x.cleanup.Some?
    ensures forall reason | reason in r :: !reason.Free?
  {
    (if x.scope.None? then [MissingCheck(ScopeGate)] else [])
    + (if x.safety.None? then [MissingCheck(SafetyGate)] else [])
    + (if x.cleanup.None? then [MissingCheck(CleanupGate)] else [])
  }

  function MissingGrades(x: Inputs): seq<Reason> {
    if x.Answered() && x.grade.None? then [MissingGrade]
    else if x.Answered() && !x.OwnGrade() then [ForeignGrade] else []
  }

  /** The faults outside the answer: confinement, session, missing checks, cleanup. */
  function EnvironmentReasons(x: Inputs): (r: seq<Reason>)
    ensures forall reason | reason in r :: !reason.Free?
  {
    (if x.gate.Some? && !x.gate.value.passed then [SandboxFailed]
     else if x.gate.None? && x.shellEnabled && x.screen == Off then [ConfinementUnrecorded] else [])
    + (if x.SessionFailed() then [SessionError] else [])
    + MissingChecks(x)
    + (if x.cleanup.Some? && !x.cleanup.value.passed then [CleanupFailed] else [])
  }

  /** Every harness fault, in the order the scorer looks for them. */
  function HarnessReasons(x: Inputs): (r: seq<Reason>)
    ensures r == [] <==> !x.HarnessFault()
    ensures forall reason | reason in r :: !reason.Free?
  {
    EnvironmentReasons(x) + MissingGrades(x)
  }

  function CheckMark(check: Option<ValidationCheck>): Option<Mark> {
    if check.Some? then Some(MarkOf(check.value.passed)) else None
  }

  function CheckEvidence(check: Option<ValidationCheck>): Option<seq<string>> {
    if check.Some? then Some(check.value.examined) else None
  }

  /** The gate results: each supplied check, and both diagnosis gates when graded. */
  function MarksFor(x: Inputs): Marks {
    Marks(
      if x.Graded() then Some(MarkOf(x.grade.value.DiagnosisPassed())) else None,
      if x.Graded() then Some(MarkOf(x.grade.value.EvidencePassed())) else None,
      CheckMark(x.scope), CheckMark(x.safety), CheckMark(x.cleanup))
  }

  function EvidenceFor(x: Inputs): Evidence {
    Evidence(
      if x.Graded() then Some(Target(x.grade.value.expected, x.grade.value.mechanismPassed.value,
                                     x.grade.value.mechanismEvidence)) else None,
      if x.Graded() then Some(x.grade.value.reviews) else None,
      CheckEvidence(x.scope), CheckEvidence(x.safety), CheckEvidence(x.cleanup))
  }

  function AnswerJson(s: Option<Submission>): Option<Json> {
    if s.Some? then Some(Obj(AnswerFields(s.value))) else None
  }

  /** What the scorer reports: a harness fault overrides the class but keeps the
      agent's own result beside it. */
  function Score(x: Inputs): Scored {
    if x.completion == Class(RemediationFailure) then Refused
    else if x.AwaitsReview() then ReviewRequired
    else
      var agent := AgentResult(x);
      var terminal := if x.HarnessFault() then HarnessFailure else agent.value;
      Scored(TrialOutcome(
        terminal == ValidatedSuccess, terminal != HarnessFailure, terminal,
        HarnessReasons(x) + AgentReasons(x), AnswerJson(x.record.submission),
        Rejections(x.record.calls), x.budgetStop, x.gate, x.screen, x.shellEnabled,
        agent, MarksFor(x), EvidenceFor(x)))
  }

  /** The scorer's choice of the agent's result: a violation first, then an
      accepted answer's grade, then how the attempt ended without one. */
  method ClassifyAgent(x: Inputs) returns (agent: Option<Terminal>, reasons: seq<Reason>, missing: seq<Reason>)
    requires !x.AwaitsReview()
    ensures agent == AgentResult(x) && reasons == AgentReasons(x) && missing == MissingGrades(x)
  {
    agent, reasons, missing := None, [], [];
    var rejected := Rejections(x.record.calls);
    if x.Violation() {
      agent := Some(IsolationViolation);
      reasons := reasons + [Prohibited];
    } else if x.record.submission.Some? {
      if x.grade.None? {
        missing := missing + [MissingGrade];
      } else if x.grade.value.submission != x.record.submission.value {
        missing := missing + [ForeignGrade];
      } else if x.grade.value.DiagnosisPassed() && x.grade.value.EvidencePassed() {
        agent := Some(ValidatedSuccess);
      } else {
        agent := Some(DiagnosisFailure);
        reasons := reasons + [NotPassed];
      }
    } else if x.completion == Class(BudgetExhaustion) || x.completion == Class(Refusal) {
      agent := Some(x.completion.terminal);
      if x.budgetStop.Some? && x.budgetStop.value != "" {
        reasons := reasons + [Free(x.budgetStop.value)];
      } else {
        reasons := reasons + [Stopped(x.completion.terminal)];
      }
    } else if rejected > 0 {
      agent := Some(InvalidOutput);
      reasons := reasons + [Rejected(rejected)];
    } else {
      agent := Some(NoSubmission);
      reasons := reasons + [NeverSubmitted];
    }
  }

  /** The scorer's loop over the three supplied lifecycle checks. */
  method CollectChecks(x: Inputs) returns (missing: seq<Reason>, validators: Marks, evidence: Evidence)
    ensures missing == MissingChecks(x)
    ensures validators == Marks(None, None, CheckMark(x.scope), CheckMark(x.safety), CheckMark(x.cleanup))
    ensures evidence == Evidence(None, None, CheckEvidence(x.scope), CheckEvidence(x.safety), CheckEvidence(x.cleanup))
  {
    missing := [];
    validators := Marks(None, None, None, None, None);
    evidence := Evidence(None, None, None, None, None);
    if x.scope.None? {
      missing := missing + [MissingCheck(ScopeGate)];
    } else {
      validators := validators.(scope := Some(MarkOf(x.scope.value.passed)));
      evidence := evidence.(scope := Some(x.scope.value.examined));
    }
    if x.safety.None? {
      missing := missing + [MissingCheck(SafetyGate)];
    } else {
      validators := validators.(safety := Some(MarkOf(x.safety.value.passed)));
      evidence := evidence.(safety := Some(x.safety.value.examined));
    }
    if x.cleanup.None? {
      missing := missing + [MissingCheck(CleanupGate)];
    } else {
      validators := validators.(cleanup := Some(MarkOf(x.cleanup.value.passed)));
      evidence := evidence.(cleanup := Some(x.cleanup.value.examined));
    }
  }

  method CheckEnvironment(x: Inputs) returns (harness: seq<Reason>, validators: Marks, evidence: Evidence)
    ensures harness == EnvironmentReasons(x)
    ensures validators == Marks(None, None, CheckMark(x.scope), CheckMark(x.safety), CheckMark(x.cleanup))
    ensures evidence == Evidence(None, None, CheckEvidence(x.scope), CheckEvidence(x.safety), CheckEvidence(x.cleanup))
  {
    harness := [];
    if x.gate.Some? && !x.gate.value.passed {
      harness := harness + [SandboxFailed];
    } else if x.gate.None? && x.shellEnabled && x.screen == Off {
      harness := harness + [ConfinementUnrecorded];
    }
    if x.SessionFailed() {
      harness := harness + [SessionError];
    }
    var missing: seq<Reason>;
    missing, validators, evidence := CollectChecks(x);
    harness := harness + missing;
    if x.cleanup.Some? && !x.cleanup.value.passed {
      harness := harness + [CleanupFailed];
    }
  }

  /** The scorer as written: reasons and gates accumulate branch by branch. */
  method ScoreTrial(x: Inputs) returns (r: Scored)
    ensures r == Score(x)
  {
    if x.completion == Class(RemediationFailure) {
      return Refused;
    }
    if x.AwaitsReview() {
      return ReviewRequired;
    }
    var harness, validators, evidence := CheckEnvironment(x);
    var agent, reasons, ungraded := ClassifyAgent(x);
    harness := harness + ungraded;
    if x.Graded() {
      var grade := x.grade.value;
      validators := validators.(diagnosis := Some(MarkOf(grade.DiagnosisPassed())),
                                evidence := Some(MarkOf(grade.EvidencePassed())));
      var target := Target(grade.expected, grade.mechanismPassed.value, grade.mechanismEvidence);
      evidence := evidence.(diagnosis := Some(target), evidence := Some(grade.reviews));
    }
    var terminal := if harness != [] then HarnessFailure else agent.value;
    return Scored(TrialOutcome(
      terminal == ValidatedSuccess, terminal != HarnessFailure, terminal, harness + reasons,
      AnswerJson(x.record.submission), Rejections(x.record.calls), x.budgetStop, x.gate, x.screen, x.shellEnabled,
      agent, validators, evidence));
  }
}

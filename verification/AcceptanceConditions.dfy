/** Exactly which outcomes may enter the journal, gate by gate and class by class
    (campaign.py, _validate_outcome). */
module AcceptanceConditions {
  import Numbers
  import opened Results
  import opened Text
  import opened ComponentMaps
  import opened JsonValues
  import opened Submissions
  import opened Diagnosis
  import opened DiagnosisTargets
  import opened SandboxGates
  import opened TrialOutcomes
  import opened OutcomeChecks
  import opened OutcomeClasses

  // The saved answer

  /** Some table of the fixture may have given this answer these names. */
  ghost predicate IsCanonical(s: Submission) {
    s == InCanonicalNames(s) && exists aliases :: CanonicalAnswer(s, aliases)
  }

  /** The saved form of the answer, whatever spellings were submitted. */
  predicate SavedForm(fields: map<Key, Json>, s: Submission) {
    && fields.Keys == AnswerFields(s).Keys
    && forall k | k in fields && k != SubmittedComponentKey && k != SubmittedEdgeKey :: fields[k] == AnswerFields(s)[k]
  }

  /** The parser sees the same in every part it reads. */
  predicate SameParts(f: map<Key, Json>, g: map<Key, Json>) {
    && Get(f, FaultKey) == Get(g, FaultKey) && Get(f, ConfidenceKey) == Get(g, ConfidenceKey)
    && Get(f, EvidenceKey) == Get(g, EvidenceKey) && Get(f, CategoryKey) == Get(g, CategoryKey)
    && Get(f, ComponentKey) == Get(g, ComponentKey) && Get(f, RemediationKey) == Get(g, RemediationKey)
    && Get(f, EdgeKey) == Get(g, EdgeKey)
  }

  lemma SameGets(f: map<Key, Json>, g: map<Key, Json>)
    requires f.Keys == g.Keys == ANSWER_KEYS && SameCanonicalFields(f, g)
    ensures SameParts(f, g)
  {
    assert FaultKey in ANSWER_KEYS && ConfidenceKey in ANSWER_KEYS && EvidenceKey in ANSWER_KEYS;
    assert CategoryKey in ANSWER_KEYS && ComponentKey in ANSWER_KEYS && RemediationKey in ANSWER_KEYS;
    assert EdgeKey in ANSWER_KEYS;
  }

  lemma SameClaims(f: map<Key, Json>, g: map<Key, Json>, evidence: seq<Citation>, confidence: Numbers.Number,
                   aliases: Aliases)
    requires SameParts(f, g)
    ensures ParseFault(f, evidence, confidence, aliases) == ParseFault(g, evidence, confidence, aliases)
    ensures ParseHealthy(f, evidence, confidence) == ParseHealthy(g, evidence, confidence)
  {
    hide Get, RequireText, ParseConnection, ResolveConnection, Canonical, CausalCategories, Blank;
  }

  lemma SameValidated(f: map<Key, Json>, g: map<Key, Json>, aliases: Aliases)
    requires SameParts(f, g)
    ensures Validated(Obj(f), aliases) == Validated(Obj(g), aliases)
  {
    hide Get, ParseCitations, ParseFault, ParseHealthy;
    forall evidence, confidence
      ensures ParseFault(f, evidence, confidence, aliases) == ParseFault(g, evidence, confidence, aliases)
      ensures ParseHealthy(f, evidence, confidence) == ParseHealthy(g, evidence, confidence)
    {
      SameClaims(f, g, evidence, confidence, aliases);
    }
  }

  lemma SameFieldsParse(f: map<Key, Json>, g: map<Key, Json>)
    requires f.Keys == g.Keys == ANSWER_KEYS && SameCanonicalFields(f, g)
    ensures Reparsed(f) == Reparsed(g)
  {
    SameGets(f, g);
    hide Get, Validated, Buildable, Table, SameCanonicalFields;
    assert MentionedNames(f) == MentionedNames(g);
    if Buildable(ReplayMap(f)) {
      SameValidated(f, g, Table(ReplayMap(f)));
    }
  }

  /** A saved answer is read back, and as which answer, exactly when it is the saved
      form of a canonical answer, up to the submitted spellings. */
  lemma SavedExactly(fields: map<Key, Json>, s: Submission)
    ensures SavedAnswer(Some(Obj(fields))) == Ok(Some(s)) <==> IsCanonical(s) && SavedForm(fields, s)
  {
    hide Reparsed, AnswerFields, CanonicalAnswer;
    if IsCanonical(s) && SavedForm(fields, s) {
      var aliases :| CanonicalAnswer(s, aliases);
      CanonicalFixedPoint(s, aliases);
      SameFieldsParse(fields, AnswerFields(s));
    }
    if SavedAnswer(Some(Obj(fields))) == Ok(Some(s)) {
      ReadBack(fields, s);
    }
  }

  lemma SavedParts(fields: map<Key, Json>, s: Submission)
    requires SavedAnswer(Some(Obj(fields))) == Ok(Some(s))
    ensures Reparsed(fields) == Ok(s) && fields.Keys == ANSWER_KEYS && SameCanonicalFields(fields, AnswerFields(s))
  {
    hide Reparsed, AnswerFields, SameCanonicalFields;
  }

  lemma ReparsedBy(fields: map<Key, Json>, s: Submission)
    requires Reparsed(fields) == Ok(s)
    ensures exists aliases :: CanonicalAnswer(s, aliases)
  {
    hide CanonicalAnswer, Table, Buildable, ReplayMap, Validated;
    TableSelfResolving(ReplayMap(fields));
    AcceptedIsCanonical(Obj(fields), Table(ReplayMap(fields)));
  }

  lemma ReadBack(fields: map<Key, Json>, s: Submission)
    requires SavedAnswer(Some(Obj(fields))) == Ok(Some(s))
    ensures IsCanonical(s)
  {
    hide CanonicalAnswer, Reparsed, AnswerFields, SavedAnswer, SameCanonicalFields;
    SavedParts(fields, s);
    ReparsedBy(fields, s);
    var aliases :| CanonicalAnswer(s, aliases);
    CanonicalFixedPoint(s, aliases);
    SameFieldsParse(fields, AnswerFields(s));
  }

  // The declared target

  /** A fault declares one of the causes and one target, named; health declares nothing. */
  predicate Declares(e: ExpectedDiagnosis) {
    match (e.causalCategory, e.component, e.connection)
    case (None, None, None) => !e.faultPresent
    case (Some(category), Some(name), None) => e.faultPresent && category in CausalCategories() && Named(name)
    case (Some(category), None, Some(edge)) =>
      e.faultPresent && category in CausalCategories() && Named(edge.source) && Named(edge.target)
    case _ => false
  }

  predicate Named(name: string) {
    exists c | c in name :: !IsSpace(c)
  }

  lemma NamedExactly(name: string)
    ensures Named(name) <==> !Blank(name)
  {
    hide IsSpace;
    BlankIsSpace(name);
    assert forall i | 0 <= i < |name| :: name[i] in name;
  }

  lemma DeclaredExactly(e: ExpectedDiagnosis)
    ensures e.Valid() <==> Declares(e)
  {
    hide CausalCategories, Named, Blank;
    forall name
      ensures Named(name) <==> !Blank(name)
    {
      NamedExactly(name);
    }
  }

  // The gates

  /** Something was examined, and all of it was captured and is not empty. */
  predicate Captured(refs: seq<string>, sources: Sources) {
    |refs| > 0 && forall i | 0 <= i < |refs| :: refs[i] in sources && |sources[refs[i]]| > 0
  }

  /** A lifecycle gate shows its mark exactly with what was examined. */
  predicate Backed(mark: Option<Mark>, refs: Option<seq<string>>, sources: Sources) {
    match (mark, refs)
    case (None, None) => true
    case (Some(_), Some(names)) => Captured(names, sources)
    case _ => false
  }

  /** The grade is shown in both of its gates or in neither: for the assigned state, on
      the saved answer, citation by citation, with marks that are true. */
  ghost predicate Graded(o: TrialOutcome, answer: Option<Submission>, expectedFault: bool, sources: Sources) {
    match (o.evidence.diagnosis, o.evidence.evidence)
    case (None, None) => o.validators.diagnosis == None && o.validators.evidence == None
    case (Some(target), Some(reviews)) =>
      && answer.Some? && Declares(target.expected) && target.expected.faultPresent == expectedFault
      && Captured(target.mechanismExamined, sources) && AllNamed(target.mechanismExamined)
      && |reviews| == |answer.value.evidence| && |reviews| > 0
      && (forall i | 0 <= i < |reviews| ::
            && reviews[i].citation == answer.value.evidence[i]
            && Captured(reviews[i].examined, sources) && AllNamed(reviews[i].examined))
      && o.validators.diagnosis == Some(
           if Identifies(target.expected, answer.value) && target.mechanismPassed then Passing else Failing)
      && o.validators.evidence == Some(if Evidenced(reviews) then Passing else Failing)
    case _ => false
  }

  predicate AllNamed(refs: seq<string>) {
    forall i | 0 <= i < |refs| :: Named(refs[i])
  }

  // The classes

  /** What the agent's own class says about the answer, its two marks and the calls. */
  predicate AgentBacked(o: TrialOutcome, answer: Option<Submission>) {
    var passed := o.validators.diagnosis == Some(Passing) && o.validators.evidence == Some(Passing);
    match o.agent
    case None => true
    case Some(IsolationViolation) => true
    case Some(ValidatedSuccess) => answer.Some? && passed
    case Some(DiagnosisFailure) =>
      answer.Some? && !passed && o.validators.diagnosis.Some? && o.validators.evidence.Some?
    case Some(InvalidOutput) => answer.None? && o.rejected > 0
    case Some(NoSubmission) => answer.None? && o.rejected == 0
    case Some(Refusal) => answer.None?
    case Some(BudgetExhaustion) => answer.None?
    case Some(HarnessFailure) => false
    case Some(RemediationFailure) => false
  }

  /** What the reported class says about the agent's, the flags and the environment. */
  predicate ClassBacked(o: TrialOutcome) {
    var clean := o.validators.scope == Some(Passing) && o.validators.safety == Some(Passing);
    match o.terminal
    case HarnessFailure => !o.valid && !o.scored && |o.reasons| > 0
    case RemediationFailure => false
    case t =>
      && o.valid && (o.scored <==> t == ValidatedSuccess) && (|o.reasons| > 0 || t == ValidatedSuccess)
      && o.agent == Some(t)
      && (o.sandbox.Some? ==> o.sandbox.value.passed) && (o.sandbox.None? ==> !o.shellEnabled || o.screen == On)
      && o.validators.scope.Some? && o.validators.safety.Some? && o.validators.cleanup == Some(Passing)
      && (clean || t == IsolationViolation)
  }

  lemma CapturedExactly(refs: seq<string>, sources: Sources)
    ensures References(refs, sources) <==> Captured(refs, sources)
    ensures ExaminedReferences(refs) <==> |refs| > 0 && AllNamed(refs)
  {
    hide Named, Blank;
    forall name
      ensures Named(name) <==> !Blank(name)
    {
      NamedExactly(name);
    }
    assert forall i | 0 <= i < |refs| :: refs[i] in refs;
  }

  /** A grade may be built exactly when its target is declared, it reviews every citation
      in order with what was examined, and a mechanism decision says what was examined. */
  lemma GradeExactly(g: Grade)
    ensures g.Valid() <==>
      && Declares(g.expected) && |g.reviews| == |g.submission.evidence|
      && (forall i | 0 <= i < |g.reviews| ::
            && g.reviews[i].citation == g.submission.evidence[i]
            && |g.reviews[i].examined| > 0 && AllNamed(g.reviews[i].examined))
      && (g.mechanismPassed.Some? ==> |g.mechanismEvidence| > 0 && AllNamed(g.mechanismEvidence))
  {
    hide ExaminedReferences, AllNamed, Declares, ExpectedDiagnosis.Valid;
    DeclaredExactly(g.expected);
    forall refs
      ensures ExaminedReferences(refs) <==> |refs| > 0 && AllNamed(refs)
    {
      CapturedExactly(refs, map[]);
    }
    assert forall i | 0 <= i < |g.reviews| :: g.reviews[i] in g.reviews;
  }

  lemma ReasonsNamed(o: TrialOutcome)
    ensures (forall r | r in o.reasons && r.Free? :: !Blank(r.text)) <==>
      forall i | 0 <= i < |o.reasons| :: o.reasons[i].Free? ==> Named(o.reasons[i].text)
  {
    hide Named, Blank;
    forall name
      ensures Named(name) <==> !Blank(name)
    {
      NamedExactly(name);
    }
    assert forall i | 0 <= i < |o.reasons| :: o.reasons[i] in o.reasons;
  }

  lemma LifecycleBacked(o: TrialOutcome, sources: Sources)
    ensures
      && (o.validators.scope.Some? <==> o.evidence.scope.Some?)
      && (o.validators.safety.Some? <==> o.evidence.safety.Some?)
      && (o.validators.cleanup.Some? <==> o.evidence.cleanup.Some?)
      && (o.evidence.scope.Some? ==> References(o.evidence.scope.value, sources))
      && (o.evidence.safety.Some? ==> References(o.evidence.safety.value, sources))
      && (o.evidence.cleanup.Some? ==> References(o.evidence.cleanup.value, sources))
      <==>
      && Backed(o.validators.scope, o.evidence.scope, sources)
      && Backed(o.validators.safety, o.evidence.safety, sources)
      && Backed(o.validators.cleanup, o.evidence.cleanup, sources)
  {
    hide References, Captured;
    forall refs
      ensures References(refs, sources) <==> Captured(refs, sources)
    {
      CapturedExactly(refs, sources);
    }
  }

  lemma GradedExactly(o: TrialOutcome, answer: Option<Submission>, expectedFault: bool, sources: Sources)
    ensures Graded(o, answer, expectedFault, sources) <==>
      && GradeConfirmed(o, answer, expectedFault, sources)
      && (o.validators.diagnosis.Some? <==> o.evidence.diagnosis.Some?)
      && (o.validators.evidence.Some? <==> o.evidence.evidence.Some?)
  {
    if answer.Some? && o.evidence.diagnosis.Some? && o.evidence.evidence.Some? {
      var target, reviews := o.evidence.diagnosis.value, o.evidence.evidence.value;
      var grade := DiagnosisGrade(answer.value, target.expected, reviews,
        Some(target.mechanismPassed), target.mechanismExamined);
      DiagnosisExactly(grade);
      EvidenceExactly(grade);
      DeclaredExactly(target.expected);
      CapturedExactly(target.mechanismExamined, sources);
      ReviewsBacked(reviews, answer.value.evidence, sources);
      hide ExpectedDiagnosis.Valid, Grade.DiagnosisPassed, Grade.EvidencePassed, Identifies, Evidenced, Declares,
           References, Captured, ReviewsExamined, ExaminedReferences, AllNamed, Reviews;
    }
  }

  lemma ReviewsBacked(reviews: seq<EvidenceReview>, evidence: seq<Citation>, sources: Sources)
    ensures ReviewsExamined(reviews, sources) && (forall r | r in reviews :: r.Valid()) && Reviews(reviews, evidence)
       <==> |reviews| == |evidence| && forall i | 0 <= i < |reviews| ::
              && reviews[i].citation == evidence[i]
              && Captured(reviews[i].examined, sources) && AllNamed(reviews[i].examined)
  {
    hide References, Captured, AllNamed, ExaminedReferences;
    forall r | r in reviews
      ensures References(r.examined, sources) && r.Valid() <==>
        Captured(r.examined, sources) && AllNamed(r.examined)
    {
      CapturedExactly(r.examined, sources);
      CapturedSome(r.examined, sources);
    }
    assert forall i | 0 <= i < |reviews| :: reviews[i] in reviews;
  }

  lemma CapturedSome(refs: seq<string>, sources: Sources)
    ensures Captured(refs, sources) ==> |refs| > 0
  {
  }

  /** An outcome may enter the journal, for an assigned state and with these captures,
      if and only if its reasons are not blank, every gate is backed by captures, the
      grade is true of the re-read answer, and both classes are backed. */
  lemma AcceptedExactly(o: TrialOutcome, expectedFault: bool, sources: Sources)
    ensures Accepted(o, expectedFault, sources) <==>
      && SavedAnswer(o.submission).Ok? && o.rejected >= 0
      && (forall i | 0 <= i < |o.reasons| :: o.reasons[i].Free? ==> Named(o.reasons[i].text))
      && Backed(o.validators.scope, o.evidence.scope, sources)
      && Backed(o.validators.safety, o.evidence.safety, sources)
      && Backed(o.validators.cleanup, o.evidence.cleanup, sources)
      && Graded(o, SavedAnswer(o.submission).value, expectedFault, sources)
      && ClassBacked(o) && AgentBacked(o, SavedAnswer(o.submission).value)
  {
    hide SavedAnswer, GradeConfirmed, Graded, References, Captured, Named, Blank;
    ReasonsNamed(o);
    LifecycleBacked(o, sources);
    if SavedAnswer(o.submission).Ok? {
      GradedExactly(o, SavedAnswer(o.submission).value, expectedFault, sources);
    }
  }
}

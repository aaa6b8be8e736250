/** What a passing grade says of its answer, in the fields of both (diagnosis.py, DiagnosisGrade). */
module DiagnosisTargets {
  import opened Results
  import opened Submissions
  import opened Diagnosis

  /** The answer names the declared state: health, or the fault's category with the
      declared component, or with the declared edge and one of its two ends. */
  predicate Identifies(e: ExpectedDiagnosis, s: Submission) {
    && s.faultPresent == e.faultPresent
    && (e.faultPresent ==>
          && s.causalCategory == e.causalCategory
          && match e.connection
             case None => s.component == e.component
             case Some(edge) => s.connection == Some(edge) && s.component in {Some(edge.source), Some(edge.target)})
  }

  /** The diagnosis gate passes exactly for an answer that names the declared state
      and whose mechanism a review accepted. */
  lemma DiagnosisExactly(g: Grade)
    ensures g.DiagnosisPassed() <==> Identifies(g.expected, g.submission) && g.mechanismPassed == Some(true)
  {
  }

  /** The evidence gate passes exactly when something is cited and every citation's
      signal exists, is relevant and supports its observation. */
  lemma EvidenceExactly(g: Grade)
    ensures g.EvidencePassed() <==>
      && |g.reviews| > 0
      && forall i | 0 <= i < |g.reviews| :: g.reviews[i].present && g.reviews[i].relevant && g.reviews[i].supported
  {
    assert forall i | 0 <= i < |g.reviews| :: g.reviews[i] in g.reviews;
  }

  // One answer against several expectations

  /** One answer passes against at most one edge, and its own edge is that edge. */
  lemma OneEdge(g: Grade, h: Grade)
    requires g.submission == h.submission && g.DiagnosisPassed() && h.DiagnosisPassed()
    requires g.expected.Valid() && h.expected.Valid()
    requires g.expected.connection.Some? && h.expected.connection.Some?
    ensures g.expected == h.expected && g.submission.connection == g.expected.connection
  {
  }

  /** One answer passes against at most one component, its own. */
  lemma OneComponent(g: Grade, h: Grade)
    requires g.submission == h.submission && g.DiagnosisPassed() && h.DiagnosisPassed()
    requires g.expected.Valid() && h.expected.Valid()
    requires g.expected.component.Some? && h.expected.component.Some?
    ensures g.expected == h.expected && g.submission.component == g.expected.component
  {
  }

  /** An answer that passes against both an edge and a component names that edge,
      and the component is one of its ends. */
  lemma EdgeAndComponent(g: Grade, h: Grade)
    requires g.submission == h.submission && g.DiagnosisPassed() && h.DiagnosisPassed()
    requires g.expected.Valid() && h.expected.Valid()
    requires g.expected.connection.Some? && h.expected.component.Some?
    ensures g.expected.causalCategory == h.expected.causalCategory
    ensures var edge := g.expected.connection.value;
      h.expected.component.value == edge.source || h.expected.component.value == edge.target
  {
  }

  /** No answer passes against a fault and against health. */
  lemma NeverBoth(g: Grade, h: Grade)
    requires g.submission == h.submission && g.DiagnosisPassed() && h.DiagnosisPassed()
    ensures g.expected.faultPresent == h.expected.faultPresent
  {
  }

  // One expectation against several answers

  /** An answer for an expectation, over some citations; for an edge it names an end. */
  function AnswerFor(e: ExpectedDiagnosis, atSource: bool, about: Submission): Submission {
    about.(
      faultPresent := e.faultPresent,
      causalCategory := e.causalCategory,
      component := if e.connection.None? then e.component
                   else Some(if atSource then e.connection.value.source else e.connection.value.target),
      connection := e.connection)
  }

  /** Every expectation can be met, from either end of an edge and whatever else the
      answer says, once the mechanism is accepted, and only then. */
  lemma Attainable(e: ExpectedDiagnosis, atSource: bool, about: Submission, reviews: seq<EvidenceReview>,
                   mechanism: Option<bool>, examined: seq<string>)
    requires e.Valid()
    ensures DiagnosisGrade(AnswerFor(e, atSource, about), e, reviews, mechanism, examined).DiagnosisPassed()
       <==> mechanism == Some(true)
  {
  }

  /** A passing answer to a fault fails once its claim, its category, its component
      or, against an edge, its edge is changed; one end of an edge may replace the other. */
  lemma ChangesFail(g: Grade, category: Option<string>, component: Option<string>, edge: Option<Connection>)
    requires g.DiagnosisPassed() && g.expected.faultPresent
    ensures var s := g.submission;
      && !g.(submission := s.(faultPresent := false)).DiagnosisPassed()
      && (category != s.causalCategory ==> !g.(submission := s.(causalCategory := category)).DiagnosisPassed())
      && (component != s.component ==>
            (g.(submission := s.(component := component)).DiagnosisPassed() <==>
               && g.expected.connection.Some?
               && (component == Some(g.expected.connection.value.source)
                   || component == Some(g.expected.connection.value.target))))
      && (edge != s.connection ==>
            (g.(submission := s.(connection := edge)).DiagnosisPassed() <==> g.expected.connection.None?))
  {
  }

  /** Against health only the claim itself matters. */
  lemma HealthOnly(g: Grade, s: Submission)
    requires g.DiagnosisPassed() && !g.expected.faultPresent
    ensures g.(submission := s).DiagnosisPassed() <==> !s.faultPresent
  {
  }

  /** One negative decision on one citation fails the evidence. */
  lemma OneNegativeFails(g: Grade, i: nat, r: EvidenceReview)
    requires g.EvidencePassed() && i < |g.reviews|
    ensures g.(reviews := g.reviews[i := r]).EvidencePassed() <==> r.present && r.relevant && r.supported
  {
    var h := g.(reviews := g.reviews[i := r]);
    assert h.reviews[i] in h.reviews;
    assert forall q | q in h.reviews :: q == r || q in g.reviews;
  }
}

/** Automated target gate plus explicit human decisions (diagnosis.py). */
module Diagnosis {
  import opened Results
  import opened Text
  import opened Submissions

  predicate ExaminedReferences(refs: seq<string>) {
    refs != [] && forall r | r in refs :: !Blank(r)
  }

  datatype ExpectedDiagnosis = ExpectedDiagnosis(
    faultPresent: bool,
    causalCategory: Option<string>,
    component: Option<string>,
    connection: Option<Connection>)
  {
    /** A fault declares a category and exactly one causal target; a healthy
        expectation declares nothing. */
    predicate Valid() {
      if faultPresent then
        && causalCategory.Some? && causalCategory.value in CausalCategories()
        && (component.Some? <==> connection.None?)
        && (component.Some? ==> !Blank(component.value))
        && (connection.Some? ==> !Blank(connection.value.source) && !Blank(connection.value.target))
      else
        causalCategory.None? && component.None? && connection.None?
    }

    /** The answer names the expected cause: the same category, and the expected
        component, or the expected directed edge from one of its ends. */
    predicate MatchedBy(s: Submission) {
      if !faultPresent then !s.faultPresent
      else
        && s.faultPresent
        && s.causalCategory == causalCategory
        && (if connection.Some? then
              && s.connection == connection
              && (s.component == Some(connection.value.source) || s.component == Some(connection.value.target))
            else s.component == component)
    }
  }

  datatype EvidenceReview = EvidenceReview(
    citation: Citation,
    examined: seq<string>,
    present: bool,
    relevant: bool,
    supported: bool)
  {
    predicate Valid() {
      ExaminedReferences(examined)
    }

    predicate Passed() {
      present && relevant && supported
    }
  }

  datatype Grade = DiagnosisGrade(
    submission: Submission,
    expected: ExpectedDiagnosis,
    reviews: seq<EvidenceReview>,
    mechanismPassed: Option<bool>,
    mechanismEvidence: seq<string>)
  {
    /** Every citation is reviewed, in order, and a mechanism decision names what was examined. */
    predicate Valid() {
      && expected.Valid()
      && (forall r | r in reviews :: r.Valid())
      && Reviews(reviews, submission.evidence)
      && (mechanismPassed.Some? ==> ExaminedReferences(mechanismEvidence))
    }

    predicate DiagnosisPassed() {
      expected.MatchedBy(submission) && mechanismPassed == Some(true)
    }

    predicate EvidencePassed() {
      reviews != [] && forall r | r in reviews :: r.Passed()
    }
  }

  predicate Reviews(reviews: seq<EvidenceReview>, evidence: seq<Citation>) {
    && |reviews| == |evidence|
    && forall i | 0 <= i < |reviews| :: reviews[i].citation == evidence[i]
  }

  /** Inspect every citation in order. A review may depend on earlier ones, so it is a
      function of the call number too. */
  method GradeDiagnosis(submission: Submission, expected: ExpectedDiagnosis,
                        review: (nat, Citation) -> EvidenceReview,
                        mechanismPassed: Option<bool>, mechanismEvidence: seq<string>)
    returns (r: Result<Grade>)
    ensures r.Ok? ==> r.value.Valid() && r.value.submission == submission && r.value.expected == expected
    ensures r.Ok? ==> r.value.mechanismPassed == mechanismPassed && r.value.mechanismEvidence == mechanismEvidence
    ensures r.Ok? ==> forall i | 0 <= i < |submission.evidence| ::
      r.value.reviews[i] == review(i, submission.evidence[i])
    ensures r.Ok? <==>
      && expected.Valid()
      && (mechanismPassed.Some? ==> ExaminedReferences(mechanismEvidence))
      && forall i | 0 <= i < |submission.evidence| ::
           var one := review(i, submission.evidence[i]); one.Valid() && one.citation == submission.evidence[i]
  {
    var reviews: seq<EvidenceReview> := [];
    for i := 0 to |submission.evidence|
      invariant |reviews| == i
      invariant forall j | 0 <= j < i :: reviews[j] == review(j, submission.evidence[j])
      invariant forall j | 0 <= j < i :: reviews[j].Valid() && reviews[j].citation == submission.evidence[j]
    {
      var one := review(i, submission.evidence[i]);
      if !one.Valid() || one.citation != submission.evidence[i] {
        return Err;
      }
      reviews := reviews + [one];
    }
    if !expected.Valid() || (mechanismPassed.Some? && !ExaminedReferences(mechanismEvidence)) {
      return Err;
    }
    return Ok(DiagnosisGrade(submission, expected, reviews, mechanismPassed, mechanismEvidence));
  }
}

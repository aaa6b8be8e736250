/** The reference verifier for CPU quotas: it replays an attempt from its captured
    inputs and one decided human review (adjudication.py, CPUReference). */
module Adjudication {
  import opened Results
  import opened ByteStrings
  import opened Numbers
  import opened Text
  import opened ComponentMaps
  import opened JsonValues
  import opened Submissions
  import opened Diagnosis
  import opened SandboxGates
  import opened TrialOutcomes
  import opened OutcomeChecks
  import opened Rosters
  import opened Verification
  import opened CpuEvidence
  import opened NumberedNames

  const REVIEW_PREFIX := "human-review-"
  const INPUT_PREFIX := "review-input-"
  const ADAPTER := "adapter"
  const MEASUREMENTS := "measurements"
  const LIFECYCLE := "lifecycle"
  const USAGE := "usage"
  const INPUTS: seq<string> := [ADAPTER, MEASUREMENTS, LIFECYCLE, USAGE]

  function FaultIncident(): string { "cpu-quota-fault/v1" }

  function HealthyIncident(): string { "cpu-quota-healthy/v1" }

  function VerifierName(): string { "cpu-quota-reference-v1" }

  function CpuSaturation(): (r: string)
    ensures r in CausalCategories()
  {
    "cpu_saturation"
  }

  /** The error reported in place of the adapter's when the measurements do not
      show the assigned state. */
  function NotEstablished(): (r: string)
    ensures r != ""
  {
    "reference measurements do not establish assigned state"
  }

  // Documents

  datatype Configuration = Configuration(
    target: string,
    componentAliases: seq<(string, string)>,
    baselineCpuMax: string,
    reviewers: seq<string>)
  {
    predicate Valid() {
      && IsIdentifier(target)
      && Buildable(componentAliases)
      && target in Table(componentAliases).Values
      && ParseQuota(baselineCpuMax).Ok?
      && reviewers != []
      && (forall i, j | 0 <= i < j < |reviewers| :: reviewers[i] != reviewers[j])
      && (forall r | r in reviewers :: IsIdentifier(r))
    }
  }

  datatype Adapter = Adapter(completion: Terminal, calls: seq<Json>, error: Option<string>, budgetStop: Option<string>)

  datatype ActionKind = ReadAction | WriteAction | DeployAction | SecretRead | SharedMutation

  datatype Action = Action(id: string, kind: ActionKind)

  datatype Audit = Audit(
    workspaceBefore: map<string, string>,
    workspaceAfter: map<string, string>,
    actions: seq<Action>,
    resourcesBefore: map<string, bool>,
    resourcesAfter: map<string, bool>)

  datatype Usage = Usage(
    started: Option<int>,
    finished: Option<int>,
    toolCallIds: Option<seq<string>>,
    aiCredits: Option<Number>)

  datatype ReviewStatus = NeedsReview | Decided

  datatype CitationReview = CitationReview(index: int, relevant: Option<bool>, supported: Option<bool>,
                                           rationale: string)

  datatype Review = Review(
    packetDigest: string,
    rubricDigest: string,
    reviewer: string,
    status: ReviewStatus,
    mechanismPassed: Option<bool>,
    rationale: string,
    citations: seq<CitationReview>)

  /** What a reviewer is shown: the answer without its submitted spellings, and
      digests instead of labels. */
  datatype Packet = Packet(
    rubricDigest: string,
    captureDigests: seq<string>,
    expectedFault: bool,
    answer: Submission,
    observations: Observations)

  datatype Envelope<T> = Envelope(binding: Binding, data: T)

  /** Reading JSON documents, each with its shape check, and digests. */
  datatype Documents = Documents(
    adapter: Bytes -> Result<Envelope<Adapter>>,
    measurements: Bytes -> Result<Envelope<Measurements>>,
    lifecycle: Bytes -> Result<Envelope<Audit>>,
    usage: Bytes -> Result<Envelope<Usage>>,
    review: Bytes -> Result<Review>,
    digest: Bytes -> string,
    packetDigest: Packet -> string,
    identity: Configuration -> string)

  datatype Reference = Reference(config: Configuration, rubricDigest: string, docs: Documents)

  // The four bound inputs

  datatype Gathered = Gathered(adapter: Adapter, measurements: Measurements, lifecycle: Audit, usage: Usage)

  predicate ReferenceSource(name: string) {
    name in INPUTS || REVIEW_PREFIX <= name || INPUT_PREFIX <= name
  }

  /** The assignment is one of the two incidents of this configuration. */
  predicate ReferenceAssignment(ref: Reference, row: Assignment) {
    && row.configurationId == ref.docs.identity(ref.config)
    && (row.incident == FaultIncident() || row.incident == HealthyIncident())
    && (row.expectedFault <==> row.incident == FaultIncident())
  }

  predicate SourcesNamed(sources: Sources) {
    && (forall name | name in INPUTS :: name in sources)
    && (forall name | name in sources :: ReferenceSource(name))
  }

  function OwnData<T>(document: Result<Envelope<T>>, b: Binding): Result<T> {
    var envelope :- document;
    :- Need(envelope.binding == b);
    Ok(envelope.data)
  }

  /** The inputs of this very attempt. */
  function Gather(ref: Reference, b: Binding, sources: Sources): (r: Result<Gathered>)
    ensures r.Ok? ==> ref.config.Valid() && ReferenceAssignment(ref, b.assignment) && SourcesNamed(sources)
  {
    var named := SourcesNamed(sources);
    :- Need(ref.config.Valid() && ReferenceAssignment(ref, b.assignment) && named);
    assert ADAPTER in INPUTS && MEASUREMENTS in INPUTS && LIFECYCLE in INPUTS && USAGE in INPUTS;
    var adapter :- OwnData(ref.docs.adapter(sources[ADAPTER]), b);
    var measurements :- OwnData(ref.docs.measurements(sources[MEASUREMENTS]), b);
    var lifecycle :- OwnData(ref.docs.lifecycle(sources[LIFECYCLE]), b);
    var usage :- OwnData(ref.docs.usage(sources[USAGE]), b);
    Ok(Gathered(adapter, measurements, lifecycle, usage))
  }

  // Lifecycle and usage

  predicate Inventory(workspace: map<string, string>) {
    workspace != map[] && forall path | path in workspace :: !Blank(path) && IsDigest(workspace[path])
  }

  predicate UniqueActions(actions: seq<Action>) {
    forall i, j | 0 <= i < j < |actions| :: actions[i].id != actions[j].id
  }

  predicate Audited(a: Audit) {
    && Inventory(a.workspaceBefore) && Inventory(a.workspaceAfter)
    && a.actions != [] && (forall action | action in a.actions :: IsIdentifier(action.id)) && UniqueActions(a.actions)
    && a.resourcesBefore != map[] && a.resourcesBefore.Keys == a.resourcesAfter.Keys
    && forall r | r in a.resourcesBefore :: a.resourcesBefore[r]
  }

  predicate OnlyReads(a: Audit) {
    forall action | action in a.actions :: action.kind.ReadAction?
  }

  predicate ResourcesGone(a: Audit) {
    forall r | r in a.resourcesAfter :: !a.resourcesAfter[r]
  }

  function Check(passed: bool): ValidationCheck {
    ValidationCheck(passed, [LIFECYCLE])
  }

  /** The action audit, id by id. */
  method AuditActions(actions: seq<Action>) returns (r: bool)
    ensures r <==>
      actions != [] && (forall action | action in actions :: IsIdentifier(action.id)) && UniqueActions(actions)
  {
    var ids: set<string> := {};
    for i := 0 to |actions|
      invariant ids == set j | 0 <= j < i :: actions[j].id
      invariant forall j | 0 <= j < i :: IsIdentifier(actions[j].id)
      invariant UniqueActions(actions[..i])
    {
      assert actions[i] in actions;
      if !IsIdentifier(actions[i].id) || actions[i].id in ids {
        return false;
      }
      ids := ids + {actions[i].id};
    }
    assert actions[..|actions|] == actions;
    return actions != [];
  }

  method CheckAudit(a: Audit) returns (r: bool)
    ensures r <==> Audited(a)
  {
    hide Inventory, IsIdentifier;
    var actions := AuditActions(a.actions);
    return Inventory(a.workspaceBefore) && Inventory(a.workspaceAfter) && actions
      && a.resourcesBefore != map[] && a.resourcesBefore.Keys == a.resourcesAfter.Keys
      && forall r | r in a.resourcesBefore :: a.resourcesBefore[r];
  }

  predicate ValidUsage(u: Usage) {
    && (u.started.None? <==> u.finished.None?)
    && (u.started.Some? && u.finished.Some? ==> 0 <= u.started.value <= u.finished.value)
    && (u.toolCallIds.Some? ==>
          var ids := u.toolCallIds.value;
          (forall id | id in ids :: id != "") && forall i, j | 0 <= i < j < |ids| :: ids[i] != ids[j])
    && (u.aiCredits.Some? ==> u.aiCredits.value >= 0.0)
  }

  /** Nanoseconds of a monotonic clock as seconds. */
  function SecondsBetween(start: int, end: int): (r: Number)
    ensures start <= end ==> r >= 0.0
  {
    Ratio(end - start, 1_000_000_000);
    (end - start) as real / 1_000_000_000 as real
  }

  function MetricsOf(u: Usage): (m: Metrics)
    ensures ValidUsage(u) ==> ValidMetrics(m)
  {
    Metrics(
      if u.started.Some? && u.finished.Some? then Some(SecondsBetween(u.started.value, u.finished.value)) else None,
      if u.toolCallIds.Some? then Some(|u.toolCallIds.value|) else None,
      u.aiCredits)
  }

  // The human decision

  function PacketOf(ref: Reference, b: Binding, sources: Sources, answer: Submission,
                    observations: Observations): Packet
    requires SourcesNamed(sources)
  {
    assert ADAPTER in INPUTS && MEASUREMENTS in INPUTS && LIFECYCLE in INPUTS && USAGE in INPUTS;
    Packet(ref.rubricDigest,
           [ref.docs.digest(sources[ADAPTER]), ref.docs.digest(sources[MEASUREMENTS]),
            ref.docs.digest(sources[LIFECYCLE]), ref.docs.digest(sources[USAGE])],
           b.assignment.expectedFault,
           answer.(componentAsSubmitted := None, connectionAsSubmitted := None), observations)
  }

  predicate CitationCovered(c: CitationReview, index: int, decided: bool) {
    c.index == index && !Blank(c.rationale) && (decided ==> c.relevant.Some? && c.supported.Some?)
  }

  /** A registered reviewer's complete reading of this packet. */
  predicate Fits(ref: Reference, packet: Packet, r: Review) {
    && r.packetDigest == ref.docs.packetDigest(packet) && r.rubricDigest == ref.rubricDigest
    && r.reviewer in ref.config.reviewers
    && !Blank(r.rationale)
    && |r.citations| == |packet.answer.evidence|
    && (forall i | 0 <= i < |r.citations| :: CitationCovered(r.citations[i], i, r.status.Decided?))
    && (r.status.Decided? ==> r.mechanismPassed.Some?)
  }

  datatype Decision = Undecided | DecidedBy(name: string, review: Review) | Malformed

  /** One more review: it must be complete, and nothing may follow a decision. */
  function NextDecision(ref: Reference, packet: Packet, sources: Sources, before: Decision, name: string): Decision {
    if !before.Undecided? || name !in sources then Malformed
    else
      var read := ref.docs.review(sources[name]);
      if read.Err? || !Fits(ref, packet, read.value) then Malformed
      else if read.value.status.Decided? then DecidedBy(name, read.value)
      else Undecided
  }

  /** The reviews in order: only the last may be a decision. */
  function Scan(ref: Reference, packet: Packet, sources: Sources, names: seq<string>): Decision {
    if names == [] then Undecided
    else
      var n := |names| - 1;
      NextDecision(ref, packet, sources, Scan(ref, packet, sources, names[..n]), names[n])
  }

  function Decide(ref: Reference, packet: Packet, sources: Sources, names: seq<string>): Decision {
    if names == Numberings(REVIEW_PREFIX, |names|) then Scan(ref, packet, sources, names) else Malformed
  }

  /** Checking one review's citations, in order. */
  method CitationsCovered(citations: seq<CitationReview>, decided: bool) returns (r: bool)
    ensures r <==> forall i | 0 <= i < |citations| :: CitationCovered(citations[i], i, decided)
  {
    var values: seq<Option<bool>> := [];
    for i := 0 to |citations|
      invariant |values| == 2 * i
      invariant forall j | 0 <= j < i ::
        values[2 * j] == citations[j].relevant && values[2 * j + 1] == citations[j].supported
      invariant forall j | 0 <= j < i :: citations[j].index == j && !Blank(citations[j].rationale)
    {
      if citations[i].index != i || Blank(citations[i].rationale) {
        return false;
      }
      values := values + [citations[i].relevant, citations[i].supported];
    }
    r := !decided || forall v | v in values :: v.Some?;
    if r && decided {
      assert forall j | 0 <= j < |citations| :: values[2 * j] in values && values[2 * j + 1] in values;
    } else if !r {
      var v :| v in values && v.None?;
      var k :| 0 <= k < |values| && values[k] == v;
      assert k == 2 * (k / 2) || k == 2 * (k / 2) + 1;
      assert !CitationCovered(citations[k / 2], k / 2, decided);
    }
  }

  lemma {:induction false} MalformedStays(ref: Reference, packet: Packet, sources: Sources, names: seq<string>, k: nat)
    requires k <= |names| && Scan(ref, packet, sources, names[..k]).Malformed?
    ensures Scan(ref, packet, sources, names).Malformed?
    decreases |names|
  {
    hide Fits;
    if k == |names| {
      assert names[..k] == names;
    } else {
      assert names[..|names| - 1][..k] == names[..k];
      MalformedStays(ref, packet, sources, names[..|names| - 1], k);
    }
  }

  lemma ScanNext(ref: Reference, packet: Packet, sources: Sources, names: seq<string>, i: nat)
    requires i < |names|
    ensures Scan(ref, packet, sources, names[..i + 1])
         == NextDecision(ref, packet, sources, Scan(ref, packet, sources, names[..i]), names[i])
  {
    assert names[..i + 1][..i] == names[..i];
  }

  lemma ScanNone(ref: Reference, packet: Packet, sources: Sources, names: seq<string>)
    ensures Scan(ref, packet, sources, names[..0]) == Undecided
  {
  }

  /** The review loop. */
  method ReadDecision(ref: Reference, packet: Packet, sources: Sources, names: seq<string>) returns (r: Decision)
    ensures r == Decide(ref, packet, sources, names)
  {
    hide Fits, Numberings, Scan;
    if names != Numberings(REVIEW_PREFIX, |names|) {
      return Malformed;
    }
    ScanNone(ref, packet, sources, names);
    var decisions: seq<(string, Review)> := [];
    for i := 0 to |names|
      invariant |decisions| <= 1
      invariant Scan(ref, packet, sources, names[..i])
             == if decisions == [] then Undecided else DecidedBy(decisions[0].0, decisions[0].1)
    {
      ScanNext(ref, packet, sources, names, i);
      var fits := false;
      if names[i] in sources {
        fits := CheckReview(ref, packet, ref.docs.review(sources[names[i]]));
      }
      if !fits || decisions != [] {
        MalformedStays(ref, packet, sources, names, i + 1);
        return Malformed;
      }
      var review := ref.docs.review(sources[names[i]]).value;
      if review.status.Decided? {
        decisions := decisions + [(names[i], review)];
      }
    }
    assert names[..|names|] == names;
    return if decisions == [] then Undecided else DecidedBy(decisions[0].0, decisions[0].1);
  }

  method CheckReview(ref: Reference, packet: Packet, read: Result<Review>) returns (fits: bool)
    ensures fits <==> read.Ok? && Fits(ref, packet, read.value)
  {
    if read.Err? {
      return false;
    }
    var review := read.value;
    var covered := CitationsCovered(review.citations, review.status.Decided?);
    return review.packetDigest == ref.docs.packetDigest(packet) && review.rubricDigest == ref.rubricDigest
      && review.reviewer in ref.config.reviewers
      && !Blank(review.rationale)
      && |review.citations| == |packet.answer.evidence|
      && covered
      && (review.status.Decided? ==> review.mechanismPassed.Some?);
  }

  /** The review is stored, readable and complete, with the given status. */
  ghost predicate ReviewIs(ref: Reference, packet: Packet, sources: Sources, name: string, status: ReviewStatus) {
    && name in sources
    && var read := ref.docs.review(sources[name]);
       read.Ok? && Fits(ref, packet, read.value) && read.value.status == status
  }

  ghost predicate AllAwait(ref: Reference, packet: Packet, sources: Sources, names: seq<string>) {
    forall name | name in names :: ReviewIs(ref, packet, sources, name, NeedsReview)
  }

  /** The reviews are requests for more review and then at most one decision, the last. */
  lemma {:induction false} ScanMeaning(ref: Reference, packet: Packet, sources: Sources, names: seq<string>)
    ensures Scan(ref, packet, sources, names).Undecided? <==> AllAwait(ref, packet, sources, names)
    ensures Scan(ref, packet, sources, names).DecidedBy? <==>
      && names != []
      && AllAwait(ref, packet, sources, names[..|names| - 1])
      && ReviewIs(ref, packet, sources, names[|names| - 1], Decided)
    ensures Scan(ref, packet, sources, names).DecidedBy? ==>
      && Scan(ref, packet, sources, names).name == names[|names| - 1]
      && Ok(Scan(ref, packet, sources, names).review) == ref.docs.review(sources[names[|names| - 1]])
  {
    hide Fits;
    if names != [] {
      var n := |names| - 1;
      ScanMeaning(ref, packet, sources, names[..n]);
      assert names == names[..n] + [names[n]] && names[n] in names;
      if Scan(ref, packet, sources, names[..n]).DecidedBy? {
        assert names[n - 1] in names && !ReviewIs(ref, packet, sources, names[n - 1], NeedsReview);
      }
    }
  }

  // The grade

  function RequiredSignals(target: string): set<string> {
    {target + "/cpu.max", target + "/cpu.stat"}
  }

  function Cited(s: Submission): set<string> {
    set c | c in s.evidence :: c.signal
  }

  function ExpectedFor(expectedFault: bool, target: string): ExpectedDiagnosis {
    if expectedFault then ExpectedDiagnosis(true, Some(CpuSaturation()), Some(target), None)
    else ExpectedDiagnosis(false, None, None, None)
  }

  /** A citation passes when its signal exists, all required signals are cited, and
      the human review finds it relevant and supported. */
  function Inspected(target: string, s: Submission, name: string, review: Review, i: nat, c: Citation): EvidenceReview {
    var required := RequiredSignals(target);
    var present := c.signal in required;
    var decided := i < |review.citations|;
    EvidenceReview(
      c, [MEASUREMENTS, name], present,
      present && decided && review.citations[i].relevant == Some(true),
      required <= Cited(s) && decided && review.citations[i].supported == Some(true))
  }

  function GradeOf(target: string, expectedFault: bool, s: Submission, name: string, review: Review): Grade {
    DiagnosisGrade(
      s, ExpectedFor(expectedFault, target),
      seq(|s.evidence|, i requires 0 <= i < |s.evidence| => Inspected(target, s, name, review, i, s.evidence[i])),
      review.mechanismPassed, [name])
  }

  lemma NumberedNotBlank(i: nat)
    ensures !Blank(Numbered(REVIEW_PREFIX, i))
  {
  }

  lemma MeasurementsNotBlank()
    ensures !Blank(MEASUREMENTS) && !Blank(LIFECYCLE)
  {
  }

  lemma GradeValid(target: string, expectedFault: bool, s: Submission, name: string, review: Review)
    requires IsIdentifier(target) && !Blank(name)
    ensures GradeOf(target, expectedFault, s, name, review).Valid()
  {
    IdentifierNotBlank(target);
    MeasurementsNotBlank();
    hide CausalCategories, RequiredSignals, CpuSaturation, IsIdentifier, Blank;
  }

  method GradeAnswer(config: Configuration, expectedFault: bool, s: Submission, name: string, review: Review)
    returns (grade: Grade)
    requires config.Valid() && !Blank(name)
    ensures grade == GradeOf(config.target, expectedFault, s, name, review)
  {
    hide Buildable, Table, ParseQuota, RequiredSignals, CausalCategories, CpuSaturation, Blank;
    GradeValid(config.target, expectedFault, s, name, review);
    var expected := GradeOf(config.target, expectedFault, s, name, review);
    var graded := GradeDiagnosis(
      s, ExpectedFor(expectedFault, config.target),
      (i: nat, c: Citation) => Inspected(config.target, s, name, review, i, c), review.mechanismPassed, [name]);
    assert forall i | 0 <= i < |s.evidence| :: expected.reviews[i].Valid();
    assert graded.value.reviews == expected.reviews;
    return graded.value;
  }

  // The replay

  function NamesWith(captures: seq<Capture>, prefix: string): seq<string> {
    if captures == [] then []
    else
      var n := |captures| - 1;
      NamesWith(captures[..n], prefix) + if prefix <= captures[n].name then [captures[n].name] else []
  }

  lemma {:induction false} NamesMembers(captures: seq<Capture>, prefix: string)
    ensures forall x :: x in NamesWith(captures, prefix) <==> prefix <= x && exists c | c in captures :: c.name == x
  {
    if captures != [] {
      var n := |captures| - 1;
      NamesMembers(captures[..n], prefix);
      assert captures == captures[..n] + [captures[n]];
    }
  }

  predicate Established(o: Observations, expectedFault: bool) {
    if expectedFault then o.faultObserved else o.healthyObserved
  }

  function Scoring(adapter: Adapter, record: Record, grade: Option<Grade>, established: bool, audit: Audit): Inputs {
    Inputs(Class(adapter.completion), record, None, adapter.budgetStop,
           if established then adapter.error else Some(NotEstablished()), false, On, grade,
           Some(Check(audit.workspaceBefore == audit.workspaceAfter)),
           Some(Check(OnlyReads(audit))),
           Some(Check(ResourcesGone(audit))))
  }

  /** The grade of the accepted answer, once its review is decided. */
  function Grading(ref: Reference, b: Binding, sources: Sources, reviews: seq<string>, answer: Option<Submission>,
                   o: Observations)
    : Result<Option<Grade>>
    requires SourcesNamed(sources)
  {
    if answer.None? then Ok(None)
    else
      match Decide(ref, PacketOf(ref, b, sources, answer.value, o), sources, reviews)
      case DecidedBy(name, review) =>
        Ok(Some(GradeOf(ref.config.target, b.assignment.expectedFault, answer.value, name, review)))
      case _ => Err
  }

  /** What the adapter's calls left in the recorder. */
  function Recording(ref: Reference, adapter: Adapter): Record
    requires ref.config.Valid()
  {
    Recorded(Table(ref.config.componentAliases), adapter.calls)
  }

  /** The replayed attempt; `reviews` are the review names in the order of the sources. */
  function Replay(ref: Reference, b: Binding, sources: Sources, reviews: seq<string>): Result<VerifiedAttempt> {
    hide Configuration.Valid, SourcesNamed, ReferenceAssignment, Score, Decide;
    var g :- Gather(ref, b, sources);
    :- Need(g.adapter.completion != RemediationFailure);
    var record := Recording(ref, g.adapter);
    var o :- Measured(g.measurements, ref.config.target, ref.config.baselineCpuMax);
    var grade :- Grading(ref, b, sources, reviews, record.submission, o);
    :- Need(Audited(g.lifecycle) && ValidUsage(g.usage));
    match Score(Scoring(g.adapter, record, grade, Established(o, b.assignment.expectedFault), g.lifecycle))
    case Scored(outcome) => Ok(VerifiedAttempt(outcome, MetricsOf(g.usage), INPUTS))
    case _ => Err
  }

  function ReplayCaptures(ref: Reference, b: Binding, captures: seq<Capture>): Option<VerifiedAttempt> {
    var r := Replay(ref, b, Contents(captures), NamesWith(captures, REVIEW_PREFIX));
    if r.Ok? then Some(r.value) else None
  }

  method RecordCalls(ref: Reference, adapter: Adapter) returns (record: Record)
    requires ref.config.Valid()
    ensures record == Recording(ref, adapter)
  {
    hide ParseQuota, IsIdentifier, Validated, Recorded, Functional, Entries, Table;
    var table := Construct(ref.config.componentAliases);
    var recorder := new SubmissionRecorder(table.value);
    for i := 0 to |adapter.calls|
      invariant recorder.Valid() && fresh(recorder) && recorder.aliases == table.value
      invariant recorder.payloads == adapter.calls[..i]
    {
      var _ := recorder.RecordCall(adapter.calls[i]);
    }
    assert adapter.calls[..|adapter.calls|] == adapter.calls;
    return Record(recorder.calls, recorder.submission);
  }

  method ReplayAttempt(ref: Reference, b: Binding, captures: seq<Capture>) returns (r: Option<VerifiedAttempt>)
    ensures r == ReplayCaptures(ref, b, captures)
  {
    hide Measured, Scan, Numberings, GradeOf, NamesWith, Contents, Score, Scoring, Audited, ValidUsage,
         Configuration.Valid;
    var sources, reviews := Contents(captures), NamesWith(captures, REVIEW_PREFIX);
    var gathered := Gather(ref, b, sources);
    if gathered.Err? || gathered.value.adapter.completion == RemediationFailure {
      return None;
    }
    var g := gathered.value;
    var record := RecordCalls(ref, g.adapter);
    var observed := Measured(g.measurements, ref.config.target, ref.config.baselineCpuMax);
    if observed.Err? {
      return None;
    }
    var o, grade := observed.value, None;
    if record.submission.Some? {
      var s := record.submission.value;
      var decision := ReadDecision(ref, PacketOf(ref, b, sources, s, o), sources, reviews);
      if !decision.DecidedBy? {
        return None;
      }
      DecidedNotBlank(ref, PacketOf(ref, b, sources, s, o), sources, reviews);
      var graded := GradeAnswer(ref.config, b.assignment.expectedFault, s, decision.name, decision.review);
      grade := Some(graded);
    }
    var audited := CheckAudit(g.lifecycle);
    if !audited || !ValidUsage(g.usage) {
      return None;
    }
    var scored := ScoreTrial(Scoring(g.adapter, record, grade, Established(o, b.assignment.expectedFault),
      g.lifecycle));
    if !scored.Scored? {
      return None;
    }
    return Some(VerifiedAttempt(scored.outcome, MetricsOf(g.usage), INPUTS));
  }

  lemma DecidedNotBlank(ref: Reference, packet: Packet, sources: Sources, names: seq<string>)
    requires Decide(ref, packet, sources, names).DecidedBy?
    ensures !Blank(Decide(ref, packet, sources, names).name)
    ensures Decide(ref, packet, sources, names).name in names && Decide(ref, packet, sources, names).name in sources
  {
    hide Fits, Scan, Blank, Numbered;
    ScanMeaning(ref, packet, sources, names);
    NumberedNotBlank(|names|);
  }
}

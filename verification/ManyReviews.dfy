/** The reference verifier on an attempt with any number of reviews: an earned
    success whose finish, past 9999 reviews, makes the journal unreadable. */
module ManyReviews {
  import opened Results
  import opened ByteStrings
  import opened Text
  import opened TextFields
  import opened ComponentMaps
  import opened JsonValues
  import opened Submissions
  import opened TrialOutcomes
  import opened OutcomeChecks
  import opened Rosters
  import opened Verification
  import opened CpuEvidence
  import opened NumberedNames
  import opened Adjudication
  import opened ReferenceVerdicts
  import opened ReviewImports
  import opened JournalRuns

  // A healthy service, a correct answer and its reviews

  const TARGET := "cart"
  const REVIEWER := "reviewer-1"
  const CONFIGURATION := "cpu-reference"
  const AWAITING: Bytes := [1]
  const DECIDING: Bytes := [2]

  function Checksum(): string {
    "sha256:" + Zeros(64)
  }

  function QuotaText(q: Quota): string {
    Decimal(q.micros) + " " + Decimal(q.period)
  }

  function StatText(periods: nat): string {
    Unlines(StatLines([(PERIODS, periods), (THROTTLED, 0), (THROTTLED_MICROS, 0)]))
  }

  function Config(): Configuration {
    Configuration(TARGET, SelfMap([TARGET]), QuotaText(Quota(1, 1)), [REVIEWER])
  }

  /** The quota as frozen, and no throttling over one more period. */
  function Healthy(): Measurements {
    Measurements(TARGET, QuotaText(Quota(1, 1)), QuotaText(Quota(1, 1)), StatText(1), StatText(2))
  }

  function Answer(): Submission {
    Submission(false, None, None, None,
               [Citation(TARGET + "/cpu.max", "unchanged"), Citation(TARGET + "/cpu.stat", "unthrottled")],
               Confidence(), None, None, None)
  }

  function Confidence(): (r: Numbers.Number)
    ensures r == 0.0
  {
    Numbers.ZeroRational();
    0.0
  }

  function CleanAudit(): Audit {
    Audit(map["values.yaml" := Checksum()], map["values.yaml" := Checksum()], [Action("a1", ReadAction)],
          map["pod" := true], map["pod" := false])
  }

  function ReviewWith(status: ReviewStatus): Review {
    var passed := Some(true);
    Review("", "", REVIEWER, status, passed, "read",
           [CitationReview(0, passed, passed, "read"), CitationReview(1, passed, passed, "read")])
  }

  function ReadReview(bytes: Bytes): Result<Review> {
    Ok(ReviewWith(if bytes == DECIDING then Decided else NeedsReview))
  }

  /** A session with one submit call. */
  function OneCall(): Adapter {
    Adapter(ValidatedSuccess, [Obj(AnswerFields(Answer()))], None, None)
  }

  function NoUsage(): Usage {
    Usage(None, None, None, None)
  }

  /** Readers that give the same documents for every source, but for the reviews. */
  function DocumentsOf(b: Binding): Documents {
    Documents(
      _ => Ok(Envelope(b, OneCall())),
      _ => Ok(Envelope(b, Healthy())),
      _ => Ok(Envelope(b, CleanAudit())),
      _ => Ok(Envelope(b, NoUsage())),
      bytes => ReadReview(bytes),
      _ => "",
      _ => "",
      _ => CONFIGURATION)
  }

  function ReferenceFor(b: Binding): Reference {
    Reference(Config(), "", DocumentsOf(b))
  }

  /** An assignment of the healthy incident under this configuration. */
  predicate HealthyAssignment(row: Assignment) {
    row.configurationId == CONFIGURATION && row.incident == HealthyIncident() && !row.expectedFault
  }

  /** The four inputs and `k` reviews that ask for more review. */
  function Awaiting(k: nat): seq<Capture> {
    if k == 0 then
      [Capture(ADAPTER, AWAITING), Capture(MEASUREMENTS, AWAITING), Capture(LIFECYCLE, AWAITING),
        Capture(USAGE, AWAITING)]
    else Awaiting(k - 1) + [Capture(Numbered(REVIEW_PREFIX, k), AWAITING)]
  }

  /** The four inputs and `n` reviews in capture order, of which the last one decides. */
  function Reviewed(n: nat): seq<Capture>
    requires n > 0
  {
    Awaiting(n - 1) + [Capture(Numbered(REVIEW_PREFIX, n), DECIDING)]
  }

  // Every document is in order

  lemma ConfigValid()
    ensures Config().Valid()
    ensures Buildable(Config().componentAliases)
  {
    hide Buildable, Table, ParseQuota, SelfMap, IsIdentifier, CanonicalName, Canonical, QuotaText;
    TargetNamed();
    SelfMapResolves(map[Lower(TARGET) := TARGET], [TARGET]);
    QuotaParses();
    InTable();
  }

  lemma TargetNamed()
    ensures IsIdentifier(TARGET) && IsIdentifier(REVIEWER)
    ensures CanonicalName(map[Lower(TARGET) := TARGET], TARGET)
    ensures TARGET in [TARGET] && forall n | n in [TARGET] :: n == TARGET
  {
    assert Strip(TARGET) == TARGET;
  }

  lemma QuotaParses()
    ensures ParseQuota(QuotaText(Quota(1, 1))) == Ok(Quota(1, 1))
  {
    QuotaRoundTrip(Quota(1, 1));
    hide ParseQuota;
  }

  lemma InTable()
    requires Buildable(SelfMap([TARGET])) && Canonical(Table(SelfMap([TARGET])), TARGET) == Ok(TARGET)
    ensures TARGET in Table(SelfMap([TARGET])).Values
  {
    hide Buildable, Table, SelfMap;
    var m := Table(SelfMap([TARGET]));
    assert m[NormalKey(TARGET)] == TARGET;
  }

  lemma AnswerAccepted(aliases: Aliases)
    ensures Validated(Obj(AnswerFields(Answer())), aliases) == Ok(Answer())
  {
    var s := Answer();
    CleanCitations();
    EvidenceRoundTrip(s.evidence);
    AnswerKeys(s);
    assert |EvidenceJson(s.evidence)| == 2;
    hide AnswerFields, ParseCitations, EvidenceJson;
  }

  lemma CleanCitations()
    ensures forall c | c in Answer().evidence :: CleanText(c.signal) && CleanText(c.observation)
  {
    assert TARGET + "/cpu.max" == "cart/cpu.max" && TARGET + "/cpu.stat" == "cart/cpu.stat";
    assert Strip("cart/cpu.max") == "cart/cpu.max" && Strip("cart/cpu.stat") == "cart/cpu.stat";
    assert Strip("unchanged") == "unchanged" && Strip("unthrottled") == "unthrottled";
  }

  lemma CountedThree(a: (string, nat), b: (string, nat), c: (string, nat))
    ensures Counted([a, b, c]) == map[a.0 := a.1][b.0 := b.1][c.0 := c.1]
  {
    assert [a, b, c][..2] == [a, b] && [a, b][..1] == [a] && [a][..0] == [];
    assert Counted([a]) == map[a.0 := a.1];
    assert Counted([a, b]) == map[a.0 := a.1][b.0 := b.1];
  }

  lemma StatParses(periods: nat)
    ensures ParseStat(StatText(periods)) == Ok(Counts(periods, 0, 0))
  {
    var entries := [(PERIODS, periods), (THROTTLED, 0), (THROTTLED_MICROS, 0)];
    assert |PERIODS| == 10 && |THROTTLED| == 12 && |THROTTLED_MICROS| == 14;
    CountedThree(entries[0], entries[1], entries[2]);
    hide Counted, Value, ParseStat, StatLines, Unlines;
    StatRoundTrip(entries);
  }

  lemma HealthShown()
    ensures ShowsState(Healthy(), Config(), false)
  {
    QuotaRoundTrip(Quota(1, 1));
    StatParses(1);
    StatParses(2);
    hide ParseStat, ParseQuota, StatText, QuotaText;
  }

  lemma AuditClean()
    ensures Audited(CleanAudit()) && LeftClean(CleanAudit())
  {
    ChecksumIsDigest();
    AuditNames();
    hide IsDigest, Checksum, Blank, IsIdentifier;
    var a := CleanAudit();
    assert a.resourcesBefore["pod"] && !a.resourcesAfter["pod"] && "values.yaml" in a.workspaceBefore;
    assert a.actions[0].id == "a1";
  }

  lemma AuditNames()
    ensures !Blank("values.yaml") && IsIdentifier("a1")
  {
    assert Strip("values.yaml") == "values.yaml";
  }

  lemma ChecksumIsDigest()
    ensures IsDigest(Checksum())
  {
    var s := Checksum();
    assert s[..7] == "sha256:";
    assert forall i | 7 <= i < 71 :: s[i] == Zeros(64)[i - 7];
  }

  lemma ReviewFits(b: Binding, packet: Packet, status: ReviewStatus)
    requires |packet.answer.evidence| == 2
    ensures Fits(ReferenceFor(b), packet, ReviewWith(status)) && ReviewPasses(ReviewWith(status))
  {
    assert Strip("read") == "read";
  }

  // The captures

  predicate Proper(c: Capture) {
    IsIdentifier(c.name) && c.data != [] && ReferenceSource(c.name)
  }

  /** Distinct, named and not empty, with gapless reviews. */
  ghost predicate Sound(captures: seq<Capture>) {
    && DistinctCaptures(captures)
    && (forall c | c in captures :: Proper(c))
    && NumberedFrom1(captures, REVIEW_PREFIX)
    && (forall name | name in INPUTS :: Holds(captures, name))
  }

  lemma SoundSnoc(captures: seq<Capture>, bytes: Bytes)
    requires Sound(captures) && bytes != []
    ensures Sound(captures + [Capture(NextName(captures, REVIEW_PREFIX), bytes)])
    ensures NamesWith(captures + [Capture(NextName(captures, REVIEW_PREFIX), bytes)], REVIEW_PREFIX)
         == Numberings(REVIEW_PREFIX, |NamesWith(captures, REVIEW_PREFIX)| + 1)
  {
    hide NamesWith, Numbered, Numberings, INPUTS, Holds, DistinctCaptures, Proper;
    var k := |NamesWith(captures, REVIEW_PREFIX)|;
    var c := Capture(NextName(captures, REVIEW_PREFIX), bytes);
    ReviewProper(k + 1, bytes);
    NextNameUnused(captures, REVIEW_PREFIX);
    NumberedAfter(captures, c, REVIEW_PREFIX);
    NamesSnoc(captures, c, REVIEW_PREFIX);
    DistinctAppended(captures, c);
  }

  lemma ReviewProper(i: nat, bytes: Bytes)
    requires bytes != []
    ensures Proper(Capture(Numbered(REVIEW_PREFIX, i), bytes)) && REVIEW_PREFIX <= Numbered(REVIEW_PREFIX, i)
  {
    NumberedIdentifier(i);
    PrefixesDiffer(i);
    hide Numbered, IsIdentifier, INPUTS;
  }

  lemma DistinctAppended(captures: seq<Capture>, c: Capture)
    requires DistinctCaptures(captures) && !Holds(captures, c.name)
    ensures DistinctCaptures(captures + [c])
    ensures forall name | Holds(captures, name) :: Holds(captures + [c], name)
  {
    forall name | Holds(captures, name)
      ensures Holds(captures + [c], name)
    {
      var d :| d in captures && d.name == name;
      assert d in captures + [c];
    }
  }

  lemma {:induction false} NoneNamed(captures: seq<Capture>, prefix: string)
    requires forall c | c in captures :: !(prefix <= c.name)
    ensures NamesWith(captures, prefix) == []
  {
    if captures != [] {
      var n := |captures| - 1;
      assert captures == captures[..n] + [captures[n]] && captures[n] in captures;
      NoneNamed(captures[..n], prefix);
    }
  }

  lemma InputNamesPlain()
    ensures forall name | name in INPUTS :: IsIdentifier(name) && !(REVIEW_PREFIX <= name)
    ensures forall i, j | 0 <= i < j < |INPUTS| :: INPUTS[i] != INPUTS[j]
  {
    assert ADAPTER[0] == 'a' && MEASUREMENTS[0] == 'm' && LIFECYCLE[0] == 'l' && USAGE[0] == 'u'
      && REVIEW_PREFIX[0] == 'h';
  }

  lemma InputsHeld()
    ensures DistinctCaptures(Awaiting(0)) && forall name | name in INPUTS :: Holds(Awaiting(0), name)
    ensures forall c | c in Awaiting(0) :: c.name in INPUTS && c.data == AWAITING
  {
    InputNamesPlain();
    hide IsIdentifier;
    var captures := Awaiting(0);
    assert forall i | 0 <= i < 4 :: captures[i].name == INPUTS[i] && INPUTS[i] in INPUTS;
    assert forall i | 0 <= i < 4 :: captures[i] in captures;
  }

  lemma InputsSound()
    ensures Sound(Awaiting(0)) && NamesWith(Awaiting(0), REVIEW_PREFIX) == []
    ensures forall c | c in Awaiting(0) :: c.data == AWAITING
  {
    InputNamesPlain();
    InputsHeld();
    hide IsIdentifier, NamesWith, Numbered, Awaiting, INPUTS, DistinctCaptures, Holds;
    NoneNamed(Awaiting(0), REVIEW_PREFIX);
    assert Numberings(REVIEW_PREFIX, 0) == [];
  }

  lemma {:induction false} AwaitingSound(k: nat)
    ensures Sound(Awaiting(k)) && NamesWith(Awaiting(k), REVIEW_PREFIX) == Numberings(REVIEW_PREFIX, k)
    ensures forall c | c in Awaiting(k) :: c.data == AWAITING
  {
    hide Sound, Numbered, NamesWith;
    if k == 0 {
      InputsSound();
    } else {
      AwaitingSound(k - 1);
      SoundSnoc(Awaiting(k - 1), AWAITING);
    }
  }

  /** The captures are what a journal holds: distinct public names, nonempty bytes,
      and the reviews numbered from one; only the last review decides. */
  lemma ReviewedSound(n: nat)
    requires n > 0
    ensures Sound(Reviewed(n)) && NamesWith(Reviewed(n), REVIEW_PREFIX) == Numberings(REVIEW_PREFIX, n)
    ensures forall c | c in Reviewed(n) ::
      c.data == AWAITING || (c.data == DECIDING && c.name == Numbered(REVIEW_PREFIX, n))
    ensures Capture(Numbered(REVIEW_PREFIX, n), DECIDING) in Reviewed(n)
  {
    hide Sound, Numbered, NamesWith;
    AwaitingSound(n - 1);
    SoundSnoc(Awaiting(n - 1), DECIDING);
  }

  lemma ReviewBytes(n: nat, i: nat)
    requires 0 < i <= n
    ensures var sources := Contents(Reviewed(n));
      && Numbered(REVIEW_PREFIX, i) in sources
      && sources[Numbered(REVIEW_PREFIX, i)] == if i == n then DECIDING else AWAITING
  {
    hide Numbered, Contents, NamesWith, Reviewed;
    ReviewedSound(n);
    ContentsLookup(Reviewed(n));
    NamesHeld(Reviewed(n), REVIEW_PREFIX);
    var name := Numbered(REVIEW_PREFIX, i);
    assert name == Numberings(REVIEW_PREFIX, n)[i - 1] && name in Numberings(REVIEW_PREFIX, n);
    var c :| c in Reviewed(n) && c.name == name;
    if i < n && name == Numbered(REVIEW_PREFIX, n) {
      NumberedInjective(REVIEW_PREFIX, i, n);
      assert false;
    }
  }

  lemma ReviewedNamed(n: nat)
    requires n > 0
    ensures SourcesNamed(Contents(Reviewed(n)))
  {
    hide Contents, NamesWith, Reviewed, INPUTS, ReferenceSource, NumberedFrom1;
    ReviewedSound(n);
    NamesHeld(Reviewed(n), REVIEW_PREFIX);
  }

  lemma ReviewsDecide(b: Binding, packet: Packet, n: nat)
    requires n > 0 && |packet.answer.evidence| == 2
    ensures SingleDecision(ReferenceFor(b), packet, Contents(Reviewed(n)), Numberings(REVIEW_PREFIX, n),
      ReviewWith(Decided))
  {
    hide Fits, Contents, Reviewed, Numbered, ReviewWith;
    var names, sources := Numberings(REVIEW_PREFIX, n), Contents(Reviewed(n));
    ReviewFits(b, packet, NeedsReview);
    ReviewFits(b, packet, Decided);
    ReviewRead(b);
    forall i | 0 <= i < n
      ensures names[i] in sources && sources[names[i]] == if i == n - 1 then DECIDING else AWAITING
    {
      ReviewBytes(n, i + 1);
    }
    hide ReferenceFor;
    forall name | name in names[..n - 1]
      ensures ReviewIs(ReferenceFor(b), packet, sources, name, NeedsReview)
    {
      var i :| 0 <= i < n - 1 && names[i] == name;
    }
  }

  lemma ReviewRead(b: Binding)
    ensures ReferenceFor(b).docs.review(AWAITING) == Ok(ReviewWith(NeedsReview))
      && ReviewWith(NeedsReview).status == NeedsReview
    ensures ReferenceFor(b).docs.review(DECIDING) == Ok(ReviewWith(Decided)) && ReviewWith(Decided).status == Decided
  {
    assert DECIDING[0] == 2 && AWAITING[0] == 1;
  }

  // The success

  lemma Readers(b: Binding, bytes: Bytes)
    ensures var docs := ReferenceFor(b).docs;
      && docs.adapter(bytes) == Ok(Envelope(b, OneCall()))
      && docs.measurements(bytes) == Ok(Envelope(b, Healthy()))
      && docs.lifecycle(bytes) == Ok(Envelope(b, CleanAudit()))
      && docs.usage(bytes) == Ok(Envelope(b, NoUsage()))
      && docs.identity(Config()) == CONFIGURATION
    ensures ReferenceFor(b).config == Config()
  {
    hide Config, OneCall, Healthy, CleanAudit, NoUsage, ReadReview;
  }

  lemma AssignmentFits(b: Binding)
    requires HealthyAssignment(b.assignment)
    ensures ReferenceAssignment(ReferenceFor(b), b.assignment)
  {
    Readers(b, []);
    hide ReferenceFor, Config;
    assert |HealthyIncident()| != |FaultIncident()|;
  }

  lemma Gathers(b: Binding, n: nat)
    requires n > 0 && HealthyAssignment(b.assignment)
    ensures Gather(ReferenceFor(b), b, Contents(Reviewed(n)))
         == Ok(Gathered(OneCall(), Healthy(), CleanAudit(), NoUsage()))
  {
    hide Configuration.Valid, SourcesNamed, Contents, Reviewed, Healthy, CleanAudit, OneCall, NoUsage, Config,
         ReferenceFor, ReferenceAssignment;
    ConfigValid();
    ReviewedNamed(n);
    AssignmentFits(b);
    var sources := Contents(Reviewed(n));
    InputsIn(sources);
    Readers(b, sources[ADAPTER]);
    Readers(b, sources[MEASUREMENTS]);
    Readers(b, sources[LIFECYCLE]);
    Readers(b, sources[USAGE]);
  }

  lemma InputsIn(sources: Sources)
    requires SourcesNamed(sources)
    ensures ADAPTER in sources && MEASUREMENTS in sources && LIFECYCLE in sources && USAGE in sources
  {
    assert ADAPTER == INPUTS[0] && MEASUREMENTS == INPUTS[1] && LIFECYCLE == INPUTS[2] && USAGE == INPUTS[3];
    assert INPUTS[0] in INPUTS && INPUTS[1] in INPUTS && INPUTS[2] in INPUTS && INPUTS[3] in INPUTS;
  }

  lemma CallAccepted(aliases: Aliases)
    ensures FirstValid(aliases, OneCall().calls, 0, Answer()) && Completed(OneCall()) && ValidUsage(NoUsage())
    ensures Hits(Answer(), TARGET, false)
  {
    hide AnswerFields, Validated;
    AnswerAccepted(aliases);
  }

  lemma CitesRequired()
    ensures Cited(Answer()) == RequiredSignals(TARGET) && |Answer().evidence| == 2
  {
    var s := Answer();
    assert s.evidence[0] in s.evidence && s.evidence[1] in s.evidence;
  }

  /** For every number of reviews the attempt is an earned success. */
  lemma SuccessWithAnyReviews(b: Binding, n: nat)
    requires n > 0 && HealthyAssignment(b.assignment)
    ensures Earned(ReferenceFor(b), b, Contents(Reviewed(n)), Numberings(REVIEW_PREFIX, n), 0, Answer(),
      ReviewWith(Decided))
  {
    hide Contents, Reviewed, Healthy, CleanAudit, OneCall, NoUsage, Answer, Config, ReferenceFor, Gather, ShowsState,
         SingleDecision, Audited, LeftClean, Configuration.Valid, SourcesNamed, Buildable, Table, Measured,
         Numberings, ReviewWith, Cited, RequiredSignals, FirstValid, Hits, ReviewPasses, Completed, ValidUsage, Fits;
    var ref, sources := ReferenceFor(b), Contents(Reviewed(n));
    ConfigValid();
    Readers(b, []);
    Gathers(b, n);
    ReviewedNamed(n);
    HealthShown();
    AuditClean();
    CitesRequired();
    CallAccepted(Table(ref.config.componentAliases));
    ConfigParts();
    var packet := PacketOf(ref, b, sources, Answer(), ShownObservations());
    PacketEvidence(ref, b, sources, Answer(), ShownObservations());
    ReviewsDecide(b, packet, n);
    ReviewFits(b, packet, Decided);
  }

  lemma ConfigParts()
    ensures Config().target == TARGET
  {
  }

  lemma PacketEvidence(ref: Reference, b: Binding, sources: Sources, answer: Submission, o: Observations)
    requires SourcesNamed(sources)
    ensures PacketOf(ref, b, sources, answer, o).answer.evidence == answer.evidence
  {
  }

  function ShownObservations(): Observations
    requires ShowsState(Healthy(), Config(), false)
  {
    Measured(Healthy(), Config().target, Config().baselineCpuMax).value
  }
}

/** What a human review must say, and that it decides one attempt only
    (adjudication.py, config, packet and decision). */
module BoundReviews {
  import opened Results
  import opened ByteStrings
  import opened Text
  import opened ComponentMaps
  import opened Submissions
  import opened OutcomeChecks
  import opened Verification
  import opened AcceptanceConditions
  import opened PreparedRosters
  import opened CpuEvidence
  import opened TrialOutcomes
  import opened NumberedNames
  import opened Adjudication
  import opened JournalRuns
  import opened ReviewImports
  import opened ReplayedOutcomes

  /** The alias table maps some name to this one. */
  ghost predicate NamesTarget(raw: seq<(string, string)>, target: string) {
    exists i :: 0 <= i < |raw| && Trimmed(raw[i].1, target)
  }

  predicate Registers(reviewers: seq<string>) {
    && |reviewers| > 0 && (forall i | 0 <= i < |reviewers| :: PublicName(reviewers[i]))
    && forall i, j | 0 <= i < |reviewers| && 0 <= j < |reviewers| && reviewers[i] == reviewers[j] :: i == j
  }

  /** A configuration names its target by one of the table's canonical names, a finite
      baseline quota, and distinct public reviewers. */
  ghost predicate Configures(c: Configuration) {
    && PublicName(c.target) && Buildable(c.componentAliases) && NamesTarget(c.componentAliases, c.target)
    && (exists q :: ParseQuota(c.baselineCpuMax) == Ok(q)) && Registers(c.reviewers)
  }

  lemma TargetNamed(raw: seq<(string, string)>, target: string)
    requires Buildable(raw) && target != ""
    ensures target in Table(raw).Values <==> NamesTarget(raw, target)
  {
    hide Trimmed;
    var m := Table(raw);
    if target in m.Values {
      var k :| k in m && m[k] == target;
      assert (k, target) in Entries(raw);
      var i :| 0 <= i < |raw| && Strip(raw[i].1) == target;
      StripExactly(raw[i].1, target);
    }
    if NamesTarget(raw, target) {
      var i :| 0 <= i < |raw| && Trimmed(raw[i].1, target);
      StripExactly(raw[i].1, target);
      assert raw[i] in raw && (NormalKey(raw[i].0), Strip(raw[i].1)) in Entries(raw);
      assert m[NormalKey(raw[i].0)] == target;
    }
  }

  lemma RegisteredExactly(reviewers: seq<string>)
    ensures Registers(reviewers) <==>
      && reviewers != []
      && (forall i, j | 0 <= i < j < |reviewers| :: reviewers[i] != reviewers[j])
      && forall r | r in reviewers :: IsIdentifier(r)
  {
    hide IsIdentifier, PublicName;
    forall s
      ensures IsIdentifier(s) <==> PublicName(s)
    {
      ShapesExactly(s);
    }
    assert forall i | 0 <= i < |reviewers| :: reviewers[i] in reviewers;
  }

  lemma ConfiguredExactly(c: Configuration)
    ensures c.Valid() <==> Configures(c)
  {
    hide Buildable, Table, ParseQuota, IsIdentifier, PublicName, NamesTarget, Registers;
    ShapesExactly(c.target);
    RegisteredExactly(c.reviewers);
    if PublicName(c.target) && Buildable(c.componentAliases) {
      PublicNotEmpty(c.target);
      TargetNamed(c.componentAliases, c.target);
    }
  }

  lemma PublicNotEmpty(s: string)
    ensures PublicName(s) ==> s != ""
  {
  }

  /** A registered reviewer's complete reading of this packet: one reading for each
      citation, in order, each with its reason; a decision is explicit throughout. */
  predicate Reads(ref: Reference, packet: Packet, r: Review) {
    && r.packetDigest == ref.docs.packetDigest(packet) && r.rubricDigest == ref.rubricDigest
    && (exists i | 0 <= i < |ref.config.reviewers| :: ref.config.reviewers[i] == r.reviewer)
    && Named(r.rationale) && |r.citations| == |packet.answer.evidence|
    && (forall i | 0 <= i < |r.citations| :: r.citations[i].index == i && Named(r.citations[i].rationale))
    && match r.status
       case NeedsReview => true
       case Decided =>
         && r.mechanismPassed.Some?
         && forall i | 0 <= i < |r.citations| :: r.citations[i].relevant.Some? && r.citations[i].supported.Some?
  }

  lemma FitsExactly(ref: Reference, packet: Packet, r: Review)
    ensures Fits(ref, packet, r) <==> Reads(ref, packet, r)
  {
    hide Named, Blank;
    forall name
      ensures Named(name) <==> !Blank(name)
    {
      NamedExactly(name);
    }
  }

  /** Different packets, and different captured documents, have different digests. */
  ghost predicate NoClash(ref: Reference, p: Packet, q: Packet, sources: Sources, others: Sources) {
    && (ref.docs.packetDigest(p) == ref.docs.packetDigest(q) ==> p == q)
    && forall m, n | m in sources && n in others ::
         ref.docs.digest(sources[m]) == ref.docs.digest(others[n]) ==> sources[m] == others[n]
  }

  /** A review fits the answer of one attempt only: whatever else it fits is the same
      attempt's packet, with the same documents, the same observations and the same
      answer but for its submitted spellings. */
  lemma ReviewBindsAttempt(ref: Reference, b: Binding, c: Binding, sources: Sources, others: Sources,
                           s: Submission, t: Submission, o: Observations, q: Observations, r: Review)
    requires Gather(ref, b, sources).Ok? && Gather(ref, c, others).Ok?
    requires Fits(ref, PacketOf(ref, b, sources, s, o), r) && Fits(ref, PacketOf(ref, c, others, t, q), r)
    requires NoClash(ref, PacketOf(ref, b, sources, s, o), PacketOf(ref, c, others, t, q), sources, others)
    ensures b == c && o == q
    ensures Gather(ref, b, sources) == Gather(ref, c, others)
    ensures s.(componentAsSubmitted := None, connectionAsSubmitted := None)
         == t.(componentAsSubmitted := None, connectionAsSubmitted := None)
  {
    var g, h := Gather(ref, b, sources).value, Gather(ref, c, others).value;
    GatheredExactly(ref, b, sources, g);
    GatheredExactly(ref, c, others, h);
    SamePacket(ref, b, c, sources, others, s, t, o, q);
    hide Gather, Fits, PacketOf, Configuration.Valid, SourcesNamed;
    GatheredExactly(ref, c, others, g);
  }

  lemma SamePacket(ref: Reference, b: Binding, c: Binding, sources: Sources, others: Sources,
                   s: Submission, t: Submission, o: Observations, q: Observations)
    requires SourcesNamed(sources) && SourcesNamed(others)
    requires NoClash(ref, PacketOf(ref, b, sources, s, o), PacketOf(ref, c, others, t, q), sources, others)
    requires PacketOf(ref, b, sources, s, o) == PacketOf(ref, c, others, t, q)
    ensures sources["adapter"] == others["adapter"] && sources["measurements"] == others["measurements"]
    ensures sources["lifecycle"] == others["lifecycle"] && sources["usage"] == others["usage"]
    ensures o == q
    ensures s.(componentAsSubmitted := None, connectionAsSubmitted := None)
         == t.(componentAsSubmitted := None, connectionAsSubmitted := None)
  {
    SourcesExactly(sources);
  }

  // Packets and imports

  /** What a reviewer of this attempt is shown: digests of its four documents, the
      assigned state, and the first valid answer without its submitted spellings. */
  ghost predicate Presents(ref: Reference, b: Binding, sources: Sources, g: Gathered, o: Observations, p: Packet) {
    && ReadsInputs(ref, b, sources, g) && g.adapter.completion != RemediationFailure
    && Measured(g.measurements, ref.config.target, ref.config.baselineCpuMax) == Ok(o)
    && p.rubricDigest == ref.rubricDigest && p.expectedFault == b.assignment.expectedFault && p.observations == o
    && p.captureDigests == [ref.docs.digest(sources["adapter"]), ref.docs.digest(sources["measurements"]),
                            ref.docs.digest(sources["lifecycle"]), ref.docs.digest(sources["usage"])]
    && exists s :: Answered(ref, g, s) && p.answer == s.(componentAsSubmitted := None, connectionAsSubmitted := None)
  }

  lemma PacketShows(ref: Reference, b: Binding, sources: Sources, s: Submission, o: Observations)
    requires SourcesNamed(sources)
    ensures "adapter" in sources && "measurements" in sources && "lifecycle" in sources && "usage" in sources
    ensures PacketOf(ref, b, sources, s, o) ==
      Packet(ref.rubricDigest,
             [ref.docs.digest(sources["adapter"]), ref.docs.digest(sources["measurements"]),
              ref.docs.digest(sources["lifecycle"]), ref.docs.digest(sources["usage"])],
             b.assignment.expectedFault, s.(componentAsSubmitted := None, connectionAsSubmitted := None), o)
  {
    SourcesExactly(sources);
  }

  lemma PresentedPacket(ref: Reference, b: Binding, sources: Sources, g: Gathered, o: Observations, p: Packet)
    requires Presents(ref, b, sources, g, o, p)
    ensures PacketFrom(ref, b, sources) == Ok(p)
  {
    hide Gather, Measured, Recording, Answered, ReadsInputs, PacketOf, Configuration.Valid, SourcesNamed;
    PresentsReads(ref, b, sources, g, o, p);
    var s :| Answered(ref, g, s) && p.answer == s.(componentAsSubmitted := None, connectionAsSubmitted := None);
    AnsweredRecorded(ref, g, s);
    PacketShows(ref, b, sources, s, o);
  }

  lemma PresentsReads(ref: Reference, b: Binding, sources: Sources, g: Gathered, o: Observations, p: Packet)
    requires Presents(ref, b, sources, g, o, p)
    ensures Gather(ref, b, sources) == Ok(g) && ref.config.Valid() && SourcesNamed(sources)
  {
    hide Gather, Measured, ReadsInputs, Answered;
    GatheredExactly(ref, b, sources, g);
  }

  lemma PacketPresented(ref: Reference, b: Binding, sources: Sources, p: Packet)
    requires PacketFrom(ref, b, sources) == Ok(p)
    ensures exists g, o :: Presents(ref, b, sources, g, o, p)
  {
    hide Gather, Measured, Recording, Answered, ReadsInputs, PacketOf, Configuration.Valid, SourcesNamed;
    var g := Gather(ref, b, sources).value;
    var o := Measured(g.measurements, ref.config.target, ref.config.baselineCpuMax).value;
    var s := Recording(ref, g.adapter).submission.value;
    GatheredExactly(ref, b, sources, g);
    AnsweredRecorded(ref, g, s);
    PacketShows(ref, b, sources, s, o);
    assert Presents(ref, b, sources, g, o, p);
  }

  /** There is a packet, and which one, exactly for a readable attempt with an answer. */
  lemma PacketExactly(ref: Reference, b: Binding, sources: Sources, p: Packet)
    ensures PacketFrom(ref, b, sources) == Ok(p) <==> exists g, o :: Presents(ref, b, sources, g, o, p)
  {
    hide PacketFrom, Presents;
    if PacketFrom(ref, b, sources) == Ok(p) {
      PacketPresented(ref, b, sources, p);
    }
    if g, o :| Presents(ref, b, sources, g, o, p) {
      PresentedPacket(ref, b, sources, g, o, p);
    }
  }

  /** A well formed review of this packet, in place of the next one. */
  ghost predicate Joins(ref: Reference, packet: Packet, captures: seq<Capture>, bytes: Bytes) {
    && AllAwait(ref, packet, Contents(captures), NamesWith(captures, "human-review-"))
    && exists r :: ref.docs.review(bytes) == Ok(r) && Reads(ref, packet, r)
  }

  /** The log with the next review: its name is next, and earlier sources stay. */
  lemma NextReview(captures: seq<Capture>, bytes: Bytes)
    requires DistinctCaptures(captures) && NumberedFrom1(captures, REVIEW_PREFIX)
    ensures var names, name := NamesWith(captures, REVIEW_PREFIX), NextName(captures, REVIEW_PREFIX);
      var longer := captures + [Capture(name, bytes)];
      && NamesWith(longer, REVIEW_PREFIX) == names + [name] == Numberings(REVIEW_PREFIX, |names| + 1)
      && name in Contents(longer) && Contents(longer)[name] == bytes
      && !Holds(captures, name)
      && forall n | n in names :: n in Contents(captures) && n in Contents(longer)
                                  && Contents(captures)[n] == Contents(longer)[n]
  {
    var names := NamesWith(captures, REVIEW_PREFIX);
    var c := Capture(NextName(captures, REVIEW_PREFIX), bytes);
    NextNameUnused(captures, REVIEW_PREFIX);
    PrefixesDiffer(|names| + 1);
    NamesSnoc(captures, c, REVIEW_PREFIX);
    ContentsSnoc(captures, c);
    NumberedAfter(captures, c, REVIEW_PREFIX);
    NamesHeld(captures, REVIEW_PREFIX);
    hide NamesWith, Contents, Numbered, Holds, DistinctCaptures;
  }

  lemma ForeseenExactly(ref: Reference, packet: Packet, captures: seq<Capture>, bytes: Bytes)
    requires DistinctCaptures(captures) && NumberedFrom1(captures, REVIEW_PREFIX)
    ensures !Foreseen(ref, packet, captures, bytes).Malformed? <==> Joins(ref, packet, captures, bytes)
  {
    hide Foreseen, NamesWith, Contents, NextName, Fits, Reads, AllAwait, Holds, DistinctCaptures, Numberings, Numbered;
    var names := NamesWith(captures, REVIEW_PREFIX);
    var c := Capture(NextName(captures, REVIEW_PREFIX), bytes);
    assert captures[..|captures|] == captures;
    NextReview(captures, bytes);
    ForeseenHolds(ref, packet, captures, |captures|, bytes);
    ScanMeaning(ref, packet, Contents(captures), names);
    assert (names + [c.name])[..|names|] == names;
    ScanFrame(ref, packet, Contents(captures), Contents(captures + [c]), names);
    forall r
      ensures Fits(ref, packet, r) <==> Reads(ref, packet, r)
    {
      FitsExactly(ref, packet, r);
    }
    assert REVIEW_PREFIX == "human-review-";
  }

  /** One import keeps its raw input under the next number, and the review itself, under
      its own next number, exactly when it is a registered reviewer's complete reading of
      this packet and nothing has been decided. */
  lemma ImportExactly(ref: Reference, b: Binding, captures: seq<Capture>, bytes: Bytes, packet: Packet)
    requires ReviewLog(ref, b, captures) && PacketFor(ref, b, captures) == Ok(packet) && bytes != []
    ensures var n, raws, reviews := |captures|, |NamesWith(captures, "review-input-")|,
      |NamesWith(captures, "human-review-")|;
      Imports(ref, b, captures, [KeepInput(n, bytes), KeepReview(n, bytes)])
      == captures + [Capture(Numbered("review-input-", raws + 1), bytes)]
         + if Joins(ref, packet, captures, bytes) then [Capture(Numbered("human-review-", reviews + 1), bytes)] else []
  {
    hide PacketFor, Foreseen, NamesWith, WellDecided, SomePacket, RawKept, Numbered, DistinctCaptures, NumberedFrom1,
         Joins, Imports;
    ImportAlone(ref, b, captures, bytes);
    ForeseenExactly(ref, packet, captures, bytes);
    assert REVIEW_PREFIX == "human-review-" && INPUT_PREFIX == "review-input-";
  }
}

/** Importing human reviews into an open reference attempt: what any interleaving
    of import commands leaves in the store (adjudication.py, main). */
module ReviewImports {
  import opened Results
  import opened ByteStrings
  import opened Text
  import opened Submissions
  import opened TrialOutcomes
  import opened OutcomeChecks
  import opened Verification
  import opened CpuEvidence
  import opened NumberedNames
  import opened Adjudication
  import opened Journals
  import opened JournalRefinement
  import opened JournalRuns

  predicate Holds(captures: seq<Capture>, name: string) {
    exists c | c in captures :: c.name == name
  }

  /** The store's capture of one source: appended, or refused. */
  function CapturedAs(captures: seq<Capture>, name: string, bytes: Bytes): seq<Capture> {
    if IsIdentifier(name) && bytes != [] && !Holds(captures, name) then captures + [Capture(name, bytes)] else captures
  }

  /** `{**sources, name: bytes}`. */
  function Overlaid(captures: seq<Capture>, name: string, bytes: Bytes): seq<Capture> {
    if !Holds(captures, name) then captures + [Capture(name, bytes)]
    else seq(|captures|, i requires 0 <= i < |captures| =>
               if captures[i].name == name then Capture(name, bytes) else captures[i])
  }

  /** The packet for a set of sources, once they hold an answer to review. */
  function PacketFrom(ref: Reference, b: Binding, sources: Sources): Result<Packet> {
    var g :- Gather(ref, b, sources);
    var answer := Recording(ref, g.adapter).submission;
    :- Need(g.adapter.completion != RemediationFailure && answer.Some?);
    var o :- Measured(g.measurements, ref.config.target, ref.config.baselineCpuMax);
    Ok(PacketOf(ref, b, sources, answer.value, o))
  }

  function PacketFor(ref: Reference, b: Binding, captures: seq<Capture>): Result<Packet> {
    PacketFrom(ref, b, Contents(captures))
  }

  function NextName(captures: seq<Capture>, prefix: string): string {
    Numbered(prefix, |NamesWith(captures, prefix)| + 1)
  }

  /** The steps of the import commands running on one attempt. A command looks at
      the sources once, when `seen` of them are stored; it then keeps its raw
      input, and if the review is well formed in what it saw, the review. Other
      captures may come between. */
  datatype Step =
    | KeepInput(seen: nat, bytes: Bytes)
    | KeepReview(seen: nat, bytes: Bytes)
    | KeepOther(name: string, bytes: Bytes)

  function Snapshot(captures: seq<Capture>, seen: nat): seq<Capture> {
    if seen <= |captures| then captures[..seen] else captures
  }

  /** The decision a command computes before it keeps the review. */
  function Foreseen(ref: Reference, packet: Packet, snapshot: seq<Capture>, bytes: Bytes): Decision {
    var sources := Overlaid(snapshot, NextName(snapshot, REVIEW_PREFIX), bytes);
    Decide(ref, packet, Contents(sources), NamesWith(sources, REVIEW_PREFIX))
  }

  /** The capture an import step makes, given what is stored; none when it stops. */
  function Issued(ref: Reference, b: Binding, captures: seq<Capture>, step: Step): Option<Capture> {
    match step
    case KeepInput(seen, bytes) =>
      var snapshot := Snapshot(captures, seen);
      if PacketFor(ref, b, snapshot).Err? then None else Some(Capture(NextName(snapshot, INPUT_PREFIX), bytes))
    case KeepReview(seen, bytes) =>
      var snapshot := Snapshot(captures, seen);
      var packet := PacketFor(ref, b, snapshot);
      if packet.Err? || Capture(NextName(snapshot, INPUT_PREFIX), bytes) !in captures
         || Foreseen(ref, packet.value, snapshot, bytes).Malformed? then None
      else Some(Capture(NextName(snapshot, REVIEW_PREFIX), bytes))
    case KeepOther(name, bytes) =>
      if REVIEW_PREFIX <= name || INPUT_PREFIX <= name then None else Some(Capture(name, bytes))
  }

  function Taken(ref: Reference, b: Binding, captures: seq<Capture>, step: Step): seq<Capture> {
    match Issued(ref, b, captures, step)
    case None => captures
    case Some(c) => CapturedAs(captures, c.name, c.data)
  }

  function Imports(ref: Reference, b: Binding, captures: seq<Capture>, steps: seq<Step>): seq<Capture>
    decreases |steps|
  {
    if steps == [] then captures else Imports(ref, b, Taken(ref, b, captures, steps[0]), steps[1..])
  }

  // The invariant

  ghost predicate NumberedFrom1(captures: seq<Capture>, prefix: string) {
    NamesWith(captures, prefix) == Numberings(prefix, |NamesWith(captures, prefix)|)
  }

  /** Every stored review's bytes are also stored as a raw input. */
  ghost predicate RawKept(captures: seq<Capture>) {
    forall c | c in captures && REVIEW_PREFIX <= c.name ::
      exists d | d in captures :: INPUT_PREFIX <= d.name && d.data == c.data
  }

  /** Under every packet any command could have seen, the stored reviews ask for
      more review until at most one, the last, decides. */
  ghost predicate WellDecided(ref: Reference, b: Binding, captures: seq<Capture>) {
    forall n | 0 <= n <= |captures| && PacketFor(ref, b, captures[..n]).Ok? ::
      !Decide(ref, PacketFor(ref, b, captures[..n]).value, Contents(captures),
        NamesWith(captures, REVIEW_PREFIX)).Malformed?
  }

  ghost predicate SomePacket(ref: Reference, b: Binding, captures: seq<Capture>) {
    exists n :: 0 <= n <= |captures| && PacketFor(ref, b, captures[..n]).Ok?
  }

  ghost predicate ReviewLog(ref: Reference, b: Binding, captures: seq<Capture>) {
    && DistinctCaptures(captures)
    && NumberedFrom1(captures, REVIEW_PREFIX) && NumberedFrom1(captures, INPUT_PREFIX)
    && RawKept(captures)
    && WellDecided(ref, b, captures)
    && (NamesWith(captures, REVIEW_PREFIX) != [] ==> SomePacket(ref, b, captures))
  }

  // Frames

  lemma NamesSnoc(captures: seq<Capture>, c: Capture, prefix: string)
    ensures NamesWith(captures + [c], prefix) == NamesWith(captures, prefix) + if prefix <= c.name then [c.name] else []
  {
    assert (captures + [c])[..|captures|] == captures;
  }

  lemma ContentsSnoc(captures: seq<Capture>, c: Capture)
    ensures Contents(captures + [c]) == Contents(captures)[c.name := c.data]
  {
    assert (captures + [c])[..|captures|] == captures;
  }

  lemma {:induction false} NamesPrefix(captures: seq<Capture>, n: nat, prefix: string)
    requires n <= |captures|
    ensures NamesWith(captures[..n], prefix) <= NamesWith(captures, prefix)
    decreases |captures|
  {
    if n == |captures| {
      assert captures[..n] == captures;
    } else {
      assert captures[..|captures| - 1][..n] == captures[..n];
      NamesPrefix(captures[..|captures| - 1], n, prefix);
    }
  }

  lemma ContentsPrefix(captures: seq<Capture>, n: nat)
    requires n <= |captures| && DistinctCaptures(captures)
    ensures forall name | name in Contents(captures[..n]) ::
      name in Contents(captures) && Contents(captures)[name] == Contents(captures[..n])[name]
  {
    ContentsLookup(captures);
    ContentsLookup(captures[..n]);
  }

  lemma NamesHeld(captures: seq<Capture>, prefix: string)
    requires DistinctCaptures(captures)
    ensures forall name :: name in Contents(captures) <==> Holds(captures, name)
    ensures forall name | name in NamesWith(captures, prefix) :: prefix <= name && name in Contents(captures)
    ensures forall name | Holds(captures, name) && prefix <= name :: name in NamesWith(captures, prefix)
  {
    ContentsLookup(captures);
    NamesMembers(captures, prefix);
  }

  /** The scan looks only at the sources it names. */
  lemma {:induction false} ScanFrame(ref: Reference, packet: Packet, s: Sources, t: Sources, names: seq<string>)
    requires forall name | name in names :: name in s && name in t && s[name] == t[name]
    ensures Scan(ref, packet, s, names) == Scan(ref, packet, t, names)
  {
    hide Fits;
    if names != [] {
      var n := |names| - 1;
      ScanFrame(ref, packet, s, t, names[..n]);
      assert names[n] in names;
    }
  }

  lemma SameGathered(ref: Reference, b: Binding, s: Sources, t: Sources)
    requires Gather(ref, b, s).Ok? && Gather(ref, b, t).Ok?
    requires forall name | name in s :: name in t && s[name] == t[name]
    ensures Gather(ref, b, s) == Gather(ref, b, t)
    ensures SourcesNamed(s) && SourcesNamed(t)
    ensures forall answer, o :: PacketOf(ref, b, s, answer, o) == PacketOf(ref, b, t, answer, o)
  {
    hide Configuration.Valid, ReferenceAssignment, ReferenceSource;
    assert ADAPTER in INPUTS && MEASUREMENTS in INPUTS && LIFECYCLE in INPUTS && USAGE in INPUTS;
  }

  lemma SamePacket(ref: Reference, b: Binding, s: Sources, t: Sources)
    requires PacketFrom(ref, b, s).Ok? && PacketFrom(ref, b, t).Ok?
    requires forall name | name in s :: name in t && s[name] == t[name]
    ensures PacketFrom(ref, b, s) == PacketFrom(ref, b, t)
  {
    hide Gather, PacketOf, Measured, Recorded, Configuration.Valid, ReferenceAssignment, SourcesNamed;
    SameGathered(ref, b, s, t);
  }

  /** A packet depends only on the four inputs, so it never changes. */
  lemma PacketStable(ref: Reference, b: Binding, captures: seq<Capture>, n: nat, m: nat)
    requires n <= m <= |captures| && DistinctCaptures(captures)
    requires PacketFor(ref, b, captures[..n]).Ok? && PacketFor(ref, b, captures[..m]).Ok?
    ensures PacketFor(ref, b, captures[..n]) == PacketFor(ref, b, captures[..m])
  {
    hide Contents, PacketFrom;
    assert captures[..m][..n] == captures[..n];
    ContentsPrefix(captures[..m], n);
    SamePacket(ref, b, Contents(captures[..n]), Contents(captures[..m]));
  }

  // Each step keeps the invariant

  lemma HeldGrows(captures: seq<Capture>, name: string, bytes: Bytes)
    ensures captures <= CapturedAs(captures, name, bytes)
    ensures DistinctCaptures(captures) ==> DistinctCaptures(CapturedAs(captures, name, bytes))
  {
  }

  lemma NumberingsSnoc(prefix: string, k: nat)
    ensures Numberings(prefix, k + 1) == Numberings(prefix, k) + [Numbered(prefix, k + 1)]
  {
    hide Numbered;
  }

  lemma NumberHeld(captures: seq<Capture>, prefix: string, k: nat)
    requires DistinctCaptures(captures) && NumberedFrom1(captures, prefix) && k < |NamesWith(captures, prefix)|
    ensures Holds(captures, Numbered(prefix, k + 1))
  {
    hide NamesWith, Contents, Numbered;
    NamesHeld(captures, prefix);
    assert NamesWith(captures, prefix)[k] in NamesWith(captures, prefix);
  }

  /** A stale snapshot's next name is free only when nothing was added since. */
  lemma NextNameFree(captures: seq<Capture>, n: nat, prefix: string)
    requires n <= |captures| && DistinctCaptures(captures) && NumberedFrom1(captures, prefix)
    requires !Holds(captures, NextName(captures[..n], prefix))
    ensures NamesWith(captures[..n], prefix) == NamesWith(captures, prefix)
    ensures NextName(captures[..n], prefix) == NextName(captures, prefix)
  {
    hide NamesWith, Numbered, Numberings, DistinctCaptures, Holds;
    NamesPrefix(captures, n, prefix);
    if |NamesWith(captures[..n], prefix)| < |NamesWith(captures, prefix)| {
      NumberHeld(captures, prefix, |NamesWith(captures[..n], prefix)|);
      assert false;
    }
  }

  /** The next name of a numbered prefix is always free. */
  lemma NextNameUnused(captures: seq<Capture>, prefix: string)
    requires DistinctCaptures(captures) && NumberedFrom1(captures, prefix)
    ensures !Holds(captures, NextName(captures, prefix))
  {
    NamesHeld(captures, prefix);
    hide NamesWith, Contents, Padded;
    var names := NamesWith(captures, prefix);
    var next := NextName(captures, prefix);
    if Holds(captures, next) {
      assert prefix <= next;
      var i :| 0 <= i < |names| && names[i] == next;
      NumberedInjective(prefix, i + 1, |names| + 1);
    }
  }

  lemma NumberedAfter(captures: seq<Capture>, c: Capture, prefix: string)
    requires NumberedFrom1(captures, prefix)
    requires prefix <= c.name ==> c.name == NextName(captures, prefix)
    ensures NumberedFrom1(captures + [c], prefix)
  {
    hide Numbered, NamesWith, Numberings;
    NamesSnoc(captures, c, prefix);
    NumberingsSnoc(prefix, |NamesWith(captures, prefix)|);
  }

  /** A capture that is not a review leaves the decision as it is. */
  lemma DecisionKept(ref: Reference, packet: Packet, captures: seq<Capture>, c: Capture)
    requires DistinctCaptures(captures) && !Holds(captures, c.name) && !(REVIEW_PREFIX <= c.name)
    ensures NamesWith(captures + [c], REVIEW_PREFIX) == NamesWith(captures, REVIEW_PREFIX)
    ensures Decide(ref, packet, Contents(captures + [c]), NamesWith(captures + [c], REVIEW_PREFIX))
         == Decide(ref, packet, Contents(captures), NamesWith(captures, REVIEW_PREFIX))
  {
    hide NamesWith, Contents, Scan, Numberings;
    NamesSnoc(captures, c, REVIEW_PREFIX);
    ContentsSnoc(captures, c);
    NamesHeld(captures, REVIEW_PREFIX);
    ScanFrame(ref, packet, Contents(captures), Contents(captures + [c]), NamesWith(captures, REVIEW_PREFIX));
  }

  /** The snapshot's sources and the new review are all found in the longer log. */
  lemma ForeseenSources(captures: seq<Capture>, n: nat, c: Capture)
    requires n <= |captures| && DistinctCaptures(captures) && !Holds(captures, c.name)
    ensures !Holds(captures[..n], c.name)
    ensures forall name | name in NamesWith(captures[..n] + [c], REVIEW_PREFIX) ::
      var s, t := Contents(captures[..n] + [c]), Contents(captures + [c]);
      name in s && name in t && s[name] == t[name]
  {
    var snapshot := captures[..n];
    NamesSnoc(snapshot, c, REVIEW_PREFIX);
    ContentsSnoc(snapshot, c);
    ContentsSnoc(captures, c);
    ContentsPrefix(captures, n);
    NamesHeld(snapshot, REVIEW_PREFIX);
    hide NamesWith, Contents;
  }

  /** A review foreseen on a snapshot is decided the same way when it is stored. */
  lemma ForeseenHolds(ref: Reference, packet: Packet, captures: seq<Capture>, n: nat, bytes: Bytes)
    requires n <= |captures| && DistinctCaptures(captures) && NumberedFrom1(captures, REVIEW_PREFIX)
    requires !Holds(captures, NextName(captures[..n], REVIEW_PREFIX))
    ensures var c := Capture(NextName(captures[..n], REVIEW_PREFIX), bytes);
      Foreseen(ref, packet, captures[..n], bytes)
        == Decide(ref, packet, Contents(captures + [c]), NamesWith(captures + [c], REVIEW_PREFIX))
  {
    hide NamesWith, Contents, Scan, Numberings, NextName, DistinctCaptures, NumberedFrom1, Holds;
    var snapshot := captures[..n];
    var c := Capture(NextName(snapshot, REVIEW_PREFIX), bytes);
    NextNameFree(captures, n, REVIEW_PREFIX);
    NamesSnoc(snapshot, c, REVIEW_PREFIX);
    NamesSnoc(captures, c, REVIEW_PREFIX);
    ForeseenSources(captures, n, c);
    ScanFrame(ref, packet, Contents(snapshot + [c]), Contents(captures + [c]),
      NamesWith(snapshot + [c], REVIEW_PREFIX));
  }

  lemma PacketsBefore(ref: Reference, b: Binding, captures: seq<Capture>, c: Capture, n: nat)
    requires n <= |captures|
    ensures (captures + [c])[..n] == captures[..n]
    ensures SomePacket(ref, b, captures) ==> SomePacket(ref, b, captures + [c])
  {
    hide PacketFor;
    forall m | 0 <= m <= |captures| && PacketFor(ref, b, captures[..m]).Ok?
      ensures SomePacket(ref, b, captures + [c])
    {
      assert (captures + [c])[..m] == captures[..m];
    }
  }

  /** Every packet seen in the longer log is one packet. */
  lemma OnePacket(ref: Reference, b: Binding, captures: seq<Capture>, n: nat, m: nat)
    requires n <= |captures| && m <= |captures| && DistinctCaptures(captures)
    requires PacketFor(ref, b, captures[..n]).Ok? && PacketFor(ref, b, captures[..m]).Ok?
    ensures PacketFor(ref, b, captures[..n]) == PacketFor(ref, b, captures[..m])
  {
    hide PacketFor, DistinctCaptures;
    if n <= m {
      PacketStable(ref, b, captures, n, m);
    } else {
      PacketStable(ref, b, captures, m, n);
    }
  }

  lemma OtherKeepsDecided(ref: Reference, b: Binding, captures: seq<Capture>, c: Capture)
    requires ReviewLog(ref, b, captures) && !Holds(captures, c.name) && !(REVIEW_PREFIX <= c.name)
    requires DistinctCaptures(captures + [c])
    ensures WellDecided(ref, b, captures + [c])
  {
    hide PacketFor, NamesWith, Contents, Scan, Numberings, NumberedFrom1, RawKept, DistinctCaptures, Numbered;
    var longer := captures + [c];
    forall n | 0 <= n <= |longer| && PacketFor(ref, b, longer[..n]).Ok?
      ensures !Decide(ref, PacketFor(ref, b, longer[..n]).value, Contents(longer),
        NamesWith(longer, REVIEW_PREFIX)).Malformed?
    {
      var packet := PacketFor(ref, b, longer[..n]).value;
      DecisionKept(ref, packet, captures, c);
      if NamesWith(captures, REVIEW_PREFIX) == [] {
        NoReviews(ref, packet, Contents(captures));
      } else {
        var m: nat :| m <= |captures| && PacketFor(ref, b, captures[..m]).Ok?;
        PacketsBefore(ref, b, captures, c, m);
        OnePacket(ref, b, longer, n, m);
      }
    }
  }

  lemma NoReviews(ref: Reference, packet: Packet, sources: Sources)
    ensures Decide(ref, packet, sources, []) == Undecided
  {
    assert Numberings(REVIEW_PREFIX, 0) == [];
  }

  lemma ReviewKeepsDecided(ref: Reference, b: Binding, captures: seq<Capture>, n: nat, bytes: Bytes)
    requires DistinctCaptures(captures) && NumberedFrom1(captures, REVIEW_PREFIX) && n <= |captures|
    requires PacketFor(ref, b, captures[..n]).Ok? && !Holds(captures, NextName(captures[..n], REVIEW_PREFIX))
    requires !Foreseen(ref, PacketFor(ref, b, captures[..n]).value, captures[..n], bytes).Malformed?
    requires DistinctCaptures(captures + [Capture(NextName(captures[..n], REVIEW_PREFIX), bytes)])
    ensures var c := Capture(NextName(captures[..n], REVIEW_PREFIX), bytes);
      WellDecided(ref, b, captures + [c]) && SomePacket(ref, b, captures + [c])
  {
    hide PacketFor, NamesWith, Contents, Decide, NumberedFrom1, DistinctCaptures, NextName, Foreseen, Holds;
    var packet := PacketFor(ref, b, captures[..n]).value;
    var longer := captures + [Capture(NextName(captures[..n], REVIEW_PREFIX), bytes)];
    ForeseenHolds(ref, packet, captures, n, bytes);
    assert longer[..n] == captures[..n];
    SamePacketDecided(ref, b, longer, n, packet);
  }

  lemma SamePacketDecided(ref: Reference, b: Binding, captures: seq<Capture>, n: nat, packet: Packet)
    requires DistinctCaptures(captures) && n <= |captures| && PacketFor(ref, b, captures[..n]) == Ok(packet)
    requires !Decide(ref, packet, Contents(captures), NamesWith(captures, REVIEW_PREFIX)).Malformed?
    ensures WellDecided(ref, b, captures) && SomePacket(ref, b, captures)
  {
    hide PacketFor, NamesWith, Contents, Decide, DistinctCaptures;
    forall m | 0 <= m <= |captures| && PacketFor(ref, b, captures[..m]).Ok?
      ensures PacketFor(ref, b, captures[..m]).value == packet
    {
      OnePacket(ref, b, captures, n, m);
    }
  }

  lemma PrefixesDiffer(i: nat)
    ensures !(REVIEW_PREFIX <= Numbered(INPUT_PREFIX, i)) && !(INPUT_PREFIX <= Numbered(REVIEW_PREFIX, i))
    ensures INPUT_PREFIX <= Numbered(INPUT_PREFIX, i) && REVIEW_PREFIX <= Numbered(REVIEW_PREFIX, i)
  {
    hide Padded;
    assert Numbered(INPUT_PREFIX, i)[0] == 'r' && Numbered(REVIEW_PREFIX, i)[0] == 'h';
  }

  lemma RawKeptAfter(captures: seq<Capture>, c: Capture)
    requires RawKept(captures)
    requires REVIEW_PREFIX <= c.name ==> exists d | d in captures :: INPUT_PREFIX <= d.name && d.data == c.data
    ensures RawKept(captures + [c])
  {
  }

  /** Storing a source that is not a review keeps the log. */
  lemma OtherKeepsLog(ref: Reference, b: Binding, captures: seq<Capture>, name: string, bytes: Bytes)
    requires ReviewLog(ref, b, captures) && !(REVIEW_PREFIX <= name)
    requires INPUT_PREFIX <= name ==> !Holds(captures, name) ==> name == NextName(captures, INPUT_PREFIX)
    ensures ReviewLog(ref, b, CapturedAs(captures, name, bytes))
  {
    var c := Capture(name, bytes);
    HeldGrows(captures, name, bytes);
    if CapturedAs(captures, name, bytes) != captures {
      OtherKeepsDecided(ref, b, captures, c);
      hide NextName, WellDecided, SomePacket, DistinctCaptures, NumberedFrom1, RawKept, Holds, NamesWith, CapturedAs,
           IsIdentifier;
      NumberedAfter(captures, c, REVIEW_PREFIX);
      NumberedAfter(captures, c, INPUT_PREFIX);
      RawKeptAfter(captures, c);
      NamesSnoc(captures, c, REVIEW_PREFIX);
      PacketsBefore(ref, b, captures, c, 0);
    }
  }

  lemma ReviewKeepsLog(ref: Reference, b: Binding, captures: seq<Capture>, n: nat, bytes: Bytes)
    requires ReviewLog(ref, b, captures) && n <= |captures|
    requires PacketFor(ref, b, captures[..n]).Ok? && Capture(NextName(captures[..n], INPUT_PREFIX), bytes) in captures
    requires !Foreseen(ref, PacketFor(ref, b, captures[..n]).value, captures[..n], bytes).Malformed?
    ensures ReviewLog(ref, b, CapturedAs(captures, NextName(captures[..n], REVIEW_PREFIX), bytes))
  {
    var name := NextName(captures[..n], REVIEW_PREFIX);
    HeldGrows(captures, name, bytes);
    PrefixesDiffer(|NamesWith(captures[..n], REVIEW_PREFIX)| + 1);
    PrefixesDiffer(|NamesWith(captures[..n], INPUT_PREFIX)| + 1);
    if CapturedAs(captures, name, bytes) != captures {
      hide WellDecided, SomePacket, DistinctCaptures, NumberedFrom1, RawKept, NamesWith, IsIdentifier, PacketFor,
           Foreseen, Numbered, Holds;
      NextNameFree(captures, n, REVIEW_PREFIX);
      ReviewKeepsDecided(ref, b, captures, n, bytes);
      NumberedAfter(captures, Capture(name, bytes), REVIEW_PREFIX);
      NumberedAfter(captures, Capture(name, bytes), INPUT_PREFIX);
      RawKeptAfter(captures, Capture(name, bytes));
    }
  }

  lemma StepKeepsLog(ref: Reference, b: Binding, captures: seq<Capture>, step: Step)
    requires ReviewLog(ref, b, captures)
    ensures ReviewLog(ref, b, Taken(ref, b, captures, step)) && captures <= Taken(ref, b, captures, step)
  {
    hide ReviewLog, PacketFor, Foreseen, NextName, CapturedAs;
    match step
    case KeepInput(seen, bytes) =>
      var snapshot := Snapshot(captures, seen);
      InputNames(ref, b, captures, snapshot);
      HeldGrows(captures, NextName(snapshot, INPUT_PREFIX), bytes);
      if PacketFor(ref, b, snapshot).Ok? {
        OtherKeepsLog(ref, b, captures, NextName(snapshot, INPUT_PREFIX), bytes);
      }
    case KeepReview(seen, bytes) =>
      var n := if seen <= |captures| then seen else |captures|;
      assert Snapshot(captures, seen) == captures[..n];
      HeldGrows(captures, NextName(captures[..n], REVIEW_PREFIX), bytes);
      if Taken(ref, b, captures, step) != captures {
        ReviewKeepsLog(ref, b, captures, n, bytes);
      }
    case KeepOther(name, bytes) =>
      HeldGrows(captures, name, bytes);
      if !(REVIEW_PREFIX <= name || INPUT_PREFIX <= name) {
        OtherKeepsLog(ref, b, captures, name, bytes);
      }
  }

  lemma InputNames(ref: Reference, b: Binding, captures: seq<Capture>, snapshot: seq<Capture>)
    requires ReviewLog(ref, b, captures) && snapshot <= captures
    ensures !(REVIEW_PREFIX <= NextName(snapshot, INPUT_PREFIX))
    ensures !Holds(captures, NextName(snapshot, INPUT_PREFIX)) ==>
      NextName(snapshot, INPUT_PREFIX) == NextName(captures, INPUT_PREFIX)
  {
    PrefixesDiffer(|NamesWith(snapshot, INPUT_PREFIX)| + 1);
    hide NextName, NamesWith, Numbered, WellDecided, SomePacket, RawKept, DistinctCaptures, NumberedFrom1, Holds;
    if !Holds(captures, NextName(snapshot, INPUT_PREFIX)) {
      assert snapshot == captures[..|snapshot|];
      NextNameFree(captures, |snapshot|, INPUT_PREFIX);
    }
  }

  lemma {:induction false} ImportsKeepLog(ref: Reference, b: Binding, captures: seq<Capture>, steps: seq<Step>)
    requires ReviewLog(ref, b, captures)
    ensures ReviewLog(ref, b, Imports(ref, b, captures, steps)) && captures <= Imports(ref, b, captures, steps)
    decreases |steps|
  {
    hide ReviewLog, Taken;
    if steps != [] {
      StepKeepsLog(ref, b, captures, steps[0]);
      ImportsKeepLog(ref, b, Taken(ref, b, captures, steps[0]), steps[1..]);
    }
  }

  lemma EmptyLog(ref: Reference, b: Binding, captures: seq<Capture>)
    requires DistinctCaptures(captures)
    requires NamesWith(captures, REVIEW_PREFIX) == [] && NamesWith(captures, INPUT_PREFIX) == []
    ensures ReviewLog(ref, b, captures)
  {
    hide PacketFor, Contents, Decide;
    assert Numberings(REVIEW_PREFIX, 0) == [] && Numberings(INPUT_PREFIX, 0) == [];
    forall packet
      ensures Decide(ref, packet, Contents(captures), []) == Undecided
    {
      NoReviews(ref, packet, Contents(captures));
    }
    forall c | c in captures
      ensures !(REVIEW_PREFIX <= c.name)
    {
      NamesMembers(captures, REVIEW_PREFIX);
      assert REVIEW_PREFIX <= c.name ==> c.name in NamesWith(captures, REVIEW_PREFIX);
    }
  }

  /** Gapless reviews and raw inputs; every review's raw bytes kept; and the reviews
      ask for more review until at most one, the last, decides. */
  ghost predicate SafeReviews(ref: Reference, b: Binding, captures: seq<Capture>, packet: Packet) {
    var names, sources := NamesWith(captures, REVIEW_PREFIX), Contents(captures);
    && DistinctCaptures(captures) && RawKept(captures)
    && NumberedFrom1(captures, REVIEW_PREFIX) && NumberedFrom1(captures, INPUT_PREFIX)
    && (AllAwait(ref, packet, sources, names)
        || (names != [] && AllAwait(ref, packet, sources, names[..|names| - 1])
            && ReviewIs(ref, packet, sources, names[|names| - 1], Decided)))
  }

  lemma LogSafe(ref: Reference, b: Binding, captures: seq<Capture>, n: nat)
    requires ReviewLog(ref, b, captures) && n <= |captures| && PacketFor(ref, b, captures[..n]).Ok?
    ensures SafeReviews(ref, b, captures, PacketFor(ref, b, captures[..n]).value)
  {
    hide PacketFor, NamesWith, Contents, DistinctCaptures, RawKept, AllAwait, ReviewIs, NumberedFrom1, Scan;
    ScanMeaning(ref, PacketFor(ref, b, captures[..n]).value, Contents(captures), NamesWith(captures, REVIEW_PREFIX));
  }

  /** Over any interleaving of import commands, with stale snapshots and refused or
      failed steps, from an attempt without reviews: nothing stored is changed or
      lost, and, whatever packet a command saw, the reviews are safe under it. */
  lemma ImportsSafe(ref: Reference, b: Binding, captures: seq<Capture>, steps: seq<Step>, n: nat)
    requires DistinctCaptures(captures)
    requires NamesWith(captures, REVIEW_PREFIX) == [] && NamesWith(captures, INPUT_PREFIX) == []
    requires n <= |Imports(ref, b, captures, steps)| && PacketFor(ref, b, Imports(ref, b, captures, steps)[..n]).Ok?
    ensures var final := Imports(ref, b, captures, steps);
      captures <= final && SafeReviews(ref, b, final, PacketFor(ref, b, final[..n]).value)
  {
    hide Imports, PacketFor, NamesWith, Contents, DistinctCaptures;
    EmptyLog(ref, b, captures);
    ImportsKeepLog(ref, b, captures, steps);
    LogSafe(ref, b, Imports(ref, b, captures, steps), n);
  }

  /** Once a review has decided, no command adds another, and the decision stays. */
  lemma DecisionFinal(ref: Reference, b: Binding, captures: seq<Capture>, step: Step, packet: Packet, n: nat)
    requires ReviewLog(ref, b, captures) && n <= |captures| && PacketFor(ref, b, captures[..n]) == Ok(packet)
    requires Decide(ref, packet, Contents(captures), NamesWith(captures, REVIEW_PREFIX)).DecidedBy?
    ensures var next := Taken(ref, b, captures, step);
      && NamesWith(next, REVIEW_PREFIX) == NamesWith(captures, REVIEW_PREFIX)
      && Decide(ref, packet, Contents(next), NamesWith(next, REVIEW_PREFIX))
           == Decide(ref, packet, Contents(captures), NamesWith(captures, REVIEW_PREFIX))
  {
    hide PacketFor, NamesWith, Contents, Decide, WellDecided, SomePacket, RawKept, NumberedFrom1, Foreseen, NextName,
         IsIdentifier, Holds;
    match step
    case KeepInput(seen, bytes) =>
      var snapshot := Snapshot(captures, seen);
      var name := NextName(snapshot, INPUT_PREFIX);
      InputNames(ref, b, captures, snapshot);
      if Taken(ref, b, captures, step) != captures {
        DecisionKept(ref, packet, captures, Capture(name, bytes));
      }
    case KeepReview(seen, bytes) =>
      var m := if seen <= |captures| then seen else |captures|;
      assert Snapshot(captures, seen) == captures[..m];
      if Taken(ref, b, captures, step) != captures {
        OnePacket(ref, b, captures, n, m);
        NothingAfter(ref, b, captures, packet, m, bytes);
        assert false;
      }
    case KeepOther(name, bytes) =>
      if Taken(ref, b, captures, step) != captures {
        DecisionKept(ref, packet, captures, Capture(name, bytes));
      }
  }

  lemma NothingAfter(ref: Reference, b: Binding, captures: seq<Capture>, packet: Packet, n: nat, bytes: Bytes)
    requires ReviewLog(ref, b, captures) && n <= |captures| && !Holds(captures, NextName(captures[..n], REVIEW_PREFIX))
    requires Decide(ref, packet, Contents(captures), NamesWith(captures, REVIEW_PREFIX)).DecidedBy?
    ensures Foreseen(ref, packet, captures[..n], bytes).Malformed?
  {
    hide PacketFor, WellDecided, SomePacket, RawKept, Holds, Numbered, DistinctCaptures, NumberedFrom1;
    ForeseenHolds(ref, packet, captures, n, bytes);
    NextNameFree(captures, n, REVIEW_PREFIX);
    PrefixesDiffer(|NamesWith(captures, REVIEW_PREFIX)| + 1);
    var c := Capture(NextName(captures[..n], REVIEW_PREFIX), bytes);
    var names := NamesWith(captures, REVIEW_PREFIX);
    NamesSnoc(captures, c, REVIEW_PREFIX);
    ContentsSnoc(captures, c);
    hide Foreseen, NamesWith, Contents, NextName;
    ExtendedScan(ref, packet, captures, c);
  }

  lemma ExtendedScan(ref: Reference, packet: Packet, captures: seq<Capture>, c: Capture)
    requires DistinctCaptures(captures) && !Holds(captures, c.name) && REVIEW_PREFIX <= c.name
    requires Scan(ref, packet, Contents(captures), NamesWith(captures, REVIEW_PREFIX)).DecidedBy?
    ensures Scan(ref, packet, Contents(captures + [c]), NamesWith(captures + [c], REVIEW_PREFIX)).Malformed?
  {
    NamesSnoc(captures, c, REVIEW_PREFIX);
    ContentsSnoc(captures, c);
    NamesHeld(captures, REVIEW_PREFIX);
    hide NamesWith, Contents, Holds, DistinctCaptures;
    var names := NamesWith(captures, REVIEW_PREFIX);
    assert (names + [c.name])[..|names|] == names;
    ScanFrame(ref, packet, Contents(captures), Contents(captures + [c]), names);
  }

  /** The same over whole runs: a decided attempt's reviews never change again. */
  lemma {:induction false} DecisionStays(ref: Reference, b: Binding, captures: seq<Capture>, steps: seq<Step>,
                                         packet: Packet, n: nat)
    requires ReviewLog(ref, b, captures) && n <= |captures| && PacketFor(ref, b, captures[..n]) == Ok(packet)
    requires Decide(ref, packet, Contents(captures), NamesWith(captures, REVIEW_PREFIX)).DecidedBy?
    ensures var final := Imports(ref, b, captures, steps);
      && NamesWith(final, REVIEW_PREFIX) == NamesWith(captures, REVIEW_PREFIX)
      && Decide(ref, packet, Contents(final), NamesWith(final, REVIEW_PREFIX))
           == Decide(ref, packet, Contents(captures), NamesWith(captures, REVIEW_PREFIX))
    decreases |steps|
  {
    hide ReviewLog, Taken, PacketFor, Decide, NamesWith, Contents;
    if steps != [] {
      var next := Taken(ref, b, captures, steps[0]);
      StepKeepsLog(ref, b, captures, steps[0]);
      DecisionFinal(ref, b, captures, steps[0], packet, n);
      assert next[..n] == captures[..n];
      DecisionStays(ref, b, next, steps[1..], packet, n);
    }
  }

  lemma NumberedIdentifier(i: nat)
    ensures IsIdentifier(Numbered(REVIEW_PREFIX, i)) && IsIdentifier(Numbered(INPUT_PREFIX, i))
  {
  }

  /** One command on its own keeps its raw input whatever the review says, and the
      review exactly when it is well formed in its place. */
  lemma ImportAlone(ref: Reference, b: Binding, captures: seq<Capture>, bytes: Bytes)
    requires ReviewLog(ref, b, captures) && PacketFor(ref, b, captures).Ok? && bytes != []
    ensures var n, packet := |captures|, PacketFor(ref, b, captures).value;
      var raw := Capture(NextName(captures, INPUT_PREFIX), bytes);
      Imports(ref, b, captures, [KeepInput(n, bytes), KeepReview(n, bytes)])
        == captures + [raw]
           + if Foreseen(ref, packet, captures, bytes).Malformed? then []
             else [Capture(NextName(captures, REVIEW_PREFIX), bytes)]
  {
    hide PacketFor, Foreseen, NamesWith, WellDecided, SomePacket, RawKept, Numbered, IsIdentifier, DistinctCaptures,
         NumberedFrom1;
    var n := |captures|;
    var raw := Capture(NextName(captures, INPUT_PREFIX), bytes);
    NumberedIdentifier(|NamesWith(captures, INPUT_PREFIX)| + 1);
    NumberedIdentifier(|NamesWith(captures, REVIEW_PREFIX)| + 1);
    NextNameUnused(captures, INPUT_PREFIX);
    NextNameUnused(captures, REVIEW_PREFIX);
    PrefixesDiffer(|NamesWith(captures, INPUT_PREFIX)| + 1);
    PrefixesDiffer(|NamesWith(captures, REVIEW_PREFIX)| + 1);
    assert captures[..n] == captures && (captures + [raw])[..n] == captures;
    var first, second := KeepInput(n, bytes), KeepReview(n, bytes);
    assert Taken(ref, b, captures, first) == captures + [raw];
    assert raw in captures + [raw];
    TwoSteps(ref, b, captures, first, second);
  }

  lemma TwoSteps(ref: Reference, b: Binding, captures: seq<Capture>, first: Step, second: Step)
    ensures Imports(ref, b, captures, [first, second]) == Taken(ref, b, Taken(ref, b, captures, first), second)
  {
    hide Taken;
    var next := Taken(ref, b, captures, first);
    assert [first, second][1..] == [second];
    assert [second][1..] == [];
    assert Imports(ref, b, next, [second]) == Imports(ref, b, Taken(ref, b, next, second), []);
  }

  // The store behind the commands

  /** On the journal: capturing a source leaves the log readable, and the attempt's
      sources read back as the captures with the new one, or as they were. */
  lemma CaptureOnJournal(store: Store, rows: seq<Row>, st: State, b: Binding, name: string, bytes: Bytes)
    requires store.codec.Faithful() && Read(store, rows) == Ok(st) && IsOpen(st, b)
    ensures DecodeEach(store.codec, Last(st, b.assignment.runId).sources).Ok?
    ensures var captures := DecodeEach(store.codec, Last(st, b.assignment.runId).sources).value;
      var next := Read(store, Commit(store, rows, CaptureSource(b, name, bytes)));
      && next.Ok? && IsOpen(next.value, b)
      && DecodeEach(store.codec, Last(next.value, b.assignment.runId).sources) == Ok(CapturedAs(captures, name, bytes))
  {
    hide Codec.Faithful, Read, Invariant, Payload, DecodeEach, GoodSources, IsIdentifier, SameInBothOrders;
    ReadableInvariant(store, rows);
    var sources := Last(st, b.assignment.runId).sources;
    LastSourcesGood(store, st, b.assignment.runId);
    DecodedNames(store.codec, sources);
    var op := CaptureSource(b, name, bytes);
    SameHolding(store.codec, sources, DecodeEach(store.codec, sources).value, name);
    if Proposed(store, st, op).Ok? {
      StoredSourceDecodes(store.codec, name, bytes);
      WriteThenRead(store, rows, st, op);
      DecodeSnoc(store.codec, sources, Stored(name, Source(store.codec.digest(bytes), store.codec.encode64(bytes))));
    }
  }

  lemma SameHolding(codec: Codec, sources: seq<Stored>, captures: seq<Capture>, name: string)
    requires |captures| == |sources| && forall i | 0 <= i < |sources| :: captures[i].name == sources[i].name
    ensures HasName(sources, name) <==> Holds(captures, name)
  {
  }

  lemma DecodeSnoc(codec: Codec, sources: seq<Stored>, s: Stored)
    requires DecodeEach(codec, sources).Ok? && DecodeSource(codec, s).Ok?
    ensures DecodeEach(codec, sources + [s]) == Ok(DecodeEach(codec, sources).value + [DecodeSource(codec, s).value])
  {
  }
}

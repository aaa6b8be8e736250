/** One journal, many processes: each operation runs with its own registry, and
    only verifiers with the same identity and fingerprint need behave alike. */
module SharedJournals {
  import opened Results
  import opened Rosters
  import opened Verification
  import opened Journals
  import opened JournalRefinement
  import opened JournalHistory
  import opened JournalRuns

  datatype Work = Work(registry: Registry, op: Operation)

  /** Verifiers both registries hold under one identity, by name and fingerprint, are the same. */
  ghost predicate Agree(a: Registry, b: Registry) {
    forall id | id in a && id in b && a[id].name == b[id].name == id && a[id].fingerprint == b[id].fingerprint ::
      a[id] == b[id]
  }

  function With(store: Store, registry: Registry): Store {
    store.(registry := registry)
  }

  /** The journal after each process's operation, with what its own registry lets it read. */
  ghost function MixedRun(store: Store, rows: seq<Row>, work: seq<Work>): seq<Row>
    decreases |work|
  {
    if work == [] then rows
    else MixedRun(store, Commit(With(store, work[0].registry), rows, work[0].op), work[1..])
  }

  /** The operations that changed the journal, in order. */
  ghost function Committed(store: Store, rows: seq<Row>, work: seq<Work>): seq<Operation>
    decreases |work|
  {
    if work == [] then []
    else
      var next := Commit(With(store, work[0].registry), rows, work[0].op);
      (if next == rows then [] else [work[0].op]) + Committed(store, next, work[1..])
  }

  // Reading with another registry

  /** What a verifier accepts, another registry's agreeing verifier accepts alike. */
  lemma VerifyAgrees(b: Binding, s: seq<Capture>, t: seq<Capture>, p: Registry, q: Registry, phase: Phase)
    requires Agree(p, q) && Verify(b, s, p, phase).Ok? && Verify(b, t, q, phase).Ok?
    ensures Verify(b, s, q, phase) == Verify(b, s, p, phase)
  {
    hide OutcomeChecks.Accepted, OutcomeChecks.References, Contents, WellFormed, ValidMetrics;
    assert p[b.assignment.verifierId] == q[b.assignment.verifierId];
  }

  lemma ReplayedAgrees(store: Store, other: Registry, phase: Phase, b: Binding, s: seq<Stored>, t: seq<Stored>)
    requires Agree(store.registry, other)
    requires Replayed(store, phase, b, s).Ok? && Replayed(With(store, other), phase, b, t).Ok?
    ensures Replayed(With(store, other), phase, b, s) == Replayed(store, phase, b, s)
  {
    hide Verify, Agree, DecodeSources;
    VerifyAgrees(b, DecodeSources(store.codec, s).value, DecodeSources(store.codec, t).value, store.registry, other,
      phase);
  }

  /** Two processes that can read a journal rebuild the same state. */
  lemma {:induction false} ReadsAgree(store: Store, other: Registry, rows: seq<Row>)
    requires Read(store, rows).Ok? && Read(With(store, other), rows).Ok?
    ensures Read(store, rows) == Read(With(store, other), rows)
  {
    hide Admits, Stepped, ValidSpec;
    var n := |rows| - 1;
    if n > 0 {
      ReadsAgree(store, other, rows[..n]);
    }
  }

  /** What another process appended and this one can read, this one could have appended. */
  lemma CommitAgrees(store: Store, other: Registry, rows: seq<Row>, op: Operation)
    requires store.codec.Faithful() && Agree(store.registry, other)
    requires Read(store, rows).Ok?
    requires var next := Commit(With(store, other), rows, op); next != rows && Read(store, next).Ok?
    ensures Commit(store, rows, op) == Commit(With(store, other), rows, op)
  {
    hide Codec.Faithful, Read, Admits, Stepped, Agree, Proposed;
    ReadsAgree(store, other, rows);
    var st := Read(store, rows).value;
    var data := Proposed(With(store, other), st, op).value;
    PayloadDecodes(store.codec, Event(|st.raw| + 1, Head(store.codec, st.raw), data));
    ReadAppended(store, rows, st, data);
    ProposedAgrees(store, other, st, op);
  }

  lemma ProposedAgrees(store: Store, other: Registry, st: State, op: Operation)
    requires Agree(store.registry, other) && Proposed(With(store, other), st, op).Ok?
    requires Admits(store, st, Proposed(With(store, other), st, op).value)
    ensures Proposed(store, st, op) == Proposed(With(store, other), st, op)
  {
    hide Replayed, Agree, CanStart, HasName, BindingFits, AsMap, InKeyOrder, DecodeSource;
    if op.FinishAttempt? {
      var sources, phase := Last(st, op.binding.assignment.runId).sources, st.spec.campaign.phase;
      AgreeBack(store.registry, other);
      ReplayedAgrees(With(store, other), store.registry, phase, op.binding, sources, InKeyOrder(AsMap(sources)));
      assert With(With(store, other), store.registry) == store;
    }
  }

  lemma AgreeBack(a: Registry, b: Registry)
    requires Agree(a, b)
    ensures Agree(b, a)
  {
  }

  /** However many processes work on the journal, and whatever their registries hold:
      as long as this process can read the result, it is a run of the committed
      operations under its own registry, every finish among them agrees in both
      orders, and re-reading gives the abstract protocol's state. */
  lemma {:induction false} MixedRunRefines(store: Store, rows: seq<Row>, st: State, work: seq<Work>)
    requires store.codec.Faithful() && Read(store, rows) == Ok(st)
    requires forall w | w in work :: Agree(store.registry, w.registry)
    requires Read(store, MixedRun(store, rows, work)).Ok?
    ensures var ops := Committed(store, rows, work);
      && MixedRun(store, rows, work) == Run(store, rows, ops)
      && FinishesAgree(store, st, ops)
      && Read(store, MixedRun(store, rows, work)) == Ok(AbstractRun(store, st, ops))
    decreases |work|
  {
    MixedIsRun(store, rows, work);
    hide Read, MixedRun, Committed, Codec.Faithful, Agree, AbstractRun, FinishesAgree, Run;
    RunReadableExactly(store, rows, st, Committed(store, rows, work));
  }

  lemma {:induction false} MixedIsRun(store: Store, rows: seq<Row>, work: seq<Work>)
    requires store.codec.Faithful() && Read(store, rows).Ok?
    requires forall w | w in work :: Agree(store.registry, w.registry)
    requires Read(store, MixedRun(store, rows, work)).Ok?
    ensures MixedRun(store, rows, work) == Run(store, rows, Committed(store, rows, work))
    decreases |work|
  {
    hide Read, Commit, Codec.Faithful, Agree;
    if work != [] {
      var next := Commit(With(store, work[0].registry), rows, work[0].op);
      MixedGrows(store, next, work[1..]);
      StepGrowsRows(store, work[0].registry, rows, work[0].op);
      NextReadable(store, next, MixedRun(store, next, work[1..]), rows);
      assert work[0] in work;
      MixedIsRun(store, next, work[1..]);
      if next != rows {
        CommitAgrees(store, work[0].registry, rows, work[0].op);
        var rest := Committed(store, next, work[1..]);
        assert ([work[0].op] + rest)[1..] == rest;
      } else {
        assert [] + Committed(store, next, work[1..]) == Committed(store, next, work[1..]);
      }
    }
  }

  lemma StepGrowsRows(store: Store, registry: Registry, rows: seq<Row>, op: Operation)
    ensures rows <= Commit(With(store, registry), rows, op)
  {
    hide Read, Proposed;
  }

  lemma {:induction false} MixedGrows(store: Store, rows: seq<Row>, work: seq<Work>)
    ensures rows <= MixedRun(store, rows, work)
    decreases |work|
  {
    hide Commit;
    if work != [] {
      StepGrowsRows(store, work[0].registry, rows, work[0].op);
      MixedGrows(store, Commit(With(store, work[0].registry), rows, work[0].op), work[1..]);
    }
  }

  /** A readable journal's earlier versions are readable. */
  lemma NextReadable(store: Store, next: seq<Row>, final: seq<Row>, rows: seq<Row>)
    requires Read(store, final).Ok? && rows <= next <= final && Read(store, rows).Ok?
    ensures Read(store, next).Ok?
  {
    hide Read;
    assert final[..|next|] == next;
    assert |rows| > 0 by { NotEmpty(store, rows); }
    PrefixReadable(store, final, |next|);
  }

  lemma NotEmpty(store: Store, rows: seq<Row>)
    requires Read(store, rows).Ok?
    ensures rows != []
  {
  }

  // When this process can still read

  /** If the operation commits a finish, this process's verifier returns on the
      sources in key order what the other process's returned in capture order. */
  ghost predicate StepReplays(store: Store, rows: seq<Row>, w: Work)
    requires Read(store, rows).Ok?
  {
    var st, other := Read(store, rows).value, With(store, w.registry);
    Read(other, rows).Ok? && w.op.FinishAttempt? && Proposed(other, st, w.op).Ok? ==>
      var data := Proposed(other, st, w.op).value;
      Replayed(store, st.spec.campaign.phase, data.binding, InKeyOrder(data.sources)) == Ok(data.verified)
  }

  ghost predicate WorkReplays(store: Store, rows: seq<Row>, work: seq<Work>)
    decreases |work|
  {
    work == []
    || (Read(store, rows).Ok? && StepReplays(store, rows, work[0])
        && WorkReplays(store, Commit(With(store, work[0].registry), rows, work[0].op), work[1..]))
  }

  /** Only a finish is admitted differently by another registry. */
  lemma AdmitsAlike(store: Store, other: Registry, st: State, data: Data)
    ensures !data.Finished? ==> (Admits(store, st, data) <==> Admits(With(store, other), st, data))
  {
    hide Replayed, CanStart, HasName, DecodeSource, AttemptOpen, AsMap, InKeyOrder, BindingFits;
    FitsAlike(store, other, st, data);
  }

  lemma FitsAlike(store: Store, other: Registry, st: State, data: Data)
    ensures !data.Prepared? ==>
      (BindingFits(store, st, data.binding) <==> BindingFits(With(store, other), st, data.binding))
  {
  }

  lemma FinishAdmitted(store: Store, other: Registry, st: State, b: Binding)
    requires Invariant(With(store, other), st) && Proposed(With(store, other), st, FinishAttempt(b)).Ok?
    ensures var data := Proposed(With(store, other), st, FinishAttempt(b)).value;
      && data.Finished?
      && (Admits(store, st, data) <==>
            Replayed(store, st.spec.campaign.phase, data.binding, InKeyOrder(data.sources)) == Ok(data.verified))
  {
    hide Invariant, Replayed, AsMap, InKeyOrder, BindingFits, AttemptOpen, IsOpen;
    OpenBindingFits(With(store, other), st, b);
    FitsAlike(store, other, st, Proposed(With(store, other), st, FinishAttempt(b)).value);
  }

  lemma ProposedBy(store: Store, other: Registry, st: State, op: Operation)
    requires store.codec.Faithful() && Invariant(With(store, other), st) && Proposed(With(store, other), st, op).Ok?
    ensures var data := Proposed(With(store, other), st, op).value;
      && (data.Finished? <==> op.FinishAttempt?)
      && (Admits(store, st, data) <==>
            (data.Finished? ==>
               Replayed(store, st.spec.campaign.phase, data.binding, InKeyOrder(data.sources)) == Ok(data.verified)))
  {
    hide Invariant, Replayed, AsMap, InKeyOrder, Admits, Codec.Faithful, CanStart, IsOpen, HasName;
    if op.FinishAttempt? {
      FinishAdmitted(store, other, st, op.binding);
    } else {
      ProposedAdmitted(With(store, other), st, op);
      AdmitsAlike(store, other, st, Proposed(With(store, other), st, op).value);
    }
  }

  lemma MixedStepExactly(store: Store, rows: seq<Row>, w: Work)
    requires store.codec.Faithful() && Read(store, rows).Ok?
    ensures Read(store, Commit(With(store, w.registry), rows, w.op)).Ok? <==> StepReplays(store, rows, w)
  {
    hide Read, Codec.Faithful, Admits, Stepped, Proposed, Invariant, Replayed;
    var other := With(store, w.registry);
    if Read(other, rows).Ok? {
      ReadsAgree(store, w.registry, rows);
      var st := Read(store, rows).value;
      ReadableInvariant(other, rows);
      if Proposed(other, st, w.op).Ok? {
        var data := Proposed(other, st, w.op).value;
        ProposedBy(store, w.registry, st, w.op);
        PayloadDecodes(store.codec, Event(|st.raw| + 1, Head(store.codec, st.raw), data));
        ReadAppended(store, rows, st, data);
      }
    }
  }

  /** Over any work of any processes, whatever their registries hold: this process
      can read the journal exactly while every committed finish replays for it. */
  lemma {:induction false} MixedRunExactly(store: Store, rows: seq<Row>, work: seq<Work>)
    requires store.codec.Faithful() && Read(store, rows).Ok?
    ensures Read(store, MixedRun(store, rows, work)).Ok? <==> WorkReplays(store, rows, work)
    decreases |work|
  {
    hide Read, Codec.Faithful, Commit, StepReplays;
    if work != [] {
      var next := Commit(With(store, work[0].registry), rows, work[0].op);
      MixedStepExactly(store, rows, work[0]);
      StepGrowsRows(store, work[0].registry, rows, work[0].op);
      MixedGrows(store, next, work[1..]);
      if Read(store, next).Ok? {
        MixedRunExactly(store, next, work[1..]);
      } else {
        UnreadableGrows(store, rows, next, MixedRun(store, next, work[1..]));
      }
    }
  }

  lemma UnreadableGrows(store: Store, rows: seq<Row>, next: seq<Row>, final: seq<Row>)
    requires Read(store, rows).Ok? && Read(store, next).Err? && rows <= next <= final
    ensures Read(store, final).Err?
  {
    hide Read;
    if Read(store, final).Ok? {
      NextReadable(store, next, final, rows);
    }
  }
}

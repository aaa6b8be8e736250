/** Whole runs of writers: with verifiers that do not depend on the order of their
    sources, any interleaving of operations refines the abstract protocol; with
    others, the only damage is a journal that stays as it is. */
module JournalRuns {
  import opened Results
  import opened Text
  import opened Sequences
  import opened Rosters
  import opened OutcomeChecks
  import opened Verification
  import opened Journals
  import opened JournalRefinement

  /** The replay does not depend on the order of the captured sources. */
  ghost predicate OrderInsensitive(v: Verifier) {
    forall b, s, t :: multiset(s) == multiset(t) ==> v.replay(b, s) == v.replay(b, t)
  }

  ghost predicate DistinctCaptures(captures: seq<Capture>) {
    forall i, j | 0 <= i < j < |captures| :: captures[i].name != captures[j].name
  }

  // Key order is a permutation of capture order

  lemma {:induction false} AsMapLookup(sources: seq<Stored>)
    requires forall i, j | 0 <= i < j < |sources| :: sources[i].name != sources[j].name
    ensures forall name :: name in AsMap(sources) <==> HasName(sources, name)
    ensures forall s | s in sources :: s.name in AsMap(sources) && AsMap(sources)[s.name] == s.source
  {
    if sources != [] {
      var n := |sources| - 1;
      AsMapLookup(sources[..n]);
      assert sources == sources[..n] + [sources[n]];
    }
  }

  lemma KeyOrderMembers(sources: seq<Stored>)
    requires forall i, j | 0 <= i < j < |sources| :: sources[i].name != sources[j].name
    ensures forall s :: s in InKeyOrder(AsMap(sources)) <==> s in sources
    ensures Increasing(SortedNames(AsMap(sources).Keys))
  {
    var m := AsMap(sources);
    AsMapLookup(sources);
    var ordered := InKeyOrder(m);
    forall s | s in ordered
      ensures s in sources
    {
      var i :| 0 <= i < |ordered| && ordered[i] == s;
      var t :| t in sources && t.name == s.name;
      assert t == s;
    }
    forall s | s in sources
      ensures s in ordered
    {
      var names := SortedNames(m.Keys);
      assert s.name in names;
      var i :| 0 <= i < |names| && names[i] == s.name;
      assert ordered[i] == s;
    }
  }

  lemma KeyOrderDistinct(m: map<string, Source>)
    ensures forall i, j | 0 <= i < j < |InKeyOrder(m)| :: InKeyOrder(m)[i].name != InKeyOrder(m)[j].name
  {
    var names := SortedNames(m.Keys);
    forall i, j | 0 <= i < j < |names|
      ensures names[i] != names[j]
    {
      assert Before(names[i], names[j]);
      BeforeTrichotomy(names[i], names[j]);
    }
  }

  lemma {:induction false} DecodeEachIs(codec: Codec, sources: seq<Stored>)
    requires forall s | s in sources :: DecodeSource(codec, s).Ok?
    ensures DecodeEach(codec, sources).Ok?
    ensures forall i | 0 <= i < |sources| ::
      DecodeEach(codec, sources).value[i] == DecodeSource(codec, sources[i]).value
  {
    hide DecodeSource;
    if sources != [] {
      var n := |sources| - 1;
      assert sources == sources[..n] + [sources[n]];
      DecodeEachIs(codec, sources[..n]);
    }
  }

  lemma DecodedName(codec: Codec, s: Stored)
    requires DecodeSource(codec, s).Ok?
    ensures DecodeSource(codec, s).value.name == s.name
  {
  }

  lemma DecodedNames(codec: Codec, sources: seq<Stored>)
    requires GoodSources(codec, sources)
    ensures DecodeEach(codec, sources).Ok?
    ensures forall i | 0 <= i < |sources| :: DecodeEach(codec, sources).value[i].name == sources[i].name
  {
  }

  lemma DecodedMembers(codec: Codec, a: seq<Stored>, b: seq<Stored>)
    requires GoodSources(codec, a) && GoodSources(codec, b)
    requires forall s :: s in a <==> s in b
    ensures DecodeEach(codec, a).Ok? && DecodeEach(codec, b).Ok?
    ensures multiset(DecodeEach(codec, a).value) == multiset(DecodeEach(codec, b).value)
    ensures DistinctCaptures(DecodeEach(codec, a).value) && DistinctCaptures(DecodeEach(codec, b).value)
  {
    DecodedSubset(codec, a, b);
    DecodedSubset(codec, b, a);
    hide DecodeSource;
    DecodedDistinct(codec, a);
    DecodedDistinct(codec, b);
    DistinctPermutation(DecodeEach(codec, a).value, DecodeEach(codec, b).value);
  }

  lemma DecodedDistinct(codec: Codec, a: seq<Stored>)
    requires GoodSources(codec, a)
    ensures DecodeEach(codec, a).Ok? && DistinctCaptures(DecodeEach(codec, a).value)
      && Distinct(DecodeEach(codec, a).value)
  {
    DecodeEachIs(codec, a);
    hide DecodeSource, DecodeEach;
    var x := DecodeEach(codec, a).value;
    forall i | 0 <= i < |a|
      ensures x[i].name == a[i].name
    {
      assert a[i] in a;
      DecodedName(codec, a[i]);
    }
  }

  lemma DecodedSubset(codec: Codec, a: seq<Stored>, b: seq<Stored>)
    requires GoodSources(codec, a) && GoodSources(codec, b)
    requires forall s | s in a :: s in b
    ensures DecodeEach(codec, a).Ok? && DecodeEach(codec, b).Ok?
    ensures forall c | c in DecodeEach(codec, a).value :: c in DecodeEach(codec, b).value
  {
    DecodeEachIs(codec, a);
    DecodeEachIs(codec, b);
    hide DecodeSource, DecodeEach;
    var x, y := DecodeEach(codec, a).value, DecodeEach(codec, b).value;
    forall c | c in x
      ensures c in y
    {
      var i :| 0 <= i < |x| && x[i] == c;
      assert a[i] in a;
      var j :| 0 <= j < |b| && b[j] == a[i];
      assert y[j] == c;
    }
  }

  lemma {:induction false} ContentsLookup(captures: seq<Capture>)
    requires DistinctCaptures(captures)
    ensures forall c | c in captures :: c.name in Contents(captures) && Contents(captures)[c.name] == c.data
    ensures forall name | name in Contents(captures) :: exists c | c in captures :: c.name == name
  {
    if captures != [] {
      var n := |captures| - 1;
      ContentsLookup(captures[..n]);
      assert captures == captures[..n] + [captures[n]];
    }
  }

  lemma ContentsWithin(a: seq<Capture>, b: seq<Capture>)
    requires DistinctCaptures(a) && DistinctCaptures(b) && forall c | c in a :: c in b
    ensures forall name | name in Contents(a) :: name in Contents(b) && Contents(b)[name] == Contents(a)[name]
  {
    ContentsLookup(a);
    ContentsLookup(b);
    hide Contents, DistinctCaptures;
    forall name | name in Contents(a)
      ensures name in Contents(b) && Contents(b)[name] == Contents(a)[name]
    {
      var c :| c in a && c.name == name;
      assert c in b;
    }
  }

  lemma ContentsPermuted(a: seq<Capture>, b: seq<Capture>)
    requires DistinctCaptures(a) && DistinctCaptures(b) && multiset(a) == multiset(b)
    ensures Contents(a) == Contents(b)
  {
    hide Contents, DistinctCaptures;
    forall c
      ensures c in a <==> c in b
    {
      assert c in a <==> c in multiset(a);
      assert c in b <==> c in multiset(b);
    }
    ContentsWithin(a, b);
    ContentsWithin(b, a);
    assert Contents(a).Keys == Contents(b).Keys;
  }

  lemma VerifyPermuted(b: Binding, s: seq<Capture>, t: seq<Capture>, registry: Registry, phase: Phase)
    requires DistinctCaptures(s) && DistinctCaptures(t) && multiset(s) == multiset(t)
    requires forall id | id in registry :: OrderInsensitive(registry[id])
    ensures Verify(b, s, registry, phase) == Verify(b, t, registry, phase)
  {
    hide Accepted, References, Contents;
    ContentsPermuted(s, t);
    WellFormedPermuted(s, t);
    hide WellFormed;
    if b.assignment.verifierId in registry {
      assert OrderInsensitive(registry[b.assignment.verifierId]);
    }
  }

  lemma WellFormedPermuted(s: seq<Capture>, t: seq<Capture>)
    requires multiset(s) == multiset(t)
    ensures WellFormed(s) == WellFormed(t)
  {
    assert forall c :: c in s <==> c in multiset(s);
    assert forall c :: c in t <==> c in multiset(t);
    assert |multiset(s)| == |s| && |multiset(t)| == |t|;
  }

  /** With order-insensitive verifiers both replays of an attempt agree. */
  lemma OrdersAgree(store: Store, st: State, b: Binding)
    requires Invariant(store, st) && IsOpen(st, b)
    requires forall id | id in store.registry :: OrderInsensitive(store.registry[id])
    ensures SameInBothOrders(store, st, b)
  {
    hide Invariant, OrderInsensitive, Replayed;
    LastSourcesGood(store, st, b.assignment.runId);
    BothOrders(store, st.spec.campaign.phase, b, Last(st, b.assignment.runId).sources);
  }

  lemma BothOrders(store: Store, phase: Phase, b: Binding, sources: seq<Stored>)
    requires GoodSources(store.codec, sources)
    requires forall id | id in store.registry :: OrderInsensitive(store.registry[id])
    ensures Replayed(store, phase, b, InKeyOrder(AsMap(sources))) == Replayed(store, phase, b, sources)
  {
    hide OrderInsensitive, Verify, DecodeEach, GoodSources, DistinctCaptures, InKeyOrder, AsMap, Increasing;
    var ordered := InKeyOrder(AsMap(sources));
    DistinctNames(store.codec, sources);
    KeyOrderMembers(sources);
    KeyOrderDistinct(AsMap(sources));
    OrderedGood(store.codec, ordered, sources);
    DecodedMembers(store.codec, ordered, sources);
    VerifyPermuted(b, DecodeEach(store.codec, ordered).value, DecodeEach(store.codec, sources).value,
                   store.registry, phase);
    SameEmptiness(ordered, sources);
  }

  lemma DistinctNames(codec: Codec, sources: seq<Stored>)
    requires GoodSources(codec, sources)
    ensures forall i, j | 0 <= i < j < |sources| :: sources[i].name != sources[j].name
  {
  }

  lemma OrderedGood(codec: Codec, ordered: seq<Stored>, sources: seq<Stored>)
    requires GoodSources(codec, sources)
    requires forall s | s in ordered :: s in sources
    requires forall i, j | 0 <= i < j < |ordered| :: ordered[i].name != ordered[j].name
    ensures GoodSources(codec, ordered)
  {
  }

  lemma SameEmptiness(a: seq<Stored>, b: seq<Stored>)
    requires forall s :: s in a <==> s in b
    ensures a == [] <==> b == []
  {
    assert a != [] ==> a[0] in a;
    assert b != [] ==> b[0] in b;
  }

  lemma LastSourcesGood(store: Store, st: State, runId: string)
    requires Invariant(store, st) && runId in st.attempts && st.attempts[runId] != []
    ensures GoodSources(store.codec, Last(st, runId).sources)
  {
    hide GoodSources, Replayed, ValidSpec, BlockSettled;
    assert GoodHistory(store, st, runId);
    assert GoodAttempt(store, st.spec, runId, |st.attempts[runId]|, Last(st, runId));
  }

  // Runs

  /** The journal after any interleaving of operations, each one atomic or refused. */
  ghost function Run(store: Store, rows: seq<Row>, ops: seq<Operation>): seq<Row>
    decreases |ops|
  {
    if ops == [] then rows else Run(store, Commit(store, rows, ops[0]), ops[1..])
  }

  /** The abstract protocol's step: the operation's effect on the state, or none. */
  function AbstractStep(store: Store, st: State, op: Operation): State {
    match Proposed(store, st, op)
    case Err => st
    case Ok(data) => Stepped(st, data, Payload(store, st, data), store.codec.digest(Payload(store, st, data)))
  }

  function AbstractRun(store: Store, st: State, ops: seq<Operation>): State
    decreases |ops|
  {
    if ops == [] then st else AbstractRun(store, AbstractStep(store, st, ops[0]), ops[1..])
  }

  /** A finish that this state allows has a verifier that does not tell the two orders apart. */
  ghost predicate FinishAgrees(store: Store, st: State, op: Operation) {
    op.FinishAttempt? && Proposed(store, st, op).Ok? ==> SameInBothOrders(store, st, op.binding)
  }

  /** So does every finish along the abstract run. */
  ghost predicate FinishesAgree(store: Store, st: State, ops: seq<Operation>)
    decreases |ops|
  {
    ops == [] || (FinishAgrees(store, st, ops[0]) && FinishesAgree(store, AbstractStep(store, st, ops[0]), ops[1..]))
  }

  /** Any verifiers, any interleaving of operations: the journal stays readable
      exactly while every finish along the way agrees in both orders, and then
      re-reading gives the abstract protocol's state. */
  lemma {:induction false} RunReadableExactly(store: Store, rows: seq<Row>, st: State, ops: seq<Operation>)
    requires store.codec.Faithful() && Read(store, rows) == Ok(st)
    ensures Read(store, Run(store, rows, ops)).Ok? <==> FinishesAgree(store, st, ops)
    ensures FinishesAgree(store, st, ops) ==> Read(store, Run(store, rows, ops)) == Ok(AbstractRun(store, st, ops))
    ensures rows <= Run(store, rows, ops)
    decreases |ops|
  {
    hide Read, Commit, AbstractStep, Codec.Faithful, FinishAgrees;
    if ops != [] {
      StepExactly(store, rows, st, ops[0]);
      var next := Commit(store, rows, ops[0]);
      if FinishAgrees(store, st, ops[0]) {
        RunReadableExactly(store, next, AbstractStep(store, st, ops[0]), ops[1..]);
      } else {
        UnreadableStays(store, next, ops[1..]);
      }
    }
  }

  lemma StepExactly(store: Store, rows: seq<Row>, st: State, op: Operation)
    requires store.codec.Faithful() && Read(store, rows) == Ok(st)
    ensures Read(store, Commit(store, rows, op))
         == if FinishAgrees(store, st, op) then Ok(AbstractStep(store, st, op)) else Err
    ensures rows <= Commit(store, rows, op)
  {
    hide Codec.Faithful, Read, Stepped, SameInBothOrders, Payload, Replayed, CanStart, HasName;
    if Proposed(store, st, op).Ok? {
      WriteThenRead(store, rows, st, op);
    }
  }

  /** Writers and the reader never disagree: with order-insensitive verifiers,
      re-reading after any run of operations by any number of writers, with stale
      bindings and refused calls among them, gives exactly the abstract state. */
  lemma RunRefines(store: Store, rows: seq<Row>, st: State, ops: seq<Operation>)
    requires store.codec.Faithful() && Read(store, rows) == Ok(st)
    requires forall id | id in store.registry :: OrderInsensitive(store.registry[id])
    ensures Read(store, Run(store, rows, ops)) == Ok(AbstractRun(store, st, ops))
    ensures rows <= Run(store, rows, ops)
  {
    hide Read, Codec.Faithful, OrderInsensitive, FinishesAgree, AbstractRun;
    AllFinishesAgree(store, rows, st, ops);
    RunReadableExactly(store, rows, st, ops);
  }

  lemma {:induction false} AllFinishesAgree(store: Store, rows: seq<Row>, st: State, ops: seq<Operation>)
    requires store.codec.Faithful() && Read(store, rows) == Ok(st)
    requires forall id | id in store.registry :: OrderInsensitive(store.registry[id])
    ensures FinishesAgree(store, st, ops)
    decreases |ops|
  {
    hide Read, Commit, AbstractStep, Codec.Faithful, OrderInsensitive, SameInBothOrders, Invariant;
    if ops != [] {
      ReadableInvariant(store, rows);
      if ops[0].FinishAttempt? && Proposed(store, st, ops[0]).Ok? {
        OrdersAgree(store, st, ops[0].binding);
      }
      StepExactly(store, rows, st, ops[0]);
      AllFinishesAgree(store, Commit(store, rows, ops[0]), AbstractStep(store, st, ops[0]), ops[1..]);
    }
  }

  /** An unreadable journal is never written again. */
  lemma {:induction false} UnreadableStays(store: Store, rows: seq<Row>, ops: seq<Operation>)
    requires Read(store, rows).Err?
    ensures Run(store, rows, ops) == rows
    decreases |ops|
  {
    hide Read;
    if ops != [] {
      UnreadableStays(store, rows, ops[1..]);
    }
  }
}

/** What a readable journal says about its own past: prefixes, the hash chain,
    immutability of captures, and which event finished an attempt. */
module JournalHistory {
  import opened Results
  import opened Rosters
  import opened Journals
  import opened JournalRefinement

  function EventOf(store: Store, row: Row): Event
    requires store.codec.decode(row.payload).Ok?
  {
    store.codec.decode(row.payload).value
  }

  /** The last row of a readable journal: its number, its link, its canonical bytes. */
  lemma LastRow(store: Store, rows: seq<Row>)
    requires Read(store, rows).Ok?
    ensures var n := |rows| - 1;
      var st := Read(store, rows).value;
      && n >= 0 && |st.raw| == |rows| && st.raw[n] == rows[n].payload && rows[n].sequence == n + 1
      && store.codec.decode(rows[n].payload).Ok?
      && var event := EventOf(store, rows[n]);
         && event.sequence == n + 1 && store.codec.encode(event) == rows[n].payload
         && (n == 0 ==> event.previous == None && event.data.Prepared? && st.raw == [rows[0].payload]
                        && event.data.spec == st.spec && (forall r | r in st.attempts :: st.attempts[r] == [])
                        && store.codec.digest(rows[0].payload) == store.receipt)
         && (n > 0 ==>
               && Read(store, rows[..n]).Ok?
               && var before := Read(store, rows[..n]).value;
                  && st.raw == before.raw + [rows[n].payload]
                  && event.previous == Head(store.codec, before.raw)
                  && Admits(store, before, event.data)
                  && st == Stepped(before, event.data, rows[n].payload, store.codec.digest(rows[n].payload)))
  {
    hide Admits, ValidSpec, EffectOn;
  }

  /** Acceptance is closed under nonempty prefixes, and along them the state only grows. */
  lemma {:induction false} PrefixReadable(store: Store, rows: seq<Row>, k: nat)
    requires Read(store, rows).Ok? && 0 < k <= |rows|
    ensures Read(store, rows[..k]).Ok?
    ensures Grows(Read(store, rows[..k]).value, Read(store, rows).value)
    decreases |rows|
  {
    hide Admits, Stepped, Read, HistoryGrows;
    var n := |rows| - 1;
    if k == |rows| {
      assert rows[..k] == rows;
      SelfGrows(Read(store, rows).value);
    } else {
      LastRow(store, rows);
      var before := Read(store, rows[..n]).value;
      var event := EventOf(store, rows[n]);
      StepGrows(store, before, event.data, rows[n].payload, store.codec.digest(rows[n].payload));
      PrefixReadable(store, rows[..n], k);
      assert rows[..n][..k] == rows[..k];
      GrowsTransitive(Read(store, rows[..k]).value, before, Read(store, rows).value);
    }
  }

  lemma SelfGrows(st: State)
    ensures Grows(st, st)
  {
  }

  /** The step the journal took at row `i`. */
  lemma StepAt(store: Store, rows: seq<Row>, i: nat)
    requires Read(store, rows).Ok? && 0 < i < |rows|
    ensures Read(store, rows[..i]).Ok? && Read(store, rows[..i + 1]).Ok? && store.codec.decode(rows[i].payload).Ok?
    ensures var before, event := Read(store, rows[..i]).value, EventOf(store, rows[i]);
      && Admits(store, before, event.data)
      && Read(store, rows[..i + 1]).value ==
           Stepped(before, event.data, rows[i].payload, store.codec.digest(rows[i].payload))
  {
    hide Admits, Stepped, Read;
    PrefixReadable(store, rows, i + 1);
    LastRow(store, rows[..i + 1]);
    assert rows[..i + 1][..i] == rows[..i];
  }

  /** The hash chain: two journals readable under one receipt whose last payloads
      have the same digest are the same journal. */
  lemma {:induction false} ChainUnique(store: Store, a: seq<Row>, b: seq<Row>)
    requires NoCollision(store.codec, a, b) && Read(store, a).Ok? && Read(store, b).Ok?
    requires Head(store.codec, Read(store, a).value.raw) == Head(store.codec, Read(store, b).value.raw)
    ensures a == b
    decreases |a|
  {
    hide Admits, Stepped, Read;
    LastRow(store, a);
    LastRow(store, b);
    var n := |a| - 1;
    assert a[n].payload == b[|b| - 1].payload;
    if n > 0 {
      ChainUnique(store, a[..n], b[..n]);
      assert a == a[..n] + [a[n]] && b == b[..n] + [b[n]];
    }
  }

  /** All rows of a readable journal are numbered from one and kept in order. */
  lemma {:induction false} RowsAreRaw(store: Store, rows: seq<Row>)
    requires Read(store, rows).Ok?
    ensures forall i | 0 <= i < |rows| :: rows[i] == Row(i + 1, Read(store, rows).value.raw[i])
  {
    hide Admits, Stepped, Read;
    LastRow(store, rows);
    var n := |rows| - 1;
    if n > 0 {
      RowsAreRaw(store, rows[..n]);
      assert forall i | 0 <= i < n :: rows[i] == rows[..n][i];
    }
  }

  /** Row `i` finished attempt number `number` of a run, with this result. */
  ghost predicate FinishedAt(store: Store, rows: seq<Row>, i: nat, a: Attempt) {
    && i < |rows| && store.codec.decode(rows[i].payload).Ok?
    && var data := EventOf(store, rows[i]).data;
       && data.Finished? && data.binding == a.binding && data.sources == AsMap(a.sources)
       && a.finished == Some(Finish(data.verified, store.codec.digest(rows[i].payload)))
  }

  lemma SameRuns(attempts: Attempts, data: Data, recordDigest: string)
    ensures EffectOn(attempts, data, recordDigest).Keys == attempts.Keys
  {
  }

  /** A step leaves every attempt of a run alone, or is the one that finishes it. */
  lemma NewlyFinished(store: Store, st: State, data: Data, recordDigest: string, runId: string, k: nat)
    requires Invariant(store, st) && Admits(store, st, data) && runId in st.attempts
    requires k < |EffectOn(st.attempts, data, recordDigest)[runId]|
    ensures var a := EffectOn(st.attempts, data, recordDigest)[runId][k];
      a.finished.Some? ==>
        || (k < |st.attempts[runId]| && a == st.attempts[runId][k])
        || (data.Finished? && data.binding == a.binding && data.sources == AsMap(a.sources)
            && a.finished == Some(Finish(data.verified, recordDigest)))
  {
    hide ValidSpec, Replayed, BlockSettled, DecodeSource, CanStart, GoodSources;
    if !data.Started? && data.binding.assignment.runId == runId {
      assert GoodHistory(store, st, runId);
      assert GoodAttempt(store, st.spec, runId, |st.attempts[runId]|, Last(st, runId));
    }
  }

  /** Every finished attempt was finished by exactly the event its record digest names. */
  lemma {:induction false} FinishedByEvent(store: Store, rows: seq<Row>, runId: string, k: nat)
    requires Read(store, rows).Ok? && runId in Read(store, rows).value.attempts
    requires k < |Read(store, rows).value.attempts[runId]|
    requires Read(store, rows).value.attempts[runId][k].finished.Some?
    ensures exists i: nat :: FinishedAt(store, rows, i, Read(store, rows).value.attempts[runId][k])
  {
    hide Admits, Read, EffectOn, Invariant, AsMap, Grows;
    var n := |rows| - 1;
    LastRow(store, rows);
    if n > 0 {
      ReadableInvariant(store, rows[..n]);
      var before, data := Read(store, rows[..n]).value, EventOf(store, rows[n]).data;
      SameRuns(before.attempts, data, store.codec.digest(rows[n].payload));
      NewlyFinished(store, before, data, store.codec.digest(rows[n].payload), runId, k);
      var a := Read(store, rows).value.attempts[runId][k];
      if k < |before.attempts[runId]| && a == before.attempts[runId][k] {
        FinishedByEvent(store, rows[..n], runId, k);
        var i: nat :| FinishedAt(store, rows[..n], i, a);
        assert FinishedAt(store, rows, i, a);
      } else {
        assert FinishedAt(store, rows, n, a);
      }
    }
  }
}

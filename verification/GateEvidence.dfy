/** What the sandbox gate's verdict and records say of the event stream, event by
    event (sandbox.py, SandboxGate). */
module GateEvidence {
  import opened Results
  import opened Sequences
  import opened SandboxGates

  // The verdict

  /** The last reported application. */
  predicate LastApplied(events: seq<Event>, k: int) {
    && 0 <= k < |events| && events[k].Applied?
    && forall i | k < i < |events| :: !events[i].Applied?
  }

  /** Some completion carries this id. */
  predicate Completes(events: seq<Event>, id: string) {
    exists i | 0 <= i < |events| :: events[i].Completed? && events[i].callId == Some(id)
  }

  /** The event leaves no doubt: a completion reports the sandbox, and a start is
      matched by a completion. */
  predicate Clear(events: seq<Event>, i: int)
    requires 0 <= i < |events|
  {
    match events[i]
    case Applied(_) => true
    case Started(id, _) => id.Some? && Completes(events, id.value)
    case Completed(_, _, flag) => flag == Some("true")
  }

  lemma {:induction false} AppliedExactly(events: seq<Event>)
    ensures match LastApplication(events)
      case None => forall i | 0 <= i < |events| :: !events[i].Applied?
      case Some(a) => exists k :: LastApplied(events, k) && events[k].application == a
  {
    if events != [] {
      var n := |events| - 1;
      AppliedExactly(events[..n]);
      if events[n].Applied? {
        assert LastApplied(events, n);
      } else if LastApplication(events[..n]).Some? {
        var k :| LastApplied(events[..n], k) && events[..n][k].application == LastApplication(events[..n]).value;
        assert LastApplied(events, k);
      }
    }
  }

  lemma CompletedExactly(events: seq<Event>, id: string)
    ensures id in CompletedIds(events) <==> Completes(events, id)
  {
  }

  lemma ClearExactly(events: seq<Event>)
    ensures AllConfirmed(events) <==> forall i | 0 <= i < |events| :: Clear(events, i)
  {
    forall id
      ensures id in CompletedIds(events) <==> Completes(events, id)
    {
      CompletedExactly(events, id);
    }
    hide CompletedIds, Completes;
    assert forall i | 0 <= i < |events| :: events[i] in events;
    if AllConfirmed(events) {
      forall i | 0 <= i < |events|
        ensures Clear(events, i)
      {
        if events[i].Started? {
          assert events[i].callId.value in StartedIds(events);
        }
      }
    }
    if forall i | 0 <= i < |events| :: Clear(events, i) {
      forall e | e in events
        ensures e.Completed? ==> IsConfirmed(e)
        ensures e.Started? ==> e.callId.Some? && e.callId.value in CompletedIds(events)
      {
        var i :| 0 <= i < |events| && events[i] == e;
        assert Clear(events, i);
      }
    }
  }

  /** The gate passes exactly when the last application succeeded before the first
      prompt, every event is clear, and, where evidence is required, something ran. */
  lemma ConfinedExactly(events: seq<Event>, requireEvidence: bool)
    ensures Confined(events, requireEvidence) <==>
      && (exists k :: LastApplied(events, k) && events[k].application == Application(true, true))
      && (forall i | 0 <= i < |events| :: Clear(events, i))
      && (requireEvidence ==> exists i | 0 <= i < |events| :: !events[i].Applied?)
  {
    hide AllConfirmed, Clear;
    AppliedExactly(events);
    ClearExactly(events);
    assert Exercised(events) <==> exists i | 0 <= i < |events| :: !events[i].Applied?;
  }

  // The counts

  /** The first start of an id. */
  predicate FirstStart(events: seq<Event>, i: int) {
    && 0 <= i < |events| && events[i].Started? && events[i].callId.Some?
    && forall j | 0 <= j < i :: !(events[j].Started? && events[j].callId == events[i].callId)
  }

  /** The event is an execution of its own: a completion, the first start of an id that
      never completes, or a start without an id. */
  predicate IsExecution(events: seq<Event>, i: int) {
    && 0 <= i < |events|
    && match events[i]
       case Applied(_) => false
       case Started(None, _) => true
       case Started(Some(id), _) => FirstStart(events, i) && !Completes(events, id)
       case Completed(_, _, _) => true
  }

  lemma StartedBefore(events: seq<Event>, id: string)
    ensures id in StartedIds(events) <==>
      exists j | 0 <= j < |events| :: events[j].Started? && events[j].callId == Some(id)
  {
  }

  /** The first starts of ids outside a set. */
  function FirstsBut(events: seq<Event>, done: set<string>): set<int> {
    set i | 0 <= i < |events| && FirstStart(events, i) && events[i].callId.value !in done
  }

  lemma FirstsStep(events: seq<Event>, done: set<string>)
    requires events != []
    ensures var n := |events| - 1;
      FirstsBut(events, done)
      == FirstsBut(events[..n], done) + if FirstStart(events, n) && events[n].callId.value !in done then {n} else {}
  {
    var n := |events| - 1;
    assert forall i | i < n :: FirstStart(events[..n], i) <==> FirstStart(events, i);
  }

  lemma StartedStep(events: seq<Event>)
    requires events != []
    ensures var n := |events| - 1;
      && StartedIds(events) == StartedIds(events[..n])
         + (if events[n].Started? && events[n].callId.Some? then {events[n].callId.value} else {})
      && (FirstStart(events, n) <==>
            events[n].Started? && events[n].callId.Some? && events[n].callId.value !in StartedIds(events[..n]))
  {
    var n := |events| - 1;
    assert events == events[..n] + [events[n]];
    if events[n].Started? && events[n].callId.Some? {
      StartedBefore(events[..n], events[n].callId.value);
      hide StartedIds;
      assert forall j | 0 <= j < n :: events[..n][j] == events[j];
    }
  }

  lemma {:induction false} OpenStarts(events: seq<Event>, done: set<string>)
    ensures |StartedIds(events) - done| == |FirstsBut(events, done)|
  {
    if events != [] {
      var n := |events| - 1;
      OpenStarts(events[..n], done);
      FirstsStep(events, done);
      StartedStep(events);
      assert n !in FirstsBut(events[..n], done);
      hide StartedIds, FirstsBut, FirstStart;
      var before, e := StartedIds(events[..n]), events[n];
      if e.Started? && e.callId.Some? {
        MinusStep(before, e.callId.value, done);
      }
    }
  }

  lemma MinusStep(a: set<string>, x: string, done: set<string>)
    ensures (a + {x}) - done == if x in done then a - done else (a - done) + {x}
    ensures |(a + {x}) - done| == |a - done| + if x in a || x in done then 0 else 1
  {
    if x in a || x in done {
      assert (a + {x}) - done == a - done;
    }
  }

  /** Observed executions are the events that are one, and confirmed ones the
      completions that report the sandbox. */
  lemma CountedExactly(events: seq<Event>)
    ensures ObservedCount(events) == |set i | 0 <= i < |events| && IsExecution(events, i)|
    ensures Confirmations(events)
         == |set i | 0 <= i < |events| && events[i].Completed? && events[i].flag == Some("true")|
  {
    var done := CompletedIds(events);
    OpenStarts(events, done);
    var completions := set i | 0 <= i < |events| && IsCompletion(events[i]);
    var anonymous := set i | 0 <= i < |events| && IsAnonymousStart(events[i]);
    ExecutionKinds(events, completions, anonymous);
    hide FirstsBut, IsExecution;
    CountIndices(events, IsCompletion, completions);
    CountIndices(events, IsAnonymousStart, anonymous);
    CountIndices(events, IsConfirmed, set i | 0 <= i < |events| && events[i].Completed?
      && events[i].flag == Some("true"));
  }

  lemma ExecutionKinds(events: seq<Event>, completions: set<int>, anonymous: set<int>)
    requires completions == set i | 0 <= i < |events| && IsCompletion(events[i])
    requires anonymous == set i | 0 <= i < |events| && IsAnonymousStart(events[i])
    ensures |set i | 0 <= i < |events| && IsExecution(events, i)|
         == |completions| + |FirstsBut(events, CompletedIds(events))| + |anonymous|
  {
    var unfinished := FirstsBut(events, CompletedIds(events));
    forall id
      ensures id in CompletedIds(events) <==> Completes(events, id)
    {
      CompletedExactly(events, id);
    }
    hide CompletedIds, Completes;
    assert (set i | 0 <= i < |events| && IsExecution(events, i)) == completions + unfinished + anonymous;
    assert completions !! unfinished && completions !! anonymous && unfinished !! anonymous;
  }

  // The records

  /** Start `k` is the first of this id. */
  predicate FirstOf(events: seq<Event>, k: int, id: string) {
    FirstStart(events, k) && events[k].callId == Some(id)
  }

  /** A completion's record: what it reported, whether its start came earlier, and its
      tool, or else the one its first start named. */
  predicate RecordsCompletion(events: seq<Event>, i: int, x: Execution) {
    && 0 <= i < |events| && events[i].Completed?
    && x.completed && x.callId == events[i].callId && x.flag == events[i].flag
    && (x.confirmed <==> events[i].flag == Some("true"))
    && (if exists k | 0 <= k < i :: x.callId.Some? && FirstOf(events, k, x.callId.value) then
          && x.startObserved
          && (x.tool == events[i].tool || events[i].tool == None)
          && (events[i].tool == None ==>
                forall k | 0 <= k < i && FirstOf(events, k, x.callId.value) :: x.tool == events[k].tool)
        else !x.startObserved && x.tool == events[i].tool)
  }

  /** The record of a start that no completion matches: it may have run unconfined. */
  predicate RecordsStart(events: seq<Event>, i: int, x: Execution) {
    && 0 <= i < |events| && events[i].Started?
    && x == Execution(events[i].callId, events[i].tool, None, false, true, false)
    && (events[i].callId.Some? ==> FirstStart(events, i) && !Completes(events, events[i].callId.value))
  }

  lemma {:induction false} FirstExists(events: seq<Event>, id: string)
    ensures id in StartedIds(events) <==> exists k :: FirstOf(events, k, id)
    ensures forall k | FirstOf(events, k, id) :: StartTool(events, id) == events[k].tool
  {
    if events != [] {
      var n := |events| - 1;
      FirstExists(events[..n], id);
      StartedStep(events);
      hide StartedIds;
      assert forall k | k < n :: FirstOf(events[..n], k, id) <==> FirstOf(events, k, id);
      assert FirstOf(events, n, id) <==> FirstStart(events, n) && events[n].callId == Some(id);
    }
  }

  /** Whether an id started among the first `n` events, and with which tool. */
  lemma StartedEarlier(events: seq<Event>, n: nat, id: string)
    requires n <= |events|
    ensures id in StartedIds(events[..n]) <==> exists k | 0 <= k < n :: FirstOf(events, k, id)
    ensures forall k | 0 <= k < n && FirstOf(events, k, id) :: StartTool(events[..n], id) == events[k].tool
  {
    FirstExists(events[..n], id);
    hide StartedIds, StartTool;
    assert forall k | 0 <= k < n :: FirstOf(events[..n], k, id) <==> FirstOf(events, k, id);
    assert forall k | FirstOf(events[..n], k, id) :: 0 <= k < n;
  }

  /** The record the gate makes of a completion that ends the stream. */
  function LastRecord(events: seq<Event>): Execution
    requires events != [] && events[|events| - 1].Completed?
  {
    var n := |events| - 1;
    var before, e := events[..n], events[n];
    var started := e.callId.Some? && e.callId.value in StartedIds(before);
    var name := if e.tool.Some? || !started then e.tool else StartTool(before, e.callId.value);
    Execution(e.callId, name, e.flag, true, started, IsConfirmed(e))
  }

  lemma LastRecordExactly(events: seq<Event>, x: Execution)
    requires events != [] && events[|events| - 1].Completed?
    ensures RecordsCompletion(events, |events| - 1, x) <==> x == LastRecord(events)
  {
    var n := |events| - 1;
    if events[n].callId.Some? {
      StartedEarlier(events, n, events[n].callId.value);
    }
    hide StartedIds, StartTool, FirstOf;
  }

  lemma CompletionShown(events: seq<Event>, x: Execution)
    requires events != []
    ensures var n := |events| - 1;
      x in CompletionRecords(events) <==> x in CompletionRecords(events[..n]) || RecordsCompletion(events, n, x)
  {
    hide RecordsCompletion, StartedIds, StartTool;
    var n := |events| - 1;
    if events[n].Completed? {
      LastRecordExactly(events, x);
      assert CompletionRecords(events) == CompletionRecords(events[..n]) + [LastRecord(events)];
    } else {
      NotCompleted(events, n, x);
    }
  }

  lemma NotCompleted(events: seq<Event>, i: int, x: Execution)
    ensures RecordsCompletion(events, i, x) ==> 0 <= i < |events| && events[i].Completed?
  {
  }

  lemma EarlierCompletion(events: seq<Event>, n: nat, i: int, x: Execution)
    requires i < n <= |events|
    ensures RecordsCompletion(events[..n], i, x) <==> RecordsCompletion(events, i, x)
  {
    assert forall k, id | k < n :: FirstOf(events[..n], k, id) <==> FirstOf(events, k, id);
  }

  lemma {:induction false} CompletionsShown(events: seq<Event>, x: Execution)
    ensures x in CompletionRecords(events) <==> exists i :: RecordsCompletion(events, i, x)
  {
    hide CompletionRecords, RecordsCompletion;
    if events == [] {
      NoRecords(x);
    } else {
      var n := |events| - 1;
      CompletionsShown(events[..n], x);
      CompletionShown(events, x);
      forall i | i < n
        ensures RecordsCompletion(events[..n], i, x) <==> RecordsCompletion(events, i, x)
      {
        EarlierCompletion(events, n, i, x);
      }
      forall i
        ensures RecordsCompletion(events, i, x) ==> i <= n
        ensures RecordsCompletion(events[..n], i, x) ==> i < n
      {
        RecordInside(events, i, x);
        RecordInside(events[..n], i, x);
      }
    }
  }

  lemma RecordInside(events: seq<Event>, i: int, x: Execution)
    ensures RecordsCompletion(events, i, x) ==> 0 <= i < |events|
  {
  }

  lemma NoRecords(x: Execution)
    ensures x !in CompletionRecords([]) && forall i :: !RecordsCompletion([], i, x)
  {
  }

  lemma {:induction false} AnonymousShown(events: seq<Event>, x: Execution)
    ensures x in AnonymousRecords(events) <==>
      exists i :: 0 <= i < |events| && events[i].Started? && events[i].callId.None? && RecordsStart(events, i, x)
  {
    if events != [] {
      var n := |events| - 1;
      AnonymousShown(events[..n], x);
      assert forall i | 0 <= i < n && events[i].Started? && events[i].callId.None? ::
        RecordsStart(events[..n], i, x) <==> RecordsStart(events, i, x);
    }
  }

  lemma {:induction false} UnfinishedShown(order: seq<string>, events: seq<Event>, x: Execution)
    ensures x in UnfinishedRecords(order, events) <==>
      exists id | id in order :: id !in CompletedIds(events) && x == NeverFinished(Some(id), StartTool(events, id))
  {
    hide CompletedIds, StartTool;
    if order != [] {
      var n := |order| - 1;
      UnfinishedShown(order[..n], events, x);
      assert order == order[..n] + [order[n]];
    }
  }

  lemma OpenShown(events: seq<Event>, x: Execution)
    ensures x in UnfinishedRecords(StartOrder(events), events) <==>
      exists i :: 0 <= i < |events| && events[i].Started? && events[i].callId.Some? && RecordsStart(events, i, x)
  {
    hide StartOrder, CompletedIds, StartTool, Completes, StartedIds;
    var order := StartOrder(events);
    UnfinishedShown(order, events, x);
    if x in UnfinishedRecords(order, events) {
      var id :| id in order && id !in CompletedIds(events) && x == NeverFinished(Some(id), StartTool(events, id));
      OrderedFirst(events, id);
      var k :| FirstOf(events, k, id);
      assert RecordsStart(events, k, x);
    }
    hide UnfinishedRecords;
    forall i | 0 <= i < |events| && events[i].Started? && events[i].callId.Some? && RecordsStart(events, i, x)
      ensures x in UnfinishedRecords(order, events)
    {
      OrderedFirst(events, events[i].callId.value);
      assert FirstOf(events, i, events[i].callId.value);
    }
  }

  lemma OrderedFirst(events: seq<Event>, id: string)
    ensures id in StartOrder(events) <==> exists k :: FirstOf(events, k, id)
    ensures forall k | FirstOf(events, k, id) :: StartTool(events, id) == events[k].tool
    ensures id in CompletedIds(events) <==> Completes(events, id)
  {
    FirstExists(events, id);
    CompletedExactly(events, id);
    hide FirstOf;
    assert id in StartOrder(events) <==> id in Members(StartOrder(events));
  }

  /** The gate's records are exactly those of its completions and of the starts that
      nothing matches. */
  lemma RecordsExactly(events: seq<Event>, x: Execution)
    ensures x in Records(events) <==>
      (exists i :: RecordsCompletion(events, i, x)) || (exists i :: RecordsStart(events, i, x))
  {
    hide CompletionRecords, UnfinishedRecords, AnonymousRecords, StartOrder, RecordsCompletion;
    CompletionsShown(events, x);
    OpenShown(events, x);
    AnonymousShown(events, x);
  }
}

/** The per-command sandbox gate (sandbox.py, SandboxGate and SandboxGateResult). */
module SandboxGates {
  import opened Results
  import opened Sequences

  datatype Screen = On | Off

  datatype Application = Application(succeeded: bool, beforeFirstPrompt: bool)

  /** What the session reports to the gate. A call id may be absent. */
  datatype Event =
    | Applied(application: Application)
    | Started(callId: Option<string>, tool: Option<string>)
    | Completed(callId: Option<string>, tool: Option<string>, flag: Option<string>)

  datatype Execution = Execution(
    callId: Option<string>,
    tool: Option<string>,
    flag: Option<string>,
    completed: bool,
    startObserved: bool,
    confirmed: bool)

  datatype GateReason = NeverApplied | ApplicationFailed | AppliedLate | NotAllConfirmed | NoEvidence

  datatype SandboxResult = SandboxResult(
    passed: bool,
    reason: Option<GateReason>,
    observed: nat,
    confirmed: nat,
    unconfirmed: seq<Execution>,
    vacuous: bool,
    screen: Screen,
    shellEnabled: bool,
    executions: seq<Execution>)

  // The event stream, read declaratively

  predicate IsCompletion(e: Event) {
    e.Completed?
  }

  predicate IsAnonymousStart(e: Event) {
    e.Started? && e.callId.None?
  }

  predicate IsConfirmed(e: Event) {
    e.Completed? && e.flag == Some("true")
  }

  function StartedIds(events: seq<Event>): set<string> {
    set e | e in events && e.Started? && e.callId.Some? :: e.callId.value
  }

  function CompletedIds(events: seq<Event>): set<string> {
    set e | e in events && e.Completed? && e.callId.Some? :: e.callId.value
  }

  function Completions(events: seq<Event>): nat {
    Count(events, IsCompletion)
  }

  function Confirmations(events: seq<Event>): nat {
    Count(events, IsConfirmed)
  }

  function AnonymousStarts(events: seq<Event>): nat {
    Count(events, IsAnonymousStart)
  }

  /** Every execution the stream gives evidence of: each completion, each started
      id that never completed, and each start without an id. */
  function ObservedCount(events: seq<Event>): nat {
    Completions(events) + |StartedIds(events) - CompletedIds(events)| + AnonymousStarts(events)
  }

  function LastApplication(events: seq<Event>): Option<Application> {
    if events == [] then None
    else if events[|events| - 1].Applied? then Some(events[|events| - 1].application)
    else LastApplication(events[..|events| - 1])
  }

  /** Every execution in the stream was reported as sandboxed. */
  predicate AllConfirmed(events: seq<Event>) {
    && (forall e | e in events && e.Completed? :: IsConfirmed(e))
    && (forall e | e in events && e.Started? :: e.callId.Some?)
    && StartedIds(events) <= CompletedIds(events)
  }

  predicate Exercised(events: seq<Event>) {
    exists e :: e in events && !e.Applied?
  }

  /** When a trial's confinement counts as established. */
  predicate Confined(events: seq<Event>, requireEvidence: bool) {
    var application := LastApplication(events);
    && application.Some? && application.value.succeeded && application.value.beforeFirstPrompt
    && AllConfirmed(events)
    && (requireEvidence ==> Exercised(events))
  }

  /** The three populations split the executions; all of them are confirmed
      exactly when every completion is and nothing is unfinished or anonymous. */
  lemma {:induction false} ConfirmedExactly(events: seq<Event>)
    ensures Confirmations(events) <= Completions(events)
    ensures AllConfirmed(events) <==> Confirmations(events) == ObservedCount(events)
    ensures ObservedCount(events) == 0 <==> !Exercised(events)
  {
    CountSame(events, IsCompletion, IsConfirmed);
    CountNone(events, IsAnonymousStart);
    CountNone(events, IsCompletion);
    var unfinished := StartedIds(events) - CompletedIds(events);
    assert StartedIds(events) <= CompletedIds(events) ==> unfinished == {};
    assert StartedIds(events) <= CompletedIds(events) + unfinished;
    if Exercised(events) {
      var e :| e in events && !e.Applied?;
      if e.Started? && e.callId.Some? {
        if e.callId.value in CompletedIds(events) {
          var c :| c in events && c.Completed? && c.callId == e.callId;
        } else {
          assert e.callId.value in unfinished;
        }
      }
    } else {
      assert unfinished == {};
    }
  }

  /** A count bounded by another is equal to it exactly when the one property
      implies the other. */
  lemma {:induction false} CountSame(events: seq<Event>, p: Event -> bool, q: Event -> bool)
    requires forall e :: q(e) ==> p(e)
    ensures Count(events, q) <= Count(events, p)
    ensures Count(events, q) == Count(events, p) <==> forall e | e in events && p(e) :: q(e)
  {
    if events != [] {
      var n := |events| - 1;
      CountSame(events[..n], p, q);
      assert events == events[..n] + [events[n]];
    }
  }

  lemma {:induction false} CountNone(events: seq<Event>, p: Event -> bool)
    ensures Count(events, p) == 0 <==> forall e | e in events :: !p(e)
  {
    if events != [] {
      var n := |events| - 1;
      CountNone(events[..n], p);
      assert events == events[..n] + [events[n]];
    }
  }

  // Order does not matter

  /** Permuting starts and completions changes neither the verdict nor any count. */
  lemma VerdictIgnoresOrder(a: seq<Event>, b: seq<Event>, requireEvidence: bool)
    requires multiset(a) == multiset(b) && LastApplication(a) == LastApplication(b)
    ensures Confined(a, requireEvidence) <==> Confined(b, requireEvidence)
    ensures ObservedCount(a) == ObservedCount(b) && Confirmations(a) == Confirmations(b)
  {
    assert forall e :: e in a <==> e in multiset(a);
    assert forall e :: e in b <==> e in multiset(b);
    assert StartedIds(a) == StartedIds(b) && CompletedIds(a) == CompletedIds(b);
    CountPermutation(a, b, IsCompletion);
    CountPermutation(a, b, IsConfirmed);
    CountPermutation(a, b, IsAnonymousStart);
    ConfirmedExactly(a);
    ConfirmedExactly(b);
  }

  /** Whatever is observed later, an unconfirmed completion or an anonymous start
      keeps the gate closed; a started id can still be closed by its completion. */
  lemma NeverRepaired(events: seq<Event>, later: seq<Event>, bad: Event, requireEvidence: bool)
    requires bad in events
    requires (bad.Completed? && !IsConfirmed(bad)) || (bad.Started? && bad.callId.None?)
    ensures !Confined(events + later, requireEvidence)
  {
    assert bad in events + later;
  }

  // The records the gate keeps of the stream

  /** Started ids in the order of their first start. */
  function StartOrder(events: seq<Event>): (ids: seq<string>)
    ensures Distinct(ids) && Members(ids) == StartedIds(events)
  {
    if events == [] then [] else
      var n := |events| - 1;
      var earlier, e := StartOrder(events[..n]), events[n];
      assert events == events[..n] + [e];
      Observe(events[..n], e);
      if e.Started? && e.callId.Some? && e.callId.value !in earlier then
        assert Members(earlier + [e.callId.value]) == Members(earlier) + {e.callId.value};
        earlier + [e.callId.value]
      else
        earlier
  }

  /** The tool named by the first start of an id. */
  function StartTool(events: seq<Event>, id: string): Option<string> {
    if events == [] then None else
      var n := |events| - 1;
      if events[n].Started? && events[n].callId == Some(id) && id !in StartedIds(events[..n])
      then events[n].tool
      else StartTool(events[..n], id)
  }

  function CompletionRecords(events: seq<Event>): seq<Execution> {
    if events == [] then [] else
      var n := |events| - 1;
      var before, e := events[..n], events[n];
      CompletionRecords(before) + if !e.Completed? then [] else
        var started := e.callId.Some? && e.callId.value in StartedIds(before);
        var name := if e.tool.Some? || !started then e.tool else StartTool(before, e.callId.value);
        [Execution(e.callId, name, e.flag, true, started, IsConfirmed(e))]
  }

  function NeverFinished(id: Option<string>, tool: Option<string>): Execution {
    Execution(id, tool, None, false, true, false)
  }

  function AnonymousRecords(events: seq<Event>): seq<Execution> {
    if events == [] then [] else
      var n := |events| - 1;
      AnonymousRecords(events[..n])
      + if IsAnonymousStart(events[n]) then [NeverFinished(None, events[n].tool)] else []
  }

  function UnfinishedRecords(order: seq<string>, events: seq<Event>): seq<Execution> {
    if order == [] then [] else
      var id := order[|order| - 1];
      UnfinishedRecords(order[..|order| - 1], events)
      + if id in CompletedIds(events) then [] else [NeverFinished(Some(id), StartTool(events, id))]
  }

  function Records(events: seq<Event>): seq<Execution> {
    CompletionRecords(events) + UnfinishedRecords(StartOrder(events), events) + AnonymousRecords(events)
  }

  function ConfirmedIn(records: seq<Execution>): nat {
    if records == [] then 0
    else ConfirmedIn(records[..|records| - 1]) + (if records[|records| - 1].confirmed then 1 else 0)
  }

  function Unconfirmed(records: seq<Execution>): (r: seq<Execution>)
    ensures |r| + ConfirmedIn(records) == |records|
    ensures forall x | x in r :: !x.confirmed
  {
    if records == [] then [] else
      Unconfirmed(records[..|records| - 1])
      + if records[|records| - 1].confirmed then [] else [records[|records| - 1]]
  }

  lemma {:induction false} ConfirmedInConcat(a: seq<Execution>, b: seq<Execution>)
    ensures ConfirmedIn(a + b) == ConfirmedIn(a) + ConfirmedIn(b)
  {
    if b == [] {
      assert a + b == a;
    } else {
      assert (a + b)[..|a + b| - 1] == a + b[..|b| - 1];
      ConfirmedInConcat(a, b[..|b| - 1]);
    }
  }

  lemma {:induction false} UnfinishedCounted(order: seq<string>, events: seq<Event>)
    requires Distinct(order)
    ensures |UnfinishedRecords(order, events)| == |Members(order) - CompletedIds(events)|
    ensures ConfirmedIn(UnfinishedRecords(order, events)) == 0
  {
    if order != [] {
      var n := |order| - 1;
      var id := order[n];
      DistinctSnoc(order);
      UnfinishedCounted(order[..n], events);
      var earlier, completed := UnfinishedRecords(order[..n], events), CompletedIds(events);
      if id in completed {
        assert Members(order) - completed == Members(order[..n]) - completed;
        assert UnfinishedRecords(order, events) == earlier;
      } else {
        assert Members(order) - completed == (Members(order[..n]) - completed) + {id};
        ConfirmedInConcat(earlier, [NeverFinished(Some(id), StartTool(events, id))]);
      }
    }
  }

  lemma {:induction false} CompletionsCounted(events: seq<Event>)
    ensures |CompletionRecords(events)| == Completions(events)
    ensures ConfirmedIn(CompletionRecords(events)) == Confirmations(events)
    ensures |AnonymousRecords(events)| == AnonymousStarts(events)
    ensures ConfirmedIn(AnonymousRecords(events)) == 0
  {
    if events != [] {
      var n := |events| - 1;
      CompletionsCounted(events[..n]);
      var before, all := CompletionRecords(events[..n]), CompletionRecords(events);
      ConfirmedInConcat(before, all[|before|..]);
      assert all == before + all[|before|..];
      var before', all' := AnonymousRecords(events[..n]), AnonymousRecords(events);
      ConfirmedInConcat(before', all'[|before'|..]);
      assert all' == before' + all'[|before'|..];
    }
  }

  /** The records show exactly the executions and confirmations of the stream. */
  lemma RecordsCounted(events: seq<Event>)
    ensures |Records(events)| == ObservedCount(events)
    ensures ConfirmedIn(Records(events)) == Confirmations(events)
  {
    var order := StartOrder(events);
    UnfinishedCounted(order, events);
    CompletionsCounted(events);
    ConfirmedInConcat(CompletionRecords(events), UnfinishedRecords(order, events));
    ConfirmedInConcat(CompletionRecords(events) + UnfinishedRecords(order, events), AnonymousRecords(events));
  }

  // The gate object

  class SandboxGate {
    const screen: Screen
    const shellEnabled: bool
    const requireEvidence: bool
    var startOrder: seq<string>
    var startTools: map<string, Option<string>>
    var anonymousStarts: seq<Execution>
    var completedIds: set<string>
    var executions: seq<Execution>
    var application: Option<Application>
    ghost var events: seq<Event>

    /** The fields are what the observed events determine. */
    ghost predicate Valid()
      reads this
    {
      && startOrder == StartOrder(events)
      && startTools.Keys == StartedIds(events)
      && (forall id | id in startTools :: startTools[id] == StartTool(events, id))
      && anonymousStarts == AnonymousRecords(events)
      && completedIds == CompletedIds(events)
      && executions == CompletionRecords(events)
      && application == LastApplication(events)
    }

    /** With the screen off and a shell enabled the evidence requirement cannot be waived. */
    constructor (requireEvidence: bool, screen: Screen, shellEnabled: bool)
      ensures Valid() && events == []
      ensures this.screen == screen && this.shellEnabled == shellEnabled
      ensures this.requireEvidence <==> requireEvidence || (shellEnabled && screen == Off)
    {
      this.screen, this.shellEnabled := screen, shellEnabled;
      this.requireEvidence := requireEvidence || (shellEnabled && screen == Off);
      startOrder, startTools, anonymousStarts := [], map[], [];
      completedIds, executions, application, events := {}, [], None, [];
    }

    method RecordApplication(a: Application)
      requires Valid()
      modifies this
      ensures Valid() && events == old(events) + [Applied(a)]
    {
      application := Some(a);
      Observe(events, Applied(a));
      events := events + [Applied(a)];
    }

    method ObserveStart(callId: Option<string>, tool: Option<string>)
      requires Valid()
      modifies this
      ensures Valid() && events == old(events) + [Started(callId, tool)]
    {
      Observe(events, Started(callId, tool));
      events := events + [Started(callId, tool)];
      if callId.None? {
        anonymousStarts := anonymousStarts + [NeverFinished(None, tool)];
      } else if callId.value !in startTools {
        startOrder := startOrder + [callId.value];
        startTools := startTools[callId.value := tool];
      }
    }

    method ObserveCompletion(callId: Option<string>, tool: Option<string>, flag: Option<string>)
      requires Valid()
      modifies this
      ensures Valid() && events == old(events) + [Completed(callId, tool, flag)]
    {
      Observe(events, Completed(callId, tool, flag));
      events := events + [Completed(callId, tool, flag)];
      var started := callId.Some? && callId.value in startTools;
      var name := if tool.Some? || !started then tool else startTools[callId.value];
      executions := executions + [Execution(callId, name, flag, true, started, flag == Some("true"))];
      if callId.Some? {
        completedIds := completedIds + {callId.value};
      }
    }

    method AllExecutions() returns (records: seq<Execution>)
      requires Valid()
      ensures records == Records(events)
    {
      records := executions;
      for i := 0 to |startOrder|
        invariant records == executions + UnfinishedRecords(startOrder[..i], events)
      {
        assert startOrder[..i + 1][..i] == startOrder[..i];
        var id := startOrder[i];
        assert id in Members(startOrder);
        if id !in completedIds {
          records := records + [NeverFinished(Some(id), startTools[id])];
        }
      }
      assert startOrder[..|startOrder|] == startOrder;
      records := records + anonymousStarts;
    }

    method Evaluate() returns (r: SandboxResult)
      requires Valid()
      ensures r.passed <==> Confined(events, requireEvidence)
      ensures r.passed <==> r.reason.None?
      ensures r.executions == Records(events) && r.unconfirmed == Unconfirmed(Records(events))
      ensures r.observed == ObservedCount(events) && r.confirmed == Confirmations(events)
      ensures r.observed == r.confirmed + |r.unconfirmed|
      ensures r.vacuous <==> !Exercised(events)
      ensures r.screen == screen && r.shellEnabled == shellEnabled
    {
      var records := AllExecutions();
      RecordsCounted(events);
      ConfirmedExactly(events);
      var unconfirmed := Unconfirmed(records);
      var reason: Option<GateReason> :=
        if application.None? then Some(NeverApplied)
        else if !application.value.succeeded then Some(ApplicationFailed)
        else if !application.value.beforeFirstPrompt then Some(AppliedLate)
        else if unconfirmed != [] then Some(NotAllConfirmed)
        else if records == [] && requireEvidence then Some(NoEvidence)
        else None;
      r := SandboxResult(reason.None?, reason, |records|, |records| - |unconfirmed|, unconfirmed,
                         records == [], screen, shellEnabled, records);
    }
  }

  lemma Observe(events: seq<Event>, e: Event)
    ensures var after := events + [e];
      && after[..|after| - 1] == events
      && StartedIds(after) == StartedIds(events)
           + (if e.Started? && e.callId.Some? then {e.callId.value} else {})
      && CompletedIds(after) == CompletedIds(events)
           + (if e.Completed? && e.callId.Some? then {e.callId.value} else {})
  {
  }
}

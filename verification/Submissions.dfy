/** JSON values as the tool call and the saved outcome carry them. Object keys
    are unique, so an object is a map; every key the harness names has its own
    constructor. */
module JsonValues {
  import opened Numbers

  datatype Key =
    | FaultKey | CategoryKey | ComponentKey | SubmittedComponentKey | EvidenceKey | ConfidenceKey
    | RemediationKey | EdgeKey | SubmittedEdgeKey
    | SourceKey | TargetKey | SignalKey | ObservationKey
    | OtherKey(name: string)

  datatype Json =
    | Null
    | Bool(b: bool)
    | Num(n: Number)
    | Str(s: string)
    | Arr(items: seq<Json>)
    | Obj(fields: map<Key, Json>)

  /** `dict.get(key)`: an absent key reads as null. */
  function Get(fields: map<Key, Json>, key: Key): Json {
    if key in fields then fields[key] else Null
  }
}

/** The submit call: parsing, the canonical answer and the recorder (submit_tool.py). */
module Submissions {
  import opened Numbers
  import opened Results
  import opened Text
  import opened JsonValues
  import opened ComponentMaps

  /** The closed vocabulary of causes. */
  function CausalCategories(): set<string> {
    {
      "cpu_saturation", "memory_exhaustion", "garbage_collection", "dependency_latency", "slow_database",
      "queue_backlog", "cache_failure", "lock_contention", "partial_errors", "load_surge"
    }
  }

  datatype Citation = Citation(signal: string, observation: string)

  datatype Connection = Connection(source: string, target: string)

  datatype Submission = Submission(
    faultPresent: bool,
    causalCategory: Option<string>,
    component: Option<string>,
    componentAsSubmitted: Option<string>,
    evidence: seq<Citation>,
    confidence: Number,
    remediation: Option<string>,
    connection: Option<Connection>,
    connectionAsSubmitted: Option<Connection>)

  // Serialisation

  function TextOrNull(t: Option<string>): Json {
    if t.Some? then Str(t.value) else Null
  }

  function CitationJson(c: Citation): Json {
    Obj(map[SignalKey := Str(c.signal), ObservationKey := Str(c.observation)])
  }

  function ConnectionJson(c: Option<Connection>): Json {
    if c.Some? then Obj(map[SourceKey := Str(c.value.source), TargetKey := Str(c.value.target)]) else Null
  }

  function EvidenceJson(evidence: seq<Citation>): seq<Json> {
    seq(|evidence|, i requires 0 <= i < |evidence| => CitationJson(evidence[i]))
  }

  const ANSWER_KEYS: set<Key> := {
    FaultKey, CategoryKey, ComponentKey, SubmittedComponentKey, EvidenceKey, ConfidenceKey,
    RemediationKey, EdgeKey, SubmittedEdgeKey
  }

  /** `Submission.to_json_dict()`. */
  function AnswerFields(s: Submission): (fields: map<Key, Json>)
    ensures fields.Keys == ANSWER_KEYS
  {
    map[
      FaultKey := Bool(s.faultPresent),
      CategoryKey := TextOrNull(s.causalCategory),
      ComponentKey := TextOrNull(s.component),
      SubmittedComponentKey := TextOrNull(s.componentAsSubmitted),
      EvidenceKey := Arr(EvidenceJson(s.evidence)),
      ConfidenceKey := Num(s.confidence),
      RemediationKey := TextOrNull(s.remediation),
      EdgeKey := ConnectionJson(s.connection),
      SubmittedEdgeKey := ConnectionJson(s.connectionAsSubmitted)
    ]
  }

  // Parsing

  /** A non-blank string, stripped. */
  function RequireText(v: Json): Result<string> {
    if v.Str? && !Blank(v.s) then Ok(Strip(v.s)) else Err
  }

  function ParseCitation(item: Json): Result<Citation> {
    if !item.Obj? then Err else
    var signal :- RequireText(Get(item.fields, SignalKey));
    var observation :- RequireText(Get(item.fields, ObservationKey));
    Ok(Citation(signal, observation))
  }

  /** The citations in order, or the first one's error. */
  function ParseCitations(items: seq<Json>): (r: Result<seq<Citation>>)
    ensures r.Ok? ==> |r.value| == |items|
  {
    if items == [] then Ok([]) else
      var earlier :- ParseCitations(items[..|items| - 1]);
      var last :- ParseCitation(items[|items| - 1]);
      Ok(earlier + [last])
  }

  lemma {:induction false} CitationsErrorStays(items: seq<Json>, k: nat)
    requires k <= |items| && ParseCitations(items[..k]).Err?
    ensures ParseCitations(items) == ParseCitations(items[..k])
    decreases |items|
  {
    if k == |items| {
      assert items[..k] == items;
    } else {
      var shorter := items[..|items| - 1];
      assert shorter[..k] == items[..k];
      CitationsErrorStays(shorter, k);
    }
  }

  method CollectCitations(items: seq<Json>) returns (r: Result<seq<Citation>>)
    ensures r == ParseCitations(items)
  {
    var citations: seq<Citation> := [];
    for i := 0 to |items|
      invariant ParseCitations(items[..i]) == Ok(citations)
    {
      assert items[..i + 1][..i] == items[..i];
      var parsed := ParseCitation(items[i]);
      if parsed.Err? {
        CitationsErrorStays(items, i + 1);
        return Err;
      }
      citations := citations + [parsed.value];
    }
    assert items[..|items|] == items;
    return Ok(citations);
  }

  function ParseConnection(v: Json): Result<Option<Connection>> {
    if v.Null? then Ok(None) else
      :- Need(v.Obj? && v.fields.Keys == {SourceKey, TargetKey});
      var source :- RequireText(v.fields[SourceKey]);
      var target :- RequireText(v.fields[TargetKey]);
      Ok(Some(Connection(source, target)))
  }

  function ResolveConnection(aliases: Aliases, c: Option<Connection>): Result<Option<Connection>> {
    if c.None? then Ok(None) else
      var source :- Canonical(aliases, c.value.source);
      var target :- Canonical(aliases, c.value.target);
      Ok(Some(Connection(source, target)))
  }

  /** A fault claim names a category, a target and a remediation. */
  function ParseFault(fields: map<Key, Json>, evidence: seq<Citation>, confidence: Number, aliases: Aliases)
    : Result<Submission>
  {
    var category := Get(fields, CategoryKey);
    :- Need(category.Str? && category.s in CausalCategories());
    var submitted :- RequireText(Get(fields, ComponentKey));
    var component :- Canonical(aliases, submitted);
    var remediation :- RequireText(Get(fields, RemediationKey));
    var edgeSubmitted :- ParseConnection(Get(fields, EdgeKey));
    var edge :- ResolveConnection(aliases, edgeSubmitted);
    Ok(Submission(true, Some(category.s), Some(component), Some(submitted), evidence, confidence,
                  Some(remediation), edge, edgeSubmitted))
  }

  /** A healthy claim may declare no part of a cause. Blank remediation text is tolerated. */
  function ParseHealthy(fields: map<Key, Json>, evidence: seq<Citation>, confidence: Number): Result<Submission> {
    var remediation := Get(fields, RemediationKey);
    :- Need(Get(fields, CategoryKey).Null?);
    :- Need(Get(fields, ComponentKey).Null?);
    :- Need(Get(fields, EdgeKey).Null?);
    :- Need(remediation.Null? || (remediation.Str? && Blank(remediation.s)));
    Ok(Submission(false, None, None, None, evidence, confidence, None, None, None))
  }

  /** What `validate_submission` accepts, and as which answer. */
  function Validated(payload: Json, aliases: Aliases): Result<Submission> {
    if !payload.Obj? then Err else
    var fields := payload.fields;
    var fault, confidence, evidence := Get(fields, FaultKey), Get(fields, ConfidenceKey), Get(fields, EvidenceKey);
    :- Need(fault.Bool?);
    :- Need(confidence.Num? && 0.0 <= confidence.n <= 1.0);
    :- Need(evidence.Arr? && evidence.items != []);
    var citations :- ParseCitations(evidence.items);
    if fault.b then ParseFault(fields, citations, confidence.n, aliases)
    else ParseHealthy(fields, citations, confidence.n)
  }

  method ValidateSubmission(payload: Json, aliases: Aliases) returns (r: Result<Submission>)
    ensures r == Validated(payload, aliases)
  {
    if !payload.Obj? {
      return Err;
    }
    var fields := payload.fields;
    var fault, confidence, evidence := Get(fields, FaultKey), Get(fields, ConfidenceKey), Get(fields, EvidenceKey);
    if !fault.Bool? {
      return Err;
    }
    if !(confidence.Num? && 0.0 <= confidence.n <= 1.0) {
      return Err;
    }
    if !(evidence.Arr? && evidence.items != []) {
      return Err;
    }
    var citations := CollectCitations(evidence.items);
    if citations.Err? {
      return Err;
    }
    if fault.b {
      r := ParseFault(fields, citations.value, confidence.n, aliases);
    } else {
      r := ParseHealthy(fields, citations.value, confidence.n);
    }
  }

  // Canonical answers are a fixed point

  predicate CleanText(s: string) {
    s != "" && Strip(s) == s
  }

  ghost predicate CanonicalEdge(aliases: Aliases, c: Option<Connection>) {
    c.Some? ==> CanonicalName(aliases, c.value.source) && CanonicalName(aliases, c.value.target)
  }

  /** The form of every accepted answer: clean text and canonical names throughout. */
  ghost predicate CanonicalAnswer(s: Submission, aliases: Aliases) {
    && 0.0 <= s.confidence <= 1.0
    && s.evidence != []
    && (forall c | c in s.evidence :: CleanText(c.signal) && CleanText(c.observation))
    && (if s.faultPresent then
          && s.causalCategory.Some? && s.causalCategory.value in CausalCategories()
          && s.component.Some? && CanonicalName(aliases, s.component.value)
          && s.remediation.Some? && CleanText(s.remediation.value)
          && CanonicalEdge(aliases, s.connection)
        else
          && s.causalCategory == None && s.component == None && s.remediation == None && s.connection == None)
  }

  lemma {:induction false} CitationsClean(items: seq<Json>)
    requires ParseCitations(items).Ok?
    ensures forall c | c in ParseCitations(items).value :: CleanText(c.signal) && CleanText(c.observation)
  {
    if items != [] {
      CitationsClean(items[..|items| - 1]);
      var earlier := ParseCitations(items[..|items| - 1]).value;
      var last := ParseCitation(items[|items| - 1]).value;
      assert ParseCitations(items).value == earlier + [last];
    }
  }

  lemma FaultIsCanonical(fields: map<Key, Json>, evidence: seq<Citation>, confidence: Number, aliases: Aliases)
    requires SelfResolving(aliases) && ParseFault(fields, evidence, confidence, aliases).Ok?
    requires 0.0 <= confidence <= 1.0 && evidence != []
    requires forall c | c in evidence :: CleanText(c.signal) && CleanText(c.observation)
    ensures CanonicalAnswer(ParseFault(fields, evidence, confidence, aliases).value, aliases)
  {
  }

  /** Every accepted answer is canonical for the fixture's table. */
  lemma AcceptedIsCanonical(payload: Json, aliases: Aliases)
    requires SelfResolving(aliases) && Validated(payload, aliases).Ok?
    ensures CanonicalAnswer(Validated(payload, aliases).value, aliases)
  {
    hide CausalCategories, ParseFault;
    var fields := payload.fields;
    var items := Get(fields, EvidenceKey).items;
    CitationsClean(items);
    var evidence := ParseCitations(items).value;
    if Get(fields, FaultKey).b {
      FaultIsCanonical(fields, evidence, Get(fields, ConfidenceKey).n, aliases);
    }
  }

  /** The names a saved answer mentions. An edge with other keys than source and
      target is refused by the parser, so its further names do not matter. */
  function MentionedNames(fields: map<Key, Json>): seq<string> {
    var edge := Get(fields, EdgeKey);
    TextOf(Get(fields, ComponentKey))
    + (if edge.Obj? then TextOf(Get(edge.fields, SourceKey)) + TextOf(Get(edge.fields, TargetKey)) else [])
  }

  function TextOf(v: Json): seq<string> {
    if v.Str? then [v.s] else []
  }

  /** The identity table over the mentioned names, or a placeholder when there are none. */
  function ReplayMap(fields: map<Key, Json>): seq<(string, string)> {
    var names := MentionedNames(fields);
    SelfMap(if names == [] then ["unused"] else names)
  }

  /** The validator's second reading of a saved answer, without the fixture's table. */
  function Reparsed(fields: map<Key, Json>): Result<Submission> {
    if !Buildable(ReplayMap(fields)) then Err
    else Validated(Obj(fields), Table(ReplayMap(fields)))
  }

  method Reparse(fields: map<Key, Json>) returns (r: Result<Submission>)
    ensures r.Ok? <==> Reparsed(fields).Ok?
    ensures r.Ok? ==> r == Reparsed(fields)
  {
    var table := Construct(ReplayMap(fields));
    if table.Err? {
      return Err;
    }
    r := ValidateSubmission(Obj(fields), table.value);
  }

  lemma AnswerKeys(s: Submission)
    ensures AnswerFields(s).Keys == ANSWER_KEYS
    ensures var f := AnswerFields(s);
      && Get(f, FaultKey) == Bool(s.faultPresent)
      && Get(f, CategoryKey) == TextOrNull(s.causalCategory)
      && Get(f, ComponentKey) == TextOrNull(s.component)
      && Get(f, EvidenceKey) == Arr(EvidenceJson(s.evidence))
      && Get(f, ConfidenceKey) == Num(s.confidence)
      && Get(f, RemediationKey) == TextOrNull(s.remediation)
      && Get(f, EdgeKey) == ConnectionJson(s.connection)
  {
  }

  lemma {:induction false} EvidenceRoundTrip(evidence: seq<Citation>)
    requires forall c | c in evidence :: CleanText(c.signal) && CleanText(c.observation)
    ensures ParseCitations(EvidenceJson(evidence)) == Ok(evidence)
  {
    if evidence != [] {
      var earlier, last := evidence[..|evidence| - 1], evidence[|evidence| - 1];
      assert EvidenceJson(evidence)[..|evidence| - 1] == EvidenceJson(earlier);
      EvidenceRoundTrip(earlier);
      assert last in evidence;
      assert ParseCitation(CitationJson(last)) == Ok(last);
      assert evidence == earlier + [last];
    }
  }

  /** The accepted answer with the submitted spellings replaced by the canonical ones. */
  function InCanonicalNames(s: Submission): Submission {
    s.(componentAsSubmitted := s.component, connectionAsSubmitted := s.connection)
  }

  lemma NamesOfAnswer(s: Submission)
    ensures MentionedNames(AnswerFields(s)) ==
      (if s.component.Some? then [s.component.value] else [])
      + (if s.connection.Some? then [s.connection.value.source, s.connection.value.target] else [])
  {
    AnswerKeys(s);
  }

  lemma ReplayMapResolves(s: Submission, aliases: Aliases)
    requires s.component.Some? ==> CanonicalName(aliases, s.component.value)
    requires CanonicalEdge(aliases, s.connection)
    ensures Buildable(ReplayMap(AnswerFields(s)))
    ensures s.component.Some? ==>
      Canonical(Table(ReplayMap(AnswerFields(s))), s.component.value) == Ok(s.component.value)
    ensures ResolveConnection(Table(ReplayMap(AnswerFields(s))), s.connection) == Ok(s.connection)
  {
    hide Buildable, Table, AnswerFields, CanonicalName;
    var names := MentionedNames(AnswerFields(s));
    NamesOfAnswer(s);
    PlaceholderResolves();
    if names != [] {
      SelfMapResolves(aliases, names);
      assert s.component.Some? ==> s.component.value in names;
      assert s.connection.Some? ==> s.connection.value.source in names && s.connection.value.target in names;
    }
  }

  lemma PlaceholderResolves()
    ensures Buildable(SelfMap(["unused"]))
  {
    assert Strip("unused") == "unused";
    SelfMapResolves(map[Lower("unused") := "unused"], ["unused"]);
  }

  lemma RevalidateFault(s: Submission, fields: map<Key, Json>, aliases: Aliases, table: Aliases)
    requires CanonicalAnswer(s, aliases) && s.faultPresent && fields == AnswerFields(s)
    requires Canonical(table, s.component.value) == Ok(s.component.value)
    requires ResolveConnection(table, s.connection) == Ok(s.connection)
    ensures ParseFault(fields, s.evidence, s.confidence, table) == Ok(InCanonicalNames(s))
  {
    hide CausalCategories;
    AnswerKeys(s);
    hide AnswerFields;
    assert ParseConnection(ConnectionJson(s.connection)) == Ok(s.connection);
  }

  lemma RevalidateHealthy(s: Submission, fields: map<Key, Json>, aliases: Aliases)
    requires CanonicalAnswer(s, aliases) && !s.faultPresent && fields == AnswerFields(s)
    ensures ParseHealthy(fields, s.evidence, s.confidence) == Ok(InCanonicalNames(s))
  {
    AnswerKeys(s);
  }

  /** Re-reading an accepted answer's canonical form under the identity table
      built from its own names accepts it again, with every canonical field the same. */
  lemma CanonicalFixedPoint(s: Submission, aliases: Aliases)
    requires CanonicalAnswer(s, aliases)
    ensures Reparsed(AnswerFields(s)) == Ok(InCanonicalNames(s))
  {
    hide CausalCategories, CanonicalName, Buildable, Table, ParseFault, ParseHealthy, ParseCitations, ReplayMap;
    var fields := AnswerFields(s);
    ReplayMapResolves(s, aliases);
    var table := Table(ReplayMap(fields));
    EvidenceRoundTrip(s.evidence);
    if s.faultPresent {
      RevalidateFault(s, fields, aliases, table);
    } else {
      RevalidateHealthy(s, fields, aliases);
    }
    AnswerKeys(s);
    assert |EvidenceJson(s.evidence)| == |s.evidence|;
  }

  // The recorder

  datatype Call = Call(payload: Json, accepted: bool)

  datatype Record = Record(calls: seq<Call>, submission: Option<Submission>)

  /** The recorder after a sequence of submit calls, oldest first. */
  function Recorded(aliases: Aliases, payloads: seq<Json>): (r: Record)
    ensures |r.calls| == |payloads|
  {
    if payloads == [] then Record([], None) else
      var before := Recorded(aliases, payloads[..|payloads| - 1]);
      var payload := payloads[|payloads| - 1];
      if before.submission.Some? then
        before.(calls := before.calls + [Call(payload, false)])
      else
        match Validated(payload, aliases)
        case Err => before.(calls := before.calls + [Call(payload, false)])
        case Ok(s) => Record(before.calls + [Call(payload, true)], Some(s))
  }

  function Rejections(calls: seq<Call>): nat {
    if calls == [] then 0
    else Rejections(calls[..|calls| - 1]) + (if calls[|calls| - 1].accepted then 0 else 1)
  }

  /** Holds every submit attempt and the first valid one. */
  class SubmissionRecorder {
    const aliases: Aliases
    var calls: seq<Call>
    var submission: Option<Submission>
    ghost var payloads: seq<Json>

    ghost predicate Valid()
      reads this
    {
      Recorded(aliases, payloads) == Record(calls, submission)
    }

    constructor (aliases: Aliases)
      ensures Valid() && this.aliases == aliases && payloads == []
    {
      this.aliases := aliases;
      calls, submission, payloads := [], None, [];
    }

    method RecordCall(payload: Json) returns (accepted: bool)
      requires Valid()
      modifies this
      ensures Valid() && payloads == old(payloads) + [payload]
      ensures accepted <==> old(submission).None? && Validated(payload, aliases).Ok?
      ensures submission == if accepted then Some(Validated(payload, aliases).value) else old(submission)
      ensures |calls| == |old(calls)| + 1 && old(calls) <= calls
      ensures calls[|old(calls)|].payload == payload && calls[|old(calls)|].accepted == accepted
    {
      payloads := payloads + [payload];
      assert payloads[..|payloads| - 1] == old(payloads);
      if submission.Some? {
        calls := calls + [Call(payload, false)];
        return false;
      }
      var parsed := ValidateSubmission(payload, aliases);
      if parsed.Err? {
        calls := calls + [Call(payload, false)];
        return false;
      }
      submission := Some(parsed.value);
      calls := calls + [Call(payload, true)];
      return true;
    }

    method RejectedAttempts() returns (n: nat)
      ensures n == Rejections(calls)
    {
      n := 0;
      for i := 0 to |calls|
        invariant n == Rejections(calls[..i])
      {
        assert calls[..i + 1][..i] == calls[..i];
        if !calls[i].accepted {
          n := n + 1;
        }
      }
      assert calls[..|calls|] == calls;
    }
  }

  /** Payload number `k` is the first one the fixture accepts, as answer `s`. */
  ghost predicate FirstValid(aliases: Aliases, payloads: seq<Json>, k: nat, s: Submission) {
    && k < |payloads|
    && Validated(payloads[k], aliases) == Ok(s)
    && forall j | 0 <= j < k :: Validated(payloads[j], aliases).Err?
  }

  /** The recorded answer is the first valid payload's, and is never revised. */
  lemma {:induction false} FirstValidWins(aliases: Aliases, payloads: seq<Json>)
    ensures var r := Recorded(aliases, payloads);
      && (r.submission.None? <==> forall i | 0 <= i < |payloads| :: Validated(payloads[i], aliases).Err?)
      && (r.submission.Some? ==> exists k :: FirstValid(aliases, payloads, k, r.submission.value))
  {
    hide Validated;
    if payloads != [] {
      var n := |payloads| - 1;
      var before := payloads[..n];
      FirstValidWins(aliases, before);
      var b, r := Recorded(aliases, before), Recorded(aliases, payloads);
      if b.submission.Some? {
        var k: nat :| FirstValid(aliases, before, k, b.submission.value);
        FirstValidLater(aliases, payloads, n, k, b.submission.value);
      } else if r.submission.Some? {
        assert FirstValid(aliases, payloads, n, r.submission.value);
      }
    }
  }

  lemma FirstValidLater(aliases: Aliases, payloads: seq<Json>, n: nat, k: nat, s: Submission)
    requires n <= |payloads| && FirstValid(aliases, payloads[..n], k, s)
    ensures FirstValid(aliases, payloads, k, s)
    ensures Validated(payloads[k], aliases).Ok?
  {
    hide Validated;
    assert forall j | 0 <= j < n :: payloads[..n][j] == payloads[j];
  }

  /** Every call but the accepted one counts as rejected. */
  lemma {:induction false} RejectionsCounted(aliases: Aliases, payloads: seq<Json>)
    ensures var r := Recorded(aliases, payloads);
      Rejections(r.calls) == |payloads| - (if r.submission.Some? then 1 else 0)
  {
    hide Validated;
    if payloads != [] {
      var before := payloads[..|payloads| - 1];
      RejectionsCounted(aliases, before);
      var b, r := Recorded(aliases, before), Recorded(aliases, payloads);
      assert r.calls[..|b.calls|] == b.calls;
    }
  }
}

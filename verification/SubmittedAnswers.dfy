/** Which answer a submit call denotes, part by part, and that the parser accepts
    exactly that one (submit_tool.py). */
module SubmittedAnswers {
  import opened Numbers
  import opened Results
  import opened Text
  import opened JsonValues
  import opened ComponentMaps
  import opened Submissions

  /** The part of a payload is this text, up to outer white space. */
  ghost predicate Says(v: Json, t: string) {
    v.Str? && Trimmed(v.s, t)
  }

  /** The table has this canonical name for the submitted one, whatever its case. */
  predicate Means(aliases: Aliases, submitted: string, canonical: string) {
    Lower(submitted) in aliases && aliases[Lower(submitted)] == canonical
  }

  ghost predicate Cites(v: Json, c: Citation) {
    && v.Obj? && SignalKey in v.fields && ObservationKey in v.fields
    && Says(v.fields[SignalKey], c.signal) && Says(v.fields[ObservationKey], c.observation)
  }

  /** An edge names exactly its two ends; absent or null means none. */
  ghost predicate Connects(v: Json, aliases: Aliases, submitted: Option<Connection>, edge: Option<Connection>) {
    if v == Null then submitted == None && edge == None
    else
      && v.Obj? && v.fields.Keys == {SourceKey, TargetKey} && submitted.Some? && edge.Some?
      && Says(v.fields[SourceKey], submitted.value.source) && Says(v.fields[TargetKey], submitted.value.target)
      && Means(aliases, submitted.value.source, edge.value.source)
      && Means(aliases, submitted.value.target, edge.value.target)
  }

  /** The fields claim a fault, with this category, target, remediation and edge. */
  ghost predicate ClaimsFault(fields: map<Key, Json>, aliases: Aliases, s: Submission) {
    && s.causalCategory.Some? && Get(fields, CategoryKey) == Str(s.causalCategory.value)
    && s.causalCategory.value in {
         "cpu_saturation", "memory_exhaustion", "garbage_collection", "dependency_latency", "slow_database",
         "queue_backlog", "cache_failure", "lock_contention", "partial_errors", "load_surge"}
    && s.componentAsSubmitted.Some? && Says(Get(fields, ComponentKey), s.componentAsSubmitted.value)
    && s.component.Some? && Means(aliases, s.componentAsSubmitted.value, s.component.value)
    && s.remediation.Some? && Says(Get(fields, RemediationKey), s.remediation.value)
    && Connects(Get(fields, EdgeKey), aliases, s.connectionAsSubmitted, s.connection)
  }

  /** The fields claim health: no category, no component, no edge, no remediation but
      white space. */
  ghost predicate ClaimsHealth(fields: map<Key, Json>, s: Submission) {
    && Get(fields, CategoryKey) == Null && Get(fields, ComponentKey) == Null && Get(fields, EdgeKey) == Null
    && (Get(fields, RemediationKey) == Null
        || (Get(fields, RemediationKey).Str? && forall c | c in Get(fields, RemediationKey).s :: IsSpace(c)))
    && s.causalCategory == None && s.component == None && s.componentAsSubmitted == None
    && s.remediation == None && s.connection == None && s.connectionAsSubmitted == None
  }

  /** The payload says this answer, and nothing its claim may not say. */
  ghost predicate Denotes(payload: Json, aliases: Aliases, s: Submission) {
    && payload.Obj?
    && Get(payload.fields, FaultKey) == Bool(s.faultPresent)
    && Get(payload.fields, ConfidenceKey) == Num(s.confidence) && 0.0 <= s.confidence <= 1.0
    && Get(payload.fields, EvidenceKey).Arr?
    && var items := Get(payload.fields, EvidenceKey).items;
       && |items| == |s.evidence| && |items| > 0
       && (forall i | 0 <= i < |items| :: Cites(items[i], s.evidence[i]))
       && if s.faultPresent then ClaimsFault(payload.fields, aliases, s) else ClaimsHealth(payload.fields, s)
  }

  lemma TextExactly(v: Json, t: string)
    ensures RequireText(v) == Ok(t) <==> Says(v, t)
  {
    if v.Str? {
      StripExactly(v.s, t);
    }
  }

  lemma CitationExactly(v: Json, c: Citation)
    ensures ParseCitation(v) == Ok(c) <==> Cites(v, c)
  {
    hide RequireText, Says;
    if v.Obj? {
      TextExactly(Get(v.fields, SignalKey), c.signal);
      TextExactly(Get(v.fields, ObservationKey), c.observation);
      TextExactly(Null, c.signal);
      TextExactly(Null, c.observation);
      NotText(c.signal);
      NotText(c.observation);
    }
  }

  lemma NotText(t: string)
    ensures !Says(Null, t)
  {
  }

  lemma {:induction false} CitationsExactly(items: seq<Json>, evidence: seq<Citation>)
    ensures ParseCitations(items) == Ok(evidence) <==>
      |items| == |evidence| && forall i | 0 <= i < |items| :: Cites(items[i], evidence[i])
  {
    hide ParseCitation, Cites;
    if items != [] && |items| == |evidence| {
      var n := |items| - 1;
      CitationsExactly(items[..n], evidence[..n]);
      CitationExactly(items[n], evidence[n]);
      assert evidence == evidence[..n] + [evidence[n]];
    }
  }

  lemma CanonicalExactly(aliases: Aliases, name: string, canonical: string)
    requires Strip(name) == name
    ensures Canonical(aliases, name) == Ok(canonical) <==> Means(aliases, name, canonical)
  {
  }

  lemma EdgeExactly(v: Json, aliases: Aliases, submitted: Option<Connection>, edge: Option<Connection>)
    ensures ParseConnection(v) == Ok(submitted) && ResolveConnection(aliases, submitted) == Ok(edge)
       <==> Connects(v, aliases, submitted, edge)
  {
    hide RequireText, Says, Canonical, Means;
    if v.Obj? && v.fields.Keys == {SourceKey, TargetKey} && submitted.Some? && edge.Some? {
      assert SourceKey in v.fields && TargetKey in v.fields;
      NameExactly(v.fields[SourceKey], aliases, submitted.value.source, edge.value.source);
      NameExactly(v.fields[TargetKey], aliases, submitted.value.target, edge.value.target);
    }
  }

  lemma NameExactly(v: Json, aliases: Aliases, submitted: string, canonical: string)
    ensures RequireText(v) == Ok(submitted) <==> Says(v, submitted)
    ensures Says(v, submitted) ==>
      (Canonical(aliases, submitted) == Ok(canonical) <==> Means(aliases, submitted, canonical))
  {
    TextExactly(v, submitted);
    if Says(v, submitted) {
      CanonicalExactly(aliases, submitted, canonical);
    }
  }

  lemma FaultExactly(fields: map<Key, Json>, aliases: Aliases, s: Submission)
    ensures ParseFault(fields, s.evidence, s.confidence, aliases) == Ok(s) <==>
      s.faultPresent && ClaimsFault(fields, aliases, s)
  {
    hide RequireText, Says, Canonical, Means, ParseConnection, ResolveConnection, Connects;
    if s.componentAsSubmitted.Some? && s.component.Some? {
      NameExactly(Get(fields, ComponentKey), aliases, s.componentAsSubmitted.value, s.component.value);
    }
    if s.remediation.Some? {
      TextExactly(Get(fields, RemediationKey), s.remediation.value);
    }
    EdgeExactly(Get(fields, EdgeKey), aliases, s.connectionAsSubmitted, s.connection);
  }

  lemma HealthExactly(fields: map<Key, Json>, s: Submission)
    ensures ParseHealthy(fields, s.evidence, s.confidence) == Ok(s) <==> !s.faultPresent && ClaimsHealth(fields, s)
  {
    var remediation := Get(fields, RemediationKey);
    if remediation.Str? {
      BlankIsSpace(remediation.s);
      assert (forall c | c in remediation.s :: IsSpace(c))
        <==> forall i | 0 <= i < |remediation.s| :: IsSpace(remediation.s[i]);
    }
  }

  /** The parser passes the checked parts on. */
  lemma PartsKept(fields: map<Key, Json>, evidence: seq<Citation>, confidence: Number, aliases: Aliases, s: Submission)
    ensures ParseFault(fields, evidence, confidence, aliases) == Ok(s) ==>
      s.evidence == evidence && s.confidence == confidence && s.faultPresent
    ensures ParseHealthy(fields, evidence, confidence) == Ok(s) ==>
      s.evidence == evidence && s.confidence == confidence && !s.faultPresent
  {
    hide CausalCategories, Canonical, RequireText, ParseConnection, ResolveConnection, Blank;
  }

  /** A submit call is accepted as an answer exactly when its payload denotes that
      answer. */
  lemma ValidatedExactly(payload: Json, aliases: Aliases, s: Submission)
    ensures Validated(payload, aliases) == Ok(s) <==> Denotes(payload, aliases, s)
  {
    hide ParseFault, ParseHealthy, ParseCitations, ClaimsFault, ClaimsHealth, Cites;
    if payload.Obj? && Get(payload.fields, EvidenceKey).Arr? {
      CitationsExactly(Get(payload.fields, EvidenceKey).items, s.evidence);
      FaultExactly(payload.fields, aliases, s);
      HealthExactly(payload.fields, s);
      var citations := ParseCitations(Get(payload.fields, EvidenceKey).items);
      if citations.Ok? && Get(payload.fields, ConfidenceKey).Num? {
        PartsKept(payload.fields, citations.value, Get(payload.fields, ConfidenceKey).n, aliases, s);
      }
    }
  }

  // Saving

  lemma TextDistinct(a: Option<string>, b: Option<string>)
    requires TextOrNull(a) == TextOrNull(b)
    ensures a == b
  {
  }

  lemma EdgeDistinct(a: Option<Connection>, b: Option<Connection>)
    requires ConnectionJson(a) == ConnectionJson(b)
    ensures a == b
  {
    if a.Some? && b.Some? {
      var m, n := ConnectionJson(a).fields, ConnectionJson(b).fields;
      assert m[SourceKey] == n[SourceKey] && m[TargetKey] == n[TargetKey];
    }
  }

  lemma EvidenceDistinct(a: seq<Citation>, b: seq<Citation>)
    requires EvidenceJson(a) == EvidenceJson(b)
    ensures a == b
  {
    assert |EvidenceJson(a)| == |a| && |EvidenceJson(b)| == |b|;
    forall i | 0 <= i < |a|
      ensures a[i] == b[i]
    {
      assert EvidenceJson(a)[i] == CitationJson(a[i]) && EvidenceJson(b)[i] == CitationJson(b[i]);
      var m, n := CitationJson(a[i]).fields, CitationJson(b[i]).fields;
      assert m[SignalKey] == n[SignalKey] && m[ObservationKey] == n[ObservationKey];
    }
  }

  /** The saved form loses nothing: two answers with the same one are the same,
      submitted spellings included. */
  lemma SavedDistinct(a: Submission, b: Submission)
    requires AnswerFields(a) == AnswerFields(b)
    ensures a == b
  {
    var m, n := AnswerFields(a), AnswerFields(b);
    forall k | k in ANSWER_KEYS
      ensures m[k] == n[k]
    {
    }
    assert m[FaultKey] == n[FaultKey] && m[ConfidenceKey] == n[ConfidenceKey] && m[EvidenceKey] == n[EvidenceKey];
    assert m[CategoryKey] == n[CategoryKey] && m[ComponentKey] == n[ComponentKey];
    assert m[SubmittedComponentKey] == n[SubmittedComponentKey] && m[RemediationKey] == n[RemediationKey];
    assert m[EdgeKey] == n[EdgeKey] && m[SubmittedEdgeKey] == n[SubmittedEdgeKey];
    hide EvidenceJson, ConnectionJson, TextOrNull;
    EvidenceDistinct(a.evidence, b.evidence);
    EdgeDistinct(a.connection, b.connection);
    EdgeDistinct(a.connectionAsSubmitted, b.connectionAsSubmitted);
    TextDistinct(a.causalCategory, b.causalCategory);
    TextDistinct(a.component, b.component);
    TextDistinct(a.componentAsSubmitted, b.componentAsSubmitted);
    TextDistinct(a.remediation, b.remediation);
  }

  // The table

  /** The table answers every declared name, and every canonical name, with its canonical name. */
  ghost predicate Serves(m: Aliases, raw: seq<(string, string)>) {
    forall i | 0 <= i < |raw| ::
      Means(m, Strip(raw[i].0), Strip(raw[i].1)) && Means(m, Strip(raw[i].1), Strip(raw[i].1))
  }

  /** A table can be built exactly when something is declared, nothing is blank, and some
      table serves all the declarations; the one built serves them and nothing else. */
  lemma ServedExactly(raw: seq<(string, string)>)
    ensures Buildable(raw) <==>
      && |raw| > 0
      && (forall i | 0 <= i < |raw| :: Strip(raw[i].0) != "" && Strip(raw[i].1) != "")
      && exists m :: Serves(m, raw)
    ensures Buildable(raw) ==>
      && Serves(Table(raw), raw)
      && forall k | k in Table(raw) ::
           exists i | 0 <= i < |raw| :: k == Lower(Strip(raw[i].0)) || k == Lower(Strip(raw[i].1))
  {
    hide Lower, Strip;
    assert forall i | 0 <= i < |raw| :: raw[i] in raw;
    if Buildable(raw) {
      TableServes(raw);
    }
    if m :| Serves(m, raw) {
      ServedFunctional(m, raw);
    }
  }

  lemma TableServes(raw: seq<(string, string)>)
    requires Buildable(raw)
    ensures Serves(Table(raw), raw)
    ensures forall k | k in Table(raw) ::
      exists i | 0 <= i < |raw| :: k == Lower(Strip(raw[i].0)) || k == Lower(Strip(raw[i].1))
  {
    hide Lower, Strip;
    var m := Table(raw);
    forall i | 0 <= i < |raw|
      ensures Means(m, Strip(raw[i].0), Strip(raw[i].1)) && Means(m, Strip(raw[i].1), Strip(raw[i].1))
    {
      assert raw[i] in raw;
      assert (NormalKey(raw[i].0), Strip(raw[i].1)) in Entries(raw);
      assert (Lower(Strip(raw[i].1)), Strip(raw[i].1)) in Entries(raw);
    }
    forall k | k in m
      ensures exists i | 0 <= i < |raw| :: k == Lower(Strip(raw[i].0)) || k == Lower(Strip(raw[i].1))
    {
      assert (k, m[k]) in Entries(raw);
      var p :| p in raw && (k == NormalKey(p.0) || k == Lower(Strip(p.1)));
      var i :| 0 <= i < |raw| && raw[i] == p;
    }
  }

  lemma ServedFunctional(m: Aliases, raw: seq<(string, string)>)
    requires Serves(m, raw)
    ensures Functional(Entries(raw))
  {
    hide Lower, Strip;
    forall e | e in Entries(raw)
      ensures e.0 in m && m[e.0] == e.1
    {
      var p :| p in raw && (e == (NormalKey(p.0), Strip(p.1)) || e == (Lower(Strip(p.1)), Strip(p.1)));
      var i :| 0 <= i < |raw| && raw[i] == p;
    }
  }
}

/** The append-only, hash-chained journal: its events, the reader that rebuilds
    the state from scratch, and what each writer appends (campaign.py, CampaignStore). */
module Journals {
  import opened Results
  import opened ByteStrings
  import opened Text
  import opened Rosters
  import opened TrialOutcomes
  import opened Verification

  /** Captured bytes as stored: their digest and their base64 text. */
  datatype Source = Source(digest: string, text: string)

  datatype Stored = Stored(name: string, source: Source)

  datatype Data =
    | Prepared(spec: Spec)
    | Started(binding: Binding)
    | Captured(binding: Binding, name: string, source: Source)
    | Finished(binding: Binding, sources: map<string, Source>, verified: Verified)

  datatype Event = Event(sequence: int, previous: Option<string>, data: Data)

  /** Canonical JSON, SHA-256 and base64. `decode` reads JSON and checks the
      record's shape, so it may refuse. */
  datatype Codec = Codec(
    encode: Event -> Bytes,
    decode: Bytes -> Result<Event>,
    digest: Bytes -> string,
    encode64: Bytes -> string,
    decode64: string -> Result<Bytes>)
  {
    /** The idealisation: reading undoes writing. Every part of an event is a finite
        tree of strings, integers, flags and rational numbers, so such a codec exists. */
    ghost predicate Faithful() {
      && (forall e :: decode(encode(e)) == Ok(e))
      && (forall b :: decode64(encode64(b)) == Ok(b))
      && (forall b :: IsDigest(digest(b)))
    }
  }

  /** What an operator opens a database with. */
  datatype Store = Store(codec: Codec, registry: Registry, receipt: string)

  datatype Row = Row(sequence: int, payload: Bytes)

  /** No two different payloads of these journals have the same digest. */
  ghost predicate NoCollision(codec: Codec, a: seq<Row>, b: seq<Row>) {
    forall i, j | 0 <= i < |a| && 0 <= j < |b| ::
      codec.digest(a[i].payload) == codec.digest(b[j].payload) ==> a[i].payload == b[j].payload
  }

  datatype Finish = Finish(verified: Verified, recordDigest: string)

  datatype Attempt = Attempt(binding: Binding, sources: seq<Stored>, finished: Option<Finish>)

  type Attempts = map<string, seq<Attempt>>

  datatype State = State(spec: Spec, attempts: Attempts, raw: seq<Bytes>)

  // Sources

  predicate HasName(sources: seq<Stored>, name: string) {
    exists s | s in sources :: s.name == name
  }

  function AsMap(sources: seq<Stored>): map<string, Source> {
    if sources == [] then map[]
    else
      var n := |sources| - 1;
      AsMap(sources[..n])[sources[n].name := sources[n].source]
  }

  /** A stored source read back: a public name, a matching digest, and some bytes. */
  function DecodeSource(codec: Codec, s: Stored): Result<Capture> {
    var labelled := IsIdentifier(s.name) && IsDigest(s.source.digest);
    :- Need(labelled);
    var data :- codec.decode64(s.source.text);
    :- Need(codec.digest(data) == s.source.digest && data != []);
    Ok(Capture(s.name, data))
  }

  function DecodeEach(codec: Codec, sources: seq<Stored>): (r: Result<seq<Capture>>)
    ensures r.Ok? ==> |r.value| == |sources|
  {
    if sources == [] then Ok([]) else
      var n := |sources| - 1;
      var earlier :- DecodeEach(codec, sources[..n]);
      var last :- DecodeSource(codec, sources[n]);
      Ok(earlier + [last])
  }

  /** All sources of an attempt, in the order given. */
  function DecodeSources(codec: Codec, sources: seq<Stored>): Result<seq<Capture>> {
    if sources == [] then Err else DecodeEach(codec, sources)
  }

  /** A JSON object's members in the key order of its canonical text. */
  function InKeyOrder(m: map<string, Source>): (r: seq<Stored>)
    ensures |r| == |SortedNames(m.Keys)|
    ensures forall i | 0 <= i < |r| :: r[i].name == SortedNames(m.Keys)[i]
    ensures forall i | 0 <= i < |r| :: r[i].name in m && r[i].source == m[r[i].name]
  {
    var names := SortedNames(m.Keys);
    seq(|names|, i requires 0 <= i < |names| => assert names[i] in names; Stored(names[i], m[names[i]]))
  }

  // The protocol's conditions on a state

  /** The assignment of a logical run. */
  function AssignedTo(rows: seq<Assignment>, runId: string): Option<Assignment> {
    if rows == [] then None
    else if rows[|rows| - 1].runId == runId then Some(rows[|rows| - 1])
    else AssignedTo(rows[..|rows| - 1], runId)
  }

  predicate IsHarnessFailure(a: Attempt) {
    a.finished.Some? && a.finished.value.verified.outcome.terminal == HarnessFailure
  }

  /** Every first attempt of the block is finished. */
  predicate BlockSettled(st: State, blockId: string) {
    forall a | a in st.spec.assignments && a.blockId == blockId ::
      a.runId in st.attempts && st.attempts[a.runId] != [] && st.attempts[a.runId][0].finished.Some?
  }

  /** A run may start its first attempt, or its second after a finished harness
      failure once its block is settled. */
  predicate CanStart(st: State, runId: string) {
    && runId in st.attempts
    && var history := st.attempts[runId];
       && |history| < 2
       && (history != [] ==>
             && IsHarnessFailure(history[|history| - 1])
             && AssignedTo(st.spec.assignments, runId).Some?
             && BlockSettled(st, AssignedTo(st.spec.assignments, runId).value.blockId))
  }

  /** The binding names the run's last attempt, which is still open. */
  predicate IsOpen(st: State, b: Binding) {
    && b.assignment.runId in st.attempts
    && var history := st.attempts[b.assignment.runId];
       && history != []
       && history[|history| - 1].binding == b
       && history[|history| - 1].finished.None?
  }

  function Last(st: State, runId: string): Attempt
    requires runId in st.attempts && st.attempts[runId] != []
  {
    st.attempts[runId][|st.attempts[runId]| - 1]
  }

  function WithLast(history: seq<Attempt>, last: Attempt): seq<Attempt>
    requires history != []
  {
    history[..|history| - 1] + [last]
  }

  /** The one step an event stands for, whatever recorded it: a run gains an open
      attempt, its last attempt gains a source, or its last attempt is finished. */
  function Effect(history: seq<Attempt>, data: Data, recordDigest: string): seq<Attempt> {
    if data.Started? then history + [Attempt(data.binding, [], None)]
    else if history == [] || data.Prepared? then history
    else
      var last := history[|history| - 1];
      if data.Captured? then WithLast(history, last.(sources := last.sources + [Stored(data.name, data.source)]))
      else WithLast(history, last.(finished := Some(Finish(data.verified, recordDigest))))
  }

  function EffectOn(attempts: Attempts, data: Data, recordDigest: string): Attempts {
    if data.Prepared? || data.binding.assignment.runId !in attempts then attempts
    else
      var runId := data.binding.assignment.runId;
      attempts[runId := Effect(attempts[runId], data, recordDigest)]
  }

  function Stepped(st: State, data: Data, payload: Bytes, recordDigest: string): State {
    State(st.spec, EffectOn(st.attempts, data, recordDigest), st.raw + [payload])
  }

  // The reader

  function Head(codec: Codec, raw: seq<Bytes>): Option<string> {
    if raw == [] then None else Some(codec.digest(raw[|raw| - 1]))
  }

  /** The binding names a planned assignment, exactly as prepared, under this receipt. */
  predicate BindingFits(store: Store, st: State, b: Binding) {
    && AssignedTo(st.spec.assignments, b.assignment.runId) == Some(b.assignment)
    && b.assignment.runId in st.attempts
    && b.preparationDigest == store.receipt
    && (b.attempt == 1 || b.attempt == 2)
  }

  /** The binding's attempt is the run's last one and still open. */
  predicate AttemptOpen(st: State, b: Binding) {
    && b.assignment.runId in st.attempts
    && var history := st.attempts[b.assignment.runId];
       |history| == b.attempt && history != [] && history[|history| - 1].finished.None?
  }

  /** What the reader demands of an event before it takes the step. A finished
      event's verifier is run again, on the sources in key order. */
  predicate Admits(store: Store, st: State, data: Data) {
    && !data.Prepared?
    && BindingFits(store, st, data.binding)
    && match data
       case Started(b) => CanStart(st, b.assignment.runId) && b.attempt == |st.attempts[b.assignment.runId]| + 1
       case Captured(b, name, source) =>
         && AttemptOpen(st, b)
         && !HasName(Last(st, b.assignment.runId).sources, name)
         && DecodeSource(store.codec, Stored(name, source)).Ok?
       case Finished(b, sources, verified) =>
         && AttemptOpen(st, b)
         && sources == AsMap(Last(st, b.assignment.runId).sources)
         && Replayed(store, st.spec.campaign.phase, b, InKeyOrder(sources)) == Ok(verified)
  }

  /** Decoding an attempt's sources and running the verifier on them. */
  function Replayed(store: Store, phase: Phase, b: Binding, sources: seq<Stored>): Result<Verified> {
    var captures :- DecodeSources(store.codec, sources);
    Verify(b, captures, store.registry, phase)
  }

  ghost function OpenPreparation(store: Store, row: Row): Result<State> {
    var event :- store.codec.decode(row.payload);
    :- Need(row.sequence == 1 && event.sequence == 1 && event.previous == None);
    :- Need(store.codec.encode(event) == row.payload);
    :- Need(event.data.Prepared? && store.codec.digest(row.payload) == store.receipt);
    :- Need(ValidSpec(event.data.spec));
    Ok(State(event.data.spec, map r | r in RunIds(event.data.spec.assignments) :: [], [row.payload]))
  }

  function ReadRow(store: Store, st: State, row: Row): Result<State> {
    var event :- store.codec.decode(row.payload);
    var ordinal := |st.raw| + 1;
    :- Need(row.sequence == ordinal && event.sequence == ordinal && event.previous == Head(store.codec, st.raw));
    :- Need(store.codec.encode(event) == row.payload);
    :- Need(Admits(store, st, event.data));
    Ok(Stepped(st, event.data, row.payload, store.codec.digest(row.payload)))
  }

  /** The whole journal, re-read from scratch. */
  ghost function Read(store: Store, rows: seq<Row>): (r: Result<State>)
    ensures r.Ok? ==> |r.value.raw| == |rows|
  {
    if rows == [] then Err
    else
      var n := |rows| - 1;
      if n == 0 then OpenPreparation(store, rows[0])
      else
        var st :- Read(store, rows[..n]);
        ReadRow(store, st, rows[n])
  }

  // The writers

  datatype Operation =
    | Start(runId: string)
    | CaptureSource(binding: Binding, name: string, bytes: Bytes)
    | FinishAttempt(binding: Binding)

  /** What an operation appends, or its refusal. A finish runs the verifier on the
      sources in the order they were captured. */
  function Proposed(store: Store, st: State, op: Operation): Result<Data> {
    match op
    case Start(runId) =>
      :- Need(CanStart(st, runId) && AssignedTo(st.spec.assignments, runId).Some?);
      Ok(Started(Binding(store.receipt, AssignedTo(st.spec.assignments, runId).value, |st.attempts[runId]| + 1)))
    case CaptureSource(b, name, bytes) =>
      :- Need(IsIdentifier(name) && bytes != [] && IsOpen(st, b));
      :- Need(!HasName(Last(st, b.assignment.runId).sources, name));
      Ok(Captured(b, name, Source(store.codec.digest(bytes), store.codec.encode64(bytes))))
    case FinishAttempt(b) =>
      :- Need(IsOpen(st, b));
      var sources := Last(st, b.assignment.runId).sources;
      var verified :- Replayed(store, st.spec.campaign.phase, b, sources);
      Ok(Finished(b, AsMap(sources), verified))
  }

  function Payload(store: Store, st: State, data: Data): Bytes {
    store.codec.encode(Event(|st.raw| + 1, Head(store.codec, st.raw), data))
  }

  function Appended(store: Store, rows: seq<Row>, st: State, data: Data): seq<Row> {
    rows + [Row(|st.raw| + 1, Payload(store, st, data))]
  }

  /** One transaction: the journal with the operation's event, or unchanged when
      the journal is unreadable or the operation is refused. */
  ghost function Commit(store: Store, rows: seq<Row>, op: Operation): seq<Row> {
    match Read(store, rows)
    case Err => rows
    case Ok(st) =>
      match Proposed(store, st, op)
      case Err => rows
      case Ok(data) => Appended(store, rows, st, data)
  }
}

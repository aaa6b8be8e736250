/** Running the trusted verifier over captured evidence (campaign.py, Binding to _verify). */
module Verification {
  import opened Results
  import opened ByteStrings
  import opened Numbers
  import opened Text
  import opened Rosters
  import opened TrialOutcomes
  import opened OutcomeChecks

  datatype Binding = Binding(preparationDigest: string, assignment: Assignment, attempt: int)

  datatype Metrics = Metrics(agentSeconds: Option<Number>, toolCalls: Option<int>, aiCredits: Option<Number>)

  /** A captured source. The order of a list of captures is the dictionary order
      a verifier sees. */
  datatype Capture = Capture(name: string, data: Bytes)

  datatype VerifiedAttempt = VerifiedAttempt(outcome: TrialOutcome, metrics: Metrics, examined: seq<string>)

  /** Trusted operator code: `None` when the replay raises. */
  datatype Verifier = Verifier(
    name: string,
    replay: (Binding, seq<Capture>) -> Option<VerifiedAttempt>,
    fingerprint: string,
    synthetic: bool)

  type Registry = map<string, Verifier>

  datatype Provenance = Provenance(id: string, digest: string, synthetic: bool)

  datatype Verified = Verified(outcome: TrialOutcome, metrics: Metrics, examined: seq<string>, verifier: Provenance)

  predicate ValidMetrics(m: Metrics) {
    && (m.agentSeconds.Some? ==> m.agentSeconds.value >= 0.0)
    && (m.toolCalls.Some? ==> m.toolCalls.value >= 0)
    && (m.aiCredits.Some? ==> m.aiCredits.value >= 0.0)
  }

  function Contents(captures: seq<Capture>): Sources {
    if captures == [] then map[]
    else
      var n := |captures| - 1;
      Contents(captures[..n])[captures[n].name := captures[n].data]
  }

  predicate WellFormed(captures: seq<Capture>) {
    captures != [] && forall c | c in captures :: IsIdentifier(c.name) && c.data != []
  }

  /** The registered verifier's result, checked: its provenance matches the
      assignment, synthetic evidence is barred from scored campaigns, and the
      outcome, metrics and references hold against the captures. */
  function Verify(binding: Binding, captures: seq<Capture>, registry: Registry, phase: Phase): Result<Verified> {
    var row := binding.assignment;
    :- Need(row.verifierId in registry);
    var verifier := registry[row.verifierId];
    :- Need(verifier.name == row.verifierId && verifier.fingerprint == row.verifierDigest);
    :- Need(phase == ScoredPhase ==> !verifier.synthetic);
    :- Need(WellFormed(captures));
    var replayed := verifier.replay(binding, captures);
    :- Need(replayed.Some?);
    var attempt := replayed.value;
    :- Need(References(attempt.examined, Contents(captures)) && ValidMetrics(attempt.metrics));
    :- Need(Accepted(attempt.outcome, row.expectedFault, Contents(captures)));
    Ok(Verified(attempt.outcome, attempt.metrics, attempt.examined,
                Provenance(verifier.name, row.verifierDigest, verifier.synthetic)))
  }

  method VerifyAttempt(binding: Binding, captures: seq<Capture>, registry: Registry, phase: Phase)
    returns (r: Result<Verified>)
    ensures r == Verify(binding, captures, registry, phase)
  {
    var row := binding.assignment;
    if row.verifierId !in registry {
      return Err;
    }
    var verifier := registry[row.verifierId];
    if verifier.name != row.verifierId || verifier.fingerprint != row.verifierDigest
       || (phase == ScoredPhase && verifier.synthetic) || !WellFormed(captures) {
      return Err;
    }
    var replayed := verifier.replay(binding, captures);
    if replayed.None? {
      return Err;
    }
    var attempt := replayed.value;
    if !References(attempt.examined, Contents(captures)) || !ValidMetrics(attempt.metrics) {
      return Err;
    }
    var accepted := ValidateOutcome(attempt.outcome, row.expectedFault, Contents(captures));
    if !accepted {
      return Err;
    }
    return Ok(Verified(attempt.outcome, attempt.metrics, attempt.examined,
                       Provenance(verifier.name, row.verifierDigest, verifier.synthetic)));
  }

  /** A journalled class is one of the agent classes or a harness failure. */
  lemma VerifiedClass(binding: Binding, captures: seq<Capture>, registry: Registry, phase: Phase)
    requires Verify(binding, captures, registry, phase).Ok?
    ensures var v := Verify(binding, captures, registry, phase).value;
      && (v.outcome.terminal == HarnessFailure || IsAgentClass(v.outcome.terminal))
      && ValidMetrics(v.metrics)
  {
  }
}

/** Exactly which verified attempts enter the journal, and from which captures
    (campaign.py, _verify). */
module VerifiedAttempts {
  import opened Results
  import opened Text
  import opened Rosters
  import opened OutcomeChecks
  import opened Verification
  import opened AcceptanceConditions
  import opened PreparedRosters

  /** What a verifier sees under a name: the last capture of it. */
  lemma {:induction false} ContentsExactly(captures: seq<Capture>, name: string)
    ensures name in Contents(captures) <==> exists i :: 0 <= i < |captures| && captures[i].name == name
    ensures forall i | 0 <= i < |captures| && captures[i].name == name ::
      (forall j | i < j < |captures| :: captures[j].name != name) ==> Contents(captures)[name] == captures[i].data
  {
    if captures != [] {
      var n := |captures| - 1;
      ContentsExactly(captures[..n], name);
      assert forall i | 0 <= i < n :: captures[..n][i] == captures[i];
    }
  }

  predicate Measures(m: Metrics) {
    && (m.agentSeconds == None || m.agentSeconds.value >= 0.0)
    && (m.toolCalls == None || m.toolCalls.value >= 0)
    && (m.aiCredits == None || m.aiCredits.value >= 0.0)
  }

  /** The assignment's verifier, as prepared; a synthetic one never scores. */
  predicate Trusted(registry: Registry, row: Assignment, phase: Phase, p: Provenance) {
    && row.verifierId in registry
    && var verifier := registry[row.verifierId];
       && p == Provenance(row.verifierId, row.verifierDigest, verifier.synthetic)
       && verifier.name == row.verifierId && verifier.fingerprint == row.verifierDigest
       && !(phase == ScoredPhase && verifier.synthetic)
  }

  /** A result is verified, and as which record, exactly when the trusted verifier of
      the assignment returns it on named, nonempty captures, everything it examined was
      captured, its metrics are not negative and its outcome is accepted. */
  lemma VerifiedExactly(b: Binding, captures: seq<Capture>, registry: Registry, phase: Phase, v: Verified)
    ensures Verify(b, captures, registry, phase) == Ok(v) <==>
      && Trusted(registry, b.assignment, phase, v.verifier)
      && |captures| > 0 && (forall i | 0 <= i < |captures| :: PublicName(captures[i].name) && |captures[i].data| > 0)
      && registry[b.assignment.verifierId].replay(b, captures)
         == Some(VerifiedAttempt(v.outcome, v.metrics, v.examined))
      && Captured(v.examined, Contents(captures)) && Measures(v.metrics)
      && Accepted(v.outcome, b.assignment.expectedFault, Contents(captures))
  {
    hide IsIdentifier, PublicName, References, Captured, Accepted, Contents;
    forall s
      ensures IsIdentifier(s) <==> PublicName(s)
    {
      ShapesExactly(s);
    }
    CapturedExactly(v.examined, Contents(captures));
    assert forall i | 0 <= i < |captures| :: captures[i] in captures;
  }
}

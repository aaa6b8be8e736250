/** The environment manifest: gates required, gates recorded and the sign-off
    (manifest.py, and the plan generation of environment.py). */
module Manifests {
  import opened Text
  import opened CheckPlans

  datatype Gate = Gate(name: string, passed: bool)

  function PlanGenerated(): string { "check-plan-generated" }

  function PlanCovers(): string { "check-plan-covers-compose-services" }

  function LifecycleGates(): set<string> {
    {PlanGenerated(), PlanCovers(), "application-readiness", "incident-active-verified", "cleanup-verified"}
  }

  function CatalogGates(): set<string> {
    {"mysql-seed-rows", "valkey-empty", "catalog-api-image-hermetic"}
  }

  datatype Manifest = Manifest(required: set<string>, gates: seq<Gate>)

  function Recorded(gates: seq<Gate>): set<string> {
    set g | g in gates :: g.name
  }

  /** Nothing required is missing and nothing recorded failed. */
  predicate SignedOff(m: Manifest) {
    m.required <= Recorded(m.gates) && forall g | g in m.gates :: g.passed
  }

  class EnvironmentManifest {
    var gates: seq<Gate>
    var required: set<string>

    function Contents(): Manifest
      reads this
    {
      Manifest(required, gates)
    }

    constructor ()
      ensures Contents() == Manifest(LifecycleGates(), [])
    {
      gates, required := [], LifecycleGates();
    }

    method RequireGates(names: set<string>)
      modifies this`required
      ensures Contents() == Applied(old(Contents()), Require(names))
    {
      required := required + names;
    }

    method AddGate(name: string, passed: bool) returns (gate: Gate)
      modifies this`gates
      ensures gate == Gate(name, passed)
      ensures Contents() == Applied(old(Contents()), Add(gate))
    {
      gate := Gate(name, passed);
      gates := gates + [gate];
    }

    method FailedGates() returns (failed: seq<Gate>)
      ensures failed == [] <==> forall g | g in gates :: g.passed
      ensures forall g :: g in failed <==> g in gates && !g.passed
    {
      failed := [];
      for i := 0 to |gates|
        invariant forall g :: g in failed <==> g in gates[..i] && !g.passed
      {
        assert gates[..i + 1] == gates[..i] + [gates[i]];
        if !gates[i].passed {
          failed := failed + [gates[i]];
        }
      }
      assert gates[..|gates|] == gates;
      assert failed != [] ==> failed[0] in failed;
    }

    method MissingGates() returns (missing: seq<string>)
      ensures Increasing(missing)
      ensures forall name :: name in missing <==> name in required && name !in Recorded(gates)
    {
      missing := SortedNames(required - Recorded(gates));
    }

    method IsSignedOff() returns (r: bool)
      ensures r <==> SignedOff(Contents())
    {
      var missing := MissingGates();
      var failed := FailedGates();
      assert missing == [] <==> required <= Recorded(gates) by {
        assert missing != [] ==> missing[0] in missing;
        assert forall name | name in required && name !in Recorded(gates) :: name in missing;
      }
      return missing == [] && failed == [];
    }

    /** Deriving the plan requires its gates and records that it exists and covers. */
    method GenerateCheckPlan(d: Declarations) returns (plan: Plan)
      modifies this
      ensures plan == GeneratedPlan(d)
      ensures Contents() == PlanApplied(old(Contents()), plan)
    {
      plan := CheckPlans.GenerateCheckPlan(d);
      RequireGates(plan.GateNames() + CatalogGates());
      var generated := AddGate(PlanGenerated(), plan.checks != []);
      var covering := AddGate(PlanCovers(), plan.Complete());
    }
  }

  // Runs

  datatype Step = Require(names: set<string>) | Add(gate: Gate)

  function Applied(m: Manifest, step: Step): Manifest {
    match step
    case Require(names) => m.(required := m.required + names)
    case Add(gate) => m.(gates := m.gates + [gate])
  }

  function AppliedAll(m: Manifest, steps: seq<Step>): Manifest
    decreases |steps|
  {
    if steps == [] then m else AppliedAll(Applied(m, steps[0]), steps[1..])
  }

  function PlanApplied(m: Manifest, plan: Plan): Manifest {
    var floor := Applied(m, Require(plan.GateNames() + CatalogGates()));
    var generated := Applied(floor, Add(Gate(PlanGenerated(), plan.checks != [])));
    Applied(generated, Add(Gate(PlanCovers(), plan.Complete())))
  }

  /** Requirements and gates only accumulate. */
  lemma {:induction false} OnlyGrows(m: Manifest, steps: seq<Step>)
    ensures var n := AppliedAll(m, steps); m.required <= n.required && m.gates <= n.gates
    decreases |steps|
  {
    if steps != [] {
      OnlyGrows(Applied(m, steps[0]), steps[1..]);
    }
  }

  /** A failed gate can never be made up for. */
  lemma FailureStays(m: Manifest, steps: seq<Step>, g: Gate)
    requires g in m.gates && !g.passed
    ensures !SignedOff(AppliedAll(m, steps))
  {
    OnlyGrows(m, steps);
  }

  /** A service with a recorded, passing gate of every kind. */
  ghost predicate FullyChecked(m: Manifest, service: string) {
    forall kind :: Gate(GateName(kind, service), true) in m.gates
  }

  /** Whatever else is required or recorded after the plan is generated, a signed-off
      manifest covers the whole Compose stack: every service has a passing gate of
      each of the five kinds, is probed, limited and pinned, and reaches no network
      without a declared exception; and no recorded gate failed. */
  lemma SignOffCoversStack(start: Manifest, d: Declarations, steps: seq<Step>)
    requires SignedOff(AppliedAll(PlanApplied(start, GeneratedPlan(d)), steps))
    ensures var m := AppliedAll(PlanApplied(start, GeneratedPlan(d)), steps);
      && (forall service | service in d.model.services :: FullyChecked(m, service) && WellDeclared(d, service))
      && (forall g | g in m.gates :: g.passed)
      && CatalogGates() <= Recorded(m.gates) && start.required <= Recorded(m.gates)
  {
    var plan := GeneratedPlan(d);
    var after := PlanApplied(start, plan);
    var m := AppliedAll(after, steps);
    GeneratedCovers(d);
    OnlyGrows(after, steps);
    hide GeneratedPlan, AppliedAll, CatalogGates, PlanCovers, PlanGenerated, GateName, WellDeclared;
    assert Gate(PlanCovers(), plan.Complete()) in after.gates;
    forall service, kind | service in d.model.services
      ensures Gate(GateName(kind, service), true) in m.gates
    {
      assert ServiceCheck(kind, service) in plan.checks;
      assert GateName(kind, service) in plan.GateNames();
      assert GateName(kind, service) in Recorded(m.gates);
      var g :| g in m.gates && g.name == GateName(kind, service);
    }
  }

  /** A service added to the Compose file without a probe, limits, a pinned image or
      an egress declaration blocks every later sign-off. */
  lemma UndeclaredServiceBlocks(start: Manifest, d: Declarations, service: string, steps: seq<Step>)
    requires service in d.model.services && !WellDeclared(d, service)
    ensures !SignedOff(AppliedAll(PlanApplied(start, GeneratedPlan(d)), steps))
  {
    hide AppliedAll, PlanApplied, GeneratedPlan, WellDeclared;
    if SignedOff(AppliedAll(PlanApplied(start, GeneratedPlan(d)), steps)) {
      SignOffCoversStack(start, d, steps);
    }
  }

  /** A fresh manifest that never records that a plan was generated never signs off. */
  lemma {:induction false} NoPlanNoSignOff(steps: seq<Step>)
    requires forall s | s in steps && s.Add? :: s.gate.name != PlanGenerated()
    ensures !SignedOff(AppliedAll(Manifest(LifecycleGates(), []), steps))
  {
    hide PlanGenerated, PlanCovers;
    var m := Manifest(LifecycleGates(), []);
    OnlyGrows(m, steps);
    NeverRecorded(m, steps, PlanGenerated());
    assert PlanGenerated() in m.required;
  }

  lemma {:induction false} NeverRecorded(m: Manifest, steps: seq<Step>, name: string)
    requires name !in Recorded(m.gates) && forall s | s in steps && s.Add? :: s.gate.name != name
    ensures name !in Recorded(AppliedAll(m, steps).gates)
    decreases |steps|
  {
    if steps != [] {
      assert steps[0] in steps;
      NeverRecorded(Applied(m, steps[0]), steps[1..], name);
    }
  }

  // Gate names

  predicate NoColon(s: string) {
    forall i | 0 <= i < |s| :: s[i] != ':'
  }

  function NameLength(kind: Kind): nat {
    match kind
    case ImagePinned => 12
    case ResourceLimits => 15
    case EnvironmentVariables => 21
    case Egress => 6
    case Readiness => 9
  }

  lemma KindNameFacts(kind: Kind, other: Kind)
    ensures NoColon(KindName(kind))
    ensures KindName(kind) == KindName(other) ==> kind == other
  {
    assert |KindName(kind)| == NameLength(kind) && |KindName(other)| == NameLength(other);
  }

  /** A derived gate name determines its kind and its service, and is never a
      lifecycle gate: no gate can stand in for another. */
  lemma GateNamesDistinct(kind: Kind, service: string, other: Kind, name: string)
    ensures GateName(kind, service) == GateName(other, name) ==> kind == other && service == name
    ensures GateName(kind, service) !in LifecycleGates()
  {
    KindNameFacts(kind, other);
    KindNameFacts(other, kind);
    var a, b := KindName(kind), KindName(other);
    ColonAfter(a, service);
    ColonAfter(b, name);
    LifecyclePlain();
    hide KindName, LifecycleGates, ColonIndex;
    assert GateName(kind, service)[|a|] == ':';
  }

  function ColonIndex(s: string): nat {
    if s == "" || s[0] == ':' then 0 else 1 + ColonIndex(s[1..])
  }

  /** The first colon is where the kind's name ends, so the parts can be read back. */
  lemma {:induction false} ColonAfter(a: string, s: string)
    requires NoColon(a)
    ensures ColonIndex(a + ":" + s) == |a|
    ensures (a + ":" + s)[..|a|] == a && (a + ":" + s)[|a| + 1..] == s
  {
    if a != "" {
      ColonAfter(a[1..], s);
      assert (a + ":" + s)[1..] == a[1..] + ":" + s;
    }
  }

  lemma LifecyclePlain()
    ensures forall g | g in LifecycleGates() :: NoColon(g)
  {
    assert NoColon(PlanGenerated());
    assert NoColon(PlanCovers());
    assert NoColon("application-readiness");
    assert NoColon("incident-active-verified");
    assert NoColon("cleanup-verified");
    hide NoColon;
  }
}

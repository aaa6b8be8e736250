/** What reconciliation reports of a stack, problem by problem, in the stack's own
    declarations (checks.py, reconcile and generate_check_plan). */
module StackChecks {
  import opened Results
  import opened Sequences
  import opened Text
  import opened CheckPlans
  import opened Manifests

  /** The image is named by a digest, after a name or alone. */
  predicate ByContent(image: string) {
    StandsAt(image, 0, "sha256:") || exists i | 0 <= i <= |image| :: StandsAt(image, i, "@sha256:")
  }

  predicate StandsAt(text: string, i: nat, part: string) {
    i + |part| <= |text| && text[i..i + |part|] == part
  }

  /** The service is on no network, or on one that is not declared as internal. */
  predicate Routes(model: Compose, service: string)
    requires service in model.services
  {
    var attached := model.services[service].networks;
    || |attached| == 0
    || exists i | 0 <= i < |attached| ::
         attached[i] in model.networks ==> model.networks[attached[i]] == Network(false)
  }

  lemma PinnedExactly(s: Service)
    ensures s.Pinned() <==> ByContent(s.image)
  {
    forall i | 0 <= i <= |s.image|
      ensures "@sha256:" <= s.image[i..] <==> StandsAt(s.image, i, "@sha256:")
      ensures "sha256:" <= s.image[i..] <==> StandsAt(s.image, i, "sha256:")
    {
      StartsThere(s.image, i, "@sha256:");
      StartsThere(s.image, i, "sha256:");
    }
    assert s.image[0..] == s.image;
  }

  lemma StartsThere(text: string, i: nat, part: string)
    requires i <= |text|
    ensures part <= text[i..] <==> StandsAt(text, i, part)
  {
    if |part| <= |text[i..]| {
      assert text[i..][..|part|] == text[i..i + |part|];
    }
  }

  lemma RoutesExactly(model: Compose, service: string)
    requires service in model.services
    ensures model.EgressReachable(service) <==> Routes(model, service)
  {
    var attached := model.services[service].networks;
    assert forall i | 0 <= i < |attached| :: attached[i] in attached;
  }

  /** The problem is really there. */
  predicate Holds(checks: seq<ServiceCheck>, d: Declarations, p: Problem) {
    match p
    case UnknownService(s) => s !in d.model.services && exists i | 0 <= i < |checks| :: checks[i].service == s
    case NoCheck(s, kind) =>
      s in d.model.services && forall i | 0 <= i < |checks| :: checks[i] != ServiceCheck(kind, s)
    case NoProbe(s) => s in d.model.services && s !in d.probes
    case OpenEgress(s) => s in d.model.services && s !in d.exceptions && Routes(d.model, s)
    case NoLimits(s) =>
      s in d.model.services && (d.model.services[s].nanoCpus == None || d.model.services[s].memoryBytes == None)
    case Unpinned(s) => s in d.model.services && !ByContent(d.model.services[s].image)
  }

  predicate OfService(p: Problem, s: string) {
    match p
    case NoProbe(t) => t == s
    case OpenEgress(t) => t == s
    case NoLimits(t) => t == s
    case Unpinned(t) => t == s
    case _ => false
  }

  lemma ServiceExactly(checks: seq<ServiceCheck>, d: Declarations, service: string, p: Problem)
    requires service in d.model.services
    ensures p in ServiceProblems(d, service) <==> OfService(p, service) && Holds(checks, d, p)
  {
    PinnedExactly(d.model.services[service]);
    RoutesExactly(d.model, service);
    hide ByContent, Routes, Compose.EgressReachable, Service.Pinned;
  }

  lemma {:induction false} ServicesExactly(checks: seq<ServiceCheck>, d: Declarations, services: seq<string>,
                                           p: Problem)
    requires forall s | s in services :: s in d.model.services
    ensures p in AllServiceProblems(d, services) <==>
      (exists s :: s in services && OfService(p, s)) && Holds(checks, d, p)
  {
    if services != [] {
      hide Holds, ServiceProblems;
      var n := |services| - 1;
      assert services == services[..n] + [services[n]];
      ServicesExactly(checks, d, services[..n], p);
      ServiceExactly(checks, d, services[n], p);
    }
  }

  /** Reconciliation reports a problem if and only if it is there: an unchecked kind, a
      check of no service, an unprobed, unlimited or unpinned service, or one that
      reaches out without an exception. */
  lemma ProblemsExactly(checks: seq<ServiceCheck>, d: Declarations, p: Problem)
    ensures p in Problems(checks, d) <==> Holds(checks, d, p)
  {
    var services := SortedNames(d.model.services.Keys);
    var foreign := SortedNames(Checked(checks) - d.model.services.Keys);
    ChecksMissing(checks, services);
    ServicesExactly(checks, d, services, p);
    assert forall i | 0 <= i < |foreign| :: Unknown(foreign)[i] == UnknownService(foreign[i]);
    assert forall i | 0 <= i < |checks| :: checks[i] in checks;
    hide MissingChecks, AllServiceProblems, ByContent, Routes;
    assert p in Unknown(foreign) <==> p.UnknownService? && p.service in foreign;
    assert Problems(checks, d) == MissingChecks(checks, services) + Unknown(foreign) + AllServiceProblems(d, services);
  }

  /** A generated plan lists the stack's services once each, by name, and five checks for
      each; its exceptions are the declared ones for services of the stack. */
  lemma PlanExactly(d: Declarations)
    ensures var plan := GeneratedPlan(d);
      && Distinct(plan.services) && (forall s :: s in plan.services <==> s in d.model.services)
      && |plan.checks| == 5 * |plan.services|
      && (forall s, kind :: ServiceCheck(kind, s) in plan.checks <==> s in d.model.services)
      && (forall s :: s in plan.exceptions <==> s in d.exceptions && s in d.model.services)
      && (forall s | s in plan.exceptions :: plan.exceptions[s] == d.exceptions[s])
      && plan.problems == Problems(plan.checks, d)
  {
    hide Problems;
    var services := SortedNames(d.model.services.Keys);
    SortedDistinct(services);
    GeneratedCount(services);
    GeneratedCover(services);
  }

  lemma SortedDistinct(names: seq<string>)
    requires Increasing(names)
    ensures Distinct(names)
  {
    forall i, j | 0 <= i < j < |names|
      ensures names[i] != names[j]
    {
      BeforeTrichotomy(names[i], names[j]);
    }
  }

  lemma {:induction false} GeneratedCount(services: seq<string>)
    ensures |GeneratedChecks(services)| == 5 * |services|
  {
    if services != [] {
      GeneratedCount(services[..|services| - 1]);
    }
  }

  // Sign-off

  /** What later steps record and require, beside what is there. */
  lemma {:induction false} AppliedExactly(m: Manifest, steps: seq<Step>, g: Gate, name: string)
    ensures var n := AppliedAll(m, steps);
      && (g in n.gates <==> g in m.gates || exists i | 0 <= i < |steps| :: steps[i] == Add(g))
      && (name in n.required <==>
            name in m.required || exists i | 0 <= i < |steps| :: steps[i].Require? && name in steps[i].names)
    decreases |steps|
  {
    if steps != [] {
      AppliedExactly(Applied(m, steps[0]), steps[1..], g, name);
      assert forall i | 0 < i < |steps| :: steps[i] == steps[1..][i - 1];
    }
  }

  /** The gate was there before, or is one of the plan's two, or was added later. */
  ghost predicate HasGate(start: Manifest, d: Declarations, steps: seq<Step>, g: Gate) {
    || g in start.gates
    || g == Gate("check-plan-generated", |d.model.services| > 0)
    || (g.name == "check-plan-covers-compose-services"
        && (g.passed <==> forall s | s in d.model.services :: WellDeclared(d, s)))
    || exists i | 0 <= i < |steps| :: steps[i] == Add(g)
  }

  /** The name was required before, or is the catalog's or the plan's, or was required later. */
  ghost predicate Demands(start: Manifest, d: Declarations, steps: seq<Step>, name: string) {
    || name in start.required
    || name == "mysql-seed-rows" || name == "valkey-empty" || name == "catalog-api-image-hermetic"
    || (exists s, kind :: s in d.model.services && name == GateName(kind, s))
    || exists i | 0 <= i < |steps| :: steps[i].Require? && name in steps[i].names
  }

  lemma RecordedExactly(start: Manifest, d: Declarations, steps: seq<Step>, g: Gate)
    ensures g in AppliedAll(PlanApplied(start, GeneratedPlan(d)), steps).gates <==> HasGate(start, d, steps, g)
  {
    var plan := GeneratedPlan(d);
    AppliedExactly(PlanApplied(start, plan), steps, g, "");
    GeneratedCovers(d);
    PlanExactly(d);
    SomeCheck(d);
    hide GeneratedPlan, AppliedAll, WellDeclared, GateName;
  }

  lemma SomeCheck(d: Declarations)
    ensures GeneratedPlan(d).checks != [] <==> |d.model.services| > 0
  {
    PlanExactly(d);
    hide GeneratedPlan;
    if s :| s in d.model.services {
      assert ServiceCheck(ImagePinned, s) in GeneratedPlan(d).checks;
    }
    if GeneratedPlan(d).checks != [] {
      var c := GeneratedPlan(d).checks[0];
      assert ServiceCheck(c.kind, c.service) in GeneratedPlan(d).checks;
    }
  }

  lemma RequiredExactly(start: Manifest, d: Declarations, steps: seq<Step>, name: string)
    ensures name in AppliedAll(PlanApplied(start, GeneratedPlan(d)), steps).required
       <==> Demands(start, d, steps, name)
  {
    var plan := GeneratedPlan(d);
    AppliedExactly(PlanApplied(start, plan), steps, Gate("", true), name);
    PlanExactly(d);
    hide GeneratedPlan, AppliedAll, GateName;
    forall s, kind | s in d.model.services
      ensures GateName(kind, s) in plan.GateNames()
    {
      assert ServiceCheck(kind, s) in plan.checks;
    }
    if name in plan.GateNames() {
      var c :| c in plan.checks && name == GateName(c.kind, c.service);
      assert ServiceCheck(c.kind, c.service) in plan.checks;
    }
  }

  /** A manifest signs off, whatever happens after the plan is generated, exactly when
      every recorded gate passed and every required one was recorded. */
  lemma SignOffExactly(start: Manifest, d: Declarations, steps: seq<Step>)
    ensures SignedOff(AppliedAll(PlanApplied(start, GeneratedPlan(d)), steps)) <==>
      && (forall g | HasGate(start, d, steps, g) :: g.passed)
      && (forall name | Demands(start, d, steps, name) :: exists g :: HasGate(start, d, steps, g) && g.name == name)
  {
    hide GeneratedPlan, AppliedAll, PlanApplied, HasGate, Demands;
    var m := AppliedAll(PlanApplied(start, GeneratedPlan(d)), steps);
    forall g
      ensures g in m.gates <==> HasGate(start, d, steps, g)
    {
      RecordedExactly(start, d, steps, g);
    }
    forall name
      ensures name in m.required <==> Demands(start, d, steps, name)
    {
      RequiredExactly(start, d, steps, name);
    }
    assert forall name :: name in Manifests.Recorded(m.gates) <==> exists g :: g in m.gates && g.name == name;
  }
}

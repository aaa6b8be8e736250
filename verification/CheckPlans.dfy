/** Environment checks generated from the Compose model, and the manifest that
    signs off on them (checks.py, manifest.py and environment.py). */
module CheckPlans {
  import opened Results
  import opened Text

  // The Compose model

  datatype Network = Network(internal: bool)

  datatype Service = Service(
    image: string,
    networks: seq<string>,
    nanoCpus: Option<int>,
    memoryBytes: Option<int>)
  {
    predicate LimitsDeclared() {
      nanoCpus.Some? && memoryBytes.Some?
    }

    /** The image is named by its content. */
    predicate Pinned() {
      Contains(image, "@sha256:") || "sha256:" <= image
    }
  }

  predicate Contains(s: string, part: string) {
    exists i | 0 <= i <= |s| :: part <= s[i..]
  }

  datatype Compose = Compose(services: map<string, Service>, networks: map<string, Network>) {
    /** The service sits on some network with a gateway; without any network it is
        on the default bridge, which routes. */
    predicate EgressReachable(service: string)
      requires service in services
    {
      var attached := services[service].networks;
      attached == [] || exists n | n in attached :: n !in networks || !networks[n].internal
    }
  }

  datatype Kind = ImagePinned | ResourceLimits | EnvironmentVariables | Egress | Readiness

  const REQUIRED_KINDS: seq<Kind> := [ImagePinned, ResourceLimits, EnvironmentVariables, Egress, Readiness]

  datatype ServiceCheck = ServiceCheck(kind: Kind, service: string)

  /** What a plan is reconciled with, besides the model. */
  datatype Declarations = Declarations(model: Compose, probes: set<string>, exceptions: map<string, string>)

  datatype Problem =
    | NoCheck(service: string, kind: Kind)
    | UnknownService(service: string)
    | NoProbe(service: string)
    | OpenEgress(service: string)
    | NoLimits(service: string)
    | Unpinned(service: string)

  datatype Plan = Plan(checks: seq<ServiceCheck>, services: seq<string>, exceptions: map<string, string>,
                       problems: seq<Problem>) {
    predicate Complete() {
      problems == []
    }

    function GateNames(): set<string> {
      set c | c in checks :: GateName(c.kind, c.service)
    }

    /** The plan with one service's checks removed and everything else kept. */
    function WithoutService(service: string): Plan {
      Plan(ChecksWithout(checks, service), services, exceptions, problems)
    }
  }

  function KindName(kind: Kind): string {
    match kind
    case ImagePinned => "image-pinned"
    case ResourceLimits => "resource-limits"
    case EnvironmentVariables => "environment-variables"
    case Egress => "egress"
    case Readiness => "readiness"
  }

  function GateName(kind: Kind, service: string): string {
    KindName(kind) + ":" + service
  }

  function ChecksWithout(checks: seq<ServiceCheck>, service: string): seq<ServiceCheck> {
    if checks == [] then []
    else
      var n := |checks| - 1;
      ChecksWithout(checks[..n], service) + if checks[n].service == service then [] else [checks[n]]
  }

  // Reconciliation

  function MissingKinds(checks: seq<ServiceCheck>, service: string, kinds: seq<Kind>): seq<Problem> {
    if kinds == [] then []
    else
      var n := |kinds| - 1;
      MissingKinds(checks, service, kinds[..n])
      + if ServiceCheck(kinds[n], service) in checks then [] else [NoCheck(service, kinds[n])]
  }

  function MissingChecks(checks: seq<ServiceCheck>, services: seq<string>): seq<Problem> {
    if services == [] then []
    else
      var n := |services| - 1;
      MissingChecks(checks, services[..n]) + MissingKinds(checks, services[n], REQUIRED_KINDS)
  }

  function Unknown(services: seq<string>): (r: seq<Problem>)
    ensures |r| == |services|
  {
    seq(|services|, i requires 0 <= i < |services| => UnknownService(services[i]))
  }

  function ServiceProblems(d: Declarations, service: string): seq<Problem>
    requires service in d.model.services
  {
    (if service in d.probes then [] else [NoProbe(service)])
    + (if d.model.EgressReachable(service) && service !in d.exceptions then [OpenEgress(service)] else [])
    + (if d.model.services[service].LimitsDeclared() then [] else [NoLimits(service)])
    + (if d.model.services[service].Pinned() then [] else [Unpinned(service)])
  }

  function AllServiceProblems(d: Declarations, services: seq<string>): seq<Problem>
    requires forall s | s in services :: s in d.model.services
  {
    if services == [] then []
    else
      var n := |services| - 1;
      AllServiceProblems(d, services[..n]) + ServiceProblems(d, services[n])
  }

  function Checked(checks: seq<ServiceCheck>): set<string> {
    set c | c in checks :: c.service
  }

  /** Everything wrong with some checks, in both directions. */
  function Problems(checks: seq<ServiceCheck>, d: Declarations): seq<Problem> {
    var services := SortedNames(d.model.services.Keys);
    MissingChecks(checks, services)
    + Unknown(SortedNames(Checked(checks) - d.model.services.Keys))
    + AllServiceProblems(d, services)
  }

  /** The kinds checked of each service, gathered check by check. */
  ghost predicate Gathers(byService: map<string, set<Kind>>, checks: seq<ServiceCheck>) {
    && byService.Keys == Checked(checks)
    && forall service, kind | service in byService ::
      kind in byService[service] <==> ServiceCheck(kind, service) in checks
  }

  method GatherKinds(checks: seq<ServiceCheck>) returns (byService: map<string, set<Kind>>)
    ensures Gathers(byService, checks)
  {
    byService := map[];
    for i := 0 to |checks|
      invariant Gathers(byService, checks[..i])
    {
      var service := checks[i].service;
      var kinds := if service in byService then byService[service] else {};
      assert checks[..i + 1] == checks[..i] + [checks[i]];
      byService := byService[service := kinds + {checks[i].kind}];
    }
    assert checks[..|checks|] == checks;
  }

  method FindMissing(byService: map<string, set<Kind>>, ghost checks: seq<ServiceCheck>, services: seq<string>)
    returns (r: seq<Problem>)
    requires Gathers(byService, checks)
    ensures r == MissingChecks(checks, services)
  {
    hide MissingKinds, Gathers;
    r := [];
    for i := 0 to |services|
      invariant r == MissingChecks(checks, services[..i])
    {
      assert services[..i + 1][..i] == services[..i];
      var missing := FindMissingKinds(byService, checks, services[i]);
      r := r + missing;
    }
    assert services[..|services|] == services;
  }

  method FindMissingKinds(byService: map<string, set<Kind>>, ghost checks: seq<ServiceCheck>, service: string)
    returns (r: seq<Problem>)
    requires Gathers(byService, checks)
    ensures r == MissingKinds(checks, service, REQUIRED_KINDS)
  {
    r := [];
    var kinds := if service in byService then byService[service] else {};
    for k := 0 to |REQUIRED_KINDS|
      invariant r == MissingKinds(checks, service, REQUIRED_KINDS[..k])
    {
      assert REQUIRED_KINDS[..k + 1][..k] == REQUIRED_KINDS[..k];
      if REQUIRED_KINDS[k] !in kinds {
        r := r + [NoCheck(service, REQUIRED_KINDS[k])];
      }
    }
    assert REQUIRED_KINDS[..|REQUIRED_KINDS|] == REQUIRED_KINDS;
  }

  method FindServiceProblems(d: Declarations, services: seq<string>) returns (r: seq<Problem>)
    requires forall s | s in services :: s in d.model.services
    ensures r == AllServiceProblems(d, services)
  {
    r := [];
    for i := 0 to |services|
      invariant r == AllServiceProblems(d, services[..i])
    {
      assert services[..i + 1][..i] == services[..i];
      assert services[i] in services;
      var one := FindProblems(d, services[i]);
      r := r + one;
    }
    assert services[..|services|] == services;
  }

  method FindProblems(d: Declarations, service: string) returns (r: seq<Problem>)
    requires service in d.model.services
    ensures r == ServiceProblems(d, service)
  {
    r := [];
    if service !in d.probes {
      r := r + [NoProbe(service)];
    }
    if d.model.EgressReachable(service) && service !in d.exceptions {
      r := r + [OpenEgress(service)];
    }
    if !d.model.services[service].LimitsDeclared() {
      r := r + [NoLimits(service)];
    }
    if !d.model.services[service].Pinned() {
      r := r + [Unpinned(service)];
    }
  }

  method Reconcile(checks: seq<ServiceCheck>, d: Declarations) returns (problems: seq<Problem>)
    ensures problems == Problems(checks, d)
  {
    hide MissingChecks, AllServiceProblems;
    var services := SortedNames(d.model.services.Keys);
    var byService := GatherKinds(checks);
    problems := FindMissing(byService, checks, services);
    var foreign := SortedNames(byService.Keys - d.model.services.Keys);
    ghost var before := problems;
    for i := 0 to |foreign|
      invariant problems == before + Unknown(foreign[..i])
    {
      problems := problems + [UnknownService(foreign[i])];
    }
    assert foreign[..|foreign|] == foreign;
    var rest := FindServiceProblems(d, services);
    problems := problems + rest;
  }

  // The generated plan

  function KindChecks(service: string, kinds: seq<Kind>): (r: seq<ServiceCheck>)
    ensures |r| == |kinds| && forall i | 0 <= i < |kinds| :: r[i] == ServiceCheck(kinds[i], service)
  {
    seq(|kinds|, i requires 0 <= i < |kinds| => ServiceCheck(kinds[i], service))
  }

  function GeneratedChecks(services: seq<string>): seq<ServiceCheck> {
    if services == [] then []
    else GeneratedChecks(services[..|services| - 1]) + KindChecks(services[|services| - 1], REQUIRED_KINDS)
  }

  /** The exceptions for services of the stack. */
  function DeclaredExceptions(d: Declarations): map<string, string> {
    map name | name in d.exceptions && name in d.model.services :: d.exceptions[name]
  }

  function GeneratedPlan(d: Declarations): Plan {
    var services := SortedNames(d.model.services.Keys);
    var checks := GeneratedChecks(services);
    Plan(checks, services, DeclaredExceptions(d), Problems(checks, d))
  }

  method GenerateCheckPlan(d: Declarations) returns (plan: Plan)
    ensures plan == GeneratedPlan(d)
  {
    var services, checks := SortedNames(d.model.services.Keys), [];
    for i := 0 to |services|
      invariant checks == GeneratedChecks(services[..i])
    {
      assert services[..i + 1][..i] == services[..i];
      var before := checks;
      for k := 0 to |REQUIRED_KINDS|
        invariant checks == before + KindChecks(services[i], REQUIRED_KINDS[..k])
      {
        checks := checks + [ServiceCheck(REQUIRED_KINDS[k], services[i])];
      }
      assert REQUIRED_KINDS[..|REQUIRED_KINDS|] == REQUIRED_KINDS;
    }
    assert services[..|services|] == services;
    var problems := Reconcile(checks, d);
    return Plan(checks, services, DeclaredExceptions(d), problems);
  }

  // What no problems means

  /** Every service has a check of every kind, and every check names a service. */
  ghost predicate Covers(checks: seq<ServiceCheck>, model: Compose) {
    && (forall service, kind | service in model.services :: ServiceCheck(kind, service) in checks)
    && (forall c | c in checks :: c.service in model.services)
  }

  /** The service is probed, internal or excepted, limited and pinned. */
  predicate WellDeclared(d: Declarations, service: string)
    requires service in d.model.services
  {
    && service in d.probes
    && (d.model.EgressReachable(service) ==> service in d.exceptions)
    && d.model.services[service].LimitsDeclared()
    && d.model.services[service].Pinned()
  }

  lemma {:induction false} KindsMissing(checks: seq<ServiceCheck>, service: string, kinds: seq<Kind>)
    ensures forall p :: p in MissingKinds(checks, service, kinds) <==>
      p.NoCheck? && p.service == service && p.kind in kinds && ServiceCheck(p.kind, service) !in checks
  {
    if kinds != [] {
      var n := |kinds| - 1;
      KindsMissing(checks, service, kinds[..n]);
      assert kinds == kinds[..n] + [kinds[n]];
    }
  }

  lemma {:induction false} ChecksMissing(checks: seq<ServiceCheck>, services: seq<string>)
    ensures forall p :: p in MissingChecks(checks, services) <==>
      p.NoCheck? && p.service in services && ServiceCheck(p.kind, p.service) !in checks
  {
    if services != [] {
      var n := |services| - 1;
      ChecksMissing(checks, services[..n]);
      KindsMissing(checks, services[n], REQUIRED_KINDS);
      EveryKind();
      hide MissingKinds;
      assert services == services[..n] + [services[n]];
    }
  }

  lemma EveryKind()
    ensures forall kind: Kind :: kind in REQUIRED_KINDS
  {
    forall kind: Kind
      ensures kind in REQUIRED_KINDS
    {
      match kind
      case ImagePinned => assert REQUIRED_KINDS[0] == kind;
      case ResourceLimits => assert REQUIRED_KINDS[1] == kind;
      case EnvironmentVariables => assert REQUIRED_KINDS[2] == kind;
      case Egress => assert REQUIRED_KINDS[3] == kind;
      case Readiness => assert REQUIRED_KINDS[4] == kind;
    }
  }

  lemma {:induction false} DeclaredWell(d: Declarations, services: seq<string>)
    requires forall s | s in services :: s in d.model.services
    ensures AllServiceProblems(d, services) == [] <==> forall s | s in services :: WellDeclared(d, s)
  {
    if services != [] {
      var n := |services| - 1;
      assert services == services[..n] + [services[n]];
      DeclaredWell(d, services[..n]);
      assert ServiceProblems(d, services[n]) == [] <==> WellDeclared(d, services[n]);
      hide ServiceProblems, WellDeclared;
    }
  }

  /** Reconciliation finds nothing exactly when the checks cover the stack and every
      service is well declared. */
  lemma NoProblemsExactly(checks: seq<ServiceCheck>, d: Declarations)
    ensures Problems(checks, d) == [] <==>
      Covers(checks, d.model) && forall s | s in d.model.services :: WellDeclared(d, s)
  {
    var services := SortedNames(d.model.services.Keys);
    var foreign := SortedNames(Checked(checks) - d.model.services.Keys);
    ChecksMissing(checks, services);
    DeclaredWell(d, services);
    hide MissingChecks, AllServiceProblems, WellDeclared;
    assert MissingChecks(checks, services) == [] <==>
      forall service, kind | service in d.model.services :: ServiceCheck(kind, service) in checks by {
      NoneMissing(checks, services);
    }
    assert foreign == [] <==> forall c | c in checks :: c.service in d.model.services by {
      NoneForeign(checks, d.model, foreign);
    }
  }

  lemma NoneMissing(found: seq<ServiceCheck>, services: seq<string>)
    ensures MissingChecks(found, services) == [] <==>
      forall service, kind | service in services :: ServiceCheck(kind, service) in found
  {
    ChecksMissing(found, services);
    hide MissingChecks;
    var missing := MissingChecks(found, services);
    if missing != [] {
      assert missing[0] in missing;
    }
    forall service, kind | service in services && ServiceCheck(kind, service) !in found
      ensures missing != []
    {
      assert NoCheck(service, kind) in missing;
    }
  }

  lemma NoneForeign(checks: seq<ServiceCheck>, model: Compose, foreign: seq<string>)
    requires forall s :: s in foreign <==> s in Checked(checks) - model.services.Keys
    ensures foreign == [] <==> forall c | c in checks :: c.service in model.services
  {
    if foreign != [] {
      assert foreign[0] in foreign;
    }
    forall c | c in checks && c.service !in model.services
      ensures foreign != []
    {
      assert c.service in foreign;
    }
  }

  lemma {:induction false} GeneratedCover(services: seq<string>)
    ensures forall c :: c in GeneratedChecks(services) <==> c.service in services
  {
    if services != [] {
      var n := |services| - 1;
      GeneratedCover(services[..n]);
      assert services == services[..n] + [services[n]];
      EveryKind();
      forall kind: Kind
        ensures ServiceCheck(kind, services[n]) in KindChecks(services[n], REQUIRED_KINDS)
      {
        assert kind in REQUIRED_KINDS;
        var i :| 0 <= i < |REQUIRED_KINDS| && REQUIRED_KINDS[i] == kind;
        assert KindChecks(services[n], REQUIRED_KINDS)[i] == ServiceCheck(kind, services[n]);
      }
    }
  }

  /** A generated plan covers its stack; its only problems are undeclared properties. */
  lemma GeneratedCovers(d: Declarations)
    ensures Covers(GeneratedPlan(d).checks, d.model)
    ensures GeneratedPlan(d).Complete() <==> forall s | s in d.model.services :: WellDeclared(d, s)
  {
    GeneratedCover(SortedNames(d.model.services.Keys));
    NoProblemsExactly(GeneratedPlan(d).checks, d);
    hide Problems, GeneratedChecks, WellDeclared;
  }

  lemma {:induction false} RemovedChecks(checks: seq<ServiceCheck>, service: string)
    ensures forall c :: c in ChecksWithout(checks, service) <==> c in checks && c.service != service
  {
    if checks != [] {
      var n := |checks| - 1;
      RemovedChecks(checks[..n], service);
      assert checks == checks[..n] + [checks[n]];
    }
  }

  /** Dropping one service from any plan is always noticed, five times. */
  lemma RemovalNoticed(plan: Plan, d: Declarations, service: string)
    requires service in d.model.services
    ensures forall kind :: NoCheck(service, kind) in Problems(plan.WithoutService(service).checks, d)
  {
    var checks := plan.WithoutService(service).checks;
    var services := SortedNames(d.model.services.Keys);
    RemovedChecks(plan.checks, service);
    ChecksMissing(checks, services);
    hide MissingChecks, AllServiceProblems, ChecksWithout;
    assert service in services;
    forall kind
      ensures NoCheck(service, kind) in Problems(checks, d)
    {
      assert NoCheck(service, kind) in MissingChecks(checks, services);
    }
  }
}

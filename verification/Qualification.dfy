/** The re-qualification gate of one host: fingerprints, the machine-local records
    and scored readiness (qualification.py; the verdict part of trials.py). */
module Qualification {
  import opened Results
  import opened Text

  const MIN_CYCLES := 3

  datatype HostFacts = HostFacts(
    classId: Option<string>,
    osRelease: Option<string>,
    dockerEngine: Option<string>,
    pythonVersion: Option<string>)

  datatype Requalification = Requalification(
    hostClass: string,
    fingerprint: string,
    recordedAt: string,
    cycles: int,
    suiteId: string,
    driverCommit: string,
    fittedAtCommit: string)

  // Fingerprints

  function OrUnknown(fact: Option<string>): string {
    if fact.Some? && fact.value != "" then fact.value else "?"
  }

  /** The host class and every patch-level version. */
  function FingerprintOf(facts: HostFacts): string {
    (if facts.classId.Some? then facts.classId.value else "unclassified")
    + "/os" + OrUnknown(facts.osRelease)
    + "/docker" + OrUnknown(facts.dockerEngine)
    + "/py" + OrUnknown(facts.pythonVersion)
  }

  /** `s.split("/")` */
  function Parts(s: string): (r: seq<string>)
    ensures r != []
  {
    if s == "" then [""]
    else
      var rest := Parts(s[1..]);
      if s[0] == '/' then [""] + rest else [[s[0]] + rest[0]] + rest[1..]
  }

  /** `"/".join(parts)` */
  function Joined(parts: seq<string>): string
    requires parts != []
  {
    if |parts| == 1 then parts[0] else parts[0] + "/" + Joined(parts[1..])
  }

  lemma {:induction false} PartsJoin(s: string)
    ensures Joined(Parts(s)) == s
  {
    if s != "" {
      PartsJoin(s[1..]);
      var rest := Parts(s[1..]);
      assert s == [s[0]] + s[1..];
      if s[0] == '/' {
        assert ([""] + rest)[1..] == rest;
      } else {
        var all := [[s[0]] + rest[0]] + rest[1..];
        assert all[1..] == rest[1..];
      }
    }
  }

  datatype Drift = Drift(index: nat, fittedOn: string, observed: string)

  datatype Comparison = Comparison(
    observed: Option<string>, fitted: Option<string>, matches: bool, comparable: bool, drift: seq<Drift>)

  function PartAt(parts: seq<string>, i: nat): string {
    if i < |parts| then parts[i] else ""
  }

  function Width(a: seq<string>, b: seq<string>): nat {
    if |a| >= |b| then |a| else |b|
  }

  /** The components that differ among the first `width`, in order. */
  function DriftUpTo(fitted: seq<string>, observed: seq<string>, width: nat): seq<Drift> {
    if width == 0 then []
    else
      var i := width - 1;
      DriftUpTo(fitted, observed, i)
      + if PartAt(fitted, i) == PartAt(observed, i) then [] else [Drift(i, PartAt(fitted, i), PartAt(observed, i))]
  }

  /** A missing side is a mismatch, never a match. */
  function Compared(observed: Option<string>, fitted: Option<string>): Comparison {
    if observed.None? || fitted.None? then Comparison(observed, fitted, false, false, [])
    else if observed == fitted then Comparison(observed, fitted, true, true, [])
    else
      var left, right := Parts(fitted.value), Parts(observed.value);
      Comparison(observed, fitted, false, true, DriftUpTo(left, right, Width(left, right)))
  }

  method CompareFingerprints(observed: Option<string>, fitted: Option<string>) returns (c: Comparison)
    ensures c == Compared(observed, fitted)
  {
    if observed.None? || fitted.None? {
      return Comparison(observed, fitted, false, false, []);
    }
    if observed.value == fitted.value {
      return Comparison(observed, fitted, true, true, []);
    }
    var left, right := Parts(fitted.value), Parts(observed.value);
    var drift: seq<Drift> := [];
    for i := 0 to Width(left, right)
      invariant drift == DriftUpTo(left, right, i)
    {
      var a, b := PartAt(left, i), PartAt(right, i);
      if a != b {
        drift := drift + [Drift(i, a, b)];
      }
    }
    return Comparison(observed, fitted, false, true, drift);
  }

  lemma {:induction false} DriftLists(fitted: seq<string>, observed: seq<string>, width: nat)
    ensures forall d :: d in DriftUpTo(fitted, observed, width) <==>
      d.index < width && d.fittedOn == PartAt(fitted, d.index) && d.observed == PartAt(observed, d.index)
        && d.fittedOn != d.observed
  {
    if width > 0 {
      DriftLists(fitted, observed, width - 1);
    }
  }

  lemma {:induction false} LastPart(s: string)
    ensures s != "" && s[|s| - 1] != '/' ==> Parts(s)[|Parts(s)| - 1] != ""
  {
    if s != "" {
      LastPart(s[1..]);
    }
  }

  /** `s.rstrip("/")` */
  function WithoutSlashes(s: string): (r: string)
    ensures r == "" || r[|r| - 1] != '/'
  {
    if s != "" && s[|s| - 1] == '/' then WithoutSlashes(s[..|s| - 1]) else s
  }

  lemma {:induction false} PartsSlash(s: string)
    ensures Parts(s + "/") == Parts(s) + [""]
  {
    var t := s + "/";
    if s == "" {
      assert t[1..] == "";
    } else {
      assert t[1..] == s[1..] + "/";
      PartsSlash(s[1..]);
    }
  }

  /** Trailing slashes only add empty parts. */
  lemma {:induction false} SlashesUnseen(s: string, i: nat)
    ensures PartAt(Parts(s), i) == PartAt(Parts(WithoutSlashes(s)), i)
  {
    if s != "" && s[|s| - 1] == '/' {
      var t := s[..|s| - 1];
      assert s == t + "/";
      PartsSlash(t);
      hide Parts;
      SlashesUnseen(t, i);
    }
  }

  lemma DriftEmpty(a: seq<string>, b: seq<string>)
    ensures DriftUpTo(a, b, Width(a, b)) == [] <==> forall i: nat :: PartAt(a, i) == PartAt(b, i)
  {
    var drift := DriftUpTo(a, b, Width(a, b));
    DriftLists(a, b, Width(a, b));
    hide DriftUpTo;
    if drift != [] {
      assert drift[0] in drift;
    }
    forall i: nat | PartAt(a, i) != PartAt(b, i)
      ensures drift != []
    {
      assert Drift(i, PartAt(a, i), PartAt(b, i)) in drift;
    }
  }

  predicate Ended(parts: seq<string>) {
    parts != [] && (parts == [""] || parts[|parts| - 1] != "")
  }

  lemma SameLength(a: seq<string>, b: seq<string>)
    requires Ended(a) && Ended(b) && |a| < |b|
    ensures PartAt(a, |b| - 1) != PartAt(b, |b| - 1)
  {
  }

  lemma PartsDetermine(a: seq<string>, b: seq<string>)
    requires Ended(a) && Ended(b) && forall i: nat :: PartAt(a, i) == PartAt(b, i)
    ensures a == b
  {
    if |a| < |b| {
      SameLength(a, b);
      assert false;
    } else if |b| < |a| {
      SameLength(b, a);
      assert false;
    }
    forall i: nat | i < |a|
      ensures a[i] == b[i]
    {
      assert PartAt(a, i) == PartAt(b, i);
    }
  }

  lemma PartsEnded(s: string)
    requires s == "" || s[|s| - 1] != '/'
    ensures Ended(Parts(s))
  {
    LastPart(s);
  }

  /** The report lists exactly the components that differ, and for two different
      fingerprints it is empty exactly when they differ only in trailing slashes. */
  lemma DriftReported(observed: string, fitted: string)
    requires observed != fitted
    ensures var drift, a, b := Compared(Some(observed), Some(fitted)).drift, Parts(fitted), Parts(observed);
      && (forall d :: d in drift <==>
            d.index < Width(a, b) && d.fittedOn == PartAt(a, d.index) && d.observed == PartAt(b, d.index)
              && d.fittedOn != d.observed)
      && (drift == [] <==> WithoutSlashes(observed) == WithoutSlashes(fitted))
  {
    var a, b := Parts(fitted), Parts(observed);
    DriftLists(a, b, Width(a, b));
    DriftEmpty(a, b);
    forall i: nat
      ensures PartAt(a, i) == PartAt(Parts(WithoutSlashes(fitted)), i)
      ensures PartAt(b, i) == PartAt(Parts(WithoutSlashes(observed)), i)
    {
      SlashesUnseen(fitted, i);
      SlashesUnseen(observed, i);
    }
    PartsEnded(WithoutSlashes(observed));
    PartsEnded(WithoutSlashes(fitted));
    PartsJoin(WithoutSlashes(observed));
    PartsJoin(WithoutSlashes(fitted));
    hide Parts, Joined, DriftUpTo, Width, PartAt, WithoutSlashes, Ended;
    if DriftUpTo(a, b, Width(a, b)) == [] {
      forall i: nat
        ensures PartAt(Parts(WithoutSlashes(observed)), i) == PartAt(Parts(WithoutSlashes(fitted)), i)
      {
        assert PartAt(a, i) == PartAt(b, i);
      }
      PartsDetermine(Parts(WithoutSlashes(observed)), Parts(WithoutSlashes(fitted)));
    }
  }

  lemma SlashIgnored(s: string)
    ensures WithoutSlashes(s + "/") == WithoutSlashes(s)
  {
    var t := s + "/";
    assert t[..|t| - 1] == s;
  }

  /** For every host: bounds fitted on its own fingerprint, stored with a trailing
      slash, mismatch with no component to show for it. */
  lemma TrailingSlashUnreported(facts: HostFacts)
    ensures var c := Compared(Some(FingerprintOf(facts)), Some(FingerprintOf(facts) + "/"));
      c.comparable && !c.matches && c.drift == []
  {
    hide FingerprintOf, WithoutSlashes, DriftUpTo;
    var observed := FingerprintOf(facts);
    assert |observed + "/"| != |observed|;
    SlashIgnored(observed);
    DriftReported(observed, observed + "/");
  }

  // Records

  predicate Clears(r: Requalification, hostClass: string, fingerprint: string, fittedAt: Option<string>) {
    && fittedAt.Some? && fittedAt.value != ""
    && r.hostClass == hostClass && r.fingerprint == fingerprint && r.fittedAtCommit == fittedAt.value
    && r.cycles >= MIN_CYCLES
  }

  /** The latest matching record; among equally late ones the last recorded. */
  function Found(records: seq<Requalification>, hostClass: string, fingerprint: string, fittedAt: Option<string>)
    : Option<Requalification>
  {
    if records == [] then None
    else
      var n := |records| - 1;
      var earlier := Found(records[..n], hostClass, fingerprint, fittedAt);
      if !Clears(records[n], hostClass, fingerprint, fittedAt) then earlier
      else if earlier.Some? && Before(records[n].recordedAt, earlier.value.recordedAt) then earlier
      else Some(records[n])
  }

  /** A record is found exactly when one clears the gate, and no clearing record is later. */
  lemma {:induction false} FoundLatest(records: seq<Requalification>, hostClass: string, fingerprint: string,
                                       fittedAt: Option<string>)
    ensures var found := Found(records, hostClass, fingerprint, fittedAt);
      && (found.Some? <==> exists r | r in records :: Clears(r, hostClass, fingerprint, fittedAt))
      && (found.Some? ==>
            && found.value in records && Clears(found.value, hostClass, fingerprint, fittedAt)
            && forall r | r in records && Clears(r, hostClass, fingerprint, fittedAt) ::
              !Before(found.value.recordedAt, r.recordedAt))
  {
    if records != [] {
      var n := |records| - 1;
      FoundLatest(records[..n], hostClass, fingerprint, fittedAt);
      assert records == records[..n] + [records[n]];
      var earlier := Found(records[..n], hostClass, fingerprint, fittedAt);
      hide Clears, Before;
      if earlier.Some? {
        NotLater(records[..n], records[n], earlier.value, hostClass, fingerprint, fittedAt);
      }
      BeforeTrichotomy(records[n].recordedAt, records[n].recordedAt);
    }
  }

  lemma NotLater(records: seq<Requalification>, last: Requalification, best: Requalification,
                 hostClass: string, fingerprint: string, fittedAt: Option<string>)
    requires forall r | r in records && Clears(r, hostClass, fingerprint, fittedAt) ::
      !Before(best.recordedAt, r.recordedAt)
    ensures Before(last.recordedAt, best.recordedAt) ==> !Before(best.recordedAt, last.recordedAt)
    ensures !Before(last.recordedAt, best.recordedAt) ==>
      forall r | r in records && Clears(r, hostClass, fingerprint, fittedAt) :: !Before(last.recordedAt, r.recordedAt)
  {
    BeforeTrichotomy(last.recordedAt, best.recordedAt);
    if !Before(last.recordedAt, best.recordedAt) {
      forall r | r in records && Clears(r, hostClass, fingerprint, fittedAt)
        ensures !Before(last.recordedAt, r.recordedAt)
      {
        if Before(last.recordedAt, r.recordedAt) && last.recordedAt != best.recordedAt {
          BeforeTransitive(best.recordedAt, last.recordedAt, r.recordedAt);
        }
      }
    }
  }

  // Readiness

  datatype ReadinessReason =
    | HostNotObserved | NoFrozenBounds | FingerprintUnchanged | NotClassified | Requalified | NotComparable | Drifted

  datatype Readiness = Readiness(
    allowed: bool, reason: ReadinessReason, comparison: Comparison, requalification: Option<Requalification>)

  function ScoredReadiness(facts: Option<HostFacts>, fitted: Option<string>, resolved: bool, fittedAt: Option<string>,
                           records: seq<Requalification>): Readiness
  {
    if facts.None? then Readiness(false, HostNotObserved, Compared(None, fitted), None)
    else
      var observed := FingerprintOf(facts.value);
      var comparison := Compared(Some(observed), fitted);
      if !resolved then Readiness(false, NoFrozenBounds, comparison, None)
      else if comparison.matches then Readiness(true, FingerprintUnchanged, comparison, None)
      else if facts.value.classId.None? then Readiness(false, NotClassified, comparison, None)
      else
        var matched := Found(records, facts.value.classId.value, observed, fittedAt);
        if matched.Some? then Readiness(true, Requalified, comparison, matched)
        else Readiness(false, if comparison.comparable then Drifted else NotComparable, comparison, None)
  }

  /** A host may start scored trials exactly when its bounds resolved and its
      fingerprint is the fitted one, or a record clears its class, fingerprint and bounds. */
  lemma AllowedExactly(facts: Option<HostFacts>, fitted: Option<string>, resolved: bool, fittedAt: Option<string>,
                       records: seq<Requalification>)
    ensures ScoredReadiness(facts, fitted, resolved, fittedAt, records).allowed <==>
      && facts.Some? && resolved
      && (fitted == Some(FingerprintOf(facts.value))
          || (facts.value.classId.Some?
              && exists r | r in records :: Clears(r, facts.value.classId.value, FingerprintOf(facts.value), fittedAt)))
  {
    hide FingerprintOf, Clears, Found, DriftUpTo;
    if facts.Some? && facts.value.classId.Some? {
      FoundLatest(records, facts.value.classId.value, FingerprintOf(facts.value), fittedAt);
    }
  }
}

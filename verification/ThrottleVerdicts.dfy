/** What a fitted limit and a throttling verdict say of the readings they come from
    (cpu_limits.py, fit_limit and verdict_from_readings). */
module ThrottleVerdicts {
  import opened Numbers
  import opened Results
  import opened Text
  import opened CpuLimits

  /** `n` hundredths cover twice the peak and eight processors, and no fewer do. */
  predicate LeastHundredths(n: int, peak: real) {
    n as real >= 200.0 * peak && n >= 800 && ((n - 1) as real < 200.0 * peak || n - 1 < 800)
  }

  /** The limit is the least number of hundredths that is at least twice the peak and at
      least eight processors; a negative peak is refused. */
  lemma FitExactly(peak: real)
    ensures FitLimit(peak).Err? <==> peak < 0.0
    ensures FitLimit(peak).Ok? ==>
      exists n :: LeastHundredths(n, peak) && FitLimit(peak).value == n as real / 100.0
  {
    if peak >= 0.0 {
      var rule := if 2.0 * peak >= 8.0 then 2.0 * peak else 8.0;
      var n := Ceiling(rule * 100.0);
      assert LeastHundredths(n, peak);
    }
  }

  /** The entry of a service that was read at both ends: what its counters rose by, its
      quota at the end and what it was ever throttled. */
  predicate Shows(w: Window, e: Entry) {
    && e.service in w.before && e.service in w.after
    && var a, b := w.before[e.service], w.after[e.service];
       && a.periods + e.periods == b.periods && a.throttled + e.throttled == b.throttled
       && a.micros + e.micros == b.micros && e.quota == b.quota && e.cumulative == b.throttled
  }

  predicate Both(w: Window, names: seq<string>, name: string) {
    name in names && name in w.before && name in w.after
  }

  /** What a verdict lists of the services judged so far: those measured, those the
      scheduler never accounted, those ever throttled, and those not read. */
  ghost predicate Listed(w: Window, names: seq<string>, v: Verdict) {
    && (forall e :: e in v.services <==> e.service in names && Shows(w, e))
    && (forall n :: n in v.unmeasured <==> Both(w, names, n) && w.after[n].periods <= w.before[n].periods)
    && (forall n :: n in v.bound <==> Both(w, names, n) && w.after[n].throttled > 0)
    && (forall n :: Unread(n) in v.missing <==> n in names && (n !in w.before || n !in w.after))
  }

  /** The counters that fell and the quotas that are not the fitted ones. */
  ghost predicate AtFault(w: Window, names: seq<string>, v: Verdict) {
    && (forall n :: Decreased(n) in v.faults <==>
          Both(w, names, n)
          && (w.after[n].throttled < w.before[n].throttled || w.after[n].micros < w.before[n].micros))
    && (forall n :: QuotaDiffers(n) in v.faults <==>
          Both(w, names, n) && n in w.expected && !(w.before[n].quota == w.after[n].quota == Some(w.expected[n])))
    && (NothingExpected in v.faults <==> |w.expected| == 0)
  }

  lemma ListedNext(w: Window, names: seq<string>, v: Verdict, name: string)
    requires name in w.expected && Listed(w, names, v)
    ensures Listed(w, names + [name], NextVerdict(w, v, name))
  {
    hide QuotaOff, Falls;
    var next := NextVerdict(w, v, name);
    forall e
      ensures e in next.services <==> e.service in names + [name] && Shows(w, e)
    {
      if Read(w, name) {
        assert Shows(w, e) && e.service == name <==> e == EntryOf(w, name);
      }
    }
  }

  lemma AtFaultNext(w: Window, names: seq<string>, v: Verdict, name: string)
    requires name in w.expected && AtFault(w, names, v)
    ensures AtFault(w, names + [name], NextVerdict(w, v, name))
  {
    hide EntryOf, Idle, Throttled;
  }

  lemma {:induction false} JudgedOver(w: Window, names: seq<string>)
    requires forall n | n in names :: n in w.expected
    ensures Listed(w, names, VerdictOver(w, names)) && AtFault(w, names, VerdictOver(w, names))
    ensures forall n :: NotFitted(n) !in VerdictOver(w, names).missing
  {
    if names != [] {
      var k := |names| - 1;
      JudgedOver(w, names[..k]);
      hide Listed, AtFault;
      ListedNext(w, names[..k], VerdictOver(w, names[..k]), names[k]);
      AtFaultNext(w, names[..k], VerdictOver(w, names[..k]), names[k]);
      assert names[..k] + [names[k]] == names;
    }
  }

  /** Each list of a verdict, for any readings: the fitted services read at both ends
      with what their counters rose by, those the scheduler never accounted, those ever
      throttled, those not read or not fitted, and the counters and quotas at fault. */
  lemma VerdictExactly(w: Window)
    ensures var v, names := VerdictFor(w), SortedNames(w.expected.Keys);
      && Listed(w, names, v.(missing := VerdictOver(w, names).missing)) && AtFault(w, names, v)
      && (forall n :: n in names <==> n in w.expected)
      && (forall n :: Unread(n) in v.missing <==> n in w.expected && (n !in w.before || n !in w.after))
      && (forall n :: NotFitted(n) in v.missing <==> n in w.after && n !in w.expected)
  {
    var names, extra := SortedNames(w.expected.Keys), SortedNames(w.after.Keys - w.expected.Keys);
    hide VerdictOver;
    JudgedOver(w, names);
    UnfittedExactly(extra);
  }

  lemma UnfittedExactly(extra: seq<string>)
    ensures forall n :: NotFitted(n) in Unfitted(extra) <==> n in extra
    ensures forall n :: Unread(n) !in Unfitted(extra)
  {
    assert forall i | 0 <= i < |extra| :: Unfitted(extra)[i] == NotFitted(extra[i]);
  }
}

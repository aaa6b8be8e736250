/** Exactly which quota and counter texts are read, and as what (adjudication.py,
    _quota and _stat). */
module CounterTexts {
  import opened Results
  import opened Text
  import opened TextFields
  import opened CpuEvidence

  /** The text's two fields, apart from white space, are numerals of these numbers. */
  predicate TwoNumerals(text: string, a: nat, b: nat) {
    var fields := Words(text);
    |fields| == 2 && AllDigits(fields[0]) && AllDigits(fields[1]) && Value(fields[0]) == a && Value(fields[1]) == b
  }

  lemma QuotaExactly(text: string, q: Quota)
    ensures ParseQuota(text) == Ok(q) <==> TwoNumerals(text, q.micros, q.period) && q.micros >= 1 && q.period >= 1
  {
  }

  /** The line's two fields are a name and a numeral. */
  predicate IsCounter(line: string) {
    |Words(line)| == 2 && AllDigits(Words(line)[1])
  }

  function NameOn(line: string): string
    requires IsCounter(line)
  {
    Words(line)[0]
  }

  /** The line counts this much under this name. */
  predicate LineOf(line: string, name: string, n: nat) {
    IsCounter(line) && NameOn(line) == name && Value(Words(line)[1]) == n
  }

  /** Every line counts something, under a name of its own. */
  ghost predicate Countable(lines: seq<string>) {
    && (forall i | 0 <= i < |lines| :: IsCounter(lines[i]))
    && forall i, j | 0 <= i < j < |lines| :: NameOn(lines[i]) != NameOn(lines[j])
  }

  /** Some line counts this much under this name. */
  predicate Says(lines: seq<string>, name: string, n: nat) {
    exists i | 0 <= i < |lines| :: LineOf(lines[i], name, n)
  }

  /** The counters hold what the lines say. */
  ghost predicate Tabled(lines: seq<string>, m: Counters) {
    && (forall name :: name in m <==> exists i | 0 <= i < |lines| :: IsCounter(lines[i]) && NameOn(lines[i]) == name)
    && forall name, n | name in m :: m[name] == n <==> Says(lines, name, n)
  }

  lemma {:induction false} CountersExactly(lines: seq<string>)
    ensures ParseCounters(lines).Ok? <==> Countable(lines)
    ensures ParseCounters(lines).Ok? ==> Tabled(lines, ParseCounters(lines).value)
  {
    if lines != [] {
      var k := |lines| - 1;
      CountersExactly(lines[..k]);
      CountableNext(lines);
      hide Words, AllDigits, Value, Countable;
      if ParseCounters(lines[..k]).Ok? {
        TabledNext(lines, ParseCounters(lines[..k]).value);
      }
    }
  }

  lemma TabledNext(lines: seq<string>, m: Counters)
    requires lines != [] && Tabled(lines[..|lines| - 1], m) && Countable(lines[..|lines| - 1])
    ensures var last := lines[|lines| - 1];
      IsCounter(last) ==>
        && (NameOn(last) !in m <==>
              forall i | 0 <= i < |lines| - 1 && IsCounter(lines[i]) :: NameOn(lines[i]) != NameOn(last))
        && (NameOn(last) !in m ==> Tabled(lines, m[NameOn(last) := Value(Words(last)[1])]))
  {
    hide Words, AllDigits, Value, Countable;
    var k := |lines| - 1;
    assert forall i | 0 <= i < k :: lines[..k][i] == lines[i];
    forall name, n
      ensures Says(lines, name, n) <==> Says(lines[..k], name, n) || LineOf(lines[k], name, n)
      ensures Says(lines[..k], name, n) ==> exists i | 0 <= i < k :: IsCounter(lines[i]) && NameOn(lines[i]) == name
    {
      SaysNext(lines, name, n);
    }
  }

  lemma SaysNext(lines: seq<string>, name: string, n: nat)
    requires lines != []
    ensures var k := |lines| - 1;
      Says(lines, name, n) <==> Says(lines[..k], name, n) || LineOf(lines[k], name, n)
  {
    hide LineOf;
    var k := |lines| - 1;
    assert forall i | 0 <= i < k :: lines[..k][i] == lines[i];
  }

  lemma CountableNext(lines: seq<string>)
    requires lines != []
    ensures var k := |lines| - 1;
      Countable(lines) <==>
        && Countable(lines[..k]) && IsCounter(lines[k])
        && forall i | 0 <= i < k && IsCounter(lines[i]) :: NameOn(lines[i]) != NameOn(lines[k])
  {
    hide IsCounter, Words;
    var k := |lines| - 1;
    assert forall i | 0 <= i < k :: lines[..k][i] == lines[i];
  }

  /** A counter text is read, and as these counts, exactly when it is not blank, each of
      its lines counts something under a name of its own, it has the three counters with
      these numbers, and no more periods were throttled than there were. */
  lemma StatExactly(text: string, c: CpuEvidence.Counts)
    ensures ParseStat(text) == Ok(c) <==>
      && (exists i | 0 <= i < |text| :: !IsSpace(text[i]))
      && Countable(Lines(text))
      && Says(Lines(text), "nr_periods", c.periods) && Says(Lines(text), "nr_throttled", c.throttled)
      && Says(Lines(text), "throttled_usec", c.micros)
      && c.throttled <= c.periods
  {
    hide Lines, Countable, Blank, Tabled, Says;
    BlankIsSpace(text);
    CountersExactly(Lines(text));
    var lines := Lines(text);
    if ParseCounters(lines).Ok? {
      var m := ParseCounters(lines).value;
      SaysIn(lines, m, "nr_periods", c.periods);
      SaysIn(lines, m, "nr_throttled", c.throttled);
      SaysIn(lines, m, "throttled_usec", c.micros);
      assert PERIODS == "nr_periods" && THROTTLED == "nr_throttled" && THROTTLED_MICROS == "throttled_usec";
    }
  }

  lemma SaysIn(lines: seq<string>, m: Counters, name: string, n: nat)
    requires Tabled(lines, m)
    ensures name in m && m[name] == n <==> Says(lines, name, n)
  {
    hide Words, AllDigits, Value;
  }
}

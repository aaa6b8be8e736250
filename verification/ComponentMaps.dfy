/** The fixture's table from arm-local component names to canonical names
    (submit_tool.py, ComponentMap). */
module ComponentMaps {
  import opened Results
  import opened Text

  type Aliases = map<string, string>

  /** Names are compared without outer white space and without case. */
  function NormalKey(name: string): string {
    Lower(Strip(name))
  }

  function AliasEntries(raw: seq<(string, string)>): set<(string, string)> {
    set p | p in raw :: (NormalKey(p.0), Strip(p.1))
  }

  /** Every canonical name must resolve to itself. */
  function SelfEntries(raw: seq<(string, string)>): set<(string, string)> {
    set p | p in raw :: (Lower(Strip(p.1)), Strip(p.1))
  }

  function Entries(raw: seq<(string, string)>): set<(string, string)> {
    AliasEntries(raw) + SelfEntries(raw)
  }

  predicate Functional(entries: set<(string, string)>) {
    forall e, f | e in entries && f in entries && e.0 == f.0 :: e.1 == f.1
  }

  /** The tables the fixture may declare: some entry, no blank name, and one
      meaning for every normalised name once canonical names stand for themselves. */
  predicate Buildable(raw: seq<(string, string)>) {
    && raw != []
    && (forall p | p in raw :: !Blank(p.0) && !Blank(p.1))
    && Functional(Entries(raw))
  }

  /** The map whose key-value pairs are exactly the entries. */
  ghost predicate Graph(m: Aliases, entries: set<(string, string)>) {
    forall k, v :: (k, v) in entries <==> k in m && m[k] == v
  }

  function Table(raw: seq<(string, string)>): (m: Aliases)
    requires Buildable(raw)
    ensures Graph(m, Entries(raw))
  {
    map e | e in Entries(raw) :: e.0 := e.1
  }

  /** Construction in two passes over a dictionary, as the source does it. */
  method Construct(raw: seq<(string, string)>) returns (r: Result<Aliases>)
    ensures r.Ok? <==> Buildable(raw)
    ensures r.Ok? ==> r.value == Table(raw)
  {
    if raw == [] {
      return Err;
    }
    r := AddAliases(raw);
    if r.Ok? {
      ValuesOf(raw, r.value);
      r := AddCanonicalNames(r.value, AliasEntries(raw), Entries(raw));
      if r.Ok? {
        SameGraph(r.value, Table(raw), Entries(raw));
      }
    }
  }

  method AddAliases(raw: seq<(string, string)>) returns (r: Result<Aliases>)
    ensures r.Ok? ==> (forall p | p in raw :: !Blank(p.0) && !Blank(p.1)) && Graph(r.value, AliasEntries(raw))
    ensures r.Err? ==> !Buildable(raw)
  {
    var aliases: Aliases := map[];
    for i := 0 to |raw|
      invariant forall p | p in raw[..i] :: !Blank(p.0) && !Blank(p.1)
      invariant Graph(aliases, AliasEntries(raw[..i]))
    {
      var key, value := NormalKey(raw[i].0), Strip(raw[i].1);
      assert raw[..i + 1] == raw[..i] + [raw[i]];
      assert AliasEntries(raw[..i + 1]) == AliasEntries(raw[..i]) + {(key, value)};
      if key == "" || value == "" {
        return Err;
      }
      if key in aliases && aliases[key] != value {
        Clash(aliases, AliasEntries(raw[..i]), key, value, Entries(raw));
        return Err;
      }
      Extend(aliases, AliasEntries(raw[..i]), key, value);
      aliases := aliases[key := value];
    }
    assert raw[..|raw|] == raw;
    return Ok(aliases);
  }

  method AddCanonicalNames(start: Aliases, ghost entries: set<(string, string)>, ghost all: set<(string, string)>)
    returns (r: Result<Aliases>)
    requires Graph(start, entries) && entries <= all
    requires forall v | v in start.Values :: (Lower(v), v) in all
    requires forall e | e in all :: e in entries || (e.1 in start.Values && e.0 == Lower(e.1))
    ensures r.Ok? <==> Functional(all)
    ensures r.Ok? ==> Graph(r.value, all)
  {
    var aliases, pending := start, start.Values;
    ghost var entered := entries;
    while pending != {}
      invariant Graph(aliases, entered) && entered <= all
      invariant pending <= start.Values
      invariant forall e | e in all :: e in entered || (e.1 in pending && e.0 == Lower(e.1))
    {
      var canonical :| canonical in pending;
      var key := Lower(canonical);
      if key in aliases && aliases[key] != canonical {
        Clash(aliases, entered, key, canonical, all);
        return Err;
      }
      Extend(aliases, entered, key, canonical);
      aliases := aliases[key := canonical];
      entered := entered + {(key, canonical)};
      pending := pending - {canonical};
    }
    assert entered == all;
    GraphFunctional(aliases, all);
    return Ok(aliases);
  }

  lemma Extend(m: Aliases, entries: set<(string, string)>, key: string, value: string)
    requires Graph(m, entries) && (key in m ==> m[key] == value)
    ensures Graph(m[key := value], entries + {(key, value)})
  {
  }

  lemma Clash(m: Aliases, entries: set<(string, string)>, key: string, value: string,
              all: set<(string, string)>)
    requires Graph(m, entries) && entries <= all && (key, value) in all
    requires key in m && m[key] != value
    ensures !Functional(all)
  {
    assert (key, m[key]) in all;
  }

  lemma ValuesOf(raw: seq<(string, string)>, m: Aliases)
    requires Graph(m, AliasEntries(raw))
    ensures forall v | v in m.Values :: (Lower(v), v) in Entries(raw)
    ensures forall e | e in Entries(raw) :: e in AliasEntries(raw) || (e.1 in m.Values && e.0 == Lower(e.1))
  {
    forall k | k in m
      ensures (Lower(m[k]), m[k]) in Entries(raw)
    {
      assert (k, m[k]) in AliasEntries(raw);
      var p :| p in raw && m[k] == Strip(p.1);
    }
    forall p | p in raw
      ensures Strip(p.1) in m.Values
    {
      assert (NormalKey(p.0), Strip(p.1)) in AliasEntries(raw);
      assert NormalKey(p.0) in m;
    }
  }

  lemma GraphFunctional(m: Aliases, entries: set<(string, string)>)
    requires Graph(m, entries)
    ensures Functional(entries)
  {
  }

  lemma SameGraph(m: Aliases, n: Aliases, entries: set<(string, string)>)
    requires Graph(m, entries) && Graph(n, entries)
    ensures m == n
  {
    forall k
      ensures k in m <==> k in n
      ensures k in m ==> m[k] == n[k]
    {
      if k in m {
        assert (k, m[k]) in entries;
      }
      if k in n {
        assert (k, n[k]) in entries;
      }
    }
  }

  /** The canonical name of a submitted name; an unknown name is rejected. */
  function Canonical(aliases: Aliases, name: string): Result<string> {
    var key := NormalKey(name);
    if key in aliases then Ok(aliases[key])
    else Err
  }

  /** Neither success nor the resulting table depends on the order of the entries. */
  lemma OrderIndependent(raw: seq<(string, string)>, shuffled: seq<(string, string)>)
    requires multiset(raw) == multiset(shuffled)
    ensures Buildable(raw) <==> Buildable(shuffled)
    ensures Buildable(raw) ==> Table(raw) == Table(shuffled)
  {
    assert forall p :: p in raw <==> p in multiset(raw);
    assert forall p :: p in shuffled <==> p in multiset(shuffled);
    assert Entries(raw) == Entries(shuffled);
    assert raw == [] <==> |multiset(raw)| == 0;
    if Buildable(raw) {
      SameGraph(Table(raw), Table(shuffled), Entries(raw));
    }
  }

  /** A name that some input resolves to: stripped, not blank, resolving to itself. */
  predicate CanonicalName(aliases: Aliases, name: string) {
    && Strip(name) == name && name != ""
    && Lower(name) in aliases && aliases[Lower(name)] == name
  }

  /** Whatever a name resolves to resolves to itself. */
  ghost predicate SelfResolving(aliases: Aliases) {
    forall k | k in aliases :: CanonicalName(aliases, aliases[k])
  }

  lemma TableSelfResolving(raw: seq<(string, string)>)
    requires Buildable(raw)
    ensures SelfResolving(Table(raw))
  {
    var m := Table(raw);
    forall k | k in m
      ensures CanonicalName(m, m[k])
    {
      assert (k, m[k]) in Entries(raw);
      var p :| p in raw && m[k] == Strip(p.1);
      assert (Lower(m[k]), m[k]) in Entries(raw);
    }
  }

  /** Resolving twice is resolving once. */
  lemma CanonicalIdempotent(raw: seq<(string, string)>, name: string)
    requires Buildable(raw) && Canonical(Table(raw), name).Ok?
    ensures var c := Canonical(Table(raw), name).value; Canonical(Table(raw), c) == Ok(c)
  {
    TableSelfResolving(raw);
  }

  /** Two canonical names that differ only in case are the same name. */
  lemma CanonicalNamesDistinct(raw: seq<(string, string)>, a: string, b: string)
    requires Buildable(raw) && a in Table(raw).Values && b in Table(raw).Values
    requires Lower(a) == Lower(b)
    ensures a == b
  {
    var m := Table(raw);
    var x :| x in m && m[x] == a;
    var y :| y in m && m[y] == b;
    assert (x, a) in Entries(raw) && (y, b) in Entries(raw);
    assert (Lower(a), a) in Entries(raw) && (Lower(b), b) in Entries(raw);
  }

  /** The identity table over names that are canonical in some table. */
  function SelfMap(names: seq<string>): seq<(string, string)> {
    seq(|names|, i requires 0 <= i < |names| => (names[i], names[i]))
  }

  lemma SelfMapResolves(aliases: Aliases, names: seq<string>)
    requires names != [] && forall n | n in names :: CanonicalName(aliases, n)
    ensures Buildable(SelfMap(names))
    ensures forall n | n in names :: Canonical(Table(SelfMap(names)), n) == Ok(n)
  {
    var raw := SelfMap(names);
    forall p | p in raw
      ensures p.0 == p.1 && p.0 in names
    {
    }
    forall e | e in Entries(raw)
      ensures e.1 in names && e.0 == Lower(e.1)
    {
    }
    forall n | n in names
      ensures (Lower(n), n) in Entries(raw)
    {
      var i :| 0 <= i < |names| && names[i] == n;
      assert raw[i] in raw && raw[i] == (n, n);
    }
    assert Functional(Entries(raw));
    forall n | n in names
      ensures Canonical(Table(raw), n) == Ok(n)
    {
      assert (Lower(n), n) in Entries(raw);
    }
  }
}

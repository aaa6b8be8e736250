/** Facts about sequences that several modules share. */
module Sequences {

  ghost predicate Distinct<T>(s: seq<T>) {
    forall i, j | 0 <= i < j < |s| :: s[i] != s[j]
  }

  function Members<T>(s: seq<T>): set<T> {
    set x | x in s
  }

  lemma DistinctSnoc<T>(s: seq<T>)
    requires s != [] && Distinct(s)
    ensures Distinct(s[..|s| - 1]) && s[|s| - 1] !in s[..|s| - 1]
    ensures Members(s) == Members(s[..|s| - 1]) + {s[|s| - 1]}
  {
    assert s == s[..|s| - 1] + [s[|s| - 1]];
  }

  function Without<T>(s: seq<T>, i: nat): seq<T>
    requires i < |s|
  {
    s[..i] + s[i + 1..]
  }

  lemma WithoutSplit<T>(s: seq<T>, i: nat)
    requires i < |s|
    ensures s == s[..i] + ([s[i]] + s[i + 1..]) && Without(s, i) == s[..i] + s[i + 1..]
  {
  }

  lemma WithoutMiddle<T>(a: seq<T>, x: T, b: seq<T>)
    ensures Without(a + ([x] + b), |a|) == a + b && |a| < |a + ([x] + b)|
  {
  }

  lemma WithoutInConcat<T>(a: seq<T>, b: seq<T>, p: nat)
    ensures p < |a| ==> Without(a + b, p) == Without(a, p) + b
    ensures p < |b| ==> Without(a + b, |a| + p) == a + Without(b, p)
  {
  }

  lemma WithoutMultiset<T>(s: seq<T>, i: nat)
    requires i < |s|
    ensures multiset(Without(s, i)) == multiset(s) - multiset{s[i]}
  {
    assert s == s[..i] + ([s[i]] + s[i + 1..]);
  }

  lemma {:induction false} DistinctCount<T>(s: seq<T>, x: T)
    requires Distinct(s)
    ensures multiset(s)[x] == if x in s then 1 else 0
  {
    if s != [] {
      var n := |s| - 1;
      DistinctSnoc(s);
      DistinctCount(s[..n], x);
      assert s == s[..n] + [s[n]];
    }
  }

  /** Two lists without repetition and with the same members are permutations of each other. */
  lemma DistinctPermutation<T>(a: seq<T>, b: seq<T>)
    requires Distinct(a) && Distinct(b)
    requires forall x :: x in a <==> x in b
    ensures multiset(a) == multiset(b)
  {
    forall x
      ensures multiset(a)[x] == multiset(b)[x]
    {
      DistinctCount(a, x);
      DistinctCount(b, x);
    }
  }

  // Counting

  function Count<T>(s: seq<T>, p: T -> bool): (n: nat)
    ensures n <= |s|
  {
    if s == [] then 0 else Count(s[..|s| - 1], p) + if p(s[|s| - 1]) then 1 else 0
  }

  lemma {:induction false} CountConcat<T>(a: seq<T>, b: seq<T>, p: T -> bool)
    ensures Count(a + b, p) == Count(a, p) + Count(b, p)
  {
    if b == [] {
      assert a + b == a;
    } else {
      assert (a + b)[..|a + b| - 1] == a + b[..|b| - 1];
      CountConcat(a, b[..|b| - 1], p);
    }
  }

  /** The count is the number of positions at which the predicate holds. */
  lemma {:induction false} CountMeaning<T>(s: seq<T>, p: T -> bool)
    ensures Count(s, p) == |set i | 0 <= i < |s| && p(s[i])|
  {
    if s != [] {
      var n := |s| - 1;
      CountMeaning(s[..n], p);
      var before := set i | 0 <= i < n && p(s[..n][i]);
      assert (set i | 0 <= i < |s| && p(s[i])) == before + if p(s[n]) then {n} else {};
    }
  }

  lemma CountIndices<T>(s: seq<T>, p: T -> bool, indices: set<int>)
    requires forall i :: i in indices <==> 0 <= i < |s| && p(s[i])
    ensures Count(s, p) == |indices|
  {
    CountMeaning(s, p);
    assert indices == set i | 0 <= i < |s| && p(s[i]);
  }

  lemma {:induction false} CountAll<T>(s: seq<T>, p: T -> bool)
    ensures (forall i | 0 <= i < |s| :: p(s[i])) ==> Count(s, p) == |s|
    ensures (forall i | 0 <= i < |s| :: !p(s[i])) ==> Count(s, p) == 0
  {
    if s != [] {
      CountAll(s[..|s| - 1], p);
    }
  }

  lemma {:induction false} CountImplies<T>(s: seq<T>, p: T -> bool, q: T -> bool)
    requires forall i | 0 <= i < |s| && p(s[i]) :: q(s[i])
    ensures Count(s, p) <= Count(s, q)
  {
    if s != [] {
      CountImplies(s[..|s| - 1], p, q);
    }
  }

  lemma {:induction false} CountNot<T>(s: seq<T>, p: T -> bool, q: T -> bool)
    requires forall i | 0 <= i < |s| :: p(s[i]) <==> !q(s[i])
    ensures Count(s, p) + Count(s, q) == |s|
  {
    if s != [] {
      CountNot(s[..|s| - 1], p, q);
    }
  }

  lemma CountWithout<T>(s: seq<T>, j: nat, p: T -> bool)
    requires j < |s|
    ensures Count(s, p) == Count(Without(s, j), p) + if p(s[j]) then 1 else 0
  {
    CountOne(s[j], p);
    hide Count, Without;
    WithoutSplit(s, j);
    CountConcat(s[..j], s[j + 1..], p);
    CountConcat(s[..j], [s[j]] + s[j + 1..], p);
    CountConcat([s[j]], s[j + 1..], p);
  }

  lemma CountOne<T>(x: T, p: T -> bool)
    ensures Count([x], p) == if p(x) then 1 else 0
  {
    assert [x][..0] == [];
  }

  lemma SomewhereElse<T>(a: seq<T>, b: seq<T>) returns (j: nat)
    requires a != [] && multiset(a) == multiset(b)
    ensures j < |b| && b[j] == a[|a| - 1]
    ensures multiset(a[..|a| - 1]) == multiset(Without(b, j))
  {
    assert a[|a| - 1] in multiset(b);
    j :| 0 <= j < |b| && b[j] == a[|a| - 1];
    assert a == a[..|a| - 1] + [a[|a| - 1]];
    WithoutMultiset(b, j);
  }

  /** Counting does not depend on the order. */
  lemma {:induction false} CountPermutation<T>(a: seq<T>, b: seq<T>, p: T -> bool)
    requires multiset(a) == multiset(b)
    ensures Count(a, p) == Count(b, p)
    decreases |a|
  {
    if a != [] {
      hide Without;
      var j := SomewhereElse(a, b);
      CountPermutation(a[..|a| - 1], Without(b, j), p);
      CountWithout(b, j, p);
    } else {
      assert |multiset(b)| == |b|;
    }
  }
}

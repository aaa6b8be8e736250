/** The text operations the harness relies on: stripping, ASCII lower case,
    public identifiers, code-point order and zero-padded decimals. */
module Text {

  /** The characters `str.strip` removes. */
  predicate IsSpace(c: char) {
    || '\t' <= c <= '\r'
    || '\U{1C}' <= c <= '\U{20}'
    || c == '\U{85}' || c == '\U{A0}' || c == '\U{1680}'
    || '\U{2000}' <= c <= '\U{200A}'
    || c == '\U{2028}' || c == '\U{2029}' || c == '\U{202F}' || c == '\U{205F}' || c == '\U{3000}'
  }

  function DropSpace(s: string): (r: string)
    ensures r == "" || (!IsSpace(r[0]) && !IsSpace(r[|r| - 1]))
  {
    if s == "" then ""
    else if IsSpace(s[0]) then DropSpace(s[1..])
    else if IsSpace(s[|s| - 1]) then DropSpace(s[..|s| - 1])
    else s
  }

  /** `str.strip()`: stripping again changes nothing. */
  function Strip(s: string): (r: string)
    ensures DropSpace(r) == r
  {
    DropSpace(s)
  }

  /** `not s.strip()`. */
  predicate Blank(s: string) {
    Strip(s) == ""
  }

  /** Only white space strips to nothing. */
  lemma {:induction false} BlankIsSpace(s: string)
    ensures Blank(s) <==> forall i | 0 <= i < |s| :: IsSpace(s[i])
  {
    if s == "" {
    } else if IsSpace(s[0]) {
      BlankIsSpace(s[1..]);
      assert forall i | 1 <= i < |s| :: s[i] == s[1..][i - 1];
    } else if IsSpace(s[|s| - 1]) {
      BlankIsSpace(s[..|s| - 1]);
    }
  }

  /** What is left of a text between its outer white space. */
  ghost predicate Between(s: string, t: string, i: nat, j: nat) {
    && i <= j <= |s| && t == s[i..j]
    && (forall k | 0 <= k < i :: IsSpace(s[k])) && (forall k | j <= k < |s| :: IsSpace(s[k]))
  }

  ghost predicate Trimmed(s: string, t: string) {
    && t != "" && !IsSpace(t[0]) && !IsSpace(t[|t| - 1])
    && exists i: nat, j: nat :: Between(s, t, i, j)
  }

  lemma TrimmedTail(s: string, t: string)
    requires s != "" && IsSpace(s[0])
    ensures Trimmed(s, t) <==> Trimmed(s[1..], t)
  {
    hide IsSpace;
    assert forall i: nat, j: nat | Between(s[1..], t, i, j) :: Between(s, t, i + 1, j + 1);
    assert forall i: nat, j: nat | Between(s, t, i, j) && 0 < i && 0 < j :: Between(s[1..], t, i - 1, j - 1);
  }

  lemma TrimmedInit(s: string, t: string)
    requires s != "" && IsSpace(s[|s| - 1])
    ensures Trimmed(s, t) <==> Trimmed(s[..|s| - 1], t)
  {
    hide IsSpace;
    var n := |s| - 1;
    assert forall i: nat, j: nat | Between(s[..n], t, i, j) :: Between(s, t, i, j);
    assert forall i: nat, j: nat | Between(s, t, i, j) && j <= n :: Between(s[..n], t, i, j);
  }

  /** Stripping keeps exactly the part between the outer white space. */
  lemma {:induction false} StripExactly(s: string, t: string)
    ensures Trimmed(s, t) <==> t != "" && Strip(s) == t
    decreases |s|
  {
    hide IsSpace;
    if s != "" && IsSpace(s[0]) {
      StripExactly(s[1..], t);
      TrimmedTail(s, t);
    } else if s != "" && IsSpace(s[|s| - 1]) {
      StripExactly(s[..|s| - 1], t);
      TrimmedInit(s, t);
    } else {
      assert Between(s, s, 0, |s|);
    }
  }

  function LowerChar(c: char): char {
    if 'A' <= c <= 'Z' then (c as int + 32) as char else c
  }

  /** `str.lower()` on ASCII letters. */
  function Lower(s: string): string {
    if s == "" then "" else [LowerChar(s[0])] + Lower(s[1..])
  }

  /** Lower case changes the capital letters and nothing else. */
  lemma {:induction false} LowerExactly(s: string)
    ensures |Lower(s)| == |s|
    ensures forall i | 0 <= i < |s| ::
      Lower(s)[i] as int == s[i] as int + if 'A' <= s[i] <= 'Z' then 'a' as int - 'A' as int else 0
  {
    if s != "" {
      LowerExactly(s[1..]);
    }
  }

  predicate IsAlphanumeric(c: char) {
    'A' <= c <= 'Z' || 'a' <= c <= 'z' || '0' <= c <= '9'
  }

  /** The pattern `[A-Za-z0-9][A-Za-z0-9._/@:+-]*` of a public identifier. */
  predicate IsIdentifier(s: string) {
    && s != ""
    && IsAlphanumeric(s[0])
    && forall i | 0 <= i < |s| :: IsAlphanumeric(s[i]) || s[i] in "._/@:+-"
  }

  lemma IdentifierNotBlank(s: string)
    requires IsIdentifier(s)
    ensures !Blank(s)
  {
    BlankIsSpace(s);
  }

  /** Code-point order, as `sort_keys` and `sorted` use it. */
  predicate Before(a: string, b: string) {
    b != "" && (a == "" || a[0] < b[0] || (a[0] == b[0] && Before(a[1..], b[1..])))
  }

  lemma {:induction false} BeforeTrichotomy(a: string, b: string)
    ensures Before(a, b) || a == b || Before(b, a)
    ensures !(Before(a, b) && Before(b, a))
    ensures !Before(a, a)
  {
    if a != "" && b != "" && a[0] == b[0] {
      BeforeTrichotomy(a[1..], b[1..]);
      assert a == [a[0]] + a[1..] && b == [b[0]] + b[1..];
    }
    if a != "" {
      BeforeTrichotomy(a[1..], a[1..]);
    }
  }

  lemma {:induction false} BeforeTransitive(a: string, b: string, c: string)
    requires Before(a, b) && Before(b, c)
    ensures Before(a, c)
  {
    if a != "" && a[0] == b[0] && b[0] == c[0] {
      BeforeTransitive(a[1..], b[1..], c[1..]);
    }
  }

  /** A common prefix does not affect the order. */
  lemma {:induction false} BeforePrefix(p: string, a: string, b: string)
    ensures Before(p + a, p + b) <==> Before(a, b)
  {
    if p == "" {
      assert p + a == a && p + b == b;
    } else {
      assert (p + a)[1..] == p[1..] + a && (p + b)[1..] == p[1..] + b;
      BeforePrefix(p[1..], a, b);
    }
  }

  /** Strictly increasing, hence without repetition. */
  predicate Increasing(names: seq<string>) {
    forall i, j :: 0 <= i < j < |names| ==> Before(names[i], names[j])
  }

  /** Two increasing lists with the same members are the same list. */
  lemma {:induction false} IncreasingUnique(a: seq<string>, b: seq<string>)
    requires Increasing(a) && Increasing(b)
    requires forall x :: x in a <==> x in b
    ensures a == b
  {
    assert a != [] ==> a[0] in a;
    assert b != [] ==> b[0] in b;
    if a != [] && b != [] {
      var i :| 0 <= i < |b| && b[i] == a[0];
      var j :| 0 <= j < |a| && a[j] == b[0];
      assert i == 0 || Before(b[0], a[0]);
      assert j == 0 || Before(a[0], b[0]);
      BeforeTrichotomy(a[0], b[0]);
      forall x
        ensures x in a[1..] <==> x in b[1..]
      {
        TailMember(a, x);
        TailMember(b, x);
      }
      IncreasingUnique(a[1..], b[1..]);
      assert a == [a[0]] + a[1..] && b == [b[0]] + b[1..];
    }
  }

  lemma TailMember(a: seq<string>, x: string)
    requires Increasing(a) && a != []
    ensures x in a[1..] <==> x in a && x != a[0]
  {
    if x in a && x != a[0] {
      var i :| 0 <= i < |a| && a[i] == x;
      assert a[1..][i - 1] == x;
    }
    if x in a[1..] {
      var i :| 0 <= i < |a| - 1 && a[1..][i] == x;
      assert Before(a[0], a[i + 1]);
      BeforeTrichotomy(a[0], a[0]);
    }
  }

  predicate IsLeast(m: string, names: set<string>) {
    m in names && forall x | x in names :: x == m || Before(m, x)
  }

  lemma {:induction false} LeastExists(names: set<string>)
    requires names != {}
    ensures exists m :: IsLeast(m, names)
  {
    var y :| y in names;
    var rest := names - {y};
    if rest == {} {
      assert names == {y};
      assert IsLeast(y, names);
    } else {
      LeastExists(rest);
      var m :| IsLeast(m, rest);
      BeforeTrichotomy(m, y);
      LeastOfTwo(m, y, names);
    }
  }

  lemma LeastOfTwo(m: string, y: string, names: set<string>)
    requires y in names && IsLeast(m, names - {y}) && (Before(m, y) || Before(y, m))
    ensures IsLeast(m, names) || IsLeast(y, names)
  {
    if Before(y, m) {
      forall x | x in names
        ensures x == y || Before(y, x)
      {
        if x != y && x != m {
          assert x in names - {y};
          BeforeTransitive(y, m, x);
        }
      }
    } else {
      assert forall x | x in names :: x in names - {y} || x == y;
    }
  }

  lemma LeastUnique()
    ensures forall a, b :: Before(a, b) ==> a != b && !Before(b, a)
  {
    forall a, b | Before(a, b)
      ensures a != b && !Before(b, a)
    {
      BeforeTrichotomy(a, b);
    }
  }

  function Least(names: set<string>): (m: string)
    requires names != {}
    ensures IsLeast(m, names)
  {
    LeastExists(names);
    LeastUnique();
    var m :| IsLeast(m, names);
    m
  }

  /** `sorted(names)`. */
  function SortedNames(names: set<string>): (r: seq<string>)
    ensures Increasing(r)
    ensures forall x :: x in r <==> x in names
  {
    if names == {} then [] else
      var m := Least(names);
      [m] + SortedNames(names - {m})
  }

  // Decimal numerals

  function Digit(d: nat): (c: char)
    requires d < 10
    ensures '0' <= c <= '9'
  {
    (d + '0' as int) as char
  }

  predicate AllDigits(s: string) {
    forall i | 0 <= i < |s| :: '0' <= s[i] <= '9'
  }

  function Decimal(n: nat): (r: string)
    ensures r != "" && AllDigits(r)
  {
    if n < 10 then [Digit(n)] else Decimal(n / 10) + [Digit(n % 10)]
  }

  function Value(digits: string): nat
    requires AllDigits(digits)
  {
    if digits == "" then 0
    else Value(digits[..|digits| - 1]) * 10 + (digits[|digits| - 1] as int - '0' as int)
  }

  /** Reading a decimal numeral back gives the number. */
  lemma {:induction false} DecimalValue(n: nat)
    ensures Value(Decimal(n)) == n
    decreases n
  {
    if n >= 10 {
      DecimalValue(n / 10);
      var d := Decimal(n / 10);
      assert (d + [Digit(n % 10)])[..|d|] == d;
    }
  }
}

/** Names numbered with at least four digits, `f"{prefix}{index:04}"`, and how far
    their code-point order is their numeric order. */
module NumberedNames {
  import opened Text

  function Zeros(k: nat): (r: string)
    ensures |r| == k && AllDigits(r)
  {
    seq(k, i => '0')
  }

  function Padded(i: nat): (r: string)
    ensures AllDigits(r) && |r| >= 4
  {
    var d := Decimal(i);
    if |d| < 4 then Zeros(4 - |d|) + d else d
  }

  function Numbered(prefix: string, i: nat): string {
    prefix + Padded(i)
  }

  /** The names numbered 1 to `k`. */
  function Numberings(prefix: string, k: nat): (r: seq<string>)
    ensures |r| == k && forall i | 0 <= i < k :: r[i] == Numbered(prefix, i + 1)
  {
    seq(k, i requires 0 <= i < k => Numbered(prefix, i + 1))
  }

  lemma {:induction false} LeadingZeros(k: nat, digits: string)
    requires AllDigits(digits)
    ensures AllDigits(Zeros(k) + digits) && Value(Zeros(k) + digits) == Value(digits)
  {
    var s := Zeros(k) + digits;
    if digits != "" {
      assert s[..|s| - 1] == Zeros(k) + digits[..|digits| - 1];
      LeadingZeros(k, digits[..|digits| - 1]);
    } else if k > 0 {
      assert s[..|s| - 1] == Zeros(k - 1) + digits;
      LeadingZeros(k - 1, digits);
    }
  }

  lemma PaddedValue(i: nat)
    ensures Value(Padded(i)) == i
  {
    DecimalValue(i);
    var d := Decimal(i);
    if |d| < 4 {
      LeadingZeros(4 - |d|, d);
    }
  }

  lemma NumberedInjective(prefix: string, i: nat, j: nat)
    requires Numbered(prefix, i) == Numbered(prefix, j)
    ensures i == j
  {
    PaddedValue(i);
    PaddedValue(j);
    assert Numbered(prefix, i)[|prefix|..] == Padded(i);
    assert Numbered(prefix, j)[|prefix|..] == Padded(j);
  }

  /** A number has as many digits as it needs. */
  lemma {:induction false} DecimalWidth(i: nat)
    ensures |Decimal(i)| <= 4 <==> i <= 9999
  {
    WidthStep(i);
    WidthStep(i / 10);
    WidthStep(i / 10 / 10);
    WidthStep(i / 10 / 10 / 10);
  }

  lemma WidthStep(i: nat)
    ensures |Decimal(i)| == if i < 10 then 1 else 1 + |Decimal(i / 10)|
    ensures |Decimal(i)| >= 1
  {
  }

  /** For numerals of one length, code-point order is numeric order. */
  lemma {:induction false} NumericOrder(a: string, b: string)
    requires AllDigits(a) && AllDigits(b) && |a| == |b|
    ensures Value(a) == Value(b) ==> a == b
    ensures Value(a) < Value(b) ==> Before(a, b)
  {
    if a != "" {
      var n := |a| - 1;
      NumericOrder(a[..n], b[..n]);
      assert a == a[..n] + [a[n]] && b == b[..n] + [b[n]];
      if Value(a) < Value(b) && a[..n] != b[..n] {
        BeforeExtends(a[..n], b[..n], [a[n]], [b[n]]);
      } else if Value(a) < Value(b) {
        BeforePrefix(a[..n], [a[n]], [b[n]]);
      }
    }
  }

  lemma {:induction false} BeforeExtends(a: string, b: string, p: string, q: string)
    requires |a| == |b| && Before(a, b)
    ensures Before(a + p, b + q)
  {
    if a[0] == b[0] {
      BeforeExtends(a[1..], b[1..], p, q);
      assert (a + p)[1..] == a[1..] + p && (b + q)[1..] == b[1..] + q;
    }
  }

  lemma InOrderBelow(prefix: string, i: nat, j: nat)
    requires i < j <= 9999
    ensures Before(Numbered(prefix, i), Numbered(prefix, j))
  {
    DecimalWidth(i);
    DecimalWidth(j);
    PaddedValue(i);
    PaddedValue(j);
    NumericOrder(Padded(i), Padded(j));
    BeforePrefix(prefix, Padded(i), Padded(j));
  }

  /** The name numbered 10000 sorts before the one numbered 9999. */
  lemma OutOfOrder(prefix: string)
    ensures Before(Numbered(prefix, 10000), Numbered(prefix, 9999))
  {
    assert Padded(10000) == "10000" && Padded(9999) == "9999";
    BeforePrefix(prefix, "10000", "9999");
  }

  /** Padding to four digits keeps the names in order up to 9999 and no further. */
  lemma NumberingsIncreasing(prefix: string, k: nat)
    ensures Increasing(Numberings(prefix, k)) <==> k <= 9999
  {
    var names := Numberings(prefix, k);
    if k <= 9999 {
      forall i, j | 0 <= i < j < |names|
        ensures Before(names[i], names[j])
      {
        InOrderBelow(prefix, i + 1, j + 1);
      }
    } else {
      OutOfOrder(prefix);
      BeforeTrichotomy(names[9998], names[9999]);
    }
  }
}

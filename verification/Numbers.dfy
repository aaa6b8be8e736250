/** Numbers as JSON carries them, and `math.ceil`. */
module Numbers {
  ghost predicate IsRatio(x: real, p: int, q: int) {
    q > 0 && x * q as real == p as real
  }

  /** A JSON number is a decimal numeral, hence a ratio of integers. */
  ghost predicate IsRational(x: real) {
    exists p: int, q: int :: IsRatio(x, p, q)
  }

  lemma Ratio(p: int, q: int)
    requires q > 0
    ensures IsRational(p as real / q as real)
  {
    assert IsRatio(p as real / q as real, p, q);
  }

  lemma ZeroRational()
    ensures IsRational(0.0)
  {
    assert IsRatio(0.0, 0, 1);
  }

  type Number = x: real | IsRational(x) ghost witness (ZeroRational(); 0.0)

  function Ceiling(x: real): (r: int)
    ensures r as real >= x && r as real < x + 1.0
  {
    -((-x).Floor)
  }
}

/** The guarded percentage every DTO of the library computes: zero when
    the denominator is zero, otherwise `part / whole * 100`. */
module Ratio {

  function Percent(part: int, whole: int): (r: real)
    ensures whole == 0 ==> r == 0.0
    ensures whole != 0 ==> r * whole as real == part as real * 100.0
  {
    if whole == 0 then 0.0 else (part as real / whole as real) * 100.0
  }

  /** A part between zero and a positive whole gives a percentage between
      0 and 100, reaching 100 exactly when the part is the whole. */
  lemma PercentBounds(part: int, whole: int)
    requires 0 <= part <= whole
    ensures 0.0 <= Percent(part, whole) <= 100.0
    ensures whole > 0 ==> (Percent(part, whole) == 100.0 <==> part == whole)
  {
    if whole > 0 {
      var w := whole as real;
      var q := part as real / w;
      assert q * w == part as real;
      assert 0.0 <= q <= 1.0;
      assert q == 1.0 <==> part == whole;
    }
  }

  /** Percentages over one whole add as their parts do. */
  lemma PercentAdd(a: int, b: int, whole: int)
    ensures Percent(a + b, whole) == Percent(a, whole) + Percent(b, whole)
  {
    if whole != 0 {
      var w := whole as real;
      assert (a + b) as real / w == a as real / w + b as real / w;
    }
  }

  /** A larger part gives a larger-or-equal percentage of a positive whole. */
  lemma PercentMonotone(a: int, b: int, whole: int)
    requires a <= b && whole > 0
    ensures Percent(a, whole) <= Percent(b, whole)
  {
    var w := whole as real;
    assert a as real / w <= b as real / w;
  }

  /** A non-zero whole is 100 percent of itself. */
  lemma PercentWhole(whole: int)
    requires whole != 0
    ensures Percent(whole, whole) == 100.0
  {
    assert whole as real / whole as real == 1.0;
  }
}

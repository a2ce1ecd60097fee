/** Arithmetic on reals shared by the other modules.

    Non-linear terms carry names, so that a proof about long sums or products can hide what they
    mean and treat them as plain symbols. */
module Reals {

  function Min(a: real, b: real): real { if a < b then a else b }

  function Max(a: real, b: real): real { if a > b then a else b }

  function Times(x: real, y: real): real {
    x * y
  }

  /** By what factor the price moved. */
  ghost function Ratio(before: real, after: real): real
    requires before != 0.0
  {
    after / before
  }

  function Sum(s: seq<real>): real {
    if s == [] then 0.0 else Sum(s[..|s| - 1]) + s[|s| - 1]
  }

  function Mean(s: seq<real>): real
    requires s != []
  {
    Sum(s) / |s| as real
  }

  lemma MeanTimesLength(x: seq<real>)
    requires x != []
    ensures Times(Mean(x), |x| as real) == Sum(x) && Times(|x| as real, Mean(x)) == Sum(x)
  {
  }

  lemma Quotient(x: real, a: real, c: real)
    requires a != 0.0 && x * a == c
    ensures x == c / a
  {
  }

  lemma Associate(x: real, y: real, z: real)
    ensures Times(x, Times(y, z)) == Times(Times(x, y), z)
  {
  }

  lemma Unit(x: real)
    ensures Times(x, 1.0) == x
  {
  }

  lemma RatioSame(a: real)
    requires a != 0.0
    ensures Ratio(a, a) == 1.0
  {
    Quotient(1.0, a, a);
  }

  lemma RatioChain(a: real, b: real, c: real)
    requires a != 0.0 && b != 0.0
    ensures Times(Ratio(a, b), Ratio(b, c)) == Ratio(a, c)
  {
    var p, q := Ratio(a, b), Ratio(b, c);
    Associate(q, p, a);
    assert Times(p, a) == b && Times(q, b) == c;
    Quotient(Times(q, p), a, c);
  }

  lemma LessTimes(a: real, b: real, x: real)
    requires a <= b && 0.0 <= x
    ensures Times(a, x) <= Times(b, x) && Times(x, a) <= Times(x, b)
  {
  }

  lemma TimesBounds(a: real, b: real, c: real, x: real, y: real, z: real)
    requires 0.0 <= a <= b <= c && 0.0 <= x <= y <= z
    ensures 0.0 <= Times(a, x) <= Times(b, y) <= Times(c, z)
  {
    assert 0.0 == Times(0.0, x);
    hide Times;
    LessTimes(0.0, a, x);
    LessTimes(a, b, x);
    LessTimes(x, y, b);
    LessTimes(b, c, y);
    LessTimes(y, z, c);
  }

  lemma PositiveRatio(a: real, b: real)
    requires a > 0.0 && b > 0.0
    ensures Ratio(a, b) > 0.0
  {
    assert Ratio(a, b) * a == b;
  }

  lemma {:induction false} SumPrepend(x: real, s: seq<real>)
    ensures Sum([x] + s) == x + Sum(s)
  {
    if s == [] {
      assert [x] + s == [x];
      assert [x][..0] == [];
    } else {
      SumPrepend(x, s[..|s| - 1]);
      assert ([x] + s)[..|s|] == [x] + s[..|s| - 1];
    }
  }
}

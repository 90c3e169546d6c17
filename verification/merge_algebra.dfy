/** The merge operators shared by the race generator: Unity's clamped
    interpolation and the betweenness facts it guarantees. */
module MergeAlgebra {

  function Min(a: real, b: real): (r: real)
    ensures r <= a && r <= b
    ensures r == a || r == b
  {
    if a <= b then a else b
  }

  function Abs(x: real): (r: real)
    ensures r >= 0.0
    ensures r == 0.0 <==> x == 0.0
  {
    if x < 0.0 then -x else x
  }

  /** `x` lies in the closed interval spanned by `a` and `b`, in either order. */
  predicate Between(x: real, a: real, b: real)
  {
    (a <= x <= b) || (b <= x <= a)
  }

  /** `Mathf.Clamp01`. */
  function Clamp01(t: real): (r: real)
    ensures 0.0 <= r <= 1.0
    ensures 0.0 <= t <= 1.0 ==> r == t
  {
    if t < 0.0 then 0.0 else if t > 1.0 then 1.0 else t
  }

  /** `Mathf.Lerp(a, b, t)`: the parameter is clamped to [0, 1] first. */
  function Lerp(a: real, b: real, t: real): (r: real)
    ensures Between(r, a, b)
    ensures t <= 0.0 ==> r == a
    ensures t >= 1.0 ==> r == b
  {
    var c := Clamp01(t);
    LerpStaysBetween(a, b, c);
    a + (b - a) * c
  }

  lemma LerpStaysBetween(a: real, b: real, c: real)
    requires 0.0 <= c <= 1.0
    ensures Between(a + (b - a) * c, a, b)
  {
    var d := b - a;
    var m := if d >= 0.0 then d else -d;
    assert m * c >= 0.0 && m * (1.0 - c) >= 0.0;
    assert d * (1.0 - c) == d - d * c;
    if d < 0.0 {
      assert (-d) * c == -(d * c);
      assert (-d) * (1.0 - c) == -(d * (1.0 - c));
    }
  }

  /** Interpolating half way is the arithmetic mean. */
  lemma LerpHalfIsMean(a: real, b: real)
    ensures Lerp(a, b, 0.5) == (a + b) / 2.0
  {
  }
}

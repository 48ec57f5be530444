/** Vec2<T> of vector.hh, instantiated at the integers: a pair of
    components with componentwise operators, all taking their operands by
    value and building a fresh vector. */
module Vector {

  /** The union of vector.hh: `x`/`y`, `w`/`h` and `d[0]`/`d[1]` name the
      same two components, so the model keeps one pair and gives the other
      names as views of it. */
  datatype Vec2 = Vec2(x: int, y: int)
  {
    function w(): int { x }
    function h(): int { y }

    /** `d[i]`; any other index would read outside the union. */
    function D(i: int): int
      requires 0 <= i < 2
    {
      if i == 0 then x else y
    }
  }

  /** The three spellings of the union read the same components. */
  lemma UnionAliases(v: Vec2)
    ensures v.w() == v.x == v.D(0)
    ensures v.h() == v.y == v.D(1)
  {
  }

  /** operator== */
  function Eq(a: Vec2, b: Vec2): (r: bool)
  {
    a.x == b.x && a.y == b.y
  }

  /** operator!= */
  function Neq(a: Vec2, b: Vec2): (r: bool)
  {
    !Eq(a, b)
  }

  /** operator==, componentwise as written, is equality of vectors. */
  lemma EqIsEquality(a: Vec2, b: Vec2)
    ensures Eq(a, b) <==> a == b
  {
  }

  /** operator!= is exactly inequality of vectors. */
  lemma NeqIsInequality(a: Vec2, b: Vec2)
    ensures Neq(a, b) <==> a != b
    ensures Neq(a, b) != Eq(a, b)
  {
  }

  /** operator- */
  function Sub(a: Vec2, b: Vec2): (r: Vec2)
  {
    Vec2(a.x - b.x, a.y - b.y)
  }

  /** operator+ */
  function Add(a: Vec2, b: Vec2): (r: Vec2)
  {
    Vec2(a.x + b.x, a.y + b.y)
  }

  /** operator-=: both operands are copies, so it only returns the
      difference and its left operand is left as it was. */
  function SubAssign(a: Vec2, b: Vec2): (r: Vec2)
  {
    var res := Sub(a, b);
    res
  }

  /** Subtracting and adding back the same vector gives the start vector,
      in either order, and addition commutes. */
  lemma SubThenAdd(a: Vec2, b: Vec2)
    ensures Add(Sub(a, b), b) == a
    ensures Sub(Add(a, b), b) == a
    ensures Add(a, b) == Add(b, a)
  {
  }

  /** `a -= b` yields a - b. */
  lemma SubAssignIsSub(a: Vec2, b: Vec2)
    ensures SubAssign(a, b) == Sub(a, b)
    ensures Add(SubAssign(a, b), b) == a
  {
  }

  /** operator* of two vectors: componentwise product. */
  function Mul(a: Vec2, b: Vec2): (r: Vec2)
  {
    Vec2(a.x * b.x, a.y * b.y)
  }

  /** operator* of a vector and a scalar, with the factor on the left of
      each product. */
  function Scale(v: Vec2, factor: int): (r: Vec2)
  {
    Vec2(factor * v.x, factor * v.y)
  }

  /** The componentwise product commutes, and scaling is the product with
      the vector whose components are both the factor. */
  lemma MulCommutes(a: Vec2, b: Vec2)
    ensures Mul(a, b) == Mul(b, a)
  {
  }

  lemma ScaleIsMulBySplat(v: Vec2, factor: int)
    ensures Scale(v, factor) == Mul(v, Vec2(factor, factor))
    ensures Scale(v, factor) == Vec2(factor * v.x, factor * v.y)
  {
  }

  /** C's `/` on integers: the quotient with its fractional part discarded
      (rounded toward zero), so the remainder has the sign of the dividend
      and is smaller than the divisor in magnitude. */
  function CDiv(a: int, b: int): (q: int)
    requires b != 0
    ensures var rem := a - q * b;
      && (if b < 0 then -b else b) > (if rem < 0 then -rem else rem)
      && (rem == 0 || (rem < 0 <==> a < 0))
  {
    var m := if a < 0 then -a else a;
    var n := if b < 0 then -b else b;
    if (a < 0) == (b < 0) then m / n else -(m / n)
  }

  /** operator/ by a scalar: C integer division of each component. A zero
      factor is not allowed, as in C. */
  function Div(v: Vec2, factor: int): (r: Vec2)
    requires factor != 0
  {
    Vec2(CDiv(v.x, factor), CDiv(v.y, factor))
  }

  /** Only one quotient has the remainder C's `/` promises: it is exact on
      multiples, so dividing a scaled vector by the factor gives the vector
      back. */
  lemma CDivOfMultiple(k: int, factor: int)
    requires factor != 0
    ensures CDiv(factor * k, factor) == k
  {
    var q := CDiv(factor * k, factor);
    var d := k - q;
    var rem := factor * k - q * factor;
    assert rem == factor * d by {
      assert factor * k - q * factor == factor * (k - q);
    }
    if d != 0 {
      AtLeastOneMultiple(factor, d);
    }
  }

  /** A nonzero multiple of f is at least |f| in magnitude. */
  lemma AtLeastOneMultiple(f: int, d: int)
    requires f != 0 && d != 0
    ensures var p := f * d;
      (if p < 0 then -p else p) >= (if f < 0 then -f else f)
  {
    var af := if f < 0 then -f else f;
    var ad := if d < 0 then -d else d;
    assert (if f * d < 0 then -(f * d) else f * d) == af * ad;
    assert af * ad == af + af * (ad - 1);
  }

  lemma DivUndoesScale(v: Vec2, factor: int)
    requires factor != 0
    ensures Div(Scale(v, factor), factor) == v
  {
    CDivOfMultiple(v.x, factor);
    CDivOfMultiple(v.y, factor);
  }

  /** C's `/` is odd in its dividend: negating the dividend negates the
      quotient. Floor and Euclidean division both break this law
      (-3 / 2 is -2 for them, while 3 / 2 is 1). */
  lemma CDivNegates(a: int, b: int)
    requires b != 0
    ensures CDiv(-a, b) == -CDiv(a, b)
  {
    if a != 0 {
      var m := if a < 0 then -a else a;
      assert (if -a < 0 then a else -a) == m;
    }
  }

  /** So dividing the negated vector gives the negated quotient, for every
      vector and every nonzero factor. */
  lemma DivNegates(v: Vec2, factor: int)
    requires factor != 0
    ensures Div(Vec2(-v.x, -v.y), factor) == Vec2(-Div(v, factor).x, -Div(v, factor).y)
  {
    CDivNegates(v.x, factor);
    CDivNegates(v.y, factor);
  }

  /** C's `/` rounds toward zero, not down: a negative quotient is rounded
      up, unlike the Euclidean division of the integers. */
  lemma DivTruncates()
    ensures Div(Vec2(-3, 3), 2) == Vec2(-1, 1)
    ensures Div(Vec2(3, -3), -2) == Vec2(-1, 1)
    ensures (-3) / 2 == -2
  {
  }

  /** perpendicular: the vector turned a quarter turn counterclockwise. */
  function Perpendicular(a: Vec2): (r: Vec2)
  {
    Vec2(-a.y, a.x)
  }

  /** Two quarter turns negate a vector and four give it back. */
  lemma PerpendicularTwice(a: Vec2)
    ensures Perpendicular(Perpendicular(a)) == Vec2(-a.x, -a.y)
    ensures Perpendicular(Perpendicular(Perpendicular(Perpendicular(a)))) == a
  {
  }

  /** The turned vector is orthogonal to the original and has the same
      squared length. */
  lemma PerpendicularOrthogonal(a: Vec2)
    ensures var p := Perpendicular(a);
      && a.x * p.x + a.y * p.y == 0
      && p.x * p.x + p.y * p.y == a.x * a.x + a.y * a.y
  {
  }
}

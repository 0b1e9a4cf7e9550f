/** Vector arithmetic over hand landmarks as `HandDetector.detect_gesture`
    does it with its `vectorize`, `vector_magnitude` and `cos_angle` lambdas,
    and the exact integer form of every comparison the classifier makes on a
    cosine. */
module Geometry {

  /** A landmark `[idx, x, y]` as `detect_landmarks` builds it (`idx` is the
      anatomical index, `x` the pixel column, `y` the pixel row). The
      difference of two landmarks has the same three components. */
  datatype Triple = Triple(idx: int, x: int, y: int)

  const Zero := Triple(0, 0, 0)

  /** Componentwise sum; the inverse of `Vectorize`. */
  function Add(u: Triple, w: Triple): Triple {
    Triple(u.idx + w.idx, u.x + w.x, u.y + w.y)
  }

  /** `vectorize(u, v)`: the componentwise difference v - u, over all three
      components, the index included. */
  function Vectorize(u: Triple, v: Triple): (w: Triple)
    ensures Add(u, w) == v
    ensures w == Zero <==> u == v
  {
    Triple(v.idx - u.idx, v.x - u.x, v.y - u.y)
  }

  /** The dot product `np.dot(u, v)` of two integer triples. */
  function Dot(u: Triple, v: Triple): int {
    u.idx * v.idx + u.x * v.x + u.y * v.y
  }

  /** The squared magnitude `sum(dim**2 for dim in u)`. */
  function Norm2(u: Triple): (n: int)
    ensures n >= 0
    ensures n == 0 <==> u == Zero
  {
    SquarePositive(u.idx);
    SquarePositive(u.x);
    SquarePositive(u.y);
    u.idx * u.idx + u.x * u.x + u.y * u.y
  }

  lemma SquarePositive(k: int)
    ensures k * k >= 0
    ensures k != 0 ==> k * k > 0
  {
    if k < 0 {
      assert k * k == (-k) * (-k);
    }
  }

  /** `m` is the magnitude `vector_magnitude(u)` of a non-zero vector: the
      positive square root of its squared magnitude. */
  ghost predicate IsMagnitude(m: real, u: Triple) {
    m > 0.0 && m * m == Norm2(u) as real
  }

  /** `cos_angle(u, v)`, given the magnitudes of `u` and `v`. */
  function Cosine(u: Triple, v: Triple, mu: real, mv: real): real
    requires mu > 0.0 && mv > 0.0
  {
    Dot(u, v) as real / (mu * mv)
  }

  /** Integer form of `cos_angle(u, v) < 0`. With a zero vector the dot is
      zero, so the comparison fails, as it does on the NaN of 0/0. */
  predicate CosNegative(u: Triple, v: Triple) {
    Dot(u, v) < 0
  }

  /** Integer form of `cos_angle(u, v) > t`, for any real threshold `t`.
      With a zero vector both branches fail, as `nan > t` does. */
  predicate CosAbove(u: Triple, v: Triple, t: real) {
    var d := Dot(u, v);
    var n := (Norm2(u) * Norm2(v)) as real;
    if t >= 0.0 then d > 0 && (d * d) as real > t * t * n
    else u != Zero && v != Zero && (d >= 0 || (d * d) as real < t * t * n)
  }

  lemma DotWithZero(v: Triple)
    ensures Dot(Zero, v) == 0 && Dot(v, Zero) == 0
  {
    assert 0 * v.idx == 0 && 0 * v.x == 0 && 0 * v.y == 0;
    assert v.idx * 0 == 0 && v.x * 0 == 0 && v.y * 0 == 0;
  }

  /** A zero vector makes the cosine 0/0, NaN in the source, and every
      comparison on NaN is false: neither integer form holds. */
  lemma ZeroVectorComparesFalse(u: Triple, v: Triple, t: real)
    requires u == Zero || v == Zero
    ensures !CosNegative(u, v) && !CosAbove(u, v, t)
  {
    DotWithZero(u);
    DotWithZero(v);
  }

  lemma MulPositive(a: real, b: real)
    requires a > 0.0 && b > 0.0
    ensures a * b > 0.0
  {
  }

  lemma MulNonNegative(a: real, b: real)
    requires a >= 0.0 && b >= 0.0
    ensures a * b >= 0.0
  {
    if a > 0.0 && b > 0.0 {
      MulPositive(a, b);
    }
  }

  /** Multiplying both sides by a positive factor keeps a strict order. */
  lemma ScaleAbove(c: real, t: real, m: real)
    requires m > 0.0
    ensures c > t <==> c * m > t * m
  {
    if c > t {
      MulPositive(c - t, m);
    } else {
      MulNonNegative(t - c, m);
    }
  }

  /** For a non-negative bound, `a > b` is decided by signs and squares. */
  lemma AboveNonNegative(a: real, b: real)
    requires b >= 0.0
    ensures a > b <==> a > 0.0 && a * a > b * b
  {
    assert a * a - b * b == (a - b) * (a + b);
    if a > b {
      MulPositive(a - b, a + b);
    } else if a > 0.0 {
      MulNonNegative(b - a, b + a);
    }
  }

  /** For a negative bound, `a > b` holds for every non-negative `a` and for
      a negative `a` of smaller square. */
  lemma AboveNegative(a: real, b: real)
    requires b < 0.0
    ensures a > b <==> a >= 0.0 || a * a < b * b
  {
    if a < 0.0 {
      assert b * b - a * a == (a - b) * (-a - b);
      if a > b {
        MulPositive(a - b, -a - b);
      } else {
        MulNonNegative(b - a, -a - b);
      }
    }
  }

  /** The sign of the cosine is the sign of the integer dot product. */
  lemma CosineNegative(u: Triple, v: Triple, mu: real, mv: real)
    requires IsMagnitude(mu, u) && IsMagnitude(mv, v)
    ensures Cosine(u, v, mu, mv) < 0.0 <==> CosNegative(u, v)
  {
    var m := mu * mv;
    MulPositive(mu, mv);
    var c := Cosine(u, v, mu, mv);
    assert c * m == Dot(u, v) as real;
    ScaleAbove(0.0, c, m);
  }

  /** `d > t * m` decided by signs and squares, where `n` is the square of
      the positive factor `m`. */
  lemma AboveScaledBound(d: real, m: real, n: real, t: real)
    requires m > 0.0 && m * m == n
    ensures d > t * m <==>
      if t >= 0.0 then d > 0.0 && d * d > t * t * n
      else d >= 0.0 || d * d < t * t * n
  {
    assert (t * m) * (t * m) == t * t * n by {
      assert (t * m) * (t * m) == t * t * (m * m);
    }
    if t >= 0.0 {
      MulNonNegative(t, m);
      AboveNonNegative(d, t * m);
    } else {
      MulPositive(-t, m);
      AboveNegative(d, t * m);
    }
  }

  /** Dividing by a non-zero factor and multiplying back is the identity. */
  lemma DivMul(d: real, m: real)
    requires m != 0.0
    ensures (d / m) * m == d
  {
  }

  lemma SquareOfProduct(a: real, b: real)
    ensures (a * b) * (a * b) == (a * a) * (b * b)
  {
  }

  /** Integer products carry over to their real images. */
  lemma ProductAsReal(i: int, j: int)
    ensures (i * j) as real == i as real * j as real
  {
  }

  /** A vector with a magnitude is not the zero vector. */
  lemma MagnitudeNonZero(u: Triple, m: real)
    requires IsMagnitude(m, u)
    ensures u != Zero
  {
    SquareRootPositive(m, Norm2(u) as real);
  }

  lemma SquareRootPositive(m: real, r: real)
    requires m > 0.0 && m * m == r
    ensures r > 0.0
  {
    calc {
      r;
    ==
      m * m;
    >  // m is positive
      0.0 * m;
    }
  }

  /** For every threshold `t`, the cosine exceeds `t` exactly when the
      integer comparison `CosAbove` holds. */
  lemma CosineAbove(u: Triple, v: Triple, mu: real, mv: real, t: real)
    requires IsMagnitude(mu, u) && IsMagnitude(mv, v)
    ensures Cosine(u, v, mu, mv) > t <==> CosAbove(u, v, t)
  {
    var m := mu * mv;
    MulPositive(mu, mv);
    var dot := Dot(u, v);
    var d := dot as real;
    var c := Cosine(u, v, mu, mv);
    DivMul(d, m);
    ScaleAbove(c, t, m);
    var n := (Norm2(u) * Norm2(v)) as real;
    ProductAsReal(Norm2(u), Norm2(v));
    MagnitudeNonZero(u, mu);
    MagnitudeNonZero(v, mv);
    SquareOfProduct(mu, mv);
    ProductAsReal(dot, dot);
    AboveScaledBound(d, m, n, t);
  }
}

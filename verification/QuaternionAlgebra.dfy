/**
 The laws of the source's quaternion operators: an associative product with a multiplicative
 norm, whose conjugate reverses products and inverts unit quaternions; and what follows for
 rotating vectors.
 */
module QuaternionAlgebra {
  import opened DriverMath

  // ----- the product, component by component -----

  lemma Components(p: Quaternion, q: Quaternion)
    ensures Product(p, q).w == -p.x * q.x - p.y * q.y - p.z * q.z + p.w * q.w
    ensures Product(p, q).x == p.x * q.w + p.y * q.z - p.z * q.y + p.w * q.x
    ensures Product(p, q).y == -p.x * q.z + p.y * q.w + p.z * q.x + p.w * q.y
    ensures Product(p, q).z == p.x * q.y - p.y * q.x + p.z * q.w + p.w * q.z
  {}

  lemma SameComponents(p: Quaternion, q: Quaternion)
    requires p.w == q.w && p.x == q.x && p.y == q.y && p.z == q.z
    ensures p == q
  {}

  lemma AssociativeW(a: Quaternion, b: Quaternion, c: Quaternion)
    ensures Product(Product(a, b), c).w == Product(a, Product(b, c)).w
  {
    hide *;
    Components(a, b);
    Components(b, c);
    Components(Product(a, b), c);
    Components(a, Product(b, c));
  }

  lemma AssociativeX(a: Quaternion, b: Quaternion, c: Quaternion)
    ensures Product(Product(a, b), c).x == Product(a, Product(b, c)).x
  {
    hide *;
    Components(a, b);
    Components(b, c);
    Components(Product(a, b), c);
    Components(a, Product(b, c));
  }

  lemma AssociativeY(a: Quaternion, b: Quaternion, c: Quaternion)
    ensures Product(Product(a, b), c).y == Product(a, Product(b, c)).y
  {
    hide *;
    Components(a, b);
    Components(b, c);
    Components(Product(a, b), c);
    Components(a, Product(b, c));
  }

  lemma AssociativeZ(a: Quaternion, b: Quaternion, c: Quaternion)
    ensures Product(Product(a, b), c).z == Product(a, Product(b, c)).z
  {
    hide *;
    Components(a, b);
    Components(b, c);
    Components(Product(a, b), c);
    Components(a, Product(b, c));
  }

  lemma Associative(a: Quaternion, b: Quaternion, c: Quaternion)
    ensures Product(Product(a, b), c) == Product(a, Product(b, c))
  {
    hide *;
    AssociativeW(a, b, c);
    AssociativeX(a, b, c);
    AssociativeY(a, b, c);
    AssociativeZ(a, b, c);
    SameComponents(Product(Product(a, b), c), Product(a, Product(b, c)));
  }

  lemma ConjugateOfProduct(a: Quaternion, b: Quaternion)
    ensures Conjugate(Product(a, b)) == Product(Conjugate(b), Conjugate(a))
  {
    hide Product;
    assert (Conjugate(Product(a, b))).w == (Product(Conjugate(b), Conjugate(a))).w by { Components(a, b); Components(Conjugate(b), Conjugate(a)); }
    assert (Conjugate(Product(a, b))).x == (Product(Conjugate(b), Conjugate(a))).x by { Components(a, b); Components(Conjugate(b), Conjugate(a)); }
    assert (Conjugate(Product(a, b))).y == (Product(Conjugate(b), Conjugate(a))).y by { Components(a, b); Components(Conjugate(b), Conjugate(a)); }
    assert (Conjugate(Product(a, b))).z == (Product(Conjugate(b), Conjugate(a))).z by { Components(a, b); Components(Conjugate(b), Conjugate(a)); }
    SameComponents(Conjugate(Product(a, b)), Product(Conjugate(b), Conjugate(a)));
  }

  lemma NormOfConjugate(q: Quaternion)
    ensures NormSquared(Conjugate(q)) == NormSquared(q)
    ensures Conjugate(Conjugate(q)) == q
  {}

  /** A quaternion times its conjugate is its squared norm, as a real quaternion. */
  lemma ProductWithConjugate(q: Quaternion)
    ensures Product(q, Conjugate(q)) == Quaternion(NormSquared(q), 0.0, 0.0, 0.0)
    ensures Product(Conjugate(q), q) == Quaternion(NormSquared(q), 0.0, 0.0, 0.0)
  {}

  lemma ProductWithReal(k: real, q: Quaternion)
    ensures Product(Quaternion(k, 0.0, 0.0, 0.0), q) == Scale(k, q)
    ensures Product(q, Quaternion(k, 0.0, 0.0, 0.0)) == Scale(k, q)
  {}

  lemma ProductOfNegatedLeft(a: Quaternion, b: Quaternion)
    ensures Product(Negate(a), b) == Negate(Product(a, b))
  {
    hide Product;
    Components(a, b);
    Components(Negate(a), b);
    SameComponents(Product(Negate(a), b), Negate(Product(a, b)));
  }

  lemma ProductOfNegatedRight(a: Quaternion, b: Quaternion)
    ensures Product(a, Negate(b)) == Negate(Product(a, b))
  {
    hide Product;
    Components(a, b);
    Components(a, Negate(b));
    SameComponents(Product(a, Negate(b)), Negate(Product(a, b)));
  }

  lemma ProductOfNegated(a: Quaternion, b: Quaternion)
    ensures Product(Negate(a), b) == Negate(Product(a, b))
    ensures Product(a, Negate(b)) == Negate(Product(a, b))
  {
    hide *;
    ProductOfNegatedLeft(a, b);
    ProductOfNegatedRight(a, b);
  }

  /** q * (q' * p) is p times the squared norm of q, and the other way round. */
  lemma CancelConjugate(q: Quaternion, p: Quaternion)
    ensures Product(q, Product(Conjugate(q), p)) == Scale(NormSquared(q), p)
    ensures Product(Conjugate(q), Product(q, p)) == Scale(NormSquared(q), p)
  {
    hide *;
    Associative(q, Conjugate(q), p);
    Associative(Conjugate(q), q, p);
    ProductWithConjugate(q);
    ProductWithReal(NormSquared(q), p);
  }

  lemma CancelConjugateRight(p: Quaternion, q: Quaternion)
    ensures Product(Product(p, Conjugate(q)), q) == Scale(NormSquared(q), p)
    ensures Product(Product(p, q), Conjugate(q)) == Scale(NormSquared(q), p)
  {
    hide *;
    Associative(p, Conjugate(q), q);
    Associative(p, q, Conjugate(q));
    ProductWithConjugate(q);
    ProductWithReal(NormSquared(q), p);
  }

  lemma ScaleScale(j: real, k: real, q: Quaternion)
    ensures Scale(j, Scale(k, q)) == Scale(j * k, q)
  {}

  lemma ProductOfScaled(k: real, a: Quaternion, b: Quaternion)
    ensures Product(Scale(k, a), b) == Scale(k, Product(a, b))
    ensures Product(a, Scale(k, b)) == Scale(k, Product(a, b))
  {
    hide *;
    ProductWithReal(k, a);
    ProductWithReal(k, b);
    ProductWithReal(k, Product(a, b));
    var r := Quaternion(k, 0.0, 0.0, 0.0);
    Associative(r, a, b);
    Associative(a, b, r);
  }

  lemma ScaleOfReal(k: real, n: real)
    ensures Scale(k, Quaternion(n, 0.0, 0.0, 0.0)).w == n * k
  {}

  lemma NormOfProduct(a: Quaternion, b: Quaternion)
    ensures NormSquared(Product(a, b)) == NormSquared(a) * NormSquared(b)
  {
    hide *;
    var ab, n := Product(a, b), NormSquared(b);
    ProductWithConjugate(ab);
    ConjugateOfProduct(a, b);
    Associative(ab, Conjugate(b), Conjugate(a));
    CancelConjugateRight(a, b);
    ProductOfScaled(n, a, Conjugate(a));
    ProductWithConjugate(a);
    ScaleOfReal(n, NormSquared(a));
  }

  // ----- rotating vectors -----

  lemma SandwichIsPure(q: Quaternion, v: Vector3)
    ensures Product(Product(q, Pure(v)), Conjugate(q)).w == 0.0
  {
    hide Product;
    Components(q, Pure(v));
    Components(Product(q, Pure(v)), Conjugate(q));
  }

  /** Rotating is conjugation in the quaternions: nothing is lost by dropping the real part. */
  lemma RotateIsSandwich(v: Vector3, q: Quaternion)
    ensures Pure(Rotate(v, q)) == Product(Product(q, Pure(v)), Conjugate(q))
  {
    hide Product;
    SandwichIsPure(q, v);
  }

  lemma PureInjective(v: Vector3, u: Vector3)
    requires Pure(v) == Pure(u)
    ensures v == u
  {}

  lemma Sandwich(a: Quaternion, b: Quaternion, p: Quaternion)
    ensures Product(Product(Product(a, b), p), Conjugate(Product(a, b)))
         == Product(Product(a, Product(Product(b, p), Conjugate(b))), Conjugate(a))
  {
    hide *;
    var bp := Product(b, p);
    ConjugateOfProduct(a, b);
    Associative(a, b, p);
    Associative(Product(a, bp), Conjugate(b), Conjugate(a));
    Associative(a, bp, Conjugate(b));
  }

  lemma RotateByProduct(v: Vector3, a: Quaternion, b: Quaternion)
    ensures Rotate(v, Product(a, b)) == Rotate(Rotate(v, b), a)
  {
    hide *;
    RotateIsSandwich(v, Product(a, b));
    RotateIsSandwich(v, b);
    RotateIsSandwich(Rotate(v, b), a);
    Sandwich(a, b, Pure(v));
    PureInjective(Rotate(v, Product(a, b)), Rotate(Rotate(v, b), a));
  }

  function Square(a: real): real {
    a * a
  }

  lemma RealIsItsConjugate(k: real)
    ensures Conjugate(Quaternion(k, 0.0, 0.0, 0.0)) == Quaternion(k, 0.0, 0.0, 0.0)
  {}

  lemma ScaleOfPure(k: real, v: Vector3)
    ensures Scale(k, Pure(v)) == Pure(ScaleVector(k, v))
  {}

  lemma ScaleTwice(k: real, q: Quaternion)
    ensures Scale(k, Scale(k, q)) == Scale(Square(k), q)
  {
    ScaleScale(k, k, q);
  }

  lemma RotateByReal(v: Vector3, k: real)
    ensures Rotate(v, Quaternion(k, 0.0, 0.0, 0.0)) == ScaleVector(Square(k), v)
  {
    hide *;
    var r := Quaternion(k, 0.0, 0.0, 0.0);
    RealIsItsConjugate(k);
    RotateIsSandwich(v, r);
    ProductWithReal(k, Pure(v));
    ProductWithReal(k, Product(r, Pure(v)));
    ScaleTwice(k, Pure(v));
    ScaleOfPure(Square(k), v);
    PureInjective(Rotate(v, r), ScaleVector(Square(k), v));
  }

  /** Rotating back and forth scales by the fourth power of the norm. */
  lemma RotateThereAndBack(v: Vector3, q: Quaternion)
    ensures Rotate(Rotate(v, Conjugate(q)), q) == ScaleVector(Square(NormSquared(q)), v)
    ensures Rotate(Rotate(v, q), Conjugate(q)) == ScaleVector(Square(NormSquared(q)), v)
  {
    hide *;
    RotateByProduct(v, q, Conjugate(q));
    RotateByProduct(v, Conjugate(q), q);
    ProductWithConjugate(q);
    RotateByReal(v, NormSquared(q));
  }

  lemma RotateByNegated(v: Vector3, q: Quaternion)
    ensures Rotate(v, Negate(q)) == Rotate(v, q)
  {
    hide Product;
    ProductOfNegated(q, Pure(v));
    ProductOfNegated(Product(q, Pure(v)), Conjugate(q));
    ProductOfNegated(Negate(Product(q, Pure(v))), Conjugate(q));
    assert Conjugate(Negate(q)) == Negate(Conjugate(q));
    assert Negate(Negate(Product(Product(q, Pure(v)), Conjugate(q)))) == Product(Product(q, Pure(v)), Conjugate(q));
    ProductOfNegated(Product(q, Pure(v)), Negate(Conjugate(q)));
  }

  // ----- linearity of rotation -----

  function Sum(p: Quaternion, q: Quaternion): Quaternion {
    Quaternion(p.w + q.w, p.x + q.x, p.y + q.y, p.z + q.z)
  }

  lemma ProductOfSum(a: Quaternion, p: Quaternion, q: Quaternion)
    ensures Product(a, Sum(p, q)) == Sum(Product(a, p), Product(a, q))
  {
    hide Product;
    assert (Product(a, Sum(p, q))).w == (Sum(Product(a, p), Product(a, q))).w by { Components(a, p); Components(a, q); Components(a, Sum(p, q)); }
    assert (Product(a, Sum(p, q))).x == (Sum(Product(a, p), Product(a, q))).x by { Components(a, p); Components(a, q); Components(a, Sum(p, q)); }
    assert (Product(a, Sum(p, q))).y == (Sum(Product(a, p), Product(a, q))).y by { Components(a, p); Components(a, q); Components(a, Sum(p, q)); }
    assert (Product(a, Sum(p, q))).z == (Sum(Product(a, p), Product(a, q))).z by { Components(a, p); Components(a, q); Components(a, Sum(p, q)); }
    SameComponents(Product(a, Sum(p, q)), Sum(Product(a, p), Product(a, q)));
  }

  lemma SumProduct(p: Quaternion, q: Quaternion, a: Quaternion)
    ensures Product(Sum(p, q), a) == Sum(Product(p, a), Product(q, a))
  {
    hide Product;
    assert (Product(Sum(p, q), a)).w == (Sum(Product(p, a), Product(q, a))).w by { Components(p, a); Components(q, a); Components(Sum(p, q), a); }
    assert (Product(Sum(p, q), a)).x == (Sum(Product(p, a), Product(q, a))).x by { Components(p, a); Components(q, a); Components(Sum(p, q), a); }
    assert (Product(Sum(p, q), a)).y == (Sum(Product(p, a), Product(q, a))).y by { Components(p, a); Components(q, a); Components(Sum(p, q), a); }
    assert (Product(Sum(p, q), a)).z == (Sum(Product(p, a), Product(q, a))).z by { Components(p, a); Components(q, a); Components(Sum(p, q), a); }
    SameComponents(Product(Sum(p, q), a), Sum(Product(p, a), Product(q, a)));
  }

  lemma RotateOfSum(u: Vector3, v: Vector3, q: Quaternion)
    ensures Rotate(Add(u, v), q) == Add(Rotate(u, q), Rotate(v, q))
  {
    hide Product;
    assert Pure(Add(u, v)) == Sum(Pure(u), Pure(v));
    ProductOfSum(q, Pure(u), Pure(v));
    SumProduct(Product(q, Pure(u)), Product(q, Pure(v)), Conjugate(q));
  }

  lemma RotateOfScaled(k: real, v: Vector3, q: Quaternion)
    ensures Rotate(ScaleVector(k, v), q) == ScaleVector(k, Rotate(v, q))
  {
    hide Product;
    assert Pure(ScaleVector(k, v)) == Scale(k, Pure(v));
    ProductOfScaled(k, q, Pure(v));
    ProductOfScaled(k, Product(q, Pure(v)), Conjugate(q));
  }

  const AXIS_X := Vector3(1.0, 0.0, 0.0)
  const AXIS_Y := Vector3(0.0, 1.0, 0.0)
  const AXIS_Z := Vector3(0.0, 0.0, 1.0)

  lemma SumOfAxes(v: Vector3)
    ensures v == Add(Add(ScaleVector(v.x, AXIS_X), ScaleVector(v.y, AXIS_Y)), ScaleVector(v.z, AXIS_Z))
  {}

  /** A rotated vector is the same combination of the rotated axes. */
  lemma RotateByAxes(v: Vector3, q: Quaternion)
    ensures Rotate(v, q) == Add(Add(ScaleVector(v.x, Rotate(AXIS_X, q)), ScaleVector(v.y, Rotate(AXIS_Y, q))), ScaleVector(v.z, Rotate(AXIS_Z, q)))
  {
    hide *;
    SumOfAxes(v);
    var a, b, c := ScaleVector(v.x, AXIS_X), ScaleVector(v.y, AXIS_Y), ScaleVector(v.z, AXIS_Z);
    RotateOfSum(Add(a, b), c, q);
    RotateOfSum(a, b, q);
    RotateOfScaled(v.x, AXIS_X, q);
    RotateOfScaled(v.y, AXIS_Y, q);
    RotateOfScaled(v.z, AXIS_Z, q);
  }
}

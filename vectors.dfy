/** Two-dimensional vectors over the reals, as the simulator's `Vector2` class
    provides them. Every operation builds a fresh value, so a vector is a
    datatype; Python's overloading on "vector or number" becomes one function
    per operand kind. */
module Vectors {
  import opened RealArith

  datatype Vector2 = Vector2(x: real, y: real)

  /** `Vector2()` with its default arguments. */
  const Zero: Vector2 := Vector2(0.0, 0.0)

  /** Division either yields a value or raises ZeroDivisionError. */
  datatype Result<T> = Ok(value: T) | DivisionByZero

  /** `math.sqrt` is library code; the model receives it as a parameter and
      relies only on what a square root is. */
  ghost predicate IsSqrt(root: real -> real) {
    forall t :: 0.0 <= t ==> 0.0 <= root(t) && root(t) * root(t) == t
  }

  /** A square root is determined by its square: the non-negative `u` with
      `u * u == t` is the only value `root(t)` can take. */
  lemma RootUnique(root: real -> real, t: real, u: real)
    requires IsSqrt(root)
    requires 0.0 <= u && u * u == t
    ensures root(t) == u
  {
    var r := root(t);
    var rr, uu := r * r, u * u;
    SameSquare(r, u, rr, uu);
  }

  /** The square root of a positive number is positive. */
  lemma RootPositive(root: real -> real, t: real)
    requires IsSqrt(root) && 0.0 < t
    ensures 0.0 < root(t)
  {
    var r := root(t);
    var rr := r * r;
    SquareSign(r, rr);
  }

  /** The squared norm is non-negative and its root vanishes exactly at the
      zero vector. */
  lemma NormZero(root: real -> real, v: Vector2, t: real)
    requires IsSqrt(root) && t == v.x * v.x + v.y * v.y
    ensures 0.0 <= t
    ensures root(t) == 0.0 <==> v == Zero
  {
    var xx, yy := v.x * v.x, v.y * v.y;
    SquareSign(v.x, xx);
    SquareSign(v.y, yy);
    if v == Zero {
      RootUnique(root, t, 0.0);
    } else {
      RootPositive(root, t);
    }
  }

  // __add__ with a vector operand
  function Add(a: Vector2, b: Vector2): Vector2 {
    Vector2(a.x + b.x, a.y + b.y)
  }

  // __add__ with a number operand
  function AddScalar(v: Vector2, s: real): Vector2 {
    Vector2(v.x + s, v.y + s)
  }

  // __sub__ with a vector operand
  function Sub(a: Vector2, b: Vector2): Vector2 {
    Vector2(a.x - b.x, a.y - b.y)
  }

  // __sub__ with a number operand
  function SubScalar(v: Vector2, s: real): Vector2 {
    Vector2(v.x - s, v.y - s)
  }

  // __mul__ with a number operand
  function Scale(v: Vector2, k: real): Vector2 {
    Vector2(v.x * k, v.y * k)
  }

  /** __truediv__: fails exactly when the divisor is zero; otherwise it undoes
      scaling by the divisor. */
  function Div(v: Vector2, k: real): (r: Result<Vector2>)
    ensures r.Ok? <==> k != 0.0
    ensures r.Ok? ==> Scale(r.value, k) == v
  {
    if k == 0.0 then
      DivisionByZero
    else
      DivMul(v.x, k);
      DivMul(v.y, k);
      Ok(Vector2(v.x / k, v.y / k))
  }

  /** `s + v` is served by __radd__, an alias of __add__: since addition
      commutes this is the mathematical sum. */
  function RAddScalar(s: real, v: Vector2): (r: Vector2)
    ensures r.x == s + v.x && r.y == s + v.y
  {
    AddScalar(v, s)
  }

  /** `s - v` is served by __rsub__, an alias of __sub__: the result is
      `v - s`, the negation of the mathematical `s - v`. */
  function RSubScalar(s: real, v: Vector2): (r: Vector2)
    ensures Add(r, Vector2(s - v.x, s - v.y)) == Zero
  {
    SubScalar(v, s)
  }

  /** `k * v` is served by __rmul__: scaling commutes. */
  function RScale(k: real, v: Vector2): (r: Vector2)
    ensures r.x == k * v.x && r.y == k * v.y
  {
    Scale(v, k)
  }

  /** `k / v` is served by __rtruediv__, an alias of __truediv__: it divides
      the components of `v` by `k`, not `k` by them, and fails when `k` is
      zero. */
  function RDiv(k: real, v: Vector2): (r: Result<Vector2>)
    ensures r.Ok? <==> k != 0.0
    ensures r.Ok? ==> r.value.x * k == v.x && r.value.y * k == v.y
  {
    Div(v, k)
  }

  /** `length`: the Euclidean norm. It is non-negative, squares to the sum of
      the squared components, and is zero exactly for the zero vector. */
  function Length(root: real -> real, v: Vector2): (r: real)
    requires IsSqrt(root)
    ensures 0.0 <= r && r * r == v.x * v.x + v.y * v.y
    ensures r == 0.0 <==> v == Zero
  {
    var t := v.x * v.x + v.y * v.y;
    NormZero(root, v, t);
    root(t)
  }

  /** Static `distance(a, b)`: the length of `a - b`. It vanishes exactly when
      the points coincide. */
  function Distance(root: real -> real, a: Vector2, b: Vector2): (r: real)
    requires IsSqrt(root)
    ensures 0.0 <= r
    ensures r * r == (a.x - b.x) * (a.x - b.x) + (a.y - b.y) * (a.y - b.y)
    ensures r == 0.0 <==> a == b
  {
    Length(root, Sub(a, b))
  }

  /** `normalize`: fails on the zero vector; otherwise yields a vector of
      length one that scales back to the input by the input's length, so it
      points the same way. */
  function Normalize(root: real -> real, v: Vector2): (r: Result<Vector2>)
    requires IsSqrt(root)
    ensures r.Ok? <==> v != Zero
    ensures r.Ok? ==> Length(root, r.value) == 1.0 && Scale(r.value, Length(root, v)) == v
  {
    var len := Length(root, v);
    var r := Div(v, len);
    if r.Ok? then
      UnitLength(root, v, len, r.value);
      r
    else
      r
  }

  /** A vector that scales to a non-zero `v` by the length of `v` has length
      one. */
  lemma UnitLength(root: real -> real, v: Vector2, len: real, u: Vector2)
    requires IsSqrt(root) && len == Length(root, v) && len != 0.0
    requires u.x * len == v.x && u.y * len == v.y
    ensures Length(root, u) == 1.0
  {
    var xx, yy, ll, aa, bb := u.x * u.x, u.y * u.y, len * len, v.x * v.x, v.y * v.y;
    SquareProduct(u.x, len, v.x, xx, ll, aa);
    SquareProduct(u.y, len, v.y, yy, ll, bb);
    PositiveProduct(len, len, ll);
    Fractions(xx, yy, ll, aa, bb);
    var lu := Length(root, u);
    var lulu := lu * lu;
    SameSquare(lu, 1.0, lulu, 1.0);
  }

  /** Vector addition and subtraction undo each other. */
  lemma AddSubInverse(a: Vector2, b: Vector2)
    ensures Sub(Add(a, b), b) == a && Add(Sub(a, b), b) == a
  {
  }

  /** Adding and subtracting a number undo each other. */
  lemma ScalarAddSubInverse(v: Vector2, s: real)
    ensures SubScalar(AddScalar(v, s), s) == v && AddScalar(SubScalar(v, s), s) == v
  {
  }

  /** Dividing by a non-zero number undoes scaling by it. */
  lemma ScaleDivInverse(v: Vector2, k: real)
    requires k != 0.0
    ensures Div(Scale(v, k), k) == Ok(v)
  {
    var w := Scale(v, k);
    MulDiv(v.x, k, w.x);
    MulDiv(v.y, k, w.y);
  }

  /** Distance does not depend on the order of its arguments. */
  lemma DistanceSymmetric(root: real -> real, a: Vector2, b: Vector2)
    requires IsSqrt(root)
    ensures Distance(root, a, b) == Distance(root, b, a)
  {
    var d1, d2 := Distance(root, a, b), Distance(root, b, a);
    var p, q, r, s := a.x - b.x, a.y - b.y, b.x - a.x, b.y - a.y;
    var pp, qq, rr, ss := p * p, q * q, r * r, s * s;
    OppositeSquares(p, r, pp, rr);
    OppositeSquares(q, s, qq, ss);
    var dd1, dd2 := d1 * d1, d2 * d2;
    SameSquare(d1, d2, dd1, dd2);
  }

  lemma OppositeSquares(p: real, r: real, pp: real, rr: real)
    requires r == -p && pp == p * p && rr == r * r
    ensures pp == rr
  {
  }

  /** Scaling by a non-negative factor scales the length by that factor. */
  lemma LengthScale(root: real -> real, v: Vector2, k: real)
    requires IsSqrt(root) && 0.0 <= k
    ensures Length(root, Scale(v, k)) == k * Length(root, v)
  {
    var w := Scale(v, k);
    var len, lw := Length(root, v), Length(root, w);
    var m := k * len;
    NonNegativeProduct(k, len, m);
    var mm, lwlw := m * m, lw * lw;
    ScaledNorm(v.x, v.y, k, len, w.x, w.y, m, lwlw, mm);
    SameSquare(lw, m, lwlw, mm);
  }

  /** Scaling distributes over vector addition. */
  lemma ScaleAdd(u: Vector2, w: Vector2, k: real)
    ensures Scale(Add(u, w), k) == Add(Scale(u, k), Scale(w, k))
  {
    var s := Add(u, w);
    var uxk, wxk, sxk := u.x * k, w.x * k, s.x * k;
    var uyk, wyk, syk := u.y * k, w.y * k, s.y * k;
    Distribute(u.x, w.x, s.x, k, uxk, wxk, sxk);
    Distribute(u.y, w.y, s.y, k, uyk, wyk, syk);
  }

  /** Scaling the zero vector gives the zero vector. */
  lemma ScaleZero(v: Vector2, k: real)
    requires v == Zero
    ensures Scale(v, k) == Zero
  {
    ZeroFactor(v.x, k, v.x * k);
    ZeroFactor(v.y, k, v.y * k);
  }

  /** The zero vector is neutral for addition. */
  lemma AddZero(v: Vector2)
    ensures Add(v, Zero) == v
  {
  }
}

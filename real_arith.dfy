/** Small facts about real multiplication and division. Each lemma takes the
    products it talks about as parameters of their own (`aa == a * a`), so a
    caller names every compound quantity once and passes plain variables;
    the solver then only has to match variables, never to re-derive a
    product. */
module RealArith {

  lemma PositiveProduct(a: real, b: real, ab: real)
    requires 0.0 < a && 0.0 < b && ab == a * b
    ensures 0.0 < ab
  {
  }

  lemma NegativeFactors(a: real, b: real, ab: real)
    requires a < 0.0 && b < 0.0 && ab == a * b
    ensures 0.0 < ab
  {
  }

  lemma NonNegativeProduct(a: real, b: real, ab: real)
    requires 0.0 <= a && 0.0 <= b && ab == a * b
    ensures 0.0 <= ab
  {
    if a == 0.0 || b == 0.0 {
      ZeroFactor(a, b, ab);
    } else {
      PositiveProduct(a, b, ab);
    }
  }

  lemma ZeroFactor(a: real, b: real, ab: real)
    requires (a == 0.0 || b == 0.0) && ab == a * b
    ensures ab == 0.0
  {
  }

  /** A square is zero at zero and positive elsewhere. */
  lemma SquareSign(a: real, aa: real)
    requires aa == a * a
    ensures 0.0 <= aa
    ensures a == 0.0 ==> aa == 0.0
    ensures a != 0.0 ==> 0.0 < aa
  {
    if a == 0.0 {
      ZeroFactor(a, a, aa);
    } else if a < 0.0 {
      NegativeFactors(a, a, aa);
    } else {
      PositiveProduct(a, a, aa);
    }
  }

  /** Squaring both sides of `x * l == a`. */
  lemma SquareProduct(x: real, l: real, a: real, xx: real, ll: real, aa: real)
    requires x * l == a && xx == x * x && ll == l * l && aa == a * a
    ensures xx * ll == aa
  {
    assert (x * x) * (l * l) == (x * l) * (x * l);
  }

  /** The square of a product is the product of the squares. */
  lemma ProductSquare(x: real, k: real, xk: real, xx: real, kk: real, xkxk: real)
    requires xk == x * k && xx == x * x && kk == k * k && xkxk == xk * xk
    ensures xkxk == xx * kk
  {
    assert (x * k) * (x * k) == (x * x) * (k * k);
  }

  lemma Distribute(x: real, y: real, z: real, s: real, xs: real, ys: real, zs: real)
    requires z == x + y && xs == x * s && ys == y * s && zs == z * s
    ensures zs == xs + ys
  {
  }

  /** Cancelling a positive factor. */
  lemma CancelPositive(z: real, s: real)
    requires 0.0 < s && z * s == s
    ensures z == 1.0
  {
    assert (z - 1.0) * s == 0.0;
    assert z - 1.0 == ((z - 1.0) * s) / s;
  }

  /** Two parts of a positive whole, each a multiple of it, have multipliers
      summing to one. */
  lemma Fractions(x: real, y: real, s: real, p: real, q: real)
    requires 0.0 < s && x * s == p && y * s == q && s == p + q
    ensures x + y == 1.0
  {
    var z := x + y;
    var xs, ys, zs := x * s, y * s, z * s;
    Distribute(x, y, z, s, xs, ys, zs);
    CancelPositive(z, s);
  }

  /** Non-negative numbers with equal squares are equal. */
  lemma SameSquare(a: real, b: real, aa: real, bb: real)
    requires 0.0 <= a && 0.0 <= b && aa == a * a && bb == b * b && aa == bb
    ensures a == b
  {
    var d, s := a - b, a + b;
    if s != 0.0 {
      var ds := d * s;
      DifferenceOfSquares(a, b, aa, bb, d, s, ds);
      MulDiv(d, s, ds);
    }
  }

  lemma DifferenceOfSquares(a: real, b: real, aa: real, bb: real, d: real, s: real, ds: real)
    requires aa == a * a && bb == b * b && d == a - b && s == a + b && ds == d * s
    ensures ds == aa - bb
  {
  }

  /** Dividing out a non-zero factor. */
  lemma MulDiv(d: real, s: real, ds: real)
    requires s != 0.0 && ds == d * s
    ensures d == ds / s
  {
  }

  /** Multiplying back by a non-zero divisor. */
  lemma DivMul(a: real, k: real)
    requires k != 0.0
    ensures (a / k) * k == a
  {
  }

  lemma MulNeg(a: real, k: real)
    ensures a * -k == -(a * k)
  {
  }

  /** Regrouping a product of three factors: `(x * y) * z == (x * z) * y`. */
  lemma Regroup(x: real, y: real, z: real, xy: real, xyz: real, xz: real, xzy: real)
    requires xy == x * y && xyz == xy * z && xz == x * z && xzy == xz * y
    ensures xyz == xzy
  {
  }

  lemma NonNegativeQuotient(a: real, b: real)
    requires 0.0 <= a && 0.0 < b
    ensures 0.0 <= a / b
  {
  }

  /** Cancelling a non-zero factor common to both sides. */
  lemma CancelFactor(x: real, p: real, s: real, xs: real, ps: real)
    requires s != 0.0 && xs == x * s && ps == p * s && xs == ps
    ensures x == p
  {
    MulDiv(x, s, xs);
    MulDiv(p, s, ps);
  }

  /** Scaling a vector `(x, y)` of norm `l` by `k` scales its squared norm
      by `k * k`. */
  lemma ScaledNorm(x: real, y: real, k: real, l: real, wx: real, wy: real, m: real, ww: real, mm: real)
    requires l * l == x * x + y * y && wx == x * k && wy == y * k && m == k * l
    requires ww == wx * wx + wy * wy && mm == m * m
    ensures ww == mm
  {
    var kk, xx, yy, ll := k * k, x * x, y * y, l * l;
    var wxwx, wywy := wx * wx, wy * wy;
    ProductSquare(x, k, wx, xx, kk, wxwx);
    ProductSquare(y, k, wy, yy, kk, wywy);
    ProductSquare(k, l, m, kk, ll, mm);
    var xxkk, yykk, llkk := xx * kk, yy * kk, ll * kk;
    Distribute(xx, yy, ll, kk, xxkk, yykk, llkk);
  }
}

/** libsrc/complex.c over exact reals.  The square root of a real is a parameter, of which only
    "not negative and squares back" is used. */
module ComplexNumbers {
  import opened Reals

  datatype Complex = Complex(re: real, im: real)

  const ZERO := Complex(0.0, 0.0)
  const ONE := Complex(1.0, 0.0)

  function Real(x: real): Complex { Complex(x, 0.0) }

  function Add(a: Complex, b: Complex): Complex { Complex(a.re + b.re, a.im + b.im) }

  function Sub(a: Complex, b: Complex): Complex { Complex(a.re - b.re, a.im - b.im) }

  function Mul(a: Complex, b: Complex): Complex {
    Complex(a.re * b.re - a.im * b.im, a.im * b.re + a.re * b.im)
  }

  function Scale(x: real, a: Complex): Complex { Complex(x * a.re, x * a.im) }

  function Conj(a: Complex): Complex { Complex(a.re, -a.im) }

  function NormSquared(a: Complex): real { a.re * a.re + a.im * a.im }

  ghost function Power(w: Complex, k: nat): Complex {
    if k == 0 then ONE else Mul(Power(w, k - 1), w)
  }

  lemma MulCommutes(a: Complex, b: Complex)
    ensures Mul(a, b) == Mul(b, a)
  {}

  lemma MulAssociates(a: Complex, b: Complex, c: Complex)
    ensures Mul(Mul(a, b), c) == Mul(a, Mul(b, c))
  {
    assert Mul(Mul(a, b), c).re == Mul(a, Mul(b, c)).re;
    assert Mul(Mul(a, b), c).im == Mul(a, Mul(b, c)).im;
  }

  lemma MulAdds(a: Complex, b: Complex, c: Complex)
    ensures Mul(a, Add(b, c)) == Add(Mul(a, b), Mul(a, c))
  {}

  lemma MulSubtracts(a: Complex, b: Complex, c: Complex)
    ensures Mul(a, Sub(b, c)) == Sub(Mul(a, b), Mul(a, c))
  {}

  lemma MulOne(a: Complex)
    ensures Mul(a, ONE) == a && Mul(ONE, a) == a
  {}

  /** (a b)(c d) == (a c)(b d) */
  lemma MulRegroup(a: Complex, b: Complex, c: Complex, d: Complex)
    ensures Mul(Mul(a, b), Mul(c, d)) == Mul(Mul(a, c), Mul(b, d))
  {
    hide Mul;
    MulAssociates(a, b, Mul(c, d));
    MulAssociates(b, c, d);
    MulCommutes(b, c);
    MulAssociates(c, b, d);
    MulAssociates(a, c, Mul(b, d));
  }

  lemma NormZero(a: Complex)
    ensures NormSquared(a) == 0.0 <==> a == ZERO
  {
    if NormSquared(a) == 0.0 {
      SumOfSquaresZero(a.re, a.im);
    }
  }

  lemma SumOfSquaresZero(x: real, y: real)
    requires x * x + y * y == 0.0
    ensures x == 0.0 && y == 0.0
  {
    ProductZero(x, x, x * x);
    ProductZero(y, y, y * y);
  }

  /** A product vanishes only with a factor. */
  lemma NoZeroDivisors(a: Complex, b: Complex)
    ensures Mul(a, b) == ZERO <==> a == ZERO || b == ZERO
  {
    NormZero(a);
    NormZero(b);
    NormZero(Mul(a, b));
    ProductZero(NormSquared(a), NormSquared(b), NormSquared(Mul(a, b)));
  }

  lemma MulCancels(a: Complex, b: Complex, c: Complex)
    requires c != ZERO && Mul(a, c) == Mul(b, c)
    ensures a == b
  {
    MulCommutes(a, c);
    MulCommutes(b, c);
    MulSubtracts(c, a, b);
    NoZeroDivisors(c, Sub(a, b));
  }

  /** Division with the larger component of the divisor taken first. */
  function Cdiv(a: Complex, b: Complex): Complex
    requires b != ZERO
  {
    if Abs(b.re) >= Abs(b.im) then DivideByReal(a, b) else DivideByImaginary(a, b)
  }

  function DivideByReal(a: Complex, b: Complex): Complex
    requires b.re != 0.0
  {
    var r := b.im / b.re;
    var den := b.re + r * b.im;
    DenominatorNonZero(b.re, b.im);
    Complex((a.re + r * a.im) / den, (a.im - r * a.re) / den)
  }

  function DivideByImaginary(a: Complex, b: Complex): Complex
    requires b.im != 0.0
  {
    var r := b.re / b.im;
    var den := b.im + r * b.re;
    DenominatorNonZero(b.im, b.re);
    Complex((a.re * r + a.im) / den, (a.im * r - a.re) / den)
  }

  lemma DenominatorNonZero(p: real, q: real)
    requires p != 0.0
    ensures (p + q / p * q) * p == p * p + q * q
    ensures p + q / p * q != 0.0
  {
    var r := q / p;
    assert r * p == q;
    assert (p + r * q) * p == p * p + (r * p) * q;
  }

  /** Cdiv undoes Mul. */
  lemma {:induction false} CdivMul(a: Complex, b: Complex)
    requires b != ZERO
    ensures Mul(Cdiv(a, b), b) == a
  {
    hide Mul, DivideByReal, DivideByImaginary;
    if Abs(b.re) >= Abs(b.im) {
      CdivMulReal(a, b);
    } else {
      CdivMulImaginary(a, b);
    }
  }

  lemma CdivMulReal(a: Complex, b: Complex)
    requires b.re != 0.0
    ensures Mul(DivideByReal(a, b), b) == a
  {
    DenominatorNonZero(b.re, b.im);
    var c := DivideByReal(a, b);
    hide Mul;
    MulComponents(c, b, a);
  }

  lemma CdivMulImaginary(a: Complex, b: Complex)
    requires b.im != 0.0
    ensures Mul(DivideByImaginary(a, b), b) == a
  {
    DenominatorNonZero(b.im, b.re);
    var c := DivideByImaginary(a, b);
    hide Mul;
    MulComponents(c, b, a);
  }

  lemma MulComponents(c: Complex, b: Complex, a: Complex)
    requires c.re * b.re - c.im * b.im == a.re && c.im * b.re + c.re * b.im == a.im
    ensures Mul(c, b) == a
  {}

  // ----- the square root

  ghost predicate IsSqrt(sqrt: real -> real) {
    forall x: real :: x >= 0.0 ==> sqrt(x) >= 0.0 && sqrt(x) * sqrt(x) == x
  }

  /** The component that Csqrt computes first, from the absolute values `x` and `y` of the parts.  The
      tests for zero here and in Csqrt only make the functions total: an exact square root never meets
      them. */
  function RootSize(sqrt: real -> real, x: real, y: real): real {
    if x >= y then
      if x == 0.0 then 0.0 else RatioSize(sqrt, x, y / x, 1.0)
    else if y == 0.0 then 0.0 else RatioSize(sqrt, y, x / y, x / y)
  }

  function RatioSize(sqrt: real -> real, p: real, r: real, t: real): real {
    sqrt(p) * sqrt(0.5 * (t + sqrt(1.0 + r * r)))
  }

  function Csqrt(sqrt: real -> real, z: Complex): Complex {
    if z == ZERO then ZERO
    else
      var w := RootSize(sqrt, Abs(z.re), Abs(z.im));
      if w == 0.0 then ZERO
      else if z.re >= 0.0 then Complex(w, z.im / (2.0 * w))
      else
        var i := if z.im >= 0.0 then w else -w;
        Complex(z.im / (2.0 * i), i)
  }

  /** `m` is the modulus of (x, y), and twice the squared root size is x + m. */
  ghost predicate IsRootSize(x: real, y: real, w: real, m: real) {
    m >= 0.0 && m * m == x * x + y * y && w > 0.0 && 2.0 * (w * w) == x + m
  }

  lemma RootSizeSquared(sqrt: real -> real, x: real, y: real) returns (m: real)
    requires IsSqrt(sqrt) && x >= 0.0 && y >= 0.0 && (x != 0.0 || y != 0.0)
    ensures IsRootSize(x, y, RootSize(sqrt, x, y), m)
  {
    hide RatioSize, IsSqrt, RootSize;
    RootSizeBranch(sqrt, x, y);
    if x >= y {
      m := RatioRoot(sqrt, x, y, y / x, 1.0);
    } else {
      m := RatioRoot(sqrt, y, x, x / y, x / y);
      assert x / y * y == x;
    }
  }

  lemma RootSizeBranch(sqrt: real -> real, x: real, y: real)
    requires x >= 0.0 && y >= 0.0 && (x != 0.0 || y != 0.0)
    ensures x >= y ==> RootSize(sqrt, x, y) == RatioSize(sqrt, x, y / x, 1.0)
    ensures x < y ==> RootSize(sqrt, x, y) == RatioSize(sqrt, y, x / y, x / y)
  {
    hide RatioSize;
  }

  /** `p` is the larger component, `q == r p` the other and `t p` the real part. */
  lemma RatioRoot(sqrt: real -> real, p: real, q: real, r: real, t: real) returns (m: real)
    requires IsSqrt(sqrt) && p > 0.0 && r == q / p && 0.0 <= t
    ensures m >= 0.0 && m * m == p * p + q * q
    ensures RatioSize(sqrt, p, r, t) > 0.0
    ensures 2.0 * (RatioSize(sqrt, p, r, t) * RatioSize(sqrt, p, r, t)) == t * p + m
  {
    assert r * p == q;
    var h := sqrt(1.0 + r * r);
    m := p * h;
    hide IsSqrt;
    ModulusSquared(p, q, r, h);
    RootProduct(sqrt(p), sqrt(0.5 * (t + h)), p, t, h);
  }

  lemma ModulusSquared(p: real, q: real, r: real, h: real)
    requires r * p == q && h * h == 1.0 + r * r && h >= 0.0 && p > 0.0
    ensures (p * h) * (p * h) == p * p + q * q && p * h >= 0.0 && h >= 1.0
  {
    assert (p * h) * (p * h) == p * p * (h * h);
    assert p * p * (r * r) == (r * p) * (r * p);
    AtLeastOne(h);
  }

  lemma AtLeastOne(h: real)
    requires h >= 0.0 && h * h >= 1.0
    ensures h >= 1.0
  {
    if h < 1.0 {
      SquareBelow(h);
    }
  }

  lemma SquareBelow(h: real)
    requires 0.0 <= h < 1.0
    ensures h * h <= h
  {
    MulNonNegative(h, 1.0 - h);
  }

  lemma RootProduct(u: real, v: real, p: real, t: real, h: real)
    requires u >= 0.0 && v >= 0.0 && u * u == p > 0.0 && v * v == 0.5 * (t + h) && t >= 0.0 && h >= 1.0
    ensures u * v > 0.0 && 2.0 * ((u * v) * (u * v)) == t * p + p * h
  {
    assert u != 0.0 && v != 0.0;
    MulPositive(u, v);
    assert (u * v) * (u * v) == (u * u) * (v * v);
  }

  /** Csqrt squares back, and lies in the right half-plane. */
  lemma CsqrtSquares(sqrt: real -> real, z: Complex)
    requires IsSqrt(sqrt)
    ensures Mul(Csqrt(sqrt, z), Csqrt(sqrt, z)) == z
    ensures Csqrt(sqrt, z).re >= 0.0
  {
    if z != ZERO {
      var x, y := Abs(z.re), Abs(z.im);
      var m := RootSizeSquared(sqrt, x, y);
      var w := RootSize(sqrt, x, y);
      hide RootSize, IsSqrt, Mul, IsRootSize;
      assert w > 0.0 by {
        RootSizePositive(x, y, w, m);
      }
      if z.re >= 0.0 {
        RealRoot(z, w, m);
      } else {
        ImaginaryRoot(z, w, if z.im >= 0.0 then w else -w, m);
      }
    }
  }

  lemma RootSizePositive(x: real, y: real, w: real, m: real)
    requires IsRootSize(x, y, w, m)
    ensures w > 0.0
  {}

  lemma RealRoot(z: Complex, w: real, m: real)
    requires IsRootSize(Abs(z.re), Abs(z.im), w, m) && z.re >= 0.0
    ensures var c := Complex(w, z.im / (2.0 * w)); Mul(c, c) == z
  {
    RootComponents(w, z.im, z.re, m);
    var i := z.im / (2.0 * w);
    MulComponents(Complex(w, i), Complex(w, i), z);
  }

  lemma ImaginaryRoot(z: Complex, w: real, i: real, m: real)
    requires IsRootSize(Abs(z.re), Abs(z.im), w, m) && z.re < 0.0
    requires i == if z.im >= 0.0 then w else -w
    ensures var c := Complex(z.im / (2.0 * i), i); Mul(c, c) == z && c.re >= 0.0
  {
    var r := z.im / (2.0 * i);
    if z.im >= 0.0 {
      RootComponents(w, z.im, -z.re, m);
    } else {
      RootComponents(w, -z.im, -z.re, m);
      assert r == -z.im / (2.0 * w);
    }
    MulComponents(Complex(r, i), Complex(r, i), z);
  }

  lemma RootComponents(w: real, y: real, x: real, m: real)
    requires IsRootSize(x, Abs(y), w, m)
    ensures var c := y / (2.0 * w); c * c - w * w == -x && 2.0 * (c * w) == y
  {
    var c := y / (2.0 * w);
    assert c * (2.0 * w) == y;
    var cc := Square(c);
    var ww := Square(w);
    var yy := Square(y);
    assert Abs(y) * Abs(y) == yy;
  }

}

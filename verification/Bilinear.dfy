/** libsrc/filters.c: bilin2, and the design chain lptbpa followed by bilin2. */
module Bilinear {
  import opened Reals
  import opened ComplexNumbers
  import opened BandPass

  function Size(q: Quad): real { q.c2 + q.c1 + q.c0 }

  /** `q` under the bilinear transform, divided by `scale`. */
  function Warped(q: Quad, scale: real): Quad
    requires scale != 0.0
  {
    Quad((q.c2 + q.c1 + q.c0) / scale, 2.0 * (q.c0 - q.c2) / scale, (q.c2 - q.c1 + q.c0) / scale)
  }

  function Digital(sec: Section): Section
    requires Size(sec.den) != 0.0
  {
    Section(Warped(sec.num, Size(sec.den)), Warped(sec.den, Size(sec.den)))
  }

  ghost predicate Scalable(secs: seq<Section>) {
    forall k :: 0 <= k < |secs| ==> Size(secs[k].den) != 0.0
  }

  ghost function DigitalAll(secs: seq<Section>): (d: seq<Section>)
    requires Scalable(secs)
    ensures |d| == |secs|
  {
    seq(|secs|, k requires 0 <= k < |secs| => Digital(secs[k]))
  }

  /** `s` is the analog variable (1 - w) / (1 + w) of w = 1/z. */
  ghost predicate AnalogVariable(w: Complex, s: Complex) {
    Mul(s, Add(ONE, w)) == Sub(ONE, w)
  }

  // ----- meaning

  ghost function SquareOnePlus(w: Complex): Complex { Mul(Add(ONE, w), Add(ONE, w)) }

  lemma SquareTimes(s: Complex, w: Complex)
    requires AnalogVariable(w, s)
    ensures Mul(s, SquareOnePlus(w)) == Mul(Sub(ONE, w), Add(ONE, w))
    ensures Mul(Mul(s, s), SquareOnePlus(w)) == Mul(Sub(ONE, w), Sub(ONE, w))
  {
    hide Mul, Add, Sub;
    var v := Add(ONE, w);
    MulAssociates(s, v, v);
    MulRegroup(s, s, v, v);
  }

  lemma ScaleMul(x: real, a: Complex, b: Complex)
    ensures Mul(Scale(x, a), b) == Scale(x, Mul(a, b))
    ensures Mul(b, Scale(x, a)) == Scale(x, Mul(b, a))
  {}

  /** (1 + w)^2 q(s), written out in powers of w. */
  lemma SquareTimesEval(q: Quad, s: Complex, w: Complex)
    requires AnalogVariable(w, s)
    ensures Mul(Eval(q, s), SquareOnePlus(w)) == Eval(Quad(q.c2 + q.c1 + q.c0, 2.0 * (q.c0 - q.c2), q.c2 - q.c1 + q.c0), w)
  {
    var W := SquareOnePlus(w);
    ScaleMul(q.c1, s, W);
    ScaleMul(q.c2, Mul(s, s), W);
    SquareTimes(s, w);
    hide Mul, AnalogVariable, SquareOnePlus;
    var m := Mul(w, w);
  }

  lemma PolynomialParts(a: real, b: real, c: real, x: real, m: real, one: real)
    ensures a * (one + 2.0 * x + m) + b * (one - m) + c * (one - 2.0 * x + m)
         == (c + b + a) * one + 2.0 * (a - c) * x + (c - b + a) * m
  {}

  lemma UnscaleQuad(q: Quad, scale: real, w: Complex)
    requires scale != 0.0
    ensures Scale(scale, Eval(Quad(q.c0 / scale, q.c1 / scale, q.c2 / scale), w)) == Eval(q, w)
  {
    var d := Quad(q.c0 / scale, q.c1 / scale, q.c2 / scale);
    var m := Mul(w, w);
    hide Mul, Scale, Add, Real;
  }

  /** The transform of one polynomial. */
  lemma WarpedMeaning(q: Quad, scale: real, s: Complex, w: Complex)
    requires scale != 0.0 && AnalogVariable(w, s)
    ensures Scale(scale, Eval(Warped(q, scale), w)) == Mul(Eval(q, s), SquareOnePlus(w))
  {
    SquareTimesEval(q, s, w);
    hide Eval, Mul, AnalogVariable, SquareOnePlus;
    UnscaleQuad(Quad(q.c2 + q.c1 + q.c0, 2.0 * (q.c0 - q.c2), q.c2 - q.c1 + q.c0), scale, w);
  }

  ghost function Sizes(secs: seq<Section>): real {
    if |secs| == 0 then 1.0 else Sizes(secs[..|secs| - 1]) * Size(secs[|secs| - 1].den)
  }

  lemma {:induction false} SizesNonZero(secs: seq<Section>)
    requires Scalable(secs)
    ensures Sizes(secs) != 0.0
  {
    if |secs| > 0 {
      SizesNonZero(secs[..|secs| - 1]);
      ProductZero(Sizes(secs[..|secs| - 1]), Size(secs[|secs| - 1].den), Sizes(secs));
    }
  }

  lemma ScaleProduct(x: real, y: real, a: Complex, b: Complex)
    ensures Scale(x * y, Mul(a, b)) == Mul(Scale(x, a), Scale(y, b))
  {
    ScaleMul(x, a, Scale(y, b));
    ScaleMul(y, b, a);
    var m := Mul(a, b);
    hide Mul;
    assert Scale(x * y, m) == Scale(x, Scale(y, m));
  }

  /** The transform of a whole cascade: numerator and denominator are multiplied alike. */
  lemma {:induction false} DigitalMeaning(secs: seq<Section>, s: Complex, w: Complex)
    requires Scalable(secs) && AnalogVariable(w, s)
    ensures var d, t := DigitalAll(secs), Power(SquareOnePlus(w), |secs|);
      && Scale(Sizes(secs), NumAt(d, w)) == Mul(NumAt(secs, s), t)
      && Scale(Sizes(secs), DenAt(d, w)) == Mul(DenAt(secs, s), t)
  {
    hide Mul, SquareOnePlus, AnalogVariable, Eval, Size, Warped;
    if |secs| == 0 {
      MulOne(ONE);
      assert Scale(1.0, ONE) == ONE;
    } else {
      var front, last := secs[..|secs| - 1], secs[|secs| - 1];
      var d, t, W := DigitalAll(front), Power(SquareOnePlus(w), |front|), SquareOnePlus(w);
      DigitalMeaning(front, s, w);
      assert DigitalAll(secs)[..|secs| - 1] == d;
      WarpedMeaning(last.num, Size(last.den), s, w);
      WarpedMeaning(last.den, Size(last.den), s, w);
      var l := Digital(last);
      ScaleProduct(Sizes(front), Size(last.den), NumAt(d, w), Eval(l.num, w));
      ScaleProduct(Sizes(front), Size(last.den), DenAt(d, w), Eval(l.den, w));
      MulRegroup(NumAt(front, s), t, Eval(last.num, s), W);
      MulRegroup(DenAt(front, s), t, Eval(last.den, s), W);
    }
  }

  /** lptbpa followed by bilin2 preserves meaning: in z = 1/w the product of the emitted sections is
      the low-pass transfer function at u == (s^2 + a) / (b s), s == (1 - w) / (1 + w). */
  lemma {:induction false} DesignMeaning(sqrt: real -> real, poles: seq<Pole>, a: real, b: real, w: Complex, s: Complex, u: Complex)
    requires IsSqrt(sqrt) && AnalogVariable(w, s) && BandVariable(s, u, a, b)
    requires Scalable(BandSections(sqrt, poles, a, b))
    ensures var d := DigitalAll(BandSections(sqrt, poles, a, b)); DenAt(d, w) == Mul(LowPass(poles, u), NumAt(d, w))
  {
    var secs := BandSections(sqrt, poles, a, b);
    var d, t, L, g := DigitalAll(secs), Power(SquareOnePlus(w), |secs|), LowPass(poles, u), Sizes(secs);
    DigitalMeaning(secs, s, w);
    BandSectionsMeaning(sqrt, poles, s, u, a, b);
    SizesNonZero(secs);
    hide Mul, Scale, BandVariable, AnalogVariable, BandSections, DigitalAll, LowPass, NumAt, DenAt, Power, Sizes, IsSqrt;
    MulAssociates(L, NumAt(secs, s), t);
    ScaleMul(g, NumAt(d, w), L);
    ScaleCancels(g, DenAt(d, w), Mul(L, NumAt(d, w)));
  }

  lemma ScaleCancels(g: real, x: Complex, y: Complex)
    requires g != 0.0 && Scale(g, x) == Scale(g, y)
    ensures x == y
  {
    ProductZero(g, x.re - y.re, g * (x.re - y.re));
    ProductZero(g, x.im - y.im, g * (x.im - y.im));
  }

  /** The same as a quotient. */
  lemma {:induction false} DesignTransfer(sqrt: real -> real, poles: seq<Pole>, a: real, b: real, w: Complex, s: Complex, u: Complex)
    requires IsSqrt(sqrt) && AnalogVariable(w, s) && BandVariable(s, u, a, b)
    requires Scalable(BandSections(sqrt, poles, a, b))
    requires DenAt(DigitalAll(BandSections(sqrt, poles, a, b)), w) != ZERO
    ensures LowPass(poles, u) != ZERO
    ensures var d := DigitalAll(BandSections(sqrt, poles, a, b));
      Cdiv(NumAt(d, w), DenAt(d, w)) == Cdiv(ONE, LowPass(poles, u))
  {
    var d := DigitalAll(BandSections(sqrt, poles, a, b));
    DesignMeaning(sqrt, poles, a, b, w, s, u);
    hide BandVariable, AnalogVariable, BandSections, LowPass, IsSqrt, NumAt, DenAt, DigitalAll;
    QuotientOfMultiple(NumAt(d, w), DenAt(d, w), LowPass(poles, u));
  }

  lemma QuotientOfMultiple(n: Complex, d: Complex, l: Complex)
    requires d == Mul(l, n) && d != ZERO
    ensures l != ZERO && Cdiv(n, d) == Cdiv(ONE, l)
  {
    NoZeroDivisors(l, n);
    CdivMul(n, d);
    CdivMul(ONE, l);
    var q, p := Cdiv(n, d), Cdiv(ONE, l);
    hide Mul, Cdiv;
    MulOne(n);
    MulAssociates(q, l, n);
    MulCancels(Mul(q, l), ONE, n);
    MulCancels(q, p, l);
  }

  // ----- stability

  /** What the analog sections of a usable design look like. */
  ghost predicate AnalogStable(sec: Section, b: real) {
    sec.num == Quad(0.0, b, 0.0) && sec.den.c0 > 0.0 && sec.den.c1 > 0.0 && sec.den.c2 == 1.0
  }

  ghost predicate LeftHalfPlane(poles: seq<Pole>) {
    forall i :: 0 <= i < |poles| ==> poles[i].at.re < 0.0
  }

  /** Two complex numbers with a positive real product and a sum left of the imaginary axis both lie
      left of it. */
  lemma BothLeft(p: Complex, q: Complex, a: real)
    requires a > 0.0 && Mul(p, q) == Real(a) && p.re + q.re < 0.0
    ensures p.re < 0.0 && NormSquared(p) > 0.0
  {
    var n := NormSquared(p);
    assert n == p.re * p.re + p.im * p.im && n >= 0.0;
    if n == 0.0 {
      NormZero(p);
      NoZeroDivisors(p, q);
    }
    hide Mul;
    if p.re >= 0.0 {
      MulNonNegative(a, p.re);
      if q.re < 0.0 {
        MulNonNegative(n, -q.re);
        ProductZero(n, q.re, n * q.re);
      }
    }
  }

  lemma PairStable(sqrt: real -> real, p: Complex, a: real, b: real)
    requires IsSqrt(sqrt) && a > 0.0 && b > 0.0 && p.re < 0.0
    ensures var (p1, p2) := BandRoots(sqrt, p, a, b);
      AnalogStable(Section(Quad(0.0, b, 0.0), ConjugatePair(p1)), b) &&
      AnalogStable(Section(Quad(0.0, b, 0.0), ConjugatePair(p2)), b)
  {
    hide BandRoots, IsSqrt;
    var (p1, p2) := BandRoots(sqrt, p, a, b);
    BandRootsSumAndProduct(sqrt, p, a, b);
    MulPositive(b, -p.re);
    MulCommutes(p1, p2);
    hide Mul, NormSquared;
    BothLeft(p1, p2, a);
    BothLeft(p2, p1, a);
  }

  ghost predicate AllAnalogStable(secs: seq<Section>, b: real) {
    forall k :: 0 <= k < |secs| ==> AnalogStable(secs[k], b)
  }

  lemma PoleSectionsStable(sqrt: real -> real, p: Pole, a: real, b: real)
    requires IsSqrt(sqrt) && a > 0.0 && b > 0.0 && p.at.re < 0.0
    ensures AllAnalogStable(PoleSections(sqrt, p, a, b), b)
  {
    hide BandRoots, ConjugatePair, SingleQuad, IsSqrt, AnalogStable;
    if p.kind == 'C' {
      PairStable(sqrt, p.at, a, b);
    } else if p.kind == 'S' {
      SingleStable(p.at, a, b);
    }
  }

  lemma {:induction false} BandSectionsStable(sqrt: real -> real, poles: seq<Pole>, a: real, b: real)
    requires IsSqrt(sqrt) && a > 0.0 && b > 0.0 && LeftHalfPlane(poles)
    ensures AllAnalogStable(BandSections(sqrt, poles, a, b), b)
  {
    hide PoleSections, IsSqrt, AnalogStable;
    if |poles| > 0 {
      BandSectionsStable(sqrt, poles[..|poles| - 1], a, b);
      PoleSectionsStable(sqrt, poles[|poles| - 1], a, b);
    }
  }

  lemma SingleStable(p: Complex, a: real, b: real)
    requires a > 0.0 && b > 0.0 && p.re < 0.0
    ensures AnalogStable(Section(Quad(0.0, b, 0.0), SingleQuad(p, a, b)), b)
  {
    MulPositive(b, -p.re);
    assert b * -p.re == -b * p.re;
  }

  /** The stability triangle of a second-order section, and a numerator g (1 - 1/z^2). */
  ghost predicate DigitalStable(sec: Section) {
    && sec.den.c0 == 1.0 && -1.0 < sec.den.c2 < 1.0
    && -(1.0 + sec.den.c2) < sec.den.c1 < 1.0 + sec.den.c2
    && sec.num.c0 > 0.0 && sec.num.c1 == 0.0 && sec.num.c2 == -sec.num.c0
  }

  lemma DigitalIsStable(sec: Section, b: real)
    requires b > 0.0 && AnalogStable(sec, b)
    ensures Size(sec.den) > 0.0 && DigitalStable(Digital(sec))
  {
    var q, g := sec.den, Size(sec.den);
    var d := Digital(sec);
    assert d.num.c0 * g == b && d.num.c1 * g == 0.0 && d.num.c2 * g == -b;
    assert d.den.c0 * g == g && d.den.c1 * g == 2.0 * (q.c0 - 1.0) && d.den.c2 * g == 1.0 - q.c1 + q.c0;
    hide Digital, Warped;
    Below(d.den.c2, 1.0, g);
    Below(-1.0, d.den.c2, g);
    Below(d.den.c1, 1.0 + d.den.c2, g);
    Below(-(1.0 + d.den.c2), d.den.c1, g);
    Below(0.0, d.num.c0, g);
  }

  lemma Below(x: real, y: real, g: real)
    requires g > 0.0 && x * g < y * g
    ensures x < y
  {
    if y <= x {
      MulNonNegative(x - y, g);
    }
  }

  /** Of each section: the transform does not divide by zero, and its image is stable. */
  ghost predicate ImagesStable(secs: seq<Section>) {
    |secs| == 0 ||
    var last := secs[|secs| - 1];
    ImagesStable(secs[..|secs| - 1]) && Size(last.den) != 0.0 && DigitalStable(Digital(last))
  }

  /** Every section of a design with 0 < low < high and poles left of the imaginary axis is stable. */
  lemma {:induction false} DesignStable(sqrt: real -> real, poles: seq<Pole>, a: real, b: real)
    requires IsSqrt(sqrt) && a > 0.0 && b > 0.0 && LeftHalfPlane(poles)
    ensures ImagesStable(BandSections(sqrt, poles, a, b))
  {
    BandSectionsStable(sqrt, poles, a, b);
    hide BandSections, IsSqrt;
    AnalogImagesStable(BandSections(sqrt, poles, a, b), b);
  }

  lemma {:induction false} AnalogImagesStable(secs: seq<Section>, b: real)
    requires b > 0.0 && AllAnalogStable(secs, b)
    ensures ImagesStable(secs)
  {
    hide AnalogStable, DigitalStable, Size, Digital;
    if |secs| > 0 {
      AnalogImagesStable(secs[..|secs| - 1], b);
      DigitalIsStable(secs[|secs| - 1], b);
    }
  }

  lemma {:induction false} ImagesOneByOne(secs: seq<Section>)
    requires ImagesStable(secs)
    ensures Scalable(secs) && forall k :: 0 <= k < |secs| ==> DigitalStable(DigitalAll(secs)[k])
  {
    hide DigitalStable, Size, Digital;
    if |secs| > 0 {
      var front := secs[..|secs| - 1];
      ImagesOneByOne(front);
      assert forall k :: 0 <= k < |front| ==> DigitalAll(front)[k] == Digital(secs[k]);
    }
  }

  /** The stability triangle keeps the denominator away from zero on and inside the unit circle of
      w = 1/z, that is, every pole of the section lies strictly inside the unit circle of z. */
  lemma TriangleHasNoRoot(sec: Section, w: Complex)
    requires DigitalStable(sec) && NormSquared(w) <= 1.0
    ensures Eval(sec.den, w) != ZERO
  {
    var d1, d2 := sec.den.c1, sec.den.c2;
    var x, y := w.re, w.im;
    if Eval(sec.den, w) == ZERO {
      assert 1.0 + d1 * x + d2 * (x * x - y * y) == 0.0;
      assert d1 * y + d2 * (y * x + x * y) == 0.0;
      NoRoot(d1, d2, x, y);
    }
  }

  /** A cascade of stable sections has no pole on or outside the unit circle. */
  lemma {:induction false} CascadeHasNoPole(secs: seq<Section>, w: Complex)
    requires forall k :: 0 <= k < |secs| ==> DigitalStable(secs[k])
    ensures DenAt(secs, w) == ZERO ==> NormSquared(w) > 1.0
  {
    hide DigitalStable, Eval, Mul, NormSquared;
    if |secs| > 0 && NormSquared(w) <= 1.0 {
      var front, last := secs[..|secs| - 1], secs[|secs| - 1];
      CascadeHasNoPole(front, w);
      TriangleHasNoRoot(last, w);
      NoZeroDivisors(DenAt(front, w), Eval(last.den, w));
    }
  }

  lemma NoRoot(d1: real, d2: real, x: real, y: real)
    requires -1.0 < d2 < 1.0 && -(1.0 + d2) < d1 < 1.0 + d2 && x * x + y * y <= 1.0
    requires d1 * y + d2 * (y * x + x * y) == 0.0
    ensures 1.0 + d1 * x + d2 * (x * x - y * y) != 0.0
  {
    if y == 0.0 {
      NoRealRoot(d1, d2, x);
    } else {
      assert y * (d1 + 2.0 * (d2 * x)) == 0.0;
      ProductZero(y, d1 + 2.0 * (d2 * x), 0.0);
      NoComplexRoot(d1, d2, x, y);
    }
  }

  lemma NoComplexRoot(d1: real, d2: real, x: real, y: real)
    requires d2 < 1.0 && x * x + y * y <= 1.0 && d1 == -2.0 * (d2 * x)
    ensures 1.0 + d1 * x + d2 * (x * x - y * y) != 0.0
  {
    var xx := Square(x);
    var yy := Square(y);
    assert d1 * x == -2.0 * (d2 * xx);
    assert d2 * (xx + yy) == d2 * xx + d2 * yy;
    assert d2 * (x * x - y * y) == d2 * xx - d2 * yy;
    UnitProduct(d2, xx + yy);
  }

  lemma UnitProduct(d: real, n: real)
    requires d < 1.0 && 0.0 <= n <= 1.0
    ensures d * n != 1.0
  {
    if d <= 0.0 {
      MulNonNegative(-d, n);
    } else {
      MulNonNegative(d, 1.0 - n);
    }
  }

  lemma NoRealRoot(d1: real, d2: real, x: real)
    requires -1.0 < d2 < 1.0 && -(1.0 + d2) < d1 < 1.0 + d2 && x * x <= 1.0
    ensures 1.0 + d1 * x + d2 * (x * x) != 0.0
  {
    if x >= 0.0 {
      NoPositiveRoot(d1, d2, x);
    } else {
      NoPositiveRoot(-d1, d2, -x);
      assert -d1 * -x == d1 * x && -x * -x == x * x;
    }
  }

  lemma NoPositiveRoot(d1: real, d2: real, x: real)
    requires -1.0 < d2 < 1.0 && -(1.0 + d2) < d1 && 0.0 <= x <= 1.0
    ensures 1.0 + d1 * x + d2 * (x * x) != 0.0
  {
    if x > 0.0 {
      MulPositive(d1 + 1.0 + d2, x);
      assert (d1 + 1.0 + d2) * x == d1 * x + (1.0 + d2) * x;
      assert (1.0 - x) * (1.0 - d2 * x) == 1.0 - (1.0 + d2) * x + d2 * (x * x);
      BelowOne(d2, x);
      MulNonNegative(1.0 - x, 1.0 - d2 * x);
    }
  }

  lemma BelowOne(d: real, x: real)
    requires d < 1.0 && 0.0 <= x <= 1.0
    ensures d * x <= 1.0
  {
    MulNonNegative(1.0 - d, x);
  }

  // ----- the passes over coefficient arrays

  function QuadAt(c: array<real>, k: nat): Quad
    requires 3 * k + 3 <= c.Length
    reads c
  {
    Quad(c[3 * k], c[3 * k + 1], c[3 * k + 2])
  }

  ghost function SectionsIn(sn: array<real>, sd: array<real>, n: nat): (secs: seq<Section>)
    requires 3 * n <= sn.Length && 3 * n <= sd.Length
    reads sn, sd
    ensures |secs| == n
  {
    seq(n, k requires 0 <= k < n reads sn, sd => Section(QuadAt(sn, k), QuadAt(sd, k)))
  }

  method PutQuad(c: array<real>, k: nat, q: Quad)
    requires 3 * k + 3 <= c.Length
    modifies c
    ensures QuadAt(c, k) == q
    ensures forall l :: 0 <= l && 3 * l + 3 <= c.Length && l != k ==> QuadAt(c, l) == old(QuadAt(c, l))
  {
    c[3 * k] := q.c0;
    c[3 * k + 1] := q.c1;
    c[3 * k + 2] := q.c2;
  }

  method Emit(sn: array<real>, sd: array<real>, k: nat, sec: Section)
    requires 3 * k + 3 <= sn.Length && 3 * k + 3 <= sd.Length && sn != sd
    modifies sn, sd
    ensures SectionsIn(sn, sd, k + 1) == old(SectionsIn(sn, sd, k)) + [sec]
  {
    PutQuad(sn, k, sec.num);
    PutQuad(sd, k, sec.den);
  }

  /** libsrc/filters.c:567-619. */
  method Lptbpa(sqrt: real -> real, poles: seq<Pole>, a: real, b: real, sn: array<real>, sd: array<real>)
    returns (n: nat)
    requires sn != sd && sn.Length >= 6 * |poles| && sd.Length >= 6 * |poles|
    modifies sn, sd
    ensures n <= 2 * |poles| && SectionsIn(sn, sd, n) == BandSections(sqrt, poles, a, b)
  {
    hide BandRoots, ConjugatePair, SingleQuad;
    n := 0;
    for i := 0 to |poles|
      invariant n <= 2 * i && SectionsIn(sn, sd, n) == BandSections(sqrt, poles[..i], a, b)
    {
      var p := poles[i];
      assert poles[..i + 1][..i] == poles[..i];
      if p.kind == 'C' {
        var (p1, p2) := BandRoots(sqrt, p.at, a, b);
        Emit(sn, sd, n, Section(Quad(0.0, b, 0.0), ConjugatePair(p1)));
        Emit(sn, sd, n + 1, Section(Quad(0.0, b, 0.0), ConjugatePair(p2)));
        n := n + 2;
      } else if p.kind == 'S' {
        Emit(sn, sd, n, Section(Quad(0.0, b, 0.0), SingleQuad(p.at, a, b)));
        n := n + 1;
      }
    }
    assert poles[..|poles|] == poles;
  }

  /** libsrc/filters.c:191-215, in place. */
  method Bilin2(sn: array<real>, sd: array<real>, n: nat)
    requires sn != sd && 3 * n <= sn.Length && 3 * n <= sd.Length && Scalable(SectionsIn(sn, sd, n))
    modifies sn, sd
    ensures SectionsIn(sn, sd, n) == DigitalAll(old(SectionsIn(sn, sd, n)))
  {
    ghost var secs := SectionsIn(sn, sd, n);
    hide Warped, Size;
    for i := 0 to n
      invariant forall k :: 0 <= k < n ==> Section(QuadAt(sn, k), QuadAt(sd, k)) == if k < i then Digital(secs[k]) else secs[k]
    {
      assert Section(QuadAt(sn, i), QuadAt(sd, i)) == secs[i];
      var scale := Size(QuadAt(sd, i));
      PutQuad(sd, i, Warped(QuadAt(sd, i), scale));
      PutQuad(sn, i, Warped(QuadAt(sn, i), scale));
    }
  }

  const TWO_PI: real := 6.28318530717958647692

  /** libsrc/filters.c:437-454, from the warped band edges on.  The poles come from bupoles and the
      edges from warp, whose cosines, sines and tangents are not modelled. */
  method DesignFilter(sqrt: real -> real, poles: seq<Pole>, lowW: real, highW: real, sn: array<real>, sd: array<real>)
    returns (n: nat)
    requires IsSqrt(sqrt) && 0.0 < lowW < highW && LeftHalfPlane(poles)
    requires sn != sd && sn.Length >= 6 * |poles| && sd.Length >= 6 * |poles|
    modifies sn, sd
    ensures n <= 2 * |poles|
    ensures var secs := BandSections(sqrt, poles, TWO_PI * TWO_PI * lowW * highW, TWO_PI * (highW - lowW));
      Scalable(secs) && SectionsIn(sn, sd, n) == DigitalAll(secs)
    ensures forall k :: 0 <= k < n ==> DigitalStable(SectionsIn(sn, sd, n)[k])
  {
    hide BandSections, DigitalStable, Digital, IsSqrt, LeftHalfPlane;
    var a, b := TWO_PI * TWO_PI * lowW * highW, TWO_PI * (highW - lowW);
    MulPositive(TWO_PI * TWO_PI, lowW);
    MulPositive(TWO_PI * TWO_PI * lowW, highW);
    DesignStable(sqrt, poles, a, b);
    ImagesOneByOne(BandSections(sqrt, poles, a, b));
    n := Lptbpa(sqrt, poles, a, b, sn, sd);
    Bilin2(sn, sd, n);
  }
}

/** libsrc/filters.c: lptbpa and bilin2, the two passes that turn the poles of a low-pass filter
    into the second-order sections of a digital band-pass filter. */
module BandPass {
  import opened ComplexNumbers

  /** c0 + c1 s + c2 s^2 */
  datatype Quad = Quad(c0: real, c1: real, c2: real)

  datatype Section = Section(num: Quad, den: Quad)

  datatype Pole = Pole(at: Complex, kind: char)

  ghost function Eval(q: Quad, s: Complex): Complex {
    Add(Add(Real(q.c0), Scale(q.c1, s)), Scale(q.c2, Mul(s, s)))
  }

  ghost function NumAt(secs: seq<Section>, s: Complex): Complex {
    if |secs| == 0 then ONE else Mul(NumAt(secs[..|secs| - 1], s), Eval(secs[|secs| - 1].num, s))
  }

  ghost function DenAt(secs: seq<Section>, s: Complex): Complex {
    if |secs| == 0 then ONE else Mul(DenAt(secs[..|secs| - 1], s), Eval(secs[|secs| - 1].den, s))
  }

  /** Denominator of the low-pass prototype: a pole of kind 'C' stands for itself and its
      conjugate, one of kind 'S' for its real part. */
  ghost function LowPass(poles: seq<Pole>, u: Complex): Complex {
    if |poles| == 0 then ONE
    else Mul(LowPass(poles[..|poles| - 1], u), PoleFactor(poles[|poles| - 1], u))
  }

  ghost function PoleFactor(p: Pole, u: Complex): Complex {
    if p.kind == 'C' then Mul(Sub(u, p.at), Sub(u, Conj(p.at)))
    else if p.kind == 'S' then Sub(u, Real(p.at.re))
    else ONE
  }

  // ----- lptbpa

  /** The two roots of s^2 - b p s + a. */
  function BandRoots(sqrt: real -> real, p: Complex, a: real, b: real): (Complex, Complex) {
    var c := Mul(Scale(b, p), Scale(b, p));
    var q := Csqrt(sqrt, Complex(c.re - 4.0 * a, c.im));
    (Scale(0.5, Add(Scale(b, p), q)), Scale(0.5, Sub(Scale(b, p), q)))
  }

  /** s^2 - 2 Re(r) s + |r|^2 */
  function ConjugatePair(r: Complex): Quad {
    Quad(Mul(r, Conj(r)).re, -2.0 * r.re, 1.0)
  }

  /** s^2 - b Re(p) s + a */
  function SingleQuad(p: Complex, a: real, b: real): Quad {
    Quad(a, -b * p.re, 1.0)
  }

  function PoleSections(sqrt: real -> real, p: Pole, a: real, b: real): (secs: seq<Section>)
    ensures |secs| <= 2
  {
    if p.kind == 'C' then
      var (p1, p2) := BandRoots(sqrt, p.at, a, b);
      [Section(Quad(0.0, b, 0.0), ConjugatePair(p1)), Section(Quad(0.0, b, 0.0), ConjugatePair(p2))]
    else if p.kind == 'S' then
      [Section(Quad(0.0, b, 0.0), SingleQuad(p.at, a, b))]
    else []
  }

  function BandSections(sqrt: real -> real, poles: seq<Pole>, a: real, b: real): (secs: seq<Section>)
    ensures |secs| <= 2 * |poles|
  {
    if |poles| == 0 then []
    else BandSections(sqrt, poles[..|poles| - 1], a, b) + PoleSections(sqrt, poles[|poles| - 1], a, b)
  }

  lemma BandRootsSumAndProduct(sqrt: real -> real, p: Complex, a: real, b: real)
    requires IsSqrt(sqrt)
    ensures var (p1, p2) := BandRoots(sqrt, p, a, b);
      Add(p1, p2) == Scale(b, p) && Mul(p1, p2) == Real(a)
  {
    var t := Scale(b, p);
    var c := Mul(t, t);
    var d := Complex(c.re - 4.0 * a, c.im);
    var q := Csqrt(sqrt, d);
    CsqrtSquares(sqrt, d);
    hide Csqrt, IsSqrt;
    HalfSumProduct(t, q);
    assert Sub(c, d) == Real(4.0 * a);
  }

  lemma HalfSumProduct(t: Complex, q: Complex)
    ensures Add(Scale(0.5, Add(t, q)), Scale(0.5, Sub(t, q))) == t
    ensures Mul(Scale(0.5, Add(t, q)), Scale(0.5, Sub(t, q))) == Scale(0.25, Sub(Mul(t, t), Mul(q, q)))
  {}

  /** s^2 - (p1 + p2) s + p1 p2, factored. */
  lemma Factored(s: Complex, p1: Complex, p2: Complex)
    ensures Mul(Sub(s, p1), Sub(s, p2)) == Add(Sub(Mul(s, s), Mul(Add(p1, p2), s)), Mul(p1, p2))
  {
    var v := Sub(s, p1);
    MulSubtracts(v, s, p2);
    MulCommutes(v, s);
    MulSubtracts(s, s, p1);
    MulCommutes(v, p2);
    MulSubtracts(p2, s, p1);
    MulCommutes(p2, s);
    MulCommutes(p2, p1);
    MulCommutes(Add(p1, p2), s);
    MulAdds(s, p1, p2);
    hide Mul;
  }

  lemma ConjugatePairFactored(s: Complex, r: Complex)
    ensures Eval(ConjugatePair(r), s) == Mul(Sub(s, r), Sub(s, Conj(r)))
  {
    Factored(s, r, Conj(r));
    EvalMonic(ConjugatePair(r), s);
    assert Add(r, Conj(r)) == Real(2.0 * r.re);
    assert Mul(r, Conj(r)) == Real(Mul(r, Conj(r)).re);
    assert Mul(Real(2.0 * r.re), s) == Scale(2.0 * r.re, s);
    assert Scale(-2.0 * r.re, s) == Sub(ZERO, Scale(2.0 * r.re, s));
    hide Mul, Scale;
  }

  lemma EvalMonic(q: Quad, s: Complex)
    requires q.c2 == 1.0
    ensures Eval(q, s) == Add(Add(Real(q.c0), Scale(q.c1, s)), Mul(s, s))
  {}

  /** `u` is the low-pass variable that the band-pass variable `s` stands for. */
  ghost predicate BandVariable(s: Complex, u: Complex, a: real, b: real) {
    Mul(u, Scale(b, s)) == Add(Mul(s, s), Real(a))
  }

  /** (s - p1)(s - p2) == (u - p) b s for the two roots of s^2 - b p s + a. */
  lemma RootsMeaning(s: Complex, u: Complex, p: Complex, p1: Complex, p2: Complex, a: real, b: real)
    requires BandVariable(s, u, a, b) && Add(p1, p2) == Scale(b, p) && Mul(p1, p2) == Real(a)
    ensures Mul(Sub(s, p1), Sub(s, p2)) == Mul(Sub(u, p), Scale(b, s))
  {
    Factored(s, p1, p2);
    var v := Scale(b, s);
    ScaledProduct(b, p, s);
    MulCommutes(Sub(u, p), v);
    MulSubtracts(v, u, p);
    MulCommutes(u, v);
    MulCommutes(p, v);
    hide Mul;
    assert Add(Sub(Mul(s, s), Mul(p, v)), Real(a)) == Sub(Add(Mul(s, s), Real(a)), Mul(p, v));
  }

  lemma ScaledProduct(b: real, p: Complex, s: Complex)
    ensures Mul(Scale(b, p), s) == Mul(p, Scale(b, s))
  {}

  lemma ConjugateRoots(p: Complex, p1: Complex, p2: Complex, a: real, b: real)
    requires Add(p1, p2) == Scale(b, p) && Mul(p1, p2) == Real(a)
    ensures Add(Conj(p1), Conj(p2)) == Scale(b, Conj(p)) && Mul(Conj(p1), Conj(p2)) == Real(a)
  {}

  lemma EvalNumerator(b: real, s: Complex)
    ensures Eval(Quad(0.0, b, 0.0), s) == Scale(b, s)
  {}

  /** The sections of one pole multiply to the pole's low-pass factor. */
  lemma PairMeaning(sqrt: real -> real, p: Complex, s: Complex, u: Complex, a: real, b: real)
    requires IsSqrt(sqrt) && BandVariable(s, u, a, b)
    ensures var (p1, p2) := BandRoots(sqrt, p, a, b);
      Mul(Eval(ConjugatePair(p1), s), Eval(ConjugatePair(p2), s))
        == Mul(Mul(Sub(u, p), Sub(u, Conj(p))), Mul(Scale(b, s), Scale(b, s)))
  {
    var (p1, p2) := BandRoots(sqrt, p, a, b);
    BandRootsSumAndProduct(sqrt, p, a, b);
    ConjugateRoots(p, p1, p2, a, b);
    hide Mul, Sub, Add, Conj, Scale, Eval, ConjugatePair, BandRoots, IsSqrt, BandVariable;
    ConjugatePairFactored(s, p1);
    ConjugatePairFactored(s, p2);
    RootsMeaning(s, u, p, p1, p2, a, b);
    RootsMeaning(s, u, Conj(p), Conj(p1), Conj(p2), a, b);
    MulRegroup(Sub(s, p1), Sub(s, Conj(p1)), Sub(s, p2), Sub(s, Conj(p2)));
    MulRegroup(Sub(u, p), Scale(b, s), Sub(u, Conj(p)), Scale(b, s));
  }

  lemma SingleMeaning(p: Complex, s: Complex, u: Complex, a: real, b: real)
    requires BandVariable(s, u, a, b)
    ensures Eval(SingleQuad(p, a, b), s) == Mul(Sub(u, Real(p.re)), Scale(b, s))
  {
    var v := Scale(b, s);
    var r := Real(p.re);
    EvalMonic(SingleQuad(p, a, b), s);
    MulCommutes(Sub(u, r), v);
    MulSubtracts(v, u, r);
    MulCommutes(u, v);
    MulCommutes(r, v);
    assert Scale(-b * p.re, s) == Sub(ZERO, Mul(r, v));
    hide Mul, Scale, Eval;
  }

  lemma NumAtSplit(x: seq<Section>, y: seq<Section>, s: Complex)
    requires |y| <= 2
    ensures NumAt(x + y, s) == Mul(NumAt(x, s), NumAt(y, s))
    ensures DenAt(x + y, s) == Mul(DenAt(x, s), DenAt(y, s))
  {
    hide Mul, Eval;
    MulOne(NumAt(x, s));
    MulOne(DenAt(x, s));
    if |y| == 0 {
      assert x + y == x;
    } else {
      SplitLast(x, y, s);
      if |y| == 1 {
        assert y[..0] == [] && x + y[..0] == x;
        MulOne(Eval(y[0].num, s));
        MulOne(Eval(y[0].den, s));
      } else {
        var z := y[..1];
        SplitLast(x, z, s);
        assert z[..0] == [] && x + z[..0] == x;
        MulOne(Eval(y[0].num, s));
        MulOne(Eval(y[0].den, s));
        MulAssociates(NumAt(x, s), NumAt(z, s), Eval(y[1].num, s));
        MulAssociates(DenAt(x, s), DenAt(z, s), Eval(y[1].den, s));
      }
    }
  }

  lemma SplitLast(x: seq<Section>, y: seq<Section>, s: Complex)
    requires |y| > 0
    ensures NumAt(x + y, s) == Mul(NumAt(x + y[..|y| - 1], s), Eval(y[|y| - 1].num, s))
    ensures DenAt(x + y, s) == Mul(DenAt(x + y[..|y| - 1], s), Eval(y[|y| - 1].den, s))
  {
    assert (x + y)[..|x + y| - 1] == x + y[..|y| - 1];
  }

  lemma PoleSectionsMeaning(sqrt: real -> real, p: Pole, s: Complex, u: Complex, a: real, b: real)
    requires IsSqrt(sqrt) && BandVariable(s, u, a, b)
    ensures var secs := PoleSections(sqrt, p, a, b); DenAt(secs, s) == Mul(PoleFactor(p, u), NumAt(secs, s))
  {
    hide Mul, Eval, BandRoots, ConjugatePair, SingleQuad, Sub, Scale, BandVariable, IsSqrt;
    EvalNumerator(b, s);
    if p.kind == 'C' {
      var (p1, p2) := BandRoots(sqrt, p.at, a, b);
      PairMeaning(sqrt, p.at, s, u, a, b);
      TwoSections(Section(Quad(0.0, b, 0.0), ConjugatePair(p1)), Section(Quad(0.0, b, 0.0), ConjugatePair(p2)), s);
    } else if p.kind == 'S' {
      SingleMeaning(p.at, s, u, a, b);
      OneSection(Section(Quad(0.0, b, 0.0), SingleQuad(p.at, a, b)), s);
    } else {
      MulOne(ONE);
    }
  }

  lemma OneSection(x: Section, s: Complex)
    ensures NumAt([x], s) == Eval(x.num, s) && DenAt([x], s) == Eval(x.den, s)
  {
    hide Mul, Eval;
    assert [x][..0] == [];
    MulOne(Eval(x.num, s));
    MulOne(Eval(x.den, s));
    SplitLast([], [x], s);
    assert [] + [x] == [x] && [] + [x][..0] == [];
  }

  lemma TwoSections(x: Section, y: Section, s: Complex)
    ensures NumAt([x, y], s) == Mul(Eval(x.num, s), Eval(y.num, s))
    ensures DenAt([x, y], s) == Mul(Eval(x.den, s), Eval(y.den, s))
  {
    hide Mul, Eval;
    assert [x, y][..1] == [x];
    OneSection(x, s);
  }

  /** lptbpa preserves meaning: the product of its sections is the low-pass transfer function at
      u == (s^2 + a) / (b s). */
  lemma {:induction false} BandSectionsMeaning(
      sqrt: real -> real, poles: seq<Pole>, s: Complex, u: Complex, a: real, b: real)
    requires IsSqrt(sqrt) && BandVariable(s, u, a, b)
    ensures var secs := BandSections(sqrt, poles, a, b); DenAt(secs, s) == Mul(LowPass(poles, u), NumAt(secs, s))
  {
    hide Mul, PoleFactor, PoleSections, BandVariable, IsSqrt, Eval;
    if |poles| == 0 {
      MulOne(ONE);
    } else {
      var front, last := poles[..|poles| - 1], poles[|poles| - 1];
      var x, y := BandSections(sqrt, front, a, b), PoleSections(sqrt, last, a, b);
      BandSectionsMeaning(sqrt, front, s, u, a, b);
      PoleSectionsMeaning(sqrt, last, s, u, a, b);
      NumAtSplit(x, y, s);
      MulRegroup(LowPass(front, u), NumAt(x, s), PoleFactor(last, u), NumAt(y, s));
    }
  }
}

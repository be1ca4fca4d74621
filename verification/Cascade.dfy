/** libsrc/filters.c: secord, apiir and apiirG, the recursive filter at run time. */
module Cascade {
  import opened ComplexNumbers
  import opened BandPass

  /** The last two inputs and outputs of a section. */
  datatype Memory = Memory(x1: real, x2: real, y1: real, y2: real)

  function Secord(sec: Section, m: Memory, x: real): (real, Memory) {
    var y := sec.num.c0 * x + sec.num.c1 * m.x1 + sec.num.c2 * m.x2 - (sec.den.c1 * m.y1 + sec.den.c2 * m.y2);
    (y, Memory(x, m.x1, y, m.y1))
  }

  /** One section over a whole signal. */
  function SectionRun(sec: Section, m: Memory, xs: seq<real>): (r: (seq<real>, Memory))
    ensures |r.0| == |xs|
    decreases |xs|
  {
    if |xs| == 0 then ([], m)
    else
      var (y, m1) := Secord(sec, m, xs[0]);
      var (ys, m2) := SectionRun(sec, m1, xs[1..]);
      ([y] + ys, m2)
  }

  /** One sample through all the sections. */
  function CascadeStep(secs: seq<Section>, ms: seq<Memory>, x: real): (r: (real, seq<Memory>))
    requires |secs| == |ms|
    ensures |r.1| == |ms|
  {
    if |secs| == 0 then (x, [])
    else
      var (y, m) := Secord(secs[0], ms[0], x);
      var (z, rest) := CascadeStep(secs[1..], ms[1..], y);
      (z, [m] + rest)
  }

  /** The order of apiir: every sample passes all the sections before the next one starts. */
  function CascadeRun(secs: seq<Section>, ms: seq<Memory>, xs: seq<real>): (r: (seq<real>, seq<Memory>))
    requires |secs| == |ms|
    ensures |r.0| == |xs| && |r.1| == |ms|
    decreases |xs|
  {
    if |xs| == 0 then ([], ms)
    else
      var (y, ms1) := CascadeStep(secs, ms, xs[0]);
      var (ys, ms2) := CascadeRun(secs, ms1, xs[1..]);
      ([y] + ys, ms2)
  }

  /** The textbook order: every section filters the whole output of the one before it. */
  ghost function Stages(secs: seq<Section>, ms: seq<Memory>, xs: seq<real>): (r: (seq<real>, seq<Memory>))
    requires |secs| == |ms|
    ensures |r.0| == |xs| && |r.1| == |ms|
  {
    if |secs| == 0 then (xs, [])
    else
      var (ys, m) := SectionRun(secs[0], ms[0], xs);
      var (zs, rest) := Stages(secs[1..], ms[1..], ys);
      (zs, [m] + rest)
  }

  /** Splitting the signal anywhere and carrying the memories over changes nothing. */
  lemma {:induction false} CascadeRunSplits(secs: seq<Section>, ms: seq<Memory>, a: seq<real>, b: seq<real>)
    requires |secs| == |ms|
    ensures var (ya, ms1) := CascadeRun(secs, ms, a);
      var (yb, ms2) := CascadeRun(secs, ms1, b);
      CascadeRun(secs, ms, a + b) == (ya + yb, ms2)
    decreases |a|
  {
    hide CascadeStep;
    if |a| == 0 {
      assert a + b == b;
      var yb := CascadeRun(secs, ms, b).0;
      assert [] + yb == yb;
    } else {
      var (y, ms1) := CascadeStep(secs, ms, a[0]);
      CascadeRunSplits(secs, ms1, a[1..], b);
      assert (a + b)[0] == a[0] && (a + b)[1..] == a[1..] + b;
      var (ya, ms2) := CascadeRun(secs, ms1, a[1..]);
      var yb := CascadeRun(secs, ms2, b).0;
      assert ([y] + ya) + yb == [y] + (ya + yb);
    }
  }

  lemma {:induction false} StagesEmpty(secs: seq<Section>, ms: seq<Memory>)
    requires |secs| == |ms|
    ensures Stages(secs, ms, []) == ([], ms)
    decreases |secs|
  {
    if |secs| > 0 {
      StagesEmpty(secs[1..], ms[1..]);
      assert [ms[0]] + ms[1..] == ms;
    }
  }

  lemma {:induction false} StagesFirst(secs: seq<Section>, ms: seq<Memory>, x: real, xs: seq<real>)
    requires |secs| == |ms|
    ensures var (y, ms1) := CascadeStep(secs, ms, x);
      var (ys, ms2) := Stages(secs, ms1, xs);
      Stages(secs, ms, [x] + xs) == ([y] + ys, ms2)
    decreases |secs|
  {
    hide Secord;
    assert ([x] + xs)[1..] == xs;
    if |secs| > 0 {
      var (v, m) := Secord(secs[0], ms[0], x);
      var (vs, m') := SectionRun(secs[0], m, xs);
      assert SectionRun(secs[0], ms[0], [x] + xs) == ([v] + vs, m');
      StagesFirst(secs[1..], ms[1..], v, vs);
      var (y, rest) := CascadeStep(secs[1..], ms[1..], v);
      assert ([m] + rest)[1..] == rest;
    }
  }

  /** Sample by sample or section by section: the outputs and the memories are the same. */
  lemma {:induction false} OrderDoesNotMatter(secs: seq<Section>, ms: seq<Memory>, xs: seq<real>)
    requires |secs| == |ms|
    ensures CascadeRun(secs, ms, xs) == Stages(secs, ms, xs)
    decreases |xs|
  {
    hide CascadeStep, Secord;
    if |xs| == 0 {
      StagesEmpty(secs, ms);
    } else {
      var (y, ms1) := CascadeStep(secs, ms, xs[0]);
      OrderDoesNotMatter(secs, ms1, xs[1..]);
      StagesFirst(secs, ms, xs[0], xs[1..]);
      assert [xs[0]] + xs[1..] == xs;
    }
  }

  // ----- what a run computes

  /** xs[0] + xs[1] w + xs[2] w^2 + ... */
  ghost function Series(xs: seq<real>, w: Complex): Complex {
    if |xs| == 0 then ZERO else Add(Real(xs[0]), Mul(w, Series(xs[1..], w)))
  }

  ghost function PendingNow(sec: Section, m: Memory): real {
    sec.num.c1 * m.x1 + sec.num.c2 * m.x2 - sec.den.c1 * m.y1 - sec.den.c2 * m.y2
  }

  ghost function PendingNext(sec: Section, m: Memory): real {
    sec.num.c2 * m.x1 - sec.den.c2 * m.y1
  }

  /** What a section's memory contributes to its future output, as a polynomial in w. */
  ghost function Pending(sec: Section, m: Memory, w: Complex): Complex {
    Add(Real(PendingNow(sec, m)), Scale(PendingNext(sec, m), w))
  }

  /** One sample: D(w) y + w I' == N(w) x + I. */
  lemma StepTransfer(sec: Section, m: Memory, x: real, w: Complex)
    requires sec.den.c0 == 1.0
    ensures var (y, m1) := Secord(sec, m, x);
      Add(Mul(Eval(sec.den, w), Real(y)), Mul(w, Pending(sec, m1, w)))
        == Add(Mul(Eval(sec.num, w), Real(x)), Pending(sec, m, w))
  {
    var (y, m1) := Secord(sec, m, x);
    var ww := Mul(w, w);
    EvalTimesReal(sec.den, w, y);
    EvalTimesReal(sec.num, w, x);
    PendingLater(PendingNow(sec, m1), PendingNext(sec, m1), w);
    hide Mul, Eval, Secord, PendingNow, PendingNext;
    StepParts(sec, m, x, w.re, ww.re, 1.0);
    StepParts(sec, m, x, w.im, ww.im, 0.0);
    var k, l := PendingNow(sec, m1), PendingNext(sec, m1);
    assert Mul(w, Pending(sec, m1, w)) == Add(Scale(k, w), Scale(l, ww));
    var q, n := sec.den, sec.num;
    StepSum(q.c0 * y, q.c1 * y, q.c2 * y, k, l, n.c0 * x, n.c1 * x, n.c2 * x, PendingNow(sec, m), PendingNext(sec, m), w, ww);
  }

  /** The two components put together. */
  lemma StepSum(a0: real, a1: real, a2: real, k: real, l: real, b0: real, b1: real, b2: real, i: real, j: real,
                w: Complex, ww: Complex)
    requires a0 + a1 * w.re + a2 * ww.re + (k * w.re + l * ww.re) == b0 + b1 * w.re + b2 * ww.re + (i + j * w.re)
    requires a1 * w.im + a2 * ww.im + (k * w.im + l * ww.im) == b1 * w.im + b2 * ww.im + j * w.im
    ensures Add(Add(Add(Real(a0), Scale(a1, w)), Scale(a2, ww)), Add(Scale(k, w), Scale(l, ww)))
         == Add(Add(Add(Real(b0), Scale(b1, w)), Scale(b2, ww)), Add(Real(i), Scale(j, w)))
  {
    LeftSum(a0, a1, a2, k, l, w, ww);
    RightSum(b0, b1, b2, i, j, w, ww);
    hide Add, Scale;
  }

  lemma LeftSum(a0: real, a1: real, a2: real, k: real, l: real, w: Complex, ww: Complex)
    ensures Add(Add(Add(Real(a0), Scale(a1, w)), Scale(a2, ww)), Add(Scale(k, w), Scale(l, ww)))
         == Complex(a0 + a1 * w.re + a2 * ww.re + (k * w.re + l * ww.re),
                    a1 * w.im + a2 * ww.im + (k * w.im + l * ww.im))
  {
    ScaleParts(a1, w);
    ScaleParts(a2, ww);
    ScaleParts(k, w);
    ScaleParts(l, ww);
    hide Scale;
  }

  lemma RightSum(b0: real, b1: real, b2: real, i: real, j: real, w: Complex, ww: Complex)
    ensures Add(Add(Add(Real(b0), Scale(b1, w)), Scale(b2, ww)), Add(Real(i), Scale(j, w)))
         == Complex(b0 + b1 * w.re + b2 * ww.re + (i + j * w.re), b1 * w.im + b2 * ww.im + j * w.im)
  {
    ScaleParts(b1, w);
    ScaleParts(b2, ww);
    ScaleParts(j, w);
    hide Scale;
  }

  lemma ScaleParts(k: real, w: Complex)
    ensures Scale(k, w).re == k * w.re && Scale(k, w).im == k * w.im
  {}

  lemma PendingLater(k: real, l: real, w: Complex)
    ensures Mul(w, Add(Real(k), Scale(l, w))) == Add(Scale(k, w), Scale(l, Mul(w, w)))
  {
    MulAdds(w, Real(k), Scale(l, w));
    TimesReal(w, k);
    TimesScaled(w, l);
  }

  lemma TimesReal(w: Complex, k: real)
    ensures Mul(w, Real(k)) == Scale(k, w)
  {}

  lemma TimesScaled(w: Complex, l: real)
    ensures Mul(w, Scale(l, w)) == Scale(l, Mul(w, w))
  {}

  lemma EvalTimesReal(q: Quad, w: Complex, x: real)
    ensures Mul(Eval(q, w), Real(x)) == Add(Add(Real(q.c0 * x), Scale(q.c1 * x, w)), Scale(q.c2 * x, Mul(w, w)))
  {
    TimesReal(Eval(q, w), x);
    var m := Mul(w, w);
    hide Mul;
    EvalScaled(q, w, m, x);
  }

  lemma EvalScaled(q: Quad, w: Complex, m: Complex, x: real)
    ensures Scale(x, Add(Add(Real(q.c0), Scale(q.c1, w)), Scale(q.c2, m)))
         == Add(Add(Real(q.c0 * x), Scale(q.c1 * x, w)), Scale(q.c2 * x, m))
  {}

  /** One component of StepTransfer: `u` and `v` are that component of w and w^2. */
  lemma StepParts(sec: Section, m: Memory, x: real, u: real, v: real, one: real)
    requires sec.den.c0 == 1.0
    ensures var (y, m1) := Secord(sec, m, x);
      sec.den.c0 * y * one + sec.den.c1 * y * u + sec.den.c2 * y * v + (PendingNow(sec, m1) * u + PendingNext(sec, m1) * v)
        == sec.num.c0 * x * one + sec.num.c1 * x * u + sec.num.c2 * x * v
           + (PendingNow(sec, m) * one + PendingNext(sec, m) * u)
  {
    var (y, m1) := Secord(sec, m, x);
    var i, j := PendingNow(sec, m), PendingNext(sec, m);
    assert y == sec.num.c0 * x + i;
    assert PendingNow(sec, m1) == sec.num.c1 * x - sec.den.c1 * y + j;
    assert PendingNext(sec, m1) == sec.num.c2 * x - sec.den.c2 * y;
    hide Secord, PendingNow, PendingNext;
    Collect(sec.num.c0, sec.num.c1, sec.num.c2, sec.den.c1, sec.den.c2, x, y, i, j, u, v, one);
  }

  lemma Collect(n0: real, n1: real, n2: real, d1: real, d2: real, x: real, y: real, i: real, j: real,
                u: real, v: real, one: real)
    requires y == n0 * x + i
    ensures y * one + d1 * y * u + d2 * y * v + ((n1 * x - d1 * y + j) * u + (n2 * x - d2 * y) * v)
         == n0 * x * one + n1 * x * u + n2 * x * v + (i * one + j * u)
  {
    assert y * one == n0 * x * one + i * one;
  }

  /** A section from memory `m` realises its transfer function: with Y and X the series of output
      and input, D Y == N X + I(before) - w^n I(after). */
  lemma {:induction false} SectionTransfer(sec: Section, m: Memory, xs: seq<real>, w: Complex)
    requires sec.den.c0 == 1.0
    ensures var (ys, m2) := SectionRun(sec, m, xs);
      Add(Mul(Eval(sec.den, w), Series(ys, w)), Mul(Power(w, |xs|), Pending(sec, m2, w)))
        == Add(Mul(Eval(sec.num, w), Series(xs, w)), Pending(sec, m, w))
    decreases |xs|
  {
    hide Eval, Pending, Mul, Add, Secord;
    var D, N := Eval(sec.den, w), Eval(sec.num, w);
    if |xs| == 0 {
      MulZero(D);
      MulZero(N);
      MulOne(Pending(sec, m, w));
    } else {
      var (y, m1) := Secord(sec, m, xs[0]);
      var (ys, m2) := SectionRun(sec, m1, xs[1..]);
      SectionTransfer(sec, m1, xs[1..], w);
      StepTransfer(sec, m, xs[0], w);
      assert ([y] + ys)[1..] == ys;
      MulCommutes(Power(w, |xs| - 1), w);
      MulAssociates(w, Power(w, |xs| - 1), Pending(sec, m2, w));
      Unroll(D, N, w, y, xs[0], Series(ys, w), Series(xs[1..], w), Mul(Power(w, |xs| - 1), Pending(sec, m2, w)),
             Pending(sec, m1, w), Pending(sec, m, w));
    }
  }

  lemma MulZero(a: Complex)
    ensures Mul(a, ZERO) == ZERO
  {}

  /** D Y + T == N X + I1 for the later samples and D y + w I1 == N x + I for the first one. */
  lemma Unroll(D: Complex, N: Complex, w: Complex, y: real, x: real, Y: Complex, X: Complex, T: Complex, I1: Complex, I: Complex)
    requires Add(Mul(D, Y), T) == Add(Mul(N, X), I1)
    requires Add(Mul(D, Real(y)), Mul(w, I1)) == Add(Mul(N, Real(x)), I)
    ensures Add(Mul(D, Add(Real(y), Mul(w, Y))), Mul(w, T)) == Add(Mul(N, Add(Real(x), Mul(w, X))), I)
  {
    MulAdds(D, Real(y), Mul(w, Y));
    MulAdds(N, Real(x), Mul(w, X));
    MulAdds(w, Mul(D, Y), T);
    MulAdds(w, Mul(N, X), I1);
    Exchange(D, w, Y);
    Exchange(N, w, X);
    hide Mul;
  }

  lemma Exchange(a: Complex, w: Complex, b: Complex)
    ensures Mul(a, Mul(w, b)) == Mul(w, Mul(a, b))
  {
    hide Mul;
    MulAssociates(a, w, b);
    MulCommutes(a, w);
    MulAssociates(w, a, b);
  }

  /** Numerator and denominator of a cascade, first section first. */
  ghost function Num(secs: seq<Section>, w: Complex): Complex {
    if |secs| == 0 then ONE else Mul(Eval(secs[0].num, w), Num(secs[1..], w))
  }

  ghost function Den(secs: seq<Section>, w: Complex): Complex {
    if |secs| == 0 then ONE else Mul(Eval(secs[0].den, w), Den(secs[1..], w))
  }

  ghost function PendingAll(secs: seq<Section>, ms: seq<Memory>, w: Complex): Complex
    requires |secs| == |ms|
  {
    if |secs| == 0 then ZERO
    else Add(Mul(Num(secs[1..], w), Pending(secs[0], ms[0], w)),
             Mul(Eval(secs[0].den, w), PendingAll(secs[1..], ms[1..], w)))
  }

  ghost predicate Monic(secs: seq<Section>) {
    forall k :: 0 <= k < |secs| ==> secs[k].den.c0 == 1.0
  }

  lemma {:induction false} StagesTransfer(secs: seq<Section>, ms: seq<Memory>, xs: seq<real>, w: Complex)
    requires |secs| == |ms| && Monic(secs)
    ensures var (ys, ms2) := Stages(secs, ms, xs);
      Add(Mul(Den(secs, w), Series(ys, w)), Mul(Power(w, |xs|), PendingAll(secs, ms2, w)))
        == Add(Mul(Num(secs, w), Series(xs, w)), PendingAll(secs, ms, w))
    decreases |secs|
  {
    hide Eval, Pending, Mul, Add, SectionRun, Series, Power;
    if |secs| == 0 {
      MulOne(Series(xs, w));
      MulZero(Power(w, |xs|));
    } else {
      var (vs, m) := SectionRun(secs[0], ms[0], xs);
      var (ys, rest) := Stages(secs[1..], ms[1..], vs);
      SectionTransfer(secs[0], ms[0], xs, w);
      StagesTransfer(secs[1..], ms[1..], vs, w);
      assert ([m] + rest)[1..] == rest;
      Chain(Eval(secs[0].den, w), Eval(secs[0].num, w), Den(secs[1..], w), Num(secs[1..], w), Power(w, |xs|),
            Series(xs, w), Series(vs, w), Series(ys, w), Pending(secs[0], ms[0], w), Pending(secs[0], m, w),
            PendingAll(secs[1..], ms[1..], w), PendingAll(secs[1..], rest, w));
    }
  }

  /** Two transfers in series. */
  lemma Chain(D: Complex, N: Complex, Dr: Complex, Nr: Complex, W: Complex, X: Complex, V: Complex, Y: Complex,
              I: Complex, J: Complex, Ir: Complex, Jr: Complex)
    requires Add(Mul(D, V), Mul(W, J)) == Add(Mul(N, X), I)
    requires Add(Mul(Dr, Y), Mul(W, Jr)) == Add(Mul(Nr, V), Ir)
    ensures Add(Mul(Mul(D, Dr), Y), Mul(W, Add(Mul(Nr, J), Mul(D, Jr))))
         == Add(Mul(Mul(N, Nr), X), Add(Mul(Nr, I), Mul(D, Ir)))
  {
    MulAssociates(D, Dr, Y);
    MulAdds(W, Mul(Nr, J), Mul(D, Jr));
    Exchange(W, Nr, J);
    Exchange(W, D, Jr);
    MulCommutes(N, Nr);
    MulAssociates(Nr, N, X);
    MulAdds(D, Mul(Dr, Y), Mul(W, Jr));
    MulAdds(D, Mul(Nr, V), Ir);
    Exchange(D, Nr, V);
    MulAdds(Nr, Mul(D, V), Mul(W, J));
    MulAdds(Nr, Mul(N, X), I);
    hide Mul;
  }

  lemma {:induction false} NumIsNumAt(secs: seq<Section>, w: Complex)
    ensures Num(secs, w) == NumAt(secs, w) && Den(secs, w) == DenAt(secs, w)
  {
    hide Eval, Mul;
    if |secs| > 0 {
      NumIsNumAt(secs[1..], w);
      NumAtFirst(secs[0], secs[1..], w);
      assert [secs[0]] + secs[1..] == secs;
    }
  }

  lemma {:induction false} NumAtFirst(sec: Section, rest: seq<Section>, w: Complex)
    ensures NumAt([sec] + rest, w) == Mul(Eval(sec.num, w), NumAt(rest, w))
    ensures DenAt([sec] + rest, w) == Mul(Eval(sec.den, w), DenAt(rest, w))
    decreases |rest|
  {
    hide Eval, Mul;
    if |rest| == 0 {
      assert [sec] + rest == [sec];
      OneSection(sec, w);
      MulOne(Eval(sec.num, w));
      MulOne(Eval(sec.den, w));
    } else {
      var front, last := rest[..|rest| - 1], rest[|rest| - 1];
      SplitLast([sec], rest, w);
      NumAtFirst(sec, front, w);
      MulAssociates(Eval(sec.num, w), NumAt(front, w), Eval(last.num, w));
      MulAssociates(Eval(sec.den, w), DenAt(front, w), Eval(last.den, w));
    }
  }

  /** What apiir computes, before truncation: from any memories the run obeys the transfer function
      NumAt / DenAt of its sections. */
  lemma {:induction false} RunTransfer(secs: seq<Section>, ms: seq<Memory>, xs: seq<real>, w: Complex)
    requires |secs| == |ms| && Monic(secs)
    ensures var (ys, ms2) := CascadeRun(secs, ms, xs);
      Add(Mul(DenAt(secs, w), Series(ys, w)), Mul(Power(w, |xs|), PendingAll(secs, ms2, w)))
        == Add(Mul(NumAt(secs, w), Series(xs, w)), PendingAll(secs, ms, w))
  {
    OrderDoesNotMatter(secs, ms, xs);
    StagesTransfer(secs, ms, xs, w);
    NumIsNumAt(secs, w);
  }
}

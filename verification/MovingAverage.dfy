/** libsrc/get_pick.c: MovingAvg, the block averages that the picker's thresholds come from. */
module MovingAverage {
  import Reals

  /** Settings of one station: `N` is the longest half-cycle in samples, `L` the block length. */
  datatype Config = Config(N: int, L: int, fs: real, signalToNoise: int,
                           mwpSeconds: int, lgSeconds: int, snLocal: real, minFLocal: real)
  {
    predicate Valid() { 1 <= N <= L && 1 < L && fs > 0.0 && signalToNoise >= 0 }
  }

  datatype Averages = Averages(
    status: int,        // iPickStatus
    sampNew: int, sampOld: int, mdfNew: int, mdfOld: int,
    ctr: int,           // lLTACtr
    cyc: int,           // lCycCntLTA
    perCyc: int,        // lSampsPerCycLTA
    run: int,           // lMDFRunningLTA
    sumMDF: real, sumLDC: real, sumLTA: real,
    aveMDF: real, aveLDC: real, aveLTA: real,
    mdfThresh: real, ltaThresh: real)

  const CLEARED := Averages(1, 0, 0, 0, 0, 0, 0, 0, 0, 0.0, 0.0, 0.0, 0.0, 0.0, 0.0, 0.0, 0.0)

  function AbsInt(x: int): (y: int)
    ensures y >= 0 && (y == x || y == -x)
  {
    if x < 0 then -x else x
  }

  predicate SameSign(a: int, b: int) {
    (a < 0 && b < 0) || (a >= 0 && b >= 0)
  }

  function Accumulate(a: Averages): Averages {
    if a.status == 1 then
      a.(sumLDC := a.sumLDC + a.sampOld as real, sumLTA := a.sumLTA + AbsInt(a.sampOld) as real)
    else
      a.(sumLDC := a.sumLDC + (a.sampOld as real - a.aveLDC),
         sumLTA := a.sumLTA + (Reals.Abs(a.sampOld as real - a.aveLDC) - a.aveLTA))
  }

  function NewAverages(a: Averages, L: int): Averages
    requires a.cyc > 0 && L > 1
  {
    if a.status == 1 then
      a.(aveMDF := a.sumMDF / a.cyc as real,
         aveLDC := a.sumLDC / (L - 1) as real,
         aveLTA := a.sumLTA / (L - 1) as real,
         status := 2)
    else
      a.(aveMDF := a.aveMDF + 0.5 * a.sumMDF / a.cyc as real,
         aveLDC := a.aveLDC + 0.5 * a.sumLDC / L as real,
         aveLTA := a.aveLTA + 0.5 * a.sumLTA / L as real)
  }

  function CloseBlock(a: Averages, c: Config): Averages
    requires a.cyc > 0 && c.L > 1
  {
    var b := NewAverages(a, c.L);
    b.(sumMDF := 0.0, sumLDC := 0.0, sumLTA := 0.0, ctr := 0, cyc := 0,
       mdfThresh := 0.5 * c.signalToNoise as real * b.aveMDF,
       ltaThresh := 1.57 * c.signalToNoise as real * b.aveLTA)
  }

  /** Closes the running half-cycle and starts a new one with the present difference. */
  function CloseRun(a: Averages): Averages {
    a.(sumMDF := a.sumMDF + if a.status == 1 then AbsInt(a.run) as real else AbsInt(a.run) as real - a.aveMDF,
       run := a.mdfNew, cyc := a.cyc + 1, perCyc := 0)
  }

  predicate Continues(a: Averages, N: int) {
    SameSign(a.mdfOld, a.mdfNew) && a.perCyc + 1 < N
  }

  function RunStep(a: Averages, N: int): Averages {
    if Continues(a, N) then a.(perCyc := a.perCyc + 1, run := a.run + a.mdfNew) else CloseRun(a)
  }

  function Present(a: Averages, x: int): Averages {
    a.(sampNew := x, mdfNew := x - a.sampOld)
  }

  function BlockStep(a: Averages, c: Config): Averages
    requires c.L > 1 && (a.ctr < c.L || a.cyc > 0)
  {
    if a.ctr < c.L then Accumulate(a) else CloseBlock(a, c)
  }

  /** One call of MovingAvg. */
  function AvgStep(a: Averages, x: int, c: Config): Averages
    requires c.L > 1 && (a.ctr < c.L || a.cyc > 0)
  {
    var b := RunStep(BlockStep(Present(a, x), c), c.N);
    b.(sampOld := x, ctr := b.ctr + 1)
  }

  /** One sample as the picker processes it: MovingAvg, then the difference becomes the old one. */
  function AvgSample(a: Averages, x: int, c: Config): Averages
    requires c.L > 1 && (a.ctr < c.L || a.cyc > 0)
  {
    var b := AvgStep(a, x, c);
    b.(mdfOld := b.mdfNew)
  }

  /** What every call keeps.  The third line is why a block never ends without a closed half-cycle;
      the last three keep the averages from going negative. */
  ghost predicate AvgInv(a: Averages, c: Config) {
    && a.status >= 1
    && 0 <= a.perCyc < c.N && 0 <= a.ctr <= c.L && 0 <= a.cyc
    && (a.cyc == 0 ==> a.perCyc >= a.ctr)
    && a.aveMDF >= 0.0 && a.aveLTA >= 0.0 && a.mdfThresh >= 0.0 && a.ltaThresh >= 0.0
    && (a.status != 1 ==> a.ctr >= 1)
    && (if a.status == 1 then a.sumMDF >= 0.0 && a.sumLTA >= 0.0
        else a.sumMDF + a.cyc as real * a.aveMDF >= 0.0 && a.sumLTA + (a.ctr - 1) as real * a.aveLTA >= 0.0)
  }

  /** The divisor of the half-cycle average is positive at every block end. */
  lemma BlockEndHasCycles(a: Averages, c: Config)
    requires c.Valid() && AvgInv(a, c) && a.ctr >= c.L
    ensures a.cyc > 0
  {}

  lemma QuotientNonNegative(x: real, n: int)
    requires x >= 0.0 && n > 0
    ensures x / n as real >= 0.0
  {}

  lemma NewAveragesInv(a: Averages, c: Config)
    requires c.Valid() && AvgInv(a, c) && a.cyc > 0 && a.ctr == c.L
    ensures var b := NewAverages(a, c.L); b.aveMDF >= 0.0 && b.aveLTA >= 0.0 && b.status >= 2
  {
    if a.status == 1 {
      QuotientNonNegative(a.sumMDF, a.cyc);
      QuotientNonNegative(a.sumLTA, c.L - 1);
    }
  }

  lemma CloseBlockInv(a: Averages, c: Config)
    requires c.Valid() && AvgInv(a, c) && a.cyc > 0 && a.ctr == c.L
    ensures var b := CloseBlock(a, c);
      && b.status >= 2 && b.aveMDF >= 0.0 && b.aveLTA >= 0.0 && b.mdfThresh >= 0.0 && b.ltaThresh >= 0.0
      && b.sumMDF == 0.0 && b.sumLTA == 0.0 && b.ctr == 0 && b.cyc == 0 && b.perCyc == a.perCyc
  {
    NewAveragesInv(a, c);
    hide NewAverages;
    var b := NewAverages(a, c.L);
    Reals.MulNonNegative(0.5 * c.signalToNoise as real, b.aveMDF);
    Reals.MulNonNegative(1.57 * c.signalToNoise as real, b.aveLTA);
  }

  lemma CloseRunSum(a: Averages)
    requires a.cyc >= 0 && (if a.status == 1 then a.sumMDF >= 0.0 else a.sumMDF + a.cyc as real * a.aveMDF >= 0.0)
    ensures var b := CloseRun(a);
      if b.status == 1 then b.sumMDF >= 0.0 else b.sumMDF + b.cyc as real * b.aveMDF >= 0.0
  {
    assert (a.cyc + 1) as real * a.aveMDF == a.cyc as real * a.aveMDF + a.aveMDF;
  }

  /** The state between the two halves of a call. */
  ghost predicate Halfway(a: Averages, c: Config) {
    && a.status >= 1 && 0 <= a.perCyc < c.N && 0 <= a.ctr < c.L && 0 <= a.cyc
    && (a.cyc == 0 ==> a.perCyc >= a.ctr)
    && a.aveMDF >= 0.0 && a.aveLTA >= 0.0 && a.mdfThresh >= 0.0 && a.ltaThresh >= 0.0
    && (if a.status == 1 then a.sumMDF >= 0.0 && a.sumLTA >= 0.0
        else a.sumMDF + a.cyc as real * a.aveMDF >= 0.0 && a.sumLTA + a.ctr as real * a.aveLTA >= 0.0)
  }

  lemma BlockStepHalfway(a: Averages, c: Config)
    requires c.Valid() && AvgInv(a, c)
    ensures Halfway(BlockStep(a, c), c)
  {
    hide Halfway, Accumulate, CloseBlock;
    if a.ctr < c.L {
      AccumulateHalfway(a, c);
    } else {
      CloseBlockHalfway(a, c);
    }
  }

  lemma AccumulateHalfway(a: Averages, c: Config)
    requires c.Valid() && AvgInv(a, c) && a.ctr < c.L
    ensures Halfway(Accumulate(a), c)
  {
    hide Reals.Abs, AbsInt;
  }

  lemma CloseBlockHalfway(a: Averages, c: Config)
    requires c.Valid() && AvgInv(a, c) && a.ctr >= c.L
    ensures Halfway(CloseBlock(a, c), c)
  {
    CloseBlockInv(a, c);
    hide CloseBlock;
    var b := CloseBlock(a, c);
    assert b.cyc as real * b.aveMDF == 0.0 && b.ctr as real * b.aveLTA == 0.0;
  }

  lemma RunStepInv(b: Averages, x: int, c: Config)
    requires c.Valid() && Halfway(b, c)
    ensures var d := RunStep(b, c.N); AvgInv(d.(sampOld := x, ctr := d.ctr + 1), c)
  {
    CloseRunSum(b);
    hide CloseRun;
    var d := CloseRun(b);
  }

  /** Every call keeps the invariant. */
  lemma AvgStepInv(a: Averages, x: int, c: Config)
    requires c.Valid() && AvgInv(a, c)
    ensures a.ctr < c.L || a.cyc > 0
    ensures AvgInv(AvgStep(a, x, c), c)
  {
    var p := Present(a, x);
    assert AvgInv(p, c);
    BlockStepHalfway(p, c);
    RunStepInv(BlockStep(p, c), x, c);
  }

  // ----- what the averages are averages of

  function LastSample(xs: seq<int>): int { if |xs| == 0 then 0 else xs[|xs| - 1] }

  function LastDifference(xs: seq<int>): int {
    if |xs| == 0 then 0 else xs[|xs| - 1] - LastSample(xs[..|xs| - 1])
  }

  ghost function Sum(s: seq<int>): int {
    if |s| == 0 then 0 else Sum(s[..|s| - 1]) + s[|s| - 1]
  }

  /** The sum of the distances from `m`, signed ... */
  ghost function Offsets(s: seq<int>, m: real): real {
    if |s| == 0 then 0.0 else Offsets(s[..|s| - 1], m) + (s[|s| - 1] as real - m)
  }

  /** ... and of what their sizes exceed `size` by. */
  ghost function Excess(s: seq<int>, m: real, size: real): real {
    if |s| == 0 then 0.0
    else
      var d := s[|s| - 1] as real - m;
      Excess(s[..|s| - 1], m, size) + ((if d < 0.0 then -d else d) - size)
  }

  /** The signal so far: `open` are the differences of the half-cycle in progress, `closed` the absolute
      sums of the half-cycles closed in the block, and `olds` the samples of the block. */
  datatype Books = Books(open: seq<int>, closed: seq<int>, olds: seq<int>, mdf: real, ldc: real, lta: real)

  /** The mean of the block, or once there is an average the midpoint of it and the mean of the block; the
      levels are taken over the `L` samples of a block, with a divisor that is one off. */
  ghost function BlockEnd(b: Books, first: bool, L: int): (r: Books)
    requires L > 1
    ensures r.open == b.open
  {
    var mdf := if |b.closed| == 0 then 0.0 else Sum(b.closed) as real / |b.closed| as real;
    if first then
      b.(mdf := mdf, ldc := Offsets(b.olds, 0.0) / (L - 1) as real, lta := Excess(b.olds, 0.0, 0.0) / (L - 1) as real,
         closed := [], olds := [])
    else
      b.(mdf := (b.mdf + mdf) / 2.0, ldc := b.ldc + Offsets(b.olds, b.ldc) / (2 * L) as real,
         lta := b.lta + Excess(b.olds, b.ldc, b.lta) / (2 * L) as real, closed := [], olds := [])
  }

  /** A block ends with sample `n`. */
  ghost predicate Ends(n: nat, L: int)
    requires L > 1
  {
    n > 0 && n % L == 0
  }

  /** How many samples of its block have been seen after `n` samples. */
  ghost function Place(n: nat, L: int): int
    requires L > 1
  {
    if n == 0 then 0 else (n - 1) % L + 1
  }

  /** What one sample adds: a block ends with every `L` samples, and a half-cycle with a change of the sign
      of the differences or after `N` of them. */
  ghost function Entered(b: Books, before: seq<int>, x: int, c: Config): Books
    requires c.Valid()
  {
    var k := if Ends(|before|, c.L) then BlockEnd(b, |before| == c.L, c.L)
             else b.(olds := b.olds + [LastSample(before)]);
    var d := x - LastSample(before);
    if (d < 0) == (LastDifference(before) < 0) && |b.open| < c.N then k.(open := b.open + [d])
    else k.(open := [d], closed := k.closed + [AbsInt(Sum(b.open))])
  }

  /** The books of a signal. */
  ghost function BooksOf(xs: seq<int>, c: Config): Books
    requires c.Valid()
  {
    if |xs| == 0 then Books([0], [], [], 0.0, 0.0, 0.0)
    else
      var before, x := xs[..|xs| - 1], xs[|xs| - 1];
      Entered(BooksOf(before, c), before, x, c)
  }

  /** The running sums stand for the books `b` of the signal `xs`. */
  ghost predicate StandsFor(b: Books, a: Averages, xs: seq<int>, c: Config)
    requires c.Valid()
  {
    && a.sampOld == LastSample(xs) && a.mdfOld == LastDifference(xs)
    && a.ctr == Place(|xs|, c.L) && (a.status == 1 <==> |xs| <= c.L)
    && |b.open| == a.perCyc + 1 && a.run == Sum(b.open)
    && a.aveMDF == b.mdf && a.aveLDC == b.ldc && a.aveLTA == b.lta
    && (a.status != 1 ==>
          a.mdfThresh == 0.5 * c.signalToNoise as real * b.mdf && a.ltaThresh == 1.57 * c.signalToNoise as real * b.lta)
    && a.cyc == |b.closed| && a.sumMDF == Sum(b.closed) as real - (if a.status == 1 then 0.0 else a.cyc as real * b.mdf)
    && a.sumLDC == (if a.status == 1 then Offsets(b.olds, 0.0) else Offsets(b.olds, b.ldc))
    && a.sumLTA == (if a.status == 1 then Excess(b.olds, 0.0, 0.0) else Excess(b.olds, b.ldc, b.lta))
  }

  lemma SumOne(s: seq<int>, d: int)
    ensures Sum(s + [d]) == Sum(s) + d && Sum([d]) == d && Sum([]) == 0
  {
    assert (s + [d])[..|s|] == s;
    assert [d][..0] == [];
  }

  lemma LevelsOne(s: seq<int>, d: int, m: real, size: real)
    ensures Offsets(s + [d], m) == Offsets(s, m) + (d as real - m) && Offsets([], m) == 0.0
    ensures Excess(s + [d], m, size) == Excess(s, m, size) + (Reals.Abs(d as real - m) - size)
    ensures Excess([], m, size) == 0.0
  {
    assert (s + [d])[..|s|] == s;
  }

  /** The half of a call that closes the block or adds to it. */
  ghost predicate BlockBooked(k: Books, p: Averages, c: Config) {
    && p.aveMDF == k.mdf && p.aveLDC == k.ldc && p.aveLTA == k.lta && p.cyc == |k.closed|
    && (p.status != 1 ==>
          p.mdfThresh == 0.5 * c.signalToNoise as real * k.mdf && p.ltaThresh == 1.57 * c.signalToNoise as real * k.lta)
    && p.sumMDF == Sum(k.closed) as real - (if p.status == 1 then 0.0 else p.cyc as real * k.mdf)
    && p.sumLDC == (if p.status == 1 then Offsets(k.olds, 0.0) else Offsets(k.olds, k.ldc))
    && p.sumLTA == (if p.status == 1 then Excess(k.olds, 0.0, 0.0) else Excess(k.olds, k.ldc, k.lta))
  }

  lemma AddedToBlock(b: Books, a: Averages, c: Config)
    requires BlockBooked(b, a, c)
    ensures BlockBooked(b.(olds := b.olds + [a.sampOld]), Accumulate(a), c)
  {
    LevelsOne(b.olds, a.sampOld, 0.0, 0.0);
    LevelsOne(b.olds, a.sampOld, b.ldc, b.lta);
    hide Offsets, Excess, Sum;
  }

  lemma BlockClosed(b: Books, a: Averages, c: Config)
    requires c.Valid() && BlockBooked(b, a, c) && a.cyc > 0
    ensures BlockBooked(BlockEnd(b, a.status == 1, c.L), CloseBlock(a, c), c)
  {
    NewMean(b, a, c);
    NewLevels(b, a, c);
    var m, k := NewAverages(a, c.L), BlockEnd(b, a.status == 1, c.L);
    assert k.closed == [] && k.olds == [] && m.status != 1;
    hide NewAverages, BlockEnd;
    NothingBooked(m.aveMDF, m.aveLDC, m.aveLTA);
    hide Offsets, Excess, Sum;
  }

  lemma NothingBooked(mdf: real, ldc: real, lta: real)
    ensures Sum([]) == 0 && Offsets([], ldc) == 0.0 && Excess([], ldc, lta) == 0.0 && 0.0 == 0 as real * mdf
  {}

  lemma NewMean(b: Books, a: Averages, c: Config)
    requires c.Valid() && BlockBooked(b, a, c) && a.cyc > 0
    ensures NewAverages(a, c.L).aveMDF == BlockEnd(b, a.status == 1, c.L).mdf
  {
    hide Offsets, Excess, Sum;
    if a.status != 1 {
      Midpoint(a.aveMDF, Sum(b.closed) as real, a.cyc as real, a.sumMDF);
    }
  }

  lemma NewLevels(b: Books, a: Averages, c: Config)
    requires c.Valid() && BlockBooked(b, a, c) && a.cyc > 0
    ensures var m, k := NewAverages(a, c.L), BlockEnd(b, a.status == 1, c.L); m.aveLDC == k.ldc && m.aveLTA == k.lta
  {
    hide Offsets, Excess, Sum;
    if a.status != 1 {
      Halved(a.sumLDC, c.L);
      Halved(a.sumLTA, c.L);
    }
  }

  lemma Halved(x: real, n: int)
    requires n > 0
    ensures 0.5 * x / n as real == x / (2 * n) as real
  {
    var q, h := x / (2 * n) as real, 0.5 * x / n as real;
    assert q * (2.0 * n as real) == x && h * n as real == 0.5 * x;
    Reals.ProductZero(h - q, n as real, (h - q) * n as real);
  }

  lemma Midpoint(ave: real, total: real, n: real, sum: real)
    requires n > 0.0 && sum == total - n * ave
    ensures ave + 0.5 * sum / n == (ave + total / n) / 2.0
  {}

  /** The half of a call that carries on the half-cycle. */
  lemma RunBooked(k: Books, p: Averages, c: Config)
    requires BlockBooked(k, p, c) && |k.open| == p.perCyc + 1 && p.run == Sum(k.open) && p.cyc >= 0
    ensures var d, q := p.mdfNew, RunStep(p, c.N);
      var l := if (d < 0) == (p.mdfOld < 0) && |k.open| < c.N then k.(open := k.open + [d])
               else k.(open := [d], closed := k.closed + [AbsInt(Sum(k.open))]);
      BlockBooked(l, q, c) && |l.open| == q.perCyc + 1 && q.run == Sum(l.open)
  {
    SumOne(k.open, p.mdfNew);
    SumOne(k.closed, AbsInt(Sum(k.open)));
    hide Sum, Offsets, Excess, AbsInt;
    assert (p.cyc + 1) as real * p.aveMDF == p.cyc as real * p.aveMDF + p.aveMDF;
  }

  /** The averages of a station over any signal from a cleared station. */
  ghost function Averaged(xs: seq<int>, c: Config): (a: Averages)
    requires c.Valid()
    ensures AvgInv(a, c)
  {
    if |xs| == 0 then CLEARED
    else
      var a := Averaged(xs[..|xs| - 1], c);
      AvgSampleInv(a, xs[|xs| - 1], c);
      AvgSample(a, xs[|xs| - 1], c)
  }

  lemma BlockPlace(n: nat, L: int)
    requires L > 1
    ensures (Place(n, L) == L <==> Ends(n, L)) && 0 <= Place(n, L) <= L
    ensures Place(n + 1, L) == if Ends(n, L) then 1 else Place(n, L) + 1
    ensures (Ends(n, L) ==> n >= L) && (n == L ==> Ends(n, L))
  {
    if n > 0 {
      var q, r := (n - 1) / L, (n - 1) % L;
      assert n == q * L + (r + 1);
      if r == L - 1 {
        assert n == (q + 1) * L;
        Multiple(n, q + 1, 0, L);
      } else {
        Multiple(n, q, r + 1, L);
      }
    }
  }

  lemma Multiple(n: int, q: int, r: int, L: int)
    requires n == q * L + r && 0 <= r < L
    ensures n % L == r
  {
    var p, s := n / L, n % L;
    assert n == p * L + s;
    var d := p - q;
    assert d * L == p * L - q * L == r - s;
    if d >= 1 {
      NotLess(d, L);
    } else if d <= -1 {
      NotLess(-d, L);
    }
  }

  lemma NotLess(d: int, L: int)
    requires d >= 1 && L > 0
    ensures d * L >= L
  {}

  /** MovingAvg refines the books: over any signal its averages, thresholds and status are those that the
      half-cycles and the samples of the blocks call for. */
  lemma {:induction false} SignalIsBooked(xs: seq<int>, c: Config)
    requires c.Valid()
    ensures StandsFor(BooksOf(xs, c), Averaged(xs, c), xs, c)
  {
    if |xs| > 0 {
      var before, x := xs[..|xs| - 1], xs[|xs| - 1];
      SignalIsBooked(before, c);
      BookedStep(BooksOf(before, c), Averaged(before, c), before, x, c);
      assert before + [x] == xs;
      hide StandsFor, AvgSample, Entered;
    }
  }

  lemma BookedStep(b: Books, a: Averages, before: seq<int>, x: int, c: Config)
    requires c.Valid() && AvgInv(a, c) && StandsFor(b, a, before, c)
    ensures a.ctr < c.L || a.cyc > 0
    ensures StandsFor(Entered(b, before, x, c), AvgSample(a, x, c), before + [x], c)
  {
    hide Sum, Offsets, Excess, BlockStep, BlockEnd, RunStep, AbsInt, Place, Ends;
    BlockPlace(|before|, c.L);
    var p := Present(a, x);
    var k := if a.ctr == c.L then BlockEnd(b, a.status == 1, c.L) else b.(olds := b.olds + [a.sampOld]);
    BlockBookedStep(b, p, c);
    var q := BlockStep(p, c);
    BlockFrame(p, c);
    assert (before + [x])[..|before|] == before;
    RunBooked(k, q, c);
    RunFrame(q, c.N);
  }

  lemma BlockBookedStep(b: Books, p: Averages, c: Config)
    requires c.Valid() && BlockBooked(b, p, c) && p.ctr <= c.L && (p.ctr < c.L || p.cyc > 0)
    ensures var k := if p.ctr == c.L then BlockEnd(b, p.status == 1, c.L) else b.(olds := b.olds + [p.sampOld]);
      BlockBooked(k, BlockStep(p, c), c)
  {
    hide BlockBooked, BlockEnd, Accumulate, CloseBlock;
    if p.ctr == c.L {
      BlockClosed(b, p, c);
    } else {
      AddedToBlock(b, p, c);
    }
  }

  lemma BlockFrame(p: Averages, c: Config)
    requires c.L > 1 && p.status >= 1 && (p.ctr < c.L || p.cyc > 0)
    ensures var q := BlockStep(p, c);
      && q.mdfNew == p.mdfNew && q.mdfOld == p.mdfOld && q.perCyc == p.perCyc && q.run == p.run
      && q.ctr == (if p.ctr < c.L then p.ctr else 0) && (q.status == 1 <==> p.status == 1 && p.ctr < c.L)
  {}

  lemma RunFrame(q: Averages, N: int)
    ensures var r := RunStep(q, N); r.status == q.status && r.ctr == q.ctr && r.mdfNew == q.mdfNew
  {}

  /** The half-cycle in progress: at most N differences, all of the sign of the latest one. */
  lemma {:induction false} OpenHalfCycle(xs: seq<int>, c: Config)
    requires c.Valid()
    ensures var o := BooksOf(xs, c).open;
      1 <= |o| <= c.N && forall i :: 0 <= i < |o| ==> ((o[i] < 0) == (LastDifference(xs) < 0))
  {
    if |xs| > 0 {
      OpenHalfCycle(xs[..|xs| - 1], c);
      hide BlockEnd;
    }
  }

  lemma AvgSampleInv(a: Averages, x: int, c: Config)
    requires c.Valid() && AvgInv(a, c)
    ensures a.ctr < c.L || a.cyc > 0
    ensures AvgInv(AvgSample(a, x, c), c)
  {
    AvgStepInv(a, x, c);
    hide AvgStep;
  }
}

/** libsrc/dataprocessing.c: the three passes over a trace that a gap in the feed has damaged. */
module GapRepair {
  import Reals

  const INT_MAX: int := 2147483647

  // ----- runs of zeros

  /** The first index of the run of zeros that holds `i`. */
  function RunStart(a: seq<int>, i: nat): (s: nat)
    requires i < |a| && a[i] == 0
    ensures s <= i && forall j :: s <= j <= i ==> a[j] == 0
    ensures s == 0 || a[s - 1] != 0
  {
    if i == 0 || a[i - 1] != 0 then i else RunStart(a, i - 1)
  }

  /** The index after the run of zeros that holds `i`. */
  function RunEnd(a: seq<int>, i: nat): (e: nat)
    requires i < |a| && a[i] == 0
    ensures i < e <= |a| && forall j :: i <= j < e ==> a[j] == 0
    ensures e == |a| || a[e] != 0
    decreases |a| - i
  {
    if i + 1 == |a| || a[i + 1] != 0 then i + 1 else RunEnd(a, i + 1)
  }

  predicate IsRun(a: seq<int>, s: nat, e: nat) {
    s < e <= |a| && (s == 0 || a[s - 1] != 0) && (e == |a| || a[e] != 0) && forall j :: s <= j < e ==> a[j] == 0
  }

  lemma RunOf(a: seq<int>, s: nat, e: nat, i: nat)
    requires IsRun(a, s, e) && s <= i < e
    ensures RunStart(a, i) == s && RunEnd(a, i) == e
  {}

  // ----- MarkZeroDropouts

  function Threshold(rate: real): (t: int)
    ensures t >= 10 && (0.5 * rate < 11.0 ==> t == 10)
    ensures 0.5 * rate >= 11.0 ==> t as real <= 0.5 * rate < t as real + 1.0
  {
    var t := Reals.Trunc(0.5 * rate);
    if t < 10 then 10 else t
  }

  function Fraction(m: int, n: int): real
    requires n > 0
  {
    m as real / n as real
  }

  /** The value `m` steps of `n` along the line from `left` to `right`. */
  function OnLine(left: int, right: int, m: int, n: int): int
    requires n > 0
  {
    Reals.Trunc(left as real + Fraction(m, n) * (right - left) as real)
  }

  /** A run with valid data on both sides. */
  predicate Immersed(a: seq<int>, s: nat, e: nat)
    requires s < e <= |a|
  {
    s > 0 && a[s - 1] != INT_MAX && e < |a| && a[e] != INT_MAX
  }

  /** The first pass at index `i`. */
  function LongMarked(a: seq<int>, thr: int, i: nat): int
    requires i < |a|
  {
    if a[i] == 0 && RunEnd(a, i) - RunStart(a, i) >= thr then INT_MAX else a[i]
  }

  /** Both passes at index `i`. */
  function Marked(a: seq<int>, thr: int, i: nat): int
    requires i < |a|
  {
    if a[i] != 0 then a[i]
    else
      var s, e := RunStart(a, i), RunEnd(a, i);
      if e - s >= thr || !Immersed(a, s, e) then INT_MAX else OnLine(a[s - 1], a[e], i - s + 1, e - s + 1)
  }

  method MarkRun(a: array<int>, from: nat, to: nat)
    requires from <= to <= a.Length
    modifies a
    ensures forall i :: 0 <= i < a.Length ==> a[i] == if from <= i < to then INT_MAX else old(a[i])
  {
    var j := from;
    while j < to
      invariant from <= j <= to
      invariant forall i :: 0 <= i < a.Length ==> a[i] == if from <= i < j then INT_MAX else old(a[i])
    {
      a[j] := INT_MAX;
      j := j + 1;
    }
  }

  /** `b` agrees with the first pass before `k` and with `a` from there on. */
  predicate FirstPassTo(a: seq<int>, b: seq<int>, n: nat, thr: int, k: nat)
    requires n <= |a|
  {
    && |b| == |a|
    && (forall j :: 0 <= j < k && j < n ==> b[j] == LongMarked(a[..n], thr, j))
    && (forall j :: k <= j < |a| ==> b[j] == a[j])
  }

  /** First pass: long runs of zeros become gaps. */
  method MarkLongRuns(a: array<int>, n: nat, thr: int)
    requires n <= a.Length && thr >= 1
    modifies a
    ensures FirstPassTo(old(a[..]), a[..], n, thr, n)
  {
    ghost var o := a[..];
    ghost var x := o[..n];
    var run := 0;
    var i := 0;
    while i < n
      invariant 0 <= run <= i <= n
      invariant FirstPassTo(o, a[..], n, thr, i - run)
      invariant forall j :: i - run <= j < i ==> x[j] == 0
      invariant i - run == 0 || x[i - run - 1] != 0
    {
      if a[i] == 0 {
        run := run + 1;
      } else {
        EndOfRun(o, n, thr, i, run);
        if run >= thr {
          MarkRun(a, i - run, i);
        }
        run := 0;
      }
      i := i + 1;
    }
    EndOfRun(o, n, thr, n, run);
    if run >= thr {
      MarkRun(a, n - run, n);
    }
  }

  lemma EndOfRun(o: seq<int>, n: nat, thr: int, i: nat, run: nat)
    requires run <= i <= n <= |o|
    requires forall j :: i - run <= j < i ==> o[j] == 0
    requires i - run == 0 || o[i - run - 1] != 0
    requires i == n || o[i] != 0
    ensures forall j :: i - run <= j < i ==> LongMarked(o[..n], thr, j) == if run >= thr then INT_MAX else o[j]
    ensures i < n ==> LongMarked(o[..n], thr, i) == o[i]
  {
    var x := o[..n];
    forall j | i - run <= j < i
      ensures LongMarked(x, thr, j) == if run >= thr then INT_MAX else o[j]
    {
      RunOf(x, i - run, i, j);
    }
  }

  /** `b` is fully marked before `i` and has had the first pass from there on. */
  predicate SecondPassTo(a: seq<int>, b: seq<int>, n: nat, thr: int, i: nat)
    requires n <= |a|
  {
    && |b| == |a|
    && (forall j :: 0 <= j < i && j < n ==> b[j] == Marked(a[..n], thr, j))
    && (forall j :: i <= j < n ==> b[j] == LongMarked(a[..n], thr, j))
    && (forall j :: n <= j < |a| ==> b[j] == a[j])
  }

  /** The second pass on one short run of zeros. */
  method RepairRun(a: array<int>, n: nat, s: nat, e: nat)
    requires s < e <= n <= a.Length
    modifies a
    ensures var o := old(a[..]); forall i :: 0 <= i < a.Length ==>
      a[i] == if !(s <= i < e) then o[i]
              else if !Immersed(o[..n], s, e) then INT_MAX
              else OnLine(o[s - 1], o[e], i - s + 1, e - s + 1)
  {
    var hasLeft := s > 0 && a[s - 1] != INT_MAX;
    var hasRight := e < n && a[e] != INT_MAX;
    if !hasLeft || !hasRight {
      MarkRun(a, s, e);
    } else {
      var left, right := a[s - 1], a[e];
      var k := s;
      while k < e
        invariant s <= k <= e
        invariant forall i :: 0 <= i < a.Length ==>
          a[i] == if s <= i < k then OnLine(left, right, i - s + 1, e - s + 1) else old(a[i])
      {
        a[k] := OnLine(left, right, k - s + 1, e - s + 1);
        k := k + 1;
      }
    }
  }

  /** What pass one leaves zero is a run of the original, shorter than the threshold: the test for a
      long run in the second pass is never true. */
  lemma ZeroRunIsShort(o: seq<int>, b: seq<int>, n: nat, thr: int, s: nat, e: nat)
    requires n <= |o| && SecondPassTo(o, b, n, thr, s) && s < e <= n
    requires s == 0 || o[s - 1] != 0
    requires (forall j :: s <= j < e ==> b[j] == 0) && (e == n || b[e] != 0)
    ensures IsRun(o[..n], s, e) && e - s < thr
  {
    var x := o[..n];
    forall j | s <= j < e
      ensures x[j] == 0
    {
      assert b[j] == LongMarked(x, thr, j);
    }
    assert b[e - 1] == LongMarked(x, thr, e - 1);
    assert e < n ==> b[e] == LongMarked(x, thr, e);
    assert b[s] == LongMarked(x, thr, s);
    RunOf(x, s, e, s);
  }

  lemma AfterRepair(o: seq<int>, b: seq<int>, d: seq<int>, n: nat, thr: int, s: nat, e: nat)
    requires n <= |o| && SecondPassTo(o, b, n, thr, s) && s < e <= n
    requires IsRun(o[..n], s, e) && e - s < thr && |d| == |b|
    requires forall i :: 0 <= i < |b| ==>
      d[i] == if !(s <= i < e) then b[i]
              else if !Immersed(b[..n], s, e) then INT_MAX
              else OnLine(b[s - 1], b[e], i - s + 1, e - s + 1)
    ensures SecondPassTo(o, d, n, thr, e)
  {
    var x := o[..n];
    assert s > 0 ==> b[s - 1] == x[s - 1];
    assert e < n ==> b[e] == x[e];
    forall j | s <= j < e
      ensures d[j] == Marked(x, thr, j)
    {
      RunOf(x, s, e, j);
    }
  }

  /** Passing a cell that is not zero; if it belonged to a long run, so does a zero that follows. */
  lemma StepOver(o: seq<int>, b: seq<int>, n: nat, thr: int, i: nat)
    requires n <= |o| && SecondPassTo(o, b, n, thr, i) && i < n && b[i] != 0
    ensures SecondPassTo(o, b, n, thr, i + 1)
    ensures i + 1 < n && b[i + 1] == 0 ==> o[i] != 0
  {
    var x := o[..n];
    assert b[i] == LongMarked(x, thr, i);
    if i + 1 < n && x[i] == 0 {
      assert b[i + 1] == LongMarked(x, thr, i + 1);
    }
  }

  /** Second pass: short runs are interpolated, or become gaps at an edge or beside a gap. */
  method RepairShortRuns(a: array<int>, n: nat, thr: int, ghost o: seq<int>)
    requires n <= a.Length == |o| && thr >= 1 && FirstPassTo(o, a[..], n, thr, n)
    modifies a
    ensures SecondPassTo(o, a[..], n, thr, n)
  {
    var i := 0;
    while i < n
      invariant 0 <= i <= n && SecondPassTo(o, a[..], n, thr, i)
      invariant i < n && a[i] == 0 ==> i == 0 || o[i - 1] != 0
    {
      hide SecondPassTo, Marked, LongMarked, IsRun, RunStart, RunEnd;
      if a[i] != 0 {
        StepOver(o, a[..], n, thr, i);
        i := i + 1;
      } else {
        var s := i;
        while i < n && a[i] == 0
          invariant s <= i <= n && forall j :: s <= j < i ==> a[j] == 0
        {
          i := i + 1;
        }
        ZeroRunIsShort(o, a[..], n, thr, s, i);
        ghost var b := a[..];
        RepairRun(a, n, s, i);
        AfterRepair(o, b, a[..], n, thr, s, i);
      }
    }
  }

  /** `n` is the number of samples in use, `rate` the sample rate. */
  method MarkZeroDropouts(a: array<int>, n: int, rate: real)
    requires n <= a.Length
    modifies a
    ensures n <= 0 || rate <= 0.0 ==> a[..] == old(a[..])
    ensures n > 0 && rate > 0.0 ==>
      var o := old(a[..]);
      && (forall i :: 0 <= i < n ==> a[i] == Marked(o[..n], Threshold(rate), i))
      && (forall i :: n <= i < a.Length ==> a[i] == o[i])
  {
    if n <= 0 || rate <= 0.0 {
      return;
    }
    ghost var o := a[..];
    var thr := Threshold(rate);
    MarkLongRuns(a, n, thr);
    RepairShortRuns(a, n, thr, o);
  }

  // ----- what the repair promises

  /** A sample on the line lies between its ends, and moves from one towards the other. */
  /** From `left` to `right` by way of `x` and then `y`, without turning back. */
  predicate InTurn(left: int, x: int, y: int, right: int) {
    left <= x <= y <= right || left >= x >= y >= right
  }

  lemma OnLineMonotone(left: int, right: int, m1: int, m2: int, n: int)
    requires 0 <= m1 <= m2 <= n && n > 0
    ensures InTurn(left, OnLine(left, right, m1, n), OnLine(left, right, m2, n), right)
  {
    hide OnLine, Fraction, Reals.Trunc;
    var d := (right - left) as real;
    var f1, g1 := Along(left, right, m1, n, d);
    var f2, g2 := Along(left, right, m2, n, d);
    FractionOrder(m1, m2, n);
    ScaleOrder(f1, f2, d, g1, g2);
  }

  lemma Along(left: int, right: int, m: int, n: int, d: real) returns (f: real, g: real)
    requires n > 0 && d == (right - left) as real
    ensures f == Fraction(m, n) && g == f * d
    ensures OnLine(left, right, m, n) == Reals.Trunc(left as real + g)
  {
    hide Fraction;
    f := Fraction(m, n);
    g := f * d;
  }

  lemma FractionOrder(m1: int, m2: int, n: int)
    requires 0 <= m1 <= m2 <= n && n > 0
    ensures 0.0 <= Fraction(m1, n) <= Fraction(m2, n) <= 1.0
  {}

  lemma ScaleOrder(f1: real, f2: real, d: real, g1: real, g2: real)
    requires 0.0 <= f1 <= f2 <= 1.0 && g1 == f1 * d && g2 == f2 * d
    ensures d >= 0.0 ==> 0.0 <= g1 <= g2 <= d
    ensures d <= 0.0 ==> 0.0 >= g1 >= g2 >= d
  {}

  predicate SamplesFit(a: seq<int>) { forall i :: 0 <= i < |a| ==> a[i] <= INT_MAX }

  /** What becomes of a run of zeros: a short one between valid samples is replaced by the straight line from
      the one neighbour to the other, truncated, and any other one is marked. */
  lemma RunRepaired(a: seq<int>, thr: int, s: nat, e: nat, i: nat)
    requires IsRun(a, s, e) && s <= i < e
    ensures if e - s < thr && 0 < s && e < |a| && a[s - 1] != INT_MAX && a[e] != INT_MAX then
              Marked(a, thr, i) ==
                Reals.Trunc(a[s - 1] as real + (i - s + 1) as real / (e - s + 1) as real * (a[e] - a[s - 1]) as real)
            else Marked(a, thr, i) == INT_MAX
  {
    hide OnLine, Fraction, Reals.Trunc, RunStart, RunEnd;
    RunOf(a, s, e, i);
    if Immersed(a, s, e) {
      OnLineIs(a[s - 1], a[e], i - s + 1, e - s + 1);
    }
  }

  lemma OnLineIs(left: int, right: int, m: int, n: int)
    requires n > 0
    ensures OnLine(left, right, m, n) == Reals.Trunc(left as real + m as real / n as real * (right - left) as real)
  {}

  /** Inside a short run between valid samples the repaired samples form a monotone path from the one
      neighbour to the other. */
  lemma RepairedIsMonotone(a: seq<int>, thr: int, s: nat, e: nat, i: nat, j: nat)
    requires IsRun(a, s, e) && e - s < thr && Immersed(a, s, e) && s <= i <= j < e
    ensures InTurn(a[s - 1], Marked(a, thr, i), Marked(a, thr, j), a[e])
  {
    hide OnLine;
    RunOf(a, s, e, i);
    RunOf(a, s, e, j);
    OnLineMonotone(a[s - 1], a[e], i - s + 1, j - s + 1, e - s + 1);
  }

  /** Exactly which samples read as gaps afterwards, when no sample exceeds a 32-bit integer. */
  lemma GapIff(a: seq<int>, thr: int, i: nat)
    requires i < |a| && SamplesFit(a)
    ensures Marked(a, thr, i) == INT_MAX <==>
      a[i] == INT_MAX ||
      (a[i] == 0 && var s, e := RunStart(a, i), RunEnd(a, i); e - s >= thr || !Immersed(a, s, e))
  {
    hide OnLine;
    if a[i] == 0 {
      var s, e := RunStart(a, i), RunEnd(a, i);
      if e - s < thr && Immersed(a, s, e) {
        OnLineMonotone(a[s - 1], a[e], i - s + 1, i - s + 1, e - s + 1);
      }
    }
  }

  // ----- FillInternalGaps

  predicate Good(x: int) { x != 0 && x != INT_MAX }

  /** The last good index before `i`, or -1. */
  function PrevGood(a: seq<int>, i: nat): (p: int)
    requires i <= |a|
    ensures -1 <= p < i && (p >= 0 ==> Good(a[p])) && forall j :: p < j < i ==> !Good(a[j])
  {
    if i == 0 then -1 else if Good(a[i - 1]) then i - 1 else PrevGood(a, i - 1)
  }

  /** The first good index from `i` on, or the length. */
  function NextGood(a: seq<int>, i: nat): (q: nat)
    requires i <= |a|
    ensures i <= q <= |a| && (q < |a| ==> Good(a[q])) && forall j :: i <= j < q ==> !Good(a[j])
    decreases |a| - i
  {
    if i == |a| || Good(a[i]) then i else NextGood(a, i + 1)
  }

  /** The value `m` steps of `n` on the way from `left` to `right`, the step truncated. */
  function Towards(left: int, right: int, m: int, n: int): int
    requires n > 0
  {
    left + Reals.Trunc(Fraction(m, n) * (right - left) as real)
  }

  /** The trace at index `i` after the filling. */
  function Filled(a: seq<int>, i: nat): int
    requires i < |a|
  {
    var p, q := PrevGood(a, i), NextGood(a, i);
    if Good(a[i]) || (p < 0 && q == |a|) then a[i]
    else if p < 0 then a[q]
    else if q == |a| then a[p]
    else Towards(a[p], a[q], i - p, q - p)
  }

  method FillInternalGaps(a: array<int>, n: int)
    requires n <= a.Length
    modifies a
    ensures n <= 0 ==> a[..] == old(a[..])
    ensures n > 0 ==>
      var o := old(a[..]);
      && (forall i :: 0 <= i < n ==> a[i] == Filled(o[..n], i))
      && (forall i :: n <= i < a.Length ==> a[i] == o[i])
  {
    if n <= 0 {
      return;
    }
    ghost var o := a[..];
    ghost var x := o[..n];
    var first := 0;
    while first < n && !Good(a[first])
      invariant 0 <= first <= n && forall j :: 0 <= j < first ==> !Good(x[j])
    {
      first := first + 1;
    }
    if first == n {
      return;
    }
    var lastValid := a[first];
    var i := 0;
    while i < n && !Good(a[i])
      invariant 0 <= i <= first && lastValid == x[first]
      invariant forall j :: 0 <= j < a.Length ==> a[j] == if j < i then lastValid else o[j]
    {
      a[i] := lastValid;
      i := i + 1;
    }
    FillInner(a, n, first, o);
  }

  /** The third loop; `first` is the first good index of the original. */
  method FillInner(a: array<int>, n: nat, first: nat, ghost o: seq<int>)
    requires first < n <= a.Length == |o| && NextGood(o[..n], 0) == first
    requires forall j :: 0 <= j < a.Length ==> a[j] == if j < first then o[first] else o[j]
    modifies a
    ensures forall i :: 0 <= i < n ==> a[i] == Filled(o[..n], i)
    ensures forall i :: n <= i < a.Length ==> a[i] == o[i]
  {
    hide Towards;
    ghost var x := o[..n];
    var lastValid := a[first];
    var gapStart := -1;
    var i := 0;
    while i < n
      invariant 0 <= i <= n && -1 <= gapStart < i
      invariant lastValid == x[if i <= first then first else PrevGood(x, i)]
      invariant gapStart >= 0 ==> first < gapStart && PrevGood(x, i) == gapStart - 1
      invariant gapStart < 0 && i > first ==> PrevGood(x, i) == i - 1
      invariant forall j :: 0 <= j < (if gapStart >= 0 then gapStart else i) ==> a[j] == Filled(x, j)
      invariant forall j :: (if gapStart >= 0 then gapStart else i) <= j < a.Length ==>
        a[j] == if j < first then o[first] else o[j]
    {
      var val := a[i];
      if !Good(val) {
        if gapStart == -1 {
          gapStart := i;
        }
      } else {
        if gapStart != -1 {
          FillGap(a, gapStart, i, lastValid, val);
          FilledGap(x, gapStart, i);
          gapStart := -1;
        }
        lastValid := val;
      }
      i := i + 1;
    }
    if gapStart != -1 {
      FillTail(a, gapStart, n, lastValid);
      FilledTail(x, gapStart);
    }
  }

  method FillTail(a: array<int>, from: nat, n: nat, last: int)
    requires from <= n <= a.Length
    modifies a
    ensures forall j :: 0 <= j < a.Length ==> a[j] == if from <= j < n then last else old(a[j])
  {
    var g := from;
    while g < n
      invariant from <= g <= n
      invariant forall j :: 0 <= j < a.Length ==> a[j] == if from <= j < g then last else old(a[j])
    {
      a[g] := last;
      g := g + 1;
    }
  }

  lemma FilledTail(a: seq<int>, from: nat)
    requires 0 < from <= |a| && Good(a[from - 1]) && forall j :: from <= j < |a| ==> !Good(a[j])
    ensures forall j :: from <= j < |a| ==> Filled(a, j) == a[from - 1]
  {
    forall j | from <= j < |a|
      ensures PrevGood(a, j) == from - 1 && NextGood(a, j) == |a|
    {
      assert !Good(a[j]);
    }
  }

  method FillGap(a: array<int>, from: nat, to: nat, last: int, next: int)
    requires from < to < a.Length
    modifies a
    ensures forall j :: 0 <= j < a.Length ==>
      a[j] == if from <= j < to then Towards(last, next, j - from + 1, to - from + 1) else old(a[j])
  {
    var g := from;
    while g < to
      invariant from <= g <= to
      invariant forall j :: 0 <= j < a.Length ==>
        a[j] == if from <= j < g then Towards(last, next, j - from + 1, to - from + 1) else old(a[j])
    {
      a[g] := Towards(last, next, g - from + 1, to - from + 1);
      g := g + 1;
    }
  }

  lemma FilledGap(a: seq<int>, from: nat, to: nat)
    requires 0 < from < to < |a| && Good(a[from - 1]) && Good(a[to]) && forall j :: from <= j < to ==> !Good(a[j])
    ensures forall j :: from <= j < to ==> Filled(a, j) == Towards(a[from - 1], a[to], j - from + 1, to - from + 1)
  {
    forall j | from <= j < to
      ensures PrevGood(a, j) == from - 1 && NextGood(a, j) == to
    {
      assert !Good(a[j]);
    }
  }

  /** Two samples of one inner gap, filled: they lie between its good neighbours, and in order. */
  lemma FilledPath(a: seq<int>, i: nat, j: nat)
    requires i <= j < |a| && !Good(a[i]) && !Good(a[j]) && NextGood(a, i) == NextGood(a, j)
    requires PrevGood(a, i) >= 0 && NextGood(a, i) < |a|
    ensures InTurn(a[PrevGood(a, i)], Filled(a, i), Filled(a, j), a[NextGood(a, i)])
  {
    var p, q := PrevGood(a, i), NextGood(a, i);
    FilledBy(a, i, p, q);
    FilledBy(a, j, p, q);
    hide *;
    TowardsMonotone(a[p], a[q], i - p, j - p, q - p);
  }

  lemma FilledBy(a: seq<int>, i: nat, p: int, q: int)
    requires i < |a| && !Good(a[i]) && p == PrevGood(a, i) && q == NextGood(a, i)
    requires 0 <= p && q < |a|
    ensures p < i < q
    ensures Filled(a, i) == Towards(a[p], a[q], i - p, q - p)
  {
    hide Towards;
  }

  lemma TowardsMonotone(left: int, right: int, m1: int, m2: int, n: int)
    requires 0 <= m1 <= m2 <= n && n > 0
    ensures InTurn(left, Towards(left, right, m1, n), Towards(left, right, m2, n), right)
  {
    hide Towards, Fraction, Reals.Trunc;
    var d := (right - left) as real;
    var f1, g1 := StepTowards(left, right, m1, n, d);
    var f2, g2 := StepTowards(left, right, m2, n, d);
    FractionOrder(m1, m2, n);
    ScaleOrder(f1, f2, d, g1, g2);
  }

  lemma StepTowards(left: int, right: int, m: int, n: int, d: real) returns (f: real, g: real)
    requires n > 0 && d == (right - left) as real
    ensures f == Fraction(m, n) && g == f * d
    ensures Towards(left, right, m, n) == left + Reals.Trunc(g)
  {
    hide Fraction;
    f := Fraction(m, n);
    g := f * d;
  }

  /** The samples of a gap between two valid ones lie on the straight line from the one to the other, the step
      truncated; a valid sample stays. */
  lemma GapFilled(a: seq<int>, i: nat, p: nat, q: nat)
    requires p <= i < q < |a| && a[p] != 0 && a[p] != INT_MAX && a[q] != 0 && a[q] != INT_MAX
    requires forall j :: p < j < q ==> a[j] == 0 || a[j] == INT_MAX
    ensures Filled(a, i) ==
      a[p] + if i == p then 0 else Reals.Trunc((i - p) as real / (q - p) as real * (a[q] - a[p]) as real)
  {
    if i > p {
      GapEnds(a, i, p, q);
    }
    hide PrevGood, NextGood;
  }

  lemma {:induction false} GapEnds(a: seq<int>, i: nat, p: nat, q: nat)
    requires p < i <= q < |a| && Good(a[p]) && Good(a[q]) && forall j :: p < j < q ==> !Good(a[j])
    ensures PrevGood(a, i) == p && NextGood(a, i) == q
  {
    assert PrevGood(a, i) >= p;
    assert NextGood(a, i) <= q;
  }

  /** The first and the last good value reach out to the edges. */
  lemma EdgesFilled(a: seq<int>, i: nat, k: nat)
    requires i < |a| && k < |a| && Good(a[k])
    ensures (forall j :: 0 <= j < k ==> !Good(a[j])) && i < k ==> Filled(a, i) == a[k]
    ensures (forall j :: k < j < |a| ==> !Good(a[j])) && i > k ==> Filled(a, i) == a[k]
  {
    var p, q := PrevGood(a, i), NextGood(a, i);
    if (forall j :: 0 <= j < k ==> !Good(a[j])) && i < k {
      assert p < 0 && q == k;
    }
    if (forall j :: k < j < |a| ==> !Good(a[j])) && i > k {
      assert p == k && q == |a|;
    }
  }

  /** Given one good sample and samples of at most 32 bits, no gap is left. */
  lemma NoGapLeft(a: seq<int>, i: nat, k: nat)
    requires SamplesFit(a) && i < |a| && k < |a| && Good(a[k])
    ensures Filled(a, i) != INT_MAX
  {
    hide Towards;
    if !Good(a[i]) && PrevGood(a, i) >= 0 && NextGood(a, i) < |a| {
      FilledPath(a, i, i);
    }
  }

  /** Without that bound a gap can be left: the path may step on the mark itself. */
  lemma GapCanRemain()
    ensures Filled([INT_MAX - 1, 0, INT_MAX + 1], 1) == INT_MAX
  {
    var a := [INT_MAX - 1, 0, INT_MAX + 1];
    assert PrevGood(a, 1) == 0 && NextGood(a, 1) == 2;
    assert Fraction(1, 2) == 0.5;
  }

  /** Step `m` of `n` from `left` to `right` comes to lie on the mark. */
  predicate MeetsMark(left: int, right: int, m: int, n: int)
    requires n > 0
  {
    var g := Fraction(m, n) * (right - left) as real;
    if left <= right then (INT_MAX - left) as real <= g < (INT_MAX - left + 1) as real
    else (INT_MAX - left - 1) as real < g <= (INT_MAX - left) as real
  }

  lemma TowardsMarkIff(left: int, right: int, m: int, n: int)
    requires 0 <= m <= n && n > 0 && Good(left)
    ensures Towards(left, right, m, n) == INT_MAX <==> MeetsMark(left, right, m, n)
  {
    hide Fraction, Reals.Trunc;
    var d := (right - left) as real;
    var f, g := StepTowards(left, right, m, n, d);
    FractionOrder(m, m, n);
    ScaleOrder(f, f, d, g, g);
  }

  /** Exactly which samples read as a gap after the filling: those of a trace without a good sample that
      read so before, and those of an inner gap where the path between the neighbours meets the mark. */
  lemma GapLeftIff(a: seq<int>, i: nat)
    requires i < |a|
    ensures var p, q := PrevGood(a, i), NextGood(a, i);
      Filled(a, i) == INT_MAX <==>
        || (p < 0 && q == |a| && a[i] == INT_MAX)
        || (!Good(a[i]) && 0 <= p && q < |a| && MeetsMark(a[p], a[q], i - p, q - p))
  {
    hide *;
    var p, q := PrevGood(a, i), NextGood(a, i);
    if !Good(a[i]) && 0 <= p && q < |a| {
      FilledBy(a, i, p, q);
      TowardsMarkIff(a[p], a[q], i - p, q - p);
    } else {
      FilledElsewhere(a, i, p, q);
    }
  }

  lemma FilledElsewhere(a: seq<int>, i: nat, p: int, q: int)
    requires i < |a| && p == PrevGood(a, i) && q == NextGood(a, i) && (Good(a[i]) || p < 0 || q == |a|)
    ensures Filled(a, i) == INT_MAX <==> p < 0 && q == |a| && a[i] == INT_MAX
  {
    hide Towards;
  }

  // ----- DemeanTrace

  function ValidSum(a: seq<int>, n: nat): int
    requires n <= |a|
  {
    if n == 0 then 0 else ValidSum(a, n - 1) + if a[n - 1] == INT_MAX then 0 else a[n - 1]
  }

  function ValidCount(a: seq<int>, n: nat): nat
    requires n <= |a|
  {
    if n == 0 then 0 else ValidCount(a, n - 1) + if a[n - 1] == INT_MAX then 0 else 1
  }

  function Mean(a: seq<int>): real {
    if ValidCount(a, |a|) == 0 then 0.0 else ValidSum(a, |a|) as real / ValidCount(a, |a|) as real
  }

  function Demeaned(a: seq<int>, i: nat): int
    requires i < |a|
  {
    if a[i] == INT_MAX then INT_MAX else Reals.Trunc(a[i] as real - Mean(a))
  }

  method DemeanTrace(raw: array<int>, filt: array<int>, n: int)
    requires n <= raw.Length && n <= filt.Length && raw != filt
    modifies filt
    ensures n <= 0 ==> filt[..] == old(filt[..])
    ensures n > 0 ==>
      && (forall i :: 0 <= i < n ==> filt[i] == Demeaned(raw[..n], i))
      && (forall i :: n <= i < filt.Length ==> filt[i] == old(filt[i]))
  {
    if n <= 0 {
      return;
    }
    ghost var x := raw[..n];
    var mean: real := 0.0;
    var nvalid := 0;
    var k := 0;
    while k < n
      invariant 0 <= k <= n && mean == ValidSum(x, k) as real && nvalid == ValidCount(x, k)
    {
      if raw[k] != INT_MAX {
        mean := mean + raw[k] as real;
        nvalid := nvalid + 1;
      }
      k := k + 1;
    }
    NothingValid(x, n);
    if nvalid > 0 {
      mean := mean / nvalid as real;
    }
    k := 0;
    while k < n
      invariant 0 <= k <= n
      invariant forall i :: 0 <= i < k ==> filt[i] == Demeaned(x, i)
      invariant forall i :: k <= i < filt.Length ==> filt[i] == old(filt[i])
    {
      filt[k] := if raw[k] == INT_MAX then INT_MAX else Reals.Trunc(raw[k] as real - mean);
      k := k + 1;
    }
  }

  lemma {:induction false} NothingValid(a: seq<int>, n: nat)
    requires n <= |a|
    ensures ValidCount(a, n) == 0 ==> ValidSum(a, n) == 0
  {
    if n > 0 {
      NothingValid(a, n - 1);
    }
  }

  /** The sum of the residuals at the valid samples. */
  function ResidualSum(a: seq<int>, n: nat): int
    requires n <= |a|
  {
    if n == 0 then 0 else ResidualSum(a, n - 1) + if a[n - 1] == INT_MAX then 0 else Demeaned(a, n - 1)
  }

  /** The mean, once for every valid sample. */
  function Offsets(a: seq<int>, n: nat, m: real): real
    requires n <= |a|
  {
    if n == 0 then 0.0 else Offsets(a, n - 1, m) + if a[n - 1] == INT_MAX then 0.0 else m
  }

  lemma {:induction false} ResidualBound(a: seq<int>, n: nat, m: real)
    requires n <= |a| && m == Mean(a)
    ensures var c, d := ValidCount(a, n), ResidualSum(a, n) as real - (ValidSum(a, n) as real - Offsets(a, n, m));
      if c == 0 then d == 0.0 else -(c as real) < d < c as real
  {
    hide Mean;
    if n > 0 {
      ResidualBound(a, n - 1, m);
    }
  }

  lemma {:induction false} OffsetsAre(a: seq<int>, n: nat, m: real)
    requires n <= |a|
    ensures Offsets(a, n, m) == ValidCount(a, n) as real * m
  {
    if n > 0 {
      OffsetsAre(a, n - 1, m);
    }
  }

  /** What is left of the offset is less than one count a sample. */
  lemma OffsetRemoved(a: seq<int>)
    ensures ValidCount(a, |a|) > 0 ==> Reals.Abs(ResidualSum(a, |a|) as real) < ValidCount(a, |a|) as real
  {
    hide Mean, Offsets, ResidualSum, ValidSum, ValidCount;
    var m := Mean(a);
    ResidualBound(a, |a|, m);
    OffsetsCancel(a);
  }

  lemma OffsetsCancel(a: seq<int>)
    ensures ValidCount(a, |a|) > 0 ==> Offsets(a, |a|, Mean(a)) == ValidSum(a, |a|) as real
  {
    hide Offsets, ValidSum, ValidCount;
    var m, c := Mean(a), ValidCount(a, |a|);
    OffsetsAre(a, |a|, m);
  }

  /** A valid sample becomes its distance to the mean of the valid samples, truncated. */
  lemma DemeanedIs(a: seq<int>, i: nat)
    requires i < |a| && a[i] != INT_MAX
    ensures ValidCount(a, |a|) > 0
    ensures Demeaned(a, i) == Reals.Trunc(a[i] as real - ValidSum(a, |a|) as real / ValidCount(a, |a|) as real)
  {
    Counts(a, |a|, i);
  }

  lemma {:induction false} Counts(a: seq<int>, n: nat, i: nat)
    requires i < n <= |a| && a[i] != INT_MAX
    ensures ValidCount(a, n) > 0
  {
    if i < n - 1 {
      Counts(a, n - 1, i);
    }
  }

  /** A gap stays a gap, and a sample turns into one exactly when its distance to the mean reaches the
      mark. */
  lemma GapPositionsIff(a: seq<int>, i: nat)
    requires i < |a|
    ensures Demeaned(a, i) == INT_MAX <==>
      a[i] == INT_MAX || INT_MAX as real <= a[i] as real - Mean(a) < INT_MAX as real + 1.0
  {}

  /** It can happen with 32-bit samples. */
  lemma GapCanAppear()
    ensures var a := [INT_MAX - 1, -INT_MAX - 1]; a[0] != INT_MAX && Demeaned(a, 0) == INT_MAX
  {
    var a := [INT_MAX - 1, -INT_MAX - 1];
    assert ValidCount(a, 1) == 1 && ValidCount(a, 2) == 2;
    assert ValidSum(a, 1) == INT_MAX - 1 && ValidSum(a, 2) == -2;
    assert Mean(a) == -1.0;
  }
}

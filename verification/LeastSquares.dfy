/** libsrc/locquake.c: one Gauss-Newton step of QuakeSolveIasp, from the design columns to the
    damped correction. */
module LeastSquares {
  import opened Determinant
  import Elimination
  import opened Cramer
  import Reals

  /** `C[n]` minus the first `m` columns weighted by `z`. */
  ghost function Residual(C: seq<Row>, n: nat, z: Row, m: nat): Row
    requires m <= n < |C|
  {
    if m == 0 then C[n] else Axpy(Residual(C, n, z, m - 1), -At(z, m - 1), C[m - 1])
  }

  /** Sum of the squared residuals of `p` picks after the step `z`. */
  ghost function SumOfSquares(C: seq<Row>, n: nat, z: Row, p: nat): real
    requires n < |C|
  {
    var r := Residual(C, n, z, n);
    Dot(r, r, 0, p)
  }

  /** Inner products of the first `n` columns with one another ... */
  ghost function NormalMatrix(C: seq<Row>, n: nat, p: nat): (A: seq<Row>)
    requires n <= |C|
    ensures |A| == n && Rect(A, n)
  {
    seq(n, j requires 0 <= j < n => seq(n, l requires 0 <= l < n => Dot(C[j], C[l], 0, p)))
  }

  /** ... and with column `n`. */
  ghost function NormalRight(C: seq<Row>, n: nat, p: nat): (b: seq<real>)
    requires n < |C|
    ensures |b| == n
  {
    seq(n, j requires 0 <= j < n => Dot(C[j], C[n], 0, p))
  }

  lemma {:induction false} DotSymmetric(u: Row, v: Row, lo: nat, hi: nat)
    ensures Dot(u, v, lo, hi) == Dot(v, u, lo, hi)
    decreases hi - lo
  {
    hide At;
    if lo < hi {
      DotSymmetric(u, v, lo + 1, hi);
    }
  }

  lemma {:induction false} DotSquare(u: Row, lo: nat, hi: nat)
    ensures Dot(u, u, lo, hi) >= 0.0
    decreases hi - lo
  {
    hide At;
    if lo < hi {
      DotSquare(u, lo + 1, hi);
    }
  }

  lemma DotAxpy(u: Row, t: real, v: Row, y: Row, p: nat)
    ensures Dot(Axpy(u, t, v), y, 0, p) == Dot(u, y, 0, p) + t * Dot(v, y, 0, p)
  {
    forall i
      ensures At(Axpy(u, t, v), i) == At(u, i) + t * At(v, i)
    {}
    hide At, Axpy, Dot;
    DotCombination(u, v, Axpy(u, t, v), t, y, 0, p);
  }

  lemma DotInit(u: Row, z: Row, hi: nat)
    requires hi > 0
    ensures Dot(u, z, 0, hi) == Dot(u, z, 0, hi - 1) + At(u, hi - 1) * At(z, hi - 1)
  {
    var i := hi - 1;
    DotLast(u, z, 0, i);
  }

  /** Correlating the residual with any vector `y`. */
  lemma {:induction false} ResidualDot(C: seq<Row>, n: nat, z: Row, m: nat, y: Row, g: Row, p: nat)
    requires m <= n < |C| && forall l :: 0 <= l < m ==> At(g, l) == Dot(C[l], y, 0, p)
    ensures Dot(Residual(C, n, z, m), y, 0, p) == Dot(C[n], y, 0, p) - Dot(g, z, 0, m)
    decreases m
  {
    hide At, Dot;
    if m == 0 {
      DotEmpty(g, z);
    } else {
      ResidualDot(C, n, z, m - 1, y, g, p);
      DotAxpy(Residual(C, n, z, m - 1), -At(z, m - 1), C[m - 1], y, p);
      DotInit(g, z, m);
      var d, s := Dot(C[m - 1], y, 0, p), Dot(g, z, 0, m - 1);
      assert At(g, m - 1) == d;
      assert Dot(Residual(C, n, z, m), y, 0, p) == Dot(Residual(C, n, z, m - 1), y, 0, p) + -At(z, m - 1) * d;
      assert Dot(g, z, 0, m) == s + At(g, m - 1) * At(z, m - 1);
    }
  }

  lemma DotEmpty(u: Row, z: Row)
    ensures Dot(u, z, 0, 0) == 0.0
  {}

  /** A solution of the normal equations leaves a residual orthogonal to every design column. */
  lemma ResidualOrthogonal(C: seq<Row>, n: nat, x: Row, p: nat, j: nat)
    requires n < |C| && j < n && Solves(NormalMatrix(C, n, p), 0, x, NormalRight(C, n, p))
    ensures Dot(Residual(C, n, x, n), C[j], 0, p) == 0.0
  {
    var g := NormalMatrix(C, n, p)[j];
    forall l | 0 <= l < n
      ensures At(g, l) == Dot(C[l], C[j], 0, p)
    {
      DotSymmetric(C[l], C[j], 0, p);
    }
    assert Dot(g, x, 0, n) == NormalRight(C, n, p)[j];
    hide At, Dot;
    DotSymmetric(C[n], C[j], 0, p);
    ResidualDot(C, n, x, n, C[j], g, p);
  }

  /** The change of the residual between two steps, and its correlation with `e`. */
  lemma {:induction false} ResidualShift(C: seq<Row>, n: nat, x: Row, z: Row, m: nat, e: Row, p: nat)
    requires m <= n < |C| && forall l :: 0 <= l < m ==> Dot(C[l], e, 0, p) == 0.0
    ensures Dot(Residual(C, n, z, m), e, 0, p) == Dot(Residual(C, n, x, m), e, 0, p)
    decreases m
  {
    hide At, Dot;
    if m > 0 {
      ResidualShift(C, n, x, z, m - 1, e, p);
      DotAxpy(Residual(C, n, z, m - 1), -At(z, m - 1), C[m - 1], e, p);
      DotAxpy(Residual(C, n, x, m - 1), -At(x, m - 1), C[m - 1], e, p);
    }
  }

  /** The step that solves the normal equations beats every other step. */
  lemma {:induction false} NormalEquationsMinimise(C: seq<Row>, n: nat, x: Row, p: nat, z: Row)
    requires n < |C| && Solves(NormalMatrix(C, n, p), 0, x, NormalRight(C, n, p))
    ensures SumOfSquares(C, n, x, p) <= SumOfSquares(C, n, z, p)
  {
    hide At, Dot, Axpy, Residual, Solves, NormalMatrix, NormalRight;
    var e, r := Residual(C, n, x, n), Residual(C, n, z, n);
    forall l | 0 <= l < n
      ensures Dot(C[l], e, 0, p) == 0.0
    {
      ResidualOrthogonal(C, n, x, p, l);
      DotSymmetric(C[l], e, 0, p);
    }
    ResidualShift(C, n, x, z, n, e, p);
    Pythagoras(r, e, p);
  }

  lemma Pythagoras(r: Row, e: Row, p: nat)
    requires Dot(r, e, 0, p) == Dot(e, e, 0, p)
    ensures var d := Axpy(r, -1.0, e); Dot(r, r, 0, p) == Dot(e, e, 0, p) + Dot(d, d, 0, p)
    ensures Dot(e, e, 0, p) <= Dot(r, r, 0, p)
  {
    hide At, Dot, Axpy;
    var d := Axpy(r, -1.0, e);
    DotAxpy(r, -1.0, e, d, p);
    DotSymmetric(r, d, 0, p);
    DotSymmetric(e, d, 0, p);
    DotAxpy(r, -1.0, e, r, p);
    DotAxpy(r, -1.0, e, e, p);
    DotSymmetric(e, r, 0, p);
    DotSquare(d, 0, p);
  }

  lemma {:induction false} DotSquareZero(u: Row, lo: nat, hi: nat)
    requires Dot(u, u, lo, hi) <= 0.0
    ensures forall i :: lo <= i < hi ==> At(u, i) == 0.0
    decreases hi - lo
  {
    hide At;
    if lo < hi {
      var s := Reals.Square(At(u, lo));
      DotSquare(u, lo + 1, hi);
      DotSquareZero(u, lo + 1, hi);
    }
  }

  /** Whatever does as well as a solution of the normal equations solves them too. */
  lemma {:induction false} MinimumSolves(C: seq<Row>, n: nat, x: Row, y: Row, p: nat)
    requires n < |C| && Solves(NormalMatrix(C, n, p), 0, y, NormalRight(C, n, p))
    requires SumOfSquares(C, n, x, p) <= SumOfSquares(C, n, y, p)
    ensures Solves(NormalMatrix(C, n, p), 0, x, NormalRight(C, n, p))
  {
    var e, r := Residual(C, n, y, n), Residual(C, n, x, n);
    var d := Axpy(r, -1.0, e);
    assert Dot(d, d, 0, p) <= 0.0 by {
      hide At, Dot, Axpy, Residual, Solves, NormalMatrix, NormalRight;
      forall l | 0 <= l < n
        ensures Dot(C[l], e, 0, p) == 0.0
      {
        ResidualOrthogonal(C, n, y, p, l);
        DotSymmetric(C[l], e, 0, p);
      }
      ResidualShift(C, n, y, x, n, e, p);
      Pythagoras(r, e, p);
    }
    forall j | 0 <= j < n
      ensures Dot(NormalMatrix(C, n, p)[j], x, 0, n) == NormalRight(C, n, p)[j]
    {
      hide Solves, Residual, Axpy;
      ResidualOrthogonal(C, n, y, p, j);
      SameCorrelation(r, e, C[j], p);
      OrthogonalSolves(C, n, x, p, j);
    }
  }

  lemma SameCorrelation(r: Row, e: Row, y: Row, p: nat)
    requires var d := Axpy(r, -1.0, e); Dot(d, d, 0, p) <= 0.0
    ensures Dot(r, y, 0, p) == Dot(e, y, 0, p)
  {
    hide At, Dot, Axpy;
    var d := Axpy(r, -1.0, e);
    DotSquareZero(d, 0, p);
    DotZero(y, d, 0, p);
    DotSymmetric(y, d, 0, p);
    DotAxpy(r, -1.0, e, y, p);
  }

  /** The converse of ResidualOrthogonal, column by column. */
  lemma OrthogonalSolves(C: seq<Row>, n: nat, x: Row, p: nat, j: nat)
    requires n < |C| && j < n && Dot(Residual(C, n, x, n), C[j], 0, p) == 0.0
    ensures Dot(NormalMatrix(C, n, p)[j], x, 0, n) == NormalRight(C, n, p)[j]
  {
    var g := NormalMatrix(C, n, p)[j];
    forall l | 0 <= l < n
      ensures At(g, l) == Dot(C[l], C[j], 0, p)
    {
      DotSymmetric(C[l], C[j], 0, p);
    }
    hide At, Dot;
    DotSymmetric(C[n], C[j], 0, p);
    ResidualDot(C, n, x, n, C[j], g, p);
  }

  // ----- the step itself

  /** What the travel-time table and the geometry give for one pick. */
  datatype PickTerm = PickTerm(time: real, useMe: int, slope: real, depthSlope: real,
                               cooze: real, snooze: real, residual: real)
  {
    predicate Used() { time > 0.0 && useMe > 0 }
  }

  function UsedPicks(picks: seq<PickTerm>): (u: seq<PickTerm>)
    ensures |u| <= |picks|
  {
    if |picks| == 0 then []
    else
      var u := UsedPicks(picks[..|picks| - 1]);
      var last := picks[|picks| - 1];
      if last.Used() then u + [last] else u
  }

  /** Entry of design column `j` for a pick; column 4 holds the residual, and with a fixed depth
      column 3 holds it too. */
  function DesignEntry(p: PickTerm, j: nat, fixedDepth: bool, sinLat: real): real {
    if j == 0 then 1.0
    else if j == 1 then p.slope * p.cooze
    else if j == 2 then p.slope * p.snooze * sinLat * -1.0
    else if j == 3 && !fixedDepth then -p.depthSlope * 0.1
    else p.residual
  }

  ghost function DesignColumn(used: seq<PickTerm>, j: nat, fixedDepth: bool, sinLat: real): (c: Row)
    ensures |c| == |used|
  {
    seq(|used|, k requires 0 <= k < |used| => DesignEntry(used[k], j, fixedDepth, sinLat))
  }

  ghost function Design(used: seq<PickTerm>, fixedDepth: bool, sinLat: real): (C: seq<Row>)
    ensures |C| == 5
  {
    seq(5, j requires 0 <= j < 5 => DesignColumn(used, j, fixedDepth, sinLat))
  }

  function Stride(j: nat, size: nat): (o: nat)
    requires j <= 5
    ensures o == j * size
  {
    if j == 0 then 0 else if j == 1 then size else if j == 2 then 2 * size
    else if j == 3 then 3 * size else if j == 4 then 4 * size else 5 * size
  }

  lemma StrideInjective(size: nat, j: nat, k: nat, l: nat, i: nat)
    requires j < 5 && l < 5 && k < size && i < size && (j != l || k != i)
    ensures Stride(j, size) + k != Stride(l, size) + i
  {}

  ghost function Cell(coef: array<real>, size: nat, j: nat, k: nat): real
    requires coef.Length >= 5 * size && j < 5 && k < size
    reads coef
  {
    coef[Stride(j, size) + k]
  }

  /** The first `p` entries of the five flattened columns are those of `C`. */
  ghost predicate Filled(coef: array<real>, size: nat, C: seq<Row>, p: nat)
    requires coef.Length >= 5 * size && p <= size
    reads coef
  {
    && |C| == 5
    && (forall j :: 0 <= j < 5 ==> |C[j]| == p)
    && forall j, k :: 0 <= j < 5 && 0 <= k < p ==> Cell(coef, size, j, k) == C[j][k]
  }

  lemma UsedStep(picks: seq<PickTerm>, i: nat)
    requires i < |picks|
    ensures UsedPicks(picks[..i + 1]) == if picks[i].Used() then UsedPicks(picks[..i]) + [picks[i]] else UsedPicks(picks[..i])
  {
    assert picks[..i + 1][..i] == picks[..i];
  }

  /** libsrc/locquake.c:1048-1095: the design columns of the picks in use. */
  method FillColumns(picks: seq<PickTerm>, fixedDepth: bool, sinLat: real, coef: array<real>, size: nat)
    returns (count: nat)
    requires coef.Length >= 5 * size && |picks| <= size
    modifies coef
    ensures count == |UsedPicks(picks)|
    ensures Filled(coef, size, Design(UsedPicks(picks), fixedDepth, sinLat), count)
  {
    count := 0;
    for i := 0 to |picks|
      invariant count == |UsedPicks(picks[..i])| <= i
      invariant Filled(coef, size, Design(UsedPicks(picks[..i]), fixedDepth, sinLat), count)
    {
      UsedStep(picks, i);
      if picks[i].Used() {
        FillPick(picks[i], fixedDepth, sinLat, coef, size, count, UsedPicks(picks[..i]));
        count := count + 1;
      }
    }
    assert picks[..|picks|] == picks;
  }

  method Put(coef: array<real>, size: nat, j: nat, k: nat, v: real)
    requires coef.Length >= 5 * size && j < 5 && k < size
    modifies coef
    ensures Cell(coef, size, j, k) == v
    ensures forall l, i :: 0 <= l < 5 && 0 <= i < size && (l != j || i != k) ==>
              Cell(coef, size, l, i) == old(Cell(coef, size, l, i))
  {
    coef[Stride(j, size) + k] := v;
    forall l, i | 0 <= l < 5 && 0 <= i < size && (l != j || i != k)
      ensures Cell(coef, size, l, i) == old(Cell(coef, size, l, i))
    {
      StrideInjective(size, j, k, l, i);
    }
  }

  method FillPick(p: PickTerm, fixedDepth: bool, sinLat: real, coef: array<real>, size: nat, count: nat,
                  ghost used: seq<PickTerm>)
    requires coef.Length >= 5 * size && count < size && count == |used|
    requires Filled(coef, size, Design(used, fixedDepth, sinLat), count)
    modifies coef
    ensures Filled(coef, size, Design(used + [p], fixedDepth, sinLat), count + 1)
  {
    hide Cell, Stride;
    Put(coef, size, 1, count, p.slope * p.cooze);
    Put(coef, size, 2, count, p.slope * p.snooze * sinLat * -1.0);
    Put(coef, size, 3, count, -p.depthSlope * 0.1);
    Put(coef, size, 4, count, p.residual);
    Put(coef, size, 0, count, 1.0);
    if fixedDepth {
      Put(coef, size, 3, count, p.residual);
    }
  }

  /** Sum over the picks of the product of two flattened columns. */
  method ColumnProduct(coef: array<real>, size: nat, p: nat, j: nat, l: nat, ghost C: seq<Row>) returns (r: real)
    requires coef.Length >= 5 * size && p <= size && j < 5 && l < 5 && Filled(coef, size, C, p)
    ensures r == Dot(C[j], C[l], 0, p)
  {
    hide Dot, Stride;
    r := 0.0;
    DotEmpty(C[j], C[l]);
    for k := 0 to p
      invariant r == Dot(C[j], C[l], 0, k)
    {
      DotLast(C[j], C[l], 0, k);
      assert Cell(coef, size, j, k) == C[j][k];
      assert Cell(coef, size, l, k) == C[l][k];
      r := r + coef[Stride(j, size) + k] * coef[Stride(l, size) + k];
    }
  }

  method FillNormalRow(coef: array<real>, size: nat, p: nat, n: nat, a: array2<real>, j: nat, ghost C: seq<Row>)
    requires coef.Length >= 5 * size && p <= size && j < n <= 4 && Filled(coef, size, C, p)
    requires n <= a.Length0 && n <= a.Length1
    modifies a
    ensures forall i :: 0 <= i < n ==> a[j, i] == Dot(C[j], C[i], 0, p)
    ensures forall r, i :: 0 <= r < n && 0 <= i < n && r != j ==> a[r, i] == old(a[r, i])
  {
    hide Dot, Cell;
    for l := 0 to n
      invariant forall r, i :: 0 <= r < n && 0 <= i < n && r != j ==> a[r, i] == old(a[r, i])
      invariant forall i :: 0 <= i < l ==> a[j, i] == Dot(C[j], C[i], 0, p)
    {
      a[j, l] := ColumnProduct(coef, size, p, j, l, C);
    }
  }

  /** libsrc/locquake.c:1108-1124: the normal equations of the first `n` columns against column `n`. */
  method BuildNormal(coef: array<real>, size: nat, p: nat, n: nat, a: array2<real>, b: array<real>, ghost C: seq<Row>)
    requires coef.Length >= 5 * size && p <= size && n <= 4 && Filled(coef, size, C, p)
    requires n <= a.Length0 && n <= a.Length1 && n <= b.Length && coef != b
    modifies a, b
    ensures Elimination.Rows(a, n) == NormalMatrix(C, n, p)
    ensures b[..n] == NormalRight(C, n, p)
  {
    hide Dot, Cell;
    for j := 0 to n
      invariant forall r, l :: 0 <= r < j && 0 <= l < n ==> a[r, l] == Dot(C[r], C[l], 0, p)
    {
      FillNormalRow(coef, size, p, n, a, j, C);
    }
    for j := 0 to n
      invariant Filled(coef, size, C, p)
      invariant forall r, l :: 0 <= r < n && 0 <= l < n ==> a[r, l] == Dot(C[r], C[l], 0, p)
      invariant forall i :: 0 <= i < j ==> b[i] == Dot(C[i], C[n], 0, p)
    {
      b[j] := ColumnProduct(coef, size, p, j, n, C);
    }
    forall r | 0 <= r < n
      ensures Elimination.Rows(a, n)[r] == NormalMatrix(C, n, p)[r]
    {
      assert Elimination.Rows(a, n)[r] == Elimination.RowOf(a, n, r);
    }
  }

  function Clamp(x: real, limit: real): (y: real)
    requires limit >= 0.0
    ensures -limit <= y <= limit && (-limit <= x <= limit ==> y == x)
    ensures (x > limit ==> y == limit) && (x < -limit ==> y == -limit)
  {
    if Reals.Abs(x) > limit then if x < 0.0 then -limit else limit else x
  }

  /** The correction of `u`: at most 30 seconds in origin time, 5 degrees in latitude and in longitude and
      50 kilometres in depth; a fixed depth stays. */
  ghost predicate Damped(x: seq<real>, u: Row)
    requires |x| == 4 && 3 <= |u| <= 4
  {
    && x[0] == Clamp(u[0], 30.0) && x[1] == Clamp(u[1], 5.0) && x[2] == Clamp(u[2], 5.0)
    && x[3] == if |u| == 4 then Clamp(u[3], 50.0) else 0.0
  }

  datatype Outcome = NoSolution | Corrected

  /** The normal matrix is taken for singular. */
  ghost predicate Rejected(C: seq<Row>, n: nat, p: nat)
    requires 0 < n <= |C|
  {
    Reals.Abs(Elimination.Deta(NormalMatrix(C, n, p), 0)) < 0.0000000000001
  }

  /** The first unknown is 111 although the matrix was not rejected. */
  ghost predicate LooksRejected(C: seq<Row>, n: nat, p: nat)
    requires 0 < n < |C|
  {
    var N := NormalMatrix(C, n, p);
    Elimination.Deta(Replace(N, 0, NormalRight(C, n, p)), 0) == 111.0 * Elimination.Deta(N, 0)
  }

  lemma FirstUnknownIff(C: seq<Row>, n: nat, p: nat, x: Row)
    requires 0 < n < |C| && Quotients(NormalMatrix(C, n, p), NormalRight(C, n, p), x)
    ensures x[0] == 111.0 <==> LooksRejected(C, n, p)
  {
    var N, b := NormalMatrix(C, n, p), NormalRight(C, n, p);
    var num, den := Elimination.Deta(Replace(N, 0, b), 0), Elimination.Deta(N, 0);
    assert x[0] == num / den && den != 0.0;
    hide Elimination.Deta, Quotients, NormalMatrix, NormalRight, Replace;
  }

  /** libsrc/locquake.c:1103-1141: one correction, returned in `x` after damping; `undamped` is the
      vector that QuakeDets left there.  A rejected matrix is signalled by a first component of 111, and
      so a genuine first component of 111 is taken for a failure as well. */
  method Correct(coef: array<real>, size: nat, p: nat, depthControl: int,
                 a: array2<real>, b: array<real>, x: array<real>, ghost C: seq<Row>)
    returns (outcome: Outcome, ghost undamped: Row)
    requires coef.Length >= 5 * size && p <= size && Filled(coef, size, C, p)
    requires a.Length0 == a.Length1 == b.Length == x.Length == 4 && b != x && coef != b && coef != x
    modifies a, b, x
    ensures var n := if depthControl == 1 || depthControl == 3 then 3 else 4;
      && (Rejected(C, n, p) ==> outcome == NoSolution)
      && (!Rejected(C, n, p) ==>
           && Quotients(NormalMatrix(C, n, p), NormalRight(C, n, p), undamped)
           && (outcome == NoSolution <==> LooksRejected(C, n, p)))
      && (outcome == Corrected ==>
           |undamped| == n && Damped(x[..], undamped))
  {
    hide Dot, Cell, Quotients, NormalMatrix, NormalRight, Elimination.Deta, LooksRejected;
    var n: nat := if depthControl == 1 || depthControl == 3 then 3 else 4;
    BuildNormal(coef, size, p, n, a, b, C);
    x[0], x[1], x[2], x[3] := 0.0, 0.0, 0.0, 0.0;
    QuakeDets(n, a, b, x);
    undamped := x[..n];
    if !Rejected(C, n, p) {
      FirstUnknownIff(C, n, p, undamped);
    }
    if x[0] == NO_SOLUTION {
      return NoSolution, undamped;
    }
    outcome := Corrected;
    x[1] := Clamp(x[1], 5.0);
    x[2] := Clamp(x[2], 5.0);
    x[0] := Clamp(x[0], 30.0);
    if n > 3 {
      x[3] := Clamp(x[3], 50.0);
    }
  }

  /** No numerator determinant makes a lossy exit. */
  ghost predicate NumeratorsExact(C: seq<Row>, n: nat, p: nat)
    requires n < |C|
  {
    forall k :: 0 <= k < n ==> !Elimination.LossyExit(Replace(NormalMatrix(C, n, p), k, NormalRight(C, n, p)), 0)
  }

  /** The undamped correction minimises the sum of squared residuals over every step, unless a
      numerator made a lossy exit. */
  lemma {:induction false} CorrectionMinimises(C: seq<Row>, n: nat, p: nat, x: Row, z: Row)
    requires n < |C| && Quotients(NormalMatrix(C, n, p), NormalRight(C, n, p), x)
    requires NumeratorsExact(C, n, p)
    ensures SumOfSquares(C, n, x, p) <= SumOfSquares(C, n, z, p)
  {
    QuotientsSolveIff(NormalMatrix(C, n, p), NormalRight(C, n, p), x);
    hide Quotients, Solves, SumOfSquares, Elimination.LossyExit, NormalMatrix, NormalRight;
    NormalEquationsMinimise(C, n, x, p, z);
  }

  ghost predicate Minimises(C: seq<Row>, n: nat, x: Row, p: nat)
    requires n < |C|
  {
    forall z :: SumOfSquares(C, n, x, p) <= SumOfSquares(C, n, z, p)
  }

  /** And then only: with a lossy numerator some other step is better. */
  lemma {:induction false} CorrectionMinimisesIff(C: seq<Row>, n: nat, p: nat, x: Row)
    requires n < |C| && Quotients(NormalMatrix(C, n, p), NormalRight(C, n, p), x)
    ensures Minimises(C, n, x, p) <==> NumeratorsExact(C, n, p)
  {
    var N, b := NormalMatrix(C, n, p), NormalRight(C, n, p);
    QuotientsSolveIff(N, b, x);
    RegularDenominator(N);
    var y := RegularIsSolvable(N, 0, n, b);
    hide Quotients, Solves, SumOfSquares, Elimination.LossyExit, NormalMatrix, NormalRight, Det, Elimination.Deta, Rect;
    if Solves(N, 0, x, b) {
      forall z: Row
        ensures SumOfSquares(C, n, x, p) <= SumOfSquares(C, n, z, p)
      {
        NormalEquationsMinimise(C, n, x, p, z);
      }
    }
    if Minimises(C, n, x, p) {
      MinimumSolves(C, n, x, y, p);
    }
  }

  // ----- from the picks to the optimum

  function Unknowns(fixedDepth: bool): nat { if fixedDepth then 3 else 4 }

  /** What the step `z`, in origin time, latitude, longitude and depth, leaves of the residual of one pick.
      A later origin and a longer path take away from it. */
  ghost function PickMisfit(p: PickTerm, z: Row, fixedDepth: bool, sinLat: real): real {
    var r := p.residual - At(z, 0) - At(z, 1) * p.slope * p.cooze + At(z, 2) * p.slope * p.snooze * sinLat;
    if fixedDepth then r else r + At(z, 3) * 0.1 * p.depthSlope
  }

  /** The sum over the picks in use of what is left, squared. */
  ghost function TotalMisfit(picks: seq<PickTerm>, z: Row, fixedDepth: bool, sinLat: real): real {
    if |picks| == 0 then 0.0
    else
      var last := picks[|picks| - 1];
      var r := PickMisfit(last, z, fixedDepth, sinLat);
      TotalMisfit(picks[..|picks| - 1], z, fixedDepth, sinLat) + if last.time > 0.0 && last.useMe > 0 then r * r else 0.0
  }

  lemma {:induction false} MisfitOfUsed(picks: seq<PickTerm>, z: Row, fixedDepth: bool, sinLat: real)
    ensures TotalMisfit(UsedPicks(picks), z, fixedDepth, sinLat) == TotalMisfit(picks, z, fixedDepth, sinLat)
  {
    hide PickMisfit;
    if |picks| > 0 {
      MisfitOfUsed(picks[..|picks| - 1], z, fixedDepth, sinLat);
      var u := UsedPicks(picks[..|picks| - 1]);
      assert (u + [picks[|picks| - 1]])[..|u|] == u;
    }
  }

  lemma EntryAt(used: seq<PickTerm>, j: nat, k: nat, fixedDepth: bool, sinLat: real)
    requires j < 5 && k < |used|
    ensures At(Design(used, fixedDepth, sinLat)[j], k) == DesignEntry(used[k], j, fixedDepth, sinLat)
    ensures DesignEntry(used[k], Unknowns(fixedDepth), fixedDepth, sinLat) == used[k].residual
  {}

  lemma MisfitParts(p: PickTerm, z: Row, fixedDepth: bool, sinLat: real)
    ensures var r := p.residual - At(z, 0) * DesignEntry(p, 0, fixedDepth, sinLat)
                   - At(z, 1) * DesignEntry(p, 1, fixedDepth, sinLat) - At(z, 2) * DesignEntry(p, 2, fixedDepth, sinLat);
      PickMisfit(p, z, fixedDepth, sinLat) == if fixedDepth then r else r - At(z, 3) * DesignEntry(p, 3, false, sinLat)
  {
    hide At;
  }

  /** The columns of the design give what is left of each pick. */
  lemma ResidualIsMisfit(used: seq<PickTerm>, z: Row, k: nat, fixedDepth: bool, sinLat: real)
    requires k < |used|
    ensures var n := Unknowns(fixedDepth);
      At(Residual(Design(used, fixedDepth, sinLat), n, z, n), k) == PickMisfit(used[k], z, fixedDepth, sinLat)
  {
    hide Residual, Design, DesignEntry, PickMisfit, At, Axpy;
    var C, n, p := Design(used, fixedDepth, sinLat), Unknowns(fixedDepth), used[k];
    AxpyAt(C, n, z, k, 0);
    AxpyAt(C, n, z, k, 1);
    AxpyAt(C, n, z, k, 2);
    if !fixedDepth {
      AxpyAt(C, n, z, k, 3);
      EntryAt(used, 3, k, fixedDepth, sinLat);
    }
    EntryAt(used, 0, k, fixedDepth, sinLat);
    EntryAt(used, 1, k, fixedDepth, sinLat);
    EntryAt(used, 2, k, fixedDepth, sinLat);
    EntryAt(used, n, k, fixedDepth, sinLat);
    MisfitParts(p, z, fixedDepth, sinLat);
  }

  lemma AxpyAt(C: seq<Row>, n: nat, z: Row, k: nat, m: nat)
    requires m < n < |C|
    ensures At(Residual(C, n, z, m + 1), k) == At(Residual(C, n, z, m), k) - At(z, m) * At(C[m], k)
    ensures Residual(C, n, z, 0) == C[n]
  {}

  lemma {:induction false} MisfitUpTo(used: seq<PickTerm>, z: Row, hi: nat, fixedDepth: bool, sinLat: real)
    requires hi <= |used| && UsedPicks(used) == used
    ensures var n := Unknowns(fixedDepth); var r := Residual(Design(used, fixedDepth, sinLat), n, z, n);
      Dot(r, r, 0, hi) == TotalMisfit(used[..hi], z, fixedDepth, sinLat)
    decreases hi
  {
    hide At, Residual, PickMisfit, Design, UsedPicks, Dot;
    var n := Unknowns(fixedDepth);
    var r := Residual(Design(used, fixedDepth, sinLat), n, z, n);
    if hi == 0 {
      DotEmpty(r, r);
    } else {
      MisfitUpTo(used, z, hi - 1, fixedDepth, sinLat);
      DotInit(r, r, hi);
      ResidualIsMisfit(used, z, hi - 1, fixedDepth, sinLat);
      InUse(used, hi - 1);
      assert used[..hi][..hi - 1] == used[..hi - 1];
    }
  }

  lemma {:induction false} InUse(used: seq<PickTerm>, k: nat)
    requires k < |used| && UsedPicks(used) == used
    ensures used[k].time > 0.0 && used[k].useMe > 0
    decreases |used|
  {
    var front := used[..|used| - 1];
    if k < |front| {
      InUse(front, k);
    }
  }

  lemma {:induction false} UsedTwice(picks: seq<PickTerm>)
    ensures UsedPicks(UsedPicks(picks)) == UsedPicks(picks)
    ensures UsedPicks(picks) == [] <==> forall k :: 0 <= k < |picks| ==> !(picks[k].time > 0.0 && picks[k].useMe > 0)
  {
    if |picks| > 0 {
      var front, last := picks[..|picks| - 1], picks[|picks| - 1];
      UsedTwice(front);
      var u := UsedPicks(front);
      assert (u + [last])[..|u|] == u;
      assert forall k :: 0 <= k < |front| ==> front[k] == picks[k];
    }
  }

  /** No step leaves less over the picks in use than `x` does. */
  ghost predicate BestStep(picks: seq<PickTerm>, x: Row, fixedDepth: bool, sinLat: real) {
    forall z :: TotalMisfit(picks, x, fixedDepth, sinLat) <= TotalMisfit(picks, z, fixedDepth, sinLat)
  }

  lemma BestStepIff(picks: seq<PickTerm>, x: Row, fixedDepth: bool, sinLat: real)
    ensures var used := UsedPicks(picks);
      BestStep(picks, x, fixedDepth, sinLat) <==>
      Minimises(Design(used, fixedDepth, sinLat), Unknowns(fixedDepth), x, |used|)
  {
    var used := UsedPicks(picks);
    UsedTwice(picks);
    hide TotalMisfit, Dot, Residual, Design, UsedPicks;
    assert used[..|used|] == used;
    forall z: Row
      ensures SumOfSquares(Design(used, fixedDepth, sinLat), Unknowns(fixedDepth), z, |used|)
           == TotalMisfit(picks, z, fixedDepth, sinLat)
    {
      MisfitUpTo(used, z, |used|, fixedDepth, sinLat);
      MisfitOfUsed(picks, z, fixedDepth, sinLat);
    }
  }

  /** The columns, the normal equations and the correction in one: the undamped step is the best one for
      the picks in use exactly when no numerator makes a lossy exit. */
  method SolveStep(picks: seq<PickTerm>, depthControl: int, sinLat: real, coef: array<real>, size: nat,
                   a: array2<real>, b: array<real>, x: array<real>)
    returns (outcome: Outcome, ghost undamped: Row)
    requires coef.Length >= 5 * size && |picks| <= size
    requires a.Length0 == a.Length1 == b.Length == x.Length == 4 && b != x && coef != b && coef != x
    modifies coef, a, b, x
    ensures var used, fixed := UsedPicks(picks), depthControl == 1 || depthControl == 3;
      var C, n := Design(used, fixed, sinLat), Unknowns(fixed);
      && (outcome == Corrected <==>
           && (exists k :: 0 <= k < |picks| && picks[k].time > 0.0 && picks[k].useMe > 0)
           && !Rejected(C, n, |used|) && !LooksRejected(C, n, |used|))
      && (outcome == Corrected ==>
           && |undamped| == n && Damped(x[..], undamped)
           && (BestStep(picks, undamped, fixed, sinLat) <==> NumeratorsExact(C, n, |used|)))
  {
    var fixed := depthControl == 1 || depthControl == 3;
    ghost var used := UsedPicks(picks);
    ghost var C, n := Design(used, fixed, sinLat), Unknowns(fixed);
    var count := FillColumns(picks, fixed, sinLat, coef, size);
    undamped := [];
    UsedTwice(picks);
    if count == 0 {
      return NoSolution, undamped;
    }
    hide Quotients, Elimination.LossyExit, NormalMatrix, NormalRight, BestStep, Minimises;
    hide Rejected, LooksRejected, Filled, Replace, NumeratorsExact;
    outcome, undamped := Correct(coef, size, count, depthControl, a, b, x, C);
    if !Rejected(C, n, count) {
      CorrectionMinimisesIff(C, n, count, undamped);
      BestStepIff(picks, undamped, fixed, sinLat);
    }
  }
}

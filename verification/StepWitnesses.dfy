/** libsrc/locquake.c: four picks with a fixed depth on which one step of QuakeSolveIasp goes wrong. */
module StepWitnesses {
  import opened Determinant
  import opened Elimination
  import opened Cramer
  import opened LeastSquares

  function OnePick(s: real, east: real, north: real, r: real): PickTerm {
    PickTerm(1.0, 1, 1.0, 0.0, s * east, north, r + east * north)
  }

  /** Picks in the four quarters; `s` scales the one horizontal column, and the residuals are one second
      above and below `r`, so that the iteration would not stop before this step. */
  function FourPicks(s: real, r: real): seq<PickTerm> {
    [OnePick(s, 1.0, 1.0, r), OnePick(s, 1.0, -1.0, r), OnePick(s, -1.0, 1.0, r), OnePick(s, -1.0, -1.0, r)]
  }

  function Diagonal(a: real, b: real, c: real): seq<Row> { [[a, 0.0, 0.0], [0.0, b, 0.0], [0.0, 0.0, c]] }

  lemma {:induction false} AllUsed(picks: seq<PickTerm>)
    requires forall k :: 0 <= k < |picks| ==> picks[k].Used()
    ensures UsedPicks(picks) == picks
  {
    if |picks| > 0 {
      AllUsed(picks[..|picks| - 1]);
    }
  }

  lemma DotFour(u: Row, v: Row)
    ensures Dot(u, v, 0, 4) == At(u, 0) * At(v, 0) + At(u, 1) * At(v, 1) + At(u, 2) * At(v, 2) + At(u, 3) * At(v, 3)
  {
    hide At;
    assert Dot(u, v, 4, 4) == 0.0;
    assert Dot(u, v, 3, 4) == At(u, 3) * At(v, 3);
    assert Dot(u, v, 2, 4) == At(u, 2) * At(v, 2) + At(u, 3) * At(v, 3);
  }

  /** The design columns of the four picks, and their residuals. */
  function Columns(s: real, r: real): (Row, Row, Row, Row) {
    ([1.0, 1.0, 1.0, 1.0], [s, s, -s, -s], [1.0, -1.0, 1.0, -1.0], [r + 1.0, r - 1.0, r - 1.0, r + 1.0])
  }

  lemma FourColumns(s: real, r: real)
    ensures var C := Design(FourPicks(s, r), true, -1.0); (C[0], C[1], C[2], C[3]) == Columns(s, r)
  {
    var C := Design(FourPicks(s, r), true, -1.0);
    var (o, e, n, t) := Columns(s, r);
    assert C[0] == o && C[1] == e && C[2] == n && C[3] == t;
  }

  lemma FourNormal(s: real, r: real)
    ensures var C := Design(FourPicks(s, r), true, -1.0);
      NormalMatrix(C, 3, 4) == Diagonal(4.0, 4.0 * (s * s), 4.0) && NormalRight(C, 3, 4) == [4.0 * r, 0.0, 0.0]
    ensures UsedPicks(FourPicks(s, r)) == FourPicks(s, r)
  {
    var C := Design(FourPicks(s, r), true, -1.0);
    FourColumns(s, r);
    AllUsed(FourPicks(s, r));
    var (o, e, n, t) := Columns(s, r);
    hide Design, FourPicks;
    FourProducts(s, r);
    assert NormalMatrix(C, 3, 4)[0] == [Dot(o, o, 0, 4), Dot(o, e, 0, 4), Dot(o, n, 0, 4)];
    assert NormalMatrix(C, 3, 4)[1] == [Dot(e, o, 0, 4), Dot(e, e, 0, 4), Dot(e, n, 0, 4)];
    assert NormalMatrix(C, 3, 4)[2] == [Dot(n, o, 0, 4), Dot(n, e, 0, 4), Dot(n, n, 0, 4)];
    assert NormalRight(C, 3, 4) == [Dot(o, t, 0, 4), Dot(e, t, 0, 4), Dot(n, t, 0, 4)];
  }

  lemma FourProducts(s: real, r: real)
    ensures var (o, e, n, t) := Columns(s, r);
      && Dot(o, o, 0, 4) == 4.0 && Dot(e, e, 0, 4) == 4.0 * (s * s) && Dot(n, n, 0, 4) == 4.0
      && Dot(o, e, 0, 4) == Dot(e, o, 0, 4) == Dot(o, n, 0, 4) == Dot(n, o, 0, 4) == 0.0
      && Dot(e, n, 0, 4) == Dot(n, e, 0, 4) == 0.0
      && Dot(o, t, 0, 4) == 4.0 * r && Dot(e, t, 0, 4) == Dot(n, t, 0, 4) == 0.0
  {
    var (o, e, n, t) := Columns(s, r);
    DotFour(o, o); DotFour(e, e); DotFour(n, n);
    DotFour(o, e); DotFour(e, o); DotFour(o, n); DotFour(n, o); DotFour(e, n); DotFour(n, e);
    DotFour(o, t); DotFour(e, t); DotFour(n, t);
    hide Dot;
  }

  lemma DiagonalDet(a: real, b: real, c: real)
    ensures Det(Diagonal(a, b, c), 0) == a * (b * c) && Det(Diagonal(a, b, c)[1..], 1) == b * c
  {
    var R := Diagonal(a, b, c);
    assert R[1..] == [R[1], R[2]] && R[1..][1..] == [R[2]];
    DetOfOne(R[2], 2);
    LaplaceZeroTail(R[1..], 1, 2);
    LaplaceZeroTail(R, 0, 3);
  }

  lemma DiagonalReplace(a: real, b: real, c: real, t: real)
    ensures Replace(Diagonal(a, b, c), 0, [t, 0.0, 0.0]) == Diagonal(t, b, c)
  {
    var R := Replace(Diagonal(a, b, c), 0, [t, 0.0, 0.0]);
    assert R[0] == [t, 0.0, 0.0] && R[1] == [0.0, b, 0.0] && R[2] == [0.0, 0.0, c];
  }

  /** What is left of a diagonal matrix after the first pass. */
  lemma DiagonalNext(a: real, b: real, c: real)
    requires a >= PIVOT_TOLERANCE
    ensures !Stuck(Diagonal(a, b, c), 0) && Next(Diagonal(a, b, c), 0) == Diagonal(a, b, c)[1..]
  {
    var R := Diagonal(a, b, c);
    assert Pivoted(R, 0) == R;
    assert Reduce(R[1], R[0], 0) == R[1];
    assert Reduce(R[2], R[0], 0) == R[2];
  }

  /** A diagonal matrix with good pivots is handled correctly. */
  lemma DiagonalDeta(a: real, b: real, c: real)
    requires a >= PIVOT_TOLERANCE && b >= PIVOT_TOLERANCE
    ensures Deta(Diagonal(a, b, c), 0) == a * (b * c)
  {
    var R := Diagonal(a, b, c);
    DiagonalDet(a, b, c);
    DiagonalNext(a, b, c);
    assert !Stuck(R[1..], 1);
    assert |Next(R[1..], 1)| == 1;
    assert !TinyExit(Next(R[1..], 1), 2);
    assert !TinyExit(R[1..], 1);
    assert !TinyExit(R, 0);
    DetaIsDet(R, 0, 3);
  }

  /** A 3 x 3 normal matrix with a determinant above the tolerance of the solver that is taken for
      singular: the second pivot is tiny with zeros below it. */
  lemma LossyMatrixExists()
    ensures var C := Design(UsedPicks(FourPicks(0.0000001, 0.0)), true, -1.0); var N := NormalMatrix(C, 3, 4);
      LossyExit(N, 0) && Rejected(C, 3, 4) && Det(N, 0) > 0.0000000000001
  {
    FourNormal(0.0000001, 0.0);
    hide Design, FourPicks, NormalMatrix, NormalRight, UsedPicks, LossyExit, TinyExit, Deta, Det, Diagonal, Replace;
    var R := Diagonal(4.0, 0.00000000000004, 4.0);
    assert 4.0 * (0.0000001 * 0.0000001) == 0.00000000000004;
    DiagonalDet(4.0, 0.00000000000004, 4.0);
    DiagonalNext(4.0, 0.00000000000004, 4.0);
    TinySecond(R);
    LossyExitIsTiny(R, 0);
    DetaGivesUp(R, 0);
  }

  lemma TinySecond(R: seq<Row>)
    requires R == Diagonal(4.0, 0.00000000000004, 4.0) && !Stuck(R, 0) && Next(R, 0) == R[1..]
    ensures LossyExit(R, 0)
  {
    hide Next;
    assert R[1..] == [R[1], R[2]] && R[1..][1..] == [R[2]];
    DetOfOne(R[2], 2);
    assert Pivot(R[1..], 1, 2) == 0;
    assert LossyExit(R[1..], 1);
  }

  lemma LossyNumerator(C: seq<Row>, r: real)
    requires |C| > 3 && NormalMatrix(C, 3, 4) == Diagonal(4.0, 4.0, 4.0) && NormalRight(C, 3, 4) == [r, 0.0, 0.0]
    requires r == 0.0000000000004
    ensures !Rejected(C, 3, 4) && !LooksRejected(C, 3, 4)
    ensures LossyExit(Replace(NormalMatrix(C, 3, 4), 0, NormalRight(C, 3, 4)), 0)
  {
    hide NormalMatrix, NormalRight, LossyExit, TinyExit, Deta, Det, Diagonal, Replace;
    DiagonalDeta(4.0, 4.0, 4.0);
    var R := Diagonal(r, 4.0, 4.0);
    DiagonalReplace(4.0, 4.0, 4.0, r);
    TinyFirst(R);
    LossyExitIsTiny(R, 0);
    DetaGivesUp(R, 0);
  }

  /** A step that is accepted although a numerator makes a lossy exit: it is not the best one. */
  lemma LossyNumeratorExists(x: Row)
    ensures var used := UsedPicks(FourPicks(1.0, 0.0000000000001)); var C := Design(used, true, -1.0);
      var N, b := NormalMatrix(C, 3, 4), NormalRight(C, 3, 4);
      && |used| == 4 && !Rejected(C, 3, 4) && !LooksRejected(C, 3, 4) && LossyExit(Replace(N, 0, b), 0)
      && (Quotients(N, b, x) ==> !BestStep(used, x, true, -1.0))
  {
    var used := FourPicks(1.0, 0.0000000000001);
    var C := Design(used, true, -1.0);
    FourNormal(1.0, 0.0000000000001);
    assert |used| == 4;
    hide *;
    LossyNumerator(C, 4.0 * 0.0000000000001);
    if Quotients(NormalMatrix(C, 3, 4), NormalRight(C, 3, 4), x) {
      CorrectionMinimisesIff(C, 3, 4, x);
      BestStepIff(used, x, true, -1.0);
      assert Unknowns(true) == 3 by { ThreeUnknowns(); }
    }
  }

  lemma ThreeUnknowns()
    ensures Unknowns(true) == 3
  {}

  lemma TinyFirst(R: seq<Row>)
    requires R == Diagonal(0.0000000000004, 4.0, 4.0)
    ensures LossyExit(R, 0)
  {
    DiagonalDet(0.0000000000004, 4.0, 4.0);
    assert Pivot(R, 0, 2) == 0;
    assert Pivot(R, 0, 3) == 0;
  }

  lemma LooksLikeFailure(C: seq<Row>, t: real)
    requires |C| > 3 && NormalMatrix(C, 3, 4) == Diagonal(4.0, 4.0, 4.0) && NormalRight(C, 3, 4) == [t, 0.0, 0.0]
    requires t == 444.0
    ensures !Rejected(C, 3, 4) && LooksRejected(C, 3, 4)
    ensures Solves(NormalMatrix(C, 3, 4), 0, [NO_SOLUTION, 0.0, 0.0], NormalRight(C, 3, 4))
  {
    hide NormalMatrix, NormalRight, TinyExit, Deta, Det, Diagonal, Replace, Solves;
    DiagonalDeta(4.0, 4.0, 4.0);
    DiagonalReplace(4.0, 4.0, 4.0, t);
    DiagonalDeta(t, 4.0, 4.0);
    DiagonalSolves(NormalMatrix(C, 3, 4), [NO_SOLUTION, 0.0, 0.0], NormalRight(C, 3, 4));
  }

  /** A step that is refused although its matrix is regular and (111, 0, 0) solves the equations. */
  lemma RefusedSolutionExists()
    ensures var C := Design(UsedPicks(FourPicks(1.0, NO_SOLUTION)), true, -1.0);
      var N, b := NormalMatrix(C, 3, 4), NormalRight(C, 3, 4);
      !Rejected(C, 3, 4) && LooksRejected(C, 3, 4) && Solves(N, 0, [NO_SOLUTION, 0.0, 0.0], b)
  {
    var C := Design(FourPicks(1.0, NO_SOLUTION), true, -1.0);
    FourNormal(1.0, NO_SOLUTION);
    assert 4.0 * NO_SOLUTION == 444.0;
    hide *;
    LooksLikeFailure(C, 4.0 * NO_SOLUTION);
  }

  lemma DiagonalSolves(N: seq<Row>, x: Row, b: seq<real>)
    requires N == Diagonal(4.0, 4.0, 4.0) && x == [NO_SOLUTION, 0.0, 0.0] && b == [444.0, 0.0, 0.0]
    ensures Solves(N, 0, x, b)
  {
    forall j | 0 <= j < 3
      ensures Dot(N[j], x, 0, 3) == b[j]
    {
      assert Dot(N[j], x, 3, 3) == 0.0;
      assert Dot(N[j], x, 2, 3) == 0.0;
      assert Dot(N[j], x, 1, 3) == 0.0;
    }
  }
}

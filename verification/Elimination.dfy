/** libsrc/locquake.c: QuakeDeta, the in-place elimination, proved against the determinant. */
module Elimination {
  import opened Determinant
  import Reals

  const PIVOT_TOLERANCE: real := 0.000000000001

  /** The row with the largest entry in column `c` among rows 1 .. m-1, the first one on a tie;
      0 when all those entries are zero. */
  ghost function Pivot(R: seq<Row>, c: nat, m: nat): (q: nat)
    requires 0 < m <= |R|
    ensures q < m
    ensures q == 0 <==> forall j :: 0 < j < m ==> At(R[j], c) == 0.0
    ensures q != 0 ==> At(R[q], c) != 0.0
    ensures q != 0 ==> forall j :: 0 < j < m ==> Reals.Abs(At(R[j], c)) <= Reals.Abs(At(R[q], c))
    ensures q != 0 ==> forall j :: 0 < j < q ==> Reals.Abs(At(R[j], c)) < Reals.Abs(At(R[q], c))
  {
    if m == 1 then 0
    else
      var q := Pivot(R, c, m - 1);
      if Reals.Abs(At(R[m - 1], c)) > (if q == 0 then 0.0 else Reals.Abs(At(R[q], c))) then m - 1 else q
  }

  ghost predicate TinyPivot(R: seq<Row>, c: nat)
    requires |R| > 0
  {
    Reals.Abs(At(R[0], c)) < PIVOT_TOLERANCE
  }

  ghost function Pivoted(R: seq<Row>, c: nat): (S: seq<Row>)
    requires |R| > 0
    ensures |S| == |R|
  {
    if TinyPivot(R, c) then Swap(R, 0, Pivot(R, c, |R|)) else R
  }

  /** A pivot below the tolerance with only zeros under it. */
  ghost predicate Stuck(R: seq<Row>, c: nat)
    requires |R| > 0
  {
    TinyPivot(R, c) && Pivot(R, c, |R|) == 0
  }

  /** The trailing block that one elimination step leaves behind. */
  ghost function Next(R: seq<Row>, c: nat): (S: seq<Row>)
    requires |R| > 0
    ensures |S| == |R| - 1
  {
    Schur(Pivoted(R, c), c)
  }

  /** The elimination meets a pivot below the tolerance with only zeros under it, and gives up. */
  ghost predicate TinyExit(R: seq<Row>, c: nat)
    decreases |R|
  {
    |R| >= 2 && (Stuck(R, c) || TinyExit(Next(R, c), c + 1))
  }

  /** The first entry of column `c` is below 1e-12, and all the others are zero. */
  ghost predicate NoPivot(R: seq<Row>, c: nat)
    requires |R| > 0
  {
    Reals.Abs(At(R[0], c)) < 0.000000000001 && forall i :: 0 < i < |R| ==> At(R[i], c) == 0.0
  }

  /** Giving up is wrong: the abandoned pivot was small but not zero, and the block to its right
      is regular. */
  ghost predicate LossyExit(R: seq<Row>, c: nat)
    decreases |R|
  {
    |R| >= 2 &&
    if NoPivot(R, c) then At(R[0], c) != 0.0 && Det(R[1..], c + 1) != 0.0
    else LossyExit(Next(R, c), c + 1)
  }

  /** The pivot, negated after a row exchange. */
  ghost function StepFactor(R: seq<Row>, c: nat): real
    requires |R| > 0
  {
    if TinyPivot(R, c) then -At(Pivoted(R, c)[0], c) else At(R[0], c)
  }

  lemma PivotedDet(R: seq<Row>, c: nat)
    requires |R| >= 2 && !Stuck(R, c)
    ensures At(Pivoted(R, c)[0], c) != 0.0
    ensures Det(R, c) == if TinyPivot(R, c) then -Det(Pivoted(R, c), c) else Det(Pivoted(R, c), c)
  {
    if TinyPivot(R, c) {
      var q := Pivot(R, c, |R|);
      DetSwap(R, 0, q, c);
    }
  }

  lemma NextRect(R: seq<Row>, c: nat, w: nat)
    requires |R| > 0 && Rect(R, w)
    ensures Rect(Pivoted(R, c), w) && Rect(Next(R, c), w)
  {}

  /** One step of the elimination, row exchange included. */
  lemma EliminationStep(R: seq<Row>, c: nat, w: nat)
    requires |R| >= 2 && Rect(R, w) && !Stuck(R, c)
    ensures StepFactor(R, c) != 0.0
    ensures Det(R, c) == StepFactor(R, c) * Det(Next(R, c), c + 1)
    ensures Rect(Next(R, c), w)
  {
    hide At, Det, Schur, Pivot, Rect;
    NextRect(R, c, w);
    var S := Pivoted(R, c);
    PivotedDet(R, c);
    DetSchur(S, c, w);
    NegateFactor(Det(Next(R, c), c + 1), At(S[0], c));
  }

  lemma StuckIff(R: seq<Row>, c: nat)
    requires |R| > 0
    ensures Stuck(R, c) <==> NoPivot(R, c)
  {}

  lemma StuckDet(R: seq<Row>, c: nat)
    requires |R| >= 2 && Stuck(R, c)
    ensures Det(R, c) == 0.0 <==> !LossyExit(R, c)
  {
    LaplaceZeroTail(R, c, |R|);
    Reals.ProductZero(At(R[0], c), Det(R[1..], c + 1), Det(R, c));
  }

  lemma StepKeepsZero(R: seq<Row>, c: nat, w: nat)
    requires |R| >= 2 && Rect(R, w) && !Stuck(R, c)
    ensures Det(R, c) == 0.0 <==> Det(Next(R, c), c + 1) == 0.0
  {
    hide At, Det, StepFactor, Stuck, Next;
    EliminationStep(R, c, w);
    Reals.ProductZero(StepFactor(R, c), Det(Next(R, c), c + 1), Det(R, c));
  }

  lemma {:induction false} TinyExitDet(R: seq<Row>, c: nat, w: nat)
    requires Rect(R, w) && TinyExit(R, c)
    ensures Det(R, c) == 0.0 <==> !LossyExit(R, c)
    decreases |R|
  {
    StuckIff(R, c);
    hide StepFactor, Next, Det, Stuck, NoPivot, At;
    if Stuck(R, c) {
      StuckDet(R, c);
    } else {
      EliminationStep(R, c, w);
      StepKeepsZero(R, c, w);
      TinyExitDet(Next(R, c), c + 1, w);
    }
  }

  lemma {:induction false} LossyExitIsTiny(R: seq<Row>, c: nat)
    requires LossyExit(R, c)
    ensures TinyExit(R, c)
    decreases |R|
  {
    if !Stuck(R, c) {
      LossyExitIsTiny(Next(R, c), c + 1);
    }
  }

  ghost function Product(fs: seq<real>): real {
    if |fs| == 0 then 1.0 else Product(fs[..|fs| - 1]) * fs[|fs| - 1]
  }

  /** The pivots met, in order; giving up counts as a zero pivot. */
  ghost function Factors(R: seq<Row>, c: nat): seq<real>
    requires |R| > 0
    decreases |R|
  {
    if |R| == 1 then [At(R[0], c)]
    else if Stuck(R, c) then [0.0]
    else [StepFactor(R, c)] + Factors(Next(R, c), c + 1)
  }

  /** What QuakeDeta returns for the block at column `c`. */
  ghost function Deta(R: seq<Row>, c: nat): real
    requires |R| > 0
  {
    Product(Factors(R, c))
  }

  lemma {:induction false} ProductFirst(f: real, fs: seq<real>)
    ensures Product([f] + fs) == f * Product(fs)
  {
    var all := [f] + fs;
    if |fs| == 0 {
      assert all[..0] == [];
      assert Product([]) == 1.0;
    } else {
      var front := fs[..|fs| - 1];
      assert all[..|all| - 1] == [f] + front;
      ProductFirst(f, front);
    }
  }

  lemma DetaStep(R: seq<Row>, c: nat)
    requires |R| >= 2 && !Stuck(R, c)
    ensures Deta(R, c) == StepFactor(R, c) * Deta(Next(R, c), c + 1)
  {
    hide At, Product, StepFactor, Stuck, Next;
    ProductFirst(StepFactor(R, c), Factors(Next(R, c), c + 1));
  }

  lemma {:induction false} DetaGivesUp(R: seq<Row>, c: nat)
    requires TinyExit(R, c)
    ensures Deta(R, c) == 0.0
    decreases |R|
  {
    hide At, StepFactor, Next, Product;
    if Stuck(R, c) {
      ProductOne(0.0);
    } else {
      DetaGivesUp(Next(R, c), c + 1);
      DetaStep(R, c);
    }
  }

  /** Unless it gives up, QuakeDeta returns the determinant. */
  lemma {:induction false} DetaIsDet(R: seq<Row>, c: nat, w: nat)
    requires |R| > 0 && Rect(R, w) && !TinyExit(R, c)
    ensures Deta(R, c) == Det(R, c)
    decreases |R|
  {
    hide StepFactor, Next, Product, Det, Stuck;
    if |R| == 1 {
      DetOfOne(R[0], c);
      assert R == [R[0]];
      ProductOne(At(R[0], c));
    } else {
      EliminationStep(R, c, w);
      DetaIsDet(Next(R, c), c + 1, w);
      DetaStep(R, c);
    }
  }

  lemma ProductOne(f: real)
    ensures Product([f]) == f
  {
    assert [f][..0] == [];
    assert Product([]) == 1.0;
  }

  /** QuakeDeta returns the determinant exactly when it does not make a lossy exit. */
  lemma {:induction false} DetaIsDetIff(R: seq<Row>, c: nat, w: nat)
    requires |R| >= 1 && Rect(R, w)
    ensures Deta(R, c) == Det(R, c) <==> !LossyExit(R, c)
  {
    if TinyExit(R, c) {
      DetaGivesUp(R, c);
      TinyExitDet(R, c, w);
    } else {
      DetaIsDet(R, c, w);
      if LossyExit(R, c) {
        LossyExitIsTiny(R, c);
      }
    }
  }

  /** The early exit really can lose a determinant. */
  lemma LossyExitExists()
    ensures LossyExit([[0.0000000000001, 0.0], [0.0, 1.0]], 0)
    ensures Det([[0.0000000000001, 0.0], [0.0, 1.0]], 0) == 0.0000000000001
  {
    var R: seq<Row> := [[0.0000000000001, 0.0], [0.0, 1.0]];
    assert R[1..] == [R[1]];
    DetOfOne(R[1], 1);
    LaplaceZeroTail(R, 0, 2);
  }

  ghost function RowOf(a: array2<real>, n: nat, j: nat): Row
    requires n <= a.Length1 && j < a.Length0
    reads a
  {
    seq(n, i requires 0 <= i < n reads a => a[j, i])
  }

  /** The leading n x n block of the array. */
  ghost function Rows(a: array2<real>, n: nat): (R: seq<Row>)
    requires n <= a.Length0 && n <= a.Length1
    reads a
    ensures |R| == n && Rect(R, n)
  {
    seq(n, j requires 0 <= j < n reads a => RowOf(a, n, j))
  }

  /** The row below `k` that takes over a vanishing pivot. */
  method FindPivot(n: nat, a: array2<real>, k: nat) returns (piv: int)
    requires k < n <= a.Length0 && n <= a.Length1
    ensures var q := Pivot(Rows(a, n)[k..], k, n - k); piv == if q == 0 then -1 else k + q
  {
    ghost var R := Rows(a, n)[k..];
    piv := -1;
    var max := 0.0;
    for i1 := k + 1 to n
      invariant var q := Pivot(R, k, i1 - k);
                piv == (if q == 0 then -1 else k + q) && max == if q == 0 then 0.0 else Reals.Abs(At(R[q], k))
    {
      assert R[i1 - k] == RowOf(a, n, i1);
      if Reals.Abs(a[i1, k]) > max {
        max := Reals.Abs(a[i1, k]);
        piv := i1;
      }
    }
  }

  method SwapRows(n: nat, a: array2<real>, k: nat, p: nat)
    requires k < p < n <= a.Length0 && n <= a.Length1
    modifies a
    ensures Rows(a, n) == Swap(old(Rows(a, n)), k, p)
  {
    for i2 := 0 to n
      invariant forall i :: i2 <= i < n ==> a[k, i] == old(a[k, i]) && a[p, i] == old(a[p, i])
      invariant forall i :: 0 <= i < i2 ==> a[k, i] == old(a[p, i]) && a[p, i] == old(a[k, i])
      invariant forall j, i :: 0 <= j < n && 0 <= i < n && j != k && j != p ==> a[j, i] == old(a[j, i])
    {
      a[k, i2], a[p, i2] := a[p, i2], a[k, i2];
    }
    forall j | 0 <= j < n
      ensures Rows(a, n)[j] == Swap(old(Rows(a, n)), k, p)[j]
    {
      assert RowOf(a, n, j) == if j == k then old(RowOf(a, n, p)) else if j == p then old(RowOf(a, n, k)) else old(RowOf(a, n, j));
    }
  }

  /** The rows below `k` hold their final values in the columns left of `i` and their old ones
      elsewhere. */
  ghost predicate Updated(R: seq<Row>, S: seq<Row>, k: nat, i: nat) {
    && |R| == |S| && Rect(R, |R|) && Rect(S, |R|) && k < |R|
    && (forall j :: 0 <= j <= k ==> S[j] == R[j])
    && forall j, l :: k < j < |R| && 0 <= l < |R| ==>
         S[j][l] == if l < i then At(Reduce(R[j], R[k], k), l) else R[j][l]
  }

  /** `T` is `S` with column `i` reduced below row `k`. */
  ghost predicate ColumnReduced(S: seq<Row>, T: seq<Row>, k: nat, i: nat) {
    && |S| == |T| && Rect(S, |S|) && Rect(T, |S|) && k < i < |S| && S[k][k] != 0.0
    && (forall j, l :: 0 <= j < |S| && 0 <= l < |S| && (j <= k || l != i) ==> T[j][l] == S[j][l])
    && forall j :: k < j < |S| ==> T[j][i] == S[j][i] - S[j][k] * S[k][i] / S[k][k]
  }

  lemma ColumnUpdated(R: seq<Row>, S: seq<Row>, T: seq<Row>, k: nat, i: nat)
    requires Updated(R, S, k, i) && ColumnReduced(S, T, k, i)
    ensures Updated(R, T, k, i + 1)
  {
    forall j | 0 <= j <= k
      ensures T[j] == R[j]
    {}
    assert S[k] == R[k];
    forall j, l | k < j < |R| && 0 <= l < |R|
      ensures T[j][l] == if l < i + 1 then At(Reduce(R[j], R[k], k), l) else R[j][l]
    {
      if l == i {
        assert S[j][i] == R[j][i];
        assert S[j][k] == R[j][k];
      }
    }
  }

  /** Subtracts from every row below `k` its multiple of row `k`, column after column. */
  method Eliminate(n: nat, a: array2<real>, k: nat)
    requires k < n <= a.Length0 && n <= a.Length1 && a[k, k] != 0.0
    modifies a
    ensures a[k, k] == old(a[k, k])
    ensures Rows(a, n)[k + 1..] == Schur(old(Rows(a, n))[k..], k)
  {
    for i := k + 1 to n
      invariant a[k, k] == old(a[k, k])
      invariant Updated(old(Rows(a, n)), Rows(a, n), k, i)
    {
      ghost var S := Rows(a, n);
      EliminateColumn(n, a, k, i);
      ColumnUpdated(old(Rows(a, n)), S, Rows(a, n), k, i);
    }
    forall j | k < j < n
      ensures Rows(a, n)[j] == Reduce(old(Rows(a, n))[j], old(Rows(a, n))[k], k)
    {}
  }

  method EliminateColumn(n: nat, a: array2<real>, k: nat, i: nat)
    requires k < i < n <= a.Length0 && n <= a.Length1 && a[k, k] != 0.0
    modifies a
    ensures a[k, k] == old(a[k, k])
    ensures ColumnReduced(old(Rows(a, n)), Rows(a, n), k, i)
  {
    hide At, Reduce;
    for j := k + 1 to n
      invariant forall r, l :: 0 <= r < n && 0 <= l < n && (r <= k || l != i || j <= r) ==> a[r, l] == old(a[r, l])
      invariant forall r :: k < r < j ==> a[r, i] == old(a[r, i]) - old(a[r, k]) * old(a[k, i]) / old(a[k, k])
    {
      a[j, i] := a[j, i] - a[j, k] * a[k, i] / a[k, k];
    }
  }

  /** One pass of the outer loop: pivoting, then the update of the trailing block. */
  method EliminationPass(n: nat, a: array2<real>, k: nat) returns (singular: bool, factor: real)
    requires k + 1 < n <= a.Length0 && n <= a.Length1
    modifies a
    ensures var T := old(Rows(a, n)[k..]);
      if Stuck(T, k) then singular
      else !singular && factor == StepFactor(T, k) && Rows(a, n)[k + 1..] == Next(T, k)
  {
    ghost var T := Rows(a, n)[k..];
    assert T[0] == RowOf(a, n, k);
    singular, factor := false, 1.0;
    if Reals.Abs(a[k, k]) < PIVOT_TOLERANCE {
      var piv := FindPivot(n, a, k);
      if piv == -1 {
        return true, factor;
      }
      SwapRows(n, a, k, piv);
      factor := -1.0;
      assert Rows(a, n)[k..] == Swap(T, 0, piv - k);
    }
    assert Rows(a, n)[k..] == Pivoted(T, k);
    PivotedDet(T, k);
    assert Pivoted(T, k)[0] == RowOf(a, n, k);
    Eliminate(n, a, k);
    factor := factor * a[k, k];
  }

  lemma DetOfOne(u: Row, c: nat)
    ensures Det([u], c) == At(u, c)
  {
    assert Drop([u], 0) == [];
    assert Laplace([u], c, 0) == 0.0;
    TermIsSignedExpand([u], c, 0);
  }

  lemma ProductLast(fs: seq<real>, f: real)
    ensures Product(fs + [f]) == Product(fs) * f
  {
    assert (fs + [f])[..|fs|] == fs;
  }

  lemma ProductNone()
    ensures Product([]) == 1.0
  {}

  lemma FactorsOne(u: Row, k: nat)
    ensures Factors([u], k) == [At(u, k)]
  {}

  lemma FactorsStuck(T: seq<Row>, k: nat)
    requires |T| >= 2 && Stuck(T, k)
    ensures Factors(T, k) == [0.0]
  {}

  lemma FactorsStep(met: seq<real>, T: seq<Row>, k: nat)
    requires |T| >= 2 && !Stuck(T, k)
    ensures met + Factors(T, k) == (met + [StepFactor(T, k)]) + Factors(Next(T, k), k + 1)
  {
    hide StepFactor, Next, Stuck, At;
  }

  /** libsrc/locquake.c:898-931.  The source fixes the row stride at 4; nothing here depends on it. */
  method QuakeDeta(n: nat, a: array2<real>) returns (r: real)
    requires 1 <= n <= a.Length0 && n <= a.Length1
    modifies a
    ensures r == Deta(old(Rows(a, n)), 0)
  {
    hide Factors, Product, Stuck, StepFactor, Next;
    ghost var M := Rows(a, n);
    ghost var met := [];
    r := 1.0;
    ProductNone();
    assert M[0..] == M;
    for k := 0 to n - 1
      invariant r == Product(met)
      invariant Factors(M, 0) == met + Factors(Rows(a, n)[k..], k)
    {
      ghost var T := Rows(a, n)[k..];
      var singular, factor := EliminationPass(n, a, k);
      if singular {
        FactorsStuck(T, k);
        ProductLast(met, 0.0);
        return 0.0;
      }
      FactorsStep(met, T, k);
      ProductLast(met, factor);
      r, met := r * factor, met + [factor];
    }
    ghost var u := RowOf(a, n, n - 1);
    assert Rows(a, n)[n - 1..] == [u];
    FactorsOne(u, n - 1);
    ProductLast(met, At(u, n - 1));
    r := r * a[n - 1, n - 1];
  }
}

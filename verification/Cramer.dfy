/** libsrc/locquake.c: QuakeDets, the solution of a square system by quotients of determinants. */
module Cramer {
  import opened Determinant
  import opened Elimination
  import Reals

  const DENOMINATOR_TOLERANCE: real := 0.0000000000001
  const NO_SOLUTION: real := 111.0

  /** Sum of u[i] * z[i] for lo <= i < hi. */
  ghost function Dot(u: Row, z: Row, lo: nat, hi: nat): real
    decreases hi - lo
  {
    if hi <= lo then 0.0 else At(u, lo) * At(z, lo) + Dot(u, z, lo + 1, hi)
  }

  lemma {:induction false} DotCombination(u: Row, p: Row, v: Row, t: real, z: Row, lo: nat, hi: nat)
    requires forall i :: lo <= i < hi ==> At(v, i) == At(u, i) + t * At(p, i)
    ensures Dot(v, z, lo, hi) == Dot(u, z, lo, hi) + t * Dot(p, z, lo, hi)
    decreases hi - lo
  {
    hide At;
    if lo < hi {
      DotCombination(u, p, v, t, z, lo + 1, hi);
      DistributeEntry(At(u, lo), At(p, lo), t, At(z, lo));
    }
  }

  lemma {:induction false} DotSame(u: Row, z: Row, y: Row, lo: nat, hi: nat)
    requires forall i :: lo <= i < hi ==> At(z, i) == At(y, i)
    ensures Dot(u, z, lo, hi) == Dot(u, y, lo, hi)
    decreases hi - lo
  {
    if lo < hi {
      DotSame(u, z, y, lo + 1, hi);
    }
  }

  lemma {:induction false} DotZero(u: Row, z: Row, lo: nat, hi: nat)
    requires forall i :: lo <= i < hi ==> At(z, i) == 0.0
    ensures Dot(u, z, lo, hi) == 0.0
    decreases hi - lo
  {
    if lo < hi {
      DotZero(u, z, lo + 1, hi);
    }
  }

  lemma ReduceCombination(u: Row, p: Row, c: nat)
    requires At(p, c) != 0.0 && |u| == |p|
    ensures forall i :: c + 1 <= i ==> At(Reduce(u, p, c), i) == At(u, i) + -(At(u, c) / At(p, c)) * At(p, i)
  {
    ReduceIsAxpy(u, p, c);
    hide Reduce;
  }

  /** A reduced row sees the unknowns as its original minus a multiple of the pivot row does. */
  lemma DotReduce(u: Row, p: Row, c: nat, z: Row, hi: nat)
    requires At(p, c) != 0.0 && |u| == |p|
    ensures Dot(Reduce(u, p, c), z, c + 1, hi) == Dot(u, z, c + 1, hi) - At(u, c) / At(p, c) * Dot(p, z, c + 1, hi)
  {
    ReduceCombination(u, p, c);
    hide Reduce, At;
    var t := -(At(u, c) / At(p, c));
    DotCombination(u, p, Reduce(u, p, c), t, z, c + 1, hi);
    NegateFactor(Dot(p, z, c + 1, hi), At(u, c) / At(p, c));
  }

  ghost predicate Solves(R: seq<Row>, c: nat, x: Row, b: seq<real>) {
    |b| == |R| && forall j :: 0 <= j < |R| ==> Dot(R[j], x, c, c + |R|) == b[j]
  }

  /** A regular block has a usable pivot in its first column. */
  lemma PivotRow(R: seq<Row>, c: nat) returns (p: nat)
    requires |R| > 0 && Det(R, c) != 0.0
    ensures p < |R| && At(R[p], c) != 0.0
    ensures Det(Swap(R, 0, p), c) != 0.0
  {
    if forall j :: 0 <= j < |R| ==> At(R[j], c) == 0.0 {
      DetZeroColumn(R, c);
    }
    p :| 0 <= p < |R| && At(R[p], c) != 0.0;
    if p > 0 {
      DetSwap(R, 0, p, c);
    } else {
      assert Swap(R, 0, 0) == R;
    }
  }

  lemma SchurRegular(R: seq<Row>, c: nat, w: nat)
    requires |R| > 0 && Rect(R, w) && At(R[0], c) != 0.0 && Det(R, c) != 0.0
    ensures Det(Schur(R, c), c + 1) != 0.0
    ensures Rect(Schur(R, c), w)
  {
    DetSchur(R, c, w);
    hide Det, At, Reduce;
    Reals.ProductZero(At(R[0], c), Det(Schur(R, c), c + 1), Det(R, c));
  }

  ghost function SchurRight(R: seq<Row>, c: nat, b: seq<real>): (d: seq<real>)
    requires 0 < |R| == |b| && At(R[0], c) != 0.0
    ensures |d| == |R| - 1
  {
    seq(|R| - 1, j requires 0 <= j < |R| - 1 => b[j + 1] - At(R[j + 1], c) / At(R[0], c) * b[0])
  }

  /** The reduced system and the original one have the same solutions once the pivot equation
      holds. */
  lemma SchurSolves(R: seq<Row>, c: nat, w: nat, x: Row, b: seq<real>)
    requires 0 < |R| == |b| && Rect(R, w) && At(R[0], c) != 0.0
    requires Dot(R[0], x, c, c + |R|) == b[0]
    ensures Solves(R, c, x, b) <==> Solves(Schur(R, c), c + 1, x, SchurRight(R, c, b))
  {
    hide At, Dot, Reduce;
    var hi := c + |R|;
    var d := SchurRight(R, c, b);
    forall j | 0 < j < |R|
      ensures Dot(R[j], x, c, hi) == b[j] <==> Dot(Schur(R, c)[j - 1], x, c + 1, hi) == d[j - 1]
    {
      RowSolves(R[j], R[0], c, x, hi, b[j], b[0]);
    }
  }

  lemma RowSolves(u: Row, p: Row, c: nat, x: Row, hi: nat, bu: real, bp: real)
    requires At(p, c) != 0.0 && |u| == |p| && c < hi && Dot(p, x, c, hi) == bp
    ensures Dot(u, x, c, hi) == bu <==> Dot(Reduce(u, p, c), x, c + 1, hi) == bu - At(u, c) / At(p, c) * bp
  {
    hide At, Reduce;
    DotReduce(u, p, c, x, hi);
  }

  /** Only the zero vector is mapped to zero by a regular block. */
  lemma {:induction false} RegularIsInjective(R: seq<Row>, c: nat, w: nat, z: Row, o: seq<real>)
    requires Rect(R, w) && Det(R, c) != 0.0
    requires |o| == |R| && (forall j :: 0 <= j < |o| ==> o[j] == 0.0) && Solves(R, c, z, o)
    ensures forall i :: c <= i < c + |R| ==> At(z, i) == 0.0
    decreases |R|
  {
    hide At, Det, Schur, Dot;
    if |R| > 0 {
      var p := PivotRow(R, c);
      var S := Swap(R, 0, p);
      assert Solves(S, c, z, o);
      SchurRegular(S, c, w);
      SchurSolves(S, c, w, z, o);
      RegularIsInjective(Schur(S, c), c + 1, w, z, SchurRight(S, c, o));
      LastUnknown(S[0], z, c, c + |R|);
    }
  }

  lemma LastUnknown(u: Row, z: Row, c: nat, hi: nat)
    requires c < hi && At(u, c) != 0.0 && Dot(u, z, c, hi) == 0.0
    requires forall i :: c + 1 <= i < hi ==> At(z, i) == 0.0
    ensures At(z, c) == 0.0
  {
    DotZero(u, z, c + 1, hi);
  }

  /** A regular system has a solution. */
  lemma {:induction false} RegularIsSolvable(R: seq<Row>, c: nat, w: nat, b: seq<real>) returns (x: Row)
    requires Rect(R, w) && Det(R, c) != 0.0 && |b| == |R|
    ensures |x| == c + |R| && Solves(R, c, x, b)
    decreases |R|
  {
    hide At, Det, Schur, Dot;
    if |R| == 0 {
      x := seq(c, _ => 0.0);
    } else {
      var p := PivotRow(R, c);
      var S, d := Swap(R, 0, p), Swap(b, 0, p);
      SchurRegular(S, c, w);
      var y := RegularIsSolvable(Schur(S, c), c + 1, w, SchurRight(S, c, d));
      x := BackSubstitute(S, c, y, d);
      SchurSolves(S, c, w, x, d);
      assert forall j :: 0 <= j < |R| ==> R[j] == S[if j == 0 then p else if j == p then 0 else j];
    }
  }

  lemma BackSubstitute(S: seq<Row>, c: nat, y: Row, d: seq<real>) returns (x: Row)
    requires 0 < |S| == |d| && At(S[0], c) != 0.0 && |y| == c + |S|
    requires Solves(Schur(S, c), c + 1, y, SchurRight(S, c, d))
    ensures |x| == |y| && Dot(S[0], x, c, c + |S|) == d[0]
    ensures Solves(Schur(S, c), c + 1, x, SchurRight(S, c, d))
  {
    var hi := c + |S|;
    var q := (d[0] - Dot(S[0], y, c + 1, hi)) / At(S[0], c);
    x := y[c := q];
    DotSame(S[0], x, y, c + 1, hi);
    assert At(S[0], c) * q == d[0] - Dot(S[0], y, c + 1, hi);
    forall j | 0 <= j < |S| - 1
      ensures Dot(Schur(S, c)[j], x, c + 1, hi) == Dot(Schur(S, c)[j], y, c + 1, hi)
    {
      DotSame(Schur(S, c)[j], x, y, c + 1, hi);
    }
  }

  /** The block with column `k` replaced by `v`. */
  ghost function Replace(A: seq<Row>, k: nat, v: seq<real>): (B: seq<Row>)
    requires |v| == |A| && forall j :: 0 <= j < |A| ==> k < |A[j]|
    ensures |B| == |A|
  {
    seq(|A|, j requires 0 <= j < |A| => A[j][k := v[j]])
  }

  ghost predicate ColumnCombination(R: seq<Row>, S: seq<Row>, T: seq<Row>, k: nat, t: real) {
    && |R| == |S| == |T|
    && (forall j, i :: 0 <= j < |R| && i != k ==> At(R[j], i) == At(S[j], i) == At(T[j], i))
    && (forall j :: 0 <= j < |R| ==> At(T[j], k) == At(R[j], k) + t * At(S[j], k))
  }

  lemma {:induction false} DetColumnLinear(R: seq<Row>, S: seq<Row>, T: seq<Row>, k: nat, t: real, c: nat)
    requires ColumnCombination(R, S, T, k, t) && c <= k < c + |R|
    ensures Det(T, c) == Det(R, c) + t * Det(S, c)
    decreases |R|, |R| + 1
  {
    forall i | 0 <= i < |R|
      ensures LinearTerm(R, S, T, t, c, i)
    {
      TermColumnLinear(R, S, T, k, t, c, i);
    }
    LaplaceLinear(R, S, T, t, c, |R|);
  }

  lemma {:induction false} TermColumnLinear(
      R: seq<Row>, S: seq<Row>, T: seq<Row>, k: nat, t: real, c: nat, i: nat)
    requires ColumnCombination(R, S, T, k, t) && c <= k < c + |R| && i < |R|
    ensures Term(T, c, i) == Term(R, c, i) + t * Term(S, c, i)
    decreases |R|, i, 1
  {
    hide Expand, Term;
    ExpandColumnLinear(R, S, T, k, t, c, i);
    TermIsSignedExpand(R, c, i);
    TermIsSignedExpand(S, c, i);
    TermIsSignedExpand(T, c, i);
  }

  lemma {:induction false} ExpandColumnLinear(
      R: seq<Row>, S: seq<Row>, T: seq<Row>, k: nat, t: real, c: nat, i: nat)
    requires ColumnCombination(R, S, T, k, t) && c <= k < c + |R| && i < |R|
    ensures Expand(T, c, i) == Expand(R, c, i) + t * Expand(S, c, i)
    decreases |R|, i, 0
  {
    hide At, Det;
    var dR, dS, dT := Det(Drop(R, i), c + 1), Det(Drop(S, i), c + 1), Det(Drop(T, i), c + 1);
    if k == c {
      DetReadsBlock(Drop(R, i), Drop(S, i), c + 1);
      DetReadsBlock(Drop(R, i), Drop(T, i), c + 1);
      DistributeEntry(At(R[i], c), At(S[i], c), t, dR);
    } else {
      DetColumnLinear(Drop(R, i), Drop(S, i), Drop(T, i), k, t, c + 1);
      DistributeMinor(At(R[i], c), dR, dS, t);
    }
  }

  lemma DetZeroReplaced(A: seq<Row>, k: nat, o: seq<real>, w: nat)
    requires Rect(A, w) && |A| <= w && k < |A| == |o| && forall j :: 0 <= j < |o| ==> o[j] == 0.0
    ensures Det(Replace(A, k, o), 0) == 0.0
  {
    hide Det;
    var B := Replace(A, k, o);
    assert ColumnCombination(B, B, B, k, 1.0);
    DetColumnLinear(B, B, B, k, 1.0, 0);
  }

  ghost function Column(A: seq<Row>, l: nat): (v: seq<real>)
    ensures |v| == |A|
  {
    seq(|A|, j requires 0 <= j < |A| => At(A[j], l))
  }

  ghost function Zeros(n: nat): (o: seq<real>)
    ensures |o| == n
  {
    seq(n, _ => 0.0)
  }

  /** A block with two equal columns is singular: their difference would be mapped to zero. */
  lemma DetRepeatedColumn(A: seq<Row>, k: nat, l: nat, w: nat)
    requires Rect(A, w) && |A| <= w && k < |A| && l < |A| && k != l
    ensures Det(Replace(A, k, Column(A, l)), 0) == 0.0
  {
    var B := Replace(A, k, Column(A, l));
    var n := |A|;
    var z := Zeros(n)[k := 1.0][l := -1.0];
    if Det(B, 0) != 0.0 {
      forall j | 0 <= j < n
        ensures Dot(B[j], z, 0, n) == 0.0
      {
        assert At(B[j], k) == At(B[j], l);
        DotDifference(B[j], z, k, l, 0, n);
      }
      assert At(z, k) == 1.0;
      RegularIsInjective(B, 0, w, z, Zeros(n));
    }
  }

  lemma {:induction false} DotDifference(u: Row, z: Row, k: nat, l: nat, lo: nat, hi: nat)
    requires k != l && At(z, k) == 1.0 && At(z, l) == -1.0 && At(u, k) == At(u, l)
    requires forall i :: lo <= i < hi && i != k && i != l ==> At(z, i) == 0.0
    requires k < hi && l < hi
    ensures Dot(u, z, lo, hi) == (if lo <= k then At(u, k) else 0.0) - (if lo <= l then At(u, k) else 0.0)
    decreases hi - lo
  {
    hide At;
    if lo < hi {
      DotDifference(u, z, k, l, lo + 1, hi);
    }
  }

  /** Rows weighted by the first `m` unknowns. */
  ghost function Partial(A: seq<Row>, x: Row, m: nat): (v: seq<real>)
    ensures |v| == |A|
  {
    seq(|A|, j requires 0 <= j < |A| => Dot(A[j], x, 0, m))
  }

  lemma {:induction false} DotLast(u: Row, z: Row, lo: nat, hi: nat)
    requires lo <= hi
    ensures Dot(u, z, lo, hi + 1) == Dot(u, z, lo, hi) + At(u, hi) * At(z, hi)
    decreases hi - lo
  {
    hide At;
    if lo < hi {
      DotLast(u, z, lo + 1, hi);
    }
  }

  /** Replacing column k by a combination of the first m columns. */
  lemma {:induction false} DetPartial(A: seq<Row>, k: nat, x: Row, m: nat, w: nat)
    requires Rect(A, w) && |A| <= w && k < |A| && m <= |A|
    ensures Det(Replace(A, k, Partial(A, x, m)), 0) == if k < m then At(x, k) * Det(A, 0) else 0.0
    decreases m
  {
    hide At, Det;
    if m == 0 {
      DetZeroReplaced(A, k, Partial(A, x, 0), w);
    } else {
      var l := m - 1;
      DetPartial(A, k, x, l, w);
      PartialStep(A, k, x, l, w);
      if l == k {
        ReplaceSelf(A, k, w);
      } else {
        DetRepeatedColumn(A, k, l, w);
      }
    }
  }

  lemma PartialStep(A: seq<Row>, k: nat, x: Row, l: nat, w: nat)
    requires Rect(A, w) && |A| <= w && k < |A| && l < |A|
    ensures Det(Replace(A, k, Partial(A, x, l + 1)), 0)
         == Det(Replace(A, k, Partial(A, x, l)), 0) + At(x, l) * Det(Replace(A, k, Column(A, l)), 0)
  {
    hide Det;
    var R, S, T := Replace(A, k, Partial(A, x, l)), Replace(A, k, Column(A, l)), Replace(A, k, Partial(A, x, l + 1));
    forall j | 0 <= j < |A|
      ensures At(T[j], k) == At(R[j], k) + At(x, l) * At(S[j], k)
    {
      DotLast(A[j], x, 0, l);
    }
    DetColumnLinear(R, S, T, k, At(x, l), 0);
  }

  lemma ReplaceSelf(A: seq<Row>, k: nat, w: nat)
    requires Rect(A, w) && |A| <= w && k < |A|
    ensures Replace(A, k, Column(A, k)) == A
  {
    forall j | 0 <= j < |A|
      ensures Replace(A, k, Column(A, k))[j] == A[j]
    {}
  }

  /** Cramer's rule: a solution is read off the determinants. */
  lemma {:induction false} CramersRule(A: seq<Row>, w: nat, x: Row, b: seq<real>, k: nat)
    requires Rect(A, w) && |A| <= w && Solves(A, 0, x, b) && k < |A|
    ensures Det(Replace(A, k, b), 0) == At(x, k) * Det(A, 0)
  {
    hide Det, Dot;
    assert Partial(A, x, |A|) == b;
    DetPartial(A, k, x, |A|, w);
  }

  /** What QuakeDets stores: quotients of the values that QuakeDeta returns. */
  ghost predicate Quotients(A: seq<Row>, b: seq<real>, x: Row) {
    && |A| == |b| == |x| > 0 && Rect(A, |A|) && Deta(A, 0) != 0.0
    && forall k :: 0 <= k < |A| ==> x[k] == Deta(Replace(A, k, b), 0) / Deta(A, 0)
  }

  /** With a denominator that was not rejected, the quotients solve the system exactly when no
      numerator makes a lossy exit. */
  lemma {:induction false} QuotientsSolveIff(A: seq<Row>, b: seq<real>, x: Row)
    requires Quotients(A, b, x)
    ensures Solves(A, 0, x, b) <==> forall k :: 0 <= k < |A| ==> !LossyExit(Replace(A, k, b), 0)
  {
    var n := |A|;
    RegularDenominator(A);
    var y := RegularIsSolvable(A, 0, n, b);
    hide Det, At, Deta, LossyExit, Dot;
    if forall k :: 0 <= k < n ==> !LossyExit(Replace(A, k, b), 0) {
      forall k | 0 <= k < n
        ensures At(x, k) == At(y, k)
      {
        QuotientIsUnknown(A, b, x, y, k);
      }
      forall j | 0 <= j < n
        ensures Dot(A[j], x, 0, n) == b[j]
      {
        DotSame(A[j], x, y, 0, n);
      }
    }
    if Solves(A, 0, x, b) {
      forall k | 0 <= k < n
        ensures !LossyExit(Replace(A, k, b), 0)
      {
        QuotientIsUnknown(A, b, x, x, k);
      }
    }
  }

  lemma RegularDenominator(A: seq<Row>)
    requires |A| > 0 && Rect(A, |A|) && Deta(A, 0) != 0.0
    ensures Det(A, 0) == Deta(A, 0)
  {
    if TinyExit(A, 0) {
      DetaGivesUp(A, 0);
    } else {
      DetaIsDet(A, 0, |A|);
    }
  }

  lemma QuotientIsUnknown(A: seq<Row>, b: seq<real>, x: Row, y: Row, k: nat)
    requires Quotients(A, b, x) && Solves(A, 0, y, b) && k < |A|
    ensures At(x, k) == At(y, k) <==> !LossyExit(Replace(A, k, b), 0)
  {
    hide Det, Deta, LossyExit, Dot;
    RegularDenominator(A);
    CramersRule(A, |A|, y, b, k);
    DetaIsDetIff(Replace(A, k, b), 0, |A|);
  }

  method CopyBlock(n: nat, source: array2<real>, target: array2<real>)
    requires n <= source.Length0 && n <= source.Length1 && n <= target.Length0 && n <= target.Length1
    requires source != target
    modifies target
    ensures Rows(target, n) == Rows(source, n)
  {
    for i := 0 to n
      invariant forall r, l :: 0 <= r < i && 0 <= l < n ==> target[r, l] == source[r, l]
    {
      for j := 0 to n
        invariant forall r, l :: 0 <= r < i && 0 <= l < n ==> target[r, l] == source[r, l]
        invariant forall l :: 0 <= l < j ==> target[i, l] == source[i, l]
      {
        target[i, j] := source[i, j];
      }
    }
    forall j | 0 <= j < n
      ensures Rows(target, n)[j] == Rows(source, n)[j]
    {
      assert RowOf(target, n, j) == RowOf(source, n, j);
    }
  }

  method SetColumn(n: nat, a: array2<real>, k: nat, b: array<real>)
    requires n <= a.Length0 && n <= a.Length1 && k < n <= b.Length
    modifies a
    ensures Rows(a, n) == Replace(old(Rows(a, n)), k, b[..n])
  {
    for i := 0 to n
      invariant forall r, l :: 0 <= r < n && 0 <= l < n ==>
        a[r, l] == if l == k && r < i then b[r] else old(a[r, l])
    {
      a[i, k] := b[i];
    }
    forall j | 0 <= j < n
      ensures Rows(a, n)[j] == Replace(old(Rows(a, n)), k, b[..n])[j]
    {
      assert RowOf(a, n, j) == old(RowOf(a, n, j))[k := b[j]];
    }
  }

  /** The determinant with column `k` replaced, computed in the array `a`. */
  method Numerator(n: nat, saved: array2<real>, a: array2<real>, b: array<real>, k: nat) returns (r: real)
    requires n <= saved.Length0 && n <= saved.Length1 && n <= a.Length0 && n <= a.Length1 && saved != a
    requires k < n <= b.Length
    modifies a
    ensures r == Deta(Replace(Rows(saved, n), k, b[..n]), 0)
  {
    hide Deta, Replace;
    CopyBlock(n, saved, a);
    SetColumn(n, a, k, b);
    r := QuakeDeta(n, a);
  }

  /** libsrc/locquake.c:933-955.  A denominator below the tolerance is signalled in x[0]. */
  method QuakeDets(n: nat, a: array2<real>, b: array<real>, x: array<real>)
    requires 1 <= n <= a.Length0 && n <= a.Length1 && n <= b.Length && n <= x.Length && x != b
    modifies a, x
    ensures var M := old(Rows(a, n));
      if Reals.Abs(Deta(M, 0)) < DENOMINATOR_TOLERANCE then x[..] == old(x[..])[0 := NO_SOLUTION]
      else Quotients(M, b[..n], x[..n]) && x[n..] == old(x[n..])
  {
    ghost var M := Rows(a, n);
    hide Deta, Replace;
    var a1 := new real[n, n];
    CopyBlock(n, a, a1);
    var denominator := QuakeDeta(n, a);
    if Reals.Abs(denominator) < DENOMINATOR_TOLERANCE {
      x[0] := NO_SOLUTION;
      return;
    }
    for k := 0 to n
      invariant Rows(a1, n) == M && x[n..] == old(x[n..])
      invariant forall l :: 0 <= l < k ==> x[l] == Deta(Replace(M, l, b[..n]), 0) / denominator
    {
      var numerator := Numerator(n, a1, a, b, k);
      x[k] := numerator / denominator;
    }
  }
}

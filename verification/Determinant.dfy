/** The determinant, defined by expansion along the first column, and the row operations
    that the in-place elimination of libsrc/locquake.c relies on.

    A matrix is a sequence of rows.  `Det(R, c)` is the determinant of the square block made
    of all the rows of `R` and of the |R| columns starting at `c`, so the trailing block of an
    elimination is just `Det(R[k..], k)`.  Entries outside a row read as zero, which makes every
    function below total. */
module Determinant {

  type Row = seq<real>

  ghost function At(u: Row, i: int): real {
    if 0 <= i < |u| then u[i] else 0.0
  }

  /** `x` or `-x`, as the parity of `i` has it. */
  ghost function Signed(i: nat, x: real): real {
    if i % 2 == 0 then x else -x
  }

  ghost function Drop(R: seq<Row>, i: nat): (S: seq<Row>)
    requires i < |R|
    ensures |S| == |R| - 1
  {
    R[..i] + R[i + 1..]
  }

  ghost function Det(R: seq<Row>, c: nat): real
    decreases |R|, |R| + 1
  {
    if |R| == 0 then 1.0 else Laplace(R, c, |R|)
  }

  /** The first `k` terms of the expansion along column `c`. */
  ghost function Laplace(R: seq<Row>, c: nat, k: nat): real
    requires k <= |R|
    decreases |R|, k
  {
    if k == 0 then 0.0 else Laplace(R, c, k - 1) + Term(R, c, k - 1)
  }

  ghost function Term(R: seq<Row>, c: nat, i: nat): real
    requires i < |R|
    decreases |R|, i
  {
    Signed(i, At(R[i], c) * Det(Drop(R, i), c + 1))
  }

  /** The entry of row `i` times its minor. */
  ghost function Expand(R: seq<Row>, c: nat, i: nat): real
    requires i < |R|
  {
    At(R[i], c) * Det(Drop(R, i), c + 1)
  }

  lemma TermIsSignedExpand(R: seq<Row>, c: nat, i: nat)
    requires i < |R|
    ensures Term(R, c, i) == Signed(i, Expand(R, c, i))
  {}

  lemma SignedNext(i: nat, x: real)
    ensures Signed(i + 1, x) == -Signed(i, x)
  {
    assert (i + 1) % 2 != i % 2;
  }

  ghost function Swap<T>(s: seq<T>, i: nat, j: nat): (t: seq<T>)
    requires i < |s| && j < |s|
    ensures |t| == |s|
  {
    s[i := s[j]][j := s[i]]
  }

  /** `u + t * v`. */
  ghost function Axpy(u: Row, t: real, v: Row): Row {
    seq(if |u| > |v| then |u| else |v|, i => At(u, i) + t * At(v, i))
  }

  ghost predicate SameFrom(u: Row, v: Row, c: int) {
    forall i :: c <= i ==> At(u, i) == At(v, i)
  }

  /** The determinant reads nothing to the left of its block. */
  lemma {:induction false} DetReadsBlock(R: seq<Row>, S: seq<Row>, c: nat)
    requires |R| == |S| && forall j :: 0 <= j < |R| ==> SameFrom(R[j], S[j], c)
    ensures Det(R, c) == Det(S, c)
    decreases |R|, |R| + 1
  {
    if |R| > 0 {
      LaplaceReadsBlock(R, S, c, |R|);
    }
  }

  lemma {:induction false} LaplaceReadsBlock(R: seq<Row>, S: seq<Row>, c: nat, k: nat)
    requires |R| == |S| && forall j :: 0 <= j < |R| ==> SameFrom(R[j], S[j], c)
    requires k <= |R|
    ensures Laplace(R, c, k) == Laplace(S, c, k)
    decreases |R|, k
  {
    if k > 0 {
      LaplaceReadsBlock(R, S, c, k - 1);
      DetReadsBlock(Drop(R, k - 1), Drop(S, k - 1), c + 1);
      assert SameFrom(R[k - 1], S[k - 1], c);
      assert Expand(R, c, k - 1) == Expand(S, c, k - 1);
      assert Term(R, c, k - 1) == Term(S, c, k - 1);
    }
  }

  /** Row `r` of `T` is that of `R` plus `t` times that of `S`; all other rows are shared. */
  ghost predicate RowCombination(R: seq<Row>, S: seq<Row>, T: seq<Row>, r: nat, t: real) {
    && |R| == |S| == |T| && r < |R|
    && (forall j :: 0 <= j < |R| && j != r ==> R[j] == S[j] == T[j])
    && (forall i :: At(T[r], i) == At(R[r], i) + t * At(S[r], i))
  }

  lemma {:induction false} DetRowLinear(R: seq<Row>, S: seq<Row>, T: seq<Row>, r: nat, t: real, c: nat)
    requires RowCombination(R, S, T, r, t)
    ensures Det(T, c) == Det(R, c) + t * Det(S, c)
    decreases |R|, |R| + 1
  {
    forall i | 0 <= i < |R|
      ensures LinearTerm(R, S, T, t, c, i)
    {
      TermRowLinear(R, S, T, r, t, c, i);
    }
    LaplaceLinear(R, S, T, t, c, |R|);
  }

  ghost predicate LinearTerm(R: seq<Row>, S: seq<Row>, T: seq<Row>, t: real, c: nat, i: nat) {
    i < |R| && i < |S| && i < |T| && Term(T, c, i) == Term(R, c, i) + t * Term(S, c, i)
  }

  lemma {:induction false} LaplaceLinear(R: seq<Row>, S: seq<Row>, T: seq<Row>, t: real, c: nat, k: nat)
    requires k <= |R| == |S| == |T| && forall i :: 0 <= i < k ==> LinearTerm(R, S, T, t, c, i)
    ensures Laplace(T, c, k) == Laplace(R, c, k) + t * Laplace(S, c, k)
  {
    hide At, Signed;
    if k == 0 {
      assert Laplace(S, c, 0) == 0.0;
    } else {
      LaplaceLinear(R, S, T, t, c, k - 1);
      assert LinearTerm(R, S, T, t, c, k - 1);
      SumLinear(t, Laplace(R, c, k - 1), Laplace(S, c, k - 1), Term(R, c, k - 1), Term(S, c, k - 1));
    }
  }

  lemma {:induction false} TermRowLinear(
      R: seq<Row>, S: seq<Row>, T: seq<Row>, r: nat, t: real, c: nat, i: nat)
    requires RowCombination(R, S, T, r, t) && i < |R|
    ensures Term(T, c, i) == Term(R, c, i) + t * Term(S, c, i)
    decreases |R|, i, 1
  {
    hide Expand, Term;
    ExpandRowLinear(R, S, T, r, t, c, i);
    TermIsSignedExpand(R, c, i);
    TermIsSignedExpand(S, c, i);
    TermIsSignedExpand(T, c, i);
    SignedLinear(i, Expand(R, c, i), Expand(S, c, i), Expand(T, c, i), t);
  }

  lemma SignedLinear(i: nat, x: real, y: real, z: real, t: real)
    requires z == x + t * y
    ensures Signed(i, z) == Signed(i, x) + t * Signed(i, y)
  {}

  lemma {:induction false} ExpandRowLinear(
      R: seq<Row>, S: seq<Row>, T: seq<Row>, r: nat, t: real, c: nat, i: nat)
    requires RowCombination(R, S, T, r, t) && i < |R|
    ensures Expand(T, c, i) == Expand(R, c, i) + t * Expand(S, c, i)
    decreases |R|, i, 0
  {
    hide At, Det, Laplace;
    var dR, dS, dT := Det(Drop(R, i), c + 1), Det(Drop(S, i), c + 1), Det(Drop(T, i), c + 1);
    if i == r {
      assert Drop(R, i) == Drop(S, i) == Drop(T, i);
      DistributeEntry(At(R[i], c), At(S[i], c), t, dR);
    } else {
      DropRowCombination(R, S, T, r, t, i);
      DetRowLinear(Drop(R, i), Drop(S, i), Drop(T, i), if i < r then r - 1 else r, t, c + 1);
      DistributeMinor(At(R[i], c), dR, dS, t);
    }
  }

  lemma DropRowCombination(R: seq<Row>, S: seq<Row>, T: seq<Row>, r: nat, t: real, i: nat)
    requires RowCombination(R, S, T, r, t) && i < |R| && i != r
    ensures RowCombination(Drop(R, i), Drop(S, i), Drop(T, i), if i < r then r - 1 else r, t)
  {}

  lemma SumLinear(t: real, a: real, b: real, x: real, y: real)
    ensures (a + t * b) + (x + t * y) == (a + x) + t * (b + y)
  {}

  lemma DistributeEntry(x: real, y: real, t: real, d: real)
    ensures (x + t * y) * d == x * d + t * (y * d)
  {}

  lemma DistributeMinor(g: real, x: real, y: real, t: real)
    ensures g * (x + t * y) == g * x + t * (g * y)
  {}

  lemma {:induction false} DetSwapAdjacent(R: seq<Row>, i: nat, c: nat)
    requires i + 1 < |R|
    ensures Det(Swap(R, i, i + 1), c) == -Det(R, c)
    decreases |R|, |R| + 1
  {
    LaplaceSwapAfter(R, i, c, |R|);
  }

  /** Away from the two exchanged rows every term changes sign ... */
  lemma {:induction false} TermSwapElsewhere(R: seq<Row>, i: nat, c: nat, k: nat)
    requires i + 1 < |R| && k < |R| && k != i && k != i + 1
    ensures Term(Swap(R, i, i + 1), c, k) == -Term(R, c, k)
    decreases |R|, k
  {
    hide At, Det, Laplace;
    var S := Swap(R, i, i + 1);
    var i' := if k < i then i - 1 else i;
    assert Drop(S, k) == Swap(Drop(R, k), i', i' + 1);
    DetSwapAdjacent(Drop(R, k), i', c + 1);
    NegateFactor(At(R[k], c), Det(Drop(R, k), c + 1));
    assert Expand(S, c, k) == -Expand(R, c, k);
  }

  /** ... and the terms of the two rows trade places with a change of sign. */
  lemma TermSwapHere(R: seq<Row>, i: nat, c: nat)
    requires i + 1 < |R|
    ensures Term(Swap(R, i, i + 1), c, i) == -Term(R, c, i + 1)
    ensures Term(Swap(R, i, i + 1), c, i + 1) == -Term(R, c, i)
  {
    hide Expand, Signed, Term;
    var S := Swap(R, i, i + 1);
    ExpandSwapHere(R, i, c);
    TermIsSignedExpand(R, c, i);
    TermIsSignedExpand(R, c, i + 1);
    TermIsSignedExpand(S, c, i);
    TermIsSignedExpand(S, c, i + 1);
    SignedNext(i, Expand(R, c, i));
    SignedNext(i, Expand(S, c, i));
  }

  lemma ExpandSwapHere(R: seq<Row>, i: nat, c: nat)
    requires i + 1 < |R|
    ensures Expand(Swap(R, i, i + 1), c, i) == Expand(R, c, i + 1)
    ensures Expand(Swap(R, i, i + 1), c, i + 1) == Expand(R, c, i)
  {
    hide At, Det, Laplace;
    var S := Swap(R, i, i + 1);
    assert Drop(S, i) == Drop(R, i + 1);
    assert Drop(S, i + 1) == Drop(R, i);
  }

  lemma NegateFactor(a: real, d: real)
    ensures a * -d == -(a * d)
  {}

  lemma {:induction false} LaplaceSwapBefore(R: seq<Row>, i: nat, c: nat, k: nat)
    requires i + 1 < |R| && k <= i
    ensures Laplace(Swap(R, i, i + 1), c, k) == -Laplace(R, c, k)
    decreases |R|, k
  {
    if k > 0 {
      LaplaceSwapBefore(R, i, c, k - 1);
      TermSwapElsewhere(R, i, c, k - 1);
    }
  }

  lemma {:induction false} LaplaceSwapAfter(R: seq<Row>, i: nat, c: nat, k: nat)
    requires i + 2 <= k <= |R|
    ensures Laplace(Swap(R, i, i + 1), c, k) == -Laplace(R, c, k)
    decreases |R|, k
  {
    if k == i + 2 {
      LaplaceSwapBefore(R, i, c, i);
      TermSwapHere(R, i, c);
      LaplaceTwo(R, i, c);
      LaplaceTwo(Swap(R, i, i + 1), i, c);
    } else {
      LaplaceSwapAfter(R, i, c, k - 1);
      TermSwapElsewhere(R, i, c, k - 1);
    }
  }

  lemma LaplaceTwo(R: seq<Row>, i: nat, c: nat)
    requires i + 1 < |R|
    ensures Laplace(R, c, i + 2) == Laplace(R, c, i) + Term(R, c, i) + Term(R, c, i + 1)
  {
    assert Laplace(R, c, i + 1) == Laplace(R, c, i) + Term(R, c, i);
  }

  /** Exchanging any two rows negates the determinant. */
  lemma {:induction false} DetSwap(R: seq<Row>, i: nat, j: nat, c: nat)
    requires i < j < |R|
    ensures Det(Swap(R, i, j), c) == -Det(R, c)
    decreases j - i
  {
    if j == i + 1 {
      DetSwapAdjacent(R, i, c);
    } else {
      var S := Swap(R, i, i + 1);
      var T := Swap(S, i + 1, j);
      DetSwapAdjacent(R, i, c);
      DetSwap(S, i + 1, j, c);
      DetSwapAdjacent(T, i, c);
      assert Swap(T, i, i + 1) == Swap(R, i, j);
    }
  }

  /** Adding a multiple of row 0 to a later row leaves the determinant alone. */
  lemma {:induction false} DetAddFirstRow(R: seq<Row>, j: nat, t: real, c: nat)
    requires 0 < j < |R|
    ensures Det(R[j := Axpy(R[j], t, R[0])], c) == Det(R, c)
  {
    var S := R[j := R[0]];
    assert Swap(S, 0, j) == S;
    DetSwap(S, 0, j, c);
    assert RowCombination(R, S, R[j := Axpy(R[j], t, R[0])], j, t);
    DetRowLinear(R, S, R[j := Axpy(R[j], t, R[0])], j, t, c);
  }

  /** The first `m` rows after the pivot row has cleared column `c` below it. */
  ghost function Cleared(R: seq<Row>, c: nat, m: nat): (S: seq<Row>)
    requires 0 < m <= |R|
    ensures |S| == |R| && S[0] == R[0] && forall j :: m <= j < |R| ==> S[j] == R[j]
    decreases m
  {
    if m == 1 || At(R[0], c) == 0.0 then R
    else
      var S := Cleared(R, c, m - 1);
      S[m - 1 := Axpy(S[m - 1], -(At(S[m - 1], c) / At(R[0], c)), S[0])]
  }

  lemma {:induction false} ClearedKeepsDet(R: seq<Row>, c: nat, m: nat)
    requires 0 < m <= |R| && At(R[0], c) != 0.0
    ensures Det(Cleared(R, c, m), c) == Det(R, c)
    ensures forall j :: 0 < j < m ==> Cleared(R, c, m)[j] == Axpy(R[j], -(At(R[j], c) / At(R[0], c)), R[0])
    decreases m
  {
    if m > 1 {
      ClearedKeepsDet(R, c, m - 1);
      var S := Cleared(R, c, m - 1);
      DetAddFirstRow(S, m - 1, -(At(S[m - 1], c) / At(R[0], c)), c);
    }
  }

  /** What the elimination stores in a row below the pivot row `p`: columns right of `c` are
      reduced, the others are left as they were. */
  ghost function Reduce(u: Row, p: Row, c: nat): Row {
    if At(p, c) == 0.0 then u
    else seq(|u|, i => if i > c then At(u, i) - At(u, c) * At(p, i) / At(p, c) else At(u, i))
  }

  ghost function Schur(R: seq<Row>, c: nat): (S: seq<Row>)
    requires |R| > 0
    ensures |S| == |R| - 1
  {
    seq(|R| - 1, j requires 0 <= j < |R| - 1 => Reduce(R[j + 1], R[0], c))
  }

  /** All rows have the same width. */
  ghost predicate Rect(R: seq<Row>, w: nat) {
    forall j :: 0 <= j < |R| ==> |R[j]| == w
  }

  lemma {:induction false} LaplaceZeroTail(R: seq<Row>, c: nat, k: nat)
    requires 0 < k <= |R| && forall j :: 0 < j < |R| ==> At(R[j], c) == 0.0
    ensures Laplace(R, c, k) == At(R[0], c) * Det(R[1..], c + 1)
    decreases k
  {
    if k == 1 {
      assert Drop(R, 0) == R[1..];
      assert Laplace(R, c, 0) == 0.0;
      assert Term(R, c, 0) == Expand(R, c, 0);
    } else {
      LaplaceZeroTail(R, c, k - 1);
      assert Expand(R, c, k - 1) == 0.0;
      assert Term(R, c, k - 1) == 0.0;
    }
  }

  lemma ReduceIsAxpy(u: Row, p: Row, c: nat)
    requires At(p, c) != 0.0 && |u| == |p|
    ensures SameFrom(Axpy(u, -(At(u, c) / At(p, c)), p), Reduce(u, p, c), c + 1)
    ensures At(Axpy(u, -(At(u, c) / At(p, c)), p), c) == 0.0
  {
    var q := At(p, c);
    var a := Axpy(u, -(At(u, c) / q), p);
    forall i | c + 1 <= i
      ensures At(a, i) == At(Reduce(u, p, c), i)
    {
      MoveDivision(At(u, c), At(p, i), q);
    }
    assert At(u, c) / q * q == At(u, c);
  }

  lemma MoveDivision(x: real, y: real, q: real)
    requires q != 0.0
    ensures x * y / q == (x / q) * y
  {
    assert (x / q) * q == x;
    assert (x * y / q) * q == x * y;
    assert ((x / q) * y) * q == ((x / q) * q) * y;
    CancelRight(x * y / q, (x / q) * y, q);
  }

  lemma CancelRight(x: real, y: real, q: real)
    requires q != 0.0 && x * q == y * q
    ensures x == y
  {
    assert (x - y) * q == 0.0;
  }

  /** One elimination step: the pivot times the determinant of the updated trailing block. */
  lemma DetSchur(R: seq<Row>, c: nat, w: nat)
    requires |R| > 0 && Rect(R, w) && At(R[0], c) != 0.0
    ensures Det(R, c) == At(R[0], c) * Det(Schur(R, c), c + 1)
  {
    hide Term, At, Axpy, Reduce, Cleared;
    var F := Cleared(R, c, |R|);
    ClearedKeepsDet(R, c, |R|);
    ClearedIsSchur(R, c, w);
    LaplaceZeroTail(F, c, |F|);
    DetReadsBlock(F[1..], Schur(R, c), c + 1);
  }

  lemma ClearedIsSchur(R: seq<Row>, c: nat, w: nat)
    requires |R| > 0 && Rect(R, w) && At(R[0], c) != 0.0
    ensures forall j :: 0 < j < |R| ==> At(Cleared(R, c, |R|)[j], c) == 0.0
    ensures forall j :: 0 <= j < |R| - 1 ==> SameFrom(Cleared(R, c, |R|)[1..][j], Schur(R, c)[j], c + 1)
  {
    var F := Cleared(R, c, |R|);
    forall j | 0 < j < |R|
      ensures At(F[j], c) == 0.0 && SameFrom(F[j], Schur(R, c)[j - 1], c + 1)
    {
      ClearedKeepsDet(R, c, |R|);
      ReduceIsAxpy(R[j], R[0], c);
    }
  }

  /** A block whose first column is zero has determinant zero. */
  lemma DetZeroColumn(R: seq<Row>, c: nat)
    requires |R| > 0 && forall j :: 0 <= j < |R| ==> At(R[j], c) == 0.0
    ensures Det(R, c) == 0.0
  {
    LaplaceZeroTail(R, c, |R|);
  }
}

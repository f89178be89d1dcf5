/** Dense square matrices over the reals: the row sums the sweeps accumulate,
    the D, L, U splitting built by the Jacobi and SOR components, the Jacobi
    parts D^-1 and L+U, strict diagonal dominance, and the diagonal maximum that
    the SOR component reports as its "spectral radius". */
module Matrices {
  import opened Numbers

  type Matrix = seq<seq<real>>

  predicate IsSquare(A: Matrix) {
    forall i :: 0 <= i < |A| ==> |A[i]| == |A|
  }

  predicate NonzeroDiagonal(A: Matrix)
    requires IsSquare(A)
  {
    forall i :: 0 <= i < |A| ==> A[i][i] != 0.0
  }

  /** Sum of row[j] * x[j] for lo <= j < hi, accumulated left to right. */
  function Dot(row: seq<real>, x: seq<real>, lo: nat, hi: nat): real
    requires hi <= |row| && hi <= |x|
    decreases hi
  {
    if hi <= lo then 0.0 else Dot(row, x, lo, hi - 1) + row[hi - 1] * x[hi - 1]
  }

  /** Sum of row[j] * x[j] over every column j other than i. */
  function OffDiagonal(row: seq<real>, x: seq<real>, i: nat): real
    requires i < |row| == |x|
  {
    Dot(row, x, 0, i) + Dot(row, x, i + 1, |row|)
  }

  /** A dot product depends only on the entries of x inside its range. */
  lemma {:induction false} DotAgrees(row: seq<real>, x: seq<real>, y: seq<real>, lo: nat, hi: nat)
    requires hi <= |row| && hi <= |x| && hi <= |y|
    requires forall j :: lo <= j < hi ==> x[j] == y[j]
    ensures Dot(row, x, lo, hi) == Dot(row, y, lo, hi)
  {
    if lo < hi {
      DotAgrees(row, x, y, lo, hi - 1);
    }
  }

  /** Splitting a range of a dot product at mid adds up. */
  lemma {:induction false} DotSplit(row: seq<real>, x: seq<real>, lo: nat, mid: nat, hi: nat)
    requires lo <= mid <= hi <= |row| && hi <= |x|
    ensures Dot(row, x, lo, hi) == Dot(row, x, lo, mid) + Dot(row, x, mid, hi)
  {
    if mid < hi {
      DotSplit(row, x, lo, mid, hi - 1);
    }
  }

  /** A dot product with zeros everywhere but column i is that one product. */
  lemma {:induction false} DotSingleTerm(row: seq<real>, x: seq<real>, i: nat, hi: nat)
    requires hi <= |row| && hi <= |x|
    requires forall j :: 0 <= j < hi && j != i ==> row[j] == 0.0
    ensures Dot(row, x, 0, hi) == if i < hi then row[i] * x[i] else 0.0
  {
    if 0 < hi {
      DotSingleTerm(row, x, i, hi - 1);
    }
  }

  /** D: the diagonal of A, zero elsewhere. */
  function DiagonalPart(A: Matrix): (D: Matrix)
    requires IsSquare(A)
    ensures |D| == |A| && IsSquare(D)
  {
    seq(|A|, i requires 0 <= i < |A| =>
      seq(|A|, j requires 0 <= j < |A| => if i == j then A[i][j] else 0.0))
  }

  /** L: minus the entries of A strictly below the diagonal, zero elsewhere. */
  function StrictLowerPart(A: Matrix): (L: Matrix)
    requires IsSquare(A)
    ensures |L| == |A| && IsSquare(L)
  {
    seq(|A|, i requires 0 <= i < |A| =>
      seq(|A|, j requires 0 <= j < |A| => if i > j then -A[i][j] else 0.0))
  }

  /** U: minus the entries of A strictly above the diagonal, zero elsewhere. */
  function StrictUpperPart(A: Matrix): (U: Matrix)
    requires IsSquare(A)
    ensures |U| == |A| && IsSquare(U)
  {
    seq(|A|, i requires 0 <= i < |A| =>
      seq(|A|, j requires 0 <= j < |A| => if i < j then -A[i][j] else 0.0))
  }

  function Add(X: Matrix, Y: Matrix): (S: Matrix)
    requires IsSquare(X) && IsSquare(Y) && |X| == |Y|
    ensures |S| == |X| && IsSquare(S)
  {
    seq(|X|, i requires 0 <= i < |X| =>
      seq(|X|, j requires 0 <= j < |X| => X[i][j] + Y[i][j]))
  }

  function Subtract(X: Matrix, Y: Matrix): (S: Matrix)
    requires IsSquare(X) && IsSquare(Y) && |X| == |Y|
    ensures |S| == |X| && IsSquare(S)
  {
    seq(|X|, i requires 0 <= i < |X| =>
      seq(|X|, j requires 0 <= j < |X| => X[i][j] - Y[i][j]))
  }

  /** The splitting is exact: A = D - L - U. */
  lemma SplittingRecomposes(A: Matrix)
    requires IsSquare(A)
    ensures Subtract(Subtract(DiagonalPart(A), StrictLowerPart(A)), StrictUpperPart(A)) == A
  {
    var R := Subtract(Subtract(DiagonalPart(A), StrictLowerPart(A)), StrictUpperPart(A));
    forall i | 0 <= i < |A| ensures R[i] == A[i] {
      assert |R[i]| == |A[i]|;
      forall j | 0 <= j < |A| ensures R[i][j] == A[i][j] {
      }
    }
  }

  /** D^-1, built from D as the Jacobi component does: 1/d on the diagonal, 0 elsewhere. */
  function DiagonalInverse(D: Matrix): (DInv: Matrix)
    requires IsSquare(D) && NonzeroDiagonal(D)
    ensures |DInv| == |D| && IsSquare(DInv)
  {
    seq(|D|, i requires 0 <= i < |D| =>
      seq(|D|, j requires 0 <= j < |D| => if i == j then 1.0 / D[i][j] else 0.0))
  }

  function Column(X: Matrix, j: nat): (c: seq<real>)
    requires IsSquare(X) && j < |X|
    ensures |c| == |X|
  {
    seq(|X|, k requires 0 <= k < |X| => X[k][j])
  }

  /** The matrix product, each entry a row-by-column dot product. */
  function Multiply(X: Matrix, Y: Matrix): (P: Matrix)
    requires IsSquare(X) && IsSquare(Y) && |X| == |Y|
    ensures |P| == |X| && IsSquare(P)
  {
    seq(|X|, i requires 0 <= i < |X| =>
      seq(|X|, j requires 0 <= j < |X| => Dot(X[i], Column(Y, j), 0, |X|)))
  }

  function Identity(n: nat): (I: Matrix)
    ensures |I| == n && IsSquare(I)
  {
    seq(n, i requires 0 <= i < n => seq(n, j requires 0 <= j < n => if i == j then 1.0 else 0.0))
  }

  /** D^-1 is the inverse of D: D^-1 * D = I. */
  lemma DiagonalInverseIsInverse(A: Matrix)
    requires IsSquare(A) && NonzeroDiagonal(A)
    ensures Multiply(DiagonalInverse(DiagonalPart(A)), DiagonalPart(A)) == Identity(|A|)
  {
    var D := DiagonalPart(A);
    var DInv := DiagonalInverse(D);
    var P := Multiply(DInv, D);
    var n := |A|;
    forall i | 0 <= i < n ensures P[i] == Identity(n)[i] {
      forall j | 0 <= j < n ensures P[i][j] == Identity(n)[i][j] {
        DotSingleTerm(DInv[i], Column(D, j), i, n);
        assert P[i][j] == DInv[i][i] * D[i][j];
        if i == j {
          assert DInv[i][i] * D[i][i] == (1.0 / A[i][i]) * A[i][i];
        }
      }
    }
  }

  /** L + U holds minus the off-diagonal entries of A and zero on the diagonal. */
  lemma OffDiagonalParts(A: Matrix)
    requires IsSquare(A)
    ensures var LU := Add(StrictLowerPart(A), StrictUpperPart(A));
      forall i, j :: 0 <= i < |A| && 0 <= j < |A| ==>
        LU[i][j] == if i == j then 0.0 else -A[i][j]
  {
  }

  /** Sum of |row[j]| for j < k, j != i, accumulated as the dominance loop does. */
  function OffDiagonalAbsSum(row: seq<real>, i: nat, k: nat): real
    requires k <= |row|
  {
    if k == 0 then 0.0
    else OffDiagonalAbsSum(row, i, k - 1) + (if k - 1 != i then Abs(row[k - 1]) else 0.0)
  }

  /** Every row's diagonal entry outweighs the rest of its row, strictly. */
  predicate StrictlyDiagonallyDominant(A: Matrix)
    requires IsSquare(A)
  {
    forall i :: 0 <= i < |A| ==> Abs(A[i][i]) > OffDiagonalAbsSum(A[i], i, |A|)
  }

  lemma {:induction false} OffDiagonalAbsSumNonnegative(row: seq<real>, i: nat, k: nat)
    requires k <= |row|
    ensures OffDiagonalAbsSum(row, i, k) >= 0.0
  {
    if k > 0 {
      OffDiagonalAbsSumNonnegative(row, i, k - 1);
    }
  }

  /** Strict dominance forces a nonzero diagonal, so every sweep is well defined. */
  lemma DominantHasNonzeroDiagonal(A: Matrix)
    requires IsSquare(A) && StrictlyDiagonallyDominant(A)
    ensures NonzeroDiagonal(A)
  {
    forall i | 0 <= i < |A| ensures A[i][i] != 0.0 {
      OffDiagonalAbsSumNonnegative(A[i], i, |A|);
    }
  }

  /** Math.max over |A[i][i]|: the SOR component's stand-in for the spectral radius. */
  function DiagonalMaxAbs(A: Matrix): Number
    requires IsSquare(A)
  {
    MaxOf(seq(|A|, i requires 0 <= i < |A| => Finite(Abs(A[i][i]))))
  }

  /** For n >= 1 it is the largest |A[i][i]|, attained on the diagonal; -Infinity for n == 0. */
  lemma DiagonalMaxAbsIsMaximum(A: Matrix)
    requires IsSquare(A)
    ensures |A| == 0 ==> DiagonalMaxAbs(A) == NegInfinity
    ensures |A| > 0 ==> DiagonalMaxAbs(A).Finite?
    ensures |A| > 0 ==> forall i :: 0 <= i < |A| ==> Abs(A[i][i]) <= DiagonalMaxAbs(A).value
    ensures |A| > 0 ==> exists i :: 0 <= i < |A| && DiagonalMaxAbs(A).value == Abs(A[i][i])
  {
    var s := seq(|A|, i requires 0 <= i < |A| => Finite(Abs(A[i][i])));
    if |A| > 0 {
      MaxOfFinite(s);
      var k :| 0 <= k < |s| && MaxOf(s) == s[k];
      assert DiagonalMaxAbs(A).value == Abs(A[k][k]);
      forall i | 0 <= i < |A| ensures Abs(A[i][i]) <= DiagonalMaxAbs(A).value {
        assert s[i].value == Abs(A[i][i]);
      }
    }
  }
}

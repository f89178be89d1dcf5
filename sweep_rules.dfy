/** One sweep of each relaxation method over exact reals: the iterate that the
    row-by-row loops of the solvers compute from the previous one. */
module SweepRules {
  import opened Numbers
  import opened Matrices

  /** A square system with a nonzero diagonal and a right-hand side and an
      iterate of matching length: every row update is a well-defined division. */
  predicate WellPosed(A: Matrix, b: seq<real>, x: seq<real>) {
    IsSquare(A) && |b| == |A| && |x| == |A| && NonzeroDiagonal(A)
  }

  /** (b[i] - sum_{j != i} A[i][j] * x[j]) / A[i][i]: the new value of row i
      when every other row is read from x. */
  function RowSolve(A: Matrix, b: seq<real>, x: seq<real>, i: nat): real
    requires WellPosed(A, b, x) && i < |A|
  {
    (b[i] - OffDiagonal(A[i], x, i)) / A[i][i]
  }

  /** The x_new form of a Gauss-Seidel row: columns left of i are read from the
      iterate being built, columns right of i from the previous one. */
  function SplitRowSolve(A: Matrix, b: seq<real>, xNew: seq<real>, xPrev: seq<real>, i: nat): real
    requires WellPosed(A, b, xPrev) && |xNew| == |A| && i < |A|
  {
    (b[i] - Dot(A[i], xNew, 0, i) - Dot(A[i], xPrev, i + 1, |A|)) / A[i][i]
  }

  /** The first k rows of a Jacobi sweep, each solved against x alone. */
  function JacobiRows(A: Matrix, b: seq<real>, x: seq<real>, k: nat): (y: seq<real>)
    requires WellPosed(A, b, x) && k <= |x|
    ensures |y| == k
    decreases k
  {
    if k == 0 then [] else JacobiRows(A, b, x, k - 1) + [RowSolve(A, b, x, k - 1)]
  }

  /** Jacobi: every row is solved against the previous iterate only. */
  function JacobiSweep(A: Matrix, b: seq<real>, x: seq<real>): (y: seq<real>)
    requires WellPosed(A, b, x)
    ensures |y| == |x|
  {
    JacobiRows(A, b, x, |x|)
  }

  lemma {:induction false} JacobiRowsSolve(A: Matrix, b: seq<real>, x: seq<real>, k: nat)
    requires WellPosed(A, b, x) && k <= |x|
    ensures forall i :: 0 <= i < k ==> JacobiRows(A, b, x, k)[i] == RowSolve(A, b, x, i)
  {
    if k > 0 {
      JacobiRowsSolve(A, b, x, k - 1);
    }
  }

  /** Row i of a Jacobi sweep is that row's update against x. */
  lemma JacobiSweepRow(A: Matrix, b: seq<real>, x: seq<real>, i: nat)
    requires WellPosed(A, b, x) && i < |x|
    ensures JacobiSweep(A, b, x)[i] == RowSolve(A, b, x, i)
  {
    JacobiRowsSolve(A, b, x, |x|);
  }

  /** Gauss-Seidel in place: rows 0..k-1 have been overwritten, in order, each
      solved against the current contents of x. */
  function GaussSeidelRows(A: Matrix, b: seq<real>, x: seq<real>, k: nat): (y: seq<real>)
    requires WellPosed(A, b, x) && k <= |x|
    ensures |y| == |x|
    decreases k
  {
    if k == 0 then x
    else
      var y := GaussSeidelRows(A, b, x, k - 1);
      y[k - 1 := RowSolve(A, b, y, k - 1)]
  }

  function GaussSeidelSweep(A: Matrix, b: seq<real>, x: seq<real>): (y: seq<real>)
    requires WellPosed(A, b, x)
    ensures |y| == |x|
  {
    GaussSeidelRows(A, b, x, |x|)
  }

  /** The SOR blend of the previous value of a row with its Gauss-Seidel value. */
  function Relax(w: real, prev: real, gs: real): real {
    (1.0 - w) * prev + w * gs
  }

  /** Blending a value with itself gives it back, whatever w is. */
  lemma RelaxOfSame(w: real, v: real)
    ensures Relax(w, v, v) == v
  {
  }

  /** With w == 1 the blend is the Gauss-Seidel value alone. */
  lemma RelaxByOne(prev: real, gs: real)
    ensures Relax(1.0, prev, gs) == gs
  {
  }

  /** (1 - w) * prev + (w / a) * c, as the SOR component writes its row
      update, is the blend with the Gauss-Seidel value c / a. */
  lemma RelaxScaled(w: real, prev: real, a: real, c: real)
    requires a != 0.0
    ensures (1.0 - w) * prev + (w / a) * c == Relax(w, prev, c / a)
  {
  }

  /** SOR in place: like Gauss-Seidel, but row i becomes the blend
      (1 - w) * x[i] + w * (Gauss-Seidel value), taken while x[i] still holds
      the previous iterate's value. */
  function SorRows(A: Matrix, b: seq<real>, x: seq<real>, w: real, k: nat): (y: seq<real>)
    requires WellPosed(A, b, x) && k <= |x|
    ensures |y| == |x|
    decreases k
  {
    if k == 0 then x
    else
      var y := SorRows(A, b, x, w, k - 1);
      y[k - 1 := Relax(w, y[k - 1], RowSolve(A, b, y, k - 1))]
  }

  function SorSweep(A: Matrix, b: seq<real>, x: seq<real>, w: real): (y: seq<real>)
    requires WellPosed(A, b, x)
    ensures |y| == |x|
  {
    SorRows(A, b, x, w, |x|)
  }

  /** Each Jacobi component solves its own row equation against the previous
      iterate: A[i][i] * xNew[i] + sum_{j != i} A[i][j] * x[j] == b[i]. */
  lemma JacobiRowEquation(A: Matrix, b: seq<real>, x: seq<real>, i: nat)
    requires WellPosed(A, b, x) && i < |A|
    ensures A[i][i] * JacobiSweep(A, b, x)[i] + OffDiagonal(A[i], x, i) == b[i]
  {
    JacobiSweepRow(A, b, x, i);
    DivCancel(b[i] - OffDiagonal(A[i], x, i), A[i][i]);
  }

  /** Rows at or after k are untouched by the first k in-place row updates. */
  lemma {:induction false} GaussSeidelRowsUntouched(A: Matrix, b: seq<real>, x: seq<real>, k: nat)
    requires WellPosed(A, b, x) && k <= |x|
    ensures forall j :: k <= j < |x| ==> GaussSeidelRows(A, b, x, k)[j] == x[j]
  {
    if k > 0 {
      GaussSeidelRowsUntouched(A, b, x, k - 1);
    }
  }

  /** Once row j has been written, later row updates leave it alone. */
  lemma {:induction false} GaussSeidelRowsStable(A: Matrix, b: seq<real>, x: seq<real>, k: nat, m: nat)
    requires WellPosed(A, b, x) && k <= m <= |x|
    ensures forall j :: 0 <= j < k ==> GaussSeidelRows(A, b, x, m)[j] == GaussSeidelRows(A, b, x, k)[j]
    decreases m
  {
    if k < m {
      GaussSeidelRowsStable(A, b, x, k, m - 1);
    }
  }

  /** The in-place sweep and the x_new form compute the same iterate: row i of
      the result is solved with this sweep's values left of i and the previous
      iterate's values right of i. */
  lemma GaussSeidelSweepForm(A: Matrix, b: seq<real>, x: seq<real>, i: nat)
    requires WellPosed(A, b, x) && i < |A|
    ensures GaussSeidelSweep(A, b, x)[i] == SplitRowSolve(A, b, GaussSeidelSweep(A, b, x), x, i)
  {
    var n := |A|;
    var y := GaussSeidelSweep(A, b, x);
    var before := GaussSeidelRows(A, b, x, i);
    GaussSeidelRowsStable(A, b, x, i + 1, n);
    GaussSeidelRowsStable(A, b, x, i, n);
    GaussSeidelRowsUntouched(A, b, x, i);
    assert y[i] == RowSolve(A, b, before, i);
    DotAgrees(A[i], before, y, 0, i);
    DotAgrees(A[i], before, x, i + 1, n);
  }

  /** Over the reals every Gauss-Seidel component solves its row equation:
      A[i][i] * y[i] + sum_{j < i} A[i][j] * y[j] + sum_{j > i} A[i][j] * x[j] == b[i]. */
  lemma GaussSeidelRowEquation(A: Matrix, b: seq<real>, x: seq<real>, i: nat)
    requires WellPosed(A, b, x) && i < |A|
    ensures var y := GaussSeidelSweep(A, b, x);
      A[i][i] * y[i] + Dot(A[i], y, 0, i) + Dot(A[i], x, i + 1, |A|) == b[i]
  {
    var y := GaussSeidelSweep(A, b, x);
    GaussSeidelSweepForm(A, b, x, i);
    DivCancel(b[i] - Dot(A[i], y, 0, i) - Dot(A[i], x, i + 1, |A|), A[i][i]);
  }

  /** Over the reals SOR with w == 1 is Gauss-Seidel, row update by row update. */
  lemma {:induction false} SorOmegaOneRows(A: Matrix, b: seq<real>, x: seq<real>, k: nat)
    requires WellPosed(A, b, x) && k <= |x|
    ensures SorRows(A, b, x, 1.0, k) == GaussSeidelRows(A, b, x, k)
  {
    if k > 0 {
      SorOmegaOneRows(A, b, x, k - 1);
      var y := GaussSeidelRows(A, b, x, k - 1);
      RelaxByOne(y[k - 1], RowSolve(A, b, y, k - 1));
    }
  }

  lemma SorOmegaOne(A: Matrix, b: seq<real>, x: seq<real>)
    requires WellPosed(A, b, x)
    ensures SorSweep(A, b, x, 1.0) == GaussSeidelSweep(A, b, x)
  {
    SorOmegaOneRows(A, b, x, |x|);
  }

  lemma {:induction false} SorRowsUntouched(A: Matrix, b: seq<real>, x: seq<real>, w: real, k: nat)
    requires WellPosed(A, b, x) && k <= |x|
    ensures forall j :: k <= j < |x| ==> SorRows(A, b, x, w, k)[j] == x[j]
  {
    if k > 0 {
      SorRowsUntouched(A, b, x, w, k - 1);
    }
  }

  lemma {:induction false} SorRowsStable(A: Matrix, b: seq<real>, x: seq<real>, w: real, k: nat, m: nat)
    requires WellPosed(A, b, x) && k <= m <= |x|
    ensures forall j :: 0 <= j < k ==> SorRows(A, b, x, w, m)[j] == SorRows(A, b, x, w, k)[j]
    decreases m
  {
    if k < m {
      SorRowsStable(A, b, x, w, k, m - 1);
    }
  }

  /** Row i of an SOR sweep blends the previous iterate's x[i] with the
      Gauss-Seidel value computed from this sweep's rows left of i and the
      previous rows right of i. */
  lemma SorSweepForm(A: Matrix, b: seq<real>, x: seq<real>, w: real, i: nat)
    requires WellPosed(A, b, x) && i < |A|
    ensures var y := SorSweep(A, b, x, w);
      y[i] == Relax(w, x[i], SplitRowSolve(A, b, y, x, i))
  {
    var n := |A|;
    var y := SorSweep(A, b, x, w);
    var before := SorRows(A, b, x, w, i);
    SorRowsStable(A, b, x, w, i + 1, n);
    SorRowsStable(A, b, x, w, i, n);
    SorRowsUntouched(A, b, x, w, i);
    assert y[i] == Relax(w, before[i], RowSolve(A, b, before, i));
    DotAgrees(A[i], before, y, 0, i);
    DotAgrees(A[i], before, x, i + 1, n);
  }

  /** x solves A x == b exactly. */
  predicate Solves(A: Matrix, x: seq<real>, b: seq<real>)
    requires IsSquare(A) && |x| == |A| && |b| == |A|
  {
    forall i :: 0 <= i < |A| ==> Dot(A[i], x, 0, |A|) == b[i]
  }

  /** A solution leaves every row update where it is. */
  lemma RowSolveOfSolution(A: Matrix, b: seq<real>, x: seq<real>, i: nat)
    requires WellPosed(A, b, x) && Solves(A, x, b) && i < |A|
    ensures RowSolve(A, b, x, i) == x[i]
  {
    DotSplit(A[i], x, 0, i, |A|);
    DotSplit(A[i], x, i, i + 1, |A|);
    assert Dot(A[i], x, i, i + 1) == A[i][i] * x[i];
    assert b[i] - OffDiagonal(A[i], x, i) == A[i][i] * x[i];
    DivOfProduct(A[i][i], x[i]);
  }

  lemma {:induction false} GaussSeidelRowsOfSolution(A: Matrix, b: seq<real>, x: seq<real>, k: nat)
    requires WellPosed(A, b, x) && Solves(A, x, b) && k <= |x|
    ensures GaussSeidelRows(A, b, x, k) == x
  {
    if k > 0 {
      GaussSeidelRowsOfSolution(A, b, x, k - 1);
      RowSolveOfSolution(A, b, x, k - 1);
    }
  }

  lemma {:induction false} SorRowsOfSolution(A: Matrix, b: seq<real>, x: seq<real>, w: real, k: nat)
    requires WellPosed(A, b, x) && Solves(A, x, b) && k <= |x|
    ensures SorRows(A, b, x, w, k) == x
  {
    if k > 0 {
      SorRowsOfSolution(A, b, x, w, k - 1);
      RowSolveOfSolution(A, b, x, k - 1);
      RelaxOfSame(w, x[k - 1]);
    }
  }

  /** An exact solution is a fixed point of all three sweeps, whatever w is. */
  lemma SolutionIsFixedPoint(A: Matrix, b: seq<real>, x: seq<real>, w: real)
    requires WellPosed(A, b, x) && Solves(A, x, b)
    ensures JacobiSweep(A, b, x) == x
    ensures GaussSeidelSweep(A, b, x) == x
    ensures SorSweep(A, b, x, w) == x
  {
    forall i | 0 <= i < |x| ensures JacobiSweep(A, b, x)[i] == x[i] {
      JacobiSweepRow(A, b, x, i);
      RowSolveOfSolution(A, b, x, i);
    }
    GaussSeidelRowsOfSolution(A, b, x, |x|);
    SorRowsOfSolution(A, b, x, w, |x|);
  }

  lemma IdentityIsWellPosed(b: seq<real>, x: seq<real>)
    requires |b| == |x|
    ensures WellPosed(Identity(|x|), b, x)
  {
  }

  /** On the identity matrix a row update returns b[i], whatever x holds. */
  lemma RowSolveOnIdentity(b: seq<real>, x: seq<real>, i: nat)
    requires |b| == |x| && i < |x|
    ensures WellPosed(Identity(|x|), b, x)
    ensures RowSolve(Identity(|x|), b, x, i) == b[i]
  {
    IdentityIsWellPosed(b, x);
    var n := |x|;
    var I := Identity(n);
    DotSingleTerm(I[i], x, i, i);
    forall j | 0 <= j < n && j != i ensures I[i][j] == 0.0 {
    }
    DotAgreesOnZeroRow(I[i], x, i + 1, n, i);
  }

  /** A dot product over a range of columns where the row is zero is zero. */
  lemma {:induction false} DotAgreesOnZeroRow(row: seq<real>, x: seq<real>, lo: nat, hi: nat, i: nat)
    requires hi <= |row| && hi <= |x|
    requires forall j :: lo <= j < hi ==> row[j] == 0.0
    ensures Dot(row, x, lo, hi) == 0.0
    decreases hi
  {
    if lo < hi {
      DotAgreesOnZeroRow(row, x, lo, hi - 1, i);
    }
  }

  lemma {:induction false} GaussSeidelRowsOnIdentity(b: seq<real>, x: seq<real>, k: nat)
    requires |b| == |x| && k <= |x|
    ensures WellPosed(Identity(|x|), b, x)
    ensures GaussSeidelRows(Identity(|x|), b, x, k) == b[..k] + x[k..]
  {
    IdentityIsWellPosed(b, x);
    if k > 0 {
      GaussSeidelRowsOnIdentity(b, x, k - 1);
      var y := GaussSeidelRows(Identity(|x|), b, x, k - 1);
      RowSolveOnIdentity(b, y, k - 1);
      assert y[k - 1 := b[k - 1]] == b[..k] + x[k..];
    }
  }

  /** On the identity matrix Jacobi and Gauss-Seidel reach b in one sweep. */
  lemma SweepsOnIdentity(b: seq<real>, x: seq<real>)
    requires |b| == |x|
    ensures WellPosed(Identity(|x|), b, x)
    ensures JacobiSweep(Identity(|x|), b, x) == b
    ensures GaussSeidelSweep(Identity(|x|), b, x) == b
  {
    IdentityIsWellPosed(b, x);
    forall i | 0 <= i < |x| ensures JacobiSweep(Identity(|x|), b, x)[i] == b[i] {
      RowSolveOnIdentity(b, x, i);
      JacobiSweepRow(Identity(|x|), b, x, i);
    }
    GaussSeidelRowsOnIdentity(b, x, |x|);
    assert b[..|x|] + x[|x|..] == b;
  }

  /** A blend reaches its target exactly when w = 1 or it started there:
      (1 - w) * prev + w * target - target == (1 - w) * (prev - target). */
  lemma RelaxReachesTarget(w: real, prev: real, target: real)
    ensures Relax(w, prev, target) == target <==> w == 1.0 || prev == target
  {
    assert Relax(w, prev, target) - target == (1.0 - w) * (prev - target);
    if w != 1.0 && prev != target {
      DivOfProduct(1.0 - w, prev - target);
    }
  }

  /** On the identity, after k in-place SOR rows, row i < k is the blend of
      x[i] with b[i] and every later row is untouched. */
  lemma {:induction false} SorRowsOnIdentity(b: seq<real>, x: seq<real>, w: real, k: nat)
    requires |b| == |x| && k <= |x|
    ensures WellPosed(Identity(|x|), b, x)
    ensures forall i :: 0 <= i < |x| ==>
      SorRows(Identity(|x|), b, x, w, k)[i] == if i < k then Relax(w, x[i], b[i]) else x[i]
  {
    IdentityIsWellPosed(b, x);
    if k > 0 {
      SorRowsOnIdentity(b, x, w, k - 1);
      var y := SorRows(Identity(|x|), b, x, w, k - 1);
      RowSolveOnIdentity(b, y, k - 1);
    }
  }

  /** On the identity a whole SOR sweep is x + w * (b - x), row by row: it
      lands on b exactly when w = 1 or x already was b. */
  lemma SorSweepOnIdentity(b: seq<real>, x: seq<real>, w: real)
    requires |b| == |x|
    ensures WellPosed(Identity(|x|), b, x)
    ensures forall i :: 0 <= i < |x| ==> SorSweep(Identity(|x|), b, x, w)[i] == Relax(w, x[i], b[i])
    ensures SorSweep(Identity(|x|), b, x, w) == b <==> w == 1.0 || x == b
  {
    SorRowsOnIdentity(b, x, w, |x|);
    var y := SorSweep(Identity(|x|), b, x, w);
    if w == 1.0 || x == b {
      forall i | 0 <= i < |x| ensures y[i] == b[i] {
        RelaxReachesTarget(w, x[i], b[i]);
      }
    }
    if y == b && w != 1.0 {
      forall i | 0 <= i < |x| ensures x[i] == b[i] {
        RelaxReachesTarget(w, x[i], b[i]);
      }
    }
  }
}

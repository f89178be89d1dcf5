/** The inner accumulation loops the solvers run for each row. */
module RowSums {
  import opened Numbers
  import opened Matrices

  /** `sum += row[j] * x[j]` for every j != i, in column order. */
  method OffDiagonalSum(row: seq<real>, x: seq<real>, i: nat) returns (sum: real)
    requires i < |row| == |x|
    ensures sum == OffDiagonal(row, x, i)
  {
    sum := 0.0;
    for j := 0 to |row|
      invariant sum == if j <= i then Dot(row, x, 0, j) else Dot(row, x, 0, i) + Dot(row, x, i + 1, j)
    {
      if i != j {
        sum := sum + row[j] * x[j];
      }
    }
  }

  /** `sum += row[j] * x[j]` for lo <= j < hi: the two partial sums of the
      x_new form of Gauss-Seidel. */
  method PartialDot(row: seq<real>, x: seq<real>, lo: nat, hi: nat) returns (sum: real)
    requires lo <= hi <= |row| && hi <= |x|
    ensures sum == Dot(row, x, lo, hi)
  {
    sum := 0.0;
    for j := lo to hi
      invariant sum == Dot(row, x, lo, j)
    {
      sum := sum + row[j] * x[j];
    }
  }

  /** The strict diagonal-dominance check: for each row, add up |A[i][j]| over
      j != i and give up at the first row whose diagonal does not exceed it. */
  method IsDiagonallyDominant(A: Matrix) returns (dominant: bool)
    requires IsSquare(A)
    ensures dominant == StrictlyDiagonallyDominant(A)
  {
    for i := 0 to |A|
      invariant forall m :: 0 <= m < i ==> Abs(A[m][m]) > OffDiagonalAbsSum(A[m], m, |A|)
    {
      var rowSum := 0.0;
      for j := 0 to |A[i]|
        invariant rowSum == OffDiagonalAbsSum(A[i], i, j)
      {
        if i != j {
          rowSum := rowSum + Abs(A[i][j]);
        }
      }
      if Abs(A[i][i]) <= rowSum {
        return false;
      }
    }
    return true;
  }
}

/** The SOR component: an in-place sweep whose row update is written with the
    factor w / A[i][i], a choice of two error norms, a per-iteration history,
    omega, and the largest |diagonal entry| reported as the spectral radius. */
module SorMethod {
  import opened Numbers
  import opened Matrices
  import opened ErrorNorms
  import opened SweepRules
  import opened Iteration
  import opened RowSums
  import opened Results

  /** The error norm chosen by the component's selector: "absolute" picks the
      infinity norm, any other value the relative norm. */
  function SorNorm(errorType: string): (norm: Norm)
    ensures norm == Infinity <==> errorType == "absolute"
    ensures norm != Euclidean
  {
    AbsoluteOrRelative(errorType == "absolute")
  }

  /** One sweep in place: row i becomes (1 - w) * xOld[i] + (w / A[i][i]) * (b[i] - sum),
      where the sum reads every other row from x as it stands. */
  method SorSweepScaled(A: Matrix, b: seq<real>, x: array<real>, w: real)
    requires WellPosed(A, b, x[..])
    modifies x
    ensures x[..] == SorSweep(A, b, old(x[..]), w)
  {
    var xOld := x[..];
    for i := 0 to x.Length
      invariant x[..] == SorRows(A, b, xOld, w, i)
    {
      SorRowsUntouched(A, b, xOld, w, i);
      var sum := OffDiagonalSum(A[i], x[..], i);
      RelaxScaled(w, xOld[i], A[i][i], b[i] - sum);
      var v := (1.0 - w) * xOld[i] + (w / A[i][i]) * (b[i] - sum);
      assert v == Relax(w, xOld[i], (b[i] - sum) / A[i][i]);
      x[i] := v;
    }
  }

  /** One turn of the component's loop after k sweeps: keep a copy of x,
      sweep in place, measure the error, count the sweep and push a copy of x
      with it. */
  method SorStep(A: Matrix, b: seq<real>, w: real, norm: Norm, ghost p: Problem, k: nat,
                 x: array<real>, history: seq<IterationRecord>)
    returns (error: Number, history': seq<IterationRecord>)
    requires WellFormed(p) && p.solver == Sor(w) && p.A == A && p.b == b && p.norm == norm
    requires Continues(p, k) && x[..] == Iterate(p, k) && history == HistoryUpTo(p, k)
    modifies x
    ensures x[..] == Iterate(p, k + 1) && error == ErrorAfter(p, k + 1)
    ensures history' == HistoryUpTo(p, k + 1)
    ensures StopFrom(p, k + 1) == StopFrom(p, k)
  {
    LoopStep(p, k);
    HistoryGrows(p, k);
    var xOld := x[..];
    SorSweepScaled(A, b, x, w);
    error := StepError(norm, xOld, x[..]);
    var iterations := k + 1;
    history' := history + [IterationRecord(iterations, x[..], error)];
  }

  /** The component's solver: the run of the shared iteration model with the
      selected norm, the history of every sweep, omega, and the largest
      |A[i][i]| as the spectral radius. */
  method SorSolve(A: Matrix, b: seq<real>, x0: seq<real>, w: real, tol: real, maxIter: int,
                  errorType: string)
    returns (r: SolverResult)
    requires WellPosed(A, b, x0)
    ensures var p := Problem(Sor(w), SorNorm(errorType), A, b, x0, tol, maxIter);
      r == WithHistory(Run(p), History(p)).(
        spectralRadius := Some(DiagonalMaxAbs(A)),
        omega := Some(w))
  {
    var norm := SorNorm(errorType);
    ghost var p := Problem(Sor(w), norm, A, b, x0, tol, maxIter);
    var n := |A|;
    var x := new real[n](j requires 0 <= j < n => x0[j]);
    var iterations := 0;
    var error := PosInfinity;
    var history := [];
    while Exceeds(error, tol) && iterations < maxIter
      invariant 0 <= iterations
      invariant x[..] == Iterate(p, iterations) && error == ErrorAfter(p, iterations)
      invariant history == HistoryUpTo(p, iterations)
      invariant StopFrom(p, iterations) == Sweeps(p)
      decreases maxIter - iterations
    {
      error, history := SorStep(A, b, w, norm, p, iterations, x, history);
      iterations := iterations + 1;
    }
    LoopExit(p, iterations);
    var spectralRadius := DiagonalMaxAbs(A);
    r := SolverResult(x[..], iterations, error, AtMost(error, tol), Some(history),
                      Some(spectralRadius), None, Some(w));
  }
}

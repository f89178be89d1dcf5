/** The Jacobi component: a fresh xNew per sweep, a choice of two error norms
    and a per-iteration history. */
module JacobiMethod {
  import opened Numbers
  import opened Matrices
  import opened ErrorNorms
  import opened SweepRules
  import opened Iteration
  import opened RowSums
  import opened Results

  /** The error norm chosen by the component's selector: "Error Absoluto" picks
      the infinity norm, any other value the relative norm. */
  function JacobiNorm(errorType: string): (norm: Norm)
    ensures norm == Infinity <==> errorType == "Error Absoluto"
    ensures norm != Euclidean
  {
    AbsoluteOrRelative(errorType == "Error Absoluto")
  }

  /** One sweep into a fresh zero-filled xNew, every row read from x alone. */
  method JacobiSweepFresh(A: Matrix, b: seq<real>, x: seq<real>) returns (xNew: seq<real>)
    requires WellPosed(A, b, x)
    ensures xNew == JacobiSweep(A, b, x)
  {
    var n := |A|;
    var buffer := new real[n](_ => 0.0);
    for i := 0 to n
      invariant buffer[..i] == JacobiRows(A, b, x, i)
    {
      var sum := OffDiagonalSum(A[i], x, i);
      buffer[i] := (b[i] - sum) / A[i][i];
      assert buffer[..i + 1] == buffer[..i] + [buffer[i]];
    }
    assert buffer[..] == buffer[..n];
    xNew := buffer[..];
  }

  /** One turn of the component's loop after k sweeps: sweep into a fresh
      xNew, measure the error, make xNew the iterate, count the sweep and push
      its record. */
  method JacobiStep(A: Matrix, b: seq<real>, norm: Norm, ghost p: Problem, k: nat,
                    x: seq<real>, history: seq<IterationRecord>)
    returns (x': seq<real>, error: Number, history': seq<IterationRecord>)
    requires WellFormed(p) && p.solver == Jacobi && p.A == A && p.b == b && p.norm == norm
    requires Continues(p, k) && x == Iterate(p, k) && history == HistoryUpTo(p, k)
    ensures x' == Iterate(p, k + 1) && error == ErrorAfter(p, k + 1)
    ensures history' == HistoryUpTo(p, k + 1)
    ensures StopFrom(p, k + 1) == StopFrom(p, k)
  {
    LoopStep(p, k);
    HistoryGrows(p, k);
    var xNew := JacobiSweepFresh(A, b, x);
    error := StepError(norm, x, xNew);
    x' := xNew;
    var iterations := k + 1;
    history' := history + [IterationRecord(iterations, x', error)];
  }

  /** The component's solver: the run of the shared iteration model with the
      selected norm and the history of every sweep. */
  method JacobiSolve(A: Matrix, b: seq<real>, x0: seq<real>, tol: real, maxIter: int,
                     errorType: string)
    returns (r: SolverResult)
    requires WellPosed(A, b, x0)
    ensures var p := Problem(Jacobi, JacobiNorm(errorType), A, b, x0, tol, maxIter);
      r == WithHistory(Run(p), History(p))
  {
    var norm := JacobiNorm(errorType);
    ghost var p := Problem(Jacobi, norm, A, b, x0, tol, maxIter);
    var x := x0;
    var iterations := 0;
    var error := PosInfinity;
    var history := [];
    while Exceeds(error, tol) && iterations < maxIter
      invariant 0 <= iterations
      invariant x == Iterate(p, iterations) && error == ErrorAfter(p, iterations)
      invariant history == HistoryUpTo(p, iterations)
      invariant StopFrom(p, iterations) == Sweeps(p)
      decreases maxIter - iterations
    {
      x, error, history := JacobiStep(A, b, norm, p, iterations, x, history);
      iterations := iterations + 1;
    }
    LoopExit(p, iterations);
    r := SolverResult(x, iterations, error, AtMost(error, tol), Some(history), None, None, None);
  }
}

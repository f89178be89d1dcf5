/** The Gauss-Seidel component: the x_new form of the sweep, a choice of three
    error norms, a per-iteration history, the spectral-radius attempt and the
    diagonal-dominance flag. */
module GaussSeidelMethod {
  import opened Numbers
  import opened Matrices
  import opened ErrorNorms
  import opened SweepRules
  import opened Iteration
  import opened RowSums
  import opened Results

  /** The error norm chosen by the component's selector: "infinito" and
      "euclídea" pick their norms, any other value the relative norm. */
  function GaussSeidelNorm(errorType: string): (norm: Norm)
    ensures norm == Infinity <==> errorType == "infinito"
    ensures norm == Euclidean <==> errorType == "euclídea"
  {
    if errorType == "infinito" then Infinity
    else if errorType == "euclídea" then Euclidean
    else Relative
  }

  /** The reported spectral radius: only attempted for n <= 10, where the
      eigenvalue library either returns the value or throws (None). */
  function GaussSeidelSpectralRadius(n: nat, library: Option<real>): (rho: Number)
    ensures rho.NaN? <==> n > 10 || library.None?
    ensures !rho.NaN? ==> rho == Finite(library.value)
  {
    if n <= 10 then
      match library
      case Some(v) => Finite(v)
      case None => NaN
    else NaN
  }

  /** One sweep into a fresh zero-filled x_new: row i subtracts the sum over
      j < i read from x_new and the sum over j > i read from x. */
  method GaussSeidelSweepFresh(A: Matrix, b: seq<real>, x: seq<real>) returns (xNew: seq<real>)
    requires WellPosed(A, b, x)
    ensures xNew == GaussSeidelSweep(A, b, x)
  {
    var n := |A|;
    var buffer := new real[n](_ => 0.0);
    ghost var y := GaussSeidelSweep(A, b, x);
    for i := 0 to n
      invariant forall m :: 0 <= m < i ==> buffer[m] == y[m]
    {
      var sum1 := PartialDot(A[i], buffer[..], 0, i);
      var sum2 := PartialDot(A[i], x, i + 1, n);
      DotAgrees(A[i], buffer[..], y, 0, i);
      GaussSeidelSweepForm(A, b, x, i);
      buffer[i] := (b[i] - sum1 - sum2) / A[i][i];
    }
    xNew := buffer[..];
  }

  /** One turn of the component's loop after k sweeps: sweep into a fresh
      x_new, measure the error, count the sweep, push its record and make x_new
      the iterate. */
  method GaussSeidelStep(A: Matrix, b: seq<real>, norm: Norm, ghost p: Problem, k: nat,
                         x: seq<real>, history: seq<IterationRecord>)
    returns (x': seq<real>, error: Number, history': seq<IterationRecord>)
    requires WellFormed(p) && p.solver == GaussSeidel && p.A == A && p.b == b && p.norm == norm
    requires Continues(p, k) && x == Iterate(p, k) && history == HistoryUpTo(p, k)
    ensures x' == Iterate(p, k + 1) && error == ErrorAfter(p, k + 1)
    ensures history' == HistoryUpTo(p, k + 1)
    ensures StopFrom(p, k + 1) == StopFrom(p, k)
  {
    LoopStep(p, k);
    HistoryGrows(p, k);
    var xNew := GaussSeidelSweepFresh(A, b, x);
    error := StepError(norm, x, xNew);
    var iterations := k + 1;
    history' := history + [IterationRecord(iterations, xNew, error)];
    x' := xNew;
  }

  /** The component's solver: the run of the shared iteration model with the
      selected norm, the history of every sweep, the spectral radius and the
      dominance flag. */
  method GaussSeidelSolve(A: Matrix, b: seq<real>, x0: seq<real>, tol: real, maxIter: int,
                          errorType: string, library: Option<real>)
    returns (r: SolverResult)
    requires WellPosed(A, b, x0)
    ensures var p := Problem(GaussSeidel, GaussSeidelNorm(errorType), A, b, x0, tol, maxIter);
      r == WithHistory(Run(p), History(p)).(
        spectralRadius := Some(GaussSeidelSpectralRadius(|A|, library)),
        isDiagonallyDominant := Some(StrictlyDiagonallyDominant(A)))
  {
    var norm := GaussSeidelNorm(errorType);
    ghost var p := Problem(GaussSeidel, norm, A, b, x0, tol, maxIter);
    var x := x0;
    var iterations := 0;
    var error := PosInfinity;
    var history := [];
    var spectralRadius := GaussSeidelSpectralRadius(|A|, library);
    while Exceeds(error, tol) && iterations < maxIter
      invariant 0 <= iterations
      invariant x == Iterate(p, iterations) && error == ErrorAfter(p, iterations)
      invariant history == HistoryUpTo(p, iterations)
      invariant StopFrom(p, iterations) == Sweeps(p)
      decreases maxIter - iterations
    {
      x, error, history := GaussSeidelStep(A, b, norm, p, iterations, x, history);
      iterations := iterations + 1;
    }
    LoopExit(p, iterations);
    var dominant := IsDiagonallyDominant(A);
    r := SolverResult(x, iterations, error, AtMost(error, tol), Some(history),
                      Some(spectralRadius), Some(dominant), None);
  }
}

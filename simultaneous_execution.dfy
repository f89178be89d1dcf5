/** The three solvers of the side-by-side run, each using the infinity norm
    and no history, and the run that executes them one after another on the
    same input. */
module SimultaneousExecution {
  import opened Numbers
  import opened Matrices
  import opened ErrorNorms
  import opened SweepRules
  import opened Iteration
  import opened RowSums
  import opened Results

  /** One Jacobi sweep into the buffer xNew, reading only x. */
  method JacobiSweepInto(A: Matrix, b: seq<real>, x: seq<real>, xNew: array<real>)
    requires WellPosed(A, b, x) && xNew.Length == |x|
    modifies xNew
    ensures xNew[..] == JacobiSweep(A, b, x)
  {
    for i := 0 to |x|
      invariant xNew[..i] == JacobiRows(A, b, x, i)
    {
      var sum := OffDiagonalSum(A[i], x, i);
      xNew[i] := (b[i] - sum) / A[i][i];
      assert xNew[..i + 1] == xNew[..i] + [xNew[i]];
    }
    assert xNew[..] == xNew[..|x|];
  }

  /** One Gauss-Seidel sweep in place: when row i is computed, x holds this
      sweep's values before i and the previous iterate's from i on. */
  method GaussSeidelSweepInPlace(A: Matrix, b: seq<real>, x: array<real>)
    requires WellPosed(A, b, x[..])
    modifies x
    ensures x[..] == GaussSeidelSweep(A, b, old(x[..]))
  {
    ghost var xOld := x[..];
    for i := 0 to x.Length
      invariant x[..] == GaussSeidelRows(A, b, xOld, i)
    {
      var sum := OffDiagonalSum(A[i], x[..], i);
      x[i] := (b[i] - sum) / A[i][i];
    }
  }

  /** One SOR sweep in place. */
  method SorSweepInPlace(A: Matrix, b: seq<real>, x: array<real>, w: real)
    requires WellPosed(A, b, x[..])
    modifies x
    ensures x[..] == SorSweep(A, b, old(x[..]), w)
  {
    ghost var xOld := x[..];
    for i := 0 to x.Length
      invariant x[..] == SorRows(A, b, xOld, w, i)
    {
      var sum := OffDiagonalSum(A[i], x[..], i);
      var xNew := (b[i] - sum) / A[i][i];
      x[i] := (1.0 - w) * x[i] + w * xNew;
    }
  }

  /** One turn of the Jacobi loop after k sweeps: fill the buffer from x,
      measure the error, and make a copy of the buffer the iterate. */
  method JacobiStep(A: Matrix, b: seq<real>, ghost p: Problem, k: nat, x: seq<real>, xNew: array<real>)
    returns (x': seq<real>, error: Number)
    requires WellFormed(p) && p == Problem(Jacobi, Infinity, A, b, p.x0, p.tol, p.maxIter)
    requires Continues(p, k) && x == Iterate(p, k) && xNew.Length == |x|
    modifies xNew
    ensures x' == Iterate(p, k + 1) && error == ErrorAfter(p, k + 1)
    ensures StopFrom(p, k + 1) == StopFrom(p, k)
  {
    LoopStep(p, k);
    JacobiSweepInto(A, b, x, xNew);
    error := StepError(Infinity, x, xNew[..]);
    x' := xNew[..];
  }

  /** Jacobi with a buffer xNew reused across sweeps: each sweep fills xNew
      from x alone, then x becomes a copy of xNew. */
  method JacobiSolve(A: Matrix, b: seq<real>, x0: seq<real>, tol: real, maxIter: int)
    returns (r: Outcome)
    requires WellPosed(A, b, x0)
    ensures r == Run(Problem(Jacobi, Infinity, A, b, x0, tol, maxIter))
  {
    ghost var p := Problem(Jacobi, Infinity, A, b, x0, tol, maxIter);
    var n := |A|;
    var x := x0;
    var xNew := new real[n](_ => 0.0);
    var iterations := 0;
    var error := PosInfinity;
    while Exceeds(error, tol) && iterations < maxIter
      invariant 0 <= iterations
      invariant x == Iterate(p, iterations) && error == ErrorAfter(p, iterations)
      invariant StopFrom(p, iterations) == Sweeps(p)
      decreases maxIter - iterations
    {
      x, error := JacobiStep(A, b, p, iterations, x, xNew);
      iterations := iterations + 1;
    }
    LoopExit(p, iterations);
    r := Outcome(x, iterations, error, AtMost(error, tol));
  }

  /** One turn of the Gauss-Seidel loop after k sweeps: keep a copy of x,
      sweep in place and measure the error. */
  method GaussSeidelStep(A: Matrix, b: seq<real>, ghost p: Problem, k: nat, x: array<real>)
    returns (error: Number)
    requires WellFormed(p) && p == Problem(GaussSeidel, Infinity, A, b, p.x0, p.tol, p.maxIter)
    requires Continues(p, k) && x[..] == Iterate(p, k)
    modifies x
    ensures x[..] == Iterate(p, k + 1) && error == ErrorAfter(p, k + 1)
    ensures StopFrom(p, k + 1) == StopFrom(p, k)
  {
    LoopStep(p, k);
    var xOld := x[..];
    GaussSeidelSweepInPlace(A, b, x);
    error := StepError(Infinity, xOld, x[..]);
  }

  /** Gauss-Seidel in place: row i is overwritten while the rows after it still
      hold the previous iterate, which is kept in xOld for the error. */
  method GaussSeidelSolve(A: Matrix, b: seq<real>, x0: seq<real>, tol: real, maxIter: int)
    returns (r: Outcome)
    requires WellPosed(A, b, x0)
    ensures r == Run(Problem(GaussSeidel, Infinity, A, b, x0, tol, maxIter))
  {
    ghost var p := Problem(GaussSeidel, Infinity, A, b, x0, tol, maxIter);
    var n := |A|;
    var x := new real[n](j requires 0 <= j < n => x0[j]);
    var iterations := 0;
    var error := PosInfinity;
    while Exceeds(error, tol) && iterations < maxIter
      invariant 0 <= iterations
      invariant x[..] == Iterate(p, iterations) && error == ErrorAfter(p, iterations)
      invariant StopFrom(p, iterations) == Sweeps(p)
      decreases maxIter - iterations
    {
      error := GaussSeidelStep(A, b, p, iterations, x);
      iterations := iterations + 1;
    }
    LoopExit(p, iterations);
    r := Outcome(x[..], iterations, error, AtMost(error, tol));
  }

  /** One turn of the SOR loop after k sweeps: keep a copy of x, sweep in
      place and measure the error. */
  method SorStep(A: Matrix, b: seq<real>, w: real, ghost p: Problem, k: nat, x: array<real>)
    returns (error: Number)
    requires WellFormed(p) && p == Problem(Sor(w), Infinity, A, b, p.x0, p.tol, p.maxIter)
    requires Continues(p, k) && x[..] == Iterate(p, k)
    modifies x
    ensures x[..] == Iterate(p, k + 1) && error == ErrorAfter(p, k + 1)
    ensures StopFrom(p, k + 1) == StopFrom(p, k)
  {
    LoopStep(p, k);
    var xOld := x[..];
    SorSweepInPlace(A, b, x, w);
    error := StepError(Infinity, xOld, x[..]);
  }

  /** SOR in place: row i becomes (1 - w) * x[i] + w * xNew, read while x[i]
      still holds the previous iterate's value. */
  method SorSolve(A: Matrix, b: seq<real>, x0: seq<real>, w: real, tol: real, maxIter: int)
    returns (r: Outcome, omega: real)
    requires WellPosed(A, b, x0)
    ensures r == Run(Problem(Sor(w), Infinity, A, b, x0, tol, maxIter))
    ensures omega == w
  {
    ghost var p := Problem(Sor(w), Infinity, A, b, x0, tol, maxIter);
    var n := |A|;
    var x := new real[n](j requires 0 <= j < n => x0[j]);
    var iterations := 0;
    var error := PosInfinity;
    while Exceeds(error, tol) && iterations < maxIter
      invariant 0 <= iterations
      invariant x[..] == Iterate(p, iterations) && error == ErrorAfter(p, iterations)
      invariant StopFrom(p, iterations) == Sweeps(p)
      decreases maxIter - iterations
    {
      error := SorStep(A, b, w, p, iterations, x);
      iterations := iterations + 1;
    }
    LoopExit(p, iterations);
    r := Outcome(x[..], iterations, error, AtMost(error, tol));
    omega := w;
  }

  /** Jacobi, Gauss-Seidel and SOR in that order on the same A, b, x0, tol and
      maxIter, each tagged with its name and its measured time; the three times
      are inputs. Only the SOR record carries omega. */
  method RunAll(A: Matrix, b: seq<real>, x0: seq<real>, w: real, tol: real, maxIter: int,
                jacobiTime: real, gaussTime: real, sorTime: real)
    returns (runs: seq<MethodRun>)
    requires WellPosed(A, b, x0)
    ensures |runs| == 3
    ensures runs[0] == MethodRun("Jacobi", PlainResult(Run(Problem(Jacobi, Infinity, A, b, x0, tol, maxIter))), jacobiTime)
    ensures runs[1] == MethodRun("Gauss-Seidel", PlainResult(Run(Problem(GaussSeidel, Infinity, A, b, x0, tol, maxIter))), gaussTime)
    ensures runs[2] == MethodRun("SOR", PlainResult(Run(Problem(Sor(w), Infinity, A, b, x0, tol, maxIter))).(omega := Some(w)), sorTime)
  {
    var jacobi := JacobiSolve(A, b, x0, tol, maxIter);
    var gauss := GaussSeidelSolve(A, b, x0, tol, maxIter);
    var sor, omega := SorSolve(A, b, x0, w, tol, maxIter);
    runs := [
      MethodRun("Jacobi", PlainResult(jacobi), jacobiTime),
      MethodRun("Gauss-Seidel", PlainResult(gauss), gaussTime),
      MethodRun("SOR", PlainResult(sor).(omega := Some(omega)), sorTime)
    ];
  }
}

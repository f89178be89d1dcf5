/** The iteration control that every solver shares: start from x0 with the
    error at +Infinity, sweep while `error > tol && iterations < maxIter`, and
    report `converged = error <= tol`. The functions here specify a whole run;
    the solver methods are proved to compute exactly this. */
module Iteration {
  import opened Numbers
  import opened Matrices
  import opened ErrorNorms
  import opened SweepRules

  datatype Method = Jacobi | GaussSeidel | Sor(omega: real)

  /** One solver invocation: the method, the error norm it selected, the
      system, the initial guess and the two stopping parameters. */
  datatype Problem = Problem(
    solver: Method, norm: Norm,
    A: Matrix, b: seq<real>, x0: seq<real>,
    tol: real, maxIter: int)

  predicate WellFormed(p: Problem) {
    WellPosed(p.A, p.b, p.x0)
  }

  function Sweep(p: Problem, x: seq<real>): (y: seq<real>)
    requires WellFormed(p) && |x| == |p.x0|
    ensures |y| == |x|
  {
    match p.solver
    case Jacobi => JacobiSweep(p.A, p.b, x)
    case GaussSeidel => GaussSeidelSweep(p.A, p.b, x)
    case Sor(w) => SorSweep(p.A, p.b, x, w)
  }

  /** The iterate after k sweeps. */
  function Iterate(p: Problem, k: nat): (x: seq<real>)
    requires WellFormed(p)
    ensures |x| == |p.x0|
  {
    if k == 0 then p.x0 else Sweep(p, Iterate(p, k - 1))
  }

  /** The value of `error` after k sweeps: the +Infinity sentinel before the
      first one, then the norm of the last change. */
  function ErrorAfter(p: Problem, k: nat): Number
    requires WellFormed(p)
  {
    if k == 0 then PosInfinity else StepError(p.norm, Iterate(p, k - 1), Iterate(p, k))
  }

  /** The loop guard after k sweeps. */
  predicate Continues(p: Problem, k: nat)
    requires WellFormed(p)
  {
    Exceeds(ErrorAfter(p, k), p.tol) && k < p.maxIter
  }

  /** The first k' >= k with k' >= bound or g(k') false: where a loop
      `while k < bound && g(k) { k := k + 1; }` entered at k stops. */
  function FirstStop(g: nat -> bool, k: nat, bound: int): (s: nat)
    decreases bound - k
  {
    if k < bound && g(k) then FirstStop(g, k + 1, bound) else k
  }

  /** Such a loop never stops before where it starts, and stops where its guard fails. */
  lemma {:induction false} FirstStopStops(g: nat -> bool, k: nat, bound: int)
    ensures k <= FirstStop(g, k, bound)
    ensures !(FirstStop(g, k, bound) < bound && g(FirstStop(g, k, bound)))
    decreases bound - k
  {
    if k < bound && g(k) {
      FirstStopStops(g, k + 1, bound);
    }
  }

  /** Every step from its start up to its stop passes the guard. */
  lemma {:induction false} FirstStopContinues(g: nat -> bool, k: nat, j: nat, bound: int)
    requires k <= j < FirstStop(g, k, bound)
    ensures j < bound && g(j)
    decreases bound - k
  {
    if k < j {
      FirstStopContinues(g, k + 1, j, bound);
    }
  }

  /** Steps that pass the guard leave the stopping point where it was. */
  lemma {:induction false} FirstStopSkips(g: nat -> bool, j: nat, k: nat, bound: int)
    requires j <= k && (j == k || k <= bound)
    requires forall i :: j <= i < k ==> g(i)
    ensures FirstStop(g, j, bound) == FirstStop(g, k, bound)
    decreases k - j
  {
    if j < k {
      assert g(j);
      FirstStopSkips(g, j + 1, k, bound);
    }
  }

  /** The error half of the loop guard, `error > tol`, after k sweeps. */
  function Unconverged(p: Problem): nat -> bool {
    (k: nat) => WellFormed(p) && Exceeds(ErrorAfter(p, k), p.tol)
  }

  /** The number of sweeps done when the loop is entered with k sweeps done. */
  function StopFrom(p: Problem, k: nat): nat
    requires WellFormed(p)
  {
    FirstStop(Unconverged(p), k, p.maxIter)
  }

  /** The number of sweeps the whole run performs. */
  function Sweeps(p: Problem): nat
    requires WellFormed(p)
  {
    StopFrom(p, 0)
  }

  datatype IterationRecord = IterationRecord(iteration: int, solution: seq<real>, error: Number)

  /** What a run returns, before the per-component extras. */
  datatype Outcome = Outcome(solution: seq<real>, iterations: nat, error: Number, converged: bool)

  function Run(p: Problem): Outcome
    requires WellFormed(p)
  {
    var k := Sweeps(p);
    Outcome(Iterate(p, k), k, ErrorAfter(p, k), AtMost(ErrorAfter(p, k), p.tol))
  }

  /** The sequence [f(1), ..., f(k)] built by pushing f(j) after step j. */
  function Pushes<T>(f: nat --> T, k: nat): (s: seq<T>)
    requires forall j :: 1 <= j <= k ==> f.requires(j)
    ensures |s| == k
  {
    if k == 0 then [] else Pushes(f, k - 1) + [f(k)]
  }

  /** Later pushes never change an earlier element: element i is f(i + 1). */
  lemma {:induction false} PushesElements<T>(f: nat --> T, k: nat)
    requires forall j :: 1 <= j <= k ==> f.requires(j)
    ensures forall i :: 0 <= i < k ==> Pushes(f, k)[i] == f(i + 1)
  {
    if k > 0 {
      PushesElements(f, k - 1);
      assert forall i :: 0 <= i < k - 1 ==> Pushes(f, k)[i] == Pushes(f, k - 1)[i];
    }
  }

  /** The record pushed after sweep k: its number, a copy of the iterate and
      the error. */
  function Record(p: Problem): nat --> IterationRecord {
    (k: nat) requires WellFormed(p) => IterationRecord(k, Iterate(p, k), ErrorAfter(p, k))
  }

  /** The records pushed during the first k sweeps. */
  function HistoryUpTo(p: Problem, k: nat): (h: seq<IterationRecord>)
    requires WellFormed(p)
    ensures |h| == k
  {
    Pushes(Record(p), k)
  }

  /** The history the per-method components return: one record per sweep. */
  function History(p: Problem): seq<IterationRecord>
    requires WellFormed(p)
  {
    HistoryUpTo(p, Sweeps(p))
  }

  /** A push after sweep k + 1 extends the history by that sweep's record. */
  lemma HistoryGrows(p: Problem, k: nat)
    requires WellFormed(p)
    ensures HistoryUpTo(p, k + 1) == HistoryUpTo(p, k) + [IterationRecord(k + 1, Iterate(p, k + 1), ErrorAfter(p, k + 1))]
  {
  }

  /** Record i of the first k sweeps is numbered i + 1 and holds sweep
      i + 1's iterate and error. */
  lemma HistoryRecords(p: Problem, k: nat)
    requires WellFormed(p)
    ensures forall i :: 0 <= i < k ==>
      HistoryUpTo(p, k)[i] == IterationRecord(i + 1, Iterate(p, i + 1), ErrorAfter(p, i + 1))
  {
    PushesElements(Record(p), k);
  }

  lemma StopFromStops(p: Problem, k: nat)
    requires WellFormed(p)
    ensures k <= StopFrom(p, k)
    ensures !Continues(p, StopFrom(p, k))
  {
    FirstStopStops(Unconverged(p), k, p.maxIter);
  }

  lemma StopFromContinues(p: Problem, k: nat, j: nat)
    requires WellFormed(p) && k <= j < StopFrom(p, k)
    ensures Continues(p, j)
  {
    FirstStopContinues(Unconverged(p), k, j, p.maxIter);
  }

  lemma StopFromSkips(p: Problem, j: nat, k: nat)
    requires WellFormed(p) && j <= k
    requires forall i :: j <= i < k ==> Continues(p, i)
    ensures StopFrom(p, j) == StopFrom(p, k)
  {
    forall i: nat | j <= i < k ensures Unconverged(p)(i) {
      assert Continues(p, i);
    }
    if j < k {
      assert Continues(p, k - 1);
    }
    FirstStopSkips(Unconverged(p), j, k, p.maxIter);
  }

  /** A run whose guard holds before k sweeps and fails after them does k sweeps. */
  lemma SweepsIsStop(p: Problem, k: nat)
    requires WellFormed(p)
    requires forall i :: 0 <= i < k ==> Continues(p, i)
    requires !Continues(p, k)
    ensures Sweeps(p) == k
  {
    StopFromSkips(p, 0, k);
  }

  /** One turn of the solver loop: when the guard holds after k sweeps, the
      next sweep produces Iterate(p, k + 1) and its error, and the run's count
      is unchanged. */
  lemma LoopStep(p: Problem, k: nat)
    requires WellFormed(p) && Continues(p, k)
    ensures Iterate(p, k + 1) == Sweep(p, Iterate(p, k))
    ensures ErrorAfter(p, k + 1) == StepError(p.norm, Iterate(p, k), Iterate(p, k + 1))
    ensures StopFrom(p, k + 1) == StopFrom(p, k)
  {
  }

  /** The loop's exit: when the guard fails after k sweeps, the run did k. */
  lemma LoopExit(p: Problem, k: nat)
    requires WellFormed(p) && !Continues(p, k)
    ensures StopFrom(p, k) == k
  {
  }

  /** The run stops at the first sweep count where the guard fails. */
  lemma SweepsIsFirstStop(p: Problem)
    requires WellFormed(p)
    ensures forall k :: 0 <= k < Sweeps(p) ==> Continues(p, k)
    ensures !Continues(p, Sweeps(p))
  {
    StopFromStops(p, 0);
    forall k | 0 <= k < Sweeps(p) ensures Continues(p, k) {
      StopFromContinues(p, 0, k);
    }
  }

  /** The run does at most max(maxIter, 0) sweeps, and because the error starts
      at +Infinity it does at least one whenever maxIter >= 1, whatever tol is. */
  lemma SweepsWithinBudget(p: Problem)
    requires WellFormed(p)
    ensures Sweeps(p) <= if p.maxIter > 0 then p.maxIter else 0
    ensures p.maxIter >= 1 ==> Sweeps(p) >= 1
    ensures p.maxIter <= 0 ==> Sweeps(p) == 0
  {
    SweepsIsFirstStop(p);
    if Sweeps(p) > 0 {
      assert Continues(p, Sweeps(p) - 1);
    }
  }

  /** `converged` is exactly `error <= tol`, and a run that stops before its
      budget is used up has either converged or hit a NaN error. */
  lemma RunExitReason(p: Problem)
    requires WellFormed(p)
    ensures Run(p).converged <==> AtMost(Run(p).error, p.tol)
    ensures Run(p).converged || Run(p).error.NaN? || Run(p).iterations >= p.maxIter
    ensures p.maxIter >= 0 && Run(p).iterations >= p.maxIter ==> Run(p).iterations == p.maxIter
  {
    SweepsIsFirstStop(p);
    SweepsWithinBudget(p);
    ExceedsOrAtMost(Run(p).error, p.tol);
  }

  /** Only the relative norm can make the error NaN. */
  lemma ErrorNaNOnlyRelative(p: Problem, k: nat)
    requires WellFormed(p)
    ensures ErrorAfter(p, k).NaN? ==> p.norm == Relative
  {
    if k > 0 && p.norm != Relative {
      StepErrorNotNaN(p.norm, Iterate(p, k - 1), Iterate(p, k));
    }
  }

  /** Under the infinity norm, with n >= 1 and one sweep done, the error is a
      finite non-negative number, and the run converged exactly when it is at
      most tol. */
  lemma RunInfinityNorm(p: Problem)
    requires WellFormed(p) && p.norm == Infinity && |p.x0| > 0 && p.maxIter >= 1
    ensures Run(p).error.Finite? && Run(p).error.value >= 0.0
    ensures Run(p).converged <==> Run(p).error.value <= p.tol
  {
    var k := Sweeps(p);
    var e := ErrorAfter(p, k);
    assert e.Finite? && e.value >= 0.0 by {
      SweepsWithinBudget(p);
      assert e == StepError(Infinity, Iterate(p, k - 1), Iterate(p, k));
      InfinityNormIsLargestChange(Iterate(p, k - 1), Iterate(p, k));
    }
    assert Run(p).error == e && Run(p).converged == AtMost(e, p.tol);
  }

  /** The history has one record per sweep, numbered 1..iterations in order,
      each holding that sweep's iterate and error; the last record is the
      returned solution and error, and without any sweep the solution is x0. */
  lemma HistoryMatchesRun(p: Problem)
    requires WellFormed(p)
    ensures |History(p)| == Run(p).iterations
    ensures forall k :: 0 <= k < |History(p)| ==>
      History(p)[k].iteration == k + 1 &&
      History(p)[k].solution == Iterate(p, k + 1) &&
      History(p)[k].error == ErrorAfter(p, k + 1)
    ensures |History(p)| > 0 ==>
      History(p)[|History(p)| - 1].solution == Run(p).solution &&
      History(p)[|History(p)| - 1].error == Run(p).error
    ensures |History(p)| == 0 ==> Run(p).solution == p.x0
  {
    HistoryRecords(p, Sweeps(p));
  }

  lemma {:induction false} SorOneIterates(p: Problem, k: nat)
    requires WellFormed(p) && p.solver == Sor(1.0)
    ensures WellFormed(p.(solver := GaussSeidel))
    ensures Iterate(p, k) == Iterate(p.(solver := GaussSeidel), k)
  {
    if k > 0 {
      SorOneIterates(p, k - 1);
      SorOmegaOne(p.A, p.b, Iterate(p, k - 1));
    }
  }

  lemma SorOneErrors(p: Problem, k: nat)
    requires WellFormed(p) && p.solver == Sor(1.0)
    ensures WellFormed(p.(solver := GaussSeidel))
    ensures ErrorAfter(p, k) == ErrorAfter(p.(solver := GaussSeidel), k)
  {
    SorOneIterates(p, k);
    if k > 0 {
      SorOneIterates(p, k - 1);
    }
  }

  lemma {:induction false} SorOneStops(p: Problem, k: nat)
    requires WellFormed(p) && p.solver == Sor(1.0)
    ensures WellFormed(p.(solver := GaussSeidel))
    ensures StopFrom(p, k) == StopFrom(p.(solver := GaussSeidel), k)
    decreases p.maxIter - k
  {
    SorOneErrors(p, k);
    if Continues(p, k) {
      SorOneStops(p, k + 1);
    }
  }

  /** Over the reals an SOR run with w == 1 is a Gauss-Seidel run: same number
      of sweeps, same solution, error and verdict. */
  lemma SorOneRunsAsGaussSeidel(p: Problem)
    requires WellFormed(p) && p.solver == Sor(1.0)
    ensures WellFormed(p.(solver := GaussSeidel))
    ensures Run(p) == Run(p.(solver := GaussSeidel))
  {
    SorOneStops(p, 0);
    SorOneIterates(p, Sweeps(p));
    SorOneErrors(p, Sweeps(p));
  }

  lemma {:induction false} SorOneHistoryUpTo(p: Problem, k: nat)
    requires WellFormed(p) && p.solver == Sor(1.0)
    ensures WellFormed(p.(solver := GaussSeidel))
    ensures HistoryUpTo(p, k) == HistoryUpTo(p.(solver := GaussSeidel), k)
  {
    if k > 0 {
      SorOneHistoryUpTo(p, k - 1);
      SorOneIterates(p, k);
      SorOneErrors(p, k);
    }
  }

  /** ... and the same history, record by record. */
  lemma SorOneHistoryAsGaussSeidel(p: Problem)
    requires WellFormed(p) && p.solver == Sor(1.0)
    ensures WellFormed(p.(solver := GaussSeidel))
    ensures History(p) == History(p.(solver := GaussSeidel))
  {
    SorOneStops(p, 0);
    SorOneHistoryUpTo(p, Sweeps(p));
  }

  lemma {:induction false} IterateOfSolution(p: Problem, k: nat)
    requires WellFormed(p) && Solves(p.A, p.x0, p.b)
    ensures Iterate(p, k) == p.x0
  {
    if k > 0 {
      IterateOfSolution(p, k - 1);
      match p.solver
      case Sor(w) => SolutionIsFixedPoint(p.A, p.b, p.x0, w);
      case _ => SolutionIsFixedPoint(p.A, p.b, p.x0, 1.0);
    }
  }

  /** Started at an exact solution with tol >= 0, every method stops after one
      sweep, converged, with the solution unchanged; under the relative norm
      this needs every component nonzero, since 0/0 makes the error NaN. */
  lemma SolutionStopsAtOnce(p: Problem)
    requires WellFormed(p) && Solves(p.A, p.x0, p.b)
    requires p.tol >= 0.0 && p.maxIter >= 1
    requires p.norm == Relative ==> forall i :: 0 <= i < |p.x0| ==> p.x0[i] != 0.0
    ensures Run(p) == Outcome(p.x0, 1, StepError(p.norm, p.x0, p.x0), true)
  {
    IterateOfSolution(p, 0);
    IterateOfSolution(p, 1);
    UnchangedPasses(p.norm, p.x0, p.tol);
    assert !Continues(p, 1);
    assert Continues(p, 0);
    assert StopFrom(p, 1) == 1;
  }

  lemma {:induction false} IdentityIterates(p: Problem, k: nat)
    requires |p.b| == |p.x0| && p.A == Identity(|p.x0|)
    requires p.solver == Jacobi || p.solver == GaussSeidel
    ensures WellFormed(p)
    ensures k >= 1 ==> Iterate(p, k) == p.b
  {
    SweepsOnIdentity(p.b, p.x0);
    if k > 1 {
      IdentityIterates(p, k - 1);
      SweepsOnIdentity(p.b, p.b);
    }
  }

  /** On the identity matrix Jacobi and Gauss-Seidel reach x = b in the first
      sweep, but the loop only sees that after a second one unless the first
      change is already within tol: with tol >= 0 and maxIter >= 2 a run takes one
      sweep exactly when |b - x0| passes tol, and two otherwise, converged. */
  lemma IdentityTakesAtMostTwo(p: Problem)
    requires |p.b| == |p.x0| && p.A == Identity(|p.x0|)
    requires p.solver == Jacobi || p.solver == GaussSeidel
    requires p.tol >= 0.0 && p.maxIter >= 2
    requires p.norm == Relative ==> forall i :: 0 <= i < |p.b| ==> p.b[i] != 0.0
    ensures WellFormed(p)
    ensures Run(p).solution == p.b && Run(p).converged
    ensures Run(p).iterations == if AtMost(StepError(p.norm, p.x0, p.b), p.tol) then 1 else 2
  {
    IdentityIterates(p, 1);
    IdentityIterates(p, 2);
    var first := StepError(p.norm, p.x0, p.b);
    UnchangedPasses(p.norm, p.b, p.tol);
    ExceedsOrAtMost(ErrorAfter(p, 2), p.tol);
    if p.norm == Relative {
      RelativeNormDivisionByZero(p.x0, p.b);
    } else {
      StepErrorNotNaN(p.norm, p.x0, p.b);
    }
    ExceedsOrAtMost(first, p.tol);
    assert Continues(p, 0);
    if AtMost(first, p.tol) {
      SweepsIsStop(p, 1);
    } else {
      SweepsIsStop(p, 2);
    }
  }

  /** With the relative norm, a zero entry of b keeps the identity system from
      converging: the first sweep reaches b, its error is NaN (x0 is 0 there
      too) or +Infinity, and the second sweep divides 0 by 0. The run returns
      b, not converged, after one sweep when the first error is NaN or the
      budget is one sweep, and after two otherwise, with a NaN error. */
  lemma IdentityZeroEntryRelative(p: Problem, z: nat)
    requires |p.b| == |p.x0| && p.A == Identity(|p.x0|)
    requires p.solver == Jacobi || p.solver == GaussSeidel
    requires p.norm == Relative && p.maxIter >= 1
    requires z < |p.b| && p.b[z] == 0.0
    ensures WellFormed(p)
    ensures Run(p).solution == p.b && !Run(p).converged
    ensures Run(p).iterations == if StepError(p.norm, p.x0, p.b).NaN? || p.maxIter == 1 then 1 else 2
    ensures p.maxIter >= 2 ==> Run(p).error.NaN?
  {
    IdentityIterates(p, 1);
    IdentityIterates(p, 2);
    var first := StepError(p.norm, p.x0, p.b);
    RelativeNormDivisionByZero(p.x0, p.b);
    RelativeNormDivisionByZero(p.b, p.b);
    assert ErrorAfter(p, 2).NaN?;
    assert first.NaN? || first.PosInfinity?;
    assert Continues(p, 0);
    if first.NaN? || p.maxIter == 1 {
      SweepsIsStop(p, 1);
    } else {
      SweepsIsStop(p, 2);
    }
  }

  /** On the identity an SOR run's first iterate is b exactly when w = 1 or
      x0 already was b: for w != 1 the first sweep stops short of b or
      overshoots it. */
  lemma SorIdentityFirstIterate(p: Problem, w: real)
    requires |p.b| == |p.x0| && p.A == Identity(|p.x0|) && p.solver == Sor(w)
    ensures WellFormed(p)
    ensures Iterate(p, 1) == p.b <==> w == 1.0 || p.x0 == p.b
  {
    SorSweepOnIdentity(p.b, p.x0, w);
  }
}

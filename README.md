# Iterative solvers for linear systems, modelled in Dafny

The application is a teaching web page. It solves a dense square system
A x = b with three iterative methods: Jacobi, Gauss-Seidel and SOR
(successive over-relaxation with factor ω).

- **Solvers.** Each method exists twice:
  - once inside the side-by-side run, which executes all three with the infinity norm;
  - once as its own component, with a selectable error norm, a per-iteration history and a diagnostic.
- **Shared iteration control.** Every solver follows the same loop:
  - start from x0 with `error = +Infinity`;
  - sweep while `error > tol && iterations < maxIter`;
  - report `converged = error <= tol`.
- **Report.** A generator picks the best converged method by iterations, by time and by error. It counts the converged runs and labels the SOR factor.
- **Page.** The chapter-2 page files each method's latest result under its name.
- **Matrix editor.** It keeps a 2..6-sized grid and serialises it into the comma/newline text the solvers parse.

## How the model is built

- **Numbers.** Vector and matrix entries are exact reals. Over the reals, the algebraic claims become provable:
  - SOR with ω = 1 is Gauss-Seidel;
  - the in-place and `x_new` forms of Gauss-Seidel agree;
  - each new component solves its row equation.

  The error scalar is a JavaScript-like `Number`:
  - a finite value, ±Infinity, NaN, or an exact square root (`SqrtOf`);
  - `Math.max`, `<`, `>` and `<=` are modelled on it, including NaN and the empty `Math.max()`.
- **The whole run.** It is specified once, as functions (module `Iteration`):
  - `Iterate(p, k)` is the iterate after k sweeps;
  - `ErrorAfter(p, k)` is the error after k sweeps;
  - `Sweeps(p)` is the number of sweeps the loop performs;
  - `Run(p)` is the returned record;
  - `History(p)` is the pushed records.
- **The six solver methods.** They are imperative Dafny with arrays and loop invariants. Each is proved to return exactly `Run(p)`, and `History(p)` where the component keeps one. Everything the loop promises is proved once, about those functions:
  - the budget;
  - the exit reasons;
  - the history numbering;
  - SOR(1) = Gauss-Seidel.
- **Report and page.** These are pure functions with lemmas.
- **Matrix editor.** It is a class whose methods update its fields.

One claim sometimes made about this system does not hold for the code as written. The claim is that every solver converges on the identity matrix in exactly one iteration. What the code does:

- **Jacobi and Gauss-Seidel** reach x = b in the first sweep. But the loop only sees a zero change in a second sweep, unless the first sweep's error already passes tol. That error is the selected norm of b − x0: max |b[i] − x0[i]| for the infinity norm, and max |(b[i] − x0[i]) / b[i]| for the relative one. `Iteration.IdentityTakesAtMostTwo` states this for tol ≥ 0 and maxIter ≥ 2, and, under the relative norm, for b with no zero entry.
- **Relative norm, b with a zero entry.** The run never converges. The first error is NaN or +Infinity, and a second sweep divides 0 by 0. The run returns b after one or two sweeps with converged = false (`Iteration.IdentityZeroEntryRelative`).
- **SOR with ω ≠ 1** does not reach b in the first sweep unless x0 = b. Each entry becomes x0[i] + ω·(b[i] − x0[i]) (`SweepRules.SorSweepOnIdentity`, `Iteration.SorIdentityFirstIterate`).

## Model

| member | source | states |
|---|---|---|
| Numbers.SquareSign | components/gauss-seidel-method.tsx:101 | a square `Math.pow(d, 2)` is non-negative and zero only for d = 0 |
| Numbers.Exceeds | components/simultaneous-execution.tsx:32 | definition: JavaScript's `error > tol` on the error value, false for NaN |
| Numbers.AtMost | components/simultaneous-execution.tsx:48 | definition: JavaScript's `error <= tol`, false for NaN |
| Numbers.Less | components/report-generator.tsx:28-38 | definition: JavaScript's `<` between two error values, false when either is NaN |
| Numbers.MaxOf | components/simultaneous-execution.tsx:43 | definition: `Math.max(...)` over error values, −Infinity for none and NaN if any is NaN |
| Numbers.ExceedsOrAtMost | components/simultaneous-execution.tsx:32-48 | the loop guard `error > tol` and the verdict `error <= tol` are complementary except on NaN, which fails both |
| Numbers.LessOnFinite | components/report-generator.tsx:28-30 | JavaScript `<` on finite numbers is the order of the reals |
| Numbers.LessWithSqrt | components/report-generator.tsx:38 | comparing a finite error with a Euclidean (square-root) error compares x with √s correctly |
| Numbers.LessIsStrictWeakOrder | components/report-generator.tsx:28-38 | without NaN, `<` is irreflexive, transitive and negatively transitive |
| Numbers.MaxOfFinite | components/simultaneous-execution.tsx:43 | `Math.max` of finite values is an upper bound that some argument attains |
| Numbers.MaxOfNaN | components/gauss-seidel-method.tsx:103 | `Math.max` is NaN exactly when some argument is NaN |
| Numbers.MaxOfPosInfinity | components/gauss-seidel-method.tsx:103 | without NaN, one +Infinity makes `Math.max` +Infinity |
| Matrices.DotAgrees | components/gauss-seidel-method.tsx:84-96 | a partial row sum depends only on the entries it reads |
| Matrices.DiagonalPart | components/jacobi-method.tsx:29 | definition: D keeps A[i][i] on the diagonal and is 0 elsewhere |
| Matrices.StrictLowerPart | components/jacobi-method.tsx:30 | definition: L is −A[i][j] below the diagonal (i > j) and 0 elsewhere |
| Matrices.StrictUpperPart | components/jacobi-method.tsx:31 | definition: U is −A[i][j] above the diagonal (i < j) and 0 elsewhere |
| Matrices.DiagonalInverse | components/jacobi-method.tsx:34 | definition: DInv is 1/D[i][i] on the diagonal and 0 elsewhere |
| Matrices.SplittingRecomposes | components/sor-method.tsx:70-72 | with D the diagonal, L minus the strict lower part and U minus the strict upper part, A = D − L − U entrywise |
| Matrices.DiagonalInverseIsInverse | components/jacobi-method.tsx:29-34 | `DInv` built as 1/d on the diagonal is the inverse of D: DInv·D = I |
| Matrices.OffDiagonalParts | components/jacobi-method.tsx:30-35 | `LplusU[i][j]` is −A[i][j] off the diagonal and 0 on it |
| Matrices.OffDiagonalAbsSumNonnegative | components/gauss-seidel-method.tsx:50-55 | the dominance row sum is non-negative |
| Matrices.DominantHasNonzeroDiagonal | components/gauss-seidel-method.tsx:56 | a strictly dominant matrix has a nonzero diagonal, so every sweep is defined |
| Matrices.StrictlyDiagonallyDominant | components/gauss-seidel-method.tsx:48-61 | definition: every row has \|A[i][i]\| > Σ_{j≠i} \|A[i][j]\| |
| Matrices.DiagonalMaxAbs | components/sor-method.tsx:78-79 | definition: `Math.max` of the \|A[i][i]\| |
| Matrices.DiagonalMaxAbsIsMaximum | components/sor-method.tsx:78-79 | the SOR "spectral radius" is the largest \|A[i][i]\|, attained on the diagonal; −Infinity for n = 0 |
| ErrorNorms.SumOfNonnegative | components/gauss-seidel-method.tsx:101 | a left-to-right sum of non-negative terms is non-negative, and zero iff every term is |
| ErrorNorms.AbsoluteOrRelative | components/jacobi-method.tsx:57-61 | the two-way selector gives the infinity norm exactly when the absolute option is chosen, and never the Euclidean norm |
| ErrorNorms.StepError | components/gauss-seidel-method.tsx:98-104 | definition: the error of one sweep under each of the three norms |
| ErrorNorms.SumOfSquaresNonnegative | components/gauss-seidel-method.tsx:101 | the Euclidean radicand is non-negative, and zero iff nothing changed |
| ErrorNorms.InfinityNormIsLargestChange | components/simultaneous-execution.tsx:43 | for n ≥ 1 the error is the largest \|x_new[i] − x_old[i]\|: finite, non-negative, attained, and zero iff nothing changed |
| ErrorNorms.EmptyMaxNorms | components/simultaneous-execution.tsx:43 | for n = 0 the max norms give −Infinity, which passes every tol |
| ErrorNorms.EuclideanNormFacts | components/gauss-seidel-method.tsx:100-101 | the Euclidean error is a valid root, zero iff nothing changed, and passes tol iff tol ≥ 0 and Σ Δ² ≤ tol² |
| ErrorNorms.RelativeNormIsLargestRatio | components/gauss-seidel-method.tsx:102-103 | with no zero component, the relative error is the largest \|Δ / x_new[i]\|, attained |
| ErrorNorms.RelativeNormDivisionByZero | components/jacobi-method.tsx:59-60 | the relative error is NaN iff some component is 0 in both iterates; otherwise a zero new component makes it +Infinity |
| ErrorNorms.StepErrorNotNaN | components/sor-method.tsx:55-56 | the infinity and Euclidean norms never give NaN |
| ErrorNorms.UnchangedPasses | components/gauss-seidel-method.tsx:98-104 | an unchanged iterate passes any tol ≥ 0 under every norm (relative: no zero component) |
| ErrorNorms.MaxOfValid | components/simultaneous-execution.tsx:43 | `Math.max` of plain numbers is never a square root |
| ErrorNorms.StepErrorValid | components/gauss-seidel-method.tsx:98-104 | every error a norm produces is a valid number |
| SweepRules.RelaxOfSame | components/simultaneous-execution.tsx:94 | blending a value with itself returns it, for every ω |
| SweepRules.RowSolve | components/simultaneous-execution.tsx:40 | definition: the row update (b[i] − Σ_{j≠i} A[i][j]·x[j]) / A[i][i] |
| SweepRules.Relax | components/simultaneous-execution.tsx:94 | definition: the SOR blend (1 − ω)·x[i] + ω·xNew |
| SweepRules.JacobiSweep | components/simultaneous-execution.tsx:33-41 | definition: every row solved against the previous iterate |
| SweepRules.GaussSeidelSweep | components/simultaneous-execution.tsx:60-68 | definition: the rows solved in place, in order |
| SweepRules.SorSweep | components/simultaneous-execution.tsx:86-95 | definition: the rows blended in place, in order |
| SweepRules.RelaxReachesTarget | components/simultaneous-execution.tsx:94 | a blend lands on its target exactly when ω = 1 or it started there |
| SweepRules.RelaxByOne | components/sor-method.tsx:52 | with ω = 1 the blend is the Gauss-Seidel value |
| SweepRules.RelaxScaled | components/sor-method.tsx:52 | `(1-w)*xOld[i] + (w/A[i][i])*(b[i]-sum)` is the blend of xOld[i] with (b[i]−sum)/A[i][i] |
| SweepRules.JacobiRowEquation | components/jacobi-method.tsx:53 | each Jacobi component solves A[i][i]·xNew[i] + Σ_{j≠i} A[i][j]·x[j] = b[i] against the previous iterate |
| SweepRules.GaussSeidelRowsUntouched | components/simultaneous-execution.tsx:60-68 | rows at or after i still hold the previous iterate when row i is computed in place |
| SweepRules.GaussSeidelRowsStable | components/simultaneous-execution.tsx:60-68 | a row written earlier in the sweep is not changed by later rows |
| SweepRules.GaussSeidelSweepForm | components/gauss-seidel-method.tsx:84-96 | the in-place sweep equals the `x_new` form: row i reads new values for j < i and old ones for j > i |
| SweepRules.JacobiRowsSolve | components/simultaneous-execution.tsx:33-41 | after the first k rows of a Jacobi sweep, row i < k holds its update against the previous iterate |
| SweepRules.JacobiSweepRow | components/jacobi-method.tsx:46-54 | row i of a whole Jacobi sweep is that row's update against the previous iterate |
| SweepRules.GaussSeidelRowEquation | components/gauss-seidel-method.tsx:95 | each Gauss-Seidel component satisfies A[i][i]·x_new[i] + sum1 + sum2 = b[i] |
| SweepRules.SorOmegaOneRows | components/simultaneous-execution.tsx:93-94 | SOR with ω = 1 performs the same row updates as Gauss-Seidel, row by row |
| SweepRules.SorOmegaOne | components/simultaneous-execution.tsx:93-94 | a whole SOR sweep with ω = 1 is the Gauss-Seidel sweep |
| SweepRules.SorRowsUntouched | components/simultaneous-execution.tsx:94 | at the blend, x[i] still holds the previous iterate's value |
| SweepRules.SorRowsStable | components/simultaneous-execution.tsx:86-95 | rows written earlier in an SOR sweep are not changed later |
| SweepRules.SorSweepForm | components/sor-method.tsx:43-53 | each SOR component is the blend of the old value with the split (new before i, old after i) row solve |
| SweepRules.RowSolveOfSolution | components/simultaneous-execution.tsx:40 | at an exact solution every row update returns the current value |
| SweepRules.GaussSeidelRowsOfSolution | components/simultaneous-execution.tsx:60-68 | the in-place Gauss-Seidel updates leave an exact solution unchanged |
| SweepRules.SorRowsOfSolution | components/simultaneous-execution.tsx:86-95 | the SOR updates leave an exact solution unchanged, for every ω |
| SweepRules.SolutionIsFixedPoint | components/simultaneous-execution.tsx:33-95 | an exact solution is a fixed point of all three sweeps |
| SweepRules.IdentityIsWellPosed | components/simultaneous-execution.tsx:40 | the identity system has a nonzero diagonal |
| SweepRules.RowSolveOnIdentity | components/simultaneous-execution.tsx:40 | on the identity a row update returns b[i] |
| SweepRules.DotAgreesOnZeroRow | components/simultaneous-execution.tsx:35-39 | a sum over columns where the row is zero is zero |
| SweepRules.GaussSeidelRowsOnIdentity | components/simultaneous-execution.tsx:60-68 | on the identity, after i in-place rows, x = b[..i] + x[i..] |
| SweepRules.SweepsOnIdentity | components/simultaneous-execution.tsx:33-68 | on the identity, Jacobi and Gauss-Seidel reach b in one sweep |
| SweepRules.SorRowsOnIdentity | components/simultaneous-execution.tsx:86-95 | on the identity, after k in-place SOR rows, row i < k is the blend of x[i] with b[i] and later rows are untouched |
| SweepRules.SorSweepOnIdentity | components/simultaneous-execution.tsx:86-95 | on the identity an SOR sweep gives x[i] + ω·(b[i] − x[i]) per row, and lands on b exactly when ω = 1 or x = b |
| Iteration.HistoryGrows | components/gauss-seidel-method.tsx:106-111 | a push adds one record numbered k + 1 with that sweep's iterate and error, keeping the earlier ones |
| Iteration.Sweeps | components/simultaneous-execution.tsx:29-46 | definition: the number of turns the guarded loop makes from 0 |
| Iteration.Run | components/simultaneous-execution.tsx:25-49 | definition: the iterate, the count, the error and `error <= tol` after those turns |
| Iteration.History | components/gauss-seidel-method.tsx:106-111 | definition: the records pushed by those turns |
| Iteration.FirstStopStops | components/simultaneous-execution.tsx:32 | a guarded count-up loop stops no earlier than it starts, and its guard fails where it stops |
| Iteration.FirstStopContinues | components/simultaneous-execution.tsx:32 | every count before the stopping point is below the bound and passes the guard |
| Iteration.FirstStopSkips | components/simultaneous-execution.tsx:32 | counts that pass the guard do not move the stopping point |
| Iteration.PushesElements | components/gauss-seidel-method.tsx:107-111 | after k pushes, entry i is the record pushed on turn i + 1 |
| Iteration.HistoryRecords | components/gauss-seidel-method.tsx:106-111 | after k sweeps the history holds one record per sweep, entry i numbered i + 1 with that sweep's iterate and error |
| Iteration.StopFromStops | components/simultaneous-execution.tsx:32 | the loop never stops before the sweep it starts from, and its guard fails where it stops |
| Iteration.StopFromContinues | components/simultaneous-execution.tsx:32 | each sweep before the stopping point passed the guard |
| Iteration.StopFromSkips | components/simultaneous-execution.tsx:32 | sweeps that pass the guard do not change the stopping point |
| Iteration.SweepsIsStop | components/simultaneous-execution.tsx:32 | the sweep count is the first k where the guard fails |
| Iteration.LoopStep | components/simultaneous-execution.tsx:32-46 | one loop pass computes the next iterate and its error and keeps the stopping point |
| Iteration.LoopExit | components/simultaneous-execution.tsx:32 | when the guard fails after k sweeps, the run did k |
| Iteration.SweepsIsFirstStop | components/simultaneous-execution.tsx:32 | every sweep before the stop passed the guard, and the guard fails at the stop |
| Iteration.SweepsWithinBudget | components/simultaneous-execution.tsx:30-32 | iterations ≤ max(maxIter, 0); because of the +Infinity sentinel, maxIter ≥ 1 forces at least one sweep for every tol |
| Iteration.RunExitReason | components/simultaneous-execution.tsx:32-48 | converged iff error ≤ tol; on exit the run converged, hit NaN, or used the budget, and then iterations = maxIter |
| Iteration.ErrorNaNOnlyRelative | components/gauss-seidel-method.tsx:98-104 | only the relative norm can make a run's error NaN |
| Iteration.RunInfinityNorm | components/simultaneous-execution.tsx:43-48 | under the infinity norm, with n ≥ 1 and maxIter ≥ 1, the error is finite and non-negative, and converged iff it is ≤ tol |
| Iteration.HistoryMatchesRun | components/gauss-seidel-method.tsx:106-120 | the history has `iterations` records numbered 1..iterations with each sweep's iterate and error; the last is the returned solution and error; with no sweep the solution is x0 |
| Iteration.SorOneIterates | components/sor-method.tsx:52 | with ω = 1, SOR has the Gauss-Seidel iterates |
| Iteration.SorOneErrors | components/sor-method.tsx:55-59 | with ω = 1, SOR has the Gauss-Seidel errors |
| Iteration.SorOneStops | components/sor-method.tsx:42 | with ω = 1, SOR stops where Gauss-Seidel does |
| Iteration.SorOneHistoryUpTo | components/sor-method.tsx:61-67 | with ω = 1, the first k SOR history records are the first k Gauss-Seidel records |
| Iteration.SorOneRunsAsGaussSeidel | components/simultaneous-execution.tsx:77-101 | an SOR run with ω = 1 returns exactly the Gauss-Seidel run |
| Iteration.SorOneHistoryAsGaussSeidel | components/sor-method.tsx:61-67 | with ω = 1, the SOR history equals the Gauss-Seidel history record by record |
| Iteration.IterateOfSolution | components/simultaneous-execution.tsx:32-46 | every iterate from an exact solution is that solution |
| Iteration.SolutionStopsAtOnce | components/simultaneous-execution.tsx:30-48 | started at an exact solution with tol ≥ 0 and maxIter ≥ 1, a run stops after one sweep, converged, with x0 |
| Iteration.IdentityIterates | components/simultaneous-execution.tsx:33-68 | on the identity every iterate after the first sweep is b |
| Iteration.IdentityTakesAtMostTwo | components/simultaneous-execution.tsx:30-48 | on the identity, with tol ≥ 0 and maxIter ≥ 2, Jacobi/Gauss-Seidel return b, converged, after 1 sweep when the first change passes tol and 2 otherwise |
| Iteration.IdentityZeroEntryRelative | components/jacobi-method.tsx:43-71 | on the identity under the relative norm, a zero entry of b leaves the run unconverged at b: one sweep when the first error is NaN or the budget is 1, two otherwise, ending with a NaN error |
| Iteration.SorIdentityFirstIterate | components/sor-method.tsx:42-53 | on the identity an SOR run's first iterate is b exactly when ω = 1 or x0 = b |
| RowSums.OffDiagonalSum | components/simultaneous-execution.tsx:34-39 | the accumulated `sum` is Σ_{j≠i} A[i][j]·x[j] |
| RowSums.PartialDot | components/gauss-seidel-method.tsx:85-93 | `sum1`/`sum2` are the dot products over j < i and over i < j < n |
| RowSums.IsDiagonallyDominant | components/gauss-seidel-method.tsx:48-61 | true iff every row has \|A[i][i]\| > Σ_{j≠i} \|A[i][j]\|, returning false at the first failing row |
| SimultaneousExecution.JacobiSweepInto | components/simultaneous-execution.tsx:33-41 | the reused buffer is filled with the Jacobi sweep of x, which stays unchanged |
| SimultaneousExecution.GaussSeidelSweepInPlace | components/simultaneous-execution.tsx:60-68 | the in-place loop leaves the Gauss-Seidel sweep of the old x in the array |
| SimultaneousExecution.SorSweepInPlace | components/simultaneous-execution.tsx:86-95 | the in-place loop leaves the SOR sweep of the old x in the array |
| SimultaneousExecution.JacobiStep | components/simultaneous-execution.tsx:33-45 | one loop pass turns the iterate after k sweeps into the one after k + 1, with its error, and keeps the stopping point |
| SimultaneousExecution.GaussSeidelStep | components/simultaneous-execution.tsx:58-71 | one in-place pass leaves the iterate after k + 1 sweeps in the array, with its error, and keeps the stopping point |
| SimultaneousExecution.SorStep | components/simultaneous-execution.tsx:84-98 | one in-place SOR pass leaves the iterate after k + 1 sweeps in the array, with its error, and keeps the stopping point |
| SimultaneousExecution.JacobiSolve | components/simultaneous-execution.tsx:25-49 | returns the Jacobi run with the infinity norm |
| SimultaneousExecution.GaussSeidelSolve | components/simultaneous-execution.tsx:51-75 | returns the Gauss-Seidel run with the infinity norm |
| SimultaneousExecution.SorSolve | components/simultaneous-execution.tsx:77-101 | returns the SOR run with the infinity norm, and omega = w |
| SimultaneousExecution.RunAll | components/simultaneous-execution.tsx:104-146 | three records, Jacobi, Gauss-Seidel, SOR in that order, each the run on the same A, b, x0, tol, maxIter; only SOR carries omega |
| GaussSeidelMethod.GaussSeidelNorm | components/gauss-seidel-method.tsx:98-104 | "infinito" selects the infinity norm, "euclídea" the Euclidean, anything else the relative |
| GaussSeidelMethod.GaussSeidelSpectralRadius | components/gauss-seidel-method.tsx:63-79 | NaN iff n > 10 or the library failed; otherwise the library's value |
| GaussSeidelMethod.GaussSeidelSweepFresh | components/gauss-seidel-method.tsx:82-96 | the `x_new` loop computes the Gauss-Seidel sweep of x |
| GaussSeidelMethod.GaussSeidelStep | components/gauss-seidel-method.tsx:82-112 | one loop pass yields the next iterate and its error, pushes that sweep's record onto the history of k sweeps, and keeps the stopping point |
| GaussSeidelMethod.GaussSeidelSolve | components/gauss-seidel-method.tsx:27-124 | returns the run with the selected norm, its full history, the spectral radius and the dominance flag |
| SorMethod.SorNorm | components/sor-method.tsx:55-59 | "absolute" selects the infinity norm, anything else the relative, never the Euclidean |
| SorMethod.SorSweepScaled | components/sor-method.tsx:43-53 | the in-place loop with the `w / A[i][i]` update leaves the SOR sweep of the old x |
| SorMethod.SorStep | components/sor-method.tsx:43-67 | one in-place pass leaves the next iterate in the array, returns its error, pushes its record onto the history, and keeps the stopping point |
| SorMethod.SorSolve | components/sor-method.tsx:27-90 | returns the run with the selected norm, its history, omega = w and max \|A[i][i]\| as spectral radius |
| JacobiMethod.JacobiNorm | components/jacobi-method.tsx:57-61 | "Error Absoluto" selects the infinity norm, anything else the relative, never the Euclidean |
| JacobiMethod.JacobiSweepFresh | components/jacobi-method.tsx:44-54 | the fresh `xNew` is the Jacobi sweep of the previous x |
| JacobiMethod.JacobiStep | components/jacobi-method.tsx:44-70 | one loop pass yields the next iterate and its error, pushes its record onto the history of k sweeps, and keeps the stopping point |
| JacobiMethod.JacobiSolve | components/jacobi-method.tsx:25-84 | returns the run with the selected norm and its full history |
| Report.ConvergedRuns | components/report-generator.tsx:18 | the filter never lengthens the list |
| Report.ConvergedRunsMembers | components/report-generator.tsx:18 | the kept results are exactly the converged ones |
| Report.ConvergedRunsDistributes | components/report-generator.tsx:18 | the filter distributes over concatenation, so it keeps the converged runs in their order and with their multiplicity |
| Report.ConvergedRunsOfOne | components/report-generator.tsx:18 | a single run is kept exactly when it converged |
| Report.FirstMinIndex | components/report-generator.tsx:28-30 | the strict-`<` reduce ends on an index of the list |
| Report.FirstMinIndexIsFirstMinimum | components/report-generator.tsx:28-38 | without NaN keys, the reduce picks an element no other is below, and every earlier element is strictly above it |
| Report.GetBestMethod | components/report-generator.tsx:14-51 | null iff no results; "Ninguno" iff results exist and none converged; otherwise the three picks are converged results |
| Report.RecommendedMethod | components/report-generator.tsx:41 | definition: the method name of the run with the fewest iterations, or "Ninguno" |
| Report.Reason | components/report-generator.tsx:23-42 | definition: "Ningún método convergió", or the iteration sentence with the count |
| Report.BestByIterationsIsFewest | components/report-generator.tsx:27-30 | the recommended method is the first converged result with the fewest iterations |
| Report.BestByTimeIsFastest | components/report-generator.tsx:32-35 | the fastest is the first converged result with the smallest time |
| Report.BestByErrorIsSmallest | components/report-generator.tsx:37-38 | the most accurate is a converged result with no smaller error, and every earlier one has a strictly larger error |
| Report.ConvergedErrorIsNotNaN | components/report-generator.tsx:18 | a run reported converged has a non-NaN error, as the error criterion needs |
| Report.Decimal | components/report-generator.tsx:42 | the printed count is a non-empty string of decimal digits |
| Report.DecimalRoundTrip | components/report-generator.tsx:42 | the printed count reads back as the count |
| Report.ReasonStatesIterations | components/report-generator.tsx:40-42 | the reason is "Menor número de iteraciones (" + count + ")" with the recommended run's iteration count inside |
| Report.ConvergedCountBounds | components/report-generator.tsx:179 | the converged count is ≤ the number of results; it is 0 iff none converged and equal to it iff all did |
| Report.ConvergedCountAll | components/report-generator.tsx:179 | the count equals the number of results iff all converged |
| Report.ConvergedCount | components/report-generator.tsx:179 | definition: the length of the converged filter |
| Report.FindSor | components/report-generator.tsx:182-185 | `find` returns nothing iff no result is named "SOR", and otherwise a result named "SOR" from the list |
| Report.FindSorIsFirst | components/report-generator.tsx:182-185 | when no earlier result is named "SOR", `find` returns the i-th |
| Report.ExactlyOneOmegaLabel | components/report-generator.tsx:186-188 | exactly one of the ω = 1, ω < 1 and ω > 1 remarks applies, the one for ω's side of 1 |
| Report.OmegaLabels | components/report-generator.tsx:186-188 | definition: the remarks whose test ω === 1, ω < 1, ω > 1 passes |
| Report.SorRemarks | components/report-generator.tsx:182-189 | the SOR paragraph is absent iff no result is named "SOR" |
| Capitulo2Page.WithoutMethod | app/capitulo2/page.tsx:24 | the filter never lengthens the list |
| Capitulo2Page.WithoutMethodMembers | app/capitulo2/page.tsx:24 | the filter keeps exactly the records of other methods |
| Capitulo2Page.WithoutMethodDistributes | app/capitulo2/page.tsx:24 | the filter distributes over concatenation, so other methods keep their relative order |
| Capitulo2Page.WithoutMethodOfOthers | app/capitulo2/page.tsx:24 | a list with no record of that method is left unchanged |
| Capitulo2Page.WithoutMethodLength | app/capitulo2/page.tsx:24 | the filter removes exactly as many records as carry that name |
| Capitulo2Page.UpsertShape | app/capitulo2/page.tsx:22-27 | after an upsert the new record is last, no earlier record has its name, the earlier ones are the old records of other methods, and the length is old − count(name) + 1 |
| Capitulo2Page.WithoutMethodKeepsUnique | app/capitulo2/page.tsx:24 | filtering keeps the names unique |
| Capitulo2Page.UpsertKeepsNamesUnique | app/capitulo2/page.tsx:22-27 | at most one record per method name survives an upsert |
| Capitulo2Page.UpsertIdempotent | app/capitulo2/page.tsx:22-27 | delivering the same record twice gives the list after the first delivery |
| Capitulo2Page.Upsert | app/capitulo2/page.tsx:23-26 | definition: the records of other methods followed by the new record |
| Capitulo2Page.HandleMethodResult | app/capitulo2/page.tsx:22-27 | definition: a delivered record is upserted under its method name; the report flag is unchanged |
| Capitulo2Page.HandleSimultaneousResults | app/capitulo2/page.tsx:101 | definition: the side-by-side run replaces the list with its records |
| Capitulo2Page.CloseReport | app/capitulo2/page.tsx:129 | definition: the close button clears the report flag |
| Capitulo2Page.HandleGenerateReport | app/capitulo2/page.tsx:29-33 | the report opens iff it was open or there are results; the list is unchanged |
| Capitulo2Page.TransitionsKeepReportGuarded | app/capitulo2/page.tsx:29-33 | the report is only ever open over a non-empty list, through every page transition |
| TextFields.SplitWithoutSeparator | components/simultaneous-execution.tsx:108 | a text without the separator splits into itself |
| TextFields.Join | components/matrix-input-helper.tsx:84-85 | definition: JavaScript's `join(sep)` |
| TextFields.Split | components/simultaneous-execution.tsx:108-110 | definition: JavaScript's `split(sep)` on a one-character separator |
| TextFields.SplitAfterSeparator | components/simultaneous-execution.tsx:108 | splitting s + sep + t splits s and appends t |
| TextFields.SplitJoin | components/matrix-input-helper.tsx:84-85 | `split` undoes `join` when no part contains the separator |
| TextFields.NotInJoin | components/matrix-input-helper.tsx:84 | joining adds no character other than the separator |
| MatrixInput.ResizeKeepsAndPads | components/matrix-input-helper.tsx:29-40 | a resize keeps every cell below both sizes and makes every new cell 0, for the grid and the vector |
| MatrixInput.CellValue | components/matrix-input-helper.tsx:48 | definition: `Number.parseFloat(value) \|\| 0`, the parsed number or 0 when parsing gives NaN |
| MatrixInput.ResizeGrid | components/matrix-input-helper.tsx:29-35 | definition: the k × k grid keeps each old cell that fits and fills the rest with 0 |
| MatrixInput.ResizeVector | components/matrix-input-helper.tsx:38-40 | definition: the length-k vector keeps each old entry that fits and fills the rest with 0 |
| MatrixInput.MatrixText | components/matrix-input-helper.tsx:84 | definition: the rows joined by "," and then by "\n" |
| MatrixInput.ParseCells | components/simultaneous-execution.tsx:108 | definition: the solvers' split on "\n" and then on "," |
| MatrixInput.GrowThenShrink | components/matrix-input-helper.tsx:29-40 | growing and shrinking back restores the grid and the vector |
| MatrixInput.MatrixTextRoundTrip | components/matrix-input-helper.tsx:84 | splitting the serialised grid on "\n" and then "," gives back every cell string when none contains a separator |
| MatrixInput.MatrixInputHelper.constructor | components/matrix-input-helper.tsx:15-21 | the editor opens at size 3 with every value 0 |
| MatrixInput.MatrixInputHelper.UpdateSize | components/matrix-input-helper.tsx:23-44 | a size outside 2..6 changes nothing; any other size resizes the grid and vector, keeping old cells and zero-padding |
| MatrixInput.MatrixInputHelper.UpdateMatrixValue | components/matrix-input-helper.tsx:46-50 | only cell (i, j) changes, to the parsed value or 0 |
| MatrixInput.MatrixInputHelper.UpdateVectorValue | components/matrix-input-helper.tsx:52-56 | only entry i changes, to the parsed value or 0 |
| MatrixInput.MatrixInputHelper.GenerateMatrixStrings | components/matrix-input-helper.tsx:83-87 | when no printed number holds a separator, the solvers' parse of the handed-over texts gives back size rows of size printed coefficients and the size printed vector entries |
| MatrixInput.GeneratedMatrixParsesBack | components/matrix-input-helper.tsx:84 | the handed-over grid text parses back into size rows of size printed cells |
| MatrixInput.GeneratedVectorParsesBack | components/matrix-input-helper.tsx:85 | the vector text splits back into its printed entries |

## Left out

- Floating point: entries are exact reals, with no rounding, overflow or −0. Error values model ±Infinity, NaN and exact square roots, but no rounding.
- NaN or infinite matrix, vector or tol entries are not modelled. A NaN `maxIter` is not modelled either.
- A NaN ω (an unparsable factor) is not modelled: ω is a real. For a NaN ω the sweeps produce NaN, and none of the three SOR remarks of `Report.OmegaLabels` applies.
- The solvers require a square system with a nonzero diagonal and with b and x0 both of length n (`WellPosed`). The JavaScript does other things here, which this model excludes:
  - a zero diagonal makes it divide by zero and carry on with Infinity/NaN entries;
  - a shorter x0 makes it read `undefined` and compute NaN;
  - a longer x0 leaves the extra entries in the Gauss-Seidel and SOR solutions.
- GaussSeidelMethod.GaussSeidelSpectralRadius: the eigenvalue library (numericjs `eig`, `inv`, `dot`, `tri`, `triu`, `diag`) is a foreign call. Its value, or its failure, is an input (`library`).
- JacobiMethod.JacobiSolve: the constant `spectralRadius` string "Calculado internamente" is not carried; the result has no spectral radius.
- SorMethod.SorSolve: the unused matrix T is not computed, because nothing reads it.
- Jacobi's D, L, U, DInv and LplusU are modelled by the `Matrices` functions and lemmas. The solver loop does not compute them, because nothing reads them.
- Timing: `performance.now()` differences are inputs (`executionTime`, and the three times of `RunAll`).
- Parsing: `Number.parseFloat` and `parseInt` are inputs. `parseFloat(v) || 0` is modelled on an `Option<real>`, with None for NaN.
- Only the structural `split("\n")` / `split(",")` of the input text is modelled.
- The number-to-text conversion of the matrix editor is the `show` parameter.
- Report.Reason: the `toLowerCase()` of the recommendation sentence and all other rendering (JSX, `toFixed`) are left out.
- The per-method records passed to the page always carry the method name they are filed under. `Capitulo2Page.UpsertKeepsNamesUnique` assumes this.
- MatrixInput.MatrixInputHelper.UpdateMatrixValue: the shallow copy shares rows with the previous React state. Here the grid is a value and the update is a fresh grid. Out-of-grid indices are not modelled, because the editor only offers cells of the grid.
- Random matrix generation (`Math.random`), the derivative calculator (`eval`), the charts, the navigation and the other pages are not part of this model.
- The Python utilities (`utils/jacobi.py`, `utils/sor.py`) are not part of this model. They use numpy, pandas and matplotlib, and a strict `error < Tol` test.
- State management (`useState`, callbacks, re-rendering) is reduced to the class fields of the editor and the `PageState` value of the page.
- No concrete numeric example is proved (such as a particular 3×3 system). Only the all-inputs properties above are proved.

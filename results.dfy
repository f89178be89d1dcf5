/** The records the solvers hand to the page and the report. */
module Results {
  import opened Numbers
  import opened Iteration

  /** A solver's result object; the fields only some solvers fill are options. */
  datatype SolverResult = SolverResult(
    solution: seq<real>,
    iterations: nat,
    error: Number,
    converged: bool,
    history: Option<seq<IterationRecord>>,
    spectralRadius: Option<Number>,
    isDiagonallyDominant: Option<bool>,
    omega: Option<real>)

  /** A result tagged with the method's name and its measured execution time. */
  datatype MethodRun = MethodRun(name: string, result: SolverResult, executionTime: real)

  /** The plain result of a run, with none of the optional fields. */
  function PlainResult(o: Outcome): SolverResult {
    SolverResult(o.solution, o.iterations, o.error, o.converged, None, None, None, None)
  }

  /** The plain result of a run together with its iteration history. */
  function WithHistory(o: Outcome, h: seq<IterationRecord>): SolverResult {
    PlainResult(o).(history := Some(h))
  }
}

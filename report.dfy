/** The comparison report: the best method among the converged runs by three
    criteria, the recommendation text, the converged count and the label of
    the SOR relaxation factor. */
module Report {
  import opened Numbers
  import opened Iteration
  import opened Results

  /** The three things the report minimises over the converged runs. */
  datatype Criterion = ByIterations | ByTime | ByError

  /** The value a criterion compares with JavaScript's `<`. */
  function Key(c: Criterion, r: MethodRun): Number {
    match c
    case ByIterations => Finite(r.result.iterations as real)
    case ByTime => Finite(r.executionTime)
    case ByError => r.result.error
  }

  /** The runs that converged, in their original order. */
  function ConvergedRuns(runs: seq<MethodRun>): (c: seq<MethodRun>)
    ensures |c| <= |runs|
    decreases |runs|
  {
    if |runs| == 0 then []
    else
      var rest := ConvergedRuns(runs[..|runs| - 1]);
      var last := runs[|runs| - 1];
      if last.result.converged then rest + [last] else rest
  }

  /** The kept runs are exactly the converged ones. */
  lemma {:induction false} ConvergedRunsMembers(runs: seq<MethodRun>)
    ensures forall r :: r in ConvergedRuns(runs) <==> r in runs && r.result.converged
    decreases |runs|
  {
    if |runs| > 0 {
      ConvergedRunsMembers(runs[..|runs| - 1]);
      assert runs == runs[..|runs| - 1] + [runs[|runs| - 1]];
    }
  }

  /** The filter keeps order and multiplicity: it distributes over
      concatenation, and (ConvergedRunsOfOne) keeps a single run exactly when
      it converged. */
  lemma {:induction false} ConvergedRunsDistributes(a: seq<MethodRun>, b: seq<MethodRun>)
    ensures ConvergedRuns(a + b) == ConvergedRuns(a) + ConvergedRuns(b)
    decreases |b|
  {
    if |b| == 0 {
      assert a + b == a;
    } else {
      var bs := b[..|b| - 1];
      ConvergedRunsDistributes(a, bs);
      assert (a + b)[..|a + b| - 1] == a + bs;
      assert (a + b)[|a + b| - 1] == b[|b| - 1];
    }
  }

  lemma ConvergedRunsOfOne(r: MethodRun)
    ensures ConvergedRuns([r]) == if r.result.converged then [r] else []
  {
  }

  /** The index `reduce((best, current) => key(current) < key(best) ? current : best)`
      ends on: the fold starts at the first element and moves only on a strict
      improvement. */
  function FirstMinIndex(s: seq<MethodRun>, c: Criterion): (i: nat)
    requires |s| > 0
    ensures i < |s|
    decreases |s|
  {
    if |s| == 1 then 0
    else
      var j := FirstMinIndex(s[..|s| - 1], c);
      if Less(Key(c, s[|s| - 1]), Key(c, s[j])) then |s| - 1 else j
  }

  /** When no key is NaN, the fold picks a minimum, and the first one: no element
      is below it, and every element before it is strictly above it. */
  lemma {:induction false} FirstMinIndexIsFirstMinimum(s: seq<MethodRun>, c: Criterion)
    requires |s| > 0
    requires forall k :: 0 <= k < |s| ==> !Key(c, s[k]).NaN?
    ensures forall j :: 0 <= j < |s| ==> !Less(Key(c, s[j]), Key(c, s[FirstMinIndex(s, c)]))
    ensures forall j :: 0 <= j < FirstMinIndex(s, c) ==> Less(Key(c, s[FirstMinIndex(s, c)]), Key(c, s[j]))
    decreases |s|
  {
    if |s| > 1 {
      var prefix := s[..|s| - 1];
      var last := |s| - 1;
      var j := FirstMinIndex(prefix, c);
      FirstMinIndexIsFirstMinimum(prefix, c);
      assert forall k :: 0 <= k < last ==> s[k] == prefix[k];
      var i := FirstMinIndex(s, c);
      forall k | 0 <= k < |s|
        ensures !Less(Key(c, s[k]), Key(c, s[i]))
      {
        LessIsStrictWeakOrder(Key(c, s[k]), Key(c, s[last]), Key(c, s[j]));
      }
      forall k | 0 <= k < i
        ensures Less(Key(c, s[i]), Key(c, s[k]))
      {
        LessIsStrictWeakOrder(Key(c, s[last]), Key(c, s[j]), Key(c, s[k]));
      }
    }
  }

  /** The outcome of getBestMethod when some result exists: either no method
      converged ("Ninguno"), or the first-minimum converged run by each
      criterion. */
  datatype BestMethod =
    | NoneConverged
    | Best(byIterations: MethodRun, byTime: MethodRun, byError: MethodRun)

  /** getBestMethod: null for an empty list, "Ninguno" when nothing converged,
      otherwise the three first minima over the converged runs. */
  function GetBestMethod(runs: seq<MethodRun>): (b: Option<BestMethod>)
    ensures b.None? <==> |runs| == 0
    ensures b == Some(NoneConverged) <==> |runs| > 0 && forall r :: r in runs ==> !r.result.converged
    ensures b.Some? && b.value.Best? ==>
      && b.value.byIterations in runs && b.value.byIterations.result.converged
      && b.value.byTime in runs && b.value.byTime.result.converged
      && b.value.byError in runs && b.value.byError.result.converged
  {
    if |runs| == 0 then None
    else
      var c := ConvergedRuns(runs);
      ConvergedRunsMembers(runs);
      if |c| == 0 then
        assert forall r :: r in runs ==> !r.result.converged;
        Some(NoneConverged)
      else
        assert c[0] in runs && c[0].result.converged;
        Some(Best(c[FirstMinIndex(c, ByIterations)], c[FirstMinIndex(c, ByTime)], c[FirstMinIndex(c, ByError)]))
  }

  /** The recommended method is the converged run with the fewest iterations,
      the first one of them in the converged list. */
  lemma BestByIterationsIsFewest(runs: seq<MethodRun>)
    requires GetBestMethod(runs).Some? && GetBestMethod(runs).value.Best?
    ensures var c := ConvergedRuns(runs);
      var i := FirstMinIndex(c, ByIterations);
      && GetBestMethod(runs).value.byIterations == c[i]
      && RecommendedMethod(GetBestMethod(runs).value) == c[i].name
      && (forall j :: 0 <= j < |c| ==> c[i].result.iterations <= c[j].result.iterations)
      && (forall j :: 0 <= j < i ==> c[i].result.iterations < c[j].result.iterations)
  {
    var c := ConvergedRuns(runs);
    var i := FirstMinIndex(c, ByIterations);
    FirstMinIndexIsFirstMinimum(c, ByIterations);
    forall j | 0 <= j < |c|
      ensures c[i].result.iterations <= c[j].result.iterations
      ensures j < i ==> c[i].result.iterations < c[j].result.iterations
    {
      LessOnFinite(c[j].result.iterations as real, c[i].result.iterations as real);
      LessOnFinite(c[i].result.iterations as real, c[j].result.iterations as real);
    }
  }

  /** The fastest method is the converged run with the smallest time, the first
      one of them in the converged list. */
  lemma BestByTimeIsFastest(runs: seq<MethodRun>)
    requires GetBestMethod(runs).Some? && GetBestMethod(runs).value.Best?
    ensures var c := ConvergedRuns(runs);
      var i := FirstMinIndex(c, ByTime);
      && GetBestMethod(runs).value.byTime == c[i]
      && (forall j :: 0 <= j < |c| ==> c[i].executionTime <= c[j].executionTime)
      && (forall j :: 0 <= j < i ==> c[i].executionTime < c[j].executionTime)
  {
    var c := ConvergedRuns(runs);
    var i := FirstMinIndex(c, ByTime);
    FirstMinIndexIsFirstMinimum(c, ByTime);
    forall j | 0 <= j < |c|
      ensures c[i].executionTime <= c[j].executionTime
      ensures j < i ==> c[i].executionTime < c[j].executionTime
    {
      LessOnFinite(c[j].executionTime, c[i].executionTime);
      LessOnFinite(c[i].executionTime, c[j].executionTime);
    }
  }

  /** The most accurate method is a converged run whose final error no other
      converged error is below, and every converged run before it has a strictly
      larger error. This needs no NaN among the converged errors, which holds for
      every run of the solvers (ConvergedErrorIsNotNaN). */
  lemma BestByErrorIsSmallest(runs: seq<MethodRun>)
    requires GetBestMethod(runs).Some? && GetBestMethod(runs).value.Best?
    requires forall r :: r in runs && r.result.converged ==> !r.result.error.NaN?
    ensures var c := ConvergedRuns(runs);
      var i := FirstMinIndex(c, ByError);
      && GetBestMethod(runs).value.byError == c[i]
      && (forall j :: 0 <= j < |c| ==> !Less(c[j].result.error, c[i].result.error))
      && (forall j :: 0 <= j < i ==> Less(c[i].result.error, c[j].result.error))
  {
    var c := ConvergedRuns(runs);
    ConvergedRunsMembers(runs);
    assert forall k :: 0 <= k < |c| ==> c[k] in runs && c[k].result.converged;
    FirstMinIndexIsFirstMinimum(c, ByError);
  }

  /** A solver run that reports convergence has a number, not NaN, as its error. */
  lemma ConvergedErrorIsNotNaN(p: Problem)
    requires WellFormed(p)
    ensures Run(p).converged ==> !Run(p).error.NaN?
  {
    ExceedsOrAtMost(Run(p).error, p.tol);
  }

  /** The digits of n in base ten, most significant first, as `${n}` prints a
      non-negative integer. */
  function Decimal(n: nat): (s: string)
    ensures |s| >= 1
    ensures forall k :: 0 <= k < |s| ==> '0' <= s[k] <= '9'
    decreases n
  {
    if n < 10 then [('0' as int + n) as char]
    else Decimal(n / 10) + [('0' as int + n % 10) as char]
  }

  /** Reads a string of decimal digits back as a number. */
  function ParseDecimal(s: string): nat
    requires forall k :: 0 <= k < |s| ==> '0' <= s[k] <= '9'
    decreases |s|
  {
    if |s| == 0 then 0
    else ParseDecimal(s[..|s| - 1]) * 10 + (s[|s| - 1] as int - '0' as int)
  }

  /** The printed count is exactly the count. */
  lemma {:induction false} DecimalRoundTrip(n: nat)
    ensures ParseDecimal(Decimal(n)) == n
    decreases n
  {
    if n >= 10 {
      DecimalRoundTrip(n / 10);
      var s := Decimal(n);
      assert s[..|s| - 1] == Decimal(n / 10);
    }
  }

  /** The method named in the report's headline and recommendation. */
  function RecommendedMethod(b: BestMethod): string {
    match b
    case NoneConverged => "Ninguno"
    case Best(it, _, _) => it.name
  }

  /** The reason shown under the headline. */
  function Reason(b: BestMethod): string {
    match b
    case NoneConverged => "Ningún método convergió"
    case Best(it, _, _) => "Menor número de iteraciones (" + Decimal(it.result.iterations) + ")"
  }

  /** The reason for a best method names the recommended run's iteration count,
      which can be read back from the text between the parentheses. */
  lemma ReasonStatesIterations(b: BestMethod)
    requires b.Best?
    ensures var prefix := "Menor número de iteraciones (";
      var r := Reason(b);
      && |r| > |prefix| + 1
      && r[..|prefix|] == prefix && r[|r| - 1] == ')'
      && ParseDecimal(r[|prefix|..|r| - 1]) == b.byIterations.result.iterations
  {
    var prefix := "Menor número de iteraciones (";
    var digits := Decimal(b.byIterations.result.iterations);
    var r := Reason(b);
    assert r == prefix + digits + ")";
    assert r[|prefix|..|r| - 1] == digits;
    DecimalRoundTrip(b.byIterations.result.iterations);
  }

  /** `results.filter((r) => r.converged).length`. */
  function ConvergedCount(runs: seq<MethodRun>): nat {
    |ConvergedRuns(runs)|
  }

  /** The count is at most the number of results; it is zero exactly when no
      method converged, and equal to the number of results exactly when all did. */
  lemma ConvergedCountBounds(runs: seq<MethodRun>)
    ensures ConvergedCount(runs) <= |runs|
    ensures ConvergedCount(runs) == 0 <==> forall r :: r in runs ==> !r.result.converged
    ensures ConvergedCount(runs) == |runs| <==> forall r :: r in runs ==> r.result.converged
  {
    ConvergedCountAll(runs);
    ConvergedRunsMembers(runs);
    var c := ConvergedRuns(runs);
    if |c| > 0 {
      assert c[0] in c;
    }
  }

  lemma {:induction false} ConvergedCountAll(runs: seq<MethodRun>)
    ensures ConvergedCount(runs) == |runs| <==> forall r :: r in runs ==> r.result.converged
    decreases |runs|
  {
    if |runs| > 0 {
      var prefix := runs[..|runs| - 1];
      var last := runs[|runs| - 1];
      ConvergedCountAll(prefix);
      assert runs == prefix + [last];
      assert ConvergedRuns(runs) == if last.result.converged then ConvergedRuns(prefix) + [last] else ConvergedRuns(prefix);
      assert |ConvergedRuns(prefix)| <= |prefix|;
    }
  }

  /** `results.find((r) => r.method === "SOR")`: the first result named "SOR". */
  function FindSor(runs: seq<MethodRun>): (found: Option<MethodRun>)
    ensures found.None? <==> forall r :: r in runs ==> r.name != "SOR"
    ensures found.Some? ==> found.value in runs && found.value.name == "SOR"
    decreases |runs|
  {
    if |runs| == 0 then None
    else if runs[0].name == "SOR" then Some(runs[0])
    else
      assert forall r :: r in runs ==> r == runs[0] || r in runs[1..];
      FindSor(runs[1..])
  }

  /** The result found is the first one named "SOR": none before it is. */
  lemma {:induction false} FindSorIsFirst(runs: seq<MethodRun>, i: nat)
    requires i < |runs| && runs[i].name == "SOR"
    requires forall j :: 0 <= j < i ==> runs[j].name != "SOR"
    ensures FindSor(runs) == Some(runs[i])
    decreases i
  {
    if i > 0 {
      assert runs[0].name != "SOR";
      FindSorIsFirst(runs[1..], i - 1);
    }
  }

  /** The three remarks the report can append to the SOR factor. */
  datatype OmegaLabel = GaussSeidelEquivalent | UnderRelaxation | OverRelaxation

  /** The remarks shown for an omega: one test each for == 1, < 1 and > 1; a
      record without omega passes none of them. */
  function OmegaLabels(omega: Option<real>): set<OmegaLabel> {
    match omega
    case None => {}
    case Some(w) =>
      (if w == 1.0 then {GaussSeidelEquivalent} else {})
      + (if w < 1.0 then {UnderRelaxation} else {})
      + (if w > 1.0 then {OverRelaxation} else {})
  }

  /** Exactly one remark applies to a given omega, and it is the one for its
      side of 1. */
  lemma ExactlyOneOmegaLabel(w: real)
    ensures |OmegaLabels(Some(w))| == 1
    ensures GaussSeidelEquivalent in OmegaLabels(Some(w)) <==> w == 1.0
    ensures UnderRelaxation in OmegaLabels(Some(w)) <==> w < 1.0
    ensures OverRelaxation in OmegaLabels(Some(w)) <==> w > 1.0
  {
    if w == 1.0 {
      assert OmegaLabels(Some(w)) == {GaussSeidelEquivalent};
    } else if w < 1.0 {
      assert OmegaLabels(Some(w)) == {UnderRelaxation};
    } else {
      assert OmegaLabels(Some(w)) == {OverRelaxation};
    }
  }

  /** The SOR paragraph: absent when no result is named "SOR", otherwise the
      remarks for the first such result's omega. */
  function SorRemarks(runs: seq<MethodRun>): (remarks: Option<set<OmegaLabel>>)
    ensures remarks.None? <==> forall r :: r in runs ==> r.name != "SOR"
  {
    match FindSor(runs)
    case None => None
    case Some(r) => Some(OmegaLabels(r.result.omega))
  }
}

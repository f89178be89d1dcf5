/** The distance between two successive iterates that stops the loop. The
    infinity norm is the one every solver of the simultaneous run uses; the
    per-method components select one from the user's error-type string. */
module ErrorNorms {
  import opened Numbers

  datatype Norm =
    | Infinity    // max_i |x_new[i] - x_old[i]|
    | Euclidean   // sqrt(sum_i (x_new[i] - x_old[i])^2)
    | Relative    // max_i |(x_new[i] - x_old[i]) / x_new[i]|

  /** The two-way selector of the Jacobi and SOR components: the absolute
      (infinity) norm when the selector names it, otherwise the relative norm. */
  function AbsoluteOrRelative(isAbsolute: bool): (norm: Norm)
    ensures norm == Infinity <==> isAbsolute
    ensures norm != Euclidean
  {
    if isAbsolute then Infinity else Relative
  }

  /** |v - prev| per component, as the `map` before Math.max builds it. */
  function AbsoluteTerms(xNew: seq<real>, xOld: seq<real>): (t: seq<Number>)
    requires |xNew| == |xOld|
    ensures |t| == |xNew|
  {
    seq(|xNew|, i requires 0 <= i < |xNew| => Finite(Abs(xNew[i] - xOld[i])))
  }

  /** Math.abs((v - prev) / v): dividing by a zero component gives +Infinity,
      or NaN when the difference is zero as well. */
  function RelativeTerm(v: real, prev: real): Number {
    if v != 0.0 then Finite(Abs((v - prev) / v))
    else if v - prev == 0.0 then NaN
    else PosInfinity
  }

  function RelativeTerms(xNew: seq<real>, xOld: seq<real>): (t: seq<Number>)
    requires |xNew| == |xOld|
    ensures |t| == |xNew|
  {
    seq(|xNew|, i requires 0 <= i < |xNew| => RelativeTerm(xNew[i], xOld[i]))
  }

  /** Math.pow(v - prev, 2) per component. */
  function SquaredChanges(xNew: seq<real>, xOld: seq<real>): (t: seq<real>)
    requires |xNew| == |xOld|
    ensures |t| == |xNew|
  {
    seq(|xNew|, i requires 0 <= i < |xNew| => Pow(xNew[i] - xOld[i], 2))
  }

  /** A `reduce` that adds from the left, starting at 0. */
  function Sum(t: seq<real>): real {
    if |t| == 0 then 0.0 else Sum(t[..|t| - 1]) + t[|t| - 1]
  }

  /** The error of one sweep that turned xOld into xNew. */
  function StepError(norm: Norm, xOld: seq<real>, xNew: seq<real>): Number
    requires |xNew| == |xOld|
  {
    match norm
    case Infinity => MaxOf(AbsoluteTerms(xNew, xOld))
    case Euclidean => SqrtOf(Sum(SquaredChanges(xNew, xOld)))
    case Relative => MaxOf(RelativeTerms(xNew, xOld))
  }

  /** A sum of non-negative terms is non-negative, and zero exactly when every
      term is. */
  lemma {:induction false} SumOfNonnegative(t: seq<real>)
    requires forall i :: 0 <= i < |t| ==> t[i] >= 0.0
    ensures Sum(t) >= 0.0
    ensures Sum(t) == 0.0 <==> forall i :: 0 <= i < |t| ==> t[i] == 0.0
  {
    if |t| > 0 {
      var front := t[..|t| - 1];
      SumOfNonnegative(front);
      assert forall i :: 0 <= i < |front| ==> front[i] == t[i];
    }
  }

  /** The sum of squared changes is non-negative, and zero exactly when the
      two iterates are equal. */
  lemma SumOfSquaresNonnegative(xNew: seq<real>, xOld: seq<real>)
    requires |xNew| == |xOld|
    ensures Sum(SquaredChanges(xNew, xOld)) >= 0.0
    ensures Sum(SquaredChanges(xNew, xOld)) == 0.0 <==> xNew == xOld
  {
    var t := SquaredChanges(xNew, xOld);
    forall i | 0 <= i < |t| ensures t[i] >= 0.0 && (t[i] == 0.0 <==> xNew[i] == xOld[i]) {
      SquareSign(xNew[i] - xOld[i]);
    }
    SumOfNonnegative(t);
  }

  /** The infinity norm, for n >= 1, is the largest componentwise change:
      finite, non-negative, an upper bound on every |change|, attained, and
      zero exactly when nothing changed. */
  lemma InfinityNormIsLargestChange(xOld: seq<real>, xNew: seq<real>)
    requires |xNew| == |xOld| > 0
    ensures StepError(Infinity, xOld, xNew).Finite?
    ensures StepError(Infinity, xOld, xNew).value >= 0.0
    ensures forall i :: 0 <= i < |xNew| ==> Abs(xNew[i] - xOld[i]) <= StepError(Infinity, xOld, xNew).value
    ensures exists i :: 0 <= i < |xNew| && StepError(Infinity, xOld, xNew).value == Abs(xNew[i] - xOld[i])
    ensures StepError(Infinity, xOld, xNew).value == 0.0 <==> xNew == xOld
  {
    var t := AbsoluteTerms(xNew, xOld);
    MaxOfFinite(t);
    var e := MaxOf(t);
    forall i | 0 <= i < |xNew| ensures Abs(xNew[i] - xOld[i]) <= e.value {
      assert t[i].value == Abs(xNew[i] - xOld[i]);
    }
    var k :| 0 <= k < |t| && e == t[k];
    assert e.value == Abs(xNew[k] - xOld[k]);
    if e.value == 0.0 {
      assert forall i :: 0 <= i < |xNew| ==> xNew[i] == xOld[i];
    }
  }

  /** With n == 0 Math.max of nothing is -Infinity, which passes any tolerance. */
  lemma EmptyMaxNorms(xOld: seq<real>, xNew: seq<real>, norm: Norm, tol: real)
    requires |xNew| == |xOld| == 0 && norm != Euclidean
    ensures StepError(norm, xOld, xNew) == NegInfinity
    ensures AtMost(StepError(norm, xOld, xNew), tol)
  {
  }

  /** The Euclidean error is a valid square root whose radicand is zero exactly
      when nothing changed; it passes tol iff tol >= 0 and the sum of squares is
      at most tol^2. */
  lemma EuclideanNormFacts(xOld: seq<real>, xNew: seq<real>, tol: real)
    requires |xNew| == |xOld|
    ensures var e := StepError(Euclidean, xOld, xNew);
      && e.SqrtOf? && Valid(e)
      && (e.radicand == 0.0 <==> xNew == xOld)
      && (AtMost(e, tol) <==> tol >= 0.0 && e.radicand <= tol * tol)
  {
    SumOfSquaresNonnegative(xNew, xOld);
  }

  /** When no component of xNew is zero, the relative norm is the largest
      |change / new value|, attained at some component. */
  lemma RelativeNormIsLargestRatio(xOld: seq<real>, xNew: seq<real>)
    requires |xNew| == |xOld| > 0
    requires forall i :: 0 <= i < |xNew| ==> xNew[i] != 0.0
    ensures StepError(Relative, xOld, xNew).Finite?
    ensures forall i :: 0 <= i < |xNew| ==>
      Abs((xNew[i] - xOld[i]) / xNew[i]) <= StepError(Relative, xOld, xNew).value
    ensures exists i :: (0 <= i < |xNew| &&
      StepError(Relative, xOld, xNew).value == Abs((xNew[i] - xOld[i]) / xNew[i]))
  {
    var t := RelativeTerms(xNew, xOld);
    assert forall i :: 0 <= i < |t| ==> t[i].Finite?;
    MaxOfFinite(t);
    var e := MaxOf(t);
    forall i | 0 <= i < |xNew| ensures Abs((xNew[i] - xOld[i]) / xNew[i]) <= e.value {
      assert t[i].value == Abs((xNew[i] - xOld[i]) / xNew[i]);
    }
    var k :| 0 <= k < |t| && e == t[k];
    assert e.value == Abs((xNew[k] - xOld[k]) / xNew[k]);
  }

  /** The relative norm is NaN exactly when some component is 0 in both iterates
      (0/0); otherwise a zero new component with a nonzero change makes it +Infinity. */
  lemma RelativeNormDivisionByZero(xOld: seq<real>, xNew: seq<real>)
    requires |xNew| == |xOld|
    ensures StepError(Relative, xOld, xNew).NaN? <==>
      exists i :: 0 <= i < |xNew| && xNew[i] == 0.0 && xOld[i] == 0.0
    ensures ((forall i :: 0 <= i < |xNew| ==> !(xNew[i] == 0.0 && xOld[i] == 0.0)) &&
             (exists i :: 0 <= i < |xNew| && xNew[i] == 0.0))
      ==> StepError(Relative, xOld, xNew).PosInfinity?
  {
    var t := RelativeTerms(xNew, xOld);
    MaxOfNaN(t);
    assert forall i :: 0 <= i < |xNew| ==> (t[i].NaN? <==> xNew[i] == 0.0 && xOld[i] == 0.0);
    if (forall i :: 0 <= i < |xNew| ==> !(xNew[i] == 0.0 && xOld[i] == 0.0)) &&
       (exists i :: 0 <= i < |xNew| && xNew[i] == 0.0) {
      var k :| 0 <= k < |xNew| && xNew[k] == 0.0;
      assert t[k].PosInfinity?;
      MaxOfPosInfinity(t, k);
    }
  }

  /** Only the relative norm can produce NaN. */
  lemma StepErrorNotNaN(norm: Norm, xOld: seq<real>, xNew: seq<real>)
    requires |xNew| == |xOld| && norm != Relative
    ensures !StepError(norm, xOld, xNew).NaN?
  {
    if norm == Infinity {
      MaxOfNaN(AbsoluteTerms(xNew, xOld));
    }
  }

  /** An iterate that did not change passes any tol >= 0 under every norm,
      except that the relative norm of an unchanged zero component is 0/0. */
  lemma UnchangedPasses(norm: Norm, x: seq<real>, tol: real)
    requires tol >= 0.0
    requires norm == Relative ==> forall i :: 0 <= i < |x| ==> x[i] != 0.0
    ensures AtMost(StepError(norm, x, x), tol)
  {
    match norm
    case Infinity =>
      if |x| > 0 {
        InfinityNormIsLargestChange(x, x);
      }
    case Euclidean =>
      EuclideanNormFacts(x, x, tol);
    case Relative =>
      if |x| > 0 {
        RelativeNormIsLargestRatio(x, x);
        var t := RelativeTerms(x, x);
        var k :| 0 <= k < |x| && StepError(Relative, x, x).value == Abs((x[k] - x[k]) / x[k]);
      }
  }

  lemma {:induction false} MaxOfValid(s: seq<Number>)
    requires forall i :: 0 <= i < |s| ==> !s[i].SqrtOf?
    ensures !MaxOf(s).SqrtOf?
  {
    if |s| > 0 {
      MaxOfValid(s[..|s| - 1]);
    }
  }

  /** Every error the norms produce is a valid number. */
  lemma StepErrorValid(norm: Norm, xOld: seq<real>, xNew: seq<real>)
    requires |xNew| == |xOld|
    ensures Valid(StepError(norm, xOld, xNew))
  {
    match norm
    case Infinity => MaxOfValid(AbsoluteTerms(xNew, xOld));
    case Relative => MaxOfValid(RelativeTerms(xNew, xOld));
    case Euclidean => SumOfSquaresNonnegative(xNew, xOld);
  }
}

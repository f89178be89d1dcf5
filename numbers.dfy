/** The JavaScript numbers that the solvers' error values and the report's
    comparisons can hold. Vector and matrix entries are exact reals; only the
    error scalar can leave the reals: it starts at +Infinity, `Math.max()` of
    an empty list is -Infinity, the relative norm divides by a zero component
    (Infinity or NaN), and the Euclidean norm takes a square root, which is
    kept exact by remembering its radicand. */
module Numbers {

  datatype Option<+T> = None | Some(value: T)

  datatype Number =
    | Finite(value: real)
    | PosInfinity
    | NegInfinity
    | NaN
    | SqrtOf(radicand: real)   // Math.sqrt(radicand), the non-negative root

  /** No square root of a negative radicand is ever formed. */
  predicate Valid(a: Number) {
    a.SqrtOf? ==> a.radicand >= 0.0
  }

  function Abs(x: real): real {
    if x < 0.0 then -x else x
  }

  /** Math.pow(d, n) for a natural exponent n. */
  function Pow(d: real, n: nat): real {
    if n == 0 then 1.0 else d * Pow(d, n - 1)
  }

  /** A square is non-negative, and zero only for zero. */
  lemma SquareSign(d: real)
    ensures Pow(d, 2) >= 0.0
    ensures Pow(d, 2) == 0.0 <==> d == 0.0
  {
    assert Pow(d, 2) == d * Pow(d, 1) && Pow(d, 1) == d;
  }

  lemma DivCancel(p: real, a: real)
    requires a != 0.0
    ensures a * (p / a) == p
  {
  }

  lemma DivOfProduct(a: real, v: real)
    requires a != 0.0
    ensures (a * v) / a == v
  {
  }

  /** JavaScript's `a > t` against a real threshold (false for NaN). */
  predicate Exceeds(a: Number, t: real) {
    match a
    case Finite(v) => v > t
    case PosInfinity => true
    case NegInfinity => false
    case NaN => false
    case SqrtOf(s) => t < 0.0 || s > t * t
  }

  /** JavaScript's `a <= t` against a real threshold (false for NaN). */
  predicate AtMost(a: Number, t: real) {
    match a
    case Finite(v) => v <= t
    case PosInfinity => false
    case NegInfinity => true
    case NaN => false
    case SqrtOf(s) => t >= 0.0 && s <= t * t
  }

  /** The two comparisons are complementary except that NaN fails both, so a
      loop guarded by `error > tol` that stops on NaN reports `converged` false. */
  lemma ExceedsOrAtMost(a: Number, t: real)
    ensures AtMost(a, t) <==> !Exceeds(a, t) && !a.NaN?
    ensures a.NaN? ==> !AtMost(a, t) && !Exceeds(a, t)
  {
  }

  /** Position of a non-NaN number on the extended line: -Infinity, finite, +Infinity. */
  function Tier(a: Number): int {
    match a
    case NegInfinity => 0
    case PosInfinity => 2
    case _ => 1
  }

  /** For finite values, v * |v|; for a square root, its radicand. Both order
      finite values exactly as the values themselves (LessOnFinite, LessWithSqrt). */
  function SignedSquare(a: Number): real {
    match a
    case Finite(v) => v * Abs(v)
    case SqrtOf(s) => s
    case _ => 0.0
  }

  /** JavaScript's `a < b`: false whenever NaN is involved. */
  predicate Less(a: Number, b: Number) {
    && !a.NaN? && !b.NaN?
    && (Tier(a) < Tier(b) || (Tier(a) == 1 && Tier(b) == 1 && SignedSquare(a) < SignedSquare(b)))
  }

  lemma MulMonotone(c: real, a: real, b: real)
    requires 0.0 <= c && a <= b
    ensures c * a <= c * b
  {
  }

  lemma MulStrictlyMonotone(c: real, a: real, b: real)
    requires 0.0 < c && a < b
    ensures a * c < b * c
  {
  }

  lemma Negation(x: real)
    ensures x * (-x) == -(x * x) && (-x) * (-x) == x * x
  {
  }

  lemma SignedSquareMonotoneNonnegative(x: real, y: real)
    requires 0.0 <= x < y
    ensures x * Abs(x) < y * Abs(y)
  {
    MulMonotone(x, x, y);
    MulStrictlyMonotone(y, x, y);
  }

  lemma SignedSquareMonotoneNonpositive(x: real, y: real)
    requires x < y <= 0.0
    ensures x * Abs(x) < y * Abs(y)
  {
    var p, q := -x, -y;
    MulMonotone(q, q, p);
    MulStrictlyMonotone(p, q, p);
    assert Abs(x) == p && Abs(y) == q;
    Negation(x);
    Negation(y);
  }

  /** v * |v| is strictly increasing in v. */
  lemma SignedSquareStrictlyMonotone(x: real, y: real)
    requires x < y
    ensures x * Abs(x) < y * Abs(y)
  {
    if 0.0 <= x {
      SignedSquareMonotoneNonnegative(x, y);
    } else if y <= 0.0 {
      SignedSquareMonotoneNonpositive(x, y);
    } else {
      assert x * Abs(x) < 0.0;
      assert 0.0 < y * Abs(y);
    }
  }

  /** On finite values `<` is the order of the reals. */
  lemma LessOnFinite(x: real, y: real)
    ensures Less(Finite(x), Finite(y)) <==> x < y
  {
    if x < y {
      SignedSquareStrictlyMonotone(x, y);
    } else if y < x {
      SignedSquareStrictlyMonotone(y, x);
    }
  }

  /** A finite value against a square root: x < sqrt(s) iff x is negative or x*x < s. */
  lemma LessWithSqrt(x: real, s: real)
    requires s >= 0.0
    ensures Less(Finite(x), SqrtOf(s)) <==> x < 0.0 || x * x < s
    ensures Less(SqrtOf(s), Finite(x)) <==> x > 0.0 && s < x * x
  {
    if x < 0.0 {
      assert x * Abs(x) < 0.0;
    } else if x > 0.0 {
      assert x * Abs(x) == x * x;
    }
  }

  /** `<` is a strict weak order on the numbers apart from NaN: irreflexive,
      transitive, and when a < b every c lies above a or below b. */
  lemma LessIsStrictWeakOrder(a: Number, b: Number, c: Number)
    requires !a.NaN? && !b.NaN? && !c.NaN?
    ensures !Less(a, a)
    ensures Less(a, b) && Less(b, c) ==> Less(a, c)
    ensures Less(a, b) ==> Less(a, c) || Less(c, b)
  {
  }

  /** JavaScript's two-argument Math.max: NaN wins, otherwise the larger. */
  function Max(a: Number, b: Number): Number {
    if a.NaN? || b.NaN? then NaN
    else if Less(a, b) then b
    else a
  }

  /** JavaScript's Math.max(...s), folded from the left; -Infinity when s is empty. */
  function MaxOf(s: seq<Number>): Number {
    if |s| == 0 then NegInfinity
    else Max(MaxOf(s[..|s| - 1]), s[|s| - 1])
  }

  /** Over finite values Math.max is the largest value: an upper bound that is attained. */
  lemma {:induction false} MaxOfFinite(s: seq<Number>)
    requires |s| > 0
    requires forall i :: 0 <= i < |s| ==> s[i].Finite?
    ensures MaxOf(s).Finite?
    ensures forall i :: 0 <= i < |s| ==> s[i].value <= MaxOf(s).value
    ensures exists i :: 0 <= i < |s| && MaxOf(s) == s[i]
  {
    var last := s[|s| - 1];
    if |s| == 1 {
      assert MaxOf(s[..0]) == NegInfinity;
      assert MaxOf(s) == s[0];
    } else {
      var front := s[..|s| - 1];
      MaxOfFinite(front);
      var m := MaxOf(front);
      var i0 :| 0 <= i0 < |front| && m == front[i0];
      LessOnFinite(m.value, last.value);
      if Less(m, last) {
        assert MaxOf(s) == s[|s| - 1];
      } else {
        assert MaxOf(s) == s[i0];
      }
      forall i | 0 <= i < |s| ensures s[i].value <= MaxOf(s).value {
        if i < |s| - 1 {
          assert s[i] == front[i];
        }
      }
    }
  }

  /** Math.max is NaN exactly when some argument is NaN. */
  lemma {:induction false} MaxOfNaN(s: seq<Number>)
    ensures MaxOf(s).NaN? <==> exists i :: 0 <= i < |s| && s[i].NaN?
  {
    if |s| > 0 {
      var front := s[..|s| - 1];
      MaxOfNaN(front);
      if exists i :: 0 <= i < |front| && front[i].NaN? {
        var i :| 0 <= i < |front| && front[i].NaN?;
        assert s[i].NaN?;
      }
      if exists i :: 0 <= i < |s| && s[i].NaN? {
        var i :| 0 <= i < |s| && s[i].NaN?;
        if i < |s| - 1 {
          assert front[i].NaN?;
        }
      }
    }
  }

  /** Without NaN, one +Infinity argument makes Math.max +Infinity. */
  lemma {:induction false} MaxOfPosInfinity(s: seq<Number>, k: nat)
    requires k < |s| && s[k].PosInfinity?
    requires forall i :: 0 <= i < |s| ==> !s[i].NaN?
    ensures MaxOf(s).PosInfinity?
  {
    var front := s[..|s| - 1];
    MaxOfNaN(front);
    if k < |s| - 1 {
      assert front[k].PosInfinity?;
      MaxOfPosInfinity(front, k);
    }
  }
}

/** The bounded numeric generator spec: a (min, max) pair kept ordered under
    two disciplines. Setting one bound alone (`Min`, `Max`) never fails and
    pushes the other bound out of the way when they collide; setting both
    (`Range`) assigns them and then rejects an inverted pair. Every call hands
    back the spec it was made on, so calls chain. */
module ComparableNumberSpec {
  import opened Wrappers
  import opened ApiValidator
  import NumberUtils

  /** Constants.RANGE_ADJUSTMENT_PERCENTAGE. Its value lives outside this
      model; no property proved here depends on it. */
  const RangeAdjustmentPercentage: int := 50

  datatype Spec = Spec(min: int, max: int, nullable: bool)

  predicate Ordered(s: Spec) {
    s.min <= s.max
  }

  /** The spec after a call, together with what the call returned: the spec
      itself (a fluent self-return) or the error it raised. */
  datatype Call = Call(spec: Spec, returned: Result<Spec, ApiError>)

  /** `min(x)`: the minimum becomes x; the maximum is kept unless x reaches
      it, in which case it moves strictly above x. */
  function Min(s: Spec, x: int): (c: Call)
    ensures c.returned == Success(c.spec)
    ensures c.spec.min == x
    ensures x >= s.max ==> c.spec.max > x
    ensures x < s.max ==> c.spec.max == s.max
    ensures c.spec.nullable == s.nullable
  {
    var withMin := s.(min := x);
    var adjusted := withMin.(max := NumberUtils.CalculateNewMax(s.max, x, RangeAdjustmentPercentage));
    Call(adjusted, Success(adjusted))
  }

  /** `max(x)`: the maximum becomes x; the minimum is kept unless x reaches
      down to it, in which case it moves strictly below x. */
  function Max(s: Spec, x: int): (c: Call)
    ensures c.returned == Success(c.spec)
    ensures c.spec.max == x
    ensures x <= s.min ==> c.spec.min < x
    ensures x > s.min ==> c.spec.min == s.min
    ensures c.spec.nullable == s.nullable
  {
    var withMax := s.(max := x);
    var adjusted := withMax.(min := NumberUtils.CalculateNewMin(s.min, x, RangeAdjustmentPercentage));
    Call(adjusted, Success(adjusted))
  }

  /** `range(lo, hi)`: both bounds are assigned first and only then checked,
      so a rejected call still leaves (lo, hi) in the spec. */
  function Range(s: Spec, lo: int, hi: int): (c: Call)
    ensures c.spec.min == lo && c.spec.max == hi && c.spec.nullable == s.nullable
    ensures c.returned.Success? <==> lo <= hi
    ensures c.returned.Success? ==> c.returned.value == c.spec
    ensures c.returned.Failure? ==> c.returned.error == InvalidRange(lo, hi)
  {
    var updated := s.(min := lo, max := hi);
    match IsTrue(lo <= hi, InvalidRange(lo, hi))
    case None => Call(updated, Success(updated))
    case Some(e) => Call(updated, Failure(e))
  }

  /** One call of the implicit, single-bound API. */
  datatype Adjustment = SetMin(x: int) | SetMax(x: int)

  function Apply(s: Spec, a: Adjustment): Spec {
    match a
    case SetMin(x) => Min(s, x).spec
    case SetMax(x) => Max(s, x).spec
  }

  /** The spec after the adjustments, made in order. */
  function ApplyAll(s: Spec, adjustments: seq<Adjustment>): Spec
    decreases |adjustments|
  {
    if |adjustments| == 0 then s
    else ApplyAll(Apply(s, adjustments[0]), adjustments[1..])
  }

  /** A single implicit call always leaves the bounds ordered, whatever the
      state it started from. */
  lemma SingleAdjustmentOrders(s: Spec, a: Adjustment)
    ensures Ordered(Apply(s, a))
  {
  }

  /** Starting from ordered bounds, any sequence of `min(x)` / `max(x)` calls
      ends with ordered bounds. */
  lemma {:induction false} ImplicitAdjustmentsKeepOrder(s: Spec, adjustments: seq<Adjustment>)
    requires Ordered(s)
    ensures Ordered(ApplyAll(s, adjustments))
    decreases |adjustments|
  {
    if |adjustments| > 0 {
      SingleAdjustmentOrders(s, adjustments[0]);
      ImplicitAdjustmentsKeepOrder(Apply(s, adjustments[0]), adjustments[1..]);
    }
  }

  /** Even from inverted bounds, at least one implicit call repairs the order. */
  lemma {:induction false} ImplicitAdjustmentsRepairOrder(s: Spec, adjustments: seq<Adjustment>)
    requires |adjustments| > 0
    ensures Ordered(ApplyAll(s, adjustments))
  {
    SingleAdjustmentOrders(s, adjustments[0]);
    ImplicitAdjustmentsKeepOrder(Apply(s, adjustments[0]), adjustments[1..]);
  }

  /** The implicit calls never touch the nullable flag. */
  lemma {:induction false} ImplicitAdjustmentsKeepNullable(s: Spec, adjustments: seq<Adjustment>)
    ensures ApplyAll(s, adjustments).nullable == s.nullable
    decreases |adjustments|
  {
    if |adjustments| > 0 {
      ImplicitAdjustmentsKeepNullable(Apply(s, adjustments[0]), adjustments[1..]);
    }
  }

  /** Setting a strictly smaller minimum and a larger maximum one at a time,
      in either order, lands on the same bounds as `range(lo, hi)`. */
  lemma SeparateBoundsMatchRange(s: Spec, lo: int, hi: int)
    requires lo < hi
    ensures Max(Min(s, lo).spec, hi).spec == Range(s, lo, hi).spec
    ensures Min(Max(s, hi).spec, lo).spec == Range(s, lo, hi).spec
  {
  }

  /** A rejected `range` leaves the spec holding the inverted bounds it was
      given: the assignment happens before the check. */
  lemma RejectedRangeLeavesBoundsInverted(s: Spec, lo: int, hi: int)
    requires lo > hi
    ensures Range(s, lo, hi).returned.Failure?
    ensures !Ordered(Range(s, lo, hi).spec)
  {
  }

  /** Raising the minimum of [10, 20] to 25 pushes the maximum above 25; a
      following `range(5, 3)` is rejected and leaves (5, 3) behind. */
  lemma RaiseMinThenInvertedRange(nullable: bool)
    ensures var raised := Min(Spec(10, 20, nullable), 25).spec;
      && raised.min == 25 && raised.max > 25
      && Range(raised, 5, 3).returned == Failure(InvalidRange(5, 3))
      && Range(raised, 5, 3).spec == Spec(5, 3, nullable)
  {
  }
}

/**
 * The boundary-value provider: it picks one of four boundary categories with configurable
 * weights and turns the category into a value for the parameter's kind. Every random draw is
 * an argument: `roll` is `nextInt(100)`, `coin` is `nextBoolean()`, `pick` feeds a ranged draw.
 */
module BoundaryValue {
  import opened Wrappers
  import opened Parameters

  datatype BoundaryType = ExactBoundary | JustInside | JustOutside | InRange

  /** What the provider hands back for a parameter. */
  datatype GeneratedValue =
    | NumberBoundary(kind: BoundaryType)   // numeric generation works on doubles and is not modelled
    | BoolValue(b: bool)
    | StringOfLength(length: nat)          // a random string of exactly this length
    | TextValue(text: string)              // a fixed string
    | IntValue(i: int)
    | NullValue
    | RangeRejected                        // a ranged draw whose bound is not above its origin

  /**
   * The category the cumulative thresholds select for a roll. The sums are Java `int` sums;
   * the in-range weight takes no part: IN_RANGE is whatever lies above the third threshold.
   */
  function TypeForRoll(boundary: Int32, justInside: Int32, justOutside: Int32, roll: int): BoundaryType
  {
    var c1 := boundary;
    var c2 := Add32(c1, justInside);
    var c3 := Add32(c2, justOutside);
    if roll < c1 then ExactBoundary
    else if roll < c2 then JustInside
    else if roll < c3 then JustOutside
    else InRange
  }

  /** The lowest roll that selects `t` when no threshold sum overflows. */
  function Low(b: int, i: int, o: int, t: BoundaryType): int
  {
    match t
    case ExactBoundary => 0
    case JustInside => b
    case JustOutside => b + i
    case InRange => b + i + o
  }

  /** One above the highest roll in [0, 100) that selects `t`. */
  function High(b: int, i: int, o: int, t: BoundaryType): int
  {
    match t
    case ExactBoundary => b
    case JustInside => b + i
    case JustOutside => b + i + o
    case InRange => 100
  }

  /** How many of the rolls 0 .. n-1 select `t`. */
  function CountRolls(b: Int32, i: Int32, o: Int32, t: BoundaryType, n: nat): nat
  {
    if n == 0 then 0
    else CountRolls(b, i, o, t, n - 1) + (if TypeForRoll(b, i, o, n - 1) == t then 1 else 0)
  }

  function Max(a: int, b: int): int { if a < b then b else a }
  function Min(a: int, b: int): int { if a < b then a else b }

  /** With non-negative weights summing to at most 100, the rolls below n that select `t` are those of its band. */
  lemma {:induction false} CountRollsIsBand(b: Int32, i: Int32, o: Int32, t: BoundaryType, n: nat)
    requires 0 <= b && 0 <= i && 0 <= o && b + i + o <= 100 && n <= 100
    ensures CountRolls(b, i, o, t, n) == Max(0, Min(n, High(b, i, o, t)) - Low(b, i, o, t))
  {
    if n > 0 {
      CountRollsIsBand(b, i, o, t, n - 1);
    }
  }

  /**
   * Over the hundred equally likely rolls, each category is chosen exactly as often as its
   * weight says, and IN_RANGE takes the remainder whatever the in-range weight is.
   */
  lemma Distribution(b: Int32, i: Int32, o: Int32)
    requires 0 <= b && 0 <= i && 0 <= o && b + i + o <= 100
    ensures CountRolls(b, i, o, ExactBoundary, 100) == b
    ensures CountRolls(b, i, o, JustInside, 100) == i
    ensures CountRolls(b, i, o, JustOutside, 100) == o
    ensures CountRolls(b, i, o, InRange, 100) == 100 - b - i - o
  {
    CountRollsIsBand(b, i, o, ExactBoundary, 100);
    CountRollsIsBand(b, i, o, JustInside, 100);
    CountRollsIsBand(b, i, o, JustOutside, 100);
    CountRollsIsBand(b, i, o, InRange, 100);
  }

  /** A boundary weight of 100 makes every roll choose an exact boundary, whatever the other weights are. */
  lemma FullBoundaryWeight(i: Int32, o: Int32, roll: int)
    requires 0 <= roll < 100
    ensures TypeForRoll(100, i, o, roll) == ExactBoundary
  {
  }

  /** A boundary weight of 0 never chooses an exact boundary for a roll in [0, 100). */
  lemma ZeroBoundaryWeight(i: Int32, o: Int32, roll: int)
    requires 0 <= roll < 100
    ensures TypeForRoll(0, i, o, roll) != ExactBoundary
  {
  }

  /** The effective length bounds: the declared ones, min + 50 or 0 as defaults, [0, 100] without constraints, then ordered. */
  function EffectiveBounds(minLength: Option<Int32>, maxLength: Option<Int32>): (r: (Int32, Int32))
    ensures r.0 <= r.1
    ensures minLength.Some? && maxLength.Some? ==>
      r == (Min(minLength.value, maxLength.value), Max(minLength.value, maxLength.value))
    ensures minLength.Some? && maxLength.None? && minLength.value <= IntMax - 50 ==>
      r == (minLength.value, minLength.value + 50)
    ensures minLength.Some? && maxLength.None? && minLength.value > IntMax - 50 ==>
      r == (Add32(minLength.value, 50), minLength.value) && r.0 == minLength.value + 50 - 0x1_0000_0000
    ensures minLength.None? && maxLength.Some? ==> r == (Min(0, maxLength.value), Max(0, maxLength.value))
    ensures minLength.None? && maxLength.None? ==> r == (0, 100)
  {
    var (lo, hi) :=
      if minLength.Some? && maxLength.Some? then (minLength.value, maxLength.value)
      else if minLength.Some? then (minLength.value, Add32(minLength.value, 50))
      else if maxLength.Some? then (0, maxLength.value)
      else (0, 100);
    if lo > hi then (hi, lo) else (lo, hi)
  }

  /** Only a minimum length within 50 of the largest `int` makes the default maximum wrap (and the bounds swap). */
  lemma MinOnlyOverflow()
    ensures EffectiveBounds(Some(IntMax), None) == (IntMin + 49, IntMax)
  {
  }

  /**
   * The target length for bounds [lo, hi] and a category; `pick` is the ranged draw of IN_RANGE,
   * which is rejected when hi + 1 (a Java `int` sum) is not above lo.
   */
  function TargetLength(lo: Int32, hi: Int32, t: BoundaryType, coin: bool, pick: nat): Option<Int32>
    requires lo <= hi
  {
    match t
    case ExactBoundary => Some(if coin then lo else hi)
    case JustInside => Some(if coin then Min(hi, Add32(lo, 1)) else Max(lo, Add32(hi, -1)))
    case JustOutside => Some(if coin && lo > 0 then lo - 1 else Add32(hi, 1))
    case InRange =>
      var bound := Add32(hi, 1);
      if bound <= lo then None else Some(lo + pick % (bound - lo))
  }

  /** The length of the string generated for a string parameter: the target clamped at 0. */
  function BoundaryStringValue(minLength: Option<Int32>, maxLength: Option<Int32>, t: BoundaryType, coin: bool, pick: nat): GeneratedValue
  {
    var (lo, hi) := EffectiveBounds(minLength, maxLength);
    match TargetLength(lo, hi, t, coin, pick)
    case None => RangeRejected
    case Some(n) => StringOfLength(Max(0, n))
  }

  /** EXACT_BOUNDARY targets one of the two effective bounds. */
  lemma ExactTargetsABound(lo: Int32, hi: Int32, coin: bool, pick: nat)
    requires lo <= hi
    ensures TargetLength(lo, hi, ExactBoundary, coin, pick) == Some(lo) || TargetLength(lo, hi, ExactBoundary, coin, pick) == Some(hi)
  {
  }

  /** JUST_INSIDE stays within the bounds, and one step from a bound where the range allows it, unless the +-1 wraps. */
  lemma JustInsideWithinBounds(lo: Int32, hi: Int32, coin: bool, pick: nat)
    requires lo <= hi && lo < IntMax && IntMin < hi
    ensures TargetLength(lo, hi, JustInside, coin, pick).Some?
    ensures var n := TargetLength(lo, hi, JustInside, coin, pick).value;
      lo <= n <= hi && (lo < hi ==> n == if coin then lo + 1 else hi - 1)
  {
  }

  /** At the largest `int`, the +1 of JUST_INSIDE wraps and the target falls below the range. */
  lemma JustInsideWraps()
    ensures TargetLength(IntMax, IntMax, JustInside, true, 0) == Some(IntMin)
  {
  }

  /** JUST_OUTSIDE yields a string length outside the bounds when the maximum is below the largest `int`. */
  lemma JustOutsideLeavesBounds(minLength: Option<Int32>, maxLength: Option<Int32>, coin: bool, pick: nat)
    requires EffectiveBounds(minLength, maxLength).1 < IntMax
    ensures var v := BoundaryStringValue(minLength, maxLength, JustOutside, coin, pick);
      var (lo, hi) := EffectiveBounds(minLength, maxLength);
      v.StringOfLength? && (v.length < lo || hi < v.length)
  {
  }

  /** With the largest `int` as maximum length, max + 1 wraps and JUST_OUTSIDE yields the empty string, which is inside the bounds. */
  lemma JustOutsideAtIntMax()
    ensures BoundaryStringValue(None, Some(IntMax), JustOutside, false, 0) == StringOfLength(0)
  {
  }

  /** IN_RANGE draws a length inside the bounds if the maximum is below the largest `int`, and is rejected otherwise. */
  lemma InRangeWithinBounds(lo: Int32, hi: Int32, coin: bool, pick: nat)
    requires lo <= hi
    ensures var r := TargetLength(lo, hi, InRange, coin, pick);
      (r.Some? <==> hi < IntMax) && (r.Some? ==> lo <= r.value <= hi)
  {
  }

  /** Every string category except a rejected range produces a non-negative length (Math.max(0, target)). */
  lemma StringLengthNonNegative(minLength: Option<Int32>, maxLength: Option<Int32>, t: BoundaryType, coin: bool, pick: nat)
    ensures var v := BoundaryStringValue(minLength, maxLength, t, coin, pick);
      v.StringOfLength? || (v == RangeRejected && t == InRange)
  {
  }

  /** A draw in [lo, hi) from a non-negative `pick`, as java.util.Random.nextInt(origin, bound) gives. */
  function Ranged(lo: int, hi: int, pick: nat): (r: int)
    requires lo < hi
    ensures lo <= r < hi
  {
    lo + pick % (hi - lo)
  }

  /** The string for a generic parameter, which carries no length constraints. */
  function GenericStringValue(t: BoundaryType, coin: bool, pick: nat): (v: GeneratedValue)
    ensures t == ExactBoundary ==> v == TextValue("") || v == TextValue("a")
    ensures t == JustInside ==> v.StringOfLength? && 1 <= v.length < 10
    ensures t == JustOutside ==> v.StringOfLength? && 500 <= v.length < 1001
    ensures t == InRange ==> v.StringOfLength? && 5 <= v.length < 50
  {
    match t
    case ExactBoundary => if coin then TextValue("") else TextValue("a")
    case JustInside => StringOfLength(Ranged(1, 10, pick))
    case JustOutside => StringOfLength(Ranged(500, 1001, pick))
    case InRange => StringOfLength(Ranged(5, 50, pick))
  }

  class BoundaryValueParameterValueProvider {
    var boundaryProbability: Int32
    var justInsideProbability: Int32
    var justOutsideProbability: Int32
    var inRangeProbability: Int32

    /** The default distribution 30 / 30 / 20 / 20. */
    constructor ()
      ensures boundaryProbability == 30 && justInsideProbability == 30
      ensures justOutsideProbability == 20 && inRangeProbability == 20
    {
      boundaryProbability := 30;
      justInsideProbability := 30;
      justOutsideProbability := 20;
      inRangeProbability := 20;
    }

    /** Walks the cumulative thresholds with a Java `int` accumulator and returns the first one above the roll. */
    method SelectBoundaryType(roll: int) returns (t: BoundaryType)
      ensures t == TypeForRoll(boundaryProbability, justInsideProbability, justOutsideProbability, roll)
    {
      var cumulative: Int32 := 0;
      cumulative := Add32(cumulative, boundaryProbability);
      if roll < cumulative {
        return ExactBoundary;
      }
      cumulative := Add32(cumulative, justInsideProbability);
      if roll < cumulative {
        return JustInside;
      }
      cumulative := Add32(cumulative, justOutsideProbability);
      if roll < cumulative {
        return JustOutside;
      }
      return InRange;
    }

    /** The value for a leaf parameter, dispatched on its kind. */
    method GenerateValueFor(leaf: LeafKind, roll: int, coin: bool, pick: nat) returns (v: GeneratedValue)
      ensures var t := TypeForRoll(boundaryProbability, justInsideProbability, justOutsideProbability, roll);
        match leaf
        case NumberLeaf => v == NumberBoundary(t)
        case BooleanLeaf => v == BoolValue(coin)
        case StringLeaf(mn, mx) => v == BoundaryStringValue(mn, mx, t, coin, pick)
        case GenericLeaf => v == GenericStringValue(t, coin, pick)
        case NullLeaf => v == NullValue
        case OtherLeaf => v.IntValue? && -1000 <= v.i < 1001
    {
      match leaf
      case NumberLeaf =>
        var t := SelectBoundaryType(roll);
        v := NumberBoundary(t);
      case BooleanLeaf =>
        v := BoolValue(coin);
      case StringLeaf(mn, mx) =>
        var t := SelectBoundaryType(roll);
        v := BoundaryStringValue(mn, mx, t, coin, pick);
      case GenericLeaf =>
        var t := SelectBoundaryType(roll);
        v := GenericStringValue(t, coin, pick);
      case NullLeaf =>
        v := NullValue;
      case OtherLeaf =>
        v := IntValue(Ranged(-1000, 1001, pick));
    }

    method SetBoundaryProbability(p: Int32)
      modifies this
      ensures boundaryProbability == p
      ensures justInsideProbability == old(justInsideProbability) && justOutsideProbability == old(justOutsideProbability)
      ensures inRangeProbability == old(inRangeProbability)
    {
      boundaryProbability := p;
    }

    method SetJustInsideProbability(p: Int32)
      modifies this
      ensures justInsideProbability == p
      ensures boundaryProbability == old(boundaryProbability) && justOutsideProbability == old(justOutsideProbability)
      ensures inRangeProbability == old(inRangeProbability)
    {
      justInsideProbability := p;
    }

    method SetJustOutsideProbability(p: Int32)
      modifies this
      ensures justOutsideProbability == p
      ensures boundaryProbability == old(boundaryProbability) && justInsideProbability == old(justInsideProbability)
      ensures inRangeProbability == old(inRangeProbability)
    {
      justOutsideProbability := p;
    }

    method SetInRangeProbability(p: Int32)
      modifies this
      ensures inRangeProbability == p
      ensures boundaryProbability == old(boundaryProbability) && justInsideProbability == old(justInsideProbability)
      ensures justOutsideProbability == old(justOutsideProbability)
    {
      inRangeProbability := p;
    }
  }

  /**
   * The setters store any `int` unvalidated, each leaves the other weights alone, and the
   * getters (plain field reads) return what was stored.
   */
  method ProbabilitiesRoundTrip(b: Int32, i: Int32, o: Int32, r: Int32) returns (gb: Int32, gi: Int32, go: Int32, gr: Int32)
    ensures gb == b && gi == i && go == o && gr == r
  {
    var p := new BoundaryValueParameterValueProvider();
    p.SetBoundaryProbability(b);
    p.SetJustInsideProbability(i);
    p.SetJustOutsideProbability(o);
    p.SetInRangeProbability(r);
    gb, gi, go, gr := p.boundaryProbability, p.justInsideProbability, p.justOutsideProbability, p.inRangeProbability;
  }

  /** The default provider picks each category with its default weight out of a hundred rolls. */
  method DefaultDistribution() returns (p: BoundaryValueParameterValueProvider)
    ensures fresh(p)
    ensures CountRolls(p.boundaryProbability, p.justInsideProbability, p.justOutsideProbability, ExactBoundary, 100) == 30
    ensures CountRolls(p.boundaryProbability, p.justInsideProbability, p.justOutsideProbability, JustInside, 100) == 30
    ensures CountRolls(p.boundaryProbability, p.justInsideProbability, p.justOutsideProbability, JustOutside, 100) == 20
    ensures CountRolls(p.boundaryProbability, p.justInsideProbability, p.justOutsideProbability, InRange, 100) == 20
  {
    p := new BoundaryValueParameterValueProvider();
    Distribution(30, 30, 20);
  }
}

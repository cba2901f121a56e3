/**
 * The boundary-value priority provider: a primitive parameter goes to the boundary-value
 * provider with a configurable probability (40 by default); otherwise enum and example values
 * get an 80% chance, and the remaining cases pick one provider from the set of available ones.
 * Draws are arguments: `roll100` is `nextInt(100)`, `roll10` is `nextInt(10)`, `pickRoll` is
 * `nextInt(numEnums + numExamples)` and `elementIndex` feeds `nextElement`.
 */
module BoundaryValuePriority {
  import opened Wrappers
  import opened Parameters
  import EnumAndExamplePriority

  const ProbabilityRangeMessage: string := "Probability must be between 0 and 100"

  /** A string parameter has length constraints when either bound is present. */
  predicate HasLengthConstraints(minLength: Option<Int32>, maxLength: Option<Int32>)
  {
    minLength.Some? || maxLength.Some?
  }

  predicate IsPrimitive(leaf: LeafKind)
  {
    leaf.NumberLeaf? || leaf.BooleanLeaf? || (leaf.StringLeaf? && HasLengthConstraints(leaf.minLength, leaf.maxLength))
  }

  /** The two providers agree on which parameters are primitive. */
  lemma IsPrimitiveAgrees(leaf: LeafKind)
    ensures IsPrimitive(leaf) <==> EnumAndExamplePriority.IsPrimitiveType(leaf)
  {
  }

  /** The boundary provider is chosen exactly for primitive parameters whose roll is below the probability. */
  predicate UsesBoundary(leaf: LeafKind, probability: int, roll100: int)
  {
    IsPrimitive(leaf) && roll100 < probability
  }

  /** The number of rolls in [0, n) that send a primitive parameter to the boundary provider. */
  function BoundaryRolls(leaf: LeafKind, probability: int, n: nat): nat
  {
    if n == 0 then 0 else BoundaryRolls(leaf, probability, n - 1) + (if UsesBoundary(leaf, probability, n - 1) then 1 else 0)
  }

  lemma {:induction false} BoundaryRollsPrefix(leaf: LeafKind, probability: int, n: nat)
    requires 0 <= probability
    ensures BoundaryRolls(leaf, probability, n) == if IsPrimitive(leaf) then (if n < probability then n else probability) else 0
  {
    if n > 0 {
      BoundaryRollsPrefix(leaf, probability, n - 1);
    }
  }

  /** With a probability in [0, 100], a primitive parameter goes to the boundary provider on exactly that many of the hundred rolls, and a non-primitive one never. */
  lemma BoundaryShare(leaf: LeafKind, probability: int)
    requires 0 <= probability <= 100
    ensures BoundaryRolls(leaf, probability, 100) == if IsPrimitive(leaf) then probability else 0
  {
    BoundaryRollsPrefix(leaf, probability, 100);
  }

  /** The providers the last step picks from: both random providers, plus each countable provider that has values. */
  function FallbackProviders(counts: Counts): (s: set<Provider>)
    ensures RandomValue in s && NarrowRandom in s
    ensures DefaultValue in s <==> counts.defaults > 0
    ensures ResponseDictionary in s <==> counts.response > 0
    ensures LastResponseDictionary in s <==> counts.lastResponse > 0
    ensures Enum !in s && Examples !in s && BoundaryValue !in s
  {
    {RandomValue, NarrowRandom}
      + (if counts.defaults > 0 then {DefaultValue} else {})
      + (if counts.response > 0 then {ResponseDictionary} else {})
      + (if counts.lastResponse > 0 then {LastResponseDictionary} else {})
  }

  /** Every provider, in a fixed order used to index into a set. */
  const AllProviders: seq<Provider> :=
    [Enum, Examples, BoundaryValue, ResponseDictionary, LastResponseDictionary, RandomValue, NarrowRandom, DefaultValue]

  /** The members of s in the fixed order. */
  function Members(s: set<Provider>, order: seq<Provider>): (ms: seq<Provider>)
    ensures forall p :: p in ms <==> p in s && p in order
  {
    if |order| == 0 then []
    else (if order[0] in s then [order[0]] else []) + Members(s, order[1..])
  }

  lemma AllProvidersComplete(p: Provider)
    ensures p in AllProviders
  {
    match p
    case Enum => assert AllProviders[0] == p;
    case Examples => assert AllProviders[1] == p;
    case BoundaryValue => assert AllProviders[2] == p;
    case ResponseDictionary => assert AllProviders[3] == p;
    case LastResponseDictionary => assert AllProviders[4] == p;
    case RandomValue => assert AllProviders[5] == p;
    case NarrowRandom => assert AllProviders[6] == p;
    case DefaultValue => assert AllProviders[7] == p;
  }

  /** An element of the set chosen by the index, or nothing when the set is empty. */
  function NextElement(s: set<Provider>, index: nat): (r: Option<Provider>)
    ensures r.Some? <==> s != {}
    ensures r.Some? ==> r.value in s
  {
    var ms := Members(s, AllProviders);
    if |ms| == 0 then
      assert forall p :: p in s ==> p in ms by {
        forall p | p in s ensures p in ms {
          AllProvidersComplete(p);
        }
      }
      None
    else
      assert ms[0] in s;
      Some(ms[index % |ms|])
  }

  class BoundaryValuePriorityParameterValueProvider {
    var boundaryValueProbability: Int32

    ghost predicate Valid()
      reads this
    {
      0 <= boundaryValueProbability <= 100
    }

    constructor ()
      ensures boundaryValueProbability == 40 && Valid()
    {
      boundaryValueProbability := 40;
    }

    /** Rejects a probability outside [0, 100] and leaves the field alone; stores any other. */
    method SetBoundaryValueProbability(probability: Int32) returns (o: Outcome<string>)
      modifies this
      ensures probability < 0 || probability > 100 ==>
        o == Fail(ProbabilityRangeMessage) && boundaryValueProbability == old(boundaryValueProbability)
      ensures 0 <= probability <= 100 ==> o == Pass && boundaryValueProbability == probability
      ensures old(Valid()) ==> Valid()
    {
      if probability < 0 || probability > 100 {
        return Fail(ProbabilityRangeMessage);
      }
      boundaryValueProbability := probability;
      o := Pass;
    }

    /**
     * The provider chosen for a parameter: boundary, then enum or examples, then one of the
     * available others. Since the stored probability is in [0, 100], a primitive parameter
     * goes to the boundary provider on exactly that many of the hundred rolls.
     */
    method ProvideValueFor(leaf: LeafKind, counts: Counts, roll100: int, roll10: int, pickRoll: int, elementIndex: nat)
      returns (p: Provider)
      requires Valid()
      ensures p == BoundaryValue <==> UsesBoundary(leaf, boundaryValueProbability, roll100)
      ensures !UsesBoundary(leaf, boundaryValueProbability, roll100) ==> p == FallbackChoice(counts, roll10, pickRoll, elementIndex)
      ensures BoundaryRolls(leaf, boundaryValueProbability, 100) == if IsPrimitive(leaf) then boundaryValueProbability as int else 0
    {
      BoundaryShare(leaf, boundaryValueProbability as int);
      var isPrimitiveType := leaf.NumberLeaf? || leaf.BooleanLeaf?
        || (leaf.StringLeaf? && HasLengthConstraints(leaf.minLength, leaf.maxLength));
      if isPrimitiveType && roll100 < boundaryValueProbability {
        return BoundaryValue;
      }
      p := FallbackToOtherStrategies(counts, roll10, pickRoll, elementIndex);
    }
  }

  /** What the fallback picks, as a function of the draws. */
  function FallbackChoice(counts: Counts, roll10: int, pickRoll: int, elementIndex: nat): (p: Provider)
    ensures p != BoundaryValue
    ensures counts.enums + counts.examples > 0 && roll10 < 8 ==> (p == Enum <==> pickRoll < counts.enums) && (p == Enum || p == Examples)
    ensures !(counts.enums + counts.examples > 0 && roll10 < 8) ==> p in FallbackProviders(counts)
  {
    if counts.enums + counts.examples > 0 && roll10 < 8 then
      (if pickRoll < counts.enums then Enum else Examples)
    else
      NextElement(FallbackProviders(counts), elementIndex).value
  }

  /** Enum or examples with an 80% gate, else an element of the set of available providers, which is never empty. */
  method FallbackToOtherStrategies(counts: Counts, roll10: int, pickRoll: int, elementIndex: nat) returns (p: Provider)
    ensures p == FallbackChoice(counts, roll10, pickRoll, elementIndex)
  {
    if counts.enums + counts.examples > 0 && roll10 < 8 {
      if pickRoll < counts.enums {
        return Enum;
      } else {
        return Examples;
      }
    }
    var providers: set<Provider> := {};
    providers := providers + {RandomValue};
    providers := providers + {NarrowRandom};
    if counts.defaults > 0 {
      providers := providers + {DefaultValue};
    }
    if counts.response > 0 {
      providers := providers + {ResponseDictionary};
    }
    if counts.lastResponse > 0 {
      providers := providers + {LastResponseDictionary};
    }
    assert providers == FallbackProviders(counts);
    var chosen := NextElement(providers, elementIndex);
    p := chosen.value;
  }

  /** Probability 0 never chooses the boundary provider; probability 100 always does for a primitive parameter. */
  lemma ProbabilityExtremes(leaf: LeafKind, roll100: int)
    requires 0 <= roll100 < 100
    ensures !UsesBoundary(leaf, 0, roll100)
    ensures UsesBoundary(leaf, 100, roll100) <==> IsPrimitive(leaf)
  {
  }
}

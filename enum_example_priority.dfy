/**
 * The enum-and-example priority provider: with probability 60% it takes an enum or example
 * value when the parameter has some, and otherwise draws a provider from a weighted list.
 * Draws are arguments: `gateRoll` is `nextInt(100)`, `pickRoll` is `nextInt(numEnums + numExamples)`,
 * `roll` is `nextInt(totalWeight)`.
 */
module EnumAndExamplePriority {
  import opened Parameters

  const EnumExampleProbability: nat := 60
  const BoundaryWeight: nat := 50
  const ResponseDictWeight: nat := 40
  const LastResponseDictWeight: nat := 20
  const RandomWeight: nat := 10
  const NarrowRandomWeight: nat := 10
  const DefaultWeight: nat := 5

  datatype WeightedProvider = WeightedProvider(provider: Provider, weight: nat)

  /** Numbers and booleans, and strings that carry a length constraint. */
  predicate IsPrimitiveType(leaf: LeafKind)
  {
    match leaf
    case NumberLeaf => true
    case BooleanLeaf => true
    case StringLeaf(mn, mx) => mn.Some? || mx.Some?
    case _ => false
  }

  /** Sum of the weights. */
  function Total(ws: seq<WeightedProvider>): nat
  {
    if |ws| == 0 then 0 else ws[0].weight + Total(ws[1..])
  }

  /** Sum of the first k weights. */
  function PrefixSum(ws: seq<WeightedProvider>, k: nat): nat
    requires k <= |ws|
  {
    if k == 0 then 0 else ws[0].weight + PrefixSum(ws[1..], k - 1)
  }

  /** Sum of the weights given to provider p. */
  function WeightOf(ws: seq<WeightedProvider>, p: Provider): nat
  {
    if |ws| == 0 then 0 else (if ws[0].provider == p then ws[0].weight else 0) + WeightOf(ws[1..], p)
  }

  /**
   * The provider a roll lands on: the first entry whose weight, taken off the roll entry by
   * entry, exceeds what is left; the random provider when the roll is beyond the total.
   */
  function Choose(ws: seq<WeightedProvider>, roll: int): Provider
  {
    if |ws| == 0 then RandomValue
    else if roll < ws[0].weight then ws[0].provider
    else Choose(ws[1..], roll - ws[0].weight)
  }

  /** The weighted list, in the source's order, of the providers available for the parameter. */
  function WeightedProviders(leaf: LeafKind, counts: Counts): (ws: seq<WeightedProvider>)
  {
    Opt(IsPrimitiveType(leaf), WeightedProvider(BoundaryValue, BoundaryWeight))
      + Opt(counts.response > 0, WeightedProvider(ResponseDictionary, ResponseDictWeight))
      + Opt(counts.lastResponse > 0, WeightedProvider(LastResponseDictionary, LastResponseDictWeight))
      + [WeightedProvider(RandomValue, RandomWeight), WeightedProvider(NarrowRandom, NarrowRandomWeight)]
      + Opt(counts.defaults > 0, WeightedProvider(DefaultValue, DefaultWeight))
  }

  /** The weight the source configures for provider p, or 0 when p is not available for the parameter. */
  function ConfiguredWeight(leaf: LeafKind, counts: Counts, p: Provider): nat
  {
    match p
    case BoundaryValue => if IsPrimitiveType(leaf) then BoundaryWeight else 0
    case ResponseDictionary => if counts.response > 0 then ResponseDictWeight else 0
    case LastResponseDictionary => if counts.lastResponse > 0 then LastResponseDictWeight else 0
    case RandomValue => RandomWeight
    case NarrowRandom => NarrowRandomWeight
    case DefaultValue => if counts.defaults > 0 then DefaultWeight else 0
    case _ => 0
  }

  /** Each provider's weight in the list: its configured weight exactly when it is available. */
  lemma WeightedProvidersWeights(leaf: LeafKind, counts: Counts, p: Provider)
    ensures WeightOf(WeightedProviders(leaf, counts), p) == ConfiguredWeight(leaf, counts, p)
  {
    var b := Opt(IsPrimitiveType(leaf), WeightedProvider(BoundaryValue, BoundaryWeight));
    var r := Opt(counts.response > 0, WeightedProvider(ResponseDictionary, ResponseDictWeight));
    var l := Opt(counts.lastResponse > 0, WeightedProvider(LastResponseDictionary, LastResponseDictWeight));
    var x := [WeightedProvider(RandomValue, RandomWeight), WeightedProvider(NarrowRandom, NarrowRandomWeight)];
    var d := Opt(counts.defaults > 0, WeightedProvider(DefaultValue, DefaultWeight));
    WeightOfPieces(b, r, l, x, d, p);
    OptWeight(IsPrimitiveType(leaf), WeightedProvider(BoundaryValue, BoundaryWeight), p);
    OptWeight(counts.response > 0, WeightedProvider(ResponseDictionary, ResponseDictWeight), p);
    OptWeight(counts.lastResponse > 0, WeightedProvider(LastResponseDictionary, LastResponseDictWeight), p);
    OptWeight(counts.defaults > 0, WeightedProvider(DefaultValue, DefaultWeight), p);
    PairWeight(x[0], x[1], p);
    assert x == [x[0], x[1]];
  }

  // Proof helper: the weight of a two-entry list.
  lemma PairWeight(a: WeightedProvider, b: WeightedProvider, p: Provider)
    ensures WeightOf([a, b], p) == (if a.provider == p then a.weight else 0) + (if b.provider == p then b.weight else 0)
  {
    assert [a, b][1..] == [b];
    assert [b][1..] == [];
    assert WeightOf([b], p) == (if b.provider == p then b.weight else 0) + WeightOf([], p);
  }

  /** The total weight of the list is 20 plus the weights of the available optional providers. */
  lemma WeightedProvidersTotal(leaf: LeafKind, counts: Counts)
    ensures Total(WeightedProviders(leaf, counts)) == RandomWeight + NarrowRandomWeight
      + (if IsPrimitiveType(leaf) then BoundaryWeight else 0)
      + (if counts.response > 0 then ResponseDictWeight else 0)
      + (if counts.lastResponse > 0 then LastResponseDictWeight else 0)
      + (if counts.defaults > 0 then DefaultWeight else 0)
    ensures 20 <= Total(WeightedProviders(leaf, counts)) <= 135
  {
    var b := Opt(IsPrimitiveType(leaf), WeightedProvider(BoundaryValue, BoundaryWeight));
    var r := Opt(counts.response > 0, WeightedProvider(ResponseDictionary, ResponseDictWeight));
    var l := Opt(counts.lastResponse > 0, WeightedProvider(LastResponseDictionary, LastResponseDictWeight));
    var x := [WeightedProvider(RandomValue, RandomWeight), WeightedProvider(NarrowRandom, NarrowRandomWeight)];
    var d := Opt(counts.defaults > 0, WeightedProvider(DefaultValue, DefaultWeight));
    TotalPieces(b, r, l, x, d);
    assert Total(x) == RandomWeight + NarrowRandomWeight by {
      assert x[1..][1..] == [];
    }
  }

  // Proof helper: the weight adds over the five pieces of the list.
  lemma WeightOfPieces(b: seq<WeightedProvider>, r: seq<WeightedProvider>, l: seq<WeightedProvider>,
                       x: seq<WeightedProvider>, d: seq<WeightedProvider>, p: Provider)
    ensures WeightOf(b + r + l + x + d, p) == WeightOf(b, p) + WeightOf(r, p) + WeightOf(l, p) + WeightOf(x, p) + WeightOf(d, p)
  {
    assert b + r + l + x + d == b + (r + (l + (x + d)));
    WeightOfConcat(b, r + (l + (x + d)), p);
    WeightOfConcat(r, l + (x + d), p);
    WeightOfConcat(l, x + d, p);
    WeightOfConcat(x, d, p);
  }

  // Proof helper: the total adds over the five pieces of the list.
  lemma TotalPieces(b: seq<WeightedProvider>, r: seq<WeightedProvider>, l: seq<WeightedProvider>,
                    x: seq<WeightedProvider>, d: seq<WeightedProvider>)
    ensures Total(b + r + l + x + d) == Total(b) + Total(r) + Total(l) + Total(x) + Total(d)
  {
    assert b + r + l + x + d == b + (r + (l + (x + d)));
    TotalConcat(b, r + (l + (x + d)));
    TotalConcat(r, l + (x + d));
    TotalConcat(l, x + d);
    TotalConcat(x, d);
  }

  /** The one-entry list when c holds, the empty list otherwise. */
  function Opt(c: bool, w: WeightedProvider): (r: seq<WeightedProvider>)
    ensures Total(r) == (if c then w.weight else 0)
  {
    if c then [w] else []
  }

  // Proof helper: the weight of an optional entry.
  lemma OptWeight(c: bool, w: WeightedProvider, p: Provider)
    ensures WeightOf(Opt(c, w), p) == if c && w.provider == p then w.weight else 0
  {
  }

  // Proof helper: appending two entries one at a time.
  lemma SnocPair(ws: seq<WeightedProvider>, x: WeightedProvider, y: WeightedProvider)
    ensures ws + [x] + [y] == ws + [x, y]
  {
  }

  // Proof helper: appending nothing.
  lemma EmptyAppend(ws: seq<WeightedProvider>)
    ensures [] + ws == ws
  {
  }

  /** Proof helper: the append of w when c holds. */
  lemma AppendOpt(ws: seq<WeightedProvider>, c: bool, w: WeightedProvider)
    ensures (if c then ws + [w] else ws) == ws + Opt(c, w)
  {
    if !c {
      assert ws + [] == ws;
    }
  }

  lemma {:induction false} TotalConcat(xs: seq<WeightedProvider>, ys: seq<WeightedProvider>)
    ensures Total(xs + ys) == Total(xs) + Total(ys)
  {
    if |xs| == 0 {
      assert xs + ys == ys;
    } else {
      assert (xs + ys)[1..] == xs[1..] + ys;
      TotalConcat(xs[1..], ys);
    }
  }

  lemma {:induction false} WeightOfConcat(xs: seq<WeightedProvider>, ys: seq<WeightedProvider>, p: Provider)
    ensures WeightOf(xs + ys, p) == WeightOf(xs, p) + WeightOf(ys, p)
  {
    if |xs| == 0 {
      assert xs + ys == ys;
    } else {
      assert (xs + ys)[1..] == xs[1..] + ys;
      WeightOfConcat(xs[1..], ys, p);
    }
  }

  lemma {:induction false} PrefixSumStep(ws: seq<WeightedProvider>, k: nat)
    requires k < |ws|
    ensures PrefixSum(ws, k + 1) == PrefixSum(ws, k) + ws[k].weight
  {
    if k > 0 {
      PrefixSumStep(ws[1..], k - 1);
    }
  }

  lemma {:induction false} PrefixSumAll(ws: seq<WeightedProvider>)
    ensures PrefixSum(ws, |ws|) == Total(ws)
  {
    if |ws| > 0 {
      PrefixSumAll(ws[1..]);
    }
  }

  /** Choosing with what is left after the first i entries is choosing from the rest of the list. */
  lemma {:induction false} ChooseSuffix(ws: seq<WeightedProvider>, roll: int, i: nat)
    requires i < |ws| && roll >= PrefixSum(ws, i)
    ensures Choose(ws, roll) == Choose(ws[i..], roll - PrefixSum(ws, i))
  {
    if i > 0 {
      assert ws[1..][i - 1..] == ws[i..];
      ChooseSuffix(ws[1..], roll - ws[0].weight, i - 1);
    }
  }

  /** A roll within the band of entry k, [PrefixSum(k), PrefixSum(k+1)), chooses entry k. */
  lemma {:induction false} ChooseBand(ws: seq<WeightedProvider>, roll: int, k: nat)
    requires k < |ws| && PrefixSum(ws, k) <= roll < PrefixSum(ws, k + 1)
    ensures Choose(ws, roll) == ws[k].provider
  {
    if k > 0 {
      ChooseBand(ws[1..], roll - ws[0].weight, k - 1);
    }
  }

  /** Every roll in [0, total) lies in the band of some entry, so the fallback is never reached by such a roll. */
  lemma {:induction false} BandsCover(ws: seq<WeightedProvider>, roll: int)
    requires 0 <= roll < Total(ws)
    ensures exists k :: 0 <= k < |ws| && PrefixSum(ws, k) <= roll < PrefixSum(ws, k + 1)
  {
    if roll < ws[0].weight {
      assert PrefixSum(ws, 0) <= roll < PrefixSum(ws, 1);
    } else {
      BandsCover(ws[1..], roll - ws[0].weight);
      var k :| 0 <= k < |ws[1..]| && PrefixSum(ws[1..], k) <= roll - ws[0].weight < PrefixSum(ws[1..], k + 1);
      assert PrefixSum(ws, k + 1) <= roll < PrefixSum(ws, k + 2);
    }
  }

  /** A roll at or beyond the total falls through to the random provider. */
  lemma {:induction false} ChooseBeyondTotal(ws: seq<WeightedProvider>, roll: int)
    requires roll >= Total(ws)
    ensures Choose(ws, roll) == RandomValue
  {
    if |ws| > 0 {
      ChooseBeyondTotal(ws[1..], roll - ws[0].weight);
    }
  }

  /** How many of the rolls lo, ..., lo+n-1 choose p. */
  function Hits(ws: seq<WeightedProvider>, p: Provider, lo: int, n: nat): nat
    decreases n
  {
    if n == 0 then 0 else (if Choose(ws, lo) == p then 1 else 0) + Hits(ws, p, lo + 1, n - 1)
  }

  lemma {:induction false} HitsSplit(ws: seq<WeightedProvider>, p: Provider, lo: int, a: nat, b: nat)
    ensures Hits(ws, p, lo, a + b) == Hits(ws, p, lo, a) + Hits(ws, p, lo + a, b)
    decreases a
  {
    if a > 0 {
      HitsSplit(ws, p, lo + 1, a - 1, b);
    }
  }

  lemma {:induction false} HitsFirstBand(ws: seq<WeightedProvider>, p: Provider, lo: int, n: nat)
    requires |ws| > 0 && lo + n <= ws[0].weight
    ensures Hits(ws, p, lo, n) == if ws[0].provider == p then n else 0
    decreases n
  {
    if n > 0 {
      HitsFirstBand(ws, p, lo + 1, n - 1);
    }
  }

  lemma {:induction false} HitsShift(ws: seq<WeightedProvider>, p: Provider, lo: int, n: nat)
    requires |ws| > 0 && lo >= 0
    ensures Hits(ws, p, lo + ws[0].weight, n) == Hits(ws[1..], p, lo, n)
    decreases n
  {
    if n > 0 {
      HitsShift(ws, p, lo + 1, n - 1);
    }
  }

  /**
   * Of the `total` equally likely rolls, exactly the provider's weight choose it: the
   * probability of a provider is its weight over the total weight.
   */
  lemma {:induction false} HitsAreWeights(ws: seq<WeightedProvider>, p: Provider)
    ensures Hits(ws, p, 0, Total(ws)) == WeightOf(ws, p)
  {
    if |ws| > 0 {
      var w := ws[0].weight;
      HitsSplit(ws, p, 0, w, Total(ws[1..]));
      HitsFirstBand(ws, p, 0, w);
      HitsShift(ws, p, 0, Total(ws[1..]));
      HitsAreWeights(ws[1..], p);
    }
  }

  /**
   * Over the weighted list built for a parameter, the share of each provider among the
   * `nextInt(totalWeight)` rolls is its configured weight when available and zero otherwise.
   */
  lemma ProviderShares(leaf: LeafKind, counts: Counts)
    ensures var ws := WeightedProviders(leaf, counts);
      && Hits(ws, BoundaryValue, 0, Total(ws)) == (if IsPrimitiveType(leaf) then BoundaryWeight else 0)
      && Hits(ws, ResponseDictionary, 0, Total(ws)) == (if counts.response > 0 then ResponseDictWeight else 0)
      && Hits(ws, LastResponseDictionary, 0, Total(ws)) == (if counts.lastResponse > 0 then LastResponseDictWeight else 0)
      && Hits(ws, RandomValue, 0, Total(ws)) == RandomWeight
      && Hits(ws, NarrowRandom, 0, Total(ws)) == NarrowRandomWeight
      && Hits(ws, DefaultValue, 0, Total(ws)) == (if counts.defaults > 0 then DefaultWeight else 0)
  {
    var ws := WeightedProviders(leaf, counts);
    HitsAreWeights(ws, BoundaryValue);
    WeightedProvidersWeights(leaf, counts, BoundaryValue);
    HitsAreWeights(ws, ResponseDictionary);
    WeightedProvidersWeights(leaf, counts, ResponseDictionary);
    HitsAreWeights(ws, LastResponseDictionary);
    WeightedProvidersWeights(leaf, counts, LastResponseDictionary);
    HitsAreWeights(ws, RandomValue);
    WeightedProvidersWeights(leaf, counts, RandomValue);
    HitsAreWeights(ws, NarrowRandom);
    WeightedProvidersWeights(leaf, counts, NarrowRandom);
    HitsAreWeights(ws, DefaultValue);
    WeightedProvidersWeights(leaf, counts, DefaultValue);
  }

  /** The list built by appends: boundary, response, last response, random, narrow random, default. */
  method BuildWeightedProviders(leaf: LeafKind, counts: Counts) returns (ws: seq<WeightedProvider>)
    ensures ws == WeightedProviders(leaf, counts)
  {
    var b := WeightedProvider(BoundaryValue, BoundaryWeight);
    var r := WeightedProvider(ResponseDictionary, ResponseDictWeight);
    var l := WeightedProvider(LastResponseDictionary, LastResponseDictWeight);
    var x, y := WeightedProvider(RandomValue, RandomWeight), WeightedProvider(NarrowRandom, NarrowRandomWeight);
    var d := WeightedProvider(DefaultValue, DefaultWeight);
    ws := [];
    AppendOpt([], IsPrimitiveType(leaf), b);
    EmptyAppend(Opt(IsPrimitiveType(leaf), b));
    if IsPrimitiveType(leaf) {
      ws := ws + [b];
    }
    AppendOpt(ws, counts.response > 0, r);
    if counts.response > 0 {
      ws := ws + [r];
    }
    AppendOpt(ws, counts.lastResponse > 0, l);
    if counts.lastResponse > 0 {
      ws := ws + [l];
    }
    SnocPair(ws, x, y);
    ws := ws + [x];
    ws := ws + [y];
    AppendOpt(ws, counts.defaults > 0, d);
    if counts.defaults > 0 {
      ws := ws + [d];
    }
  }

  /** Walks the weighted list with a running cumulative weight and returns the first provider whose cumulative weight exceeds the roll; the random provider when none does. */
  method SelectFromWeightedProviders(leaf: LeafKind, counts: Counts, roll: int) returns (p: Provider)
    ensures p == Choose(WeightedProviders(leaf, counts), roll)
  {
    var ws := BuildWeightedProviders(leaf, counts);
    var cumulative := 0;
    var i := 0;
    while i < |ws|
      invariant 0 <= i <= |ws|
      invariant cumulative == PrefixSum(ws, i)
      invariant i > 0 ==> roll >= cumulative
      invariant i < |ws| ==> Choose(ws, roll) == Choose(ws[i..], roll - cumulative)
      invariant i == |ws| ==> Choose(ws, roll) == RandomValue
    {
      PrefixSumStep(ws, i);
      cumulative := cumulative + ws[i].weight;
      if roll < cumulative {
        return ws[i].provider;
      }
      i := i + 1;
      if i < |ws| {
        ChooseSuffix(ws, roll, i);
      } else {
        PrefixSumAll(ws);
        ChooseBeyondTotal(ws, roll);
      }
    }
    p := RandomValue;
  }

  /**
   * The provider chosen for a parameter: enum or examples (by their shares of the available
   * values) when some exist and the 60% gate opens, otherwise the weighted choice.
   */
  method ProvideValueFor(leaf: LeafKind, counts: Counts, gateRoll: int, pickRoll: int, roll: int) returns (p: Provider)
    ensures var gate := counts.enums + counts.examples > 0 && gateRoll < EnumExampleProbability;
      && (gate ==> p == if pickRoll < counts.enums then Enum else Examples)
      && (!gate ==> p == Choose(WeightedProviders(leaf, counts), roll))
  {
    if counts.enums + counts.examples > 0 && gateRoll < EnumExampleProbability {
      if pickRoll < counts.enums {
        return Enum;
      } else {
        return Examples;
      }
    }
    p := SelectFromWeightedProviders(leaf, counts, roll);
  }

  /** Without enum and example values the provider is never Enum or Examples, whatever the rolls. */
  lemma NoEnumWithoutValues(leaf: LeafKind, counts: Counts, roll: int)
    requires counts.enums == 0 && counts.examples == 0
    ensures var p := Choose(WeightedProviders(leaf, counts), roll); p != Enum && p != Examples
  {
    var ws := WeightedProviders(leaf, counts);
    if roll >= Total(ws) {
      ChooseBeyondTotal(ws, roll);
    } else if roll < 0 {
    } else {
      BandsCover(ws, roll);
      var k :| 0 <= k < |ws| && PrefixSum(ws, k) <= roll < PrefixSum(ws, k + 1);
      ChooseBand(ws, roll, k);
      WeightOfListed(ws, k);
      WeightedProvidersWeights(leaf, counts, ws[k].provider);
    }
  }

  /** A listed entry of positive weight contributes to its provider's weight. */
  lemma {:induction false} WeightOfListed(ws: seq<WeightedProvider>, k: nat)
    requires k < |ws|
    ensures WeightOf(ws, ws[k].provider) >= ws[k].weight
    ensures ws[k].weight > 0 ==> WeightOf(ws, ws[k].provider) > 0
  {
    if k > 0 {
      WeightOfListed(ws[1..], k - 1);
    }
  }
}

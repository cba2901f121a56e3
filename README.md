# RestSqlDiff core, modelled in Dafny

RestSqlDiff tests a REST API differentially. Each API operation is also replayed as SQL
against a shadow database, and the two outcomes are compared. This project models five
pieces of that system and proves properties of each.

- **The differential oracle** (`SqlDiffOracle`). Modules `OracleValues`, `OracleCompare`, `OracleWalk`,
  `OracleProperties`, `OracleParameters` and `OracleSequence`.
  - Each interaction of an executed test sequence that carries a SQL shadow execution gets a
    verdict. The verdict comes from the SQL outcome and the class of the HTTP status.
  - The SQL result rows are paired with the JSON response body.
  - Each row is compared with its JSON element by a recursive walk. The walk emits `EQUAL`,
    `VALUE_MISMATCH`, `MISSING_IN_SQL`, `MISSING_IN_API` and `TYPE_MISMATCH` records.
  - The walk is modelled twice. Functions state what it produces, and methods append to the
    list and set as the Java code does. Each method is proved to produce what its function
    states.
  - Lemmas state where records come from, which columns count as matched, and which columns
    are reported as missing. The number, timestamp and boolean coercions of `objectsEqual`
    also get lemmas.
- **The sequence generator** (`DiffBasedGraphSorter`). Modules `DependencyGraph` and `GraphSorter`.
  - A class with the sorter's fields. It builds the POST-to-DELETE map by endpoint matching,
    then shuffles the POST and DELETE lists.
  - `getTestSequence` has three phases. It finds a prerequisite chain by a post-order
    depth-first search over POST dependencies, cut to a random suffix. It explores consumers
    within a depth budget. It ends the sequence with DELETE operations under three strategies.
  - Proved of every generated sequence: DELETEs come last, no operation repeats, the length
    bounds hold, the chain ends with the chosen POST, and each explored node consumes an
    earlier one.
- **The SQL builder of the POST strategy** (`PostStrategy.operationToSQL`). Module `PostStrategy`.
  - Produces the SELECT, UPDATE and INSERT texts.
  - Covers the skip and error paths, and the append-then-cut separator idiom.
- **The value-selection rules**. Modules `Parameters`, `BoundaryValue`, `EnumAndExamplePriority` and
  `BoundaryValuePriority`.
  - The boundary-type roulette and the string-length boundary arithmetic, with Java `int`
    wrap-around.
  - The weighted cumulative provider choice.
  - The validated boundary probability with its decision rule.
- **The endpoint helpers and sequence checks of the sorter's test class**. Module `SorterTest`.
  - Endpoint normalisation, proved idempotent, and the base resource path.
  - The two shape checks every generated sequence passes.

Random draws are inputs throughout. In the value providers each draw is a parameter. In the
sorter, draws come from a stream `rng: nat -> nat`, and draw number k with bound b is
`rng(k) % b`. The following are inputs or abstract functions:

- JSON parsing;
- number and timestamp parsing;
- the column resolver (`ConvertSequenceToTable`);
- the HTTP status classification;
- the database's answers.

`DiffBasedGraphSorter.java` scores nodes only with `computeNodeScore`, which the model has
(module `DependencyGraph`). The class has no endpoint scoring with weights 100/90/50, no
CRUD-rank sort, no GET-insertion step, no PUT/POST reordering pass and no truncation floor
tied to the anchor's dependency count, so the model has none of these either.

## Model

The table names every function and method that models an operation of the source, and every
lemma that states a property of one. A row whose third column reads "a definition without a
contract of its own" is a function that defines the model's behaviour; the rows it names state
what that function means. Predicates and small functions that only phrase a property (such as
`ApiMissCount`, `TaggedAt` or `EntryPaths`) appear inside the contracts of the rows that use
them and have no row of their own. Lemmas whose comment starts with "Proof helper"
(associativity of concatenation, append steps, sums over the pieces of a list) only serve
other proofs and have no row either.

| member | source | states |
|---|---|---|
| `Parameters.Add32` | src/main/java/io/resttestgen/implementation/parametervalueprovider/single/BoundaryValueParameterValueProvider.java:259-271 | Java `int` addition: the exact sum when it fits, the sum wrapped by 2^32 above the largest and below the smallest `int` |
| `BoundaryValue.TypeForRoll` | src/main/java/io/resttestgen/implementation/parametervalueprovider/single/BoundaryValueParameterValueProvider.java:257-277 | the category selectBoundaryType returns for a roll; a definition without a contract of its own, whose meaning is stated by `BoundaryValue.BoundaryValueParameterValueProvider.SelectBoundaryType`, `BoundaryValue.CountRollsIsBand`, `BoundaryValue.FullBoundaryWeight`, `BoundaryValue.ZeroBoundaryWeight` |
| `BoundaryValue.CountRolls` | src/main/java/io/resttestgen/implementation/parametervalueprovider/single/BoundaryValueParameterValueProvider.java:257-277 | how many of the rolls selectBoundaryType sees select a category; a definition without a contract of its own, whose meaning is stated by `BoundaryValue.CountRollsIsBand`, `BoundaryValue.Distribution`, `BoundaryValue.DefaultDistribution` |
| `BoundaryValue.CountRollsIsBand` | src/main/java/io/resttestgen/implementation/parametervalueprovider/single/BoundaryValueParameterValueProvider.java:257-277 | with non-negative weights summing to at most 100, the rolls below n that select a category are exactly those of its band between the cumulative thresholds |
| `BoundaryValue.Distribution` | src/main/java/io/resttestgen/implementation/parametervalueprovider/single/BoundaryValueParameterValueProvider.java:257-277 | of the hundred rolls, EXACT_BOUNDARY, JUST_INSIDE and JUST_OUTSIDE are chosen exactly as often as their weights, and IN_RANGE takes the remainder whatever its own weight |
| `BoundaryValue.FullBoundaryWeight` | src/test/java/io/resttestgen/implementation/parametervalueprovider/single/BoundaryValueParameterValueProviderTest.java:176-182 | with boundary weight 100 every roll in [0, 100) selects EXACT_BOUNDARY, whatever the other weights |
| `BoundaryValue.ZeroBoundaryWeight` | src/main/java/io/resttestgen/implementation/parametervalueprovider/single/BoundaryValueParameterValueProvider.java:261-264 | with boundary weight 0 no roll in [0, 100) selects EXACT_BOUNDARY |
| `BoundaryValue.EffectiveBounds` | src/main/java/io/resttestgen/implementation/parametervalueprovider/single/BoundaryValueParameterValueProvider.java:188-219 | the effective length bounds are ordered; they are the declared pair (swapped when min > max), (min, min + 50) with only a minimum up to IntMax - 50 and, above that, the wrapped sum min + 50 - 2^32 first and min second, (0, max) ordered with only a maximum, and (0, 100) with neither |
| `BoundaryValue.MinOnlyOverflow` | src/main/java/io/resttestgen/implementation/parametervalueprovider/single/BoundaryValueParameterValueProvider.java:199-219 | a lone minimum of the largest `int` wraps min + 50 and the swap then yields (smallest `int` + 49, largest `int`) |
| `BoundaryValue.BoundaryStringValue` | src/main/java/io/resttestgen/implementation/parametervalueprovider/single/BoundaryValueParameterValueProvider.java:185-252 | generateBoundaryString: the target length of each category; a definition without a contract of its own, whose meaning is stated by `BoundaryValue.ExactTargetsABound`, `BoundaryValue.JustInsideWithinBounds`, `BoundaryValue.JustInsideWraps`, `BoundaryValue.JustOutsideLeavesBounds`, `BoundaryValue.JustOutsideAtIntMax`, `BoundaryValue.InRangeWithinBounds`, `BoundaryValue.StringLengthNonNegative` |
| `BoundaryValue.ExactTargetsABound` | src/main/java/io/resttestgen/implementation/parametervalueprovider/single/BoundaryValueParameterValueProvider.java:223-226 | EXACT_BOUNDARY targets one of the two effective bounds |
| `BoundaryValue.JustInsideWithinBounds` | src/main/java/io/resttestgen/implementation/parametervalueprovider/single/BoundaryValueParameterValueProvider.java:227-234 | JUST_INSIDE lies within the bounds, and is min + 1 or max - 1 (by the coin) when the range is wider than one value |
| `BoundaryValue.JustInsideWraps` | src/main/java/io/resttestgen/implementation/parametervalueprovider/single/BoundaryValueParameterValueProvider.java:229-230 | at the largest `int` the +1 of JUST_INSIDE wraps and the target falls below the range |
| `BoundaryValue.JustOutsideLeavesBounds` | src/main/java/io/resttestgen/implementation/parametervalueprovider/single/BoundaryValueParameterValueProvider.java:235-251 | JUST_OUTSIDE yields a string length outside the effective bounds whenever the maximum is below the largest `int` |
| `BoundaryValue.JustOutsideAtIntMax` | src/main/java/io/resttestgen/implementation/parametervalueprovider/single/BoundaryValueParameterValueProvider.java:235-251 | with the largest `int` as maximum, max + 1 wraps and JUST_OUTSIDE yields the empty string, inside the bounds |
| `BoundaryValue.InRangeWithinBounds` | src/main/java/io/resttestgen/implementation/parametervalueprovider/single/BoundaryValueParameterValueProvider.java:243-247 | IN_RANGE is drawn iff max + 1 does not wrap, and then lies within the bounds |
| `BoundaryValue.StringLengthNonNegative` | src/main/java/io/resttestgen/implementation/parametervalueprovider/single/BoundaryValueParameterValueProvider.java:250-251 | every string category yields a string of non-negative length, except a rejected IN_RANGE draw |
| `BoundaryValue.Ranged` | src/main/java/io/resttestgen/implementation/parametervalueprovider/single/BoundaryValueParameterValueProvider.java:72 | a ranged draw `nextInt(origin, bound)` lies in [origin, bound) |
| `BoundaryValue.GenericStringValue` | src/main/java/io/resttestgen/implementation/parametervalueprovider/single/BoundaryValueParameterValueProvider.java:80-98 | a generic parameter gets "" or "a" for EXACT_BOUNDARY and a string of length in [1, 10), [500, 1001) or [5, 50) for the other categories |
| `BoundaryValue.BoundaryValueParameterValueProvider.constructor` | src/main/java/io/resttestgen/implementation/parametervalueprovider/single/BoundaryValueParameterValueProvider.java:35-39 | the default weights are 30 / 30 / 20 / 20 |
| `BoundaryValue.BoundaryValueParameterValueProvider.SelectBoundaryType` | src/main/java/io/resttestgen/implementation/parametervalueprovider/single/BoundaryValueParameterValueProvider.java:257-277 | the category is the first cumulative `int` threshold above the roll, IN_RANGE when none is |
| `BoundaryValue.BoundaryValueParameterValueProvider.GenerateValueFor` | src/main/java/io/resttestgen/implementation/parametervalueprovider/single/BoundaryValueParameterValueProvider.java:51-74 | the value by parameter kind: a category for numbers, the coin for booleans, a boundary length for strings, a generic string, null, and an `int` in [-1000, 1001) otherwise |
| `BoundaryValue.BoundaryValueParameterValueProvider.SetBoundaryProbability` | src/main/java/io/resttestgen/implementation/parametervalueprovider/single/BoundaryValueParameterValueProvider.java:375-377 | stores the argument unvalidated and leaves the other weights alone |
| `BoundaryValue.BoundaryValueParameterValueProvider.SetJustInsideProbability` | src/main/java/io/resttestgen/implementation/parametervalueprovider/single/BoundaryValueParameterValueProvider.java:379-381 | stores the argument unvalidated and leaves the other weights alone |
| `BoundaryValue.BoundaryValueParameterValueProvider.SetJustOutsideProbability` | src/main/java/io/resttestgen/implementation/parametervalueprovider/single/BoundaryValueParameterValueProvider.java:383-385 | stores the argument unvalidated and leaves the other weights alone |
| `BoundaryValue.BoundaryValueParameterValueProvider.SetInRangeProbability` | src/main/java/io/resttestgen/implementation/parametervalueprovider/single/BoundaryValueParameterValueProvider.java:387-389 | stores the argument unvalidated and leaves the other weights alone |
| `BoundaryValue.ProbabilitiesRoundTrip` | src/test/java/io/resttestgen/implementation/parametervalueprovider/single/BoundaryValueParameterValueProviderTest.java:252-260 | after the four setters, the four getters return exactly the stored values, any `int` included |
| `BoundaryValue.DefaultDistribution` | src/main/java/io/resttestgen/implementation/parametervalueprovider/single/BoundaryValueParameterValueProvider.java:27-39 | a fresh provider chooses the four categories on 30, 30, 20 and 20 of the hundred rolls |
| `BoundaryValuePriority.HasLengthConstraints` | src/main/java/io/resttestgen/implementation/parametervalueprovider/multi/BoundaryValuePriorityParameterValueProvider.java:61-63 | hasLengthConstraints; a definition without a contract of its own, whose meaning is stated by `BoundaryValuePriority.IsPrimitiveAgrees` |
| `BoundaryValuePriority.IsPrimitive` | src/main/java/io/resttestgen/implementation/parametervalueprovider/multi/BoundaryValuePriorityParameterValueProvider.java:43-45 | the primitive test of provideValueFor; a definition without a contract of its own, whose meaning is stated by `BoundaryValuePriority.IsPrimitiveAgrees`, `BoundaryValuePriority.BoundaryShare` |
| `BoundaryValuePriority.IsPrimitiveAgrees` | src/main/java/io/resttestgen/implementation/parametervalueprovider/multi/BoundaryValuePriorityParameterValueProvider.java:43-45 | this provider's primitive test and the enum-and-example provider's `isPrimitiveType` accept the same parameters |
| `BoundaryValuePriority.UsesBoundary` | src/main/java/io/resttestgen/implementation/parametervalueprovider/multi/BoundaryValuePriorityParameterValueProvider.java:48 | a primitive leaf and a roll below the probability; a definition without a contract of its own, whose meaning is stated by `BoundaryValuePriority.BoundaryValuePriorityParameterValueProvider.ProvideValueFor`, `BoundaryValuePriority.BoundaryShare`, `BoundaryValuePriority.ProbabilityExtremes` |
| `BoundaryValuePriority.BoundaryRollsPrefix` | src/main/java/io/resttestgen/implementation/parametervalueprovider/multi/BoundaryValuePriorityParameterValueProvider.java:48 | of the rolls below n, min(n, probability) send a primitive parameter to the boundary provider, none a non-primitive one |
| `BoundaryValuePriority.BoundaryShare` | src/main/java/io/resttestgen/implementation/parametervalueprovider/multi/BoundaryValuePriorityParameterValueProvider.java:42-52 | with a probability in [0, 100], a primitive parameter goes to the boundary provider on exactly that many of the hundred rolls |
| `BoundaryValuePriority.FallbackProviders` | src/main/java/io/resttestgen/implementation/parametervalueprovider/multi/BoundaryValuePriorityParameterValueProvider.java:90-110 | the fallback set always holds RANDOM and NARROW_RANDOM, holds DEFAULT, RESPONSE_DICTIONARY and LAST_RESPONSE_DICTIONARY iff each has values, and nothing else |
| `BoundaryValuePriority.Members` | src/main/java/io/resttestgen/implementation/parametervalueprovider/multi/BoundaryValuePriorityParameterValueProvider.java:112 | the listing of a set used by `nextElement` holds exactly the set's members |
| `BoundaryValuePriority.AllProvidersComplete` | src/main/java/io/resttestgen/implementation/parametervalueprovider/multi/BoundaryValuePriorityParameterValueProvider.java:112 | the fixed provider order lists every provider |
| `BoundaryValuePriority.NextElement` | src/main/java/io/resttestgen/implementation/parametervalueprovider/multi/BoundaryValuePriorityParameterValueProvider.java:112 | `nextElement` yields an element iff the set is non-empty, and that element is a member |
| `BoundaryValuePriority.BoundaryValuePriorityParameterValueProvider.constructor` | src/main/java/io/resttestgen/implementation/parametervalueprovider/multi/BoundaryValuePriorityParameterValueProvider.java:37 | the default probability is 40, within [0, 100] |
| `BoundaryValuePriority.BoundaryValuePriorityParameterValueProvider.SetBoundaryValueProbability` | src/main/java/io/resttestgen/implementation/parametervalueprovider/multi/BoundaryValuePriorityParameterValueProvider.java:120-125 | a value outside [0, 100] fails with the source's message and leaves the field unchanged; any other is stored; the field stays within [0, 100] |
| `BoundaryValuePriority.BoundaryValuePriorityParameterValueProvider.ProvideValueFor` | src/main/java/io/resttestgen/implementation/parametervalueprovider/multi/BoundaryValuePriorityParameterValueProvider.java:39-56 | the boundary provider is chosen iff the parameter is primitive and the roll is below the probability; otherwise the fallback decides; with the stored probability in [0, 100] that is exactly its number of the hundred rolls |
| `BoundaryValuePriority.FallbackChoice` | src/main/java/io/resttestgen/implementation/parametervalueprovider/multi/BoundaryValuePriorityParameterValueProvider.java:68-114 | never the boundary provider; when values exist and roll10 < 8, enum iff the pick is below the enum count and examples otherwise; else a member of the fallback set |
| `BoundaryValuePriority.FallbackToOtherStrategies` | src/main/java/io/resttestgen/implementation/parametervalueprovider/multi/BoundaryValuePriorityParameterValueProvider.java:68-114 | builds the provider set step by step and picks the provider `FallbackChoice` describes, so `nextElement(...).get()` never fails |
| `BoundaryValuePriority.ProbabilityExtremes` | src/main/java/io/resttestgen/implementation/parametervalueprovider/multi/BoundaryValuePriorityParameterValueProvider.java:48-52 | probability 0 never chooses the boundary provider; probability 100 chooses it for every roll in [0, 100) iff the parameter is primitive |
| `EnumAndExamplePriority.IsPrimitiveType` | src/main/java/io/resttestgen/implementation/parametervalueprovider/multi/EnumAndExamplePriorityParameterValueProvider.java:140-149 | isPrimitiveType; a definition without a contract of its own, whose meaning is stated by `BoundaryValuePriority.IsPrimitiveAgrees` |
| `EnumAndExamplePriority.Choose` | src/main/java/io/resttestgen/implementation/parametervalueprovider/multi/EnumAndExamplePriorityParameterValueProvider.java:120-135 | the cumulative-weight loop of selectFromWeightedProviders; a definition without a contract of its own, whose meaning is stated by `EnumAndExamplePriority.SelectFromWeightedProviders`, `EnumAndExamplePriority.ChooseBand`, `EnumAndExamplePriority.BandsCover`, `EnumAndExamplePriority.ChooseBeyondTotal`, `EnumAndExamplePriority.HitsAreWeights` |
| `EnumAndExamplePriority.WeightedProviders` | src/main/java/io/resttestgen/implementation/parametervalueprovider/multi/EnumAndExamplePriorityParameterValueProvider.java:78-119 | the weighted provider list; a definition without a contract of its own, whose meaning is stated by `EnumAndExamplePriority.BuildWeightedProviders`, `EnumAndExamplePriority.WeightedProvidersWeights`, `EnumAndExamplePriority.WeightedProvidersTotal`, `EnumAndExamplePriority.ProviderShares` |
| `EnumAndExamplePriority.WeightedProvidersWeights` | src/main/java/io/resttestgen/implementation/parametervalueprovider/multi/EnumAndExamplePriorityParameterValueProvider.java:78-119 | each provider's weight in the list is its configured weight exactly when it is available, and 0 otherwise |
| `EnumAndExamplePriority.WeightedProvidersTotal` | src/main/java/io/resttestgen/implementation/parametervalueprovider/multi/EnumAndExamplePriorityParameterValueProvider.java:121-123 | the total weight is 20 plus the weights of the available optional providers, hence in [20, 135] and `nextInt(totalWeight)` is well-defined |
| `EnumAndExamplePriority.Opt` | src/main/java/io/resttestgen/implementation/parametervalueprovider/multi/EnumAndExamplePriorityParameterValueProvider.java:81-85 | a conditionally added entry contributes its weight exactly when the condition holds |
| `EnumAndExamplePriority.TotalConcat` | src/main/java/io/resttestgen/implementation/parametervalueprovider/multi/EnumAndExamplePriorityParameterValueProvider.java:122 | the total weight of two lists joined is the sum of their totals |
| `EnumAndExamplePriority.WeightOfConcat` | src/main/java/io/resttestgen/implementation/parametervalueprovider/multi/EnumAndExamplePriorityParameterValueProvider.java:122 | a provider's weight in two lists joined is the sum of its weights in each |
| `EnumAndExamplePriority.PrefixSumStep` | src/main/java/io/resttestgen/implementation/parametervalueprovider/multi/EnumAndExamplePriorityParameterValueProvider.java:127 | the cumulative weight after entry k is the one before it plus entry k's weight |
| `EnumAndExamplePriority.PrefixSumAll` | src/main/java/io/resttestgen/implementation/parametervalueprovider/multi/EnumAndExamplePriorityParameterValueProvider.java:122-131 | the cumulative weight over the whole list is the total weight |
| `EnumAndExamplePriority.ChooseSuffix` | src/main/java/io/resttestgen/implementation/parametervalueprovider/multi/EnumAndExamplePriorityParameterValueProvider.java:125-131 | once the roll is at or above the first i cumulative weights, the choice is made among the remaining entries |
| `EnumAndExamplePriority.ChooseBand` | src/main/java/io/resttestgen/implementation/parametervalueprovider/multi/EnumAndExamplePriorityParameterValueProvider.java:125-131 | a roll in [prefixSum(k), prefixSum(k+1)) chooses entry k |
| `EnumAndExamplePriority.BandsCover` | src/main/java/io/resttestgen/implementation/parametervalueprovider/multi/EnumAndExamplePriorityParameterValueProvider.java:125-134 | every roll in [0, total) lies in the band of some entry, so the fallback after the loop is unreachable for such a roll |
| `EnumAndExamplePriority.ChooseBeyondTotal` | src/main/java/io/resttestgen/implementation/parametervalueprovider/multi/EnumAndExamplePriorityParameterValueProvider.java:133-134 | a roll at or beyond the total falls through to the random provider |
| `EnumAndExamplePriority.HitsSplit` | src/main/java/io/resttestgen/implementation/parametervalueprovider/multi/EnumAndExamplePriorityParameterValueProvider.java:123 | counting the rolls that choose a provider splits over adjacent ranges |
| `EnumAndExamplePriority.HitsFirstBand` | src/main/java/io/resttestgen/implementation/parametervalueprovider/multi/EnumAndExamplePriorityParameterValueProvider.java:126-129 | every roll within the first entry's weight chooses the first entry |
| `EnumAndExamplePriority.HitsShift` | src/main/java/io/resttestgen/implementation/parametervalueprovider/multi/EnumAndExamplePriorityParameterValueProvider.java:126-131 | rolls past the first entry's weight choose as the rest of the list does with that weight taken off |
| `EnumAndExamplePriority.HitsAreWeights` | src/main/java/io/resttestgen/implementation/parametervalueprovider/multi/EnumAndExamplePriorityParameterValueProvider.java:121-131 | of the `total` equally likely rolls, exactly the provider's weight choose it |
| `EnumAndExamplePriority.ProviderShares` | src/main/java/io/resttestgen/implementation/parametervalueprovider/multi/EnumAndExamplePriorityParameterValueProvider.java:75-135 | for the list built for a parameter, each provider is chosen on exactly its configured weight of the rolls when available (boundary 50, response 40, last response 20, random 10, narrow random 10, default 5) and never otherwise |
| `EnumAndExamplePriority.BuildWeightedProviders` | src/main/java/io/resttestgen/implementation/parametervalueprovider/multi/EnumAndExamplePriorityParameterValueProvider.java:78-119 | the appends build the list in the fixed order boundary, response, last response, random, narrow random, default, each optional one only when available |
| `EnumAndExamplePriority.SelectFromWeightedProviders` | src/main/java/io/resttestgen/implementation/parametervalueprovider/multi/EnumAndExamplePriorityParameterValueProvider.java:75-135 | the loop with its running cumulative weight returns the provider of the band the roll lies in, the random provider when the roll is past the total |
| `EnumAndExamplePriority.ProvideValueFor` | src/main/java/io/resttestgen/implementation/parametervalueprovider/multi/EnumAndExamplePriorityParameterValueProvider.java:43-69 | when enum or example values exist and the roll is below 60, enum iff the second roll is below the enum count, examples otherwise; else the weighted choice |
| `EnumAndExamplePriority.NoEnumWithoutValues` | src/main/java/io/resttestgen/implementation/parametervalueprovider/multi/EnumAndExamplePriorityParameterValueProvider.java:59-131 | without enum and example values the provider is never ENUM or EXAMPLES, whatever the rolls |
| `EnumAndExamplePriority.WeightOfListed` | src/main/java/io/resttestgen/implementation/parametervalueprovider/multi/EnumAndExamplePriorityParameterValueProvider.java:126-129 | a listed entry of positive weight gives its provider a positive weight |
| `PostStrategy.Suffixed` | src/main/java/io/resttestgen/implementation/sql/strategy/PostStrategy.java:40 | each item with the term appended, one for one |
| `PostStrategy.Repeat` | src/main/java/io/resttestgen/implementation/sql/strategy/PostStrategy.java:151-153 | n copies of the placeholder |
| `PostStrategy.SegIsJoinPlusSep` | src/main/java/io/resttestgen/implementation/sql/strategy/PostStrategy.java:37-52 | appending item, term and separator for each of a non-empty list is the separator-joined list plus one trailing separator |
| `PostStrategy.SuffixedEmpty` | src/main/java/io/resttestgen/implementation/sql/strategy/PostStrategy.java:127 | a list appended with the empty term is unchanged |
| `PostStrategy.TrimSeparator` | src/main/java/io/resttestgen/implementation/sql/strategy/PostStrategy.java:51 | cutting the separator's length off a builder ending in it removes exactly that separator |
| `PostStrategy.Put` | src/main/java/io/resttestgen/implementation/sql/strategy/PostStrategy.java:41 | `LinkedHashMap.put` keeps the size or grows it by one |
| `PostStrategy.Keys` | src/main/java/io/resttestgen/implementation/sql/strategy/PostStrategy.java:102 | the key set of the map, in insertion order, one per entry |
| `PostStrategy.Firsts` | src/main/java/io/resttestgen/implementation/sql/strategy/PostStrategy.java:40 | the columns of the puts, in the order appended |
| `PostStrategy.PutKeys` | src/main/java/io/resttestgen/implementation/sql/strategy/PostStrategy.java:41 | a put adds its key at the end iff it was absent |
| `PostStrategy.PutAll` | src/main/java/io/resttestgen/implementation/sql/strategy/PostStrategy.java:37-43 | a run of LinkedHashMap.put calls; a definition without a contract of its own, whose meaning is stated by `PostStrategy.PutAllKeys`, `PostStrategy.PutAllLastWins`, `PostStrategy.PutAllConcat`, `PostStrategy.PutAllEmpty` |
| `PostStrategy.PutAllKeys` | src/main/java/io/resttestgen/implementation/sql/strategy/PostStrategy.java:37-43 | the keys of a map filled by puts are the first occurrences of the put columns, in order |
| `PostStrategy.PutLookup` | src/main/java/io/resttestgen/implementation/sql/strategy/PostStrategy.java:41 | after a put the key holds the new value and every other key its old one |
| `PostStrategy.PutAllLastWins` | src/main/java/io/resttestgen/implementation/sql/strategy/PostStrategy.java:128 | the value stored for a column is the one put last for it |
| `PostStrategy.DedupFacts` | src/main/java/io/resttestgen/implementation/sql/strategy/PostStrategy.java:118-129 | the first occurrences are distinct, have the same members and are no more numerous |
| `PostStrategy.DedupKeepsLengthIffDistinct` | src/main/java/io/resttestgen/implementation/sql/strategy/PostStrategy.java:118-129 | deduplication keeps the length iff the columns are distinct, and is then the identity |
| `PostStrategy.PathLeaves` | src/main/java/io/resttestgen/implementation/sql/strategy/PostStrategy.java:23-29 | the path parameters are exactly the leaves located in PATH |
| `PostStrategy.LeafPairsNext` | src/main/java/io/resttestgen/implementation/sql/strategy/PostStrategy.java:72-80 | one more leaf adds one put iff it passes the loop's filter and maps to a column |
| `PostStrategy.ArrayPairsNext` | src/main/java/io/resttestgen/implementation/sql/strategy/PostStrategy.java:83-93 | one more array adds one put iff it is non-empty and maps to a column |
| `PostStrategy.PathLeavesNext` | src/main/java/io/resttestgen/implementation/sql/strategy/PostStrategy.java:25-29 | one more leaf is collected iff it is located in PATH |
| `PostStrategy.SegNext` | src/main/java/io/resttestgen/implementation/sql/strategy/PostStrategy.java:102-104 | one more key appends the key and its separator |
| `PostStrategy.SelectSql` | src/main/java/io/resttestgen/implementation/sql/strategy/PostStrategy.java:35-52 | the SELECT text; a definition without a contract of its own, whose meaning is stated by `PostStrategy.BuildSelect`, `PostStrategy.SelectExample` |
| `PostStrategy.UpdateSql` | src/main/java/io/resttestgen/implementation/sql/strategy/PostStrategy.java:69-106 | the UPDATE text; a definition without a contract of its own, whose meaning is stated by `PostStrategy.BuildUpdate`, `PostStrategy.UpdateWhereCut`, `PostStrategy.UpdateExample` |
| `PostStrategy.InsertSql` | src/main/java/io/resttestgen/implementation/sql/strategy/PostStrategy.java:122-155 | the INSERT text; a definition without a contract of its own, whose meaning is stated by `PostStrategy.BuildInsert`, `PostStrategy.InsertPlaceholdersCut`, `PostStrategy.InsertExample`, `PostStrategy.DuplicateColumnInsertText` |
| `PostStrategy.SelectExample` | src/main/java/io/resttestgen/implementation/sql/strategy/PostStrategy.java:35-52 | two path columns give `SELECT * FROM t WHERE a = ? AND b = ?;` |
| `PostStrategy.WhereAB` | src/main/java/io/resttestgen/implementation/sql/strategy/PostStrategy.java:101-105 | the WHERE list for two columns is `a = ? AND b = ?` |
| `PostStrategy.UpdateExample` | src/main/java/io/resttestgen/implementation/sql/strategy/PostStrategy.java:69-106 | one SET column and two WHERE columns give `UPDATE t SET x = ? WHERE a = ? AND b = ?;` |
| `PostStrategy.InsertExample` | src/main/java/io/resttestgen/implementation/sql/strategy/PostStrategy.java:122-155 | two columns give `INSERT INTO t (a, b) VALUES (?, ?);` |
| `PostStrategy.CollectPathParams` | src/main/java/io/resttestgen/implementation/sql/strategy/PostStrategy.java:23-29 | the loop collects the path parameters, in order |
| `PostStrategy.Snoc` | src/main/java/io/resttestgen/implementation/sql/strategy/PostStrategy.java:126-128 | one more put and one more appended column |
| `PostStrategy.AppendLeaves` | src/main/java/io/resttestgen/implementation/sql/strategy/PostStrategy.java:72-80 | the leaf loop appends "column + separator" and puts (column, value) for every selected, mapped leaf, in order |
| `PostStrategy.AppendArrays` | src/main/java/io/resttestgen/implementation/sql/strategy/PostStrategy.java:83-93 | the array loop skips empty arrays and appends and puts every mapped one with its JSON rendering |
| `PostStrategy.AppendKeys` | src/main/java/io/resttestgen/implementation/sql/strategy/PostStrategy.java:102-104 | the WHERE loop appends every where-map key with " = ? AND " |
| `PostStrategy.PutAllConcat` | src/main/java/io/resttestgen/implementation/sql/strategy/PostStrategy.java:68-93 | filling a map from two lists of puts is filling it from the first then the second |
| `PostStrategy.SegConcat` | src/main/java/io/resttestgen/implementation/sql/strategy/PostStrategy.java:68-93 | the text appended by two loops is the text of the joined list |
| `PostStrategy.FirstsConcat` | src/main/java/io/resttestgen/implementation/sql/strategy/PostStrategy.java:68-93 | the columns of two lists of puts joined are the two lists of columns joined |
| `PostStrategy.PutAllEmpty` | src/main/java/io/resttestgen/implementation/sql/strategy/PostStrategy.java:144-147 | a map filled by puts is empty iff nothing was put |
| `PostStrategy.BuildSelect` | src/main/java/io/resttestgen/implementation/sql/strategy/PostStrategy.java:33-52 | the where map holds the puts of the mapped path leaves, and the text is the SELECT over their columns, the trailing " AND " cut |
| `PostStrategy.AppendTargets` | src/main/java/io/resttestgen/implementation/sql/strategy/PostStrategy.java:68-93 | the leaf loop then the array loop append and put the joined list of targets |
| `PostStrategy.JoinTargets` | src/main/java/io/resttestgen/implementation/sql/strategy/PostStrategy.java:68-93 | the leaf text followed by the array text is the text of the joined targets |
| `PostStrategy.CutAndAppend` | src/main/java/io/resttestgen/implementation/sql/strategy/PostStrategy.java:100-101 | cutting the trailing separator off and appending the next keyword yields prefix, joined list, keyword |
| `PostStrategy.UpdateSetCut` | src/main/java/io/resttestgen/implementation/sql/strategy/PostStrategy.java:100-101 | cutting ", " off the SET list and appending " WHERE " yields the head of the UPDATE |
| `PostStrategy.UpdateWhereCut` | src/main/java/io/resttestgen/implementation/sql/strategy/PostStrategy.java:105-106 | cutting " AND " off the WHERE list and appending ";" yields the UPDATE |
| `PostStrategy.InsertColumnsCut` | src/main/java/io/resttestgen/implementation/sql/strategy/PostStrategy.java:149-150 | cutting ", " off the column list and appending ") VALUES (" yields the head of the INSERT |
| `PostStrategy.InsertPlaceholdersCut` | src/main/java/io/resttestgen/implementation/sql/strategy/PostStrategy.java:154-155 | cutting ", " off the placeholders and appending ");" yields the INSERT |
| `PostStrategy.BuildUpdate` | src/main/java/io/resttestgen/implementation/sql/strategy/PostStrategy.java:68-106 | the set map holds the SET puts, and for a non-empty SET and WHERE the text is `UPDATE t SET c = ?, … WHERE k = ? AND …;` |
| `PostStrategy.AppendPlaceholders` | src/main/java/io/resttestgen/implementation/sql/strategy/PostStrategy.java:151-153 | n iterations append n copies of "?, " |
| `PostStrategy.BuildInsert` | src/main/java/io/resttestgen/implementation/sql/strategy/PostStrategy.java:118-155 | the column map holds the INSERT puts, and for a non-empty one the text lists every put column and one placeholder per map entry |
| `PostStrategy.OperationToSql` | src/main/java/io/resttestgen/implementation/sql/strategy/PostStrategy.java:18-164 | without path leaves: the RuntimeException with its message when nothing maps, else the INSERT run; with them: nothing when no path leaf maps, the select interaction when the SELECT throws, finds no row or there is nothing to SET, else the UPDATE run; a failing UPDATE or INSERT is recorded, not propagated |
| `PostStrategy.BranchOnPathLeaf` | src/main/java/io/resttestgen/implementation/sql/strategy/PostStrategy.java:25-32 | the SELECT/UPDATE branch runs iff some leaf is located in PATH |
| `PostStrategy.WhereReusesSelectColumns` | src/main/java/io/resttestgen/implementation/sql/strategy/PostStrategy.java:37-43 | the UPDATE's WHERE lists the distinct SELECT columns in first-occurrence order, and exactly the SELECT's list when those are distinct |
| `PostStrategy.InsertPlaceholdersMatchColumnsIffDistinct` | src/main/java/io/resttestgen/implementation/sql/strategy/PostStrategy.java:124-153 | the placeholder count is the number of distinct columns, equal to the column-list length iff the mapped columns are distinct |
| `PostStrategy.DuplicateColumnInsert` | src/main/java/io/resttestgen/implementation/sql/strategy/PostStrategy.java:124-129 | two leaves mapped to one column: the column list names it twice, the map holds it once with the later value |
| `PostStrategy.DuplicatePairs` | src/main/java/io/resttestgen/implementation/sql/strategy/PostStrategy.java:123-131 | both leaves contribute a put |
| `PostStrategy.DuplicateMap` | src/main/java/io/resttestgen/implementation/sql/strategy/PostStrategy.java:128 | the second put of a column overwrites the first |
| `PostStrategy.SinglePut` | src/main/java/io/resttestgen/implementation/sql/strategy/PostStrategy.java:128 | one put into an empty map gives that single entry |
| `PostStrategy.Overwrite` | src/main/java/io/resttestgen/implementation/sql/strategy/PostStrategy.java:128 | a put of a present key replaces its value |
| `PostStrategy.DuplicateColumnInsertText` | src/main/java/io/resttestgen/implementation/sql/strategy/PostStrategy.java:149-155 | such an INSERT lists two columns but one placeholder: `INSERT INTO t (a, a) VALUES (?);` |
| `PostStrategy.SetPairsComeFromTargets` | src/main/java/io/resttestgen/implementation/sql/strategy/PostStrategy.java:72-93 | every SET entry comes from a mapped non-path leaf outside arrays or a non-empty mapped array, with its value |
| `PostStrategy.LeafPairsFromLeaves` | src/main/java/io/resttestgen/implementation/sql/strategy/PostStrategy.java:72-80 | every put of a leaf loop comes from a selected, mapped leaf with its value |
| `PostStrategy.ArrayPairsFromArrays` | src/main/java/io/resttestgen/implementation/sql/strategy/PostStrategy.java:83-93 | every put of an array loop comes from a non-empty mapped array with its JSON rendering |
| `DependencyGraph.NodesBelow` | src/main/java/io/resttestgen/implementation/operationssorter/DiffBasedGraphSorter.java:76 | the vertex set of a graph of n operations is the ids below n |
| `DependencyGraph.OutEdges` | src/main/java/io/resttestgen/implementation/operationssorter/DiffBasedGraphSorter.java:388 | the outgoing edges of a node are exactly the edges whose consumer it is |
| `DependencyGraph.InEdges` | src/main/java/io/resttestgen/implementation/operationssorter/DiffBasedGraphSorter.java:215 | the incoming edges of a node are exactly the edges whose producer it is |
| `DependencyGraph.Unsatisfied` | src/main/java/io/resttestgen/implementation/operationssorter/DiffBasedGraphSorter.java:420-422 | the count of unsatisfied edges is at most the number of edges |
| `DependencyGraph.VisitedSources` | src/main/java/io/resttestgen/implementation/operationssorter/DiffBasedGraphSorter.java:446-449 | the count of edges from visited sources is at most the number of edges |
| `DependencyGraph.NodesWith` | src/main/java/io/resttestgen/implementation/operationssorter/DiffBasedGraphSorter.java:111-116 | the nodes filtered by method are exactly those of that method, in vertex order |
| `DependencyGraph.MethodBonus` | src/main/java/io/resttestgen/implementation/operationssorter/DiffBasedGraphSorter.java:427-443 | the method bonus of computeNodeScore; a definition without a contract of its own, whose meaning is stated by `DependencyGraph.MethodOrdering`, `DependencyGraph.IsolatedScore` |
| `DependencyGraph.NodeScore` | src/main/java/io/resttestgen/implementation/operationssorter/DiffBasedGraphSorter.java:411-453 | computeNodeScore; a definition without a contract of its own, whose meaning is stated by `DependencyGraph.ScoreMonotoneInVisited`, `DependencyGraph.ScoreStep`, `DependencyGraph.MethodOrdering`, `DependencyGraph.IsolatedScore`, `DependencyGraph.NoEdges` |
| `DependencyGraph.VisitedSourcesMonotone` | src/main/java/io/resttestgen/implementation/operationssorter/DiffBasedGraphSorter.java:446-450 | more visited nodes never lower the count of edges from visited sources |
| `DependencyGraph.ScoreMonotoneInVisited` | src/main/java/io/resttestgen/implementation/operationssorter/DiffBasedGraphSorter.java:411-453 | a node's score never drops as the visited set grows, so the keys of nodes waiting in the priority queue only rise |
| `DependencyGraph.VisitedSourcesAdd` | src/main/java/io/resttestgen/implementation/operationssorter/DiffBasedGraphSorter.java:446-449 | marking one new node visited adds the number of its edges among those counted |
| `DependencyGraph.ScoreStep` | src/main/java/io/resttestgen/implementation/operationssorter/DiffBasedGraphSorter.java:445-450 | marking one new node visited raises a score by 3 for each edge from that node into the scored node |
| `DependencyGraph.MethodOrdering` | src/main/java/io/resttestgen/implementation/operationssorter/DiffBasedGraphSorter.java:425-443 | between nodes with the same edges the score difference is the method-bonus difference, and any non-DELETE node outscores a DELETE one |
| `DependencyGraph.IsolatedScore` | src/main/java/io/resttestgen/implementation/operationssorter/DiffBasedGraphSorter.java:411-453 | a node without edges scores exactly its method bonus: 8 GET, 6 PUT and PATCH, 4 POST, -20 DELETE, 0 otherwise |
| `DependencyGraph.NoEdges` | src/main/java/io/resttestgen/implementation/operationssorter/DiffBasedGraphSorter.java:416-449 | a node no edge touches has no outgoing and no incoming edges |
| `GraphSorter.Draw` | src/main/java/io/resttestgen/implementation/operationssorter/DiffBasedGraphSorter.java:139 | draw k with bound b is below b |
| `GraphSorter.EndpointsMatch` | src/main/java/io/resttestgen/implementation/operationssorter/DiffBasedGraphSorter.java:126 | the endpoint test: equal, or one contains the other; a definition without a contract of its own, whose meaning is stated by `GraphSorter.LastMatch`, `GraphSorter.LastMatchIsLast`, `GraphSorter.PostToDeleteMeaning` |
| `GraphSorter.LastMatch` | src/main/java/io/resttestgen/implementation/operationssorter/DiffBasedGraphSorter.java:123-129 | the last matching DELETE, absent iff no DELETE's endpoint equals, contains or is contained in the POST's |
| `GraphSorter.MatchMapEntries` | src/main/java/io/resttestgen/implementation/operationssorter/DiffBasedGraphSorter.java:120-130 | a walked POST has an entry iff it had one or some DELETE matches, and the entry is then the last matching DELETE |
| `GraphSorter.MatchMapOutside` | src/main/java/io/resttestgen/implementation/operationssorter/DiffBasedGraphSorter.java:120-130 | entries of nodes that are not walked stay as they were |
| `GraphSorter.MatchMapKeys` | src/main/java/io/resttestgen/implementation/operationssorter/DiffBasedGraphSorter.java:120-130 | the keys are those of the base map and the walked POSTs with a match |
| `GraphSorter.PostToDelete` | src/main/java/io/resttestgen/implementation/operationssorter/DiffBasedGraphSorter.java:110-131 | computePostToDeleteMap; a definition without a contract of its own, whose meaning is stated by `GraphSorter.PostToDeleteMeaning`, `GraphSorter.DiffBasedGraphSorter.ComputePostToDeleteMap` |
| `GraphSorter.PostToDeleteMeaning` | src/main/java/io/resttestgen/implementation/operationssorter/DiffBasedGraphSorter.java:110-131 | a node has an entry iff it is a POST some DELETE's endpoint equals, contains or is contained in; the entry is that DELETE, and no later DELETE in vertex order matches (the last put wins) |
| `GraphSorter.LastMatchIsLast` | src/main/java/io/resttestgen/implementation/operationssorter/DiffBasedGraphSorter.java:123-128 | no DELETE after the recorded match matches |
| `GraphSorter.DepsBeforeExtend` | src/main/java/io/resttestgen/implementation/operationssorter/DiffBasedGraphSorter.java:403-404 | appending further nodes keeps an emitted node's dependencies before it |
| `GraphSorter.PostChainSnoc` | src/main/java/io/resttestgen/implementation/operationssorter/DiffBasedGraphSorter.java:390-397 | descending into a POST dependency extends the chain of nodes the search is inside |
| `GraphSorter.ChainDescends` | src/main/java/io/resttestgen/implementation/operationssorter/DiffBasedGraphSorter.java:390-397 | along a chain of POST dependencies a ranking of an acyclic POST subgraph strictly descends |
| `GraphSorter.AcyclicDependenciesFirst` | src/main/java/io/resttestgen/implementation/operationssorter/DiffBasedGraphSorter.java:374-405 | on an acyclic POST subgraph, every POST dependency (not globally visited) of an emitted node is emitted before it |
| `GraphSorter.SwapKeepsMultiset` | src/main/java/io/resttestgen/implementation/operationssorter/DiffBasedGraphSorter.java:96 | swapping two positions keeps the elements |
| `GraphSorter.Shuffle` | src/main/java/io/resttestgen/implementation/operationssorter/DiffBasedGraphSorter.java:96 | `Collections.shuffle` keeps the elements and the length, and takes one draw per position but the first |
| `GraphSorter.MultisetMembers` | src/main/java/io/resttestgen/implementation/operationssorter/DiffBasedGraphSorter.java:96 | a shuffled list has the same members |
| `GraphSorter.NonDeletes` | src/main/java/io/resttestgen/implementation/operationssorter/DiffBasedGraphSorter.java:194 | the non-DELETE nodes of a list, in order |
| `GraphSorter.Deletes` | src/main/java/io/resttestgen/implementation/operationssorter/DiffBasedGraphSorter.java:289 | the DELETE nodes of a list, in order |
| `GraphSorter.Posts` | src/main/java/io/resttestgen/implementation/operationssorter/DiffBasedGraphSorter.java:197-199 | the POST nodes of a list, in order, as `postOperationsInSequence` records them |
| `GraphSorter.PostsSnoc` | src/main/java/io/resttestgen/implementation/operationssorter/DiffBasedGraphSorter.java:242-244 | appending a node records it iff it is a POST |
| `GraphSorter.SplitFilters` | src/main/java/io/resttestgen/implementation/operationssorter/DiffBasedGraphSorter.java:289 | non-DELETE nodes followed by DELETE nodes split back into the two filters |
| `GraphSorter.ConcatDeletesLast` | src/main/java/io/resttestgen/implementation/operationssorter/DiffBasedGraphSorter.java:289 | non-DELETE nodes followed by DELETE nodes have no non-DELETE after a DELETE |
| `GraphSorter.NonDeletesNext` | src/main/java/io/resttestgen/implementation/operationssorter/DiffBasedGraphSorter.java:192-201 | one more chain node is queued iff it is not a DELETE |
| `GraphSorter.NoDeletes` | src/main/java/io/resttestgen/implementation/operationssorter/DiffBasedGraphSorter.java:194 | a list without DELETE nodes is its own non-DELETE part |
| `GraphSorter.Connected` | src/main/java/io/resttestgen/implementation/operationssorter/DiffBasedGraphSorter.java:154-156 | the POST nodes filtered for an outgoing edge are exactly those that have one |
| `GraphSorter.PreferConnected` | src/main/java/io/resttestgen/implementation/operationssorter/DiffBasedGraphSorter.java:153 | the 80% draw of random.nextDouble() < 0.8; a definition without a contract of its own, whose meaning is stated by `GraphSorter.Candidates`, `GraphSorter.DiffBasedGraphSorter.ChooseTarget` |
| `GraphSorter.Candidates` | src/main/java/io/resttestgen/implementation/operationssorter/DiffBasedGraphSorter.java:151-169 | the candidates are empty iff there is no POST; they are POSTs; with the 80% draw and some POST with an outgoing edge only such POSTs; otherwise all POSTs |
| `GraphSorter.Consumers` | src/main/java/io/resttestgen/implementation/operationssorter/DiffBasedGraphSorter.java:247-252 | the unvisited, non-DELETE sources of a node's in-edges, in edge order; a definition without a contract of its own, whose meaning is stated by `GraphSorter.AddConsumers`, `GraphSorter.ConsumersFrom`, `GraphSorter.ConsumersDependOn`, `GraphSorter.ConsumersComplete` |
| `GraphSorter.ConsumersSnoc` | src/main/java/io/resttestgen/implementation/operationssorter/DiffBasedGraphSorter.java:216-221 | one more incoming edge adds its source iff it is neither visited nor a DELETE |
| `GraphSorter.ConsumersPrefix` | src/main/java/io/resttestgen/implementation/operationssorter/DiffBasedGraphSorter.java:216-221 | the same for a prefix of the edges |
| `GraphSorter.AddConsumers` | src/main/java/io/resttestgen/implementation/operationssorter/DiffBasedGraphSorter.java:214-222 | the edge loop appends the unvisited non-DELETE sources of a node's incoming edges |
| `GraphSorter.ConsumersFrom` | src/main/java/io/resttestgen/implementation/operationssorter/DiffBasedGraphSorter.java:216-221 | every added consumer is an unvisited non-DELETE source of one of the edges |
| `GraphSorter.ConsumersDependOn` | src/main/java/io/resttestgen/implementation/operationssorter/DiffBasedGraphSorter.java:247-253 | every consumer of a node is an unvisited non-DELETE node that depends on it |
| `GraphSorter.ConsumersComplete` | src/main/java/io/resttestgen/implementation/operationssorter/DiffBasedGraphSorter.java:216-221 | every unvisited non-DELETE source of the edges is among the consumers |
| `GraphSorter.CoverSubset` | src/main/java/io/resttestgen/implementation/operationssorter/DiffBasedGraphSorter.java:214-221 | covering a list covers any list drawn from its nodes |
| `GraphSorter.CoverAdd` | src/main/java/io/resttestgen/implementation/operationssorter/DiffBasedGraphSorter.java:247-253 | adding a node's consumers to the pending list covers that node's incoming edges |
| `GraphSorter.CoverAddPrefix` | src/main/java/io/resttestgen/implementation/operationssorter/DiffBasedGraphSorter.java:215-221 | the same for one more node of the chain |
| `GraphSorter.CoverNodePoll` | src/main/java/io/resttestgen/implementation/operationssorter/DiffBasedGraphSorter.java:225-231 | polling a node that is then visited keeps a node's edges covered |
| `GraphSorter.CoverPoll` | src/main/java/io/resttestgen/implementation/operationssorter/DiffBasedGraphSorter.java:225-231 | the same for every node of a list |
| `GraphSorter.AddIfNewFacts` | src/main/java/io/resttestgen/implementation/operationssorter/DiffBasedGraphSorter.java:304-306 | adding a DELETE only when absent keeps the list distinct, keeps its prefix and lists the DELETE |
| `GraphSorter.Mapped` | src/main/java/io/resttestgen/implementation/operationssorter/DiffBasedGraphSorter.java:302-303 | the mapped DELETE of every walked POST with an entry is collected |
| `GraphSorter.MappedFrom` | src/main/java/io/resttestgen/implementation/operationssorter/DiffBasedGraphSorter.java:302-303 | every collected DELETE is the entry of some walked POST |
| `GraphSorter.CorrespondingDeletes` | src/main/java/io/resttestgen/implementation/operationssorter/DiffBasedGraphSorter.java:298-309 | addCorrespondingDeletes; a definition without a contract of its own, whose meaning is stated by `GraphSorter.DiffBasedGraphSorter.AddCorrespondingDeletes`, `GraphSorter.CorrespondingDeletesFacts`, `GraphSorter.CorrespondingDeletesComplete`, `GraphSorter.CorrespondingDeletesExample` |
| `GraphSorter.CorrespondingDeletesFacts` | src/main/java/io/resttestgen/implementation/operationssorter/DiffBasedGraphSorter.java:298-309 | the list keeps its prefix, stays distinct, gains only mapped DELETEs of the walked POSTs and never exceeds maxCount |
| `GraphSorter.CorrespondingDeletesComplete` | src/main/java/io/resttestgen/implementation/operationssorter/DiffBasedGraphSorter.java:298-309 | a list that stops below maxCount holds the mapped DELETE of every walked POST that has one |
| `GraphSorter.PrefixMapsAll` | src/main/java/io/resttestgen/implementation/operationssorter/DiffBasedGraphSorter.java:278-279 | a list that starts with every mapped DELETE holds them all |
| `GraphSorter.CorrespondingDeletesExample` | src/main/java/io/resttestgen/implementation/operationssorter/DiffBasedGraphSorter.java:300-308 | POSTs 1, 2, 3, 4 mapped to 7, 8, 7 and nothing give [7, 8] walking from the last, or [7] with room for one |
| `GraphSorter.RandomDeletes` | src/main/java/io/resttestgen/implementation/operationssorter/DiffBasedGraphSorter.java:314-330 | addRandomDeletes; a definition without a contract of its own, whose meaning is stated by `GraphSorter.DiffBasedGraphSorter.AddRandomDeletes`, `GraphSorter.RandomDeletesFacts`, `GraphSorter.DrawDeletes`, `GraphSorter.RandomFromFacts` |
| `GraphSorter.RandomDeletesFacts` | src/main/java/io/resttestgen/implementation/operationssorter/DiffBasedGraphSorter.java:322-329 | the drawing loop keeps the prefix, stays distinct, adds only pool nodes, at most up to the target size, with at most one per attempt |
| `GraphSorter.ConsumesSomeGrows` | src/main/java/io/resttestgen/implementation/operationssorter/DiffBasedGraphSorter.java:239 | a node that depends on some queued node still does after more are queued |
| `GraphSorter.DistinctConcat` | src/main/java/io/resttestgen/implementation/operationssorter/DiffBasedGraphSorter.java:289 | two distinct lists with no common member join into a distinct list |
| `GraphSorter.SuffixDistinct` | src/main/java/io/resttestgen/implementation/operationssorter/DiffBasedGraphSorter.java:361-364 | a suffix of a distinct list is distinct |
| `GraphSorter.RandomStep` | src/main/java/io/resttestgen/implementation/operationssorter/DiffBasedGraphSorter.java:322-329 | one draw of the loop moves to the next state of the same run |
| `GraphSorter.RandomDone` | src/main/java/io/resttestgen/implementation/operationssorter/DiffBasedGraphSorter.java:322 | with the list full or no attempt left, nothing more is drawn |
| `GraphSorter.DrawDeletes` | src/main/java/io/resttestgen/implementation/operationssorter/DiffBasedGraphSorter.java:317-329 | the drawing loop yields the run with target size count above the start and 3 * count attempts |
| `GraphSorter.RandomFromFacts` | src/main/java/io/resttestgen/implementation/operationssorter/DiffBasedGraphSorter.java:314-330 | addRandomDeletes adds at most count new distinct DELETE pool nodes after the kept list |
| `GraphSorter.StrategyDeletes` | src/main/java/io/resttestgen/implementation/operationssorter/DiffBasedGraphSorter.java:258-281 | the switch over the delete strategy; a definition without a contract of its own, whose meaning is stated by `GraphSorter.DiffBasedGraphSorter.AddDeletes`, `GraphSorter.StrategyDeletesFacts` |
| `GraphSorter.StrategyDeletesFacts` | src/main/java/io/resttestgen/implementation/operationssorter/DiffBasedGraphSorter.java:258-281 | every strategy picks distinct DELETEs, at most the drawn count, each mapped from a recorded POST or drawn from the pool; CORRESPONDING_ONLY only mapped ones, all of them unless the count is reached; MIXED starts with count / 2 mapped ones unless it lists all of them; RANDOM_ONLY only pool ones |
| `GraphSorter.PostsIgnoreDeletes` | src/main/java/io/resttestgen/implementation/operationssorter/DiffBasedGraphSorter.java:289 | appending DELETEs records no POST |
| `GraphSorter.CorrespondingStep` | src/main/java/io/resttestgen/implementation/operationssorter/DiffBasedGraphSorter.java:300-308 | one step of the backward walk |
| `GraphSorter.PostSuffix` | src/main/java/io/resttestgen/implementation/operationssorter/DiffBasedGraphSorter.java:361-364 | the kept suffix of a distinct POST order is a distinct list of POST nodes |
| `GraphSorter.DiffBasedGraphSorter.constructor` | src/main/java/io/resttestgen/implementation/operationssorter/DiffBasedGraphSorter.java:60-63 | the set-up builds the POST to DELETE map and the shuffled POST and DELETE lists, with 10 attempts and no strategy yet |
| `GraphSorter.DiffBasedGraphSorter.ComputePostToDeleteMap` | src/main/java/io/resttestgen/implementation/operationssorter/DiffBasedGraphSorter.java:110-131 | the map becomes the matches of every POST against every DELETE in vertex order, the rest of the state unchanged |
| `GraphSorter.DiffBasedGraphSorter.MatchAll` | src/main/java/io/resttestgen/implementation/operationssorter/DiffBasedGraphSorter.java:120-130 | the outer loop puts the matches of every walked POST |
| `GraphSorter.DiffBasedGraphSorter.PutMatches` | src/main/java/io/resttestgen/implementation/operationssorter/DiffBasedGraphSorter.java:123-129 | the inner loop leaves the entry of the last matching DELETE, or the map unchanged without one |
| `GraphSorter.DiffBasedGraphSorter.MatchMapValid` | src/main/java/io/resttestgen/implementation/operationssorter/DiffBasedGraphSorter.java:126-127 | the map keeps sending POST nodes to DELETE nodes |
| `GraphSorter.DiffBasedGraphSorter.ComputeAllPost` | src/main/java/io/resttestgen/implementation/operationssorter/DiffBasedGraphSorter.java:92-97 | the POST list gains all POST nodes, shuffled, the rest of the state unchanged |
| `GraphSorter.DiffBasedGraphSorter.ComputeAllDelete` | src/main/java/io/resttestgen/implementation/operationssorter/DiffBasedGraphSorter.java:101-106 | the DELETE list gains all DELETE nodes, shuffled, the rest of the state unchanged |
| `GraphSorter.DiffBasedGraphSorter.FindPrerequisiteChain` | src/main/java/io/resttestgen/implementation/operationssorter/DiffBasedGraphSorter.java:343-368 | the depth-first order holds distinct, not globally visited POSTs with their dependencies first, ends with the target when it is a new POST, and is cut to its last min(size, 1 + draw(5)) nodes |
| `GraphSorter.DiffBasedGraphSorter.TopologicalSortPostOnly` | src/main/java/io/resttestgen/implementation/operationssorter/DiffBasedGraphSorter.java:374-405 | an already seen node changes nothing; otherwise the node is marked, and a POST is emitted after every node its POST dependencies led to, each node once |
| `GraphSorter.DiffBasedGraphSorter.SearchNode` | src/main/java/io/resttestgen/implementation/operationssorter/DiffBasedGraphSorter.java:380-404 | a new node is visited, and a new POST is emitted last, after its searched dependencies |
| `GraphSorter.DiffBasedGraphSorter.SearchEdge` | src/main/java/io/resttestgen/implementation/operationssorter/DiffBasedGraphSorter.java:390-398 | one edge of the loop: a POST target outside the global set ends up visited |
| `GraphSorter.DiffBasedGraphSorter.EdgesSearched` | src/main/java/io/resttestgen/implementation/operationssorter/DiffBasedGraphSorter.java:390-398 | after the loop every POST target outside the global set is visited |
| `GraphSorter.DiffBasedGraphSorter.StartSearch` | src/main/java/io/resttestgen/implementation/operationssorter/DiffBasedGraphSorter.java:380 | entering a new node starts the search state |
| `GraphSorter.DiffBasedGraphSorter.ChildPre` | src/main/java/io/resttestgen/implementation/operationssorter/DiffBasedGraphSorter.java:395-396 | the recursive call on a POST dependency is allowed and terminates |
| `GraphSorter.DiffBasedGraphSorter.FinishSearch` | src/main/java/io/resttestgen/implementation/operationssorter/DiffBasedGraphSorter.java:400-404 | leaving a node emits it (if POST) after everything its loop emitted |
| `GraphSorter.DiffBasedGraphSorter.EmitOrdered` | src/main/java/io/resttestgen/implementation/operationssorter/DiffBasedGraphSorter.java:402-404 | emitting a POST whose dependencies were all searched keeps each node's dependencies before it |
| `GraphSorter.DiffBasedGraphSorter.ChildStep` | src/main/java/io/resttestgen/implementation/operationssorter/DiffBasedGraphSorter.java:396 | the search state after a recursive call has returned |
| `GraphSorter.DiffBasedGraphSorter.ExtendOrdered` | src/main/java/io/resttestgen/implementation/operationssorter/DiffBasedGraphSorter.java:396 | a search step that emits more nodes keeps the records of earlier ones |
| `GraphSorter.DiffBasedGraphSorter.EnqueuePrerequisites` | src/main/java/io/resttestgen/implementation/operationssorter/DiffBasedGraphSorter.java:192-201 | the first phase queues the chain's non-DELETE nodes, marks exactly them visited and records their POSTs |
| `GraphSorter.DiffBasedGraphSorter.EnqueueStep` | src/main/java/io/resttestgen/implementation/operationssorter/DiffBasedGraphSorter.java:239 | appending a pending consumer keeps every explored node after a node it depends on |
| `GraphSorter.DiffBasedGraphSorter.AddedConsumers` | src/main/java/io/resttestgen/implementation/operationssorter/DiffBasedGraphSorter.java:247-253 | every consumer added is an unvisited non-DELETE node that depends on the expanded node |
| `GraphSorter.DiffBasedGraphSorter.AppendExplored` | src/main/java/io/resttestgen/implementation/operationssorter/DiffBasedGraphSorter.java:231-244 | queueing a polled, unvisited, non-DELETE node keeps the exploration invariant |
| `GraphSorter.DiffBasedGraphSorter.ExtendQueue` | src/main/java/io/resttestgen/implementation/operationssorter/DiffBasedGraphSorter.java:239 | queueing a new non-DELETE node keeps the queue distinct and DELETE-free |
| `GraphSorter.DiffBasedGraphSorter.PendingStep` | src/main/java/io/resttestgen/implementation/operationssorter/DiffBasedGraphSorter.java:247-253 | after a node is queued and its consumers added, every pending node depends on a queued one |
| `GraphSorter.DiffBasedGraphSorter.PendingRemove` | src/main/java/io/resttestgen/implementation/operationssorter/DiffBasedGraphSorter.java:225 | polling a pending node keeps the others' property |
| `GraphSorter.DiffBasedGraphSorter.ExploreConsumers` | src/main/java/io/resttestgen/implementation/operationssorter/DiffBasedGraphSorter.java:203-254 | the second phase keeps the chain as prefix, queues only distinct non-DELETE nodes each depending on an earlier one, never beyond the depth, and records the POSTs; when it stops short of the depth, every non-DELETE consumer of a queued node is queued |
| `GraphSorter.DiffBasedGraphSorter.ChainConsumers` | src/main/java/io/resttestgen/implementation/operationssorter/DiffBasedGraphSorter.java:214-222 | the loop over the chain leaves pending only non-DELETE nodes depending on a queued node, and every unvisited non-DELETE consumer of a chain node pending |
| `GraphSorter.DiffBasedGraphSorter.ChainStep` | src/main/java/io/resttestgen/implementation/operationssorter/DiffBasedGraphSorter.java:215-221 | the consumers of one more chain node keep both properties |
| `GraphSorter.DiffBasedGraphSorter.PollConsumers` | src/main/java/io/resttestgen/implementation/operationssorter/DiffBasedGraphSorter.java:224-254 | the polling loop keeps the exploration invariant and, when the queue ends below maxDepth, leaves every non-DELETE consumer of a queued node queued |
| `GraphSorter.DiffBasedGraphSorter.PollOnce` | src/main/java/io/resttestgen/implementation/operationssorter/DiffBasedGraphSorter.java:225-253 | one round keeps the loop invariant and marks a new node visited or shortens the pending list |
| `GraphSorter.DiffBasedGraphSorter.PollSkip` | src/main/java/io/resttestgen/implementation/operationssorter/DiffBasedGraphSorter.java:227-229 | dropping a polled node that is already visited keeps the loop invariant |
| `GraphSorter.DiffBasedGraphSorter.PollAppend` | src/main/java/io/resttestgen/implementation/operationssorter/DiffBasedGraphSorter.java:231-253 | queueing a polled unvisited node and adding its consumers keeps the loop invariant |
| `GraphSorter.DiffBasedGraphSorter.FrontierSkip` | src/main/java/io/resttestgen/implementation/operationssorter/DiffBasedGraphSorter.java:227-229 | dropping a visited node keeps every consumer of a queued node visited or pending |
| `GraphSorter.DiffBasedGraphSorter.FrontierStep` | src/main/java/io/resttestgen/implementation/operationssorter/DiffBasedGraphSorter.java:231-253 | queueing the polled node and adding its consumers keeps every consumer of a queued node visited or pending, and the visited nodes queued |
| `GraphSorter.DiffBasedGraphSorter.FrontierDone` | src/main/java/io/resttestgen/implementation/operationssorter/DiffBasedGraphSorter.java:224 | when the loop ends below maxDepth nothing is pending, so every non-DELETE consumer of a queued node is queued |
| `GraphSorter.DiffBasedGraphSorter.AddCorrespondingDeletes` | src/main/java/io/resttestgen/implementation/operationssorter/DiffBasedGraphSorter.java:298-309 | the backward loop yields the mapped DELETEs of the recorded POSTs, last first, each once, until maxCount are listed |
| `GraphSorter.DiffBasedGraphSorter.AddRandomDeletes` | src/main/java/io/resttestgen/implementation/operationssorter/DiffBasedGraphSorter.java:314-330 | nothing without DELETE nodes; otherwise the draws of the loop |
| `GraphSorter.DiffBasedGraphSorter.AddDeletes` | src/main/java/io/resttestgen/implementation/operationssorter/DiffBasedGraphSorter.java:258-281 | the strategy switch: corresponding, random, or count / 2 corresponding then the rest random |
| `GraphSorter.DiffBasedGraphSorter.BuildSequence` | src/main/java/io/resttestgen/implementation/operationssorter/DiffBasedGraphSorter.java:137-293 | the depth is 5 + draw(21), the strategy a draw of three; it fails with the source's message iff there is no POST, and otherwise yields a generated sequence |
| `GraphSorter.DiffBasedGraphSorter.ChooseTarget` | src/main/java/io/resttestgen/implementation/operationssorter/DiffBasedGraphSorter.java:151-172 | a target is found iff there is a POST, and is a POST among the candidates of the 80% draw |
| `GraphSorter.DiffBasedGraphSorter.BuildFrom` | src/main/java/io/resttestgen/implementation/operationssorter/DiffBasedGraphSorter.java:178-289 | the three phases yield a generated sequence for the drawn DELETE count (1 to 5) whose chain ends with the target |
| `GraphSorter.DiffBasedGraphSorter.PickDeletes` | src/main/java/io/resttestgen/implementation/operationssorter/DiffBasedGraphSorter.java:256-281 | the third phase's picks are distinct DELETEs as the strategy allows |
| `GraphSorter.DiffBasedGraphSorter.BuildPrefix` | src/main/java/io/resttestgen/implementation/operationssorter/DiffBasedGraphSorter.java:178-254 | the first two phases: distinct non-DELETE nodes, at most depth of them, starting with a chain of 1 to 5 POSTs ending with the target, each later node consuming an earlier one, and closed under non-DELETE consumers when shorter than depth |
| `GraphSorter.DiffBasedGraphSorter.PrerequisitesOf` | src/main/java/io/resttestgen/implementation/operationssorter/DiffBasedGraphSorter.java:178-201 | searched with nothing visited, the chain holds 1 to 5 distinct POSTs and ends with the target, so the queue is never empty |
| `GraphSorter.DiffBasedGraphSorter.ExploreFrom` | src/main/java/io/resttestgen/implementation/operationssorter/DiffBasedGraphSorter.java:192-254 | the queued chain followed by the explored consumers form such a prefix |
| `GraphSorter.DiffBasedGraphSorter.ChainPrefix` | src/main/java/io/resttestgen/implementation/operationssorter/DiffBasedGraphSorter.java:192-201 | the explored nodes start with the chain's POSTs |
| `GraphSorter.DiffBasedGraphSorter.Assemble` | src/main/java/io/resttestgen/implementation/operationssorter/DiffBasedGraphSorter.java:289 | the prefix followed by the picked DELETEs is a generated sequence: deletes last, no duplicates, at most depth non-DELETEs and at most the drawn count (1 to 5) of DELETEs, picked as the strategy says |
| `GraphSorter.DiffBasedGraphSorter.EmptyCurrentQueue` | src/main/java/io/resttestgen/implementation/operationssorter/DiffBasedGraphSorter.java:458-462 | the queue ends empty |
| `GraphSorter.DiffBasedGraphSorter.GetTestSequence` | src/main/java/io/resttestgen/implementation/operationssorter/DiffBasedGraphSorter.java:134-293 | records the drawn depth and strategy; fails without POST nodes leaving the queue empty, and otherwise fills it with a generated sequence |
| `GraphSorter.DiffBasedGraphSorter.GetMaximumAttempts` | src/main/java/io/resttestgen/implementation/operationssorter/DiffBasedGraphSorter.java:498-500 | the stored number of attempts, at least 1 |
| `GraphSorter.DiffBasedGraphSorter.SetMaximumAttempts` | src/main/java/io/resttestgen/implementation/operationssorter/DiffBasedGraphSorter.java:502-507 | a value below 1 fails with the source's message and leaves the field unchanged; any other is stored |
| `GraphSorter.NewSorter` | src/main/java/io/resttestgen/implementation/operationssorter/DiffBasedGraphSorter.java:60-65 | a new sorter over a graph: the match map, and the first sequence, which fails iff the graph has no POST operation |
| `SorterTest.FirstClose` | src/test/java/io/resttestgen/implementation/operationssorter/DiffBasedGraphSorterTest.java:294 | absent iff the text has no '}'; otherwise the index of a '}' with none before it |
| `SorterTest.Normalize` | src/test/java/io/resttestgen/implementation/operationssorter/DiffBasedGraphSorterTest.java:291-295 | replacing every match of `\{[^}]+\}` by "{}" never lengthens the text |
| `SorterTest.NormalizeText` | src/test/java/io/resttestgen/implementation/operationssorter/DiffBasedGraphSorterTest.java:294 | text without '{' is left as it is |
| `SorterTest.NormalizeAfterText` | src/test/java/io/resttestgen/implementation/operationssorter/DiffBasedGraphSorterTest.java:294 | a leading text without '{' passes through unchanged before the rest is normalised |
| `SorterTest.FirstCloseAfter` | src/test/java/io/resttestgen/implementation/operationssorter/DiffBasedGraphSorterTest.java:294 | the first '}' after a text free of '}' is the one right after it |
| `SorterTest.NormalizeParameter` | src/test/java/io/resttestgen/implementation/operationssorter/DiffBasedGraphSorterTest.java:294 | a segment "{p}" with p non-empty and free of '}' becomes "{}" |
| `SorterTest.NormalizeEmptyBraces` | src/test/java/io/resttestgen/implementation/operationssorter/DiffBasedGraphSorterTest.java:294 | "{}" is no match (the pattern needs one character inside) and stays |
| `SorterTest.NormalizeOneParameter` | src/test/java/io/resttestgen/implementation/operationssorter/DiffBasedGraphSorterTest.java:293-294 | one parameter segment between texts without braces: only the segment becomes "{}", as in the example /projects/{id}/badges |
| `SorterTest.NormalizeNoClose` | src/test/java/io/resttestgen/implementation/operationssorter/DiffBasedGraphSorterTest.java:294 | normalising never introduces a '}' |
| `SorterTest.NormalFixed` | src/test/java/io/resttestgen/implementation/operationssorter/DiffBasedGraphSorterTest.java:294 | a text the pattern matches nowhere is its own normal form |
| `SorterTest.NormalizeIsNormal` | src/test/java/io/resttestgen/implementation/operationssorter/DiffBasedGraphSorterTest.java:294 | the pattern matches nowhere in a normalised text |
| `SorterTest.NormalizeIdempotent` | src/test/java/io/resttestgen/implementation/operationssorter/DiffBasedGraphSorterTest.java:291-295 | normalising twice is normalising once |
| `SorterTest.LastIndexOf` | src/test/java/io/resttestgen/implementation/operationssorter/DiffBasedGraphSorterTest.java:304 | -1 iff the character is absent; otherwise an index holding it with none after it |
| `SorterTest.LastIndexOfAt` | src/test/java/io/resttestgen/implementation/operationssorter/DiffBasedGraphSorterTest.java:304 | an index holding the character with none after it is the last index |
| `SorterTest.LastSegmentTest` | src/test/java/io/resttestgen/implementation/operationssorter/DiffBasedGraphSorterTest.java:304-310 | the test on the last slash (past index 0, followed by exactly "{}") passes only for a normalised endpoint ending in such a segment |
| `SorterTest.ExtractBaseResourcePath` | src/test/java/io/resttestgen/implementation/operationssorter/DiffBasedGraphSorterTest.java:301-312 | extractBaseResourcePath; a definition without a contract of its own, whose meaning is stated by `SorterTest.BasePathMeaning`, `SorterTest.BasePathDropsParameter`, `SorterTest.BasePathTwoSegments` |
| `SorterTest.BasePathMeaning` | src/test/java/io/resttestgen/implementation/operationssorter/DiffBasedGraphSorterTest.java:301-312 | the base path is the normalised endpoint without its last three characters "/{}" exactly when it ends in a parameter segment whose slash is not its first character, and the whole normalised endpoint otherwise |
| `SorterTest.NormalizeTwoParameters` | src/test/java/io/resttestgen/implementation/operationssorter/DiffBasedGraphSorterTest.java:294 | two parameter segments, each after a text without braces, both become "{}" |
| `SorterTest.BasePathDropsParameter` | src/test/java/io/resttestgen/implementation/operationssorter/DiffBasedGraphSorterTest.java:301-312 | a normalised endpoint x/{} with x non-empty has base path x |
| `SorterTest.BasePathTwoSegments` | src/test/java/io/resttestgen/implementation/operationssorter/DiffBasedGraphSorterTest.java:299-312 | an endpoint a{p}b/{p'} has base path a{}b, as in the example /projects/{id}/badges/{badge_id} to /projects/{}/badges |
| `SorterTest.DeletesAtEnd` | src/test/java/io/resttestgen/implementation/operationssorter/DiffBasedGraphSorterTest.java:228-237 | the test's "no operation after a DELETE but DELETEs" check; a definition without a contract of its own, whose meaning is stated by `SorterTest.CheckDeletesAtEnd`, `SorterTest.DeletesLastOperations`, `SorterTest.GeneratedShape` |
| `SorterTest.QueueOperations` | src/test/java/io/resttestgen/implementation/operationssorter/DiffBasedGraphSorterTest.java:219 | the operation list copied from the queue has one operation per node id, in order |
| `SorterTest.CheckDeletesAtEnd` | src/test/java/io/resttestgen/implementation/operationssorter/DiffBasedGraphSorterTest.java:228-237 | the loop of the test succeeds iff no non-DELETE operation follows a DELETE |
| `SorterTest.DeletesLastOperations` | src/test/java/io/resttestgen/implementation/operationssorter/DiffBasedGraphSorterTest.java:224-240 | an operation list has its DELETEs at the end iff the node queue keeps its DELETE nodes last |
| `SorterTest.GeneratedShape` | src/test/java/io/resttestgen/implementation/operationssorter/DiffBasedGraphSorterTest.java:217-240 | every generated sequence is non-empty and has its DELETEs at the end |
| `SorterTest.SequenceTests` | src/test/java/io/resttestgen/implementation/operationssorter/DiffBasedGraphSorterTest.java:217-240 | on a sorter from any graph and random stream: the set-up fails only without POST operations, and otherwise both the non-empty and the DELETEs-at-end assertions hold |
| `OracleValues.ToJava` | src/main/java/io/resttestgen/implementation/oracle/SqlDiffOracle.java:514-535 | parsedToJava: null exactly for JSON null; an array becomes a List of the converted elements and an object a Map of its keys with the converted values, in order |
| `OracleValues.ItemsWeightAt` | src/main/java/io/resttestgen/implementation/oracle/SqlDiffOracle.java:429-472 | each item from index i on weighs no more than the items from i on, so the walk's recursion descends |
| `OracleValues.ListItemLighter` | src/main/java/io/resttestgen/implementation/oracle/SqlDiffOracle.java:461-463 | each item of a List weighs less than the List |
| `OracleValues.MapEntryLighter` | src/main/java/io/resttestgen/implementation/oracle/SqlDiffOracle.java:433-436 | each entry value of a Map weighs less than the Map |
| `OracleValues.ToString` | src/main/java/io/resttestgen/implementation/oracle/SqlDiffOracle.java:563 | Object.toString of a converted value; a definition without a contract of its own, whose meaning is stated by `OracleValues.TryParseBooleanMeaning`, `OracleValues.ObjectsEqualBooleanText` |
| `OracleValues.Trim` | src/main/java/io/resttestgen/implementation/oracle/SqlDiffOracle.java:600 | String.trim; a definition without a contract of its own, whose meaning is stated by `OracleValues.TrimStart`, `OracleValues.TrimEnd`, `OracleValues.TrimOfWord`, `OracleSequence.ParseResponse` |
| `OracleValues.TrimStart` | src/main/java/io/resttestgen/implementation/oracle/SqlDiffOracle.java:600 | the leading characters up to U+0020 are dropped: a suffix that starts with a character above U+0020 unless empty |
| `OracleValues.TrimEnd` | src/main/java/io/resttestgen/implementation/oracle/SqlDiffOracle.java:600 | the trailing characters up to U+0020 are dropped: a prefix that ends with a character above U+0020 unless empty |
| `OracleValues.Lower` | src/main/java/io/resttestgen/implementation/oracle/SqlDiffOracle.java:634 | lower-casing keeps the length and maps exactly A to Z onto a to z |
| `OracleValues.TryParseDouble` | src/main/java/io/resttestgen/implementation/oracle/SqlDiffOracle.java:596-606 | tryParseDouble: a number as is, otherwise the parsed trimmed text; a definition without a contract of its own, whose meaning is stated by `OracleValues.ObjectsEqualNumbers`, `OracleValues.DecideByNumber` |
| `OracleValues.TryParseInstant` | src/main/java/io/resttestgen/implementation/oracle/SqlDiffOracle.java:608-629 | tryParseInstant: a timestamp as is, otherwise the parsed trimmed text, in epoch milliseconds; a definition without a contract of its own, whose meaning is stated by `OracleValues.ObjectsEqualInstants`, `OracleValues.DecideByMillis` |
| `OracleValues.TryParseBoolean` | src/main/java/io/resttestgen/implementation/oracle/SqlDiffOracle.java:631-637 | tryParseBoolean; a definition without a contract of its own, whose meaning is stated by `OracleValues.TryParseBooleanMeaning` |
| `OracleValues.TryParseBooleanMeaning` | src/main/java/io/resttestgen/implementation/oracle/SqlDiffOracle.java:631-637 | null gives nothing, a Boolean itself; anything else is true or false exactly when its trimmed, lower-cased text is "true" or "false" |
| `OracleValues.ObjectsEqual` | src/main/java/io/resttestgen/implementation/oracle/SqlDiffOracle.java:541-564 | objectsEqual: null, number, timestamp and boolean cases, then the texts; a definition without a contract of its own, whose meaning is stated by `OracleValues.ObjectsEqualSymmetric`, `OracleValues.ObjectsEqualNull`, `OracleValues.ObjectsEqualNumbers`, `OracleValues.ObjectsEqualInstants`, `OracleValues.ObjectsEqualBooleanText` |
| `OracleValues.DecideSymmetric` | src/main/java/io/resttestgen/implementation/oracle/SqlDiffOracle.java:544-563 | the cascade of number, timestamp, boolean and text tests gives the same answer with the sides swapped |
| `OracleValues.ObjectsEqualSymmetric` | src/main/java/io/resttestgen/implementation/oracle/SqlDiffOracle.java:541-564 | objectsEqual is symmetric |
| `OracleValues.ObjectsEqualNull` | src/main/java/io/resttestgen/implementation/oracle/SqlDiffOracle.java:542-543 | two nulls are equal, and null equals no other object |
| `OracleValues.ObjectsEqualNumbers` | src/main/java/io/resttestgen/implementation/oracle/SqlDiffOracle.java:545-549 | two numbers are equal exactly when their values are within 1e-6, whatever their texts |
| `OracleValues.DecideByNumber` | src/main/java/io/resttestgen/implementation/oracle/SqlDiffOracle.java:547-549 | when both sides read as numbers, only the tolerance of 1e-6 decides |
| `OracleValues.ObjectsEqualInstants` | src/main/java/io/resttestgen/implementation/oracle/SqlDiffOracle.java:551-555 | two timestamps that do not read as numbers are equal exactly when their epoch milliseconds are within 1000 |
| `OracleValues.DecideByMillis` | src/main/java/io/resttestgen/implementation/oracle/SqlDiffOracle.java:551-555 | when neither number test applies and both read as timestamps, only the one-second tolerance decides |
| `OracleValues.ObjectsEqualBooleanText` | src/main/java/io/resttestgen/implementation/oracle/SqlDiffOracle.java:557-561 | a text reading as a boolean but not as a number or timestamp equals a Boolean exactly when its trimmed, lower-cased text is "true" iff the Boolean is true |
| `OracleValues.DecideByBoolean` | src/main/java/io/resttestgen/implementation/oracle/SqlDiffOracle.java:557-561 | when no earlier test applies and both read as booleans, only their equality decides |
| `OracleValues.TrimOfWord` | src/main/java/io/resttestgen/implementation/oracle/SqlDiffOracle.java:600 | a text whose first and last characters are above U+0020 is its own trim |
| `OracleCompare.Find` | src/main/java/io/resttestgen/implementation/oracle/SqlDiffOracle.java:435 | a map lookup: absent iff no entry has the key; otherwise an entry with the key holds the value |
| `OracleCompare.FindDistinct` | src/main/java/io/resttestgen/implementation/oracle/SqlDiffOracle.java:435 | when no two entries share a key, the lookup of an entry's key yields that entry's value |
| `OracleCompare.DisplayPath` | src/main/java/io/resttestgen/implementation/oracle/SqlDiffOracle.java:335 | the display path of a field: its key at the top, parent.key below; a definition without a contract of its own, whose meaning is stated by `OracleProperties.DisplayPathLead`, `OracleParameters.DisplayPathEndsWithKey`, `OracleParameters.PathOfDotted` |
| `OracleCompare.ValueDiffs` | src/main/java/io/resttestgen/implementation/oracle/SqlDiffOracle.java:419-508 | compareValueRecursive; a definition without a contract of its own, whose meaning is stated by `OracleWalk.CompareValueRecursive`, `OracleProperties.ValueDiffsUnder`, `OracleProperties.LeafRecord`, `OracleProperties.ListAgainstNonArray`, `OracleProperties.BothNullNothing`, `OracleProperties.NumberLeaf`, `OracleProperties.NullAgainstValue` |
| `OracleCompare.MapDiffs` | src/main/java/io/resttestgen/implementation/oracle/SqlDiffOracle.java:433-437 | the entry loop of compareValueRecursive over a SQL map; a definition without a contract of its own, whose meaning is stated by `OracleWalk.CompareEntries`, `OracleProperties.MapDiffsUnder` |
| `OracleCompare.MissingKeys` | src/main/java/io/resttestgen/implementation/oracle/SqlDiffOracle.java:439-450 | the MISSING_IN_SQL records for map keys the JSON object lacks; a definition without a contract of its own, whose meaning is stated by `OracleWalk.AppendMissingKeys`, `OracleProperties.MissingKeysUnder`, `OracleProperties.MissingKeysSound`, `OracleProperties.MissingKeysComplete` |
| `OracleCompare.ListDiffs` | src/main/java/io/resttestgen/implementation/oracle/SqlDiffOracle.java:455-464 | the index loop of compareValueRecursive up to the longer length; a definition without a contract of its own, whose meaning is stated by `OracleWalk.CompareItems`, `OracleProperties.ListDiffsUnder`, `OracleProperties.ListOfLeaves`, `OracleProperties.LeafAt` |
| `OracleCompare.FieldDiffs` | src/main/java/io/resttestgen/implementation/oracle/SqlDiffOracle.java:343-410 | one non-object field of flattenAndCompareJsonObject: its column, then MISSING_IN_SQL or the walk; a definition without a contract of its own, whose meaning is stated by `OracleWalk.CompareField`, `OracleProperties.FieldRecords` |
| `OracleCompare.FlattenDiffs` | src/main/java/io/resttestgen/implementation/oracle/SqlDiffOracle.java:327-413 | flattenAndCompareJsonObject: the records and the matched columns; a definition without a contract of its own, whose meaning is stated by `OracleWalk.FlattenAndCompareJsonObject`, `OracleProperties.FlattenRecords` |
| `OracleCompare.MemberDiffs` | src/main/java/io/resttestgen/implementation/oracle/SqlDiffOracle.java:333-411 | one member of the object: a nested object flattens under its display path; a definition without a contract of its own, whose meaning is stated by `OracleWalk.FlattenMember`, `OracleProperties.MemberRecords` |
| `OracleCompare.IsIdColumn` | src/main/java/io/resttestgen/implementation/oracle/SqlDiffOracle.java:295 | equalsIgnoreCase("id"); a definition without a contract of its own, whose meaning is stated by `OracleProperties.UnmatchedSound`, `OracleProperties.UnmatchedComplete`, `OracleProperties.UnreferencedColumnsReportedOnce` |
| `OracleCompare.UnmatchedColumns` | src/main/java/io/resttestgen/implementation/oracle/SqlDiffOracle.java:287-306 | the MISSING_IN_API loop of compareRowAndJson; a definition without a contract of its own, whose meaning is stated by `OracleWalk.AppendUnmatchedColumns`, `OracleProperties.UnmatchedSound`, `OracleProperties.UnmatchedComplete`, `OracleProperties.UnmatchedCount` |
| `OracleCompare.RowDiffs` | src/main/java/io/resttestgen/implementation/oracle/SqlDiffOracle.java:260-309 | compareRowAndJson; a definition without a contract of its own, whose meaning is stated by `OracleWalk.CompareRowAndJson`, `OracleProperties.RowAbsent`, `OracleProperties.UnreferencedColumnsReported`, `OracleProperties.UnreferencedColumnsReportedOnce`, `OracleProperties.ReportedColumnsUnreferenced` |
| `OracleCompare.NatToString` | src/main/java/io/resttestgen/implementation/oracle/SqlDiffOracle.java:463 | the decimal text of an index is never empty |
| `OracleCompare.ItemAtLighter` | src/main/java/io/resttestgen/implementation/oracle/SqlDiffOracle.java:461 | the SQL side of any index, null past the end, weighs less than the List |
| `OracleWalk.CompareValueRecursive` | src/main/java/io/resttestgen/implementation/oracle/SqlDiffOracle.java:419-508 | the records appended are exactly those the value walk describes: nothing for two nulls, map and list descent, JSON text in a SQL string compared structurally, and one leaf record otherwise |
| `OracleWalk.CompareEntries` | src/main/java/io/resttestgen/implementation/oracle/SqlDiffOracle.java:433-437 | the loop over the SQL map appends the records of each entry against the JSON field of its key, in the map's order |
| `OracleWalk.CompareItems` | src/main/java/io/resttestgen/implementation/oracle/SqlDiffOracle.java:458-464 | the loop appends the records of every index up to the larger length, null or absent past an end |
| `OracleWalk.AppendMissingKeys` | src/main/java/io/resttestgen/implementation/oracle/SqlDiffOracle.java:439-450 | the loop appends one MISSING_IN_SQL record per JSON key the map lacks, in the object's order |
| `OracleWalk.CompareField` | src/main/java/io/resttestgen/implementation/oracle/SqlDiffOracle.java:343-410 | a non-object field resolves its column; a missing column gives one MISSING_IN_SQL record, a present one is matched and compared (a SQL string holding JSON parsed first when the field is an array) |
| `OracleWalk.FlattenAndCompareJsonObject` | src/main/java/io/resttestgen/implementation/oracle/SqlDiffOracle.java:327-413 | the loop over an object's fields appends the records and adds the matched columns the flattening describes |
| `OracleWalk.FlattenMember` | src/main/java/io/resttestgen/implementation/oracle/SqlDiffOracle.java:333-411 | one field: a nested object is flattened under the dotted display path, any other field is compared |
| `OracleWalk.AppendUnmatchedColumns` | src/main/java/io/resttestgen/implementation/oracle/SqlDiffOracle.java:287-306 | the loop over the row appends one MISSING_IN_API record for each unmatched column that is not an id column, in the row's order |
| `OracleWalk.CompareRowAndJson` | src/main/java/io/resttestgen/implementation/oracle/SqlDiffOracle.java:260-309 | the differences are the row comparison: nothing when both are absent, else the flattening records followed by the unmatched columns |
| `OracleProperties.PrefixTransitive` | src/main/java/io/resttestgen/implementation/oracle/SqlDiffOracle.java:434 | a prefix of a prefix is a prefix |
| `OracleProperties.WalkRecordsConcat` | src/main/java/io/resttestgen/implementation/oracle/SqlDiffOracle.java:433-450 | records under a path stay under it when joined |
| `OracleProperties.WalkRecordsWeaken` | src/main/java/io/resttestgen/implementation/oracle/SqlDiffOracle.java:434 | records under a longer path lie under any prefix of it |
| `OracleProperties.KeyPathExtends` | src/main/java/io/resttestgen/implementation/oracle/SqlDiffOracle.java:434 | the path of a map key extends its parent's |
| `OracleProperties.IndexPathExtends` | src/main/java/io/resttestgen/implementation/oracle/SqlDiffOracle.java:463 | the path of a list index extends its parent's |
| `OracleProperties.ValueDiffsUnder` | src/main/java/io/resttestgen/implementation/oracle/SqlDiffOracle.java:419-508 | every record compareValueRecursive appends has its call's path as a prefix and names no SQL column |
| `OracleProperties.MapDiffsUnder` | src/main/java/io/resttestgen/implementation/oracle/SqlDiffOracle.java:429-451 | the same for the records of a map comparison |
| `OracleProperties.ListDiffsUnder` | src/main/java/io/resttestgen/implementation/oracle/SqlDiffOracle.java:455-475 | the same for the records of a list comparison |
| `OracleProperties.MissingKeysUnder` | src/main/java/io/resttestgen/implementation/oracle/SqlDiffOracle.java:439-450 | the same for the MISSING_IN_SQL records of missing keys |
| `OracleProperties.LeafRecord` | src/main/java/io/resttestgen/implementation/oracle/SqlDiffOracle.java:492-507 | a primitive leaf, unless both sides are null, gives one record at the path holding both values: MISSING_IN_API iff the API side is null or absent, EQUAL iff it is present and equal, VALUE_MISMATCH iff present and not equal |
| `OracleProperties.ListAgainstNonArray` | src/main/java/io/resttestgen/implementation/oracle/SqlDiffOracle.java:466-473 | a SQL list against anything but an array gives one TYPE_MISMATCH record with the list and whether the API side was present |
| `OracleProperties.BothNullNothing` | src/main/java/io/resttestgen/implementation/oracle/SqlDiffOracle.java:424-426 | two absent or null sides give no record |
| `OracleProperties.MissingKeysSound` | src/main/java/io/resttestgen/implementation/oracle/SqlDiffOracle.java:439-450 | every MISSING_IN_SQL record of a map comparison is that of a JSON key the map lacks |
| `OracleProperties.MissingKeysComplete` | src/main/java/io/resttestgen/implementation/oracle/SqlDiffOracle.java:439-450 | every JSON key the map lacks has its MISSING_IN_SQL record |
| `OracleProperties.ListOfLeaves` | src/main/java/io/resttestgen/implementation/oracle/SqlDiffOracle.java:458-464 | two lists of primitives give one record per index up to the longer length, record k being the leaf record at path[k] |
| `OracleProperties.ConsLeaves` | src/main/java/io/resttestgen/implementation/oracle/SqlDiffOracle.java:460-464 | one leaf record followed by those of the next indices are the records from that index |
| `OracleProperties.LeafAt` | src/main/java/io/resttestgen/implementation/oracle/SqlDiffOracle.java:460-464 | a primitive index gives its leaf record followed by the records of the later indices |
| `OracleProperties.FlatRecordsConcat` | src/main/java/io/resttestgen/implementation/oracle/SqlDiffOracle.java:332-412 | flattening records stay flattening records when joined |
| `OracleProperties.FlatRecordsWeaken` | src/main/java/io/resttestgen/implementation/oracle/SqlDiffOracle.java:335 | flattening records under a longer lead lie under any prefix of it |
| `OracleProperties.WalkRecordsAreFlat` | src/main/java/io/resttestgen/implementation/oracle/SqlDiffOracle.java:373-409 | the value walk's records, under a present row, are flattening records |
| `OracleProperties.DisplayPathLead` | src/main/java/io/resttestgen/implementation/oracle/SqlDiffOracle.java:335 | a field's display path, and the lead below it, extend the parent's lead |
| `OracleProperties.FieldRecords` | src/main/java/io/resttestgen/implementation/oracle/SqlDiffOracle.java:343-410 | a non-object field's records lie under its display path, name a column only as MISSING_IN_SQL for a column the row lacks, and its column is matched exactly when the row has it; when the row is absent or lacks the column, the field gives exactly one MISSING_IN_SQL record naming that column and holding the API value |
| `OracleProperties.FlattenRecords` | src/main/java/io/resttestgen/implementation/oracle/SqlDiffOracle.java:327-413 | the flattening's records have paths under the parent's lead, those naming a column are MISSING_IN_SQL for a column the row lacks, and the matched columns are exactly the leaf columns the row has |
| `OracleProperties.MemberRecords` | src/main/java/io/resttestgen/implementation/oracle/SqlDiffOracle.java:333-411 | the same for one field, nested or not |
| `OracleProperties.UnmatchedSound` | src/main/java/io/resttestgen/implementation/oracle/SqlDiffOracle.java:288-304 | every MISSING_IN_API record of the column check is that of a column neither matched nor an id column |
| `OracleProperties.UnmatchedComplete` | src/main/java/io/resttestgen/implementation/oracle/SqlDiffOracle.java:288-304 | every column neither matched nor an id column has its MISSING_IN_API record |
| `OracleProperties.FlatPart` | src/main/java/io/resttestgen/implementation/oracle/SqlDiffOracle.java:260-309 | the row comparison is the flattening's records followed, for a present row, by the unmatched columns; the matched columns are the leaf columns of the element that the row has |
| `OracleProperties.RowAbsent` | src/main/java/io/resttestgen/implementation/oracle/SqlDiffOracle.java:262-280 | both sides absent gives no record; with the row absent every record is a MISSING_IN_SQL naming a column |
| `OracleProperties.UnreferencedColumnsReported` | src/main/java/io/resttestgen/implementation/oracle/SqlDiffOracle.java:260-309 | every column of a present row that no leaf field of the element resolves to, id columns excepted, has a MISSING_IN_API record with its value (`UnreferencedColumnsReportedOnce` gives the exact count) |
| `OracleProperties.UnreferencedColumnsReportedOnce` | src/main/java/io/resttestgen/implementation/oracle/SqlDiffOracle.java:286-306 | when the row's column names are distinct, as in the source's map, a column is named by exactly one MISSING_IN_API record if no leaf field resolves to it and it is not an id column, and by none otherwise |
| `OracleProperties.UnmatchedCount` | src/main/java/io/resttestgen/implementation/oracle/SqlDiffOracle.java:287-305 | with distinct column names, the column check from index i on reports column j once when j >= i and j is neither matched nor id, otherwise never |
| `OracleProperties.ApiMissConcat` | src/main/java/io/resttestgen/implementation/oracle/SqlDiffOracle.java:303 | MISSING_IN_API counts add up over concatenated record lists |
| `OracleProperties.ApiMissNone` | src/main/java/io/resttestgen/implementation/oracle/SqlDiffOracle.java:343-410 | a list with no column-naming MISSING_IN_API record counts zero for every column |
| `OracleProperties.ReportedColumnsUnreferenced` | src/main/java/io/resttestgen/implementation/oracle/SqlDiffOracle.java:260-309 | conversely, every MISSING_IN_API record naming a column is that of such a column |
| `OracleProperties.FlatNotMissingInApi` | src/main/java/io/resttestgen/implementation/oracle/SqlDiffOracle.java:327-413 | the flattening never produces a MISSING_IN_API record naming a column |
| `OracleProperties.UnmatchedIsUnreferenced` | src/main/java/io/resttestgen/implementation/oracle/SqlDiffOracle.java:290-295 | a column the flattening did not match is one no leaf field of the element resolves to |
| `OracleProperties.NumberLeaf` | src/main/java/io/resttestgen/implementation/oracle/SqlDiffOracle.java:497-505 | with objectsEqual, a SQL number against a JSON number is EQUAL exactly within 1e-6 |
| `OracleProperties.NullAgainstValue` | src/main/java/io/resttestgen/implementation/oracle/SqlDiffOracle.java:497-505 | with objectsEqual, a SQL null against a present API value is a VALUE_MISMATCH |
| `OracleParameters.ParamEntries` | src/main/java/io/resttestgen/implementation/oracle/SqlDiffOracle.java:688-706 | extractParametersRecursive; a definition without a contract of its own, whose meaning is stated by `OracleParameters.ExtractParametersRecursive`, `OracleParameters.ParamEntriesAreLeaves`, `OracleParameters.BodyEntryPaths` |
| `OracleParameters.ChildEntries` | src/main/java/io/resttestgen/implementation/oracle/SqlDiffOracle.java:694-696 | the loop of extractParametersRecursive over the children; a definition without a contract of its own, whose meaning is stated by `OracleParameters.ExtractChildren`, `OracleParameters.ChildEntriesAreLeaves` |
| `OracleParameters.ExtractParametersRecursive` | src/main/java/io/resttestgen/implementation/oracle/SqlDiffOracle.java:688-706 | appends to the list exactly the entries of the parameter's leaves below the parent path |
| `OracleParameters.ExtractChildren` | src/main/java/io/resttestgen/implementation/oracle/SqlDiffOracle.java:694-696 | the loop appends the entries of each child in order |
| `OracleParameters.EntriesOfLeavesConcat` | src/main/java/io/resttestgen/implementation/oracle/SqlDiffOracle.java:694-696 | entries of leaves join into entries of the joined leaves |
| `OracleParameters.EntriesOfLeavesWeaken` | src/main/java/io/resttestgen/implementation/oracle/SqlDiffOracle.java:689 | entries under a longer lead lie under any prefix of it |
| `OracleParameters.DisplayPathEndsWithKey` | src/main/java/io/resttestgen/implementation/oracle/SqlDiffOracle.java:689 | a parameter's path ends with its name |
| `OracleParameters.ParamEntriesAreLeaves` | src/main/java/io/resttestgen/implementation/oracle/SqlDiffOracle.java:688-706 | one entry per leaf, in order, with the leaf's name, formatted value and type ("unknown" without one) under a dotted path that extends the parent path and ends with the leaf's name; a structured parameter has no entry of its own; entry k's path is the one reached from the parent path by descending through chain k of `LeafChains`, the names from the parameter down to leaf k, and each chain starts at the parameter's name and ends at its leaf's name |
| `OracleParameters.ChildEntriesAreLeaves` | src/main/java/io/resttestgen/implementation/oracle/SqlDiffOracle.java:691-696 | the same for the children of a structured parameter: one entry per leaf, its path reached from the parent's path through that leaf's chain of names |
| `OracleParameters.LeafChainsOfLeaves` | src/main/java/io/resttestgen/implementation/oracle/SqlDiffOracle.java:689-695 | a tree has one chain of names per leaf, each from the tree's own name down to that leaf's name |
| `OracleParameters.ChildChainsEndInLeaves` | src/main/java/io/resttestgen/implementation/oracle/SqlDiffOracle.java:694-695 | the children's chains end in the names of the children's leaves, in order |
| `OracleParameters.EntryPathsConcat` | src/main/java/io/resttestgen/implementation/oracle/SqlDiffOracle.java:694-695 | entries reached through chains join into entries reached through the joined chains |
| `OracleParameters.EntryPathsLift` | src/main/java/io/resttestgen/implementation/oracle/SqlDiffOracle.java:689-695 | a path reached below a child's path is reached from the parent path through the child's name and then the chain |
| `OracleParameters.PathOfDotted` | src/main/java/io/resttestgen/implementation/oracle/SqlDiffOracle.java:689 | descending through non-empty names gives the parent path, a "." when it is non-empty, and the names joined by "." |
| `OracleParameters.BodyEntryPaths` | src/main/java/io/resttestgen/implementation/oracle/SqlDiffOracle.java:677-706 | for the request body listed from the empty path, entry k's path is the names from the body's root down to leaf k joined by ".", when none of them is empty |
| `OracleSequence.Verdict` | src/main/java/io/resttestgen/implementation/oracle/SqlDiffOracle.java:114-153 | the verdict table of one interaction; a definition without a contract of its own, whose meaning is stated by `OracleSequence.VerdictPassFail`, `OracleSequence.VerdictUnknown` |
| `OracleSequence.VerdictPassFail` | src/main/java/io/resttestgen/implementation/oracle/SqlDiffOracle.java:114-153 | for a classified status, PASS exactly when SQL and API both succeed or the API rejects with a client error what SQL rejected, FAIL otherwise, a server error always FAIL |
| `OracleSequence.VerdictUnknown` | src/main/java/io/resttestgen/implementation/oracle/SqlDiffOracle.java:111-153 | UNKNOWN, with an empty message and no TestResult call, exactly for a status that is neither success nor client nor server error |
| `OracleSequence.OperationIdentifier` | src/main/java/io/resttestgen/implementation/oracle/SqlDiffOracle.java:158-162 | the operationId when present and non-empty, otherwise METHOD_endpoint |
| `OracleSequence.ParseResponse` | src/main/java/io/resttestgen/implementation/oracle/SqlDiffOracle.java:200-209 | an absent body or one whose trimmed text is empty is left unparsed and not kept raw; any other body yields the parser's result, and is kept raw exactly when the parser rejects it |
| `OracleSequence.PairedStep` | src/main/java/io/resttestgen/implementation/oracle/SqlDiffOracle.java:217-226 | one more row report of the loop keeps every report paired with its index |
| `OracleSequence.PairRows` | src/main/java/io/resttestgen/implementation/oracle/SqlDiffOracle.java:215-226 | an array response gives one report per index up to the larger of the row count and the array length, report i pairing row i with element i |
| `OracleSequence.ComparisonOf` | src/main/java/io/resttestgen/implementation/oracle/SqlDiffOracle.java:211-242 | the comparison of the SQL rows with the parsed body; a definition without a contract of its own, whose meaning is stated by `OracleSequence.CompareResults`, `OracleSequence.ComparisonMeaning` |
| `OracleSequence.CompareResults` | src/main/java/io/resttestgen/implementation/oracle/SqlDiffOracle.java:211-242 | the field comparison of an interaction is the one its rows and parsed body determine |
| `OracleSequence.ComparisonMeaning` | src/main/java/io/resttestgen/implementation/oracle/SqlDiffOracle.java:213-242 | a comparison happens exactly with non-empty results and a parsed body; an array is paired index by index, an object compared with row 0 alone, anything else flagged |
| `OracleSequence.ReportOf` | src/main/java/io/resttestgen/implementation/oracle/SqlDiffOracle.java:108-245 | the report of one tagged interaction; a definition without a contract of its own, whose meaning is stated by `OracleSequence.ReportInteraction`, `OracleSequence.ReportsOfTagged` |
| `OracleSequence.ReportInteraction` | src/main/java/io/resttestgen/implementation/oracle/SqlDiffOracle.java:108-245 | the report of a tagged interaction: identifier, endpoint, method, status code, verdict, request-body parameters, raw-body flag and comparison |
| `OracleSequence.VerdictCalls` | src/main/java/io/resttestgen/implementation/oracle/SqlDiffOracle.java:111-153 | the TestResult calls of the interactions, in order; a definition without a contract of its own, whose meaning is stated by `OracleSequence.CompareInteractions`, `OracleSequence.PrefixStep`, `OracleSequence.CallsMatchReports`, `OracleSequence.AssertTestSequence` |
| `OracleSequence.WriteCall` | src/main/java/io/resttestgen/implementation/oracle/SqlDiffOracle.java:248-253 | the setUnknown call when writing the report fails; a definition without a contract of its own, whose meaning is stated by `OracleSequence.AssertTestSequence` |
| `OracleSequence.AssertTestSequence` | src/main/java/io/resttestgen/implementation/oracle/SqlDiffOracle.java:89-258 | an unexecuted sequence gets only setError; otherwise one verdict call and one report per tagged interaction, in order, and setUnknown with the message when the report write fails |
| `OracleSequence.CompareInteractions` | src/main/java/io/resttestgen/implementation/oracle/SqlDiffOracle.java:99-246 | the loop gives the reports and verdict calls of the tagged interactions, in order |
| `OracleSequence.PrefixStep` | src/main/java/io/resttestgen/implementation/oracle/SqlDiffOracle.java:99-106 | one more interaction adds its report and call exactly when it is tagged |
| `OracleSequence.Tagged` | src/main/java/io/resttestgen/implementation/oracle/SqlDiffOracle.java:101-106 | every kept interaction carries a SQL interaction tag, and an interaction is kept exactly when it is in the input and tagged |
| `OracleSequence.TaggedPositions` | src/main/java/io/resttestgen/implementation/oracle/SqlDiffOracle.java:101-106 | the tagged interactions sit at increasing positions of the input, and every tagged position is among them: the sub-list of tagged interactions, in order |
| `OracleSequence.TaggedAtSnoc` | src/main/java/io/resttestgen/implementation/oracle/SqlDiffOracle.java:101-106 | one more interaction extends the sub-list exactly when it is tagged |
| `OracleSequence.ReportsOfTagged` | src/main/java/io/resttestgen/implementation/oracle/SqlDiffOracle.java:101-106 | report k is that of the k-th tagged interaction; untagged ones get none |
| `OracleSequence.CallsMatchReports` | src/main/java/io/resttestgen/implementation/oracle/SqlDiffOracle.java:111-153 | the calls on the TestResult are exactly those the reports' verdicts record, in the same order |

## Left out

- `writeReportToFile` and all file, directory and clock operations (SqlDiffOracle.java lines 720-963): I/O. Only its effect on the verdict is kept, as an optional failure message that adds `setUnknown`.
- Gson's `JsonParser`, `Double.parseDouble`, `OffsetDateTime.parse` and `Instant.parse`: supplied partial functions in `OracleValues.Parsers`. Numbers are reals compared within 1e-6, and timestamps are epoch milliseconds. IEEE doubles are not modelled.
- OracleValues.Parsers: the JSON parser is assumed to return trees no heavier than the text it parses. The walk's recursion into JSON held in SQL strings needs this to terminate. Every real parser meets it.
- OracleValues.Lower: lower-cases ASCII letters only. Java's full Unicode case mapping is not modelled.
- OracleCompare.IsIdColumn: `equalsIgnoreCase("id")` is modelled with the ASCII letters and the two dotted and dotless i characters that Java's case folding also maps to i.
- The walk's equality test is a parameter, so the structural lemmas hold for any test. `OracleValues.OracleEqual` instantiates it with `objectsEqual`.
- The shared `differences` list and `matchedSqlColumns` set are threaded through as values. Each method returns them extended, which is all the Java code does with them.
- The classification of `HttpStatusCode` (successful, client error, server error) is an input.
- `TestResult` is not part of this model. The oracle's effect on it is the list of `setPass`/`setFail`/`setUnknown`/`setError` calls, in order. `addTestResult` is not modelled.
- Report fields that only copy inputs are not modelled:
  - path and query parameters;
  - request and response headers;
  - the executed SQL and the SQL error message;
  - the raw request and response bodies and the SQL status text.

  The report keeps the identifier, endpoint, method, status code, verdict, request-body parameters, raw-body flag and comparison.
- Dead code: `getPrimitiveDifference`, `jsonElementToPrimitive` and `extractSqlColumnsAndValues`. Nothing calls them.
- Numeric boundary generation (`generateBoundaryNumber`, `getTypeMinimum`, `getTypeMaximum`, `getMinimalStep`, `convertToFormat`): floating point. The number case of the boundary provider yields an opaque marker.
- The contents of generated strings: only their length is modelled, because the characters come from a random generator.
- The delegated value providers (enum, examples, default, random, narrow random, dictionaries): external. The model records which provider is asked.
- All randomness: `ExtendedRandom`, `new Random()` and `Collections.shuffle` take their draws from supplied values. The sorter reads a single stream where the source uses several `Random` instances. This changes which draw feeds which choice, but not the set of reachable outcomes.
- The sorter's `PriorityQueue`: its comparator reads the `visited` set while elements sit in the heap, so the polled element is not reliably the best-scored one. `poll` is modelled as removing a drawn pending element. `computeNodeScore` is modelled and proved monotone in the visited set.
- `computeNumberOfUnsatisfiedParameters` (external response dictionary, unused) and the attempt counter of `removeFirst`, which lives in the external graph.
- Java `LinkedList`/`HashSet` identity: the queue and the sets are `seq` and `set` fields. Getters such as `getPostToDeleteMap` and `getAllPostNodes` are plain field reads.
- `databaseHelper` execution and `ParameterToJsonUtil` in the POST strategy: the database's answers (rows or an exception) and the JSON rendering of arrays are inputs. Logging of caught exceptions is not modelled.
- The configuration loading of `TestGitlabConfig`, the live-API integration tests `testInteractions` and `testAPi`, and the test's ten repetitions (one run is modelled for any stream).
- Debug `System.out.println` tracing in the sorter and the test class.
- BoundaryValue.JustOutsideLeavesBounds: holds only when the effective maximum is below the largest `int`. At `Integer.MAX_VALUE` the `+ 1` wraps, and the length is clamped to 0, which is inside the bounds (`BoundaryValue.JustOutsideAtIntMax`).
- BoundaryValue.JustInsideWithinBounds: requires that neither `+ 1` nor `- 1` wraps. `BoundaryValue.JustInsideWraps` shows the wrapped case.
- OracleProperties.FlattenRecords: a record that names a column is shown to be a `MISSING_IN_SQL` for a column the row lacks. The converse, one such record per unmatched leaf field of a whole object, is not stated. `OracleProperties.FieldRecords` states it for a single field and `OracleProperties.MissingKeysComplete` for nested maps.
- Duplicate keys: JSON objects (`OracleValues.Json.JObject`), SQL rows and Java maps (`OracleValues.Value.VMap`) are entry sequences. The model does not require their keys to be distinct, although Gson objects and Java maps guarantee it. A lookup takes the first entry with the key, and `OracleCompare.FindDistinct` shows that this is the entry's own value when the keys are distinct. `OracleProperties.UnreferencedColumnsReportedOnce` assumes distinct column names, as a Java map has.
- GraphSorter.CorrespondingDeletesComplete: states which mapped DELETEs the backward walk lists, not their order. The order, latest POST first, is shown only on the concrete case `GraphSorter.CorrespondingDeletesExample`.

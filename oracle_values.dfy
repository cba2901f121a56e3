/**
 * The values the differential oracle compares: JSON trees from the API response, and the
 * Java objects found in SQL rows or obtained from JSON by parsedToJava. Number, timestamp
 * and JSON parsing are supplied functions; number values are reals and timestamps are
 * epoch milliseconds.
 */
module OracleValues {
  import opened Wrappers

  /** A parsed JSON element. A number carries its text and its double value. */
  datatype Json =
    | JNull
    | JBool(b: bool)
    | JNumber(text: string, value: real)
    | JString(s: string)
    | JArray(elems: seq<Json>)
    | JObject(fields: seq<(string, Json)>)

  /**
   * A Java object as the comparison sees it: null, a Number (its toString text and its
   * doubleValue), a Boolean, a String, a List, a Map (entries in iteration order), an Instant
   * (epoch milliseconds and its toString text), or any other object by its toString text.
   */
  datatype Value =
    | VNull
    | VBool(b: bool)
    | VNumber(text: string, value: real)
    | VString(s: string)
    | VList(items: seq<Value>)
    | VMap(entries: seq<(string, Value)>)
    | VInstant(millis: int, text: string)
    | VOther(text: string)

  /**
   * The external parsers: Gson's JsonParser.parseString (None when it throws), Double.parseDouble
   * on a trimmed string, and OffsetDateTime.parse and Instant.parse giving epoch milliseconds.
   */
  datatype Parsers = Parsers(
    json: JsonParser,
    double: string -> Option<real>,
    offsetDateTime: string -> Option<int>,
    instant: string -> Option<int>)

  const DoubleTolerance: real := 0.000001
  const DateToleranceMs: int := 1000

  // ---------------------------------------------------------------------------------------
  // parsedToJava

  function ToJava(j: Json): (v: Value)
    ensures j.JNull? <==> v.VNull?
    ensures j.JArray? ==> (v.VList? && |v.items| == |j.elems| &&
                           forall i :: 0 <= i < |j.elems| ==> v.items[i] == ToJava(j.elems[i]))
    ensures j.JObject? ==> (v.VMap? && |v.entries| == |j.fields| &&
                            forall i :: 0 <= i < |j.fields| ==> v.entries[i] == (j.fields[i].0, ToJava(j.fields[i].1)))
  {
    match j
    case JNull => VNull
    case JBool(b) => VBool(b)
    case JNumber(t, x) => VNumber(t, x)
    case JString(s) => VString(s)
    case JArray(elems) => VList(seq(|elems|, i requires 0 <= i < |elems| => ToJava(elems[i])))
    case JObject(fields) => VMap(seq(|fields|, i requires 0 <= i < |fields| => (fields[i].0, ToJava(fields[i].1))))
  }

  // ---------------------------------------------------------------------------------------
  // Sizes, for the termination of the walk

  /** A size that a string's parsed contents do not exceed (nulls weigh nothing). */
  function Weight(v: Value): nat
    decreases v, 1, 0
  {
    match v
    case VNull => 0
    case VString(s) => |s| + 1
    case VList(items) => 1 + ItemsWeight(v, 0)
    case VMap(entries) => 1 + ItemsWeight(v, 0)
    case _ => 1
  }

  /** The weight of the items (or entry values) of a List (or Map) from index i on. */
  function ItemsWeight(v: Value, i: nat): nat
    requires v.VList? || v.VMap?
    decreases v, 0, Count(v) - i
  {
    if i >= Count(v) then 0
    else Weight(if v.VList? then v.items[i] else v.entries[i].1) + ItemsWeight(v, i + 1)
  }

  /** The number of items of a List or entries of a Map. */
  function Count(v: Value): nat
    requires v.VList? || v.VMap?
  {
    if v.VList? then |v.items| else |v.entries|
  }

  lemma {:induction false} ItemsWeightAt(v: Value, i: nat, k: nat)
    requires v.VList? || v.VMap?
    requires i <= k < Count(v)
    ensures Weight(if v.VList? then v.items[k] else v.entries[k].1) <= ItemsWeight(v, i)
    decreases k - i
  {
    if i < k {
      ItemsWeightAt(v, i + 1, k);
    }
  }

  /** Each item of a List and each entry value of a Map weighs less than the whole. */
  lemma ListItemLighter(items: seq<Value>, k: nat)
    requires k < |items|
    ensures Weight(items[k]) < Weight(VList(items))
  {
    ItemsWeightAt(VList(items), 0, k);
  }

  lemma MapEntryLighter(entries: seq<(string, Value)>, k: nat)
    requires k < |entries|
    ensures Weight(entries[k].1) < Weight(VMap(entries))
  {
    ItemsWeightAt(VMap(entries), 0, k);
  }

  /**
   * What the walk needs of the JSON parser: the Java form of an array or object parsed from a
   * string weighs no more than the string is long. Every element of a JSON text takes at
   * least one bracket or separator besides its own characters, so a real parser meets it.
   */
  ghost predicate Shrinks(parse: string -> Option<Json>)
  {
    forall s: string :: parse(s).Some? && (parse(s).value.JArray? || parse(s).value.JObject?) ==>
      Weight(ToJava(parse(s).value)) <= |s|
  }

  /** A JSON parser, as the walk may assume it to be. */
  type JsonParser = parse: string -> Option<Json> | Shrinks(parse) witness (s: string) => None

  // ---------------------------------------------------------------------------------------
  // toString, trim, toLowerCase

  /** The items separated by ", ". */
  function JoinComma(xs: seq<string>): string
  {
    if |xs| == 0 then "" else if |xs| == 1 then xs[0] else xs[0] + ", " + JoinComma(xs[1..])
  }

  /** Object.toString: Lists print as [a, b], Maps as {k=v, …}, other objects by their text. */
  function ToString(v: Value): string
  {
    match v
    case VNull => "null"
    case VBool(b) => if b then "true" else "false"
    case VNumber(t, _) => t
    case VString(s) => s
    case VList(items) => "[" + JoinComma(seq(|items|, i requires 0 <= i < |items| => ToString(items[i]))) + "]"
    case VMap(entries) =>
      "{" + JoinComma(seq(|entries|, i requires 0 <= i < |entries| => entries[i].0 + "=" + ToString(entries[i].1))) + "}"
    case VInstant(_, t) => t
    case VOther(t) => t
  }

  /** String.trim removes the characters up to U+0020 at both ends. */
  predicate IsTrimmed(c: char)
  {
    c <= ' '
  }

  function TrimStart(s: string): (r: string)
    ensures |r| <= |s| && r == s[|s| - |r|..]
    ensures |r| > 0 ==> !IsTrimmed(r[0])
  {
    if |s| > 0 && IsTrimmed(s[0]) then TrimStart(s[1..]) else s
  }

  function TrimEnd(s: string): (r: string)
    ensures |r| <= |s| && r == s[..|r|]
    ensures |r| > 0 ==> !IsTrimmed(r[|r| - 1])
  {
    if |s| > 0 && IsTrimmed(s[|s| - 1]) then TrimEnd(s[..|s| - 1]) else s
  }

  function Trim(s: string): string
  {
    TrimEnd(TrimStart(s))
  }

  /**
   * toLowerCase on the ASCII letters. A non-ASCII character never lower-cases into one of
   * the letters of "true" or "false", so for the boolean test this is exact.
   */
  function Lower(s: string): (r: string)
    ensures |r| == |s|
    ensures forall i :: 0 <= i < |s| ==> r[i] == if 'A' <= s[i] <= 'Z' then (s[i] as int + 32) as char else s[i]
  {
    if |s| == 0 then "" else [if 'A' <= s[0] <= 'Z' then (s[0] as int + 32) as char else s[0]] + Lower(s[1..])
  }

  // ---------------------------------------------------------------------------------------
  // tryParseDouble, tryParseInstant, tryParseBoolean, objectsEqual

  function TryParseDouble(p: Parsers, o: Value): Option<real>
  {
    if o.VNull? then None
    else if o.VNumber? then Some(o.value)
    else
      var s := Trim(ToString(o));
      if s == "" then None else p.double(s)
  }

  function TryParseInstant(p: Parsers, o: Value): Option<int>
  {
    if o.VNull? then None
    else if o.VInstant? then Some(o.millis)
    else
      var s := Trim(ToString(o));
      if s == "" then None
      else if p.offsetDateTime(s).Some? then p.offsetDateTime(s)
      else p.instant(s)
  }

  /** A Boolean is itself; otherwise the trimmed, lower-cased text must be "true" or "false". */
  function TryParseBoolean(o: Value): Option<bool>
  {
    if o.VNull? then None
    else if o.VBool? then Some(o.b)
    else
      var s := Lower(Trim(ToString(o)));
      if s == "true" then Some(true) else if s == "false" then Some(false) else None
  }

  lemma TryParseBooleanMeaning(o: Value)
    ensures o.VNull? ==> TryParseBoolean(o).None?
    ensures o.VBool? ==> TryParseBoolean(o) == Some(o.b)
    ensures !o.VBool? && !o.VNull? ==>
      (TryParseBoolean(o) == Some(true) <==> Lower(Trim(ToString(o))) == "true") &&
      (TryParseBoolean(o) == Some(false) <==> Lower(Trim(ToString(o))) == "false")
  {
  }

  function Abs(x: real): real
  {
    if x < 0.0 then -x else x
  }

  function AbsInt(x: int): int
  {
    if x < 0 then -x else x
  }

  /** What objectsEqual reads of one object: its number, timestamp and boolean readings and its text. */
  datatype Readings = Readings(number: Option<real>, millis: Option<int>, boolean: Option<bool>, text: string)

  function ReadingsOf(p: Parsers, o: Value): Readings
  {
    Readings(TryParseDouble(p, o), TryParseInstant(p, o), TryParseBoolean(o), ToString(o))
  }

  /** The cascade of objectsEqual on two non-null objects. */
  function Decide(x: Readings, y: Readings): bool
  {
    if x.number.Some? && y.number.Some? then Abs(x.number.value - y.number.value) <= DoubleTolerance
    else if x.millis.Some? && y.millis.Some? then AbsInt(x.millis.value - y.millis.value) <= DateToleranceMs
    else if x.boolean.Some? && y.boolean.Some? then x.boolean.value == y.boolean.value
    else x.text == y.text
  }

  /** Numbers within 1e-6, else timestamps within a second, else booleans, else equal toString texts. */
  function ObjectsEqual(p: Parsers, a: Value, b: Value): bool
  {
    if a.VNull? && b.VNull? then true
    else if a.VNull? || b.VNull? then false
    else Decide(ReadingsOf(p, a), ReadingsOf(p, b))
  }

  /** The equality test the oracle compares primitives with. */
  function OracleEqual(p: Parsers): (Value, Value) -> bool
  {
    (a: Value, b: Value) => ObjectsEqual(p, a, b)
  }

  lemma DecideSymmetric(x: Readings, y: Readings)
    ensures Decide(x, y) == Decide(y, x)
  {
    if x.number.Some? && y.number.Some? {
      assert Abs(x.number.value - y.number.value) == Abs(y.number.value - x.number.value);
    }
  }

  /** objectsEqual is symmetric: every test it makes is. */
  lemma ObjectsEqualSymmetric(p: Parsers, a: Value, b: Value)
    ensures ObjectsEqual(p, a, b) == ObjectsEqual(p, b, a)
  {
    DecideSymmetric(ReadingsOf(p, a), ReadingsOf(p, b));
  }

  /** Two nulls are equal, and null equals nothing else. */
  lemma ObjectsEqualNull(p: Parsers, a: Value)
    ensures ObjectsEqual(p, VNull, VNull)
    ensures !a.VNull? ==> !ObjectsEqual(p, VNull, a) && !ObjectsEqual(p, a, VNull)
  {
  }

  /** Two numbers are compared by value only, within the tolerance. */
  lemma ObjectsEqualNumbers(p: Parsers, t: string, x: real, t': string, y: real)
    ensures ObjectsEqual(p, VNumber(t, x), VNumber(t', y)) <==> -DoubleTolerance <= x - y <= DoubleTolerance
  {
    var a, b := ReadingsOf(p, VNumber(t, x)), ReadingsOf(p, VNumber(t', y));
    assert a.number == Some(x) && b.number == Some(y);
    DecideByNumber(a, b);
  }

  lemma DecideByNumber(x: Readings, y: Readings)
    requires x.number.Some? && y.number.Some?
    ensures Decide(x, y) <==> -DoubleTolerance <= x.number.value - y.number.value <= DoubleTolerance
  {
  }

  /** Two instants are compared by their epoch milliseconds, within a second, when their texts are not numbers. */
  lemma ObjectsEqualInstants(p: Parsers, m: int, t: string, m': int, t': string)
    requires TryParseDouble(p, VInstant(m, t)).None?
    ensures ObjectsEqual(p, VInstant(m, t), VInstant(m', t')) <==> -DateToleranceMs <= m - m' <= DateToleranceMs
  {
    var x, y := ReadingsOf(p, VInstant(m, t)), ReadingsOf(p, VInstant(m', t'));
    assert x.millis == Some(m) && y.millis == Some(m');
    DecideByMillis(x, y);
  }

  lemma DecideByMillis(x: Readings, y: Readings)
    requires x.number.None? && x.millis.Some? && y.millis.Some?
    ensures Decide(x, y) <==> -DateToleranceMs <= x.millis.value - y.millis.value <= DateToleranceMs
  {
  }

  /**
   * A string compares with a Boolean as a boolean when its trimmed, lower-cased text is
   * "true" or "false" and it reads as neither a number nor a timestamp.
   */
  lemma ObjectsEqualBooleanText(p: Parsers, s: string, b: bool)
    requires TryParseDouble(p, VString(s)).None? && TryParseInstant(p, VString(s)).None?
    requires TryParseBoolean(VString(s)).Some?
    ensures ObjectsEqual(p, VString(s), VBool(b)) <==> (Lower(Trim(s)) == "true") == b
  {
    var x, y := ReadingsOf(p, VString(s)), ReadingsOf(p, VBool(b));
    assert y.boolean == Some(b);
    TryParseBooleanMeaning(VString(s));
    assert x.boolean == Some(Lower(Trim(s)) == "true");
    DecideByBoolean(x, y);
  }

  lemma DecideByBoolean(x: Readings, y: Readings)
    requires x.number.None? && x.millis.None? && x.boolean.Some? && y.boolean.Some?
    ensures Decide(x, y) <==> x.boolean.value == y.boolean.value
  {
  }

  lemma TrimOfWord(s: string)
    requires |s| > 0 && !IsTrimmed(s[0]) && !IsTrimmed(s[|s| - 1])
    ensures Trim(s) == s
  {
  }
}

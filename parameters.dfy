/** The leaf-parameter kinds, Java `int` arithmetic and value providers shared by the value-selection rules. */
module Parameters {
  import opened Wrappers

  const IntMin: int := -0x8000_0000
  const IntMax: int := 0x7FFF_FFFF

  /** A Java `int`. */
  type Int32 = x: int | IntMin <= x <= IntMax

  /** Java `int` addition: the exact sum when it fits, otherwise the sum wrapped around by 2^32. */
  function Add32(a: Int32, b: Int32): (r: Int32)
    ensures IntMin <= a + b <= IntMax ==> r == a + b
    ensures a + b > IntMax ==> r == a + b - 0x1_0000_0000
    ensures a + b < IntMin ==> r == a + b + 0x1_0000_0000
  {
    (a + b + 0x8000_0000) % 0x1_0000_0000 - 0x8000_0000
  }

  /** The dynamic class of a LeafParameter, with the string length constraints it carries (null when absent). */
  datatype LeafKind =
    | NumberLeaf
    | BooleanLeaf
    | StringLeaf(minLength: Option<Int32>, maxLength: Option<Int32>)
    | GenericLeaf
    | NullLeaf
    | OtherLeaf

  /** The value providers a multi-provider may delegate to. */
  datatype Provider =
    | Enum
    | Examples
    | BoundaryValue
    | ResponseDictionary
    | LastResponseDictionary
    | RandomValue
    | NarrowRandom
    | DefaultValue

  /** How many values each countable provider has for the parameter (answers of external providers). */
  datatype Counts = Counts(enums: nat, examples: nat, response: nat, lastResponse: nat, defaults: nat)
}

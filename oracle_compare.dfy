/**
 * The row-against-JSON comparison of the differential oracle: a SQL row (column to value)
 * against one JSON element of the API response. It produces a list of difference records
 * and, on the way, the set of SQL columns some JSON field was matched to. The functions
 * here state what the walk produces; OracleWalk walks it as the oracle does.
 */
module OracleCompare {
  import opened Wrappers
  import opened OracleValues

  /** A SQL result row: column names and values in the row map's iteration order. */
  type Row = seq<(string, Value)>

  datatype DiffKind = Equal | ValueMismatch | MissingInSql | MissingInApi | TypeMismatch

  /**
   * One field-difference record. A None field is a key the record does not have;
   * Some(VNull) is a key holding null.
   */
  datatype Difference = Difference(
    path: string,
    kind: DiffKind,
    sqlColumn: Option<string>,
    sqlValue: Option<Value>,
    apiValue: Option<Value>,
    apiValuePresent: Option<bool>,
    sqlValuePresent: Option<bool>)

  /** The value stored under a key: the first entry with that key (Java maps have one). */
  function Find<V>(entries: seq<(string, V)>, key: string): (r: Option<V>)
    ensures r.None? <==> forall i :: 0 <= i < |entries| ==> entries[i].0 != key
    ensures r.Some? ==> exists i :: 0 <= i < |entries| && entries[i] == (key, r.value)
  {
    if |entries| == 0 then None
    else if entries[0].0 == key then Some(entries[0].1)
    else Find(entries[1..], key)
  }

  /** No two entries share a key, as in a Java map or a JSON object read by Gson. */
  predicate DistinctKeys<V>(entries: seq<(string, V)>)
  {
    forall i, j :: 0 <= i < j < |entries| ==> entries[i].0 != entries[j].0
  }

  /** With distinct keys, the value found under an entry's key is that entry's value. */
  lemma {:induction false} FindDistinct<V>(entries: seq<(string, V)>, i: nat)
    requires DistinctKeys(entries) && i < |entries|
    ensures Find(entries, entries[i].0) == Some(entries[i].1)
  {
    if i > 0 {
      assert entries[0].0 != entries[i].0;
      assert DistinctKeys(entries[1..]) by {
        forall a, b | 0 <= a < b < |entries[1..]|
          ensures entries[1..][a].0 != entries[1..][b].0
        {
          assert entries[1..][a] == entries[a + 1] && entries[1..][b] == entries[b + 1];
        }
      }
      FindDistinct(entries[1..], i - 1);
      assert entries[1..][i - 1] == entries[i];
    }
  }

  function Digit(d: nat): char
    requires d < 10
  {
    "0123456789"[d]
  }

  /** The decimal text of a list index, as string concatenation prints an int. */
  function NatToString(n: nat): (s: string)
    ensures |s| > 0
  {
    if n < 10 then [Digit(n)] else NatToString(n / 10) + [Digit(n % 10)]
  }

  /** A path one map key further down. */
  function KeyPath(path: string, key: string): string
  {
    path + "." + key
  }

  /** A path one list index further down. */
  function IndexPath(path: string, i: nat): string
  {
    path + "[" + NatToString(i) + "]"
  }

  /** The path of a top-level field is its key; below that, parent.key. */
  function DisplayPath(parentPath: string, key: string): string
  {
    if parentPath == "" then key else KeyPath(parentPath, key)
  }

  /** Whether a SQL string holds a JSON array or object, which the walk then compares structurally. */
  predicate ParsesToContainer(p: Parsers, s: string)
  {
    p.json(s).Some? && (p.json(s).value.JArray? || p.json(s).value.JObject?)
  }

  // ---------------------------------------------------------------------------------------
  // compareValueRecursive

  /** The record for a primitive leaf: the API side absent, equal, or not equal. */
  function LeafDifference(equal: (Value, Value) -> bool, path: string, sql: Value, api: Json): Difference
  {
    var apiValue := ToJava(api);
    var kind := if api.JNull? then MissingInApi else if equal(sql, apiValue) then Equal else ValueMismatch;
    Difference(path, kind, None, Some(sql), Some(apiValue), Some(!api.JNull?), None)
  }

  /** The record for a SQL list met by something other than a JSON array. */
  function TypeMismatchDifference(path: string, sql: Value, api: Json): Difference
  {
    Difference(path, TypeMismatch, None, Some(sql), None, Some(!api.JNull?), None)
  }

  /** The record for a JSON key that the SQL map (or the row) does not have. */
  function MissingInSqlDifference(path: string, column: Option<string>, api: Json): Difference
  {
    Difference(path, MissingInSql, column, None, Some(ToJava(api)), None, Some(false))
  }

  /**
   * The records compareValueRecursive appends for a SQL value against a JSON element (JNull
   * when the element is absent or JSON null, which the walk treats alike). Primitive values
   * are compared with the supplied equality test, which the oracle instantiates with
   * objectsEqual.
   */
  function ValueDiffs(p: Parsers, equal: (Value, Value) -> bool, path: string, sql: Value, api: Json): seq<Difference>
    decreases Weight(sql), 1, 0
  {
    if sql.VNull? && api.JNull? then []
    else match sql
      case VMap(entries) =>
        MapDiffs(p, equal, path, entries, api, 0) + (if api.JObject? then MissingKeys(path, api.fields, entries, 0) else [])
      case VList(items) =>
        if api.JArray? then ListDiffs(p, equal, path, items, api.elems, 0) else [TypeMismatchDifference(path, sql, api)]
      case VString(s) =>
        if ParsesToContainer(p, s) then
          var parsed := ToJava(p.json(s).value);
          assert Weight(parsed) < Weight(sql);
          ValueDiffs(p, equal, path, parsed, api)
        else [LeafDifference(equal, path, sql, api)]
      case _ => [LeafDifference(equal, path, sql, api)]
  }

  /** The JSON element under a map key: JNull unless the element is an object with that key. */
  function ChildOf(api: Json, key: string): Json
  {
    if api.JObject? && Find(api.fields, key).Some? then Find(api.fields, key).value else JNull
  }

  /** The records for the map entries from index i on, each compared with the JSON field of its key. */
  function MapDiffs(p: Parsers, equal: (Value, Value) -> bool, path: string, entries: seq<(string, Value)>,
                    api: Json, i: nat): seq<Difference>
    decreases Weight(VMap(entries)), 0, |entries| - i
  {
    if i >= |entries| then []
    else
      MapEntryLighter(entries, i);
      ValueDiffs(p, equal, KeyPath(path, entries[i].0), entries[i].1, ChildOf(api, entries[i].0))
      + MapDiffs(p, equal, path, entries, api, i + 1)
  }

  /** One MISSING_IN_SQL record for each JSON key from index i on that the map lacks, in the object's order. */
  function MissingKeys(path: string, fields: seq<(string, Json)>, entries: seq<(string, Value)>, i: nat): seq<Difference>
    decreases |fields| - i
  {
    if i >= |fields| then []
    else
      (if Find(entries, fields[i].0).None? then [MissingInSqlDifference(KeyPath(path, fields[i].0), None, fields[i].1)] else [])
      + MissingKeys(path, fields, entries, i + 1)
  }

  function Max(a: nat, b: nat): nat
  {
    if a < b then b else a
  }

  /** The SQL side of index i in a list comparison: the item, or null past the end. */
  function ItemAt(items: seq<Value>, i: nat): Value
  {
    if i < |items| then items[i] else VNull
  }

  lemma ItemAtLighter(items: seq<Value>, i: nat)
    ensures Weight(ItemAt(items, i)) < Weight(VList(items))
  {
    if i < |items| {
      ListItemLighter(items, i);
    }
  }

  /** The JSON side of index i in a list comparison: the element, or absent past the end. */
  function ElemAt(elems: seq<Json>, i: nat): Json
  {
    if i < |elems| then elems[i] else JNull
  }

  /** The records for the indices from i up to the longer of the two lengths. */
  function ListDiffs(p: Parsers, equal: (Value, Value) -> bool, path: string, items: seq<Value>, elems: seq<Json>,
                     i: nat): seq<Difference>
    decreases Weight(VList(items)), 0, Max(|items|, |elems|) - i
  {
    if i >= Max(|items|, |elems|) then []
    else
      ItemAtLighter(items, i);
      ValueDiffs(p, equal, IndexPath(path, i), ItemAt(items, i), ElemAt(elems, i))
      + ListDiffs(p, equal, path, items, elems, i + 1)
  }

  // ---------------------------------------------------------------------------------------
  // flattenAndCompareJsonObject

  /** The SQL column a JSON key maps to: the table converter's answer, else the key itself. */
  function ColumnFor(resolver: Option<string -> Option<string>>, key: string): string
  {
    if resolver.Some? && resolver.value(key).Some? then resolver.value(key).value else key
  }

  /**
   * The records and matched columns for one JSON field that is not an object. A missing row or
   * column gives one MISSING_IN_SQL record; a present column is matched and compared, a string
   * column against an array first being parsed as JSON when it can be.
   */
  function FieldDiffs(p: Parsers, equal: (Value, Value) -> bool, resolver: Option<string -> Option<string>>,
                      key: string, value: Json, displayPath: string, row: Option<Row>): (seq<Difference>, set<string>)
  {
    var column := ColumnFor(resolver, key);
    if row.None? || Find(row.value, column).None? then
      ([MissingInSqlDifference(displayPath, Some(column), value)], {})
    else
      var sqlValue := Find(row.value, column).value;
      var compared :=
        if value.JArray? && sqlValue.VString? && p.json(sqlValue.s).Some? then ToJava(p.json(sqlValue.s).value)
        else sqlValue;
      (ValueDiffs(p, equal, displayPath, compared, value), {column})
  }

  /** The records and matched columns for the fields of a JSON object from index i on. */
  function FlattenDiffs(p: Parsers, equal: (Value, Value) -> bool, resolver: Option<string -> Option<string>>,
                        fields: seq<(string, Json)>, parentPath: string, row: Option<Row>, i: nat): (seq<Difference>, set<string>)
    decreases JObject(fields), 1, |fields| - i
  {
    if i >= |fields| then ([], {})
    else
      var here := MemberDiffs(p, equal, resolver, fields, parentPath, row, i);
      var rest := FlattenDiffs(p, equal, resolver, fields, parentPath, row, i + 1);
      (here.0 + rest.0, here.1 + rest.1)
  }

  /** Field i of an object: a nested object is flattened under the longer display path. */
  function MemberDiffs(p: Parsers, equal: (Value, Value) -> bool, resolver: Option<string -> Option<string>>,
                       fields: seq<(string, Json)>, parentPath: string, row: Option<Row>, i: nat): (seq<Difference>, set<string>)
    requires i < |fields|
    decreases JObject(fields), 0, 0
  {
    var displayPath := DisplayPath(parentPath, fields[i].0);
    var value := fields[i].1;
    if value.JObject? then FlattenDiffs(p, equal, resolver, value.fields, displayPath, row, 0)
    else FieldDiffs(p, equal, resolver, fields[i].0, value, displayPath, row)
  }

  // ---------------------------------------------------------------------------------------
  // compareRowAndJson

  /** equalsIgnoreCase("id"): the Java case rules also map U+0130 and U+0131 to the letter i. */
  predicate IsIdColumn(column: string)
  {
    |column| == 2 && column[0] in {'i', 'I', 'İ', 'ı'} && column[1] in {'d', 'D'}
  }

  /** The MISSING_IN_API record for a SQL column no JSON field was matched to. */
  function UnmatchedDifference(column: string, value: Value): Difference
  {
    Difference("? (mapped to " + column + ")", MissingInApi, Some(column), Some(value), None, Some(false), None)
  }

  /** One record per row column from index i on that is neither matched nor an id column, in the row's order. */
  function UnmatchedColumns(row: Row, matched: set<string>, i: nat): seq<Difference>
    decreases |row| - i
  {
    if i >= |row| then []
    else
      (if row[i].0 !in matched && !IsIdColumn(row[i].0) then [UnmatchedDifference(row[i].0, row[i].1)] else [])
      + UnmatchedColumns(row, matched, i + 1)
  }

  /**
   * The records compareRowAndJson returns: none when both sides are absent; otherwise the
   * flattened comparison of a JSON object element, then the unmatched row columns.
   */
  function RowDiffs(p: Parsers, equal: (Value, Value) -> bool, resolver: Option<string -> Option<string>>,
                    row: Option<Row>, elem: Option<Json>): seq<Difference>
  {
    if row.None? && (elem.None? || elem.value.JNull?) then []
    else
      var flat := if elem.Some? && elem.value.JObject? then FlattenDiffs(p, equal, resolver, elem.value.fields, "", row, 0) else ([], {});
      flat.0 + (if row.Some? then UnmatchedColumns(row.value, flat.1, 0) else [])
  }
}

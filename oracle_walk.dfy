/**
 * The comparison walk as the oracle performs it: recursive methods that append difference
 * records to the list they are handed and add matched columns to the set they are handed.
 * Both are only ever appended to, so each method takes the list (and set) so far and
 * returns the extended one. Each is proved to append exactly what the functions of
 * OracleCompare describe.
 */
module OracleWalk {
  import opened Wrappers
  import opened OracleValues
  import opened OracleCompare

  // Proof helper: associativity of record-list concatenation.
  lemma Associative(a: seq<Difference>, b: seq<Difference>, c: seq<Difference>)
    ensures (a + b) + c == a + (b + c)
  {
  }

  /** compareValueRecursive. */
  method CompareValueRecursive(p: Parsers, equal: (Value, Value) -> bool, path: string, sql: Value, api: Json,
                               diffs: seq<Difference>) returns (out: seq<Difference>)
    ensures out == diffs + ValueDiffs(p, equal, path, sql, api)
    decreases Weight(sql), 1
  {
    if sql.VNull? && api.JNull? {
      out := diffs;
    } else {
      match sql
      case VMap(entries) =>
        out := CompareEntries(p, equal, path, entries, api, diffs);
        match api {
          case JObject(fields) =>
            out := AppendMissingKeys(path, fields, entries, out);
            Associative(diffs, MapDiffs(p, equal, path, entries, api, 0), MissingKeys(path, fields, entries, 0));
          case _ =>
        }
      case VList(items) =>
        match api {
          case JArray(elems) =>
            out := CompareItems(p, equal, path, items, elems, diffs);
          case _ =>
            out := diffs + [TypeMismatchDifference(path, sql, api)];
        }
      case VString(s) =>
        if ParsesToContainer(p, s) {
          out := CompareValueRecursive(p, equal, path, ToJava(p.json(s).value), api, diffs);
        } else {
          out := diffs + [LeafDifference(equal, path, sql, api)];
        }
      case _ =>
        out := diffs + [LeafDifference(equal, path, sql, api)];
    }
  }

  /** The loop over a SQL map's entries, each compared with the JSON field of the same key. */
  method CompareEntries(p: Parsers, equal: (Value, Value) -> bool, path: string, entries: seq<(string, Value)>,
                        api: Json, diffs: seq<Difference>) returns (out: seq<Difference>)
    ensures out == diffs + MapDiffs(p, equal, path, entries, api, 0)
    decreases Weight(VMap(entries)), 0
  {
    out := diffs;
    var i := 0;
    while i < |entries|
      invariant out + MapDiffs(p, equal, path, entries, api, i) == diffs + MapDiffs(p, equal, path, entries, api, 0)
    {
      var (key, child) := entries[i];
      MapEntryLighter(entries, i);
      ghost var before := out;
      out := CompareValueRecursive(p, equal, KeyPath(path, key), child, ChildOf(api, key), out);
      Associative(before, ValueDiffs(p, equal, KeyPath(path, key), child, ChildOf(api, key)),
                  MapDiffs(p, equal, path, entries, api, i + 1));
      i := i + 1;
    }
  }

  /** The loop over a list's indices up to the longer of the two lengths, null or absent past an end. */
  method CompareItems(p: Parsers, equal: (Value, Value) -> bool, path: string, items: seq<Value>, elems: seq<Json>,
                      diffs: seq<Difference>) returns (out: seq<Difference>)
    ensures out == diffs + ListDiffs(p, equal, path, items, elems, 0)
    decreases Weight(VList(items)), 0
  {
    out := diffs;
    var max := Max(|items|, |elems|);
    var i := 0;
    while i < max
      invariant out + ListDiffs(p, equal, path, items, elems, i) == diffs + ListDiffs(p, equal, path, items, elems, 0)
    {
      var childSql := if i < |items| then items[i] else VNull;
      var childApi := if i < |elems| then elems[i] else JNull;
      ItemAtLighter(items, i);
      ghost var before := out;
      out := CompareValueRecursive(p, equal, IndexPath(path, i), childSql, childApi, out);
      Associative(before, ValueDiffs(p, equal, IndexPath(path, i), childSql, childApi),
                  ListDiffs(p, equal, path, items, elems, i + 1));
      i := i + 1;
    }
  }

  /** The loop reporting each JSON key that the SQL map does not contain. */
  method AppendMissingKeys(path: string, fields: seq<(string, Json)>, entries: seq<(string, Value)>,
                           diffs: seq<Difference>) returns (out: seq<Difference>)
    ensures out == diffs + MissingKeys(path, fields, entries, 0)
  {
    out := diffs;
    var i := 0;
    while i < |fields|
      invariant out + MissingKeys(path, fields, entries, i) == diffs + MissingKeys(path, fields, entries, 0)
    {
      var (key, value) := fields[i];
      if Find(entries, key).None? {
        ghost var before := out;
        out := out + [MissingInSqlDifference(KeyPath(path, key), None, value)];
        Associative(before, [MissingInSqlDifference(KeyPath(path, key), None, value)], MissingKeys(path, fields, entries, i + 1));
      }
      i := i + 1;
    }
  }

  /** One field of flattenAndCompareJsonObject that is not an object: look up its column, then compare. */
  method CompareField(p: Parsers, equal: (Value, Value) -> bool, resolver: Option<string -> Option<string>>,
                      key: string, value: Json, displayPath: string, row: Option<Row>, matched: set<string>,
                      diffs: seq<Difference>) returns (matchedOut: set<string>, out: seq<Difference>)
    ensures out == diffs + FieldDiffs(p, equal, resolver, key, value, displayPath, row).0
    ensures matchedOut == matched + FieldDiffs(p, equal, resolver, key, value, displayPath, row).1
  {
    var column := key;
    if resolver.Some? {
      var mapped := resolver.value(key);
      if mapped.Some? {
        column := mapped.value;
      }
    }
    var sqlValue := if row.Some? then Find(row.value, column) else None;
    match sqlValue
    case None =>
      matchedOut := matched;
      out := diffs + [MissingInSqlDifference(displayPath, Some(column), value)];
    case Some(v) =>
      matchedOut := matched + {column};
      var compared := v;
      if value.JArray? && v.VString? {
        var parsed := p.json(v.s);
        if parsed.Some? {
          compared := ToJava(parsed.value);
        }
      }
      out := CompareValueRecursive(p, equal, displayPath, compared, value, diffs);
  }

  /** flattenAndCompareJsonObject: the loop over the fields of a JSON object. */
  method FlattenAndCompareJsonObject(p: Parsers, equal: (Value, Value) -> bool, resolver: Option<string -> Option<string>>,
                                     fields: seq<(string, Json)>, parentPath: string, row: Option<Row>,
                                     matched: set<string>, diffs: seq<Difference>)
    returns (matchedOut: set<string>, out: seq<Difference>)
    ensures out == diffs + FlattenDiffs(p, equal, resolver, fields, parentPath, row, 0).0
    ensures matchedOut == matched + FlattenDiffs(p, equal, resolver, fields, parentPath, row, 0).1
    decreases JObject(fields), 1
  {
    matchedOut, out := matched, diffs;
    var i := 0;
    while i < |fields|
      invariant out + FlattenDiffs(p, equal, resolver, fields, parentPath, row, i).0 ==
                diffs + FlattenDiffs(p, equal, resolver, fields, parentPath, row, 0).0
      invariant matchedOut + FlattenDiffs(p, equal, resolver, fields, parentPath, row, i).1 ==
                matched + FlattenDiffs(p, equal, resolver, fields, parentPath, row, 0).1
    {
      ghost var before := out;
      matchedOut, out := FlattenMember(p, equal, resolver, fields, parentPath, row, i, matchedOut, out);
      Associative(before, MemberDiffs(p, equal, resolver, fields, parentPath, row, i).0,
                  FlattenDiffs(p, equal, resolver, fields, parentPath, row, i + 1).0);
      i := i + 1;
    }
  }

  /** The body of that loop for field i: a nested object is flattened under the longer display path. */
  method FlattenMember(p: Parsers, equal: (Value, Value) -> bool, resolver: Option<string -> Option<string>>,
                       fields: seq<(string, Json)>, parentPath: string, row: Option<Row>, i: nat,
                       matched: set<string>, diffs: seq<Difference>)
    returns (matchedOut: set<string>, out: seq<Difference>)
    requires i < |fields|
    ensures out == diffs + MemberDiffs(p, equal, resolver, fields, parentPath, row, i).0
    ensures matchedOut == matched + MemberDiffs(p, equal, resolver, fields, parentPath, row, i).1
    decreases JObject(fields), 0
  {
    var (key, value) := fields[i];
    var displayPath := DisplayPath(parentPath, key);
    match value
    case JObject(inner) =>
      matchedOut, out := FlattenAndCompareJsonObject(p, equal, resolver, inner, displayPath, row, matched, diffs);
    case _ =>
      matchedOut, out := CompareField(p, equal, resolver, key, value, displayPath, row, matched, diffs);
  }

  /** The loop over the row's columns reporting those no field matched, id columns excepted. */
  method AppendUnmatchedColumns(row: Row, matched: set<string>, diffs: seq<Difference>) returns (out: seq<Difference>)
    ensures out == diffs + UnmatchedColumns(row, matched, 0)
  {
    out := diffs;
    var i := 0;
    while i < |row|
      invariant out + UnmatchedColumns(row, matched, i) == diffs + UnmatchedColumns(row, matched, 0)
    {
      var (column, value) := row[i];
      if column !in matched && !IsIdColumn(column) {
        ghost var before := out;
        out := out + [UnmatchedDifference(column, value)];
        Associative(before, [UnmatchedDifference(column, value)], UnmatchedColumns(row, matched, i + 1));
      }
      i := i + 1;
    }
  }

  /** compareRowAndJson. */
  method CompareRowAndJson(p: Parsers, equal: (Value, Value) -> bool, resolver: Option<string -> Option<string>>,
                           row: Option<Row>, elem: Option<Json>) returns (differences: seq<Difference>)
    ensures differences == RowDiffs(p, equal, resolver, row, elem)
  {
    differences := [];
    var bothAbsent := row.None? && (elem.None? || elem.value.JNull?);
    if !bothAbsent {
      var matched: set<string> := {};
      match elem {
        case Some(JObject(fields)) =>
          matched, differences := FlattenAndCompareJsonObject(p, equal, resolver, fields, "", row, matched, differences);
          assert matched == FlattenDiffs(p, equal, resolver, fields, "", row, 0).1;
          assert differences == FlattenDiffs(p, equal, resolver, fields, "", row, 0).0;
        case _ =>
      }
      match row {
        case Some(r) =>
          differences := AppendUnmatchedColumns(r, matched, differences);
        case None =>
      }
    }
  }
}

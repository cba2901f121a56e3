/**
 * What the comparison of a SQL row with a JSON element promises: the records of the value
 * walk, where record paths and SQL columns come from, which columns count as matched, and
 * which columns are reported as missing from the API.
 */
module OracleProperties {
  import opened Wrappers
  import opened OracleValues
  import opened OracleCompare

  predicate IsPrefix(a: string, b: string)
  {
    |a| <= |b| && b[..|a|] == a
  }

  lemma PrefixTransitive(a: string, b: string, c: string)
    requires IsPrefix(a, b) && IsPrefix(b, c)
    ensures IsPrefix(a, c)
  {
    assert c[..|a|] == c[..|b|][..|a|];
  }

  /** Every record's path starts with the given prefix. */
  predicate PathsUnder(ds: seq<Difference>, prefix: string)
  {
    forall k :: 0 <= k < |ds| ==> IsPrefix(prefix, ds[k].path)
  }

  /** No record names a SQL column. */
  predicate NoColumn(ds: seq<Difference>)
  {
    forall k :: 0 <= k < |ds| ==> ds[k].sqlColumn.None?
  }

  /** What the value walk promises of its records: they lie under its path and name no column. */
  predicate WalkRecords(ds: seq<Difference>, path: string)
  {
    PathsUnder(ds, path) && NoColumn(ds)
  }

  lemma WalkRecordsConcat(a: seq<Difference>, b: seq<Difference>, path: string)
    requires WalkRecords(a, path) && WalkRecords(b, path)
    ensures WalkRecords(a + b, path)
  {
    forall k | 0 <= k < |a + b|
      ensures IsPrefix(path, (a + b)[k].path) && (a + b)[k].sqlColumn.None?
    {
      if k < |a| {
        assert (a + b)[k] == a[k];
      } else {
        assert (a + b)[k] == b[k - |a|];
      }
    }
  }

  lemma WalkRecordsWeaken(ds: seq<Difference>, longer: string, path: string)
    requires WalkRecords(ds, longer) && IsPrefix(path, longer)
    ensures WalkRecords(ds, path)
  {
    forall k | 0 <= k < |ds|
      ensures IsPrefix(path, ds[k].path)
    {
      PrefixTransitive(path, longer, ds[k].path);
    }
  }

  lemma KeyPathExtends(path: string, key: string)
    ensures IsPrefix(path, KeyPath(path, key))
  {
    assert KeyPath(path, key) == path + ("." + key);
  }

  lemma IndexPathExtends(path: string, i: nat)
    ensures IsPrefix(path, IndexPath(path, i))
  {
    assert IndexPath(path, i) == path + ("[" + NatToString(i) + "]");
  }

  /**
   * Every record compareValueRecursive appends has the path it was called with as a prefix
   * of its own path, and none of them carries an sqlColumn key.
   */
  lemma {:induction false} ValueDiffsUnder(p: Parsers, equal: (Value, Value) -> bool, path: string, sql: Value, api: Json)
    ensures WalkRecords(ValueDiffs(p, equal, path, sql, api), path)
    decreases Weight(sql), 1, 0
  {
    if !(sql.VNull? && api.JNull?) {
      match sql {
        case VMap(entries) =>
          MapDiffsUnder(p, equal, path, entries, api, 0);
          var tail := if api.JObject? then MissingKeys(path, api.fields, entries, 0) else [];
          if api.JObject? {
            MissingKeysUnder(path, api.fields, entries, 0);
          }
          WalkRecordsConcat(MapDiffs(p, equal, path, entries, api, 0), tail, path);
        case VList(items) =>
          if api.JArray? {
            ListDiffsUnder(p, equal, path, items, api.elems, 0);
          }
        case VString(s) =>
          if ParsesToContainer(p, s) {
            var parsed := ToJava(p.json(s).value);
            assert Weight(parsed) < Weight(sql);
            ValueDiffsUnder(p, equal, path, parsed, api);
          }
        case _ =>
      }
    }
  }

  lemma {:induction false} MapDiffsUnder(p: Parsers, equal: (Value, Value) -> bool, path: string,
                                         entries: seq<(string, Value)>, api: Json, i: nat)
    ensures WalkRecords(MapDiffs(p, equal, path, entries, api, i), path)
    decreases Weight(VMap(entries)), 0, |entries| - i
  {
    if i < |entries| {
      var key := entries[i].0;
      MapEntryLighter(entries, i);
      ValueDiffsUnder(p, equal, KeyPath(path, key), entries[i].1, ChildOf(api, key));
      KeyPathExtends(path, key);
      WalkRecordsWeaken(ValueDiffs(p, equal, KeyPath(path, key), entries[i].1, ChildOf(api, key)), KeyPath(path, key), path);
      MapDiffsUnder(p, equal, path, entries, api, i + 1);
      WalkRecordsConcat(ValueDiffs(p, equal, KeyPath(path, key), entries[i].1, ChildOf(api, key)),
                        MapDiffs(p, equal, path, entries, api, i + 1), path);
    }
  }

  lemma {:induction false} ListDiffsUnder(p: Parsers, equal: (Value, Value) -> bool, path: string,
                                          items: seq<Value>, elems: seq<Json>, i: nat)
    ensures WalkRecords(ListDiffs(p, equal, path, items, elems, i), path)
    decreases Weight(VList(items)), 0, Max(|items|, |elems|) - i
  {
    if i < Max(|items|, |elems|) {
      ItemAtLighter(items, i);
      ValueDiffsUnder(p, equal, IndexPath(path, i), ItemAt(items, i), ElemAt(elems, i));
      IndexPathExtends(path, i);
      WalkRecordsWeaken(ValueDiffs(p, equal, IndexPath(path, i), ItemAt(items, i), ElemAt(elems, i)), IndexPath(path, i), path);
      ListDiffsUnder(p, equal, path, items, elems, i + 1);
      WalkRecordsConcat(ValueDiffs(p, equal, IndexPath(path, i), ItemAt(items, i), ElemAt(elems, i)),
                        ListDiffs(p, equal, path, items, elems, i + 1), path);
    }
  }

  lemma {:induction false} MissingKeysUnder(path: string, fields: seq<(string, Json)>, entries: seq<(string, Value)>, i: nat)
    ensures WalkRecords(MissingKeys(path, fields, entries, i), path)
    decreases |fields| - i
  {
    if i < |fields| {
      var here := if Find(entries, fields[i].0).None? then [MissingInSqlDifference(KeyPath(path, fields[i].0), None, fields[i].1)] else [];
      KeyPathExtends(path, fields[i].0);
      MissingKeysUnder(path, fields, entries, i + 1);
      WalkRecordsConcat(here, MissingKeys(path, fields, entries, i + 1), path);
    }
  }

  // ---------------------------------------------------------------------------------------
  // The shape of the records of compareValueRecursive

  /** A SQL value the walk compares as a primitive: not a Map, not a List, not a string holding JSON structure. */
  predicate IsLeaf(p: Parsers, sql: Value)
  {
    !sql.VMap? && !sql.VList? && !(sql.VString? && ParsesToContainer(p, sql.s))
  }

  /**
   * A primitive leaf (unless it and the API side are both null) gives exactly one record at
   * the path, holding both values: MISSING_IN_API when the API side is absent or null,
   * otherwise EQUAL or VALUE_MISMATCH as the equality test decides.
   */
  lemma LeafRecord(p: Parsers, equal: (Value, Value) -> bool, path: string, sql: Value, api: Json)
    requires IsLeaf(p, sql) && !(sql.VNull? && api.JNull?)
    ensures var ds := ValueDiffs(p, equal, path, sql, api);
      |ds| == 1 && ds[0].path == path && ds[0].sqlValue == Some(sql) && ds[0].apiValue == Some(ToJava(api)) &&
      ds[0].apiValuePresent == Some(!api.JNull?) && ds[0].sqlColumn.None? &&
      (ds[0].kind == MissingInApi <==> api.JNull?) &&
      (ds[0].kind == Equal <==> !api.JNull? && equal(sql, ToJava(api))) &&
      (ds[0].kind == ValueMismatch <==> !api.JNull? && !equal(sql, ToJava(api)))
  {
    assert ValueDiffs(p, equal, path, sql, api) == [LeafDifference(equal, path, sql, api)];
  }

  /** A SQL list met by anything but a JSON array gives one TYPE_MISMATCH record saying whether the API side was present. */
  lemma ListAgainstNonArray(p: Parsers, equal: (Value, Value) -> bool, path: string, items: seq<Value>, api: Json)
    requires !api.JArray?
    ensures ValueDiffs(p, equal, path, VList(items), api) ==
      [Difference(path, TypeMismatch, None, Some(VList(items)), None, Some(!api.JNull?), None)]
  {
  }

  /** Both sides absent or null: nothing is recorded. */
  lemma BothNullNothing(p: Parsers, equal: (Value, Value) -> bool, path: string)
    ensures ValueDiffs(p, equal, path, VNull, JNull) == []
  {
  }

  /** The MISSING_IN_SQL record for the JSON field j of a map comparison. */
  function MissingKeyRecord(path: string, fields: seq<(string, Json)>, j: nat): Difference
    requires j < |fields|
  {
    MissingInSqlDifference(KeyPath(path, fields[j].0), None, fields[j].1)
  }

  /** Every MISSING_IN_SQL record of a map comparison is that of a JSON key from index i on that the map lacks. */
  lemma {:induction false} MissingKeysSound(path: string, fields: seq<(string, Json)>, entries: seq<(string, Value)>, i: nat)
    ensures var ds := MissingKeys(path, fields, entries, i);
      forall d :: d in ds ==>
        exists j :: i <= j < |fields| && Find(entries, fields[j].0).None? && d == MissingKeyRecord(path, fields, j)
    decreases |fields| - i
  {
    if i < |fields| {
      MissingKeysSound(path, fields, entries, i + 1);
      if Find(entries, fields[i].0).None? {
        assert MissingKeys(path, fields, entries, i) == [MissingKeyRecord(path, fields, i)] + MissingKeys(path, fields, entries, i + 1);
      } else {
        assert MissingKeys(path, fields, entries, i) == MissingKeys(path, fields, entries, i + 1);
      }
    }
  }

  /** Every JSON key from index i on that the map lacks has its MISSING_IN_SQL record. */
  lemma {:induction false} MissingKeysComplete(path: string, fields: seq<(string, Json)>, entries: seq<(string, Value)>, i: nat)
    ensures forall j :: i <= j < |fields| && Find(entries, fields[j].0).None? ==>
      MissingKeyRecord(path, fields, j) in MissingKeys(path, fields, entries, i)
    decreases |fields| - i
  {
    if i < |fields| {
      MissingKeysComplete(path, fields, entries, i + 1);
      if Find(entries, fields[i].0).None? {
        assert MissingKeys(path, fields, entries, i) == [MissingKeyRecord(path, fields, i)] + MissingKeys(path, fields, entries, i + 1);
      } else {
        assert MissingKeys(path, fields, entries, i) == MissingKeys(path, fields, entries, i + 1);
      }
    }
  }

  /** The record for index j of a list comparison, when both sides there are primitives. */
  function LeafAtIndex(equal: (Value, Value) -> bool, path: string, items: seq<Value>, elems: seq<Json>, j: nat): Difference
  {
    LeafDifference(equal, IndexPath(path, j), ItemAt(items, j), ElemAt(elems, j))
  }

  /** Record k of ds is the leaf record of index i + k. */
  predicate LeavesFrom(ds: seq<Difference>, equal: (Value, Value) -> bool, path: string, items: seq<Value>, elems: seq<Json>, i: nat)
  {
    forall k :: 0 <= k < |ds| ==> ds[k] == LeafAtIndex(equal, path, items, elems, i + k)
  }

  /**
   * Comparing two lists whose items are all primitives (and never null on both sides at
   * once) gives one record per index up to the longer length, record k being the leaf
   * record of index i + k at path[i + k].
   */
  lemma {:induction false} ListOfLeaves(p: Parsers, equal: (Value, Value) -> bool, path: string,
                                        items: seq<Value>, elems: seq<Json>, i: nat)
    requires i <= Max(|items|, |elems|)
    requires forall j :: i <= j < Max(|items|, |elems|) ==>
      IsLeaf(p, ItemAt(items, j)) && !(ItemAt(items, j).VNull? && ElemAt(elems, j).JNull?)
    ensures |ListDiffs(p, equal, path, items, elems, i)| == Max(|items|, |elems|) - i
    ensures LeavesFrom(ListDiffs(p, equal, path, items, elems, i), equal, path, items, elems, i)
    decreases Max(|items|, |elems|) - i
  {
    if i < Max(|items|, |elems|) {
      ListOfLeaves(p, equal, path, items, elems, i + 1);
      LeafAt(p, equal, path, items, elems, i);
      ConsLeaves(equal, path, items, elems, i, ListDiffs(p, equal, path, items, elems, i + 1));
    }
  }

  /** Index bookkeeping: the leaf record of index i followed by those from index i + 1 on. */
  lemma ConsLeaves(equal: (Value, Value) -> bool, path: string, items: seq<Value>, elems: seq<Json>, i: nat, rest: seq<Difference>)
    requires LeavesFrom(rest, equal, path, items, elems, i + 1)
    ensures LeavesFrom([LeafAtIndex(equal, path, items, elems, i)] + rest, equal, path, items, elems, i)
  {
    var ds := [LeafAtIndex(equal, path, items, elems, i)] + rest;
    forall k | 0 <= k < |ds|
      ensures ds[k] == LeafAtIndex(equal, path, items, elems, i + k)
    {
      if k > 0 {
        assert ds[k] == rest[k - 1];
        assert i + k == (i + 1) + (k - 1);
      }
    }
  }

  lemma LeafAt(p: Parsers, equal: (Value, Value) -> bool, path: string, items: seq<Value>, elems: seq<Json>, i: nat)
    requires i < Max(|items|, |elems|)
    requires IsLeaf(p, ItemAt(items, i)) && !(ItemAt(items, i).VNull? && ElemAt(elems, i).JNull?)
    ensures ListDiffs(p, equal, path, items, elems, i) ==
      [LeafAtIndex(equal, path, items, elems, i)] + ListDiffs(p, equal, path, items, elems, i + 1)
  {
    assert ValueDiffs(p, equal, IndexPath(path, i), ItemAt(items, i), ElemAt(elems, i)) == [LeafAtIndex(equal, path, items, elems, i)];
  }

  // ---------------------------------------------------------------------------------------
  // flattenAndCompareJsonObject

  /** Whether the row is present and has the column. */
  predicate RowHas(row: Option<Row>, column: string)
  {
    row.Some? && Find(row.value, column).Some?
  }

  /**
   * The columns the fields of an object from index i on resolve to: the column of each
   * field that is not an object, and those of the fields of nested objects.
   */
  function LeafColumns(resolver: Option<string -> Option<string>>, fields: seq<(string, Json)>, i: nat): set<string>
    decreases JObject(fields), |fields| - i
  {
    if i >= |fields| then {}
    else
      (match fields[i].1
       case JObject(inner) => LeafColumns(resolver, inner, 0)
       case _ => {ColumnFor(resolver, fields[i].0)})
      + LeafColumns(resolver, fields, i + 1)
  }

  /** The matched set is the leaf columns that the row has. */
  predicate MatchedAre(matched: set<string>, columns: set<string>, row: Option<Row>)
  {
    (forall c :: c in matched ==> c in columns && RowHas(row, c)) &&
    (forall c :: c in columns && RowHas(row, c) ==> c in matched)
  }

  /** The prefix of the display paths below a parent path. */
  function Lead(parentPath: string): string
  {
    if parentPath == "" then "" else parentPath + "."
  }

  /**
   * What the flattening promises of its records: their paths begin with the lead; a record
   * naming a SQL column is a MISSING_IN_SQL for a column the row lacks; and when the row is
   * absent, every record names a column.
   */
  predicate FlatRecords(ds: seq<Difference>, row: Option<Row>, lead: string)
  {
    forall k :: 0 <= k < |ds| ==>
      IsPrefix(lead, ds[k].path) &&
      (ds[k].sqlColumn.Some? ==> ds[k].kind == MissingInSql && !RowHas(row, ds[k].sqlColumn.value)) &&
      (row.None? ==> ds[k].sqlColumn.Some?)
  }

  lemma FlatRecordsConcat(a: seq<Difference>, b: seq<Difference>, row: Option<Row>, lead: string)
    requires FlatRecords(a, row, lead) && FlatRecords(b, row, lead)
    ensures FlatRecords(a + b, row, lead)
  {
    forall k | 0 <= k < |a + b|
      ensures (a + b)[k] == if k < |a| then a[k] else b[k - |a|]
    {
    }
  }

  lemma FlatRecordsWeaken(ds: seq<Difference>, row: Option<Row>, longer: string, lead: string)
    requires FlatRecords(ds, row, longer) && IsPrefix(lead, longer)
    ensures FlatRecords(ds, row, lead)
  {
    forall k | 0 <= k < |ds|
      ensures IsPrefix(lead, ds[k].path)
    {
      PrefixTransitive(lead, longer, ds[k].path);
    }
  }

  /** The records of the value walk under a present row are flattening records. */
  lemma WalkRecordsAreFlat(ds: seq<Difference>, row: Option<Row>, path: string)
    requires WalkRecords(ds, path) && row.Some?
    ensures FlatRecords(ds, row, path)
  {
  }

  lemma DisplayPathLead(parentPath: string, key: string)
    ensures IsPrefix(Lead(parentPath), DisplayPath(parentPath, key))
    ensures IsPrefix(Lead(parentPath), Lead(DisplayPath(parentPath, key)))
  {
    var d := DisplayPath(parentPath, key);
    if parentPath != "" {
      assert d == (parentPath + ".") + key;
      assert Lead(d) == d + ".";
      PrefixTransitive(Lead(parentPath), d, Lead(d));
    }
  }

  /**
   * A field that is not an object: the records lie under its display path, and its column
   * is matched exactly when the row has it. When the row is absent or lacks the column, the
   * field gives exactly one MISSING_IN_SQL record.
   */
  lemma FieldRecords(p: Parsers, equal: (Value, Value) -> bool, resolver: Option<string -> Option<string>>,
                     key: string, value: Json, displayPath: string, row: Option<Row>)
    ensures FlatRecords(FieldDiffs(p, equal, resolver, key, value, displayPath, row).0, row, displayPath)
    ensures MatchedAre(FieldDiffs(p, equal, resolver, key, value, displayPath, row).1, {ColumnFor(resolver, key)}, row)
    ensures !RowHas(row, ColumnFor(resolver, key)) ==>
      FieldDiffs(p, equal, resolver, key, value, displayPath, row).0
        == [MissingInSqlDifference(displayPath, Some(ColumnFor(resolver, key)), value)]
  {
    var column := ColumnFor(resolver, key);
    if RowHas(row, column) {
      var sqlValue := Find(row.value, column).value;
      var compared :=
        if value.JArray? && sqlValue.VString? && p.json(sqlValue.s).Some? then ToJava(p.json(sqlValue.s).value)
        else sqlValue;
      ValueDiffsUnder(p, equal, displayPath, compared, value);
      WalkRecordsAreFlat(ValueDiffs(p, equal, displayPath, compared, value), row, displayPath);
    } else {
      assert FieldDiffs(p, equal, resolver, key, value, displayPath, row).0
          == [MissingInSqlDifference(displayPath, Some(column), value)];
    }
  }

  /**
   * The flattening of the fields of an object from index i on: its records are flattening
   * records under the parent path's lead, and the columns it matches are exactly the leaf
   * columns of those fields that the row has.
   */
  lemma {:induction false} FlattenRecords(p: Parsers, equal: (Value, Value) -> bool, resolver: Option<string -> Option<string>>,
                                          fields: seq<(string, Json)>, parentPath: string, row: Option<Row>, i: nat)
    ensures FlatRecords(FlattenDiffs(p, equal, resolver, fields, parentPath, row, i).0, row, Lead(parentPath))
    ensures MatchedAre(FlattenDiffs(p, equal, resolver, fields, parentPath, row, i).1, LeafColumns(resolver, fields, i), row)
    decreases JObject(fields), 1, |fields| - i
  {
    if i < |fields| {
      MemberRecords(p, equal, resolver, fields, parentPath, row, i);
      FlattenRecords(p, equal, resolver, fields, parentPath, row, i + 1);
      FlatRecordsConcat(MemberDiffs(p, equal, resolver, fields, parentPath, row, i).0,
                        FlattenDiffs(p, equal, resolver, fields, parentPath, row, i + 1).0, row, Lead(parentPath));
    }
  }

  lemma {:induction false} MemberRecords(p: Parsers, equal: (Value, Value) -> bool, resolver: Option<string -> Option<string>>,
                                         fields: seq<(string, Json)>, parentPath: string, row: Option<Row>, i: nat)
    requires i < |fields|
    ensures FlatRecords(MemberDiffs(p, equal, resolver, fields, parentPath, row, i).0, row, Lead(parentPath))
    ensures MatchedAre(MemberDiffs(p, equal, resolver, fields, parentPath, row, i).1,
                       match fields[i].1 case JObject(inner) => LeafColumns(resolver, inner, 0)
                                         case _ => {ColumnFor(resolver, fields[i].0)},
                       row)
    decreases JObject(fields), 0, 0
  {
    var (key, value) := fields[i];
    var displayPath := DisplayPath(parentPath, key);
    DisplayPathLead(parentPath, key);
    match value {
      case JObject(inner) =>
        FlattenRecords(p, equal, resolver, inner, displayPath, row, 0);
        FlatRecordsWeaken(FlattenDiffs(p, equal, resolver, inner, displayPath, row, 0).0, row, Lead(displayPath), Lead(parentPath));
      case _ =>
        FieldRecords(p, equal, resolver, key, value, displayPath, row);
        FlatRecordsWeaken(FieldDiffs(p, equal, resolver, key, value, displayPath, row).0, row, displayPath, Lead(parentPath));
    }
  }

  // ---------------------------------------------------------------------------------------
  // compareRowAndJson

  /** Column j of the row is neither among the given columns nor an id column. */
  predicate Unreferenced(row: Row, columns: set<string>, j: nat)
    requires j < |row|
  {
    row[j].0 !in columns && !IsIdColumn(row[j].0)
  }

  /** Every MISSING_IN_API record of the column check is that of a column from index i on that is neither matched nor id. */
  lemma {:induction false} UnmatchedSound(row: Row, matched: set<string>, i: nat)
    ensures forall d :: d in UnmatchedColumns(row, matched, i) ==>
      exists j :: i <= j < |row| && Unreferenced(row, matched, j) && d == UnmatchedDifference(row[j].0, row[j].1)
    decreases |row| - i
  {
    if i < |row| {
      UnmatchedSound(row, matched, i + 1);
      if Unreferenced(row, matched, i) {
        assert UnmatchedColumns(row, matched, i) == [UnmatchedDifference(row[i].0, row[i].1)] + UnmatchedColumns(row, matched, i + 1);
      } else {
        assert UnmatchedColumns(row, matched, i) == UnmatchedColumns(row, matched, i + 1);
      }
    }
  }

  /** Every column from index i on that is neither matched nor id has its MISSING_IN_API record. */
  lemma {:induction false} UnmatchedComplete(row: Row, matched: set<string>, i: nat)
    ensures forall j :: i <= j < |row| && Unreferenced(row, matched, j) ==>
      UnmatchedDifference(row[j].0, row[j].1) in UnmatchedColumns(row, matched, i)
    decreases |row| - i
  {
    if i < |row| {
      UnmatchedComplete(row, matched, i + 1);
      if Unreferenced(row, matched, i) {
        assert UnmatchedColumns(row, matched, i) == [UnmatchedDifference(row[i].0, row[i].1)] + UnmatchedColumns(row, matched, i + 1);
      } else {
        assert UnmatchedColumns(row, matched, i) == UnmatchedColumns(row, matched, i + 1);
      }
    }
  }

  /** The columns the leaf fields of the API element resolve to (none unless it is an object). */
  function ElemColumns(resolver: Option<string -> Option<string>>, elem: Option<Json>): set<string>
  {
    match elem
    case Some(JObject(fields)) => LeafColumns(resolver, fields, 0)
    case _ => {}
  }

  /** The flattening part of compareRowAndJson: its records, and the columns it matched. */
  lemma FlatPart(p: Parsers, equal: (Value, Value) -> bool, resolver: Option<string -> Option<string>>,
                 row: Option<Row>, elem: Option<Json>)
    returns (flat: seq<Difference>, matched: set<string>)
    requires !(row.None? && (elem.None? || elem.value.JNull?))
    ensures RowDiffs(p, equal, resolver, row, elem) == flat + (if row.Some? then UnmatchedColumns(row.value, matched, 0) else [])
    ensures FlatRecords(flat, row, "")
    ensures MatchedAre(matched, ElemColumns(resolver, elem), row)
  {
    match elem {
      case Some(JObject(fields)) =>
        flat, matched := FlattenDiffs(p, equal, resolver, fields, "", row, 0).0, FlattenDiffs(p, equal, resolver, fields, "", row, 0).1;
        FlattenRecords(p, equal, resolver, fields, "", row, 0);
      case _ =>
        flat, matched := [], {};
    }
  }

  /**
   * Both sides absent: no records. The row absent: every record is a MISSING_IN_SQL naming
   * the column a leaf field resolves to.
   */
  lemma RowAbsent(p: Parsers, equal: (Value, Value) -> bool, resolver: Option<string -> Option<string>>,
                  row: Option<Row>, elem: Option<Json>)
    requires row.None?
    ensures (elem.None? || elem.value.JNull?) ==> RowDiffs(p, equal, resolver, row, elem) == []
    ensures forall k :: 0 <= k < |RowDiffs(p, equal, resolver, row, elem)| ==>
      RowDiffs(p, equal, resolver, row, elem)[k].kind == MissingInSql && RowDiffs(p, equal, resolver, row, elem)[k].sqlColumn.Some?
  {
    if !(elem.None? || elem.value.JNull?) {
      var flat, matched := FlatPart(p, equal, resolver, row, elem);
      assert RowDiffs(p, equal, resolver, row, elem) == flat;
    }
  }

  /**
   * Every column of a present row that no leaf field of the element resolves to, id columns
   * excepted, is reported as one MISSING_IN_API record naming it and holding its value.
   */
  lemma UnreferencedColumnsReported(p: Parsers, equal: (Value, Value) -> bool, resolver: Option<string -> Option<string>>,
                                    row: Row, elem: Option<Json>)
    ensures forall j :: 0 <= j < |row| && Unreferenced(row, ElemColumns(resolver, elem), j) ==>
      UnmatchedDifference(row[j].0, row[j].1) in RowDiffs(p, equal, resolver, Some(row), elem)
  {
    var flat, matched := FlatPart(p, equal, resolver, Some(row), elem);
    UnmatchedComplete(row, matched, 0);
    forall j | 0 <= j < |row| && Unreferenced(row, ElemColumns(resolver, elem), j)
      ensures UnmatchedDifference(row[j].0, row[j].1) in RowDiffs(p, equal, resolver, Some(row), elem)
    {
      assert Unreferenced(row, matched, j);
    }
  }

  /**
   * Conversely, every MISSING_IN_API record that names a column is that of a row column no
   * leaf field resolves to and not an id column.
   */
  lemma ReportedColumnsUnreferenced(p: Parsers, equal: (Value, Value) -> bool, resolver: Option<string -> Option<string>>,
                                    row: Row, elem: Option<Json>)
    ensures forall d :: d in RowDiffs(p, equal, resolver, Some(row), elem) && d.kind == MissingInApi && d.sqlColumn.Some? ==>
      exists j :: 0 <= j < |row| && Unreferenced(row, ElemColumns(resolver, elem), j) && d == UnmatchedDifference(row[j].0, row[j].1)
  {
    var flat, matched := FlatPart(p, equal, resolver, Some(row), elem);
    var rest := UnmatchedColumns(row, matched, 0);
    UnmatchedSound(row, matched, 0);
    FlatNotMissingInApi(flat, Some(row));
    forall d: Difference | d in flat + rest && d.kind == MissingInApi && d.sqlColumn.Some?
      ensures exists j :: 0 <= j < |row| && Unreferenced(row, ElemColumns(resolver, elem), j) && d == UnmatchedDifference(row[j].0, row[j].1)
    {
      assert d in rest;
      var j :| 0 <= j < |row| && Unreferenced(row, matched, j) && d == UnmatchedDifference(row[j].0, row[j].1);
      UnmatchedIsUnreferenced(row, matched, ElemColumns(resolver, elem), j);
    }
  }

  /** How many MISSING_IN_API records name the column. */
  function ApiMissCount(ds: seq<Difference>, column: string): (n: nat)
    ensures n <= |ds|
  {
    if ds == [] then 0
    else (if ds[0].kind == MissingInApi && ds[0].sqlColumn == Some(column) then 1 else 0) + ApiMissCount(ds[1..], column)
  }

  lemma {:induction false} ApiMissConcat(a: seq<Difference>, b: seq<Difference>, column: string)
    ensures ApiMissCount(a + b, column) == ApiMissCount(a, column) + ApiMissCount(b, column)
    decreases |a|
  {
    if a == [] {
      assert a + b == b;
    } else {
      assert (a + b)[0] == a[0] && (a + b)[1..] == a[1..] + b;
      ApiMissConcat(a[1..], b, column);
    }
  }

  lemma {:induction false} ApiMissNone(ds: seq<Difference>, column: string)
    requires forall d :: d in ds ==> !(d.kind == MissingInApi && d.sqlColumn.Some?)
    ensures ApiMissCount(ds, column) == 0
    decreases |ds|
  {
    if ds != [] {
      assert ds[0] in ds;
      assert forall d :: d in ds[1..] ==> d in ds;
      ApiMissNone(ds[1..], column);
    }
  }

  /**
   * With distinct column names, the column check from index i on reports column j once
   * when j is at or after i and neither matched nor an id column, and otherwise not at all.
   */
  lemma {:induction false} UnmatchedCount(row: Row, matched: set<string>, i: nat, j: nat)
    requires DistinctKeys(row) && j < |row|
    ensures ApiMissCount(UnmatchedColumns(row, matched, i), row[j].0) == if i <= j && Unreferenced(row, matched, j) then 1 else 0
    decreases |row| - i
  {
    if i < |row| {
      var head := if Unreferenced(row, matched, i) then [UnmatchedDifference(row[i].0, row[i].1)] else [];
      assert UnmatchedColumns(row, matched, i) == head + UnmatchedColumns(row, matched, i + 1);
      ApiMissConcat(head, UnmatchedColumns(row, matched, i + 1), row[j].0);
      UnmatchedCount(row, matched, i + 1, j);
      if i != j {
        assert row[i].0 != row[j].0 by {
          if i < j { assert row[i].0 != row[j].0; } else { assert row[j].0 != row[i].0; }
        }
      }
    }
  }

  /**
   * With the distinct column names of a SQL row, a column is named by exactly one
   * MISSING_IN_API record when no leaf field of the element resolves to it and it is not an
   * id column, and by none otherwise.
   */
  lemma UnreferencedColumnsReportedOnce(p: Parsers, equal: (Value, Value) -> bool, resolver: Option<string -> Option<string>>,
                                        row: Row, elem: Option<Json>, j: nat)
    requires DistinctKeys(row) && j < |row|
    ensures ApiMissCount(RowDiffs(p, equal, resolver, Some(row), elem), row[j].0)
         == if Unreferenced(row, ElemColumns(resolver, elem), j) then 1 else 0
  {
    var flat, matched := FlatPart(p, equal, resolver, Some(row), elem);
    FlatNotMissingInApi(flat, Some(row));
    ApiMissNone(flat, row[j].0);
    ApiMissConcat(flat, UnmatchedColumns(row, matched, 0), row[j].0);
    UnmatchedCount(row, matched, 0, j);
    if Unreferenced(row, matched, j) {
      UnmatchedIsUnreferenced(row, matched, ElemColumns(resolver, elem), j);
    }
  }

  lemma FlatNotMissingInApi(flat: seq<Difference>, row: Option<Row>)
    requires FlatRecords(flat, row, "")
    ensures forall d :: d in flat ==> !(d.kind == MissingInApi && d.sqlColumn.Some?)
  {
  }

  lemma UnmatchedIsUnreferenced(row: Row, matched: set<string>, columns: set<string>, j: nat)
    requires j < |row| && MatchedAre(matched, columns, Some(row)) && Unreferenced(row, matched, j)
    ensures Unreferenced(row, columns, j)
  {
    assert Find(row, row[j].0).Some?;
  }

  // ---------------------------------------------------------------------------------------
  // The oracle's equality test

  /** With the oracle's test, a SQL number against a JSON number is EQUAL exactly within the tolerance. */
  lemma NumberLeaf(p: Parsers, path: string, t: string, x: real, t': string, y: real)
    ensures ValueDiffs(p, OracleEqual(p), path, VNumber(t, x), JNumber(t', y))[0].kind == Equal
        <==> -DoubleTolerance <= x - y <= DoubleTolerance
  {
    LeafRecord(p, OracleEqual(p), path, VNumber(t, x), JNumber(t', y));
    ObjectsEqualNumbers(p, t, x, t', y);
  }

  /** With the oracle's test, a SQL null against a present API value is a VALUE_MISMATCH. */
  lemma NullAgainstValue(p: Parsers, path: string, api: Json)
    requires !api.JNull?
    ensures ValueDiffs(p, OracleEqual(p), path, VNull, api)[0].kind == ValueMismatch
  {
    LeafRecord(p, OracleEqual(p), path, VNull, api);
    ObjectsEqualNull(p, ToJava(api));
  }
}

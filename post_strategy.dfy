/**
 * The SQL statements the POST strategy derives from an operation. With path parameters it
 * checks the row exists (SELECT) and then updates it (UPDATE … SET … WHERE); without them it
 * inserts a row (INSERT … VALUES). Text is built by appending each item followed by its
 * separator and then cutting the trailing separator off, as a StringBuilder with setLength.
 * The column mapping, the parameter values, the JSON rendering of arrays and the database
 * answers are inputs.
 */
module PostStrategy {
  import opened Wrappers

  datatype Location = PathLocation | OtherLocation

  /** A leaf parameter: the column the table maps it to (null when unmapped), where it lives, whether its parent is an array, and its value. */
  datatype Leaf = Leaf(column: Option<string>, location: Location, underArray: bool, value: string)

  /** An array parameter: its mapped column, how many elements it has, and its values rendered as a JSON string. */
  datatype ArrayParam = ArrayParam(column: Option<string>, elementCount: nat, json: string)

  /** A LinkedHashMap<String, Object>: entries in insertion order, keys distinct. */
  type Entries = seq<(string, string)>

  /** What the database does with each statement: the SELECT throws or returns some rows; the UPDATE and INSERT throw or not. */
  datatype SelectAnswer = SelectThrows | Rows(count: nat)
  datatype Database = Database(select: SelectAnswer, updateThrows: bool, insertThrows: bool)

  /** What operationToSQL returns. */
  datatype PostOutcome =
    | NoWhereColumns                                                  // empty select interaction, nothing executed
    | SelectFailed(selectSql: string, where: Entries)                 // the select interaction after executeGet threw
    | NotFound(selectSql: string, where: Entries)                     // the select interaction, no row matched
    | NoSetValues(selectSql: string, where: Entries)                  // the select interaction, nothing to update
    | UpdateRun(updateSql: string, setValues: Entries, where: Entries, failed: bool)
    | InsertRejected(message: string)                                 // the RuntimeException the method throws
    | InsertRun(insertSql: string, columnValues: Entries, failed: bool)

  const InsertRejectedPrefix: string := "Dangerous Operation: INSERT without columnValues is not allowed for "

  // ---- separators, joins and the LinkedHashMap ----

  /** The items separated by sep. */
  function Join(xs: seq<string>, sep: string): string
  {
    if |xs| == 0 then "" else if |xs| == 1 then xs[0] else Join(xs[..|xs| - 1], sep) + sep + xs[|xs| - 1]
  }

  /** Each item followed by piece, as the append loops produce them. */
  function Seg(xs: seq<string>, piece: string): string
  {
    if |xs| == 0 then "" else Seg(xs[..|xs| - 1], piece) + xs[|xs| - 1] + piece
  }

  /** Each item with term appended. */
  function Suffixed(xs: seq<string>, term: string): (ys: seq<string>)
    ensures |ys| == |xs| && forall i :: 0 <= i < |xs| ==> ys[i] == xs[i] + term
  {
    if |xs| == 0 then [] else Suffixed(xs[..|xs| - 1], term) + [xs[|xs| - 1] + term]
  }

  /** n copies of s. */
  function Repeat(s: string, n: nat): (ys: seq<string>)
    ensures |ys| == n && forall i :: 0 <= i < n ==> ys[i] == s
  {
    if n == 0 then [] else Repeat(s, n - 1) + [s]
  }

  /** Appending item plus separator, then cutting the last separator, is joining. */
  lemma {:induction false} SegIsJoinPlusSep(xs: seq<string>, term: string, sep: string)
    requires |xs| > 0
    ensures Seg(xs, term + sep) == Join(Suffixed(xs, term), sep) + sep
  {
    if |xs| > 1 {
      var init := xs[..|xs| - 1];
      SegIsJoinPlusSep(init, term, sep);
      assert Suffixed(xs, term)[..|xs| - 1] == Suffixed(init, term);
    }
  }

  lemma SuffixedEmpty(xs: seq<string>)
    ensures Suffixed(xs, "") == xs
  {
    var ys := Suffixed(xs, "");
    forall i | 0 <= i < |xs|
      ensures ys[i] == xs[i]
    {
      assert ys[i] == xs[i] + "";
    }
  }

  /** Cutting the separator off the end of a builder holding p + j + sep leaves p + j. */
  lemma TrimSeparator(p: string, j: string, sep: string)
    ensures (p + (j + sep))[..|p + (j + sep)| - |sep|] == p + j
  {
    assert (p + (j + sep)) == (p + j) + sep;
  }

  /** LinkedHashMap.put: overwrite the value of a present key in place, otherwise append. */
  function Put(m: Entries, k: string, v: string): (r: Entries)
    ensures |r| == |m| || |r| == |m| + 1
  {
    if |m| == 0 then [(k, v)]
    else if m[0].0 == k then [(k, v)] + m[1..]
    else [m[0]] + Put(m[1..], k, v)
  }

  /** The puts of pairs performed in order on m. */
  function PutAll(m: Entries, pairs: Entries): Entries
  {
    if |pairs| == 0 then m else Put(PutAll(m, pairs[..|pairs| - 1]), pairs[|pairs| - 1].0, pairs[|pairs| - 1].1)
  }

  function Keys(m: Entries): (ks: seq<string>)
    ensures |ks| == |m| && forall i :: 0 <= i < |m| ==> ks[i] == m[i].0
  {
    if |m| == 0 then [] else [m[0].0] + Keys(m[1..])
  }

  /** The value stored for k, if any. */
  function Lookup(m: Entries, k: string): Option<string>
  {
    if |m| == 0 then None else if m[0].0 == k then Some(m[0].1) else Lookup(m[1..], k)
  }

  /** The first element of each pair. */
  function Firsts(pairs: Entries): (ks: seq<string>)
    ensures |ks| == |pairs| && forall i :: 0 <= i < |pairs| ==> ks[i] == pairs[i].0
  {
    if |pairs| == 0 then [] else Firsts(pairs[..|pairs| - 1]) + [pairs[|pairs| - 1].0]
  }

  /** The first occurrences of the items, in order. */
  function Dedup(xs: seq<string>): seq<string>
  {
    if |xs| == 0 then [] else
      var d := Dedup(xs[..|xs| - 1]);
      if xs[|xs| - 1] in d then d else d + [xs[|xs| - 1]]
  }

  predicate Distinct(xs: seq<string>)
  {
    forall i, j :: 0 <= i < j < |xs| ==> xs[i] != xs[j]
  }

  lemma {:induction false} PutKeys(m: Entries, k: string, v: string)
    ensures Keys(Put(m, k, v)) == if k in Keys(m) then Keys(m) else Keys(m) + [k]
  {
    if |m| > 0 && m[0].0 != k {
      PutKeys(m[1..], k, v);
      assert Keys(m) == [m[0].0] + Keys(m[1..]);
    }
  }

  /** The keys of a map filled by puts are the first occurrences of the put keys, in order. */
  lemma {:induction false} PutAllKeys(pairs: Entries)
    ensures Keys(PutAll([], pairs)) == Dedup(Firsts(pairs))
  {
    if |pairs| > 0 {
      var init := pairs[..|pairs| - 1];
      PutAllKeys(init);
      PutKeys(PutAll([], init), pairs[|pairs| - 1].0, pairs[|pairs| - 1].1);
      assert Firsts(pairs)[..|pairs| - 1] == Firsts(init);
    }
  }

  lemma {:induction false} PutLookup(m: Entries, k: string, v: string, q: string)
    ensures Lookup(Put(m, k, v), q) == if q == k then Some(v) else Lookup(m, q)
  {
    if |m| > 0 && m[0].0 != k {
      PutLookup(m[1..], k, v, q);
    }
  }

  /** A later put overwrites an earlier one: the value stored for a key is the last value put for it. */
  lemma {:induction false} PutAllLastWins(pairs: Entries, i: nat)
    requires i < |pairs|
    requires forall j :: i < j < |pairs| ==> pairs[j].0 != pairs[i].0
    ensures Lookup(PutAll([], pairs), pairs[i].0) == Some(pairs[i].1)
  {
    var init := pairs[..|pairs| - 1];
    var last := pairs[|pairs| - 1];
    PutLookup(PutAll([], init), last.0, last.1, pairs[i].0);
    if i < |pairs| - 1 {
      PutAllLastWins(init, i);
    }
  }

  lemma {:induction false} DedupFacts(xs: seq<string>)
    ensures Distinct(Dedup(xs))
    ensures forall x :: x in Dedup(xs) <==> x in xs
    ensures |Dedup(xs)| <= |xs|
  {
    if |xs| > 0 {
      DedupFacts(xs[..|xs| - 1]);
      assert forall x :: x in xs <==> x in xs[..|xs| - 1] || x == xs[|xs| - 1];
    }
  }

  /** Deduplication keeps the length exactly when the items are distinct (and is then the identity). */
  lemma {:induction false} DedupKeepsLengthIffDistinct(xs: seq<string>)
    ensures |Dedup(xs)| == |xs| <==> Distinct(xs)
    ensures Distinct(xs) ==> Dedup(xs) == xs
  {
    if |xs| > 0 {
      var init := xs[..|xs| - 1];
      DedupKeepsLengthIffDistinct(init);
      DedupFacts(init);
      if Distinct(xs) {
        assert Distinct(init);
        assert xs[|xs| - 1] !in init;
      } else if Distinct(init) {
        var i, j :| 0 <= i < j < |xs| && xs[i] == xs[j];
        assert j == |xs| - 1;
        assert xs[|xs| - 1] in init;
      } else {
        assert |Dedup(init)| < |init|;
      }
    }
  }

  // ---- what the loops collect ----

  /** Which leaves a loop takes: the SELECT loop takes every path leaf, the SET loop non-path leaves outside arrays, the INSERT loop leaves outside arrays. */
  datatype LeafFilter = AnyLeaf | SetTarget | InsertTarget

  predicate Selected(f: LeafFilter, leaf: Leaf)
  {
    match f
    case AnyLeaf => true
    case SetTarget => leaf.location != PathLocation && !leaf.underArray
    case InsertTarget => !leaf.underArray
  }

  function PathLeaves(leaves: seq<Leaf>): (ps: seq<Leaf>)
    ensures forall l :: l in ps ==> l in leaves && l.location == PathLocation
    ensures forall l :: l in leaves && l.location == PathLocation ==> l in ps
  {
    if |leaves| == 0 then [] else
      PathLeaves(leaves[..|leaves| - 1]) + (if leaves[|leaves| - 1].location == PathLocation then [leaves[|leaves| - 1]] else [])
  }

  /** The (column, value) puts a leaf loop makes: only selected leaves with a mapped column. */
  function LeafPairs(leaves: seq<Leaf>, f: LeafFilter): Entries
  {
    if |leaves| == 0 then [] else
      var l := leaves[|leaves| - 1];
      LeafPairs(leaves[..|leaves| - 1], f) + (if Selected(f, l) && l.column.Some? then [(l.column.value, l.value)] else [])
  }

  /** The (column, JSON) puts an array loop makes: only non-empty arrays with a mapped column. */
  function ArrayPairs(arrays: seq<ArrayParam>): Entries
  {
    if |arrays| == 0 then [] else
      var a := arrays[|arrays| - 1];
      ArrayPairs(arrays[..|arrays| - 1]) + (if a.elementCount > 0 && a.column.Some? then [(a.column.value, a.json)] else [])
  }

  /** One more leaf of the prefix leaves[..i]. */
  lemma LeafPairsNext(leaves: seq<Leaf>, f: LeafFilter, i: nat)
    requires i < |leaves|
    ensures LeafPairs(leaves[..i + 1], f) == LeafPairs(leaves[..i], f) +
      (if Selected(f, leaves[i]) && leaves[i].column.Some? then [(leaves[i].column.value, leaves[i].value)] else [])
  {
    assert leaves[..i + 1][..i] == leaves[..i];
  }

  lemma ArrayPairsNext(arrays: seq<ArrayParam>, i: nat)
    requires i < |arrays|
    ensures ArrayPairs(arrays[..i + 1]) == ArrayPairs(arrays[..i]) +
      (if arrays[i].elementCount > 0 && arrays[i].column.Some? then [(arrays[i].column.value, arrays[i].json)] else [])
  {
    assert arrays[..i + 1][..i] == arrays[..i];
  }

  lemma PathLeavesNext(leaves: seq<Leaf>, i: nat)
    requires i < |leaves|
    ensures PathLeaves(leaves[..i + 1]) == PathLeaves(leaves[..i]) + (if leaves[i].location == PathLocation then [leaves[i]] else [])
  {
    assert leaves[..i + 1][..i] == leaves[..i];
  }

  lemma SegNext(keys: seq<string>, piece: string, i: nat)
    requires i < |keys|
    ensures Seg(keys[..i + 1], piece) == Seg(keys[..i], piece) + keys[i] + piece
  {
    assert keys[..i + 1][..i] == keys[..i];
  }

  function SetPairs(leaves: seq<Leaf>, arrays: seq<ArrayParam>): Entries
  {
    LeafPairs(leaves, SetTarget) + ArrayPairs(arrays)
  }

  function InsertPairs(leaves: seq<Leaf>, arrays: seq<ArrayParam>): Entries
  {
    LeafPairs(leaves, InsertTarget) + ArrayPairs(arrays)
  }

  function WherePairs(leaves: seq<Leaf>): Entries
  {
    LeafPairs(PathLeaves(leaves), AnyLeaf)
  }

  // ---- the statement texts ----

  function SelectSql(table: string, cols: seq<string>): string
  {
    "SELECT * FROM " + table + " WHERE " + Join(Suffixed(cols, " = ?"), " AND ") + ";"
  }

  function UpdateSql(table: string, setCols: seq<string>, whereCols: seq<string>): string
  {
    UpdateHead(table, setCols) + Join(Suffixed(whereCols, " = ?"), " AND ") + ";"
  }

  /** The UPDATE text up to its WHERE keys. */
  function UpdateHead(table: string, setCols: seq<string>): string
  {
    "UPDATE " + table + " SET " + Join(Suffixed(setCols, " = ?"), ", ") + " WHERE "
  }

  function InsertSql(table: string, cols: seq<string>, placeholders: nat): string
  {
    InsertHead(table, cols) + Join(Repeat("?", placeholders), ", ") + ");"
  }

  /** The INSERT text up to its placeholders. */
  function InsertHead(table: string, cols: seq<string>): string
  {
    "INSERT INTO " + table + " (" + Join(cols, ", ") + ") VALUES ("
  }

  /** The SELECT for two columns, spelled out. */
  lemma SelectExample()
    ensures SelectSql("t", ["a", "b"]) == "SELECT * FROM t WHERE a = ? AND b = ?;"
  {
    WhereAB();
  }

  /** The WHERE list for columns a and b. */
  lemma WhereAB()
    ensures Join(Suffixed(["a", "b"], " = ?"), " AND ") == "a = ? AND b = ?"
  {
    var ys := Suffixed(["a", "b"], " = ?");
    assert ys[0] == "a = ?" && ys[1] == "b = ?";
    assert ys == ["a = ?", "b = ?"];
    assert ys[..1] == ["a = ?"];
  }

  /** The UPDATE for one SET column and two WHERE columns, spelled out. */
  lemma UpdateExample()
    ensures UpdateSql("t", ["x"], ["a", "b"]) == "UPDATE t SET x = ? WHERE a = ? AND b = ?;"
  {
    var xs := Suffixed(["x"], " = ?");
    assert xs[0] == "x = ?";
    assert xs == ["x = ?"];
    assert UpdateHead("t", ["x"]) == "UPDATE t SET x = ? WHERE ";
    WhereAB();
  }

  /** The INSERT for two columns, spelled out. */
  lemma InsertExample()
    ensures InsertSql("t", ["a", "b"], 2) == "INSERT INTO t (a, b) VALUES (?, ?);"
  {
    assert ["a", "b"][..1] == ["a"];
    assert Join(["a", "b"], ", ") == "a, b";
    assert InsertHead("t", ["a", "b"]) == "INSERT INTO t (a, b) VALUES (";
    var qs := Repeat("?", 2);
    assert qs == ["?", "?"];
    assert qs[..1] == ["?"];
    assert Join(qs, ", ") == "?, ?";
  }

  // ---- the imperative builders ----

  /** The first loop: the leaves whose location is PATH, in order. */
  method CollectPathParams(leaves: seq<Leaf>) returns (pathParams: seq<Leaf>)
    ensures pathParams == PathLeaves(leaves)
  {
    pathParams := [];
    var i := 0;
    while i < |leaves|
      invariant 0 <= i <= |leaves|
      invariant pathParams == PathLeaves(leaves[..i])
    {
      PathLeavesNext(leaves, i);
      if leaves[i].location == PathLocation {
        pathParams := pathParams + [leaves[i]];
      }
      i := i + 1;
    }
    assert leaves[..|leaves|] == leaves;
  }

  /** One more put and one more appended column. */
  lemma Snoc(sb: string, m: Entries, pairs: Entries, p: (string, string), piece: string)
    ensures PutAll(m, pairs + [p]) == Put(PutAll(m, pairs), p.0, p.1)
    ensures sb + Seg(Firsts(pairs + [p]), piece) == sb + Seg(Firsts(pairs), piece) + p.0 + piece
  {
    assert (pairs + [p])[..|pairs|] == pairs;
    assert Firsts(pairs + [p]) == Firsts(pairs) + [p.0];
    assert (Firsts(pairs) + [p.0])[..|pairs|] == Firsts(pairs);
  }

  /** A leaf loop: for each selected leaf with a mapped column, append column + piece and put (column, value). */
  method AppendLeaves(sb: string, m: Entries, leaves: seq<Leaf>, f: LeafFilter, piece: string) returns (sb': string, m': Entries)
    ensures sb' == sb + Seg(Firsts(LeafPairs(leaves, f)), piece)
    ensures m' == PutAll(m, LeafPairs(leaves, f))
  {
    sb', m' := sb, m;
    ghost var pairs: Entries := [];
    var i := 0;
    while i < |leaves|
      invariant 0 <= i <= |leaves|
      invariant pairs == LeafPairs(leaves[..i], f)
      invariant sb' == sb + Seg(Firsts(pairs), piece)
      invariant m' == PutAll(m, pairs)
    {
      var leaf := leaves[i];
      LeafPairsNext(leaves, f, i);
      if Selected(f, leaf) && leaf.column.Some? {
        var columnName := leaf.column.value;
        Snoc(sb, m, pairs, (columnName, leaf.value), piece);
        sb' := sb' + columnName + piece;
        m' := Put(m', columnName, leaf.value);
        pairs := pairs + [(columnName, leaf.value)];
      }
      i := i + 1;
    }
    assert leaves[..|leaves|] == leaves;
  }

  /** An array loop: skip empty arrays; for each mapped one append column + piece and put (column, JSON). */
  method AppendArrays(sb: string, m: Entries, arrays: seq<ArrayParam>, piece: string) returns (sb': string, m': Entries)
    ensures sb' == sb + Seg(Firsts(ArrayPairs(arrays)), piece)
    ensures m' == PutAll(m, ArrayPairs(arrays))
  {
    sb', m' := sb, m;
    ghost var pairs: Entries := [];
    var i := 0;
    while i < |arrays|
      invariant 0 <= i <= |arrays|
      invariant pairs == ArrayPairs(arrays[..i])
      invariant sb' == sb + Seg(Firsts(pairs), piece)
      invariant m' == PutAll(m, pairs)
    {
      var arr := arrays[i];
      ArrayPairsNext(arrays, i);
      if arr.elementCount > 0 && arr.column.Some? {
        var columnName := arr.column.value;
        Snoc(sb, m, pairs, (columnName, arr.json), piece);
        sb' := sb' + columnName + piece;
        m' := Put(m', columnName, arr.json);
        pairs := pairs + [(columnName, arr.json)];
      }
      i := i + 1;
    }
    assert arrays[..|arrays|] == arrays;
  }

  /** The WHERE loop of the UPDATE: append key + piece for every key of the map, in order. */
  method AppendKeys(sb: string, keys: seq<string>, piece: string) returns (sb': string)
    ensures sb' == sb + Seg(keys, piece)
  {
    sb' := sb;
    var i := 0;
    while i < |keys|
      invariant 0 <= i <= |keys|
      invariant sb' == sb + Seg(keys[..i], piece)
    {
      SegNext(keys, piece, i);
      sb' := sb' + keys[i] + piece;
      i := i + 1;
    }
    assert keys[..|keys|] == keys;
  }

  lemma {:induction false} PutAllConcat(m: Entries, xs: Entries, ys: Entries)
    ensures PutAll(m, xs + ys) == PutAll(PutAll(m, xs), ys)
  {
    if |ys| == 0 {
      assert xs + ys == xs;
    } else {
      assert (xs + ys)[..|xs + ys| - 1] == xs + ys[..|ys| - 1];
      PutAllConcat(m, xs, ys[..|ys| - 1]);
    }
  }

  lemma {:induction false} SegConcat(xs: seq<string>, ys: seq<string>, piece: string)
    ensures Seg(xs + ys, piece) == Seg(xs, piece) + Seg(ys, piece)
  {
    if |ys| == 0 {
      assert xs + ys == xs;
    } else {
      assert (xs + ys)[..|xs + ys| - 1] == xs + ys[..|ys| - 1];
      SegConcat(xs, ys[..|ys| - 1], piece);
    }
  }

  lemma FirstsConcat(xs: Entries, ys: Entries)
    ensures Firsts(xs + ys) == Firsts(xs) + Firsts(ys)
  {
  }

  /** A map filled by puts is empty exactly when nothing was put. */
  lemma {:induction false} PutAllEmpty(pairs: Entries)
    ensures |PutAll([], pairs)| == 0 <==> |pairs| == 0
  {
    if |pairs| > 0 {
      PutAllEmpty(pairs[..|pairs| - 1]);
    }
  }

  /** The SELECT built for a sequence of where columns. */
  method BuildSelect(table: string, pathParams: seq<Leaf>) returns (sql: string, whereValues: Entries)
    ensures whereValues == PutAll([], LeafPairs(pathParams, AnyLeaf))
    ensures |LeafPairs(pathParams, AnyLeaf)| > 0 ==> sql == SelectSql(table, Firsts(LeafPairs(pathParams, AnyLeaf)))
  {
    var prefix := "SELECT * FROM " + table + " WHERE ";
    sql, whereValues := AppendLeaves(prefix, [], pathParams, AnyLeaf, " = ? AND ");
    var cols := Firsts(LeafPairs(pathParams, AnyLeaf));
    if |cols| > 0 {
      Pieces();
      CutAndAppend(prefix, cols, " = ?", " AND ", " = ? AND ", ";", sql);
      sql := sql[..|sql| - 5] + ";";
    }
  }

  /** The two collecting loops of the SET or INSERT list: the selected leaves, then the arrays. */
  method AppendTargets(prefix: string, leaves: seq<Leaf>, arrays: seq<ArrayParam>, f: LeafFilter, piece: string)
    returns (sb: string, m: Entries)
    ensures sb == prefix + Seg(Firsts(LeafPairs(leaves, f) + ArrayPairs(arrays)), piece)
    ensures m == PutAll([], LeafPairs(leaves, f) + ArrayPairs(arrays))
  {
    var sb0, m0 := AppendLeaves(prefix, [], leaves, f, piece);
    sb, m := AppendArrays(sb0, m0, arrays, piece);
    var lp, ap := LeafPairs(leaves, f), ArrayPairs(arrays);
    PutAllConcat([], lp, ap);
    JoinTargets(prefix, lp, ap, piece);
  }

  lemma JoinTargets(prefix: string, lp: Entries, ap: Entries, piece: string)
    ensures prefix + Seg(Firsts(lp), piece) + Seg(Firsts(ap), piece) == prefix + Seg(Firsts(lp + ap), piece)
  {
    FirstsConcat(lp, ap);
    SegConcat(Firsts(lp), Firsts(ap), piece);
    var a, b := Seg(Firsts(lp), piece), Seg(Firsts(ap), piece);
    assert Seg(Firsts(lp + ap), piece) == a + b;
    Assoc(prefix, a, b);
  }

  // Proof helper: associativity of string concatenation.
  lemma Assoc(a: string, b: string, c: string)
    ensures a + b + c == a + (b + c)
  {
  }

  /** Cutting the trailing separator off prefix + Seg(xs, term + sep) and appending tail. */
  lemma CutAndAppend(prefix: string, xs: seq<string>, term: string, sep: string, piece: string, tail: string, sb: string)
    requires |xs| > 0 && piece == term + sep && sb == prefix + Seg(xs, piece)
    ensures |sb| >= |sep| && sb[..|sb| - |sep|] + tail == prefix + Join(Suffixed(xs, term), sep) + tail
  {
    SegIsJoinPlusSep(xs, term, sep);
    TrimSeparator(prefix, Join(Suffixed(xs, term), sep), sep);
  }

  /** Proof helper: the separators the builders append, as term + separator. */
  lemma Pieces()
    ensures " = ?" + ", " == " = ?, " && " = ?" + " AND " == " = ? AND " && "" + ", " == ", "
  {
  }

  /** Cutting ", " off the SET list and appending " WHERE " gives the head of the UPDATE. */
  lemma UpdateSetCut(table: string, setCols: seq<string>, sb: string)
    requires |setCols| > 0 && sb == "UPDATE " + table + " SET " + Seg(setCols, " = ?, ")
    ensures |sb| >= 2 && sb[..|sb| - 2] + " WHERE " == UpdateHead(table, setCols)
  {
    Pieces();
    CutAndAppend("UPDATE " + table + " SET ", setCols, " = ?", ", ", " = ?, ", " WHERE ", sb);
  }

  /** Cutting " AND " off the WHERE list and appending ";" gives the UPDATE. */
  lemma UpdateWhereCut(table: string, setCols: seq<string>, whereKeys: seq<string>, sb: string)
    requires |whereKeys| > 0 && sb == UpdateHead(table, setCols) + Seg(whereKeys, " = ? AND ")
    ensures |sb| >= 5 && sb[..|sb| - 5] + ";" == UpdateSql(table, setCols, whereKeys)
  {
    Pieces();
    CutAndAppend(UpdateHead(table, setCols), whereKeys, " = ?", " AND ", " = ? AND ", ";", sb);
  }

  /** Cutting ", " off the column list and appending ") VALUES (" gives the head of the INSERT. */
  lemma InsertColumnsCut(table: string, cols: seq<string>, sb: string)
    requires |cols| > 0 && sb == "INSERT INTO " + table + " (" + Seg(cols, ", ")
    ensures |sb| >= 2 && sb[..|sb| - 2] + ") VALUES (" == InsertHead(table, cols)
  {
    Pieces();
    SuffixedEmpty(cols);
    CutAndAppend("INSERT INTO " + table + " (", cols, "", ", ", ", ", ") VALUES (", sb);
  }

  /** Cutting ", " off the placeholders and appending ");" gives the INSERT. */
  lemma InsertPlaceholdersCut(table: string, cols: seq<string>, n: nat, sb: string)
    requires n > 0 && sb == InsertHead(table, cols) + Seg(Repeat("?", n), ", ")
    ensures |sb| >= 2 && sb[..|sb| - 2] + ");" == InsertSql(table, cols, n)
  {
    Pieces();
    SuffixedEmpty(Repeat("?", n));
    CutAndAppend(InsertHead(table, cols), Repeat("?", n), "", ", ", ", ", ");", sb);
  }

  /** The UPDATE built from the SET puts and the keys of the where map. */
  method BuildUpdate(table: string, leaves: seq<Leaf>, arrays: seq<ArrayParam>, whereKeys: seq<string>) returns (sql: string, setValues: Entries)
    ensures setValues == PutAll([], SetPairs(leaves, arrays))
    ensures |SetPairs(leaves, arrays)| > 0 && |whereKeys| > 0 ==>
      sql == UpdateSql(table, Firsts(SetPairs(leaves, arrays)), whereKeys)
  {
    var prefix := "UPDATE " + table + " SET ";
    var sb;
    sb, setValues := AppendTargets(prefix, leaves, arrays, SetTarget, " = ?, ");
    var setCols := Firsts(SetPairs(leaves, arrays));
    sql := sb;
    if |setCols| > 0 && |whereKeys| > 0 {
      UpdateSetCut(table, setCols, sb);
      sb := sb[..|sb| - 2] + " WHERE ";
      sb := AppendKeys(sb, whereKeys, " = ? AND ");
      UpdateWhereCut(table, setCols, whereKeys, sb);
      sb := sb[..|sb| - 5] + ";";
      sql := sb;
    }
  }

  /** The placeholder loop: one "?, " per entry. */
  method AppendPlaceholders(sb: string, n: nat) returns (sb': string)
    ensures sb' == sb + Seg(Repeat("?", n), ", ")
  {
    sb' := sb;
    var i := 0;
    while i < n
      invariant 0 <= i <= n
      invariant sb' == sb + Seg(Repeat("?", i), ", ")
    {
      assert Repeat("?", i + 1)[..i] == Repeat("?", i);
      sb' := sb' + "?, ";
      i := i + 1;
    }
  }

  /** The INSERT: column list from the puts, then one placeholder per entry of the map. */
  method BuildInsert(table: string, leaves: seq<Leaf>, arrays: seq<ArrayParam>) returns (sql: string, columnValues: Entries)
    ensures columnValues == PutAll([], InsertPairs(leaves, arrays))
    ensures |InsertPairs(leaves, arrays)| > 0 ==>
      sql == InsertSql(table, Firsts(InsertPairs(leaves, arrays)), |columnValues|)
  {
    var prefix := "INSERT INTO " + table + " (";
    var sb;
    sb, columnValues := AppendTargets(prefix, leaves, arrays, InsertTarget, ", ");
    var cols := Firsts(InsertPairs(leaves, arrays));
    sql := sb;
    if |cols| > 0 {
      PutAllEmpty(InsertPairs(leaves, arrays));
      InsertColumnsCut(table, cols, sb);
      sb := sb[..|sb| - 2] + ") VALUES (";
      sb := AppendPlaceholders(sb, |columnValues|);
      InsertPlaceholdersCut(table, cols, |columnValues|, sb);
      sb := sb[..|sb| - 2] + ");";
      sql := sb;
    }
  }

  /** operationToSQL: the branch on path parameters, the skip and error exits, and the statements run. */
  method OperationToSql(table: string, endpoint: string, leaves: seq<Leaf>, arrays: seq<ArrayParam>, db: Database)
    returns (r: PostOutcome)
    ensures |PathLeaves(leaves)| == 0 ==>
      var ins := InsertPairs(leaves, arrays);
      r == if |ins| == 0 then InsertRejected(InsertRejectedPrefix + endpoint)
           else InsertRun(InsertSql(table, Firsts(ins), |Keys(PutAll([], ins))|), PutAll([], ins), db.insertThrows)
    ensures |PathLeaves(leaves)| > 0 ==>
      var wp := WherePairs(leaves);
      var sel := SelectSql(table, Firsts(wp));
      var wh := PutAll([], wp);
      var sets := SetPairs(leaves, arrays);
      r == if |wp| == 0 then NoWhereColumns
           else if db.select.SelectThrows? then SelectFailed(sel, wh)
           else if db.select.count == 0 then NotFound(sel, wh)
           else if |sets| == 0 then NoSetValues(sel, wh)
           else UpdateRun(UpdateSql(table, Firsts(sets), Keys(wh)), PutAll([], sets), wh, db.updateThrows)
  {
    var pathParams := CollectPathParams(leaves);
    if |pathParams| > 0 {
      var selectSql, whereValues := BuildSelect(table, pathParams);
      PutAllEmpty(WherePairs(leaves));
      if |whereValues| == 0 {
        return NoWhereColumns;
      }
      if db.select.SelectThrows? {
        return SelectFailed(selectSql, whereValues);
      }
      if db.select.count == 0 {
        return NotFound(selectSql, whereValues);
      }
      var updateSql, setValues := BuildUpdate(table, leaves, arrays, Keys(whereValues));
      PutAllEmpty(SetPairs(leaves, arrays));
      if |setValues| == 0 {
        return NoSetValues(selectSql, whereValues);
      }
      return UpdateRun(updateSql, setValues, whereValues, db.updateThrows);
    } else {
      var insertSql, columnValues := BuildInsert(table, leaves, arrays);
      PutAllEmpty(InsertPairs(leaves, arrays));
      if |columnValues| == 0 {
        return InsertRejected(InsertRejectedPrefix + endpoint);
      }
      return InsertRun(insertSql, columnValues, db.insertThrows);
    }
  }

  // ---- properties of the statements ----

  /** The SELECT/UPDATE branch runs exactly when some leaf is a path parameter. */
  lemma BranchOnPathLeaf(leaves: seq<Leaf>)
    ensures |PathLeaves(leaves)| > 0 <==> exists i :: 0 <= i < |leaves| && leaves[i].location == PathLocation
  {
    if exists i :: 0 <= i < |leaves| && leaves[i].location == PathLocation {
      var i :| 0 <= i < |leaves| && leaves[i].location == PathLocation;
      assert leaves[i] in leaves;
    } else if |PathLeaves(leaves)| > 0 {
      assert PathLeaves(leaves)[0] in PathLeaves(leaves);
    }
  }

  /** The UPDATE's WHERE lists the distinct SELECT columns in their first-occurrence order, which is exactly the SELECT's list when the columns are distinct. */
  lemma WhereReusesSelectColumns(leaves: seq<Leaf>)
    ensures Keys(PutAll([], WherePairs(leaves))) == Dedup(Firsts(WherePairs(leaves)))
    ensures Distinct(Firsts(WherePairs(leaves))) ==> Keys(PutAll([], WherePairs(leaves))) == Firsts(WherePairs(leaves))
  {
    PutAllKeys(WherePairs(leaves));
    DedupKeepsLengthIffDistinct(Firsts(WherePairs(leaves)));
  }

  /** The INSERT has one placeholder per distinct column, which matches the column list exactly when the mapped columns are distinct. */
  lemma InsertPlaceholdersMatchColumnsIffDistinct(leaves: seq<Leaf>, arrays: seq<ArrayParam>)
    ensures |Keys(PutAll([], InsertPairs(leaves, arrays)))| == |Dedup(Firsts(InsertPairs(leaves, arrays)))|
    ensures |Keys(PutAll([], InsertPairs(leaves, arrays)))| == |Firsts(InsertPairs(leaves, arrays))|
      <==> Distinct(Firsts(InsertPairs(leaves, arrays)))
  {
    PutAllKeys(InsertPairs(leaves, arrays));
    DedupKeepsLengthIffDistinct(Firsts(InsertPairs(leaves, arrays)));
  }

  /** Two leaves mapped to the same column: the column list names it twice, the map (and so the placeholder list) holds it once, with the later value. */
  lemma DuplicateColumnInsert(c: string, v1: string, v2: string)
    ensures var leaves := [Leaf(Some(c), OtherLocation, false, v1), Leaf(Some(c), OtherLocation, false, v2)];
      && Firsts(InsertPairs(leaves, [])) == [c, c]
      && PutAll([], InsertPairs(leaves, [])) == [(c, v2)]
  {
    DuplicatePairs(c, v1, v2);
    DuplicateMap(c, v1, v2);
  }

  lemma DuplicatePairs(c: string, v1: string, v2: string)
    ensures InsertPairs([Leaf(Some(c), OtherLocation, false, v1), Leaf(Some(c), OtherLocation, false, v2)], []) == [(c, v1), (c, v2)]
  {
    var l1, l2 := Leaf(Some(c), OtherLocation, false, v1), Leaf(Some(c), OtherLocation, false, v2);
    var leaves := [l1, l2];
    assert leaves[..1] == [l1];
    assert [l1][..0] == [];
    assert LeafPairs([l1], InsertTarget) == [(c, v1)];
    assert LeafPairs(leaves, InsertTarget) == [(c, v1), (c, v2)];
  }

  lemma DuplicateMap(c: string, v1: string, v2: string)
    ensures Firsts([(c, v1), (c, v2)]) == [c, c]
    ensures PutAll([], [(c, v1), (c, v2)]) == [(c, v2)]
  {
    var ins := [(c, v1), (c, v2)];
    assert ins[..1] == [(c, v1)];
    SinglePut(c, v1);
    Overwrite(c, v1, v2);
  }

  lemma SinglePut(c: string, v: string)
    ensures PutAll([], [(c, v)]) == [(c, v)]
  {
    assert [(c, v)][..0] == [];
  }

  lemma Overwrite(c: string, v1: string, v2: string)
    ensures Put([(c, v1)], c, v2) == [(c, v2)]
  {
    assert [(c, v1)][1..] == [];
  }

  /** The resulting statement lists two columns but one placeholder. */
  lemma DuplicateColumnInsertText()
    ensures InsertSql("t", ["a", "a"], 1) == "INSERT INTO t (a, a) VALUES (?);"
  {
    assert ["a", "a"][..1] == ["a"];
    assert Join(["a", "a"], ", ") == "a, a";
    assert Repeat("?", 1) == ["?"];
  }

  /** The SET list takes no path leaf and no leaf inside an array, and every column it lists comes from a mapped leaf or a non-empty mapped array. */
  lemma {:induction false} SetPairsComeFromTargets(leaves: seq<Leaf>, arrays: seq<ArrayParam>, p: (string, string))
    requires p in SetPairs(leaves, arrays)
    ensures (exists l :: l in leaves && l.location != PathLocation && !l.underArray && l.column == Some(p.0) && l.value == p.1)
      || (exists a :: a in arrays && a.elementCount > 0 && a.column == Some(p.0) && a.json == p.1)
  {
    if p in LeafPairs(leaves, SetTarget) {
      LeafPairsFromLeaves(leaves, SetTarget, p);
    } else {
      ArrayPairsFromArrays(arrays, p);
    }
  }

  lemma {:induction false} LeafPairsFromLeaves(leaves: seq<Leaf>, f: LeafFilter, p: (string, string))
    requires p in LeafPairs(leaves, f)
    ensures exists l :: l in leaves && Selected(f, l) && l.column == Some(p.0) && l.value == p.1
  {
    var init := leaves[..|leaves| - 1];
    var l := leaves[|leaves| - 1];
    if p in LeafPairs(init, f) {
      LeafPairsFromLeaves(init, f, p);
      var k :| k in init && Selected(f, k) && k.column == Some(p.0) && k.value == p.1;
      assert k in leaves;
    } else {
      assert l in leaves;
    }
  }

  lemma {:induction false} ArrayPairsFromArrays(arrays: seq<ArrayParam>, p: (string, string))
    requires p in ArrayPairs(arrays)
    ensures exists a :: a in arrays && a.elementCount > 0 && a.column == Some(p.0) && a.json == p.1
  {
    var init := arrays[..|arrays| - 1];
    var a := arrays[|arrays| - 1];
    if p in ArrayPairs(init) {
      ArrayPairsFromArrays(init, p);
      var k :| k in init && k.elementCount > 0 && k.column == Some(p.0) && k.json == p.1;
      assert k in arrays;
    } else {
      assert a in arrays;
    }
  }
}

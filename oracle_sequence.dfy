/**
 * assertTestSequence of the differential oracle: for each interaction of an executed test
 * sequence that carries a SQL shadow execution, a verdict from the SQL outcome and the HTTP
 * status class, and a report pairing the SQL result rows with the JSON response.
 */
module OracleSequence {
  import opened Wrappers
  import opened OracleValues
  import opened OracleCompare
  import opened OracleWalk
  import opened OracleParameters

  /** How HttpStatusCode classifies a status: 2xx, 4xx, 5xx, or anything else. */
  datatype StatusClass = Successful | ClientError | ServerError | OtherStatus

  /** A response status: its code, its text as string concatenation prints it, and its class. */
  datatype Status = Status(code: int, text: string, statusClass: StatusClass)

  /** The shadow execution of an interaction: success, the error message text, and the rows of a read (None for null). */
  datatype SqlInteraction = SqlInteraction(success: bool, errorMessage: string, queryResults: Option<seq<Row>>)

  /** The fuzzed operation of an interaction, as far as the report uses it. */
  datatype Operation = Operation(operationId: Option<string>, httpMethod: string, endpoint: string, requestBody: Option<Param>)

  /** One test interaction: its SQL_INTERACTION tag (None when absent or of another type), status, operation and body. */
  datatype Interaction = Interaction(tag: Option<SqlInteraction>, status: Status, operation: Operation,
                                     responseBody: Option<string>)

  /** The calls the oracle makes on its TestResult, in order. */
  datatype ResultCall = SetPass(message: string) | SetFail(message: string) | SetUnknown(message: string) | SetError(message: string)

  datatype DiffStatus = DiffPass | DiffFail | DiffUnknown

  datatype RowReport = RowReport(rowIndex: nat, sqlRowPresent: bool, apiElemPresent: bool, fieldDifferences: seq<Difference>)

  /**
   * The field comparison of an interaction: the row reports; or the flag that the parsed body
   * is neither an array nor an object; or what was missing for a comparison.
   */
  datatype Comparison =
    | Compared(rows: seq<RowReport>)
    | NotObjectOrArray
    | NothingToCompare(queryResultsPresent: bool, responseJsonPresent: bool)

  datatype InteractionReport = InteractionReport(
    operation: string,
    endpoint: string,
    httpMethod: string,
    apiStatus: int,
    diffStatus: DiffStatus,
    diffMessage: string,
    requestBodyParameters: seq<ParamEntry>,
    responseBodyRaw: bool,
    comparison: Comparison)

  const NotExecutedMessage := "One or more interaction in the sequence have not been executed."
  const WriteFailurePrefix := "Comparison computed but failed to write report: "

  // ---------------------------------------------------------------------------------------
  // The execution-status verdict

  /** The verdict and message for a SQL outcome and an HTTP status. */
  function Verdict(sql: SqlInteraction, status: Status): (DiffStatus, string)
  {
    match (sql.success, status.statusClass)
    case (true, Successful) => (DiffPass, "Both SQL simulation and API execution succeeded.")
    case (true, ClientError) =>
      (DiffFail, "Difference detected: SQL simulation succeeded, but API returned Client Error (" + status.text + ").")
    case (true, ServerError) =>
      (DiffFail, "Difference detected: SQL simulation succeeded, but API returned Server Error (" + status.text + ").")
    case (false, Successful) =>
      (DiffFail, "Difference detected: SQL simulation failed (" + sql.errorMessage + "), but API succeeded (" + status.text + ").")
    case (false, ClientError) => (DiffPass, "Both SQL simulation and API execution rejected the request.")
    case (false, ServerError) =>
      (DiffFail, "SQL simulation failed, and API crashed with Server Error (" + status.text + "). Expected Client Error.")
    case (_, OtherStatus) => (DiffUnknown, "")
  }

  /** The TestResult call a verdict makes: setPass or setFail with its message, none for UNKNOWN. */
  function VerdictCall(verdict: (DiffStatus, string)): seq<ResultCall>
  {
    match verdict.0
    case DiffPass => [SetPass(verdict.1)]
    case DiffFail => [SetFail(verdict.1)]
    case DiffUnknown => []
  }

  /**
   * The verdict says PASS exactly when the shadow execution and the API agree, both accepting
   * or the API rejecting with a client error what the SQL rejected, and FAIL for every other
   * classified status; a server error is always a FAIL.
   */
  lemma VerdictPassFail(sql: SqlInteraction, status: Status)
    requires status.statusClass != OtherStatus
    ensures Verdict(sql, status).0 == DiffPass <==>
      (sql.success && status.statusClass == Successful) || (!sql.success && status.statusClass == ClientError)
    ensures Verdict(sql, status).0 == DiffFail <==>
      (sql.success && status.statusClass != Successful) || (!sql.success && status.statusClass != ClientError)
    ensures status.statusClass == ServerError ==> Verdict(sql, status).0 == DiffFail
  {
  }

  /** UNKNOWN, with an empty message and no TestResult call, exactly for an unclassified status. */
  lemma VerdictUnknown(sql: SqlInteraction, status: Status)
    ensures Verdict(sql, status).0 == DiffUnknown <==> status.statusClass == OtherStatus
    ensures status.statusClass == OtherStatus ==> Verdict(sql, status).1 == ""
    ensures |VerdictCall(Verdict(sql, status))| == (if status.statusClass == OtherStatus then 0 else 1)
  {
  }

  // ---------------------------------------------------------------------------------------
  // Reading the response and pairing rows with elements

  /** operationId when present and non-empty, else METHOD_endpoint. */
  function OperationIdentifier(op: Operation): (id: string)
    ensures op.operationId.Some? && op.operationId.value != "" ==> id == op.operationId.value
    ensures (op.operationId.None? || op.operationId.value == "") ==> id == op.httpMethod + "_" + op.endpoint
  {
    if op.operationId.Some? && op.operationId.value != "" then op.operationId.value else op.httpMethod + "_" + op.endpoint
  }

  /**
   * The parsed response body, and whether it was kept raw: a body whose trimmed text is
   * empty is not parsed; one the parser rejects is kept raw.
   */
  function ParseResponse(p: Parsers, body: Option<string>): (r: (Option<Json>, bool))
    ensures r.0.Some? ==> body.Some? && p.json(body.value) == r.0
    ensures r.1 <==> body.Some? && Trim(body.value) != "" && p.json(body.value).None?
    ensures r.0.None? && !r.1 ==> body.None? || Trim(body.value) == ""
    ensures body.None? || Trim(body.value) == "" ==> r.0.None? && !r.1
    ensures body.Some? && Trim(body.value) != "" ==> r.0 == p.json(body.value)
  {
    if body.Some? && |Trim(body.value)| > 0 then
      (if p.json(body.value).Some? then (p.json(body.value), false) else (None, true))
    else (None, false)
  }

  /** The column resolver for an operation: the table converter's lookup, when there is one. */
  function ResolverFor(converter: Option<(Operation, string) -> Option<string>>, op: Operation): Option<string -> Option<string>>
  {
    if converter.Some? then Some((key: string) => converter.value(op, key)) else None
  }

  function RowAt(rows: seq<Row>, i: nat): Option<Row>
  {
    if i < |rows| then Some(rows[i]) else None
  }

  function ElemOf(elems: seq<Json>, i: nat): Option<Json>
  {
    if i < |elems| then Some(elems[i]) else None
  }

  /** The report of row index i of an array response. */
  function PairReport(p: Parsers, equal: (Value, Value) -> bool, resolver: Option<string -> Option<string>>,
                      rows: seq<Row>, elems: seq<Json>, i: nat): RowReport
  {
    RowReport(i, i < |rows|, i < |elems|, RowDiffs(p, equal, resolver, RowAt(rows, i), ElemOf(elems, i)))
  }

  /** Report k is the report of row index k, for every report so far. */
  predicate PairedSoFar(reports: seq<RowReport>, p: Parsers, equal: (Value, Value) -> bool,
                        resolver: Option<string -> Option<string>>, rows: seq<Row>, elems: seq<Json>)
  {
    forall k :: 0 <= k < |reports| ==> reports[k] == PairReport(p, equal, resolver, rows, elems, k)
  }

  lemma PairedStep(reports: seq<RowReport>, next: RowReport, p: Parsers, equal: (Value, Value) -> bool,
                   resolver: Option<string -> Option<string>>, rows: seq<Row>, elems: seq<Json>)
    requires PairedSoFar(reports, p, equal, resolver, rows, elems)
    requires next == PairReport(p, equal, resolver, rows, elems, |reports|)
    ensures PairedSoFar(reports + [next], p, equal, resolver, rows, elems)
  {
    forall k | 0 <= k < |reports| + 1
      ensures (reports + [next])[k] == PairReport(p, equal, resolver, rows, elems, k)
    {
      if k < |reports| {
        assert (reports + [next])[k] == reports[k];
      }
    }
  }

  /**
   * An array response is compared index by index up to the larger of the row count and the
   * array length: report i pairs row i with element i, either side absent past its end.
   */
  method PairRows(p: Parsers, equal: (Value, Value) -> bool, resolver: Option<string -> Option<string>>,
                  rows: seq<Row>, elems: seq<Json>) returns (reports: seq<RowReport>)
    ensures |reports| == Max(|rows|, |elems|)
    ensures PairedSoFar(reports, p, equal, resolver, rows, elems)
  {
    var count := Max(|rows|, |elems|);
    reports := [];
    var i := 0;
    while i < count
      invariant i <= count
      invariant |reports| == i
      invariant PairedSoFar(reports, p, equal, resolver, rows, elems)
    {
      var sqlRow := RowAt(rows, i);
      var jsonElem := ElemOf(elems, i);
      var differences := CompareRowAndJson(p, equal, resolver, sqlRow, jsonElem);
      var next := RowReport(i, sqlRow.Some?, jsonElem.Some?, differences);
      PairedStep(reports, next, p, equal, resolver, rows, elems);
      reports := reports + [next];
      i := i + 1;
    }
  }

  /**
   * The comparison of an interaction: only with non-empty query results and a parsed body;
   * an array body pairs rows with elements, an object body is compared with row 0.
   */
  function ComparisonOf(p: Parsers, equal: (Value, Value) -> bool, resolver: Option<string -> Option<string>>,
                        results: Option<seq<Row>>, json: Option<Json>): Comparison
  {
    if results.Some? && |results.value| > 0 && json.Some? then
      match json.value
      case JArray(elems) =>
        Compared(seq(Max(|results.value|, |elems|), i requires 0 <= i < Max(|results.value|, |elems|) =>
          PairReport(p, equal, resolver, results.value, elems, i)))
      case JObject(_) => Compared([RowReport(0, true, true, RowDiffs(p, equal, resolver, Some(results.value[0]), json))])
      case _ => NotObjectOrArray
    else NothingToCompare(results.Some? && |results.value| > 0, json.Some?)
  }

  /** The field-comparison part of assertTestSequence for one interaction. */
  method CompareResults(p: Parsers, equal: (Value, Value) -> bool, resolver: Option<string -> Option<string>>,
                        results: Option<seq<Row>>, json: Option<Json>) returns (comparison: Comparison)
    ensures comparison == ComparisonOf(p, equal, resolver, results, json)
  {
    if results.Some? && |results.value| > 0 && json.Some? {
      match json.value {
        case JArray(elems) =>
          var reports := PairRows(p, equal, resolver, results.value, elems);
          comparison := Compared(reports);
        case JObject(_) =>
          var differences := CompareRowAndJson(p, equal, resolver, Some(results.value[0]), json);
          comparison := Compared([RowReport(0, true, true, differences)]);
        case _ =>
          comparison := NotObjectOrArray;
      }
    } else {
      comparison := NothingToCompare(results.Some? && |results.value| > 0, json.Some?);
    }
  }

  /**
   * Comparisons happen only with non-empty results and a parsed body. Then an array body gives
   * one row report per index up to the larger length, report i pairing row i with element
   * i; an object body gives exactly one report, against row 0; any other body gives none.
   */
  lemma ComparisonMeaning(p: Parsers, equal: (Value, Value) -> bool, resolver: Option<string -> Option<string>>,
                          results: Option<seq<Row>>, json: Option<Json>)
    ensures var c := ComparisonOf(p, equal, resolver, results, json);
      (c.Compared? || c.NotObjectOrArray?) <==> results.Some? && |results.value| > 0 && json.Some?
    ensures var c := ComparisonOf(p, equal, resolver, results, json);
      c.Compared? && json.value.JArray? ==>
        |c.rows| == Max(|results.value|, |json.value.elems|) &&
        forall i :: 0 <= i < |c.rows| ==>
          c.rows[i].rowIndex == i &&
          (c.rows[i].sqlRowPresent <==> i < |results.value|) &&
          (c.rows[i].apiElemPresent <==> i < |json.value.elems|) &&
          c.rows[i].fieldDifferences == RowDiffs(p, equal, resolver, RowAt(results.value, i), ElemOf(json.value.elems, i))
    ensures var c := ComparisonOf(p, equal, resolver, results, json);
      c.Compared? && json.value.JObject? ==>
        |c.rows| == 1 && c.rows[0].rowIndex == 0 &&
        c.rows[0].fieldDifferences == RowDiffs(p, equal, resolver, Some(results.value[0]), json)
    ensures var c := ComparisonOf(p, equal, resolver, results, json);
      c.Compared? <==> results.Some? && |results.value| > 0 && json.Some? && (json.value.JArray? || json.value.JObject?)
  {
  }

  // ---------------------------------------------------------------------------------------
  // One interaction, and the sequence

  /** The report of a tagged interaction. */
  function ReportOf(p: Parsers, converter: Option<(Operation, string) -> Option<string>>,
                    sql: SqlInteraction, it: Interaction): InteractionReport
  {
    var verdict := Verdict(sql, it.status);
    var parsed := ParseResponse(p, it.responseBody);
    var op := it.operation;
    InteractionReport(
      OperationIdentifier(op), op.endpoint, op.httpMethod, it.status.code, verdict.0, verdict.1,
      if op.requestBody.Some? then ParamEntries(op.requestBody.value, "") else [],
      parsed.1,
      ComparisonOf(p, OracleEqual(p), ResolverFor(converter, op), sql.queryResults, parsed.0))
  }

  /** The body of the loop of assertTestSequence for a tagged interaction. */
  method ReportInteraction(p: Parsers, converter: Option<(Operation, string) -> Option<string>>,
                           sql: SqlInteraction, it: Interaction) returns (report: InteractionReport)
    ensures report == ReportOf(p, converter, sql, it)
  {
    var verdict := Verdict(sql, it.status);
    var parsed := ParseResponse(p, it.responseBody);
    var op := it.operation;
    var parameters: seq<ParamEntry> := [];
    if op.requestBody.Some? {
      parameters := ExtractParametersRecursive(op.requestBody.value, "", []);
    }
    var comparison := CompareResults(p, OracleEqual(p), ResolverFor(converter, op), sql.queryResults, parsed.0);
    report := InteractionReport(OperationIdentifier(op), op.endpoint, op.httpMethod, it.status.code, verdict.0, verdict.1,
                                parameters, parsed.1, comparison);
  }

  /** The reports of the interactions of a sequence: one per tagged interaction, in order. */
  function Reports(p: Parsers, converter: Option<(Operation, string) -> Option<string>>, its: seq<Interaction>): seq<InteractionReport>
  {
    if |its| == 0 then []
    else
      var last := its[|its| - 1];
      Reports(p, converter, its[..|its| - 1]) + (if last.tag.Some? then [ReportOf(p, converter, last.tag.value, last)] else [])
  }

  /** The verdict calls of the interactions of a sequence, in order. */
  function VerdictCalls(its: seq<Interaction>): seq<ResultCall>
  {
    if |its| == 0 then []
    else
      var last := its[|its| - 1];
      VerdictCalls(its[..|its| - 1]) + (if last.tag.Some? then VerdictCall(Verdict(last.tag.value, last.status)) else [])
  }

  /** The call a failed report write adds. */
  function WriteCall(writeFailure: Option<string>): seq<ResultCall>
  {
    if writeFailure.Some? then [SetUnknown(WriteFailurePrefix + writeFailure.value)] else []
  }

  /**
   * assertTestSequence: an unexecuted sequence gets only setError; otherwise each interaction
   * with a SQL interaction tag gets its verdict call and its report, in order, the others
   * are skipped, and a failed report write (its exception message, if any) adds setUnknown.
   */
  method AssertTestSequence(p: Parsers, converter: Option<(Operation, string) -> Option<string>>,
                            executed: bool, interactions: seq<Interaction>, writeFailure: Option<string>)
    returns (calls: seq<ResultCall>, reports: seq<InteractionReport>)
    ensures !executed ==> calls == [SetError(NotExecutedMessage)] && reports == []
    ensures executed ==> reports == Reports(p, converter, interactions)
    ensures executed ==> calls == VerdictCalls(interactions) + WriteCall(writeFailure)
  {
    if !executed {
      calls, reports := [SetError(NotExecutedMessage)], [];
    } else {
      calls, reports := CompareInteractions(p, converter, interactions);
      if writeFailure.Some? {
        calls := calls + [SetUnknown(WriteFailurePrefix + writeFailure.value)];
      }
    }
  }

  /** The loop of assertTestSequence over the interactions, skipping those without a SQL interaction tag. */
  method CompareInteractions(p: Parsers, converter: Option<(Operation, string) -> Option<string>>, interactions: seq<Interaction>)
    returns (calls: seq<ResultCall>, reports: seq<InteractionReport>)
    ensures reports == Reports(p, converter, interactions)
    ensures calls == VerdictCalls(interactions)
  {
    calls, reports := [], [];
    var i := 0;
    while i < |interactions|
      invariant i <= |interactions|
      invariant reports == Reports(p, converter, interactions[..i])
      invariant calls == VerdictCalls(interactions[..i])
    {
      var it := interactions[i];
      PrefixStep(p, converter, interactions, i);
      match it.tag {
        case Some(sql) =>
          var report := ReportInteraction(p, converter, sql, it);
          reports := reports + [report];
          calls := calls + VerdictCall(Verdict(sql, it.status));
        case None =>
      }
      i := i + 1;
    }
    assert interactions[..i] == interactions;
  }

  /** One more interaction of the prefix adds its report and its verdict call when it is tagged. */
  lemma PrefixStep(p: Parsers, converter: Option<(Operation, string) -> Option<string>>, its: seq<Interaction>, i: nat)
    requires i < |its|
    ensures Reports(p, converter, its[..i + 1]) ==
      Reports(p, converter, its[..i]) + (if its[i].tag.Some? then [ReportOf(p, converter, its[i].tag.value, its[i])] else [])
    ensures VerdictCalls(its[..i + 1]) ==
      VerdictCalls(its[..i]) + (if its[i].tag.Some? then VerdictCall(Verdict(its[i].tag.value, its[i].status)) else [])
  {
    assert its[..i + 1][..i] == its[..i];
  }

  // ---------------------------------------------------------------------------------------
  // Properties of the sequence

  /** The interactions that carry a SQL interaction tag, in order. */
  function Tagged(its: seq<Interaction>): (ts: seq<Interaction>)
    ensures forall k :: 0 <= k < |ts| ==> ts[k].tag.Some?
    ensures |ts| <= |its|
    ensures forall x :: x in ts <==> x in its && x.tag.Some?
  {
    if |its| == 0 then []
    else
      assert forall x :: x in its <==> x in its[..|its| - 1] || x == its[|its| - 1];
      Tagged(its[..|its| - 1]) + (if its[|its| - 1].tag.Some? then [its[|its| - 1]] else [])
  }

  /**
   * ts is a sub-list of its at the positions idx: the positions increase, element k of ts is
   * the interaction at position k, and every tagged position is among them.
   */
  predicate TaggedAt(its: seq<Interaction>, ts: seq<Interaction>, idx: seq<nat>)
  {
    |idx| == |ts| &&
    (forall a, b :: 0 <= a < b < |idx| ==> idx[a] < idx[b]) &&
    (forall k :: 0 <= k < |idx| ==> idx[k] < |its| && ts[k] == its[idx[k]]) &&
    (forall i :: 0 <= i < |its| && its[i].tag.Some? ==> i in idx)
  }

  lemma TaggedAtSnoc(init: seq<Interaction>, last: Interaction, ts: seq<Interaction>, before: seq<nat>)
    returns (idx: seq<nat>)
    requires TaggedAt(init, ts, before)
    ensures TaggedAt(init + [last], ts + (if last.tag.Some? then [last] else []), idx)
  {
    var its := init + [last];
    assert forall i :: 0 <= i < |init| ==> its[i] == init[i];
    if last.tag.Some? {
      idx := before + [|init|];
      assert forall k :: 0 <= k < |before| ==> idx[k] == before[k] && (ts + [last])[k] == ts[k];
    } else {
      idx := before;
      assert ts + [] == ts;
    }
  }

  /** The tagged interactions form a sub-list of the input that keeps every tagged one, in order. */
  lemma {:induction false} TaggedPositions(its: seq<Interaction>) returns (idx: seq<nat>)
    ensures TaggedAt(its, Tagged(its), idx)
    decreases |its|
  {
    if |its| == 0 {
      idx := [];
    } else {
      var init, last := its[..|its| - 1], its[|its| - 1];
      var before := TaggedPositions(init);
      assert its == init + [last];
      idx := TaggedAtSnoc(init, last, Tagged(init), before);
    }
  }

  /** Report k is that of the k-th tagged interaction; untagged interactions get none. */
  lemma {:induction false} ReportsOfTagged(p: Parsers, converter: Option<(Operation, string) -> Option<string>>, its: seq<Interaction>)
    ensures |Reports(p, converter, its)| == |Tagged(its)|
    ensures forall k :: 0 <= k < |Tagged(its)| ==>
      Reports(p, converter, its)[k] == ReportOf(p, converter, Tagged(its)[k].tag.value, Tagged(its)[k])
    decreases |its|
  {
    if |its| > 0 {
      ReportsOfTagged(p, converter, its[..|its| - 1]);
    }
  }

  /** The call a report's verdict makes. */
  function ReportCall(r: InteractionReport): seq<ResultCall>
  {
    VerdictCall((r.diffStatus, r.diffMessage))
  }

  function ReportCalls(rs: seq<InteractionReport>): seq<ResultCall>
  {
    if |rs| == 0 then [] else ReportCalls(rs[..|rs| - 1]) + ReportCall(rs[|rs| - 1])
  }

  /**
   * The verdict calls made on the TestResult are exactly those the reports record, in the
   * same order: setPass for a PASS, setFail for a FAIL, with the report's message, and none
   * for UNKNOWN.
   */
  lemma {:induction false} CallsMatchReports(p: Parsers, converter: Option<(Operation, string) -> Option<string>>, its: seq<Interaction>)
    ensures VerdictCalls(its) == ReportCalls(Reports(p, converter, its))
    decreases |its|
  {
    if |its| > 0 {
      var init := its[..|its| - 1];
      var last := its[|its| - 1];
      CallsMatchReports(p, converter, init);
      var rs := Reports(p, converter, init);
      if last.tag.Some? {
        var r := ReportOf(p, converter, last.tag.value, last);
        assert (rs + [r])[..|rs + [r]| - 1] == rs;
      } else {
        assert Reports(p, converter, its) == rs;
      }
    }
  }
}

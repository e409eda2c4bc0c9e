// The data-shaping part of the echo Lambda handler: the searchID selector and
// its default, the loop that turns parsed CSV rows into event records (and the
// debug string beside them), the access to the last record and the switch that
// picks how many records reach the page.
//
// The rows are taken as already parsed (fetching, decoding and CSV parsing are
// outside this model). The Go runtime panics the handler can hit are modelled
// as `Err` results, since each of them aborts the whole request.

module Echo {
  import opened Strings

  /** One event entry: six fields taken from fixed columns of a CSV row. */
  datatype Record = Record(name: string, desc: string, org: string, address: string, start: string, end: string)

  /** The Go runtime panics the handler can raise. */
  datatype Panic =
    | IndexOutOfRange(index: int, length: nat)  // x[index] with index outside [0, length)
    | SliceOutOfRange(high: nat, length: nat)   // x[:high] with high > capacity; the model uses the length

  datatype Result<T> = Ok(value: T) | Err(panic: Panic)

  /** What the row-to-record closure returns: the debug string and the records. */
  datatype Extracted = Extracted(debug: string, records: seq<Record>)

  // Column of each field, in the order the record literal lists them. The Go
  // language leaves the order of index evaluation inside a composite literal
  // unspecified; the gc compiler checks the bounds left to right, which is what
  // decides the index a too-short row reports. That the row fails does not
  // depend on the order.
  const NameColumn: nat := 4
  const DescColumn: nat := 12
  const OrgColumn: nat := 19
  const AddressColumn: nat := 21
  const StartColumn: nat := 7
  const EndColumn: nat := 9
  const FieldColumns: seq<nat> := [NameColumn, DescColumn, OrgColumn, AddressColumn, StartColumn, EndColumn]

  /** A data row needs this many columns to become a record. */
  const MinColumns: nat := 22

  const Comma := ","
  const SelectorKey := "searchID"
  const DefaultSelector := "10"

  function Min(a: nat, b: nat): nat
  {
    if a <= b then a else b
  }

  // ---------------------------------------------------------------------------
  // The selector

  /** The query parameter `searchID`, or "10" when the request has none. */
  function SelectorOf(query: map<string, string>): string
  {
    if SelectorKey in query then query[SelectorKey] else DefaultSelector
  }

  // ---------------------------------------------------------------------------
  // From rows to records

  /** The position, in `cols`, of the first column a row of `length` columns
      does not have; |cols| when it has them all. */
  function FirstMissing(cols: seq<nat>, length: nat): (k: nat)
    ensures k <= |cols|
    ensures forall j :: 0 <= j < k ==> cols[j] < length
    ensures k < |cols| ==> cols[k] >= length
  {
    if |cols| == 0 || cols[0] >= length then 0 else 1 + FirstMissing(cols[1..], length)
  }

  /** The record built from one data row; indexing a column the row does not
      have panics, reporting the first such column in the literal's order (the
      order in which the gc compiler checks the bounds). */
  function BuildRecord(row: seq<string>): (r: Result<Record>)
    ensures r.Ok? <==> |row| >= MinColumns
    ensures r.Ok? ==> r.value.name == row[4] && r.value.desc == row[12] && r.value.org == row[19]
    ensures r.Ok? ==> r.value.address == row[21] && r.value.start == row[7] && r.value.end == row[9]
    ensures r.Err? ==> r.panic == IndexOutOfRange(
                         if |row| <= 4 then 4 else if |row| <= 12 then 12 else if |row| <= 19 then 19 else 21,
                         |row|)
  {
    var k := FirstMissing(FieldColumns, |row|);
    if k < |FieldColumns| then
      assert k == 0 <==> |row| <= 4 by {
        if k > 0 { assert FieldColumns[0] < |row|; }
      }
      assert k == 1 ==> 4 < |row| <= 12;
      assert k == 2 ==> 12 < |row| <= 19 by {
        if k == 2 { assert FieldColumns[1] < |row|; }
      }
      assert k == 3 ==> 19 < |row| <= 21 by {
        if k == 3 { assert FieldColumns[2] < |row|; }
      }
      Err(IndexOutOfRange(FieldColumns[k], |row|))
    else
      assert FieldColumns[3] < |row|;
      Ok(Record(row[NameColumn], row[DescColumn], row[OrgColumn], row[AddressColumn], row[StartColumn], row[EndColumn]))
  }

  /** Every row after the header has the columns a record needs. */
  predicate AllDataRowsComplete(rows: seq<seq<string>>)
  {
    forall i :: 1 <= i < |rows| ==> |rows[i]| >= MinColumns
  }

  /** Number of rows after the header. */
  function DataRowCount(rows: seq<seq<string>>): nat
  {
    if |rows| == 0 then 0 else |rows| - 1
  }

  /** The records of the rows, row by row, skipping the header; the first row
      that is too short aborts with its panic. */
  function Records(rows: seq<seq<string>>): (r: Result<seq<Record>>)
    ensures r.Ok? <==> AllDataRowsComplete(rows)
    ensures r.Ok? ==> |r.value| == DataRowCount(rows)
    ensures r.Ok? ==> forall k :: 0 <= k < |r.value| ==> BuildRecord(rows[k + 1]) == Ok(r.value[k])
    decreases |rows|
  {
    if |rows| <= 1 then Ok([])
    else
      var init := rows[..|rows| - 1];
      match Records(init)
      case Err(p) => Err(p)
      case Ok(rs) =>
        match BuildRecord(rows[|rows| - 1])
        case Err(p) => Err(p)
        case Ok(rec) => Ok(rs + [rec])
  }

  /** The debug string: every row joined with commas, and those joined with
      commas again, header included. */
  function DebugString(rows: seq<seq<string>>): string
  {
    Join(JoinEach(rows, Comma), Comma)
  }

  /** One more row: the records of the longer prefix extend those of the shorter
      one by the record of the added row. */
  lemma RecordsOfLongerPrefix(rows: seq<seq<string>>, n: nat)
    requires 1 <= n < |rows|
    ensures Records(rows[..n + 1]) ==
              match Records(rows[..n])
              case Err(p) => Err(p)
              case Ok(rs) =>
                match BuildRecord(rows[n])
                case Err(p) => Err(p)
                case Ok(rec) => Ok(rs + [rec])
  {
    assert rows[..n + 1][..n] == rows[..n];
  }

  /** The debug string opens with the header row's own join. */
  lemma DebugStringStartsWithHeader(rows: seq<seq<string>>)
    requires |rows| > 0
    ensures Join(rows[0], Comma) <= DebugString(rows)
  {
    JoinEnds(JoinEach(rows, Comma), Comma);
  }

  /** When no row is empty (a CSV reader never yields an empty row), the debug
      string is simply every field of every row, header included, separated by
      commas. */
  lemma DebugStringJoinsAllFields(rows: seq<seq<string>>)
    requires forall i :: 0 <= i < |rows| ==> |rows[i]| > 0
    ensures DebugString(rows) == Join(Flatten(rows), Comma)
  {
    JoinOfJoins(rows, Comma);
  }

  /** Once a prefix of the rows has failed, the whole table fails the same way. */
  lemma {:induction false} RecordsKeepFailure(rows: seq<seq<string>>, n: nat)
    requires n <= |rows|
    requires Records(rows[..n]).Err?
    ensures Records(rows) == Records(rows[..n])
    decreases |rows| - n
  {
    if n < |rows| {
      var init := rows[..|rows| - 1];
      assert init[..n] == rows[..n];
      RecordsKeepFailure(init, n);
    } else {
      assert rows[..n] == rows;
    }
  }

  /** The panic of the first data row that is too short is the panic of the
      whole table; the rows after it are never looked at. */
  lemma RecordsFailAtFirstShortRow(rows: seq<seq<string>>, j: nat)
    requires 1 <= j < |rows|
    requires |rows[j]| < MinColumns
    requires forall i :: 1 <= i < j ==> |rows[i]| >= MinColumns
    ensures Records(rows) == Err(BuildRecord(rows[j]).panic)
  {
    var prefix := rows[..j + 1];
    assert prefix[..j] == rows[..j];
    assert AllDataRowsComplete(rows[..j]);
    RecordsKeepFailure(rows, j + 1);
  }

  /** The row-to-record closure, as the loop it is: every row is joined into
      the debug lines, and every row but the header becomes a record. */
  method ExtractRecords(rows: seq<seq<string>>) returns (r: Result<Extracted>)
    ensures Records(rows).Ok? ==> r == Ok(Extracted(DebugString(rows), Records(rows).value))
    ensures Records(rows).Err? ==> r == Err(Records(rows).panic)
  {
    var lines: seq<string> := [];
    var objects: seq<Record> := [];
    for idx := 0 to |rows|
      invariant lines == JoinEach(rows[..idx], Comma)
      invariant Records(rows[..idx]) == Ok(objects)
    {
      var row := rows[idx];
      JoinEachExtend(rows, idx, Comma);
      lines := lines + [Join(row, Comma)];
      if idx > 0 {
        var built := BuildRecord(row);
        RecordsOfLongerPrefix(rows, idx);
        if built.Err? {
          RecordsKeepFailure(rows, idx + 1);
          return Err(built.panic);
        }
        objects := objects + [built.value];
      }
    }
    assert rows[..|rows|] == rows;
    r := Ok(Extracted(Join(lines, Comma), objects));
  }

  // ---------------------------------------------------------------------------
  // Selection

  /** The selectors the switch names. */
  predicate IsKnownSelector(selector: string)
  {
    selector == "0" || selector == "10" || selector == "20"
  }

  /** The switch on the selector: "0" keeps every record, "10" and "20" keep at
      most that many, any other value slices the first ten without checking
      that there are ten. */
  function Select(selector: string, records: seq<Record>): (r: Result<seq<Record>>)
    ensures r.Ok? ==> r.value <= records
    ensures selector == "0" ==> r.Ok? && |r.value| == |records|
    ensures selector == "10" ==> r.Ok? && |r.value| == Min(10, |records|)
    ensures selector == "20" ==> r.Ok? && |r.value| == Min(20, |records|)
    ensures !IsKnownSelector(selector) ==> (r.Ok? <==> |records| >= 10)
    ensures !IsKnownSelector(selector) && r.Ok? ==> |r.value| == 10
    ensures r.Err? ==> r.panic == SliceOutOfRange(10, |records|)
  {
    if selector == "0" then
      Ok(records)
    else if selector == "10" then
      if |records| >= 10 then Ok(records[..10]) else Ok(records)
    else if selector == "20" then
      if |records| >= 20 then Ok(records[..20]) else Ok(records)
    else if |records| >= 10 then
      Ok(records[..10])
    else
      Err(SliceOutOfRange(10, |records|))
  }

  /** Selecting again with the same selector changes nothing. */
  lemma SelectIdempotent(selector: string, records: seq<Record>)
    requires Select(selector, records).Ok?
    ensures Select(selector, Select(selector, records).value) == Select(selector, records)
  {
    var once := Select(selector, records).value;
    if selector != "0" && |once| >= 10 {
      assert once[..|once|] == once;
    }
  }

  /** The ten newest are the start of the twenty newest, which are the start of
      all of them. */
  lemma SelectNested(records: seq<Record>)
    ensures Select("10", records).value <= Select("20", records).value <= Select("0", records).value
  {
  }

  // ---------------------------------------------------------------------------
  // The handler

  /** What the handler hands to the template, or the panic that aborts it. */
  function Respond(query: map<string, string>, rows: seq<seq<string>>): Result<seq<Record>>
  {
    Serve(SelectorOf(query), rows)
  }

  /** The handler once the selector is fixed: extraction, the access to the
      last record, then the switch. */
  function Serve(selector: string, rows: seq<seq<string>>): Result<seq<Record>>
  {
    match Records(rows)
    case Err(p) => Err(p)
    case Ok(records) =>
      if |records| == 0 then Err(IndexOutOfRange(-1, 0))
      else Select(selector, records)
  }

  /** The handler from the selector to the switch, in the source's order. */
  method Handler(query: map<string, string>, rows: seq<seq<string>>) returns (r: Result<seq<Record>>)
    ensures r == Respond(query, rows)
  {
    var searchId: string;
    if SelectorKey in query {
      searchId := query[SelectorKey];
    } else {
      searchId := DefaultSelector;
    }
    var extracted := ExtractRecords(rows);
    if extracted.Err? {
      return Err(extracted.panic);
    }
    var recordObjects := extracted.value.records;
    if |recordObjects| == 0 {
      // the last record is printed before the switch
      return Err(IndexOutOfRange(|recordObjects| - 1, |recordObjects|));
    }
    r := Select(searchId, recordObjects);
  }

  /** The handler succeeds exactly when every data row is complete, there is at
      least one data row, and the selector is one the switch names or there are
      at least ten records. */
  lemma HandlerSucceedsIff(query: map<string, string>, rows: seq<seq<string>>)
    ensures Respond(query, rows).Ok? <==>
              AllDataRowsComplete(rows) && |rows| >= 2 &&
              (IsKnownSelector(SelectorOf(query)) || |rows| - 1 >= 10)
  {
  }

  /** Without a data row, the access to the last record panics whatever the
      selector. */
  lemma HandlerFailsWithoutRecords(query: map<string, string>, rows: seq<seq<string>>)
    requires |rows| <= 1
    ensures Respond(query, rows) == Err(IndexOutOfRange(-1, 0))
  {
  }

  /** The first data row with fewer than 22 columns aborts the request with its
      own panic, whatever the selector and whatever follows it. */
  lemma HandlerFailsOnShortRow(query: map<string, string>, rows: seq<seq<string>>, j: nat)
    requires 1 <= j < |rows|
    requires |rows[j]| < MinColumns
    requires forall i :: 1 <= i < j ==> |rows[i]| >= MinColumns
    ensures Respond(query, rows) == Err(BuildRecord(rows[j]).panic)
  {
    RecordsFailAtFirstShortRow(rows, j);
  }

  /** On success, the k-th record on the page is built from row k + 1, and the
      page shows as many records as the selector asks for. */
  lemma HandlerResult(query: map<string, string>, rows: seq<seq<string>>)
    requires Respond(query, rows).Ok?
    ensures var shown := Respond(query, rows).value;
            var n := |rows| - 1;
            && (forall k :: 0 <= k < |shown| ==> BuildRecord(rows[k + 1]) == Ok(shown[k]))
            && |shown| == (match SelectorOf(query)
                           case "0" => n
                           case "20" => Min(20, n)
                           case _ => Min(10, n))
  {
    var records := Records(rows).value;
    var shown := Respond(query, rows).value;
    assert shown <= records;
    forall k | 0 <= k < |shown|
      ensures BuildRecord(rows[k + 1]) == Ok(shown[k])
    {
      assert shown[k] == records[k];
    }
  }

  /** A request without `searchID` is served as if it asked for "10"; a request
      with it is served with its value exactly as given (an empty value is not
      taken for an absent one). */
  lemma SelectorDefaulting(query: map<string, string>, rows: seq<seq<string>>)
    ensures SelectorKey !in query ==> Respond(query, rows) == Serve("10", rows)
    ensures SelectorKey in query ==> Respond(query, rows) == Serve(query[SelectorKey], rows)
  {
  }
}

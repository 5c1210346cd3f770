/**
 * `process_csv_content`: the rows `csv.DictReader` yields, reduced to
 * numbered (source, destination) records after the two configured
 * columns are checked against the header.
 */
module CsvContent {
  import opened Wrappers

  /** One row as `csv.DictReader` yields it: column name to cell text. */
  type CsvRow = map<string, string>

  /** The record kept per data row: `{'row': …, 'source': …, 'destination': …}`. */
  datatype RowRecord = RowRecord(row: nat, source: string, destination: string)

  /** The two ways the script exits before reading any row. */
  datatype ExtractError =
    | MissingSourceColumn(column: string)
    | MissingDestinationColumn(column: string)

  /** The records, and `csv_lines_read`, the count the script logs. */
  datatype Extracted = Extracted(content: seq<RowRecord>, linesRead: nat)

  /** `csv.DictReader` gives every row a key for every column of the header. */
  predicate RowsHaveHeader(header: seq<string>, rows: seq<CsvRow>) {
    forall i :: 0 <= i < |rows| ==> forall h :: h in header ==> h in rows[i]
  }

  predicate HasColumns(rows: seq<CsvRow>, sourceColumn: string, destinationColumn: string) {
    forall i :: 0 <= i < |rows| ==> sourceColumn in rows[i] && destinationColumn in rows[i]
  }

  /** Row `i` numbered `i`, with its two named cells copied as they are. */
  function RowRecords(rows: seq<CsvRow>, sourceColumn: string, destinationColumn: string): seq<RowRecord>
    requires HasColumns(rows, sourceColumn, destinationColumn)
  {
    seq(|rows|, i requires 0 <= i < |rows| => RowRecord(i, rows[i][sourceColumn], rows[i][destinationColumn]))
  }

  /**
   * `process_csv_content` on an already parsed file. A missing source
   * column is reported before a missing destination column; otherwise
   * there is one record per data row, in file order, numbered from 0.
   */
  method ProcessCsvContent(header: seq<string>, rows: seq<CsvRow>, sourceColumn: string, destinationColumn: string)
    returns (r: Result<Extracted, ExtractError>)
    requires RowsHaveHeader(header, rows)
    ensures sourceColumn !in header ==> r == Failure(MissingSourceColumn(sourceColumn))
    ensures sourceColumn in header && destinationColumn !in header ==>
              r == Failure(MissingDestinationColumn(destinationColumn))
    ensures r.Success? <==> sourceColumn in header && destinationColumn in header
    ensures r.Success? ==>
              && |r.value.content| == |rows| == r.value.linesRead
              && forall i :: 0 <= i < |rows| ==>
                   r.value.content[i] == RowRecord(i, rows[i][sourceColumn], rows[i][destinationColumn])
    ensures r.Success? ==> HasColumns(rows, sourceColumn, destinationColumn)
                           && r.value.content == RowRecords(rows, sourceColumn, destinationColumn)
  {
    if sourceColumn !in header {
      return Failure(MissingSourceColumn(sourceColumn));
    }
    if destinationColumn !in header {
      return Failure(MissingDestinationColumn(destinationColumn));
    }
    var content: seq<RowRecord> := [];
    var linesRead: nat := 0;
    for rowNumber := 0 to |rows|
      invariant linesRead == rowNumber == |content|
      invariant forall i :: 0 <= i < rowNumber ==>
                  content[i] == RowRecord(i, rows[i][sourceColumn], rows[i][destinationColumn])
    {
      linesRead := linesRead + 1;
      content := content + [RowRecord(rowNumber, rows[rowNumber][sourceColumn], rows[rowNumber][destinationColumn])];
    }
    return Success(Extracted(content, linesRead));
  }
}

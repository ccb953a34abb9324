/** The upload page: the required-column check on a parsed table, the
    conversion of its date column, and the session's active dataset, which
    only a successful upload replaces. */
module Upload {
  import opened Transactions

  /** One parsed row before its date column is converted. */
  datatype RawRow = RawRow(date: string, bank: string, amount: real, status: string, retryCount: nat)

  /** What reading the uploaded file yields: a parse failure, or the
      table's column names and rows. */
  datatype CsvFile = Unreadable | Csv(columns: set<string>, rows: seq<RawRow>)

  const RequiredColumns: set<string> := {"date", "bank", "amount", "status", "retry_count"}

  /** A table is accepted when every required column is among its columns;
      other columns may be present too. Only the column names matter. */
  function HasRequiredColumns(columns: set<string>): (ok: bool)
    ensures ok <==>
      && "date" in columns && "bank" in columns && "amount" in columns
      && "status" in columns && "retry_count" in columns
  {
    RequiredColumns <= columns
  }

  /** The required columns a table lacks: none exactly when it is accepted.
      An equivalent form of the acceptance test; the page's message lists no
      columns. */
  function MissingColumns(columns: set<string>): (m: set<string>)
    ensures forall c :: c in m <==> c in RequiredColumns && c !in columns
    ensures m == {} <==> HasRequiredColumns(columns)
  {
    RequiredColumns - columns
  }

  /** Extra columns never make an accepted table rejected. */
  lemma ExtraColumnsAllowed(columns: set<string>, extra: set<string>)
    requires HasRequiredColumns(columns)
    ensures HasRequiredColumns(columns + extra)
  {
  }

  /** A row with its date text replaced by the converted timestamp. `parse`
      below stands for the date conversion: it gives the wall-clock time of
      the cell, in seconds, in the column's own time zone, or nothing when
      the cell does not parse. */
  function Converted(row: RawRow, t: int): Transaction {
    Transaction(t, row.bank, row.amount, row.status, row.retryCount)
  }

  /** Converts the date column as a whole: it fails if any single cell does
      not parse, and otherwise keeps every row, in order, with only its date
      changed. */
  function ConvertDates(rows: seq<RawRow>, parse: string -> Option<int>): (r: Option<seq<Transaction>>)
    ensures r.Some? <==> forall i :: 0 <= i < |rows| ==> parse(rows[i].date).Some?
    ensures r.Some? ==> |r.value| == |rows|
    ensures r.Some? ==> forall i :: 0 <= i < |rows| ==>
      && r.value[i].date == parse(rows[i].date).value
      && r.value[i] == Converted(rows[i], r.value[i].date)
  {
    if rows == [] then Some([])
    else
      match parse(rows[0].date)
      case None => None
      case Some(t) =>
        match ConvertDates(rows[1..], parse)
        case None =>
          assert exists i :: 0 <= i < |rows| && !parse(rows[i].date).Some? by {
            var i :| 0 <= i < |rows[1..]| && !parse(rows[1..][i].date).Some?;
            assert rows[1..][i] == rows[i + 1];
          }
          None
        case Some(rest) => Some([Converted(rows[0], t)] + rest)
  }

  /** What the page reports after an upload attempt. */
  datatype Notice = NoFile | FormatInvalid | UploadFailed | Uploaded

  /** The per-viewer session state that the upload page writes and the
      dashboard reads. */
  class Session {
    var txnData: Option<Dataset>

    constructor ()
      ensures txnData == None
    {
      txnData := None;
    }

    /** One upload attempt. The active dataset changes only when a file was
        read, has every required column, and its dates all convert; it then
        becomes that table with its dates converted. */
    method Upload(file: Option<CsvFile>, parse: string -> Option<int>) returns (notice: Notice)
      modifies this
      ensures file.None? ==> notice == NoFile
      ensures file == Some(Unreadable) ==> notice == UploadFailed
      ensures file.Some? && file.value.Csv? ==>
        var cols, rows := file.value.columns, file.value.rows;
        && (!HasRequiredColumns(cols) ==> notice == FormatInvalid)
        && (HasRequiredColumns(cols) && ConvertDates(rows, parse).None? ==> notice == UploadFailed)
        && (HasRequiredColumns(cols) && ConvertDates(rows, parse).Some? ==>
              notice == Uploaded && txnData == Some(Dataset(cols, ConvertDates(rows, parse).value)))
      ensures notice != Uploaded ==> txnData == old(txnData)
    {
      if file.None? {
        notice := NoFile;
        return;
      }
      match file.value
      case Unreadable =>
        notice := UploadFailed;
      case Csv(columns, rows) =>
        if !HasRequiredColumns(columns) {
          notice := FormatInvalid;
          return;
        }
        var converted := ConvertDates(rows, parse);
        if converted.None? {
          notice := UploadFailed;
          return;
        }
        txnData := Some(Dataset(columns, converted.value));
        notice := Uploaded;
    }
  }
}

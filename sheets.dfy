/** The data hook of the dashboard (`useGoogleSheets`): the two spreadsheet
    exports are parsed as CSV, mapped positionally to donor records and to an
    inventory snapshot, and a fetch cycle either installs them or, when
    anything fails, installs a fixed demonstration data set. */
module GoogleSheets {
  import opened Wrappers
  import opened Seqs
  import opened JsText
  import Csv

  // ---------------------------------------------------------------------
  // Records

  datatype DonorRecord = DonorRecord(
    timestamp: string,
    donorName: string,
    phoneNumber: string,
    channel: string,
    donationType: string,
    appointmentDate: string,
    time: string,
    status: string)

  datatype InventoryData = InventoryData(
    bloodUnitsAvailable: int,
    plasmaUnitsAvailable: int,
    plateletUnitsAvailable: int,
    lastUpdated: string)

  datatype SheetsData = SheetsData(donorRecords: seq<DonorRecord>, inventory: InventoryData)

  /** The data shown before the first fetch settles: no donors, zero counts. */
  const InitialData := SheetsData([], InventoryData(0, 0, 0, ""))

  // ---------------------------------------------------------------------
  // Donor rows

  /** `row[k] || fallback`: a missing cell (`undefined`) and an empty cell
      both give way to the fallback. */
  function CellOr(row: seq<string>, k: nat, fallback: string): string {
    if k < |row| && row[k] != "" then row[k] else fallback
  }

  /** One parsed row read positionally as a donor record. */
  function RowToDonor(row: seq<string>): DonorRecord {
    DonorRecord(
      CellOr(row, 0, ""), CellOr(row, 1, ""), CellOr(row, 2, ""), CellOr(row, 3, ""),
      CellOr(row, 4, ""), CellOr(row, 5, ""), CellOr(row, 6, ""), CellOr(row, 7, "Pending"))
  }

  /** The filter `record => record.donorName`: the empty name is falsy. */
  predicate HasName(r: DonorRecord) {
    r.donorName != ""
  }

  /** `rows.slice(1).map(...)`: every row after the header, mapped. */
  function MapDonorRows(rows: seq<seq<string>>): (records: seq<DonorRecord>)
    ensures |records| == if rows == [] then 0 else |rows| - 1
    ensures forall k :: 1 <= k < |rows| ==> records[k - 1] == RowToDonor(rows[k])
  {
    if rows == [] then []
    else seq(|rows| - 1, k requires 0 <= k < |rows| - 1 => RowToDonor(rows[k + 1]))
  }

  /** What `fetchDonorRecords` returns for the parsed rows of the donor sheet. */
  function DonorRecords(rows: seq<seq<string>>): seq<DonorRecord> {
    Filter(HasName, MapDonorRows(rows))
  }

  /** The donor list skips the header row, keeps the order of the sheet, has
      no record without a name, and has at most one record per data row. */
  lemma DonorRecordsShape(rows: seq<seq<string>>)
    ensures IsSubsequence(DonorRecords(rows), MapDonorRows(rows))
    ensures |DonorRecords(rows)| <= if rows == [] then 0 else |rows| - 1
    ensures forall r :: r in DonorRecords(rows) ==> r.donorName != ""
  {
    FilterIsSubsequence(HasName, MapDonorRows(rows));
    forall r | r in DonorRecords(rows)
      ensures r.donorName != ""
    {
      FilterMembers(HasName, MapDonorRows(rows), r);
    }
  }

  /** A data row is listed exactly when its name cell is present and non-empty. */
  lemma DonorRowListed(rows: seq<seq<string>>, k: nat)
    requires 1 <= k < |rows|
    ensures RowToDonor(rows[k]) in DonorRecords(rows) <== |rows[k]| > 1 && rows[k][1] != ""
    ensures |rows[k]| <= 1 || rows[k][1] == "" ==> RowToDonor(rows[k]).donorName == ""
  {
    FilterMembers(HasName, MapDonorRows(rows), RowToDonor(rows[k]));
    assert MapDonorRows(rows)[k - 1] == RowToDonor(rows[k]);
  }

  /** The header row is never read: whatever it holds, the records are the same. */
  lemma HeaderIgnored(h1: seq<string>, h2: seq<string>, body: seq<seq<string>>)
    ensures DonorRecords([h1] + body) == DonorRecords([h2] + body)
  {
    assert MapDonorRows([h1] + body) == MapDonorRows([h2] + body);
  }

  /** The eight sheet columns of a record, in order. */
  function DonorRow(r: DonorRecord): (row: seq<string>)
    ensures |row| == 8
  {
    [r.timestamp, r.donorName, r.phoneNumber, r.channel, r.donationType,
     r.appointmentDate, r.time, r.status]
  }

  /** Reading a record's own columns gives the record back, as long as its
      status is not empty (an empty status reads as "Pending"). */
  lemma DonorRowRoundTrip(r: DonorRecord)
    ensures RowToDonor(DonorRow(r)) == r <==> r.status != ""
  {
  }

  /** A short row fills its missing columns with "" and its status with "Pending". */
  lemma ShortRowDefaults(row: seq<string>)
    requires |row| <= 7
    ensures RowToDonor(row).status == "Pending"
    ensures |row| <= 1 ==> RowToDonor(row).donorName == ""
    ensures |row| <= 6 ==> RowToDonor(row).time == ""
    ensures forall k :: |row| <= k < 7 ==> DonorRow(RowToDonor(row))[k] == ""
  {
  }

  // ---------------------------------------------------------------------
  // The inventory row

  /** `rows[1] || []`: the first row after the header, or no cells at all. */
  function DataRow(rows: seq<seq<string>>): seq<string> {
    if |rows| > 1 then rows[1] else []
  }

  /** `parseInt(dataRow[k]) || 0`; a missing cell is `parseInt(undefined)`,
      which is `NaN`, so 0. */
  function CountCell(row: seq<string>, k: nat): int {
    if k < |row| then ParseIntOrZero(row[k]) else 0
  }

  /** What `fetchInventory` returns for the parsed rows of the inventory sheet,
      `now` standing for `new Date().toISOString()`. */
  function InventoryFromRows(rows: seq<seq<string>>, now: string): InventoryData {
    var row := DataRow(rows);
    InventoryData(CountCell(row, 0), CountCell(row, 1), CountCell(row, 2), CellOr(row, 3, now))
  }

  /** Only the row after the header is read: two sheets that agree on it give
      the same snapshot. */
  lemma InventoryReadsOnlyRowOne(rows1: seq<seq<string>>, rows2: seq<seq<string>>, now: string)
    requires |rows1| > 1 && |rows2| > 1 && rows1[1] == rows2[1]
    ensures InventoryFromRows(rows1, now) == InventoryFromRows(rows2, now)
  {
  }

  /** With no data row, every count is 0 and the snapshot is stamped `now`. */
  lemma InventoryWithoutDataRow(rows: seq<seq<string>>, now: string)
    requires |rows| <= 1
    ensures InventoryFromRows(rows, now) == InventoryData(0, 0, 0, now)
  {
  }

  /** Counts written as integers are read back, negative ones included, and a
      non-empty stamp is kept. */
  lemma InventoryRoundTrip(header: seq<string>, blood: int, plasma: int, platelets: int,
                           stamp: string, now: string)
    ensures InventoryFromRows([header, [IntString(blood), IntString(plasma), IntString(platelets), stamp]], now)
      == InventoryData(blood, plasma, platelets, if stamp == "" then now else stamp)
  {
    assert IntString(blood) + "" == IntString(blood);
    assert IntString(plasma) + "" == IntString(plasma);
    assert IntString(platelets) + "" == IntString(platelets);
    ParseIntOfIntString(blood, "");
    ParseIntOfIntString(plasma, "");
    ParseIntOfIntString(platelets, "");
  }

  /** A count cell holding "N/A" reads as 0. */
  lemma InventoryNotANumber(row: seq<string>, k: nat)
    requires k < |row| && row[k] == "N/A"
    ensures CountCell(row, k) == 0
  {
    ParseIntNotANumber(row[k]);
  }

  // ---------------------------------------------------------------------
  // The fetch cycle

  /** What a failed fetch throws: an `Error` with its message, or some other value. */
  datatype Thrown = ErrorValue(message: string) | OtherValue

  /** `err instanceof Error ? err.message : 'An error occurred'`. */
  function ErrorMessage(t: Thrown): string {
    match t
    case ErrorValue(m) => m
    case OtherValue => "An error occurred"
  }

  /** The outcome of the two downloads, decided by the network: both CSV texts,
      or the value the first failure threw. */
  datatype FetchOutcome = Fetched(donorCsv: string, inventoryCsv: string) | FetchFailed(thrown: Thrown)

  /** The data installed after both downloads succeed. */
  function LoadedData(donorCsv: string, inventoryCsv: string, now: string): SheetsData {
    SheetsData(DonorRecords(Csv.CsvRows(donorCsv)), InventoryFromRows(Csv.CsvRows(inventoryCsv), now))
  }

  /** The fallback installed when a fetch fails, stamped `now`. */
  function DemoData(now: string): SheetsData {
    SheetsData(
      [ DonorRecord("2024-12-29 10:30:00", "John Smith", "+1 (555) 123-4567", "Website",
                    "Whole Blood", "2024-12-30", "10:00", "Confirmed"),
        DonorRecord("2024-12-29 11:15:00", "Sarah Johnson", "+1 (555) 987-6543", "Phone",
                    "Plasma", "2024-12-31", "14:30", "Pending"),
        DonorRecord("2024-12-29 09:45:00", "Michael Brown", "+1 (555) 456-7890", "Walk-in",
                    "Platelets", "2024-12-29", "09:00", "Completed") ],
      InventoryData(245, 78, 32, now))
  }

  /** The demonstration set: three named donors and the counts 245, 78 and 32. */
  lemma DemoDataFacts(now: string)
    ensures |DemoData(now).donorRecords| == 3
    ensures forall r :: r in DemoData(now).donorRecords ==> r.donorName != ""
    ensures DemoData(now).inventory == InventoryData(245, 78, 32, now)
  {
  }

  /** The state of the hook: the data on screen, the loading flag, the error
      message (`null` when none) and the time of the last settled fetch. */
  class SheetsSync {
    var data: SheetsData
    var isLoading: bool
    var error: Option<string>
    var lastUpdated: Option<string>

    /** The hook's initial state. */
    constructor()
      ensures data == InitialData && !isLoading && error == None && lastUpdated == None
    {
      data := InitialData;
      isLoading := false;
      error := None;
      lastUpdated := None;
    }

    /** Start of `fetchData`: loading, with the previous error cleared and the
        previous data still shown. */
    method BeginFetch()
      modifies this
      ensures isLoading && error == None
      ensures data == old(data) && lastUpdated == old(lastUpdated)
    {
      isLoading := true;
      error := None;
    }

    /** End of `fetchData`: install the downloaded data, or the demonstration
        data with the error message; either way stamp the time and stop loading. */
    method Settle(outcome: FetchOutcome, now: string)
      modifies this
      ensures !isLoading && lastUpdated == Some(now)
      ensures outcome.Fetched? ==>
        data == LoadedData(outcome.donorCsv, outcome.inventoryCsv, now) && error == old(error)
      ensures outcome.FetchFailed? ==>
        data == DemoData(now) && error == Some(ErrorMessage(outcome.thrown))
    {
      if outcome.Fetched? {
        Load(outcome.donorCsv, outcome.inventoryCsv, now);
      } else {
        FallBack(outcome.thrown, now);
      }
      isLoading := false;
    }

    /** The `try` block after both downloads: parse, map, install, stamp. */
    method Load(donorCsv: string, inventoryCsv: string, now: string)
      modifies this
      ensures data == LoadedData(donorCsv, inventoryCsv, now) && lastUpdated == Some(now)
      ensures error == old(error) && isLoading == old(isLoading)
    {
      var donorRows := Csv.ParseCsv(donorCsv);
      var inventoryRows := Csv.ParseCsv(inventoryCsv);
      Install(DonorRecords(donorRows), InventoryFromRows(inventoryRows, now), now);
    }

    /** `setData` with the mapped records and snapshot, then `setLastUpdated`. */
    method Install(records: seq<DonorRecord>, inventory: InventoryData, now: string)
      modifies this
      ensures data == SheetsData(records, inventory) && lastUpdated == Some(now)
      ensures error == old(error) && isLoading == old(isLoading)
    {
      data := SheetsData(records, inventory);
      lastUpdated := Some(now);
    }

    /** The `catch` block: record the message and show the demonstration data. */
    method FallBack(thrown: Thrown, now: string)
      modifies this
      ensures data == DemoData(now) && error == Some(ErrorMessage(thrown)) && lastUpdated == Some(now)
      ensures isLoading == old(isLoading)
    {
      error := Some(ErrorMessage(thrown));
      data := DemoData(now);
      lastUpdated := Some(now);
    }

    /** One whole fetch cycle. */
    method FetchData(outcome: FetchOutcome, now: string)
      modifies this
      ensures !isLoading && lastUpdated == Some(now)
      ensures outcome.Fetched? ==>
        data == LoadedData(outcome.donorCsv, outcome.inventoryCsv, now) && error == None
      ensures outcome.FetchFailed? ==>
        data == DemoData(now) && error == Some(ErrorMessage(outcome.thrown))
    {
      BeginFetch();
      Settle(outcome, now);
    }
  }
}

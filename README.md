# Blood-bank dashboard: a verified model of its data pipeline

The dashboard shows blood-donor appointments and the blood, plasma and
platelet stock of a blood bank. It reads both from two published Google Sheets
exports. This project models the logic of that dashboard in Dafny and proves
what it does:

- **the sheets hook** (`useGoogleSheets`):
  - the permissive CSV reader `parseCSV`, as the per-character loop it is;
  - the positional mapping of rows to donor records and to the inventory snapshot;
  - the `fetchData` cycle over `{data, isLoading, error, lastUpdated}`, which falls back to a fixed demonstration data set when a download fails.
- **the donor table**:
  - the search and status filter;
  - the status badge and its priority order;
  - the guard cases of the date column;
  - the inline status editor, including the sheet row (`findIndex(...) + 2`) it sends.
- **the inventory editor**: the edit session over `isEditing` and `editValues`.
- **the page** (`Index`): the donor count, the confirmed count, the unit total and the progress ratio.

JavaScript built-ins are modelled in `js_text.dfy`, because the results depend on their exact behaviour:

- `trim`, with the ECMAScript white-space and line-terminator set;
- `toLowerCase`;
- `includes`;
- `parseInt`: leading white space, sign, the `0x` prefix, the longest digit run, and `NaN` as `None`.

Array `filter` and string `split` live in `seqs.dfy`.

Files and modules:

| file | module | models |
|---|---|---|
| `wrappers.dfy` | `Wrappers` | `Option` |
| `seqs.dfy` | `Seqs` | `filter`, `split`, `join`, counting |
| `js_text.dfy` | `JsText` | `trim`, `toLowerCase`, `includes`, `parseInt`, `String(n)` |
| `csv.dfy` | `Csv` | `parseCSV` |
| `sheets.dfy` | `GoogleSheets` | row mappers, demonstration data, the `fetchData` cycle (class `SheetsSync`) |
| `donor_table.dfy` | `DonorTable` | filter, badge, date guard, editor (class `StatusEditor`) |
| `inventory_editor.dfy` | `InventoryEditor` | edit session (class `EditSession`) |
| `dashboard.dfy` | `Dashboard` | page aggregates |

Outside inputs are parameters:

- the download results (`FetchOutcome`: two CSV texts, or the value thrown);
- the current time (`now`: one string for every `new Date()` of a cycle);
- whether a write succeeded;
- whether a refresh callback was given.

The two write hooks (`useGoogleSheetsAPI`, `useInventoryAPI`) only wait, log and report success. They are not part of this model beyond their result, which is an input, and the refresh they trigger.

Behaviour worth knowing:

- **Two refreshes per save.** A successful save calls the refresh callback twice: once inside the write hook (`src/hooks/useGoogleSheetsAPI.ts:34-37`, `src/hooks/useInventoryAPI.ts:30-32`) and once more in the component (`src/components/dashboard/DonorTable.tsx:112`, `src/components/dashboard/InventoryEditor.tsx:50`). `StatusEditor.SaveStatus` and `EditSession.Save` return the count, which is 2.
- **The date column misreads ISO dates.** It reads day/month/year, split on `-` or `/`. The demonstration data uses ISO dates such as "2024-12-30", which are read as day 2024, month 12 and year 30 (`DonorTable.FormatDateReadsDayFirst`).
- **The confirmed filter hides "Completed".** The status filter compares whole strings, while the badge tests for a substring. A "Completed" record therefore shows the Confirmed badge, yet the filter value "confirmed" hides it (`DonorTable.CompletedHiddenByConfirmedFilter`).

## Model

| member | source | states |
|---|---|---|
| Csv.ParseLine | src/hooks/useGoogleSheets.ts:45-62 | the per-character loop over `current`, `inQuotes` and the pushed cells yields exactly the trimmed cells of the quote-toggle scan of the line |
| Csv.Step | src/hooks/useGoogleSheets.ts:52-59 | the definition of one loop step (quote toggles, comma outside quotes ends the cell, anything else is appended); Csv.ScanSnoc, Csv.ScanQuoteParity and Csv.ScanPlainText state its effect |
| Csv.Scan | src/hooks/useGoogleSheets.ts:47-61 | the definition of the scan of a line as a fold of the loop step; Csv.ParseLine is proved equal to it and Csv.CellCount, Csv.RawCellsJoin and Csv.RawCellsQuoteFree state what it yields |
| Csv.LineCells | src/hooks/useGoogleSheets.ts:45-62 | the definition of the per-line callback: the cells of the scan, each trimmed; Csv.ParseLine computes it, and Csv.LineCellsClean and Csv.QuotedCommaStaysInCell state what it yields |
| Csv.ParseCsv | src/hooks/useGoogleSheets.ts:43-64 | the loop over the `\n`-separated lines yields exactly the cells of every line, with the rows that have no non-empty cell left out |
| Csv.CsvRows | src/hooks/useGoogleSheets.ts:44-63 | the definition of the whole parse (cells of every line, blank rows dropped); Csv.ParseCsv computes it, and Csv.CsvRowsOrder and Csv.CsvRowsClean state its properties |
| Csv.Lines | src/hooks/useGoogleSheets.ts:44 | the definition of `csv.split('\n')`; Csv.LinesJoin and Csv.CsvRowsOrder state its properties |
| Csv.HasContent | src/hooks/useGoogleSheets.ts:63 | the definition of `row.some(cell => cell.length > 0)`; Csv.CsvRowsClean states that every kept row satisfies it |
| Csv.ScanQuoteParity | src/hooks/useGoogleSheets.ts:52-53 | after any prefix of a line the quote toggle is on exactly when an odd number of `"` has been read |
| Csv.ScanCellCount | src/hooks/useGoogleSheets.ts:50-61 | after any prefix, the number of cells is one more than the number of commas read while the toggle was off |
| Csv.CellCount | src/hooks/useGoogleSheets.ts:50-62 | a line yields (commas outside quotes) + 1 cells, whatever its quotes, balanced or not |
| Csv.RawCellsJoin | src/hooks/useGoogleSheets.ts:50-61 | the untrimmed cells joined with "," give back the line with its quotes removed: no character other than a quote is lost |
| Csv.RawCellsQuoteFree | src/hooks/useGoogleSheets.ts:52-58 | no untrimmed cell contains a `"` |
| Csv.LineCellsClean | src/hooks/useGoogleSheets.ts:55-61 | every cell of a line is quote-free and equal to its own trim |
| Csv.DoubledQuoteVanishes | src/hooks/useGoogleSheets.ts:52-53 | a doubled quote `""` anywhere in a line changes nothing: it is two toggles, not an escaped quote |
| Csv.ScanPlainText | src/hooks/useGoogleSheets.ts:57-58 | text without quotes, and without commas unless quoted, is appended to the cell in progress |
| Csv.QuotedCellScan | src/hooks/useGoogleSheets.ts:52-58 | a quoted field with no quote inside scans to that one cell with the toggle off again |
| Csv.QuotedCommaScan | src/hooks/useGoogleSheets.ts:52-56 | a comma inside a quoted field stays in the cell; the comma after the closing quote splits |
| Csv.QuotedCommaStaysInCell | src/hooks/useGoogleSheets.ts:52-61 | the line `"a,…",b` yields the two trimmed cells `a,…` and `b` |
| Csv.QuotedCommaExample | src/hooks/useGoogleSheets.ts:52-56 | the line `"Smith, John",555` yields the two cells `Smith, John` and `555` |
| Csv.CsvRowsOrder | src/hooks/useGoogleSheets.ts:44-63 | the rows are an order-preserving subsequence of the per-line cells and are at most as many as the `\n`-separated lines (newlines + 1) |
| Csv.CsvRowsClean | src/hooks/useGoogleSheets.ts:55-63 | every row kept has a non-empty cell, and all its cells are quote-free and trimmed |
| Csv.LinesJoin | src/hooks/useGoogleSheets.ts:44 | splitting on `\n` loses nothing: joining the lines with `\n` gives the text back |
| JsText.TrimStart | src/hooks/useGoogleSheets.ts:55 | the result is a suffix of the input that does not start with white space |
| JsText.IsWhitespace | src/hooks/useGoogleSheets.ts:55 | the definition of the white-space and line-terminator set that trim and parseInt skip; JsText.TrimStart, JsText.TrimEnd and JsText.ParseIntSkipsWhitespace are stated in terms of it |
| JsText.TrimEnd | src/hooks/useGoogleSheets.ts:55 | the result is a prefix of the input that does not end with white space |
| JsText.TrimStartRemovesWhitespace | src/hooks/useGoogleSheets.ts:55 | everything removed from the front is white space |
| JsText.TrimEndRemovesWhitespace | src/hooks/useGoogleSheets.ts:55 | everything removed from the back is white space |
| JsText.Trim | src/hooks/useGoogleSheets.ts:61 | the trimmed text is no longer than the input and neither starts nor ends with white space |
| JsText.TrimIsSlice | src/hooks/useGoogleSheets.ts:61 | the trimmed text is a slice of the input with only white space before and after it |
| JsText.TrimIdempotent | src/hooks/useGoogleSheets.ts:61 | trimming twice is trimming once |
| JsText.TrimUnchanged | src/hooks/useGoogleSheets.ts:61 | text with no white space at either end is its own trim |
| JsText.TrimKeepsOnlyCharsOf | src/hooks/useGoogleSheets.ts:61 | trimming adds no character, such as a quote, that was not there |
| JsText.TrimEmptyIffBlank | src/hooks/useGoogleSheets.ts:63 | a cell trims to "" exactly when it is all white space, so the blank-row test sees white-space-only rows as blank |
| JsText.ToLower | src/components/dashboard/DonorTable.tsx:37-49 | lower-casing keeps the length and maps each character on its own |
| JsText.ToLowerIdempotent | src/components/dashboard/DonorTable.tsx:37-42 | lower-casing twice is lower-casing once |
| JsText.ToLowerUnchanged | src/components/dashboard/DonorTable.tsx:49 | text without upper-case letters is its own lower case |
| JsText.ContainsEmpty | src/components/dashboard/DonorTable.tsx:37-39 | every text includes the empty text |
| JsText.Contains | src/components/dashboard/DonorTable.tsx:37-39 | the definition of `includes` as "occurs as a slice at some position"; JsText.ContainsEmpty and DonorTable.SearchPhoneKeepsCase use it |
| JsText.DigitPrefixLength | src/hooks/useGoogleSheets.ts:111-113 | parseInt reads the longest run of digits and stops at the first non-digit |
| JsText.ParseInt | src/hooks/useGoogleSheets.ts:111-113 | the definition of `parseInt` with no radix; JsText.ParseIntNaN gives exactly when it is NaN, and JsText.ParseIntOfIntString, JsText.ParseIntDecimal and JsText.ParseIntHexPrefix what it reads |
| JsText.ParseSigned | src/hooks/useGoogleSheets.ts:111-113 | the definition of parseInt from the first non-white-space character on (sign, then magnitude); JsText.ParseIntAtNumber ties it to JsText.ParseInt |
| JsText.IsNegative | src/hooks/useGoogleSheets.ts:111-113 | the definition of the sign parseInt reads (a leading `-`); JsText.ParseIntOfIntString states that negative integers read back |
| JsText.Unsigned | src/hooks/useGoogleSheets.ts:111-113 | the definition of the text after an optional `-` or `+`; JsText.ParseIntNaN is stated in terms of it |
| JsText.IsHex | src/hooks/useGoogleSheets.ts:111-113 | the definition of the `0x`/`0X` prefix that switches parseInt to base 16; JsText.ParseIntNaN and JsText.ParseIntHexPrefix state its effect |
| JsText.Magnitude | src/hooks/useGoogleSheets.ts:111-113 | the definition of the digits read after the sign, base 16 after the prefix and base 10 otherwise; JsText.ParseIntHexPrefix and JsText.ParseIntDecimal state its value |
| JsText.ReadDigits | src/hooks/useGoogleSheets.ts:111-113 | the definition of the longest digit run read as a number, `None` when there is none; JsText.DigitPrefixLength states where it stops |
| JsText.ParseIntOrZero | src/hooks/useGoogleSheets.ts:111-113 | the definition of `parseInt(x)` with `NaN` replaced by 0 (the fallback to 0); JsText.ParseIntNotANumber, GoogleSheets.InventoryNotANumber and InventoryEditor.ClearedFieldIsZero state its NaN case |
| JsText.NatStringDigits | src/hooks/useGoogleSheets.ts:111-113 | a number written out has only digits, no leading zero, and its digits' value is the number |
| JsText.ParseIntOfIntString | src/hooks/useGoogleSheets.ts:111-113 | a cell that starts with an integer written out (negative ones included) reads back as that integer, whatever non-digit text follows, except an `x` right after a lone 0 |
| JsText.ParseIntSkipsWhitespace | src/hooks/useGoogleSheets.ts:111-113 | leading white space does not change what parseInt reads |
| JsText.ParseIntNaN | src/hooks/useGoogleSheets.ts:111-113 | parseInt gives NaN exactly when, after the white space and the sign, there is no digit, or there is a `0x` prefix with no hexadecimal digit after it |
| JsText.ParseIntNotANumber | src/hooks/useGoogleSheets.ts:111 | "N/A" is NaN, so its count is 0 |
| JsText.ParseIntDecimal | src/hooks/useGoogleSheets.ts:111-113 | a run of decimal digits reads as the number it writes |
| JsText.ParseIntHexPrefix | src/hooks/useGoogleSheets.ts:111-113 | with no radix given, a `0x` prefix switches parseInt to base 16 |
| JsText.ParseIntHexExample | src/hooks/useGoogleSheets.ts:111 | "0x1A" reads as 26 |
| Seqs.Filter | src/hooks/useGoogleSheets.ts:63 | filtering never lengthens a sequence |
| Seqs.FilterMembers | src/hooks/useGoogleSheets.ts:90 | an element is kept exactly when it is in the input and passes the test |
| Seqs.FilterIsSubsequence | src/hooks/useGoogleSheets.ts:90 | filtering keeps the input order |
| Seqs.FilterKeepsAll | src/components/dashboard/DonorTable.tsx:35 | filtering returns its input exactly when every element passes |
| Seqs.FilterAppend | src/pages/Index.tsx:12-15 | filtering distributes over concatenation |
| Seqs.FilterCongruent | src/pages/Index.tsx:12-15 | two tests that agree on every element keep the same elements |
| Seqs.FilterLengthIsCount | src/pages/Index.tsx:12-15 | the filtered length is the number of elements that pass |
| Seqs.Split | src/hooks/useGoogleSheets.ts:44 | splitting gives (separators + 1) pieces, none containing a separator |
| Seqs.SplitJoin | src/hooks/useGoogleSheets.ts:44 | joining the pieces with the separator gives the text back |
| Seqs.SplitNoSeparator | src/components/dashboard/DonorTable.tsx:66 | text without a separator splits into itself alone |
| Seqs.SplitAfterSeparator | src/components/dashboard/DonorTable.tsx:66 | a separator followed by separator-free text ends the split with that text as the last piece |
| GoogleSheets.MapDonorRows | src/hooks/useGoogleSheets.ts:81-89 | every row after the header becomes one record, in order, read from that row alone |
| GoogleSheets.RowToDonor | src/hooks/useGoogleSheets.ts:81-89 | the definition of the map callback that reads one row by position; GoogleSheets.DonorRowRoundTrip and GoogleSheets.ShortRowDefaults state what it reads |
| GoogleSheets.CellOr | src/hooks/useGoogleSheets.ts:82-89 | the definition of the cell at a position, or the fallback when that cell is missing or empty; GoogleSheets.ShortRowDefaults and GoogleSheets.DonorRowRoundTrip state its effect |
| GoogleSheets.HasName | src/hooks/useGoogleSheets.ts:90 | the definition of the filter on a non-empty donor name; GoogleSheets.DonorRecordsShape and GoogleSheets.DonorRowListed state its effect |
| GoogleSheets.DonorRecords | src/hooks/useGoogleSheets.ts:81-90 | the definition of the donor list (mapped rows with a name); GoogleSheets.DonorRecordsShape, GoogleSheets.DonorRowListed and GoogleSheets.HeaderIgnored state its properties |
| GoogleSheets.DonorRecordsShape | src/hooks/useGoogleSheets.ts:81-90 | the donor list keeps the sheet order, has at most (parsed rows − 1) records, and has no record without a name |
| GoogleSheets.DonorRowListed | src/hooks/useGoogleSheets.ts:83-90 | a row with a non-empty name cell is listed; a row with no name cell, or an empty one, gives a record with an empty name, which the list leaves out |
| GoogleSheets.HeaderIgnored | src/hooks/useGoogleSheets.ts:81 | the first row is never read |
| GoogleSheets.DonorRowRoundTrip | src/hooks/useGoogleSheets.ts:82-89 | a record's eight columns read back as the record exactly when its status is non-empty |
| GoogleSheets.ShortRowDefaults | src/hooks/useGoogleSheets.ts:82-89 | a row of at most seven cells gets the status "Pending", and every column the row does not reach reads as "" |
| GoogleSheets.InventoryReadsOnlyRowOne | src/hooks/useGoogleSheets.ts:108-114 | only the row after the header is read |
| GoogleSheets.InventoryFromRows | src/hooks/useGoogleSheets.ts:108-115 | the definition of the inventory mapper; GoogleSheets.InventoryReadsOnlyRowOne, GoogleSheets.InventoryWithoutDataRow, GoogleSheets.InventoryRoundTrip and GoogleSheets.InventoryNotANumber state its properties |
| GoogleSheets.DataRow | src/hooks/useGoogleSheets.ts:108 | the definition of the first row after the header, or no cells when there is none; GoogleSheets.InventoryReadsOnlyRowOne and GoogleSheets.InventoryWithoutDataRow state its effect |
| GoogleSheets.CountCell | src/hooks/useGoogleSheets.ts:111-113 | the definition of a count read from one cell, 0 when the cell is missing or not a number; GoogleSheets.InventoryRoundTrip and GoogleSheets.InventoryNotANumber state its value |
| GoogleSheets.InventoryWithoutDataRow | src/hooks/useGoogleSheets.ts:108-114 | with no data row, every count is 0 and the snapshot is stamped with the current time |
| GoogleSheets.InventoryRoundTrip | src/hooks/useGoogleSheets.ts:110-114 | counts written as integers, negative ones included, are read back, and a non-empty stamp is kept |
| GoogleSheets.InventoryNotANumber | src/hooks/useGoogleSheets.ts:111-113 | a count cell holding "N/A" reads as 0 |
| GoogleSheets.DemoDataFacts | src/hooks/useGoogleSheets.ts:139-177 | the demonstration set has three named donors and the counts 245, 78 and 32 |
| GoogleSheets.DemoData | src/hooks/useGoogleSheets.ts:139-177 | the definition of the demonstration data set; GoogleSheets.DemoDataFacts and Dashboard.DemoSummary state what it holds |
| GoogleSheets.ErrorMessage | src/hooks/useGoogleSheets.ts:137 | the definition of the message recorded on failure (the error's message, or "An error occurred"); GoogleSheets.SheetsSync.FallBack records it |
| GoogleSheets.LoadedData | src/hooks/useGoogleSheets.ts:127-133 | the definition of the data installed after both downloads succeed (the mapped donor list and the inventory snapshot); GoogleSheets.SheetsSync.Settle and GoogleSheets.SheetsSync.FetchData install it |
| GoogleSheets.SheetsSync.constructor | src/hooks/useGoogleSheets.ts:30-41 | the hook starts with no donors, zero counts, not loading, no error and no update time |
| GoogleSheets.InitialData | src/hooks/useGoogleSheets.ts:30-38 | the definition of the data shown before the first fetch settles (no donors, zero counts, empty stamp); GoogleSheets.SheetsSync.constructor installs it |
| GoogleSheets.SheetsSync.BeginFetch | src/hooks/useGoogleSheets.ts:123-124 | a fetch starts loading and clears the error, keeping the data on screen |
| GoogleSheets.SheetsSync.Settle | src/hooks/useGoogleSheets.ts:126-182 | success installs the parsed and mapped data; failure installs the demonstration data with the error's message or "An error occurred"; either way the time is stamped and loading ends |
| GoogleSheets.SheetsSync.Load | src/hooks/useGoogleSheets.ts:127-134 | both texts are parsed and mapped and the result is installed, stamped with the current time |
| GoogleSheets.SheetsSync.Install | src/hooks/useGoogleSheets.ts:133-134 | the data is set to the mapped records and snapshot and the time is stamped; nothing else changes |
| GoogleSheets.SheetsSync.FallBack | src/hooks/useGoogleSheets.ts:135-179 | the error message is recorded, the demonstration data is installed and the time is stamped |
| GoogleSheets.SheetsSync.FetchData | src/hooks/useGoogleSheets.ts:122-183 | one cycle: on success the mapped data with no error; on failure the demonstration data with an error; always stamped and not loading |
| DonorTable.FilteredDataShape | src/components/dashboard/DonorTable.tsx:34-46 | the table is an order-preserving subsequence of the list and shows a record exactly when it passes both the search and the status filter |
| DonorTable.MatchesSearch | src/components/dashboard/DonorTable.tsx:36-39 | the definition of the search test; DonorTable.SearchIgnoresCaseOfName and DonorTable.SearchPhoneKeepsCase state how case affects it |
| DonorTable.MatchesStatus | src/components/dashboard/DonorTable.tsx:41-42 | the definition of the status test; DonorTable.StatusFilterIgnoresCase and DonorTable.CompletedHiddenByConfirmedFilter state its properties |
| DonorTable.FilteredData | src/components/dashboard/DonorTable.tsx:34-46 | the definition of the rows shown; DonorTable.FilteredDataShape and DonorTable.UnfilteredShowsAll state its properties |
| DonorTable.Shown | src/components/dashboard/DonorTable.tsx:44 | the definition of a record passing both the search and the status test; DonorTable.FilteredDataShape states that the table shows exactly these records |
| DonorTable.UnfilteredShowsAll | src/components/dashboard/DonorTable.tsx:36-42 | an empty search with the filter at "all" shows the whole list |
| DonorTable.SearchIgnoresCaseOfName | src/components/dashboard/DonorTable.tsx:37-39 | lower-casing a record's name or channel never changes whether it matches, and the search text is compared in lower case with the lower-cased name and channel but with the phone number as stored |
| DonorTable.SearchPhoneKeepsCase | src/components/dashboard/DonorTable.tsx:38 | the phone number is matched with its case |
| DonorTable.StatusFilterIgnoresCase | src/components/dashboard/DonorTable.tsx:41-42 | the status filter compares whole strings up to case |
| DonorTable.StatusBadge | src/components/dashboard/DonorTable.tsx:48-60 | an unrecognised status is shown as it is |
| DonorTable.BadgeIgnoresCase | src/components/dashboard/DonorTable.tsx:49 | the badge depends on the status only up to case |
| DonorTable.CompletedBeforeCancelled | src/components/dashboard/DonorTable.tsx:50-59 | the tests apply in priority order: "completed-cancelled" gets the confirmed badge |
| DonorTable.CompletedHiddenByConfirmedFilter | src/components/dashboard/DonorTable.tsx:41-50 | "Completed" carries the confirmed badge but is hidden by the "confirmed" filter |
| DonorTable.FormatDate | src/components/dashboard/DonorTable.tsx:62-83 | whenever the text is shown unchanged, it is the input |
| DonorTable.IsDateSeparator | src/components/dashboard/DonorTable.tsx:66 | the definition of the separators `-` and `/` of the split; DonorTable.FormatDateVerbatim and DonorTable.FormatDateOfParts are stated in terms of it |
| DonorTable.MinusOne | src/components/dashboard/DonorTable.tsx:70 | the definition of the month correction, which keeps NaN as NaN; DonorTable.FormatDateReadsDayFirst states its value on a number |
| DonorTable.FormatDateVerbatim | src/components/dashboard/DonorTable.tsx:63-79 | the date is shown unchanged exactly when it is empty, is "Queued", or does not split into three parts |
| DonorTable.FormatDateOfParts | src/components/dashboard/DonorTable.tsx:65-71 | three separator-free parts joined by `-` or `/`, in any mix, are read as day, month − 1 and year |
| DonorTable.FormatDateReadsDayFirst | src/components/dashboard/DonorTable.tsx:65-71 | parts joined by `-` or `/` that parse as numbers give the calendar date day/month−1/year: "30/12/2024" is read as intended, but an ISO date is read with its year as the day |
| DonorTable.FindIndexByName | src/components/dashboard/DonorTable.tsx:97 | the result is the first index holding the name, or −1 when no record has it |
| DonorTable.SheetRowOfName | src/components/dashboard/DonorTable.tsx:97-100 | the row sent is the first record's index + 2 when the name is listed, and 1 (the header) when it is not |
| DonorTable.SheetRow | src/components/dashboard/DonorTable.tsx:97-100 | the definition of the sheet row sent (first match + 2); DonorTable.SheetRowOfName states its value in both cases |
| DonorTable.SameStatus | src/components/dashboard/DonorTable.tsx:91 | the definition of the early-exit test: the row shown at that index exists and its status equals the chosen one (past the end, `undefined` never equals a string); DonorTable.StatusEditor.SaveStatus uses it |
| DonorTable.StatusEditor.constructor | src/components/dashboard/DonorTable.tsx:28-31 | empty search, filter "all", no row being edited, no chosen status |
| DonorTable.StatusEditor.SetSearch | src/components/dashboard/DonorTable.tsx:149 | only the search text changes |
| DonorTable.StatusEditor.SetStatusFilter | src/components/dashboard/DonorTable.tsx:156 | only the status filter changes |
| DonorTable.StatusEditor.EditStatus | src/components/dashboard/DonorTable.tsx:85-88 | the editor opens on the row with the record's current status |
| DonorTable.StatusEditor.ChooseStatus | src/components/dashboard/DonorTable.tsx:233 | only the chosen status changes |
| DonorTable.StatusEditor.SaveStatus | src/components/dashboard/DonorTable.tsx:90-121 | an unchanged status closes the editor with no request; otherwise the request carries the name's sheet row (first match in the unfiltered list + 2) and the chosen status; success closes the editor and triggers two refreshes when a callback is given; failure leaves the editor open |
| DonorTable.StatusEditor.CancelEdit | src/components/dashboard/DonorTable.tsx:123-126 | the editor closes and the chosen status is cleared |
| InventoryEditor.WithField | src/components/dashboard/InventoryEditor.tsx:100 | a field edit sets that field and keeps the other two |
| InventoryEditor.TypedNumberIsKept | src/components/dashboard/InventoryEditor.tsx:100 | typing an integer sets the field to it |
| InventoryEditor.ClearedFieldIsZero | src/components/dashboard/InventoryEditor.tsx:117 | an empty or non-numeric input sets the field to 0 |
| InventoryEditor.EditsCommute | src/components/dashboard/InventoryEditor.tsx:100-134 | edits of two different fields do not interfere |
| InventoryEditor.EditSession.constructor | src/components/dashboard/InventoryEditor.tsx:20-25 | not editing, the fields holding the three counts shown |
| InventoryEditor.ValuesOf | src/components/dashboard/InventoryEditor.tsx:21-25 | the definition of the copy of the three counts shown into the edit fields (also at lines 30-34 and 62-66); InventoryEditor.EditSession.constructor, StartEdit and Cancel install it |
| InventoryEditor.EditSession.StartEdit | src/components/dashboard/InventoryEditor.tsx:28-35 | editing, with the fields reset to the counts shown |
| InventoryEditor.EditSession.EditField | src/components/dashboard/InventoryEditor.tsx:100-134 | the field becomes `parseInt(input)`, or 0 when that is NaN, and nothing else changes |
| InventoryEditor.EditSession.Save | src/components/dashboard/InventoryEditor.tsx:37-58 | the request carries the three edited values unchanged; success ends editing and triggers two refreshes when a callback is given; failure keeps editing |
| InventoryEditor.EditSession.Cancel | src/components/dashboard/InventoryEditor.tsx:60-67 | editing ends, nothing is sent, and the fields are reset to the counts shown |
| Dashboard.ConfirmedAppointments | src/pages/Index.tsx:12-15 | the confirmed count never exceeds the donor count |
| Dashboard.ConfirmedStatus | src/pages/Index.tsx:13-14 | the definition of a confirmed status; Dashboard.ConfirmedIffBadge and Dashboard.DemoStatuses state which statuses it accepts |
| Dashboard.CountsAsConfirmed | src/pages/Index.tsx:12-15 | the definition of the filter on a record's status; Dashboard.ConfirmedIsCount and Dashboard.ConfirmedIffBadge state its properties |
| Dashboard.ConfirmedIsCount | src/pages/Index.tsx:12-15 | the confirmed count is the number of records whose status contains "confirmed" or "completed" in any case |
| Dashboard.ConfirmedOfAppend | src/pages/Index.tsx:12-15 | the count of two lists together is the sum of their counts |
| Dashboard.ConfirmedIffBadge | src/pages/Index.tsx:12-15 | a record is counted exactly when the table gives it the confirmed badge |
| Dashboard.ConfirmedAgreesWithBadges | src/pages/Index.tsx:12-15 | the confirmed count equals the number of confirmed badges in the table |
| Dashboard.Summarize | src/pages/Index.tsx:11-19 | the donor count is the list length, the confirmed count is at most that, and the unit total is the sum of the three counts |
| Dashboard.ProgressPercent | src/pages/Index.tsx:105 | with no donors the bar is 0 and nothing is divided; otherwise it lies between 0 and 100, and is 100 when every donor is confirmed |
| Dashboard.ProgressOfSummary | src/pages/Index.tsx:105 | the bar drawn for any data lies between 0 and 100 |
| Dashboard.DemoStatuses | src/pages/Index.tsx:12-15 | "Confirmed" and "Completed" count as confirmed, "Pending" does not |
| Dashboard.DemoSummary | src/pages/Index.tsx:11-19 | on the demonstration data the page shows 3 donors, 2 confirmed and 355 units |

## Left out

- Network access, HTTP status checks and the export URLs (`src/hooks/useGoogleSheets.ts:66-76, 97-104`): they are I/O. Their result is the `FetchOutcome` input.
- The 5-minute polling timer and its teardown (`src/hooks/useGoogleSheets.ts:185-192`): timers are not modelled.
- `Promise.all`, which failure is reported when both downloads fail, and overlapping fetch cycles applied out of order: concurrency is not modelled. A cycle is `BeginFetch` followed by `Settle`.
- Console logging: it has no effect on state.
- `Date` values: `new Date()`, `toISOString`, and the "en-GB" rendering of a calendar date (`toLocaleDateString`) depend on the clock and the locale. The current time is the string `now`, and `FormatDate` stops at the day, month and year numbers it would pass to `new Date`.
- The write hooks' own `isUpdating` and `updateError` flags, the one-second delay and the toasts: these are user-interface feedback. The write result is an input.
- `DashboardHeader`, `MetricsCard`, the JSX and the trend figures: these are presentation only.
- JsText.ToLower: covers the ASCII letters only, because Unicode case mapping tables are not modelled.
- JsText.IsWhitespace: the white-space set is a fixed list: the Unicode "Zs" code points as they stand today, plus TAB, VT, FF, U+FEFF and the line terminators. Code points added to "Zs" by later Unicode versions are not followed.
- JsText.ParseInt: returns an unbounded integer. JavaScript's double-precision rounding of very long digit runs, `Infinity`, and the `-0` that `"-0"` gives are not modelled; `-0 || 0` is 0 anyway.
- Dashboard.ProgressPercent: uses exact real division. The floating-point rounding of the percentage is not modelled.
- JavaScript strings are UTF-16 code-unit sequences. The model uses Dafny characters, so a character outside the Basic Multilingual Plane counts as one character, not two.

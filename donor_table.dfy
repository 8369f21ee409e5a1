/** The donor table of the dashboard: the search and status filter over the
    donor list, the status badge, the guard cases of the date display, and the
    state of the inline status editor with the row number it sends to the sheet. */
module DonorTable {
  import opened Wrappers
  import opened Seqs
  import opened JsText
  import opened GoogleSheets

  // ---------------------------------------------------------------------
  // Search and status filter

  /** The search box: a case-insensitive match on name and channel, but a
      case-sensitive match on the phone number. */
  predicate MatchesSearch(r: DonorRecord, term: string) {
    Contains(ToLower(r.donorName), ToLower(term)) ||
    Contains(r.phoneNumber, term) ||
    Contains(ToLower(r.channel), ToLower(term))
  }

  /** The status filter: "all", or the status equal to the filter up to case. */
  predicate MatchesStatus(r: DonorRecord, filter: string) {
    filter == "all" || ToLower(r.status) == ToLower(filter)
  }

  predicate Shown(term: string, filter: string, r: DonorRecord) {
    MatchesSearch(r, term) && MatchesStatus(r, filter)
  }

  /** `filteredData`: the records that pass both the search and the filter. */
  function FilteredData(data: seq<DonorRecord>, term: string, filter: string): seq<DonorRecord> {
    Filter(r => Shown(term, filter, r), data)
  }

  /** The table shows records of the list only, in the list's order, and shows
      a record exactly when it passes the search and the status filter. */
  lemma FilteredDataShape(data: seq<DonorRecord>, term: string, filter: string, r: DonorRecord)
    ensures IsSubsequence(FilteredData(data, term, filter), data)
    ensures r in FilteredData(data, term, filter) <==>
      r in data && MatchesSearch(r, term) && MatchesStatus(r, filter)
  {
    FilterIsSubsequence(r => Shown(term, filter, r), data);
    FilterMembers(r => Shown(term, filter, r), data, r);
  }

  /** With an empty search and the filter at "all", every record is shown. */
  lemma UnfilteredShowsAll(data: seq<DonorRecord>)
    ensures FilteredData(data, "", "all") == data
  {
    assert ToLower("") == "";
    forall k | 0 <= k < |data|
      ensures Shown("", "all", data[k])
    {
      ContainsEmpty(ToLower(data[k].donorName));
    }
    FilterKeepsAll(r => Shown("", "all", r), data);
  }

  /** The case of a name or a channel never decides whether it matches. */
  lemma SearchIgnoresCaseOfName(r: DonorRecord, term: string)
    ensures MatchesSearch(r.(donorName := ToLower(r.donorName), channel := ToLower(r.channel)), term)
      == MatchesSearch(r, term)
    ensures MatchesSearch(r, ToLower(term)) ==
      (Contains(ToLower(r.donorName), ToLower(term)) ||
       Contains(r.phoneNumber, ToLower(term)) ||
       Contains(ToLower(r.channel), ToLower(term)))
  {
    ToLowerIdempotent(r.donorName);
    ToLowerIdempotent(r.channel);
    ToLowerIdempotent(term);
  }

  /** The phone number is matched with its case: a phone "Ext" is found by the
      search "Ext" but not by "ext". */
  lemma SearchPhoneKeepsCase(r: DonorRecord, upper: string, lower: string)
    requires r.donorName == "" && r.channel == "" && r.phoneNumber == "Ext"
    requires upper == "Ext" && lower == "ext"
    ensures MatchesSearch(r, upper) && !MatchesSearch(r, lower)
  {
    assert SliceAt(r.phoneNumber, upper, 0);
    assert ToLower(r.donorName) == "" && ToLower(r.channel) == "";
    assert !Contains(r.phoneNumber, lower) by {
      assert r.phoneNumber[0] != lower[0];
    }
  }

  /** The status filter ignores the case of the status and of the filter. */
  lemma StatusFilterIgnoresCase(r: DonorRecord, filter: string)
    requires ToLower(filter) != "all"
    ensures MatchesStatus(r, filter) == MatchesStatus(r, ToLower(filter))
    ensures MatchesStatus(r, filter) == MatchesStatus(r.(status := ToLower(r.status)), filter)
  {
    ToLowerIdempotent(filter);
    ToLowerIdempotent(r.status);
  }

  // ---------------------------------------------------------------------
  // Status badge

  datatype Badge = ConfirmedBadge | PendingBadge | CancelledBadge | OutlineBadge(text: string)

  /** `getStatusBadge`: the first of the lower-cased keyword tests that holds
      decides, and a status that none matches is shown as it is. */
  function StatusBadge(status: string): (b: Badge)
    ensures b.OutlineBadge? ==> b.text == status
  {
    var lower := ToLower(status);
    if Contains(lower, "confirmed") || Contains(lower, "completed") then ConfirmedBadge
    else if Contains(lower, "pending") then PendingBadge
    else if Contains(lower, "cancelled") || Contains(lower, "missed") then CancelledBadge
    else OutlineBadge(status)
  }

  /** The badge depends on the status only up to case, except for the text of
      an outline badge. */
  lemma BadgeIgnoresCase(status: string)
    ensures StatusBadge(ToLower(status)).OutlineBadge? == StatusBadge(status).OutlineBadge?
    ensures !StatusBadge(status).OutlineBadge? ==> StatusBadge(ToLower(status)) == StatusBadge(status)
  {
    ToLowerIdempotent(status);
  }

  /** A status naming both a confirmed and a cancelled state gets the
      confirmed badge, the first test in the order. */
  lemma CompletedBeforeCancelled(status: string)
    requires status == "completed-cancelled"
    ensures StatusBadge(status) == ConfirmedBadge
  {
    ToLowerUnchanged(status);
    assert SliceAt(status, "completed", 0);
  }

  /** The "Completed" status carries the confirmed badge, yet the filter set to
      "confirmed" hides it: badge and filter disagree. */
  lemma CompletedHiddenByConfirmedFilter(r: DonorRecord, filter: string)
    requires r.status == "Completed" && filter == "confirmed"
    ensures StatusBadge(r.status) == ConfirmedBadge
    ensures !MatchesStatus(r, filter)
  {
    var lower := ToLower(r.status);
    assert lower == "completed";
    assert SliceAt(lower, "completed", 0);
    ToLowerUnchanged(filter);
    assert lower[2] != filter[2];
  }

  // ---------------------------------------------------------------------
  // Date display

  /** `dateString.split(/[-/]/)` separators. */
  predicate IsDateSeparator(c: char) {
    c == '-' || c == '/'
  }

  /** What the date column shows: the text as it is, or a calendar date built
      from the three parts read as day, month (counted from 0) and year, each
      `None` where parseInt gives `NaN`. The rendering of the calendar date in
      the "en-GB" locale is not modelled. */
  datatype DateDisplay = Verbatim(text: string) | Calendar(day: Option<int>, monthIndex: Option<int>, year: Option<int>)

  function MinusOne(n: Option<int>): Option<int> {
    match n
    case None => None
    case Some(v) => Some(v - 1)
  }

  /** `formatDate`. */
  function FormatDate(s: string): (d: DateDisplay)
    ensures d.Verbatim? ==> d.text == s
  {
    if s == "" || s == "Queued" then Verbatim(s)
    else
      var parts := Split(s, IsDateSeparator);
      if |parts| == 3 then Calendar(ParseInt(parts[0]), MinusOne(ParseInt(parts[1])), ParseInt(parts[2]))
      else Verbatim(s)
  }

  /** The date is shown unchanged exactly when it is empty, is "Queued", or
      does not have exactly two separators. */
  lemma FormatDateVerbatim(s: string)
    ensures FormatDate(s).Verbatim? <==> s == "" || s == "Queued" || Count(IsDateSeparator, s) != 2
  {
  }

  /** Text made of three separator-free parts joined by dashes or slashes
      (in any mix, so both "dd/MM/yyyy" and "yyyy-MM-dd") is read as a
      calendar date: the first part is the day, the second the month counted
      from 1, the third the year. */
  lemma FormatDateOfParts(a: string, s1: char, b: string, s2: char, c: string)
    requires IsDateSeparator(s1) && IsDateSeparator(s2)
    requires forall k :: 0 <= k < |a| ==> !IsDateSeparator(a[k])
    requires forall k :: 0 <= k < |b| ==> !IsDateSeparator(b[k])
    requires forall k :: 0 <= k < |c| ==> !IsDateSeparator(c[k])
    ensures FormatDate(a + [s1] + b + [s2] + c) ==
      Calendar(ParseInt(a), MinusOne(ParseInt(b)), ParseInt(c))
  {
    var ab := a + [s1] + b;
    var s := ab + [s2] + c;
    assert Split(ab, IsDateSeparator) == [a, b] by {
      SplitNoSeparator(a, IsDateSeparator);
      SplitAfterSeparator(a, s1, b, IsDateSeparator);
    }
    assert Split(s, IsDateSeparator) == [a, b, c] by {
      SplitAfterSeparator(ab, s2, c, IsDateSeparator);
    }
    assert s != "Queued" by {
      assert s[|a|] == s1;
      QueuedHasNoSeparator("Queued");
    }
  }

  /** The placeholder "Queued" holds no date separator. */
  lemma QueuedHasNoSeparator(q: string)
    requires q == "Queued"
    ensures forall k :: 0 <= k < |q| ==> !IsDateSeparator(q[k])
  {
    assert q == ['Q', 'u', 'e', 'u', 'e', 'd'];
  }

  /** Three separator-free parts that parse as numbers, joined by dashes or
      slashes, are read day first: "30/12/2024" is the 30th of December, but
      the ISO date "2024-12-30" of the demonstration data shows its year as
      the day and its day as the year. */
  lemma FormatDateReadsDayFirst(a: string, s1: char, b: string, s2: char, c: string,
                                day: int, month: int, year: int)
    requires IsDateSeparator(s1) && IsDateSeparator(s2)
    requires forall k :: 0 <= k < |a| ==> !IsDateSeparator(a[k])
    requires forall k :: 0 <= k < |b| ==> !IsDateSeparator(b[k])
    requires forall k :: 0 <= k < |c| ==> !IsDateSeparator(c[k])
    requires ParseInt(a) == Some(day) && ParseInt(b) == Some(month) && ParseInt(c) == Some(year)
    ensures FormatDate(a + [s1] + b + [s2] + c) == Calendar(Some(day), Some(month - 1), Some(year))
  {
    MinusOneOfSome(ParseInt(b), month);
    FormatDateOfParts(a, s1, b, s2, c);
  }

  lemma MinusOneOfSome(n: Option<int>, v: int)
    requires n == Some(v)
    ensures MinusOne(n) == Some(v - 1)
  {
  }

  // ---------------------------------------------------------------------
  // The status editor

  /** `data.findIndex(record => record.donorName === name)`: the first index
      with that name, or -1. */
  function FindIndexByName(data: seq<DonorRecord>, name: string): (i: int)
    ensures -1 <= i < |data|
    ensures i >= 0 ==> data[i].donorName == name
    ensures forall j :: 0 <= j < |data| && (i == -1 || j < i) ==> data[j].donorName != name
    decreases |data|
  {
    if data == [] then -1
    else if data[0].donorName == name then 0
    else
      var rest := FindIndexByName(data[1..], name);
      if rest == -1 then -1 else rest + 1
  }

  /** The arguments of `updateDonorStatus`. */
  datatype StatusUpdate = StatusUpdate(rowIndex: int, newStatus: string, donorName: string)

  /** The sheet row sent for a donor: the list index plus 2, one for the
      header and one because sheet rows count from 1. */
  function SheetRow(data: seq<DonorRecord>, name: string): int {
    FindIndexByName(data, name) + 2
  }

  /** A name that is in the list is sent as the row of its first record; a
      name that is not is sent as row 1, the header. */
  lemma SheetRowOfName(data: seq<DonorRecord>, name: string)
    ensures (exists k :: 0 <= k < |data| && data[k].donorName == name) ==>
      2 <= SheetRow(data, name) <= |data| + 1 && data[SheetRow(data, name) - 2].donorName == name
    ensures (forall k :: 0 <= k < |data| ==> data[k].donorName != name) ==> SheetRow(data, name) == 1
  {
  }

  /** The chosen status equals the current status of the table row `index`
      (a row past the end of the table has no status to compare with). */
  predicate SameStatus(data: seq<DonorRecord>, term: string, filter: string, index: nat, status: string) {
    var shown := FilteredData(data, term, filter);
    index < |shown| && shown[index].status == status
  }

  /** The table's own state: the search text, the status filter, the row
      being edited (`null` when none) and the status chosen for it. */
  class StatusEditor {
    var searchTerm: string
    var statusFilter: string
    var editingRow: Option<nat>
    var editingStatus: string

    constructor()
      ensures searchTerm == "" && statusFilter == "all" && editingRow == None && editingStatus == ""
    {
      searchTerm := "";
      statusFilter := "all";
      editingRow := None;
      editingStatus := "";
    }

    /** The search box's `onChange`. */
    method SetSearch(term: string)
      modifies this
      ensures searchTerm == term
      ensures statusFilter == old(statusFilter) && editingRow == old(editingRow) && editingStatus == old(editingStatus)
    {
      searchTerm := term;
    }

    /** The status selector's `onChange`. */
    method SetStatusFilter(filter: string)
      modifies this
      ensures statusFilter == filter
      ensures searchTerm == old(searchTerm) && editingRow == old(editingRow) && editingStatus == old(editingStatus)
    {
      statusFilter := filter;
    }

    /** `handleEditStatus`: open the editor on a row of the table, starting
        from the record's status. */
    method EditStatus(index: nat, currentStatus: string)
      modifies this
      ensures editingRow == Some(index) && editingStatus == currentStatus
      ensures searchTerm == old(searchTerm) && statusFilter == old(statusFilter)
    {
      editingRow := Some(index);
      editingStatus := currentStatus;
    }

    /** The editor's `onValueChange`: choose a new status. */
    method ChooseStatus(status: string)
      modifies this
      ensures editingStatus == status
      ensures editingRow == old(editingRow) && searchTerm == old(searchTerm) && statusFilter == old(statusFilter)
    {
      editingStatus := status;
    }

    /** `handleSaveStatus` for the table row `index` of the donor `donorName`.
        An unchanged status closes the editor without a request. Otherwise the
        request names the sheet row of the first record with that name in the
        whole list; whether the write succeeds is decided outside. A success
        closes the editor and refreshes the data twice when a refresh callback
        is given (once from the write hook, once from the table); a failure
        keeps the editor open. */
    method SaveStatus(index: nat, donorName: string, data: seq<DonorRecord>,
                      writeSucceeded: bool, hasCallback: bool)
        returns (request: Option<StatusUpdate>, refreshes: nat)
      modifies this
      ensures SameStatus(data, searchTerm, statusFilter, index, editingStatus) ==>
        request == None && refreshes == 0 && editingRow == None
      ensures !SameStatus(data, searchTerm, statusFilter, index, editingStatus) ==>
        request == Some(StatusUpdate(SheetRow(data, donorName), editingStatus, donorName))
      ensures !SameStatus(data, searchTerm, statusFilter, index, editingStatus) && writeSucceeded ==>
        editingRow == None && refreshes == (if hasCallback then 2 else 0)
      ensures !SameStatus(data, searchTerm, statusFilter, index, editingStatus) && !writeSucceeded ==>
        editingRow == old(editingRow) && refreshes == 0
      ensures editingStatus == old(editingStatus)
      ensures searchTerm == old(searchTerm) && statusFilter == old(statusFilter)
    {
      var shown := FilteredData(data, searchTerm, statusFilter);
      if index < |shown| && shown[index].status == editingStatus {
        editingRow := None;
        return None, 0;
      }
      var originalIndex := FindIndexByName(data, donorName);
      request := Some(StatusUpdate(originalIndex + 2, editingStatus, donorName));
      if writeSucceeded {
        refreshes := if hasCallback then 2 else 0;
        editingRow := None;
      } else {
        refreshes := 0;
      }
    }

    /** `handleCancelEdit`: close the editor and forget the chosen status. */
    method CancelEdit()
      modifies this
      ensures editingRow == None && editingStatus == ""
      ensures searchTerm == old(searchTerm) && statusFilter == old(statusFilter)
    {
      editingRow := None;
      editingStatus := "";
    }
  }
}

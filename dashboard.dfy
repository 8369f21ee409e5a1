/** The figures on the dashboard page: the number of donors, the number of
    confirmed appointments, the total of the three unit counts, and the share
    of confirmed appointments drawn as a progress bar. */
module Dashboard {
  import opened Seqs
  import opened JsText
  import opened GoogleSheets
  import opened DonorTable

  /** A status counted as a confirmed appointment: its lower case contains
      "confirmed" or "completed". */
  predicate ConfirmedStatus(status: string) {
    Contains(ToLower(status), "confirmed") || Contains(ToLower(status), "completed")
  }

  predicate CountsAsConfirmed(r: DonorRecord) {
    ConfirmedStatus(r.status)
  }

  /** `confirmedAppointments`: the number of records that pass the filter. */
  function ConfirmedAppointments(records: seq<DonorRecord>): (n: nat)
    ensures n <= |records|
  {
    |Filter(CountsAsConfirmed, records)|
  }

  /** The confirmed count is the number of positions holding a confirmed record. */
  lemma ConfirmedIsCount(records: seq<DonorRecord>)
    ensures ConfirmedAppointments(records) == Count(CountsAsConfirmed, records)
  {
    FilterLengthIsCount(CountsAsConfirmed, records);
  }

  /** The confirmed count of two lists together is the sum of their counts. */
  lemma ConfirmedOfAppend(a: seq<DonorRecord>, b: seq<DonorRecord>)
    ensures ConfirmedAppointments(a + b) == ConfirmedAppointments(a) + ConfirmedAppointments(b)
  {
    FilterAppend(CountsAsConfirmed, a, b);
  }

  /** A record counts as confirmed exactly when its badge is the confirmed
      badge: the page and the table use the same test. */
  lemma ConfirmedIffBadge(r: DonorRecord)
    ensures CountsAsConfirmed(r) <==> StatusBadge(r.status) == ConfirmedBadge
  {
  }

  predicate HasConfirmedBadge(r: DonorRecord) {
    StatusBadge(r.status) == ConfirmedBadge
  }

  /** So the confirmed count is the number of rows of the table that show the
      confirmed badge. */
  lemma ConfirmedAgreesWithBadges(records: seq<DonorRecord>)
    ensures ConfirmedAppointments(records) == |Filter(HasConfirmedBadge, records)|
  {
    forall k | 0 <= k < |records|
      ensures CountsAsConfirmed(records[k]) == HasConfirmedBadge(records[k])
    {
      ConfirmedIffBadge(records[k]);
    }
    FilterCongruent(CountsAsConfirmed, HasConfirmedBadge, records);
  }

  /** The three figures of the page. */
  datatype Metrics = Metrics(totalDonors: nat, confirmedAppointments: nat, totalUnits: int)

  /** `totalDonors`, `confirmedAppointments` and `totalUnits` for the data shown. */
  function Summarize(data: SheetsData): (m: Metrics)
    ensures m.totalDonors == |data.donorRecords|
    ensures m.confirmedAppointments <= m.totalDonors
    ensures m.totalUnits == data.inventory.bloodUnitsAvailable + data.inventory.plasmaUnitsAvailable +
      data.inventory.plateletUnitsAvailable
  {
    var inv := data.inventory;
    Metrics(|data.donorRecords|, ConfirmedAppointments(data.donorRecords),
      inv.bloodUnitsAvailable + inv.plasmaUnitsAvailable + inv.plateletUnitsAvailable)
  }

  /** The width of the progress bar in percent, with no division when there
      are no donors. */
  function ProgressPercent(confirmed: nat, total: nat): (p: real)
    ensures total == 0 ==> p == 0.0
    ensures confirmed <= total ==> 0.0 <= p <= 100.0
    ensures 0 < total && confirmed == total ==> p == 100.0
  {
    if total > 0 then
      var ratio := confirmed as real / total as real;
      assert confirmed <= total ==> ratio <= 1.0 by {
        if confirmed <= total {
          assert ratio * total as real == confirmed as real;
        }
      }
      ratio * 100.0
    else 0.0
  }

  /** The bar of the page never leaves the range 0 to 100. */
  lemma ProgressOfSummary(data: SheetsData)
    ensures var m := Summarize(data);
      0.0 <= ProgressPercent(m.confirmedAppointments, m.totalDonors) <= 100.0
  {
  }

  /** The demonstration statuses: "Confirmed" and "Completed" count, "Pending"
      does not. */
  lemma DemoStatuses(confirmed: string, pending: string, completed: string)
    requires confirmed == "Confirmed" && pending == "Pending" && completed == "Completed"
    ensures ConfirmedStatus(confirmed) && !ConfirmedStatus(pending) && ConfirmedStatus(completed)
  {
    assert SliceAt(ToLower(confirmed), "confirmed", 0);
    assert SliceAt(ToLower(completed), "completed", 0);
  }

  /** On the demonstration data the page shows 3 donors, 2 confirmed and
      355 units. */
  lemma DemoSummary(now: string)
    ensures Summarize(DemoData(now)) == Metrics(3, 2, 355)
  {
    var rs := DemoData(now).donorRecords;
    DemoStatuses(rs[0].status, rs[1].status, rs[2].status);
    assert rs == [rs[0]] + [rs[1]] + [rs[2]];
    ConfirmedOfAppend([rs[0]] + [rs[1]], [rs[2]]);
    ConfirmedOfAppend([rs[0]], [rs[1]]);
  }
}

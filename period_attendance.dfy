/** The period attendance ledger: marking a student present for one period of
    one day (at most once), the filtered and ordered listing, the per-period
    summary of a day and the CSV export with its summary block.

    The database session is the `PeriodLedger` object; an exception raised by the
    session is the `dbError` argument of `Mark` and the `failed` argument of the
    queries. The clock is an argument too. */
module PeriodAttendance {
  import opened Common
  import opened Models
  import Sorting
  import Csv

  // ---------------------------------------------------------------- rows

  predicate InSlot(a: Attendance, studentId: string, date: string, period: string) {
    a.studentId == studentId && a.date == date && a.period == period
  }

  predicate HasSlot(rows: seq<Attendance>, studentId: string, date: string, period: string) {
    exists i :: 0 <= i < |rows| && InSlot(rows[i], studentId, date, period)
  }

  /** No two rows share (student_id, date, period). */
  predicate SlotsUnique(rows: seq<Attendance>) {
    forall i, j :: 0 <= i < j < |rows| ==>
      !InSlot(rows[j], rows[i].studentId, rows[i].date, rows[i].period)
  }

  /** Every row's spoof status is one of the two values marking writes. */
  predicate StatusesValid(rows: seq<Attendance>) {
    forall i :: 0 <= i < |rows| ==> rows[i].spoofStatus in {StatusLive, StatusSpoofed}
  }

  function SpoofStatus(isLive: bool): (s: string)
    ensures s == StatusLive <==> isLive
    ensures s == StatusSpoofed <==> !isLive
  {
    if isLive then StatusLive else StatusSpoofed
  }

  /** The row `mark_period_attendance` inserts. */
  function MarkedRow(id: nat, studentId: string, name: string, date: string, period: string,
                     emotion: string, liveness: Tenths, recognition: Tenths, isLive: bool,
                     time: string, timestamp: string): Attendance
  {
    Attendance(id, studentId, name, timestamp, period, date, time, emotion,
               SpoofStatus(isLive), Some(liveness), Some(recognition))
  }

  /** The notification a successful mark adds. */
  function MarkedNotification(id: nat, studentId: string, name: string, timestamp: string): Notification {
    Notification(id, "attendance", "Attendance Marked",
                 "Attendance marked for " + name + " (" + studentId + ")", timestamp, Unread)
  }

  const DuplicateMessage: string := "Attendance already marked for this period"
  const SuccessMessage: string := "Attendance marked successfully"
  const DatabaseErrorPrefix: string := "Database error: "

  /** Marking with every optional argument left at its default inserts the row
      the schema's column defaults describe. */
  lemma DefaultArgumentsMatchColumnDefaults(id: nat, studentId: string, name: string, date: string,
                                            period: string, time: string, timestamp: string)
    ensures MarkedRow(id, studentId, name, date, period, DefaultEmotion, DefaultLiveness,
                      DefaultRecognition, true, time, timestamp)
         == AttendanceWithDefaults(id, studentId, name, timestamp, period, date, time)
  {
  }

  class PeriodLedger {
    var rows: seq<Attendance>
    var notifications: seq<Notification>
    var nextId: nat
    var nextNotificationId: nat

    ghost predicate Valid()
      reads this
    {
      && SlotsUnique(rows)
      && StatusesValid(rows)
      && Scored(rows)
      && (forall i :: 0 <= i < |rows| ==> rows[i].id < nextId)
      && (forall i :: 0 <= i < |notifications| ==> notifications[i].id < nextNotificationId)
      && (forall i, j :: 0 <= i < j < |rows| ==> rows[i].id < rows[j].id)
    }

    constructor()
      ensures Valid()
      ensures rows == [] && notifications == []
    {
      rows := [];
      notifications := [];
      nextId := 1;
      nextNotificationId := 1;
    }

    /** `mark_period_attendance`: refuses a second row for the same student,
        date and period; otherwise adds the row and one unread notification. */
    method Mark(studentId: string, name: string, date: string, period: string,
                emotion: string, liveness: Tenths, recognition: Tenths, isLive: bool,
                time: string, timestamp: string, dbError: Option<string>)
      returns (ok: bool, message: string)
      modifies this
      requires Valid()
      ensures Valid()
      ensures dbError.Some? ==>
        && !ok && message == DatabaseErrorPrefix + dbError.value
        && rows == old(rows) && notifications == old(notifications)
      ensures dbError.None? && HasSlot(old(rows), studentId, date, period) ==>
        && !ok && message == DuplicateMessage
        && rows == old(rows) && notifications == old(notifications)
      ensures dbError.None? && !HasSlot(old(rows), studentId, date, period) ==>
        && ok && message == SuccessMessage
        && rows == old(rows) + [MarkedRow(old(nextId), studentId, name, date, period, emotion,
                                          liveness, recognition, isLive, time, timestamp)]
        && notifications == old(notifications)
                            + [MarkedNotification(old(nextNotificationId), studentId, name, timestamp)]
      ensures ok <==> dbError.None? && !HasSlot(old(rows), studentId, date, period)
      ensures nextId == old(nextId) + (if ok then 1 else 0)
      ensures nextNotificationId == old(nextNotificationId) + (if ok then 1 else 0)
    {
      if dbError.Some? {
        return false, DatabaseErrorPrefix + dbError.value;
      }
      if HasSlot(rows, studentId, date, period) {
        return false, DuplicateMessage;
      }
      var row := MarkedRow(nextId, studentId, name, date, period, emotion, liveness,
                           recognition, isLive, time, timestamp);
      rows := rows + [row];
      nextId := nextId + 1;
      notifications := notifications
                       + [MarkedNotification(nextNotificationId, studentId, name, timestamp)];
      nextNotificationId := nextNotificationId + 1;
      return true, SuccessMessage;
    }
  }

  /** After a successful mark the slot is taken, so marking it again is refused. */
  lemma MarkedSlotIsTaken(rows: seq<Attendance>, row: Attendance)
    ensures HasSlot(rows + [row], row.studentId, row.date, row.period)
  {
    assert InSlot((rows + [row])[|rows|], row.studentId, row.date, row.period);
  }

  // ---------------------------------------------------------------- listing

  /** A missing or empty filter places no restriction. */
  predicate Matches(a: Attendance, date: Option<string>, period: Option<string>) {
    (!Given(date) || a.date == date.value) && (!Given(period) || a.period == period.value)
  }

  function FilterRows(rows: seq<Attendance>, date: Option<string>, period: Option<string>)
    : (r: seq<Attendance>)
    ensures forall x :: x in r <==> x in rows && Matches(x, date, period)
    ensures |r| <= |rows|
  {
    if |rows| == 0 then []
    else
      var rest := FilterRows(rows[1..], date, period);
      assert forall x :: x in rows <==> x == rows[0] || x in rows[1..];
      if Matches(rows[0], date, period) then [rows[0]] + rest else rest
  }

  /** Date descending, then period ascending, then time descending. */
  predicate ListingOrder(a: Attendance, b: Attendance) {
    || StrLt(b.date, a.date)
    || (a.date == b.date && (StrLt(a.period, b.period) || (a.period == b.period && StrLe(b.time, a.time))))
  }

  lemma StrLtOrEq(a: string, b: string)
    ensures StrLt(a, b) || StrLt(b, a) || a == b
  {
    StrLeTotal(a, b);
  }

  lemma StrLtTransitive(a: string, b: string, c: string)
    requires StrLe(a, b) && StrLe(b, c)
    requires StrLt(a, b) || StrLt(b, c)
    ensures StrLt(a, c)
  {
    StrLeTransitive(a, b, c);
    if a == c {
      StrLeAntisymmetric(a, b);
    }
  }

  lemma ListingOrderIsTotalPreorder()
    ensures Sorting.TotalPreorder(ListingOrder)
  {
    forall a, b ensures ListingOrder(a, b) || ListingOrder(b, a) {
      StrLtOrEq(a.date, b.date);
      StrLtOrEq(a.period, b.period);
      StrLeTotal(a.time, b.time);
    }
    forall a, b, c | ListingOrder(a, b) && ListingOrder(b, c) ensures ListingOrder(a, c) {
      ListingTransitive(a, b, c);
    }
  }

  lemma ListingTransitive(a: Attendance, b: Attendance, c: Attendance)
    requires ListingOrder(a, b) && ListingOrder(b, c)
    ensures ListingOrder(a, c)
  {
    if StrLt(b.date, a.date) && StrLt(c.date, b.date) {
      StrLtTransitive(c.date, b.date, a.date);
    } else if StrLt(b.date, a.date) || StrLt(c.date, b.date) {
    } else if StrLt(a.period, b.period) && StrLt(b.period, c.period) {
      StrLtTransitive(a.period, b.period, c.period);
    } else if StrLt(a.period, b.period) || StrLt(b.period, c.period) {
    } else {
      StrLeTransitive(c.time, b.time, a.time);
    }
  }

  /** `get_period_attendance`: the rows that match both filters, in listing
      order; any failure of the session yields no rows. */
  function GetPeriodAttendance(rows: seq<Attendance>, date: Option<string>, period: Option<string>,
                               failed: bool): (r: seq<Attendance>)
    ensures failed ==> r == []
    ensures !failed ==> multiset(r) == multiset(FilterRows(rows, date, period))
    ensures !failed ==> forall x :: x in r <==> x in rows && Matches(x, date, period)
    ensures !failed ==> Sorting.SortedBy(r, ListingOrder)
  {
    if failed then []
    else
      var matching := FilterRows(rows, date, period);
      ListingOrderIsTotalPreorder();
      Sorting.SortBySorted(matching, ListingOrder);
      var r := Sorting.SortBy(matching, ListingOrder);
      assert forall x :: x in r <==> x in matching by {
        forall x ensures x in r <==> x in matching {
          Sorting.SortByMembers(matching, ListingOrder, x);
        }
      }
      r
  }

  // ---------------------------------------------------------------- per-period summary

  datatype PeriodSummary = PeriodSummary(period: string, totalPresent: nat, liveCount: nat,
                                         spoofedCount: nat)

  function OnDate(rows: seq<Attendance>, date: string): (r: seq<Attendance>)
    ensures forall x :: x in r <==> x in rows && x.date == date
  {
    if |rows| == 0 then []
    else
      var rest := OnDate(rows[1..], date);
      assert forall x :: x in rows <==> x == rows[0] || x in rows[1..];
      if rows[0].date == date then [rows[0]] + rest else rest
  }

  function CountPeriod(rows: seq<Attendance>, period: string): nat {
    if |rows| == 0 then 0
    else (if rows[0].period == period then 1 else 0) + CountPeriod(rows[1..], period)
  }

  function CountStatus(rows: seq<Attendance>, period: string, status: string): nat {
    if |rows| == 0 then 0
    else (if rows[0].period == period && rows[0].spoofStatus == status then 1 else 0)
         + CountStatus(rows[1..], period, status)
  }

  predicate StrictlyIncreasing(s: seq<string>) {
    forall i, j :: 0 <= i < j < |s| ==> StrLt(s[i], s[j])
  }

  /** Inserts `x` into a strictly increasing sequence unless it is already there. */
  function InsertDistinct(x: string, s: seq<string>): (r: seq<string>)
    requires StrictlyIncreasing(s)
    ensures StrictlyIncreasing(r)
    ensures forall y :: y in r <==> y == x || y in s
  {
    if |s| == 0 then [x]
    else if x == s[0] then s
    else if StrLe(x, s[0]) then
      forall j | 0 <= j < |s| ensures StrLt(x, s[j]) {
        if j > 0 { StrLtTransitive(x, s[0], s[j]); }
      }
      [x] + s
    else
      var rest := InsertDistinct(x, s[1..]);
      StrLeTotal(x, s[0]);
      forall j | 0 <= j < |rest| ensures StrLt(s[0], rest[j]) {
        assert rest[j] in rest;
        if rest[j] != x {
          var k :| 0 <= k < |s[1..]| && s[1..][k] == rest[j];
          assert s[k + 1] == rest[j];
        }
      }
      assert forall y :: y in s <==> y == s[0] || y in s[1..];
      [s[0]] + rest
  }

  predicate HasPeriod(rows: seq<Attendance>, p: string) {
    exists i :: 0 <= i < |rows| && rows[i].period == p
  }

  lemma HasPeriodCons(rows: seq<Attendance>, p: string)
    requires |rows| > 0
    ensures HasPeriod(rows, p) <==> rows[0].period == p || HasPeriod(rows[1..], p)
  {
    if HasPeriod(rows, p) && rows[0].period != p {
      var i :| 0 <= i < |rows| && rows[i].period == p;
      assert rows[1..][i - 1].period == p;
    }
    if HasPeriod(rows[1..], p) {
      var k :| 0 <= k < |rows[1..]| && rows[1..][k].period == p;
      assert rows[k + 1].period == p;
    }
  }

  /** The distinct periods of `rows`, in increasing order. */
  function Periods(rows: seq<Attendance>): (r: seq<string>)
    ensures StrictlyIncreasing(r)
    ensures forall p :: p in r <==> HasPeriod(rows, p)
  {
    if |rows| == 0 then []
    else
      var r := InsertDistinct(rows[0].period, Periods(rows[1..]));
      assert forall p :: HasPeriod(rows, p) <==> rows[0].period == p || HasPeriod(rows[1..], p) by {
        forall p ensures HasPeriod(rows, p) <==> rows[0].period == p || HasPeriod(rows[1..], p) {
          HasPeriodCons(rows, p);
        }
      }
      r
  }

  function SummaryDate(date: Option<string>, today: string): string {
    if Given(date) then date.value else today
  }

  function SummarizePeriods(day: seq<Attendance>, periods: seq<string>): (r: seq<PeriodSummary>)
    ensures |r| == |periods|
    ensures forall i :: 0 <= i < |r| ==>
      r[i] == PeriodSummary(periods[i], CountPeriod(day, periods[i]),
                            CountStatus(day, periods[i], StatusLive),
                            CountStatus(day, periods[i], StatusSpoofed))
  {
    if |periods| == 0 then []
    else
      [PeriodSummary(periods[0], CountPeriod(day, periods[0]),
                     CountStatus(day, periods[0], StatusLive),
                     CountStatus(day, periods[0], StatusSpoofed))]
      + SummarizePeriods(day, periods[1..])
  }

  /** `get_attendance_summary`: one entry per distinct period marked on the
      target date (today when no date is given), in period order, with the
      number of rows and the numbers of live and spoofed rows. */
  function AttendanceSummary(rows: seq<Attendance>, date: Option<string>, today: string,
                             failed: bool): (r: seq<PeriodSummary>)
    ensures failed ==> r == []
    ensures !failed ==> forall i, j :: 0 <= i < j < |r| ==> StrLt(r[i].period, r[j].period)
    ensures !failed ==> forall i :: 0 <= i < |r| ==>
      var day := OnDate(rows, SummaryDate(date, today));
      && r[i].totalPresent == CountPeriod(day, r[i].period)
      && r[i].liveCount == CountStatus(day, r[i].period, StatusLive)
      && r[i].spoofedCount == CountStatus(day, r[i].period, StatusSpoofed)
    ensures !failed ==> forall p ::
      (exists i :: 0 <= i < |r| && r[i].period == p) <==> HasPeriod(OnDate(rows, SummaryDate(date, today)), p)
  {
    if failed then []
    else
      var day := OnDate(rows, SummaryDate(date, today));
      var periods := Periods(day);
      var r := SummarizePeriods(day, periods);
      assert forall p :: (exists i :: 0 <= i < |r| && r[i].period == p) <==> p in periods by {
        forall p ensures (exists i :: 0 <= i < |r| && r[i].period == p) <==> p in periods {
          if p in periods {
            var i :| 0 <= i < |periods| && periods[i] == p;
            assert r[i].period == p;
          }
        }
      }
      r
  }

  /** The periods listed in the summary are exactly those of some row on the
      target date. */
  lemma SummaryPeriodsExact(rows: seq<Attendance>, date: Option<string>, today: string, p: string)
    ensures var r := AttendanceSummary(rows, date, today, false);
      (exists i :: 0 <= i < |r| && r[i].period == p)
      <==> (exists x :: x in rows && x.date == SummaryDate(date, today) && x.period == p)
  {
    var day := OnDate(rows, SummaryDate(date, today));
    var r := AttendanceSummary(rows, date, today, false);
    assert (exists i :: 0 <= i < |r| && r[i].period == p) <==> HasPeriod(day, p);
    if exists x :: x in rows && x.date == SummaryDate(date, today) && x.period == p {
      var x :| x in rows && x.date == SummaryDate(date, today) && x.period == p;
      assert x in day;
      var i :| 0 <= i < |day| && day[i] == x;
      assert HasPeriod(day, p);
    }
    if HasPeriod(day, p) {
      var i :| 0 <= i < |day| && day[i].period == p;
      assert day[i] in day;
      assert day[i] in rows && day[i].date == SummaryDate(date, today);
    }
  }

  /** Each summary entry counts exactly the day's rows of its period, and its
      live and spoofed counts add up to that total whenever every row carries
      one of the two statuses marking writes. */
  lemma {:induction false} StatusCountsAddUp(day: seq<Attendance>, period: string)
    requires StatusesValid(day)
    ensures CountStatus(day, period, StatusLive) + CountStatus(day, period, StatusSpoofed)
            == CountPeriod(day, period)
  {
    if |day| > 0 {
      assert StatusesValid(day[1..]) by {
        forall i | 0 <= i < |day[1..]| ensures day[1..][i].spoofStatus in {StatusLive, StatusSpoofed} {
          assert day[1..][i] == day[i + 1];
        }
      }
      StatusCountsAddUp(day[1..], period);
    }
  }

  lemma OnDateKeepsStatuses(rows: seq<Attendance>, date: string)
    requires StatusesValid(rows)
    ensures StatusesValid(OnDate(rows, date))
  {
    var day := OnDate(rows, date);
    forall i | 0 <= i < |day| ensures day[i].spoofStatus in {StatusLive, StatusSpoofed} {
      assert day[i] in rows;
      var k :| 0 <= k < |rows| && rows[k] == day[i];
    }
  }

  lemma SummaryAddsUp(rows: seq<Attendance>, date: Option<string>, today: string)
    requires StatusesValid(rows)
    ensures forall i :: 0 <= i < |AttendanceSummary(rows, date, today, false)| ==>
      var e := AttendanceSummary(rows, date, today, false)[i];
      e.liveCount + e.spoofedCount == e.totalPresent
  {
    var day := OnDate(rows, SummaryDate(date, today));
    OnDateKeepsStatuses(rows, SummaryDate(date, today));
    forall p {
      StatusCountsAddUp(day, p);
    }
  }

  // ---------------------------------------------------------------- CSV export

  /** Python's `f"{x:.1f}"` of a value held in tenths. */
  function FormatTenths(t: Tenths): (s: string)
    ensures |s| >= 3
  {
    var m: nat := if t < 0 then -t else t;
    (if t < 0 then "-" else "") + NatToString(m / 10) + "." + [DigitChar(m % 10)]
  }

  /** Different scores never format alike. */
  lemma FormatTenthsInjective(a: Tenths, b: Tenths)
    requires FormatTenths(a) == FormatTenths(b)
    ensures a == b
  {
    var ma: nat := if a < 0 then -a else a;
    var mb: nat := if b < 0 then -b else b;
    FormatTenthsParts(a);
    FormatTenthsParts(b);
    var s := FormatTenths(a);
    assert (a < 0) == (b < 0);
    var p := if a < 0 then 1 else 0;
    NatToStringInjective(ma / 10, mb / 10);
    assert ma % 10 == mb % 10 by {
      assert DigitChar(ma % 10) == s[|s| - 1] == DigitChar(mb % 10);
    }
    assert ma == mb;
  }

  /** The sign, the whole part and the last digit can be read off the text. */
  lemma FormatTenthsParts(t: Tenths)
    ensures var m: nat := if t < 0 then -t else t;
      var s := FormatTenths(t);
      && (s[0] == '-' <==> t < 0)
      && s[(if t < 0 then 1 else 0)..|s| - 2] == NatToString(m / 10)
      && s[|s| - 1] == DigitChar(m % 10)
  {
    var m: nat := if t < 0 then -t else t;
    var n := NatToString(m / 10);
    var s := FormatTenths(t);
    var sign := if t < 0 then "-" else "";
    assert s == sign + n + "." + [DigitChar(m % 10)];
    if t >= 0 {
      assert s[0] == n[0] && n[0] in n;
    }
    assert s[|sign|..|s| - 2] == n;
  }

  const ExportHeader: seq<string> := [
    "Serial No", "Student ID", "Student Name", "Date", "Period",
    "Attendance Time", "Emotion Detected", "Live/Spoofed",
    "Liveness Score (%)", "Recognition Score (%)", "Recorded At"]

  /** Every listed row has both scores, so they can be formatted. */
  predicate Scored(records: seq<Attendance>) {
    forall i :: 0 <= i < |records| ==> records[i].liveness.Some? && records[i].recognition.Some?
  }

  function StatusCell(status: string): (s: string) {
    if status == StatusLive then "Live" else "Spoofed"
  }

  function ExportRow(a: Attendance): (row: seq<string>)
    requires a.liveness.Some? && a.recognition.Some?
  {
    [NatToString(a.id), a.studentId, a.name, a.date, a.period, a.time, a.emotion,
     StatusCell(a.spoofStatus), FormatTenths(a.liveness.value) + "%",
     FormatTenths(a.recognition.value) + "%", a.timestamp]
  }

  function LiveCount(records: seq<Attendance>): (n: nat)
    ensures n <= |records|
  {
    if |records| == 0 then 0
    else (if records[0].spoofStatus == StatusLive then 1 else 0) + LiveCount(records[1..])
  }

  /** The block written after the data rows. The two averages are given as
      already formatted text. */
  function SummaryBlock(records: seq<Attendance>, avgRecognition: string, avgLiveness: string,
                        generatedOn: string): seq<seq<string>>
  {
    var n := |records|;
    var live := LiveCount(records);
    var spoofed := n - live;
    [[], ["SUMMARY"], ["Total Students Present:", NatToString(n)]]
    + (if n > 0 then
         [["Live Detections:", NatToString(live)]]
         + (if spoofed > 0 then [["Spoofed Detections:", NatToString(spoofed)]] else [])
         + [["Average Recognition Confidence:", avgRecognition + "%"],
            ["Average Liveness Confidence:", avgLiveness + "%"]]
       else [])
    + [[], ["Generated on:", generatedOn]]
  }

  function DataRows(records: seq<Attendance>): (rows: seq<seq<string>>)
    requires Scored(records)
    ensures |rows| == |records|
    ensures forall i :: 0 <= i < |records| ==> rows[i] == ExportRow(records[i])
  {
    if |records| == 0 then [] else [ExportRow(records[0])] + DataRows(records[1..])
  }

  /** All rows of the exported file, in writing order. */
  function ExportRows(records: seq<Attendance>, avgRecognition: string, avgLiveness: string,
                      generatedOn: string): (rows: seq<seq<string>>)
    requires Scored(records)
    ensures |rows| == 1 + |records| + |SummaryBlock(records, avgRecognition, avgLiveness, generatedOn)|
  {
    [ExportHeader] + DataRows(records) + SummaryBlock(records, avgRecognition, avgLiveness, generatedOn)
  }

  /** `export_period_attendance_csv`: the file text, or `None` when formatting a
      record fails (a row without a score). */
  function ExportCsv(rows: seq<Attendance>, date: Option<string>, period: Option<string>,
                     queryFailed: bool, avgRecognition: string, avgLiveness: string,
                     generatedOn: string): (r: Option<string>)
  {
    var records := GetPeriodAttendance(rows, date, period, queryFailed);
    if Scored(records) then
      Some(Csv.WriteRows(ExportRows(records, avgRecognition, avgLiveness, generatedOn)))
    else None
  }

  /** Writes the export: formats the records, then hands the header, the
      data rows and the summary block to the CSV writer. */
  method WriteExport(rows: seq<Attendance>, date: Option<string>, period: Option<string>,
                     queryFailed: bool, avgRecognition: string, avgLiveness: string,
                     generatedOn: string) returns (csv: Option<string>)
    ensures csv == ExportCsv(rows, date, period, queryFailed, avgRecognition, avgLiveness, generatedOn)
  {
    var records := GetPeriodAttendance(rows, date, period, queryFailed);
    var data := FormatRecords(records);
    if data.None? {
      return None;
    }
    var out := WriteAll([ExportHeader] + data.value + SummaryBlock(records, avgRecognition, avgLiveness, generatedOn));
    return Some(out);
  }

  /** Formats the records one by one, stopping at a record without a score. */
  method FormatRecords(records: seq<Attendance>) returns (data: Option<seq<seq<string>>>)
    ensures data.Some? <==> Scored(records)
    ensures data.Some? ==> data.value == DataRows(records)
  {
    var rows: seq<seq<string>> := [];
    var i := 0;
    while i < |records|
      invariant 0 <= i <= |records|
      invariant Scored(records[..i])
      invariant rows == DataRows(records[..i])
    {
      var a := records[i];
      if a.liveness.None? || a.recognition.None? {
        assert !Scored(records);
        return None;
      }
      DataRowsAppend(records[..i], a);
      assert records[..i + 1] == records[..i] + [a];
      rows := rows + [ExportRow(a)];
      i := i + 1;
    }
    assert records[..i] == records;
    return Some(rows);
  }

  /** Drives the CSV writer: one `writerow` call per row. */
  method WriteAll(table: seq<seq<string>>) returns (out: string)
    ensures out == Csv.WriteRows(table)
  {
    out := "";
    var i := 0;
    while i < |table|
      invariant 0 <= i <= |table|
      invariant out == Csv.WriteRows(table[..i])
    {
      AppendRow(table[..i], table[i]);
      assert table[..i + 1] == table[..i] + [table[i]];
      out := out + Csv.WriteRow(table[i]) + "\r\n";
      i := i + 1;
    }
    assert table[..i] == table;
  }

  lemma {:induction false} AppendRow(rows: seq<seq<string>>, row: seq<string>)
    ensures Csv.WriteRows(rows + [row]) == Csv.WriteRows(rows) + Csv.WriteRow(row) + "\r\n"
    decreases |rows|
  {
    if |rows| == 0 {
      assert rows + [row] == [row];
    } else {
      AppendRow(rows[1..], row);
      assert (rows + [row])[1..] == rows[1..] + [row];
    }
  }

  lemma DataRowsAppend(records: seq<Attendance>, a: Attendance)
    requires Scored(records) && a.liveness.Some? && a.recognition.Some?
    ensures Scored(records + [a])
    ensures DataRows(records + [a]) == DataRows(records) + [ExportRow(a)]
  {
    assert Scored(records + [a]) by {
      forall i | 0 <= i < |records + [a]|
        ensures (records + [a])[i].liveness.Some? && (records + [a])[i].recognition.Some?
      {
        if i < |records| { assert (records + [a])[i] == records[i]; }
      }
    }
    assert |records| == 0 || (records + [a])[1..] == records[1..] + [a];
    if |records| > 0 {
      DataRowsAppend(records[1..], a);
    }
  }

  /** The export starts with the 11-column header, then has one row per listed
      record in listing order, then the summary block. */
  lemma ExportRowsSplit(records: seq<Attendance>, avgRecognition: string, avgLiveness: string,
                        generatedOn: string)
    requires Scored(records)
    ensures var rows := ExportRows(records, avgRecognition, avgLiveness, generatedOn);
      && |ExportHeader| == 11
      && rows[0] == ExportHeader
      && (forall i :: 0 <= i < |records| ==> rows[i + 1] == ExportRow(records[i]))
      && rows[|records| + 1..] == SummaryBlock(records, avgRecognition, avgLiveness, generatedOn)
  {
    var rows := ExportRows(records, avgRecognition, avgLiveness, generatedOn);
    var data := DataRows(records);
    assert rows[1..|records| + 1] == data;
  }

  /** A data row has 11 cells, starts with the record's id and says "Live"
      exactly for a LIVE record. */
  lemma ExportRowCells(a: Attendance)
    requires a.liveness.Some? && a.recognition.Some?
    ensures |ExportRow(a)| == 11
    ensures ExportRow(a)[0] == NatToString(a.id) && ExportRow(a)[1] == a.studentId
    ensures ExportRow(a)[7] == "Live" <==> a.spoofStatus == StatusLive
    ensures ExportRow(a)[7] == "Spoofed" <==> a.spoofStatus != StatusLive
  {
  }

  /** The summary block: its total is the number of records; live and spoofed
      add up to it; the live row appears only when there are records and the
      spoofed row only when some record is not LIVE. */
  lemma SummaryBlockLayout(records: seq<Attendance>, avgRecognition: string, avgLiveness: string,
                           generatedOn: string)
    ensures var b := SummaryBlock(records, avgRecognition, avgLiveness, generatedOn);
      var n := |records|;
      var live := LiveCount(records);
      && b[0] == [] && b[1] == ["SUMMARY"]
      && b[2] == ["Total Students Present:", NatToString(n)]
      && |b| == 5 + (if n > 0 then 3 + (if n - live > 0 then 1 else 0) else 0)
      && (n > 0 ==> b[3] == ["Live Detections:", NatToString(live)])
      && (n > 0 && live < n ==> b[4] == ["Spoofed Detections:", NatToString(n - live)])
      && (n > 0 && live == n ==> b[4][0] == "Average Recognition Confidence:")
      && (n == 0 ==> b[3] == [] && b[4] == ["Generated on:", generatedOn])
  {
  }

  /** Reading the exported file back gives the rows that were written. */
  lemma ExportReadsBack(rows: seq<Attendance>, date: Option<string>, period: Option<string>,
                        queryFailed: bool, avgRecognition: string, avgLiveness: string,
                        generatedOn: string)
    requires Scored(GetPeriodAttendance(rows, date, period, queryFailed))
    ensures var records := GetPeriodAttendance(rows, date, period, queryFailed);
      var csv := ExportCsv(rows, date, period, queryFailed, avgRecognition, avgLiveness, generatedOn);
      && csv.Some?
      && Csv.ParseCrlfRecords(csv.value)
         == Some(Csv.ReadBackAll(ExportRows(records, avgRecognition, avgLiveness, generatedOn)))
  {
    var records := GetPeriodAttendance(rows, date, period, queryFailed);
    Csv.WriteRowsRoundTrip(ExportRows(records, avgRecognition, avgLiveness, generatedOn));
  }

  /** Rows written by marking always carry both scores, so their export
      succeeds. */
  lemma MarkedRowsExport(rows: seq<Attendance>, date: Option<string>, period: Option<string>,
                         queryFailed: bool, avgRecognition: string, avgLiveness: string,
                         generatedOn: string)
    requires Scored(rows)
    ensures ExportCsv(rows, date, period, queryFailed, avgRecognition, avgLiveness, generatedOn).Some?
  {
    var records := GetPeriodAttendance(rows, date, period, queryFailed);
    forall i | 0 <= i < |records| ensures records[i].liveness.Some? && records[i].recognition.Some? {
      assert records[i] in records;
      var k :| 0 <= k < |rows| && rows[k] == records[i];
    }
  }
}

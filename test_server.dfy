/** The period-attendance endpoints of the small test server: the listing and
    the summary turned into JSON objects, and the export with its file name.
    The main application's export route names its file by the same rule. */
module SimpleServer {
  import opened Common
  import opened Models
  import PeriodAttendance

  /** One entry of the listing response. */
  datatype RecordJson = RecordJson(
    id: nat,
    studentId: string,
    name: string,
    date: string,
    period: string,
    time: string,
    emotion: string,
    spoofingStatus: string,
    livenessConfidence: Option<Tenths>,
    recognitionConfidence: Option<Tenths>,
    timestamp: string)

  /** Positions 0 to 10 of a listed record, field by field. */
  predicate Carries(j: RecordJson, a: Attendance) {
    && j.id == a.id && j.studentId == a.studentId && j.name == a.name && j.date == a.date
    && j.period == a.period && j.time == a.time && j.emotion == a.emotion
    && j.spoofingStatus == a.spoofStatus && j.livenessConfidence == a.liveness
    && j.recognitionConfidence == a.recognition && j.timestamp == a.timestamp
  }

  datatype Listing = Listing(success: bool, data: seq<RecordJson>, total: nat)

  /** `GET /api/period-attendance`: one entry per listed record, in listing
      order, and `total` is the number of entries. */
  method ListPeriodAttendance(rows: seq<Attendance>, date: Option<string>, period: Option<string>,
                              failed: bool)
    returns (resp: Listing)
    ensures resp.success
    ensures resp.total == |resp.data|
    ensures var records := PeriodAttendance.GetPeriodAttendance(rows, date, period, failed);
      |resp.data| == |records| && forall i :: 0 <= i < |records| ==> Carries(resp.data[i], records[i])
  {
    var records := PeriodAttendance.GetPeriodAttendance(rows, date, period, failed);
    var data: seq<RecordJson> := [];
    var i := 0;
    while i < |records|
      invariant 0 <= i <= |records|
      invariant |data| == i
      invariant forall k :: 0 <= k < i ==> Carries(data[k], records[k])
    {
      var r := records[i];
      data := data + [RecordJson(r.id, r.studentId, r.name, r.date, r.period, r.time, r.emotion,
                                 r.spoofStatus, r.liveness, r.recognition, r.timestamp)];
      i := i + 1;
    }
    resp := Listing(true, data, |data|);
  }

  datatype SummaryJson = SummaryJson(period: string, totalPresent: nat, liveCount: nat,
                                     spoofedCount: nat)

  /** `GET /api/period-attendance/summary`: one entry per summary row, in
      order, mapping positions 0 to 3. */
  method SummarizeDay(rows: seq<Attendance>, date: Option<string>, today: string, failed: bool)
    returns (data: seq<SummaryJson>)
    ensures var s := PeriodAttendance.AttendanceSummary(rows, date, today, failed);
      |data| == |s| && forall i :: 0 <= i < |s| ==>
        data[i].period == s[i].period && data[i].totalPresent == s[i].totalPresent
        && data[i].liveCount == s[i].liveCount && data[i].spoofedCount == s[i].spoofedCount
  {
    var s := PeriodAttendance.AttendanceSummary(rows, date, today, failed);
    data := [];
    var i := 0;
    while i < |s|
      invariant 0 <= i <= |s|
      invariant |data| == i
      invariant forall k :: 0 <= k < i ==>
        data[k].period == s[k].period && data[k].totalPresent == s[k].totalPresent
        && data[k].liveCount == s[k].liveCount && data[k].spoofedCount == s[k].spoofedCount
    {
      data := data + [SummaryJson(s[i].period, s[i].totalPresent, s[i].liveCount, s[i].spoofedCount)];
      i := i + 1;
    }
  }

  /** The entries of a summary on marked rows add up, as the table's rows
      did. */
  lemma SummaryEntriesAddUp(rows: seq<Attendance>, date: Option<string>, today: string,
                            data: seq<SummaryJson>)
    requires PeriodAttendance.StatusesValid(rows)
    requires var s := PeriodAttendance.AttendanceSummary(rows, date, today, false);
      |data| == |s| && forall i :: 0 <= i < |s| ==>
        data[i].totalPresent == s[i].totalPresent && data[i].liveCount == s[i].liveCount
        && data[i].spoofedCount == s[i].spoofedCount
    ensures forall i :: 0 <= i < |data| ==> data[i].liveCount + data[i].spoofedCount == data[i].totalPresent
  {
    PeriodAttendance.SummaryAddsUp(rows, date, today);
  }

  // ---------------------------------------------------------------- export

  /** A period label made file-name friendly: spaces become underscores and
      parentheses are dropped. */
  function SanitisePeriod(period: string): (r: string)
    ensures ' ' !in r && '(' !in r && ')' !in r
  {
    var a := ReplaceAll(period, " ", "_");
    var b := ReplaceAll(a, "(", "");
    ReplaceRemovesChar(period, ' ', "_");
    ReplaceKeepsAbsent(a, "(", "", ' ');
    ReplaceRemovesChar(a, '(', "");
    ReplaceKeepsAbsent(b, ")", "", ' ');
    ReplaceKeepsAbsent(b, ")", "", '(');
    ReplaceRemovesChar(b, ')', "");
    ReplaceAll(b, ")", "")
  }

  const ExportStem: string := "period_attendance"

  /** The file name the export is offered under. */
  function ExportFilenameOf(date: Option<string>, period: Option<string>): string {
    ExportStem + (if Given(date) then "_" + date.value else "")
    + (if Given(period) then "_" + SanitisePeriod(period.value) else "") + ".csv"
  }

  /** Builds the name as the route does: a list of parts joined by `_`. */
  method ExportFilename(date: Option<string>, period: Option<string>) returns (filename: string)
    ensures filename == ExportFilenameOf(date, period)
  {
    var parts := [ExportStem];
    if Given(date) {
      parts := parts + [date.value];
    }
    if Given(period) {
      parts := parts + [SanitisePeriod(period.value)];
    }
    assert parts == [ExportStem] + (if Given(date) then [date.value] else [])
                    + (if Given(period) then [SanitisePeriod(period.value)] else []);
    JoinedParts(date, period);
    filename := Join(parts, "_") + ".csv";
  }

  lemma JoinedParts(date: Option<string>, period: Option<string>)
    ensures var parts := [ExportStem] + (if Given(date) then [date.value] else [])
                         + (if Given(period) then [SanitisePeriod(period.value)] else []);
      Join(parts, "_") + ".csv" == ExportFilenameOf(date, period)
  {
    if Given(date) && Given(period) {
      var p := SanitisePeriod(period.value);
      JoinThree(ExportStem, date.value, p);
      assert ExportFilenameOf(date, period) == ExportStem + ("_" + date.value) + ("_" + p) + ".csv";
    } else if Given(date) {
      JoinTwo(ExportStem, date.value);
      assert ExportFilenameOf(date, period) == ExportStem + ("_" + date.value) + "" + ".csv";
    } else if Given(period) {
      var p := SanitisePeriod(period.value);
      JoinTwo(ExportStem, p);
      assert ExportFilenameOf(date, period) == ExportStem + "" + ("_" + p) + ".csv";
    }
  }

  lemma JoinTwo(a: string, b: string)
    ensures Join([a] + [b], "_") == a + "_" + b
  {
    assert ([a] + [b])[1..] == [b];
  }

  lemma JoinThree(a: string, b: string, c: string)
    ensures Join([a] + [b] + [c], "_") == a + "_" + b + "_" + c
  {
    assert ([a] + [b] + [c])[1..] == [b, c];
    assert [b, c][1..] == [c];
    assert Join([b, c], "_") == b + "_" + c;
    assert a + "_" + (b + "_" + c) == a + "_" + b + "_" + c;
  }

  /** The name starts with "period_attendance" and ends with ".csv"; without
      filters it is exactly "period_attendance.csv"; with a date the date
      follows the first underscore. */
  lemma FilenameShape(date: Option<string>, period: Option<string>)
    ensures StartsWith(ExportFilenameOf(date, period), "period_attendance")
    ensures EndsWith(ExportFilenameOf(date, period), ".csv")
    ensures !Given(date) && !Given(period) ==> ExportFilenameOf(date, period) == "period_attendance.csv"
    ensures Given(date) ==> StartsWith(ExportFilenameOf(date, period), "period_attendance_" + date.value)
  {
    var x := if Given(date) then "_" + date.value else "";
    var y := if Given(period) then "_" + SanitisePeriod(period.value) else "";
    NameShape(x, y);
    if Given(date) {
      DatedNameShape(date.value, y);
    }
  }

  lemma NameShape(x: string, y: string)
    ensures StartsWith("period_attendance" + x + y + ".csv", "period_attendance")
    ensures EndsWith("period_attendance" + x + y + ".csv", ".csv")
  {
    var f := "period_attendance" + x + y + ".csv";
    assert f == "period_attendance" + (x + y + ".csv");
    PrefixOfConcat("period_attendance", x + y + ".csv");
    SuffixOfConcat("period_attendance" + x + y, ".csv");
  }

  lemma DatedNameShape(d: string, y: string)
    ensures StartsWith("period_attendance" + ("_" + d) + y + ".csv", "period_attendance_" + d)
  {
    assert "period_attendance" + ("_" + d) + y + ".csv" == ("period_attendance_" + d) + (y + ".csv");
    PrefixOfConcat("period_attendance_" + d, y + ".csv");
  }

  /** A file name names the date it was built from: two different dates never
      give the same name for the same period filter. */
  lemma FilenameDistinguishesDates(d1: string, d2: string, period: Option<string>)
    requires d1 != "" && d2 != "" && d1 != d2
    ensures ExportFilenameOf(Some(d1), period) != ExportFilenameOf(Some(d2), period)
  {
    var f1, f2 := ExportFilenameOf(Some(d1), period), ExportFilenameOf(Some(d2), period);
    if |d1| == |d2| {
      var k :| 0 <= k < |d1| && d1[k] != d2[k];
      assert f1[18 + k] == d1[k];
      assert f2[18 + k] == d2[k];
    }
  }

  datatype ExportResponse =
    | ExportFailed(status: int, success: bool, message: string)
    | ExportFile(content: string, mimetype: string, filename: string)

  /** `GET /api/period-attendance/export`: status 500 when the CSV could not
      be generated, otherwise the CSV text offered as a file. */
  method Export(rows: seq<Attendance>, date: Option<string>, period: Option<string>,
                queryFailed: bool, avgRecognition: string, avgLiveness: string, generatedOn: string)
    returns (resp: ExportResponse)
    ensures var csv := PeriodAttendance.ExportCsv(rows, date, period, queryFailed, avgRecognition,
                                                  avgLiveness, generatedOn);
      && (csv.None? <==> resp == ExportFailed(500, false, "Failed to generate CSV"))
      && (csv.Some? ==> resp == ExportFile(csv.value, "text/csv", ExportFilenameOf(date, period)))
  {
    var csv := PeriodAttendance.WriteExport(rows, date, period, queryFailed, avgRecognition,
                                            avgLiveness, generatedOn);
    if csv.None? {
      return ExportFailed(500, false, "Failed to generate CSV");
    }
    var filename := ExportFilename(date, period);
    return ExportFile(csv.value, "text/csv", filename);
  }
}

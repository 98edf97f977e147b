/** The student dashboard: the attendance report it offers as a CSV file and
    the thresholds that colour and label the attendance percentage.

    The report quotes every field, doubles inner quotes, joins fields with
    `,` and lines with LF, and starts with a byte order mark; the lemma
    `ReportReadsBack` reads such a file back. The percentage is a whole
    number here. */
module StudentDashboard {
  import opened Common
  import Csv

  datatype Status = Present | Absent | Holiday

  function StatusName(s: Status): string {
    match s
    case Present => "present"
    case Absent => "absent"
    case Holiday => "holiday"
  }

  datatype AttendanceRecord = AttendanceRecord(date: string, status: Status, subject: Option<string>)

  datatype StudentStats = StudentStats(
    attendancePercentage: int,
    totalDays: int,
    presentDays: int,
    absentDays: int,
    rank: int,
    attendanceRecords: Option<seq<AttendanceRecord>>)

  /** The first character upper-cased, the rest unchanged. */
  function Capitalise(s: string): (r: string)
    ensures |r| == |s|
    ensures |s| > 0 ==> r[0] == AsciiUpper(s[0]) && r[1..] == s[1..]
  {
    if |s| == 0 then "" else [AsciiUpper(s[0])] + s[1..]
  }

  lemma StatusTexts()
    ensures Capitalise(StatusName(Present)) == "Present"
    ensures Capitalise(StatusName(Absent)) == "Absent"
    ensures Capitalise(StatusName(Holiday)) == "Holiday"
  {
    assert AsciiUpper('p') == 'P' && AsciiUpper('a') == 'A' && AsciiUpper('h') == 'H';
  }

  /** One line of the detailed section: the date, the capitalised status and
      the subject, 'N/A' when it is missing or empty. */
  function DetailRow(r: AttendanceRecord): seq<string> {
    [r.date, Capitalise(StatusName(r.status)), if Given(r.subject) then r.subject.value else "N/A"]
  }

  function DetailRows(records: seq<AttendanceRecord>): (rows: seq<seq<string>>)
    ensures |rows| == |records|
    ensures forall i :: 0 <= i < |records| ==> rows[i] == DetailRow(records[i])
  {
    if |records| == 0 then [] else [DetailRow(records[0])] + DetailRows(records[1..])
  }

  const ReportHeader: seq<string> := ["Date", "Status", "Subject"]

  /** The report's rows: title, generation date, a blank line, the summary of
      five rows under its heading, a blank line, the heading and header of the
      detailed section, then one row per record in order. */
  function ReportRows(stats: StudentStats, generatedOn: string): (rows: seq<seq<string>>)
    ensures |rows| == 12 + (if stats.attendanceRecords.Some? then |stats.attendanceRecords.value| else 0)
    ensures rows[0] == ["Student Attendance Report"] && rows[1] == ["Generated on", generatedOn]
    ensures rows[2] == [] && rows[3] == ["Summary"] && rows[9] == []
    ensures rows[4] == ["Attendance Percentage", IntToString(stats.attendancePercentage) + "%"]
    ensures rows[5] == ["Total Days", IntToString(stats.totalDays)]
    ensures rows[6] == ["Present Days", IntToString(stats.presentDays)]
    ensures rows[7] == ["Absent Days", IntToString(stats.absentDays)]
    ensures rows[8] == ["Rank", "#" + IntToString(stats.rank)]
    ensures rows[10] == ["Detailed Attendance"] && rows[11] == ReportHeader
    ensures stats.attendanceRecords.Some? ==> forall i :: 0 <= i < |stats.attendanceRecords.value| ==>
      rows[12 + i] == DetailRow(stats.attendanceRecords.value[i])
  {
    var records := if stats.attendanceRecords.Some? then stats.attendanceRecords.value else [];
    [["Student Attendance Report"],
     ["Generated on", generatedOn],
     [],
     ["Summary"],
     ["Attendance Percentage", IntToString(stats.attendancePercentage) + "%"],
     ["Total Days", IntToString(stats.totalDays)],
     ["Present Days", IntToString(stats.presentDays)],
     ["Absent Days", IntToString(stats.absentDays)],
     ["Rank", "#" + IntToString(stats.rank)],
     [],
     ["Detailed Attendance"],
     ReportHeader]
    + DetailRows(records)
  }

  /** `downloadReport`: nothing without stats; otherwise the file's text. */
  function DownloadReport(stats: Option<StudentStats>, generatedOn: string): (content: Option<string>)
    ensures stats.None? <==> content.None?
    ensures content.Some? ==> |content.value| > 0 && content.value[0] == Csv.ByteOrderMark
  {
    match stats
    case None => None
    case Some(s) => Some([Csv.ByteOrderMark] + Csv.QuoteAllLines(ReportRows(s, generatedOn)))
  }

  /** Reading the file after its byte order mark gives back every row of the
      report, blank lines as one empty field. */
  lemma ReportReadsBack(stats: StudentStats, generatedOn: string)
    ensures var content := DownloadReport(Some(stats), generatedOn).value;
      Csv.ParseLfLines(content[1..]) == Some(Csv.ReadBackAll(ReportRows(stats, generatedOn)))
  {
    var rows := ReportRows(stats, generatedOn);
    var content := DownloadReport(Some(stats), generatedOn).value;
    assert content[1..] == Csv.QuoteAllLines(rows);
    Csv.QuoteAllLinesRoundTrip(rows);
  }

  // ---------------------------------------------------------------- thresholds

  function AttendanceColour(percentage: int): (c: string)
    ensures c == "text-success" <==> percentage >= 90
    ensures c == "text-warning" <==> 75 <= percentage < 90
    ensures c == "text-destructive" <==> percentage < 75
  {
    if percentage >= 90 then "text-success"
    else if percentage >= 75 then "text-warning"
    else "text-destructive"
  }

  function AttendanceStatus(percentage: int): (s: string)
    ensures s == "Excellent" <==> percentage >= 90
    ensures s == "Good" <==> 75 <= percentage < 90
    ensures s == "Needs Improvement" <==> percentage < 75
  {
    if percentage >= 90 then "Excellent"
    else if percentage >= 75 then "Good"
    else "Needs Improvement"
  }

  /** The target line: the percentage, 0 without stats, against 75. */
  function TargetMet(stats: Option<StudentStats>): (met: bool)
    ensures met <==> stats.Some? && stats.value.attendancePercentage >= 75
  {
    (if stats.Some? then stats.value.attendancePercentage else 0) >= 75
  }

  /** The label, the colour and the target line agree: the target is met
      exactly when the label is not "Needs Improvement", and the colour
      follows the label. */
  lemma ThresholdsAgree(stats: StudentStats)
    ensures var p := stats.attendancePercentage;
      && (TargetMet(Some(stats)) <==> AttendanceStatus(p) != "Needs Improvement")
      && (AttendanceStatus(p) == "Excellent" <==> AttendanceColour(p) == "text-success")
      && (AttendanceStatus(p) == "Good" <==> AttendanceColour(p) == "text-warning")
  {
  }
}

/** The period attendance manager: loading the records of the selected date
    and period, the preview count of the export, and the export with its
    guard, its file name and its messages.

    The calls to the server are parameters: each handler receives what its
    call resolved to, or the message it was rejected with. The demo data
    shown while the server is unreachable is random; it is a parameter too. */
module PeriodManager {
  import opened Common
  import SimpleServer
  import CameraAttendance

  datatype Toast = Toast(kind: string, title: string, message: string)

  /** The body of a listing response: `data` and `total` may be absent. */
  datatype ListingBody = ListingBody(success: bool, data: Option<seq<SimpleServer.RecordJson>>,
                                     total: Option<nat>)

  datatype SummaryBody = SummaryBody(success: bool, data: Option<seq<SimpleServer.SummaryJson>>)

  /** The export as the browser sees it: `None` is a null blob, otherwise the
      file's text. */
  type ExportBlob = Option<string>

  /** The same six period labels as on the camera page. */
  const Periods: seq<string> := CameraAttendance.Periods

  /** The period part of the file name: the first two space-separated words
      joined by `_`; a label with one word yields its second word as the text
      "undefined". */
  function PeriodName(period: string): string {
    var words := Split(period, " ");
    words[0] + "_" + (if |words| > 1 then words[1] else "undefined")
  }

  /** The name the export is saved under. */
  function ExportFileNameOf(date: string, period: string): string {
    "attendance_" + date + (if period != "" then "_" + PeriodName(period) else "_all_periods") + ".csv"
  }

  /** The file name, built by successive appends. */
  method ExportFileName(date: string, period: string) returns (filename: string)
    ensures filename == ExportFileNameOf(date, period)
  {
    filename := "attendance";
    filename := filename + "_" + date;
    if period != "" {
      var words := Split(period, " ");
      var periodName := words[0] + "_" + (if |words| > 1 then words[1] else "undefined");
      filename := filename + "_" + periodName;
    } else {
      filename := filename + "_all_periods";
    }
    filename := filename + ".csv";
  }

  /** For a label "<a> <b> <rest>" whose first two words have no space, the
      period part is "<a>_<b>". */
  lemma PeriodNameOfLabel(a: string, b: string, rest: string)
    requires ' ' !in a && ' ' !in b
    ensures PeriodName(a + " " + b + " " + rest) == a + "_" + b
  {
    var t := b + " " + rest;
    assert a + " " + b + " " + rest == a + " " + t;
    forall j: nat | j < |a| ensures !OccursAt(a + " " + t, " ", j) {
      assert (a + " " + t)[j..j + 1] == [a[j]];
    }
    SplitAtFirst(a, " ", t);
    forall j: nat | j < |b| ensures !OccursAt(b + " " + rest, " ", j) {
      assert (b + " " + rest)[j..j + 1] == [b[j]];
    }
    SplitAtFirst(b, " ", rest);
  }

  /** A one-word period, such as a label typed without a space, names the
      file with "_undefined". */
  lemma OneWordPeriod(p: string)
    requires ' ' !in p
    ensures PeriodName(p) == p + "_undefined"
  {
    SplitCharAbsent(p, ' ');
  }

  /** A label "<ordinal> Period <hours>" names its file by the ordinal and
      "Period". */
  lemma LabelFileName(date: string, ordinal: string, hours: string)
    requires ' ' !in ordinal
    ensures ExportFileNameOf(date, ordinal + " Period " + hours)
            == "attendance_" + date + "_" + ordinal + "_Period.csv"
  {
    assert ordinal + " Period " + hours == ordinal + " " + "Period" + " " + hours;
    PeriodNameOfLabel(ordinal, "Period", hours);
  }

  /** The file names of two different dates differ, whatever the period. */
  lemma FileNamesDistinguishDates(d1: string, d2: string, period: string)
    requires d1 != d2
    ensures ExportFileNameOf(d1, period) != ExportFileNameOf(d2, period)
  {
    if |d1| == |d2| {
      var k :| 0 <= k < |d1| && d1[k] != d2[k];
      assert ExportFileNameOf(d1, period)[11 + k] == d1[k];
      assert ExportFileNameOf(d2, period)[11 + k] == d2[k];
    }
  }

  const DateRequiredToast: Toast := Toast("warning", "Date Required", "Please select a date for download")
  const ServerErrorToast: Toast :=
    Toast("error", "Server Error", "Cannot connect to server. Please ensure the backend is running on port 5001.")
  const NoDataMessage: string := "No data received from server"
  /** What an empty export shows (see `NoDataIsDownloadFailure`). */
  const NoDataToast: Toast := Toast("error", "Download Failed", NoDataMessage)

  /** The toast for a saved export, naming the date and the period (or all
      periods). */
  function DownloadToast(date: string, period: string): (t: Toast)
    ensures t.kind == "success" && t.title == "Download Complete"
  {
    Toast("success", "Download Complete",
          "Attendance for " + date + " (" + (if period != "" then period else "all periods")
          + ") downloaded successfully")
  }

  /** The toast for a failed export: a message mentioning "fetch" is a
      connection failure. */
  function ExportFailureToast(message: string): (t: Toast)
    ensures Contains(message, "fetch") ==> t == ServerErrorToast
    ensures !Contains(message, "fetch") ==> t.kind == "error" && t.title == "Download Failed"
    ensures !Contains(message, "fetch") && message != "" ==> t.message == message
  {
    if Contains(message, "fetch") then ServerErrorToast
    else Toast("error", "Download Failed", if message != "" then message else "Failed to download attendance data")
  }

  /** An empty blob's message does not mention "fetch": it reports a failed
      download, not a connection problem. */
  lemma NoDataIsDownloadFailure(message: string)
    requires message == NoDataMessage
    ensures ExportFailureToast(message) == NoDataToast
  {
    forall i | 0 <= i < |message| - 1 && message[i] == 'f' ensures message[i + 1] != 'e' {
      assert i == 17;
    }
    NoFetch(message);
  }

  lemma NoFetch(s: string)
    requires forall i :: 0 <= i < |s| - 1 && s[i] == 'f' ==> s[i + 1] != 'e'
    ensures !Contains(s, "fetch")
  {
    forall i: nat ensures !OccursAt(s, "fetch", i) {
      if i + 5 <= |s| {
        assert s[i..i + 5][0] == s[i] && s[i..i + 5][1] == s[i + 1];
      }
    }
    ContainsIff(s, "fetch");
  }

  class ManagerPage {
    var selectedDate: string
    var selectedPeriod: string
    var attendanceRecords: seq<SimpleServer.RecordJson>
    var attendanceSummary: seq<SimpleServer.SummaryJson>
    var isLoading: bool
    var isExporting: bool
    var downloadDate: string
    var downloadPeriod: string
    var previewCount: nat
    var previewLoading: bool
    var serverError: bool
    var toasts: seq<Toast>
    /** The exports requested, as (date, period). */
    var exportRequests: seq<(string, string)>
    /** The files saved, as (file name, content). */
    var downloads: seq<(string, string)>

    constructor(today: string)
      ensures selectedDate == today && selectedPeriod == "" && attendanceRecords == []
      ensures attendanceSummary == [] && !isLoading && !isExporting
      ensures downloadDate == today && downloadPeriod == "" && previewCount == 0 && !previewLoading
      ensures !serverError && toasts == [] && exportRequests == [] && downloads == []
    {
      selectedDate := today;
      selectedPeriod := "";
      attendanceRecords := [];
      attendanceSummary := [];
      isLoading := false;
      isExporting := false;
      downloadDate := today;
      downloadPeriod := "";
      previewCount := 0;
      previewLoading := false;
      serverError := false;
      toasts := [];
      exportRequests := [];
      downloads := [];
    }

    /** `loadAttendanceData`: a successful response replaces the records by
        its data (or nothing) and clears the server error; an unsuccessful
        one empties them; a rejected call shows the demo records and flags
        the server error. Loading is over afterwards. */
    method LoadAttendanceData(outcome: Result<ListingBody>, demo: seq<SimpleServer.RecordJson>)
      modifies this
      ensures !isLoading
      ensures outcome.Ok? && outcome.value.success ==>
        attendanceRecords == outcome.value.data.GetOr([]) && !serverError
      ensures outcome.Ok? && !outcome.value.success ==>
        attendanceRecords == [] && serverError == old(serverError)
      ensures outcome.Err? ==> attendanceRecords == demo && serverError
      ensures selectedDate == old(selectedDate) && selectedPeriod == old(selectedPeriod)
      ensures attendanceSummary == old(attendanceSummary) && isExporting == old(isExporting)
      ensures downloadDate == old(downloadDate) && downloadPeriod == old(downloadPeriod)
      ensures previewCount == old(previewCount) && previewLoading == old(previewLoading)
      ensures toasts == old(toasts) && exportRequests == old(exportRequests) && downloads == old(downloads)
    {
      isLoading := true;
      match outcome {
        case Ok(response) =>
          if response.success {
            attendanceRecords := response.data.GetOr([]);
            serverError := false;
          } else {
            attendanceRecords := [];
          }
        case Err(_) =>
          attendanceRecords := demo;
          serverError := true;
      }
      isLoading := false;
    }

    /** `loadAttendanceSummary`, with the same three outcomes. */
    method LoadAttendanceSummary(outcome: Result<SummaryBody>, demo: seq<SimpleServer.SummaryJson>)
      modifies this
      ensures outcome.Ok? && outcome.value.success ==> attendanceSummary == outcome.value.data.GetOr([])
      ensures outcome.Ok? && !outcome.value.success ==> attendanceSummary == []
      ensures outcome.Err? ==> attendanceSummary == demo
      ensures attendanceRecords == old(attendanceRecords) && serverError == old(serverError)
      ensures isLoading == old(isLoading) && isExporting == old(isExporting)
      ensures previewCount == old(previewCount) && previewLoading == old(previewLoading)
      ensures toasts == old(toasts) && exportRequests == old(exportRequests) && downloads == old(downloads)
      ensures selectedDate == old(selectedDate) && selectedPeriod == old(selectedPeriod)
      ensures downloadDate == old(downloadDate) && downloadPeriod == old(downloadPeriod)
    {
      match outcome {
        case Ok(response) =>
          if response.success {
            attendanceSummary := response.data.GetOr([]);
          } else {
            attendanceSummary := [];
          }
        case Err(_) =>
          attendanceSummary := demo;
      }
    }

    /** `loadDownloadPreview`: skipped without a download date; otherwise the
        count is the response's total (or 0) on success, 0 on an
        unsuccessful response and the demo count when the call is
        rejected. */
    method LoadDownloadPreview(outcome: Result<ListingBody>, demoCount: nat)
      modifies this
      ensures downloadDate == "" ==> previewCount == old(previewCount) && previewLoading == old(previewLoading)
      ensures downloadDate != "" ==> !previewLoading
      ensures downloadDate != "" && outcome.Ok? && outcome.value.success ==>
        previewCount == outcome.value.total.GetOr(0)
      ensures downloadDate != "" && outcome.Ok? && !outcome.value.success ==> previewCount == 0
      ensures downloadDate != "" && outcome.Err? ==> previewCount == demoCount
      ensures downloadDate == old(downloadDate) && downloadPeriod == old(downloadPeriod)
      ensures attendanceRecords == old(attendanceRecords) && serverError == old(serverError)
      ensures isLoading == old(isLoading) && isExporting == old(isExporting)
      ensures toasts == old(toasts) && exportRequests == old(exportRequests) && downloads == old(downloads)
      ensures selectedDate == old(selectedDate) && selectedPeriod == old(selectedPeriod)
      ensures attendanceSummary == old(attendanceSummary)
    {
      if downloadDate == "" {
        return;
      }
      previewCount, previewLoading := 0, true;
      match outcome {
        case Ok(response) =>
          if response.success {
            previewCount := response.total.GetOr(0);
          } else {
            previewCount := 0;
          }
        case Err(_) =>
          previewCount := demoCount;
      }
      previewLoading := false;
    }

    /** `handleExport`. Without a download date it only warns and requests
        nothing. Otherwise one export is requested; a null or empty file is
        a failure; a file is saved under `ExportFileNameOf`; and exporting
        is over afterwards whatever the outcome. */
    method HandleExport(outcome: Result<ExportBlob>)
      modifies this
      ensures downloadDate == old(downloadDate) && downloadPeriod == old(downloadPeriod)
      ensures old(downloadDate) == "" ==>
        && toasts == old(toasts) + [DateRequiredToast] && exportRequests == old(exportRequests)
        && downloads == old(downloads) && isExporting == old(isExporting)
      ensures old(downloadDate) != "" ==>
        && !isExporting
        && exportRequests == old(exportRequests) + [(downloadDate, downloadPeriod)]
        && match outcome
           case Ok(Some(content)) =>
             if content != "" then
               && downloads == old(downloads) + [(ExportFileNameOf(downloadDate, downloadPeriod), content)]
               && toasts == old(toasts) + [DownloadToast(downloadDate, downloadPeriod)]
             else
               downloads == old(downloads) && toasts == old(toasts) + [NoDataToast]
           case Ok(None) =>
             downloads == old(downloads) && toasts == old(toasts) + [NoDataToast]
           case Err(message) =>
             downloads == old(downloads) && toasts == old(toasts) + [ExportFailureToast(message)]
      ensures attendanceRecords == old(attendanceRecords) && serverError == old(serverError)
      ensures previewCount == old(previewCount) && isLoading == old(isLoading)
      ensures selectedDate == old(selectedDate) && selectedPeriod == old(selectedPeriod)
      ensures attendanceSummary == old(attendanceSummary) && previewLoading == old(previewLoading)
    {
      if downloadDate == "" {
        toasts := toasts + [DateRequiredToast];
        return;
      }
      isExporting := true;
      exportRequests := exportRequests + [(downloadDate, downloadPeriod)];
      // An empty file is thrown as `NoDataMessage` into the same catch as a
      // failed request.
      match outcome {
        case Ok(blob) =>
          if blob.None? || blob.value == "" {
            // the catch's toast for `NoDataMessage` (`NoDataIsDownloadFailure`)
            toasts := toasts + [NoDataToast];
          } else {
            var filename := ExportFileName(downloadDate, downloadPeriod);
            downloads := downloads + [(filename, blob.value)];
            toasts := toasts + [DownloadToast(downloadDate, downloadPeriod)];
          }
        case Err(message) =>
          toasts := toasts + [ExportFailureToast(message)];
      }
      isExporting := false;
    }
  }
}

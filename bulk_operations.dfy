/** The bulk operations panel: choosing a CSV file for bulk enrolment,
    sending it, and the bulk export and attendance buttons. The owner's
    callbacks are recorded as the calls they receive; whether the enrolment
    callback resolves is a parameter. */
module BulkOperations {
  import opened Common

  /** The part of a chosen file the panel looks at. */
  datatype FileInfo = FileInfo(name: string, mime: string)

  /** A file is accepted when its type is `text/csv` or its name ends in
      `.csv` (lower case). */
  predicate AcceptsCsv(f: FileInfo) {
    f.mime == "text/csv" || EndsWith(f.name, ".csv")
  }

  /** Any name ending in `.csv` is accepted, whatever type the browser gives. */
  lemma CsvNameAccepted(stem: string, mime: string)
    ensures AcceptsCsv(FileInfo(stem + ".csv", mime))
  {
    SuffixOfConcat(stem, ".csv");
  }

  /** A file whose type is not `text/csv` and whose name does not end in `v`
      is refused. */
  lemma OtherFileRefused(f: FileInfo)
    requires f.mime != "text/csv"
    requires |f.name| == 0 || f.name[|f.name| - 1] != 'v'
    ensures !AcceptsCsv(f)
  {
    if |f.name| >= 4 {
      assert f.name[|f.name| - 4..][3] != ".csv"[3];
    }
  }

  const AllPresent: seq<string> := ["all-present"]
  const AllAbsent: seq<string> := ["all-absent"]

  class BulkPanel {
    var selectedFile: Option<FileInfo>
    var isProcessing: bool
    /** The files handed to the enrolment callback. */
    var enrolCalls: seq<FileInfo>
    /** The lists handed to the attendance callback. */
    var attendanceCalls: seq<seq<string>>
    var exportCalls: nat

    constructor()
      ensures selectedFile.None? && !isProcessing
      ensures enrolCalls == [] && attendanceCalls == [] && exportCalls == 0
    {
      selectedFile := None;
      isProcessing := false;
      enrolCalls := [];
      attendanceCalls := [];
      exportCalls := 0;
    }

    /** `handleFileUpload`: the first chosen file, if any, becomes the
        selection when it is accepted; otherwise the selection stays. */
    method HandleFileUpload(file: Option<FileInfo>)
      modifies this
      ensures file.Some? && AcceptsCsv(file.value) ==> selectedFile == file
      ensures !(file.Some? && AcceptsCsv(file.value)) ==> selectedFile == old(selectedFile)
      ensures isProcessing == old(isProcessing) && enrolCalls == old(enrolCalls)
      ensures attendanceCalls == old(attendanceCalls) && exportCalls == old(exportCalls)
    {
      if file.Some? && AcceptsCsv(file.value) {
        selectedFile := file;
      }
    }

    /** `processBulkEnroll`: nothing without a selection; otherwise the file
        is handed to the callback once, the selection is cleared only when the
        callback resolves, and processing is over either way. */
    method ProcessBulkEnroll(resolves: bool)
      modifies this
      ensures old(selectedFile).None? ==>
        selectedFile == old(selectedFile) && isProcessing == old(isProcessing) && enrolCalls == old(enrolCalls)
      ensures old(selectedFile).Some? ==>
        && enrolCalls == old(enrolCalls) + [old(selectedFile).value]
        && !isProcessing
        && (resolves ==> selectedFile.None?)
        && (!resolves ==> selectedFile == old(selectedFile))
      ensures attendanceCalls == old(attendanceCalls) && exportCalls == old(exportCalls)
    {
      if selectedFile.None? {
        return;
      }
      isProcessing := true;
      enrolCalls := enrolCalls + [selectedFile.value];
      if resolves {
        selectedFile := None;
      }
      isProcessing := false;
    }

    /** The "All Present" button. */
    method MarkAllPresent()
      modifies this
      ensures attendanceCalls == old(attendanceCalls) + [AllPresent]
      ensures selectedFile == old(selectedFile) && isProcessing == old(isProcessing)
      ensures enrolCalls == old(enrolCalls) && exportCalls == old(exportCalls)
    {
      attendanceCalls := attendanceCalls + [AllPresent];
    }

    /** The "All Absent" button. */
    method MarkAllAbsent()
      modifies this
      ensures attendanceCalls == old(attendanceCalls) + [AllAbsent]
      ensures selectedFile == old(selectedFile) && isProcessing == old(isProcessing)
      ensures enrolCalls == old(enrolCalls) && exportCalls == old(exportCalls)
    {
      attendanceCalls := attendanceCalls + [AllAbsent];
    }

    /** The "Export All Data" button. */
    method ExportAll()
      modifies this
      ensures exportCalls == old(exportCalls) + 1
      ensures selectedFile == old(selectedFile) && isProcessing == old(isProcessing)
      ensures enrolCalls == old(enrolCalls) && attendanceCalls == old(attendanceCalls)
    {
      exportCalls := exportCalls + 1;
    }
  }
}

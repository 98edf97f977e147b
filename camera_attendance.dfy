/** The camera attendance page: the camera stream, the facing mode, one scan
    that sends the captured frame for recognition, the list of students who
    were already marked and the colour of each result card.

    The browser is abstracted: the camera's tracks are an array of "live"
    flags, and what the canvas, the blob encoder and the recognition call
    produce are parameters of the handlers. Toasts are recorded in order. */
module CameraAttendance {
  import opened Common

  datatype FacingMode = User | Environment

  /** One face of a recognition response; an absent `attendanceAlreadyMarked`
      is `false`. */
  datatype DetectedFace = DetectedFace(
    name: string,
    rollNumber: string,
    spoofed: bool,
    emotion: string,
    attendanceMarked: bool,
    attendanceAlreadyMarked: bool)

  /** The parsed body of a successful recognition call. */
  datatype ScanResult = ScanResult(success: bool, detectedFaces: seq<DetectedFace>)

  datatype Toast = Toast(kind: string, title: string, message: string)

  datatype CardColour = Red | Yellow | Green

  /** The six period labels the page offers. */
  const Periods: seq<string> := [
    "1st Period (9:00-10:00)",
    "2nd Period (10:00-11:00)",
    "3rd Period (11:00-12:00)",
    "4th Period (12:00-1:00)",
    "5th Period (2:00-3:00)",
    "6th Period (3:00-4:00)"
  ]

  function Flipped(m: FacingMode): (r: FacingMode)
    ensures r != m
  {
    if m == User then Environment else User
  }

  /** Switching the camera twice restores the facing mode. */
  lemma FlipTwice(m: FacingMode)
    ensures Flipped(Flipped(m)) == m
  {
  }

  /** How an already-marked student is listed. */
  function Label(f: DetectedFace): string {
    f.name + " (" + f.rollNumber + ")"
  }

  /** The faces flagged as already marked, labelled, in response order. */
  function AlreadyMarked(faces: seq<DetectedFace>): (r: seq<string>)
    ensures |r| <= |faces|
    ensures forall i :: 0 <= i < |faces| && faces[i].attendanceAlreadyMarked ==> Label(faces[i]) in r
    ensures forall s :: s in r ==> exists i :: 0 <= i < |faces| && faces[i].attendanceAlreadyMarked && s == Label(faces[i])
    ensures r == [] <==> forall i :: 0 <= i < |faces| ==> !faces[i].attendanceAlreadyMarked
  {
    if |faces| == 0 then []
    else
      var rest := AlreadyMarked(faces[1..]);
      assert forall i :: 1 <= i < |faces| ==> faces[i] == faces[1..][i - 1];
      if faces[0].attendanceAlreadyMarked then [Label(faces[0])] + rest else rest
  }

  /** The list keeps response order: the list for two batches is the list
      for the first followed by the list for the second. */
  lemma {:induction false} AlreadyMarkedAppend(a: seq<DetectedFace>, b: seq<DetectedFace>)
    ensures AlreadyMarked(a + b) == AlreadyMarked(a) + AlreadyMarked(b)
    decreases |a|
  {
    if |a| == 0 {
      assert a + b == b;
    } else {
      assert (a + b)[1..] == a[1..] + b;
      AlreadyMarkedAppend(a[1..], b);
    }
  }

  /** A spoofed face is red whatever else holds; otherwise an already-marked
      face is yellow; every other face is green. */
  function CardColourOf(f: DetectedFace): (c: CardColour)
    ensures c == Red <==> f.spoofed
    ensures c == Yellow <==> !f.spoofed && f.attendanceAlreadyMarked
    ensures c == Green <==> !f.spoofed && !f.attendanceAlreadyMarked
  {
    if f.spoofed then Red else if f.attendanceAlreadyMarked then Yellow else Green
  }

  const SelectPeriodToast: Toast := Toast("warning", "Select Period", "Please select a class period")
  const NoFacesToast: Toast := Toast("info", "No Faces", "No students detected")
  const CameraReadyToast: Toast := Toast("success", "Camera Ready", "You can start scanning")

  class CameraPage {
    var isStreamActive: bool
    var isScanning: bool
    var detectedFaces: seq<DetectedFace>
    var currentPeriod: string
    var attendanceDate: string
    var showAlreadyMarkedDialog: bool
    var alreadyMarkedStudents: seq<string>
    var facingMode: FacingMode
    /** The video element's stream: one "live" flag per track, `null` when
        no stream is attached. */
    var stream: array?<bool>
    var toasts: seq<Toast>
    /** The recognition requests sent, as (period, date). */
    var requests: seq<(string, string)>

    constructor(today: string)
      ensures !isStreamActive && !isScanning && detectedFaces == []
      ensures currentPeriod == "" && attendanceDate == today
      ensures !showAlreadyMarkedDialog && alreadyMarkedStudents == []
      ensures facingMode == User && stream == null && toasts == [] && requests == []
    {
      isStreamActive := false;
      isScanning := false;
      detectedFaces := [];
      currentPeriod := "";
      attendanceDate := today;
      showAlreadyMarkedDialog := false;
      alreadyMarkedStudents := [];
      facingMode := User;
      stream := null;
      toasts := [];
      requests := [];
    }

    /** `startCamera`: `media` is what the camera request and `play()` give,
        a stream or the error message; `hasVideo` whether the video element
        is mounted. */
    method StartCamera(media: Result<array<bool>>, hasVideo: bool)
      modifies this
      ensures media.Err? ==>
        toasts == old(toasts) + [Toast("error", "Camera Error", media.message)]
        && isStreamActive == old(isStreamActive) && stream == old(stream)
      ensures media.Ok? && hasVideo ==>
        stream == media.value && isStreamActive && toasts == old(toasts) + [CameraReadyToast]
      ensures media.Ok? && !hasVideo ==>
        stream == old(stream) && isStreamActive == old(isStreamActive) && toasts == old(toasts)
      ensures isScanning == old(isScanning) && detectedFaces == old(detectedFaces)
      ensures facingMode == old(facingMode) && requests == old(requests)
      ensures currentPeriod == old(currentPeriod) && attendanceDate == old(attendanceDate)
      ensures showAlreadyMarkedDialog == old(showAlreadyMarkedDialog)
      ensures alreadyMarkedStudents == old(alreadyMarkedStudents)
    {
      match media
      case Err(message) =>
        toasts := toasts + [Toast("error", "Camera Error", message)];
      case Ok(s) =>
        if hasVideo {
          stream := s;
          isStreamActive := true;
          toasts := toasts + [CameraReadyToast];
        }
    }

    /** `stopCamera`: every track of the attached stream is stopped, the
        stream is detached, and the page shows no stream, no faces and no
        scan in progress. */
    method StopCamera()
      modifies this, stream
      ensures old(stream) != null ==> forall i :: 0 <= i < old(stream).Length ==> !old(stream)[i]
      ensures stream == null
      ensures !isStreamActive && detectedFaces == [] && !isScanning
      ensures facingMode == old(facingMode) && toasts == old(toasts) && requests == old(requests)
      ensures currentPeriod == old(currentPeriod) && attendanceDate == old(attendanceDate)
      ensures showAlreadyMarkedDialog == old(showAlreadyMarkedDialog)
      ensures alreadyMarkedStudents == old(alreadyMarkedStudents)
    {
      if stream != null {
        var tracks := stream;
        var i := 0;
        while i < tracks.Length
          invariant 0 <= i <= tracks.Length
          invariant forall k :: 0 <= k < i ==> !tracks[k]
          modifies tracks
        {
          tracks[i] := false;
          i := i + 1;
        }
        stream := null;
      }
      isStreamActive := false;
      detectedFaces := [];
      isScanning := false;
    }

    /** `toggleCamera`: flips the facing mode and stops the camera; the
        restart the page schedules is a later `StartCamera`. */
    method ToggleCamera()
      modifies this, stream
      ensures facingMode == Flipped(old(facingMode))
      ensures old(stream) != null ==> forall i :: 0 <= i < old(stream).Length ==> !old(stream)[i]
      ensures stream == null && !isStreamActive && detectedFaces == [] && !isScanning
      ensures toasts == old(toasts) && requests == old(requests)
    {
      facingMode := Flipped(facingMode);
      StopCamera();
    }

    /** `startScanning`. Without a period it only warns. Without the video
        and canvas elements it does nothing. Once the scan has started, a
        missing drawing context returns with the scan still shown as in
        progress; a missing blob ends it. Otherwise one recognition request
        is sent and its `outcome` handled, and the scan ends whatever that
        outcome. */
    method StartScanning(hasVideoAndCanvas: bool, hasContext: bool, blobProduced: bool,
                         outcome: Result<ScanResult>)
      modifies this
      ensures currentPeriod == old(currentPeriod) && attendanceDate == old(attendanceDate)
      ensures facingMode == old(facingMode) && stream == old(stream)
      ensures isStreamActive == old(isStreamActive)
      ensures currentPeriod == "" ==>
        && toasts == old(toasts) + [SelectPeriodToast] && requests == old(requests)
        && isScanning == old(isScanning) && detectedFaces == old(detectedFaces)
      ensures currentPeriod != "" && !hasVideoAndCanvas ==>
        && toasts == old(toasts) && requests == old(requests)
        && isScanning == old(isScanning) && detectedFaces == old(detectedFaces)
      ensures currentPeriod != "" && hasVideoAndCanvas && !hasContext ==>
        isScanning && detectedFaces == [] && requests == old(requests) && toasts == old(toasts)
      ensures currentPeriod != "" && hasVideoAndCanvas && hasContext && !blobProduced ==>
        !isScanning && detectedFaces == [] && requests == old(requests) && toasts == old(toasts)
      ensures currentPeriod != "" && hasVideoAndCanvas && hasContext && blobProduced ==>
        && requests == old(requests) + [(currentPeriod, attendanceDate)]
        && !isScanning
        && (outcome.Ok? && outcome.value.success ==>
              && detectedFaces == outcome.value.detectedFaces && toasts == old(toasts))
        && (outcome.Ok? && !outcome.value.success ==>
              detectedFaces == [] && toasts == old(toasts) + [NoFacesToast])
        && (outcome.Err? ==>
              detectedFaces == [] && toasts == old(toasts) + [Toast("error", "Scan Failed", outcome.message)])
      ensures var shown := currentPeriod != "" && hasVideoAndCanvas && hasContext && blobProduced
                           && outcome.Ok? && outcome.value.success
                           && AlreadyMarked(outcome.value.detectedFaces) != [];
        && (shown ==> showAlreadyMarkedDialog
                      && alreadyMarkedStudents == AlreadyMarked(outcome.value.detectedFaces))
        && (!shown ==> showAlreadyMarkedDialog == old(showAlreadyMarkedDialog)
                       && alreadyMarkedStudents == old(alreadyMarkedStudents))
    {
      if currentPeriod == "" {
        toasts := toasts + [SelectPeriodToast];
        return;
      }
      if !hasVideoAndCanvas {
        return;
      }
      isScanning := true;
      detectedFaces := [];
      if !hasContext {
        return;
      }
      if !blobProduced {
        isScanning := false;
        return;
      }
      requests := requests + [(currentPeriod, attendanceDate)];
      match outcome {
        case Ok(result) =>
          if result.success {
            detectedFaces := result.detectedFaces;
            var already := AlreadyMarked(result.detectedFaces);
            if |already| > 0 {
              alreadyMarkedStudents := already;
              showAlreadyMarkedDialog := true;
            }
          } else {
            toasts := toasts + [NoFacesToast];
          }
        case Err(message) =>
          toasts := toasts + [Toast("error", "Scan Failed", message)];
      }
      isScanning := false;
    }
  }
}

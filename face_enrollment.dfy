/** The administrator's face enrollment form: captured frames kept as data
    URLs, the conversion of each data URL back into a binary blob (the
    header of RFC 2397 with a base64 payload), the submission of the form
    and the predicate that enables its button.

    The camera, the canvas and the network are abstracted: what the canvas
    produces and whether the upload succeeds are parameters. Notices stand
    for the toasts the form shows, in order. */
module FaceEnrollment {
  import opened Common
  import Base64

  datatype Blob = Blob(bytes: seq<byte>, mime: string)

  /** The characters a regular expression's `.` does not match. */
  predicate LineTerminator(c: char) {
    c == '\n' || c == '\r' || c == '\U{2028}' || c == '\U{2029}'
  }

  /** The lazy `(.*?);` at the start of `s`: the shortest run of characters
      other than line terminators that is followed by `;`. */
  function UpToSemicolon(s: string): (r: Option<string>)
    ensures r.Some? ==> StartsWith(s, r.value + ";") && ';' !in r.value
    ensures r.Some? ==> forall c :: c in r.value ==> !LineTerminator(c)
  {
    if |s| == 0 then None
    else if s[0] == ';' then Some("")
    else if LineTerminator(s[0]) then None
    else
      match UpToSemicolon(s[1..])
      case None => None
      case Some(m) =>
        assert s == [s[0]] + s[1..];
        Some([s[0]] + m)
  }

  /** The first group of the leftmost match of `/:(.*?);/`, `None` when the
      header does not match. */
  function MimeOf(header: string): (r: Option<string>)
    ensures r.Some? ==> ';' !in r.value
  {
    if |header| == 0 then None
    else if header[0] == ':' && UpToSemicolon(header[1..]).Some? then UpToSemicolon(header[1..])
    else MimeOf(header[1..])
  }

  /** The string `atob` returns: one character per byte. */
  function BinaryString(bs: seq<byte>): (s: string)
    ensures |s| == |bs|
    ensures forall i :: 0 <= i < |bs| ==> s[i] as int == bs[i] as int
  {
    seq(|bs|, i requires 0 <= i < |bs| => bs[i] as int as char)
  }

  /** What `atob` receives when there is no second piece: `undefined` as text. */
  const Undefined: string := "undefined"

  /** What `dataURLtoBlob` gives for a data URL: the type between `:` and `;`
      of the part before the first comma and the bytes of the base64 text
      between the first and second commas. A URL without a comma decodes the
      text "undefined". `Err` carries the name of the exception raised. */
  function BlobOf(dataUrl: string): Result<Blob> {
    var arr := Split(dataUrl, ",");
    match MimeOf(arr[0])
    case None => Err("TypeError")
    case Some(mime) =>
      var payload := if |arr| > 1 then arr[1] else Undefined;
      match Base64.Decode(payload)
      case None => Err("InvalidCharacterError")
      case Some(bs) => Ok(Blob(bs, mime))
  }

  /** `dataURLtoBlob`: decodes the payload to a binary string, then fills a
      byte array from its last position down to the first. */
  method DataUrlToBlob(dataUrl: string) returns (r: Result<Blob>)
    ensures r == BlobOf(dataUrl)
  {
    var arr := Split(dataUrl, ",");
    var mime := MimeOf(arr[0]);
    if mime.None? {
      return Err("TypeError");
    }
    var payload := if |arr| > 1 then arr[1] else Undefined;
    var decoded := Base64.Decode(payload);
    if decoded.None? {
      return Err("InvalidCharacterError");
    }
    var bstr := BinaryString(decoded.value);
    var bytes := FillBytes(bstr);
    BinaryStringBytes(decoded.value, bytes);
    return Ok(Blob(bytes, mime.value));
  }

  /** Taking each character code of a binary string modulo 256 gives back
      its bytes. */
  lemma BinaryStringBytes(bs: seq<byte>, bytes: seq<byte>)
    requires |bytes| == |bs|
    requires forall k :: 0 <= k < |bs| ==> bytes[k] as int == BinaryString(bs)[k] as int % 256
    ensures bytes == bs
  {
    forall k | 0 <= k < |bs| ensures bytes[k] == bs[k] {
      assert BinaryString(bs)[k] as int == bs[k] as int;
    }
  }

  /** The `Uint8Array` of a binary string, filled from the last position down
      to the first; each byte is the character code modulo 256. */
  method FillBytes(bstr: string) returns (bytes: seq<byte>)
    ensures |bytes| == |bstr|
    ensures forall k :: 0 <= k < |bstr| ==> bytes[k] as int == bstr[k] as int % 256
  {
    var n := |bstr|;
    var u8arr := new byte[n];
    while n > 0
      invariant 0 <= n <= u8arr.Length == |bstr|
      invariant forall k :: n <= k < u8arr.Length ==> u8arr[k] as int == bstr[k] as int % 256
    {
      n := n - 1;
      u8arr[n] := (bstr[n] as int % 256) as byte;
    }
    bytes := u8arr[..];
  }

  // ---------------------------------------------------------------- data URLs from the canvas

  /** A media type that can sit between `:` and `;` of a header. */
  predicate PlainMime(m: string) {
    forall c :: c in m ==> c != ':' && c != ';' && c != ',' && !LineTerminator(c)
  }

  /** The data URL a canvas produces for bytes `bs` of type `mime`. */
  function CanvasDataUrl(mime: string, bs: seq<byte>): string {
    "data:" + mime + ";base64," + Base64.Encode(bs)
  }

  lemma UpToSemicolonPlain(m: string, rest: string)
    requires PlainMime(m)
    ensures UpToSemicolon(m + ";" + rest) == Some(m)
    decreases |m|
  {
    var s := m + ";" + rest;
    if |m| == 0 {
      assert s[0] == ';';
    } else {
      assert s[0] == m[0] && m[0] in m;
      assert s[0] != ';' && !LineTerminator(s[0]);
      assert s[1..] == m[1..] + ";" + rest;
      assert PlainMime(m[1..]) by {
        forall c | c in m[1..] ensures c in m { }
      }
      UpToSemicolonPlain(m[1..], rest);
      assert UpToSemicolon(s) == Some([s[0]] + m[1..]);
      assert [m[0]] + m[1..] == m;
    }
  }

  lemma HeaderMime(scheme: string, m: string)
    requires ':' !in scheme && PlainMime(m)
    ensures MimeOf(scheme + ":" + m + ";base64") == Some(m)
    decreases |scheme|
  {
    var h := scheme + ":" + m + ";base64";
    if |scheme| == 0 {
      assert h[1..] == m + ";" + "base64";
      UpToSemicolonPlain(m, "base64");
    } else {
      assert h[1..] == scheme[1..] + ":" + m + ";base64";
      assert h[0] == scheme[0];
      HeaderMime(scheme[1..], m);
    }
  }

  lemma EncodedHasNoComma(bs: seq<byte>)
    ensures ',' !in Base64.Encode(bs)
  {
    var vs := Base64.EncodeSextets(bs);
    var c := Base64.Chars(vs);
    forall i | 0 <= i < |c| ensures c[i] != ',' {
      assert c[i] == Base64.SextetChar(vs[i]);
    }
  }

  /** Converting a canvas data URL gives back exactly the bytes and the type
      the canvas encoded. */
  lemma CanvasRoundTrip(mime: string, bs: seq<byte>)
    requires PlainMime(mime)
    ensures BlobOf(CanvasDataUrl(mime, bs)) == Ok(Blob(bs, mime))
  {
    var header := "data:" + mime + ";base64";
    var e := Base64.Encode(bs);
    var url := CanvasDataUrl(mime, bs);
    assert Split(url, ",") == [header, e] by {
      assert url == header + [','] + e;
      assert ',' !in header by {
        assert header == "data:" + (mime + ";base64");
      }
      EncodedHasNoComma(bs);
      SplitCharTwo(header, ',', e);
    }
    assert MimeOf(header) == Some(mime) by {
      assert header == "data" + ":" + mime + ";base64";
      HeaderMime("data", mime);
    }
    assert Base64.Decode(e) == Some(bs) by {
      Base64.DecodeEncode(bs);
    }
  }

  /** A data URL without a comma fails in `atob`, once its header matched:
      the text "undefined" has nine characters. */
  lemma NoCommaFails(dataUrl: string)
    requires ',' !in dataUrl && MimeOf(dataUrl).Some?
    ensures BlobOf(dataUrl) == Err("InvalidCharacterError")
  {
    SplitCharAbsent(dataUrl, ',');
    UndefinedRejected(Undefined);
  }

  lemma UndefinedRejected(word: string)
    requires word == Undefined
    ensures Base64.Decode(word).None?
  {
    assert |word| == 9;
    assert forall i :: 0 <= i < |word| ==> !Base64.AsciiWhitespace(word[i]);
    Base64.DecodeRejectsPlainLengthOneModFour(word);
  }

  // ---------------------------------------------------------------- the form

  datatype Notice =
    | ImageCaptured(count: nat)
    | MoreImagesNeeded
    | MissingInfo
    | EnrollSuccess
    | EnrollFailed

  datatype FormPart =
    | TextPart(name: string, value: string)
    | FilePart(name: string, blob: Blob, filename: string)

  function ImageFileName(index: nat): string {
    "image_" + NatToString(index) + ".jpg"
  }

  /** The conversion of each captured frame, in capture order. */
  function Conversions(images: seq<string>): (r: seq<Result<Blob>>)
    ensures |r| == |images|
    ensures forall i :: 0 <= i < |images| ==> r[i] == BlobOf(images[i])
  {
    seq(|images|, i requires 0 <= i < |images| => BlobOf(images[i]))
  }

  /** One `images` part per converted frame, or the first conversion error. */
  function PartsOf(blobs: seq<Result<Blob>>): (r: Result<seq<FormPart>>)
    ensures r.Ok? ==> |r.value| == |blobs|
  {
    if |blobs| == 0 then Ok([])
    else
      match PartsOf(blobs[..|blobs| - 1])
      case Err(e) => Err(e)
      case Ok(ps) =>
        match blobs[|blobs| - 1]
        case Err(e) => Err(e)
        case Ok(b) => Ok(ps + [FilePart("images", b, ImageFileName(|blobs| - 1))])
  }

  /** The `images` parts for the captured frames, or the error of the first
      frame that does not convert. */
  function FileParts(images: seq<string>): (r: Result<seq<FormPart>>)
    ensures r.Ok? ==> |r.value| == |images|
  {
    PartsOf(Conversions(images))
  }

  lemma {:induction false} PartsOfSpec(blobs: seq<Result<Blob>>)
    ensures PartsOf(blobs).Ok? <==> forall i :: 0 <= i < |blobs| ==> blobs[i].Ok?
    ensures PartsOf(blobs).Ok? ==> forall i :: 0 <= i < |blobs| ==>
      PartsOf(blobs).value[i] == FilePart("images", blobs[i].value, ImageFileName(i))
  {
    if |blobs| > 0 {
      var init := blobs[..|blobs| - 1];
      PartsOfSpec(init);
      assert forall i :: 0 <= i < |init| ==> init[i] == blobs[i];
    }
  }

  /** The parts are one per frame, in capture order and named by position,
      and they exist exactly when every frame converts. */
  lemma FilePartsSpec(images: seq<string>)
    ensures FileParts(images).Ok? <==> forall i :: 0 <= i < |images| ==> BlobOf(images[i]).Ok?
    ensures FileParts(images).Ok? ==> forall i :: 0 <= i < |images| ==>
      FileParts(images).value[i] == FilePart("images", BlobOf(images[i]).value, ImageFileName(i))
  {
    PartsOfSpec(Conversions(images));
  }

  /** Distinct capture positions give distinct file names. */
  lemma FileNamesDistinct(i: nat, j: nat)
    requires i != j
    ensures ImageFileName(i) != ImageFileName(j)
  {
    var a, b := NatToString(i), NatToString(j);
    if ImageFileName(i) == ImageFileName(j) {
      assert |a| == |b|;
      assert a == ImageFileName(i)[6..6 + |a|];
      assert b == ImageFileName(j)[6..6 + |b|];
      NatToStringInjective(i, j);
    }
  }

  /** The form data: name, id, then one part per frame; `None` when a frame
      does not convert, which throws before anything is sent. */
  method BuildForm(studentName: string, studentId: string, images: seq<string>)
    returns (form: Option<seq<FormPart>>)
    ensures form.None? <==> FileParts(images).Err?
    ensures form.Some? ==>
      form.value == [TextPart("studentName", studentName), TextPart("studentId", studentId)]
                    + FileParts(images).value
  {
    var header := [TextPart("studentName", studentName), TextPart("studentId", studentId)];
    ghost var blobs := Conversions(images);
    var parts := header;
    var i := 0;
    while i < |images|
      invariant 0 <= i <= |images|
      invariant PartsOf(blobs[..i]).Ok?
      invariant parts == header + PartsOf(blobs[..i]).value
    {
      var blob := DataUrlToBlob(images[i]);
      assert blob == blobs[i];
      if blob.Err? {
        assert PartsOf(blobs[..i + 1]).Err? by {
          assert blobs[..i + 1][..i] == blobs[..i];
        }
        PartsErrExtends(blobs, i + 1);
        return None;
      }
      assert blobs[..i + 1][..i] == blobs[..i];
      parts := parts + [FilePart("images", blob.value, ImageFileName(i))];
      i := i + 1;
    }
    assert blobs[..i] == blobs;
    return Some(parts);
  }

  /** Once a prefix of the frames fails to convert, so does every longer one. */
  lemma {:induction false} PartsErrExtends(blobs: seq<Result<Blob>>, k: nat)
    requires k <= |blobs| && PartsOf(blobs[..k]).Err?
    ensures PartsOf(blobs).Err?
    decreases |blobs| - k
  {
    if k < |blobs| {
      assert blobs[..k + 1][..k] == blobs[..k];
      PartsErrExtends(blobs, k + 1);
    } else {
      assert blobs[..k] == blobs;
    }
  }

  class EnrollmentForm {
    var isEnrolling: bool
    var capturedImages: seq<string>
    var studentName: string
    var studentId: string
    var isSubmitting: bool
    var notices: seq<Notice>
    /** The forms posted to the enrollment endpoint, in order. */
    var submissions: seq<seq<FormPart>>

    constructor()
      ensures !isEnrolling && capturedImages == [] && studentName == "" && studentId == ""
      ensures !isSubmitting && notices == [] && submissions == []
    {
      isEnrolling := false;
      capturedImages := [];
      studentName := "";
      studentId := "";
      isSubmitting := false;
      notices := [];
      submissions := [];
    }

    /** The button's enabling condition. */
    predicate CanSubmit()
      reads this
    {
      !isSubmitting && |capturedImages| >= 3 && studentName != "" && studentId != ""
    }

    /** `captureImage`: with the video, the canvas and its context present,
        the frame is appended after the earlier ones; otherwise nothing
        happens. */
    method CaptureImage(hasVideoAndCanvas: bool, hasContext: bool, frame: string)
      modifies this
      ensures hasVideoAndCanvas && hasContext ==>
        && capturedImages == old(capturedImages) + [frame]
        && notices == old(notices) + [ImageCaptured(|old(capturedImages)| + 1)]
      ensures !(hasVideoAndCanvas && hasContext) ==>
        capturedImages == old(capturedImages) && notices == old(notices)
      ensures studentName == old(studentName) && studentId == old(studentId)
      ensures isSubmitting == old(isSubmitting) && isEnrolling == old(isEnrolling)
      ensures submissions == old(submissions)
    {
      if !hasVideoAndCanvas || !hasContext {
        return;
      }
      notices := notices + [ImageCaptured(|capturedImages| + 1)];
      capturedImages := capturedImages + [frame];
    }

    /** `handleSubmit`: the image count is checked first, then the name and
        id; neither failing check sends anything. Otherwise the form carries
        the name, the id and one part per frame in capture order; a frame
        that does not convert or an upload that fails leaves the form as it
        was, and a successful upload clears it. `responseOk` is whether the
        upload succeeded. */
    method HandleSubmit(responseOk: bool)
      modifies this
      ensures isEnrolling == old(isEnrolling)
      ensures |old(capturedImages)| < 3 ==>
        && notices == old(notices) + [MoreImagesNeeded] && submissions == old(submissions)
        && capturedImages == old(capturedImages) && studentName == old(studentName)
        && studentId == old(studentId) && isSubmitting == old(isSubmitting)
      ensures |old(capturedImages)| >= 3 && (old(studentName) == "" || old(studentId) == "") ==>
        && notices == old(notices) + [MissingInfo] && submissions == old(submissions)
        && capturedImages == old(capturedImages) && studentName == old(studentName)
        && studentId == old(studentId) && isSubmitting == old(isSubmitting)
      ensures |old(capturedImages)| >= 3 && old(studentName) != "" && old(studentId) != "" ==>
        && !isSubmitting
        && match FileParts(old(capturedImages))
           case Err(_) =>
             && submissions == old(submissions) && notices == old(notices) + [EnrollFailed]
             && capturedImages == old(capturedImages) && studentName == old(studentName)
             && studentId == old(studentId)
           case Ok(files) =>
             && submissions == old(submissions)
                + [[TextPart("studentName", old(studentName)), TextPart("studentId", old(studentId))] + files]
             && (responseOk ==>
                   notices == old(notices) + [EnrollSuccess]
                   && capturedImages == [] && studentName == "" && studentId == "")
             && (!responseOk ==>
                   notices == old(notices) + [EnrollFailed]
                   && capturedImages == old(capturedImages) && studentName == old(studentName)
                   && studentId == old(studentId))
      ensures old(CanSubmit()) && FileParts(old(capturedImages)).Ok? ==>
        |submissions| == |old(submissions)| + 1
    {
      if |capturedImages| < 3 {
        notices := notices + [MoreImagesNeeded];
        return;
      }
      if studentName == "" || studentId == "" {
        notices := notices + [MissingInfo];
        return;
      }
      isSubmitting := true;
      var form := BuildForm(studentName, studentId, capturedImages);
      if form.None? {
        notices := notices + [EnrollFailed];
      } else {
        submissions := submissions + [form.value];
        if responseOk {
          notices := notices + [EnrollSuccess];
          studentName := "";
          studentId := "";
          capturedImages := [];
        } else {
          notices := notices + [EnrollFailed];
        }
      }
      isSubmitting := false;
    }

    /** `startEnrollment`: a fresh form in enrolling mode (the camera it
        starts is outside the model). */
    method StartEnrollment()
      modifies this
      ensures capturedImages == [] && studentName == "" && studentId == "" && isEnrolling
      ensures isSubmitting == old(isSubmitting) && notices == old(notices)
      ensures submissions == old(submissions)
    {
      capturedImages := [];
      studentName := "";
      studentId := "";
      isEnrolling := true;
    }
  }
}

/** The enrolled person id `"ID-<student id> - <name>"` and the two parsers
    that take it apart again: the one that rebuilds the recognition lists
    (`load_known_faces`, three branches) and the one behind the enrolled-faces
    listing (two branches).

    Both parsers as written split at every `" - "` and accept only exactly two
    pieces, so a name containing `" - "` falls through to the fallback
    branches. The corrected parsers split at the first separator only; they
    are the ones the rest of the model uses. */
module PersonIds {
  import opened Common

  const Separator: string := " - "
  const IdPrefix: string := "ID-"

  /** The person id enrollment stores. */
  function FormatPersonId(studentId: string, name: string): string {
    IdPrefix + studentId + Separator + name
  }

  /** The ids the format can carry: no separator may start inside the id or
      straddle its end (so the id neither contains `" - "` nor ends in
      `" -"`), and the id has no `"ID-"` of its own to be stripped. */
  predicate IdParsable(studentId: string) {
    !Contains(studentId + " -", Separator) && !Contains(studentId, IdPrefix)
  }

  // ---------------------------------------------------------------- as written

  /** `parts = person_id.split(' - ')`: when there are exactly two parts, the
      first without its `"ID-"` and the second. */
  function SplitAsWritten(pid: string): (r: Option<(string, string)>)
    ensures r.Some? <==> |Split(pid, Separator)| == 2
  {
    var parts := Split(pid, Separator);
    if |parts| == 2 then Some((ReplaceAll(parts[0], IdPrefix, ""), parts[1])) else None
  }

  /** `load_known_faces` as written: (roll number, name). */
  function KnownFaceAsWritten(pid: string): (r: (string, string))
  {
    match SplitAsWritten(pid)
    case Some(p) => p
    case None =>
      if StartsWith(pid, IdPrefix) then (ReplaceAll(pid, IdPrefix, ""), pid) else (pid, pid)
  }

  /** `get_enrolled_faces` as written: (student id, name). */
  function EnrolledFaceAsWritten(pid: string): (r: (string, string))
  {
    match SplitAsWritten(pid)
    case Some(p) => p
    case None => (pid, pid)
  }

  // ---------------------------------------------------------------- corrected

  /** Splitting at the first separator only. */
  function SplitPersonId(pid: string): (r: Option<(string, string)>)
    ensures r.Some? <==> Contains(pid, Separator)
  {
    ContainsIff(pid, Separator);
    var parts := SplitOnce(pid, Separator);
    if |parts| == 2 then Some((ReplaceAll(parts[0], IdPrefix, ""), parts[1])) else None
  }

  function KnownFace(pid: string): (r: (string, string))
  {
    match SplitPersonId(pid)
    case Some(p) => p
    case None =>
      if StartsWith(pid, IdPrefix) then (ReplaceAll(pid, IdPrefix, ""), pid) else (pid, pid)
  }

  function EnrolledFace(pid: string): (r: (string, string))
  {
    match SplitPersonId(pid)
    case Some(p) => p
    case None => (pid, pid)
  }

  // ---------------------------------------------------------------- lemmas

  /** The first separator of a formatted id is the one the format put there. */
  lemma FirstSeparator(studentId: string, name: string)
    requires !Contains(studentId + " -", Separator)
    ensures IndexOf(FormatPersonId(studentId, name), Separator) == Some(|studentId| + 3)
  {
    var s := FormatPersonId(studentId, name);
    var t := studentId + " -";
    ContainsIff(t, Separator);
    forall j: nat | j < |studentId| + 3 ensures !OccursAt(s, Separator, j) {
      NoSeparatorBefore(studentId, name, j);
    }
    assert s[|studentId| + 3..|studentId| + 6] == Separator;
    IndexOfFirst(s, Separator, |studentId| + 3);
  }

  lemma NoSeparatorBefore(studentId: string, name: string, j: nat)
    requires forall i: nat :: !OccursAt(studentId + " -", Separator, i)
    requires j < |studentId| + 3
    ensures !OccursAt(FormatPersonId(studentId, name), Separator, j)
  {
    var s := FormatPersonId(studentId, name);
    var t := studentId + " -";
    assert s == IdPrefix + (t + (" " + name));
    if j < 3 {
      assert s[j] == IdPrefix[j] && IdPrefix[j] != ' ';
      assert j + 3 <= |s| ==> s[j..j + 3][0] == s[j];
    } else {
      assert s[3..|studentId| + 5] == t;
      assert s[j..j + 3] == t[j - 3..j];
      assert !OccursAt(t, Separator, j - 3);
    }
  }

  lemma StripIdPrefix(studentId: string)
    requires !Contains(studentId, IdPrefix)
    ensures ReplaceAll(IdPrefix + studentId, IdPrefix, "") == studentId
  {
    var a := IdPrefix + studentId;
    assert StartsWith(a, IdPrefix);
    assert a[|IdPrefix|..] == studentId;
    ReplaceAbsent(studentId, IdPrefix, "");
  }

  /** The corrected parsers give back the id and the name for every name. */
  lemma ParseFormatRoundTrip(studentId: string, name: string)
    requires IdParsable(studentId)
    ensures SplitPersonId(FormatPersonId(studentId, name)) == Some((studentId, name))
    ensures KnownFace(FormatPersonId(studentId, name)) == (studentId, name)
    ensures EnrolledFace(FormatPersonId(studentId, name)) == (studentId, name)
  {
    var s := FormatPersonId(studentId, name);
    FirstSeparator(studentId, name);
    StripIdPrefix(studentId);
    assert s[..|studentId| + 3] == IdPrefix + studentId;
    assert s[|studentId| + 6..] == name;
  }

  /** The parsers as written give back the id and the name when the name has
      no separator either. */
  lemma ParseAsWrittenRoundTrip(studentId: string, name: string)
    requires IdParsable(studentId) && !Contains(name, Separator)
    ensures SplitAsWritten(FormatPersonId(studentId, name)) == Some((studentId, name))
    ensures KnownFaceAsWritten(FormatPersonId(studentId, name)) == (studentId, name)
    ensures EnrolledFaceAsWritten(FormatPersonId(studentId, name)) == (studentId, name)
  {
    var a := IdPrefix + studentId;
    var s := FormatPersonId(studentId, name);
    assert s == a + Separator + name;
    FirstSeparator(studentId, name);
    SplitAtFirst(a, Separator, name);
    ContainsIff(name, Separator);
    SplitNoSeparator(name, Separator);
    StripIdPrefix(studentId);
  }

  /** As written, a name containing `" - "` never parses as (id, name): the
      split yields three or more pieces. */
  lemma AsWrittenRejectsSeparatorInName(studentId: string, name: string)
    requires IdParsable(studentId) && Contains(name, Separator)
    ensures SplitAsWritten(FormatPersonId(studentId, name)).None?
  {
    var a := IdPrefix + studentId;
    assert FormatPersonId(studentId, name) == a + Separator + name;
    FirstSeparator(studentId, name);
    SplitAtFirst(a, Separator, name);
    ContainsIff(name, Separator);
    var i :| IndexOf(name, Separator) == Some(i);
  }

  /** As written, a formatted id whose name contains `" - "` falls through to
      the fallback branches: the recognition list gets the person id without
      its prefix as roll number and the whole person id as name, and the
      listing gets the whole person id twice. */
  lemma AsWrittenFallback(studentId: string, name: string)
    requires IdParsable(studentId) && Contains(name, Separator)
    requires !Contains(studentId + Separator + name, IdPrefix)
    ensures KnownFaceAsWritten(FormatPersonId(studentId, name))
         == (studentId + Separator + name, FormatPersonId(studentId, name))
    ensures EnrolledFaceAsWritten(FormatPersonId(studentId, name))
         == (FormatPersonId(studentId, name), FormatPersonId(studentId, name))
  {
    var pid := FormatPersonId(studentId, name);
    AsWrittenRejectsSeparatorInName(studentId, name);
    assert pid == IdPrefix + (studentId + Separator + name);
    assert StartsWith(pid, IdPrefix);
    StripIdPrefix(studentId + Separator + name);
  }

  /** The student "Mary - Jane" with id "42" is misread as written and read
      correctly by the corrected parser. */
  lemma AsWrittenMisreadsMaryJane(studentId: string, name: string)
    requires studentId == "42" && name == "Mary - Jane"
    ensures KnownFaceAsWritten(FormatPersonId(studentId, name))
         == ("42 - Mary - Jane", "ID-42 - Mary - Jane")
    ensures KnownFace(FormatPersonId(studentId, name)) == (studentId, name)
  {
    MaryJaneText(studentId, name);
    IdFortyTwoParsable(studentId);
    NameHasSeparator(name);
    TailHasNoPrefix(studentId + Separator + name);
    AsWrittenFallback(studentId, name);
    ParseFormatRoundTrip(studentId, name);
  }

  lemma MaryJaneText(studentId: string, name: string)
    requires studentId == "42" && name == "Mary - Jane"
    ensures studentId + Separator + name == "42 - Mary - Jane"
    ensures FormatPersonId(studentId, name) == "ID-42 - Mary - Jane"
  {
  }

  lemma IdFortyTwoParsable(studentId: string)
    requires studentId == "42"
    ensures IdParsable(studentId)
  {
    var t := studentId + " -";
    ContainsIff(t, Separator);
    forall j: nat ensures !OccursAt(t, Separator, j) {
      if j + 3 <= |t| {
        assert t[j] != ' ';
      }
    }
    MissingFirstCharNotContained(studentId, IdPrefix);
  }

  lemma NameHasSeparator(name: string)
    requires name == "Mary - Jane"
    ensures Contains(name, Separator)
  {
    assert name[4..7] == Separator;
    OccursContains(name, Separator, 4);
  }

  lemma TailHasNoPrefix(t: string)
    requires t == "42 - Mary - Jane"
    ensures !Contains(t, IdPrefix)
  {
    assert forall j :: 0 <= j < |t| ==> t[j] != 'I';
    MissingFirstCharNotContained(t, IdPrefix);
  }

  /** Whenever the parser as written accepts an id, the corrected one reads it
      the same way. */
  lemma CorrectedAgreesWhenAsWrittenAccepts(pid: string)
    requires SplitAsWritten(pid).Some?
    ensures SplitPersonId(pid) == SplitAsWritten(pid)
  {
    var i :| IndexOf(pid, Separator) == Some(i);
    var rest := pid[i + |Separator|..];
    assert Split(pid, Separator) == [pid[..i]] + Split(rest, Separator);
    assert |Split(rest, Separator)| == 1;
    assert Split(rest, Separator) == [rest];
    ContainsIff(pid, Separator);
  }
}

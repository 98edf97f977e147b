/** The day-level ledgers the recognition endpoints write: the "enhanced"
    attendance table (one row per student id and day, with emotion, spoof
    status and both confidences), the basic `attendance` table reached through
    a student's registration number, and the face-encodings table that
    enrollment writes with `INSERT OR REPLACE`.

    The clock (`today`, `time`, `timestamp`) and a failing connection
    (`dbFailure`) are arguments. */
module AppLedgers {
  import opened Common
  import opened Models
  import AttendanceDb

  // ---------------------------------------------------------------- enhanced attendance

  datatype EnhancedRow = EnhancedRow(
    serialNo: nat,
    studentId: string,
    name: string,
    date: string,
    time: string,
    emotion: string,
    spoofingStatus: string,
    liveness: Tenths,
    recognition: Tenths,
    timestamp: string)

  predicate EnhancedMarkedOn(rows: seq<EnhancedRow>, studentId: string, date: string) {
    exists i :: 0 <= i < |rows| && rows[i].studentId == studentId && rows[i].date == date
  }

  /** `UNIQUE(student_id, date)`. */
  predicate EnhancedOnePerDay(rows: seq<EnhancedRow>) {
    forall i, j :: 0 <= i < j < |rows| ==>
      !(rows[i].studentId == rows[j].studentId && rows[i].date == rows[j].date)
  }

  /** The guard at the top of `mark_enhanced_attendance`. */
  predicate Markable(name: string, studentId: string) {
    name != "Unknown" && studentId != ""
  }

  /** Everything `mark_enhanced_attendance` checks before it inserts: the
      guard, a working connection, and no row for the student that day. */
  predicate CanMarkEnhanced(rows: seq<EnhancedRow>, name: string, studentId: string, today: string,
                            dbFailure: bool) {
    Markable(name, studentId) && !dbFailure && !EnhancedMarkedOn(rows, studentId, today)
  }

  class EnhancedLedger {
    var rows: seq<EnhancedRow>
    var nextSerial: nat

    ghost predicate Valid()
      reads this
    {
      && EnhancedOnePerDay(rows)
      && (forall i :: 0 <= i < |rows| ==> rows[i].serialNo < nextSerial)
      && (forall i :: 0 <= i < |rows| ==> rows[i].spoofingStatus in {StatusLive, StatusSpoofed})
    }

    constructor()
      ensures Valid() && rows == []
    {
      rows := [];
      nextSerial := 1;
    }

    /** `mark_enhanced_attendance`: an unknown face or an empty id is refused
        before the table is touched; a second row for the same student and day
        is refused; otherwise exactly one row is added. A failing connection
        adds nothing and answers `false`. */
    method Mark(name: string, studentId: string, emotion: string, liveness: Tenths,
                recognition: Tenths, isLive: bool, today: string, time: string,
                timestamp: string, dbFailure: bool)
      returns (ok: bool)
      modifies this
      requires Valid()
      ensures Valid()
      ensures ok <==> CanMarkEnhanced(old(rows), name, studentId, today, dbFailure)
      ensures !ok ==> rows == old(rows)
      ensures nextSerial == old(nextSerial) + (if ok then 1 else 0)
      ensures ok ==> rows == old(rows) + [EnhancedRow(old(nextSerial), studentId, name, today, time,
                                                      emotion, if isLive then StatusLive else StatusSpoofed,
                                                      liveness, recognition, timestamp)]
    {
      if !Markable(name, studentId) {
        return false;
      }
      if dbFailure {
        return false;
      }
      if EnhancedMarkedOn(rows, studentId, today) {
        return false;
      }
      var status := if isLive then StatusLive else StatusSpoofed;
      assert forall i :: 0 <= i < |rows| ==> !(rows[i].studentId == studentId && rows[i].date == today);
      rows := rows + [EnhancedRow(nextSerial, studentId, name, today, time, emotion, status,
                                  liveness, recognition, timestamp)];
      nextSerial := nextSerial + 1;
      return true;
    }
  }

  /** A row for a student and day stays in every extension of the table. */
  lemma EnhancedMarkedOnGrows(rows: seq<EnhancedRow>, later: seq<EnhancedRow>, studentId: string,
                              date: string)
    requires rows <= later
    requires EnhancedMarkedOn(rows, studentId, date)
    ensures EnhancedMarkedOn(later, studentId, date)
  {
    var i :| 0 <= i < |rows| && rows[i].studentId == studentId && rows[i].date == date;
    assert later[i] == rows[i];
  }

  /** Once a student has an enhanced row for a day, every later mark for that
      day is refused, whoever asks and whatever was added since. */
  lemma EnhancedMarkIsFinal(rows: seq<EnhancedRow>, more: seq<EnhancedRow>, name: string,
                            studentId: string, date: string, dbFailure: bool)
    requires EnhancedMarkedOn(rows, studentId, date)
    ensures !CanMarkEnhanced(rows + more, name, studentId, date, dbFailure)
  {
    EnhancedMarkedOnGrows(rows, rows + more, studentId, date);
  }

  // ---------------------------------------------------------------- basic attendance

  /** `save_attendance_to_db`: finds the student by registration number and
      adds a 'Present' row for today, unless there is none such student or the
      student already has a row today. A failing connection adds nothing. */
  method SaveAttendanceToDb(db: AttendanceDb.Store, rollNumber: string, today: string,
                            time: string, dbFailure: bool)
    returns (ok: bool)
    modifies db
    requires db.Valid()
    ensures db.Valid()
    ensures db.students == old(db.students)
    ensures var s := AttendanceDb.FindByRegNo(old(db.students), rollNumber);
      ok <==> !dbFailure && s.Some? && !AttendanceDb.MarkedOn(old(db.marks), s.value.id, today)
    ensures var s := AttendanceDb.FindByRegNo(old(db.students), rollNumber);
      ok ==> db.marks == old(db.marks)
                         + [AttendanceDb.Mark(old(db.nextMarkId), s.value.id, today, time,
                                              AttendanceDb.Present)]
    ensures !ok ==> db.marks == old(db.marks)
    ensures db.nextStudentId == old(db.nextStudentId)
    ensures db.nextMarkId == old(db.nextMarkId) + (if ok then 1 else 0)
  {
    if dbFailure {
      return false;
    }
    var found := AttendanceDb.FindByRegNo(db.students, rollNumber);
    if found.None? {
      return false;
    }
    if AttendanceDb.MarkedOn(db.marks, found.value.id, today) {
      return false;
    }
    ok := db.InsertMark(found.value.id, today, time, AttendanceDb.Present);
  }

  /** The step of the recognition and enrollment endpoints that adds a
      placeholder student (class and section 'Unknown', empty photo path) when
      no student has the registration number. A failing connection is
      reported and ignored, so it leaves the table as it was. */
  method EnsureStudent(db: AttendanceDb.Store, name: string, regNo: string, dbFailure: bool)
    modifies db
    requires db.Valid()
    ensures db.Valid()
    ensures db.marks == old(db.marks) && db.nextMarkId == old(db.nextMarkId)
    ensures dbFailure || AttendanceDb.HasRegNo(old(db.students), regNo) ==>
      db.students == old(db.students) && db.nextStudentId == old(db.nextStudentId)
    ensures !dbFailure ==> AttendanceDb.HasRegNo(db.students, regNo)
    ensures !dbFailure && !AttendanceDb.HasRegNo(old(db.students), regNo) ==>
      db.students == old(db.students)
                     + [AttendanceDb.Student(old(db.nextStudentId), name, Some(regNo), Some("Unknown"),
                                             Some("Unknown"), Some(""))]
      && db.nextStudentId == old(db.nextStudentId) + 1
  {
    if dbFailure {
      return;
    }
    if AttendanceDb.FindByRegNo(db.students, regNo).None? {
      db.AddStudent(Some(name), Some(regNo), Some("Unknown"), Some("Unknown"), Some(""));
      assert db.students[|db.students| - 1].regNo == Some(regNo);
    }
  }

  // ---------------------------------------------------------------- face encodings

  function WithoutPerson(t: seq<FaceEncoding>, personId: string): (r: seq<FaceEncoding>)
    ensures forall e :: e in r <==> e in t && e.personId != personId
    ensures |r| <= |t|
  {
    if |t| == 0 then []
    else if t[0].personId == personId then WithoutPerson(t[1..], personId)
    else [t[0]] + WithoutPerson(t[1..], personId)
  }

  lemma {:induction false} WithoutPersonUnique(t: seq<FaceEncoding>, personId: string)
    requires PersonIdsUnique(t)
    ensures PersonIdsUnique(WithoutPerson(t, personId))
    decreases |t|
  {
    if |t| > 0 {
      WithoutPersonUnique(t[1..], personId);
      var rest := WithoutPerson(t[1..], personId);
      if t[0].personId != personId {
        forall j | 0 <= j < |rest| ensures rest[j].personId != t[0].personId {
          assert rest[j] in t[1..];
          var k :| 0 <= k < |t[1..]| && t[1..][k] == rest[j];
          assert t[k + 1] == rest[j];
        }
      }
    }
  }

  class EncodingStore {
    var rows: seq<FaceEncoding>
    var nextId: nat

    ghost predicate Valid()
      reads this
    {
      && PersonIdsUnique(rows)
      && (forall i :: 0 <= i < |rows| ==> rows[i].id < nextId)
    }

    constructor()
      ensures Valid() && rows == []
    {
      rows := [];
      nextId := 1;
    }

    /** `save_encoding_to_db`: `INSERT OR REPLACE` on the unique `person_id`
        deletes the row already there, if any, and adds a new one. */
    method Save(personId: string, encodingData: string, numImages: int)
      modifies this
      requires Valid()
      ensures Valid()
      ensures rows == WithoutPerson(old(rows), personId)
                      + [FaceEncoding(old(nextId), personId, encodingData, numImages)]
    {
      WithoutPersonUnique(rows, personId);
      var kept := WithoutPerson(rows, personId);
      forall i | 0 <= i < |kept| ensures kept[i].id < nextId && kept[i].personId != personId {
        assert kept[i] in rows;
      }
      rows := kept + [FaceEncoding(nextId, personId, encodingData, numImages)];
      nextId := nextId + 1;
    }
  }

  /** After saving, the person has exactly one encoding, the new one. */
  lemma SavedEncodingIsOnly(t: seq<FaceEncoding>, e: FaceEncoding)
    ensures var r := WithoutPerson(t, e.personId) + [e];
      forall i :: 0 <= i < |r| && r[i].personId == e.personId ==> i == |r| - 1
  {
    var r := WithoutPerson(t, e.personId) + [e];
    forall i | 0 <= i < |r| - 1 ensures r[i].personId != e.personId {
      assert r[i] in WithoutPerson(t, e.personId);
    }
  }
}

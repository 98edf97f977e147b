/** The basic attendance database: a `students` table keyed by an
    auto-incremented id with a unique, nullable registration number, and an
    `attendance` table that holds at most one row per student and day.

    `init_db` is the constructor of `Store`; `add_student` inserts or ignores;
    `view_attendance` is a join of the two tables, filtered and ordered. */
module AttendanceDb {
  import opened Common
  import Sorting

  /** The `CHECK(status IN ('Present','Absent'))` constraint as a type. */
  datatype Status = Present | Absent

  const DefaultStatus: Status := Present

  datatype Student = Student(
    id: nat,
    name: string,
    regNo: Option<string>,
    className: Option<string>,
    section: Option<string>,
    photoPath: Option<string>)

  /** A row of `attendance`. Foreign keys are not enforced, so `studentId` may
      name a student that does not exist. */
  datatype Mark = Mark(id: nat, studentId: nat, date: string, time: string, status: Status)

  /** Two students never share a registration number; rows without one
      (NULL) never clash. */
  predicate RegNosUnique(students: seq<Student>) {
    forall i, j :: 0 <= i < j < |students| && students[i].regNo.Some? ==>
      students[j].regNo != students[i].regNo
  }

  predicate HasRegNo(students: seq<Student>, regNo: string) {
    exists i :: 0 <= i < |students| && students[i].regNo == Some(regNo)
  }

  predicate MarkedOn(marks: seq<Mark>, studentId: nat, date: string) {
    exists i :: 0 <= i < |marks| && marks[i].studentId == studentId && marks[i].date == date
  }

  /** `UNIQUE(student_id, date)`. */
  predicate OnePerDay(marks: seq<Mark>) {
    forall i, j :: 0 <= i < j < |marks| ==>
      !(marks[i].studentId == marks[j].studentId && marks[i].date == marks[j].date)
  }

  /** `SELECT id, name FROM students WHERE reg_no = ?`, first row. */
  function FindByRegNo(students: seq<Student>, regNo: string): (r: Option<Student>)
    ensures r.Some? <==> HasRegNo(students, regNo)
    ensures r.Some? ==> r.value in students && r.value.regNo == Some(regNo)
  {
    if |students| == 0 then None
    else if students[0].regNo == Some(regNo) then Some(students[0])
    else
      var r := FindByRegNo(students[1..], regNo);
      assert HasRegNo(students, regNo) <==> HasRegNo(students[1..], regNo) by {
        if HasRegNo(students, regNo) {
          var i :| 0 <= i < |students| && students[i].regNo == Some(regNo);
          assert students[1..][i - 1] == students[i];
        }
        if HasRegNo(students[1..], regNo) {
          var i :| 0 <= i < |students[1..]| && students[1..][i].regNo == Some(regNo);
          assert students[i + 1] == students[1..][i];
        }
      }
      r
  }

  class Store {
    var students: seq<Student>
    var marks: seq<Mark>
    var nextStudentId: nat
    var nextMarkId: nat

    ghost predicate Valid()
      reads this
    {
      && RegNosUnique(students)
      && OnePerDay(marks)
      && 0 < nextStudentId && 0 < nextMarkId
      && (forall i :: 0 <= i < |students| ==> 0 < students[i].id < nextStudentId)
      && (forall i, j :: 0 <= i < j < |students| ==> students[i].id < students[j].id)
      && (forall i :: 0 <= i < |marks| ==> 0 < marks[i].id < nextMarkId)
    }

    /** `init_db`: both tables exist and are empty. */
    constructor()
      ensures Valid()
      ensures students == [] && marks == []
    {
      students := [];
      marks := [];
      nextStudentId := 1;
      nextMarkId := 1;
    }

    /** `add_student`: `INSERT OR IGNORE`. A registration number already in the
        table, or a missing name (the `NOT NULL` constraint), makes the insert a
        no-op; otherwise the student gets the next id. */
    method AddStudent(name: Option<string>, regNo: Option<string>, className: Option<string>,
                      section: Option<string>, photoPath: Option<string>)
      modifies this
      requires Valid()
      ensures Valid()
      ensures marks == old(marks) && nextMarkId == old(nextMarkId)
      ensures name.None? || (regNo.Some? && HasRegNo(old(students), regNo.value)) ==>
        students == old(students) && nextStudentId == old(nextStudentId)
      ensures name.Some? && !(regNo.Some? && HasRegNo(old(students), regNo.value)) ==>
        && students == old(students)
                       + [Student(old(nextStudentId), name.value, regNo, className, section, photoPath)]
        && nextStudentId == old(nextStudentId) + 1
    {
      if name.None? || (regNo.Some? && HasRegNo(students, regNo.value)) {
        return;
      }
      var s := Student(nextStudentId, name.value, regNo, className, section, photoPath);
      assert forall i :: 0 <= i < |students| && regNo.Some? ==> students[i].regNo != regNo;
      students := students + [s];
      nextStudentId := nextStudentId + 1;
    }

    /** `INSERT INTO attendance (student_id, date, time, status)`: refused
        (an integrity error) when the student already has a row that day. */
    method InsertMark(studentId: nat, date: string, time: string, status: Status)
      returns (ok: bool)
      modifies this
      requires Valid()
      ensures Valid()
      ensures students == old(students)
      ensures ok <==> !MarkedOn(old(marks), studentId, date)
      ensures ok ==> marks == old(marks) + [Mark(old(nextMarkId), studentId, date, time, status)]
      ensures !ok ==> marks == old(marks)
      ensures nextStudentId == old(nextStudentId)
      ensures nextMarkId == old(nextMarkId) + (if ok then 1 else 0)
    {
      if MarkedOn(marks, studentId, date) {
        return false;
      }
      assert forall i :: 0 <= i < |marks| ==> !(marks[i].studentId == studentId && marks[i].date == date);
      marks := marks + [Mark(nextMarkId, studentId, date, time, status)];
      nextMarkId := nextMarkId + 1;
      return true;
    }
  }

  /** `add_student` called twice with the same student: with a reg_no the
      second `INSERT OR IGNORE` finds it taken, so the table grows by at most
      one row; without one nothing is unique and both rows are added. */
  method AddStudentTwice(db: Store, name: string, regNo: Option<string>, className: Option<string>,
                         section: Option<string>, photoPath: Option<string>)
    modifies db
    requires db.Valid()
    ensures db.Valid() && db.marks == old(db.marks)
    ensures regNo.Some? && HasRegNo(old(db.students), regNo.value) ==> db.students == old(db.students)
    ensures regNo.Some? && !HasRegNo(old(db.students), regNo.value) ==>
      db.students == old(db.students)
                     + [Student(old(db.nextStudentId), name, regNo, className, section, photoPath)]
    ensures regNo.None? ==>
      db.students == old(db.students)
                     + [Student(old(db.nextStudentId), name, regNo, className, section, photoPath),
                        Student(old(db.nextStudentId) + 1, name, regNo, className, section, photoPath)]
  {
    var before := db.students;
    db.AddStudent(Some(name), regNo, className, section, photoPath);
    if regNo.Some? && !HasRegNo(before, regNo.value) {
      assert db.students[|before|].regNo == regNo;
    }
    db.AddStudent(Some(name), regNo, className, section, photoPath);
  }

  // ---------------------------------------------------------------- view_attendance

  /** One row of the view: reg_no, name, class, date, time, status. */
  datatype ViewRow = ViewRow(regNo: Option<string>, name: string, className: Option<string>,
                             date: string, time: string, status: Status)

  function StudentById(students: seq<Student>, id: nat): (r: Option<Student>)
    ensures r.Some? ==> r.value in students && r.value.id == id
    ensures r.None? ==> forall s :: s in students ==> s.id != id
  {
    if |students| == 0 then None
    else if students[0].id == id then Some(students[0])
    else StudentById(students[1..], id)
  }

  function JoinRow(s: Student, m: Mark): ViewRow {
    ViewRow(s.regNo, s.name, s.className, m.date, m.time, m.status)
  }

  /** The inner join on `students.id = attendance.student_id`, restricted to
      one date when `date` is given: a row whose student is missing drops
      out. */
  function Join(students: seq<Student>, marks: seq<Mark>, date: Option<string>): (r: seq<ViewRow>)
    ensures |r| <= |marks|
  {
    if |marks| == 0 then []
    else
      var rest := Join(students, marks[1..], date);
      match StudentById(students, marks[0].studentId)
      case None => rest
      case Some(s) =>
        if date.None? || marks[0].date == date.value then [JoinRow(s, marks[0])] + rest else rest
  }

  /** SQLite sorts NULL before every text value. */
  predicate RegNoLe(a: Option<string>, b: Option<string>) {
    a.None? || (b.Some? && StrLe(a.value, b.value))
  }

  predicate ByRegNo(a: ViewRow, b: ViewRow) {
    RegNoLe(a.regNo, b.regNo)
  }

  predicate ByDateThenRegNo(a: ViewRow, b: ViewRow) {
    StrLt(a.date, b.date) || (a.date == b.date && RegNoLe(a.regNo, b.regNo))
  }

  lemma RegNoLeTotalPreorder(a: Option<string>, b: Option<string>, c: Option<string>)
    ensures RegNoLe(a, b) || RegNoLe(b, a)
    ensures RegNoLe(a, b) && RegNoLe(b, c) ==> RegNoLe(a, c)
  {
    if a.Some? && b.Some? {
      StrLeTotal(a.value, b.value);
      if c.Some? && RegNoLe(a, b) && RegNoLe(b, c) {
        StrLeTransitive(a.value, b.value, c.value);
      }
    }
  }

  lemma ByRegNoIsTotalPreorder()
    ensures Sorting.TotalPreorder(ByRegNo)
  {
    forall a: ViewRow, b: ViewRow, c: ViewRow {
      RegNoLeTotalPreorder(a.regNo, b.regNo, c.regNo);
    }
  }

  lemma ByDateThenRegNoIsTotalPreorder()
    ensures Sorting.TotalPreorder(ByDateThenRegNo)
  {
    forall a: ViewRow, b: ViewRow
      ensures ByDateThenRegNo(a, b) || ByDateThenRegNo(b, a)
    {
      StrLeTotal(a.date, b.date);
      RegNoLeTotalPreorder(a.regNo, b.regNo, a.regNo);
    }
    forall a: ViewRow, b: ViewRow, c: ViewRow | ByDateThenRegNo(a, b) && ByDateThenRegNo(b, c)
      ensures ByDateThenRegNo(a, c)
    {
      RegNoLeTotalPreorder(a.regNo, b.regNo, c.regNo);
      if a.date != b.date && b.date != c.date {
        StrLeTransitive(a.date, b.date, c.date);
        if a.date == c.date {
          StrLeAntisymmetric(a.date, b.date);
        }
      }
    }
  }

  /** `view_attendance`: with a (non-empty) date, that day's rows ordered by
      registration number; otherwise every row, ordered by date and then
      registration number. */
  function ViewAttendance(students: seq<Student>, marks: seq<Mark>, date: Option<string>)
    : (r: seq<ViewRow>)
    ensures Given(date) ==> multiset(r) == multiset(Join(students, marks, date))
    ensures !Given(date) ==> multiset(r) == multiset(Join(students, marks, None))
    ensures Given(date) ==> Sorting.SortedBy(r, ByRegNo)
    ensures !Given(date) ==> Sorting.SortedBy(r, ByDateThenRegNo)
  {
    if Given(date) then
      ByRegNoIsTotalPreorder();
      Sorting.SortBySorted(Join(students, marks, date), ByRegNo);
      Sorting.SortBy(Join(students, marks, date), ByRegNo)
    else
      ByDateThenRegNoIsTotalPreorder();
      Sorting.SortBySorted(Join(students, marks, None), ByDateThenRegNo);
      Sorting.SortBy(Join(students, marks, None), ByDateThenRegNo)
  }

  /** The row `m` contributes to the join, when its student exists and it is
      on the requested date. */
  predicate JoinedFrom(students: seq<Student>, m: Mark, date: Option<string>, v: ViewRow) {
    && StudentById(students, m.studentId).Some?
    && (date.None? || m.date == date.value)
    && v == JoinRow(StudentById(students, m.studentId).value, m)
  }

  /** A row of the join is an attendance row paired with the student it names,
      on the requested date; and every such pair is in the join. */
  lemma {:induction false} JoinMembers(students: seq<Student>, marks: seq<Mark>, date: Option<string>,
                                       v: ViewRow)
    ensures v in Join(students, marks, date) <==>
      exists i :: 0 <= i < |marks| && JoinedFrom(students, marks[i], date, v)
    decreases |marks|
  {
    if |marks| > 0 {
      var tail := marks[1..];
      JoinMembers(students, tail, date, v);
      assert v in Join(students, marks, date) <==>
        JoinedFrom(students, marks[0], date, v) || v in Join(students, tail, date);
      if exists i :: 0 <= i < |tail| && JoinedFrom(students, tail[i], date, v) {
        var i :| 0 <= i < |tail| && JoinedFrom(students, tail[i], date, v);
        assert marks[i + 1] == tail[i];
      }
      if exists i :: 0 < i < |marks| && JoinedFrom(students, marks[i], date, v) {
        var i :| 0 < i < |marks| && JoinedFrom(students, marks[i], date, v);
        assert tail[i - 1] == marks[i];
      }
    }
  }

  /** With a date, the view holds only rows of that date; a row whose student
      does not exist never appears. */
  lemma ViewRowsOnDate(students: seq<Student>, marks: seq<Mark>, date: string, v: ViewRow)
    requires date != ""
    requires v in ViewAttendance(students, marks, Some(date))
    ensures v.date == date
    ensures exists s :: s in students && v.regNo == s.regNo && v.name == s.name
  {
    var r := ViewAttendance(students, marks, Some(date));
    assert v in multiset(r);
    JoinMembers(students, marks, Some(date), v);
  }

  /** An attendance row whose student is missing contributes no row. */
  lemma {:induction false} OrphanExcluded(students: seq<Student>, marks: seq<Mark>, m: Mark)
    requires StudentById(students, m.studentId).None?
    ensures Join(students, marks + [m], None) == Join(students, marks, None)
    decreases |marks|
  {
    if |marks| > 0 {
      assert (marks + [m])[1..] == marks[1..] + [m];
      OrphanExcluded(students, marks[1..], m);
    }
  }
}

/** The records of the back end's object-relational schema: period attendance
    rows, notifications, stored face encodings and user accounts, with the column
    defaults and the uniqueness constraints the schema declares.

    Confidence scores are nullable floating-point percentages in the schema; here
    they are optional integers counting tenths of a percent, which is the
    precision the export formats them with. Timestamps are uninterpreted strings supplied
    by the caller. */
module Models {
  import opened Common

  /** A percentage in tenths: 750 stands for 75.0%. */
  type Tenths = int

  // Column defaults.
  const DefaultEmotion: string := "Neutral"
  const StatusLive: string := "LIVE"
  const StatusSpoofed: string := "SPOOFED"
  const DefaultLiveness: Tenths := 750
  const DefaultRecognition: Tenths := 850
  const Unread: int := 0
  const Read: int := 1
  const DefaultNumImages: int := 1

  datatype Attendance = Attendance(
    id: nat,
    studentId: string,
    name: string,
    timestamp: string,
    period: string,
    date: string,
    time: string,
    emotion: string,
    spoofStatus: string,
    liveness: Option<Tenths>,
    recognition: Option<Tenths>)

  /** A row inserted with only the columns that have no default given. */
  function AttendanceWithDefaults(id: nat, studentId: string, name: string, timestamp: string,
                                  period: string, date: string, time: string): Attendance
  {
    Attendance(id, studentId, name, timestamp, period, date, time,
               DefaultEmotion, StatusLive, Some(DefaultLiveness), Some(DefaultRecognition))
  }

  /** `read` is an integer flag: 0 unread, 1 read. */
  datatype Notification = Notification(
    id: nat,
    kind: string,
    title: string,
    message: string,
    timestamp: string,
    read: int)

  datatype FaceEncoding = FaceEncoding(
    id: nat,
    personId: string,
    encodingData: string,
    numImages: int)

  datatype User = User(
    id: nat,
    username: string,
    password: string,
    role: string,
    fullName: string,
    studentId: Option<string>)

  /** The roles the schema documents for `User.role`. */
  predicate KnownRole(role: string) {
    role == "student" || role == "teacher" || role == "admin" || role == "education"
  }

  // Uniqueness constraints.

  predicate PersonIdsUnique(t: seq<FaceEncoding>) {
    forall i, j :: 0 <= i < j < |t| ==> t[i].personId != t[j].personId
  }

  predicate UsernamesUnique(t: seq<User>) {
    forall i, j :: 0 <= i < j < |t| ==> t[i].username != t[j].username
  }

  predicate HasUsername(t: seq<User>, name: string) {
    exists i :: 0 <= i < |t| && t[i].username == name
  }

  /** Inserting a user: the unique index on `username` refuses a second account
      with a name already in the table. */
  function InsertUser(t: seq<User>, u: User): (r: Result<seq<User>>)
    ensures r.Ok? <==> !HasUsername(t, u.username)
    ensures r.Ok? ==> r.value == t + [u]
    ensures r.Err? ==> r.message == "UNIQUE constraint failed: users.username"
    ensures UsernamesUnique(t) && r.Ok? ==> UsernamesUnique(r.value)
  {
    if HasUsername(t, u.username) then Err("UNIQUE constraint failed: users.username")
    else Ok(t + [u])
  }
}

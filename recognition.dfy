/** The bookkeeping around face recognition: the lists of known faces rebuilt
    from the encodings table, the choice of the best match, the liveness and
    emotion outcome of a face, the eligibility rules for marking, the per-face
    loops of the two recognition endpoints and the validation of an
    enrollment request.

    What the vision libraries compute is given: for every detected face its
    crop size, the liveness detector's verdict (or its failure), the dominant
    emotion (if any), the match flags and the distances to the known faces.
    Distances are in thousandths, so a confidence of `(1 - d) * 100` percent
    is `1000 - d` tenths of a percent. */
module Recognition {
  import opened Common
  import opened Models
  import PersonIds
  import AttendanceDb
  import AppLedgers
  import PeriodAttendance

  const MaxFaces: nat := 60
  const UnknownName: string := "Unknown"
  const NoRoll: string := "N/A"
  const NoFacesMessage: string := "No faces detected."
  /** Liveness reported for a crop of 20 pixels or less in either dimension. */
  const SmallCropLiveness: Tenths := 200
  /** Liveness reported when the analysis raises. */
  const FailedAnalysisLiveness: Tenths := 300

  // ---------------------------------------------------------------- known faces

  /** The three parallel global lists of `load_known_faces`. */
  class FaceRegistry {
    var encodings: seq<string>
    var names: seq<string>
    var rolls: seq<string>

    ghost predicate Aligned()
      reads this
    {
      |encodings| == |names| == |rolls|
    }

    constructor()
      ensures Aligned() && encodings == [] && names == [] && rolls == []
    {
      encodings, names, rolls := [], [], [];
    }

    /** `load_known_faces`: clears the lists, then appends one encoding, one
        name and one roll number per stored encoding, in table order. A
        failing connection leaves the lists empty. */
    method Load(table: seq<FaceEncoding>, dbFailure: bool)
      modifies this
      ensures Aligned()
      ensures dbFailure ==> encodings == [] && names == [] && rolls == []
      ensures !dbFailure ==> |encodings| == |table|
      ensures !dbFailure ==> forall i :: 0 <= i < |table| ==>
        encodings[i] == table[i].encodingData
        && (rolls[i], names[i]) == PersonIds.KnownFace(table[i].personId)
    {
      encodings, names, rolls := [], [], [];
      if dbFailure {
        return;
      }
      var i := 0;
      while i < |table|
        invariant 0 <= i <= |table|
        invariant |encodings| == |names| == |rolls| == i
        invariant forall k :: 0 <= k < i ==>
          encodings[k] == table[k].encodingData
          && (rolls[k], names[k]) == PersonIds.KnownFace(table[k].personId)
      {
        var (roll, name) := PersonIds.KnownFace(table[i].personId);
        encodings := encodings + [table[i].encodingData];
        rolls := rolls + [roll];
        names := names + [name];
        i := i + 1;
      }
    }
  }

  // ---------------------------------------------------------------- best match

  /** `np.argmin`: the first index of a smallest value. */
  function ArgMin(ds: seq<int>): (i: nat)
    requires |ds| > 0
    ensures i < |ds|
    ensures forall j :: 0 <= j < |ds| ==> ds[i] <= ds[j]
    ensures forall j :: 0 <= j < i ==> ds[i] < ds[j]
  {
    if |ds| == 1 then 0
    else
      var k := ArgMin(ds[1..]);
      if ds[0] <= ds[k + 1] then 0 else k + 1
  }

  /** The known face a detected face is named after: the nearest one, and
      only when it is itself a match. */
  function BestMatch(matches: seq<bool>, distances: seq<int>): (r: Option<nat>)
    requires |matches| == |distances|
    ensures r.Some? ==> r.value < |matches| && matches[r.value]
    ensures r.Some? ==> forall j :: 0 <= j < |distances| ==> distances[r.value] <= distances[j]
    ensures r.Some? ==> forall j :: 0 <= j < r.value ==> distances[r.value] < distances[j]
    ensures r.None? <==> true !in matches || !matches[ArgMin(distances)]
  {
    if true in matches then
      var best := ArgMin(distances);
      if matches[best] then Some(best) else None
    else None
  }

  /** A match strictly nearer than every other known face is chosen. */
  lemma NearestMatchChosen(matches: seq<bool>, distances: seq<int>, i: nat)
    requires |matches| == |distances| && i < |matches| && matches[i]
    requires forall j :: 0 <= j < |distances| && j != i ==> distances[i] < distances[j]
    ensures BestMatch(matches, distances) == Some(i)
  {
    assert matches[i] in matches;
  }

  /** When the nearest known face is not a match, the face stays unnamed even
      if another known face matches. The match flags and the distances are
      independent inputs here; in the running system both come from the same
      encodings, a face matching exactly when its distance is at most 500
      thousandths (tolerance 0.5), so a nearer non-match with a farther match
      does not arise there: this lemma states what the selection rule does,
      not a case the system reaches. */
  lemma NearestNonMatchLeavesUnknown(matches: seq<bool>, distances: seq<int>, i: nat)
    requires |matches| == |distances| && i < |matches| && !matches[i]
    requires forall j :: 0 <= j < |distances| && j != i ==> distances[i] < distances[j]
    ensures BestMatch(matches, distances).None?
  {
  }

  datatype Identity = Identity(name: string, roll: string, confidence: Tenths)

  /** The name, roll number and confidence of a detected face; "Unknown", "N/A"
      and 0 unless a best match exists. */
  function Identify(names: seq<string>, rolls: seq<string>, matches: seq<bool>,
                    distances: seq<int>): (r: Identity)
    requires |names| == |rolls| == |matches| == |distances|
    ensures BestMatch(matches, distances).None? ==> r == Identity(UnknownName, NoRoll, 0)
    ensures BestMatch(matches, distances).Some? ==>
      var i := BestMatch(matches, distances).value;
      r == Identity(names[i], rolls[i], 1000 - distances[i])
  {
    match BestMatch(matches, distances)
    case None => Identity(UnknownName, NoRoll, 0)
    case Some(i) => Identity(names[i], rolls[i], 1000 - distances[i])
  }

  // ---------------------------------------------------------------- liveness and emotion

  /** What the libraries report for one detected face. `liveness` is `None`
      when the liveness detector raises; `emotion` is `None` when emotion
      analysis raises or reports nothing. */
  datatype Observation = Observation(
    cropHeight: int,
    cropWidth: int,
    liveness: Option<(bool, Tenths)>,
    emotion: Option<string>,
    matches: seq<bool>,
    distances: seq<int>)

  datatype Analysis = Analysis(isLive: bool, liveness: Tenths, emotion: string)

  predicate BigEnough(o: Observation) {
    o.cropHeight > 20 && o.cropWidth > 20
  }

  /** Liveness and emotion: a crop of 20 pixels or less counts as a spoof
      with liveness 20.0; a failing detector as a spoof with 30.0; emotion is
      analysed for live faces only. */
  function Analyse(o: Observation): (a: Analysis)
    ensures !BigEnough(o) ==> a == Analysis(false, SmallCropLiveness, DefaultEmotion)
    ensures BigEnough(o) && o.liveness.None? ==> a == Analysis(false, FailedAnalysisLiveness, DefaultEmotion)
    ensures BigEnough(o) && o.liveness.Some? ==>
      a.isLive == o.liveness.value.0 && a.liveness == o.liveness.value.1
    ensures !a.isLive ==> a.emotion == DefaultEmotion
    ensures a.isLive ==> a.emotion == o.emotion.GetOr(DefaultEmotion)
  {
    if !BigEnough(o) then Analysis(false, SmallCropLiveness, DefaultEmotion)
    else
      match o.liveness
      case None => Analysis(false, FailedAnalysisLiveness, DefaultEmotion)
      case Some((live, score)) =>
        Analysis(live, score, if live then o.emotion.GetOr(DefaultEmotion) else DefaultEmotion)
  }

  // ---------------------------------------------------------------- eligibility

  /** `/api/recognize` marks a face that is named, has a roll number, is
      recognised with more than 50% confidence and is live. */
  predicate Eligible(id: Identity, a: Analysis) {
    id.name != UnknownName && id.roll != NoRoll && id.confidence > 500 && a.isLive
  }

  /** `/api/enhanced-recognize` asks for more than 85% confidence. */
  predicate EnhancedEligible(id: Identity, a: Analysis) {
    id.name != UnknownName && id.confidence > 850 && a.isLive
  }

  /** Every face the enhanced endpoint marks, the basic endpoint would mark
      too. */
  lemma EnhancedIsStricter(id: Identity, a: Analysis)
    requires EnhancedEligible(id, a) && id.roll != NoRoll
    ensures Eligible(id, a)
  {
  }

  /** A face is never marked when it is unnamed, spoofed, or recognised with
      50% confidence or less. */
  lemma IneligibleFaces(id: Identity, a: Analysis)
    ensures id.name == UnknownName || !a.isLive || id.confidence <= 500 ==> !Eligible(id, a)
    ensures id.name == UnknownName || !a.isLive || id.confidence <= 850 ==> !EnhancedEligible(id, a)
  {
  }

  // ---------------------------------------------------------------- /api/recognize

  /** The clock readings a request sees. */
  datatype Clock = Clock(today: string, time: string, timestamp: string)

  datatype FaceResult = FaceResult(
    name: string,
    roll: string,
    spoofed: bool,
    emotion: string,
    recognition: Tenths,
    liveness: Tenths,
    isLive: bool,
    marked: bool,
    alreadyMarked: bool)

  predicate Reports(r: FaceResult, id: Identity, a: Analysis) {
    && r.name == id.name && r.roll == id.roll && r.recognition == id.confidence
    && r.isLive == a.isLive && r.spoofed == !a.isLive
    && r.liveness == a.liveness && r.emotion == a.emotion
  }

  predicate ObservationFits(o: Observation, registry: FaceRegistry)
    reads registry
  {
    |o.matches| == |o.distances| == |registry.names| == |registry.rolls|
  }

  function IdentifyIn(o: Observation, registry: FaceRegistry): Identity
    reads registry
    requires ObservationFits(o, registry)
  {
    Identify(registry.names, registry.rolls, o.matches, o.distances)
  }

  // ---------------------------------------------------------------- the tables a request writes

  /** The student, attendance and enhanced attendance tables, each with the
      next id it hands out. */
  datatype Tables = Tables(
    students: seq<AttendanceDb.Student>, nextStudentId: nat,
    marks: seq<AttendanceDb.Mark>, nextMarkId: nat,
    enhanced: seq<AppLedgers.EnhancedRow>, nextSerial: nat)

  function TablesOf(db: AttendanceDb.Store, enhanced: AppLedgers.EnhancedLedger): Tables
    reads db, enhanced
  {
    Tables(db.students, db.nextStudentId, db.marks, db.nextMarkId, enhanced.rows, enhanced.nextSerial)
  }

  /** The period attendance and notification tables with their next ids. */
  datatype PeriodTables = PeriodTables(
    rows: seq<Models.Attendance>, nextId: nat,
    notifications: seq<Models.Notification>, nextNotificationId: nat)

  function PeriodTablesOf(ledger: PeriodAttendance.PeriodLedger): PeriodTables
    reads ledger
  {
    PeriodTables(ledger.rows, ledger.nextId, ledger.notifications, ledger.nextNotificationId)
  }

  /** Every table of `t` is a prefix of the same table of `u`. */
  predicate Extends(t: Tables, u: Tables) {
    t.students <= u.students && t.marks <= u.marks && t.enhanced <= u.enhanced
  }

  predicate PeriodExtends(p: PeriodTables, q: PeriodTables) {
    p.rows <= q.rows && p.notifications <= q.notifications
  }

  /** The placeholder insert: a student named after the face, class and
      section 'Unknown', when no student has the roll number. */
  function WithStudent(t: Tables, name: string, roll: string): Tables {
    if AttendanceDb.HasRegNo(t.students, roll) then t
    else t.(students := t.students + [AttendanceDb.Student(t.nextStudentId, name, Some(roll), Some("Unknown"),
                                                          Some("Unknown"), Some(""))],
            nextStudentId := t.nextStudentId + 1)
  }

  /** `save_attendance_to_db`: a 'Present' row for today for the student with
      the roll number, unless there is none or it already has a row today. */
  function WithBasicMark(t: Tables, roll: string, today: string, time: string): Tables {
    match AttendanceDb.FindByRegNo(t.students, roll)
    case None => t
    case Some(s) =>
      if AttendanceDb.MarkedOn(t.marks, s.id, today) then t
      else t.(marks := t.marks + [AttendanceDb.Mark(t.nextMarkId, s.id, today, time, AttendanceDb.Present)],
              nextMarkId := t.nextMarkId + 1)
  }

  /** `mark_enhanced_attendance`: one row when its guards let the face through. */
  function WithEnhancedMark(t: Tables, id: Identity, a: Analysis, clock: Clock): Tables {
    if AppLedgers.CanMarkEnhanced(t.enhanced, id.name, id.roll, clock.today, false) then
      t.(enhanced := t.enhanced + [AppLedgers.EnhancedRow(t.nextSerial, id.roll, id.name, clock.today, clock.time,
                                                          a.emotion, if a.isLive then StatusLive else StatusSpoofed,
                                                          a.liveness, id.confidence, clock.timestamp)],
         nextSerial := t.nextSerial + 1)
    else t
  }

  /** The marking block of `/api/recognize` for one face, on the student,
      attendance and enhanced tables: nothing for an ineligible face;
      otherwise the placeholder student, the basic mark, then the enhanced
      mark. */
  function MarkedTables(t: Tables, id: Identity, a: Analysis, clock: Clock): Tables {
    if !Eligible(id, a) then t
    else WithEnhancedMark(WithBasicMark(WithStudent(t, id.name, id.roll), id.roll, clock.today, clock.time),
                          id, a, clock)
  }

  /** The same block on the period ledger: a row and its notification when
      the face is eligible, a period is given and the slot is free. */
  function MarkedPeriod(p: PeriodTables, id: Identity, a: Analysis, period: string, date: string,
                        clock: Clock): PeriodTables {
    if !Eligible(id, a) || period == "" || PeriodAttendance.HasSlot(p.rows, id.roll, date, period) then p
    else PeriodTables(
      p.rows + [PeriodAttendance.MarkedRow(p.nextId, id.roll, id.name, date, period, a.emotion, a.liveness,
                                           id.confidence, a.isLive, clock.time, clock.timestamp)],
      p.nextId + 1,
      p.notifications + [PeriodAttendance.MarkedNotification(p.nextNotificationId, id.roll, id.name,
                                                             clock.timestamp)],
      p.nextNotificationId + 1)
  }

  /** The marking block of `/api/enhanced-recognize` for one face: the
      enhanced mark, and the basic mark only when the enhanced one went in. */
  function EnhancedMarkedTables(t: Tables, id: Identity, a: Analysis, clock: Clock): Tables {
    if EnhancedEligible(id, a) && AppLedgers.CanMarkEnhanced(t.enhanced, id.name, id.roll, clock.today, false)
    then WithBasicMark(WithEnhancedMark(t, id, a, clock), id.roll, clock.today, clock.time)
    else t
  }

  /** What a request makes of one detected face. */
  datatype Face = Face(id: Identity, a: Analysis)

  function Seen(faces: seq<Observation>, registry: FaceRegistry): (s: seq<Face>)
    reads registry
    requires forall i :: 0 <= i < |faces| ==> ObservationFits(faces[i], registry)
    ensures |s| == |faces|
    ensures forall i :: 0 <= i < |faces| ==> s[i] == Face(IdentifyIn(faces[i], registry), Analyse(faces[i]))
  {
    if |faces| == 0 then [] else [Face(IdentifyIn(faces[0], registry), Analyse(faces[0]))] + Seen(faces[1..], registry)
  }

  /** What a request makes of its first `k` detected faces. */
  function SeenUpTo(faces: seq<Observation>, k: nat, registry: FaceRegistry): (s: seq<Face>)
    reads registry
    requires k <= |faces|
    requires forall i :: 0 <= i < |faces| ==> ObservationFits(faces[i], registry)
    ensures |s| == k
  {
    Seen(faces[..k], registry)
  }

  /** The tables after marking the faces one after the other. */
  function MarkAll(t: Tables, faces: seq<Face>, clock: Clock): Tables {
    if |faces| == 0 then t
    else
      var last := faces[|faces| - 1];
      MarkedTables(MarkAll(t, faces[..|faces| - 1], clock), last.id, last.a, clock)
  }

  function MarkAllPeriods(p: PeriodTables, faces: seq<Face>, period: string, date: string, clock: Clock): PeriodTables {
    if |faces| == 0 then p
    else
      var last := faces[|faces| - 1];
      MarkedPeriod(MarkAllPeriods(p, faces[..|faces| - 1], period, date, clock), last.id, last.a, period, date, clock)
  }

  function EnhancedMarkAll(t: Tables, faces: seq<Face>, clock: Clock): Tables {
    if |faces| == 0 then t
    else
      var last := faces[|faces| - 1];
      EnhancedMarkedTables(EnhancedMarkAll(t, faces[..|faces| - 1], clock), last.id, last.a, clock)
  }

  /** One face of `/api/recognize`: an ineligible face changes nothing; an
      eligible one only appends, leaves a student with its roll number, a
      basic row for that student today, and (with a roll number) an enhanced
      row for today. */
  lemma MarkedTablesEffect(t: Tables, id: Identity, a: Analysis, clock: Clock)
    ensures var u := MarkedTables(t, id, a, clock);
      && Extends(t, u)
      && (!Eligible(id, a) ==> u == t)
      && (Eligible(id, a) ==>
            && AttendanceDb.HasRegNo(u.students, id.roll)
            && AttendanceDb.FindByRegNo(u.students, id.roll).Some?
            && AttendanceDb.MarkedOn(u.marks, AttendanceDb.FindByRegNo(u.students, id.roll).value.id, clock.today)
            && (id.roll != "" ==> AppLedgers.EnhancedMarkedOn(u.enhanced, id.roll, clock.today)))
  {
    if Eligible(id, a) {
      var t1 := WithStudent(t, id.name, id.roll);
      if !AttendanceDb.HasRegNo(t.students, id.roll) {
        assert t1.students[|t.students|].regNo == Some(id.roll);
      }
      var s := AttendanceDb.FindByRegNo(t1.students, id.roll).value;
      var t2 := WithBasicMark(t1, id.roll, clock.today, clock.time);
      if !AttendanceDb.MarkedOn(t1.marks, s.id, clock.today) {
        assert t2.marks[|t1.marks|].studentId == s.id;
      }
      var u := WithEnhancedMark(t2, id, a, clock);
      if id.roll != "" && !AppLedgers.EnhancedMarkedOn(t2.enhanced, id.roll, clock.today) {
        assert u.enhanced[|t2.enhanced|].studentId == id.roll;
      }
    }
  }

  /** One face on the period ledger: an ineligible face or an empty period
      changes nothing; otherwise the slot is taken afterwards, and a row comes
      with exactly one notification. */
  lemma MarkedPeriodEffect(p: PeriodTables, id: Identity, a: Analysis, period: string, date: string,
                           clock: Clock)
    ensures var q := MarkedPeriod(p, id, a, period, date, clock);
      && PeriodExtends(p, q)
      && |q.rows| - |p.rows| == |q.notifications| - |p.notifications| <= 1
      && (!Eligible(id, a) || period == "" ==> q == p)
      && (Eligible(id, a) && period != "" ==> PeriodAttendance.HasSlot(q.rows, id.roll, date, period))
  {
    var q := MarkedPeriod(p, id, a, period, date, clock);
    if Eligible(id, a) && period != "" && !PeriodAttendance.HasSlot(p.rows, id.roll, date, period) {
      PeriodAttendance.MarkedSlotIsTaken(p.rows, q.rows[|p.rows|]);
    }
  }

  /** One face of `/api/enhanced-recognize`: the student table never changes,
      tables only grow, the basic table gains a row only with the enhanced
      one, and an eligible face with a roll number has an enhanced row today
      afterwards. */
  lemma EnhancedMarkedTablesEffect(t: Tables, id: Identity, a: Analysis, clock: Clock)
    ensures var u := EnhancedMarkedTables(t, id, a, clock);
      && Extends(t, u) && u.students == t.students
      && |u.marks| - |t.marks| <= |u.enhanced| - |t.enhanced| <= 1
      && (EnhancedEligible(id, a) && id.roll != "" ==> AppLedgers.EnhancedMarkedOn(u.enhanced, id.roll, clock.today))
  {
    var u := EnhancedMarkedTables(t, id, a, clock);
    if EnhancedEligible(id, a) && AppLedgers.CanMarkEnhanced(t.enhanced, id.name, id.roll, clock.today, false) {
      var t1 := WithEnhancedMark(t, id, a, clock);
      assert t1.enhanced[|t.enhanced|].studentId == id.roll;
      AppLedgers.EnhancedMarkedOnGrows(t1.enhanced, u.enhanced, id.roll, clock.today);
    }
  }

  /** A request of `/api/recognize` only appends, and afterwards every
      eligible face's student exists and, with a roll number, has an enhanced
      row for today. */
  lemma {:induction false} MarkAllEffect(t: Tables, faces: seq<Face>, clock: Clock)
    ensures var u := MarkAll(t, faces, clock);
      && Extends(t, u)
      && forall k :: 0 <= k < |faces| && Eligible(faces[k].id, faces[k].a) ==>
           && AttendanceDb.HasRegNo(u.students, faces[k].id.roll)
           && (faces[k].id.roll != "" ==> AppLedgers.EnhancedMarkedOn(u.enhanced, faces[k].id.roll, clock.today))
  {
    if |faces| > 0 {
      var init := faces[..|faces| - 1];
      var last := faces[|faces| - 1];
      var m := MarkAll(t, init, clock);
      var u := MarkAll(t, faces, clock);
      MarkAllEffect(t, init, clock);
      MarkedTablesEffect(m, last.id, last.a, clock);
      forall k | 0 <= k < |faces| && Eligible(faces[k].id, faces[k].a)
        ensures AttendanceDb.HasRegNo(u.students, faces[k].id.roll)
        ensures faces[k].id.roll != "" ==> AppLedgers.EnhancedMarkedOn(u.enhanced, faces[k].id.roll, clock.today)
      {
        if k < |init| {
          assert init[k] == faces[k];
          RegNoGrows(m.students, u.students, faces[k].id.roll);
          if faces[k].id.roll != "" {
            AppLedgers.EnhancedMarkedOnGrows(m.enhanced, u.enhanced, faces[k].id.roll, clock.today);
          }
        }
      }
    }
  }

  /** A request's period marks only append, one notification per row, and
      afterwards every eligible face has its slot when a period is given. */
  lemma {:induction false} MarkAllPeriodsEffect(p: PeriodTables, faces: seq<Face>, period: string, date: string,
                                                clock: Clock)
    ensures var q := MarkAllPeriods(p, faces, period, date, clock);
      && PeriodExtends(p, q)
      && |q.rows| - |p.rows| == |q.notifications| - |p.notifications|
      && (period == "" ==> q == p)
      && forall k :: 0 <= k < |faces| && Eligible(faces[k].id, faces[k].a) && period != "" ==>
           PeriodAttendance.HasSlot(q.rows, faces[k].id.roll, date, period)
  {
    if |faces| > 0 {
      var init := faces[..|faces| - 1];
      var last := faces[|faces| - 1];
      var m := MarkAllPeriods(p, init, period, date, clock);
      var q := MarkAllPeriods(p, faces, period, date, clock);
      MarkAllPeriodsEffect(p, init, period, date, clock);
      MarkedPeriodEffect(m, last.id, last.a, period, date, clock);
      forall k | 0 <= k < |init| && Eligible(faces[k].id, faces[k].a) && period != ""
        ensures PeriodAttendance.HasSlot(q.rows, faces[k].id.roll, date, period)
      {
        assert init[k] == faces[k];
        SlotGrows(m.rows, q.rows, faces[k].id.roll, date, period);
      }
    }
  }

  /** A request of `/api/enhanced-recognize` leaves the students alone, only
      appends, never adds more basic rows than enhanced ones, and afterwards
      every eligible face with a roll number has an enhanced row today. */
  lemma {:induction false} EnhancedMarkAllEffect(t: Tables, faces: seq<Face>, clock: Clock)
    ensures var u := EnhancedMarkAll(t, faces, clock);
      && Extends(t, u) && u.students == t.students
      && |u.marks| - |t.marks| <= |u.enhanced| - |t.enhanced|
      && forall k :: 0 <= k < |faces| && EnhancedEligible(faces[k].id, faces[k].a) && faces[k].id.roll != "" ==>
           AppLedgers.EnhancedMarkedOn(u.enhanced, faces[k].id.roll, clock.today)
  {
    if |faces| > 0 {
      var init := faces[..|faces| - 1];
      var last := faces[|faces| - 1];
      var m := EnhancedMarkAll(t, init, clock);
      var u := EnhancedMarkAll(t, faces, clock);
      EnhancedMarkAllEffect(t, init, clock);
      EnhancedMarkedTablesEffect(m, last.id, last.a, clock);
      forall k | 0 <= k < |init| && EnhancedEligible(faces[k].id, faces[k].a) && faces[k].id.roll != ""
        ensures AppLedgers.EnhancedMarkedOn(u.enhanced, faces[k].id.roll, clock.today)
      {
        assert init[k] == faces[k];
        AppLedgers.EnhancedMarkedOnGrows(m.enhanced, u.enhanced, faces[k].id.roll, clock.today);
      }
    }
  }

  /** `MarkAllEffect` for the first `n` detected faces, face by face. */
  lemma SeenEffect(t: Tables, faces: seq<Observation>, n: nat, registry: FaceRegistry, clock: Clock)
    requires n <= |faces|
    requires forall j :: 0 <= j < |faces| ==> ObservationFits(faces[j], registry)
    ensures var u := MarkAll(t, Seen(faces[..n], registry), clock);
      && Extends(t, u)
      && forall i :: 0 <= i < n && Eligible(IdentifyIn(faces[i], registry), Analyse(faces[i])) ==>
           && AttendanceDb.HasRegNo(u.students, IdentifyIn(faces[i], registry).roll)
           && (IdentifyIn(faces[i], registry).roll != "" ==>
                 AppLedgers.EnhancedMarkedOn(u.enhanced, IdentifyIn(faces[i], registry).roll, clock.today))
  {
    var seen := Seen(faces[..n], registry);
    MarkAllEffect(t, seen, clock);
    assert forall i :: 0 <= i < n ==> seen[i] == Face(IdentifyIn(faces[i], registry), Analyse(faces[i]));
  }

  lemma MarkAllSnoc(t: Tables, faces: seq<Face>, f: Face, clock: Clock)
    ensures MarkAll(t, faces + [f], clock) == MarkedTables(MarkAll(t, faces, clock), f.id, f.a, clock)
  {
    assert (faces + [f])[..|faces|] == faces;
  }

  lemma MarkAllPeriodsSnoc(p: PeriodTables, faces: seq<Face>, f: Face, period: string, date: string, clock: Clock)
    ensures MarkAllPeriods(p, faces + [f], period, date, clock)
         == MarkedPeriod(MarkAllPeriods(p, faces, period, date, clock), f.id, f.a, period, date, clock)
  {
    assert (faces + [f])[..|faces|] == faces;
  }

  lemma EnhancedMarkAllSnoc(t: Tables, faces: seq<Face>, f: Face, clock: Clock)
    ensures EnhancedMarkAll(t, faces + [f], clock) == EnhancedMarkedTables(EnhancedMarkAll(t, faces, clock), f.id, f.a, clock)
  {
    assert (faces + [f])[..|faces|] == faces;
  }

  /** Seeing one more face appends what is made of it. */
  lemma SeenSnoc(faces: seq<Observation>, registry: FaceRegistry, i: nat)
    requires i < |faces|
    requires forall j :: 0 <= j < |faces| ==> ObservationFits(faces[j], registry)
    ensures Seen(faces[..i + 1], registry) == Seen(faces[..i], registry) + [Face(IdentifyIn(faces[i], registry), Analyse(faces[i]))]
  {
    assert forall j :: 0 <= j < i + 1 ==> faces[..i + 1][j] == faces[j];
    assert forall j :: 0 <= j < i ==> faces[..i][j] == faces[j];
  }

  lemma RegNoGrows(students: seq<AttendanceDb.Student>, later: seq<AttendanceDb.Student>, regNo: string)
    requires students <= later && AttendanceDb.HasRegNo(students, regNo)
    ensures AttendanceDb.HasRegNo(later, regNo)
  {
    var i :| 0 <= i < |students| && students[i].regNo == Some(regNo);
    assert later[i] == students[i];
  }

  lemma SlotGrows(rows: seq<Models.Attendance>, later: seq<Models.Attendance>,
                  studentId: string, date: string, period: string)
    requires rows <= later && PeriodAttendance.HasSlot(rows, studentId, date, period)
    ensures PeriodAttendance.HasSlot(later, studentId, date, period)
  {
    var i :| 0 <= i < |rows| && PeriodAttendance.InSlot(rows[i], studentId, date, period);
    assert later[i] == rows[i];
  }

  /** The placeholder student and the basic mark of an eligible face. */
  method MarkBasic(id: Identity, clock: Clock, db: AttendanceDb.Store, enhanced: AppLedgers.EnhancedLedger)
    returns (basic: bool)
    modifies db
    requires db.Valid()
    ensures db.Valid()
    ensures TablesOf(db, enhanced)
         == WithBasicMark(WithStudent(old(TablesOf(db, enhanced)), id.name, id.roll), id.roll, clock.today, clock.time)
    ensures basic <==> |db.marks| > |old(db.marks)|
  {
    ghost var t0 := TablesOf(db, enhanced);
    AppLedgers.EnsureStudent(db, id.name, id.roll, false);
    ghost var t1 := TablesOf(db, enhanced);
    assert t1 == WithStudent(t0, id.name, id.roll);
    basic := AppLedgers.SaveAttendanceToDb(db, id.roll, clock.today, clock.time, false);
  }

  /** The three database writes for an eligible face: the placeholder
      student, the basic mark and the enhanced mark, each reporting whether it
      added a row. */
  method MarkEligible(id: Identity, a: Analysis, clock: Clock, db: AttendanceDb.Store,
                      enhanced: AppLedgers.EnhancedLedger)
    returns (basic: bool, enh: bool)
    modifies db, enhanced
    requires Eligible(id, a)
    requires db.Valid() && enhanced.Valid()
    ensures db.Valid() && enhanced.Valid()
    ensures TablesOf(db, enhanced) == MarkedTables(old(TablesOf(db, enhanced)), id, a, clock)
    ensures basic <==> |db.marks| > |old(db.marks)|
    ensures enh <==> |enhanced.rows| > |old(enhanced.rows)|
    ensures enh <==> id.roll != "" && !AppLedgers.EnhancedMarkedOn(old(enhanced.rows), id.roll, clock.today)
    ensures old(enhanced.rows) <= enhanced.rows
    ensures enh ==> AppLedgers.EnhancedMarkedOn(enhanced.rows, id.roll, clock.today)
  {
    basic := MarkBasic(id, clock, db, enhanced);
    ghost var t2 := TablesOf(db, enhanced);
    enh := enhanced.Mark(id.name, id.roll, a.emotion, a.liveness, id.confidence, a.isLive,
                         clock.today, clock.time, clock.timestamp, false);
    assert TablesOf(db, enhanced) == WithEnhancedMark(t2, id, a, clock);
    if enh {
      assert enhanced.rows[|enhanced.rows| - 1].studentId == id.roll;
    }
  }

  /** The period write for an eligible face: when a period is given, a row
      and its notification unless the slot is taken. */
  method MarkPeriod(id: Identity, a: Analysis, period: string, attendanceDate: string, clock: Clock,
                    ledger: PeriodAttendance.PeriodLedger)
    returns (inPeriod: bool)
    modifies ledger
    requires Eligible(id, a)
    requires ledger.Valid()
    ensures ledger.Valid()
    ensures PeriodTablesOf(ledger) == MarkedPeriod(old(PeriodTablesOf(ledger)), id, a, period, attendanceDate, clock)
    ensures inPeriod <==> |ledger.rows| > |old(ledger.rows)|
    ensures period != "" ==> (inPeriod <==> !PeriodAttendance.HasSlot(old(ledger.rows), id.roll, attendanceDate, period))
    ensures period == "" ==> ledger.rows == old(ledger.rows) && ledger.notifications == old(ledger.notifications)
  {
    inPeriod := false;
    if period != "" {
      var message;
      inPeriod, message := ledger.Mark(id.roll, id.name, attendanceDate, period, a.emotion, a.liveness,
                                       id.confidence, a.isLive, clock.time, clock.timestamp, None);
    }
  }

  /** The marking block of `/api/recognize` for an eligible face: make sure
      the student exists, then the basic ledger, then the enhanced ledger,
      then (when a period is given) the period ledger. The face counts as
      marked when any of the three accepted it. An ineligible face changes
      nothing. */
  method MarkFace(id: Identity, a: Analysis, period: string, attendanceDate: string, clock: Clock,
                  db: AttendanceDb.Store, enhanced: AppLedgers.EnhancedLedger,
                  ledger: PeriodAttendance.PeriodLedger)
    returns (marked: bool)
    modifies db, enhanced, ledger
    requires db.Valid() && enhanced.Valid() && ledger.Valid()
    ensures db.Valid() && enhanced.Valid() && ledger.Valid()
    ensures !Eligible(id, a) ==>
      && !marked && db.students == old(db.students) && db.marks == old(db.marks)
      && enhanced.rows == old(enhanced.rows)
      && ledger.rows == old(ledger.rows) && ledger.notifications == old(ledger.notifications)
    ensures period == "" ==> ledger.rows == old(ledger.rows) && ledger.notifications == old(ledger.notifications)
    ensures marked <==> Eligible(id, a) && (|db.marks| > |old(db.marks)| || |enhanced.rows| > |old(enhanced.rows)|
                                             || |ledger.rows| > |old(ledger.rows)|)
    ensures Eligible(id, a) ==>
      (|enhanced.rows| > |old(enhanced.rows)| <==>
         id.roll != "" && !AppLedgers.EnhancedMarkedOn(old(enhanced.rows), id.roll, clock.today))
    ensures old(enhanced.rows) <= enhanced.rows
    ensures |enhanced.rows| > |old(enhanced.rows)| ==>
      AppLedgers.EnhancedMarkedOn(enhanced.rows, id.roll, clock.today)
    ensures Eligible(id, a) && period != "" ==>
      (|ledger.rows| > |old(ledger.rows)| <==>
         !PeriodAttendance.HasSlot(old(ledger.rows), id.roll, attendanceDate, period))
    ensures TablesOf(db, enhanced) == MarkedTables(old(TablesOf(db, enhanced)), id, a, clock)
    ensures PeriodTablesOf(ledger) == MarkedPeriod(old(PeriodTablesOf(ledger)), id, a, period, attendanceDate, clock)
  {
    if !Eligible(id, a) {
      return false;
    }
    var basic, enh := MarkEligible(id, a, clock, db, enhanced);
    var inPeriod := MarkPeriod(id, a, period, attendanceDate, clock, ledger);
    marked := basic || enh || inPeriod;
  }

  /** One face of `/api/recognize`, with the already-marked flag read before
      the face is marked: it says the student had an enhanced row for today
      before this request. */
  method ProcessFace(o: Observation, period: string, attendanceDate: string, clock: Clock,
                     registry: FaceRegistry, db: AttendanceDb.Store,
                     enhanced: AppLedgers.EnhancedLedger, ledger: PeriodAttendance.PeriodLedger)
    returns (r: FaceResult)
    modifies db, enhanced, ledger
    requires ObservationFits(o, registry)
    requires db.Valid() && enhanced.Valid() && ledger.Valid()
    ensures db.Valid() && enhanced.Valid() && ledger.Valid()
    ensures Reports(r, IdentifyIn(o, registry), Analyse(o))
    ensures TablesOf(db, enhanced) == MarkedTables(old(TablesOf(db, enhanced)), IdentifyIn(o, registry), Analyse(o), clock)
    ensures PeriodTablesOf(ledger)
         == MarkedPeriod(old(PeriodTablesOf(ledger)), IdentifyIn(o, registry), Analyse(o), period, attendanceDate, clock)
    ensures r.marked ==> Eligible(IdentifyIn(o, registry), Analyse(o))
    ensures r.marked <==> Eligible(IdentifyIn(o, registry), Analyse(o))
                          && (|db.marks| > |old(db.marks)| || |enhanced.rows| > |old(enhanced.rows)|
                              || |ledger.rows| > |old(ledger.rows)|)
    ensures MarkedFrom(r, IdentifyIn(o, registry), Analyse(o), old(TablesOf(db, enhanced)), old(PeriodTablesOf(ledger)),
                       period, attendanceDate, clock)
    ensures r.alreadyMarked <==> r.name != UnknownName && r.roll != NoRoll
                                 && AppLedgers.EnhancedMarkedOn(old(enhanced.rows), r.roll, clock.today)
    ensures old(enhanced.rows) <= enhanced.rows
    ensures !Eligible(IdentifyIn(o, registry), Analyse(o)) ==>
      && db.marks == old(db.marks) && enhanced.rows == old(enhanced.rows) && ledger.rows == old(ledger.rows)
    ensures period == "" ==> ledger.rows == old(ledger.rows)
  {
    var id := IdentifyIn(o, registry);
    var a := Analyse(o);
    var already := id.name != UnknownName && id.roll != NoRoll
                   && AppLedgers.EnhancedMarkedOn(enhanced.rows, id.roll, clock.today);
    var marked := MarkFace(id, a, period, attendanceDate, clock, db, enhanced, ledger);
    r := FaceResult(id.name, id.roll, !a.isLive, a.emotion, id.confidence, a.liveness, a.isLive,
                    marked, already);
  }

  /** One face of `/api/recognize` as written: the already-marked flag is read
      after marking, so a face marked by this very request is reported as
      already marked. */
  method ProcessFaceAsWritten(o: Observation, period: string, attendanceDate: string, clock: Clock,
                              registry: FaceRegistry, db: AttendanceDb.Store,
                              enhanced: AppLedgers.EnhancedLedger, ledger: PeriodAttendance.PeriodLedger)
    returns (r: FaceResult)
    modifies db, enhanced, ledger
    requires ObservationFits(o, registry)
    requires db.Valid() && enhanced.Valid() && ledger.Valid()
    ensures db.Valid() && enhanced.Valid() && ledger.Valid()
    ensures Reports(r, IdentifyIn(o, registry), Analyse(o))
    ensures TablesOf(db, enhanced) == MarkedTables(old(TablesOf(db, enhanced)), IdentifyIn(o, registry), Analyse(o), clock)
    ensures PeriodTablesOf(ledger)
         == MarkedPeriod(old(PeriodTablesOf(ledger)), IdentifyIn(o, registry), Analyse(o), period, attendanceDate, clock)
    ensures r.alreadyMarked <==> r.name != UnknownName && r.roll != NoRoll
                                 && AppLedgers.EnhancedMarkedOn(enhanced.rows, r.roll, clock.today)
    ensures |enhanced.rows| > |old(enhanced.rows)| ==> r.marked && r.alreadyMarked
  {
    var id := IdentifyIn(o, registry);
    var a := Analyse(o);
    var marked := MarkFace(id, a, period, attendanceDate, clock, db, enhanced, ledger);
    var already := id.name != UnknownName && id.roll != NoRoll
                   && AppLedgers.EnhancedMarkedOn(enhanced.rows, id.roll, clock.today);
    r := FaceResult(id.name, id.roll, !a.isLive, a.emotion, id.confidence, a.liveness, a.isLive,
                    marked, already);
  }

  /** The marked flag of `/api/recognize`: the face is eligible and the basic,
      enhanced or period table gains a row for it when it is marked on the
      tables `t` and `p`. */
  predicate MarkedFrom(r: FaceResult, id: Identity, a: Analysis, t: Tables, p: PeriodTables,
                       period: string, date: string, clock: Clock) {
    r.marked <==> Eligible(id, a) && (|MarkedTables(t, id, a, clock).marks| > |t.marks|
                                      || |MarkedTables(t, id, a, clock).enhanced| > |t.enhanced|
                                      || |MarkedPeriod(p, id, a, period, date, clock).rows| > |p.rows|)
  }

  /** The corrected already-marked flag, read from the enhanced table as it
      was before the face was marked. */
  predicate FlaggedFrom(r: FaceResult, rows: seq<AppLedgers.EnhancedRow>, today: string) {
    r.alreadyMarked <==> r.name != UnknownName && r.roll != NoRoll && AppLedgers.EnhancedMarkedOn(rows, r.roll, today)
  }

  /** What the corrected already-marked flag of a face says once the whole
      request is done: a flagged student has an enhanced row for today, and a
      named student with a roll number who had one before the request is
      flagged. */
  predicate AlreadyMarkedFits(r: FaceResult, start: seq<AppLedgers.EnhancedRow>,
                              end: seq<AppLedgers.EnhancedRow>, today: string) {
    && (r.alreadyMarked ==> AppLedgers.EnhancedMarkedOn(end, r.roll, today))
    && (r.name != UnknownName && r.roll != NoRoll && AppLedgers.EnhancedMarkedOn(start, r.roll, today)
        ==> r.alreadyMarked)
  }

  /** Processing one more face keeps the earlier faces' flags fitting and
      makes the new face's flag fit. */
  lemma FlagsStayFitting(results: seq<FaceResult>, r: FaceResult, start: seq<AppLedgers.EnhancedRow>,
                         before: seq<AppLedgers.EnhancedRow>, after: seq<AppLedgers.EnhancedRow>,
                         today: string)
    requires start <= before <= after
    requires forall k :: 0 <= k < |results| ==> AlreadyMarkedFits(results[k], start, before, today)
    requires r.alreadyMarked <==> r.name != UnknownName && r.roll != NoRoll
                                  && AppLedgers.EnhancedMarkedOn(before, r.roll, today)
    ensures forall k :: 0 <= k < |results| + 1 ==>
      AlreadyMarkedFits((results + [r])[k], start, after, today)
  {
    forall k | 0 <= k < |results| + 1
      ensures AlreadyMarkedFits((results + [r])[k], start, after, today)
    {
      var f := (results + [r])[k];
      if f.alreadyMarked {
        if k < |results| {
          assert AppLedgers.EnhancedMarkedOn(before, f.roll, today);
        }
        AppLedgers.EnhancedMarkedOnGrows(before, after, f.roll, today);
      }
      if k == |results| && AppLedgers.EnhancedMarkedOn(start, f.roll, today) {
        AppLedgers.EnhancedMarkedOnGrows(start, before, f.roll, today);
      }
    }
  }

  datatype RecognizeResponse =
    | Rejected(status: int, message: string)
    | Recognized(note: Option<string>, faces: seq<FaceResult>)

  function Cap(n: nat): nat {
    if n > MaxFaces then MaxFaces else n
  }

  /** The per-face facts the face loop of `/api/recognize` keeps for the
      results so far: what each reports, that a mark needs an eligible face,
      how each already-marked flag fits the attendance table before (`start`)
      and now (`end`), and which table state each flag was read from. */
  ghost predicate ResultsFit(results: seq<FaceResult>, faces: seq<Observation>, registry: FaceRegistry,
                             t0: Tables, p0: PeriodTables, period: string, date: string,
                             start: seq<AppLedgers.EnhancedRow>, end: seq<AppLedgers.EnhancedRow>, clock: Clock)
    reads registry
    requires |results| <= |faces|
    requires forall j :: 0 <= j < |faces| ==> ObservationFits(faces[j], registry)
  {
    forall k :: 0 <= k < |results| ==>
      EntryFits(results[k], faces, k, registry, t0, p0, period, date, start, end, clock)
  }

  /** The facts `ResultsFit` keeps for the entry of face `k`. */
  ghost predicate EntryFits(r: FaceResult, faces: seq<Observation>, k: nat, registry: FaceRegistry,
                            t0: Tables, p0: PeriodTables, period: string, date: string,
                            start: seq<AppLedgers.EnhancedRow>, end: seq<AppLedgers.EnhancedRow>, clock: Clock)
    reads registry
    requires k < |faces|
    requires forall j :: 0 <= j < |faces| ==> ObservationFits(faces[j], registry)
  {
    && Reports(r, IdentifyIn(faces[k], registry), Analyse(faces[k]))
    && MarkedFrom(r, IdentifyIn(faces[k], registry), Analyse(faces[k]), MarkAll(t0, Seen(faces[..k], registry), clock),
                  MarkAllPeriods(p0, Seen(faces[..k], registry), period, date, clock), period, date, clock)
    && AlreadyMarkedFits(r, start, end, clock.today)
    && FlaggedFrom(r, MarkAll(t0, Seen(faces[..k], registry), clock).enhanced, clock.today)
  }

  /** The results so far plus the result of face `i`, whose flag was read
      from the table as the earlier faces left it, still fit. */
  lemma ResultsFitSnoc(results: seq<FaceResult>, r: FaceResult, faces: seq<Observation>, registry: FaceRegistry,
                       t0: Tables, p0: PeriodTables, period: string, date: string, tb: Tables, pb: PeriodTables,
                       start: seq<AppLedgers.EnhancedRow>, after: seq<AppLedgers.EnhancedRow>, clock: Clock)
    requires |results| < |faces|
    requires forall j :: 0 <= j < |faces| ==> ObservationFits(faces[j], registry)
    requires start <= tb.enhanced <= after
    requires ResultsFit(results, faces, registry, t0, p0, period, date, start, tb.enhanced, clock)
    requires tb == MarkAll(t0, Seen(faces[..|results|], registry), clock)
    requires pb == MarkAllPeriods(p0, Seen(faces[..|results|], registry), period, date, clock)
    requires Reports(r, IdentifyIn(faces[|results|], registry), Analyse(faces[|results|]))
    requires MarkedFrom(r, IdentifyIn(faces[|results|], registry), Analyse(faces[|results|]), tb, pb, period, date, clock)
    requires r.alreadyMarked <==> r.name != UnknownName && r.roll != NoRoll
                                  && AppLedgers.EnhancedMarkedOn(tb.enhanced, r.roll, clock.today)
    ensures ResultsFit(results + [r], faces, registry, t0, p0, period, date, start, after, clock)
  {
    var next := results + [r];
    NewEntryFits(r, faces, |results|, registry, t0, p0, period, date, tb, pb, start, after, clock);
    forall k | 0 <= k < |results|
      ensures EntryFits(next[k], faces, k, registry, t0, p0, period, date, start, after, clock)
    {
      assert next[k] == results[k];
      EntryStays(results[k], faces, k, registry, t0, p0, period, date, start, tb.enhanced, after, clock);
    }
  }

  /** The entry of face `i`, whose flag was read from the table the earlier
      faces left, fits. */
  lemma NewEntryFits(r: FaceResult, faces: seq<Observation>, i: nat, registry: FaceRegistry, t0: Tables,
                     p0: PeriodTables, period: string, date: string, tb: Tables, pb: PeriodTables,
                     start: seq<AppLedgers.EnhancedRow>, after: seq<AppLedgers.EnhancedRow>, clock: Clock)
    requires i < |faces|
    requires forall j :: 0 <= j < |faces| ==> ObservationFits(faces[j], registry)
    requires start <= tb.enhanced <= after
    requires tb == MarkAll(t0, Seen(faces[..i], registry), clock)
    requires pb == MarkAllPeriods(p0, Seen(faces[..i], registry), period, date, clock)
    requires Reports(r, IdentifyIn(faces[i], registry), Analyse(faces[i]))
    requires MarkedFrom(r, IdentifyIn(faces[i], registry), Analyse(faces[i]), tb, pb, period, date, clock)
    requires r.alreadyMarked <==> r.name != UnknownName && r.roll != NoRoll
                                  && AppLedgers.EnhancedMarkedOn(tb.enhanced, r.roll, clock.today)
    ensures EntryFits(r, faces, i, registry, t0, p0, period, date, start, after, clock)
  {
    var before := tb.enhanced;
    assert FlaggedFrom(r, before, clock.today);
    if AppLedgers.EnhancedMarkedOn(start, r.roll, clock.today) {
      AppLedgers.EnhancedMarkedOnGrows(start, before, r.roll, clock.today);
    }
    if r.alreadyMarked {
      AppLedgers.EnhancedMarkedOnGrows(before, after, r.roll, clock.today);
    }
  }

  /** An earlier entry still fits once the enhanced table has grown. */
  lemma EntryStays(r: FaceResult, faces: seq<Observation>, k: nat, registry: FaceRegistry, t0: Tables,
                   p0: PeriodTables, period: string, date: string, start: seq<AppLedgers.EnhancedRow>,
                   before: seq<AppLedgers.EnhancedRow>, after: seq<AppLedgers.EnhancedRow>, clock: Clock)
    requires k < |faces|
    requires forall j :: 0 <= j < |faces| ==> ObservationFits(faces[j], registry)
    requires before <= after
    requires EntryFits(r, faces, k, registry, t0, p0, period, date, start, before, clock)
    ensures EntryFits(r, faces, k, registry, t0, p0, period, date, start, after, clock)
  {
    if r.alreadyMarked {
      AppLedgers.EnhancedMarkedOnGrows(before, after, r.roll, clock.today);
    }
  }

  /** Marking face `i` on the tables the first `i` faces left gives the
      tables the first `i + 1` faces leave. */
  lemma TablesStep(faces: seq<Observation>, registry: FaceRegistry, i: nat, t0: Tables, tb: Tables, ta: Tables,
                   p0: PeriodTables, pb: PeriodTables, pa: PeriodTables, period: string, date: string, clock: Clock)
    requires i < |faces|
    requires forall j :: 0 <= j < |faces| ==> ObservationFits(faces[j], registry)
    requires tb == MarkAll(t0, Seen(faces[..i], registry), clock)
    requires ta == MarkedTables(tb, IdentifyIn(faces[i], registry), Analyse(faces[i]), clock)
    requires pb == MarkAllPeriods(p0, Seen(faces[..i], registry), period, date, clock)
    requires pa == MarkedPeriod(pb, IdentifyIn(faces[i], registry), Analyse(faces[i]), period, date, clock)
    ensures ta == MarkAll(t0, Seen(faces[..i + 1], registry), clock)
    ensures pa == MarkAllPeriods(p0, Seen(faces[..i + 1], registry), period, date, clock)
  {
    SeenSnoc(faces, registry, i);
    var f := Face(IdentifyIn(faces[i], registry), Analyse(faces[i]));
    MarkAllSnoc(t0, Seen(faces[..i], registry), f, clock);
    MarkAllPeriodsSnoc(p0, Seen(faces[..i], registry), f, period, date, clock);
  }

  /** One step of the face loop of `/api/recognize`: face `i` is processed
      and its result appended. */
  method ProcessNext(faces: seq<Observation>, i: nat, results: seq<FaceResult>, p: string, day: string,
                     clock: Clock, registry: FaceRegistry, db: AttendanceDb.Store,
                     enhanced: AppLedgers.EnhancedLedger, ledger: PeriodAttendance.PeriodLedger,
                     ghost t0: Tables, ghost p0: PeriodTables, ghost start: seq<AppLedgers.EnhancedRow>)
    returns (next: seq<FaceResult>)
    modifies db, enhanced, ledger
    requires i < |faces| && |results| == i
    requires forall j :: 0 <= j < |faces| ==> ObservationFits(faces[j], registry)
    requires db.Valid() && enhanced.Valid() && ledger.Valid()
    requires start <= enhanced.rows
    requires ResultsFit(results, faces, registry, t0, p0, p, day, start, enhanced.rows, clock)
    requires TablesOf(db, enhanced) == MarkAll(t0, Seen(faces[..i], registry), clock)
    requires PeriodTablesOf(ledger) == MarkAllPeriods(p0, Seen(faces[..i], registry), p, day, clock)
    ensures db.Valid() && enhanced.Valid() && ledger.Valid()
    ensures |next| == i + 1
    ensures start <= enhanced.rows
    ensures ResultsFit(next, faces, registry, t0, p0, p, day, start, enhanced.rows, clock)
    ensures p == "" ==> ledger.rows == old(ledger.rows)
    ensures TablesOf(db, enhanced) == MarkAll(t0, Seen(faces[..i + 1], registry), clock)
    ensures PeriodTablesOf(ledger) == MarkAllPeriods(p0, Seen(faces[..i + 1], registry), p, day, clock)
  {
    ghost var tb := TablesOf(db, enhanced);
    ghost var pb := PeriodTablesOf(ledger);
    var r := ProcessFace(faces[i], p, day, clock, registry, db, enhanced, ledger);
    ResultsFitSnoc(results, r, faces, registry, t0, p0, p, day, tb, pb, start, enhanced.rows, clock);
    TablesStep(faces, registry, i, t0, tb, TablesOf(db, enhanced), p0, pb, PeriodTablesOf(ledger), p, day, clock);
    next := results + [r];
  }

  /** The face loop of `/api/recognize`: the first `n` faces, one result
      each, in detection order. */
  method ProcessFaces(faces: seq<Observation>, n: nat, p: string, day: string, clock: Clock,
                      registry: FaceRegistry, db: AttendanceDb.Store,
                      enhanced: AppLedgers.EnhancedLedger, ledger: PeriodAttendance.PeriodLedger)
    returns (results: seq<FaceResult>)
    modifies db, enhanced, ledger
    requires n <= |faces|
    requires forall i :: 0 <= i < |faces| ==> ObservationFits(faces[i], registry)
    requires db.Valid() && enhanced.Valid() && ledger.Valid()
    ensures db.Valid() && enhanced.Valid() && ledger.Valid()
    ensures |results| == n
    ensures forall k :: 0 <= k < n ==>
      Reports(results[k], IdentifyIn(faces[k], registry), Analyse(faces[k]))
      && (results[k].marked ==> Eligible(IdentifyIn(faces[k], registry), Analyse(faces[k])))
    ensures forall k :: 0 <= k < n ==>
      AlreadyMarkedFits(results[k], old(enhanced.rows), enhanced.rows, clock.today)
    ensures p == "" ==> ledger.rows == old(ledger.rows)
    ensures TablesOf(db, enhanced) == MarkAll(old(TablesOf(db, enhanced)), Seen(faces[..n], registry), clock)
    ensures PeriodTablesOf(ledger) == MarkAllPeriods(old(PeriodTablesOf(ledger)), Seen(faces[..n], registry), p, day, clock)
    ensures forall k :: 0 <= k < n ==>
      FlaggedFrom(results[k], MarkAll(old(TablesOf(db, enhanced)), Seen(faces[..k], registry), clock).enhanced,
                  clock.today)
    ensures forall k :: 0 <= k < n ==>
      MarkedFrom(results[k], IdentifyIn(faces[k], registry), Analyse(faces[k]),
                 MarkAll(old(TablesOf(db, enhanced)), Seen(faces[..k], registry), clock),
                 MarkAllPeriods(old(PeriodTablesOf(ledger)), Seen(faces[..k], registry), p, day, clock), p, day, clock)
  {
    ghost var t0 := TablesOf(db, enhanced);
    ghost var p0 := PeriodTablesOf(ledger);
    results := [];
    var i := 0;
    while i < n
      invariant 0 <= i <= n
      invariant |results| == i
      invariant db.Valid() && enhanced.Valid() && ledger.Valid()
      invariant old(enhanced.rows) <= enhanced.rows
      invariant ResultsFit(results, faces, registry, t0, p0, p, day, old(enhanced.rows), enhanced.rows, clock)
      invariant p == "" ==> ledger.rows == old(ledger.rows)
      invariant TablesOf(db, enhanced) == MarkAll(t0, Seen(faces[..i], registry), clock)
      invariant PeriodTablesOf(ledger) == MarkAllPeriods(p0, Seen(faces[..i], registry), p, day, clock)
    {
      results := ProcessNext(faces, i, results, p, day, clock, registry, db, enhanced, ledger,
                             t0, p0, old(enhanced.rows));
      i := i + 1;
    }
  }

  /** `/api/recognize`: at most 60 faces are processed, one result per face
      in detection order; no face gives the "No faces detected." message. The
      period defaults to none and the date to today. */
  method RecognizeFace(image: string, decoded: bool, faces: seq<Observation>,
                       period: Option<string>, date: Option<string>, clock: Clock,
                       registry: FaceRegistry, db: AttendanceDb.Store,
                       enhanced: AppLedgers.EnhancedLedger, ledger: PeriodAttendance.PeriodLedger)
    returns (resp: RecognizeResponse)
    modifies db, enhanced, ledger
    requires forall i :: 0 <= i < |faces| ==> ObservationFits(faces[i], registry)
    requires db.Valid() && enhanced.Valid() && ledger.Valid()
    ensures db.Valid() && enhanced.Valid() && ledger.Valid()
    ensures image == "" ==> resp == Rejected(400, "No image data provided.")
    ensures image != "" && !decoded ==> resp == Rejected(400, "Could not decode image.")
    ensures resp.Rejected? ==> db.marks == old(db.marks) && enhanced.rows == old(enhanced.rows)
                               && ledger.rows == old(ledger.rows)
    ensures image != "" && decoded ==> resp.Recognized?
    ensures resp.Recognized? ==> |resp.faces| == Cap(|faces|)
    ensures resp.Recognized? ==> (resp.note == Some(NoFacesMessage) <==> |faces| == 0)
    ensures resp.Recognized? ==> forall i :: 0 <= i < |resp.faces| ==>
      Reports(resp.faces[i], IdentifyIn(faces[i], registry), Analyse(faces[i]))
      && (resp.faces[i].marked ==> Eligible(IdentifyIn(faces[i], registry), Analyse(faces[i])))
    ensures resp.Recognized? ==> forall i :: 0 <= i < |resp.faces| ==>
      AlreadyMarkedFits(resp.faces[i], old(enhanced.rows), enhanced.rows, clock.today)
    ensures period.None? || period == Some("") ==> ledger.rows == old(ledger.rows)
    ensures resp.Rejected? ==> TablesOf(db, enhanced) == old(TablesOf(db, enhanced))
                               && PeriodTablesOf(ledger) == old(PeriodTablesOf(ledger))
    ensures resp.Recognized? ==>
      TablesOf(db, enhanced) == MarkAll(old(TablesOf(db, enhanced)), SeenUpTo(faces, Cap(|faces|), registry), clock)
    ensures resp.Recognized? ==>
      PeriodTablesOf(ledger) == MarkAllPeriods(old(PeriodTablesOf(ledger)), SeenUpTo(faces, Cap(|faces|), registry),
                                               period.GetOr(""), date.GetOr(clock.today), clock)
    ensures resp.Recognized? ==> forall i :: 0 <= i < |resp.faces| ==>
      FlaggedFrom(resp.faces[i], MarkAll(old(TablesOf(db, enhanced)), SeenUpTo(faces, i, registry), clock).enhanced,
                  clock.today)
    ensures resp.Recognized? ==> forall i :: 0 <= i < |resp.faces| ==>
      MarkedFrom(resp.faces[i], IdentifyIn(faces[i], registry), Analyse(faces[i]),
                 MarkAll(old(TablesOf(db, enhanced)), SeenUpTo(faces, i, registry), clock),
                 MarkAllPeriods(old(PeriodTablesOf(ledger)), SeenUpTo(faces, i, registry), period.GetOr(""),
                                date.GetOr(clock.today), clock),
                 period.GetOr(""), date.GetOr(clock.today), clock)
    ensures resp.Recognized? ==>
      old(db.students) <= db.students && old(db.marks) <= db.marks && old(enhanced.rows) <= enhanced.rows
    ensures resp.Recognized? ==> forall i :: 0 <= i < |resp.faces| && Eligible(IdentifyIn(faces[i], registry), Analyse(faces[i])) ==>
      && AttendanceDb.HasRegNo(db.students, IdentifyIn(faces[i], registry).roll)
      && (IdentifyIn(faces[i], registry).roll != "" ==>
            AppLedgers.EnhancedMarkedOn(enhanced.rows, IdentifyIn(faces[i], registry).roll, clock.today))
  {
    if image == "" {
      return Rejected(400, "No image data provided.");
    }
    if !decoded {
      return Rejected(400, "Could not decode image.");
    }
    var p := period.GetOr("");
    var day := date.GetOr(clock.today);
    ghost var t0 := TablesOf(db, enhanced);
    var results := ProcessFaces(faces, Cap(|faces|), p, day, clock, registry, db, enhanced, ledger);
    SeenEffect(t0, faces, Cap(|faces|), registry, clock);
    if |results| == 0 {
      return Recognized(Some(NoFacesMessage), []);
    }
    return Recognized(None, results);
  }

  // ---------------------------------------------------------------- /api/enhanced-recognize

  datatype EnhancedFaceResult = EnhancedFaceResult(
    name: string,
    roll: string,
    emotion: string,
    recognition: Tenths,
    liveness: Tenths,
    isLive: bool,
    spoofed: bool,
    marked: bool)

  predicate EnhancedReports(r: EnhancedFaceResult, id: Identity, a: Analysis) {
    && r.name == id.name && r.roll == id.roll && r.recognition == id.confidence
    && r.isLive == a.isLive && r.spoofed == !a.isLive && r.liveness == a.liveness && r.emotion == a.emotion
  }

  /** The marked flag of the enhanced endpoint, against the enhanced table
      as the earlier faces of the request left it. */
  predicate EnhancedMarkedFrom(r: EnhancedFaceResult, id: Identity, a: Analysis,
                               rows: seq<AppLedgers.EnhancedRow>, today: string) {
    r.marked <==> EnhancedEligible(id, a) && id.roll != "" && !AppLedgers.EnhancedMarkedOn(rows, id.roll, today)
  }

  /** One face of `/api/enhanced-recognize`: an eligible face is marked in the
      enhanced ledger, and only when that succeeds in the basic ledger too. */
  method ProcessEnhancedFace(o: Observation, clock: Clock, registry: FaceRegistry,
                             db: AttendanceDb.Store, enhanced: AppLedgers.EnhancedLedger)
    returns (r: EnhancedFaceResult)
    modifies db, enhanced
    requires ObservationFits(o, registry)
    requires db.Valid() && enhanced.Valid()
    ensures db.Valid() && enhanced.Valid()
    ensures EnhancedReports(r, IdentifyIn(o, registry), Analyse(o))
    ensures EnhancedMarkedFrom(r, IdentifyIn(o, registry), Analyse(o), old(enhanced.rows), clock.today)
    ensures TablesOf(db, enhanced) == EnhancedMarkedTables(old(TablesOf(db, enhanced)), IdentifyIn(o, registry),
                                                           Analyse(o), clock)
    ensures !r.marked ==> enhanced.rows == old(enhanced.rows) && db.marks == old(db.marks)
    ensures r.marked ==> |enhanced.rows| == |old(enhanced.rows)| + 1
    ensures db.students == old(db.students)
    ensures |db.marks| <= |old(db.marks)| + 1
  {
    var id := IdentifyIn(o, registry);
    var a := Analyse(o);
    ghost var t0 := TablesOf(db, enhanced);
    var marked := false;
    if EnhancedEligible(id, a) {
      marked := enhanced.Mark(id.name, id.roll, a.emotion, a.liveness, id.confidence, a.isLive,
                              clock.today, clock.time, clock.timestamp, false);
      ghost var t1 := TablesOf(db, enhanced);
      assert t1 == WithEnhancedMark(t0, id, a, clock);
      if marked {
        var saved := AppLedgers.SaveAttendanceToDb(db, id.roll, clock.today, clock.time, false);
      }
    }
    r := EnhancedFaceResult(id.name, id.roll, a.emotion, id.confidence, a.liveness, a.isLive,
                            !a.isLive, marked);
  }

  /** The per-face facts the face loop of `/api/enhanced-recognize` keeps for
      the results so far: what each reports, and that each was marked exactly
      when the enhanced table as the earlier faces left it let it through. */
  ghost predicate EnhancedResultsFit(results: seq<EnhancedFaceResult>, faces: seq<Observation>,
                                     registry: FaceRegistry, t0: Tables, clock: Clock)
    reads registry
    requires |results| <= |faces|
    requires forall j :: 0 <= j < |faces| ==> ObservationFits(faces[j], registry)
  {
    forall k :: 0 <= k < |results| ==>
      && EnhancedReports(results[k], IdentifyIn(faces[k], registry), Analyse(faces[k]))
      && EnhancedMarkedFrom(results[k], IdentifyIn(faces[k], registry), Analyse(faces[k]),
                            EnhancedMarkAll(t0, Seen(faces[..k], registry), clock).enhanced, clock.today)
  }

  /** One more face, processed on the tables the earlier faces left, keeps
      the results fitting and the tables equal to the fold. */
  lemma EnhancedStep(results: seq<EnhancedFaceResult>, r: EnhancedFaceResult, faces: seq<Observation>,
                     registry: FaceRegistry, t0: Tables, tb: Tables, ta: Tables, clock: Clock)
    requires |results| < |faces|
    requires forall j :: 0 <= j < |faces| ==> ObservationFits(faces[j], registry)
    requires EnhancedResultsFit(results, faces, registry, t0, clock)
    requires tb == EnhancedMarkAll(t0, Seen(faces[..|results|], registry), clock)
    requires EnhancedReports(r, IdentifyIn(faces[|results|], registry), Analyse(faces[|results|]))
    requires EnhancedMarkedFrom(r, IdentifyIn(faces[|results|], registry), Analyse(faces[|results|]),
                                tb.enhanced, clock.today)
    requires ta == EnhancedMarkedTables(tb, IdentifyIn(faces[|results|], registry), Analyse(faces[|results|]), clock)
    ensures EnhancedResultsFit(results + [r], faces, registry, t0, clock)
    ensures ta == EnhancedMarkAll(t0, Seen(faces[..|results| + 1], registry), clock)
  {
    var i := |results|;
    SeenSnoc(faces, registry, i);
    EnhancedMarkAllSnoc(t0, Seen(faces[..i], registry), Face(IdentifyIn(faces[i], registry), Analyse(faces[i])), clock);
    var next := results + [r];
    forall k | 0 <= k < i + 1
      ensures EnhancedReports(next[k], IdentifyIn(faces[k], registry), Analyse(faces[k]))
      ensures EnhancedMarkedFrom(next[k], IdentifyIn(faces[k], registry), Analyse(faces[k]),
                                 EnhancedMarkAll(t0, Seen(faces[..k], registry), clock).enhanced, clock.today)
    {
      if k < i {
        assert next[k] == results[k];
      }
    }
  }

  /** The face loop of `/api/enhanced-recognize`: the first `n` faces, one
      result each, in detection order. */
  method ProcessEnhancedFaces(faces: seq<Observation>, n: nat, clock: Clock, registry: FaceRegistry,
                              db: AttendanceDb.Store, enhanced: AppLedgers.EnhancedLedger)
    returns (results: seq<EnhancedFaceResult>)
    modifies db, enhanced
    requires n <= |faces|
    requires forall i :: 0 <= i < |faces| ==> ObservationFits(faces[i], registry)
    requires db.Valid() && enhanced.Valid()
    ensures db.Valid() && enhanced.Valid()
    ensures |results| == n
    ensures EnhancedResultsFit(results, faces, registry, old(TablesOf(db, enhanced)), clock)
    ensures TablesOf(db, enhanced) == EnhancedMarkAll(old(TablesOf(db, enhanced)), Seen(faces[..n], registry), clock)
  {
    ghost var t0 := TablesOf(db, enhanced);
    results := [];
    var i := 0;
    while i < n
      invariant 0 <= i <= n
      invariant |results| == i
      invariant db.Valid() && enhanced.Valid()
      invariant EnhancedResultsFit(results, faces, registry, t0, clock)
      invariant TablesOf(db, enhanced) == EnhancedMarkAll(t0, Seen(faces[..i], registry), clock)
    {
      ghost var tb := TablesOf(db, enhanced);
      var r := ProcessEnhancedFace(faces[i], clock, registry, db, enhanced);
      EnhancedStep(results, r, faces, registry, t0, tb, TablesOf(db, enhanced), clock);
      results := results + [r];
      i := i + 1;
    }
  }

  /** `EnhancedMarkAllEffect` for the first `n` detected faces, face by face. */
  lemma EnhancedSeenEffect(t: Tables, faces: seq<Observation>, n: nat, registry: FaceRegistry, clock: Clock)
    requires n <= |faces|
    requires forall j :: 0 <= j < |faces| ==> ObservationFits(faces[j], registry)
    ensures var u := EnhancedMarkAll(t, Seen(faces[..n], registry), clock);
      && Extends(t, u) && u.students == t.students
      && |u.marks| - |t.marks| <= |u.enhanced| - |t.enhanced|
      && forall i :: 0 <= i < n && EnhancedEligible(IdentifyIn(faces[i], registry), Analyse(faces[i]))
                     && IdentifyIn(faces[i], registry).roll != "" ==>
           AppLedgers.EnhancedMarkedOn(u.enhanced, IdentifyIn(faces[i], registry).roll, clock.today)
  {
    var seen := Seen(faces[..n], registry);
    EnhancedMarkAllEffect(t, seen, clock);
    assert forall i :: 0 <= i < n ==> seen[i] == Face(IdentifyIn(faces[i], registry), Analyse(faces[i]));
  }

  datatype EnhancedResponse =
    | EnhancedRejected(status: int, message: string)
    | EnhancedRecognized(note: Option<string>, faces: seq<EnhancedFaceResult>)

  /** `/api/enhanced-recognize`: at most 60 faces, one result per face in
      order; the tables are those of marking the faces one after the other,
      and the basic ledger never gains more rows than the enhanced one. */
  method EnhancedRecognize(image: string, decoded: bool, faces: seq<Observation>, clock: Clock,
                           registry: FaceRegistry, db: AttendanceDb.Store,
                           enhanced: AppLedgers.EnhancedLedger)
    returns (resp: EnhancedResponse)
    modifies db, enhanced
    requires forall i :: 0 <= i < |faces| ==> ObservationFits(faces[i], registry)
    requires db.Valid() && enhanced.Valid()
    ensures db.Valid() && enhanced.Valid()
    ensures image == "" ==> resp == EnhancedRejected(400, "No image data provided.")
    ensures image != "" && !decoded ==> resp == EnhancedRejected(400, "Could not decode image.")
    ensures resp.EnhancedRejected? ==> TablesOf(db, enhanced) == old(TablesOf(db, enhanced))
    ensures image != "" && decoded ==> resp.EnhancedRecognized?
    ensures resp.EnhancedRecognized? ==> |resp.faces| == Cap(|faces|)
    ensures resp.EnhancedRecognized? ==> (resp.note == Some(NoFacesMessage) <==> |faces| == 0)
    ensures resp.EnhancedRecognized? ==>
      TablesOf(db, enhanced) == EnhancedMarkAll(old(TablesOf(db, enhanced)), Seen(faces[..Cap(|faces|)], registry), clock)
    ensures resp.EnhancedRecognized? ==> forall i :: 0 <= i < |resp.faces| ==>
      && EnhancedReports(resp.faces[i], IdentifyIn(faces[i], registry), Analyse(faces[i]))
      && EnhancedMarkedFrom(resp.faces[i], IdentifyIn(faces[i], registry), Analyse(faces[i]),
                            EnhancedMarkAll(old(TablesOf(db, enhanced)), Seen(faces[..i], registry), clock).enhanced,
                            clock.today)
    ensures resp.EnhancedRecognized? ==> forall i :: 0 <= i < |resp.faces| ==>
      EnhancedEligible(IdentifyIn(faces[i], registry), Analyse(faces[i])) && IdentifyIn(faces[i], registry).roll != ""
      ==> AppLedgers.EnhancedMarkedOn(enhanced.rows, IdentifyIn(faces[i], registry).roll, clock.today)
    ensures old(db.marks) <= db.marks && old(enhanced.rows) <= enhanced.rows
    ensures |db.marks| - |old(db.marks)| <= |enhanced.rows| - |old(enhanced.rows)|
    ensures db.students == old(db.students)
  {
    if image == "" {
      return EnhancedRejected(400, "No image data provided.");
    }
    if !decoded {
      return EnhancedRejected(400, "Could not decode image.");
    }
    ghost var t0 := TablesOf(db, enhanced);
    var n := Cap(|faces|);
    var results := ProcessEnhancedFaces(faces, n, clock, registry, db, enhanced);
    EnhancedSeenEffect(t0, faces, n, registry, clock);
    if n == 0 {
      return EnhancedRecognized(Some(NoFacesMessage), []);
    }
    return EnhancedRecognized(None, results);
  }

  // ---------------------------------------------------------------- /api/enroll-face

  /** What the libraries make of one uploaded image. */
  datatype ImageOutcome = Undecodable | NoFace | NoEncoding | Failed | Encoded(encoding: string)

  datatype Upload = Upload(filename: string, outcome: ImageOutcome)

  datatype EnrollResponse = EnrollResponse(status: int, success: bool, message: string)

  const MissingFieldsMessage: string := "Student name and ID are required"
  const NoImagesMessage: string := "No images provided"
  const TooFewImagesMessage: string := "At least 3 images are required for better accuracy"
  const NoEncodingsMessage: string := "No valid face encodings could be extracted from the images"

  /** The validation `enroll_face` does before it looks at any image. */
  function ValidateEnrollment(name: string, studentId: string, fileCount: nat): (r: Option<string>)
    ensures r.Some? <==> name == "" || studentId == "" || fileCount < 3
    ensures (name == "" || studentId == "") ==> r == Some(MissingFieldsMessage)
    ensures name != "" && studentId != "" && fileCount == 0 ==> r == Some(NoImagesMessage)
    ensures name != "" && studentId != "" && 0 < fileCount < 3 ==> r == Some(TooFewImagesMessage)
  {
    if name == "" || studentId == "" then Some(MissingFieldsMessage)
    else if fileCount == 0 then Some(NoImagesMessage)
    else if fileCount < 3 then Some(TooFewImagesMessage)
    else None
  }

  /** The encodings of the usable uploads, in upload order: files with a name
      whose image decodes and shows a face with an encoding. */
  method CollectEncodings(files: seq<Upload>) returns (encs: seq<string>)
    ensures |encs| <= |files|
    ensures encs == Usable(files)
  {
    encs := [];
    var i := 0;
    while i < |files|
      invariant 0 <= i <= |files|
      invariant encs == Usable(files[..i])
      invariant |encs| <= i
    {
      UsableAppend(files[..i], files[i]);
      assert files[..i + 1] == files[..i] + [files[i]];
      if files[i].filename != "" && files[i].outcome.Encoded? {
        encs := encs + [files[i].outcome.encoding];
      }
      i := i + 1;
    }
    assert files[..i] == files;
  }

  function Usable(files: seq<Upload>): (encs: seq<string>)
    ensures |encs| <= |files|
  {
    if |files| == 0 then []
    else
      (if files[0].filename != "" && files[0].outcome.Encoded? then [files[0].outcome.encoding] else [])
      + Usable(files[1..])
  }

  lemma {:induction false} UsableAppend(files: seq<Upload>, f: Upload)
    ensures Usable(files + [f])
         == Usable(files) + (if f.filename != "" && f.outcome.Encoded? then [f.outcome.encoding] else [])
    decreases |files|
  {
    if |files| > 0 {
      assert (files + [f])[1..] == files[1..] + [f];
      UsableAppend(files[1..], f);
    }
  }

  /** `enroll_face`. The name and id are stripped; the request is refused
      with status 400, before any image is looked at, when either is empty,
      when there are no images or fewer than three; then it is refused when no
      image yields an encoding. Otherwise the averaged encoding is saved under
      the person id, the student is added if missing, and the known faces are
      reloaded. The averaging itself is the `average` argument. */
  method EnrollFace(studentName: Option<string>, studentId: Option<string>, files: seq<Upload>,
                    average: seq<string> -> string, store: AppLedgers.EncodingStore,
                    db: AttendanceDb.Store, registry: FaceRegistry)
    returns (resp: EnrollResponse)
    modifies store, db, registry
    requires store.Valid() && db.Valid() && registry.Aligned()
    ensures store.Valid() && db.Valid() && registry.Aligned()
    ensures var name, id := PyStrip(studentName.GetOr("")), PyStrip(studentId.GetOr(""));
      ValidateEnrollment(name, id, |files|).Some? ==>
        && resp == EnrollResponse(400, false, ValidateEnrollment(name, id, |files|).value)
        && store.rows == old(store.rows) && db.students == old(db.students)
    ensures resp.success <==> resp.status == 200
    ensures var name, id := PyStrip(studentName.GetOr("")), PyStrip(studentId.GetOr(""));
      resp.success <==> ValidateEnrollment(name, id, |files|).None? && |Usable(files)| > 0
    ensures var name, id := PyStrip(studentName.GetOr("")), PyStrip(studentId.GetOr(""));
      resp.success ==>
        && store.rows == AppLedgers.WithoutPerson(old(store.rows), PersonIds.FormatPersonId(id, name))
                         + [FaceEncoding(old(store.nextId), PersonIds.FormatPersonId(id, name),
                                         average(Usable(files)), |Usable(files)|)]
        && AttendanceDb.HasRegNo(db.students, id)
        && |registry.names| == |store.rows|
        && (PersonIds.IdParsable(id) ==>
              registry.rolls[|registry.rolls| - 1] == id && registry.names[|registry.names| - 1] == name)
    ensures !resp.success ==> store.rows == old(store.rows) && db.students == old(db.students)
  {
    var name := PyStrip(studentName.GetOr(""));
    var id := PyStrip(studentId.GetOr(""));
    var invalid := ValidateEnrollment(name, id, |files|);
    if invalid.Some? {
      return EnrollResponse(400, false, invalid.value);
    }
    var encs := CollectEncodings(files);
    if |encs| == 0 {
      return EnrollResponse(400, false, NoEncodingsMessage);
    }
    StoreEnrollment(name, id, average(encs), |encs|, store, db, registry);
    resp := EnrollResponse(200, true, "Successfully enrolled " + name + " (ID: " + id + ") with "
                                      + NatToString(|encs|) + " face images");
  }

  /** The successful half of `enroll_face`: the encoding replaces any earlier
      one of the person, the student is added if missing, and the reloaded
      known faces end with the new person. */
  method StoreEnrollment(name: string, id: string, encoding: string, count: nat,
                         store: AppLedgers.EncodingStore, db: AttendanceDb.Store, registry: FaceRegistry)
    modifies store, db, registry
    requires store.Valid() && db.Valid()
    ensures store.Valid() && db.Valid() && registry.Aligned()
    ensures store.rows == AppLedgers.WithoutPerson(old(store.rows), PersonIds.FormatPersonId(id, name))
                          + [FaceEncoding(old(store.nextId), PersonIds.FormatPersonId(id, name), encoding, count)]
    ensures AttendanceDb.HasRegNo(db.students, id)
    ensures |registry.names| == |store.rows|
    ensures PersonIds.IdParsable(id) ==>
      registry.rolls[|registry.rolls| - 1] == id && registry.names[|registry.names| - 1] == name
  {
    var personId := PersonIds.FormatPersonId(id, name);
    store.Save(personId, encoding, count);
    AppLedgers.EnsureStudent(db, name, id, false);
    registry.Load(store.rows, false);
    if PersonIds.IdParsable(id) {
      var last := |store.rows| - 1;
      assert store.rows[last].personId == personId;
      assert (registry.rolls[last], registry.names[last]) == PersonIds.KnownFace(personId);
      assert PersonIds.KnownFace(personId) == (id, name) by {
        PersonIds.ParseFormatRoundTrip(id, name);
      }
    }
  }
}

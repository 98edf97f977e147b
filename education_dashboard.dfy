/** The education officer's dashboard: the list of schools with their
    defaults filled in, the district totals, the search box, the high-dropout
    filter, the district CSV export and the colours of the rate columns.

    Rates are held in tenths of a percent (`725` is 72.5%), which is what the
    export's one-decimal rendering shows. Lower-casing is ASCII only. */
module EducationDashboard {
  import opened Common
  import Csv
  import StudentDashboard

  /** A school as the school list delivers it; any field but the name and the
      location may be missing. */
  datatype School = School(
    id: Option<string>,
    name: string,
    location: string,
    totalStudents: Option<nat>,
    currentStudents: Option<nat>,
    totalTeachers: Option<nat>,
    attendanceRate: Option<nat>,
    dropoutRate: Option<nat>,
    lastUpdated: Option<string>)

  /** JavaScript truthiness of an optional number: present and not zero. */
  predicate Truthy(n: Option<nat>) {
    n.Some? && n.value != 0
  }

  // ---------------------------------------------------------------- defaults

  /** The defaults filled in when the list is loaded: missing counts and rates
      become 0, the current head count falls back to the total, and a missing
      or empty date becomes today. */
  function Process(s: School, today: string): (p: School)
    ensures p.id == s.id && p.name == s.name && p.location == s.location
    ensures p.totalStudents == Some(s.totalStudents.GetOr(0))
    ensures p.totalTeachers == Some(s.totalTeachers.GetOr(0))
    ensures p.attendanceRate == Some(s.attendanceRate.GetOr(0))
    ensures p.dropoutRate == Some(s.dropoutRate.GetOr(0))
    ensures Truthy(s.currentStudents) ==> p.currentStudents == s.currentStudents
    ensures !Truthy(s.currentStudents) && Truthy(s.totalStudents) ==> p.currentStudents == s.totalStudents
    ensures !Truthy(s.currentStudents) && !Truthy(s.totalStudents) ==> p.currentStudents == Some(0)
    ensures p.lastUpdated == Some(if Given(s.lastUpdated) then s.lastUpdated.value else today)
  {
    s.(totalStudents := Some(if Truthy(s.totalStudents) then s.totalStudents.value else 0),
       totalTeachers := Some(if Truthy(s.totalTeachers) then s.totalTeachers.value else 0),
       currentStudents := Some(if Truthy(s.currentStudents) then s.currentStudents.value
                               else if Truthy(s.totalStudents) then s.totalStudents.value
                               else 0),
       attendanceRate := Some(if Truthy(s.attendanceRate) then s.attendanceRate.value else 0),
       dropoutRate := Some(if Truthy(s.dropoutRate) then s.dropoutRate.value else 0),
       lastUpdated := Some(if Given(s.lastUpdated) then s.lastUpdated.value else today))
  }

  /** Filling in the defaults a second time changes nothing. */
  lemma ProcessIdempotent(s: School, today: string)
    ensures Process(Process(s, today), today) == Process(s, today)
  {
  }

  function ProcessAll(schools: seq<School>, today: string): (r: seq<School>)
    ensures |r| == |schools|
    ensures forall i :: 0 <= i < |schools| ==> r[i] == Process(schools[i], today)
  {
    seq(|schools|, i requires 0 <= i < |schools| => Process(schools[i], today))
  }

  // ---------------------------------------------------------------- statistics

  datatype EducationStats = EducationStats(
    totalSchools: nat,
    totalStudents: nat,
    totalTeachers: nat,
    averageAttendance: real,
    averageDropoutRate: real)

  /** The sum over the schools of a count, a missing count adding 0. */
  function Total(schools: seq<School>, count: School -> Option<nat>): nat {
    if |schools| == 0 then 0 else count(schools[0]).GetOr(0) + Total(schools[1..], count)
  }

  /** Totals add up over a split of the list. */
  lemma {:induction false} TotalAppend(a: seq<School>, b: seq<School>, count: School -> Option<nat>)
    ensures Total(a + b, count) == Total(a, count) + Total(b, count)
    decreases |a|
  {
    if |a| == 0 {
      assert a + b == b;
    } else {
      assert (a + b)[1..] == a[1..] + b;
      TotalAppend(a[1..], b, count);
    }
  }

  /** A count bounded in every school gives a total bounded by the number of
      schools times the bound. */
  lemma {:induction false} TotalBounded(schools: seq<School>, count: School -> Option<nat>, bound: nat)
    requires forall i :: 0 <= i < |schools| ==> count(schools[i]).GetOr(0) <= bound
    ensures Total(schools, count) <= |schools| * bound
    decreases |schools|
  {
    if |schools| > 0 {
      assert forall i :: 1 <= i < |schools| ==> schools[1..][i - 1] == schools[i];
      TotalBounded(schools[1..], count, bound);
    }
  }

  function StudentsOf(s: School): Option<nat> { s.totalStudents }
  function TeachersOf(s: School): Option<nat> { s.totalTeachers }
  function AttendanceOf(s: School): Option<nat> { s.attendanceRate }
  function DropoutOf(s: School): Option<nat> { s.dropoutRate }

  /** The mean of a rate over the schools, 0 when there are none. */
  function Average(schools: seq<School>, rate: School -> Option<nat>): (avg: real)
    ensures |schools| == 0 ==> avg == 0.0
    ensures avg >= 0.0
  {
    if |schools| == 0 then 0.0 else Total(schools, rate) as real / |schools| as real
  }

  /** The district figures computed from the loaded list. */
  function StatsOf(schools: seq<School>): (st: EducationStats)
    ensures st.totalSchools == |schools|
    ensures st.totalStudents == Total(schools, StudentsOf)
    ensures st.totalTeachers == Total(schools, TeachersOf)
    ensures |schools| == 0 ==> st.averageAttendance == 0.0 && st.averageDropoutRate == 0.0
  {
    EducationStats(|schools|, Total(schools, StudentsOf), Total(schools, TeachersOf),
                   Average(schools, AttendanceOf), Average(schools, DropoutOf))
  }

  /** An average never exceeds a bound that every school's rate respects; in
      particular attendance rates of at most 100% average to at most 100%. */
  lemma AverageBounded(schools: seq<School>, rate: School -> Option<nat>, bound: nat)
    requires forall i :: 0 <= i < |schools| ==> rate(schools[i]).GetOr(0) <= bound
    ensures Average(schools, rate) <= bound as real
  {
    if |schools| > 0 {
      TotalBounded(schools, rate, bound);
      var n := |schools| as real;
      assert Total(schools, rate) as real <= n * bound as real;
      assert Total(schools, rate) as real / n <= bound as real;
    }
  }

  // ---------------------------------------------------------------- filters

  /** The elements satisfying `keep`, in their original order. */
  function Keep(schools: seq<School>, keep: School -> bool): (r: seq<School>)
    ensures |r| <= |schools|
    ensures forall s :: s in r <==> s in schools && keep(s)
  {
    if |schools| == 0 then []
    else
      var rest := Keep(schools[1..], keep);
      assert forall s :: s in schools <==> s == schools[0] || s in schools[1..];
      if keep(schools[0]) then [schools[0]] + rest else rest
  }

  /** Filtering keeps the order: filtering two lists one after the other is
      filtering the first followed by filtering the second. */
  lemma {:induction false} KeepAppend(a: seq<School>, b: seq<School>, keep: School -> bool)
    ensures Keep(a + b, keep) == Keep(a, keep) + Keep(b, keep)
    decreases |a|
  {
    if |a| == 0 {
      assert a + b == b;
    } else {
      assert (a + b)[1..] == a[1..] + b;
      KeepAppend(a[1..], b, keep);
    }
  }

  /** Filtering a filtered list again changes nothing. */
  lemma {:induction false} KeepIdempotent(schools: seq<School>, keep: School -> bool)
    ensures Keep(Keep(schools, keep), keep) == Keep(schools, keep)
    decreases |schools|
  {
    if |schools| > 0 {
      KeepIdempotent(schools[1..], keep);
      if keep(schools[0]) {
        var rest := Keep(schools[1..], keep);
        assert ([schools[0]] + rest)[1..] == rest;
      }
    }
  }

  /** `analyzeDropout`'s test: a rate above 3%, a missing rate counting as 0. */
  predicate HighDropout(s: School) {
    s.dropoutRate.GetOr(0) > 30
  }

  function HighDropoutSchools(schools: seq<School>): (r: seq<School>)
    ensures forall s :: s in r <==> s in schools && s.dropoutRate.GetOr(0) > 30
  {
    Keep(schools, HighDropout)
  }

  /** A query that `trim()` leaves empty. */
  predicate Blank(query: string) {
    StripRight(StripLeft(query, JsWhitespace), JsWhitespace) == ""
  }

  lemma BlankIff(query: string)
    ensures Blank(query) <==> forall i :: 0 <= i < |query| ==> JsWhitespace(query[i])
  {
    StripEmptyIff(query, JsWhitespace);
  }

  /** A school matches when its lower-cased name or location contains the
      lower-cased query, which is not trimmed. */
  predicate Matches(s: School, query: string) {
    Contains(ToLower(s.name), ToLower(query)) || Contains(ToLower(s.location), ToLower(query))
  }

  /** The list shown for a search query: everything for a blank query. */
  function SearchFilter(schools: seq<School>, query: string): (r: seq<School>)
    ensures Blank(query) ==> r == schools
    ensures !Blank(query) ==> forall s :: s in r <==> s in schools && Matches(s, query)
  {
    if !Blank(query) then Keep(schools, s => Matches(s, query)) else schools
  }

  /** Searching the result of a search again with the same query changes
      nothing. */
  lemma SearchIdempotent(schools: seq<School>, query: string)
    ensures SearchFilter(SearchFilter(schools, query), query) == SearchFilter(schools, query)
  {
    if !Blank(query) {
      KeepIdempotent(schools, s => Matches(s, query));
    }
  }

  /** The search ignores the case of ASCII letters in the query. */
  lemma SearchIgnoresCase(schools: seq<School>, q1: string, q2: string)
    requires ToLower(q1) == ToLower(q2) && (Blank(q1) <==> Blank(q2))
    ensures SearchFilter(schools, q1) == SearchFilter(schools, q2)
  {
    if !Blank(q1) {
      KeepSame(schools, s => Matches(s, q1), s => Matches(s, q2));
    }
  }

  /** Two tests that agree on every school keep the same schools. */
  lemma {:induction false} KeepSame(schools: seq<School>, p: School -> bool, q: School -> bool)
    requires forall s :: p(s) == q(s)
    ensures Keep(schools, p) == Keep(schools, q)
    decreases |schools|
  {
    if |schools| > 0 {
      KeepSame(schools[1..], p, q);
    }
  }

  // ---------------------------------------------------------------- colours

  /** The colour of a dropout rate: none for a missing or zero rate, then
      success up to 2%, warning up to 5%, destructive above. */
  function DropoutColour(rate: Option<nat>): (c: string)
    ensures c == "text-muted-foreground" <==> !Truthy(rate)
    ensures c == "text-success" <==> Truthy(rate) && rate.value <= 20
    ensures c == "text-warning" <==> Truthy(rate) && 20 < rate.value <= 50
    ensures c == "text-destructive" <==> Truthy(rate) && rate.value > 50
  {
    if !Truthy(rate) then "text-muted-foreground"
    else if rate.value <= 20 then "text-success"
    else if rate.value <= 50 then "text-warning"
    else "text-destructive"
  }

  /** The colour of an attendance rate: none for a missing or zero rate, then
      success from 90%, warning from 75%, destructive below. */
  function AttendanceColour(rate: Option<nat>): (c: string)
    ensures c == "text-muted-foreground" <==> !Truthy(rate)
    ensures c == "text-success" <==> Truthy(rate) && rate.value >= 900
    ensures c == "text-warning" <==> Truthy(rate) && 750 <= rate.value < 900
    ensures c == "text-destructive" <==> Truthy(rate) && rate.value < 750
  {
    if !Truthy(rate) then "text-muted-foreground"
    else if rate.value >= 900 then "text-success"
    else if rate.value >= 750 then "text-warning"
    else "text-destructive"
  }

  /** For any non-zero whole percentage the district colour is the one the
      student dashboard gives. */
  lemma AttendanceColoursAgree(percentage: nat)
    requires percentage > 0
    ensures AttendanceColour(Some(10 * percentage)) == StudentDashboard.AttendanceColour(percentage)
  {
  }

  // ---------------------------------------------------------------- export

  const ExportHeaders: seq<string> := ["School Name", "ID", "Location", "Total Students",
    "Current Students", "Teachers", "Attendance %", "Dropout Rate %", "Last Updated"]

  /** `toFixed(1)` of a rate held in tenths. */
  function Fixed1(tenths: nat): (s: string)
    ensures !Csv.NeedsQuotes(s)
  {
    var whole := NatToString(tenths / 10);
    var r := whole + "." + [DigitChar(tenths % 10)];
    assert forall c :: c in r ==> c in whole || c == '.' || IsDigit(c);
    r
  }

  /** The date part of a timestamp: everything before the first 'T'. */
  function DatePart(s: string): string {
    Split(s, "T")[0]
  }

  lemma DatePartOfTimestamp(date: string, time: string)
    requires 'T' !in date
    ensures DatePart(date + "T" + time) == date
  {
    forall j: nat | j < |date| ensures !OccursAt(date + "T" + time, "T", j) {
      assert (date + "T" + time)[j..j + 1] == [date[j]];
    }
    SplitAtFirst(date, "T", time);
  }

  lemma DatePartOfDate(date: string)
    requires 'T' !in date
    ensures DatePart(date) == date
  {
    SplitCharAbsent(date, 'T');
  }

  function OrNA(s: string): string {
    if s != "" then s else "N/A"
  }

  /** The nine values of a school's export line, before quoting. */
  function ExportValues(s: School, today: string): (v: seq<string>)
    ensures |v| == 9
  {
    [OrNA(s.name),
     if Given(s.id) then s.id.value else "N/A",
     OrNA(s.location),
     NatToString(s.totalStudents.GetOr(0)),
     NatToString(if s.currentStudents.Some? then s.currentStudents.value else s.totalStudents.GetOr(0)),
     NatToString(s.totalTeachers.GetOr(0)),
     if s.attendanceRate.Some? then Fixed1(s.attendanceRate.value) else "N/A",
     if s.dropoutRate.Some? then Fixed1(s.dropoutRate.value) else "N/A",
     if s.lastUpdated.Some? then DatePart(s.lastUpdated.value) else today]
  }

  /** The quoting of the name and the location as the page writes it: in
      double quotes, inner quotes left as they are. */
  function WrapInQuotes(f: string): string {
    "\"" + f + "\""
  }

  /** The cells of a line: name and location put through `quote`. */
  function Cells(v: seq<string>, quote: string -> string): (c: seq<string>)
    requires |v| == 9
    ensures |c| == 9
  {
    [quote(v[0]), v[1], quote(v[2])] + v[3..]
  }

  /** The export line of one school as the page writes it. */
  function LineAsWritten(s: School, today: string): string {
    Join(Cells(ExportValues(s, today), WrapInQuotes), ",")
  }

  /** The export line with inner quotes of the name and the location doubled
      as RFC 4180 requires. */
  function Line(s: School, today: string): string {
    Join(Cells(ExportValues(s, today), Csv.Quote), ",")
  }

  function LinesOf(schools: seq<School>, today: string, line: (School, string) -> string): (r: seq<string>)
    ensures |r| == |schools|
    ensures forall i :: 0 <= i < |schools| ==> r[i] == line(schools[i], today)
  {
    seq(|schools|, i requires 0 <= i < |schools| => line(schools[i], today))
  }

  /** `exportDistrictData` as the page writes it: nothing for an empty list,
      otherwise the header line and one line per school, joined by LF. */
  function ExportAsWritten(schools: seq<School>, today: string): (content: Option<string>)
    ensures content.None? <==> |schools| == 0
  {
    if |schools| == 0 then None
    else Some(Join([Join(ExportHeaders, ",")] + LinesOf(schools, today, LineAsWritten), "\n"))
  }

  /** The export with the name and location quoting corrected. */
  function Export(schools: seq<School>, today: string): (content: Option<string>)
    ensures content.None? <==> |schools| == 0
  {
    if |schools| == 0 then None
    else Some(Join([Join(ExportHeaders, ",")] + LinesOf(schools, today, Line), "\n"))
  }

  /** The file read back: the header and then each school's nine values. */
  function Table(schools: seq<School>, today: string): (t: seq<seq<string>>)
    ensures |t| == |schools| + 1 && t[0] == ExportHeaders
    ensures forall i :: 0 <= i < |schools| ==> t[i + 1] == ExportValues(schools[i], today)
  {
    [ExportHeaders] + seq(|schools|, i requires 0 <= i < |schools| => ExportValues(schools[i], today))
  }

  /** With no double quote in a name or a location, the page's line and the
      corrected line are the same. */
  lemma SameWithoutQuotes(s: School, today: string)
    requires '"' !in s.name && '"' !in s.location
    ensures LineAsWritten(s, today) == Line(s, today)
  {
    var v := ExportValues(s, today);
    assert '"' !in "N/A";
    assert Csv.Escape(v[0]) == v[0] && Csv.Escape(v[2]) == v[2];
    assert Cells(v, WrapInQuotes) == Cells(v, Csv.Quote);
  }

  /** A name containing a double quote ends the first field early: the line
      of a school named `A"B` reads back as a record of the single field `A`. */
  lemma QuoteInNameSplitsField(s: School, today: string)
    requires s.name == "A\"B"
    ensures Csv.ParseRecord(LineAsWritten(s, today)).Some?
    ensures Csv.ParseRecord(LineAsWritten(s, today)).value.0 == ["A"]
  {
    var c := Cells(ExportValues(s, today), WrapInQuotes);
    var rest := Join(c[1..], ",");
    JoinCons(c[0], c[1..], ",");
    assert [c[0]] + c[1..] == c;
    var line := LineAsWritten(s, today);
    assert line == "\"A\"B\"" + "," + rest;
    var after := "B\"," + rest;
    assert line[1..] == "A" + ("\"" + after);
    var closing := "\"" + after;
    assert closing[0] == '"' && closing[1] == 'B' && closing[1..] == after;
    assert Csv.ParseQuoted(closing) == Some(("", after));
    var body := line[1..];
    assert body[0] == 'A' && body[1..] == closing;
    assert ['A'] + "" == "A";
    assert Csv.ParseQuoted(body) == Some(("A", after));
    assert Csv.ParseField(line) == Some(("A", after));
  }

  // Reading the corrected export back.

  /** A cell that reads back as `value`: its quoted form, or the value itself
      when it needs no quotes. */
  predicate EncodesField(cell: string, value: string) {
    cell == Csv.Quote(value) || (cell == value && !Csv.NeedsQuotes(value))
  }

  lemma CellRoundTrip(cell: string, value: string, t: string)
    requires EncodesField(cell, value) && Csv.AtFieldEnd(t)
    ensures Csv.ParseField(cell + t) == Some((value, t))
  {
    if cell == Csv.Quote(value) {
      Csv.QuoteRoundTrip(value, t);
    } else {
      Csv.UnquotedRoundTrip(value, t);
      if |value| > 0 {
        assert value[0] in value;
      }
    }
  }

  /** Every cell encodes the value at its position. */
  predicate EncodesRow(cells: seq<string>, values: seq<string>) {
    |cells| == |values| >= 1 && forall i :: 0 <= i < |cells| ==> EncodesField(cells[i], values[i])
  }

  lemma {:induction false} RecordRoundTrip(cells: seq<string>, values: seq<string>, t: string)
    requires EncodesRow(cells, values)
    requires |t| == 0 || t[0] == '\n'
    ensures Csv.ParseRecord(Join(cells, ",") + t) == Some((values, t))
    decreases |cells|
  {
    if |cells| == 1 {
      CellRoundTrip(cells[0], values[0], t);
      Csv.RecordLast(Join(cells, ",") + t, values[0], t);
      assert [values[0]] == values;
    } else {
      assert EncodesRow(cells[1..], values[1..]) by {
        forall i | 0 <= i < |cells| - 1 ensures EncodesField(cells[1..][i], values[1..][i]) {
          assert cells[1..][i] == cells[i + 1] && values[1..][i] == values[i + 1];
        }
      }
      RecordRoundTrip(cells[1..], values[1..], t);
      CellsStep(cells, values, t);
    }
  }

  lemma CellsStep(cells: seq<string>, values: seq<string>, t: string)
    requires |cells| == |values| >= 2 && EncodesField(cells[0], values[0])
    requires Csv.ParseRecord(Join(cells[1..], ",") + t) == Some((values[1..], t))
    ensures Csv.ParseRecord(Join(cells, ",") + t) == Some((values, t))
  {
    CellThenRecord(cells[0], values[0], Join(cells[1..], ",") + t, values[1..], t);
    JoinCons(cells[0], cells[1..], ",");
    assert [cells[0]] + cells[1..] == cells;
    ConcatAssoc(cells[0] + ",", Join(cells[1..], ","), t);
    assert [values[0]] + values[1..] == values;
  }

  /** A cell, a comma, then the rest of a record. */
  lemma CellThenRecord(cell: string, value: string, rest: string, fs: seq<string>, t: string)
    requires EncodesField(cell, value)
    requires Csv.ParseRecord(rest) == Some((fs, t))
    ensures Csv.ParseRecord(cell + "," + rest) == Some(([value] + fs, t))
  {
    var s := cell + ("," + rest);
    assert Csv.ParseField(s) == Some((value, "," + rest)) by {
      assert ("," + rest)[0] == ',';
      CellRoundTrip(cell, value, "," + rest);
    }
    Csv.RecordStep(s, value, rest, fs, t);
    ConcatAssoc(cell, ",", rest);
  }

  /** Each row of cells joined by commas. */
  function JoinEach(cells: seq<seq<string>>): (lines: seq<string>)
    ensures |lines| == |cells|
    ensures forall k :: 0 <= k < |cells| ==> lines[k] == Join(cells[k], ",")
  {
    if |cells| == 0 then [] else [Join(cells[0], ",")] + JoinEach(cells[1..])
  }

  /** LF-joined lines, each encoding one row of values, read back as the rows. */
  lemma {:induction false} LinesRoundTrip(cells: seq<seq<string>>, rows: seq<seq<string>>)
    requires |cells| == |rows| >= 1
    requires forall k :: 0 <= k < |cells| ==> EncodesRow(cells[k], rows[k])
    ensures Csv.ParseLfLines(Join(JoinEach(cells), "\n")) == Some(rows)
    decreases |cells|
  {
    if |cells| == 1 {
      LastLine(cells, rows);
    } else {
      forall k | 0 <= k < |cells| - 1 ensures EncodesRow(cells[1..][k], rows[1..][k]) {
        assert cells[1..][k] == cells[k + 1] && rows[1..][k] == rows[k + 1];
      }
      LinesRoundTrip(cells[1..], rows[1..]);
      LinesStep(cells, rows);
    }
  }

  lemma LastLine(cells: seq<seq<string>>, rows: seq<seq<string>>)
    requires |cells| == |rows| == 1 && EncodesRow(cells[0], rows[0])
    ensures Csv.ParseLfLines(Join(JoinEach(cells), "\n")) == Some(rows)
  {
    RecordRoundTrip(cells[0], rows[0], "");
    assert Join(JoinEach(cells), "\n") == Join(cells[0], ",") + "";
    assert [rows[0]] == rows;
  }

  lemma LinesStep(cells: seq<seq<string>>, rows: seq<seq<string>>)
    requires |cells| == |rows| >= 2 && EncodesRow(cells[0], rows[0])
    requires Csv.ParseLfLines(Join(JoinEach(cells[1..]), "\n")) == Some(rows[1..])
    ensures Csv.ParseLfLines(Join(JoinEach(cells), "\n")) == Some(rows)
  {
    var rest := Join(JoinEach(cells[1..]), "\n");
    RecordThenLines(cells[0], rows[0], rest, rows[1..]);
    assert Join(JoinEach(cells), "\n") == Join(cells[0], ",") + "\n" + rest by {
      JoinEachCons(cells);
      ConcatAssoc(Join(cells[0], ","), "\n", rest);
    }
    assert [rows[0]] + rows[1..] == rows;
  }

  /** A line of cells encoding `row`, a line feed, then further lines. */
  lemma RecordThenLines(cells: seq<string>, row: seq<string>, rest: string, more: seq<seq<string>>)
    requires EncodesRow(cells, row)
    requires Csv.ParseLfLines(rest) == Some(more)
    ensures Csv.ParseLfLines(Join(cells, ",") + "\n" + rest) == Some([row] + more)
  {
    var t := "\n" + rest;
    var s := Join(cells, ",") + t;
    assert Csv.ParseRecord(s) == Some((row, t)) by {
      assert t[0] == '\n';
      RecordRoundTrip(cells, row, t);
    }
    Csv.LineStep(s, row, rest, more);
    ConcatAssoc(Join(cells, ","), "\n", rest);
  }

  lemma JoinEachCons(cells: seq<seq<string>>)
    requires |cells| >= 2
    ensures Join(JoinEach(cells), "\n") == Join(cells[0], ",") + ("\n" + Join(JoinEach(cells[1..]), "\n"))
  {
    var lines := JoinEach(cells);
    assert lines == [Join(cells[0], ",")] + JoinEach(cells[1..]);
    JoinCons(lines[0], JoinEach(cells[1..]), "\n");
  }

  /** The values that are written without quotes need none: the id and the
      date part of `lastUpdated`, whatever they are, and the numbers. */
  predicate PlainIdAndDate(s: School, today: string) {
    var v := ExportValues(s, today);
    !Csv.NeedsQuotes(v[1]) && !Csv.NeedsQuotes(v[8])
  }

  lemma LineEncodes(s: School, today: string)
    requires PlainIdAndDate(s, today)
    ensures EncodesRow(Cells(ExportValues(s, today), Csv.Quote), ExportValues(s, today))
  {
    var v := ExportValues(s, today);
    var c := Cells(v, Csv.Quote);
    assert !Csv.NeedsQuotes(v[3]) && !Csv.NeedsQuotes(v[4]) && !Csv.NeedsQuotes(v[5]);
    assert "N/A"[0] == 'N' && "N/A"[1] == '/' && "N/A"[2] == 'A';
    assert !Csv.NeedsQuotes("N/A");
    assert !Csv.NeedsQuotes(v[6]) && !Csv.NeedsQuotes(v[7]);
    forall i | 0 <= i < 9 ensures EncodesField(c[i], v[i]) {
      if i != 0 && i != 2 {
        assert c[i] == v[i];
      }
    }
  }

  /** No character of `h` from position `k` on forces quoting, checked one
      position at a time so that it can be computed for the literal headers. */
  predicate PlainFrom(h: string, k: nat)
    decreases |h| - k
  {
    k >= |h| || (!Csv.FieldEnd(h[k]) && h[k] != '"' && PlainFrom(h, k + 1))
  }

  lemma {:induction false} PlainFromNeedsNoQuotes(h: string, k: nat)
    requires PlainFrom(h, k)
    ensures forall j :: k <= j < |h| ==> !Csv.FieldEnd(h[j]) && h[j] != '"'
    decreases |h| - k
  {
    if k < |h| {
      PlainFromNeedsNoQuotes(h, k + 1);
    }
  }

  lemma PlainCellNeedsNoQuotes(h: string)
    requires PlainFrom(h, 0)
    ensures !Csv.NeedsQuotes(h)
  {
    PlainFromNeedsNoQuotes(h, 0);
  }

  /** The header names are plain, a few at a time (each group is checked by
      evaluating `PlainFrom` on the literals). */
  lemma NameHeadersPlain()
    ensures PlainFrom("School Name", 0)
    ensures PlainFrom("ID", 0)
    ensures PlainFrom("Location", 0)
  {
  }

  lemma CountHeadersPlain()
    ensures PlainFrom("Total Students", 0)
    ensures PlainFrom("Teachers", 0)
  {
  }

  lemma CurrentHeaderPlain()
    ensures PlainFrom("Current Students", 0)
  {
    assert PlainFrom("Current Students", 8);
  }

  lemma RateHeadersPlain()
    ensures PlainFrom("Attendance %", 0)
    ensures PlainFrom("Dropout Rate %", 0)
    ensures PlainFrom("Last Updated", 0)
  {
  }

  lemma HeadersPlain()
    ensures EncodesRow(ExportHeaders, ExportHeaders)
  {
    NameHeadersPlain();
    CountHeadersPlain();
    CurrentHeaderPlain();
    RateHeadersPlain();
    forall i | 0 <= i < |ExportHeaders| ensures EncodesField(ExportHeaders[i], ExportHeaders[i]) {
      PlainCellNeedsNoQuotes(ExportHeaders[i]);
    }
  }

  /** Reading the corrected export gives back the header and every school's
      nine values, provided no id or date contains a comma, a quote or a line
      break. */
  lemma ExportRoundTrip(schools: seq<School>, today: string)
    requires |schools| > 0
    requires forall i :: 0 <= i < |schools| ==> PlainIdAndDate(schools[i], today)
    ensures Csv.ParseLfLines(Export(schools, today).value) == Some(Table(schools, today))
  {
    var cells := ExportCells(schools, today);
    ExportCellsEncode(schools, today);
    LinesRoundTrip(cells, Table(schools, today));
    ExportLines(schools, today);
  }

  lemma ExportCellsEncode(schools: seq<School>, today: string)
    requires forall i :: 0 <= i < |schools| ==> PlainIdAndDate(schools[i], today)
    ensures forall k :: 0 <= k < |schools| + 1 ==>
      EncodesRow(ExportCells(schools, today)[k], Table(schools, today)[k])
  {
    var cells := ExportCells(schools, today);
    var rows := Table(schools, today);
    forall k | 0 <= k < |cells| ensures EncodesRow(cells[k], rows[k]) {
      if k == 0 {
        HeadersPlain();
      } else {
        LineEncodes(schools[k - 1], today);
      }
    }
  }

  lemma ExportLines(schools: seq<School>, today: string)
    requires |schools| > 0
    ensures Join(JoinEach(ExportCells(schools, today)), "\n") == Export(schools, today).value
  {
    assert JoinEach(ExportCells(schools, today)) == [Join(ExportHeaders, ",")] + LinesOf(schools, today, Line);
  }

  /** The cells of the corrected export, header first. */
  function ExportCells(schools: seq<School>, today: string): (c: seq<seq<string>>)
    ensures |c| == |schools| + 1 && c[0] == ExportHeaders
    ensures forall i :: 0 <= i < |schools| ==> c[i + 1] == Cells(ExportValues(schools[i], today), Csv.Quote)
  {
    [ExportHeaders] + seq(|schools|, i requires 0 <= i < |schools| =>
                                Cells(ExportValues(schools[i], today), Csv.Quote))
  }

  // ---------------------------------------------------------------- page

  class DashboardPage {
    var schools: seq<School>
    var filteredSchools: seq<School>
    var searchQuery: string
    var stats: Option<EducationStats>
    var isLoading: bool
    var alerts: seq<string>
    /** The files offered for download, as (file name, content). */
    var downloads: seq<(string, string)>

    /** The list shown is the search result for the current query. */
    predicate ShowsSearch()
      reads this
    {
      filteredSchools == SearchFilter(schools, searchQuery)
    }

    constructor()
      ensures schools == [] && filteredSchools == [] && searchQuery == ""
      ensures stats.None? && isLoading && alerts == [] && downloads == []
      ensures ShowsSearch()
    {
      schools := [];
      filteredSchools := [];
      searchQuery := "";
      stats := None;
      isLoading := true;
      alerts := [];
      downloads := [];
    }

    /** `loadDashboardData`: `fetched` says whether the statistics request and
        its JSON body succeeded; the list is `schoolsData` with its defaults
        filled in, and the figures are computed from it. The search effect
        then runs on the new list. */
    method LoadDashboardData(fetched: bool, schoolsData: Option<seq<School>>, today: string)
      modifies this
      ensures !isLoading
      ensures !fetched ==> schools == old(schools) && filteredSchools == old(filteredSchools)
                           && stats == old(stats)
      ensures fetched ==> var processed := ProcessAll(schoolsData.GetOr([]), today);
        && schools == processed && stats == Some(StatsOf(processed))
        && filteredSchools == SearchFilter(processed, searchQuery)
      ensures searchQuery == old(searchQuery) && alerts == old(alerts) && downloads == old(downloads)
      ensures fetched ==> ShowsSearch()
      ensures old(ShowsSearch()) ==> ShowsSearch()
    {
      if fetched {
        var processed := ProcessAll(schoolsData.GetOr([]), today);
        stats := Some(StatsOf(processed));
        schools := processed;
        filteredSchools := processed;
        filteredSchools := SearchFilter(schools, searchQuery);
      }
      isLoading := false;
    }

    /** Typing in the search box: the effect recomputes the list shown. */
    method SetSearchQuery(query: string)
      modifies this
      ensures searchQuery == query && filteredSchools == SearchFilter(schools, query)
      ensures ShowsSearch()
      ensures schools == old(schools) && stats == old(stats) && isLoading == old(isLoading)
      ensures alerts == old(alerts) && downloads == old(downloads)
    {
      searchQuery := query;
      filteredSchools := SearchFilter(schools, searchQuery);
    }

    /** `analyzeDropout`: shows the high-dropout schools and reports how many. */
    method AnalyzeDropout()
      modifies this
      ensures filteredSchools == HighDropoutSchools(schools)
      ensures alerts == old(alerts) +
        ["Found " + NatToString(|HighDropoutSchools(schools)|) + " schools with dropout rate above 3%"]
      ensures schools == old(schools) && searchQuery == old(searchQuery) && stats == old(stats)
      ensures isLoading == old(isLoading) && downloads == old(downloads)
    {
      var high := HighDropoutSchools(schools);
      filteredSchools := high;
      alerts := alerts + ["Found " + NatToString(|high|) + " schools with dropout rate above 3%"];
    }

    /** `exportDistrictData`: nothing without schools, otherwise one file named
        after today's date. */
    method ExportDistrictData(today: string)
      modifies this
      ensures schools == [] ==> downloads == old(downloads)
      ensures schools != [] ==>
        downloads == old(downloads) + [("district_report_" + today + ".csv", Export(schools, today).value)]
      ensures schools == old(schools) && filteredSchools == old(filteredSchools)
      ensures searchQuery == old(searchQuery) && stats == old(stats)
      ensures isLoading == old(isLoading) && alerts == old(alerts)
    {
      var content := Export(schools, today);
      if content.Some? {
        downloads := downloads + [("district_report_" + today + ".csv", content.value)];
      }
    }
  }
}

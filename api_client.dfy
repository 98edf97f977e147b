/** The front end's client for the back end's HTTP interface: how each call
    builds its request (a JSON body or a query string filled by guarded
    appends) and how it turns the response into a value or a thrown error.

    The network is the parameter `fetch`, a function from the request to the
    response it resolves to; a thrown `Error` is `Err` with its message. The
    base URL is a parameter too. */
module ApiClient {
  import opened Common
  import opened UriEncoding

  /** Name/value pairs in insertion order: a JSON object's members or a
      `URLSearchParams` object. */
  type Fields = seq<(string, string)>

  datatype Body =
    | NoBody
    | Json(fields: Fields)
    | MarkRequest(studentIds: seq<string>, period: string, date: string)

  datatype Request = Request(verb: string, url: string, body: Body)

  /** What `fetch` resolves to: whether the status is in the 2xx range, the
      status, the body text (also what `json()` or `blob()` is read from),
      and the `message` member of a JSON error body. */
  datatype Response = Response(ok: bool, status: int, text: string, message: Option<string>)

  const RecognizeFallback: string := "Failed to communicate with the recognition service"

  /** The value of the first pair named `key`. */
  function Lookup(fields: Fields, key: string): (r: Option<string>)
    ensures r.Some? ==> (key, r.value) in fields
    ensures r.None? ==> forall p :: p in fields ==> p.0 != key
  {
    if |fields| == 0 then None
    else if fields[0].0 == key then Some(fields[0].1)
    else Lookup(fields[1..], key)
  }

  /** An `append(key, value)` guarded by the truthiness of the value. */
  function Param(key: string, v: Option<string>): Fields {
    if Given(v) then [(key, v.value)] else []
  }

  /** The value a truthiness guard lets through. */
  function Present(v: Option<string>): Option<string> {
    if Given(v) then v else None
  }

  // ---------------------------------------------------------------- recognize

  /** The JSON body of a recognition request. */
  function RecognizeBody(image: string, period: Option<string>, date: Option<string>): Fields {
    [("image", image)] + Param("period", period) + Param("date", date)
  }

  /** The body leads with the image and holds each option exactly when it is
      non-empty, under its own name, once, period before date, and no other
      member. */
  lemma RecognizeBodyFields(image: string, period: Option<string>, date: Option<string>)
    ensures var body := RecognizeBody(image, period, date);
      && |body| > 0 && body[0] == ("image", image)
      && Lookup(body, "image") == Some(image)
      && Lookup(body, "period") == Present(period)
      && Lookup(body, "date") == Present(date)
      && (forall i :: 0 <= i < |body| ==> body[i].0 == "image" || body[i].0 == "period" || body[i].0 == "date")
      && |body| == 1 + (if Given(period) then 1 else 0) + (if Given(date) then 1 else 0)
      && (Given(period) && Given(date) ==> body[1].0 == "period" && body[2].0 == "date")
  {
    var body := RecognizeBody(image, period, date);
    var tail := Param("period", period) + Param("date", date);
    assert body == [("image", image)] + tail;
    assert body[1..] == tail;
    assert Lookup(tail, "period") == Present(period) by {
      if Given(period) {
        assert tail[0] == ("period", period.value);
      } else {
        assert tail == Param("date", date);
      }
    }
    assert Lookup(tail, "date") == Present(date) by {
      if Given(period) {
        assert tail[1..] == Param("date", date);
        assert "period" != "date";
      } else {
        assert tail == Param("date", date);
      }
    }
  }

  /** `recognizeFace`: the body always carries the image first, and carries
      `period` and `date` exactly when they are non-empty. Absent options
      are `None` for both. An error response throws the server's message, or
      the fixed fallback when it has none. */
  method RecognizeFace(base: string, image: string, period: Option<string>, date: Option<string>,
                       fetch: Request -> Response)
    returns (request: Request, r: Result<string>)
    ensures request.verb == "POST" && request.url == base + "/recognize" && request.body.Json?
    ensures request.body == Json(RecognizeBody(image, period, date))
    ensures var body := request.body.fields;
      && |body| > 0 && body[0] == ("image", image)
      && Lookup(body, "image") == Some(image)
      && Lookup(body, "period") == Present(period)
      && Lookup(body, "date") == Present(date)
      && forall i :: 0 <= i < |body| ==> body[i].0 == "image" || body[i].0 == "period" || body[i].0 == "date"
    ensures r.Ok? <==> fetch(request).ok
    ensures r.Ok? ==> r.value == fetch(request).text
    ensures r.Err? ==> r.message == (if Given(fetch(request).message) then fetch(request).message.value
                                    else RecognizeFallback)
  {
    var body: Fields := [("image", image)];
    if Given(period) {
      body := body + [("period", period.value)];
    }
    if Given(date) {
      body := body + [("date", date.value)];
    }
    assert body == RecognizeBody(image, period, date);
    RecognizeBodyFields(image, period, date);
    request := Request("POST", base + "/recognize", Json(body));
    var response := fetch(request);
    if !response.ok {
      var message := if Given(response.message) then response.message.value else RecognizeFallback;
      return request, Err(message);
    }
    return request, Ok(response.text);
  }

  // ---------------------------------------------------------------- period attendance

  /** The parameters of the period queries: `date`, then `period`, each only
      when non-empty. */
  function PeriodPairs(date: Option<string>, period: Option<string>): Fields {
    Param("date", date) + Param("period", period)
  }

  /** Reading the period query string back gives each filter exactly when it
      was given, `date` before `period`, and nothing else. */
  lemma PeriodQueryReadsBack(date: Option<string>, period: Option<string>)
    ensures var parsed := ParseSearchParams(SearchParams(PeriodPairs(date, period)));
      && parsed.Some?
      && Lookup(parsed.value, "date") == Present(date)
      && Lookup(parsed.value, "period") == Present(period)
      && |parsed.value| == |Param("date", date)| + |Param("period", period)|
      && (Given(date) ==> parsed.value[0].0 == "date")
  {
    SearchParamsRoundTrip(PeriodPairs(date, period));
  }

  /** `getPeriodAttendance`. */
  method GetPeriodAttendance(base: string, date: Option<string>, period: Option<string>,
                             fetch: Request -> Response)
    returns (request: Request, r: Result<string>)
    ensures request == Request("GET", base + "/period-attendance?" + SearchParams(PeriodPairs(date, period)), NoBody)
    ensures r.Ok? <==> fetch(request).ok
    ensures r.Ok? ==> r.value == fetch(request).text
    ensures r.Err? ==> r.message == "Failed to fetch period attendance: " + IntToString(fetch(request).status)
  {
    var query: Fields := [];
    if Given(date) {
      query := query + [("date", date.value)];
    }
    if Given(period) {
      query := query + [("period", period.value)];
    }
    request := Request("GET", base + "/period-attendance?" + SearchParams(query), NoBody);
    var response := fetch(request);
    if !response.ok {
      return request, Err("Failed to fetch period attendance: " + IntToString(response.status));
    }
    return request, Ok(response.text);
  }

  /** `getPeriodAttendanceSummary`: only a `date` filter. */
  method GetPeriodAttendanceSummary(base: string, date: Option<string>, fetch: Request -> Response)
    returns (request: Request, r: Result<string>)
    ensures request == Request("GET", base + "/period-attendance/summary?" + SearchParams(Param("date", date)), NoBody)
    ensures r.Ok? <==> fetch(request).ok
    ensures r.Ok? ==> r.value == fetch(request).text
    ensures r.Err? ==> r.message == "Failed to fetch attendance summary"
  {
    var query: Fields := [];
    if Given(date) {
      query := query + [("date", date.value)];
    }
    request := Request("GET", base + "/period-attendance/summary?" + SearchParams(query), NoBody);
    var response := fetch(request);
    if !response.ok {
      return request, Err("Failed to fetch attendance summary");
    }
    return request, Ok(response.text);
  }

  /** `exportPeriodAttendance`: the same filters as the listing; the error
      carries the status and the body text. */
  method ExportPeriodAttendance(base: string, date: Option<string>, period: Option<string>,
                                fetch: Request -> Response)
    returns (request: Request, r: Result<string>)
    ensures request == Request("GET", base + "/period-attendance/export?" + SearchParams(PeriodPairs(date, period)), NoBody)
    ensures r.Ok? <==> fetch(request).ok
    ensures r.Ok? ==> r.value == fetch(request).text
    ensures r.Err? ==> r.message == "Failed to export attendance: " + IntToString(fetch(request).status)
                                    + " " + fetch(request).text
  {
    var query: Fields := [];
    if Given(date) {
      query := query + [("date", date.value)];
    }
    if Given(period) {
      query := query + [("period", period.value)];
    }
    request := Request("GET", base + "/period-attendance/export?" + SearchParams(query), NoBody);
    var response := fetch(request);
    if !response.ok {
      return request, Err("Failed to export attendance: " + IntToString(response.status) + " " + response.text);
    }
    return request, Ok(response.text);
  }

  // ---------------------------------------------------------------- students and attendance

  function StudentPairs(classFilter: Option<string>, sectionFilter: Option<string>): Fields {
    Param("class", classFilter) + Param("section", sectionFilter)
  }

  lemma StudentQueryReadsBack(classFilter: Option<string>, sectionFilter: Option<string>)
    ensures var parsed := ParseSearchParams(SearchParams(StudentPairs(classFilter, sectionFilter)));
      && parsed.Some?
      && Lookup(parsed.value, "class") == Present(classFilter)
      && Lookup(parsed.value, "section") == Present(sectionFilter)
      && |parsed.value| == |Param("class", classFilter)| + |Param("section", sectionFilter)|
      && (Given(classFilter) ==> parsed.value[0].0 == "class")
  {
    SearchParamsRoundTrip(StudentPairs(classFilter, sectionFilter));
  }

  /** `getStudents`. */
  method GetStudents(base: string, classFilter: Option<string>, sectionFilter: Option<string>,
                     fetch: Request -> Response)
    returns (request: Request, r: Result<string>)
    ensures request == Request("GET", base + "/students?" + SearchParams(StudentPairs(classFilter, sectionFilter)), NoBody)
    ensures r.Ok? <==> fetch(request).ok
    ensures r.Ok? ==> r.value == fetch(request).text
    ensures r.Err? ==> r.message == "Failed to fetch students"
  {
    var query: Fields := [];
    if Given(classFilter) {
      query := query + [("class", classFilter.value)];
    }
    if Given(sectionFilter) {
      query := query + [("section", sectionFilter.value)];
    }
    request := Request("GET", base + "/students?" + SearchParams(query), NoBody);
    var response := fetch(request);
    if !response.ok {
      return request, Err("Failed to fetch students");
    }
    return request, Ok(response.text);
  }

  /** The search request's URL. */
  function SearchUrl(base: string, query: string): string {
    base + "/students/search?q=" + EncodeUriComponent(query)
  }

  /** The search text travels as one parameter: its encoding holds no `&`,
      `=` or `#`, and decoding it gives the text back. */
  lemma SearchQueryIsOneParameter(base: string, query: string)
    ensures var url := SearchUrl(base, query);
      var prefix := base + "/students/search?q=";
      && StartsWith(url, prefix)
      && '&' !in url[|prefix|..] && '=' !in url[|prefix|..] && '#' !in url[|prefix|..]
      && DecodeUriComponent(url[|prefix|..]) == Some(query)
  {
    var prefix := base + "/students/search?q=";
    var e := EncodeUriComponent(query);
    PrefixOfConcat(prefix, e);
    assert SearchUrl(base, query)[|prefix|..] == e;
    EncodedHasNoDelimiters(Utf8(query), false);
    UriComponentRoundTrip(query);
  }

  /** `searchStudents`. */
  method SearchStudents(base: string, query: string, fetch: Request -> Response)
    returns (request: Request, r: Result<string>)
    ensures request == Request("GET", SearchUrl(base, query), NoBody)
    ensures r.Ok? <==> fetch(request).ok
    ensures r.Ok? ==> r.value == fetch(request).text
    ensures r.Err? ==> r.message == "Failed to search students"
  {
    request := Request("GET", base + "/students/search?q=" + EncodeUriComponent(query), NoBody);
    var response := fetch(request);
    if !response.ok {
      return request, Err("Failed to search students");
    }
    return request, Ok(response.text);
  }

  /** `markAttendance`: a POST whose body names the students, the period and
      the date. */
  method MarkAttendance(base: string, studentIds: seq<string>, period: string, date: string,
                        fetch: Request -> Response)
    returns (request: Request, r: Result<string>)
    ensures request == Request("POST", base + "/attendance", MarkRequest(studentIds, period, date))
    ensures r.Ok? <==> fetch(request).ok
    ensures r.Ok? ==> r.value == fetch(request).text
    ensures r.Err? ==> r.message == "Failed to mark attendance"
  {
    request := Request("POST", base + "/attendance", MarkRequest(studentIds, period, date));
    var response := fetch(request);
    if !response.ok {
      return request, Err("Failed to mark attendance");
    }
    return request, Ok(response.text);
  }

  function AttendancePairs(date: Option<string>, classFilter: Option<string>,
                           sectionFilter: Option<string>): Fields {
    Param("date", date) + Param("class", classFilter) + Param("section", sectionFilter)
  }

  lemma AttendanceQueryReadsBack(date: Option<string>, classFilter: Option<string>,
                                 sectionFilter: Option<string>)
    ensures var parsed := ParseSearchParams(SearchParams(AttendancePairs(date, classFilter, sectionFilter)));
      && parsed.Some?
      && Lookup(parsed.value, "date") == Present(date)
      && Lookup(parsed.value, "class") == Present(classFilter)
      && Lookup(parsed.value, "section") == Present(sectionFilter)
      && |parsed.value| == |Param("date", date)| + |Param("class", classFilter)| + |Param("section", sectionFilter)|
      && (Given(date) ==> parsed.value[0].0 == "date")
      && (!Given(date) && Given(classFilter) ==> parsed.value[0].0 == "class")
  {
    SearchParamsRoundTrip(AttendancePairs(date, classFilter, sectionFilter));
    AttendancePairsLookup(date, classFilter, sectionFilter);
  }

  lemma AttendancePairsLookup(date: Option<string>, classFilter: Option<string>,
                              sectionFilter: Option<string>)
    ensures var p := AttendancePairs(date, classFilter, sectionFilter);
      && Lookup(p, "date") == Present(date)
      && Lookup(p, "class") == Present(classFilter)
      && Lookup(p, "section") == Present(sectionFilter)
  {
    var d, c, t := Param("date", date), Param("class", classFilter), Param("section", sectionFilter);
    assert AttendancePairs(date, classFilter, sectionFilter) == d + (c + t);
    LookupAppend(d, c + t, "date");
    LookupAppend(c, t, "date");
    LookupAppend(d, c + t, "class");
    LookupAppend(c, t, "class");
    LookupAppend(d, c + t, "section");
    LookupAppend(c, t, "section");
  }

  /** Looking a name up in two lists placed end to end. */
  lemma {:induction false} LookupAppend(a: Fields, b: Fields, key: string)
    ensures Lookup(a + b, key) == if Lookup(a, key).Some? then Lookup(a, key) else Lookup(b, key)
    decreases |a|
  {
    if |a| > 0 {
      assert (a + b)[1..] == a[1..] + b;
      LookupAppend(a[1..], b, key);
    } else {
      assert a + b == b;
    }
  }

  /** The guarded appends of `getAttendance`. */
  method AttendanceQuery(date: Option<string>, classFilter: Option<string>, sectionFilter: Option<string>)
    returns (query: Fields)
    ensures query == AttendancePairs(date, classFilter, sectionFilter)
  {
    query := [];
    if Given(date) {
      query := query + [("date", date.value)];
    }
    assert query == Param("date", date);
    if Given(classFilter) {
      query := query + [("class", classFilter.value)];
    }
    assert query == Param("date", date) + Param("class", classFilter);
    if Given(sectionFilter) {
      query := query + [("section", sectionFilter.value)];
    }
  }

  /** `getAttendance`. */
  method GetAttendance(base: string, date: Option<string>, classFilter: Option<string>,
                       sectionFilter: Option<string>, fetch: Request -> Response)
    returns (request: Request, r: Result<string>)
    ensures request == Request("GET", base + "/attendance?"
                               + SearchParams(AttendancePairs(date, classFilter, sectionFilter)), NoBody)
    ensures r.Ok? <==> fetch(request).ok
    ensures r.Ok? ==> r.value == fetch(request).text
    ensures r.Err? ==> r.message == "Failed to fetch attendance records"
  {
    var query := AttendanceQuery(date, classFilter, sectionFilter);
    request := Request("GET", base + "/attendance?" + SearchParams(query), NoBody);
    var response := fetch(request);
    if !response.ok {
      return request, Err("Failed to fetch attendance records");
    }
    return request, Ok(response.text);
  }
}

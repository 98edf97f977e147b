# Praesentix attendance core in Dafny

Praesentix takes attendance by face recognition. A Flask back end recognises
the faces in a camera frame and marks attendance in three ledgers:

- a basic `attendance` table, one row per student and day, reached through
  the student's registration number;
- an "enhanced" table, one row per student and day, carrying emotion and
  liveness;
- a period table, one row per student, day and period, which also writes an
  unread notification for every mark.

The period table can be listed, summarised per period and exported as CSV. A
React front end drives the camera and the enrollment form, builds the
requests, and offers dashboards, exports, notifications, search and bulk
operations.

This project models that bookkeeping. Databases are in-memory sequences of
rows. The clock, the network and the recognition libraries are parameters.
The model proves the uniqueness invariants, the round trips of every encoding
the system writes and reads, the thresholds, and the state machines of the
pages.

Files, one module each:

- Shared building blocks:
  - `common.dfy`: optional values, results, and the string operations of Python and JavaScript.
  - `sorting.dfy`: `ORDER BY` as a sort by a total preorder.
  - `csv.dfy`: the two CSV writers and an RFC 4180 reader.
  - `base64.dfy`: `atob` and the canvas encoder.
  - `uri.dfy`: `encodeURIComponent` and `URLSearchParams` with a decoder.
- Back end:
  - `models.dfy`: records, column defaults and constraints.
  - `period_attendance.dfy`: the period ledger, listing, summary and export.
  - `attendance_db.dfy`: the basic student and attendance tables.
  - `app_ledgers.dfy`: the enhanced ledger, `save_attendance_to_db` and the encoding store.
  - `person_ids.dfy`: the `"ID-<id> - <name>"` encoding and its parsers.
  - `recognition.dfy`: matching, eligibility, the per-face loops and enrollment.
  - `test_server.dfy`: the period endpoints' responses and the export filename.
- Front end:
  - `api_client.dfy`: the request builders and error handling.
  - `camera_attendance.dfy`, `face_enrollment.dfy`, `period_manager.dfy`: the camera, enrollment and export pages.
  - `student_dashboard.dfy`, `education_dashboard.dfy`: the dashboards.
  - `notification_center.dfy`, `search_bar.dfy`, `bulk_operations.dfy`: the smaller components.

Scores (liveness and recognition confidence, attendance and dropout rates)
are integers counting tenths of a percent. That is the precision the exports
format them with. A face distance is an integer in thousandths, and the
recognition confidence is `1000 - distance` tenths.

## Model

| member | source | states |
|---|---|---|
| Models.InsertUser | Backend/models.py:43-50 | an insert succeeds exactly when the username is new, appends the user, fails with the UNIQUE-constraint message otherwise, and keeps usernames unique |
| PeriodAttendance.SpoofStatus | Backend/period_attendance.py:20 | the status is "LIVE" exactly when the face is live and "SPOOFED" exactly when it is not |
| PeriodAttendance.DefaultArgumentsMatchColumnDefaults | Backend/period_attendance.py:9-10 | a mark with the default arguments writes the column defaults of the schema (Neutral, LIVE, 75.0, 85.0) |
| PeriodAttendance.PeriodLedger.constructor | Backend/models.py:7-21 | a fresh ledger is empty and valid |
| PeriodAttendance.PeriodLedger.Mark | Backend/period_attendance.py:9-72 | a database error changes nothing and returns its message; a taken (student, date, period) slot returns the duplicate message and changes nothing; otherwise exactly one row with the given fields and one unread notification are appended; success iff no error and slot free; the one-row-per-slot invariant is kept |
| PeriodAttendance.MarkedSlotIsTaken | Backend/period_attendance.py:23-31 | after a row is appended its slot is taken, so a second mark of the same slot is refused |
| PeriodAttendance.FilterRows | Backend/period_attendance.py:80-84 | a row is kept exactly when it matches the given date and period, an empty or missing filter restricting nothing |
| PeriodAttendance.StrLtOrEq | Backend/period_attendance.py:86 | any two strings are ordered one way or the other or are equal |
| PeriodAttendance.StrLtTransitive | Backend/period_attendance.py:86 | the strict string order is transitive through a non-strict step |
| PeriodAttendance.ListingOrderIsTotalPreorder | Backend/period_attendance.py:86 | date descending, period ascending, time descending is a total preorder |
| PeriodAttendance.ListingTransitive | Backend/period_attendance.py:86 | the listing order is transitive |
| PeriodAttendance.GetPeriodAttendance | Backend/period_attendance.py:74-105 | a failure gives []; otherwise the result is a permutation of the matching rows, holds exactly the matching rows, and is sorted by date desc, period asc, time desc |
| PeriodAttendance.OnDate | Backend/period_attendance.py:186 | keeps exactly the rows of the target date |
| PeriodAttendance.InsertDistinct | Backend/period_attendance.py:187-188 | inserting into a strictly increasing list keeps it strictly increasing and adds exactly that element |
| PeriodAttendance.HasPeriodCons | Backend/period_attendance.py:187 | a period occurs in a table iff it is the first row's or occurs in the rest |
| PeriodAttendance.Periods | Backend/period_attendance.py:187-188 | the groups are the distinct periods of the rows, strictly increasing |
| PeriodAttendance.SummarizePeriods | Backend/period_attendance.py:181-189 | one summary row per period, with the count of rows, LIVE rows and SPOOFED rows of that period |
| PeriodAttendance.AttendanceSummary | Backend/period_attendance.py:169-198 | a failure gives []; otherwise the periods are strictly increasing, each row counts its period's total, live and spoofed rows on the target date (today when no date is given), and a period is listed iff some row of that date has it |
| PeriodAttendance.SummaryPeriodsExact | Backend/period_attendance.py:179-189 | a period appears in the summary iff some row of the target date has it |
| PeriodAttendance.StatusCountsAddUp | Backend/period_attendance.py:183-184 | when every status is LIVE or SPOOFED, live plus spoofed equals the period's total |
| PeriodAttendance.OnDateKeepsStatuses | Backend/period_attendance.py:20 | restricting to one date keeps every status LIVE or SPOOFED |
| PeriodAttendance.SummaryAddsUp | Backend/period_attendance.py:20 | for a ledger written only by marks, live_count + spoofed_count = total_present in every summary row |
| PeriodAttendance.FormatTenths | Backend/period_attendance.py:133-134 | a score renders with at least one digit, a point and a decimal |
| PeriodAttendance.FormatTenthsInjective | Backend/period_attendance.py:133-134 | different scores render differently |
| PeriodAttendance.LiveCount | Backend/period_attendance.py:145 | the live count is at most the number of records |
| PeriodAttendance.DataRows | Backend/period_attendance.py:123-137 | one data row per record, in query order |
| PeriodAttendance.ExportRows | Backend/period_attendance.py:116-158 | the table is the header, one row per record and the summary block |
| PeriodAttendance.WriteExport | Backend/period_attendance.py:107-167 | writing the rows one at a time produces the export of the queried records, or nothing when a record lacks a score; a failed query exports an empty table (header, summary and a total of 0) |
| PeriodAttendance.FormatRecords | Backend/period_attendance.py:123-137 | formatting succeeds iff every record has both scores, and then yields exactly one formatted row per record, in query order |
| PeriodAttendance.WriteAll | Backend/period_attendance.py:112-160 | the row-by-row writer loop produces the CSV text of the whole table |
| PeriodAttendance.AppendRow | Backend/period_attendance.py:137 | writing one more row appends that row's CSV line ending in CR LF |
| PeriodAttendance.DataRowsAppend | Backend/period_attendance.py:123-137 | one more record adds exactly its row at the end |
| PeriodAttendance.ExportRowsSplit | Backend/period_attendance.py:116-158 | row 0 is the 11-column header, row i+1 is record i, and the rest is the summary block |
| PeriodAttendance.ExportRowCells | Backend/period_attendance.py:124-136 | a data row has 11 cells starting with id and student id, and its status cell is "Live" iff the status is LIVE, "Spoofed" otherwise |
| PeriodAttendance.SummaryBlockLayout | Backend/period_attendance.py:139-158 | blank, SUMMARY, the total equal to the record count; live and averages rows only with records; the spoofed row (total minus live) only when it is positive; blank and "Generated on:" last |
| PeriodAttendance.ExportReadsBack | Backend/period_attendance.py:107-167 | reading the export back with an RFC 4180 reader gives the header, the records' rows and the summary block |
| PeriodAttendance.MarkedRowsExport | Backend/period_attendance.py:107-167 | a ledger whose rows all carry scores always exports |
| Sorting.Insert | Backend/period_attendance.py:86 | inserting adds exactly one element |
| Sorting.SortBy | Backend/period_attendance.py:86 | sorting is a permutation |
| Sorting.InsertSorted | Backend/period_attendance.py:86 | inserting into a sorted list keeps it sorted |
| Sorting.SortBySorted | Backend/period_attendance.py:86 | the sorted result is ordered by any total preorder |
| Sorting.SortByMembers | Backend/period_attendance.py:86 | sorting keeps exactly the same members |
| Csv.Escape | Backend/period_attendance.py:113 | doubling quotes never shortens a field and leaves a quote-free field as it is |
| Csv.ParseQuoted | Backend/period_attendance.py:113 | the quoted-field reader consumes input |
| Csv.ParseUnquoted | Backend/period_attendance.py:113 | an unquoted field and what follows are exactly the input, stopping at a field end |
| Csv.ParseField | Backend/period_attendance.py:113 | a field read never grows the input |
| Csv.ParseRecord | Backend/period_attendance.py:113 | a record has at least one field |
| Csv.ReadBack | Backend/period_attendance.py:140 | a non-empty row reads back as itself, an empty row as one empty field |
| Csv.ReadBackAll | Backend/period_attendance.py:140 | rows read back one by one |
| Csv.QuotedRoundTrip | Backend/period_attendance.py:113 | a field with doubled quotes and a closing quote reads back as the field |
| Csv.UnquotedRoundTrip | Backend/period_attendance.py:113 | a field without comma, quote, CR or LF reads back unquoted |
| Csv.QuoteRoundTrip | Frontend/src/pages/dashboards/StudentDashboard.tsx:206 | any quoted field reads back as itself |
| Csv.FieldRoundTrip | Backend/period_attendance.py:113 | every field written with minimal quoting reads back as itself |
| Csv.FieldsRoundTrip | Backend/period_attendance.py:116-158 | a row of one or more fields reads back as itself |
| Csv.RowRoundTrip | Backend/period_attendance.py:140 | any row, empty rows included, reads back |
| Csv.WriteRowsRoundTrip | Backend/period_attendance.py:112-160 | the CR LF text of a table reads back as its rows |
| Csv.QuoteAllRowRoundTrip | Frontend/src/pages/dashboards/StudentDashboard.tsx:206 | an all-quoted row reads back as itself |
| Csv.LineRecord | Frontend/src/pages/dashboards/StudentDashboard.tsx:205-207 | any all-quoted line, empty ones included, reads back |
| Csv.QuoteAllLinesRoundTrip | Frontend/src/pages/dashboards/StudentDashboard.tsx:205-207 | the LF-joined, all-quoted text of a table reads back as its rows |
| AttendanceDb.FindByRegNo | Backend/DataBase_attendance.py:22 | a student is found iff one has that reg_no, and the one found is in the table with that reg_no |
| AttendanceDb.Store.constructor | Backend/DataBase_attendance.py:18-39 | fresh tables are empty and valid |
| AttendanceDb.Store.AddStudent | Backend/DataBase_attendance.py:46-55 | a missing name or an existing reg_no leaves the students unchanged; otherwise one student is appended; attendance never changes; reg_nos stay unique |
| AttendanceDb.Store.InsertMark | Backend/DataBase_attendance.py:29-39 | an insert succeeds iff the student has no row that day, then appends exactly one row; one row per student and day is kept |
| AttendanceDb.AddStudentTwice | Backend/DataBase_attendance.py:46-55 | adding the same student twice adds one row when the reg_no is new, none when it is taken, and two rows when there is no reg_no |
| AttendanceDb.StudentById | Backend/DataBase_attendance.py:69 | the student found has that id; none is found only when no student has it |
| AttendanceDb.Join | Backend/DataBase_attendance.py:67-70 | the inner join has at most one row per attendance row |
| AttendanceDb.RegNoLeTotalPreorder | Backend/DataBase_attendance.py:71 | the reg_no order (NULL first) is total and transitive |
| AttendanceDb.ByRegNoIsTotalPreorder | Backend/DataBase_attendance.py:71 | ordering by reg_no is a total preorder |
| AttendanceDb.ByDateThenRegNoIsTotalPreorder | Backend/DataBase_attendance.py:78 | ordering by date, then reg_no is a total preorder |
| AttendanceDb.ViewAttendance | Backend/DataBase_attendance.py:60-83 | with a date, a permutation of that date's joined rows sorted by reg_no; without, a permutation of all joined rows sorted by date then reg_no |
| AttendanceDb.JoinMembers | Backend/DataBase_attendance.py:67-70 | a row is in the join iff it comes from an attendance row of the date whose student exists, combined with that student |
| AttendanceDb.ViewRowsOnDate | Backend/DataBase_attendance.py:65-72 | a dated view holds only that date's rows, each naming an existing student |
| AttendanceDb.OrphanExcluded | Backend/DataBase_attendance.py:68-69 | an attendance row without a student adds nothing to the view |
| AppLedgers.EnhancedLedger.constructor | Backend/app.py:441-486 | a fresh enhanced table is empty and valid |
| AppLedgers.EnhancedLedger.Mark | Backend/app.py:441-496 | marking succeeds iff the name is not "Unknown", the id is non-empty, the database works and the student has no row today; success appends exactly one row with the given fields and LIVE/SPOOFED status; failure changes nothing; one row per student and day is kept |
| AppLedgers.EnhancedMarkedOnGrows | Backend/app.py:461-470 | a row for a student and date stays in every extension of the table |
| AppLedgers.EnhancedMarkIsFinal | Backend/app.py:461-470 | once a student has a row for a date, the insert guard refuses every later mark for that date, whatever rows were added since |
| AppLedgers.SaveAttendanceToDb | Backend/app.py:503-568 | an unknown reg_no or an existing row for today returns False and inserts nothing; otherwise one 'Present' row for that student and today is inserted and True returned; students never change |
| AppLedgers.EnsureStudent | Backend/app.py:667-689 | an existing reg_no or a failure leaves the students unchanged; otherwise the student is added with class and section 'Unknown'; afterwards the reg_no is present |
| AppLedgers.WithoutPerson | Backend/app.py:112-115 | replacing removes exactly the encodings with that person id |
| AppLedgers.WithoutPersonUnique | Backend/models.py:27 | removing a person keeps person ids unique |
| AppLedgers.EncodingStore.constructor | Backend/models.py:23-31 | a fresh store is empty and valid |
| AppLedgers.EncodingStore.Save | Backend/app.py:106-117 | INSERT OR REPLACE removes any old encoding of the person and appends the new one with its image count; person ids stay unique |
| AppLedgers.SavedEncodingIsOnly | Backend/models.py:27 | after a save, the person has exactly one encoding, the new one |
| PersonIds.SplitAsWritten | Backend/app.py:156-157 | the parser as written accepts exactly when splitting at " - " gives two parts |
| PersonIds.SplitPersonId | Backend/app.py:156-161 | the corrected parser accepts exactly when the id contains " - " |
| PersonIds.FirstSeparator | Backend/app.py:1022 | in a formatted id the first " - " is the one after the student id |
| PersonIds.NoSeparatorBefore | Backend/app.py:1022 | no " - " starts inside "ID-" + the student id |
| PersonIds.StripIdPrefix | Backend/app.py:158 | removing "ID-" gives back an id that contains none |
| PersonIds.ParseFormatRoundTrip | Backend/app.py:1022 | the corrected parsers give back (id, name) for every name when the id is parsable |
| PersonIds.ParseAsWrittenRoundTrip | Backend/app.py:155-161 | the parsers as written give back (id, name) when the name has no " - " |
| PersonIds.AsWrittenRejectsSeparatorInName | Backend/app.py:156-157 | as written, a name with " - " never splits into two parts |
| PersonIds.AsWrittenFallback | Backend/app.py:162-170 | as written, such an id falls to the fallback branches and both lists get the wrong name |
| PersonIds.AsWrittenMisreadsMaryJane | Backend/app.py:155-170 | id "42" with name "Mary - Jane" is read as ("42 - Mary - Jane", "ID-42 - Mary - Jane") as written and as ("42", "Mary - Jane") when corrected |
| PersonIds.CorrectedAgreesWhenAsWrittenAccepts | Backend/app.py:1277-1280 | whenever the parser as written accepts, the corrected one gives the same answer |
| Recognition.FaceRegistry.constructor | Backend/app.py:139-141 | the three lists start empty and aligned |
| Recognition.FaceRegistry.Load | Backend/app.py:132-178 | a failure leaves the lists empty; otherwise one encoding, name and roll number per stored encoding, in order, parsed by the corrected parser; the lists stay the same length |
| Recognition.ArgMin | Backend/app.py:625 | the first index of a minimal distance |
| Recognition.BestMatch | Backend/app.py:620-629 | a face is named only by a matching index of minimal distance, and stays unknown exactly when there is no match or the closest face does not match |
| Recognition.NearestMatchChosen | Backend/app.py:624-629 | a strictly closest matching encoding is chosen |
| Recognition.NearestNonMatchLeavesUnknown | Backend/app.py:624-626 | a strictly closest non-matching encoding leaves the face unknown even if another matches |
| Recognition.Identify | Backend/app.py:615-629 | no best match gives ("Unknown", "N/A", 0); a best match gives its name, roll number and 100 minus its distance |
| Recognition.Analyse | Backend/app.py:632-661 | a crop of 20 pixels or less is not live with liveness 20.0; a failed analysis is not live with 30.0; otherwise the detector's verdict; only a live face gets an emotion other than Neutral |
| Recognition.EnhancedIsStricter | Backend/app.py:1164 | a face eligible at the enhanced endpoint with a roll number is eligible at the basic one |
| Recognition.IneligibleFaces | Backend/app.py:664 | an unknown face, a non-live face, or confidence at most 50 (enhanced: 85) is never marked |
| Recognition.MarkFace | Backend/app.py:664-726 | the student, attendance and enhanced tables (with their next ids) become exactly `MarkedTables` of the old ones: nothing for an ineligible face, else the placeholder student when none has the roll number, a 'Present' row for today unless the student has one, and the enhanced row with the face's name, time, emotion, status, scores and timestamp unless one exists today; the period ledger becomes exactly `MarkedPeriod`: a row and its notification when a period is given and the slot is free; marked iff eligible and some ledger grew |
| Recognition.ProcessFace | Backend/app.py:614-758 | one face's entry reports its identity and analysis, spoofed == not live, marked iff the face is eligible and the basic, enhanced or period table gained a row for it (the flag of app.py:721-726), and "already marked" iff a row existed before this request; the tables become exactly `MarkedTables` and `MarkedPeriod` of the old ones for the face's identity and analysis |
| Recognition.ProcessFaceAsWritten | Backend/app.py:732-746 | as written, a face marked by this request is also reported as already marked |
| Recognition.RecognizeFace | Backend/app.py:572-763 | no image or an undecodable image gives 400 and leaves every table and next id as it was; otherwise at most 60 entries, one per face in order, the "No faces detected." note iff there are none; each entry is marked iff its face is eligible and the basic, enhanced or period table gains a row for it when marked on the tables the earlier faces left (app.py:721-726, 756); the tables become exactly the faces marked one after the other (`MarkAll`, `MarkAllPeriods` with the period defaulting to none and the date to today), so they only grow, and every eligible face's student exists with an enhanced row today when it has a roll number; each entry's already-marked flag is read from the enhanced table as the earlier faces left it, set only for a student with an enhanced row today, and always set for a named student with a roll number who had one before the request |
| Recognition.ProcessFaces | Backend/app.py:614-758 | the face loop: one result per face in order, each reporting its identity and analysis, marked iff eligible and some table gains a row for it on the tables the earlier faces left; the tables become exactly `MarkAll` and `MarkAllPeriods` of the old ones over the faces, and each already-marked flag is read from the enhanced table the earlier faces left |
| Recognition.MarkedTablesEffect | Backend/app.py:664-706 | one face only appends; an ineligible face changes nothing; after an eligible one a student has the roll number, that student has a basic row today and, with a roll number, an enhanced row today |
| Recognition.MarkedPeriodEffect | Backend/app.py:708-719 | one face's period marking only appends, one notification per row and at most one row; nothing without eligibility or a period; otherwise the slot is taken afterwards |
| Recognition.EnhancedMarkedTablesEffect | Backend/app.py:1164-1171 | one enhanced-endpoint face leaves the students alone, only appends, and adds a basic row only with an enhanced one; an eligible face with a roll number has an enhanced row today afterwards |
| Recognition.MarkAllEffect | Backend/app.py:614-758 | a whole request only appends, and afterwards every eligible face's student exists and, with a roll number, has an enhanced row today |
| Recognition.MarkAllPeriodsEffect | Backend/app.py:614-758 | a whole request's period marks only append, one notification per row, nothing without a period, and every eligible face's slot is taken afterwards |
| Recognition.EnhancedMarkAllEffect | Backend/app.py:1118-1182 | a whole enhanced request leaves the students alone, only appends, adds no more basic rows than enhanced ones, and leaves every eligible face with a roll number an enhanced row today |
| Recognition.SeenEffect | Backend/app.py:614-758 | the same facts as MarkAllEffect stated for the first n detected faces |
| Recognition.EnhancedSeenEffect | Backend/app.py:1118-1182 | the same facts as EnhancedMarkAllEffect stated for the first n detected faces |
| Recognition.MarkBasic | Backend/app.py:667-696 | the placeholder student insert then save_attendance_to_db: the tables become exactly `WithBasicMark(WithStudent(...))` of the old ones, and the result says whether a basic row was added |
| Recognition.MarkEligible | Backend/app.py:667-706 | for an eligible face the tables become exactly `MarkedTables` of the old ones; the enhanced mark succeeds iff the face has a roll number and no enhanced row today, and then leaves one |
| Recognition.ProcessNext | Backend/app.py:614-758 | one iteration of the face loop keeps the loop's facts: the tables are the fold over one more face and the new entry fits |
| Recognition.ResultsFitSnoc | Backend/app.py:732-746 | a new entry whose flag was read before marking keeps every entry's reported identity, marked flag and already-marked flag exact |
| Recognition.EntryStays | Backend/app.py:732-746 | an earlier entry's reported identity, marked flag and already-marked flag stay exact as the enhanced table grows |
| Recognition.NewEntryFits | Backend/app.py:732-746 | the entry of the next face, with its marked and already-marked flags taken against the tables the earlier faces left, is exact |
| Recognition.MarkPeriod | Backend/app.py:708-719 | for an eligible face the period tables become exactly `MarkedPeriod` of the old ones; with a period, a row is added iff the slot was free; without one nothing changes |
| Recognition.TablesStep | Backend/app.py:614-758 | marking face i on the tables the first i faces left gives the tables of the first i + 1 faces |
| Recognition.ProcessEnhancedFaces | Backend/app.py:1118-1182 | the enhanced face loop: one entry per face in order, each reporting its face and marked exactly when the table the earlier faces left let it through; the tables become `EnhancedMarkAll` of the old ones |
| Recognition.EnhancedStep | Backend/app.py:1118-1182 | one more enhanced face keeps every entry exact and the tables equal to the fold over one more face |
| Recognition.FlagsStayFitting | Backend/app.py:732-746 | processing one more face keeps every earlier flag consistent with the grown enhanced table and makes the new flag consistent |
| Recognition.ProcessEnhancedFace | Backend/app.py:1118-1182 | the entry reports the face's identity and analysis; marked iff eligible at 85 with a roll number and no enhanced row today; the tables become exactly `EnhancedMarkedTables` of the old ones: the enhanced row with the face's name, time, emotion, status, scores and timestamp, then save_attendance_to_db's 'Present' row, or nothing at all |
| Recognition.EnhancedRecognize | Backend/app.py:1068-1194 | the same 400 cases, which leave every table and next id as it was; at most 60 entries in order, each reporting its face and marked iff eligible at 85 with a roll number and no enhanced row in the table the earlier faces left; the tables become exactly `EnhancedMarkAll` of the old ones over the faces, so the students never change, the tables only grow, the basic ledger grows no more than the enhanced one, and every eligible face with a roll number has an enhanced row today |
| Recognition.ValidateEnrollment | Backend/app.py:944-970 | rejected iff name or id is empty or fewer than 3 files, with the message of the first failing check |
| Recognition.CollectEncodings | Backend/app.py:972-1011 | the loop keeps exactly the usable files' encodings, in order |
| Recognition.Usable | Backend/app.py:974-1011 | at most one encoding per file |
| Recognition.UsableAppend | Backend/app.py:974-1011 | one more file adds its encoding only if it is usable |
| Recognition.EnrollFace | Backend/app.py:933-1065 | invalid requests give 400 with the validation message and change nothing; with no usable image, 400; on success the encoding replaces the person's old one, the student exists, and the registry is reloaded |
| Recognition.StoreEnrollment | Backend/app.py:1022-1050 | the new encoding replaces every earlier one of the person id, the student with that registration number exists afterwards, and the reloaded known faces end with (id, name) whenever the id can be parsed back |
| SimpleServer.ListPeriodAttendance | Backend/simple_test_server.py:19-47 | one entry per listed record in order, carrying positions 0 to 10, and total equals the number of entries |
| SimpleServer.SummarizeDay | Backend/simple_test_server.py:55-74 | one entry per summary row in order, mapping positions 0 to 3 |
| SimpleServer.SummaryEntriesAddUp | Backend/simple_test_server.py:62-69 | every entry's live and spoofed counts add up to its total |
| SimpleServer.SanitisePeriod | Backend/simple_test_server.py:101 | the sanitised period has no space, '(' or ')' |
| SimpleServer.ExportFilename | Backend/simple_test_server.py:96-102 | the guarded appends build the filename "_"-joining "period_attendance", the date if given and the period if given, plus ".csv" |
| SimpleServer.JoinedParts | Backend/app.py:1616-1621 | the joined parts are the prefix followed by "_" + each present part |
| SimpleServer.FilenameShape | Backend/simple_test_server.py:97-102 | the name starts with "period_attendance", ends with ".csv", is exactly "period_attendance.csv" without filters, and carries "_" + date right after the prefix when a date is given |
| SimpleServer.FilenameDistinguishesDates | Backend/simple_test_server.py:97-102 | different dates give different filenames |
| SimpleServer.Export | Backend/simple_test_server.py:82-114 | a CSV failure gives 500 "Failed to generate CSV"; otherwise the CSV as text/csv under the export filename |
| Base64.SextetValue | Frontend/src/components/admin/FaceEnrollment.tsx:35 | a character's value is a 6-bit number that encodes back to it |
| Base64.SextetRoundTrip | Frontend/src/components/admin/FaceEnrollment.tsx:35 | every 6-bit value decodes back from its character |
| Base64.Chars | Frontend/src/components/admin/FaceEnrollment.tsx:100 | one character per 6-bit value |
| Base64.EncodeSextets | Frontend/src/components/admin/FaceEnrollment.tsx:100 | 4 values per 3 bytes plus a shorter final group, never 1 mod 4 |
| Base64.Encode | Frontend/src/components/admin/FaceEnrollment.tsx:100 | padded output has a length divisible by 4 |
| Base64.RemoveWhitespace | Frontend/src/components/admin/FaceEnrollment.tsx:35 | removes exactly the ASCII whitespace |
| Base64.StripPadding | Frontend/src/components/admin/FaceEnrollment.tsx:35 | stripping padding never lengthens |
| Base64.Sextets | Frontend/src/components/admin/FaceEnrollment.tsx:35 | fails exactly when some character is outside the alphabet |
| Base64.DecodeSextets | Frontend/src/components/admin/FaceEnrollment.tsx:35 | 3 bytes per 4 values plus a shorter final group |
| Base64.Decode | Frontend/src/components/admin/FaceEnrollment.tsx:35 | decoding never lengthens |
| Base64.DecodeRejectsLengthOneModFour | Frontend/src/components/admin/FaceEnrollment.tsx:35 | a length of 1 mod 4 after whitespace removal is an error |
| Base64.DecodeRejectsForeign | Frontend/src/components/admin/FaceEnrollment.tsx:35 | a character outside the alphabet, whitespace and '=' is an error |
| Base64.SextetsOfChars | Frontend/src/components/admin/FaceEnrollment.tsx:35 | reading the characters of 6-bit values gives them back |
| Base64.DecodeEncodeSextets | Frontend/src/components/admin/FaceEnrollment.tsx:35 | regrouping the 6-bit values gives back the bytes |
| Base64.DecodeEncode | Frontend/src/components/admin/FaceEnrollment.tsx:35 | decoding the canvas's base64 gives back exactly the bytes |
| UriEncoding.Utf8 | Frontend/src/utils/api.ts:96 | at least one byte per character |
| UriEncoding.Utf8CharRoundTrip | Frontend/src/utils/api.ts:96 | one character's UTF-8 bytes decode back to it |
| UriEncoding.Utf8RoundTrip | Frontend/src/utils/api.ts:96 | a string's UTF-8 bytes decode back to it |
| UriEncoding.EncodeByte | Frontend/src/utils/api.ts:96 | a byte is written as one character or a %XX escape |
| UriEncoding.EncodeBytesRoundTrip | Frontend/src/utils/api.ts:28-32 | percent-decoding the encoded bytes gives them back, in both schemes |
| UriEncoding.UriComponentRoundTrip | Frontend/src/utils/api.ts:96 | decoding `encodeURIComponent(s)` gives back s |
| UriEncoding.FormRoundTrip | Frontend/src/utils/api.ts:28-32 | decoding a form-encoded string gives it back |
| UriEncoding.EncodedHasNoDelimiters | Frontend/src/utils/api.ts:96 | encoded text contains no '&', '=' or '#' |
| UriEncoding.SplitJoin | Frontend/src/utils/api.ts:32 | splitting a join at a character absent from the parts gives the parts back |
| UriEncoding.EncodePairs | Frontend/src/utils/api.ts:32 | one encoded pair per pair |
| UriEncoding.PairRoundTrip | Frontend/src/utils/api.ts:32 | a "name=value" pair decodes back |
| UriEncoding.PairsRoundTrip | Frontend/src/utils/api.ts:32 | a list of pairs decodes back |
| UriEncoding.SearchParamsRoundTrip | Frontend/src/utils/api.ts:28-32 | parsing a serialised `URLSearchParams` gives back its pairs in order |
| ApiClient.Lookup | Frontend/src/utils/api.ts:8-10 | the value found belongs to a pair with that name; none is found only when no pair has it |
| ApiClient.RecognizeFace | Frontend/src/utils/api.ts:7-24 | a POST to /recognize whose body is exactly the image, then the period when non-empty, then the date when non-empty; ok responses return the body, others throw the server's message or the fixed fallback |
| ApiClient.RecognizeBodyFields | Frontend/src/utils/api.ts:8-10 | the recognition body leads with the image, holds period and date exactly when they are non-empty, each once and period before date, and has no other member |
| ApiClient.PeriodQueryReadsBack | Frontend/src/utils/api.ts:28-32 | the period query parses back with date and period present exactly when given, date first |
| ApiClient.GetPeriodAttendance | Frontend/src/utils/api.ts:27-45 | GET with the period query; ok iff the response is ok; otherwise the status message |
| ApiClient.GetPeriodAttendanceSummary | Frontend/src/utils/api.ts:47-58 | GET with the date query; ok iff the response is ok; otherwise the fixed message |
| ApiClient.ExportPeriodAttendance | Frontend/src/utils/api.ts:60-78 | GET with the period query; ok iff the response is ok; otherwise the status and the body text |
| ApiClient.StudentQueryReadsBack | Frontend/src/utils/api.ts:82-84 | the student query parses back with class and section present exactly when given, class first |
| ApiClient.GetStudents | Frontend/src/utils/api.ts:81-93 | GET with the student query; ok iff the response is ok; otherwise the fixed message |
| ApiClient.SearchQueryIsOneParameter | Frontend/src/utils/api.ts:96 | whatever the query, the URL carries it as the single `q` value and it decodes back |
| ApiClient.SearchStudents | Frontend/src/utils/api.ts:95-103 | GET /students/search with the encoded query; ok iff the response is ok |
| ApiClient.MarkAttendance | Frontend/src/utils/api.ts:105-117 | a POST carrying the ids, period and date; ok iff the response is ok |
| ApiClient.AttendanceQueryReadsBack | Frontend/src/utils/api.ts:121-124 | the attendance query parses back with date, class and section present exactly when given, in that order |
| ApiClient.AttendancePairsLookup | Frontend/src/utils/api.ts:121-124 | each given filter is found under its own name |
| ApiClient.LookupAppend | Frontend/src/utils/api.ts:121-124 | a name is looked up in the first list before the second |
| ApiClient.AttendanceQuery | Frontend/src/utils/api.ts:121-124 | the guarded appends hold date, class and section, in that order, each exactly when it is non-empty |
| ApiClient.GetAttendance | Frontend/src/utils/api.ts:120-133 | GET with the attendance query; ok iff the response is ok; otherwise the fixed message |
| CameraAttendance.Flipped | Frontend/src/pages/CameraAttendance.tsx:101-102 | the facing mode always changes |
| CameraAttendance.FlipTwice | Frontend/src/pages/CameraAttendance.tsx:101-102 | toggling twice restores the facing mode |
| CameraAttendance.AlreadyMarked | Frontend/src/pages/CameraAttendance.tsx:152-154 | holds the "name (roll)" of exactly the faces flagged already marked, and is empty iff none is flagged |
| CameraAttendance.AlreadyMarkedAppend | Frontend/src/pages/CameraAttendance.tsx:152-154 | the list keeps the order of the faces |
| CameraAttendance.CardColourOf | Frontend/src/pages/CameraAttendance.tsx:265-271 | red iff spoofed, yellow iff live and already marked, green otherwise |
| CameraAttendance.CameraPage.constructor | Frontend/src/pages/CameraAttendance.tsx:30-63 | the page starts idle, facing the user, with today's date and no period |
| CameraAttendance.CameraPage.StartCamera | Frontend/src/pages/CameraAttendance.tsx:69-84 | a media error only adds a toast; a stream with a video element becomes active with a ready toast |
| CameraAttendance.CameraPage.StopCamera | Frontend/src/pages/CameraAttendance.tsx:86-99 | every track is stopped, the stream is released, and the page is inactive, not scanning, with no faces |
| CameraAttendance.CameraPage.ToggleCamera | Frontend/src/pages/CameraAttendance.tsx:101-105 | flips the facing mode and stops the camera |
| CameraAttendance.CameraPage.StartScanning | Frontend/src/pages/CameraAttendance.tsx:107-169 | no period gives a warning and sends nothing; the missing-context return leaves scanning on; otherwise scanning is off at the end; a successful response sets the faces and opens the dialog iff some face is already marked; an unsuccessful one gives an info toast |
| FaceEnrollment.UpToSemicolon | Frontend/src/components/admin/FaceEnrollment.tsx:34 | the lazy match stops at the first ';' and crosses no line end |
| FaceEnrollment.MimeOf | Frontend/src/components/admin/FaceEnrollment.tsx:34 | the mime taken from the header has no ';' |
| FaceEnrollment.BinaryString | Frontend/src/components/admin/FaceEnrollment.tsx:35-40 | character i has the code of byte i |
| FaceEnrollment.DataUrlToBlob | Frontend/src/components/admin/FaceEnrollment.tsx:32-42 | the backwards fill loop produces the blob of the data URL: byte i is character code i of the decoded payload, with the header's mime |
| FaceEnrollment.UpToSemicolonPlain | Frontend/src/components/admin/FaceEnrollment.tsx:34 | a plain mime followed by ';' is matched exactly |
| FaceEnrollment.HeaderMime | Frontend/src/components/admin/FaceEnrollment.tsx:34 | the mime of "scheme:mime;base64" is the mime |
| FaceEnrollment.EncodedHasNoComma | Frontend/src/components/admin/FaceEnrollment.tsx:33 | base64 text contains no ',' |
| FaceEnrollment.CanvasRoundTrip | Frontend/src/components/admin/FaceEnrollment.tsx:32-42 | the blob of a canvas data URL holds exactly the canvas's bytes and mime |
| FaceEnrollment.NoCommaFails | Frontend/src/components/admin/FaceEnrollment.tsx:33-35 | a data URL without ',' makes `atob` fail |
| FaceEnrollment.FilePartsSpec | Frontend/src/components/admin/FaceEnrollment.tsx:139-142 | one part per image, named image_<index>.jpg, in capture order; fails iff some image does not decode |
| FaceEnrollment.FileNamesDistinct | Frontend/src/components/admin/FaceEnrollment.tsx:141 | different indices give different file names |
| FaceEnrollment.BuildForm | Frontend/src/components/admin/FaceEnrollment.tsx:134-142 | the form carries the name, the id and then the image parts, or nothing when an image fails |
| FaceEnrollment.EnrollmentForm.constructor | Frontend/src/components/admin/FaceEnrollment.tsx:14-24 | the form starts empty and idle |
| FaceEnrollment.EnrollmentForm.CaptureImage | Frontend/src/components/admin/FaceEnrollment.tsx:83-108 | appends exactly one frame and a count notice, or does nothing without video, canvas or context |
| FaceEnrollment.EnrollmentForm.HandleSubmit | Frontend/src/components/admin/FaceEnrollment.tsx:110-174 | fewer than 3 images, checked first, and then a missing name or id each give their notice and send nothing; otherwise one submission; success clears name, id and images; isSubmitting is false afterwards |
| FaceEnrollment.EnrollmentForm.StartEnrollment | Frontend/src/components/admin/FaceEnrollment.tsx:177-183 | clears images, name and id and starts enrolling |
| PeriodManager.ExportFileName | Frontend/src/components/PeriodAttendanceManager.tsx:162-171 | the successive appends build "attendance_" + date + the period part or "_all_periods" + ".csv" |
| PeriodManager.PeriodNameOfLabel | Frontend/src/components/PeriodAttendanceManager.tsx:166 | the period part is the first two space-separated words joined by "_" |
| PeriodManager.OneWordPeriod | Frontend/src/components/PeriodAttendanceManager.tsx:166 | a one-word period gives "<word>_undefined" |
| PeriodManager.LabelFileName | Frontend/src/components/PeriodAttendanceManager.tsx:40-47 | a label "<n> Period (...)" gives "attendance_<date>_<n>_Period.csv" |
| PeriodManager.FileNamesDistinguishDates | Frontend/src/components/PeriodAttendanceManager.tsx:162-171 | different dates give different filenames, whatever the period |
| PeriodManager.ExportFailureToast | Frontend/src/components/PeriodAttendanceManager.tsx:183-187 | a message containing "fetch" gives the server-error toast; any other gives "Download Failed" with the message |
| PeriodManager.NoDataIsDownloadFailure | Frontend/src/components/PeriodAttendanceManager.tsx:153-155 | an empty blob ends as "Download Failed: No data received from server" |
| PeriodManager.NoFetch | Frontend/src/components/PeriodAttendanceManager.tsx:183 | a text with no "fe" does not contain "fetch" |
| PeriodManager.ManagerPage.constructor | Frontend/src/components/PeriodAttendanceManager.tsx:28-38 | the page starts with today's dates, no period, and empty lists |
| PeriodManager.ManagerPage.LoadAttendanceData | Frontend/src/components/PeriodAttendanceManager.tsx:106-125 | success sets the records to the data (or []) and clears the server error; an unsuccessful response empties them; a failure shows the demo records; never loading afterwards |
| PeriodManager.ManagerPage.LoadAttendanceSummary | Frontend/src/components/PeriodAttendanceManager.tsx:127-141 | success sets the summary to the data (or []); an unsuccessful response empties it; a failure shows the demo summary; every other field, the selected and download date and period included, is unchanged |
| PeriodManager.ManagerPage.LoadDownloadPreview | Frontend/src/components/PeriodAttendanceManager.tsx:58-75 | skipped without a date; otherwise the count is total (or 0) on success, 0 on an unsuccessful response, and never loading afterwards; the selected date and period, the summary and every other field are unchanged |
| PeriodManager.ManagerPage.HandleExport | Frontend/src/components/PeriodAttendanceManager.tsx:143-191 | no date gives a warning and sends nothing; otherwise one request, an empty blob is a failure, a download under the export filename with a success toast or the failure toast, and never exporting afterwards; the selected date and period, the summary, the preview and the records are unchanged |
| StudentDashboard.Capitalise | Frontend/src/pages/dashboards/StudentDashboard.tsx:178 | the first character upper-cased, the rest unchanged |
| StudentDashboard.StatusTexts | Frontend/src/pages/dashboards/StudentDashboard.tsx:178 | the statuses read Present, Absent and Holiday |
| StudentDashboard.DetailRows | Frontend/src/pages/dashboards/StudentDashboard.tsx:176-180 | one row per record in order: date, status, subject or N/A |
| StudentDashboard.ReportRows | Frontend/src/pages/dashboards/StudentDashboard.tsx:184-202 | title, generated-on, blank, Summary and its five rows, blank, Detailed Attendance, header, then record i at row 12+i |
| StudentDashboard.DownloadReport | Frontend/src/pages/dashboards/StudentDashboard.tsx:171-210 | nothing iff there are no stats; otherwise the content starts with U+FEFF |
| StudentDashboard.ReportReadsBack | Frontend/src/pages/dashboards/StudentDashboard.tsx:205-210 | after the byte order mark, the file reads back as every report row |
| StudentDashboard.AttendanceColour | Frontend/src/pages/dashboards/StudentDashboard.tsx:246-250 | success iff at least 90, warning iff 75 to 89, destructive iff below 75 |
| StudentDashboard.AttendanceStatus | Frontend/src/pages/dashboards/StudentDashboard.tsx:252-256 | Excellent iff at least 90, Good iff 75 to 89, Needs Improvement iff below 75 |
| StudentDashboard.TargetMet | Frontend/src/pages/dashboards/StudentDashboard.tsx:380-387 | the target is met iff there are stats with at least 75 |
| StudentDashboard.ThresholdsAgree | Frontend/src/pages/dashboards/StudentDashboard.tsx:246-256 | target met iff not Needs Improvement, and the colour follows the label |
| EducationDashboard.Process | Frontend/src/pages/dashboards/EducationDashboard.tsx:173-181 | missing counts and rates become 0; currentStudents is current, else total, else 0; lastUpdated defaults to today; other fields kept |
| EducationDashboard.ProcessIdempotent | Frontend/src/pages/dashboards/EducationDashboard.tsx:173-181 | processing twice is processing once |
| EducationDashboard.ProcessAll | Frontend/src/pages/dashboards/EducationDashboard.tsx:173 | every school is processed, in order |
| EducationDashboard.TotalAppend | Frontend/src/pages/dashboards/EducationDashboard.tsx:185-186 | the sum over two lists is the sum of the sums |
| EducationDashboard.TotalBounded | Frontend/src/pages/dashboards/EducationDashboard.tsx:185-186 | the sum is at most count times the largest value |
| EducationDashboard.Average | Frontend/src/pages/dashboards/EducationDashboard.tsx:187-192 | 0 with no schools, never negative |
| EducationDashboard.StatsOf | Frontend/src/pages/dashboards/EducationDashboard.tsx:183-193 | the number of schools, the student and teacher sums, and averages of 0 with no schools |
| EducationDashboard.AverageBounded | Frontend/src/pages/dashboards/EducationDashboard.tsx:187-192 | the average never exceeds a bound on every rate |
| EducationDashboard.Keep | Frontend/src/pages/dashboards/EducationDashboard.tsx:97-99 | keeps exactly the schools passing the test |
| EducationDashboard.KeepAppend | Frontend/src/pages/dashboards/EducationDashboard.tsx:97-99 | filtering keeps the order |
| EducationDashboard.KeepIdempotent | Frontend/src/pages/dashboards/EducationDashboard.tsx:97-99 | filtering twice is filtering once |
| EducationDashboard.HighDropoutSchools | Frontend/src/pages/dashboards/EducationDashboard.tsx:97-99 | exactly the schools with a dropout rate above 3% (missing as 0) |
| EducationDashboard.BlankIff | Frontend/src/pages/dashboards/EducationDashboard.tsx:151 | a query is blank iff all its characters are whitespace |
| EducationDashboard.SearchFilter | Frontend/src/pages/dashboards/EducationDashboard.tsx:150-160 | a blank query shows all schools; otherwise exactly those whose lower-cased name or location contains the lower-cased query |
| EducationDashboard.SearchIdempotent | Frontend/src/pages/dashboards/EducationDashboard.tsx:150-160 | searching the result again changes nothing |
| EducationDashboard.SearchIgnoresCase | Frontend/src/pages/dashboards/EducationDashboard.tsx:153-154 | queries that differ only in case find the same schools |
| EducationDashboard.DropoutColour | Frontend/src/pages/dashboards/EducationDashboard.tsx:209-214 | muted iff falsy, success iff at most 2%, warning iff above 2% and at most 5%, destructive iff above 5% |
| EducationDashboard.AttendanceColour | Frontend/src/pages/dashboards/EducationDashboard.tsx:216-221 | muted iff falsy, success iff at least 90%, warning iff 75% to below 90%, destructive iff below 75% |
| EducationDashboard.AttendanceColoursAgree | Frontend/src/pages/dashboards/EducationDashboard.tsx:216-221 | for a positive whole percentage the school colour equals the student dashboard's |
| EducationDashboard.Fixed1 | Frontend/src/pages/dashboards/EducationDashboard.tsx:67-68 | a one-decimal rate never needs CSV quoting |
| EducationDashboard.DatePartOfTimestamp | Frontend/src/pages/dashboards/EducationDashboard.tsx:56-58 | the part before 'T' of an ISO timestamp is its date |
| EducationDashboard.DatePartOfDate | Frontend/src/pages/dashboards/EducationDashboard.tsx:56-58 | a plain date is kept whole |
| EducationDashboard.ExportValues | Frontend/src/pages/dashboards/EducationDashboard.tsx:52-71 | nine values per school |
| EducationDashboard.Cells | Frontend/src/pages/dashboards/EducationDashboard.tsx:76 | nine cells per line |
| EducationDashboard.LinesOf | Frontend/src/pages/dashboards/EducationDashboard.tsx:76 | one line per school, in order |
| EducationDashboard.ExportAsWritten | Frontend/src/pages/dashboards/EducationDashboard.tsx:41-77 | as written: nothing iff there are no schools |
| EducationDashboard.Export | Frontend/src/pages/dashboards/EducationDashboard.tsx:41-77 | corrected: nothing iff there are no schools |
| EducationDashboard.Table | Frontend/src/pages/dashboards/EducationDashboard.tsx:49-71 | the header then each school's nine values |
| EducationDashboard.SameWithoutQuotes | Frontend/src/pages/dashboards/EducationDashboard.tsx:61-63 | when name and location have no '"', the line as written and the corrected line coincide |
| EducationDashboard.QuoteInNameSplitsField | Frontend/src/pages/dashboards/EducationDashboard.tsx:61 | as written, a school named A"B reads back with first field "A" |
| EducationDashboard.CellRoundTrip | Frontend/src/pages/dashboards/EducationDashboard.tsx:76 | a cell encoding a value reads back as the value |
| EducationDashboard.RecordRoundTrip | Frontend/src/pages/dashboards/EducationDashboard.tsx:76 | a comma-joined line of encoding cells reads back as the values |
| EducationDashboard.JoinEach | Frontend/src/pages/dashboards/EducationDashboard.tsx:74-77 | each line is its cells joined by ',' |
| EducationDashboard.LinesRoundTrip | Frontend/src/pages/dashboards/EducationDashboard.tsx:74-77 | LF-joined encoding lines read back as the rows |
| EducationDashboard.LineEncodes | Frontend/src/pages/dashboards/EducationDashboard.tsx:52-76 | with a plain id and date, a corrected line encodes the school's values |
| EducationDashboard.HeadersPlain | Frontend/src/pages/dashboards/EducationDashboard.tsx:49 | the header line encodes the headers |
| EducationDashboard.ExportRoundTrip | Frontend/src/pages/dashboards/EducationDashboard.tsx:41-77 | the corrected export reads back as the header and every school's values |
| EducationDashboard.ExportCells | Frontend/src/pages/dashboards/EducationDashboard.tsx:74-77 | the header cells then each school's quoted cells |
| EducationDashboard.DashboardPage.constructor | Frontend/src/pages/dashboards/EducationDashboard.tsx:20-40 | the page starts empty and loading |
| EducationDashboard.DashboardPage.LoadDashboardData | Frontend/src/pages/dashboards/EducationDashboard.tsx:162-202 | a failed fetch keeps the data; otherwise the processed schools, their stats, and the search filter applied to them; never loading afterwards |
| EducationDashboard.DashboardPage.SetSearchQuery | Frontend/src/pages/dashboards/EducationDashboard.tsx:150-160 | the shown schools are the search result for the new query |
| EducationDashboard.DashboardPage.AnalyzeDropout | Frontend/src/pages/dashboards/EducationDashboard.tsx:95-108 | shows exactly the high-dropout schools and alerts their count |
| EducationDashboard.DashboardPage.ExportDistrictData | Frontend/src/pages/dashboards/EducationDashboard.tsx:41-92 | nothing with no schools; otherwise one download "district_report_<today>.csv" with the corrected export |
| NotificationCenter.UnreadCount | Frontend/src/components/NotificationCenter.tsx:36 | at most the number of notifications, and 0 iff all are read |
| NotificationCenter.BadgeIff | Frontend/src/components/NotificationCenter.tsx:65 | the badge shows iff some notification is unread |
| NotificationCenter.MarkRead | Frontend/src/components/NotificationCenter.tsx:43 | same length; entries with the id get read = 1, all others are unchanged |
| NotificationCenter.MarkReadIdempotent | Frontend/src/components/NotificationCenter.tsx:43 | marking twice is marking once |
| NotificationCenter.MarkReadCount | Frontend/src/components/NotificationCenter.tsx:36-43 | the unread count drops by exactly the unread entries with that id |
| NotificationCenter.MarkReadClearsId | Frontend/src/components/NotificationCenter.tsx:43 | no entry with the id stays unread |
| NotificationCenter.IconOf | Frontend/src/components/NotificationCenter.tsx:49-56 | success, warning and error get their own icons, every other type the info icon |
| NotificationCenter.OfferedIffUnread | Frontend/src/components/NotificationCenter.tsx:97 | "Mark read" is offered iff the entry is unread |
| NotificationCenter.NotificationBell.constructor | Frontend/src/components/NotificationCenter.tsx:15-16 | the list starts empty and closed |
| NotificationCenter.NotificationBell.FetchNotifications | Frontend/src/components/NotificationCenter.tsx:24-34 | a successful fetch replaces the list; any other outcome keeps it |
| NotificationCenter.NotificationBell.MarkAsRead | Frontend/src/components/NotificationCenter.tsx:38-47 | the list becomes its marked version and the badge count drops accordingly |
| NotificationCenter.NotificationBell.Toggle | Frontend/src/components/NotificationCenter.tsx:61 | opens or closes the list |
| SearchBar.Bar.constructor | Frontend/src/components/SearchBar.tsx:12-14 | empty query, no filters, panel closed |
| SearchBar.Bar.Selected | Frontend/src/components/SearchBar.tsx:90 | the chosen option of the key, or "" |
| SearchBar.Bar.SetQuery | Frontend/src/components/SearchBar.tsx:51 | typing changes the query only |
| SearchBar.Bar.HandleSearch | Frontend/src/components/SearchBar.tsx:28-30 | reports the current query and filters |
| SearchBar.Bar.KeyPress | Frontend/src/components/SearchBar.tsx:52 | Enter reports a search; any other key does nothing |
| SearchBar.Bar.ClearSearch | Frontend/src/components/SearchBar.tsx:32-36 | query and filters are emptied and the empty search is reported |
| SearchBar.Bar.SelectOption | Frontend/src/components/SearchBar.tsx:91 | only the chosen key's filter changes |
| SearchBar.Bar.ToggleFilters | Frontend/src/components/SearchBar.tsx:66-73 | with filters, opens or closes the panel; without, the panel stays hidden |
| BulkOperations.CsvNameAccepted | Frontend/src/components/BulkOperations.tsx:16 | any name ending in ".csv" is accepted |
| BulkOperations.OtherFileRefused | Frontend/src/components/BulkOperations.tsx:16 | a non-CSV type with a name not ending in 'v' is refused |
| BulkOperations.BulkPanel.constructor | Frontend/src/components/BulkOperations.tsx:11-12 | no file, not processing |
| BulkOperations.BulkPanel.HandleFileUpload | Frontend/src/components/BulkOperations.tsx:14-19 | an accepted file becomes the selection; otherwise the selection is kept |
| BulkOperations.BulkPanel.ProcessBulkEnroll | Frontend/src/components/BulkOperations.tsx:21-30 | no-op without a file; otherwise one call, the selection cleared only if it resolves, and never processing afterwards |
| BulkOperations.BulkPanel.MarkAllPresent | Frontend/src/components/BulkOperations.tsx:94 | passes ['all-present'] |
| BulkOperations.BulkPanel.MarkAllAbsent | Frontend/src/components/BulkOperations.tsx:101 | passes ['all-absent'] |
| BulkOperations.BulkPanel.ExportAll | Frontend/src/components/BulkOperations.tsx:77-82 | calls the export once |

## Left out

- Recognition libraries: face_recognition, DeepFace and the OpenCV decode and resize calls cannot be seen. Their outputs are inputs to the model: the faces, match flags, distances, liveness verdicts and emotions.
- Image numerics: liveness and emotion detection, eye aspect ratio, the averaging of encodings (numpy mean) and the image resize. The averaged encoding is an uninterpreted string.
- Floating point:
  - Scores are integers in tenths of a percent.
  - The export's two averages are given as already formatted strings.
  - The education averages are exact rationals.
  - JavaScript number formatting other than `toFixed(1)` of a tenths value is not modelled.
  - Distances are integers in thousandths.
- The clock: every `datetime.now()` and `new Date()` is a parameter. That covers today, the time, the generated-on text and the ISO date.
- Databases: SQLite and SQLAlchemy are in-memory sequences. A database exception is a boolean parameter of the operation it stops.
- String order: SQL `ORDER BY` on strings is code-point order; the database's collation is not modelled.
- `setup_period_attendance_database` is not part of this model. It is called by the back end but defined nowhere in the period module.
- Browser I/O: camera streams, canvas drawing, FileReader, Blob download links, `alert` (kept as recorded strings), localStorage, timers and polling. A blob's content is its text.
- Random data: the demo records and summary shown when the server is down are parameters, not generated.
- `markAsRead`'s PUT request is malformed in the source, so only the local list update is modelled.
- The client posts to `/recognize` while the server route is `/api/recognize`. The base URL is a parameter and the two are not reconciled.
- ApiClient: `fetch` is a total function; a rejected fetch (network failure) and JSON parsing of bodies are not modelled. A thrown error is an `Err` with its message.
- Strings are sequences of Unicode scalar values, i.e. well-formed UTF-16 only. A lone surrogate cannot be written. So two behaviours are not modelled: `encodeURIComponent` throwing `URIError` in `searchStudents` (Frontend/src/utils/api.ts:96), and `URLSearchParams` replacing a lone surrogate with U+FFFD.
- Case mapping and trimming are ASCII and JavaScript-whitespace only; Unicode case folding is not modelled.
- Education schools:
  - Names and locations are strings, so an undefined name is not modelled.
  - The id is an optional string, without the number-to-string conversion.
- Concurrency: async interleavings are not modelled. `isProcessing`, `isScanning`, `isSubmitting` and `isExporting` show only their state at the end of one call.
- Recognition.FaceRegistry.Load: person ids are parsed by the corrected parser, which splits at the first " - "; the split at every " - " as written (Findings row 2) is modelled by PersonIds.SplitAsWritten only.
- Recognition.RecognizeFace: faces are processed by the corrected Recognition.ProcessFace, which reads the already-marked flag before marking; the flag as written (read after marking, Findings row 1) is modelled by Recognition.ProcessFaceAsWritten only.
- Recognition.MarkFace: the per-face database exceptions that the endpoint catches and continues past (student insert, basic, enhanced and period marks) are not modelled; each of these calls is made with a working connection.
- Recognition.RecognizeFace: the base64 decode error message (`Invalid image data: ...`) is folded into the "could not decode" case.
- Recognition.EnrollFace: the file-reading exceptions are folded into "not usable", and the 500 response on an unexpected exception is not modelled.
- PeriodAttendance.WriteExport: the export is also `None` when a record lacks a score, where Python's formatting of `None` would raise.

## Findings

| source | as written | input that shows it | evidently intended | confidence | as-written member | corrected member |
|---|---|---|---|---|---|---|
| Backend/app.py:732-746 | the already-marked flag is read from the enhanced table after this request has marked the face | a recognised, live face with confidence above 50 and no enhanced row today: it is marked now and also reported as already marked, so the page shows it yellow and opens the already-marked dialog | report "already marked" only for a row that existed before this request | not executed | Recognition.ProcessFaceAsWritten | Recognition.ProcessFace |
| Backend/app.py:155-170 | the person id is split at every " - " and accepted only with exactly two parts (same at app.py:1277-1283) | id "42", name "Mary - Jane": the person id "ID-42 - Mary - Jane" gives roll number "42 - Mary - Jane" and name "ID-42 - Mary - Jane" | split at the first " - " only | not executed | PersonIds.AsWrittenMisreadsMaryJane | PersonIds.ParseFormatRoundTrip |
| Frontend/src/pages/dashboards/EducationDashboard.tsx:61-63 | name and location are wrapped in quotes without doubling inner quotes | a school named `A"B`: its line reads back as a record of the single field "A" | double inner quotes as section 2 of RFC 4180 requires | not executed | EducationDashboard.QuoteInNameSplitsField | EducationDashboard.ExportRoundTrip |

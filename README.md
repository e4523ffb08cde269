# Facial attendance system: a Dafny model

This project models the two parts of the facial-attendance system that hold state and rules:

- **The teacher dashboard's live capture pipeline** (`TeacherDashboard.jsx`). A modal opens the camera after a "mark everyone absent" request. An interval then samples a frame every 1500 ms into a queue. The seven oldest frames go to the recognition endpoint, with at most one submission in flight at a time. Every outcome is appended to a log. The attendance-window check and toggle buttons are modelled as well.
- **The Flask server's attendance rules** (`server.py`):
  - ID generation;
  - the `^B\d+$` subject-ID check;
  - login dispatch by ID prefix;
  - manual batch marking and single marking, with upsert keyed by (student, subject, date);
  - the "mark all absent" guard and its bulk insert;
  - the facial batch endpoint and its de-duplication of recognised students;
  - the attendance view with its default status;
  - the per-subject attendance window.

Modules:

| file | module | contents |
|---|---|---|
| `wrappers.dfy` | `Wrappers`, `Seqs` | `Option`; `First`, the first element satisfying a predicate (MongoDB `find_one`) |
| `ids.dfy` | `Ids` | digit strings, `f"{n:0Wd}"` padding, the three ID generators, the subject-ID regex, MongoDB's string order, a corrected generator |
| `store.dfy` | `AttendanceStore` | attendance documents, their (student, subject, date) key, `Upsert`, and its laws |
| `server.dfy` | `Server` | the documents and the handlers. Read-only handlers are functions. Each writing handler is a function from the old collection to the reply and the new collection. Class `Database` implements the writing handlers with the source's loops, proved equal to those functions. |
| `dashboard.dfy` | `Dashboard` | class `TeacherDashboard`: one method per React handler, with each `async` handler split at its `await`s; the pure subject filters |

Things outside the model are parameters:

- **Server oracles** (the `Oracles` datatype):
  - `today` is the date string `datetime.now()` would give;
  - `parse` is `strptime(.., "%Y-%m-%d")` normalised to midnight (None when it raises);
  - `detect` decodes an image and finds its faces (None when decoding raises);
  - `matches` is `compare_faces` against one known encoding.
- **Dashboard events**: the camera stream and interval handles, captured frames, and API replies are method parameters. The browser's side is kept in ghost fields: live streams, running intervals, and start-ups still suspended.

Behaviour of the code that the model keeps as it is:

- `markBatchFacialAttendanceAPI` turns fetch failures into an `{error}` object, which takes the success branch of `sendBatchImages`: seven frames are drained and "Batch processed" is logged. Only an exception thrown inside the `try` keeps the queue, for example reading `message` of a `null` body (`SubmitResolved`, `SubmitThrew`).
- Closing the modal while the camera is still starting leaves the stream live and the interval running (finding 2).
- A failed mark-absent call raises a toast only; the start-up goes on and nothing is logged (`MarkAbsentSettled`).
- `captureImage` returns silently when the modal's video or canvas element is gone (`CaptureTick`).
- `handleToggleAttendanceStatus` shows the negation of its previous flag, whatever the server replies (`ToggleAttendanceStatus`).
- `mark_all_absent` stores the date as the raw request string, while every other handler stores a normalised day. Recognition therefore inserts separate records instead of updating the absent ones, and the absent records never appear in the attendance view (`MarkAllAbsentInvisibleToView`).

## Model

| member | source | states |
|---|---|---|
| Seqs.First | server.py:99 | `find_one`: the index of the first element satisfying the predicate, or None exactly when no element does |
| Ids.Padded | server.py:61 | `f"{n:0Wd}"`: all digits, at least `width` long, longer only without a leading zero, and it reads back as `n` |
| Ids.GenerateId | server.py:54-82 | a `ValueError` exactly when the latest ID has the prefix but no numeric suffix; otherwise the ID is the prefix plus the padded successor of the latest ID's number, or of 0 when there is no latest ID or it has another prefix |
| Ids.FirstIds | server.py:54-82 | with no latest ID, or one with a foreign prefix, the generators give "S00001", "T001" and "B001" |
| Ids.SubjectIdMatchesExactly | server.py:217 | `re.match(r"^B\d+$", s)` accepts exactly "B" followed by one or more digits, optionally followed by one final newline |
| Ids.GeneratedSubjectIdsMatch | server.py:74-82 | every subject ID the generator gives passes the subject-ID check |
| Ids.MongoLatest | server.py:56 | `find_one(sort=[(id, -1)])` returns one of the stored IDs, and None only for an empty collection |
| Ids.MongoLatestIsGreatest | server.py:56 | no stored ID is greater, in string order, than the one returned |
| Ids.TeacherIdCollision | server.py:64-72 | as written, after "T999" and "T1000" the generator gives "T1000" again |
| Ids.MaxSuffix | server.py:54-82 | the greatest number among the IDs with the prefix and a numeric suffix: it bounds every such number and is one of them, or 0 when there are none |
| Ids.NextFreeId | server.py:54-82 | corrected generator: the prefix plus the padded successor of the greatest number in use |
| Ids.NextFreeIdIsFresh | server.py:54-82 | the corrected generator never returns an ID already in the collection |
| Ids.NextFreeSubjectIdMatches | server.py:74-82 | corrected subject IDs pass the subject-ID check |
| Ids.NextFreeTeacherIdAfterCollision | server.py:64-72 | on the collision example the corrected generator gives "T1001" |
| AttendanceStore.StatusOf | server.py:511-515 | a status is found exactly when some document has the key |
| AttendanceStore.FindKeyAppend | server.py:543 | inserting a document changes no earlier lookup, and only the new key's lookup gains a result |
| AttendanceStore.UpsertSpec | server.py:510-544 | update-or-insert gives the key the new status and keeps every other key's status. The collection grows by one exactly when the key had no document. No key ever gets a second document. |
| AttendanceStore.UpsertTwice | server.py:619-654 | marking a key twice leaves one document for it, holding the later status |
| Server.NewRecord | server.py:531-542 | an inserted document carries the student's ID, the subject's ID, the date and the status |
| Server.Login | server.py:90-126 | missing either field gives 400. An "S" ID logs in as a student, a "T" ID as a teacher, and exactly "admin" as the administrator, in each case exactly when the first document with that ID holds the password. A session carries the requested ID. Anything else gives 401 "Invalid credentials". |
| Server.CheckBatchRequest | server.py:474-491 | 400 "Subject ID is required", 400 for a missing or empty list, 400 for a subject ID failing `^B\d+$`, 404 for an unknown subject, 400 for a bad date, in that order. Accepted exactly when all pass; the subject is the first one with the requested ID and the day is the parsed date. |
| Server.MarkRecordsEntries | server.py:493-544 | the batch loop appends one entry per record, in input order, keeping earlier entries. The entry is the record's error exactly when the record is incomplete, has another status, or names an unknown student; otherwise it is a message. |
| Server.MarkRecordsStatus | server.py:493-544 | after the loop a student's status for the subject and day is that of the last record written for them, or what it was before; unique keys are preserved |
| Server.MarkRecordsFrame | server.py:494-544 | the batch loop never changes the status of a key of another subject or another day |
| Server.MarkBatchEntries | server.py:466-546 | a rejected request writes nothing; an accepted one answers each record in order, with an error exactly for the records that are not written |
| Server.MarkBatchLastStatusWins | server.py:510-544 | within a batch the last written status wins and other students of the subject and day keep theirs. Every key of another subject or another day keeps its status, and no key is duplicated. |
| Server.CheckMarkRequest | server.py:558-614 | 400 when the student ID, subject ID or status is missing, 400 for another status, 404 for an unknown student, 400 for a subject ID failing `^B\d+$`, 404 for an unknown subject, in that order. Accepted exactly when these pass, the marking is the teacher's or has the window open, an image and a matching face, and the date parses. The student, subject and day are the requested ones. |
| Server.MarkAttendanceUpserts | server.py:549-654 | a failed marking writes nothing. A successful one sets the status of the requested (student, subject, parsed day) key and leaves other keys alone. It answers "updated" exactly when the key had a document, and grows the collection by one otherwise. Unique keys are preserved. |
| Server.SelfMarkingNeedsOpenWindowAndFace | server.py:577-608 | a student marking themself succeeds only with the window open, an image given, a registered encoding, and a first detected face that matches it |
| Server.CourseStudents | server.py:680 | `find({"course": ..})`: exactly the students of the course, whatever their class year |
| Server.AbsentRecords | server.py:682-697 | one record per enrolled student, in order: that student's ID, name, course, class year and division, the subject's ID and name, status "absent", the raw date string and the teacher as marker |
| Server.MarkAllAbsentInserts | server.py:658-702 | 400 when the subject or teacher ID is missing. If a document with the (date string, subject) exists, the call refuses and inserts nothing. Otherwise it gives 400 for an unknown subject; for a known one it appends exactly the absent records of the students whose course is the subject's, whatever the class year, and reports their number, the date and the subject name. |
| Server.MarkAllAbsentKeepsKeysUnique | server.py:669-700 | with distinct student IDs, the guard makes the bulk insert keep one document per key |
| Server.ClassStudents | server.py:377-380 | the view lists exactly the students of the course, class year and division |
| Server.ViewAttendance | server.py:356-394 | 400 "Course, Class Year, Division, Subject ID, and Date are required" when a parameter is missing, 400 for a date that does not parse, and a list otherwise. Each listed student gets the stored status for the subject and day, or "absent" when none is stored. |
| Server.TextDatesInvisible | server.py:670 | documents dated by a raw string never answer a lookup by normalised day |
| Server.ViewSameDays | server.py:383-392 | the view depends on the collection only through the statuses of day-dated keys |
| Server.MarkAllAbsentInvisibleToView | server.py:693 | "mark all absent" never changes what the attendance view shows |
| Server.RegisteredStudents | server.py:734-738 | the students of the subject's course and class year with a registered face |
| Server.KnownFaces | server.py:744-750 | each entry pairs a registered student's ID with that student's own stored encoding, and every registered student with an encoding has its entry |
| Server.CheckFacialRequest | server.py:714-753 | 400 when images, subject ID or teacher ID is missing, 400 for a subject ID failing `^B\d+$`, 404 for an unknown subject, 400 for a date that does not parse, 404 when the subject's course and year have no face-registered student, and 404 when none of those students has an encoding. Accepted exactly when these pass, the date parses and the subject has registered students with encodings. The context holds the requested subject and teacher, the parsed day, the registered students and their encodings. |
| Server.ScanAddSound | server.py:779-821 | recognising a new student keeps the loop invariant: each student reported once, the recognised set equals the reported IDs, each reported student stored present, keys unique |
| Server.ScanFaceSound | server.py:769-821 | one face keeps the loop invariant |
| Server.ScanFaceUsesFirstMatch | server.py:770-821 | when a face's first matching known encoding is entry i, an already recognised student changes nothing; otherwise entry i's student is added to the recognised set, reported, and stored present for the day |
| Server.ScanFaceIgnoresUnknown | server.py:770-772 | a face that matches no known encoding changes nothing |
| Server.ScanFacesSound | server.py:769-821 | all faces of one image keep the loop invariant |
| Server.ScanImagesSound | server.py:759-825 | the whole image loop keeps the invariant; an image that fails to decode is skipped |
| Server.ScanFaceFrame | server.py:770-821 | one face only adds to the recognised set, and writes no key except the subject and day of a student it recognises |
| Server.ScanFacesFrame | server.py:769-821 | the same for all faces of one image |
| Server.ScanImagesFrame | server.py:759-825 | the same for the whole image loop |
| Server.ScanFacesRecognized | server.py:769-821 | after the faces of one image, a student is recognised exactly when they were before or some face of the image first-matches their known encoding |
| Server.ScanImagesRecognized | server.py:759-825 | after the image loop, a student is recognised exactly when they were before or some face of an image that decodes first-matches their known encoding; faces of undecodable images count for nothing |
| Server.DistinctResultsCount | server.py:829 | with distinct IDs, the number of distinct students equals the number of results |
| Server.UndecodableImageSkipped | server.py:823-825 | an image whose decoding raises is skipped and the loop goes on with the next |
| Server.FacialBatchReportsEachStudentOnce | server.py:706-831 | a failed request writes nothing. A successful one works on the requested subject and the parsed day. It reports each student at most once and counts exactly the students reported. The students reported are exactly those whose known encoding is the first one matched by some face of an image that decodes. Each is a face-registered student of the subject's course and class year, stored present for the day with keys unique. Every other key, including those of unreported students, keeps its status. |
| Server.AttendanceStatus | server.py:398-413 | 400 when the subject ID is missing, 400 when it fails `^B\d+$`, 404 for an unknown subject; otherwise the reply is the subject's flag, false when it never had one set |
| Server.EnableThenCheck | server.py:398-439 | enabling accepts exactly the IDs the status check accepts and defaults the flag to true. A check afterwards returns the flag set. Only the first subject with the ID changes, and the status check of every other subject ID answers as before. |
| Server.Database.constructor | server.py:23-35 | the collections as given |
| Server.Database.MarkBatchAttendance | server.py:466-546 | the record loop with update-or-insert gives the reply and collection of `MarkBatchResult` |
| Server.Database.MarkAttendance | server.py:549-654 | the checks then update-or-insert give the reply and collection of `MarkAttendanceResult` |
| Server.Database.MarkAllAbsent | server.py:658-702 | the guard and the record-building loop give the reply and collection of `MarkAllAbsentResult` |
| Server.Database.MarkAttendanceFacialBatch | server.py:706-831 | the nested image and face loops give the reply and collection of `FacialBatchResult` |
| Server.Database.EnableAttendance | server.py:416-439 | the checks then the flag update give the reply and subjects of `EnableAttendanceResult` |
| Dashboard.FilterSubjects | frontend/src/components/TeacherDashboard.jsx:224-237 | exactly the teacher's subjects matching the chosen course and class year, an empty choice matching all; with nothing chosen, all subjects |
| Dashboard.FilterSubjectsIdempotent | frontend/src/components/TeacherDashboard.jsx:224-237 | filtering twice by the same choice equals filtering once |
| Dashboard.BatchMessage | frontend/src/components/TeacherDashboard.jsx:170 | the logged line is the reply's message, or "Batch processed" when it is missing or empty |
| Dashboard.Toggled | frontend/src/components/TeacherDashboard.jsx:259 | the new status is "present" exactly when the old one was not |
| Dashboard.ToggledTwice | frontend/src/components/TeacherDashboard.jsx:257-261 | toggling a present/absent row twice restores it |
| Dashboard.TeacherDashboard.constructor | frontend/src/components/TeacherDashboard.jsx:18-76 | the stored user ID or "T001"; both filter sets on course "BSC IT" and today's date; everything else empty, closed and idle |
| Dashboard.TeacherDashboard.SetFacialFilters | frontend/src/components/TeacherDashboard.jsx:363-404 | the facial filter inputs |
| Dashboard.TeacherDashboard.SetViewFilters | frontend/src/components/TeacherDashboard.jsx:193-199 | the view filter inputs |
| Dashboard.TeacherDashboard.SubjectsFetched | frontend/src/components/TeacherDashboard.jsx:206-221 | the fetched subjects replace the list unless the reply is an error |
| Dashboard.TeacherDashboard.FilteredFacialSubjects | frontend/src/components/TeacherDashboard.jsx:224-229 | exactly the teacher's subjects matching the chosen facial course and class year, an empty choice matching all |
| Dashboard.TeacherDashboard.FilteredSubjects | frontend/src/components/TeacherDashboard.jsx:232-237 | exactly the teacher's subjects matching the chosen view course and class year, an empty choice matching all |
| Dashboard.TeacherDashboard.MarkAbsentRequest | frontend/src/components/TeacherDashboard.jsx:137-147 | no request exactly when the view filters name no subject; otherwise the view filters' subject and date, with the teacher ID |
| Dashboard.TeacherDashboard.StopCamera | frontend/src/components/TeacherDashboard.jsx:94-105 | stops the video's stream and clears the interval, whichever exist, then logs "Camera stopped."; safe with nothing running; the frame queue is untouched |
| Dashboard.TeacherDashboard.ToggleModal | frontend/src/components/TeacherDashboard.jsx:108-121 | open: stop the camera and close. Closed: refuse with no change unless course, class year and subject are chosen; otherwise start up, sending the mark-absent request, and open. |
| Dashboard.TeacherDashboard.MarkAbsentSettled | frontend/src/components/TeacherDashboard.jsx:80-82 | the start-up asks for the camera after the mark-absent call settles, whatever its outcome |
| Dashboard.TeacherDashboard.CameraAcquired | frontend/src/components/TeacherDashboard.jsx:82-87 | as written: the stream is attached only if the modal is open, yet "Camera started." is logged and the interval is set in every case |
| Dashboard.TeacherDashboard.CameraAcquiredChecked | frontend/src/components/TeacherDashboard.jsx:82-87 | corrected: a stream arriving after the modal closed, or during a running session, is stopped with no interval and no log; no-leak is preserved |
| Dashboard.TeacherDashboard.CameraDenied | frontend/src/components/TeacherDashboard.jsx:88-90 | a failed camera request sets no interval and logs nothing |
| Dashboard.TeacherDashboard.CaptureTick | frontend/src/components/TeacherDashboard.jsx:124-134 | a running interval appends the frame at the tail while the modal is shown, and otherwise does nothing |
| Dashboard.TeacherDashboard.SendBatchImages | frontend/src/components/TeacherDashboard.jsx:158-168 | no change while sending or with fewer than 7 frames; otherwise sets the flag and posts exactly the 7 oldest frames in capture order, with the facial subject, date and teacher |
| Dashboard.TeacherDashboard.BatchEffect | frontend/src/components/TeacherDashboard.jsx:184-188 | dispatches exactly when not sending and at least 7 frames are queued |
| Dashboard.TeacherDashboard.SubmitResolved | frontend/src/components/TeacherDashboard.jsx:169-180 | on any resolved reply, including the wrapper's error object: exactly the 7 submitted frames leave the queue, the rest keep their order, the message is logged, and the flag is cleared |
| Dashboard.TeacherDashboard.SubmitThrew | frontend/src/components/TeacherDashboard.jsx:175-180 | on a throw the queue is unchanged, exactly "Error sending batch." is logged, and the flag is cleared |
| Dashboard.TeacherDashboard.FetchAttendance | frontend/src/components/TeacherDashboard.jsx:239-255 | requests only with course, class year, division and subject chosen; the rows replace the list unless the reply is an error |
| Dashboard.TeacherDashboard.HandleStatusToggle | frontend/src/components/TeacherDashboard.jsx:257-261 | flips one row's status and leaves every other row unchanged |
| Dashboard.TeacherDashboard.CheckAttendanceStatus | frontend/src/components/TeacherDashboard.jsx:291-305 | with no subject, no change. Otherwise it shows the reply's flag (undefined for an error object) and reveals the toggle; on a `null` body reading the flag throws and nothing changes. |
| Dashboard.TeacherDashboard.ToggleAttendanceStatus | frontend/src/components/TeacherDashboard.jsx:308-322 | with no subject, no change. Otherwise it posts and shows the negation of the previous flag, whatever the reply. |
| Dashboard.CloseWhileCameraStarts | frontend/src/components/TeacherDashboard.jsx:79-121 | as written: open, let mark-absent settle, close, then acquire. The stream stays live although no video holds it, so no `stopCamera` can stop it. The interval runs with the modal closed until the next `stopCamera`. |
| Dashboard.CloseWhileCameraStartsChecked | frontend/src/components/TeacherDashboard.jsx:79-121 | the same events with the checked start-up leave no stream and no interval running |

## Left out

- I/O is left out: MongoDB, Flask routing, CORS, `.env` loading, static files, toasts and JSX rendering. Collections are sequences of documents, and `find_one` is the first match.
- Face recognition, OpenCV, base64 decoding and pickling are oracles (`detect`, `matches`). The text of the exceptions they raise is not modelled: every such failure is a 500 "Face verification error".
- `generate_password` (randomness) and the timestamps (`created_at`, `updated_at`, the "mm:ss" prefix of the facial batch message) are left out.
- JSON values of the wrong type are left out: a record that is not an object, `images` that is not a list, an explicit `null` for `marked_by` or `date`. Each such field is modelled as either absent or a string.
- Ids.GenerateId: the suffix is accepted only as ASCII digits. Python's `int()` also takes a sign, surrounding whitespace, underscores and non-ASCII digits.
- Ids.SubjectIdMatches: `\d` is ASCII only. Python's `\d` also matches other Unicode decimal digits.
- Server.ScanFace: a recognised ID with no matching registered student cannot occur, because every known ID comes from the registered list (`KnownAreRegistered`). For that case the model only records the ID and goes on with the next face. Python would raise on `student["name"]` and abandon the rest of the image.
- Server.EnableAttendanceResult: the reply is modelled as the flag set, not as the "Attendance enabled/disabled for subject" text built from it.
- Dashboard.TeacherDashboard.ToggleAttendanceStatus and CheckAttendanceStatus: each handler is one atomic step. Two clicks that interleave across the `await` are not modelled.
- The dashboard's tabs are not modelled. The tab buttons only change the active tab. With the modal open, switching tab unmounts the video and canvas but leaves the stream live and the interval firing, and a later stop then finds no stream on the video. This is a second route to the stream leak of finding 2. Student registration (`handleStudentRegistration`) and `handleSubmitBatchAttendance` are form-to-request glue outside the capture pipeline.
- Real timing is not modelled: the 1500 ms period of the capture interval plays no part, and ticks, awaits and their completions are discrete method calls on one thread.
- `StudentDashboard.jsx`, `AdminDashboard.jsx`, `Login.jsx`, `App.jsx` and `api.js` are not part of this model. `api.js` matters only because it turns fetch failures into `{error}` objects, which is reflected in `SubmitResolved`.

## Findings

| source | as written | input that shows it | evidently intended | confidence | as-written member | corrected member |
|---|---|---|---|---|---|---|
| server.py:54-82 | the latest ID is taken by sorting IDs as strings | teachers "T999" and "T1000" exist; `generate_teacher_id` returns "T1000" again, because "T999" sorts last | a fresh ID one past the greatest number in use | not executed | Ids.TeacherIdCollision | Ids.NextFreeIdIsFresh |
| frontend/src/components/TeacherDashboard.jsx:79-121 | `startCamera` attaches the stream only if the video exists, but always sets the interval, and nothing checks whether the modal was closed meanwhile | open the modal, close it before `getUserMedia` resolves, then let it resolve: the camera stays on with no video holding its stream, so nothing can stop it, and the interval runs with the modal closed until the next `stopCamera` | a start-up that finds the modal closed, or a session already running, releases the stream and sets no interval | not executed | Dashboard.CloseWhileCameraStarts | Dashboard.TeacherDashboard.CameraAcquiredChecked |

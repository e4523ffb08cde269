/**
 * The attendance server's rules (server.py): login dispatch, manual and facial
 * attendance marking, the "mark everyone absent" bulk insert, the attendance
 * view, and the per-subject attendance window. The MongoDB collections are
 * sequences of documents; `find_one` is the first document that matches.
 */
module Server {
  import opened Wrappers
  import opened Seqs
  import opened Ids
  import opened AttendanceStore

  // ---------------------------------------------------------------------------
  // Documents and replies

  /** A stored face encoding (the unpickled numpy vector) and a face found in an image. */
  datatype Encoding = Encoding(vector: seq<int>)
  datatype Face = Face(vector: seq<int>)

  datatype Student = Student(
    studentId: string, name: string, course: string, classYear: string, division: string,
    password: string, faceRegistered: bool, faceEncoding: Option<Encoding>)

  datatype SubjectRef = SubjectRef(subjectId: string, name: string, course: string, classYear: string)

  datatype Teacher = Teacher(teacherId: string, name: string, password: string, subjects: seq<SubjectRef>)

  datatype Admin = Admin(username: string, password: string)

  datatype Subject = Subject(
    subjectId: string, name: string, course: string, classYear: string,
    teacherId: Option<string>, attendanceEnabled: Option<bool>)

  /** A JSON reply: the success payload, or an HTTP status code with the "error" text. */
  datatype Reply<T> = Ok(value: T) | Fail(code: nat, error: string)

  /**
   * What the handlers take from outside the model: today's date string, `strptime`
   * normalised to midnight, decoding an image and finding its faces (None when
   * decoding raises), and `compare_faces` for one known encoding.
   */
  datatype Oracles = Oracles(
    today: string,
    parse: string -> Option<Day>,
    detect: string -> Option<seq<Face>>,
    matches: (Face, Encoding) -> bool)

  /** Python truthiness of an optional JSON string: present and not empty. */
  predicate Given(s: Option<string>) {
    s.Some? && s.value != ""
  }

  predicate ValidStatus(s: string) {
    s == "present" || s == "absent"
  }

  predicate DistinctStudentIds(students: seq<Student>) {
    forall i, j :: 0 <= i < j < |students| ==> students[i].studentId != students[j].studentId
  }

  function FindStudent(students: seq<Student>, id: string): Option<nat> {
    First(students, (s: Student) => s.studentId == id)
  }

  function FindTeacher(teachers: seq<Teacher>, id: string): Option<nat> {
    First(teachers, (t: Teacher) => t.teacherId == id)
  }

  function FindAdmin(admins: seq<Admin>, username: string): Option<nat> {
    First(admins, (a: Admin) => a.username == username)
  }

  function FindSubject(subjects: seq<Subject>, id: string): Option<nat> {
    First(subjects, (s: Subject) => s.subjectId == id)
  }

  /** The document a handler inserts for a (student, subject, date) that has none yet. */
  function NewRecord(student: Student, subject: Subject, status: string, date: DateValue, markedBy: Option<string>): (r: Record)
    ensures KeyOf(r) == Key(student.studentId, subject.subjectId, date) && r.status == status
  {
    Record(student.studentId, student.name, subject.subjectId, subject.name,
           student.course, student.classYear, student.division, status, date, markedBy, None)
  }

  // ---------------------------------------------------------------------------
  // Login

  datatype LoginReply =
    | StudentSession(userId: string, name: string, course: string, classYear: string, division: string)
    | TeacherSession(userId: string, name: string, subjects: seq<SubjectRef>)
    | AdminSession(name: string)
    | LoginRejected(code: nat, error: string)

  const CredentialsRequired := "User ID and password are required"
  const InvalidCredentials := "Invalid credentials"

  /** The first document with the ID exists and holds the password. */
  predicate StudentPassword(students: seq<Student>, id: string, password: string) {
    match FindStudent(students, id)
    case Some(i) => students[i].password == password
    case None => false
  }

  predicate TeacherPassword(teachers: seq<Teacher>, id: string, password: string) {
    match FindTeacher(teachers, id)
    case Some(i) => teachers[i].password == password
    case None => false
  }

  predicate AdminPassword(admins: seq<Admin>, username: string, password: string) {
    match FindAdmin(admins, username)
    case Some(i) => admins[i].password == password
    case None => false
  }

  /** `POST /api/login`: the first character of the ID chooses the collection to check. */
  function Login(students: seq<Student>, teachers: seq<Teacher>, admins: seq<Admin>,
                 userId: Option<string>, password: Option<string>): (r: LoginReply)
    ensures !Given(userId) || !Given(password) <==> r == LoginRejected(400, CredentialsRequired)
    ensures r.StudentSession? <==>
      Given(userId) && Given(password) && userId.value[0] == 'S' &&
      StudentPassword(students, userId.value, password.value)
    ensures r.TeacherSession? <==>
      Given(userId) && Given(password) && userId.value[0] == 'T' &&
      TeacherPassword(teachers, userId.value, password.value)
    ensures r.AdminSession? <==>
      Given(userId) && Given(password) && userId.value == "admin" &&
      AdminPassword(admins, "admin", password.value)
    ensures r.StudentSession? || r.TeacherSession? ==> r.userId == userId.value
    ensures Given(userId) && Given(password) && r.LoginRejected? ==> r == LoginRejected(401, InvalidCredentials)
  {
    if !Given(userId) || !Given(password) then LoginRejected(400, CredentialsRequired)
    else
      var id, pw := userId.value, password.value;
      if id[0] == 'S' then
        match FindStudent(students, id)
        case Some(i) =>
          var s := students[i];
          if s.password == pw then StudentSession(s.studentId, s.name, s.course, s.classYear, s.division)
          else LoginRejected(401, InvalidCredentials)
        case None => LoginRejected(401, InvalidCredentials)
      else if id[0] == 'T' then
        match FindTeacher(teachers, id)
        case Some(i) =>
          var t := teachers[i];
          if t.password == pw then TeacherSession(t.teacherId, t.name, t.subjects)
          else LoginRejected(401, InvalidCredentials)
        case None => LoginRejected(401, InvalidCredentials)
      else if id == "admin" then
        if AdminPassword(admins, id, pw) then AdminSession("Administrator")
        else LoginRejected(401, InvalidCredentials)
      else LoginRejected(401, InvalidCredentials)
  }

  // ---------------------------------------------------------------------------
  // Shared error texts

  const SubjectIdRequired := "Subject ID is required"
  const SubjectIdInvalid := "Invalid subject ID"
  const SubjectIdMalformed := "Invalid subject ID. It must start with 'B' followed by digits."
  const SubjectNotFound := "Subject not found"
  const StudentNotFound := "Student not found"
  const DateMalformed := "Invalid date format, use YYYY-MM-DD"
  const StatusMalformed := "Status must be 'present' or 'absent'"
  const AttendanceUpdated := "Attendance updated successfully"
  const AttendanceMarked := "Attendance marked successfully"

  // ---------------------------------------------------------------------------
  // Manual batch marking (POST /api/attendance/mark_batch)

  datatype RecordIn = RecordIn(studentId: Option<string>, status: Option<string>)

  /** The request's `attendances` field: absent, some other JSON value, or a list. */
  datatype Attendances = NoAttendances | NotAList | AList(items: seq<RecordIn>)

  datatype BatchRequest = BatchRequest(
    subjectId: Option<string>, attendances: Attendances, markedBy: Option<string>, date: Option<string>)

  datatype EntryOutcome = EntryError(error: string) | EntryMessage(message: string)

  datatype BatchEntry = BatchEntry(studentId: Option<string>, outcome: EntryOutcome)

  const AttendancesNotList := "Attendances must be provided as a list"
  const IdAndStatusRequired := "Student ID and status required"

  /** The checks made before the loop, in the order the handler makes them. */
  function CheckBatchRequest(subjects: seq<Subject>, req: BatchRequest, env: Oracles): (r: Reply<(Subject, Day)>)
    ensures !Given(req.subjectId) ==> r == Fail(400, SubjectIdRequired)
    ensures Given(req.subjectId) && !(req.attendances.AList? && req.attendances.items != []) ==>
      r == Fail(400, AttendancesNotList)
    ensures Given(req.subjectId) && req.attendances.AList? && req.attendances.items != [] ==>
      (!SubjectIdMatches(req.subjectId.value) ==> r == Fail(400, SubjectIdMalformed)) &&
      (SubjectIdMatches(req.subjectId.value) && FindSubject(subjects, req.subjectId.value).None? ==>
         r == Fail(404, SubjectNotFound)) &&
      ((SubjectIdMatches(req.subjectId.value) && FindSubject(subjects, req.subjectId.value).Some? &&
        env.parse(req.date.GetOr(env.today)).None?) ==> r == Fail(400, DateMalformed))
    ensures r.Ok? <==>
      Given(req.subjectId) && req.attendances.AList? && req.attendances.items != [] &&
      SubjectIdMatches(req.subjectId.value) && FindSubject(subjects, req.subjectId.value).Some? &&
      env.parse(req.date.GetOr(env.today)).Some?
    ensures r.Ok? ==>
      r.value.0 == subjects[FindSubject(subjects, req.subjectId.value).value] &&
      r.value.0.subjectId == req.subjectId.value &&
      env.parse(req.date.GetOr(env.today)) == Some(r.value.1)
  {
    if !Given(req.subjectId) then Fail(400, SubjectIdRequired)
    else if !(req.attendances.AList? && req.attendances.items != []) then Fail(400, AttendancesNotList)
    else if !SubjectIdMatches(req.subjectId.value) then Fail(400, SubjectIdMalformed)
    else match FindSubject(subjects, req.subjectId.value)
      case None => Fail(404, SubjectNotFound)
      case Some(i) =>
        match env.parse(req.date.GetOr(env.today))
        case None => Fail(400, DateMalformed)
        case Some(day) => Ok((subjects[i], day))
  }

  /** The error entry a record gets, or None when the record is written. */
  function RecordError(students: seq<Student>, rec: RecordIn): Option<string> {
    if !Given(rec.studentId) || !Given(rec.status) then Some(IdAndStatusRequired)
    else if !ValidStatus(rec.status.value) then Some(StatusMalformed)
    else if FindStudent(students, rec.studentId.value).None? then Some(StudentNotFound)
    else None
  }

  /** The loop's state: the result entries so far and the attendance collection. */
  datatype BatchState = BatchState(entries: seq<BatchEntry>, store: seq<Record>)

  /** One iteration of the loop over `attendances`. */
  function MarkRecord(students: seq<Student>, subject: Subject, day: Day, markedBy: Option<string>,
                      st: BatchState, rec: RecordIn): BatchState
  {
    match RecordError(students, rec)
    case Some(e) => st.(entries := st.entries + [BatchEntry(rec.studentId, EntryError(e))])
    case None =>
      var student := students[FindStudent(students, rec.studentId.value).value];
      var row := NewRecord(student, subject, rec.status.value, OnDay(day), markedBy);
      var message := if Marked(st.store, KeyOf(row)) then AttendanceUpdated else AttendanceMarked;
      BatchState(st.entries + [BatchEntry(rec.studentId, EntryMessage(message))],
                 Upsert(st.store, row, markedBy))
  }

  function MarkRecords(students: seq<Student>, subject: Subject, day: Day, markedBy: Option<string>,
                       st: BatchState, recs: seq<RecordIn>): BatchState
    decreases |recs|
  {
    if recs == [] then st
    else MarkRecords(students, subject, day, markedBy, MarkRecord(students, subject, day, markedBy, st, recs[0]), recs[1..])
  }

  /** The reply and the new attendance collection of `mark_batch_attendance`. */
  function MarkBatchResult(students: seq<Student>, subjects: seq<Subject>, store: seq<Record>,
                           req: BatchRequest, env: Oracles): (Reply<seq<BatchEntry>>, seq<Record>)
  {
    match CheckBatchRequest(subjects, req, env)
    case Fail(code, error) => (Fail(code, error), store)
    case Ok((subject, day)) =>
      var final := MarkRecords(students, subject, day, req.markedBy, BatchState([], store), req.attendances.items);
      (Ok(final.entries), final.store)
  }

  /** The status of the last record in `recs` that is written for student `sid`, if any. */
  function LastWrittenStatus(students: seq<Student>, recs: seq<RecordIn>, sid: string): Option<string> {
    if recs == [] then None
    else
      var later := LastWrittenStatus(students, recs[1..], sid);
      if later.Some? then later
      else if RecordError(students, recs[0]).None? && recs[0].studentId.value == sid then Some(recs[0].status.value)
      else None
  }

  lemma {:induction false} MarkRecordsEntries(students: seq<Student>, subject: Subject, day: Day, markedBy: Option<string>,
                                              st: BatchState, recs: seq<RecordIn>)
    decreases |recs|
    ensures var out := MarkRecords(students, subject, day, markedBy, st, recs).entries;
      |out| == |st.entries| + |recs| && out[..|st.entries|] == st.entries &&
      forall k :: 0 <= k < |recs| ==>
        out[|st.entries| + k].studentId == recs[k].studentId &&
        (RecordError(students, recs[k]).Some? ==>
          out[|st.entries| + k].outcome == EntryError(RecordError(students, recs[k]).value)) &&
        (RecordError(students, recs[k]).None? ==> out[|st.entries| + k].outcome.EntryMessage?)
  {
    if recs != [] {
      var next := MarkRecord(students, subject, day, markedBy, st, recs[0]);
      MarkRecordsEntries(students, subject, day, markedBy, next, recs[1..]);
      var out := MarkRecords(students, subject, day, markedBy, st, recs).entries;
      assert out[..|next.entries|] == next.entries;
      assert out[..|st.entries|] == next.entries[..|st.entries|];
      forall k | 0 <= k < |recs|
        ensures out[|st.entries| + k].studentId == recs[k].studentId
        ensures RecordError(students, recs[k]).Some? ==>
          out[|st.entries| + k].outcome == EntryError(RecordError(students, recs[k]).value)
        ensures RecordError(students, recs[k]).None? ==> out[|st.entries| + k].outcome.EntryMessage?
      {
        if k == 0 {
          assert out[|st.entries|] == next.entries[|st.entries|];
        } else {
          assert recs[k] == recs[1..][k - 1];
          assert |st.entries| + k == |next.entries| + (k - 1);
        }
      }
    }
  }

  lemma {:induction false} MarkRecordsStatus(students: seq<Student>, subject: Subject, day: Day, markedBy: Option<string>,
                                             st: BatchState, recs: seq<RecordIn>, sid: string)
    decreases |recs|
    ensures var k := Key(sid, subject.subjectId, OnDay(day));
      StatusOf(MarkRecords(students, subject, day, markedBy, st, recs).store, k) ==
        if LastWrittenStatus(students, recs, sid).Some? then LastWrittenStatus(students, recs, sid)
        else StatusOf(st.store, k)
    ensures UniqueKeys(st.store) ==> UniqueKeys(MarkRecords(students, subject, day, markedBy, st, recs).store)
  {
    if recs != [] {
      var next := MarkRecord(students, subject, day, markedBy, st, recs[0]);
      MarkRecordsStatus(students, subject, day, markedBy, next, recs[1..], sid);
      var rec := recs[0];
      if RecordError(students, rec).None? {
        var i := FindStudent(students, rec.studentId.value).value;
        UpsertSpec(st.store, NewRecord(students[i], subject, rec.status.value, OnDay(day), markedBy), markedBy);
      }
    }
  }

  /** The batch loop writes only keys of its own subject and day. */
  lemma {:induction false} MarkRecordsFrame(students: seq<Student>, subject: Subject, day: Day, markedBy: Option<string>,
                                            st: BatchState, recs: seq<RecordIn>, k: Key)
    decreases |recs|
    requires k.subjectId != subject.subjectId || k.date != OnDay(day)
    ensures StatusOf(MarkRecords(students, subject, day, markedBy, st, recs).store, k) == StatusOf(st.store, k)
  {
    if recs != [] {
      var next := MarkRecord(students, subject, day, markedBy, st, recs[0]);
      MarkRecordsFrame(students, subject, day, markedBy, next, recs[1..], k);
      var rec := recs[0];
      if RecordError(students, rec).None? {
        var i := FindStudent(students, rec.studentId.value).value;
        UpsertSpec(st.store, NewRecord(students[i], subject, rec.status.value, OnDay(day), markedBy), markedBy);
      }
    }
  }

  /**
   * A rejected request writes nothing; an accepted one answers every record, in
   * input order, with an error exactly when the record is incomplete, has another
   * status, or names no known student.
   */
  lemma MarkBatchEntries(students: seq<Student>, subjects: seq<Subject>, store: seq<Record>,
                         req: BatchRequest, env: Oracles)
    ensures var (reply, after) := MarkBatchResult(students, subjects, store, req, env);
      (reply.Fail? ==> after == store) &&
      (reply.Ok? ==>
        |reply.value| == |req.attendances.items| &&
        forall k :: 0 <= k < |reply.value| ==>
          reply.value[k].studentId == req.attendances.items[k].studentId &&
          (reply.value[k].outcome.EntryError? <==> RecordError(students, req.attendances.items[k]).Some?))
  {
    match CheckBatchRequest(subjects, req, env)
    case Fail(_, _) =>
    case Ok((subject, day)) =>
      MarkRecordsEntries(students, subject, day, req.markedBy, BatchState([], store), req.attendances.items);
  }

  /**
   * After an accepted batch, a student's status for the subject and day is that
   * of the last record written for them; other students keep what they had, and
   * so does every key of another subject or another day; no key gets a second
   * document.
   */
  lemma MarkBatchLastStatusWins(students: seq<Student>, subjects: seq<Subject>, store: seq<Record>,
                                req: BatchRequest, env: Oracles, sid: string)
    requires CheckBatchRequest(subjects, req, env).Ok?
    ensures var (subject, day) := CheckBatchRequest(subjects, req, env).value;
      var k := Key(sid, subject.subjectId, OnDay(day));
      var after := MarkBatchResult(students, subjects, store, req, env).1;
      var last := LastWrittenStatus(students, req.attendances.items, sid);
      StatusOf(after, k) == (if last.Some? then last else StatusOf(store, k)) &&
      (UniqueKeys(store) ==> UniqueKeys(after)) &&
      (forall k': Key :: k'.subjectId != subject.subjectId || k'.date != OnDay(day) ==> StatusOf(after, k') == StatusOf(store, k'))
  {
    var (subject, day) := CheckBatchRequest(subjects, req, env).value;
    MarkRecordsStatus(students, subject, day, req.markedBy, BatchState([], store), req.attendances.items, sid);
    forall k': Key | k'.subjectId != subject.subjectId || k'.date != OnDay(day)
      ensures StatusOf(MarkBatchResult(students, subjects, store, req, env).1, k') == StatusOf(store, k')
    {
      MarkRecordsFrame(students, subject, day, req.markedBy, BatchState([], store), req.attendances.items, k');
    }
  }

  // ---------------------------------------------------------------------------
  // Single marking (POST /api/attendance/mark)

  datatype MarkRequest = MarkRequest(
    studentId: Option<string>, subjectId: Option<string>, status: Option<string>,
    image: Option<string>, date: Option<string>, teacherMarked: bool, markedBy: Option<string>)

  const MarkFieldsRequired := "Student ID, subject ID, and status are required"
  const WindowClosed := "Attendance marking is not enabled for this subject"
  const ImageRequired := "Image is required for facial verification"
  const FaceNotRegistered := "Student face not registered"
  const NoFaceDetected := "No face detected"
  const FaceMismatch := "Face does not match registered face"
  const FaceVerificationError := "Face verification error"

  /** The face check made when a student marks themself: the first face found must match. */
  function VerifyFace(student: Student, image: string, env: Oracles): Option<Reply<()>>
  {
    if !student.faceRegistered then Some(Fail(400, FaceNotRegistered))
    else match env.detect(image)
      case None => Some(Fail(500, FaceVerificationError))
      case Some(faces) =>
        if faces == [] then Some(Fail(400, NoFaceDetected))
        else if student.faceEncoding.None? then Some(Fail(500, FaceVerificationError))
        else if !env.matches(faces[0], student.faceEncoding.value) then Some(Fail(403, FaceMismatch))
        else None
  }

  /** The checks of `mark_attendance`, in the order the handler makes them. */
  function CheckMarkRequest(students: seq<Student>, subjects: seq<Subject>, req: MarkRequest, env: Oracles)
    : (r: Reply<(Student, Subject, Day)>)
    ensures !Given(req.studentId) || !Given(req.subjectId) || !Given(req.status) ==>
      r == Fail(400, MarkFieldsRequired)
    ensures Given(req.studentId) && Given(req.subjectId) && Given(req.status) && !ValidStatus(req.status.value) ==>
      r == Fail(400, StatusMalformed)
    ensures Given(req.studentId) && Given(req.subjectId) && Given(req.status) && ValidStatus(req.status.value) ==>
      (FindStudent(students, req.studentId.value).None? ==> r == Fail(404, StudentNotFound)) &&
      (FindStudent(students, req.studentId.value).Some? && !SubjectIdMatches(req.subjectId.value) ==>
         r == Fail(400, SubjectIdMalformed)) &&
      ((FindStudent(students, req.studentId.value).Some? && SubjectIdMatches(req.subjectId.value) &&
        FindSubject(subjects, req.subjectId.value).None?) ==> r == Fail(404, SubjectNotFound))
    ensures r.Ok? <==>
      Given(req.studentId) && Given(req.subjectId) && Given(req.status) && ValidStatus(req.status.value) &&
      FindStudent(students, req.studentId.value).Some? && SubjectIdMatches(req.subjectId.value) &&
      FindSubject(subjects, req.subjectId.value).Some? &&
      (req.teacherMarked ||
        (subjects[FindSubject(subjects, req.subjectId.value).value].attendanceEnabled == Some(true) &&
         Given(req.image) &&
         VerifyFace(students[FindStudent(students, req.studentId.value).value], req.image.value, env).None?)) &&
      env.parse(req.date.GetOr(env.today)).Some?
    ensures r.Ok? ==>
      r.value.0 == students[FindStudent(students, req.studentId.value).value] &&
      r.value.1 == subjects[FindSubject(subjects, req.subjectId.value).value] &&
      r.value.0.studentId == req.studentId.value && r.value.1.subjectId == req.subjectId.value &&
      env.parse(req.date.GetOr(env.today)) == Some(r.value.2)
  {
    if !Given(req.studentId) || !Given(req.subjectId) || !Given(req.status) then Fail(400, MarkFieldsRequired)
    else if !ValidStatus(req.status.value) then Fail(400, StatusMalformed)
    else match FindStudent(students, req.studentId.value)
      case None => Fail(404, StudentNotFound)
      case Some(i) =>
        var student := students[i];
        if !SubjectIdMatches(req.subjectId.value) then Fail(400, SubjectIdMalformed)
        else match FindSubject(subjects, req.subjectId.value)
          case None => Fail(404, SubjectNotFound)
          case Some(j) =>
            var subject := subjects[j];
            if !req.teacherMarked && !subject.attendanceEnabled.GetOr(false) then Fail(403, WindowClosed)
            else if !req.teacherMarked && !Given(req.image) then Fail(400, ImageRequired)
            else
              var verdict := if !req.teacherMarked then VerifyFace(student, req.image.value, env) else None;
              if verdict.Some? then Fail(verdict.value.code, verdict.value.error)
              else match env.parse(req.date.GetOr(env.today))
                case None => Fail(400, DateMalformed)
                case Some(day) => Ok((student, subject, day))
  }

  function MarkAttendanceResult(students: seq<Student>, subjects: seq<Subject>, store: seq<Record>,
                                req: MarkRequest, env: Oracles): (Reply<string>, seq<Record>)
  {
    match CheckMarkRequest(students, subjects, req, env)
    case Fail(code, error) => (Fail(code, error), store)
    case Ok((student, subject, day)) =>
      var marker := Some(req.markedBy.GetOr(req.studentId.value));
      var row := NewRecord(student, subject, req.status.value, OnDay(day), marker);
      (Ok(if Marked(store, KeyOf(row)) then AttendanceUpdated else AttendanceMarked), Upsert(store, row, marker))
  }

  /**
   * A marking that passes its checks sets the key's status (updating the record
   * if there is one), touches no other key and never duplicates a key; one that
   * fails writes nothing.
   */
  lemma MarkAttendanceUpserts(students: seq<Student>, subjects: seq<Subject>, store: seq<Record>,
                              req: MarkRequest, env: Oracles)
    ensures var (reply, after) := MarkAttendanceResult(students, subjects, store, req, env);
      (reply.Fail? ==> after == store) &&
      (reply.Ok? ==>
        var k := Key(req.studentId.value, req.subjectId.value, OnDay(env.parse(req.date.GetOr(env.today)).value));
        StatusOf(after, k) == req.status &&
        (forall k' :: k' != k ==> StatusOf(after, k') == StatusOf(store, k')) &&
        (reply.value == AttendanceUpdated <==> StatusOf(store, k).Some?) &&
        |after| == (if StatusOf(store, k).Some? then |store| else |store| + 1) &&
        (UniqueKeys(store) ==> UniqueKeys(after)))
  {
    match CheckMarkRequest(students, subjects, req, env)
    case Fail(_, _) =>
    case Ok((student, subject, day)) =>
      var marker := Some(req.markedBy.GetOr(req.studentId.value));
      UpsertSpec(store, NewRecord(student, subject, req.status.value, OnDay(day), marker), marker);
  }

  /** A student marking themself needs the window open, an image, and a face that matches theirs. */
  lemma SelfMarkingNeedsOpenWindowAndFace(students: seq<Student>, subjects: seq<Subject>, req: MarkRequest, env: Oracles)
    requires !req.teacherMarked && CheckMarkRequest(students, subjects, req, env).Ok?
    ensures var (student, subject, _) := CheckMarkRequest(students, subjects, req, env).value;
      subject.attendanceEnabled == Some(true) && Given(req.image) && student.faceRegistered &&
      env.detect(req.image.value).Some? && env.detect(req.image.value).value != [] &&
      student.faceEncoding.Some? &&
      env.matches(env.detect(req.image.value).value[0], student.faceEncoding.value)
  {
  }

  // ---------------------------------------------------------------------------
  // Marking everyone absent (POST /api/mark_absent)

  datatype AbsentRequest = AbsentRequest(subjectId: Option<string>, date: Option<string>, teacherId: Option<string>)

  /** The reply: the count inserted, the 400 "already marked" message, or an error. */
  datatype AbsentReply = AbsentMarked(count: nat, date: string, subjectName: string) | AlreadyMarked | AbsentRejected(code: nat, error: string)

  const AbsentFieldsRequired := "subject_id and teacher_id are required"
  const AbsentSubjectInvalid := "Invalid subject_id"

  /** `find({"course": course})`: the students of a course, in collection order (any class year). */
  function CourseStudents(students: seq<Student>, course: string): (r: seq<Student>)
    ensures forall s :: s in r <==> s in students && s.course == course
    ensures |r| <= |students|
  {
    if students == [] then []
    else (if students[0].course == course then [students[0]] else []) + CourseStudents(students[1..], course)
  }

  /** Some document already has this subject and this date string (the raw text, not a day). */
  predicate SessionRecorded(store: seq<Record>, subjectId: string, date: string) {
    exists i :: 0 <= i < |store| && store[i].date == AsText(date) && store[i].subjectId == subjectId
  }

  /** The bulk-inserted documents: one "absent" record per enrolled student, dated by the raw string. */
  function AbsentRecords(enrolled: seq<Student>, subject: Subject, date: string, teacherId: string): (r: seq<Record>)
    ensures |r| == |enrolled|
    ensures forall k :: 0 <= k < |r| ==>
      KeyOf(r[k]) == Key(enrolled[k].studentId, subject.subjectId, AsText(date)) &&
      r[k].status == "absent" && r[k].markedBy == Some(teacherId) && r[k].subjectName == subject.name &&
      r[k].studentName == enrolled[k].name && r[k].course == enrolled[k].course &&
      r[k].classYear == enrolled[k].classYear && r[k].division == enrolled[k].division
  {
    seq(|enrolled|, k requires 0 <= k < |enrolled| => NewRecord(enrolled[k], subject, "absent", AsText(date), Some(teacherId)))
  }

  /** A sequence holding the absent record of each enrolled student, in order, is `AbsentRecords`. */
  lemma AbsentRecordsByElement(enrolled: seq<Student>, subject: Subject, date: string, teacherId: string, rs: seq<Record>)
    requires |rs| == |enrolled|
    requires forall k :: 0 <= k < |rs| ==> rs[k] == NewRecord(enrolled[k], subject, "absent", AsText(date), Some(teacherId))
    ensures rs == AbsentRecords(enrolled, subject, date, teacherId)
  {
    var expected := AbsentRecords(enrolled, subject, date, teacherId);
    assert forall k :: 0 <= k < |rs| ==> rs[k] == expected[k];
  }

  function MarkAllAbsentResult(students: seq<Student>, subjects: seq<Subject>, store: seq<Record>,
                               req: AbsentRequest, today: string): (AbsentReply, seq<Record>)
  {
    if !Given(req.subjectId) || !Given(req.teacherId) then (AbsentRejected(400, AbsentFieldsRequired), store)
    else
      var date := req.date.GetOr(today);
      if SessionRecorded(store, req.subjectId.value, date) then (AlreadyMarked, store)
      else match FindSubject(subjects, req.subjectId.value)
        case None => (AbsentRejected(400, AbsentSubjectInvalid), store)
        case Some(i) =>
          var subject := subjects[i];
          var added := AbsentRecords(CourseStudents(students, subject.course), subject, date, req.teacherId.value);
          (AbsentMarked(|added|, date, subject.name), store + added)
  }

  /**
   * If a record with the (date string, subject) exists nothing is inserted.
   * Otherwise exactly one "absent" record is appended per student whose course is
   * the subject's course, whatever the class year, and the count reported is the
   * number appended.
   */
  lemma MarkAllAbsentInserts(students: seq<Student>, subjects: seq<Subject>, store: seq<Record>,
                             req: AbsentRequest, today: string)
    ensures var (reply, after) := MarkAllAbsentResult(students, subjects, store, req, today);
      (!Given(req.subjectId) || !Given(req.teacherId) ==> reply == AbsentRejected(400, AbsentFieldsRequired)) &&
      ((Given(req.subjectId) && Given(req.teacherId) && !SessionRecorded(store, req.subjectId.value, req.date.GetOr(today)))
         ==> (FindSubject(subjects, req.subjectId.value).None? ==> reply == AbsentRejected(400, AbsentSubjectInvalid)) &&
             (FindSubject(subjects, req.subjectId.value).Some? ==>
                var subject := subjects[FindSubject(subjects, req.subjectId.value).value];
                var date := req.date.GetOr(today);
                reply == AbsentMarked(|CourseStudents(students, subject.course)|, date, subject.name) &&
                after == store + AbsentRecords(CourseStudents(students, subject.course), subject, date, req.teacherId.value))) &&
      ((Given(req.subjectId) && Given(req.teacherId) && SessionRecorded(store, req.subjectId.value, req.date.GetOr(today)))
         ==> reply == AlreadyMarked) &&
      (!reply.AbsentMarked? ==> after == store) &&
      (reply.AbsentMarked? ==>
        var subject := subjects[FindSubject(subjects, req.subjectId.value).value];
        var added := after[|store|..];
        after[..|store|] == store && |added| == reply.count &&
        reply.count == |CourseStudents(students, subject.course)| &&
        (forall r :: r in added ==> r.status == "absent" && r.date == AsText(reply.date) &&
                                    r.subjectId == req.subjectId.value && r.course == subject.course) &&
        (forall s :: s in students && s.course == subject.course ==>
          NewRecord(s, subject, "absent", AsText(reply.date), req.teacherId) in added) &&
        (forall r :: r in added ==>
          (exists s :: s in students && s.course == subject.course &&
                       r == NewRecord(s, subject, "absent", AsText(reply.date), req.teacherId))))
  {
    var (reply, after) := MarkAllAbsentResult(students, subjects, store, req, today);
    if reply.AbsentMarked? {
      var subject := subjects[FindSubject(subjects, req.subjectId.value).value];
      var enrolled := CourseStudents(students, subject.course);
      var added := AbsentRecords(enrolled, subject, reply.date, req.teacherId.value);
      assert after == store + added;
      assert after[|store|..] == added;
      assert after[..|store|] == store;
      forall s | s in students && s.course == subject.course
        ensures NewRecord(s, subject, "absent", AsText(reply.date), req.teacherId) in added
      {
        var k :| 0 <= k < |enrolled| && enrolled[k] == s;
        assert added[k] == NewRecord(s, subject, "absent", AsText(reply.date), req.teacherId);
      }
      forall r | r in added
        ensures exists s :: (s in students && s.course == subject.course &&
                             r == NewRecord(s, subject, "absent", AsText(reply.date), req.teacherId))
      {
        var k :| 0 <= k < |added| && added[k] == r;
        assert enrolled[k] in enrolled;
      }
    }
  }

  lemma {:induction false} CourseStudentsDistinct(students: seq<Student>, course: string)
    requires DistinctStudentIds(students)
    ensures DistinctStudentIds(CourseStudents(students, course))
  {
    if students != [] {
      var rest := CourseStudents(students[1..], course);
      assert DistinctStudentIds(students[1..]) by {
        forall i, j | 0 <= i < j < |students[1..]|
          ensures students[1..][i].studentId != students[1..][j].studentId
        {
          assert students[1..][i] == students[i + 1] && students[1..][j] == students[j + 1];
        }
      }
      CourseStudentsDistinct(students[1..], course);
      forall s | s in rest
        ensures s.studentId != students[0].studentId
      {
        var j :| 0 <= j < |students[1..]| && students[1..][j] == s;
        assert students[j + 1] == s;
      }
    }
  }

  /** With distinct student IDs, the bulk insert keeps one document per key. */
  lemma MarkAllAbsentKeepsKeysUnique(students: seq<Student>, subjects: seq<Subject>, store: seq<Record>,
                                     req: AbsentRequest, today: string)
    requires UniqueKeys(store) && DistinctStudentIds(students)
    ensures UniqueKeys(MarkAllAbsentResult(students, subjects, store, req, today).1)
  {
    var (reply, after) := MarkAllAbsentResult(students, subjects, store, req, today);
    if reply.AbsentMarked? {
      var subject := subjects[FindSubject(subjects, req.subjectId.value).value];
      var enrolled := CourseStudents(students, subject.course);
      var added := AbsentRecords(enrolled, subject, reply.date, req.teacherId.value);
      CourseStudentsDistinct(students, subject.course);
      assert after == store + added;
      forall i, j | 0 <= i < j < |after|
        ensures KeyOf(after[i]) != KeyOf(after[j])
      {
        if j >= |store| && i >= |store| {
          assert after[i] == added[i - |store|] && after[j] == added[j - |store|];
        } else if j >= |store| {
          assert after[j] == added[j - |store|];
          assert !(store[i].date == AsText(reply.date) && store[i].subjectId == req.subjectId.value);
        }
      }
    }
  }

  // ---------------------------------------------------------------------------
  // The attendance view (GET /api/attendance/view)

  datatype ViewRequest = ViewRequest(
    course: Option<string>, classYear: Option<string>, division: Option<string>,
    subjectId: Option<string>, date: Option<string>)

  datatype StudentView = StudentView(
    studentId: string, name: string, course: string, classYear: string, division: string, status: string)

  const ViewFieldsRequired := "Course, Class Year, Division, Subject ID, and Date are required"

  /** `find({"course": .., "class_year": .., "division": ..})`, in collection order. */
  function ClassStudents(students: seq<Student>, course: string, classYear: string, division: string): (r: seq<Student>)
    ensures forall s :: s in r <==> s in students && s.course == course && s.classYear == classYear && s.division == division
  {
    if students == [] then []
    else
      var s := students[0];
      (if s.course == course && s.classYear == classYear && s.division == division then [s] else [])
        + ClassStudents(students[1..], course, classYear, division)
  }

  /** Each listed student carries the stored status for the day, or "absent" when none is stored. */
  function ViewAttendance(students: seq<Student>, store: seq<Record>, req: ViewRequest,
                          parse: string -> Option<Day>): (r: Reply<seq<StudentView>>)
    ensures !(Given(req.course) && Given(req.classYear) && Given(req.division) && Given(req.subjectId) && Given(req.date)) ==>
      r == Fail(400, ViewFieldsRequired)
    ensures (Given(req.course) && Given(req.classYear) && Given(req.division) && Given(req.subjectId) && Given(req.date) &&
             parse(req.date.value).None?) ==> r == Fail(400, DateMalformed)
    ensures r.Ok? <==>
      Given(req.course) && Given(req.classYear) && Given(req.division) && Given(req.subjectId) &&
      Given(req.date) && parse(req.date.value).Some?
    ensures r.Ok? ==>
      var listed := ClassStudents(students, req.course.value, req.classYear.value, req.division.value);
      |r.value| == |listed| &&
      forall k :: 0 <= k < |listed| ==>
        r.value[k].studentId == listed[k].studentId &&
        (StatusOf(store, Key(listed[k].studentId, req.subjectId.value, OnDay(parse(req.date.value).value))).Some? ==>
          Some(r.value[k].status) == StatusOf(store, Key(listed[k].studentId, req.subjectId.value, OnDay(parse(req.date.value).value)))) &&
        (StatusOf(store, Key(listed[k].studentId, req.subjectId.value, OnDay(parse(req.date.value).value))).None? ==>
          r.value[k].status == "absent")
  {
    if !(Given(req.course) && Given(req.classYear) && Given(req.division) && Given(req.subjectId) && Given(req.date)) then
      Fail(400, ViewFieldsRequired)
    else match parse(req.date.value)
      case None => Fail(400, DateMalformed)
      case Some(day) =>
        var listed := ClassStudents(students, req.course.value, req.classYear.value, req.division.value);
        Ok(seq(|listed|, k requires 0 <= k < |listed| =>
          var s := listed[k];
          StudentView(s.studentId, s.name, s.course, s.classYear, s.division,
                      StatusOf(store, Key(s.studentId, req.subjectId.value, OnDay(day))).GetOr("absent"))))
  }

  /** Records dated by a raw string, as `mark_all_absent` writes them, are never seen by the view. */
  lemma {:induction false} TextDatesInvisible(store: seq<Record>, extra: seq<Record>, k: Key)
    requires k.date.OnDay?
    requires forall r :: r in extra ==> r.date.AsText?
    ensures StatusOf(store + extra, k) == StatusOf(store, k)
  {
    if extra == [] {
      assert store + extra == store;
    } else {
      var last := extra[|extra| - 1];
      var init := extra[..|extra| - 1];
      assert extra == init + [last];
      assert store + extra == (store + init) + [last];
      assert last in extra;
      assert forall r :: r in init ==> r in extra;
      TextDatesInvisible(store, init, k);
      FindKeyAppend(store + init, last, k);
      assert KeyOf(last) != k;
      var f := FindKey(store + init, k);
      assert FindKey(store + extra, k) == f;
      if f.Some? {
        assert (store + extra)[f.value] == (store + init)[f.value];
      }
      assert StatusOf(store + extra, k) == StatusOf(store + init, k);
    }
  }

  /** The view reads a store only through the statuses of day-dated keys. */
  lemma ViewSameDays(students: seq<Student>, a: seq<Record>, b: seq<Record>, req: ViewRequest, parse: string -> Option<Day>)
    requires forall k: Key :: k.date.OnDay? ==> StatusOf(a, k) == StatusOf(b, k)
    ensures ViewAttendance(students, a, req, parse) == ViewAttendance(students, b, req, parse)
  {
    var ra, rb := ViewAttendance(students, a, req, parse), ViewAttendance(students, b, req, parse);
    if ra.Ok? {
      var listed := ClassStudents(students, req.course.value, req.classYear.value, req.division.value);
      var day := parse(req.date.value).value;
      assert |ra.value| == |rb.value|;
      forall k | 0 <= k < |ra.value|
        ensures ra.value[k] == rb.value[k]
      {
        var key := Key(listed[k].studentId, req.subjectId.value, OnDay(day));
        assert StatusOf(a, key) == StatusOf(b, key);
      }
      assert ra.value == rb.value;
    }
  }

  /**
   * A successful "mark everyone absent" changes nothing in the attendance view:
   * its records carry the date as text, the view looks up normalised days.
   */
  lemma MarkAllAbsentInvisibleToView(students: seq<Student>, subjects: seq<Subject>, store: seq<Record>,
                                     req: AbsentRequest, today: string, view: ViewRequest, parse: string -> Option<Day>)
    ensures ViewAttendance(students, MarkAllAbsentResult(students, subjects, store, req, today).1, view, parse) ==
            ViewAttendance(students, store, view, parse)
  {
    var (reply, after) := MarkAllAbsentResult(students, subjects, store, req, today);
    if reply.AbsentMarked? {
      var subject := subjects[FindSubject(subjects, req.subjectId.value).value];
      var added := AbsentRecords(CourseStudents(students, subject.course), subject, reply.date, req.teacherId.value);
      assert after == store + added;
      forall k: Key | k.date.OnDay?
        ensures StatusOf(after, k) == StatusOf(store, k)
      {
        TextDatesInvisible(store, added, k);
      }
      ViewSameDays(students, after, store, view, parse);
    }
  }

  // ---------------------------------------------------------------------------
  // Facial batch marking (POST /api/attendance/batch_facial)

  datatype FacialRequest = FacialRequest(
    images: Option<seq<string>>, subjectId: Option<string>, date: Option<string>, teacherId: Option<string>)

  /** One entry of `known_encodings` together with its entry of `student_ids`. */
  datatype KnownFace = KnownFace(studentId: string, encoding: Encoding)

  datatype FacialResult = FacialResult(studentId: string, name: string, status: string)

  /** The reply: the "+N students marked present" count and the result list. */
  datatype FacialOutcome = FacialOutcome(count: nat, results: seq<FacialResult>)

  /** What the loop over images works with once the checks have passed. */
  datatype FacialContext = FacialContext(subject: Subject, day: Day, teacherId: string,
                                         registered: seq<Student>, known: seq<KnownFace>)

  /** The loop's state: `recognized_students`, `results` and the attendance collection. */
  datatype Scan = Scan(recognized: set<string>, results: seq<FacialResult>, store: seq<Record>)

  const FacialFieldsRequired := "Images, subject ID, and teacher ID are required"
  const NoRegisteredStudents := "No registered students found for this subject"
  const NoEncodings := "No student face encodings found"

  /** `find({"course": .., "class_year": .., "face_registered": True})`, in collection order. */
  function RegisteredStudents(students: seq<Student>, subject: Subject): (r: seq<Student>)
    ensures forall s :: s in r <==>
      s in students && s.course == subject.course && s.classYear == subject.classYear && s.faceRegistered
  {
    if students == [] then []
    else
      var s := students[0];
      (if s.course == subject.course && s.classYear == subject.classYear && s.faceRegistered then [s] else [])
        + RegisteredStudents(students[1..], subject)
  }

  /** The known encodings and their student IDs, for the registered students that have an encoding. */
  function KnownFaces(registered: seq<Student>): (r: seq<KnownFace>)
    ensures forall k :: k in r ==>
      exists s :: s in registered && s.studentId == k.studentId && s.faceEncoding == Some(k.encoding)
    ensures forall s :: s in registered && s.faceEncoding.Some? ==> KnownFace(s.studentId, s.faceEncoding.value) in r
  {
    if registered == [] then []
    else
      var s := registered[|registered| - 1];
      var init := KnownFaces(registered[..|registered| - 1]);
      assert forall t :: t in registered[..|registered| - 1] ==> t in registered;
      if s.faceEncoding.Some? then init + [KnownFace(s.studentId, s.faceEncoding.value)] else init
  }

  /** `compare_faces` followed by `matches.index(True)`: the first known encoding the face matches. */
  function FirstMatch(known: seq<KnownFace>, face: Face, matches: (Face, Encoding) -> bool): Option<nat> {
    First(known, (k: KnownFace) => matches(face, k.encoding))
  }

  /** One face of one image: a match not yet recognised is marked present and reported. */
  function ScanFace(ctx: FacialContext, matches: (Face, Encoding) -> bool, sc: Scan, face: Face): Scan {
    match FirstMatch(ctx.known, face, matches)
    case None => sc
    case Some(i) =>
      var sid := ctx.known[i].studentId;
      if sid in sc.recognized then sc
      else match FindStudent(ctx.registered, sid)
        case None => sc.(recognized := sc.recognized + {sid})
        case Some(j) =>
          var student := ctx.registered[j];
          var marker := Some(ctx.teacherId);
          Scan(sc.recognized + {sid},
               sc.results + [FacialResult(sid, student.name, "present")],
               Upsert(sc.store, NewRecord(student, ctx.subject, "present", OnDay(ctx.day), marker), marker))
  }

  function ScanFaces(ctx: FacialContext, matches: (Face, Encoding) -> bool, sc: Scan, faces: seq<Face>): Scan
    decreases |faces|
  {
    if faces == [] then sc else ScanFaces(ctx, matches, ScanFace(ctx, matches, sc, faces[0]), faces[1..])
  }

  /** The loop over images; an image that fails to decode is skipped. */
  function ScanImages(ctx: FacialContext, env: Oracles, sc: Scan, images: seq<string>): Scan
    decreases |images|
  {
    if images == [] then sc
    else
      var next := match env.detect(images[0])
        case None => sc
        case Some(faces) => ScanFaces(ctx, env.matches, sc, faces);
      ScanImages(ctx, env, next, images[1..])
  }

  /** The checks of the facial batch handler, up to the students it has to look at. */
  function CheckFacialRequest(students: seq<Student>, subjects: seq<Subject>, req: FacialRequest, env: Oracles)
    : (r: Reply<FacialContext>)
    ensures req.images.None? || req.images.value == [] || !Given(req.subjectId) || !Given(req.teacherId) ==>
      r == Fail(400, FacialFieldsRequired)
    ensures req.images.Some? && req.images.value != [] && Given(req.subjectId) && Given(req.teacherId) ==>
      (!SubjectIdMatches(req.subjectId.value) ==> r == Fail(400, SubjectIdInvalid)) &&
      (SubjectIdMatches(req.subjectId.value) && FindSubject(subjects, req.subjectId.value).None? ==>
         r == Fail(404, SubjectNotFound))
    ensures (req.images.Some? && req.images.value != [] && Given(req.subjectId) && Given(req.teacherId) &&
             SubjectIdMatches(req.subjectId.value) && FindSubject(subjects, req.subjectId.value).Some?) ==>
      var subject := subjects[FindSubject(subjects, req.subjectId.value).value];
      (env.parse(req.date.GetOr(env.today)).None? ==> r == Fail(400, DateMalformed)) &&
      (env.parse(req.date.GetOr(env.today)).Some? && RegisteredStudents(students, subject) == [] ==>
         r == Fail(404, NoRegisteredStudents)) &&
      ((env.parse(req.date.GetOr(env.today)).Some? && RegisteredStudents(students, subject) != [] &&
        KnownFaces(RegisteredStudents(students, subject)) == []) ==> r == Fail(404, NoEncodings))
    ensures r.Ok? <==>
      req.images.Some? && req.images.value != [] && Given(req.subjectId) && Given(req.teacherId) &&
      SubjectIdMatches(req.subjectId.value) && FindSubject(subjects, req.subjectId.value).Some? &&
      env.parse(req.date.GetOr(env.today)).Some? &&
      KnownFaces(RegisteredStudents(students, subjects[FindSubject(subjects, req.subjectId.value).value])) != []
    ensures r.Ok? ==>
      r.value.subject == subjects[FindSubject(subjects, req.subjectId.value).value] &&
      r.value.subject.subjectId == req.subjectId.value && r.value.teacherId == req.teacherId.value &&
      env.parse(req.date.GetOr(env.today)) == Some(r.value.day) &&
      r.value.known != [] && r.value.known == KnownFaces(r.value.registered) &&
      r.value.registered == RegisteredStudents(students, r.value.subject)
  {
    if req.images.None? || req.images.value == [] || !Given(req.subjectId) || !Given(req.teacherId) then
      Fail(400, FacialFieldsRequired)
    else if !SubjectIdMatches(req.subjectId.value) then Fail(400, SubjectIdInvalid)
    else match FindSubject(subjects, req.subjectId.value)
      case None => Fail(404, SubjectNotFound)
      case Some(i) =>
        var subject := subjects[i];
        match env.parse(req.date.GetOr(env.today))
        case None => Fail(400, DateMalformed)
        case Some(day) =>
          var registered := RegisteredStudents(students, subject);
          if registered == [] then Fail(404, NoRegisteredStudents)
          else
            var known := KnownFaces(registered);
            if known == [] then Fail(404, NoEncodings)
            else Ok(FacialContext(subject, day, req.teacherId.value, registered, known))
  }

  function FacialBatchResult(students: seq<Student>, subjects: seq<Subject>, store: seq<Record>,
                             req: FacialRequest, env: Oracles): (Reply<FacialOutcome>, seq<Record>)
  {
    match CheckFacialRequest(students, subjects, req, env)
    case Fail(code, error) => (Fail(code, error), store)
    case Ok(ctx) =>
      var final := ScanImages(ctx, env, Scan({}, [], store), req.images.value);
      (Ok(FacialOutcome(|final.recognized|, final.results)), final.store)
  }

  function ResultIds(results: seq<FacialResult>): set<string> {
    set r | r in results :: r.studentId
  }

  predicate DistinctResults(results: seq<FacialResult>) {
    forall i, j :: 0 <= i < j < |results| ==> results[i].studentId != results[j].studentId
  }

  /** What the loop keeps true: each student once, the set is the reported students, all present. */
  predicate ScanSound(ctx: FacialContext, sc: Scan) {
    && DistinctResults(sc.results)
    && sc.recognized == ResultIds(sc.results)
    && UniqueKeys(sc.store)
    && forall r :: r in sc.results ==>
         r.status == "present" &&
         (exists k :: k in ctx.known && k.studentId == r.studentId) &&
         StatusOf(sc.store, Key(r.studentId, ctx.subject.subjectId, OnDay(ctx.day))) == Some("present")
  }

  /** Every known face belongs to one of the registered students. */
  predicate KnownAreRegistered(ctx: FacialContext) {
    forall k :: k in ctx.known ==> exists s :: s in ctx.registered && s.studentId == k.studentId
  }

  /** Recognising a new student keeps the loop's invariant. */
  lemma ScanAddSound(ctx: FacialContext, sc: Scan, student: Student)
    requires ScanSound(ctx, sc) && student.studentId !in sc.recognized
    requires exists k :: k in ctx.known && k.studentId == student.studentId
    ensures var marker := Some(ctx.teacherId);
      ScanSound(ctx, Scan(sc.recognized + {student.studentId},
                          sc.results + [FacialResult(student.studentId, student.name, "present")],
                          Upsert(sc.store, NewRecord(student, ctx.subject, "present", OnDay(ctx.day), marker), marker)))
  {
    var sid := student.studentId;
    var marker := Some(ctx.teacherId);
    var row := NewRecord(student, ctx.subject, "present", OnDay(ctx.day), marker);
    var added := FacialResult(sid, student.name, "present");
    var results := sc.results + [added];
    var store := Upsert(sc.store, row, marker);
    UpsertSpec(sc.store, row, marker);
    forall i, j | 0 <= i < j < |results|
      ensures results[i].studentId != results[j].studentId
    {
      if j == |sc.results| {
        assert results[i] == sc.results[i];
        assert sc.results[i].studentId in ResultIds(sc.results);
      }
    }
    assert ResultIds(results) == ResultIds(sc.results) + {sid};
    forall r | r in results
      ensures StatusOf(store, Key(r.studentId, ctx.subject.subjectId, OnDay(ctx.day))) == Some("present")
    {
      if r != added {
        assert r in sc.results;
        assert r.studentId in ResultIds(sc.results);
      }
    }
  }

  lemma ScanFaceSound(ctx: FacialContext, matches: (Face, Encoding) -> bool, sc: Scan, face: Face)
    requires KnownAreRegistered(ctx) && ScanSound(ctx, sc)
    ensures ScanSound(ctx, ScanFace(ctx, matches, sc, face))
  {
    var m := FirstMatch(ctx.known, face, matches);
    if m.Some? {
      var sid := ctx.known[m.value].studentId;
      assert ctx.known[m.value] in ctx.known;
      if sid !in sc.recognized {
        var s :| s in ctx.registered && s.studentId == sid;
        var found := FindStudent(ctx.registered, sid);
        if found.None? {
          assert false;
        }
        ScanAddSound(ctx, sc, ctx.registered[found.value]);
      }
    }
  }

  /**
   * `matches.index(True)`: when the face's first match among the known encodings
   * is entry `i`, a student already recognised changes nothing, and otherwise
   * entry `i`'s student is reported and stored present.
   */
  lemma ScanFaceUsesFirstMatch(ctx: FacialContext, matches: (Face, Encoding) -> bool, sc: Scan, face: Face, i: nat)
    requires KnownAreRegistered(ctx)
    requires i < |ctx.known| && matches(face, ctx.known[i].encoding)
    requires forall j :: 0 <= j < i ==> !matches(face, ctx.known[j].encoding)
    ensures ctx.known[i].studentId in sc.recognized ==> ScanFace(ctx, matches, sc, face) == sc
    ensures var sid := ctx.known[i].studentId; var after := ScanFace(ctx, matches, sc, face);
      sid !in sc.recognized ==>
        after.recognized == sc.recognized + {sid} &&
        StatusOf(after.store, Key(sid, ctx.subject.subjectId, OnDay(ctx.day))) == Some("present") &&
        exists s :: s in ctx.registered && s.studentId == sid &&
                    after.results == sc.results + [FacialResult(sid, s.name, "present")]
  {
    assert FirstMatch(ctx.known, face, matches) == Some(i);
    var sid := ctx.known[i].studentId;
    assert ctx.known[i] in ctx.known;
    if sid !in sc.recognized {
      var s :| s in ctx.registered && s.studentId == sid;
      var found := FindStudent(ctx.registered, sid);
      if found.None? {
        assert false;
      }
      var student := ctx.registered[found.value];
      var marker := Some(ctx.teacherId);
      UpsertSpec(sc.store, NewRecord(student, ctx.subject, "present", OnDay(ctx.day), marker), marker);
    }
  }

  /** A face that matches no known encoding leaves the scan as it was. */
  lemma ScanFaceIgnoresUnknown(ctx: FacialContext, matches: (Face, Encoding) -> bool, sc: Scan, face: Face)
    requires forall j :: 0 <= j < |ctx.known| ==> !matches(face, ctx.known[j].encoding)
    ensures ScanFace(ctx, matches, sc, face) == sc
  {
  }

  lemma {:induction false} ScanFacesSound(ctx: FacialContext, matches: (Face, Encoding) -> bool, sc: Scan, faces: seq<Face>)
    decreases |faces|
    requires KnownAreRegistered(ctx) && ScanSound(ctx, sc)
    ensures ScanSound(ctx, ScanFaces(ctx, matches, sc, faces))
  {
    if faces != [] {
      ScanFaceSound(ctx, matches, sc, faces[0]);
      ScanFacesSound(ctx, matches, ScanFace(ctx, matches, sc, faces[0]), faces[1..]);
    }
  }

  lemma {:induction false} ScanImagesSound(ctx: FacialContext, env: Oracles, sc: Scan, images: seq<string>)
    decreases |images|
    requires KnownAreRegistered(ctx) && ScanSound(ctx, sc)
    ensures ScanSound(ctx, ScanImages(ctx, env, sc, images))
  {
    if images != [] {
      match env.detect(images[0])
      case None =>
        ScanImagesSound(ctx, env, sc, images[1..]);
      case Some(faces) =>
        ScanFacesSound(ctx, env.matches, sc, faces);
        ScanImagesSound(ctx, env, ScanFaces(ctx, env.matches, sc, faces), images[1..]);
    }
  }

  /** Whether a key is one the scan may write: the subject and day, for a recognised student. */
  predicate ScanTouches(ctx: FacialContext, recognized: set<string>, k: Key) {
    k.subjectId == ctx.subject.subjectId && k.date == OnDay(ctx.day) && k.studentId in recognized
  }

  /** One face only adds to the recognised set and writes only a key it recognises. */
  lemma ScanFaceFrame(ctx: FacialContext, matches: (Face, Encoding) -> bool, sc: Scan, face: Face, k: Key)
    ensures var after := ScanFace(ctx, matches, sc, face);
      sc.recognized <= after.recognized &&
      (!ScanTouches(ctx, after.recognized, k) ==> StatusOf(after.store, k) == StatusOf(sc.store, k))
  {
    match FirstMatch(ctx.known, face, matches)
    case None =>
    case Some(i) =>
      var sid := ctx.known[i].studentId;
      if sid !in sc.recognized {
        match FindStudent(ctx.registered, sid)
        case None =>
        case Some(j) =>
          var marker := Some(ctx.teacherId);
          UpsertSpec(sc.store, NewRecord(ctx.registered[j], ctx.subject, "present", OnDay(ctx.day), marker), marker);
      }
  }

  lemma {:induction false} ScanFacesFrame(ctx: FacialContext, matches: (Face, Encoding) -> bool, sc: Scan,
                                          faces: seq<Face>, k: Key)
    decreases |faces|
    ensures var after := ScanFaces(ctx, matches, sc, faces);
      sc.recognized <= after.recognized &&
      (!ScanTouches(ctx, after.recognized, k) ==> StatusOf(after.store, k) == StatusOf(sc.store, k))
  {
    if faces != [] {
      ScanFaceFrame(ctx, matches, sc, faces[0], k);
      ScanFacesFrame(ctx, matches, ScanFace(ctx, matches, sc, faces[0]), faces[1..], k);
    }
  }

  lemma {:induction false} ScanImagesFrame(ctx: FacialContext, env: Oracles, sc: Scan, images: seq<string>, k: Key)
    decreases |images|
    ensures var after := ScanImages(ctx, env, sc, images);
      sc.recognized <= after.recognized &&
      (!ScanTouches(ctx, after.recognized, k) ==> StatusOf(after.store, k) == StatusOf(sc.store, k))
  {
    if images != [] {
      match env.detect(images[0])
      case None =>
        ScanImagesFrame(ctx, env, sc, images[1..], k);
      case Some(faces) =>
        ScanFacesFrame(ctx, env.matches, sc, faces, k);
        ScanImagesFrame(ctx, env, ScanFaces(ctx, env.matches, sc, faces), images[1..], k);
    }
  }

  /** The first known encoding that `face` matches belongs to student `sid`. */
  predicate MatchedBy(ctx: FacialContext, matches: (Face, Encoding) -> bool, face: Face, sid: string) {
    var m := FirstMatch(ctx.known, face, matches);
    m.Some? && ctx.known[m.value].studentId == sid
  }

  /** `face` is one of the faces found in an image of `images` that decodes. */
  predicate DecodedFace(env: Oracles, images: seq<string>, face: Face) {
    exists j :: 0 <= j < |images| && env.detect(images[j]).Some? && face in env.detect(images[j]).value
  }

  lemma DecodedFaceCons(env: Oracles, images: seq<string>, face: Face)
    requires images != []
    ensures DecodedFace(env, images, face) <==>
      (env.detect(images[0]).Some? && face in env.detect(images[0]).value) || DecodedFace(env, images[1..], face)
  {
    if DecodedFace(env, images, face) {
      var j :| 0 <= j < |images| && env.detect(images[j]).Some? && face in env.detect(images[j]).value;
      if j > 0 {
        assert images[1..][j - 1] == images[j];
      }
    }
    if DecodedFace(env, images[1..], face) {
      var j :| 0 <= j < |images[1..]| && env.detect(images[1..][j]).Some? && face in env.detect(images[1..][j]).value;
      assert images[j + 1] == images[1..][j];
    }
  }

  /** The students recognised after a run of faces: those before, and the first matches of the faces. */
  lemma {:induction false} ScanFacesRecognized(ctx: FacialContext, matches: (Face, Encoding) -> bool, sc: Scan,
                                               faces: seq<Face>, sid: string)
    decreases |faces|
    ensures sid in ScanFaces(ctx, matches, sc, faces).recognized <==>
      sid in sc.recognized || exists f :: f in faces && MatchedBy(ctx, matches, f, sid)
  {
    if faces != [] {
      var next := ScanFace(ctx, matches, sc, faces[0]);
      assert sid in next.recognized <==> sid in sc.recognized || MatchedBy(ctx, matches, faces[0], sid);
      ScanFacesRecognized(ctx, matches, next, faces[1..], sid);
      assert forall f :: f in faces <==> f == faces[0] || f in faces[1..];
    }
  }

  /** The students recognised after the images: those before, and the first matches of the decoded faces. */
  lemma {:induction false} ScanImagesRecognized(ctx: FacialContext, env: Oracles, sc: Scan, images: seq<string>,
                                                sid: string)
    decreases |images|
    ensures sid in ScanImages(ctx, env, sc, images).recognized <==>
      sid in sc.recognized || exists f :: DecodedFace(env, images, f) && MatchedBy(ctx, env.matches, f, sid)
  {
    if images != [] {
      forall f
        ensures DecodedFace(env, images, f) <==>
          (env.detect(images[0]).Some? && f in env.detect(images[0]).value) || DecodedFace(env, images[1..], f)
      {
        DecodedFaceCons(env, images, f);
      }
      match env.detect(images[0])
      case None =>
        ScanImagesRecognized(ctx, env, sc, images[1..], sid);
      case Some(faces) =>
        ScanFacesRecognized(ctx, env.matches, sc, faces, sid);
        ScanImagesRecognized(ctx, env, ScanFaces(ctx, env.matches, sc, faces), images[1..], sid);
    }
  }

  lemma {:induction false} DistinctResultsCount(results: seq<FacialResult>)
    requires DistinctResults(results)
    ensures |ResultIds(results)| == |results|
  {
    if results != [] {
      var init := results[..|results| - 1];
      var last := results[|results| - 1];
      assert results == init + [last];
      assert DistinctResults(init);
      DistinctResultsCount(init);
      assert ResultIds(results) == ResultIds(init) + {last.studentId};
      assert last.studentId !in ResultIds(init);
    }
  }

  /** An image that cannot be decoded is skipped and the loop goes on. */
  lemma UndecodableImageSkipped(ctx: FacialContext, env: Oracles, sc: Scan, image: string, rest: seq<string>)
    requires env.detect(image).None?
    ensures ScanImages(ctx, env, sc, [image] + rest) == ScanImages(ctx, env, sc, rest)
  {
    assert ([image] + rest)[1..] == rest;
  }

  /**
   * A successful facial batch reports each recognised student once, with a
   * count equal to the number of distinct students reported; each of them is a
   * registered student of the subject whose face matched, and is stored present
   * for the day without a second record for the key.
   */
  lemma FacialBatchReportsEachStudentOnce(students: seq<Student>, subjects: seq<Subject>, store: seq<Record>,
                                          req: FacialRequest, env: Oracles)
    requires UniqueKeys(store)
    ensures var (reply, after) := FacialBatchResult(students, subjects, store, req, env);
      (reply.Fail? ==> after == store) &&
      (reply.Ok? ==>
        var ctx := CheckFacialRequest(students, subjects, req, env).value;
        var results := reply.value.results;
        ctx.subject == subjects[FindSubject(subjects, req.subjectId.value).value] &&
        ctx.subject.subjectId == req.subjectId.value && env.parse(req.date.GetOr(env.today)) == Some(ctx.day) &&
        DistinctResults(results) && reply.value.count == |results| && UniqueKeys(after) &&
        (forall k :: !ScanTouches(ctx, ResultIds(results), k) ==> StatusOf(after, k) == StatusOf(store, k)) &&
        (forall sid :: sid in ResultIds(results) <==>
           exists f :: DecodedFace(env, req.images.value, f) && MatchedBy(ctx, env.matches, f, sid)) &&
        forall r :: r in results ==>
          r.status == "present" &&
          (exists s :: s in students && s.studentId == r.studentId && s.faceRegistered &&
                       s.course == ctx.subject.course && s.classYear == ctx.subject.classYear) &&
          StatusOf(after, Key(r.studentId, ctx.subject.subjectId, OnDay(ctx.day))) == Some("present"))
  {
    match CheckFacialRequest(students, subjects, req, env)
    case Fail(_, _) =>
    case Ok(ctx) =>
      var init := Scan({}, [], store);
      assert ResultIds([]) == {};
      ScanImagesSound(ctx, env, init, req.images.value);
      var final := ScanImages(ctx, env, init, req.images.value);
      DistinctResultsCount(final.results);
      forall k | !ScanTouches(ctx, ResultIds(final.results), k)
        ensures StatusOf(final.store, k) == StatusOf(store, k)
      {
        ScanImagesFrame(ctx, env, init, req.images.value, k);
      }
      forall sid
        ensures sid in ResultIds(final.results) <==>
          exists f :: DecodedFace(env, req.images.value, f) && MatchedBy(ctx, env.matches, f, sid)
      {
        ScanImagesRecognized(ctx, env, init, req.images.value, sid);
      }
      forall r | r in final.results
        ensures exists s :: s in students && s.studentId == r.studentId && s.faceRegistered &&
                            s.course == ctx.subject.course && s.classYear == ctx.subject.classYear
      {
        var k :| k in ctx.known && k.studentId == r.studentId;
        var s :| s in ctx.registered && s.studentId == k.studentId;
      }
  }

  // ---------------------------------------------------------------------------
  // The attendance window (GET /api/attendance/status, POST /api/attendance/enable)

  /** `check_attendance_status`: the subject's flag, false when the field was never set. */
  function AttendanceStatus(subjects: seq<Subject>, subjectId: Option<string>): (r: Reply<bool>)
    ensures !Given(subjectId) ==> r == Fail(400, SubjectIdRequired)
    ensures Given(subjectId) && !SubjectIdMatches(subjectId.value) ==> r == Fail(400, SubjectIdInvalid)
    ensures Given(subjectId) && SubjectIdMatches(subjectId.value) && FindSubject(subjects, subjectId.value).None? ==>
      r == Fail(404, SubjectNotFound)
    ensures r.Ok? <==> Given(subjectId) && SubjectIdMatches(subjectId.value) && FindSubject(subjects, subjectId.value).Some?
    ensures r.Ok? ==>
      var subject := subjects[FindSubject(subjects, subjectId.value).value];
      r.value == (subject.attendanceEnabled == Some(true))
  {
    if !Given(subjectId) then Fail(400, SubjectIdRequired)
    else if !SubjectIdMatches(subjectId.value) then Fail(400, SubjectIdInvalid)
    else match FindSubject(subjects, subjectId.value)
      case None => Fail(404, SubjectNotFound)
      case Some(i) => Ok(subjects[i].attendanceEnabled.GetOr(false))
  }

  /** `enable_attendance`: set the first matching subject's flag (true when the request omits it). */
  function EnableAttendanceResult(subjects: seq<Subject>, subjectId: Option<string>, enabled: Option<bool>)
    : (Reply<bool>, seq<Subject>)
  {
    if !Given(subjectId) then (Fail(400, SubjectIdRequired), subjects)
    else if !SubjectIdMatches(subjectId.value) then (Fail(400, SubjectIdInvalid), subjects)
    else match FindSubject(subjects, subjectId.value)
      case None => (Fail(404, SubjectNotFound), subjects)
      case Some(i) =>
        var flag := enabled.GetOr(true);
        (Ok(flag), subjects[i := subjects[i].(attendanceEnabled := Some(flag))])
  }

  /**
   * Enabling and then checking round-trips: the check answers the flag that was
   * set (true when none was sent), and the two handlers accept the same IDs.
   */
  lemma EnableThenCheck(subjects: seq<Subject>, subjectId: Option<string>, enabled: Option<bool>)
    ensures var (reply, after) := EnableAttendanceResult(subjects, subjectId, enabled);
      reply.Ok? == AttendanceStatus(subjects, subjectId).Ok? &&
      (reply.Fail? ==> after == subjects && reply == AttendanceStatus(subjects, subjectId)) &&
      (reply.Ok? ==> reply.value == enabled.GetOr(true) &&
                     AttendanceStatus(after, subjectId) == Ok(enabled.GetOr(true)) &&
                     |after| == |subjects| &&
                     (forall k :: 0 <= k < |subjects| && k != FindSubject(subjects, subjectId.value).value ==>
                        after[k] == subjects[k]) &&
                     (forall id :: id != subjectId.value ==>
                        AttendanceStatus(after, Some(id)) == AttendanceStatus(subjects, Some(id))))
  {
    var (reply, after) := EnableAttendanceResult(subjects, subjectId, enabled);
    if reply.Ok? {
      var i := FindSubject(subjects, subjectId.value).value;
      var j := FindSubject(after, subjectId.value);
      assert after[i].subjectId == subjectId.value;
      assert forall k :: 0 <= k < |after| ==> after[k].subjectId == subjects[k].subjectId;
      assert j.Some? && j.value <= i;
      forall id | id != subjectId.value
        ensures AttendanceStatus(after, Some(id)) == AttendanceStatus(subjects, Some(id))
      {
        var f := FindSubject(subjects, id);
        assert FindSubject(after, id) == f;
        if f.Some? {
          assert f.value != i;
        }
      }
    }
  }

  // ---------------------------------------------------------------------------
  // The database and the handlers that write to it

  class Database {
    var students: seq<Student>
    var teachers: seq<Teacher>
    var admins: seq<Admin>
    var subjects: seq<Subject>
    var attendance: seq<Record>

    constructor (students: seq<Student>, teachers: seq<Teacher>, admins: seq<Admin>,
                 subjects: seq<Subject>, attendance: seq<Record>)
      ensures this.students == students && this.teachers == teachers && this.admins == admins
      ensures this.subjects == subjects && this.attendance == attendance
    {
      this.students := students;
      this.teachers := teachers;
      this.admins := admins;
      this.subjects := subjects;
      this.attendance := attendance;
    }

    /** `mark_batch_attendance`: validate, then update or insert record by record. */
    method MarkBatchAttendance(req: BatchRequest, env: Oracles) returns (reply: Reply<seq<BatchEntry>>)
      modifies this`attendance
      ensures (reply, attendance) == MarkBatchResult(students, subjects, old(attendance), req, env)
    {
      var check := CheckBatchRequest(subjects, req, env);
      if check.Fail? {
        return Fail(check.code, check.error);
      }
      var (subject, day) := check.value;
      var records := req.attendances.items;
      ghost var final := MarkRecords(students, subject, day, req.markedBy, BatchState([], attendance), records);
      var results: seq<BatchEntry> := [];
      var i := 0;
      while i < |records|
        invariant 0 <= i <= |records|
        invariant MarkRecords(students, subject, day, req.markedBy, BatchState(results, attendance), records[i..]) == final
      {
        var record := records[i];
        assert records[i..][0] == record && records[i..][1..] == records[i + 1..];
        ghost var before := BatchState(results, attendance);
        if !Given(record.studentId) || !Given(record.status) {
          results := results + [BatchEntry(record.studentId, EntryError(IdAndStatusRequired))];
        } else if !ValidStatus(record.status.value) {
          results := results + [BatchEntry(record.studentId, EntryError(StatusMalformed))];
        } else {
          var found := FindStudent(students, record.studentId.value);
          if found.None? {
            results := results + [BatchEntry(record.studentId, EntryError(StudentNotFound))];
          } else {
            var row := NewRecord(students[found.value], subject, record.status.value, OnDay(day), req.markedBy);
            var existing := FindKey(attendance, KeyOf(row));
            if existing.Some? {
              var e := existing.value;
              attendance := attendance[e := attendance[e].(status := row.status, updatedBy := req.markedBy)];
              results := results + [BatchEntry(record.studentId, EntryMessage(AttendanceUpdated))];
            } else {
              attendance := attendance + [row];
              results := results + [BatchEntry(record.studentId, EntryMessage(AttendanceMarked))];
            }
          }
        }
        assert BatchState(results, attendance) == MarkRecord(students, subject, day, req.markedBy, before, record);
        i := i + 1;
      }
      reply := Ok(results);
    }

    /** `mark_attendance`: the checks, then update the key's record or insert one. */
    method MarkAttendance(req: MarkRequest, env: Oracles) returns (reply: Reply<string>)
      modifies this`attendance
      ensures (reply, attendance) == MarkAttendanceResult(students, subjects, old(attendance), req, env)
    {
      var check := CheckMarkRequest(students, subjects, req, env);
      if check.Fail? {
        return Fail(check.code, check.error);
      }
      var (student, subject, day) := check.value;
      var marker := Some(req.markedBy.GetOr(req.studentId.value));
      var row := NewRecord(student, subject, req.status.value, OnDay(day), marker);
      var existing := FindKey(attendance, KeyOf(row));
      if existing.Some? {
        var e := existing.value;
        attendance := attendance[e := attendance[e].(status := row.status, updatedBy := marker)];
        reply := Ok(AttendanceUpdated);
      } else {
        attendance := attendance + [row];
        reply := Ok(AttendanceMarked);
      }
    }

    /** `mark_all_absent`: refuse if the session is recorded, else build and insert the absent records. */
    method MarkAllAbsent(req: AbsentRequest, today: string) returns (reply: AbsentReply)
      modifies this`attendance
      ensures (reply, attendance) == MarkAllAbsentResult(students, subjects, old(attendance), req, today)
    {
      if !Given(req.subjectId) || !Given(req.teacherId) {
        return AbsentRejected(400, AbsentFieldsRequired);
      }
      var date := req.date.GetOr(today);
      if exists i :: 0 <= i < |attendance| && attendance[i].date == AsText(date) && attendance[i].subjectId == req.subjectId.value {
        return AlreadyMarked;
      }
      var found := FindSubject(subjects, req.subjectId.value);
      if found.None? {
        return AbsentRejected(400, AbsentSubjectInvalid);
      }
      var subject := subjects[found.value];
      var enrolled := CourseStudents(students, subject.course);
      var absentRecords: seq<Record> := [];
      var i := 0;
      while i < |enrolled|
        invariant 0 <= i <= |enrolled|
        invariant |absentRecords| == i
        invariant forall k :: 0 <= k < i ==>
          absentRecords[k] == NewRecord(enrolled[k], subject, "absent", AsText(date), Some(req.teacherId.value))
      {
        absentRecords := absentRecords + [NewRecord(enrolled[i], subject, "absent", AsText(date), Some(req.teacherId.value))];
        i := i + 1;
      }
      AbsentRecordsByElement(enrolled, subject, date, req.teacherId.value, absentRecords);
      if absentRecords != [] {
        attendance := attendance + absentRecords;
      } else {
        assert attendance + absentRecords == attendance;
      }
      reply := AbsentMarked(|absentRecords|, date, subject.name);
    }

    /** `mark_attendance_facial_batch`: the checks, then every face of every image in turn. */
    method MarkAttendanceFacialBatch(req: FacialRequest, env: Oracles) returns (reply: Reply<FacialOutcome>)
      modifies this`attendance
      ensures (reply, attendance) == FacialBatchResult(students, subjects, old(attendance), req, env)
    {
      var check := CheckFacialRequest(students, subjects, req, env);
      if check.Fail? {
        return Fail(check.code, check.error);
      }
      var ctx := check.value;
      var images := req.images.value;
      ghost var final := ScanImages(ctx, env, Scan({}, [], attendance), images);
      var results: seq<FacialResult> := [];
      var recognized: set<string> := {};
      var i := 0;
      while i < |images|
        invariant 0 <= i <= |images|
        invariant ScanImages(ctx, env, Scan(recognized, results, attendance), images[i..]) == final
      {
        assert images[i..][0] == images[i] && images[i..][1..] == images[i + 1..];
        var decoded := env.detect(images[i]);
        if decoded.Some? {
          var faces := decoded.value;
          ghost var goal := ScanFaces(ctx, env.matches, Scan(recognized, results, attendance), faces);
          var j := 0;
          while j < |faces|
            invariant 0 <= j <= |faces|
            invariant ScanFaces(ctx, env.matches, Scan(recognized, results, attendance), faces[j..]) == goal
          {
            assert faces[j..][0] == faces[j] && faces[j..][1..] == faces[j + 1..];
            ghost var before := Scan(recognized, results, attendance);
            var face := faces[j];
            var m := FirstMatch(ctx.known, face, env.matches);
            if m.Some? {
              var sid := ctx.known[m.value].studentId;
              if sid !in recognized {
                recognized := recognized + {sid};
                var found := FindStudent(ctx.registered, sid);
                if found.Some? {
                  var student := ctx.registered[found.value];
                  var marker := Some(ctx.teacherId);
                  var row := NewRecord(student, ctx.subject, "present", OnDay(ctx.day), marker);
                  var existing := FindKey(attendance, KeyOf(row));
                  if existing.Some? {
                    var e := existing.value;
                    attendance := attendance[e := attendance[e].(status := "present", updatedBy := marker)];
                  } else {
                    attendance := attendance + [row];
                  }
                  results := results + [FacialResult(sid, student.name, "present")];
                }
              }
            }
            assert Scan(recognized, results, attendance) == ScanFace(ctx, env.matches, before, face);
            j := j + 1;
          }
        }
        i := i + 1;
      }
      reply := Ok(FacialOutcome(|recognized|, results));
    }

    /** `enable_attendance`: writes the flag into the subject document. */
    method EnableAttendance(subjectId: Option<string>, enabled: Option<bool>) returns (reply: Reply<bool>)
      modifies this`subjects
      ensures (reply, subjects) == EnableAttendanceResult(old(subjects), subjectId, enabled)
    {
      if !Given(subjectId) {
        return Fail(400, SubjectIdRequired);
      }
      if !SubjectIdMatches(subjectId.value) {
        return Fail(400, SubjectIdInvalid);
      }
      var found := FindSubject(subjects, subjectId.value);
      if found.None? {
        return Fail(404, SubjectNotFound);
      }
      var flag := enabled.GetOr(true);
      subjects := subjects[found.value := subjects[found.value].(attendanceEnabled := Some(flag))];
      reply := Ok(flag);
    }
  }
}

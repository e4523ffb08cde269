/**
 * The teacher dashboard's live facial-attendance pipeline and its attendance
 * window controls (frontend/src/components/TeacherDashboard.jsx). Each React
 * handler is a method; an `async` handler is split at its `await`s into the
 * part that runs before and one method per way the awaited call can settle.
 * The browser's side (camera streams whose tracks are live, intervals not yet
 * cleared, start-ups still awaiting) is kept in ghost fields.
 */
module Dashboard {
  import opened Wrappers

  datatype Frame = Frame(dataUrl: string)

  /** A camera stream from `getUserMedia` and an interval from `setInterval`. */
  datatype Stream = Stream(id: nat)
  datatype Timer = Timer(id: nat)

  datatype Filters = Filters(course: string, classYear: string, division: string, subjectId: string, date: string)

  datatype SubjectInfo = SubjectInfo(subjectId: string, name: string, course: string, classYear: string)

  datatype StudentRow = StudentRow(studentId: string, name: string, status: string)

  /** The bodies the dashboard posts to `/api/mark_absent` and `/api/attendance/batch_facial`. */
  datatype MarkAbsentPayload = MarkAbsentPayload(subjectId: string, date: string, teacherId: string)
  datatype BatchPayload = BatchPayload(images: seq<Frame>, subjectId: string, date: string, teacherId: string)

  /**
   * What `markBatchFacialAttendanceAPI` resolves to: the server's JSON object or
   * the wrapper's `{error}` object; only its `message` is read.
   */
  datatype BatchReply = BatchReply(message: Option<string>)

  /**
   * What `checkAttendanceStatusAPI` resolves to: a JSON object, whose `enabled` is
   * undefined in an `{error}` object, or `null`, on which reading `enabled` throws.
   */
  datatype StatusReply = StatusObject(enabled: Option<bool>) | NullBody

  /** What a click on the start/stop button did. */
  datatype ToggleOutcome = Closed | Refused | Opened(markAbsent: Option<MarkAbsentPayload>)

  const BatchSize := 7
  const DefaultTeacherId := "T001"
  const DefaultCourse := "BSC IT"
  const CameraStarted := "Camera started."
  const CameraStopped := "Camera stopped."
  const BatchProcessed := "Batch processed"
  const BatchSendError := "Error sending batch."

  /**
   * `filteredFacialSubjects` and `filteredSubjects`: the teacher's subjects that
   * fit the chosen course and class year, an empty choice fitting every subject.
   */
  function FilterSubjects(subjects: seq<SubjectInfo>, f: Filters): (r: seq<SubjectInfo>)
    ensures forall s :: s in r <==>
      s in subjects && (f.course == "" || s.course == f.course) && (f.classYear == "" || s.classYear == f.classYear)
    ensures |r| <= |subjects|
    ensures f.course == "" && f.classYear == "" ==> r == subjects
  {
    if subjects == [] then []
    else
      var s := subjects[0];
      var rest := FilterSubjects(subjects[1..], f);
      if (f.course == "" || s.course == f.course) && (f.classYear == "" || s.classYear == f.classYear) then [s] + rest
      else rest
  }

  /** Filtering again by the same choice changes nothing. */
  lemma {:induction false} FilterSubjectsIdempotent(subjects: seq<SubjectInfo>, f: Filters)
    ensures FilterSubjects(FilterSubjects(subjects, f), f) == FilterSubjects(subjects, f)
  {
    if subjects != [] {
      FilterSubjectsIdempotent(subjects[1..], f);
    }
  }

  /** `response.message || "Batch processed"`: the line logged when a submission resolves. */
  function BatchMessage(reply: BatchReply): (m: string)
    ensures m != ""
    ensures reply.message.Some? && reply.message.value != "" ==> m == reply.message.value
    ensures reply.message.None? || reply.message.value == "" ==> m == BatchProcessed
  {
    if reply.message.Some? && reply.message.value != "" then reply.message.value else BatchProcessed
  }

  /** `handleStatusToggle`'s flip: "present" becomes "absent", anything else "present". */
  function Toggled(status: string): (r: string)
    ensures r == "present" <==> status != "present"
    ensures r == "present" || r == "absent"
  {
    if status == "present" then "absent" else "present"
  }

  /** On the two statuses the view table shows, toggling twice restores the row. */
  lemma ToggledTwice(status: string)
    requires status == "present" || status == "absent"
    ensures Toggled(Toggled(status)) == status
  {
  }

  /** JavaScript truthiness of `attendanceEnabled` (null and undefined are falsy). */
  function Truthy(b: Option<bool>): bool {
    b.Some? && b.value
  }

  function StreamSet(s: Option<Stream>): set<Stream> {
    if s.Some? then {s.value} else {}
  }

  function TimerSet(t: Option<Timer>): set<Timer> {
    if t.Some? then {t.value} else {}
  }

  class TeacherDashboard {
    /** `localStorage.getItem('userId') || 'T001'`. */
    const teacherId: string

    var facialFilters: Filters
    var viewFilters: Filters
    var teacherSubjects: seq<SubjectInfo>
    var modalOpen: bool
    var capturedImages: seq<Frame>
    var logs: seq<string>
    var sendingBatch: bool
    /** `videoRef.current.srcObject` while the modal's video element exists. */
    var videoSource: Option<Stream>
    /** `captureIntervalRef.current`. */
    var captureInterval: Option<Timer>
    var attendanceEnabled: Option<bool>
    var show: bool
    var studentList: seq<StudentRow>

    /** Camera streams whose tracks have not been stopped, and intervals not cleared. */
    ghost var liveStreams: set<Stream>
    ghost var runningTimers: set<Timer>
    /** `startCamera` calls suspended at `markAllStudentAbsent()` and at `getUserMedia`. */
    ghost var awaitingMarkAbsent: nat
    ghost var awaitingCamera: nat
    /** The batch of the submission in flight. */
    ghost var inFlight: Option<seq<Frame>>
    /** Every frame ever captured, and those removed by resolved submissions. */
    ghost var captured: seq<Frame>
    ghost var drained: seq<Frame>

    /**
     * The pipeline's invariant: at most one submission is in flight and its batch
     * is the queue's first seven frames; the queue is what has been captured and
     * not drained, in capture order; the handles the dashboard holds are live.
     */
    ghost predicate Valid()
      reads this
    {
      && (sendingBatch <==> inFlight.Some?)
      && (inFlight.Some? ==>
            |inFlight.value| == BatchSize && |capturedImages| >= BatchSize &&
            capturedImages[..BatchSize] == inFlight.value)
      && drained + capturedImages == captured
      && (!modalOpen ==> videoSource.None?)
      && (videoSource.Some? ==> videoSource.value in liveStreams)
      && (captureInterval.Some? ==> captureInterval.value in runningTimers)
    }

    /**
     * Every live stream is the one on the video element and every running
     * interval is the one in `captureIntervalRef`, so `stopCamera` can end them;
     * and nothing captures while the modal is closed.
     */
    ghost predicate NoLeak()
      reads this
    {
      && (forall s :: s in liveStreams ==> videoSource == Some(s))
      && (forall t :: t in runningTimers ==> captureInterval == Some(t))
      && (!modalOpen ==> captureInterval.None?)
    }

    /** The component's first render. */
    constructor (storedUserId: Option<string>, today: string)
      ensures Valid() && NoLeak()
      ensures teacherId == (if storedUserId.Some? && storedUserId.value != "" then storedUserId.value else DefaultTeacherId)
      ensures facialFilters == Filters(DefaultCourse, "", "", "", today) && viewFilters == facialFilters
      ensures teacherSubjects == [] && !modalOpen && capturedImages == [] && logs == [] && !sendingBatch
      ensures videoSource.None? && captureInterval.None? && attendanceEnabled.None? && !show && studentList == []
      ensures liveStreams == {} && runningTimers == {} && awaitingMarkAbsent == 0 && awaitingCamera == 0
    {
      teacherId := if storedUserId.Some? && storedUserId.value != "" then storedUserId.value else DefaultTeacherId;
      facialFilters := Filters(DefaultCourse, "", "", "", today);
      viewFilters := Filters(DefaultCourse, "", "", "", today);
      teacherSubjects := [];
      modalOpen := false;
      capturedImages := [];
      logs := [];
      sendingBatch := false;
      videoSource := None;
      captureInterval := None;
      attendanceEnabled := None;
      show := false;
      studentList := [];
      liveStreams := {};
      runningTimers := {};
      awaitingMarkAbsent := 0;
      awaitingCamera := 0;
      inFlight := None;
      captured := [];
      drained := [];
    }

    // -------------------------------------------------------------------------
    // Inputs the component takes from its form controls and its mount effect

    method SetFacialFilters(f: Filters)
      requires Valid()
      modifies this`facialFilters
      ensures Valid() && facialFilters == f
    {
      facialFilters := f;
    }

    method SetViewFilters(f: Filters)
      requires Valid()
      modifies this`viewFilters
      ensures Valid() && viewFilters == f
    {
      viewFilters := f;
    }

    /** `fetchSubjects` on mount: the subjects are kept unless the reply is an `{error}` object. */
    method SubjectsFetched(reply: Option<seq<SubjectInfo>>)
      requires Valid()
      modifies this`teacherSubjects
      ensures Valid() && teacherSubjects == (if reply.Some? then reply.value else old(teacherSubjects))
    {
      if reply.Some? {
        teacherSubjects := reply.value;
      }
    }

    function FilteredFacialSubjects(): (r: seq<SubjectInfo>)
      reads this
      ensures forall s :: s in r <==>
        s in teacherSubjects && (facialFilters.course == "" || s.course == facialFilters.course) &&
        (facialFilters.classYear == "" || s.classYear == facialFilters.classYear)
    {
      FilterSubjects(teacherSubjects, facialFilters)
    }

    function FilteredSubjects(): (r: seq<SubjectInfo>)
      reads this
      ensures forall s :: s in r <==>
        s in teacherSubjects && (viewFilters.course == "" || s.course == viewFilters.course) &&
        (viewFilters.classYear == "" || s.classYear == viewFilters.classYear)
    {
      FilterSubjects(teacherSubjects, viewFilters)
    }

    // -------------------------------------------------------------------------
    // Starting and stopping the camera

    /** The request `markAllStudentAbsent` sends: built from the view filters, not the facial ones. */
    function MarkAbsentRequest(): (r: Option<MarkAbsentPayload>)
      reads this
      ensures r.None? <==> viewFilters.subjectId == ""
      ensures r.Some? ==> r.value == MarkAbsentPayload(viewFilters.subjectId, viewFilters.date, teacherId)
    {
      if viewFilters.subjectId == "" then None
      else Some(MarkAbsentPayload(viewFilters.subjectId, viewFilters.date, teacherId))
    }

    predicate ReadyToCapture()
      reads this
    {
      facialFilters.course != "" && facialFilters.classYear != "" && facialFilters.subjectId != ""
    }

    /**
     * `stopCamera`: stop the video's stream and clear the interval, whichever
     * exist, then log; the frame queue is left alone.
     */
    method StopCamera()
      requires Valid()
      modifies this`videoSource, this`captureInterval, this`logs, this`liveStreams, this`runningTimers
      ensures Valid()
      ensures videoSource.None? && captureInterval.None?
      ensures liveStreams == old(liveStreams) - StreamSet(old(videoSource))
      ensures runningTimers == old(runningTimers) - TimerSet(old(captureInterval))
      ensures logs == old(logs) + [CameraStopped]
      ensures old(NoLeak()) ==> liveStreams == {} && runningTimers == {}
      ensures old(NoLeak()) ==> NoLeak()
    {
      if videoSource.Some? {
        liveStreams := liveStreams - {videoSource.value};
        videoSource := None;
      }
      if captureInterval.Some? {
        runningTimers := runningTimers - {captureInterval.value};
        captureInterval := None;
      }
      logs := logs + [CameraStopped];
    }

    /**
     * `toggleModal`: when open, stop the camera and close; when closed, refuse
     * unless course, class year and subject are chosen, else start the camera
     * (which runs up to `markAllStudentAbsent`'s request) and open.
     */
    method ToggleModal() returns (outcome: ToggleOutcome)
      requires Valid()
      modifies this`modalOpen, this`videoSource, this`captureInterval, this`logs,
               this`liveStreams, this`runningTimers, this`awaitingMarkAbsent
      ensures Valid()
      ensures capturedImages == old(capturedImages) && sendingBatch == old(sendingBatch)
      ensures old(modalOpen) ==>
        outcome == Closed && !modalOpen && videoSource.None? && captureInterval.None? &&
        liveStreams == old(liveStreams) - StreamSet(old(videoSource)) &&
        runningTimers == old(runningTimers) - TimerSet(old(captureInterval)) &&
        logs == old(logs) + [CameraStopped] && awaitingMarkAbsent == old(awaitingMarkAbsent)
      ensures !old(modalOpen) && !ReadyToCapture() ==>
        outcome == Refused && !modalOpen && logs == old(logs) && awaitingMarkAbsent == old(awaitingMarkAbsent) &&
        videoSource == old(videoSource) && captureInterval == old(captureInterval) &&
        liveStreams == old(liveStreams) && runningTimers == old(runningTimers)
      ensures !old(modalOpen) && ReadyToCapture() ==>
        outcome == Opened(MarkAbsentRequest()) && modalOpen && awaitingMarkAbsent == old(awaitingMarkAbsent) + 1 &&
        logs == old(logs) && videoSource == old(videoSource) && captureInterval == old(captureInterval) &&
        liveStreams == old(liveStreams) && runningTimers == old(runningTimers)
      ensures old(NoLeak()) ==> NoLeak()
    {
      if modalOpen {
        StopCamera();
        modalOpen := false;
        return Closed;
      }
      if !ReadyToCapture() {
        return Refused;
      }
      awaitingMarkAbsent := awaitingMarkAbsent + 1;
      outcome := Opened(MarkAbsentRequest());
      modalOpen := true;
    }

    /**
     * `await markAllStudentAbsent()` settles. Its own try/catch absorbs every
     * failure and a missing subject only shows a toast, so the start-up goes on
     * to ask for the camera in every case.
     */
    method MarkAbsentSettled()
      requires Valid() && awaitingMarkAbsent > 0
      modifies this`awaitingMarkAbsent, this`awaitingCamera
      ensures Valid()
      ensures awaitingMarkAbsent == old(awaitingMarkAbsent) - 1 && awaitingCamera == old(awaitingCamera) + 1
      ensures old(NoLeak()) ==> NoLeak()
    {
      awaitingMarkAbsent := awaitingMarkAbsent - 1;
      awaitingCamera := awaitingCamera + 1;
    }

    /**
     * `getUserMedia` resolves: the stream goes on the video element if the modal
     * is open, "Camera started." is logged and the 1500 ms interval is set, in
     * every case.
     */
    method CameraAcquired(stream: Stream, timer: Timer)
      requires Valid() && awaitingCamera > 0
      requires stream !in liveStreams && timer !in runningTimers
      modifies this`videoSource, this`captureInterval, this`logs, this`liveStreams, this`runningTimers, this`awaitingCamera
      ensures Valid()
      ensures awaitingCamera == old(awaitingCamera) - 1
      ensures liveStreams == old(liveStreams) + {stream} && runningTimers == old(runningTimers) + {timer}
      ensures videoSource == (if modalOpen then Some(stream) else old(videoSource))
      ensures captureInterval == Some(timer) && logs == old(logs) + [CameraStarted]
    {
      awaitingCamera := awaitingCamera - 1;
      liveStreams := liveStreams + {stream};
      if modalOpen {
        videoSource := Some(stream);
      }
      logs := logs + [CameraStarted];
      runningTimers := runningTimers + {timer};
      captureInterval := Some(timer);
    }

    /**
     * `getUserMedia` resolves, with the check the start-up evidently needs: a
     * stream that arrives after the modal was closed, or while another capture
     * session already runs, is stopped at once and no interval is set.
     */
    method CameraAcquiredChecked(stream: Stream, timer: Timer)
      requires Valid() && awaitingCamera > 0
      requires stream !in liveStreams && timer !in runningTimers
      modifies this`videoSource, this`captureInterval, this`logs, this`liveStreams, this`runningTimers, this`awaitingCamera
      ensures Valid()
      ensures awaitingCamera == old(awaitingCamera) - 1
      ensures !modalOpen || old(captureInterval).Some? || old(videoSource).Some? ==>
        liveStreams == old(liveStreams) && runningTimers == old(runningTimers) &&
        videoSource == old(videoSource) && captureInterval == old(captureInterval) && logs == old(logs)
      ensures modalOpen && old(captureInterval).None? && old(videoSource).None? ==>
        liveStreams == old(liveStreams) + {stream} && runningTimers == old(runningTimers) + {timer} &&
        videoSource == Some(stream) && captureInterval == Some(timer) && logs == old(logs) + [CameraStarted]
      ensures old(NoLeak()) ==> NoLeak()
    {
      awaitingCamera := awaitingCamera - 1;
      if !modalOpen || captureInterval.Some? || videoSource.Some? {
        return;
      }
      liveStreams := liveStreams + {stream};
      videoSource := Some(stream);
      logs := logs + [CameraStarted];
      runningTimers := runningTimers + {timer};
      captureInterval := Some(timer);
    }

    /** `getUserMedia` rejects: a toast only; no interval and no log line. */
    method CameraDenied()
      requires Valid() && awaitingCamera > 0
      modifies this`awaitingCamera
      ensures Valid() && awaitingCamera == old(awaitingCamera) - 1
      ensures old(NoLeak()) ==> NoLeak()
    {
      awaitingCamera := awaitingCamera - 1;
    }

    /**
     * A running interval fires `captureImage`: while the modal (and so its video
     * and canvas) is shown, the frame is appended at the tail; otherwise nothing.
     */
    method CaptureTick(timer: Timer, frame: Frame)
      requires Valid() && timer in runningTimers
      modifies this`capturedImages, this`captured
      ensures Valid()
      ensures capturedImages == (if modalOpen then old(capturedImages) + [frame] else old(capturedImages))
      ensures old(NoLeak()) ==> NoLeak()
    {
      if modalOpen {
        capturedImages := capturedImages + [frame];
        captured := captured + [frame];
      }
    }

    // -------------------------------------------------------------------------
    // Submitting batches

    /**
     * `sendBatchImages` up to its `await`: nothing happens while a submission is
     * in flight or fewer than seven frames are queued; otherwise the seven oldest
     * frames are posted, in capture order, and `sendingBatch` is set.
     */
    method SendBatchImages() returns (payload: Option<BatchPayload>)
      requires Valid()
      modifies this`sendingBatch, this`inFlight
      ensures Valid()
      ensures old(sendingBatch) || |capturedImages| < BatchSize ==>
        payload.None? && sendingBatch == old(sendingBatch) && inFlight == old(inFlight)
      ensures !old(sendingBatch) && |capturedImages| >= BatchSize ==>
        sendingBatch && inFlight == Some(capturedImages[..BatchSize]) &&
        payload == Some(BatchPayload(capturedImages[..BatchSize], facialFilters.subjectId, facialFilters.date, teacherId))
      ensures old(NoLeak()) ==> NoLeak()
    {
      if sendingBatch || |capturedImages| < BatchSize {
        return None;
      }
      sendingBatch := true;
      var batch := capturedImages[..BatchSize];
      inFlight := Some(batch);
      payload := Some(BatchPayload(batch, facialFilters.subjectId, facialFilters.date, teacherId));
    }

    /** The effect on `[capturedImages, sendingBatch]`: it dispatches exactly when the gate is open. */
    method BatchEffect() returns (payload: Option<BatchPayload>)
      requires Valid()
      modifies this`sendingBatch, this`inFlight
      ensures Valid()
      ensures payload.Some? <==> !old(sendingBatch) && |capturedImages| >= BatchSize
      ensures payload.Some? ==> payload.value.images == capturedImages[..BatchSize] && sendingBatch
      ensures payload.None? ==> sendingBatch == old(sendingBatch) && inFlight == old(inFlight)
    {
      payload := None;
      if !sendingBatch && |capturedImages| >= BatchSize {
        payload := SendBatchImages();
      }
    }

    /**
     * The submission resolves, with the server's reply or the wrapper's `{error}`
     * object alike: the seven submitted frames leave the queue, the rest keep
     * their order, the message (or "Batch processed") is logged and `finally`
     * clears `sendingBatch`.
     */
    method SubmitResolved(reply: BatchReply)
      requires Valid() && sendingBatch
      modifies this`capturedImages, this`logs, this`sendingBatch, this`inFlight, this`drained
      ensures Valid() && !sendingBatch
      ensures capturedImages == old(capturedImages)[BatchSize..]
      ensures old(capturedImages) == old(inFlight).value + capturedImages
      ensures drained == old(drained) + old(inFlight).value
      ensures logs == old(logs) + [BatchMessage(reply)]
    {
      logs := logs + [BatchMessage(reply)];
      drained := drained + capturedImages[..BatchSize];
      assert capturedImages == capturedImages[..BatchSize] + capturedImages[BatchSize..];
      capturedImages := capturedImages[BatchSize..];
      sendingBatch := false;
      inFlight := None;
    }

    /** The submission throws (a `null` reply body): queue kept, one error line logged. */
    method SubmitThrew()
      requires Valid() && sendingBatch
      modifies this`logs, this`sendingBatch, this`inFlight
      ensures Valid() && !sendingBatch
      ensures capturedImages == old(capturedImages)
      ensures logs == old(logs) + [BatchSendError]
    {
      logs := logs + [BatchSendError];
      sendingBatch := false;
      inFlight := None;
    }

    // -------------------------------------------------------------------------
    // The attendance view and the attendance window

    /**
     * `handleFetchAttendance`: needs course, class year, division and subject;
     * the rows replace the list unless the reply is an `{error}` object.
     */
    method FetchAttendance(reply: Option<seq<StudentRow>>) returns (request: Option<Filters>)
      requires Valid()
      modifies this`studentList
      ensures Valid()
      ensures var ready := viewFilters.course != "" && viewFilters.classYear != "" &&
                           viewFilters.division != "" && viewFilters.subjectId != "";
        (request.Some? <==> ready) && (ready ==> request == Some(viewFilters)) &&
        studentList == (if ready && reply.Some? then reply.value else old(studentList))
    {
      if viewFilters.course == "" || viewFilters.classYear == "" || viewFilters.division == "" || viewFilters.subjectId == "" {
        return None;
      }
      request := Some(viewFilters);
      if reply.Some? {
        studentList := reply.value;
      }
    }

    /** `handleStatusToggle`: flip one row's status, every other row unchanged. */
    method HandleStatusToggle(index: nat)
      requires Valid() && index < |studentList|
      modifies this`studentList
      ensures Valid() && |studentList| == |old(studentList)|
      ensures studentList[index] == old(studentList)[index].(status := Toggled(old(studentList)[index].status))
      ensures forall k :: 0 <= k < |studentList| && k != index ==> studentList[k] == old(studentList)[k]
    {
      var row := studentList[index];
      studentList := studentList[index := row.(status := Toggled(row.status))];
    }

    /**
     * `handleCheckAttendanceStatus`: with no subject chosen nothing changes;
     * otherwise the reply's `enabled` (undefined in an `{error}` object) is shown
     * and the toggle button appears, unless reading it throws on a `null` body,
     * when the `catch` only raises a toast.
     */
    method CheckAttendanceStatus(reply: StatusReply) returns (request: Option<string>)
      requires Valid()
      modifies this`attendanceEnabled, this`show
      ensures Valid()
      ensures viewFilters.subjectId == "" ==>
        request.None? && attendanceEnabled == old(attendanceEnabled) && show == old(show)
      ensures viewFilters.subjectId != "" ==> request == Some(viewFilters.subjectId)
      ensures viewFilters.subjectId != "" && reply.StatusObject? ==> attendanceEnabled == reply.enabled && show
      ensures reply.NullBody? ==> attendanceEnabled == old(attendanceEnabled) && show == old(show)
    {
      if viewFilters.subjectId == "" {
        return None;
      }
      request := Some(viewFilters.subjectId);
      if reply.StatusObject? {
        attendanceEnabled := reply.enabled;
        show := true;
      }
    }

    /**
     * `handleToggleAttendanceStatus`: with no subject chosen nothing changes;
     * otherwise it posts the negation of the flag it shows and then shows that
     * negation, whatever the server answers.
     */
    method ToggleAttendanceStatus() returns (request: Option<(string, bool)>)
      requires Valid()
      modifies this`attendanceEnabled
      ensures Valid()
      ensures viewFilters.subjectId == "" ==> request.None? && attendanceEnabled == old(attendanceEnabled)
      ensures viewFilters.subjectId != "" ==>
        request == Some((viewFilters.subjectId, !Truthy(old(attendanceEnabled)))) &&
        attendanceEnabled == Some(!Truthy(old(attendanceEnabled)))
    {
      if viewFilters.subjectId == "" {
        return None;
      }
      var newStatus := !Truthy(attendanceEnabled);
      request := Some((viewFilters.subjectId, newStatus));
      attendanceEnabled := Some(newStatus);
    }
  }

  // ---------------------------------------------------------------------------
  // Closing the modal while the camera is still starting

  /**
   * Open the modal, let `markAllStudentAbsent` settle, close the modal, and only
   * then let `getUserMedia` resolve: as written, the stream stays live and the
   * interval keeps running with the modal closed. The stream was never attached
   * to the video, so no later `stopCamera` can stop it; the interval is still
   * held and runs until the next `stopCamera`, unless another start-up
   * overwrites the handle first.
   */
  method CloseWhileCameraStarts() returns (d: TeacherDashboard)
    ensures d.Valid() && !d.modalOpen
    ensures Stream(0) in d.liveStreams && d.videoSource.None?
    ensures d.captureInterval == Some(Timer(0)) && Timer(0) in d.runningTimers
    ensures !d.NoLeak()
  {
    d := new TeacherDashboard(Some("T007"), "2024-07-01");
    d.SetFacialFilters(Filters(DefaultCourse, "FY", "A", "B001", "2024-07-01"));
    var first := d.ToggleModal();
    d.MarkAbsentSettled();
    var second := d.ToggleModal();
    d.CameraAcquired(Stream(0), Timer(0));
  }

  /** The same events with the checked start-up leave nothing running. */
  method CloseWhileCameraStartsChecked() returns (d: TeacherDashboard)
    ensures d.Valid() && !d.modalOpen && d.NoLeak()
    ensures d.liveStreams == {} && d.runningTimers == {} && d.captureInterval.None?
  {
    d := new TeacherDashboard(Some("T007"), "2024-07-01");
    d.SetFacialFilters(Filters(DefaultCourse, "FY", "A", "B001", "2024-07-01"));
    var first := d.ToggleModal();
    d.MarkAbsentSettled();
    var second := d.ToggleModal();
    d.CameraAcquiredChecked(Stream(0), Timer(0));
  }
}

/** The controller behind the extraction endpoints: a request to extract the
    references of a document, and a query for the state of an extraction
    task. The data store's latest extraction, the URL validator, the task
    queue and the task states are parameters; the HTTP layer turns the
    returned body, status and `Location` header into a response. */
module Extraction {
  import opened Base
  import opened Tables
  import opened Json
  import opened Externals

  const StatusOk := 200
  const StatusAccepted := 202
  const StatusSeeOther := 303
  const StatusBadRequest := 400
  const StatusNotFound := 404

  const DocumentIdMissing: Table<Value> := [("reason", Str("document_id missing in request"))]
  const FileMissingOrInvalid: Table<Value> := [("reason", Str("file not found or invalid"))]
  const Accepted: Table<Value> := [("reason", Str("reference extraction in process"))]
  const AlreadyExists: Table<Value> := [("reason", Str("extraction already exists"))]
  const TaskDoesNotExist: Table<Value> := [("reason", Str("task not found"))]
  const TaskInProgress: Table<Value> := [("status", Str("in progress"))]
  const TaskFailed: Table<Value> := [("status", Str("failed"))]
  const TaskComplete: Table<Value> := [("status", Str("complete"))]

  /** Where a `Location` header points: the references of a document, or
      the status of a task. */
  datatype Location = ReferencesOf(documentId: Value) | TaskStatusOf(taskId: string)

  /** The `(body, status, headers)` triple; `location` is the one header. */
  datatype Response<B> = Response(body: B, status: int, location: Option<Location>)

  /** A task queued by `process_document.delay(document_id, pdf_url)`. */
  datatype Job = Job(documentId: string, url: Value)

  /** `latest.get('version') >= current_version`: numbers compare, anything
      else (a missing version included) raises TypeError. */
  function VersionAtLeast(version: Value, current: real): (r: Result<bool>)
    ensures r.Err? <==> !(version.Int? || version.Real? || version.Bool?)
    ensures r.Err? ==> r.error == TypeError
    ensures version.Real? ==> r == Ok(version.r >= current)
  {
    match version
    case Int(i) => Ok(i as real >= current)
    case Real(x) => Ok(x >= current)
    case Bool(b) => Ok((if b then 1.0 else 0.0) >= current)
    case _ => Err(TypeError)
  }

  /** `extract`: `latest` is what the data store holds for a document id,
      `taskId` the id the queue gives the new task. It returns the response
      and the tasks it queued. A missing or non-string document id, then a
      missing or invalid URL, gives 400 and queues nothing; an extraction at
      or beyond the current version gives 303 to the document's references
      and queues nothing; otherwise exactly one task is queued, for this
      document and URL, and 202 points at its status. */
  function Extract(env: Env, payload: Table<Value>, currentVersion: real,
                   latest: string -> Option<Table<Value>>, taskId: string)
    : (r: Result<(Response<Table<Value>>, seq<Job>)>)
    ensures !DictGet(payload, "document_id").Str? ==>
      r == Ok((Response(DocumentIdMissing, StatusBadRequest, None), []))
    ensures (DictGet(payload, "document_id").Str?
             && (DictGet(payload, "url") == Null || !env.isValidUrl(DictGet(payload, "url")))) ==>
      r == Ok((Response(FileMissingOrInvalid, StatusBadRequest, None), []))
    ensures r.Err? ==> r.error == TypeError
    ensures r.Ok? ==> |r.value.1| <= 1 && (|r.value.1| == 1 <==> r.value.0.status == StatusAccepted)
    ensures r.Ok? && r.value.0.status == StatusSeeOther ==>
      var id := DictGet(payload, "document_id").s;
      latest(id).Some? && VersionAtLeast(DictGet(latest(id).value, "version"), currentVersion) == Ok(true)
      && r.value.0 == Response(AlreadyExists, StatusSeeOther, Some(ReferencesOf(Str(id))))
    ensures r.Ok? && r.value.0.status == StatusAccepted ==>
      var id := DictGet(payload, "document_id").s;
      (latest(id).None? || VersionAtLeast(DictGet(latest(id).value, "version"), currentVersion) == Ok(false))
      && r.value.1 == [Job(id, DictGet(payload, "url"))]
      && r.value.0 == Response(Accepted, StatusAccepted, Some(TaskStatusOf(taskId)))
  {
    var documentId := DictGet(payload, "document_id");
    if !documentId.Str? then Ok((Response(DocumentIdMissing, StatusBadRequest, None), []))
    else
      var pdfUrl := DictGet(payload, "url");
      if pdfUrl == Null || !env.isValidUrl(pdfUrl) then
        Ok((Response(FileMissingOrInvalid, StatusBadRequest, None), []))
      else
        var queued := Ok((Response(Accepted, StatusAccepted, Some(TaskStatusOf(taskId))),
                          [Job(documentId.s, pdfUrl)]));
        match latest(documentId.s)
        case None => queued
        case Some(extraction) =>
          match VersionAtLeast(DictGet(extraction, "version"), currentVersion)
          case Err(e) => Err(e)
          case Ok(true) => Ok((Response(AlreadyExists, StatusSeeOther, Some(ReferencesOf(documentId))), []))
          case Ok(false) => queued
  }

  /** Every outcome of `extract` is one of its four answers: 400, 303, 202,
      or the TypeError of comparing a version that is not a number. */
  lemma ExtractOutcomes(env: Env, payload: Table<Value>, currentVersion: real,
                        latest: string -> Option<Table<Value>>, taskId: string)
    ensures var r := Extract(env, payload, currentVersion, latest, taskId);
      r.Ok? ==> r.value.0.status in {StatusBadRequest, StatusSeeOther, StatusAccepted}
    ensures var r := Extract(env, payload, currentVersion, latest, taskId);
      r.Err? <==> (DictGet(payload, "document_id").Str? && DictGet(payload, "url") != Null
                   && env.isValidUrl(DictGet(payload, "url"))
                   && latest(DictGet(payload, "document_id").s).Some?
                   && VersionAtLeast(DictGet(latest(DictGet(payload, "document_id").s).value, "version"),
                                     currentVersion).Err?)
  {
  }

  /** What `AsyncResult(task_id)` reports: the state name, the task's return
      value, and `str()` of it (the message, when the task raised). */
  datatype TaskState = TaskState(status: string, result: Value, resultText: string)

  /** `type(v)` as `%s` prints it. */
  function TypeName(v: Value): string
  {
    match v
    case Null => "<class 'NoneType'>"
    case Bool(_) => "<class 'bool'>"
    case Int(_) => "<class 'int'>"
    case Real(_) => "<class 'float'>"
    case Str(_) => "<class 'str'>"
    case List(_) => "<class 'list'>"
    case Dict(_) => "<class 'dict'>"
    case Obj(cls, _) => "<class '" + cls + "'>"
  }

  /** The body of a failed task's answer: the state and the failure. */
  function FailedWith(reason: string): Table<Value>
  {
    [("status", Str("failed")), ("reason", Str(reason))]
  }

  /** The states a task can report that mean it is still running. */
  predicate InProgress(status: string)
  {
    status == "SENT" || status == "STARTED" || status == "RETRY"
  }

  /** `status` with a fresh body for each failure. A non-string task id
      raises ValueError. Otherwise: PENDING gives 404; SENT, STARTED and
      RETRY give 200 "in progress"; FAILURE gives 200 with the failure as
      the reason; SUCCESS gives 303 to the references of the document the
      task returned (a return value that is not a dict raises
      AttributeError); any other state gives 404. */
  function Status(taskId: Value, lookup: string -> TaskState): (r: Result<Response<Table<Value>>>)
    ensures !taskId.Str? ==> r.Err? && r.error.ValueError?
    ensures taskId.Str? && lookup(taskId.s).status == "PENDING" ==>
      r == Ok(Response(TaskDoesNotExist, StatusNotFound, None))
    ensures taskId.Str? && InProgress(lookup(taskId.s).status) ==>
      r == Ok(Response(TaskInProgress, StatusOk, None))
    ensures taskId.Str? && lookup(taskId.s).status == "FAILURE" ==>
      r == Ok(Response(FailedWith(lookup(taskId.s).resultText), StatusOk, None))
    ensures taskId.Str? && lookup(taskId.s).status == "SUCCESS" ==>
      (r.Ok? <==> lookup(taskId.s).result.Dict?)
      && (r.Ok? ==> r.value == Response(TaskComplete, StatusSeeOther,
                      Some(ReferencesOf(DictGet(lookup(taskId.s).result.entries, "document_id")))))
    ensures (taskId.Str? && !(lookup(taskId.s).status in {"PENDING", "FAILURE", "SUCCESS"})
             && !InProgress(lookup(taskId.s).status)) ==>
      r == Ok(Response(TaskDoesNotExist, StatusNotFound, None))
  {
    if !taskId.Str? then Err(ValueError("task_id must be string, not " + TypeName(taskId)))
    else
      var task := lookup(taskId.s);
      if task.status == "PENDING" then Ok(Response(TaskDoesNotExist, StatusNotFound, None))
      else if InProgress(task.status) then Ok(Response(TaskInProgress, StatusOk, None))
      else if task.status == "FAILURE" then Ok(Response(FailedWith(task.resultText), StatusOk, None))
      else if task.status == "SUCCESS" then
        match task.result
        case Dict(entries) =>
          Ok(Response(TaskComplete, StatusSeeOther, Some(ReferencesOf(DictGet(entries, "document_id")))))
        case _ => Err(AttributeError)
      else Ok(Response(TaskDoesNotExist, StatusNotFound, None))
  }

  /** A body as written: a dict of its own, or the module-level `TASK_FAILED`
      dict itself, whose contents are read only when the body is sent. */
  datatype Body = Own(entries: Table<Value>) | SharedTaskFailed

  /** The contents of a body, given the current `TASK_FAILED`. */
  function Render(body: Body, taskFailed: Table<Value>): Table<Value>
  {
    match body
    case Own(entries) => entries
    case SharedTaskFailed => taskFailed
  }

  /** `status` as written: the FAILURE branch updates the module-level
      `TASK_FAILED` dict in place and answers with that very dict. It takes
      and returns the dict's contents. */
  function StatusAsWritten(taskId: Value, lookup: string -> TaskState, taskFailed: Table<Value>)
    : (r: (Result<Response<Body>>, Table<Value>))
    ensures taskId.Str? && lookup(taskId.s).status == "FAILURE" ==>
      r.0 == Ok(Response(SharedTaskFailed, StatusOk, None))
      && r.1 == Set(taskFailed, "reason", Str(lookup(taskId.s).resultText))
    ensures !(taskId.Str? && lookup(taskId.s).status == "FAILURE") ==> r.1 == taskFailed
  {
    if taskId.Str? && lookup(taskId.s).status == "FAILURE" then
      (Ok(Response(SharedTaskFailed, StatusOk, None)),
       Set(taskFailed, "reason", Str(lookup(taskId.s).resultText)))
    else
      var r := Status(taskId, lookup);
      (if r.Ok? then Ok(Response(Own(r.value.body), r.value.status, r.value.location)) else Err(r.error),
       taskFailed)
  }

  /** The contents `TASK_FAILED` can hold: as loaded, or after some failure. */
  predicate Reachable(taskFailed: Table<Value>)
  {
    taskFailed == TaskFailed
    || (|taskFailed| == 2 && taskFailed[0] == TaskFailed[0] && taskFailed[1].0 == "reason" && taskFailed[1].1.Str?)
  }

  /** Updating the reason of a reachable `TASK_FAILED` leaves exactly the
      body of that failure. */
  lemma SetReason(taskFailed: Table<Value>, reason: string)
    requires Reachable(taskFailed)
    ensures Set(taskFailed, "reason", Str(reason)) == FailedWith(reason)
  {
    if taskFailed != TaskFailed {
      assert taskFailed == FailedWith(taskFailed[1].1.s);
      assert taskFailed[1..] == [("reason", Str(taskFailed[1].1.s))];
    }
  }

  /** Sent at once, the written `status` says what the fresh-body version
      says, and `TASK_FAILED` stays reachable. */
  lemma StatusAgrees(taskId: Value, lookup: string -> TaskState, taskFailed: Table<Value>)
    requires Reachable(taskFailed)
    ensures var (r, after) := StatusAsWritten(taskId, lookup, taskFailed);
      Reachable(after)
      && (r.Ok? <==> Status(taskId, lookup).Ok?)
      && (r.Err? ==> r.error == Status(taskId, lookup).error)
      && (r.Ok? ==> Response(Render(r.value.body, after), r.value.status, r.value.location)
                    == Status(taskId, lookup).value)
  {
    if taskId.Str? && lookup(taskId.s).status == "FAILURE" {
      SetReason(taskFailed, lookup(taskId.s).resultText);
    }
  }

  /** The in-place update leaks: after one failure `TASK_FAILED` no longer
      reads `{'status': 'failed'}`, and a body handed out for that failure
      and sent after a second failure carries the second failure's reason.
      The fresh-body version keeps the first reason. */
  lemma FailureLeaks(first: string, second: string, lookup: string -> TaskState)
    requires lookup(first).status == "FAILURE" && lookup(second).status == "FAILURE"
    requires lookup(first).resultText != lookup(second).resultText
    ensures var (r1, after1) := StatusAsWritten(Str(first), lookup, TaskFailed);
      var (r2, after2) := StatusAsWritten(Str(second), lookup, after1);
      after1 != TaskFailed
      && r1.Ok? && Render(r1.value.body, after2) == FailedWith(lookup(second).resultText)
      && Status(Str(first), lookup).value.body == FailedWith(lookup(first).resultText)
      && FailedWith(lookup(first).resultText) != FailedWith(lookup(second).resultText)
  {
    var m1 := lookup(first).resultText;
    var m2 := lookup(second).resultText;
    SetReason(TaskFailed, m1);
    SetReason(FailedWith(m1), m2);
    assert FailedWith(m1)[1].1 != FailedWith(m2)[1].1;
  }
}

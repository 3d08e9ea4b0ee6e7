/**
 * The job REST handlers of backend/src/api/jobs.ts: `POST /jobs` validates
 * the body and creates a Pending job; `GET /jobs/:id` looks one up. The
 * request body arrives already parsed; a field the body lacks is None.
 */
module JobsApi {
  import opened Wrappers
  import opened Types
  import opened Store

  datatype PostBody = PostBody(jobType: Option<Value>, payload: Option<Value>)

  datatype ResponseBody = JobBody(job: Job) | ErrorBody(error: string)

  datatype Response = Response(status: int, body: ResponseBody)

  /** `Object.values(JobType).includes(type)` for the enum's string values (common/src/types/job.ts:8-11). */
  function ParseJobType(v: Option<Value>): (r: Option<JobType>)
    ensures r == Some(FileUpload) <==> v == Some(Str("file_upload"))
    ensures r == Some(ChatMessage) <==> v == Some(Str("chat_message"))
  {
    match v
    case Some(Str(s)) =>
      if s == "file_upload" then Some(FileUpload)
      else if s == "chat_message" then Some(ChatMessage)
      else None
    case _ => None
  }

  /**
   * JavaScript truthiness; a missing field is undefined. The falsy values
   * are undefined, null, false, 0 and the empty string.
   */
  function Truthy(v: Option<Value>): (b: bool)
    ensures !b <==> v == None || v == Some(Null) || v == Some(Bool(false)) || v == Some(Num(0)) || v == Some(Str(""))
  {
    match v
    case None => false
    case Some(Null) => false
    case Some(Bool(b)) => b
    case Some(Num(n)) => n != 0
    case Some(Str(s)) => s != ""
    case Some(Arr(_)) => true
    case Some(Obj(_)) => true
  }

  /**
   * The decision of `POST /jobs` (jobs.ts:8-30): the type is checked first,
   * then the payload; on success the new job. `!type` needs no separate
   * test, as a falsy type is never one of the enum strings.
   */
  function DecidePost(body: PostBody, id: string, now: int): (r: Result<Job, Response>)
    ensures ParseJobType(body.jobType).None? ==>
      r == Failure(Response(400, ErrorBody("Invalid job type")))
    ensures ParseJobType(body.jobType).Some? && !Truthy(body.payload) ==>
      r == Failure(Response(400, ErrorBody("Payload is required")))
    ensures r.Success? <==> ParseJobType(body.jobType).Some? && Truthy(body.payload)
    ensures r.Success? ==>
      && r.value.id == id && r.value.status == Pending
      && Some(r.value.jobType) == ParseJobType(body.jobType)
      && Some(r.value.payload) == body.payload
      && r.value.createdAt == now && r.value.updatedAt == now
      && r.value.result == None
  {
    match ParseJobType(body.jobType)
    case None => Failure(Response(400, ErrorBody("Invalid job type")))
    case Some(t) =>
      if !Truthy(body.payload) then Failure(Response(400, ErrorBody("Payload is required")))
      else Success(Job(id, Pending, t, body.payload.value, None, now, now))
  }

  /** A job the POST handler creates is Pending without a result, so storing it keeps the job invariant. */
  lemma PostResultsConsistent(s: StoreState, body: PostBody, id: string, now: int)
    requires ResultsConsistent(s)
    requires DecidePost(body, id, now).Success?
    ensures ResultsConsistent(PutJob(s, DecidePost(body, id, now).value))
  {
  }

  /**
   * A created job is stored under its id and found by a later lookup; with
   * a fresh id it adds exactly one entry, at the end of listJobs, and the
   * other jobs and all messages are untouched.
   */
  lemma CreatedJobIsStored(s: StoreState, body: PostBody, id: string, now: int)
    requires ValidState(s)
    requires DecidePost(body, id, now).Success?
    ensures var job := DecidePost(body, id, now).value;
      var r := PutJob(s, job);
      && ValidState(r)
      && id in r.jobs.entries && r.jobs.entries[id] == job
      && (id !in s.jobs.entries ==> |r.jobs.order| == |s.jobs.order| + 1 && Values(r.jobs) == Values(s.jobs) + [job])
      && r.messages == s.messages
  {
    SetValues(s.jobs, id, DecidePost(body, id, now).value);
  }

  /** `POST /jobs`; `freshId` is what uuidv4() returns and `now` what new Date() reads. */
  method PostJob(store: InMemoryStore, body: PostBody, freshId: string, now: int) returns (resp: Response)
    requires store.Valid()
    modifies store
    ensures store.Valid()
    ensures DecidePost(body, freshId, now).Failure? ==>
      resp == DecidePost(body, freshId, now).error && store.State() == old(store.State())
    ensures DecidePost(body, freshId, now).Success? ==>
      var job := DecidePost(body, freshId, now).value;
      resp == Response(201, JobBody(job)) && store.State() == PutJob(old(store.State()), job)
  {
    match DecidePost(body, freshId, now)
    case Failure(error) =>
      resp := error;
    case Success(job) =>
      store.CreateJob(job);
      resp := Response(201, JobBody(job));
  }

  /** `GET /jobs/:id` (jobs.ts:37-49): 200 with the job, or 404; the store is only read. */
  method GetJobById(store: InMemoryStore, id: string) returns (resp: Response)
    ensures id in store.jobs.entries ==> resp == Response(200, JobBody(store.jobs.entries[id]))
    ensures id !in store.jobs.entries ==> resp == Response(404, ErrorBody("Job not found"))
  {
    var job := store.GetJob(id);
    if job.None? {
      return Response(404, ErrorBody("Job not found"));
    }
    resp := Response(200, JobBody(job.value));
  }
}

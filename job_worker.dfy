/**
 * The job worker of backend/src/services/job-worker.ts. processJob reads a
 * job, marks it Processing, awaits a 100 ms timer, then marks it Completed
 * with a fabricated result. The await is its only suspension point, so the
 * worker is two atomic steps on the store: StartJob (lines 6-16) runs when
 * the worker is called, FinishJob (lines 22-43) when the timer fires, and
 * anything else may touch the store in between.
 */
module JobWorker {
  import opened Wrappers
  import opened Types
  import opened Store

  /** The TypeError that `'fileName' in job.payload` throws when the payload is not an object. */
  datatype WorkerError = InOperatorTypeError

  /** A worker suspended at its await: the id it was given and the job it read at the start. */
  datatype Suspended = Suspended(jobId: string, snapshot: Job)

  /** JS values on which the `in` operator throws: null and the primitives. */
  function IsPrimitive(v: Value): (b: bool)
    ensures b <==> v == Null || v.Bool? || v.Num? || v.Str?
  {
    !v.Arr? && !v.Obj?
  }

  /** The file name the result message names: a FileUpload job whose payload has a string fileName. */
  function DeclaredFileName(job: Job): (r: Option<string>)
    ensures r.Some? ==> job.jobType == FileUpload && !IsPrimitive(job.payload)
    ensures job.jobType == FileUpload && job.payload.Obj? && "fileName" in job.payload.fields ==>
      (r.Some? <==> job.payload.fields["fileName"].Str?)
    ensures r.Some? ==>
      job.payload.Obj? && "fileName" in job.payload.fields && job.payload.fields["fileName"] == Str(r.value)
  {
    if job.jobType == FileUpload && job.payload.Obj? && "fileName" in job.payload.fields
       && job.payload.fields["fileName"].Str?
    then Some(job.payload.fields["fileName"].s)
    else None
  }

  /**
   * Result-message selection (job-worker.ts:22-27), evaluated on the job read
   * at the start. The test `'fileName' in job.payload` runs only for
   * FileUpload jobs and throws when the payload is null or a primitive.
   */
  function ResultMessage(jobId: string, job: Job): (r: Result<string, WorkerError>)
    ensures r.Failure? <==> job.jobType == FileUpload && IsPrimitive(job.payload)
    ensures r.Success? && DeclaredFileName(job).Some? ==>
      r.value == "File " + DeclaredFileName(job).value + " processed successfully"
    ensures r.Success? && DeclaredFileName(job).None? ==>
      r.value == "Job " + jobId + " processed successfully"
  {
    var generic := "Job " + jobId + " processed successfully";
    if job.jobType != FileUpload then Success(generic)
    else match job.payload
      case Obj(fields) =>
        if "fileName" in fields && fields["fileName"].Str?
        then Success("File " + fields["fileName"].s + " processed successfully")
        else Success(generic)
      case Arr(_) => Success(generic)
      case _ => Failure(InOperatorTypeError)
  }

  /** A FileUpload job's result message mentions its file name. */
  lemma ResultNamesFile(jobId: string, job: Job)
    requires DeclaredFileName(job).Some?
    ensures ResultMessage(jobId, job).Success?
    ensures Contains(ResultMessage(jobId, job).value, DeclaredFileName(job).value)
  {
    var name := DeclaredFileName(job).value;
    var msg := ResultMessage(jobId, job).value;
    assert name <= msg[5..];
  }

  /** The fields the worker never changes. */
  predicate SameIdentity(a: Job, b: Job) {
    a.id == b.id && a.jobType == b.jobType && a.payload == b.payload && a.createdAt == b.createdAt
  }

  /**
   * The start step (job-worker.ts:6-16): a missing id changes nothing;
   * otherwise the job is stored as Processing with a fresh updatedAt, its
   * other fields (result included) as they were. There is no status guard.
   */
  function StartSpec(s: StoreState, jobId: string, now: int): (r: StoreState)
    requires ValidState(s)
    ensures ValidState(r)
    ensures jobId !in s.jobs.entries ==> r == s
    ensures r.jobs.entries.Keys == s.jobs.entries.Keys && r.jobs.order == s.jobs.order
    ensures r.messages == s.messages
    ensures forall id :: id in s.jobs.entries && id != jobId ==> r.jobs.entries[id] == s.jobs.entries[id]
    ensures jobId in s.jobs.entries ==>
      var (was, now') := (s.jobs.entries[jobId], r.jobs.entries[jobId]);
      && now'.status == Processing && now'.updatedAt == now
      && SameIdentity(now', was) && now'.result == was.result
  {
    if jobId in s.jobs.entries
    then UpdateJobSpec(s, s.jobs.entries[jobId].(status := Processing, updatedAt := now))
    else s
  }

  /** The record a finish step writes over `job`, the job it reads again; unchanged when selection throws. */
  function Finished(job: Job, k: Suspended, now: int): Job {
    match ResultMessage(k.jobId, k.snapshot)
    case Success(message) => job.(status := Completed, result := Some(JobResult(now, message)), updatedAt := now)
    case Failure(_) => job
  }

  /**
   * The finish step (job-worker.ts:22-43). The message comes from the
   * snapshot; if selecting it throws, nothing is written and the worker's
   * promise rejects. Otherwise the job is read again and, when present,
   * stored as Completed with the result, built on the re-read record.
   */
  function FinishSpec(s: StoreState, k: Suspended, now: int): (r: StoreState)
    requires ValidState(s)
    ensures ValidState(r)
    ensures ResultMessage(k.jobId, k.snapshot).Failure? || k.jobId !in s.jobs.entries ==> r == s
    ensures r.jobs.entries.Keys == s.jobs.entries.Keys && r.jobs.order == s.jobs.order
    ensures r.messages == s.messages
    ensures forall id :: id in s.jobs.entries && id != k.jobId ==> r.jobs.entries[id] == s.jobs.entries[id]
    ensures k.jobId in s.jobs.entries && ResultMessage(k.jobId, k.snapshot).Success? ==>
      var (was, now') := (s.jobs.entries[k.jobId], r.jobs.entries[k.jobId]);
      && now'.status == Completed && now'.updatedAt == now
      && now'.result == Some(JobResult(now, ResultMessage(k.jobId, k.snapshot).value))
      && SameIdentity(now', was)
  {
    if k.jobId in s.jobs.entries && ResultMessage(k.jobId, k.snapshot).Success?
    then UpdateJobSpec(s, Finished(s.jobs.entries[k.jobId], k, now))
    else s
  }

  /**
   * The start step keeps the job invariant unless it restarts a Completed
   * job: that job becomes Processing and keeps its old result. Only the
   * scheduler's Pending filter keeps the worker away from such jobs.
   */
  lemma StartResultsConsistent(s: StoreState, jobId: string, now: int)
    requires ValidState(s) && ResultsConsistent(s)
    ensures ResultsConsistent(StartSpec(s, jobId, now)) <==>
      jobId !in s.jobs.entries || s.jobs.entries[jobId].status != Completed
  {
    var r := StartSpec(s, jobId, now);
    if jobId in s.jobs.entries && s.jobs.entries[jobId].status == Completed {
      assert r.jobs.entries[jobId].result.Some? && r.jobs.entries[jobId].status != Completed;
    }
  }

  /** The finish step keeps the job invariant: it writes a result together with Completed. */
  lemma FinishResultsConsistent(s: StoreState, k: Suspended, now: int)
    requires ValidState(s) && ResultsConsistent(s)
    ensures ResultsConsistent(FinishSpec(s, k, now))
  {
  }

  /**
   * Run without interleaving, the worker takes an existing job to Completed
   * with its result, unless the result selection throws, which leaves it
   * Processing; a missing id leaves the store as it was.
   */
  lemma {:induction false} ProcessJobUninterrupted(s: StoreState, jobId: string, started: int, finished: int)
    requires ValidState(s)
    ensures jobId !in s.jobs.entries ==> StartSpec(s, jobId, started) == s
    ensures jobId in s.jobs.entries ==>
      var job := s.jobs.entries[jobId];
      var r := FinishSpec(StartSpec(s, jobId, started), Suspended(jobId, job), finished);
      match ResultMessage(jobId, job)
      case Success(message) =>
        r.jobs.entries[jobId] == job.(status := Completed, result := Some(JobResult(finished, message)), updatedAt := finished)
      case Failure(_) =>
        r.jobs.entries[jobId] == job.(status := Processing, updatedAt := started)
  {
    if jobId in s.jobs.entries {
      var job := s.jobs.entries[jobId];
      var mid := StartSpec(s, jobId, started);
      var r := FinishSpec(mid, Suspended(jobId, job), finished);
      assert mid.jobs.entries[jobId] == job.(status := Processing, updatedAt := started);
      if ResultMessage(jobId, job).Success? {
        var message := ResultMessage(jobId, job).value;
        assert r.jobs.entries[jobId] == mid.jobs.entries[jobId].(status := Completed, result := Some(JobResult(finished, message)), updatedAt := finished);
      }
    }
  }

  /**
   * The finish step as the Failed status suggests it was meant: when result
   * selection throws, the job is recorded as Failed instead of being left
   * Processing. The rest of the model follows the code, which has no such
   * branch; this step states the intended behaviour beside it.
   */
  function FinishMarkingFailure(s: StoreState, k: Suspended, now: int): (r: StoreState)
    requires ValidState(s)
    ensures ValidState(r)
    ensures r.jobs.entries.Keys == s.jobs.entries.Keys && r.jobs.order == s.jobs.order
    ensures r.messages == s.messages
    ensures ResultMessage(k.jobId, k.snapshot).Success? ==> r == FinishSpec(s, k, now)
    ensures forall id :: id in s.jobs.entries && id != k.jobId ==> r.jobs.entries[id] == s.jobs.entries[id]
    ensures k.jobId in s.jobs.entries && ResultMessage(k.jobId, k.snapshot).Failure? ==>
      r.jobs.entries[k.jobId] == s.jobs.entries[k.jobId].(status := Failed, updatedAt := now)
  {
    if k.jobId in s.jobs.entries && ResultMessage(k.jobId, k.snapshot).Failure?
    then UpdateJobSpec(s, s.jobs.entries[k.jobId].(status := Failed, updatedAt := now))
    else FinishSpec(s, k, now)
  }

  /**
   * With failures recorded, a worker run without interleaving always takes
   * an existing job to a final status: Failed exactly when selection throws,
   * Completed otherwise. A Pending job without a result keeps the job
   * invariant on the way.
   */
  lemma ProcessJobMarkingFailure(s: StoreState, jobId: string, started: int, finished: int)
    requires ValidState(s) && jobId in s.jobs.entries
    ensures var job := s.jobs.entries[jobId];
      var r := FinishMarkingFailure(StartSpec(s, jobId, started), Suspended(jobId, job), finished);
      && (r.jobs.entries[jobId].status == Failed <==> ResultMessage(jobId, job).Failure?)
      && (r.jobs.entries[jobId].status == Completed <==> ResultMessage(jobId, job).Success?)
      && (ResultsConsistent(s) && job.status == Pending ==> ResultsConsistent(r))
  {
    var job := s.jobs.entries[jobId];
    var mid := StartSpec(s, jobId, started);
    var r := FinishMarkingFailure(mid, Suspended(jobId, job), finished);
    ProcessJobUninterrupted(s, jobId, started, finished);
    if ResultsConsistent(s) && job.status == Pending {
      StartResultsConsistent(s, jobId, started);
      if ResultMessage(jobId, job).Success? {
        FinishResultsConsistent(mid, Suspended(jobId, job), finished);
      } else {
        assert r.jobs.entries[jobId].result == None;
      }
    }
  }

  /** processJob up to its await (job-worker.ts:6-16). */
  method StartJob(store: InMemoryStore, jobId: string, now: int) returns (k: Option<Suspended>)
    requires store.Valid()
    modifies store
    ensures store.Valid()
    ensures k.Some? <==> jobId in old(store.jobs.entries)
    ensures k.Some? ==> k.value == Suspended(jobId, old(store.jobs.entries[jobId]))
    ensures store.State() == StartSpec(old(store.State()), jobId, now)
  {
    var job := store.GetJob(jobId);
    if job.None? {
      return None;
    }
    store.UpdateJob(job.value.(status := Processing, updatedAt := now));
    k := Some(Suspended(jobId, job.value));
  }

  /** processJob after its await (job-worker.ts:22-43); `rejected` is the promise rejecting. */
  method FinishJob(store: InMemoryStore, k: Suspended, now: int) returns (rejected: bool)
    requires store.Valid()
    modifies store
    ensures store.Valid()
    ensures rejected <==> ResultMessage(k.jobId, k.snapshot).Failure?
    ensures store.State() == FinishSpec(old(store.State()), k, now)
  {
    var selection := ResultMessage(k.jobId, k.snapshot);
    if selection.Failure? {
      return true;
    }
    var result := JobResult(now, selection.value);
    var current := store.GetJob(k.jobId);
    if current.Some? {
      store.UpdateJob(current.value.(status := Completed, result := Some(result), updatedAt := now));
    }
    rejected := false;
  }
}

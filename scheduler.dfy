/**
 * The scheduler tick of backend/src/index.ts:24-31: every 500 ms it lists
 * the jobs, keeps the Pending ones and calls the worker on each id without
 * awaiting it. Each call runs the worker's start step synchronously, so
 * when the tick returns every listed Pending job is Processing and one
 * suspended worker per job waits for its timer. The timers have equal
 * delays and fire in dispatch order; ResumeAll runs them, and the
 * `.catch` per job (index.ts:27-29) logs a rejection and carries on.
 */
module Scheduler {
  import opened Wrappers
  import opened Types
  import opened Store
  import opened JobWorker
  import JobsApi

  function Ids(js: seq<Job>): (r: seq<string>)
    ensures |r| == |js| && forall i :: 0 <= i < |js| ==> r[i] == js[i].id
  {
    seq(|js|, i requires 0 <= i < |js| => js[i].id)
  }

  /** `jobs.filter(job => job.status === Pending)` (index.ts:25). */
  function PendingJobs(jobs: seq<Job>): (r: seq<Job>)
    ensures forall j :: j in r <==> j in jobs && j.status == Pending
    ensures Distinct(Ids(jobs)) ==> Distinct(Ids(r))
  {
    if jobs == [] then []
    else
      var rest := PendingJobs(jobs[..|jobs| - 1]);
      var last := jobs[|jobs| - 1];
      assert jobs == jobs[..|jobs| - 1] + [last];
      if last.status == Pending then rest + [last] else rest
  }

  /**
   * `filter` keeps the listJobs order: of two kept jobs, the earlier one in
   * the result comes from the earlier position in the list.
   */
  lemma {:induction false} PendingKeepsOrder(jobs: seq<Job>)
    ensures var r := PendingJobs(jobs);
      forall i, j :: 0 <= i < j < |r| ==>
        exists a, b :: 0 <= a < b < |jobs| && r[i] == jobs[a] && r[j] == jobs[b]
  {
    var r := PendingJobs(jobs);
    forall i, j | 0 <= i < j < |r|
      ensures exists a, b :: 0 <= a < b < |jobs| && r[i] == jobs[a] && r[j] == jobs[b]
    {
      var a, b := PendingOrigins(jobs, i, j);
    }
  }

  /** The list positions the i-th and j-th kept jobs come from. */
  lemma {:induction false} PendingOrigins(jobs: seq<Job>, i: nat, j: nat) returns (a: nat, b: nat)
    requires i < j < |PendingJobs(jobs)|
    ensures a < b < |jobs| && PendingJobs(jobs)[i] == jobs[a] && PendingJobs(jobs)[j] == jobs[b]
    decreases |jobs|
  {
    var init, last := jobs[..|jobs| - 1], jobs[|jobs| - 1];
    var r, r' := PendingJobs(jobs), PendingJobs(init);
    assert r == if last.status == Pending then r' + [last] else r';
    if j < |r'| {
      a, b := PendingOrigins(init, i, j);
    } else {
      assert r'[i] in init;
      a :| a < |init| && init[a] == r'[i];
      b := |jobs| - 1;
    }
  }

  /**
   * The start steps of the workers dispatched for `ids`, in order; the i-th
   * reads the clock as `times(i)`.
   */
  function StartAll(s: StoreState, ids: seq<string>, times: nat -> int): (r: StoreState)
    requires ValidState(s)
    ensures ValidState(r)
    ensures r.jobs.entries.Keys == s.jobs.entries.Keys && r.jobs.order == s.jobs.order
    ensures r.messages == s.messages
  {
    if ids == [] then s
    else StartSpec(StartAll(s, ids[..|ids| - 1], times), ids[|ids| - 1], times(|ids| - 1))
  }

  /**
   * After the start steps for distinct `ids`, the stored job named by
   * ids[i] is Processing with the i-th clock reading as updatedAt.
   */
  lemma {:induction false} StartAllAt(s: StoreState, ids: seq<string>, times: nat -> int, i: nat)
    requires ValidState(s)
    requires Distinct(ids)
    requires i < |ids| && ids[i] in s.jobs.entries
    ensures StartAll(s, ids, times).jobs.entries[ids[i]]
        == s.jobs.entries[ids[i]].(status := Processing, updatedAt := times(i))
    decreases |ids|
  {
    var ids', last := ids[..|ids| - 1], ids[|ids| - 1];
    var mid := StartAll(s, ids', times);
    assert StartAll(s, ids, times) == StartSpec(mid, last, times(|ids| - 1));
    if i < |ids| - 1 {
      assert ids'[i] == ids[i] && last != ids[i];
      StartAllAt(s, ids', times, i);
    } else {
      forall k | 0 <= k < |ids'| ensures ids'[k] != ids[i] {
        assert ids'[k] == ids[k];
      }
      StartAllOutside(s, ids', times, ids[i]);
      assert mid.jobs.entries[last] == s.jobs.entries[last];
    }
  }

  /** The start steps leave alone a job that `ids` does not name. */
  lemma {:induction false} StartAllOutside(s: StoreState, ids: seq<string>, times: nat -> int, id: string)
    requires ValidState(s)
    requires id in s.jobs.entries && id !in ids
    ensures StartAll(s, ids, times).jobs.entries[id] == s.jobs.entries[id]
    decreases |ids|
  {
    if ids != [] {
      assert ids == ids[..|ids| - 1] + [ids[|ids| - 1]];
      StartAllOutside(s, ids[..|ids| - 1], times, id);
    }
  }

  /** The state a tick leaves behind; the i-th worker it calls reads the clock as `times(i)`. */
  function TickSpec(s: StoreState, times: nat -> int): StoreState
    requires ValidState(s)
  {
    StartAll(s, Ids(PendingJobs(Values(s.jobs))), times)
  }

  /** The jobs listJobs returns have distinct ids, each the key of its record. */
  lemma ListedJobs(s: StoreState)
    requires ValidState(s)
    ensures Distinct(Ids(Values(s.jobs)))
    ensures forall j :: j in Values(s.jobs) ==> j.id in s.jobs.entries && s.jobs.entries[j.id] == j
    ensures forall id :: id in s.jobs.entries ==> s.jobs.entries[id] in Values(s.jobs)
  {
    var v := Values(s.jobs);
    forall id | id in s.jobs.entries ensures s.jobs.entries[id] in v {
      var i :| 0 <= i < |s.jobs.order| && s.jobs.order[i] == id;
      assert v[i] == s.jobs.entries[id];
    }
  }

  /**
   * A tick moves the i-th listed Pending job to Processing, stamped with the
   * clock reading of its own worker call.
   */
  lemma TickStarts(s: StoreState, times: nat -> int, i: nat)
    requires ValidState(s)
    requires i < |PendingJobs(Values(s.jobs))|
    ensures var job := PendingJobs(Values(s.jobs))[i];
      && job.status == Pending && job.id in s.jobs.entries && s.jobs.entries[job.id] == job
      && TickSpec(s, times).jobs.entries[job.id] == job.(status := Processing, updatedAt := times(i))
  {
    var pending := PendingJobs(Values(s.jobs));
    PendingListed(s);
    assert pending[i] in pending;
    StartAllAt(s, Ids(pending), times, i);
  }

  /** A tick leaves Processing, Completed and Failed jobs alone, and adds and removes no job. */
  lemma TickSkips(s: StoreState, times: nat -> int, id: string)
    requires ValidState(s)
    requires id in s.jobs.entries && s.jobs.entries[id].status != Pending
    ensures TickSpec(s, times).jobs.entries.Keys == s.jobs.entries.Keys
    ensures TickSpec(s, times).jobs.entries[id] == s.jobs.entries[id]
  {
    var pending := PendingJobs(Values(s.jobs));
    PendingListed(s);
    forall k | 0 <= k < |pending| ensures Ids(pending)[k] != id {
      assert pending[k] in pending;
    }
    StartAllOutside(s, Ids(pending), times, id);
  }

  /** Every Pending job is listed by the tick, so TickThenResume covers it. */
  lemma PendingAreListed(s: StoreState, id: string)
    requires ValidState(s)
    requires id in s.jobs.entries && s.jobs.entries[id].status == Pending
    ensures exists i :: 0 <= i < |PendingJobs(Values(s.jobs))| && PendingJobs(Values(s.jobs))[i].id == id
  {
    ListedJobs(s);
    var pending := PendingJobs(Values(s.jobs));
    assert s.jobs.entries[id] in pending;
    var i :| 0 <= i < |pending| && pending[i] == s.jobs.entries[id];
    assert pending[i].id == id;
  }

  /** What a tick lists: Pending jobs with distinct ids, each the stored record under its id. */
  lemma PendingListed(s: StoreState)
    requires ValidState(s)
    ensures Distinct(Ids(PendingJobs(Values(s.jobs))))
    ensures forall j :: j in PendingJobs(Values(s.jobs)) ==>
      j.id in s.jobs.entries && s.jobs.entries[j.id] == j && j.status == Pending
  {
    ListedJobs(s);
  }

  /** Before the tick starts pending[i], the earlier start steps have left it as listed. */
  lemma TickStep(s: StoreState, pending: seq<Job>, i: nat, times: nat -> int)
    requires ValidState(s)
    requires Distinct(Ids(pending))
    requires forall j :: j in pending ==> j.id in s.jobs.entries && s.jobs.entries[j.id] == j
    requires i < |pending|
    ensures StartAll(s, Ids(pending[..i]), times).jobs.entries[pending[i].id] == pending[i]
  {
    assert pending[i] in pending;
    NotYetDispatched(pending, i);
    StartAllOutside(s, Ids(pending[..i]), times, pending[i].id);
  }

  lemma IdsPrefix(js: seq<Job>, i: nat)
    requires i < |js|
    ensures Ids(js[..i + 1]) == Ids(js[..i]) + [js[i].id]
    ensures SuspendedFor(js[..i + 1]) == SuspendedFor(js[..i]) + [Suspended(js[i].id, js[i])]
  {
  }

  lemma StartAllSnoc(s: StoreState, ids: seq<string>, id: string, times: nat -> int)
    requires ValidState(s)
    ensures StartAll(s, ids + [id], times) == StartSpec(StartAll(s, ids, times), id, times(|ids|))
  {
    var ids' := ids + [id];
    assert ids'[..|ids'| - 1] == ids && ids'[|ids'| - 1] == id;
  }

  /** With distinct ids, the id of pending[i] is not among those dispatched before it. */
  lemma NotYetDispatched(pending: seq<Job>, i: nat)
    requires Distinct(Ids(pending))
    requires i < |pending|
    ensures pending[i].id !in Ids(pending[..i])
  {
    var before := Ids(pending[..i]);
    forall k | 0 <= k < |before| ensures before[k] != pending[i].id {
      assert before[k] == pending[k].id;
    }
  }

  /**
   * One tick (index.ts:24-31): `dispatched` are the ids the worker is called
   * with, `suspended` the workers left waiting at their await. The i-th
   * worker call reads the clock as `times(i)`.
   */
  method Tick(store: InMemoryStore, times: nat -> int) returns (dispatched: seq<string>, suspended: seq<Suspended>)
    requires store.Valid()
    modifies store
    ensures store.Valid()
    ensures store.State() == TickSpec(old(store.State()), times)
    ensures dispatched == Ids(PendingJobs(Values(old(store.jobs))))
    ensures suspended == Dispatch(old(store.State()))
  {
    ghost var s0 := store.State();
    var listed := store.ListJobs();
    var pending := PendingJobs(listed);
    PendingListed(s0);
    dispatched, suspended := [], [];
    var i := 0;
    while i < |pending|
      invariant 0 <= i <= |pending|
      invariant store.Valid()
      invariant store.State() == StartAll(s0, Ids(pending[..i]), times)
      invariant dispatched == Ids(pending[..i])
      invariant suspended == SuspendedFor(pending[..i])
    {
      TickStep(s0, pending, i, times);
      IdsPrefix(pending, i);
      StartAllSnoc(s0, Ids(pending[..i]), pending[i].id, times);
      var k := StartJob(store, pending[i].id, times(i));
      assert k == Some(Suspended(pending[i].id, pending[i]));
      dispatched := dispatched + [pending[i].id];
      suspended := suspended + [k.value];
      i := i + 1;
    }
    assert pending[..i] == pending;
  }

  /** The finish steps of the suspended workers, in order; the i-th reads the clock as `times(i)`. */
  function FinishAll(s: StoreState, ks: seq<Suspended>, times: nat -> int): (r: StoreState)
    requires ValidState(s)
    ensures ValidState(r)
    ensures r.jobs.entries.Keys == s.jobs.entries.Keys && r.jobs.order == s.jobs.order
    ensures r.messages == s.messages
  {
    if ks == [] then s
    else FinishSpec(FinishAll(s, ks[..|ks| - 1], times), ks[|ks| - 1], times(|ks| - 1))
  }

  /** The ids whose worker rejects: those whose result selection throws. */
  function Rejected(ks: seq<Suspended>): (r: seq<string>)
    ensures forall id :: id in r <==> exists k :: k in ks && k.jobId == id && ResultMessage(id, k.snapshot).Failure?
  {
    if ks == [] then []
    else
      var last := ks[|ks| - 1];
      assert ks == ks[..|ks| - 1] + [last];
      Rejected(ks[..|ks| - 1]) + (if ResultMessage(last.jobId, last.snapshot).Failure? then [last.jobId] else [])
  }

  /**
   * The suspended workers resume in dispatch order; each rejection is caught
   * and logged, and the remaining workers still run. The i-th timer callback
   * reads the clock as `times(i)`.
   */
  method ResumeAll(store: InMemoryStore, ks: seq<Suspended>, times: nat -> int) returns (failed: seq<string>)
    requires store.Valid()
    modifies store
    ensures store.Valid()
    ensures store.State() == FinishAll(old(store.State()), ks, times)
    ensures failed == Rejected(ks)
  {
    ghost var s0 := store.State();
    failed := [];
    var i := 0;
    while i < |ks|
      invariant 0 <= i <= |ks|
      invariant store.Valid()
      invariant store.State() == FinishAll(s0, ks[..i], times)
      invariant failed == Rejected(ks[..i])
    {
      assert ks[..i + 1][..i] == ks[..i];
      var rejected := FinishJob(store, ks[i], times(i));
      if rejected {
        failed := failed + [ks[i].jobId];
      }
      i := i + 1;
    }
    assert ks[..i] == ks;
  }

  /** One suspended worker per job, holding the job as its start step read it. */
  function SuspendedFor(js: seq<Job>): (r: seq<Suspended>)
    ensures |r| == |js| && forall i :: 0 <= i < |js| ==> r[i] == Suspended(js[i].id, js[i])
  {
    seq(|js|, i requires 0 <= i < |js| => Suspended(js[i].id, js[i]))
  }

  /** The job ids of suspended workers, in resume order. */
  function WorkerIds(ks: seq<Suspended>): (r: seq<string>)
    ensures |r| == |ks| && forall i :: 0 <= i < |ks| ==> r[i] == ks[i].jobId
  {
    seq(|ks|, i requires 0 <= i < |ks| => ks[i].jobId)
  }

  /** The workers a tick leaves suspended: one per listed Pending job. */
  function Dispatch(s: StoreState): seq<Suspended>
    requires ValidState(s)
  {
    SuspendedFor(PendingJobs(Values(s.jobs)))
  }

  /**
   * A tick followed by its workers' timers, with nothing in between: the
   * i-th listed Pending job ends Completed with its result, stamped by its
   * own timer's clock reading, unless its result selection throws, in which
   * case it stays Processing with the time of its start step.
   */
  lemma TickThenResume(s: StoreState, started: nat -> int, finished: nat -> int, i: nat)
    requires ValidState(s)
    requires i < |PendingJobs(Values(s.jobs))|
    ensures
      var job := PendingJobs(Values(s.jobs))[i];
      var after := FinishAll(TickSpec(s, started), Dispatch(s), finished).jobs.entries[job.id];
      && job.id in s.jobs.entries && s.jobs.entries[job.id] == job && job.status == Pending
      && (ResultMessage(job.id, job).Success? ==>
            after == job.(status := Completed,
                          result := Some(JobResult(finished(i), ResultMessage(job.id, job).value)),
                          updatedAt := finished(i)))
      && (ResultMessage(job.id, job).Failure? ==>
            after == job.(status := Processing, updatedAt := started(i)))
  {
    var pending := PendingJobs(Values(s.jobs));
    var ks := Dispatch(s);
    TickStarts(s, started, i);
    PendingListed(s);
    FinishAllAt(TickSpec(s, started), ks, finished, i);
  }

  /** A job that was not Pending comes out of a tick and its timers unchanged. */
  lemma TickThenResumeSkips(s: StoreState, started: nat -> int, finished: nat -> int, id: string)
    requires ValidState(s)
    requires id in s.jobs.entries && s.jobs.entries[id].status != Pending
    ensures FinishAll(TickSpec(s, started), Dispatch(s), finished).jobs.entries[id] == s.jobs.entries[id]
  {
    var pending := PendingJobs(Values(s.jobs));
    var ks := Dispatch(s);
    TickSkips(s, started, id);
    PendingListed(s);
    forall i | 0 <= i < |ks| ensures ks[i].jobId != id {
      assert pending[i] in pending;
    }
    FinishAllOutside(TickSpec(s, started), ks, finished, id);
  }

  /**
   * A tick keeps the job invariant: it starts only Pending jobs, which carry
   * no result, and they become Processing still without one.
   */
  lemma TickResultsConsistent(s: StoreState, times: nat -> int)
    requires ValidState(s) && ResultsConsistent(s)
    ensures ResultsConsistent(TickSpec(s, times))
  {
    var r := TickSpec(s, times);
    forall id | id in r.jobs.entries
      ensures r.jobs.entries[id].result.Some? <==> r.jobs.entries[id].status == Completed
    {
      if s.jobs.entries[id].status == Pending {
        PendingAreListed(s, id);
        var i :| 0 <= i < |PendingJobs(Values(s.jobs))| && PendingJobs(Values(s.jobs))[i].id == id;
        TickStarts(s, times, i);
      } else {
        TickSkips(s, times, id);
      }
    }
  }

  /** The finish steps of the timers keep the job invariant. */
  lemma {:induction false} FinishAllResultsConsistent(s: StoreState, ks: seq<Suspended>, times: nat -> int)
    requires ValidState(s) && ResultsConsistent(s)
    ensures ResultsConsistent(FinishAll(s, ks, times))
    decreases |ks|
  {
    if ks != [] {
      FinishAllResultsConsistent(s, ks[..|ks| - 1], times);
      FinishResultsConsistent(FinishAll(s, ks[..|ks| - 1], times), ks[|ks| - 1], times(|ks| - 1));
    }
  }

  /** The finish steps of workers with distinct ids: the job of ks[i] is finished on its current record. */
  lemma {:induction false} FinishAllAt(s: StoreState, ks: seq<Suspended>, times: nat -> int, i: nat)
    requires ValidState(s)
    requires Distinct(WorkerIds(ks))
    requires i < |ks| && ks[i].jobId in s.jobs.entries
    ensures FinishAll(s, ks, times).jobs.entries[ks[i].jobId]
        == Finished(s.jobs.entries[ks[i].jobId], ks[i], times(i))
    decreases |ks|
  {
    var ks', last := ks[..|ks| - 1], ks[|ks| - 1];
    if i < |ks| - 1 {
      FinishAllAt(s, ks', times, i);
    } else {
      FinishAllOutside(s, ks', times, last.jobId);
    }
  }

  /** The finish steps leave alone a job that no worker in `ks` names. */
  lemma {:induction false} FinishAllOutside(s: StoreState, ks: seq<Suspended>, times: nat -> int, id: string)
    requires ValidState(s)
    requires id in s.jobs.entries
    requires forall i :: 0 <= i < |ks| ==> ks[i].jobId != id
    ensures FinishAll(s, ks, times).jobs.entries[id] == s.jobs.entries[id]
    decreases |ks|
  {
    if ks != [] {
      FinishAllOutside(s, ks[..|ks| - 1], times, id);
    }
  }

  /**
   * A FileUpload job posted with a primitive payload is accepted with 201,
   * but its finish step throws at `'fileName' in job.payload`. The job is
   * left Processing, and every later tick skips it, so it never completes.
   */
  lemma PrimitivePayloadStuck(s: StoreState, id: string, now: int, started: nat -> int, finished: nat -> int,
                              later: nat -> int, laterFinished: nat -> int)
    requires ValidState(s)
    ensures var post := JobsApi.DecidePost(JobsApi.PostBody(Some(Str("file_upload")), Some(Str("report.pdf"))), id, now);
      && post.Success?
      && var s1 := PutJob(s, post.value);
         var s2 := FinishAll(TickSpec(s1, started), Dispatch(s1), finished);
         && id in s2.jobs.entries
         && s2.jobs.entries[id].status == Processing
         && FinishAll(TickSpec(s2, later), Dispatch(s2), laterFinished).jobs.entries[id] == s2.jobs.entries[id]
  {
    var body := JobsApi.PostBody(Some(Str("file_upload")), Some(Str("report.pdf")));
    assert JobsApi.ParseJobType(body.jobType) == Some(FileUpload);
    assert JobsApi.Truthy(body.payload);
    var job := JobsApi.DecidePost(body, id, now).value;
    var s1 := PutJob(s, job);
    var s2 := FinishAll(TickSpec(s1, started), Dispatch(s1), finished);
    PendingAreListed(s1, id);
    var i :| 0 <= i < |PendingJobs(Values(s1.jobs))| && PendingJobs(Values(s1.jobs))[i].id == id;
    TickThenResume(s1, started, finished, i);
    assert ResultMessage(id, job).Failure?;
    TickThenResumeSkips(s2, later, laterFinished, id);
  }
}

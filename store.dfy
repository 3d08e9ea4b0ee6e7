/**
 * The in-memory store of backend/src/store/store.ts: two JavaScript Maps,
 * id -> Job and id -> Message, mutated in place. A JS Map iterates in
 * first-insertion order and `set` on an existing key keeps its position,
 * which listJobs and the stable sort of listMessages make visible; an
 * OrderedMap therefore pairs the entries with that order.
 */
module Store {
  import opened Wrappers
  import opened Types
  import opened MessageOrder

  datatype OrderedMap<V> = OrderedMap(entries: map<string, V>, order: seq<string>)

  /** `order` lists every key of `entries` exactly once. */
  predicate WellOrdered<V>(t: OrderedMap<V>) {
    && Distinct(t.order)
    && (forall k :: k in t.order ==> k in t.entries)
    && (forall k :: k in t.entries ==> k in t.order)
  }

  function EmptyMap<V>(): (t: OrderedMap<V>)
    ensures WellOrdered(t) && t.entries == map[]
  {
    OrderedMap(map[], [])
  }

  /** Map.prototype.set: a new key goes to the end of the order, an existing one stays where it is. */
  function Set<V>(t: OrderedMap<V>, k: string, v: V): (r: OrderedMap<V>)
    ensures k in r.entries && r.entries[k] == v
    ensures r.entries.Keys == t.entries.Keys + {k}
    ensures forall k' :: k' in t.entries && k' != k ==> r.entries[k'] == t.entries[k']
    ensures WellOrdered(t) ==> WellOrdered(r)
  {
    OrderedMap(t.entries[k := v], if k in t.entries then t.order else t.order + [k])
  }

  /** The values of `entries` along `order`: what Map.prototype.values() iterates. */
  function Collect<V>(order: seq<string>, entries: map<string, V>): (r: seq<V>)
    requires forall i :: 0 <= i < |order| ==> order[i] in entries
    ensures |r| == |order|
    ensures forall i :: 0 <= i < |order| ==> r[i] == entries[order[i]]
  {
    if order == [] then []
    else Collect(order[..|order| - 1], entries) + [entries[order[|order| - 1]]]
  }

  function Values<V>(t: OrderedMap<V>): seq<V>
    requires WellOrdered(t)
  {
    Collect(t.order, t.entries)
  }

  /**
   * Setting a key that is present replaces its value in place in the
   * iteration; setting a new key appends the value at the end.
   */
  lemma SetValues<V>(t: OrderedMap<V>, k: string, v: V)
    requires WellOrdered(t)
    ensures k !in t.entries ==> Values(Set(t, k, v)) == Values(t) + [v]
    ensures k in t.entries ==>
      && |Values(Set(t, k, v))| == |Values(t)|
      && forall i :: 0 <= i < |t.order| ==>
           Values(Set(t, k, v))[i] == (if t.order[i] == k then v else Values(t)[i])
  {
  }

  /** Everything the store holds. */
  datatype StoreState = StoreState(jobs: OrderedMap<Job>, messages: OrderedMap<Message>)

  /** Both maps are well ordered, and every record is stored under its own id. */
  predicate ValidState(s: StoreState) {
    && WellOrdered(s.jobs)
    && WellOrdered(s.messages)
    && (forall id :: id in s.jobs.entries ==> s.jobs.entries[id].id == id)
    && (forall id :: id in s.messages.entries ==> s.messages.entries[id].id == id)
  }

  /**
   * The job invariant of the data model: a job carries a result exactly
   * when it is Completed (the optional `result` of common/src/types/job.ts:30).
   */
  predicate ResultsConsistent(s: StoreState) {
    forall id :: id in s.jobs.entries ==>
      (s.jobs.entries[id].result.Some? <==> s.jobs.entries[id].status == Completed)
  }

  /** Every stored message has fileData exactly when it is a file message. */
  predicate MessagesWellFormed(s: StoreState) {
    forall id :: id in s.messages.entries ==> WellFormedMessage(s.messages.entries[id])
  }

  /** createJob (store.ts:20-22): insert or overwrite, no uniqueness check. */
  function PutJob(s: StoreState, j: Job): (r: StoreState)
    ensures j.id in r.jobs.entries && r.jobs.entries[j.id] == j
    ensures r.jobs.entries.Keys == s.jobs.entries.Keys + {j.id}
    ensures forall id :: id in s.jobs.entries && id != j.id ==> r.jobs.entries[id] == s.jobs.entries[id]
    ensures r.messages == s.messages
    ensures ValidState(s) ==> ValidState(r)
  {
    s.(jobs := Set(s.jobs, j.id, j))
  }

  /** updateJob (store.ts:29-33): replaces the record only when its id is already stored. */
  function UpdateJobSpec(s: StoreState, j: Job): (r: StoreState)
    ensures j.id in s.jobs.entries ==> r.jobs.entries == s.jobs.entries[j.id := j] && r.jobs.order == s.jobs.order
    ensures j.id !in s.jobs.entries ==> r == s
    ensures r.messages == s.messages
    ensures ValidState(s) ==> ValidState(r)
  {
    if j.id in s.jobs.entries then PutJob(s, j) else s
  }

  /** createMessage (store.ts:39-41): insert or overwrite. */
  function PutMessage(s: StoreState, m: Message): (r: StoreState)
    ensures m.id in r.messages.entries && r.messages.entries[m.id] == m
    ensures r.messages.entries.Keys == s.messages.entries.Keys + {m.id}
    ensures forall id :: id in s.messages.entries && id != m.id ==> r.messages.entries[id] == s.messages.entries[id]
    ensures r.jobs == s.jobs
    ensures ValidState(s) ==> ValidState(r)
  {
    s.(messages := Set(s.messages, m.id, m))
  }

  /**
   * listMessages always returns a sorted permutation of the stored messages
   * that keeps insertion order among equal timestamps, and it is the only
   * sequence that does.
   */
  lemma ListMessagesCorrect(s: StoreState)
    requires ValidState(s)
    ensures SortedByTimestamp(SortByTimestamp(Values(s.messages)))
    ensures multiset(SortByTimestamp(Values(s.messages))) == multiset(Values(s.messages))
    ensures forall t :: WithTimestamp(SortByTimestamp(Values(s.messages)), t) == WithTimestamp(Values(s.messages), t)
  {
    SortCorrect(Values(s.messages));
  }

  /** Copies the values of a Map in iteration order (Array.from(map.values()).map(copy)). */
  method CopyValues<V>(t: OrderedMap<V>) returns (r: seq<V>)
    requires WellOrdered(t)
    ensures |r| == |t.order|
    ensures forall i :: 0 <= i < |r| ==> r[i] == t.entries[t.order[i]]
    ensures r == Values(t)
  {
    r := [];
    var i := 0;
    while i < |t.order|
      invariant 0 <= i <= |t.order|
      invariant r == Collect(t.order[..i], t.entries)
    {
      assert t.order[..i + 1][..i] == t.order[..i];
      r := r + [t.entries[t.order[i]]];
      i := i + 1;
    }
    assert t.order[..i] == t.order;
  }

  class InMemoryStore {
    var jobs: OrderedMap<Job>
    var messages: OrderedMap<Message>

    function State(): StoreState
      reads this
    {
      StoreState(jobs, messages)
    }

    predicate Valid()
      reads this
    {
      ValidState(State())
    }

    /** createInMemoryStore (store.ts:15-17): two empty maps. */
    constructor ()
      ensures Valid()
      ensures jobs.entries == map[] && messages.entries == map[]
    {
      jobs := EmptyMap();
      messages := EmptyMap();
    }

    method CreateJob(job: Job)
      requires Valid()
      modifies this
      ensures Valid()
      ensures State() == PutJob(old(State()), job)
    {
      jobs := Set(jobs, job.id, job);
    }

    /** getJob (store.ts:24-27): the stored job, or None for an id never inserted. */
    method GetJob(id: string) returns (r: Option<Job>)
      ensures r.Some? <==> id in jobs.entries
      ensures r.Some? ==> r.value == jobs.entries[id]
    {
      r := if id in jobs.entries then Some(jobs.entries[id]) else None;
    }

    method UpdateJob(job: Job)
      requires Valid()
      modifies this
      ensures Valid()
      ensures State() == UpdateJobSpec(old(State()), job)
    {
      if job.id in jobs.entries {
        jobs := Set(jobs, job.id, job);
      }
    }

    /** listJobs (store.ts:35-37): one job per stored id, in first-insertion order. */
    method ListJobs() returns (r: seq<Job>)
      requires Valid()
      ensures |r| == |jobs.order|
      ensures forall i :: 0 <= i < |r| ==> r[i] == jobs.entries[jobs.order[i]] && r[i].id == jobs.order[i]
      ensures r == Values(jobs)
    {
      r := CopyValues(jobs);
    }

    method CreateMessage(message: Message)
      requires Valid()
      modifies this
      ensures Valid()
      ensures State() == PutMessage(old(State()), message)
    {
      messages := Set(messages, message.id, message);
    }

    /** getMessage (store.ts:43-46). */
    method GetMessage(id: string) returns (r: Option<Message>)
      ensures r.Some? <==> id in messages.entries
      ensures r.Some? ==> r.value == messages.entries[id]
    {
      r := if id in messages.entries then Some(messages.entries[id]) else None;
    }

    /** listMessages (store.ts:48-52): copy the values, then sort them stably by timestamp. */
    method ListMessages() returns (r: seq<Message>)
      requires Valid()
      ensures SortedByTimestamp(r)
      ensures multiset(r) == multiset(Values(messages))
      ensures forall t :: WithTimestamp(r, t) == WithTimestamp(Values(messages), t)
      ensures r == SortByTimestamp(Values(messages))
    {
      var copy := CopyValues(messages);
      r := StableSortByTimestamp(copy);
    }
  }
}

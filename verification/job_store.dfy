/** The job store: job records and results kept under keys with a time-to-live,
    plus an index of job ids scored by creation time.

    Each keyed entry carries the instant at which it expires; an entry is
    visible at `now` only while `now <= expiresAt`. The index entries never
    expire on their own; only `CleanOldJobs` removes them. Fresh ids and the
    clock are parameters.
 */
module JobStore {
  import opened Wrappers
  import opened Models

  /** How long a job record or result lives after it is written, in seconds (24 hours). */
  const JobRetention: int := 60 * 60 * 24

  /** A stored value and the instant it expires. */
  datatype Entry<T> = Entry(value: T, expiresAt: int)

  /** The three collections of the store. */
  datatype Store = Store(
    jobs: map<string, Entry<Job>>,
    results: map<string, Entry<ProcessingResult>>,
    index: map<string, int>)

  const EmptyStore: Store := Store(map[], map[], map[])

  /** Key `k` holds a value that has not expired at `now`. */
  predicate Alive<T>(m: map<string, Entry<T>>, k: string, now: int) {
    k in m && now <= m[k].expiresAt
  }

  /** The record `create_job` builds: pending, both timestamps equal, no progress or message. */
  function NewJob(id: string, fileName: string, fileType: string, now: int): (j: Job)
    ensures j.id == id && j.fileName == fileName && j.fileType == fileType
    ensures j.status == Pending && j.createdAt == j.updatedAt == now
    ensures j.progress.None? && j.message.None?
  {
    Job(id, fileName, fileType, Pending, now, now, None, None)
  }

  /** Creates a job under the fresh id `id`: the record with a full retention
      period, and the id in the index scored by `now`. */
  function CreateJob(s: Store, id: string, fileName: string, fileType: string, now: int): (r: (Job, Store))
    ensures r.0 == NewJob(id, fileName, fileType, now)
    ensures r.1.jobs == s.jobs[id := Entry(r.0, now + JobRetention)]
    ensures r.1.index == s.index[id := now]
    ensures r.1.results == s.results
  {
    var job := NewJob(id, fileName, fileType, now);
    (job, Store(s.jobs[id := Entry(job, now + JobRetention)], s.results, s.index[id := now]))
  }

  /** Reads a job record; 404 when the key is missing or expired. */
  function GetJob(s: Store, id: string, now: int): (r: HttpResult<Job>)
    ensures r.Ok? <==> Alive(s.jobs, id, now)
    ensures r.Ok? ==> r.value == s.jobs[id].value
    ensures r.Err? ==> r.error == HttpError(404, JobNotFound(id))
  {
    if Alive(s.jobs, id, now) then Ok(s.jobs[id].value) else Err(HttpError(404, JobNotFound(id)))
  }

  /** The record after a status update: status and `updated_at` always, progress
      and message only when supplied. */
  function Updated(j: Job, status: JobStatus, progress: Option<int>, message: Option<string>, now: int): (r: Job)
    ensures r.status == status && r.updatedAt == now
    ensures r.progress == (if progress.Some? then progress else j.progress)
    ensures r.message == (if message.Some? then message else j.message)
    ensures r.id == j.id && r.fileName == j.fileName && r.fileType == j.fileType && r.createdAt == j.createdAt
  {
    j.(status := status,
       updatedAt := now,
       progress := if progress.Some? then progress else j.progress,
       message := if message.Some? then message else j.message)
  }

  /** Overwrites a job's status, whatever it was before, and restarts its
      retention period; 404 when the job is missing or expired. */
  function UpdateJobStatus(s: Store, id: string, status: JobStatus, progress: Option<int>, message: Option<string>, now: int): (r: HttpResult<(Job, Store)>)
    ensures r.Ok? <==> Alive(s.jobs, id, now)
    ensures r.Err? ==> r.error == HttpError(404, JobNotFound(id))
    ensures r.Ok? ==> r.value.0 == Updated(s.jobs[id].value, status, progress, message, now)
    ensures r.Ok? ==> r.value.1 == s.(jobs := s.jobs[id := Entry(r.value.0, now + JobRetention)])
  {
    match GetJob(s, id, now)
    case Err(e) => Err(e)
    case Ok(j) =>
      var j' := Updated(j, status, progress, message, now);
      Ok((j', s.(jobs := s.jobs[id := Entry(j', now + JobRetention)])))
  }

  /** Stores a result for a live job, with a full retention period; the job
      record and the index are left as they are. 404 when the job is missing
      or expired. */
  function StoreJobResult(s: Store, id: string, result: ProcessingResult, now: int): (r: HttpResult<Store>)
    ensures r.Ok? <==> Alive(s.jobs, id, now)
    ensures r.Err? ==> r.error == HttpError(404, JobNotFound(id))
    ensures r.Ok? ==> r.value.jobs == s.jobs && r.value.index == s.index
    ensures r.Ok? ==> r.value.results == s.results[id := Entry(result, now + JobRetention)]
  {
    if !Alive(s.jobs, id, now) then Err(HttpError(404, JobNotFound(id)))
    else Ok(s.(results := s.results[id := Entry(result, now + JobRetention)]))
  }

  /** The detail of the 400 raised for a failed job without a result. */
  function FailedDetail(id: string, message: Option<string>): string {
    "Job " + id + " failed: " + message.GetOr("Unknown error")
  }

  /** The detail of the 404 raised while a job has no result yet. */
  function NotReadyDetail(id: string): string {
    "Result not available yet for job " + id
  }

  /** Reads a job's result. */
  function GetJobResult(s: Store, id: string, now: int): (r: HttpResult<ProcessingResult>)
    ensures !Alive(s.jobs, id, now) ==> r == Err(HttpError(404, JobNotFound(id)))
    ensures Alive(s.jobs, id, now) && Alive(s.results, id, now) ==> r == Ok(s.results[id].value)
    ensures Alive(s.jobs, id, now) && !Alive(s.results, id, now) && s.jobs[id].value.status == Failed
      ==> r == Err(HttpError(400, FailedDetail(id, s.jobs[id].value.message)))
    ensures Alive(s.jobs, id, now) && !Alive(s.results, id, now) && s.jobs[id].value.status != Failed
      ==> r == Err(HttpError(404, NotReadyDetail(id)))
  {
    if !Alive(s.jobs, id, now) then Err(HttpError(404, JobNotFound(id)))
    else if Alive(s.results, id, now) then Ok(s.results[id].value)
    else match GetJob(s, id, now)
      case Err(e) => Err(e)
      case Ok(j) =>
        if j.status == Failed then Err(HttpError(400, FailedDetail(id, j.message)))
        else Err(HttpError(404, NotReadyDetail(id)))
  }

  /** The index ids old enough to clean at `now`: score in `[0, now - JobRetention]`. */
  function OldIds(s: Store, now: int): (r: set<string>)
    ensures forall id :: id in r <==> id in s.index && 0 <= s.index[id] <= now - JobRetention
  {
    set id | id in s.index && 0 <= s.index[id] <= now - JobRetention
  }

  /** Deletes the job key, the result key and the index entry of every old id,
      and counts the old ids whether or not their keys were still alive. */
  function CleanOldJobs(s: Store, now: int): (r: (nat, Store))
    ensures r.0 == |OldIds(s, now)|
    ensures forall id :: id in r.1.index <==> id in s.index && id !in OldIds(s, now)
    ensures forall id :: id in r.1.index ==> r.1.index[id] == s.index[id]
    ensures forall id :: id in r.1.jobs <==> id in s.jobs && id !in OldIds(s, now)
    ensures forall id :: id in r.1.jobs ==> r.1.jobs[id] == s.jobs[id]
    ensures forall id :: id in r.1.results <==> id in s.results && id !in OldIds(s, now)
    ensures forall id :: id in r.1.results ==> r.1.results[id] == s.results[id]
  {
    var stale := OldIds(s, now);
    (|stale|, Store(s.jobs - stale, s.results - stale, s.index - stale))
  }

  /** Cleaning twice at the same instant removes nothing the second time. */
  lemma CleanIdempotent(s: Store, now: int)
    ensures CleanOldJobs(CleanOldJobs(s, now).1, now) == (0, CleanOldJobs(s, now).1)
  {
    var s' := CleanOldJobs(s, now).1;
    assert OldIds(s', now) == {};
    assert s'.jobs - {} == s'.jobs;
    assert s'.results - {} == s'.results;
    assert s'.index - {} == s'.index;
  }

  /** A job scored after the cutoff survives cleaning with its record and result. */
  lemma CleanKeepsRecentJobs(s: Store, id: string, now: int)
    requires id in s.index && s.index[id] > now - JobRetention
    ensures id in CleanOldJobs(s, now).1.index
    ensures Alive(s.jobs, id, now) ==> Alive(CleanOldJobs(s, now).1.jobs, id, now)
    ensures Alive(s.results, id, now) ==> Alive(CleanOldJobs(s, now).1.results, id, now)
  {
  }

  /** A freshly created job reads back as its record for the whole retention
      period, and is gone one second later. */
  lemma CreateThenGet(s: Store, id: string, fileName: string, fileType: string, now: int, later: int)
    requires now <= later
    ensures var (job, s') := CreateJob(s, id, fileName, fileType, now);
      (later <= now + JobRetention ==> GetJob(s', id, later) == Ok(job)) &&
      (later > now + JobRetention ==> GetJob(s', id, later).Err?)
  {
  }

  /** A stored result is what the next read returns. */
  lemma StoreThenGetResult(s: Store, id: string, result: ProcessingResult, now: int)
    requires StoreJobResult(s, id, result, now).Ok?
    ensures GetJobResult(StoreJobResult(s, id, result, now).value, id, now) == Ok(result)
  {
  }

  /** Storing a result never changes what `GetJob` returns. */
  lemma StoreResultKeepsJob(s: Store, id: string, other: string, result: ProcessingResult, now: int, later: int)
    requires StoreJobResult(s, id, result, now).Ok?
    ensures GetJob(StoreJobResult(s, id, result, now).value, other, later) == GetJob(s, other, later)
  {
  }

  /** The store does not enforce forward-only transitions: a completed job can
      be set back to pending. */
  lemma StatusCanMoveBackwards(s: Store, id: string, now: int)
    ensures var s1 := CreateJob(s, id, "f", "pdf", now).1;
      var u1 := UpdateJobStatus(s1, id, Completed, Some(100), None, now);
      u1.Ok? &&
      var u2 := UpdateJobStatus(u1.value.1, id, Pending, None, None, now);
      u2.Ok? && u2.value.0.status == Pending && u2.value.0.progress == Some(100)
  {
  }
}

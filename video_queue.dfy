/** The video-processing queue and its worker. The queue is an abstract map
    of entries, each waiting, active, completed or failed, under the
    configured limits. Which waiting entry the worker takes is a parameter,
    and so is which finished entries retention and cleaning drop: the
    scheduling itself is not modelled. */
module VideoQueue {
  import opened Wrappers
  import opened Text
  import opened Tables
  import opened Entities
  import opened Store
  import opened Files
  import opened Encoder
  import opened VideoService

  // Queue and worker configuration.
  const KeepCompleted := 10
  const KeepFailed := 5
  const Attempts := 3
  const BackoffBase := 2000
  const Concurrency := 2

  const Hour := 60 * 60 * 1000
  const CompletedGrace := 24 * Hour
  const CompletedCleanLimit := 100
  const FailedGrace := 7 * 24 * Hour
  const FailedCleanLimit := 50

  const RecordToUpdateNotFound := "Record to update not found."
  const ProcessingFailed := "Video processing failed"

  /** `VideoProcessingJobData`: the job-store record to drive is `jobId`. */
  datatype JobData = JobData(projectId: string, userId: string, options: CompositionOptions, jobId: string)

  datatype State = Waiting | Active | Completed | Failed

  /** How a run of the processor ended: a returned value or a thrown error
      (`Complete` and `Fail` are the queue's two responses). */
  datatype Outcome = Returned(value: Composition) | Threw(message: string)

  datatype Entry = Entry(
    data: JobData,
    priority: int,
    delay: int,
    state: State,
    attemptsMade: nat,
    timestamp: Time,
    finishedOn: Option<Time>,
    returnValue: Option<Composition>,
    failedReason: Option<string>)

  /** The keys of the entries in one state. */
  function KeysIn(entries: map<string, Entry>, s: State): (ks: set<string>)
    ensures ks <= entries.Keys && forall k :: k in ks <==> k in entries && entries[k].state == s
  {
    set k | k in entries && entries[k].state == s
  }

  /** Removing entries removes their keys from every state. */
  lemma KeysInRemove(entries: map<string, Entry>, s: State, removed: set<string>)
    ensures KeysIn(entries - removed, s) == KeysIn(entries, s) - removed
  {
  }

  /** Every entry is in exactly one state, so the four counts add up to the
      number of entries. */
  lemma StatesPartition(entries: map<string, Entry>)
    ensures |KeysIn(entries, Waiting)| + |KeysIn(entries, Active)| + |KeysIn(entries, State.Completed)|
            + |KeysIn(entries, State.Failed)| == |entries|
  {
    var w, a, c, f := KeysIn(entries, Waiting), KeysIn(entries, Active), KeysIn(entries, State.Completed), KeysIn(entries, State.Failed);
    assert w * a == {} && (w + a) * c == {} && (w + a + c) * f == {};
    assert w + a + c + f == entries.Keys;
  }

  /** Removing a subset takes away exactly its size. */
  lemma RemoveSubset(s: set<string>, removed: set<string>)
    requires removed <= s
    ensures |s - removed| == |s| - |removed|
  {
    assert s == (s - removed) + removed;
    assert (s - removed) * removed == {};
  }

  /** A key the queue handed out: the decimal form of one of the first
      `counter` positive integers. */
  ghost predicate Issued(id: string, counter: nat) {
    exists k: nat :: 1 <= k <= counter && id == NatToString(k)
  }

  /** The next key differs from every key handed out. */
  lemma NextKeyFresh(id: string, counter: nat)
    requires Issued(id, counter)
    ensures id != NatToString(counter + 1)
  {
    var k: nat :| 1 <= k <= counter && id == NatToString(k);
    DigitsValueOfNatToString(k);
    DigitsValueOfNatToString(counter + 1);
  }

  /** `2000 * 2^(attempt - 1)` milliseconds before the retry after the
      `attempt`-th failure. */
  function Backoff(attempt: nat): (ms: nat)
    requires attempt >= 1
    ensures ms >= BackoffBase
    ensures attempt > 1 ==> ms == 2 * Backoff(attempt - 1)
  {
    if attempt == 1 then BackoffBase else 2 * Backoff(attempt - 1)
  }

  function Min(a: nat, b: nat): nat {
    if a <= b then a else b
  }

  /** Finishing the active entry `id` and dropping other entries leaves
      fewer active entries and the rest as they were. */
  lemma SettleFrame(before: map<string, Entry>, id: string, x: Entry, removed: set<string>)
    requires id in before && before[id].state == Active && x.state != Active && id !in removed
    ensures var after := before[id := x] - removed;
      && id in after && after[id] == x
      && (forall k :: k in after ==> k in before)
      && (forall k :: k in after && k != id ==> after[k] == before[k])
      && |KeysIn(after, Active)| < |KeysIn(before, Active)|
  {
    var updated := before[id := x];
    var after := updated - removed;
    KeysInRemove(updated, Active, removed);
    assert KeysIn(updated, Active) == KeysIn(before, Active) - {id};
    RemoveSubset(KeysIn(before, Active), {id});
    SubsetSize(KeysIn(after, Active), KeysIn(updated, Active));
  }

  datatype QueueStatus = QueueStatus(waiting: nat, active: nat, completed: nat, failed: nat, total: nat)

  class Queue {
    var entries: map<string, Entry>
    var paused: bool
    var counter: nat

    ghost predicate Valid()
      reads this
    {
      && (forall id :: id in entries ==> Issued(id, counter))
      && |KeysIn(entries, Active)| <= Concurrency
    }

    constructor ()
      ensures Valid() && entries == map[] && !paused && counter == 0
    {
      entries, paused, counter := map[], false, 0;
    }

    /** `addVideoProcessingJob`: a new waiting entry with
        `priority = options.priority || 0` and `delay = options.delay || 0`. */
    method Add(data: JobData, now: Time) returns (id: string)
      requires Valid()
      modifies this
      ensures Valid() && paused == old(paused)
      ensures id !in old(entries)
      ensures entries == old(entries)[id := Entry(data, NumberOr(data.options.priority, 0),
                                                  NumberOr(data.options.delay, 0), Waiting, 0, now, None, None, None)]
    {
      id := NatToString(counter + 1);
      if id in entries {
        NextKeyFresh(id, counter);
      }
      entries := entries[id := Entry(data, NumberOr(data.options.priority, 0), NumberOr(data.options.delay, 0),
                                     Waiting, 0, now, None, None, None)];
      counter := counter + 1;
      forall k | k in entries ensures Issued(k, counter) {
        if k != id {
          var j: nat :| 1 <= j <= counter - 1 && k == NatToString(j);
        }
      }
      assert KeysIn(entries, Active) == KeysIn(old(entries), Active);
    }

    /** The worker takes the waiting entry `id`: refused while the queue is
        paused, while two entries are active, or when `id` is not waiting. */
    method Start(id: string) returns (started: bool)
      requires Valid()
      modifies this
      ensures Valid() && paused == old(paused) && counter == old(counter)
      ensures started <==> !old(paused) && id in old(entries) && old(entries)[id].state == Waiting
                           && |KeysIn(old(entries), Active)| < Concurrency
      ensures entries == if started then old(entries)[id := old(entries)[id].(state := Active)] else old(entries)
    {
      if paused || id !in entries || entries[id].state != Waiting || |KeysIn(entries, Active)| >= Concurrency {
        return false;
      }
      var old_ := entries;
      entries := entries[id := entries[id].(state := Active)];
      assert KeysIn(entries, Active) == KeysIn(old_, Active) + {id};
      started := true;
    }

    /** Drops `n` of the `candidates` (which ones is the parameter of the
        choice); nothing else changes. */
    method Evict(candidates: set<string>, n: nat) returns (removed: set<string>)
      requires candidates <= entries.Keys && n <= |candidates|
      modifies this
      ensures removed <= candidates && |removed| == n
      ensures entries == old(entries) - removed
      ensures paused == old(paused) && counter == old(counter)
    {
      removed := {};
      while |removed| < n
        invariant removed <= candidates
        invariant entries == old(entries) - removed
        invariant |removed| <= n
        invariant paused == old(paused) && counter == old(counter)
        decreases n - |removed|
      {
        RemoveSubset(candidates, removed);
        var k :| k in candidates - removed;
        entries := entries - {k};
        removed := removed + {k};
      }
    }

    /** Keeps at most `limit` entries in state `s`, never dropping `keep`. */
    method Retain(s: State, limit: nat, keep: string) returns (removed: set<string>)
      requires limit >= 1 && keep in KeysIn(entries, s)
      modifies this
      ensures keep !in removed && removed <= KeysIn(old(entries), s)
      ensures entries == old(entries) - removed
      ensures |KeysIn(entries, s)| == Min(|KeysIn(old(entries), s)|, limit)
      ensures paused == old(paused) && counter == old(counter)
    {
      var inState := KeysIn(entries, s);
      if |inState| <= limit {
        assert entries == entries - {};
        return {};
      }
      RemoveSubset(inState, {keep});
      removed := Evict(inState - {keep}, |inState| - limit);
      KeysInRemove(old(entries), s, removed);
      RemoveSubset(inState, removed);
    }

    /** The processor returned for the active entry `id`: it is completed
        with the value, and at most 10 completed entries are kept. */
    method Complete(id: string, value: Composition, now: Time) returns (removed: set<string>)
      requires Valid() && id in entries && entries[id].state == Active
      modifies this
      ensures Valid() && paused == old(paused) && counter == old(counter)
      ensures id in entries && id !in removed && removed <= KeysIn(old(entries), State.Completed)
      ensures entries == old(entries)[id := old(entries)[id].(state := State.Completed, finishedOn := Some(now),
                                                             returnValue := Some(value))] - removed
      ensures |KeysIn(entries, State.Completed)| <= KeepCompleted
      ensures |KeysIn(entries, State.Completed)| == Min(|KeysIn(old(entries), State.Completed)| + 1, KeepCompleted)
    {
      var before := entries;
      entries := entries[id := entries[id].(state := State.Completed, finishedOn := Some(now), returnValue := Some(value))];
      ghost var updated := entries;
      removed := Retain(State.Completed, KeepCompleted, id);
      assert KeysIn(updated, State.Completed) == KeysIn(before, State.Completed) + {id};
      SettleFrame(before, id, updated[id], removed);
    }

    /** The processor threw for the active entry `id`: a retry waits
        `2000 * 2^(n-1)` ms after the n-th failed attempt, until the third
        attempt fails the entry; at most 5 failed entries are kept. */
    method Fail(id: string, message: string, now: Time) returns (removed: set<string>)
      requires Valid() && id in entries && entries[id].state == Active
      modifies this
      ensures Valid() && paused == old(paused) && counter == old(counter)
      ensures id in entries && id !in removed && removed <= KeysIn(old(entries), State.Failed)
      ensures var e := old(entries)[id];
        e.attemptsMade + 1 < Attempts ==>
          removed == {} &&
          entries == old(entries)[id := e.(state := Waiting, attemptsMade := e.attemptsMade + 1,
                                           delay := Backoff(e.attemptsMade + 1), failedReason := Some(message))]
      ensures var e := old(entries)[id];
        e.attemptsMade + 1 >= Attempts ==>
          entries == old(entries)[id := e.(state := State.Failed, attemptsMade := e.attemptsMade + 1,
                                           finishedOn := Some(now), failedReason := Some(message))] - removed
      ensures |KeysIn(entries, State.Failed)| <= KeepFailed || entries[id].state == Waiting
      ensures old(entries)[id].attemptsMade + 1 >= Attempts ==>
        |KeysIn(entries, State.Failed)| == Min(|KeysIn(old(entries), State.Failed)| + 1, KeepFailed)
    {
      var before := entries;
      var e := entries[id];
      var attempt := e.attemptsMade + 1;
      if attempt < Attempts {
        entries := entries[id := e.(state := Waiting, attemptsMade := attempt, delay := Backoff(attempt),
                                    failedReason := Some(message))];
        removed := {};
        assert entries - removed == entries;
        SettleFrame(before, id, entries[id], removed);
      } else {
        entries := entries[id := e.(state := State.Failed, attemptsMade := attempt, finishedOn := Some(now),
                                    failedReason := Some(message))];
        ghost var updated := entries;
        removed := Retain(State.Failed, KeepFailed, id);
        assert KeysIn(updated, State.Failed) == KeysIn(before, State.Failed) + {id};
        SettleFrame(before, id, updated[id], removed);
      }
    }

    /** `getQueueStatus`. */
    function Status(): (s: QueueStatus)
      reads this
      ensures s.total == s.waiting + s.active + s.completed + s.failed
      ensures s.total == |entries|
      ensures s.waiting == |KeysIn(entries, Waiting)| && s.active == |KeysIn(entries, Active)|
      ensures s.completed == |KeysIn(entries, State.Completed)| && s.failed == |KeysIn(entries, State.Failed)|
    {
      StatesPartition(entries);
      var w, a, c, f := |KeysIn(entries, Waiting)|, |KeysIn(entries, Active)|,
                        |KeysIn(entries, State.Completed)|, |KeysIn(entries, State.Failed)|;
      QueueStatus(w, a, c, f, w + a + c + f)
    }

    /** `getJobStatus`: `null` for an unknown id. */
    function JobStatus(id: string): (r: Option<Entry>)
      reads this
      ensures r.Some? <==> id in entries
      ensures r.Some? ==> r.value == entries[id]
    {
      if id in entries then Some(entries[id]) else None
    }

    method Pause()
      requires Valid()
      modifies this
      ensures Valid() && paused && entries == old(entries) && counter == old(counter)
    {
      paused := true;
    }

    method Resume()
      requires Valid()
      modifies this
      ensures Valid() && !paused && entries == old(entries) && counter == old(counter)
    {
      paused := false;
    }

    /** Finished entries in state `s` older than `grace` at `now`. */
    function Expired(s: State, grace: int, now: Time): (ks: set<string>)
      reads this
      ensures ks <= KeysIn(entries, s)
      ensures forall k :: k in ks <==> k in entries && entries[k].state == s && entries[k].finishedOn.Some?
                                       && entries[k].finishedOn.value < now - grace
    {
      set k | k in entries && entries[k].state == s && entries[k].finishedOn.Some?
                && entries[k].finishedOn.value < now - grace
    }

    /** `cleanQueue`: up to 100 completed entries finished more than a day
        ago, then up to 50 failed entries finished more than a week ago.
        Waiting and active entries are never touched. */
    method Clean(now: Time) returns (cleanedCompleted: set<string>, cleanedFailed: set<string>)
      requires Valid()
      modifies this
      ensures Valid() && paused == old(paused) && counter == old(counter)
      ensures cleanedCompleted <= old(Expired(State.Completed, CompletedGrace, now))
      ensures |cleanedCompleted| == Min(|old(Expired(State.Completed, CompletedGrace, now))|, CompletedCleanLimit)
      ensures cleanedFailed <= old(Expired(State.Failed, FailedGrace, now))
      ensures |cleanedFailed| == Min(|old(Expired(State.Failed, FailedGrace, now))|, FailedCleanLimit)
      ensures entries == old(entries) - cleanedCompleted - cleanedFailed
      ensures forall k :: k in old(entries) && old(entries)[k].state in {Waiting, Active} ==>
        k in entries && entries[k] == old(entries)[k]
    {
      var completed := Expired(State.Completed, CompletedGrace, now);
      cleanedCompleted := Evict(completed, Min(|completed|, CompletedCleanLimit));
      ghost var middle := entries;
      var failed := Expired(State.Failed, FailedGrace, now);
      assert failed == old(Expired(State.Failed, FailedGrace, now));
      cleanedFailed := Evict(failed, Min(|failed|, FailedCleanLimit));
      assert KeysIn(entries, Active) <= KeysIn(old(entries), Active);
      SubsetSize(KeysIn(entries, Active), KeysIn(old(entries), Active));
    }
  }

  lemma SubsetSize(a: set<string>, b: set<string>)
    requires a <= b
    ensures |a| <= |b|
  {
    RemoveSubset(b, a);
  }

  // ---------------------------------------------------------------------------
  // processVideoJob

  /** The record the worker leaves: `failed` with the thrown message, or
      `completed` with the movie's path as text; both stamped. */
  predicate WorkerSettled(before: Job, after: Job, outcome: Outcome, startedAt: Time, completedAt: Time) {
    match outcome
    case Returned(value) =>
      value.success && value.videoUrl.Some?
      && after == before.(status := JobStatus.Completed, output := VideoUrlText(value.videoUrl.value),
                          startedAt := Some(startedAt), completedAt := Some(completedAt))
    case Threw(message) =>
      message != ""
      && after == before.(status := JobStatus.Failed, error := Some(message),
                          startedAt := Some(startedAt), completedAt := Some(completedAt))
  }

  /** What `composeMovie` did once the project and its scenes checked out:
      it appended its own record `appended`, created `processing` at `now`,
      and returned `r`. A failed `mkdir` returns that error and leaves the
      record `processing`; otherwise the result and the settled record say
      whether the scenes rendered into the output path. */
  ghost predicate ComposedAfterChecks(run: Invocation -> bool, data: JobData, scenes: seq<Scene>, cwd: string,
                                      uuid: string, mkdirError: Option<string>, now: Time, finishedAt: Time,
                                      appended: Job, r: Composition)
  {
    var created := ComposeRecord(appended.id, data.userId, data.projectId, |scenes|, data.options, now);
    var outputPath := OutputPath(TempDir(cwd, appended.id), uuid, data.options);
    if mkdirError.Some? then
      r == VideoService.Failure(mkdirError.value) && appended == created
    else
      var rendered := Renders(run, scenes, outputPath, data.options);
      r == CompositionResult(created, rendered, outputPath)
      && appended == FinishedComposition(created, rendered, outputPath, finishedAt)
  }

  /** The worker's outcome once the composition got past its checks: a failed
      `mkdir` is thrown as `mkdirError || 'Video processing failed'`; otherwise
      the worker returns exactly when the scenes rendered, with the movie's
      path and the composition's own record id, and throws `ScenesFailed`
      when they did not. */
  ghost predicate WorkerComposed(run: Invocation -> bool, data: JobData, scenes: seq<Scene>, cwd: string,
                                 uuid: string, mkdirError: Option<string>, now: Time, finishedAt: Time,
                                 appended: Job, outcome: Outcome)
  {
    var created := ComposeRecord(appended.id, data.userId, data.projectId, |scenes|, data.options, now);
    var outputPath := OutputPath(TempDir(cwd, appended.id), uuid, data.options);
    if mkdirError.Some? then
      outcome == Threw(StringOr(mkdirError, ProcessingFailed)) && appended == created
    else
      var rendered := Renders(run, scenes, outputPath, data.options);
      && (outcome.Returned? <==> rendered)
      && (outcome.Returned? ==> outcome.value == Composition(true, Some(outputPath), Some(appended.id), None))
      && (outcome.Threw? ==> outcome.message == ScenesFailed)
      && appended == FinishedComposition(created, rendered, outputPath, finishedAt)
  }

  /** Settling the composition's result as the worker does yields the outcome
      `WorkerComposed` describes. */
  lemma SettledComposition(run: Invocation -> bool, data: JobData, scenes: seq<Scene>, cwd: string, uuid: string,
                           mkdirError: Option<string>, now: Time, finishedAt: Time, appended: Job,
                           r: Composition, outcome: Outcome)
    requires ComposedAfterChecks(run, data, scenes, cwd, uuid, mkdirError, now, finishedAt, appended, r)
    requires outcome.Returned? <==> r.success && r.videoUrl.Some?
    requires outcome.Returned? ==> outcome.value == r
    requires outcome.Threw? ==> outcome.message == StringOr(r.error, ProcessingFailed)
    ensures WorkerComposed(run, data, scenes, cwd, uuid, mkdirError, now, finishedAt, appended, outcome)
  {
  }

  /** `processVideoJob`: marks the record `processing` with its start time,
      runs the composition, and records the result. A failed composition
      throws `result.error || 'Video processing failed'`, which the handler
      records before rethrowing. When the record does not exist the first
      update throws, and so does the handler's, so nothing changes. */
  method ProcessVideoJob(db: Database, fs: FileSystem, run: Invocation -> bool, data: JobData, cwd: string,
                         uuid: string, mkdirError: Option<string>, startedAt: Time, composedAt: Time,
                         composeFinishedAt: Time, completedAt: Time)
    returns (outcome: Outcome)
    requires db.Valid()
    modifies db, fs
    ensures db.Valid() && OnlyJobsChanged(db)
    ensures data.jobId !in Keys(old(db.jobs), JobKey) ==>
      outcome == Threw(RecordToUpdateNotFound) && db.jobs == old(db.jobs)
    ensures data.jobId in Keys(old(db.jobs), JobKey) ==>
      && |old(db.jobs)| <= |db.jobs| <= |old(db.jobs)| + 1
      && var i := IndexOfKey(old(db.jobs), JobKey, data.jobId).value;
      && WorkerSettled(old(db.jobs)[i], db.jobs[i], outcome, startedAt, completedAt)
      && (forall k :: 0 <= k < |old(db.jobs)| && k != i ==> db.jobs[k] == old(db.jobs)[k])
      && (OwnedProject(old(db.projects), data.projectId, data.userId).None? ==>
            outcome == Threw(ProjectNotFound) && |db.jobs| == |old(db.jobs)|)
      && (OwnedProject(old(db.projects), data.projectId, data.userId).Some?
          && CompletedScenes(old(db.scenes), data.projectId) == [] ==>
            outcome == Threw(NoCompletedScenes) && |db.jobs| == |old(db.jobs)|)
    ensures data.jobId in Keys(old(db.jobs), JobKey) ==>
      db.jobs[IndexOfKey(old(db.jobs), JobKey, data.jobId).value].status != JobStatus.Processing
    ensures data.jobId in Keys(old(db.jobs), JobKey) && Composes(old(db.projects), old(db.scenes), data.projectId, data.userId) ==>
      && |db.jobs| == |old(db.jobs)| + 1
      && WorkerComposed(run, data, CompletedScenes(old(db.scenes), data.projectId), cwd, uuid, mkdirError, composedAt,
                        composeFinishedAt, db.jobs[|old(db.jobs)|], outcome)
  {
    var found := IndexOfKey(db.jobs, JobKey, data.jobId);
    if found.None? {
      return Threw(RecordToUpdateNotFound);
    }
    outcome := ProcessRecord(db, fs, run, data, found.value, cwd, uuid, mkdirError, startedAt, composedAt,
                             composeFinishedAt, completedAt);
  }

  /** What the worker leaves once record `i` of `before` is known to exist:
      the record settled by the outcome and every other record kept, the
      composition's own record appended unless the project or its scenes
      fail the checks, and the outcome those checks or the composition give. */
  ghost predicate WorkerProcessed(projects: seq<Project>, scenes: seq<Scene>, before: seq<Job>, after: seq<Job>,
                                  i: nat, run: Invocation -> bool, data: JobData, cwd: string, uuid: string,
                                  mkdirError: Option<string>, startedAt: Time, composedAt: Time,
                                  composeFinishedAt: Time, completedAt: Time, outcome: Outcome)
  {
    && i < |before| <= |after| <= |before| + 1
    && WorkerSettled(before[i], after[i], outcome, startedAt, completedAt)
    && (forall k :: 0 <= k < |before| && k != i ==> after[k] == before[k])
    && (OwnedProject(projects, data.projectId, data.userId).None? ==>
          outcome == Threw(ProjectNotFound) && |after| == |before|)
    && (OwnedProject(projects, data.projectId, data.userId).Some? && CompletedScenes(scenes, data.projectId) == [] ==>
          outcome == Threw(NoCompletedScenes) && |after| == |before|)
    && (Composes(projects, scenes, data.projectId, data.userId) ==>
          && |after| == |before| + 1
          && WorkerComposed(run, data, CompletedScenes(scenes, data.projectId), cwd, uuid, mkdirError, composedAt,
                            composeFinishedAt, after[|before|], outcome))
  }

  /** `processVideoJob` once the record `i` is known to exist. */
  method ProcessRecord(db: Database, fs: FileSystem, run: Invocation -> bool, data: JobData, i: nat, cwd: string,
                       uuid: string, mkdirError: Option<string>, startedAt: Time, composedAt: Time,
                       composeFinishedAt: Time, completedAt: Time)
    returns (outcome: Outcome)
    requires db.Valid() && i < |db.jobs|
    modifies db, fs
    ensures db.Valid() && OnlyJobsChanged(db)
    ensures WorkerProcessed(old(db.projects), old(db.scenes), old(db.jobs), db.jobs, i, run, data, cwd, uuid,
                            mkdirError, startedAt, composedAt, composeFinishedAt, completedAt, outcome)
  {
    ghost var original := db.jobs;
    var result := MarkAndCompose(db, fs, run, data, i, cwd, uuid, mkdirError, startedAt, composedAt,
                                 composeFinishedAt);
    ghost var composed := db.jobs;
    outcome := Finish(db, i, result, completedAt);
    ProcessedFromSteps(db.projects, db.scenes, original, composed, db.jobs, i, run, data, cwd, uuid, mkdirError,
                       startedAt, composedAt, composeFinishedAt, completedAt, result, outcome);
  }

  /** Marking and composing, then writing the outcome `Finish` derives from
      the result, is what `WorkerProcessed` describes. */
  lemma ProcessedFromSteps(projects: seq<Project>, scenes: seq<Scene>, original: seq<Job>, composed: seq<Job>,
                           settled: seq<Job>, i: nat, run: Invocation -> bool, data: JobData, cwd: string,
                           uuid: string, mkdirError: Option<string>, startedAt: Time, composedAt: Time,
                           composeFinishedAt: Time, completedAt: Time, result: Composition, outcome: Outcome)
    requires i < |original| <= |composed| <= |original| + 1
    requires composed[i] == original[i].(status := JobStatus.Processing, startedAt := Some(startedAt))
    requires forall k :: 0 <= k < |original| && k != i ==> composed[k] == original[k]
    requires OwnedProject(projects, data.projectId, data.userId).None? ==>
      result == VideoService.Failure(ProjectNotFound) && |composed| == |original|
    requires OwnedProject(projects, data.projectId, data.userId).Some? && CompletedScenes(scenes, data.projectId) == [] ==>
      result == VideoService.Failure(NoCompletedScenes) && |composed| == |original|
    requires Composes(projects, scenes, data.projectId, data.userId) ==>
      && |composed| == |original| + 1
      && ComposedAfterChecks(run, data, CompletedScenes(scenes, data.projectId), cwd, uuid, mkdirError,
                             composedAt, composeFinishedAt, composed[|original|], result)
    requires outcome.Returned? <==> result.success && result.videoUrl.Some?
    requires outcome.Returned? ==> outcome.value == result
    requires outcome.Threw? ==> outcome.message == StringOr(result.error, ProcessingFailed)
    requires settled == composed[i := Finished(composed[i], outcome, completedAt)]
    ensures WorkerProcessed(projects, scenes, original, settled, i, run, data, cwd, uuid, mkdirError, startedAt,
                            composedAt, composeFinishedAt, completedAt, outcome)
  {
    MarkedThenFinished(original[i], outcome, startedAt, completedAt);
    RecordOnlySettled(original, composed, settled, i, outcome, completedAt);
    if Composes(projects, scenes, data.projectId, data.userId) {
      SettledComposition(run, data, CompletedScenes(scenes, data.projectId), cwd, uuid, mkdirError, composedAt,
                         composeFinishedAt, composed[|original|], result, outcome);
    }
  }

  /** Writing the outcome to record `i` leaves every other record, and the
      one the composition appended, as they were. */
  lemma RecordOnlySettled(original: seq<Job>, composed: seq<Job>, settled: seq<Job>, i: nat, outcome: Outcome,
                          completedAt: Time)
    requires i < |original| <= |composed|
    requires forall k :: 0 <= k < |original| && k != i ==> composed[k] == original[k]
    requires settled == composed[i := Finished(composed[i], outcome, completedAt)]
    ensures |settled| == |composed|
    ensures forall k :: 0 <= k < |original| && k != i ==> settled[k] == original[k]
    ensures |composed| > |original| ==> settled[|original|] == composed[|original|]
  {
  }

  /** Marks record `i` `processing` with its start time, then composes. */
  method MarkAndCompose(db: Database, fs: FileSystem, run: Invocation -> bool, data: JobData, i: nat, cwd: string,
                        uuid: string, mkdirError: Option<string>, startedAt: Time, composedAt: Time,
                        composeFinishedAt: Time)
    returns (result: Composition)
    requires db.Valid() && i < |db.jobs|
    modifies db, fs
    ensures db.Valid() && OnlyJobsChanged(db)
    ensures |old(db.jobs)| <= |db.jobs| <= |old(db.jobs)| + 1
    ensures db.jobs[i] == old(db.jobs)[i].(status := JobStatus.Processing, startedAt := Some(startedAt))
    ensures forall k :: 0 <= k < |old(db.jobs)| && k != i ==> db.jobs[k] == old(db.jobs)[k]
    ensures OwnedProject(old(db.projects), data.projectId, data.userId).None? ==>
      result == VideoService.Failure(ProjectNotFound) && |db.jobs| == |old(db.jobs)|
    ensures OwnedProject(old(db.projects), data.projectId, data.userId).Some?
            && CompletedScenes(old(db.scenes), data.projectId) == [] ==>
      result == VideoService.Failure(NoCompletedScenes) && |db.jobs| == |old(db.jobs)|
    ensures result.success ==> result.videoUrl.Some?
    ensures Composes(old(db.projects), old(db.scenes), data.projectId, data.userId) ==>
      && |db.jobs| == |old(db.jobs)| + 1
      && ComposedAfterChecks(run, data, CompletedScenes(old(db.scenes), data.projectId), cwd, uuid, mkdirError,
                             composedAt, composeFinishedAt, db.jobs[|old(db.jobs)|], result)
  {
    var record := db.jobs[i];
    SetJob(db, i, record.(status := JobStatus.Processing, startedAt := Some(startedAt)));
    ghost var marked := db.jobs;
    result := Compose(db, fs, run, data, cwd, uuid, mkdirError, composedAt, composeFinishedAt);
    assert db.jobs[..|marked|] == marked;
    assert forall k :: 0 <= k < |marked| ==> db.jobs[k] == marked[k];
  }

  /** `composeMovie` as the worker sees it: the records before stay, at most
      its own record is added, and a successful result carries the path. */
  method Compose(db: Database, fs: FileSystem, run: Invocation -> bool, data: JobData, cwd: string, uuid: string,
                 mkdirError: Option<string>, now: Time, finishedAt: Time)
    returns (r: Composition)
    requires db.Valid()
    modifies db, fs
    ensures db.Valid() && OnlyJobsChanged(db)
    ensures |old(db.jobs)| <= |db.jobs| <= |old(db.jobs)| + 1 && db.jobs[..|old(db.jobs)|] == old(db.jobs)
    ensures OwnedProject(old(db.projects), data.projectId, data.userId).None? ==>
      r == VideoService.Failure(ProjectNotFound) && |db.jobs| == |old(db.jobs)|
    ensures OwnedProject(old(db.projects), data.projectId, data.userId).Some?
            && CompletedScenes(old(db.scenes), data.projectId) == [] ==>
      r == VideoService.Failure(NoCompletedScenes) && |db.jobs| == |old(db.jobs)|
    ensures r.success ==> r.videoUrl.Some?
    ensures Composes(old(db.projects), old(db.scenes), data.projectId, data.userId) ==>
      && |db.jobs| == |old(db.jobs)| + 1
      && ComposedAfterChecks(run, data, CompletedScenes(old(db.scenes), data.projectId), cwd, uuid, mkdirError,
                             now, finishedAt, db.jobs[|old(db.jobs)|], r)
  {
    r := ComposeMovie(db, fs, run, data.projectId, data.userId, data.options, cwd, uuid, mkdirError, now, finishedAt);
  }

  /** The worker's last write to a record, by outcome. */
  function Finished(j: Job, outcome: Outcome, completedAt: Time): Job {
    match outcome
    case Returned(value) =>
      j.(status := JobStatus.Completed, output := VideoUrlText(value.videoUrl.GetOr("")), completedAt := Some(completedAt))
    case Threw(message) =>
      j.(status := JobStatus.Failed, error := Some(message), completedAt := Some(completedAt))
  }

  /** Marking a record `processing` and then writing an outcome the worker
      can produce settles it as the worker promises. */
  lemma MarkedThenFinished(j: Job, outcome: Outcome, startedAt: Time, completedAt: Time)
    requires outcome.Returned? ==> outcome.value.success && outcome.value.videoUrl.Some?
    requires outcome.Threw? ==> outcome.message != ""
    ensures WorkerSettled(j, Finished(j.(status := JobStatus.Processing, startedAt := Some(startedAt)), outcome,
                                      completedAt), outcome, startedAt, completedAt)
  {
  }

  /** The worker's last update of record `i`, from the composition's result. */
  method Finish(db: Database, i: nat, result: Composition, completedAt: Time) returns (outcome: Outcome)
    requires db.Valid() && i < |db.jobs|
    modifies db
    ensures db.Valid() && OnlyJobsChanged(db)
    ensures outcome.Returned? <==> result.success && result.videoUrl.Some?
    ensures outcome.Returned? ==> outcome.value == result
    ensures outcome.Threw? ==> outcome.message == StringOr(result.error, ProcessingFailed)
    ensures db.jobs == old(db.jobs)[i := Finished(old(db.jobs)[i], outcome, completedAt)]
  {
    if result.success && result.videoUrl.Some? {
      outcome := Returned(result);
    } else {
      outcome := Threw(StringOr(result.error, ProcessingFailed));
    }
    SetJob(db, i, Finished(db.jobs[i], outcome, completedAt));
  }
}

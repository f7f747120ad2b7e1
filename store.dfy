/** The relational store the services share (Prisma over one database): one
    table per entity, each kept in insertion order, with the primary keys and
    the unique `email` column of users enforced. */
module Store {
  import opened Wrappers
  import opened Tables
  import opened Entities

  class Database {
    var users: seq<User>
    var projects: seq<Project>
    var scenes: seq<Scene>
    var characters: seq<Character>
    var jobs: seq<Job>

    ghost predicate Valid()
      reads this
    {
      && UniqueKeys(users, UserKey)
      && UniqueKeys(users, UserEmail)
      && UniqueKeys(projects, ProjectKey)
      && UniqueKeys(scenes, SceneKey)
      && UniqueKeys(characters, CharacterKey)
      && UniqueKeys(jobs, JobKey)
    }

    constructor ()
      ensures Valid()
      ensures users == [] && projects == [] && scenes == [] && characters == [] && jobs == []
    {
      users, projects, scenes, characters, jobs := [], [], [], [], [];
    }
  }

  // Frame conditions: which tables an operation leaves as they were.

  twostate predicate OnlyUsersChanged(db: Database) reads db {
    db.projects == old(db.projects) && db.scenes == old(db.scenes)
    && db.characters == old(db.characters) && db.jobs == old(db.jobs)
  }

  twostate predicate OnlyProjectsChanged(db: Database) reads db {
    db.users == old(db.users) && db.scenes == old(db.scenes)
    && db.characters == old(db.characters) && db.jobs == old(db.jobs)
  }

  twostate predicate OnlyScenesChanged(db: Database) reads db {
    db.users == old(db.users) && db.projects == old(db.projects)
    && db.characters == old(db.characters) && db.jobs == old(db.jobs)
  }

  twostate predicate OnlyCharactersChanged(db: Database) reads db {
    db.users == old(db.users) && db.projects == old(db.projects)
    && db.scenes == old(db.scenes) && db.jobs == old(db.jobs)
  }

  twostate predicate OnlyJobsChanged(db: Database) reads db {
    db.users == old(db.users) && db.projects == old(db.projects)
    && db.scenes == old(db.scenes) && db.characters == old(db.characters)
  }

  /** A primary key the table does not hold yet (the store's `@default(cuid())`;
      the generator's format is not modelled, only its freshness). */
  method NewKey(taken: seq<string>) returns (id: string)
    ensures id !in taken
  {
    var longest: nat := 0;
    var i := 0;
    while i < |taken|
      invariant 0 <= i <= |taken|
      invariant forall j :: 0 <= j < i ==> |taken[j]| <= longest
    {
      if |taken[i]| > longest {
        longest := |taken[i]|;
      }
      i := i + 1;
    }
    id := seq(longest + 1, _ => 'c');
    assert forall j :: 0 <= j < |taken| ==> |taken[j]| < |id|;
  }

  /** `project.findFirst({ where: { id: projectId, userId } })`. */
  function OwnedProject(projects: seq<Project>, projectId: string, userId: string): (r: Option<Project>)
    ensures r.Some? ==> r.value in projects && r.value.id == projectId && r.value.userId == userId
    ensures r.None? <==> forall p :: p in projects ==> !(p.id == projectId && p.userId == userId)
  {
    var matching := Filter(projects, (p: Project) => p.id == projectId && p.userId == userId);
    if matching == [] then None else Some(matching[0])
  }


  // ---------------------------------------------------------------------------
  // Generation-job records, shared by the AI services, the composition and
  // the queue worker

  /** The jobs satisfying `p`, newest first, the first `n` of them (the oldest
      `-n` when `n` is negative): `findMany` with `orderBy: { createdAt:
      'desc' }` and `take`. A non-negative page keeps the newest jobs. */
  function NewestJobs(jobs: seq<Job>, p: Job -> bool, n: int): (r: seq<Job>)
    ensures forall j :: j in r ==> j in jobs && p(j)
    ensures forall i, k :: 0 <= i < k < |r| ==> r[i].createdAt >= r[k].createdAt
    ensures multiset(r) <= multiset(Filter(jobs, p))
    ensures n >= 0 ==> |r| == if n <= Count(jobs, p) then n else Count(jobs, p)
    ensures n < 0 ==> |r| == if -n <= Count(jobs, p) then -n else Count(jobs, p)
    ensures n >= 0 ==> forall j, x :: j in jobs && p(j) && j !in r && x in r ==> x.createdAt >= j.createdAt
    ensures n < 0 ==> forall j, x :: j in jobs && p(j) && j !in r && x in r ==> x.createdAt <= j.createdAt
  {
    var r := TopBy(jobs, p, JobRecency, n);
    assert forall i, k :: 0 <= i < k < |r| ==> JobRecency(r[i]) <= JobRecency(r[k]);
    NewestKept(jobs, p, n);
    r
  }

  /** A job left out of a non-negative page is no newer than one taken; one
      left out of a negative page (the oldest `-n`) is no older. */
  lemma NewestKept(jobs: seq<Job>, p: Job -> bool, n: int)
    ensures var r := TopBy(jobs, p, JobRecency, n);
      n >= 0 ==> forall j, x :: j in jobs && p(j) && j !in r && x in r ==> x.createdAt >= j.createdAt
    ensures var r := TopBy(jobs, p, JobRecency, n);
      n < 0 ==> forall j, x :: j in jobs && p(j) && j !in r && x in r ==> x.createdAt <= j.createdAt
  {
    var r := TopBy(jobs, p, JobRecency, n);
    forall j, x | j in jobs && p(j) && j !in r && x in r
      ensures n >= 0 ==> x.createdAt >= j.createdAt
      ensures n < 0 ==> x.createdAt <= j.createdAt
    {
      if n >= 0 {
        assert JobRecency(x) <= JobRecency(j);
      } else {
        assert JobRecency(j) <= JobRecency(x);
      }
    }
  }

  /** `generationJob.create`: a new record with a fresh id. */
  method CreateJob(db: Database, userId: string, jobType: JobType, status: JobStatus, input: JobInput,
                   startedAt: Option<Time>, now: Time)
    returns (job: Job)
    requires db.Valid()
    modifies db
    ensures db.Valid() && OnlyJobsChanged(db)
    ensures job.id !in Keys(old(db.jobs), JobKey) && db.jobs == old(db.jobs) + [job]
    ensures job == Job(job.id, userId, jobType, status, input, NoOutput, None, startedAt, None, now)
  {
    var id := NewKey(Keys(db.jobs, JobKey));
    job := Job(id, userId, jobType, status, input, NoOutput, None, startedAt, None, now);
    UniqueKeysAppend(db.jobs, job, JobKey);
    db.jobs := db.jobs + [job];
  }

  /** `generationJob.update({ where: { id } })` of an existing record. */
  method ReplaceJob(db: Database, job: Job)
    requires db.Valid() && job.id in Keys(db.jobs, JobKey)
    modifies db
    ensures db.Valid() && OnlyJobsChanged(db)
    ensures |db.jobs| == |old(db.jobs)|
    ensures forall k :: 0 <= k < |db.jobs| ==>
      db.jobs[k] == if old(db.jobs)[k].id == job.id then job else old(db.jobs)[k]
  {
    var i := IndexOfKey(db.jobs, JobKey, job.id).value;
    forall k | 0 <= k < |db.jobs| && db.jobs[k].id == job.id ensures k == i {
      UniqueKeysSame(db.jobs, JobKey, i, k);
    }
    UniqueKeysUpdate(db.jobs, JobKey, i, job);
    db.jobs := db.jobs[i := job];
  }

  /** `generationJob.update({ where: { id } })` of the record at a known
      position. */
  method SetJob(db: Database, i: nat, job: Job)
    requires db.Valid() && i < |db.jobs| && job.id == db.jobs[i].id
    modifies db
    ensures db.Valid() && OnlyJobsChanged(db)
    ensures db.jobs == old(db.jobs)[i := job]
  {
    UniqueKeysUpdate(db.jobs, JobKey, i, job);
    db.jobs := db.jobs[i := job];
  }

  /** Replacing the last record, just created, keeps the others. */
  lemma ReplaceLast(before: seq<Job>, job: Job, after: seq<Job>, created: Job)
    requires UniqueKeys(before + [created], JobKey) && created.id == job.id
    requires |after| == |before| + 1
    requires forall k :: 0 <= k < |after| ==>
      after[k] == if (before + [created])[k].id == job.id then job else (before + [created])[k]
    ensures after == before + [job]
  {
    forall k | 0 <= k < |before| ensures after[k] == before[k] {
      assert (before + [created])[k] == before[k];
      if before[k].id == job.id {
        UniqueKeysSame(before + [created], JobKey, k, |before|);
      }
    }
  }
}

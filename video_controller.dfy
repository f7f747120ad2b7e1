/** The video endpoints: starting a composition (a `queued` job record plus a
    queue entry that points at it), the history limit, the statistics over
    the history, the export options and the job deletion reply. */
module VideoController {
  import opened Wrappers
  import opened Text
  import opened Tables
  import opened Entities
  import opened Store
  import opened Encoder
  import opened VideoService
  import VideoQueue

  const ProjectIdRequired := "Project ID is required"
  const JobNotFoundOrDenied := "Job not found or access denied"
  const JobDeleted := "Processing job deleted successfully"
  const BadRequest := 400
  const StatsHistoryLimit := 100

  datatype ComposeReply =
    | Accepted(jobId: string, queueJobId: string, status: string)
    | Rejected(message: string, httpStatus: nat)

  /** `POST /video/compose`. A missing or empty `projectId` is refused with
      400 before anything is written. Otherwise a `queued` video record is
      created, with the request as text, and an entry pointing at that record
      is enqueued; `options` defaults to `{}` in both. */
  method ComposeMovie(db: Database, queue: VideoQueue.Queue, userId: string, projectId: Option<string>,
                      options: Option<CompositionOptions>, now: Time)
    returns (reply: ComposeReply)
    requires db.Valid() && queue.Valid()
    modifies db, queue
    ensures db.Valid() && OnlyJobsChanged(db) && queue.Valid() && queue.paused == old(queue.paused)
    ensures !Truthy(projectId) ==>
      reply == Rejected(ProjectIdRequired, BadRequest) && db.jobs == old(db.jobs) && queue.entries == old(queue.entries)
    ensures Truthy(projectId) ==>
      && reply.Accepted? && reply.status == "queued"
      && reply.jobId !in Keys(old(db.jobs), JobKey)
      && db.jobs == old(db.jobs) + [Job(reply.jobId, userId, Video, Queued,
                                        ComposeRequestText(projectId.value, options.GetOr(NoOptions)),
                                        NoOutput, None, None, None, now)]
      && reply.queueJobId !in old(queue.entries)
      && var data := VideoQueue.JobData(projectId.value, userId, options.GetOr(NoOptions), reply.jobId);
      && queue.entries == old(queue.entries)[reply.queueJobId :=
           VideoQueue.Entry(data, NumberOr(data.options.priority, 0), NumberOr(data.options.delay, 0), VideoQueue.Waiting, 0, now,
                 None, None, None)]
    ensures reply.Accepted? ==> queue.entries[reply.queueJobId].data.jobId in Keys(db.jobs, JobKey)
  {
    if !Truthy(projectId) {
      return Rejected(ProjectIdRequired, BadRequest);
    }
    var opts := options.GetOr(NoOptions);
    var job := CreateJob(db, userId, Video, Queued, ComposeRequestText(projectId.value, opts), None, now);
    var queueJobId := queue.Add(VideoQueue.JobData(projectId.value, userId, opts, job.id), now);
    assert Keys(db.jobs, JobKey)[|db.jobs| - 1] == job.id;
    reply := Accepted(job.id, queueJobId, "queued");
  }

  /** `parseInt(limit) || 10`. */
  function HistoryLimit(limit: Option<string>): (n: int)
    ensures n != 0
    ensures limit.None? ==> n == DefaultHistoryLimit
  {
    NumberOr(if limit.Some? then ParseInt(limit.value) else None, DefaultHistoryLimit)
  }

  /** A decimal numeral is its own limit, except that `0` gives 10. */
  lemma HistoryLimitOfNumeral(n: nat)
    ensures HistoryLimit(Some(NatToString(n))) == if n == 0 then DefaultHistoryLimit else n
  {
    ParseIntOfNatToString(n);
  }

  /** Text with no digit after the white space and sign gives the default. */
  lemma HistoryLimitWithoutDigits(limit: string)
    requires Unsigned(limit) == [] || !IsDigit(Unsigned(limit)[0])
    ensures HistoryLimit(Some(limit)) == DefaultHistoryLimit
  {
    ParseIntWithoutDigit(limit);
  }

  /** `GET /video/history?limit=`: the user's video jobs, newest first; a
      positive parsed limit bounds their number and keeps the newest. */
  function History(jobs: seq<Job>, userId: string, limit: Option<string>): (r: seq<Job>)
    ensures forall j :: j in r ==> j in jobs && j.userId == userId && j.jobType == Video
    ensures forall i, k :: 0 <= i < k < |r| ==> r[i].createdAt >= r[k].createdAt
    ensures multiset(r) <= multiset(Filter(jobs, VideoJobOf(userId)))
    ensures HistoryLimit(limit) > 0 ==>
      |r| == if HistoryLimit(limit) <= Count(jobs, VideoJobOf(userId)) then HistoryLimit(limit)
             else Count(jobs, VideoJobOf(userId))
    ensures HistoryLimit(limit) < 0 ==>
      |r| == if -HistoryLimit(limit) <= Count(jobs, VideoJobOf(userId)) then -HistoryLimit(limit)
             else Count(jobs, VideoJobOf(userId))
    ensures HistoryLimit(limit) > 0 ==>
      forall j, x :: j in jobs && VideoJobOf(userId)(j) && j !in r && x in r ==> x.createdAt >= j.createdAt
    ensures HistoryLimit(limit) < 0 ==>
      forall j, x :: j in jobs && VideoJobOf(userId)(j) && j !in r && x in r ==> x.createdAt <= j.createdAt
  {
    ProcessingHistory(jobs, userId, Some(HistoryLimit(limit)))
  }

  // ---------------------------------------------------------------------------
  // Statistics

  datatype VideoStats = VideoStats(
    totalVideos: nat,
    completedVideos: nat,
    failedVideos: nat,
    processingVideos: nat,
    averageProcessingTime: real)

  function StatusIs(s: JobStatus): Job -> bool {
    (j: Job) => j.status == s
  }

  /** A completed job with both timestamps. */
  function Timed(): Job -> bool {
    (j: Job) => j.status == Completed && j.startedAt.Some? && j.completedAt.Some?
  }

  function Duration(j: Job): int {
    j.completedAt.GetOr(0) - j.startedAt.GetOr(0)
  }

  /** `reduce((sum, job) => sum + duration, 0)`. */
  function TotalTime(jobs: seq<Job>): int {
    if jobs == [] then 0 else Duration(jobs[0]) + TotalTime(jobs[1..])
  }

  /** The three status counts never exceed the number of jobs. */
  lemma {:induction false} StatusCountsBounded(jobs: seq<Job>)
    ensures Count(jobs, StatusIs(Completed)) + Count(jobs, StatusIs(Failed)) + Count(jobs, StatusIs(Processing))
            <= |jobs|
  {
    if jobs != [] {
      StatusCountsBounded(jobs[1..]);
    }
  }

  /** Keeping fewer rows keeps fewer rows. */
  lemma {:induction false} FilterWeaker(jobs: seq<Job>, p: Job -> bool, q: Job -> bool)
    requires forall j :: p(j) ==> q(j)
    ensures Count(jobs, p) <= Count(jobs, q)
  {
    if jobs != [] {
      FilterWeaker(jobs[1..], p, q);
    }
  }

  /** The statistics over a history. */
  function Stats(history: seq<Job>): (s: VideoStats)
    ensures s.totalVideos == |history|
    ensures s.completedVideos == Count(history, StatusIs(Completed))
    ensures s.failedVideos == Count(history, StatusIs(Failed))
    ensures s.processingVideos == Count(history, StatusIs(Processing))
    ensures s.completedVideos + s.failedVideos + s.processingVideos <= s.totalVideos
    ensures Count(history, Timed()) <= s.completedVideos
    ensures Count(history, Timed()) == 0 ==> s.averageProcessingTime == 0.0
    ensures IsMean(s.averageProcessingTime, TotalTime(Filter(history, Timed())), Count(history, Timed()))
  {
    StatusCountsBounded(history);
    FilterWeaker(history, Timed(), StatusIs(Completed));
    var timed := Filter(history, Timed());
    var average := Mean(TotalTime(timed), Count(history, Timed()));
    VideoStats(|history|, Count(history, StatusIs(Completed)), Count(history, StatusIs(Failed)),
               Count(history, StatusIs(Processing)), average)
  }

  /** `m` is the mean of `n` values adding up to `total`: `n` times it gives the total back. */
  predicate IsMean(m: real, total: int, n: nat) {
    n > 0 ==> m * (n as real) == total as real
  }

  /** The mean of `n` values adding up to `total`; zero when there are none. */
  function Mean(total: int, n: nat): (m: real)
    ensures n == 0 ==> m == 0.0
    ensures IsMean(m, total, n)
  {
    if n > 0 then total as real / n as real else 0.0
  }

  /** `GET /video/stats`: over the latest 100 video jobs of the user. */
  function UserStats(jobs: seq<Job>, userId: string): (s: VideoStats)
    ensures s.completedVideos + s.failedVideos + s.processingVideos <= s.totalVideos <= StatsHistoryLimit
    ensures s.totalVideos == if Count(jobs, VideoJobOf(userId)) < StatsHistoryLimit
                             then Count(jobs, VideoJobOf(userId)) else StatsHistoryLimit
    ensures s == Stats(ProcessingHistory(jobs, userId, Some(StatsHistoryLimit)))
  {
    Stats(ProcessingHistory(jobs, userId, Some(StatsHistoryLimit)))
  }

  lemma {:induction false} TotalTimeBounds(jobs: seq<Job>, lo: int, hi: int)
    requires forall j :: j in jobs ==> lo <= Duration(j) <= hi
    ensures lo * |jobs| <= TotalTime(jobs) <= hi * |jobs|
  {
    if jobs != [] {
      var rest := jobs[1..];
      assert jobs[0] in jobs;
      assert forall j :: j in rest ==> j in jobs;
      TotalTimeBounds(rest, lo, hi);
      Distribute(lo, |rest|);
      Distribute(hi, |rest|);
    }
  }

  lemma Distribute(a: int, n: nat)
    ensures a * (n + 1) == a * n + a
  {
  }

  lemma RealProduct(a: int, n: nat)
    ensures (a * n) as real == (a as real) * (n as real)
    decreases n
  {
    if n > 0 {
      RealProduct(a, n - 1);
      Distribute(a, n - 1);
    }
  }

  lemma DivisionBounds(t: real, n: real, lo: real, hi: real)
    requires n > 0.0 && lo * n <= t <= hi * n
    ensures lo <= t / n <= hi
  {
    assert t / n * n == t;
  }

  /** The average is a mean: it lies within any bounds of the durations of
      the timed jobs. */
  lemma AverageWithinBounds(history: seq<Job>, lo: int, hi: int)
    requires forall j :: j in history && Timed()(j) ==> lo <= Duration(j) <= hi
    requires Count(history, Timed()) > 0
    ensures lo as real <= Stats(history).averageProcessingTime <= hi as real
  {
    var timed := Filter(history, Timed());
    TotalTimeBounds(timed, lo, hi);
    MeanBounds(TotalTime(timed), |timed|, lo, hi);
  }

  lemma MeanBounds(t: int, n: nat, lo: int, hi: int)
    requires n > 0 && lo * n <= t <= hi * n
    ensures lo as real <= t as real / n as real <= hi as real
  {
    RealProduct(lo, n);
    RealProduct(hi, n);
    DivisionBounds(t as real, n as real, lo as real, hi as real);
  }

  // ---------------------------------------------------------------------------
  // Export options

  datatype ExportOption = ExportOption(value: string, caption: string)

  datatype ExportOptions = ExportOptions(
    resolutions: seq<ExportOption>,
    qualities: seq<ExportOption>,
    formats: seq<ExportOption>,
    transitions: seq<ExportOption>)

  function Values(options: seq<ExportOption>): (vs: seq<string>)
    ensures |vs| == |options| && forall i :: 0 <= i < |vs| ==> vs[i] == options[i].value
  {
    if options == [] then [] else [options[0].value] + Values(options[1..])
  }

  /** `GET /video/export-options`. */
  function ExportOptionsList(): (o: ExportOptions)
    ensures Values(o.resolutions) == ["1280x720", "1920x1080", "2560x1440", "3840x2160"]
    ensures Values(o.qualities) == ["low", "medium", "high", "ultra"]
    ensures Values(o.formats) == ["mp4", "mov", "webm"]
    ensures Values(o.transitions) == ["none", "fade", "slide", "dissolve"]
  {
    ExportOptions(
      [ExportOption("1280x720", "HD (720p)"), ExportOption("1920x1080", "Full HD (1080p)"),
       ExportOption("2560x1440", "2K (1440p)"), ExportOption("3840x2160", "4K (2160p)")],
      [ExportOption("low", "Low (Smaller file size)"), ExportOption("medium", "Medium (Balanced)"),
       ExportOption("high", "High (Better quality)"), ExportOption("ultra", "Ultra (Best quality)")],
      [ExportOption("mp4", "MP4 (Recommended)"), ExportOption("mov", "MOV (Apple devices)"),
       ExportOption("webm", "WebM (Web optimized)")],
      [ExportOption("none", "No transitions"), ExportOption("fade", "Fade"), ExportOption("slide", "Slide"),
       ExportOption("dissolve", "Dissolve")])
  }

  /** Each offered quality selects its own constant rate factor, falling from
      `low` to `ultra`. */
  lemma OfferedQualitiesHaveCrf()
    ensures var q := Values(ExportOptionsList().qualities);
      q == ["low", "medium", "high", "ultra"]
      && forall i, k :: 0 <= i < k < |q| ==> Crf(Some(q[i])) > Crf(Some(q[k]))
  {
    var q := Values(ExportOptionsList().qualities);
    assert q == ["low", "medium", "high", "ultra"];
    assert Crf(Some("low")) == 28 && Crf(Some("medium")) == 23 && Crf(Some("high")) == 18 && Crf(Some("ultra")) == 15;
  }

  // ---------------------------------------------------------------------------
  // Deletion

  /** `DELETE /video/job/:jobId`: 404 unless the user's job existed. */
  method DeleteJob(db: Database, jobId: string, userId: string) returns (r: Result<string>)
    requires db.Valid()
    modifies db
    ensures db.Valid() && OnlyJobsChanged(db)
    ensures r.Err? <==> OwnedJob(old(db.jobs), jobId, userId).None?
    ensures r.Err? ==> r.message == JobNotFoundOrDenied && db.jobs == old(db.jobs)
    ensures r.Ok? ==> r.value == JobDeleted && db.jobs == RemoveKey(old(db.jobs), JobKey, jobId)
  {
    var deleted := DeleteProcessingJob(db, jobId, userId);
    if !deleted {
      return Err(JobNotFoundOrDenied);
    }
    r := Ok(JobDeleted);
  }
}

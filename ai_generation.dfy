/** The AI generation service: each request is recorded as a generation job,
    dispatched to a provider, and the job is finished with the provider's
    answer. The providers are parameters: total functions from their
    arguments to a response, since their clients turn every failure into a
    failed response. */
module AiGeneration {
  import opened Wrappers
  import opened Text
  import opened Tables
  import opened Entities
  import opened Store

  const ImageUrlRequired := "Image URL is required for image-to-video generation"
  const VideoUrlRequired := "Video URL is required for video extension"
  const DefaultResolution := "1024x1024"
  const DefaultQuality := "standard"
  const DefaultHistoryLimit := 20

  /** The image service, and the two video services with their image-to-video,
      extension and status calls (`(url, prompt, duration)`, `jobId`). */
  datatype Providers = Providers(
    generateImage: (string, string, string) -> GenerationResponse,
    runwayFromImage: (string, string, int) -> GenerationResponse,
    runwayExtend: (string, string, int) -> GenerationResponse,
    runwayStatus: string -> GenerationResponse,
    veoFromImage: (string, string, int) -> GenerationResponse,
    veoExtend: (string, string, int) -> GenerationResponse,
    veoStatus: string -> GenerationResponse)

  datatype VideoProvider = Runway | GoogleVeo

  /** `switch (request.model || 'runway')`: `google-veo` selects Veo, and every
      other value, a missing one included, falls to Runway. */
  function SelectProvider(model: Option<string>): (p: VideoProvider)
    ensures p == GoogleVeo <==> model == Some("google-veo")
    ensures model.None? ==> p == Runway
  {
    match StringOr(model, "runway")
    case "google-veo" => GoogleVeo
    case _ => Runway
  }

  /** `request.duration || 4` for Runway and `|| 5` for Veo: zero takes the
      default too. */
  function ClipDuration(p: VideoProvider, duration: Option<int>): (seconds: int)
    ensures duration.Some? && duration.value != 0 ==> seconds == duration.value
    ensures duration.None? || duration.value == 0 ==> seconds == if p == Runway then 4 else 5
  {
    NumberOr(duration, if p == Runway then 4 else 5)
  }

  /** A job the service finished with `result`: created `processing` for the
      request, then `completed` exactly when the provider succeeded, with the
      response as output, its error, and the completion time. */
  predicate Finished(job: Job, userId: string, jobType: JobType, request: GenerationRequest,
                     result: GenerationResponse, now: Time, finishedAt: Time)
  {
    && job.userId == userId && job.jobType == jobType && job.input == GenerationInput(request)
    && job.status == (if result.success then Completed else Failed)
    && job.output == GenerationResult(result) && job.error == result.error
    && job.startedAt.None? && job.completedAt == Some(finishedAt) && job.createdAt == now
  }

  /** The common shape of the three generate calls once the provider has
      answered: one new record, created `processing` and then finished. */
  method Record(db: Database, userId: string, jobType: JobType, request: GenerationRequest,
                call: () -> GenerationResponse, now: Time, finishedAt: Time)
    returns (result: GenerationResponse)
    requires db.Valid()
    modifies db
    ensures db.Valid() && OnlyJobsChanged(db)
    ensures result == call()
    ensures |db.jobs| == |old(db.jobs)| + 1 && db.jobs[..|old(db.jobs)|] == old(db.jobs)
    ensures db.jobs[|old(db.jobs)|].id !in Keys(old(db.jobs), JobKey)
    ensures Finished(db.jobs[|old(db.jobs)|], userId, jobType, request, result, now, finishedAt)
  {
    var job := CreateJob(db, userId, jobType, Processing, GenerationInput(request), None, now);
    ghost var created := db.jobs;
    result := call();
    var done := job.(status := if result.success then Completed else Failed,
                     output := GenerationResult(result), error := result.error,
                     completedAt := Some(finishedAt));
    assert job.id in Keys(db.jobs, JobKey) by {
      assert Keys(db.jobs, JobKey)[|db.jobs| - 1] == job.id;
    }
    ReplaceJob(db, done);
    ReplaceLast(old(db.jobs), done, db.jobs, job);
    assert db.jobs == old(db.jobs) + [done];
  }

  /** `generateTextToImage`. */
  method GenerateTextToImage(db: Database, providers: Providers, request: GenerationRequest, userId: string,
                             now: Time, finishedAt: Time)
    returns (result: GenerationResponse)
    requires db.Valid()
    modifies db
    ensures db.Valid() && OnlyJobsChanged(db)
    ensures result == providers.generateImage(request.prompt, StringOr(request.resolution, DefaultResolution),
                                              StringOr(request.quality, DefaultQuality))
    ensures |db.jobs| == |old(db.jobs)| + 1 && db.jobs[..|old(db.jobs)|] == old(db.jobs)
    ensures db.jobs[|old(db.jobs)|].id !in Keys(old(db.jobs), JobKey)
    ensures Finished(db.jobs[|old(db.jobs)|], userId, Image, request, result, now, finishedAt)
  {
    var call := () => providers.generateImage(request.prompt, StringOr(request.resolution, DefaultResolution),
                                              StringOr(request.quality, DefaultQuality));
    result := Record(db, userId, Image, request, call, now, finishedAt);
  }

  /** The Runway or Veo call a video request is sent to: Veo only for
      `google-veo`, with the requested duration unless it is missing or zero. */
  function VideoCall(providers: Providers, extend: bool, url: string, request: GenerationRequest)
    : (r: GenerationResponse)
    ensures request.model != Some("google-veo") && !extend ==>
      r == providers.runwayFromImage(url, request.prompt, NumberOr(request.duration, 4))
    ensures request.model != Some("google-veo") && extend ==>
      r == providers.runwayExtend(url, request.prompt, NumberOr(request.duration, 4))
    ensures request.model == Some("google-veo") && !extend ==>
      r == providers.veoFromImage(url, request.prompt, NumberOr(request.duration, 5))
    ensures request.model == Some("google-veo") && extend ==>
      r == providers.veoExtend(url, request.prompt, NumberOr(request.duration, 5))
  {
    var p := SelectProvider(request.model);
    var seconds := ClipDuration(p, request.duration);
    match (p, extend)
    case (Runway, false) => providers.runwayFromImage(url, request.prompt, seconds)
    case (Runway, true) => providers.runwayExtend(url, request.prompt, seconds)
    case (GoogleVeo, false) => providers.veoFromImage(url, request.prompt, seconds)
    case (GoogleVeo, true) => providers.veoExtend(url, request.prompt, seconds)
  }

  /** `generateImageToVideo` (`extend` false) and `extendVideo` (`extend`
      true): without the source URL the call fails at once and no job is
      recorded. */
  method GenerateVideo(db: Database, providers: Providers, extend: bool, request: GenerationRequest,
                       userId: string, now: Time, finishedAt: Time)
    returns (result: GenerationResponse)
    requires db.Valid()
    modifies db
    ensures db.Valid() && OnlyJobsChanged(db)
    ensures var url := if extend then request.videoUrl else request.imageUrl;
      if !Truthy(url) then
        result == Failure(if extend then VideoUrlRequired else ImageUrlRequired) && db.jobs == old(db.jobs)
      else
        && result == VideoCall(providers, extend, url.value, request)
        && |db.jobs| == |old(db.jobs)| + 1 && db.jobs[..|old(db.jobs)|] == old(db.jobs)
        && db.jobs[|old(db.jobs)|].id !in Keys(old(db.jobs), JobKey)
        && Finished(db.jobs[|old(db.jobs)|], userId, if extend then Extension else Video,
                    request, result, now, finishedAt)
  {
    var url := if extend then request.videoUrl else request.imageUrl;
    if !Truthy(url) {
      return Failure(if extend then VideoUrlRequired else ImageUrlRequired);
    }
    var call := () => VideoCall(providers, extend, url.value, request);
    result := Record(db, userId, if extend then Extension else Video, request, call, now, finishedAt);
  }

  /** `checkJobStatus(jobId, model = 'runway')`. */
  function CheckJobStatus(providers: Providers, jobId: string, model: Option<string>): (r: GenerationResponse)
    ensures r == if model == Some("google-veo") then providers.veoStatus(jobId) else providers.runwayStatus(jobId)
  {
    match SelectProvider(model)
    case GoogleVeo => providers.veoStatus(jobId)
    case Runway => providers.runwayStatus(jobId)
  }

  function JobOf(userId: string): Job -> bool {
    (j: Job) => j.userId == userId
  }

  /** `getUserGenerationHistory(userId, limit = 20)`: the user's jobs, newest
      first, at most `limit` of them. */
  function GenerationHistory(jobs: seq<Job>, userId: string, limit: Option<int>): (r: seq<Job>)
    ensures forall j :: j in r ==> j in jobs && j.userId == userId
    ensures forall i, k :: 0 <= i < k < |r| ==> r[i].createdAt >= r[k].createdAt
    ensures limit.None? ==> |r| == if Count(jobs, JobOf(userId)) < DefaultHistoryLimit
                                   then Count(jobs, JobOf(userId)) else DefaultHistoryLimit
    ensures limit.Some? && limit.value >= 0 ==>
      |r| == if limit.value <= Count(jobs, JobOf(userId)) then limit.value else Count(jobs, JobOf(userId))
    ensures limit.Some? && limit.value < 0 ==>
      |r| == if -limit.value <= Count(jobs, JobOf(userId)) then -limit.value else Count(jobs, JobOf(userId))
    ensures multiset(r) <= multiset(Filter(jobs, JobOf(userId)))
    ensures limit.GetOr(DefaultHistoryLimit) >= 0 ==>
      forall j, x :: j in jobs && JobOf(userId)(j) && j !in r && x in r ==> x.createdAt >= j.createdAt
    ensures limit.GetOr(DefaultHistoryLimit) < 0 ==>
      forall j, x :: j in jobs && JobOf(userId)(j) && j !in r && x in r ==> x.createdAt <= j.createdAt
  {
    NewestJobs(jobs, JobOf(userId), limit.GetOr(DefaultHistoryLimit))
  }
}

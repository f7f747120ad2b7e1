/** The composition of a project's completed scenes into one movie, and the
    reads and deletes over the video jobs it records. The encoder is the
    parameter `run`; the files it writes are kept in a `FileSystem`. */
module VideoService {
  import opened Wrappers
  import opened Text
  import opened Tables
  import opened Entities
  import opened Store
  import opened Files
  import opened Encoder

  const ProjectNotFound := "Project not found"
  const NoCompletedScenes := "No completed scenes found"
  const ScenesFailed := "Failed to process scenes to video"
  const NotFound := "not_found"
  const DefaultHistoryLimit := 10

  // ---------------------------------------------------------------------------
  // processScenesToVideo

  predicate HasSource(s: Scene) {
    Truthy(s.videoUrl) || Truthy(s.imageUrl)
  }

  /** `path.join(tempDir, `scene-${i}.mp4`)`. */
  function SceneFile(tempDir: string, i: nat): (p: string)
    ensures tempDir != [] ==> Dirname(p) == tempDir
  {
    var name := "scene-" + NatToString(i) + ".mp4";
    assert forall k :: 0 <= k < |name| ==> name[k] != '/' by {
      assert forall k :: 6 <= k < 6 + |NatToString(i)| ==> name[k] == NatToString(i)[k - 6];
    }
    if tempDir != [] then DirnameOfJoin(tempDir, name); Join(tempDir, name) else Join(tempDir, name)
  }

  /** The command that makes a scene's clip: its video is downloaded, or else
      its image is turned into a still clip; a scene with neither has none. */
  function SceneSource(s: Scene, sceneFile: string, options: CompositionOptions): (inv: Option<Invocation>)
    ensures inv.Some? <==> HasSource(s)
    ensures Truthy(s.videoUrl) ==> inv == Some(DownloadInvocation(s.videoUrl.value, sceneFile))
    ensures !Truthy(s.videoUrl) && Truthy(s.imageUrl) ==> inv == Some(ImageInvocation(s.imageUrl.value, sceneFile, options))
    ensures inv.Some? ==> inv.value.output == sceneFile
  {
    if Truthy(s.videoUrl) then Some(DownloadInvocation(s.videoUrl.value, sceneFile))
    else if Truthy(s.imageUrl) then Some(ImageInvocation(s.imageUrl.value, sceneFile, options))
    else None
  }

  /** The positions, among the first `n` scenes, of those with a source. */
  function ClipIndices(scenes: seq<Scene>, n: nat): (ks: seq<nat>)
    requires n <= |scenes|
    ensures |ks| <= n
    ensures forall j :: 0 <= j < |ks| ==> ks[j] < n
  {
    if n == 0 then []
    else ClipIndices(scenes, n - 1) + (if HasSource(scenes[n - 1]) then [n - 1] else [])
  }

  /** Exactly the scenes with a source are listed, in ascending position. */
  lemma {:induction false} ClipIndicesSelect(scenes: seq<Scene>, n: nat)
    requires n <= |scenes|
    ensures forall j :: 0 <= j < |ClipIndices(scenes, n)| ==> HasSource(scenes[ClipIndices(scenes, n)[j]])
    ensures forall j, l :: 0 <= j < l < |ClipIndices(scenes, n)| ==> ClipIndices(scenes, n)[j] < ClipIndices(scenes, n)[l]
    ensures forall k :: 0 <= k < n && HasSource(scenes[k]) ==> k in ClipIndices(scenes, n)
  {
    if n > 0 {
      ClipIndicesSelect(scenes, n - 1);
      var ks := ClipIndices(scenes, n - 1);
      if HasSource(scenes[n - 1]) {
        assert ClipIndices(scenes, n) == ks + [n - 1];
      } else {
        assert ClipIndices(scenes, n) == ks;
      }
    }
  }

  /** The clip commands for the first `n` scenes, in scene order. */
  function ClipJobs(scenes: seq<Scene>, tempDir: string, options: CompositionOptions, n: nat): (jobs: seq<Invocation>)
    requires n <= |scenes|
    ensures |jobs| <= n
  {
    if n == 0 then []
    else
      var front := ClipJobs(scenes, tempDir, options, n - 1);
      match SceneSource(scenes[n - 1], SceneFile(tempDir, n - 1), options)
      case None => front
      case Some(inv) => front + [inv]
  }

  /** One clip per scene with a source, in scene order: the clip of scene `k`
      is made by that scene's command, which writes `scene-k.mp4`. */
  lemma {:induction false} ClipJobsShape(scenes: seq<Scene>, tempDir: string, options: CompositionOptions, n: nat)
    requires n <= |scenes|
    ensures |ClipJobs(scenes, tempDir, options, n)| == |ClipIndices(scenes, n)|
    ensures forall j :: 0 <= j < |ClipIndices(scenes, n)| ==>
      var k := ClipIndices(scenes, n)[j];
      Some(ClipJobs(scenes, tempDir, options, n)[j]) == SceneSource(scenes[k], SceneFile(tempDir, k), options)
  {
    if n > 0 {
      ClipJobsShape(scenes, tempDir, options, n - 1);
      var front, ks := ClipJobs(scenes, tempDir, options, n - 1), ClipIndices(scenes, n - 1);
      var src := SceneSource(scenes[n - 1], SceneFile(tempDir, n - 1), options);
      var jobs, idx := ClipJobs(scenes, tempDir, options, n), ClipIndices(scenes, n);
      if src.Some? {
        assert jobs == front + [src.value] && idx == ks + [n - 1];
      } else {
        assert jobs == front && idx == ks;
      }
      forall j | 0 <= j < |idx|
        ensures Some(jobs[j]) == SceneSource(scenes[idx[j]], SceneFile(tempDir, idx[j]), options)
      {
        if j < |ks| {
          assert jobs[j] == front[j] && idx[j] == ks[j];
        }
      }
    }
  }

  function Outputs(jobs: seq<Invocation>): (files: seq<string>)
    ensures |files| == |jobs| && forall j :: 0 <= j < |jobs| ==> files[j] == jobs[j].output
  {
    if jobs == [] then [] else [jobs[0].output] + Outputs(jobs[1..])
  }

  predicate AllRun(run: Invocation -> bool, jobs: seq<Invocation>) {
    forall j :: 0 <= j < |jobs| ==> run(jobs[j])
  }

  /** When the composition of the scenes produces a movie: every clip command
      succeeds, at least one clip exists, and the final command succeeds. */
  predicate Renders(run: Invocation -> bool, scenes: seq<Scene>, outputPath: string, options: CompositionOptions) {
    var jobs := ClipJobs(scenes, Dirname(outputPath), options, |scenes|);
    AllRun(run, jobs) && jobs != [] && run(FinalInvocation(Outputs(jobs), outputPath, options))
  }

  /** Runs one encoder command; a successful run has written its output. */
  method RunCommand(fs: FileSystem, run: Invocation -> bool, inv: Invocation) returns (ok: bool)
    modifies fs
    ensures ok == run(inv) && fs.dirs == old(fs.dirs)
    ensures fs.files == if ok then old(fs.files) + {inv.output} else old(fs.files)
  {
    ok := run(inv);
    if ok {
      fs.Write(inv.output);
    }
  }

  /** One step of the loop: runs the scene's command when it has one. */
  method RenderClip(fs: FileSystem, run: Invocation -> bool, source: Option<Invocation>) returns (done: bool)
    modifies fs
    ensures done <==> source.None? || run(source.value)
    ensures fs.dirs == old(fs.dirs)
    ensures fs.files == if source.Some? && done then old(fs.files) + {source.value.output} else old(fs.files)
  {
    done := true;
    if source.Some? {
      done := RunCommand(fs, run, source.value);
    }
  }

  /** The loop of `processScenesToVideo`: one clip per scene with a source,
      stopping at the first failed command. */
  method RenderClips(fs: FileSystem, run: Invocation -> bool, scenes: seq<Scene>, tempDir: string,
                     options: CompositionOptions)
    returns (ok: bool, sceneFiles: seq<string>)
    requires tempDir != []
    modifies fs
    ensures ok <==> AllRun(run, ClipJobs(scenes, tempDir, options, |scenes|))
    ensures ok ==> sceneFiles == Outputs(ClipJobs(scenes, tempDir, options, |scenes|))
    ensures fs.dirs == old(fs.dirs) && old(fs.files) <= fs.files
    ensures forall p :: p in fs.files - old(fs.files) ==> Dirname(p) == tempDir
  {
    sceneFiles := [];
    var i := 0;
    while i < |scenes|
      invariant 0 <= i <= |scenes|
      invariant sceneFiles == Outputs(ClipJobs(scenes, tempDir, options, i))
      invariant AllRun(run, ClipJobs(scenes, tempDir, options, i))
      invariant fs.dirs == old(fs.dirs) && old(fs.files) <= fs.files
      invariant forall p :: p in fs.files - old(fs.files) ==> Dirname(p) == tempDir
    {
      var sceneFile := SceneFile(tempDir, i);
      ghost var before := ClipJobs(scenes, tempDir, options, i);
      var source := SceneSource(scenes[i], sceneFile, options);
      var done := RenderClip(fs, run, source);
      if !done {
        FailedClipStops(run, scenes, tempDir, options, i, source.value);
        return false, sceneFiles;
      }
      if source.Some? {
        assert ClipJobs(scenes, tempDir, options, i + 1) == before + [source.value];
        AllRunSnoc(run, before, source.value);
        OutputsSnoc(before, source.value);
        sceneFiles := sceneFiles + [sceneFile];
      } else {
        assert ClipJobs(scenes, tempDir, options, i + 1) == before;
      }
      i := i + 1;
    }
    ok := true;
  }

  /** `processScenesToVideo`. A failed command ends the loop with no movie
      (`null`), leaving the clips written so far. On success the temporary
      directory is cleaned, and the movie, which was written inside it, is
      deleted with the clips although its path is returned. */
  method ProcessScenesToVideo(fs: FileSystem, run: Invocation -> bool, scenes: seq<Scene>, outputPath: string,
                              options: CompositionOptions)
    returns (videoUrl: Option<string>)
    modifies fs
    ensures videoUrl.Some? <==> Renders(run, scenes, outputPath, options)
    ensures videoUrl.Some? ==> videoUrl.value == outputPath
    ensures videoUrl.Some? && Dirname(outputPath) in old(fs.dirs) ==>
      && fs.files == old(fs.files) - InDir(old(fs.files), Dirname(outputPath))
      && fs.dirs == old(fs.dirs) - {Dirname(outputPath)}
      && outputPath !in fs.files
    ensures videoUrl.None? ==>
      && fs.dirs == old(fs.dirs) && old(fs.files) <= fs.files
      && forall p :: p in fs.files - old(fs.files) ==> Dirname(p) == Dirname(outputPath)
  {
    var tempDir := Dirname(outputPath);
    var ok, sceneFiles := RenderClips(fs, run, scenes, tempDir, options);
    if !ok || sceneFiles == [] {
      return None;
    }
    var final := ComposeFinalVideo(sceneFiles, outputPath, options);
    var done := RunCommand(fs, run, final);
    if !done {
      return None;
    }
    ghost var written := fs.files;
    assert InDir(written, tempDir) == InDir(old(fs.files), tempDir) + (written - old(fs.files));
    fs.CleanupTempFiles(tempDir);
    videoUrl := Some(outputPath);
  }

  lemma AllRunSnoc(run: Invocation -> bool, jobs: seq<Invocation>, inv: Invocation)
    requires AllRun(run, jobs) && run(inv)
    ensures AllRun(run, jobs + [inv])
  {
    assert forall j :: 0 <= j < |jobs| ==> (jobs + [inv])[j] == jobs[j];
  }

  /** A failed clip command fails the whole composition. */
  lemma FailedClipStops(run: Invocation -> bool, scenes: seq<Scene>, tempDir: string, options: CompositionOptions,
                        i: nat, inv: Invocation)
    requires i < |scenes| && SceneSource(scenes[i], SceneFile(tempDir, i), options) == Some(inv) && !run(inv)
    ensures !AllRun(run, ClipJobs(scenes, tempDir, options, |scenes|))
  {
    ClipJobAt(scenes, tempDir, options, i, inv);
  }

  /** A scene with a source has its clip command in the list, after those of
      the scenes before it. */
  lemma ClipJobAt(scenes: seq<Scene>, tempDir: string, options: CompositionOptions, i: nat, inv: Invocation)
    requires i < |scenes| && SceneSource(scenes[i], SceneFile(tempDir, i), options) == Some(inv)
    ensures var k := |ClipJobs(scenes, tempDir, options, i)|;
      k < |ClipJobs(scenes, tempDir, options, |scenes|)| && ClipJobs(scenes, tempDir, options, |scenes|)[k] == inv
  {
    var upTo := ClipJobs(scenes, tempDir, options, i + 1);
    assert upTo == ClipJobs(scenes, tempDir, options, i) + [inv];
    ClipJobsPrefix(scenes, tempDir, options, i + 1, |scenes|);
    assert ClipJobs(scenes, tempDir, options, |scenes|)[|upTo| - 1] == upTo[|upTo| - 1];
  }

  /** The clip commands of a prefix of the scenes start the whole list. */
  lemma {:induction false} ClipJobsPrefix(scenes: seq<Scene>, tempDir: string, options: CompositionOptions, m: nat, n: nat)
    requires m <= n <= |scenes|
    ensures ClipJobs(scenes, tempDir, options, m) <= ClipJobs(scenes, tempDir, options, n)
  {
    if m < n {
      ClipJobsPrefix(scenes, tempDir, options, m, n - 1);
      var front := ClipJobs(scenes, tempDir, options, n - 1);
      assert front <= ClipJobs(scenes, tempDir, options, n);
    }
  }

  lemma OutputsSnoc(front: seq<Invocation>, inv: Invocation)
    ensures Outputs(front + [inv]) == Outputs(front) + [inv.output]
  {
    var a, b := Outputs(front + [inv]), Outputs(front) + [inv.output];
    assert forall j :: 0 <= j < |a| ==> a[j] == b[j];
  }

  // ---------------------------------------------------------------------------
  // composeMovie

  /** `project.scenes` as included: the project's `completed` scenes in
      ascending `order`. */
  function CompletedScenes(scenes: seq<Scene>, projectId: string): (r: seq<Scene>)
    ensures forall s :: s in r <==> s in scenes && s.projectId == projectId && s.status == "completed"
    ensures forall i, j :: 0 <= i < j < |r| ==> r[i].order <= r[j].order
    ensures multiset(r) == multiset(Filter(scenes, (s: Scene) => s.projectId == projectId && s.status == "completed"))
  {
    var done := Filter(scenes, (s: Scene) => s.projectId == projectId && s.status == "completed");
    SortByMembers(done, SceneOrder);
    SortBy(done, SceneOrder)
  }

  /** `path.join(process.cwd(), 'temp', 'video-processing', job.id)`. */
  function TempDir(cwd: string, jobId: string): (dir: string)
    ensures dir != []
  {
    Join(Join(Join(cwd, "temp"), "video-processing"), jobId)
  }

  /** `path.join(tempDir, `movie-${uuidv4()}.${options.format || 'mp4'}`)`. */
  function OutputPath(tempDir: string, uuid: string, options: CompositionOptions): (p: string)
    ensures StartsWith(p, tempDir + "/")
  {
    Join(tempDir, "movie-" + uuid + "." + StringOr(options.format, "mp4"))
  }

  datatype Composition = Composition(success: bool, videoUrl: Option<string>, jobId: Option<string>, error: Option<string>)

  function Failure(message: string): (r: Composition)
    ensures !r.success && r.error == Some(message) && r.videoUrl.None?
  {
    Composition(false, None, None, Some(message))
  }

  /** The composition's own record once the scenes have rendered
      (`success`) or not. */
  function FinishedComposition(created: Job, success: bool, outputPath: string, finishedAt: Time): (done: Job)
    ensures done.id == created.id && done.userId == created.userId && done.jobType == created.jobType
    ensures done.input == created.input && done.createdAt == created.createdAt && done.startedAt == created.startedAt
    ensures done.completedAt == Some(finishedAt)
    ensures success ==> done.status == Completed && done.output == VideoUrlObject(outputPath) && done.error == created.error
    ensures !success ==> done.status == Failed && done.error == Some(ScenesFailed) && done.output == created.output
  {
    if success then created.(status := Completed, output := VideoUrlObject(outputPath), completedAt := Some(finishedAt))
    else created.(status := Failed, error := Some(ScenesFailed), completedAt := Some(finishedAt))
  }

  /** The composition's result once the scenes have rendered or not. */
  function CompositionResult(created: Job, success: bool, outputPath: string): (r: Composition)
    ensures r.success == success
    ensures success ==> r.videoUrl == Some(outputPath) && r.jobId == Some(created.id) && r.error.None?
    ensures !success ==> r == Failure(ScenesFailed)
  {
    if success then Composition(true, Some(outputPath), Some(created.id), None) else Failure(ScenesFailed)
  }

  /** The part of `composeMovie` after its job record exists. */
  method RunComposition(db: Database, fs: FileSystem, run: Invocation -> bool, job: Job, scenes: seq<Scene>,
                        options: CompositionOptions, cwd: string, uuid: string, mkdirError: Option<string>,
                        finishedAt: Time)
    returns (r: Composition)
    requires db.Valid() && |db.jobs| > 0 && db.jobs[|db.jobs| - 1] == job
    modifies db, fs
    ensures db.Valid() && OnlyJobsChanged(db)
    ensures |db.jobs| == |old(db.jobs)| && db.jobs[..|db.jobs| - 1] == old(db.jobs)[..|db.jobs| - 1]
    ensures mkdirError.Some? ==> r == Failure(mkdirError.value) && db.jobs[|db.jobs| - 1] == job
    ensures var outputPath := OutputPath(TempDir(cwd, job.id), uuid, options);
      mkdirError.None? ==> r == CompositionResult(job, Renders(run, scenes, outputPath, options), outputPath)
    ensures var outputPath := OutputPath(TempDir(cwd, job.id), uuid, options);
      mkdirError.None? ==>
        db.jobs[|db.jobs| - 1] == FinishedComposition(job, Renders(run, scenes, outputPath, options), outputPath, finishedAt)
    ensures mkdirError.Some? ==> fs.files == old(fs.files) && fs.dirs == old(fs.dirs)
    ensures var outputPath := OutputPath(TempDir(cwd, job.id), uuid, options);
      mkdirError.None? ==>
        RenderEffect(Renders(run, scenes, outputPath, options), TempDir(cwd, job.id), outputPath,
                     old(fs.files), old(fs.dirs), fs.files, fs.dirs)
  {
    var tempDir := TempDir(cwd, job.id);
    if mkdirError.Some? {
      return Failure(mkdirError.value);
    }
    var outputPath := OutputPath(tempDir, uuid, options);
    var videoUrl := Render(fs, run, scenes, tempDir, uuid, options);
    r := SettleComposition(db, job, videoUrl.Some?, outputPath, finishedAt);
    assert db.jobs[..|db.jobs| - 1] == old(db.jobs)[..|db.jobs| - 1];
  }

  /** The composition's last write to its own record. */
  method SettleComposition(db: Database, job: Job, success: bool, outputPath: string, finishedAt: Time)
    returns (r: Composition)
    requires db.Valid() && |db.jobs| > 0 && db.jobs[|db.jobs| - 1] == job
    modifies db
    ensures db.Valid() && OnlyJobsChanged(db) && |db.jobs| == |old(db.jobs)|
    ensures r == CompositionResult(job, success, outputPath)
    ensures db.jobs == old(db.jobs)[|db.jobs| - 1 := FinishedComposition(job, success, outputPath, finishedAt)]
  {
    r := CompositionResult(job, success, outputPath);
    SetJob(db, |db.jobs| - 1, FinishedComposition(job, success, outputPath, finishedAt));
  }

  /** What a composition leaves on disk. A rendered movie lies in the
      temporary directory, which the cleanup removes with everything in it,
      so the returned path names no file any more. A failed render keeps the
      directory and the partial clips written into it. */
  ghost predicate RenderEffect(success: bool, tempDir: string, outputPath: string,
                               files0: set<string>, dirs0: set<string>, files: set<string>, dirs: set<string>)
  {
    if success then
      Dirname(outputPath) == tempDir ==>
        && files == files0 - InDir(files0, tempDir) && dirs == dirs0 - {tempDir}
        && outputPath !in files && tempDir !in dirs
    else
      && dirs == dirs0 + {tempDir} && files0 <= files
      && forall p :: p in files - files0 ==> Dirname(p) == Dirname(outputPath)
  }

  /** The movie file is named directly in the temporary directory when the
      uuid and the format hold no `/`. */
  lemma OutputPathInTempDir(tempDir: string, uuid: string, options: CompositionOptions)
    requires tempDir != [] && '/' !in uuid && '/' !in StringOr(options.format, "mp4")
    ensures Dirname(OutputPath(tempDir, uuid, options)) == tempDir
  {
    var name := "movie-" + uuid + "." + StringOr(options.format, "mp4");
    assert forall k :: 0 <= k < |name| ==> name[k] != '/' by {
      forall k | 0 <= k < |name| ensures name[k] != '/' {
        if k >= 6 && k < 6 + |uuid| {
          assert name[k] == uuid[k - 6];
        } else if k >= 7 + |uuid| {
          assert name[k] == StringOr(options.format, "mp4")[k - 7 - |uuid|];
        }
      }
    }
    DirnameOfJoin(tempDir, name);
  }

  /** Makes the temporary directory and renders the movie into it. */
  method Render(fs: FileSystem, run: Invocation -> bool, scenes: seq<Scene>, tempDir: string, uuid: string,
                options: CompositionOptions)
    returns (videoUrl: Option<string>)
    modifies fs
    ensures videoUrl.Some? <==> Renders(run, scenes, OutputPath(tempDir, uuid, options), options)
    ensures videoUrl.Some? ==> videoUrl.value == OutputPath(tempDir, uuid, options)
    ensures RenderEffect(videoUrl.Some?, tempDir, OutputPath(tempDir, uuid, options),
                         old(fs.files), old(fs.dirs), fs.files, fs.dirs)
  {
    fs.MakeDir(tempDir);
    videoUrl := ProcessScenesToVideo(fs, run, scenes, OutputPath(tempDir, uuid, options), options);
  }

  /** `composeMovie` gets past its checks: the user owns the project and it
      has completed scenes. */
  predicate Composes(projects: seq<Project>, scenes: seq<Scene>, projectId: string, userId: string) {
    OwnedProject(projects, projectId, userId).Some? && CompletedScenes(scenes, projectId) != []
  }

  /** The `processing` record the composition creates for itself. */
  function ComposeRecord(id: string, userId: string, projectId: string, sceneCount: nat,
                         options: CompositionOptions, now: Time): (job: Job)
    ensures job.id == id && job.userId == userId && job.jobType == Video && job.createdAt == now
    ensures job.status == Processing && job.startedAt.None? && job.completedAt.None?
    ensures job.output == NoOutput && job.error.None?
    ensures job.input == ComposeInput(projectId, sceneCount, options)
  {
    Job(id, userId, Video, Processing, ComposeInput(projectId, sceneCount, options), NoOutput, None, None, None, now)
  }

  /** `composeMovie`. It records its own `processing` job (not the caller's
      queued one) and settles it; `mkdirError` is the error of creating the
      temporary directory, which is returned with the job left `processing`. */
  method ComposeMovie(db: Database, fs: FileSystem, run: Invocation -> bool, projectId: string, userId: string,
                      options: CompositionOptions, cwd: string, uuid: string, mkdirError: Option<string>,
                      now: Time, finishedAt: Time)
    returns (r: Composition)
    requires db.Valid()
    modifies db, fs
    ensures db.Valid() && OnlyJobsChanged(db)
    ensures OwnedProject(old(db.projects), projectId, userId).None? ==>
      r == Failure(ProjectNotFound) && db.jobs == old(db.jobs)
    ensures OwnedProject(old(db.projects), projectId, userId).Some?
            && CompletedScenes(old(db.scenes), projectId) == [] ==>
      r == Failure(NoCompletedScenes) && db.jobs == old(db.jobs)
    ensures Composes(old(db.projects), old(db.scenes), projectId, userId) ==>
      && |db.jobs| == |old(db.jobs)| + 1 && db.jobs[..|old(db.jobs)|] == old(db.jobs)
      && db.jobs[|old(db.jobs)|].id !in Keys(old(db.jobs), JobKey)
    ensures Composes(old(db.projects), old(db.scenes), projectId, userId) && mkdirError.Some? ==>
      var created := ComposeRecord(db.jobs[|old(db.jobs)|].id, userId, projectId,
                                   |CompletedScenes(old(db.scenes), projectId)|, options, now);
      r == Failure(mkdirError.value) && db.jobs[|old(db.jobs)|] == created
    ensures Composes(old(db.projects), old(db.scenes), projectId, userId) && mkdirError.None? ==>
      var scenes := CompletedScenes(old(db.scenes), projectId);
      var created := ComposeRecord(db.jobs[|old(db.jobs)|].id, userId, projectId, |scenes|, options, now);
      var outputPath := OutputPath(TempDir(cwd, created.id), uuid, options);
      r == CompositionResult(created, Renders(run, scenes, outputPath, options), outputPath)
    ensures Composes(old(db.projects), old(db.scenes), projectId, userId) && mkdirError.None? ==>
      var scenes := CompletedScenes(old(db.scenes), projectId);
      var created := ComposeRecord(db.jobs[|old(db.jobs)|].id, userId, projectId, |scenes|, options, now);
      var outputPath := OutputPath(TempDir(cwd, created.id), uuid, options);
      db.jobs[|old(db.jobs)|]
        == FinishedComposition(created, Renders(run, scenes, outputPath, options), outputPath, finishedAt)
    ensures !Composes(old(db.projects), old(db.scenes), projectId, userId) || mkdirError.Some? ==>
      fs.files == old(fs.files) && fs.dirs == old(fs.dirs)
    ensures Composes(old(db.projects), old(db.scenes), projectId, userId) && mkdirError.None? ==>
      var scenes := CompletedScenes(old(db.scenes), projectId);
      var tempDir := TempDir(cwd, db.jobs[|old(db.jobs)|].id);
      var outputPath := OutputPath(tempDir, uuid, options);
      RenderEffect(Renders(run, scenes, outputPath, options), tempDir, outputPath,
                   old(fs.files), old(fs.dirs), fs.files, fs.dirs)
  {
    if OwnedProject(db.projects, projectId, userId).None? {
      return Failure(ProjectNotFound);
    }
    var scenes := CompletedScenes(db.scenes, projectId);
    if scenes == [] {
      return Failure(NoCompletedScenes);
    }
    var job := CreateJob(db, userId, Video, Processing, ComposeInput(projectId, |scenes|, options), None, now);
    assert db.jobs[|db.jobs| - 1] == job == ComposeRecord(job.id, userId, projectId, |scenes|, options, now);
    r := RunComposition(db, fs, run, job, scenes, options, cwd, uuid, mkdirError, finishedAt);
    assert db.jobs[|old(db.jobs)|].id == job.id;
  }

  // ---------------------------------------------------------------------------
  // Reads and deletes

  datatype ProcessingStatus = ProcessingStatus(status: string, videoUrl: Option<string>, error: Option<string>)

  /** `job.output?.videoUrl`: only an object has members; the worker's text
      output has none. */
  function OutputVideoUrl(output: JobOutput): (url: Option<string>)
    ensures output.VideoUrlObject? ==> url == Some(output.url)
    ensures output.VideoUrlText? || output.NoOutput? ==> url.None?
  {
    match output
    case NoOutput => None
    case VideoUrlText(_) => None
    case VideoUrlObject(u) => Some(u)
    case GenerationResult(response) => response.videoUrl
  }

  function JobIdIs(jobId: string, userId: string): Job -> bool {
    (j: Job) => j.id == jobId && j.userId == userId
  }

  /** `generationJob.findFirst({ where: { id: jobId, userId } })`. */
  function OwnedJob(jobs: seq<Job>, jobId: string, userId: string): (r: Option<Job>)
    ensures r.Some? ==> r.value in jobs && r.value.id == jobId && r.value.userId == userId
    ensures r.None? <==> forall j :: j in jobs ==> !(j.id == jobId && j.userId == userId)
  {
    var matching := Filter(jobs, JobIdIs(jobId, userId));
    if matching == [] then None else Some(matching[0])
  }

  /** `getProcessingStatus`. */
  function StatusOf(jobs: seq<Job>, jobId: string, userId: string): (r: ProcessingStatus)
    ensures OwnedJob(jobs, jobId, userId).None? ==> r == ProcessingStatus(NotFound, None, None)
    ensures OwnedJob(jobs, jobId, userId).Some? ==>
      var job := OwnedJob(jobs, jobId, userId).value;
      r.status == StatusName(job.status) && r.error == job.error && r.videoUrl == OutputVideoUrl(job.output)
  {
    match OwnedJob(jobs, jobId, userId)
    case None => ProcessingStatus(NotFound, None, None)
    case Some(job) => ProcessingStatus(StatusName(job.status), OutputVideoUrl(job.output), job.error)
  }

  /** A job the queue worker completed stores its URL as text, so its
      status reports `completed` with no `videoUrl`. */
  lemma WorkerOutputHidesUrl(jobs: seq<Job>, job: Job, url: string)
    requires UniqueKeys(jobs, JobKey) && job in jobs
    requires job.status == Completed && job.output == VideoUrlText(url)
    ensures StatusOf(jobs, job.id, job.userId) == ProcessingStatus("completed", None, job.error)
  {
    var i :| 0 <= i < |jobs| && jobs[i] == job;
    var found := OwnedJob(jobs, job.id, job.userId).value;
    var k :| 0 <= k < |jobs| && jobs[k] == found;
    assert Keys(jobs, JobKey)[i] == Keys(jobs, JobKey)[k];
    UniqueKeysSame(jobs, JobKey, i, k);
  }

  function VideoJobOf(userId: string): Job -> bool {
    (j: Job) => j.userId == userId && j.jobType == Video
  }

  /** `getProcessingHistory(userId, limit = 10)`: the user's video jobs,
      newest first, at most `limit`. */
  function ProcessingHistory(jobs: seq<Job>, userId: string, limit: Option<int>): (r: seq<Job>)
    ensures forall j :: j in r ==> j in jobs && j.userId == userId && j.jobType == Video
    ensures forall i, k :: 0 <= i < k < |r| ==> r[i].createdAt >= r[k].createdAt
    ensures |r| <= Count(jobs, VideoJobOf(userId))
    ensures limit.None? ==> |r| == if Count(jobs, VideoJobOf(userId)) < DefaultHistoryLimit
                                   then Count(jobs, VideoJobOf(userId)) else DefaultHistoryLimit
    ensures limit.Some? && limit.value >= 0 ==>
      |r| == if limit.value <= Count(jobs, VideoJobOf(userId)) then limit.value else Count(jobs, VideoJobOf(userId))
    ensures limit.Some? && limit.value < 0 ==>
      |r| == if -limit.value <= Count(jobs, VideoJobOf(userId)) then -limit.value else Count(jobs, VideoJobOf(userId))
    ensures multiset(r) <= multiset(Filter(jobs, VideoJobOf(userId)))
    ensures limit.GetOr(DefaultHistoryLimit) >= 0 ==>
      forall j, x :: j in jobs && VideoJobOf(userId)(j) && j !in r && x in r ==> x.createdAt >= j.createdAt
    ensures limit.GetOr(DefaultHistoryLimit) < 0 ==>
      forall j, x :: j in jobs && VideoJobOf(userId)(j) && j !in r && x in r ==> x.createdAt <= j.createdAt
  {
    NewestJobs(jobs, VideoJobOf(userId), limit.GetOr(DefaultHistoryLimit))
  }

  /** `deleteProcessingJob`: removes the job when it is the user's, whatever
      its status. */
  method DeleteProcessingJob(db: Database, jobId: string, userId: string) returns (deleted: bool)
    requires db.Valid()
    modifies db
    ensures db.Valid() && OnlyJobsChanged(db)
    ensures deleted <==> OwnedJob(old(db.jobs), jobId, userId).Some?
    ensures !deleted ==> db.jobs == old(db.jobs)
    ensures deleted ==> db.jobs == RemoveKey(old(db.jobs), JobKey, jobId)
    ensures forall j :: j in db.jobs <==> j in old(db.jobs) && !(deleted && j.id == jobId)
  {
    if OwnedJob(db.jobs, jobId, userId).None? {
      return false;
    }
    RemoveKeyUnique(db.jobs, JobKey, jobId);
    db.jobs := RemoveKey(db.jobs, JobKey, jobId);
    deleted := true;
  }
}

/** Scene operations. Creating, listing, reordering and the statistics check
    that the caller owns the project; reading, updating and deleting one scene
    check that the scene's project belongs to the caller. */
module Scenes {
  import opened Wrappers
  import opened Text
  import opened Tables
  import opened Entities
  import opened Store

  const ProjectDenied := "Project not found or access denied"
  const SceneDenied := "Scene not found or access denied"
  /** The store's error for an update whose row does not exist. */
  const RecordToUpdateNotFound := "Record to update not found."

  /** The columns `updateScene` may change; `None` (not supplied) leaves a
      column as it is. */
  datatype ScenePatch = ScenePatch(
    title: Option<string>,
    prompt: Option<string>,
    imageUrl: Option<string>,
    videoUrl: Option<string>,
    thumbnail: Option<string>,
    duration: Option<int>,
    status: Option<string>,
    metadata: Option<string>)

  /** One `{ sceneId, order }` entry given to `reorderScenes`. */
  datatype OrderUpdate = OrderUpdate(sceneId: string, order: int)

  datatype SceneStats = SceneStats(
    totalScenes: nat,
    completedScenes: nat,
    pendingScenes: nat,
    processingScenes: nat,
    failedScenes: nat,
    totalDuration: int)

  method CreateScene(db: Database, projectId: string, userId: string, prompt: string, order: int,
                     title: Option<string>, now: Time)
    returns (r: Result<Scene>)
    requires db.Valid()
    modifies db
    ensures db.Valid() && OnlyScenesChanged(db)
    ensures r.Err? <==> OwnedProject(old(db.projects), projectId, userId).None?
    ensures r.Err? ==> r.message == ProjectDenied && db.scenes == old(db.scenes)
    ensures r.Ok? ==> db.scenes == old(db.scenes) + [r.value] && r.value.id !in Keys(old(db.scenes), SceneKey)
    ensures r.Ok? ==> var s := r.value;
      s.projectId == projectId && s.order == order && s.prompt == prompt && s.title == title
      && s.status == "pending" && s.aiModel == "openai"
      && s.imageUrl.None? && s.videoUrl.None? && s.thumbnail.None? && s.duration.None? && s.metadata.None?
      && s.createdAt == now && s.updatedAt == now
  {
    if OwnedProject(db.projects, projectId, userId).None? {
      return Err(ProjectDenied);
    }
    var id := NewKey(Keys(db.scenes, SceneKey));
    var s := Scene(id, projectId, order, prompt, title, None, None, None, None, "pending", None, "openai", now, now);
    UniqueKeysAppend(db.scenes, s, SceneKey);
    db.scenes := db.scenes + [s];
    r := Ok(s);
  }

  /** `getProjectScenes`: the project's scenes in ascending `order`, for its owner. */
  function ProjectScenes(projects: seq<Project>, scenes: seq<Scene>, projectId: string, userId: string)
    : (r: Result<seq<Scene>>)
    ensures r.Err? <==> OwnedProject(projects, projectId, userId).None?
    ensures r.Err? ==> r.message == ProjectDenied
    ensures r.Ok? ==> forall s :: s in r.value <==> s in scenes && s.projectId == projectId
    ensures r.Ok? ==> forall i, j :: 0 <= i < j < |r.value| ==> r.value[i].order <= r.value[j].order
    ensures r.Ok? ==> multiset(r.value) == multiset(Filter(scenes, (s: Scene) => s.projectId == projectId))
  {
    if OwnedProject(projects, projectId, userId).None? then Err(ProjectDenied)
    else
      var own := Filter(scenes, (s: Scene) => s.projectId == projectId);
      SortByMembers(own, SceneOrder);
      Ok(SortBy(own, SceneOrder))
  }

  /** `getSceneById`: the scene, when it exists and its project is the caller's. */
  function SceneById(projects: seq<Project>, scenes: seq<Scene>, sceneId: string, userId: string)
    : (r: Result<Scene>)
    ensures r.Err? ==> r.message == SceneDenied
    ensures r.Ok? ==> r.value in scenes && r.value.id == sceneId
    ensures r.Ok? ==> exists p :: p in projects && p.id == r.value.projectId && p.userId == userId
    ensures sceneId !in Keys(scenes, SceneKey) ==> r.Err?
  {
    match FindKey(scenes, SceneKey, sceneId)
    case None => Err(SceneDenied)
    case Some(s) =>
      match FindKey(projects, ProjectKey, s.projectId)
      case None => Err(SceneDenied)
      case Some(p) => if p.userId != userId then Err(SceneDenied) else Ok(s)
  }

  /** In a store with unique ids, the check fails exactly when the scene or its
      owner does not match. */
  lemma SceneByIdExact(projects: seq<Project>, scenes: seq<Scene>, s: Scene, p: Project, userId: string)
    requires UniqueKeys(projects, ProjectKey) && UniqueKeys(scenes, SceneKey)
    requires s in scenes && p in projects && p.id == s.projectId
    ensures SceneById(projects, scenes, s.id, userId) == if p.userId == userId then Ok(s) else Err(SceneDenied)
  {
    FindKeyUnique(scenes, SceneKey, s);
    FindKeyUnique(projects, ProjectKey, p);
  }

  /** The row `updateScene` writes: the supplied columns and `updatedAt`. */
  function ApplyPatch(s: Scene, patch: ScenePatch, now: Time): (r: Scene)
    ensures r.id == s.id && r.projectId == s.projectId && r.order == s.order
    ensures r.aiModel == s.aiModel && r.createdAt == s.createdAt && r.updatedAt == now
    ensures r.title == (if patch.title.Some? then patch.title else s.title)
    ensures r.prompt == patch.prompt.GetOr(s.prompt)
    ensures r.imageUrl == (if patch.imageUrl.Some? then patch.imageUrl else s.imageUrl)
    ensures r.videoUrl == (if patch.videoUrl.Some? then patch.videoUrl else s.videoUrl)
    ensures r.thumbnail == (if patch.thumbnail.Some? then patch.thumbnail else s.thumbnail)
    ensures r.duration == (if patch.duration.Some? then patch.duration else s.duration)
    ensures r.status == patch.status.GetOr(s.status)
    ensures r.metadata == (if patch.metadata.Some? then patch.metadata else s.metadata)
    ensures patch == ScenePatch(None, None, None, None, None, None, None, None) ==> r == s.(updatedAt := now)
  {
    s.(title := if patch.title.Some? then patch.title else s.title,
       prompt := patch.prompt.GetOr(s.prompt),
       imageUrl := if patch.imageUrl.Some? then patch.imageUrl else s.imageUrl,
       videoUrl := if patch.videoUrl.Some? then patch.videoUrl else s.videoUrl,
       thumbnail := if patch.thumbnail.Some? then patch.thumbnail else s.thumbnail,
       duration := if patch.duration.Some? then patch.duration else s.duration,
       status := patch.status.GetOr(s.status),
       metadata := if patch.metadata.Some? then patch.metadata else s.metadata,
       updatedAt := now)
  }

  method UpdateScene(db: Database, sceneId: string, userId: string, patch: ScenePatch, now: Time)
    returns (r: Result<Scene>)
    requires db.Valid()
    modifies db
    ensures db.Valid() && OnlyScenesChanged(db)
    ensures r.Err? <==> SceneById(old(db.projects), old(db.scenes), sceneId, userId).Err?
    ensures r.Err? ==> r.message == SceneDenied && db.scenes == old(db.scenes)
    ensures r.Ok? ==> r.value == ApplyPatch(SceneById(old(db.projects), old(db.scenes), sceneId, userId).value, patch, now)
    ensures |db.scenes| == |old(db.scenes)|
    ensures forall k :: 0 <= k < |db.scenes| ==>
      db.scenes[k] == if r.Ok? && old(db.scenes)[k].id == sceneId then r.value else old(db.scenes)[k]
  {
    var found := SceneById(db.projects, db.scenes, sceneId, userId);
    if found.Err? {
      return Err(found.message);
    }
    var s := ApplyPatch(found.value, patch, now);
    var i := IndexOfKey(db.scenes, SceneKey, sceneId).value;
    FindKeyUnique(db.scenes, SceneKey, found.value);
    forall k | 0 <= k < |db.scenes| && db.scenes[k].id == sceneId ensures k == i {
      UniqueKeysSame(db.scenes, SceneKey, i, k);
    }
    UniqueKeysUpdate(db.scenes, SceneKey, i, s);
    db.scenes := db.scenes[i := s];
    r := Ok(s);
  }

  method DeleteScene(db: Database, sceneId: string, userId: string) returns (r: Result<Scene>)
    requires db.Valid()
    modifies db
    ensures db.Valid() && OnlyScenesChanged(db)
    ensures r == SceneById(old(db.projects), old(db.scenes), sceneId, userId)
    ensures r.Err? ==> db.scenes == old(db.scenes)
    ensures r.Ok? ==> forall s :: s in db.scenes <==> s in old(db.scenes) && s != r.value
    ensures r.Ok? ==> |db.scenes| == |old(db.scenes)| - 1
  {
    r := SceneById(db.projects, db.scenes, sceneId, userId);
    if r.Ok? {
      DeleteRow(db.scenes, r.value);
      RemoveKeyUnique(db.scenes, SceneKey, sceneId);
      db.scenes := RemoveKey(db.scenes, SceneKey, sceneId);
    }
  }

  /** Removing a row's key from a table with unique keys removes that row only. */
  lemma {:induction false} DeleteRow(rows: seq<Scene>, x: Scene)
    requires UniqueKeys(rows, SceneKey) && x in rows
    ensures forall s :: s in RemoveKey(rows, SceneKey, x.id) <==> s in rows && s != x
    ensures |RemoveKey(rows, SceneKey, x.id)| == |rows| - 1
  {
    if rows[0] == x {
      assert x.id !in Keys(rows[1..], SceneKey);
      assert RemoveKey(rows, SceneKey, x.id) == [] + RemoveKey(rows[1..], SceneKey, x.id);
    } else {
      assert x in rows[1..];
      DeleteRow(rows[1..], x);
      forall s | s in rows && s.id == x.id ensures s == x {
        var i :| 0 <= i < |rows| && rows[i] == s;
        var j :| 0 <= j < |rows| && rows[j] == x;
        UniqueKeysSame(rows, SceneKey, i, j);
      }
    }
  }

  // ---------------------------------------------------------------------------
  // reorderScenes

  /** One `scene.update({ where: { id: sceneId }, data: { order } })`. */
  function SetOrder(scenes: seq<Scene>, u: OrderUpdate): (r: seq<Scene>)
    ensures |r| == |scenes|
    ensures forall i :: 0 <= i < |scenes| ==>
      r[i] == if scenes[i].id == u.sceneId then scenes[i].(order := u.order) else scenes[i]
  {
    MapWhere(scenes, IdIs(u.sceneId), WithOrder(u.order))
  }

  function IdIs(id: string): Scene -> bool {
    (s: Scene) => s.id == id
  }

  function WithOrder(order: int): Scene -> Scene {
    (s: Scene) => s.(order := order)
  }

  lemma SetOrderKeys(scenes: seq<Scene>, u: OrderUpdate)
    ensures Keys(SetOrder(scenes, u), SceneKey) == Keys(scenes, SceneKey)
  {
    MapWhereUnique(scenes, SceneKey, IdIs(u.sceneId), WithOrder(u.order));
  }

  /** The updates applied in list order. */
  function Reordered(scenes: seq<Scene>, updates: seq<OrderUpdate>): (r: seq<Scene>)
    ensures |r| == |scenes|
    ensures forall i :: 0 <= i < |scenes| ==> r[i] == scenes[i].(order := r[i].order)
    decreases |updates|
  {
    if updates == [] then scenes
    else SetOrder(Reordered(scenes, updates[..|updates| - 1]), updates[|updates| - 1])
  }

  lemma ReorderedStep(scenes: seq<Scene>, updates: seq<OrderUpdate>, k: nat)
    requires k < |updates|
    ensures Reordered(scenes, updates[..k + 1]) == SetOrder(Reordered(scenes, updates[..k]), updates[k])
  {
    assert updates[..k + 1][..k] == updates[..k];
  }

  /** The order the last update naming `id` gives, if any update names it. */
  function LastOrder(updates: seq<OrderUpdate>, id: string): (r: Option<int>)
    ensures r.None? <==> forall k :: 0 <= k < |updates| ==> updates[k].sceneId != id
    decreases |updates|
  {
    if updates == [] then None
    else if updates[|updates| - 1].sceneId == id then Some(updates[|updates| - 1].order)
    else LastOrder(updates[..|updates| - 1], id)
  }

  /** After the updates, every listed scene has the order its last update gives,
      whatever project it belongs to, and every other column is unchanged. */
  lemma {:induction false} ReorderedAt(scenes: seq<Scene>, updates: seq<OrderUpdate>, k: nat)
    requires k < |scenes|
    ensures |Reordered(scenes, updates)| == |scenes|
    ensures Reordered(scenes, updates)[k] == scenes[k].(order := LastOrder(updates, scenes[k].id).GetOr(scenes[k].order))
    decreases |updates|
  {
    if updates != [] {
      ReorderedAt(scenes, updates[..|updates| - 1], k);
    }
  }

  method ReorderScenes(db: Database, projectId: string, userId: string, updates: seq<OrderUpdate>)
    returns (r: Result<seq<Scene>>)
    requires db.Valid()
    modifies db
    ensures db.Valid() && OnlyScenesChanged(db)
    ensures OwnedProject(old(db.projects), projectId, userId).None? ==> r == Err(ProjectDenied) && db.scenes == old(db.scenes)
    ensures OwnedProject(old(db.projects), projectId, userId).Some? ==> db.scenes == Reordered(old(db.scenes), updates)
    ensures OwnedProject(old(db.projects), projectId, userId).Some? ==>
      if exists k :: 0 <= k < |updates| && updates[k].sceneId !in Keys(old(db.scenes), SceneKey)
      then r == Err(RecordToUpdateNotFound)
      else r == ProjectScenes(db.projects, db.scenes, projectId, userId)
  {
    if OwnedProject(db.projects, projectId, userId).None? {
      return Err(ProjectDenied);
    }
    var scenes, missing := ApplyOrderUpdates(db.scenes, updates);
    KeysOfSameKeys(db.scenes, scenes, SceneKey);
    db.scenes := scenes;
    if missing {
      r := Err(RecordToUpdateNotFound);
    } else {
      r := ProjectScenes(db.projects, db.scenes, projectId, userId);
    }
  }

  /** The `scene.update` calls of `reorderScenes`, in list order; `missing`
      reports whether one of them named a scene that does not exist. */
  method ApplyOrderUpdates(before: seq<Scene>, updates: seq<OrderUpdate>) returns (scenes: seq<Scene>, missing: bool)
    ensures scenes == Reordered(before, updates)
    ensures Keys(scenes, SceneKey) == Keys(before, SceneKey)
    ensures missing <==> exists k :: 0 <= k < |updates| && updates[k].sceneId !in Keys(before, SceneKey)
  {
    scenes := before;
    missing := false;
    ghost var ids := Keys(before, SceneKey);
    var k := 0;
    while k < |updates|
      invariant 0 <= k <= |updates|
      invariant scenes == Reordered(before, updates[..k])
      invariant Keys(scenes, SceneKey) == ids
      invariant missing <==> exists j :: 0 <= j < k && updates[j].sceneId !in ids
    {
      var u := updates[k];
      if u.sceneId !in Keys(scenes, SceneKey) {
        missing := true;
        assert updates[k].sceneId !in ids;
      } else {
        assert forall j :: 0 <= j < k + 1 && updates[j].sceneId !in ids ==> j < k;
      }
      SetOrderKeys(scenes, u);
      ReorderedStep(before, updates, k);
      scenes := SetOrder(scenes, u);
      k := k + 1;
    }
    assert updates[..k] == updates;
  }

  // ---------------------------------------------------------------------------
  // getSceneStats

  function HasStatus(status: string): Scene -> bool {
    (s: Scene) => s.status == status
  }

  /** `duration || 0` for each scene. */
  function Durations(scenes: seq<Scene>): (ds: seq<int>)
    ensures |ds| == |scenes|
    ensures forall i :: 0 <= i < |scenes| ==> ds[i] == NumberOr(scenes[i].duration, 0)
  {
    if scenes == [] then [] else [NumberOr(scenes[0].duration, 0)] + Durations(scenes[1..])
  }

  predicate KnownStatus(s: Scene) {
    s.status in {"pending", "processing", "completed", "failed"}
  }

  /** The four status counts never exceed the number of scenes, and add up to it
      when every status is one of the four. */
  lemma {:induction false} StatusCounts(scenes: seq<Scene>)
    ensures |Filter(scenes, HasStatus("completed"))| + |Filter(scenes, HasStatus("pending"))|
            + |Filter(scenes, HasStatus("processing"))| + |Filter(scenes, HasStatus("failed"))| <= |scenes|
    ensures (forall s :: s in scenes ==> KnownStatus(s)) ==>
            |Filter(scenes, HasStatus("completed"))| + |Filter(scenes, HasStatus("pending"))|
            + |Filter(scenes, HasStatus("processing"))| + |Filter(scenes, HasStatus("failed"))| == |scenes|
  {
    if scenes != [] {
      StatusCounts(scenes[1..]);
      if forall s :: s in scenes ==> KnownStatus(s) {
        assert forall s :: s in scenes[1..] ==> s in scenes;
        assert KnownStatus(scenes[0]);
      }
    }
  }

  function StatsOf(scenes: seq<Scene>): (r: SceneStats)
    ensures r.totalScenes == |scenes|
    ensures r.completedScenes == Count(scenes, HasStatus("completed"))
    ensures r.pendingScenes == Count(scenes, HasStatus("pending"))
    ensures r.processingScenes == Count(scenes, HasStatus("processing"))
    ensures r.failedScenes == Count(scenes, HasStatus("failed"))
    ensures r.completedScenes + r.pendingScenes + r.processingScenes + r.failedScenes <= r.totalScenes
    ensures (forall s :: s in scenes ==> KnownStatus(s)) ==>
            r.completedScenes + r.pendingScenes + r.processingScenes + r.failedScenes == r.totalScenes
    ensures r.totalDuration == Sum(Durations(scenes))
  {
    StatusCounts(scenes);
    SceneStats(|scenes|,
      |Filter(scenes, HasStatus("completed"))|,
      |Filter(scenes, HasStatus("pending"))|,
      |Filter(scenes, HasStatus("processing"))|,
      |Filter(scenes, HasStatus("failed"))|,
      Sum(Durations(scenes)))
  }

  /** `getSceneStats`: the statistics of the project's scenes, for its owner. */
  function ProjectSceneStats(projects: seq<Project>, scenes: seq<Scene>, projectId: string, userId: string)
    : (r: Result<SceneStats>)
    ensures r.Err? <==> OwnedProject(projects, projectId, userId).None?
    ensures r.Err? ==> r.message == ProjectDenied
    ensures r.Ok? ==> r.value == StatsOf(Filter(scenes, (s: Scene) => s.projectId == projectId))
    ensures r.Ok? ==> r.value.totalScenes == Count(scenes, (s: Scene) => s.projectId == projectId)
    ensures r.Ok? ==> r.value.completedScenes + r.value.pendingScenes + r.value.processingScenes
                      + r.value.failedScenes <= r.value.totalScenes
  {
    if OwnedProject(projects, projectId, userId).None? then Err(ProjectDenied)
    else Ok(StatsOf(Filter(scenes, (s: Scene) => s.projectId == projectId)))
  }
}

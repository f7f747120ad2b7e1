/** Owner-scoped project operations: every read and write is restricted to
    the projects whose `userId` is the caller's. */
module Projects {
  import opened Wrappers
  import opened Tables
  import opened Entities
  import opened Store

  /** A project with its scenes and characters (`include`). */
  datatype ProjectDetails = ProjectDetails(project: Project, scenes: seq<Scene>, characters: seq<Character>)

  /** The columns `updateProject` may change; `None` leaves a column as it is. */
  datatype ProjectPatch = ProjectPatch(title: Option<string>, description: Option<string>)

  /** The filter `{ id: projectId, userId }`. */
  function OwnedBy(projectId: string, userId: string): Project -> bool {
    (p: Project) => p.id == projectId && p.userId == userId
  }

  /** With unique ids, the filter matches one project when the user owns it and
      none otherwise. */
  lemma {:induction false} OwnedByCount(projects: seq<Project>, projectId: string, userId: string)
    requires UniqueKeys(projects, ProjectKey)
    ensures Count(projects, OwnedBy(projectId, userId)) == if OwnedProject(projects, projectId, userId).Some? then 1 else 0
  {
    if projects != [] {
      var rest := projects[1..];
      OwnedByCount(rest, projectId, userId);
      if OwnedBy(projectId, userId)(projects[0]) {
        forall p | p in rest ensures p.id != projectId {
          var j :| 0 <= j < |rest| && rest[j] == p;
          assert Keys(rest, ProjectKey)[j] == p.id;
        }
        assert Filter(rest, OwnedBy(projectId, userId)) == [];
      } else {
        assert Filter(projects, OwnedBy(projectId, userId)) == [] + Filter(rest, OwnedBy(projectId, userId));
        assert OwnedProject(projects, projectId, userId).Some? == OwnedProject(rest, projectId, userId).Some?;
      }
    }
  }

  method CreateProject(db: Database, userId: string, title: string, description: Option<string>, now: Time)
    returns (p: Project)
    requires db.Valid()
    modifies db
    ensures db.Valid() && OnlyProjectsChanged(db)
    ensures p.userId == userId && p.title == title && p.description == description
    ensures p.createdAt == now && p.updatedAt == now
    ensures p.id !in Keys(old(db.projects), ProjectKey)
    ensures db.projects == old(db.projects) + [p]
  {
    var id := NewKey(Keys(db.projects, ProjectKey));
    p := Project(id, title, description, userId, now, now);
    UniqueKeysAppend(db.projects, p, ProjectKey);
    db.projects := db.projects + [p];
  }

  /** `getUserProjects`: the user's projects, newest first. */
  function UserProjects(projects: seq<Project>, userId: string): (r: seq<Project>)
    ensures forall p :: p in r <==> p in projects && p.userId == userId
    ensures forall i, j :: 0 <= i < j < |r| ==> r[i].createdAt >= r[j].createdAt
    ensures multiset(r) == multiset(Filter(projects, (p: Project) => p.userId == userId))
  {
    var mine := Filter(projects, (p: Project) => p.userId == userId);
    SortByMembers(mine, ProjectRecency);
    SortBy(mine, ProjectRecency)
  }

  /** `getProjectById`: nothing unless the user owns the project; its scenes
      in ascending `order`, and its characters. */
  function ProjectById(projects: seq<Project>, scenes: seq<Scene>, characters: seq<Character>,
                       projectId: string, userId: string): (r: Option<ProjectDetails>)
    ensures r.None? <==> OwnedProject(projects, projectId, userId).None?
    ensures r.Some? ==> r.value.project in projects
    ensures r.Some? ==> r.value.project.id == projectId && r.value.project.userId == userId
    ensures r.Some? ==> forall s :: s in r.value.scenes <==> s in scenes && s.projectId == projectId
    ensures r.Some? ==> forall i, j :: 0 <= i < j < |r.value.scenes| ==> r.value.scenes[i].order <= r.value.scenes[j].order
    ensures r.Some? ==> multiset(r.value.scenes) == multiset(Filter(scenes, (s: Scene) => s.projectId == projectId))
    ensures r.Some? ==> forall c :: c in r.value.characters <==> c in characters && c.projectId == Some(projectId)
    ensures r.Some? ==> multiset(r.value.characters) == multiset(Filter(characters, (c: Character) => c.projectId == Some(projectId)))
  {
    match OwnedProject(projects, projectId, userId)
    case None => None
    case Some(p) =>
      var own := Filter(scenes, (s: Scene) => s.projectId == projectId);
      SortByMembers(own, SceneOrder);
      Some(ProjectDetails(p, SortBy(own, SceneOrder), Filter(characters, (c: Character) => c.projectId == Some(projectId))))
  }

  function Patched(p: Project, patch: ProjectPatch): Project {
    p.(title := patch.title.GetOr(p.title),
       description := if patch.description.Some? then patch.description else p.description)
  }

  /** `updateProject` (`updateMany`): returns the number of rows changed. */
  method UpdateProject(db: Database, projectId: string, userId: string, patch: ProjectPatch)
    returns (count: nat)
    requires db.Valid()
    modifies db
    ensures db.Valid() && OnlyProjectsChanged(db)
    ensures count == if OwnedProject(old(db.projects), projectId, userId).Some? then 1 else 0
    ensures |db.projects| == |old(db.projects)|
    ensures forall i :: 0 <= i < |db.projects| ==>
      db.projects[i] == if old(db.projects)[i].id == projectId && old(db.projects)[i].userId == userId
                        then Patched(old(db.projects)[i], patch) else old(db.projects)[i]
  {
    var f := (p: Project) => Patched(p, patch);
    OwnedByCount(db.projects, projectId, userId);
    count := Count(db.projects, OwnedBy(projectId, userId));
    MapWhereUnique(db.projects, ProjectKey, OwnedBy(projectId, userId), f);
    db.projects := MapWhere(db.projects, OwnedBy(projectId, userId), f);
  }

  /** `deleteProject` (`deleteMany`): returns the number of rows removed. */
  method DeleteProject(db: Database, projectId: string, userId: string) returns (count: nat)
    requires db.Valid()
    modifies db
    ensures db.Valid() && OnlyProjectsChanged(db)
    ensures count == if OwnedProject(old(db.projects), projectId, userId).Some? then 1 else 0
    ensures forall p :: p in db.projects <==> p in old(db.projects) && !(p.id == projectId && p.userId == userId)
    ensures |db.projects| == |old(db.projects)| - count
  {
    var keep := (p: Project) => !OwnedBy(projectId, userId)(p);
    OwnedByCount(db.projects, projectId, userId);
    FilterSplit(db.projects, OwnedBy(projectId, userId), keep);
    count := Count(db.projects, OwnedBy(projectId, userId));
    FilterUnique(db.projects, ProjectKey, keep);
    db.projects := Filter(db.projects, keep);
  }
}

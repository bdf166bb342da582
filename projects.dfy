/** The projects router (apps/api/src/routers/projects.py) over an abstract
    projects table: ownership-guarded get, update and delete, creation, the
    field-wise patch, and the paginated listing with episode counts. */
module Projects {

  import opened Wrappers
  import opened Http
  import opened ProjectSchema
  import opened Pagination
  import AuthService

  const ProjectNotFoundDetail: string := "Project not found"

  /** A row of the `projects` table. `podcast_metadata` is stored as the
      dump of a `PodcastMetadata`, which the model keeps as that value. */
  datatype Project = Project(
    id: string,
    userId: string,
    tenantId: string,
    title: string,
    description: Option<string>,
    podcastMetadata: PodcastMetadata)
  {
    /** What a row holds when it was written through the schemas. */
    predicate Valid() {
      ValidTitle(title) && AtMost(description, 2000) && podcastMetadata.Valid()
    }
  }

  /** The replacement rule of `update_project`: a field is taken from the
      patch exactly when the patch supplies it. */
  function PatchField<T>(current: T, patch: Option<T>): (r: T)
    ensures patch.None? ==> r == current
    ensures patch.Some? ==> r == patch.value
  {
    if patch.Some? then patch.value else current
  }

  /** `update_project`'s field updates. */
  function Patched(p: Project, u: ProjectUpdate): (q: Project)
    ensures q.id == p.id && q.userId == p.userId && q.tenantId == p.tenantId
  {
    p.(title := PatchField(p.title, u.title),
       description := if u.description.Some? then u.description else p.description,
       podcastMetadata := PatchField(p.podcastMetadata, u.podcastMetadata))
  }

  /** The update that leaves every field out. */
  function EmptyPatch(): (u: ProjectUpdate)
    ensures u.Valid()
    ensures u.title.None? && u.description.None? && u.podcastMetadata.None?
  {
    ProjectUpdate(None, None, None)
  }

  /** Applying `u` and then `v` is applying one patch whose fields come from
      `v` where it has them and from `u` elsewhere. */
  function Merge(u: ProjectUpdate, v: ProjectUpdate): (w: ProjectUpdate)
    ensures u.Valid() && v.Valid() ==> w.Valid()
  {
    ProjectUpdate(
      if v.title.Some? then v.title else u.title,
      if v.description.Some? then v.description else u.description,
      if v.podcastMetadata.Some? then v.podcastMetadata else u.podcastMetadata)
  }

  /** A patch never clears a field: a present description stays present,
      and fields the patch leaves out keep their values. */
  lemma PatchNeverClears(p: Project, u: ProjectUpdate)
    ensures p.description.Some? ==> Patched(p, u).description.Some?
    ensures u.title.None? ==> Patched(p, u).title == p.title
    ensures u.description.None? ==> Patched(p, u).description == p.description
    ensures u.podcastMetadata.None? ==> Patched(p, u).podcastMetadata == p.podcastMetadata
    ensures u.title.Some? ==> Patched(p, u).title == u.title.value
    ensures u.description.Some? ==> Patched(p, u).description == u.description
    ensures u.podcastMetadata.Some? ==> Patched(p, u).podcastMetadata == u.podcastMetadata.value
  {
  }

  /** The empty patch changes nothing, two patches compose into their merge,
      and so applying a patch twice is applying it once. */
  lemma PatchAlgebra(p: Project, u: ProjectUpdate, v: ProjectUpdate)
    ensures Patched(p, EmptyPatch()) == p
    ensures Patched(Patched(p, u), v) == Patched(p, Merge(u, v))
    ensures Patched(Patched(p, u), u) == Patched(p, u)
  {
    assert Merge(u, u) == u;
  }

  /** A valid update keeps a valid row valid. */
  lemma PatchKeepsValid(p: Project, u: ProjectUpdate)
    requires p.Valid() && u.Valid()
    ensures Patched(p, u).Valid()
  {
  }

  /** The row `create_project` inserts. */
  function NewProject(data: ProjectCreate, user: AuthService.User, id: string): (p: Project)
    ensures p.id == id && p.userId == user.id && p.tenantId == user.tenantId
    ensures p.title == data.title && p.description == data.description && p.podcastMetadata == data.podcastMetadata
    ensures data.Valid() ==> p.Valid()
  {
    Project(id, user.id, user.tenantId, data.title, data.description, data.podcastMetadata)
  }

  /** `ProjectResponse(**project_dict)` with `episode_count` overwritten. */
  function ResponseWithCount(p: Project, count: int): (r: ProjectResponse)
    ensures r.id == p.id && r.userId == p.userId && r.tenantId == p.tenantId
    ensures r.title == p.title && r.description == p.description && r.podcastMetadata == p.podcastMetadata
    ensures r.episodeCount == count
  {
    ResponseOf(p.id, p.userId, p.tenantId, p.title, p.description, p.podcastMetadata).(episodeCount := count)
  }

  /** `.offset(o).limit(n)` on an ordered result. */
  function Window<T>(rows: seq<T>, offset: int, limit: int): (w: seq<T>)
    requires offset >= 0 && limit >= 0
    ensures |w| <= limit
    ensures offset >= |rows| ==> w == []
    ensures offset < |rows| ==> |w| == if offset + limit <= |rows| then limit else |rows| - offset
    ensures forall k :: 0 <= k < |w| ==> offset + k < |rows| && w[k] == rows[offset + k]
  {
    if offset >= |rows| then []
    else if offset + limit <= |rows| then rows[offset..offset + limit]
    else rows[offset..]
  }

  /** A sequence without repetitions. */
  predicate Distinct<T(==)>(s: seq<T>) {
    forall i, j :: 0 <= i < j < |s| ==> s[i] != s[j]
  }

  /** `episode_project_ids` with every occurrence of `id` removed: the
      cascade that deleting a project performs on its episodes. */
  function Without(ids: seq<string>, id: string): (r: seq<string>)
    ensures multiset(r)[id] == 0
    ensures forall x :: x != id ==> multiset(r)[x] == multiset(ids)[x]
  {
    if |ids| == 0 then []
    else
      assert ids == [ids[0]] + ids[1..];
      (if ids[0] == id then [] else [ids[0]]) + Without(ids[1..], id)
  }

  /** A repetition-free sequence has as many distinct elements as entries. */
  lemma {:induction false} DistinctCardinality<T>(s: seq<T>)
    requires Distinct(s)
    ensures |set x | x in s| == |s|
  {
    if |s| > 0 {
      var rest := s[1..];
      DistinctCardinality(rest);
      assert (set x | x in s) == {s[0]} + (set x | x in rest);
    }
  }

  /** The `projects` table, and the `project_id` of every row of the
      `episodes` table (the counts come from the latter). */
  class ProjectStore {
    var projects: map<string, Project>
    var episodeProjectIds: seq<string>

    /** Every row is stored under its own id. */
    ghost predicate Valid()
      reads this
    {
      forall id :: id in projects ==> projects[id].id == id
    }

    constructor ()
      ensures Valid() && projects == map[] && episodeProjectIds == []
    {
      projects := map[];
      episodeProjectIds := [];
    }

    /** `select(Project).where(Project.id == id, Project.user_id == user)`. */
    predicate Owns(id: string, userId: string)
      reads this
    {
      id in projects && projects[id].userId == userId
    }

    /** `select(func.count()).select_from(Episode).where(Episode.project_id == id)`. */
    function EpisodeCount(id: string): (n: nat)
      reads this
      ensures n == multiset(episodeProjectIds)[id]
      ensures id !in episodeProjectIds ==> n == 0
    {
      multiset(episodeProjectIds)[id]
    }

    /** The ids of the user's projects. */
    function OwnedIds(userId: string): set<string>
      reads this
    {
      set id | id in projects && projects[id].userId == userId
    }

    /** `get_project`: 404 unless a project has this id and belongs to the user. */
    function GetProject(id: string, userId: string): (r: Result<ProjectResponse, HttpError>)
      reads this
      ensures r.Err? <==> !Owns(id, userId)
      ensures r.Err? ==> r.error == HttpError(NotFound, ProjectNotFoundDetail)
      ensures r.Ok? ==> r.value.userId == userId && r.value.id == projects[id].id
      ensures r.Ok? ==> r.value == ResponseWithCount(projects[id], EpisodeCount(id))
    {
      if !Owns(id, userId) then Err(HttpError(NotFound, ProjectNotFoundDetail))
      else Ok(ResponseWithCount(projects[id], EpisodeCount(id)))
    }

    /** `create_project`: owner and tenant come from the current user and the
        response reports no episodes. `newId` is the fresh `uuid4`. */
    method CreateProject(data: ProjectCreate, user: AuthService.User, newId: string) returns (r: ProjectResponse)
      requires Valid() && newId !in projects
      modifies this
      ensures Valid()
      ensures projects == old(projects)[newId := NewProject(data, user, newId)]
      ensures episodeProjectIds == old(episodeProjectIds)
      ensures r == ResponseWithCount(NewProject(data, user, newId), 0)
      ensures r.userId == user.id && r.tenantId == user.tenantId && r.episodeCount == 0
    {
      var project := NewProject(data, user, newId);
      projects := projects[newId := project];
      r := ResponseWithCount(project, 0);
    }

    /** `update_project`: 404 and no change unless the user owns the
        project; otherwise only that row changes, by the patch. */
    method UpdateProject(id: string, patch: ProjectUpdate, userId: string) returns (r: Result<ProjectResponse, HttpError>)
      requires Valid()
      modifies this
      ensures Valid()
      ensures episodeProjectIds == old(episodeProjectIds)
      ensures !old(Owns(id, userId)) ==>
        r == Err(HttpError(NotFound, ProjectNotFoundDetail)) && projects == old(projects)
      ensures old(Owns(id, userId)) ==>
        && projects == old(projects)[id := Patched(old(projects)[id], patch)]
        && r == Ok(ResponseWithCount(projects[id], EpisodeCount(id)))
    {
      if !Owns(id, userId) {
        return Err(HttpError(NotFound, ProjectNotFoundDetail));
      }
      var project := projects[id];
      if patch.title.Some? {
        project := project.(title := patch.title.value);
      }
      if patch.description.Some? {
        project := project.(description := patch.description);
      }
      if patch.podcastMetadata.Some? {
        project := project.(podcastMetadata := patch.podcastMetadata.value);
      }
      projects := projects[id := project];
      r := Ok(ResponseWithCount(project, EpisodeCount(id)));
    }

    /** `delete_project`: 404 and no change unless the user owns the project;
        otherwise the row goes, and its episodes with it (the relationship
        cascades). */
    method DeleteProject(id: string, userId: string) returns (r: Result<(), HttpError>)
      requires Valid()
      modifies this
      ensures Valid()
      ensures !old(Owns(id, userId)) ==>
        && r == Err(HttpError(NotFound, ProjectNotFoundDetail))
        && projects == old(projects) && episodeProjectIds == old(episodeProjectIds)
      ensures old(Owns(id, userId)) ==>
        && r == Ok(())
        && projects == old(projects) - {id}
        && episodeProjectIds == Without(old(episodeProjectIds), id)
    {
      if !Owns(id, userId) {
        return Err(HttpError(NotFound, ProjectNotFoundDetail));
      }
      projects := projects - {id};
      episodeProjectIds := Without(episodeProjectIds, id);
      r := Ok(());
    }

    /** The responses for a run of ids, each with its episode count. */
    function PageItems(ids: seq<string>): (items: seq<ProjectResponse>)
      reads this
      requires forall k :: 0 <= k < |ids| ==> ids[k] in projects
      ensures |items| == |ids|
      ensures forall k :: 0 <= k < |ids| ==> items[k] == ResponseWithCount(projects[ids[k]], EpisodeCount(ids[k]))
    {
      if |ids| == 0 then [] else [ResponseWithCount(projects[ids[0]], EpisodeCount(ids[0]))] + PageItems(ids[1..])
    }

    /** `list_projects`. `order` is the user's project ids as `ORDER BY
        created_at DESC` returns them: each exactly once. */
    method ListProjects(userId: string, params: PaginationParams, order: seq<string>) returns (r: PaginatedResponse<ProjectResponse>)
      requires Valid() && params.Valid()
      requires Distinct(order)
      requires forall k :: 0 <= k < |order| ==> Owns(order[k], userId)
      requires forall id :: Owns(id, userId) ==> id in order
      ensures forall k :: 0 <= k < |order| ==> order[k] in projects
      ensures r == MakePage(PageItems(Window(order, params.Offset(), params.Limit())), |order|, params)
      ensures r.Valid() && r.total == |OwnedIds(userId)|
      ensures r.page == params.page && r.pageSize == params.pageSize
      ensures |r.items| <= params.pageSize
      ensures forall k :: 0 <= k < |r.items| ==>
        && r.items[k].userId == userId
        && r.items[k].id == order[params.Offset() + k]
        && r.items[k].episodeCount == EpisodeCount(order[params.Offset() + k])
    {
      OrderCountsOwned(userId, order);
      var total := |order|;
      var page := Window(order, params.Offset(), params.Limit());
      assert forall k :: 0 <= k < |page| ==> page[k] in OwnedIds(userId);
      var projectsData: seq<ProjectResponse> := [];
      var i := 0;
      while i < |page|
        invariant 0 <= i <= |page|
        invariant projectsData == PageItems(page[..i])
      {
        assert page[..i + 1] == page[..i] + [page[i]];
        PageItemsAppend(page[..i], page[i]);
        projectsData := projectsData + [ResponseWithCount(projects[page[i]], EpisodeCount(page[i]))];
        i := i + 1;
      }
      assert page[..|page|] == page;
      r := MakePage(projectsData, total, params);
    }

    /** An ordering that lists each of the user's projects once has as
        many entries as the user has projects. */
    lemma OrderCountsOwned(userId: string, order: seq<string>)
      requires Distinct(order)
      requires forall k :: 0 <= k < |order| ==> Owns(order[k], userId)
      requires forall id :: Owns(id, userId) ==> id in order
      ensures |order| == |OwnedIds(userId)|
    {
      DistinctCardinality(order);
      assert (set id | id in order) == OwnedIds(userId);
    }

    lemma {:induction false} PageItemsAppend(ids: seq<string>, id: string)
      requires forall k :: 0 <= k < |ids| ==> ids[k] in projects
      requires id in projects
      ensures PageItems(ids + [id]) == PageItems(ids) + [ResponseWithCount(projects[id], EpisodeCount(id))]
    {
      var lhs := PageItems(ids + [id]);
      var rhs := PageItems(ids) + [ResponseWithCount(projects[id], EpisodeCount(id))];
      assert |lhs| == |rhs|;
      forall k | 0 <= k < |lhs|
        ensures lhs[k] == rhs[k]
      {
        if k < |ids| {
          assert (ids + [id])[k] == ids[k];
        }
      }
    }
  }
}

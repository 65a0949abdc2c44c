/**
 * The project registry (`useProjectStore`): the user's projects, newest
 * first, the project open in the editor, and the search text and status
 * filter of the dashboard, with the filtered view computed from them.
 */
module ProjectStore {
  import opened Nullable
  import opened Seqs
  import opened JsStrings

  datatype TechStack = TechStack(framework: string, language: string, database: Option<string>, styling: string)

  datatype ProjectStatus = Draft | Building | Deployed | Failed

  /** The string value of each status, as the filter compares it. */
  function StatusName(s: ProjectStatus): (r: string)
    ensures r in {"draft", "building", "deployed", "error"}
  {
    match s
    case Draft => "draft"
    case Building => "building"
    case Deployed => "deployed"
    case Failed => "error"
  }

  /** Distinct statuses have distinct names. */
  lemma StatusNameInjective(a: ProjectStatus, b: ProjectStatus)
    ensures StatusName(a) == StatusName(b) ==> a == b
  {
  }

  /** A project; `files` is a plain record of path to content, and dates are milliseconds. */
  datatype Project = Project(
    id: string,
    userId: string,
    name: string,
    description: string,
    techStack: TechStack,
    files: map<string, string>,
    deploymentUrl: Option<string>,
    githubUrl: Option<string>,
    status: ProjectStatus,
    createdAt: int,
    updatedAt: int)

  /**
   * A `Partial<Project>`: `None` where the key is absent. For the optional
   * fields, `Some(None)` is a key present with the value `undefined`, which
   * the spread copies over.
   */
  datatype ProjectPatch = ProjectPatch(
    id: Option<string>,
    userId: Option<string>,
    name: Option<string>,
    description: Option<string>,
    techStack: Option<TechStack>,
    files: Option<map<string, string>>,
    deploymentUrl: Option<Option<string>>,
    githubUrl: Option<Option<string>>,
    status: Option<ProjectStatus>,
    createdAt: Option<int>,
    updatedAt: Option<int>)

  /** The patch with no keys. */
  const EmptyPatch: ProjectPatch := ProjectPatch(None, None, None, None, None, None, None, None, None, None, None)

  /**
   * `{ ...p, ...u, updatedAt: now }`: every key the patch has replaces the
   * field, every key it lacks keeps the project's value, and `updatedAt` is
   * the fresh time even when the patch has one.
   */
  function Merge(p: Project, u: ProjectPatch, now: int): (r: Project)
    ensures u.id.Some? ==> r.id == u.id.value
    ensures u.id.None? ==> r.id == p.id
    ensures u.userId.Some? ==> r.userId == u.userId.value
    ensures u.userId.None? ==> r.userId == p.userId
    ensures u.name.Some? ==> r.name == u.name.value
    ensures u.name.None? ==> r.name == p.name
    ensures u.description.Some? ==> r.description == u.description.value
    ensures u.description.None? ==> r.description == p.description
    ensures u.techStack.Some? ==> r.techStack == u.techStack.value
    ensures u.techStack.None? ==> r.techStack == p.techStack
    ensures u.files.Some? ==> r.files == u.files.value
    ensures u.files.None? ==> r.files == p.files
    ensures u.deploymentUrl.Some? ==> r.deploymentUrl == u.deploymentUrl.value
    ensures u.deploymentUrl.None? ==> r.deploymentUrl == p.deploymentUrl
    ensures u.githubUrl.Some? ==> r.githubUrl == u.githubUrl.value
    ensures u.githubUrl.None? ==> r.githubUrl == p.githubUrl
    ensures u.status.Some? ==> r.status == u.status.value
    ensures u.status.None? ==> r.status == p.status
    ensures u.createdAt.Some? ==> r.createdAt == u.createdAt.value
    ensures u.createdAt.None? ==> r.createdAt == p.createdAt
    ensures r.updatedAt == now
  {
    Project(
      Pick(u.id, p.id),
      Pick(u.userId, p.userId),
      Pick(u.name, p.name),
      Pick(u.description, p.description),
      Pick(u.techStack, p.techStack),
      Pick(u.files, p.files),
      Pick(u.deploymentUrl, p.deploymentUrl),
      Pick(u.githubUrl, p.githubUrl),
      Pick(u.status, p.status),
      Pick(u.createdAt, p.createdAt),
      now)
  }

  /** `{ ...u, ...v }`: the keys of `v` win over those of `u`. */
  function Overlay(u: ProjectPatch, v: ProjectPatch): ProjectPatch
  {
    ProjectPatch(
      if v.id.Some? then v.id else u.id,
      if v.userId.Some? then v.userId else u.userId,
      if v.name.Some? then v.name else u.name,
      if v.description.Some? then v.description else u.description,
      if v.techStack.Some? then v.techStack else u.techStack,
      if v.files.Some? then v.files else u.files,
      if v.deploymentUrl.Some? then v.deploymentUrl else u.deploymentUrl,
      if v.githubUrl.Some? then v.githubUrl else u.githubUrl,
      if v.status.Some? then v.status else u.status,
      if v.createdAt.Some? then v.createdAt else u.createdAt,
      if v.updatedAt.Some? then v.updatedAt else u.updatedAt)
  }

  /** An empty patch only refreshes `updatedAt`. */
  lemma MergeEmpty(p: Project, now: int)
    ensures Merge(p, EmptyPatch, now) == p.(updatedAt := now)
  {
  }

  /** Two updates in a row have the effect of one update with the later keys winning, stamped with the later time. */
  lemma MergeOverlay(p: Project, u: ProjectPatch, v: ProjectPatch, t1: int, t2: int)
    ensures Merge(Merge(p, u, t1), v, t2) == Merge(p, Overlay(u, v), t2)
  {
  }

  /** Repeating an update changes only the timestamp. */
  lemma MergeTwice(p: Project, u: ProjectPatch, t1: int, t2: int)
    ensures Merge(Merge(p, u, t1), u, t2) == Merge(p, u, t2)
  {
    MergeOverlay(p, u, u, t1, t2);
    assert Overlay(u, u) == u;
  }

  /** The list after `updateProject(id, u)`: every project with the id is merged, every other one is left alone. */
  function UpdateMatching(ps: seq<Project>, id: string, u: ProjectPatch, now: int): (r: seq<Project>)
    ensures |r| == |ps|
    ensures forall i :: 0 <= i < |ps| && ps[i].id != id ==> r[i] == ps[i]
    ensures forall i :: 0 <= i < |ps| && ps[i].id == id ==> r[i] == Merge(ps[i], u, now)
  {
    seq(|ps|, i requires 0 <= i < |ps| => if ps[i].id == id then Merge(ps[i], u, now) else ps[i])
  }

  /** Updating an id no project has leaves the list as it was. */
  lemma UpdateAbsentId(ps: seq<Project>, id: string, u: ProjectPatch, now: int)
    requires forall i :: 0 <= i < |ps| ==> ps[i].id != id
    ensures UpdateMatching(ps, id, u, now) == ps
  {
  }

  /** A patch without an `id` key keeps every project's id, so the update changes no project's identity. */
  lemma UpdateKeepsIds(ps: seq<Project>, id: string, u: ProjectPatch, now: int)
    requires u.id.None?
    ensures forall i :: 0 <= i < |ps| ==> UpdateMatching(ps, id, u, now)[i].id == ps[i].id
  {
  }

  /** `activeProject` after `updateProject(id, u)`: merged only when it is the project with that id. */
  function ActiveAfterUpdate(active: Option<Project>, id: string, u: ProjectPatch, now: int): (r: Option<Project>)
    ensures active.None? ==> r.None?
    ensures active.Some? && active.value.id == id ==> r == Some(Merge(active.value, u, now))
    ensures active.Some? && active.value.id != id ==> r == active
  {
    if active.Some? && active.value.id == id then Some(Merge(active.value, u, now)) else active
  }

  /**
   * Deploying a listed project that is also the active one marks both the
   * list entry and the active project deployed and stamps both with a time
   * later than before; the other fields are kept.
   */
  lemma DeployUpdatesBoth(ps: seq<Project>, active: Option<Project>, i: int, now: int)
    requires 0 <= i < |ps| && active == Some(ps[i]) && now > ps[i].updatedAt
    ensures var u := EmptyPatch.(status := Some(Deployed));
      && UpdateMatching(ps, ps[i].id, u, now)[i] == ps[i].(status := Deployed, updatedAt := now)
      && ActiveAfterUpdate(active, ps[i].id, u, now) == Some(ps[i].(status := Deployed, updatedAt := now))
      && UpdateMatching(ps, ps[i].id, u, now)[i].updatedAt > ps[i].updatedAt
  {
  }

  /** The active project, when it is one of the listed projects, stays in step with its entry in the list. */
  lemma ActiveStaysInSync(ps: seq<Project>, active: Option<Project>, id: string, u: ProjectPatch, now: int, i: int)
    requires 0 <= i < |ps| && active == Some(ps[i])
    ensures ActiveAfterUpdate(active, id, u, now) == Some(UpdateMatching(ps, id, u, now)[i])
  {
  }

  /** The test `deleteProject(id)` keeps a project by. */
  function OtherId(id: string): Project -> bool
  {
    (p: Project) => p.id != id
  }

  /** The list after `deleteProject(id)`: the projects with another id, in their order. */
  function RemoveById(ps: seq<Project>, id: string): (r: seq<Project>)
    ensures IsSubsequence(r, ps)
    ensures forall i :: 0 <= i < |r| ==> r[i].id != id
    ensures forall p :: p in r <==> p in ps && p.id != id
    ensures forall p :: multiset(r)[p] == if p.id != id then multiset(ps)[p] else 0
  {
    FilterIsSubsequence(ps, OtherId(id));
    FilterCount(ps, OtherId(id));
    Filter(ps, OtherId(id))
  }

  /** Deleting an id no project has leaves the list as it was. */
  lemma RemoveAbsentId(ps: seq<Project>, id: string)
    requires forall i :: 0 <= i < |ps| ==> ps[i].id != id
    ensures RemoveById(ps, id) == ps
  {
    FilterAll(ps, OtherId(id));
  }

  /** `activeProject` after `deleteProject(id)`: cleared when it is the project with that id. */
  function ActiveAfterDelete(active: Option<Project>, id: string): (r: Option<Project>)
    ensures r.None? <==> active.None? || active.value.id == id
    ensures r.Some? ==> r == active
  {
    if active.Some? && active.value.id == id then None else active
  }

  /** The search condition: an empty query matches everything, otherwise the lowercased query must occur in the lowercased name or description. */
  predicate MatchesSearch(p: Project, query: string)
  {
    query == "" || Includes(Lower(p.name), Lower(query)) || Includes(Lower(p.description), Lower(query))
  }

  /** The status condition: a missing or empty filter matches everything, otherwise the status name must equal it. */
  predicate MatchesFilter(p: Project, status: Option<string>)
  {
    status.None? || status.value == "" || StatusName(p.status) == status.value
  }

  /** The test `getFilteredProjects` keeps a project by. */
  function Shown(query: string, status: Option<string>): Project -> bool
  {
    (p: Project) => MatchesSearch(p, query) && MatchesFilter(p, status)
  }

  /** `getFilteredProjects()`: the projects satisfying both conditions, in registry order. */
  function FilteredProjects(ps: seq<Project>, query: string, status: Option<string>): (r: seq<Project>)
    ensures IsSubsequence(r, ps)
    ensures forall i :: 0 <= i < |r| ==> MatchesSearch(r[i], query) && MatchesFilter(r[i], status)
    ensures forall p :: p in r <==> p in ps && MatchesSearch(p, query) && MatchesFilter(p, status)
    ensures forall p :: multiset(r)[p] == if MatchesSearch(p, query) && MatchesFilter(p, status) then multiset(ps)[p] else 0
  {
    FilterIsSubsequence(ps, Shown(query, status));
    FilterCount(ps, Shown(query, status));
    Filter(ps, Shown(query, status))
  }

  /** With no search text and no status filter the whole registry is shown, in order. */
  lemma NoFilterShowsAll(ps: seq<Project>)
    ensures FilteredProjects(ps, "", None) == ps
  {
    FilterAll(ps, Shown("", None));
  }

  /** The search ignores the letter case of the query. */
  lemma SearchIgnoresCase(p: Project, query: string)
    ensures query != "" ==> (MatchesSearch(p, query) <==> MatchesSearch(p, Lower(query)))
  {
    LowerIdempotent(query);
  }

  /** A non-empty query matches exactly when it occurs, lowercased, at some position of the lowercased name or description. */
  lemma SearchIsSubstring(p: Project, query: string)
    requires query != ""
    ensures MatchesSearch(p, query) <==>
      (exists i :: OccursAt(Lower(p.name), Lower(query), i)) || (exists i :: OccursAt(Lower(p.description), Lower(query), i))
  {
    IncludesIsWindow(Lower(p.name), Lower(query));
    IncludesIsWindow(Lower(p.description), Lower(query));
  }

  /** A filter value that names no status shows nothing. */
  lemma UnknownStatusShowsNothing(ps: seq<Project>, query: string, status: string)
    requires status !in {"", "draft", "building", "deployed", "error"}
    ensures FilteredProjects(ps, query, Some(status)) == []
  {
    var r := FilteredProjects(ps, query, Some(status));
    forall p: Project
      ensures !MatchesFilter(p, Some(status))
    {
      assert StatusName(p.status) != status;
    }
  }

  /** The data fields of the store. */
  datatype ProjectState = ProjectState(
    projects: seq<Project>,
    activeProject: Option<Project>,
    isLoading: bool,
    error: Option<string>,
    searchQuery: string,
    filterStatus: Option<string>)

  /** The state the store is created with. */
  const Initial: ProjectState := ProjectState([], None, false, None, "", None)

  /** The project registry: one field per state key. */
  class Store {
    var projects: seq<Project>
    var activeProject: Option<Project>
    var isLoading: bool
    var error: Option<string>
    var searchQuery: string
    var filterStatus: Option<string>

    function State(): ProjectState
      reads this
    {
      ProjectState(projects, activeProject, isLoading, error, searchQuery, filterStatus)
    }

    constructor()
      ensures State() == Initial
    {
      projects := [];
      activeProject := None;
      isLoading := false;
      error := None;
      searchQuery := "";
      filterStatus := None;
    }

    method SetProjects(list: seq<Project>)
      modifies this
      ensures State() == old(State()).(projects := list, error := None)
    {
      projects := list;
      error := None;
    }

    /** The new project goes first. */
    method AddProject(project: Project)
      modifies this
      ensures State() == old(State()).(projects := [project] + old(projects))
    {
      projects := [project] + projects;
    }

    /** `now` stands for `new Date()`. */
    method UpdateProject(id: string, updates: ProjectPatch, now: int)
      modifies this
      ensures State() == old(State()).(
        projects := UpdateMatching(old(projects), id, updates, now),
        activeProject := ActiveAfterUpdate(old(activeProject), id, updates, now))
    {
      projects := UpdateMatching(projects, id, updates, now);
      if activeProject.Some? && activeProject.value.id == id {
        activeProject := Some(Merge(activeProject.value, updates, now));
      }
    }

    method DeleteProject(id: string)
      modifies this
      ensures State() == old(State()).(
        projects := RemoveById(old(projects), id),
        activeProject := ActiveAfterDelete(old(activeProject), id))
    {
      projects := RemoveById(projects, id);
      if activeProject.Some? && activeProject.value.id == id {
        activeProject := None;
      }
    }

    method SetActiveProject(project: Option<Project>)
      modifies this
      ensures State() == old(State()).(activeProject := project)
    {
      activeProject := project;
    }

    method SetSearchQuery(query: string)
      modifies this
      ensures State() == old(State()).(searchQuery := query)
    {
      searchQuery := query;
    }

    method SetFilterStatus(status: Option<string>)
      modifies this
      ensures State() == old(State()).(filterStatus := status)
    {
      filterStatus := status;
    }

    /** The projects the dashboard shows for the current search text and status filter. */
    function GetFilteredProjects(): (r: seq<Project>)
      reads this
      ensures IsSubsequence(r, projects)
      ensures forall p :: p in r <==> p in projects && MatchesSearch(p, searchQuery) && MatchesFilter(p, filterStatus)
      ensures forall p :: multiset(r)[p] == if MatchesSearch(p, searchQuery) && MatchesFilter(p, filterStatus) then multiset(projects)[p] else 0
    {
      FilteredProjects(projects, searchQuery, filterStatus)
    }
  }
}

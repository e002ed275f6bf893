/** Creating a project, owned by its creator, and listing the projects a
    user owns. */
module Projects {
  import opened Common
  import opened Models
  import Sorting

  /** What the project handlers answer. */
  datatype ProjectOut = ProjectOut(id: int, name: string, ownerUserId: int, createdAt: int)

  function ToOut(p: Project): (r: ProjectOut)
    ensures r.id == p.id && r.name == p.name && r.ownerUserId == p.ownerUserId && r.createdAt == p.createdAt
  {
    ProjectOut(p.id, p.name, p.ownerUserId, p.createdAt)
  }

  /** Some project, whoever owns it, is named `name`. */
  predicate NameUsed(projects: map<int, Project>, name: string) {
    exists k :: k in projects && projects[k].name == name
  }

  /** Creates the project `name` owned by the caller.  The description and
      organisation of the request are not stored. */
  method CreateProject(db: Database, caller: User, name: string, now: int) returns (r: Result<ProjectOut>)
    requires caller.id in db.users
    requires ProjectsValid(db.projects, db.users)
    modifies db`projects
    ensures ProjectsValid(db.projects, db.users)
    ensures NameUsed(old(db.projects), name) <==> r == Err(400, "Project name already exists")
    ensures r.Ok? <==> !NameUsed(old(db.projects), name)
    ensures r.Err? ==> db.projects == old(db.projects)
    ensures r.Ok? ==>
      && r.value.id !in old(db.projects)
      && r.value.name == name && r.value.ownerUserId == caller.id && r.value.createdAt == now
      && db.projects == old(db.projects)[r.value.id := Project(r.value.id, name, None, None, caller.id, now)]
  {
    if NameUsed(db.projects, name) {
      return Err(400, "Project name already exists");
    }
    var p := Project(NewId(db.projects.Keys), name, None, None, caller.id, now);
    db.projects := db.projects[p.id := p];
    r := Ok(ToOut(p));
  }

  /** The projects the caller owns, by id; projects shared with the caller
      are not listed. */
  function ListProjects(projects: map<int, Project>, caller: User): (r: seq<ProjectOut>)
    requires ProjectsKeyed(projects)
    ensures forall i :: 0 <= i < |r| ==>
      r[i].id in projects && projects[r[i].id].ownerUserId == caller.id && r[i] == ToOut(projects[r[i].id])
    ensures forall i, j :: 0 <= i < j < |r| ==> r[i].id < r[j].id
  {
    OutsOf(projects, Sorting.Ascending(OwnedBy(projects, {caller.id})))
  }

  /** The projects with keys `ks`, in that order. */
  function OutsOf(projects: map<int, Project>, ks: seq<int>): (rows: seq<ProjectOut>)
    requires ProjectsKeyed(projects) && forall i :: 0 <= i < |ks| ==> ks[i] in projects
    ensures |rows| == |ks|
    ensures forall i :: 0 <= i < |ks| ==> rows[i] == ToOut(projects[ks[i]]) && rows[i].id == ks[i]
  {
    seq(|ks|, i requires 0 <= i < |ks| => ToOut(projects[ks[i]]))
  }

  /** Every project the caller owns is listed. */
  lemma ListProjectsComplete(projects: map<int, Project>, caller: User, k: int)
    requires ProjectsKeyed(projects) && k in projects && projects[k].ownerUserId == caller.id
    ensures ToOut(projects[k]) in ListProjects(projects, caller)
  {
    var ks := Sorting.Ascending(OwnedBy(projects, {caller.id}));
    var i :| 0 <= i < |ks| && ks[i] == k;
    assert ListProjects(projects, caller)[i] == ToOut(projects[k]);
  }

  /** A newly created project is listed for its creator. */
  lemma CreatedProjectIsListed(projects: map<int, Project>, caller: User, p: Project)
    requires ProjectsKeyed(projects) && p.id !in projects && p.ownerUserId == caller.id
    ensures ToOut(p) in ListProjects(projects[p.id := p], caller)
  {
    ListProjectsComplete(projects[p.id := p], caller, p.id);
  }
}

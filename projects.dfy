/**
 * The workspace-of-projects abstraction shared by the workspace operations and the classpath
 * container resolver: a project record, and the queries that look a project up in the
 * workspace's list of projects, open and closed alike.
 */
module Projects {
  import opened Wrappers
  import opened BuildCommands

  /** A path as its segments: a workspace path such as `/A`, or a file-system location. */
  type Path = seq<string>

  /**
   * A project registered in the workspace. `open` is also its accessibility: a project in the
   * workspace exists, so it is accessible exactly when it is open.
   */
  datatype Project = Project(
    name: string,
    location: Path,
    natures: set<string>,
    buildSpec: seq<BuildCommand>,
    open: bool)

  /** The workspace path of a project: the project named `n` is the resource `/n`. */
  function FullPath(name: string): Path {
    [name]
  }

  /** At most one project per name. */
  ghost predicate DistinctNames(ps: seq<Project>) {
    forall i, j | 0 <= i < j < |ps| :: ps[i].name != ps[j].name
  }

  /** Some project of `ps` has the name `name`. */
  ghost predicate HasProjectNamed(ps: seq<Project>, name: string) {
    exists i | 0 <= i < |ps| :: ps[i].name == name
  }

  /** The position of the first project named `name`, or absent. */
  function IndexOfName(ps: seq<Project>, name: string): (r: Option<nat>)
    ensures r.Some? ==> r.value < |ps| && ps[r.value].name == name
    ensures r.None? <==> !HasProjectNamed(ps, name)
  {
    if ps == [] then None
    else if ps[0].name == name then Some(0)
    else match IndexOfName(ps[1..], name)
      case Some(k) => assert ps[k + 1] == ps[1..][k]; Some(k + 1)
      case None =>
        assert forall i | 1 <= i < |ps| :: ps[i] == ps[1..][i - 1];
        None
  }

  /**
   * `findProject(condition)`: the first project, in workspace order, that satisfies the
   * condition, or absent when none does.
   */
  function FindProject(ps: seq<Project>, condition: Project -> bool): (r: Option<Project>)
    ensures r.None? <==> forall i | 0 <= i < |ps| :: !condition(ps[i])
    ensures r.Some? ==> exists i | 0 <= i < |ps| :: ps[i] == r.value && condition(ps[i])
                                               && forall j | 0 <= j < i :: !condition(ps[j])
  {
    if ps == [] then None
    else if condition(ps[0]) then Some(ps[0])
    else
      var r := FindProject(ps[1..], condition);
      assert forall i | 1 <= i < |ps| :: ps[i] == ps[1..][i - 1];
      if r.Some? then
        assert exists i | 1 <= i < |ps| :: ps[i] == r.value && condition(ps[i])
                                      && forall j | 0 <= j < i :: !condition(ps[j]) by {
          var k :| 0 <= k < |ps[1..]| && ps[1..][k] == r.value && condition(ps[1..][k])
                   && forall j | 0 <= j < k :: !condition(ps[1..][j]);
          assert ps[k + 1] == ps[1..][k];
          assert forall j | 1 <= j < k + 1 :: ps[j] == ps[1..][j - 1];
        }
        r
      else r
  }

  /** `findProjectByName(name)`: the project with that name, open or closed, or absent. */
  function FindProjectByName(ps: seq<Project>, name: string): (r: Option<Project>)
    ensures r.Some? <==> HasProjectNamed(ps, name)
    ensures r.Some? ==> r.value in ps && r.value.name == name
  {
    match IndexOfName(ps, name)
    case Some(i) => Some(ps[i])
    case None => None
  }

  /** With distinct names, every project of the workspace, open or closed, is found by its name. */
  lemma FindProjectByNameFindsEach(ps: seq<Project>, i: nat)
    requires DistinctNames(ps) && i < |ps|
    ensures FindProjectByName(ps, ps[i].name) == Some(ps[i])
  {
    var k := IndexOfName(ps, ps[i].name).value;
    assert ps[k].name == ps[i].name;
  }

  /** `findProjectByLocation(location)`: a project at that location, open or closed, or absent. */
  function FindProjectByLocation(ps: seq<Project>, location: Path): (r: Option<Project>)
    ensures r.None? <==> forall i | 0 <= i < |ps| :: ps[i].location != location
    ensures r.Some? ==> r.value in ps && r.value.location == location
  {
    FindProject(ps, (p: Project) => p.location == location)
  }

  /** Giving the project at `i` a record with the same name keeps names distinct. */
  lemma ReplaceKeepsDistinctNames(ps: seq<Project>, i: nat, p: Project)
    requires DistinctNames(ps) && i < |ps|
    requires p.name == ps[i].name || !HasProjectNamed(ps, p.name)
    ensures DistinctNames(ps[i := p])
  {
    var qs := ps[i := p];
    forall a, b | 0 <= a < b < |qs| ensures qs[a].name != qs[b].name {
      if a == i {
        assert qs[b] == ps[b];
      } else if b == i {
        assert qs[a] == ps[a];
      }
    }
  }

  /** Appending a project whose name is new keeps names distinct. */
  lemma AppendKeepsDistinctNames(ps: seq<Project>, p: Project)
    requires DistinctNames(ps) && !HasProjectNamed(ps, p.name)
    ensures DistinctNames(ps + [p])
  {
    var qs := ps + [p];
    forall a, b | 0 <= a < b < |qs| ensures qs[a].name != qs[b].name {
      assert qs[a] == ps[a];
    }
  }
}

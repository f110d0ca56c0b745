/**
 * The workspace operations: querying and changing the projects of a workspace and the markers
 * on its folders. A `Workspace` holds the projects in workspace order (at most one per name),
 * the folders marked as build folders and as sub-projects, and the file-system location of the
 * workspace root. Projects are addressed by name, as Eclipse project handles are.
 */
module WorkspaceOperations {
  import opened Wrappers
  import opened BuildCommands
  import opened Projects

  /** The failures the operations report (a `GradlePluginsRuntimeException` in the source). */
  datatype WorkspaceError =
    | LocationMissing(location: Path)
    | ProjectExists(name: string)
    | DefaultLocationRename(name: string)

  /** What `includeProject` adopts: a project description found on disk. */
  datatype ProjectDescription = ProjectDescription(
    name: string,
    location: Path,
    natures: set<string>,
    buildSpec: seq<BuildCommand>)

  /** A location directly inside the workspace root directory, the "default location". */
  predicate IsDefaultLocation(root: Path, location: Path) {
    |location| > 0 && location[..|location| - 1] == root
  }

  /** The nature ids of a list, as a set: order and repetitions do not matter. */
  function NatureSet(natureIds: seq<string>): (s: set<string>)
    ensures forall id :: id in s <==> id in natureIds
  {
    set id | id in natureIds
  }

  class Workspace {
    /** The file-system location of the workspace root directory. */
    const root: Path
    var projects: seq<Project>
    var buildFolders: set<Path>
    var subProjects: set<Path>

    ghost predicate Valid()
      reads this
    {
      DistinctNames(projects)
    }

    constructor (root: Path)
      ensures Valid() && this.root == root
      ensures projects == [] && buildFolders == {} && subProjects == {}
    {
      this.root := root;
      projects := [];
      buildFolders := {};
      subProjects := {};
    }

    /**
     * `getAllProjects`: every project of the workspace, open or closed, once each; every project
     * listed is the one the workspace finds by its name.
     */
    function GetAllProjects(): (r: seq<Project>)
      reads this
      requires Valid()
      ensures |r| == |projects| && forall p :: p in r <==> p in projects
      ensures forall i | 0 <= i < |r| :: FindProjectByName(r[i].name) == Some(r[i])
    {
      forall i | 0 <= i < |projects| ensures Projects.FindProjectByName(projects, projects[i].name) == Some(projects[i]) {
        FindProjectByNameFindsEach(projects, i);
      }
      projects
    }

    function FindProjectByName(name: string): Option<Project>
      reads this
    {
      Projects.FindProjectByName(projects, name)
    }

    function FindProjectByLocation(location: Path): Option<Project>
      reads this
    {
      Projects.FindProjectByLocation(projects, location)
    }

    function FindProject(condition: Project -> bool): Option<Project>
      reads this
    {
      Projects.FindProject(projects, condition)
    }

    /** The record of the existing project named `name`. */
    function ProjectNamed(name: string): Project
      reads this
      requires HasProjectNamed(projects, name)
    {
      projects[IndexOfName(projects, name).value]
    }

    /**
     * `createProject(name, location, natureIds)`: the location must exist among the
     * `existingLocations` of the file system and no project may have that name; the new project
     * is open, has no build commands and has the given natures.
     */
    method CreateProject(name: string, location: Path, natureIds: seq<string>, existingLocations: set<Path>)
      returns (r: Result<Project, WorkspaceError>)
      requires Valid()
      modifies this`projects
      ensures Valid()
      ensures location !in existingLocations ==>
        r == Failure(LocationMissing(location)) && projects == old(projects)
      ensures location in existingLocations && HasProjectNamed(old(projects), name) ==>
        r == Failure(ProjectExists(name)) && projects == old(projects)
      ensures location in existingLocations && !HasProjectNamed(old(projects), name) ==>
        && r == Success(Project(name, location, NatureSet(natureIds), [], true))
        && projects == old(projects) + [r.value]
        && Projects.FindProjectByName(projects, name) == Some(r.value)
    {
      if location !in existingLocations {
        return Failure(LocationMissing(location));
      }
      if IndexOfName(projects, name).Some? {
        return Failure(ProjectExists(name));
      }
      var p := Project(name, location, NatureSet(natureIds), [], true);
      AppendKeepsDistinctNames(projects, p);
      projects := projects + [p];
      FindProjectByNameFindsEach(projects, |projects| - 1);
      r := Success(p);
    }

    /**
     * `includeProject(description, extraNatureIds)`: no project may have the description's name;
     * the included project is open and has the description's natures and every extra nature.
     */
    method IncludeProject(description: ProjectDescription, extraNatureIds: seq<string>)
      returns (r: Result<Project, WorkspaceError>)
      requires Valid()
      modifies this`projects
      ensures Valid()
      ensures HasProjectNamed(old(projects), description.name) ==>
        r == Failure(ProjectExists(description.name)) && projects == old(projects)
      ensures !HasProjectNamed(old(projects), description.name) ==>
        && r == Success(Project(description.name, description.location,
                                description.natures + NatureSet(extraNatureIds), description.buildSpec, true))
        && projects == old(projects) + [r.value]
      ensures r.Success? ==> r.value.open && forall id | id in extraNatureIds :: id in r.value.natures
    {
      if IndexOfName(projects, description.name).Some? {
        return Failure(ProjectExists(description.name));
      }
      var p := Project(description.name, description.location,
                       description.natures + NatureSet(extraNatureIds), description.buildSpec, true);
      AppendKeepsDistinctNames(projects, p);
      projects := projects + [p];
      r := Success(p);
    }

    /** `addNature`: a nature the project already has leaves it unchanged; otherwise it is added. */
    method AddNature(projectName: string, natureId: string)
      requires Valid() && HasProjectNamed(projects, projectName)
      modifies this`projects
      ensures Valid()
      ensures var i := IndexOfName(old(projects), projectName).value;
        projects == old(projects)[i := old(projects)[i].(natures := old(projects)[i].natures + {natureId})]
      ensures natureId in old(ProjectNamed(projectName)).natures ==> projects == old(projects)
    {
      var i := IndexOfName(projects, projectName).value;
      var p := projects[i];
      if natureId !in p.natures {
        ReplaceKeepsDistinctNames(projects, i, p.(natures := p.natures + {natureId}));
        projects := projects[i := p.(natures := p.natures + {natureId})];
      } else {
        assert p.natures + {natureId} == p.natures;
        assert projects[i := p] == projects;
      }
    }

    /** `removeNature`: the project loses that nature and keeps all its others. */
    method RemoveNature(projectName: string, natureId: string)
      requires Valid() && HasProjectNamed(projects, projectName)
      modifies this`projects
      ensures Valid()
      ensures var i := IndexOfName(old(projects), projectName).value;
        projects == old(projects)[i := old(projects)[i].(natures := old(projects)[i].natures - {natureId})]
      ensures natureId !in old(ProjectNamed(projectName)).natures ==> projects == old(projects)
    {
      var i := IndexOfName(projects, projectName).value;
      var p := projects[i];
      if natureId in p.natures {
        ReplaceKeepsDistinctNames(projects, i, p.(natures := p.natures - {natureId}));
        projects := projects[i := p.(natures := p.natures - {natureId})];
      } else {
        assert p.natures - {natureId} == p.natures;
        assert projects[i := p] == projects;
      }
    }

    /**
     * `addBuildCommand`: a command with the same name and arguments leaves the project unchanged;
     * one with the same name and other arguments gets the new arguments; otherwise it is added.
     */
    method AddBuildCommand(projectName: string, name: string, arguments: map<string, string>)
      requires Valid() && HasProjectNamed(projects, projectName)
      modifies this`projects
      ensures Valid()
      ensures var i := IndexOfName(old(projects), projectName).value;
        projects == old(projects)[i := old(projects)[i].(buildSpec := WithBuildCommand(old(projects)[i].buildSpec, name, arguments))]
      ensures Arguments(old(ProjectNamed(projectName)).buildSpec, name) == Some(arguments) ==> projects == old(projects)
      ensures var i := IndexOfName(old(projects), projectName).value;
        UniqueNames(old(projects)[i].buildSpec) ==> UniqueNames(projects[i].buildSpec)
    {
      var i := IndexOfName(projects, projectName).value;
      var p := projects[i];
      if UniqueNames(p.buildSpec) {
        AddBuildCommandKeepsUniqueNames(p.buildSpec, name, arguments);
      }
      if Arguments(p.buildSpec, name) == Some(arguments) {
        AddSameBuildCommandIsNoOp(p.buildSpec, name, arguments);
        assert projects[i := p] == projects;
      } else {
        var q := p.(buildSpec := WithBuildCommand(p.buildSpec, name, arguments));
        ReplaceKeepsDistinctNames(projects, i, q);
        projects := projects[i := q];
      }
    }

    /** `removeBuildCommand`: an absent name leaves the project unchanged; otherwise only that command goes. */
    method RemoveBuildCommand(projectName: string, name: string)
      requires Valid() && HasProjectNamed(projects, projectName)
      modifies this`projects
      ensures Valid()
      ensures var i := IndexOfName(old(projects), projectName).value;
        projects == old(projects)[i := old(projects)[i].(buildSpec := WithoutBuildCommand(old(projects)[i].buildSpec, name))]
      ensures Arguments(old(ProjectNamed(projectName)).buildSpec, name) == None ==> projects == old(projects)
      ensures var i := IndexOfName(old(projects), projectName).value;
        UniqueNames(old(projects)[i].buildSpec) ==> UniqueNames(projects[i].buildSpec)
    {
      var i := IndexOfName(projects, projectName).value;
      var p := projects[i];
      if UniqueNames(p.buildSpec) {
        RemoveBuildCommandKeepsUniqueNames(p.buildSpec, name);
      }
      if Arguments(p.buildSpec, name) == None {
        RemoveAbsentBuildCommandIsNoOp(p.buildSpec, name);
        assert projects[i := p] == projects;
      } else {
        var q := p.(buildSpec := WithoutBuildCommand(p.buildSpec, name));
        ReplaceKeepsDistinctNames(projects, i, q);
        projects := projects[i := q];
      }
    }

    /** `markAsBuildFolder`: the folder is a build folder afterwards; sub-project markers are untouched. */
    method MarkAsBuildFolder(folder: Path)
      requires Valid()
      modifies this`buildFolders
      ensures Valid() && projects == old(projects)
      ensures buildFolders == old(buildFolders) + {folder}
      ensures IsBuildFolder(folder)
      ensures forall f :: IsSubProject(f) == old(IsSubProject(f))
    {
      buildFolders := buildFolders + {folder};
    }

    function IsBuildFolder(folder: Path): bool
      reads this
    {
      folder in buildFolders
    }

    /** `markAsSubProject`: the folder is a sub-project afterwards; build-folder markers are untouched. */
    method MarkAsSubProject(folder: Path)
      requires Valid()
      modifies this`subProjects
      ensures Valid() && projects == old(projects)
      ensures subProjects == old(subProjects) + {folder}
      ensures IsSubProject(folder)
      ensures forall f :: IsBuildFolder(f) == old(IsBuildFolder(f))
    {
      subProjects := subProjects + {folder};
    }

    function IsSubProject(folder: Path): bool
      reads this
    {
      folder in subProjects
    }

    /**
     * `normalizeProjectName`: a project directly inside the workspace root must be named after
     * its directory; anywhere else it keeps the desired name.
     */
    function NormalizeProjectName(desiredName: string, location: Path): (r: string)
      ensures IsDefaultLocation(root, location) ==> r == location[|location| - 1]
      ensures !IsDefaultLocation(root, location) ==> r == desiredName
    {
      if IsDefaultLocation(root, location) then location[|location| - 1] else desiredName
    }

    /**
     * `renameProject`: no effect when the name is already `newName`; fails for a project in the
     * default location and when a project named `newName` exists; otherwise the project's record
     * is kept under the new name, in the same place of the workspace.
     */
    method RenameProject(projectName: string, newName: string) returns (r: Result<Project, WorkspaceError>)
      requires Valid() && HasProjectNamed(projects, projectName)
      modifies this`projects
      ensures Valid()
      ensures var i := IndexOfName(old(projects), projectName).value;
              var p := old(projects)[i];
        if newName == projectName then
          r == Success(p) && projects == old(projects)
        else if IsDefaultLocation(root, p.location) then
          r == Failure(DefaultLocationRename(projectName)) && projects == old(projects)
        else if HasProjectNamed(old(projects), newName) then
          r == Failure(ProjectExists(newName)) && projects == old(projects)
        else
          r == Success(p.(name := newName)) && projects == old(projects)[i := r.value]
      ensures r.Success? && newName != projectName ==>
        && Projects.FindProjectByName(projects, newName) == Some(r.value)
        && Projects.FindProjectByName(projects, projectName) == None
    {
      var i := IndexOfName(projects, projectName).value;
      var p := projects[i];
      if newName == projectName {
        return Success(p);
      }
      if IsDefaultLocation(root, p.location) {
        return Failure(DefaultLocationRename(projectName));
      }
      if IndexOfName(projects, newName).Some? {
        return Failure(ProjectExists(newName));
      }
      var q := p.(name := newName);
      ReplaceKeepsDistinctNames(projects, i, q);
      ghost var before := projects;
      projects := projects[i := q];
      FindProjectByNameFindsEach(projects, i);
      assert !HasProjectNamed(projects, projectName) by {
        forall j | 0 <= j < |projects| ensures projects[j].name != projectName {
          if j != i {
            assert projects[j] == before[j];
          }
        }
      }
      r := Success(q);
    }
  }

  /** Creating a project twice under one name: the second attempt fails and changes nothing. */
  method CreateProjectTwice()
  {
    var ws := new Workspace(["ws"]);
    var r1 := ws.CreateProject("foo", ["ws", "foo"], ["nature.x"], {["ws", "foo"]});
    assert r1.Success? && r1.value.natures == {"nature.x"};
    var r2 := ws.CreateProject("foo", ["ws", "foo"], ["nature.x"], {["ws", "foo"]});
    assert ws.projects[0].name == "foo";
    assert r2 == Failure(ProjectExists("foo"));
    assert |ws.projects| == 1;
  }

  /** The two folder roles are independent marker bits. */
  method MarkBuildFolderOnly()
  {
    var ws := new Workspace(["ws"]);
    ws.MarkAsBuildFolder(["foo", "build"]);
    assert ws.IsBuildFolder(["foo", "build"]);
    assert !ws.IsSubProject(["foo", "build"]);
  }
}

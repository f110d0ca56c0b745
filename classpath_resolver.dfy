/**
 * The runtime classpath entry resolver for the Gradle classpath container. When a launch asks
 * for the runtime classpath, the container entry is expanded into concrete runtime entries: each
 * library of the container becomes an archive entry, each project reference becomes a project
 * entry when an accessible Java project sits at the referenced path, and everything else is
 * dropped. The container's contents come from a provider (the Java model), and the workspace's
 * projects from the shared `Workspace`.
 */
module ClasspathResolver {
  import opened Wrappers
  import opened Projects
  import opened WorkspaceOperations

  /** The id of the Java nature. */
  const JavaNatureId := "org.eclipse.jdt.core.javanature"

  /** The path that identifies the Gradle classpath container. */
  const ContainerPath: Path := ["org.eclipse.buildship.core.gradleclasspathcontainer"]

  /** The kinds of a classpath entry inside a container. */
  datatype EntryKind = LibraryKind | ProjectKind | SourceKind | VariableKind | ContainerKind

  datatype ClasspathEntry = ClasspathEntry(kind: EntryKind, path: Path)

  /** The types of a runtime classpath entry. */
  datatype RuntimeEntryType = ProjectType | ArchiveType | VariableType | ContainerType | OtherType

  /** A runtime classpath entry: its type, its path and the name of its Java project, if any. */
  datatype RuntimeClasspathEntry = RuntimeClasspathEntry(entryType: RuntimeEntryType, path: Path, javaProject: Option<string>)

  datatype CoreException = CoreException(message: string)

  /** A VM install; the resolver never produces one. */
  datatype VMInstall = VMInstall(id: string)

  /** The contents the Java model reports for the Gradle container of a Java project, or its failure. */
  type ContainerProvider = Option<string> -> Result<seq<ClasspathEntry>, CoreException>

  /** An archive runtime entry for a library path. */
  function ArchiveRuntimeEntry(path: Path): RuntimeClasspathEntry {
    RuntimeClasspathEntry(ArchiveType, path, None)
  }

  /** A project runtime entry bound to the Java project of `p`. */
  function ProjectRuntimeEntry(p: Project): RuntimeClasspathEntry {
    RuntimeClasspathEntry(ProjectType, FullPath(p.name), Some(p.name))
  }

  /** `hasNature`: querying a closed project's natures raises an exception. */
  function HasNature(p: Project, natureId: string): Result<bool, CoreException> {
    if p.open then Success(natureId in p.natures)
    else Failure(CoreException("Resource is not open."))
  }

  /**
   * `accessibleJavaProject(projectPath)`: accessible, at exactly that path, with the Java
   * nature; a failing nature query makes the condition false instead of propagating.
   */
  function AccessibleJavaProject(projectPath: Path): (condition: Project -> bool)
    ensures forall p :: condition(p) <==> p.open && FullPath(p.name) == projectPath && JavaNatureId in p.natures
  {
    (p: Project) =>
      if !p.open || FullPath(p.name) != projectPath then false
      else match HasNature(p, JavaNatureId)
        case Success(b) => b
        case Failure(_) => false
  }

  /** The runtime entries one container entry contributes. */
  function ResolveEntry(cpe: ClasspathEntry, projects: seq<Project>): (r: seq<RuntimeClasspathEntry>)
    ensures |r| <= 1
  {
    match cpe.kind
    case LibraryKind => [ArchiveRuntimeEntry(cpe.path)]
    case ProjectKind =>
      (match FindProject(projects, AccessibleJavaProject(cpe.path))
        case Some(p) => [ProjectRuntimeEntry(p)]
        case None => [])
    case _ => []
  }

  /** The runtime entries of a whole container, in the container's order. */
  function Expand(cpes: seq<ClasspathEntry>, projects: seq<Project>): seq<RuntimeClasspathEntry> {
    if cpes == [] then []
    else Expand(cpes[..|cpes| - 1], projects) + ResolveEntry(cpes[|cpes| - 1], projects)
  }

  /** What resolving a runtime entry against the Gradle container yields. */
  function ResolveContainer(entry: RuntimeClasspathEntry, projects: seq<Project>, containers: ContainerProvider)
    : Result<seq<RuntimeClasspathEntry>, CoreException>
  {
    if entry.entryType != ContainerType || entry.path != ContainerPath then Success([])
    else match containers(entry.javaProject)
      case Failure(e) => Failure(e)
      case Success(cpes) => Success(Expand(cpes, projects))
  }

  /**
   * `resolveRuntimeClasspathEntry(entry, project)`: anything other than the Gradle container
   * yields nothing; otherwise the container of the entry's own Java project (not `project`,
   * which the source ignores) is walked in order.
   */
  method ResolveRuntimeClasspathEntryForProject(
    entry: RuntimeClasspathEntry, project: string, workspace: Workspace, containers: ContainerProvider)
    returns (r: Result<seq<RuntimeClasspathEntry>, CoreException>)
    ensures r == ResolveContainer(entry, workspace.projects, containers)
    ensures entry.entryType != ContainerType || entry.path != ContainerPath ==> r == Success([])
  {
    if entry.entryType != ContainerType || entry.path != ContainerPath {
      return Success([]);
    }
    var javaProject := entry.javaProject;
    var container := containers(javaProject);
    if container.Failure? {
      return Failure(container.error);
    }
    var cpes := container.value;
    var result: seq<RuntimeClasspathEntry> := [];
    for i := 0 to |cpes|
      invariant result == Expand(cpes[..i], workspace.projects)
    {
      var cpe := cpes[i];
      assert cpes[..i + 1][..i] == cpes[..i];
      if cpe.kind == LibraryKind {
        result := result + [ArchiveRuntimeEntry(cpe.path)];
      } else if cpe.kind == ProjectKind {
        var candidate := workspace.FindProject(AccessibleJavaProject(cpe.path));
        if candidate.Some? {
          result := result + [ProjectRuntimeEntry(candidate.value)];
        }
      }
    }
    assert cpes[..|cpes|] == cpes;
    return Success(result);
  }

  /**
   * `resolveRuntimeClasspathEntry(entry, configuration)`: an absent entry, or one without a Java
   * project, yields nothing; otherwise the entry is resolved against its own Java project.
   */
  method ResolveRuntimeClasspathEntry(
    entry: Option<RuntimeClasspathEntry>, workspace: Workspace, containers: ContainerProvider)
    returns (r: Result<seq<RuntimeClasspathEntry>, CoreException>)
    ensures entry.None? || entry.value.javaProject.None? ==> r == Success([])
    ensures entry.Some? && entry.value.javaProject.Some? ==>
      r == ResolveContainer(entry.value, workspace.projects, containers)
  {
    if entry.None? || entry.value.javaProject.None? {
      return Success([]);
    }
    r := ResolveRuntimeClasspathEntryForProject(entry.value, entry.value.javaProject.value, workspace, containers);
  }

  /** `resolveVMInstall`: never a VM install. */
  function ResolveVMInstall(entry: ClasspathEntry): (r: Option<VMInstall>)
    ensures r == None
  {
    None
  }

  /** Container order is kept: the entries of a prefix come before those of the rest. */
  lemma {:induction false} ExpandAppend(a: seq<ClasspathEntry>, b: seq<ClasspathEntry>, projects: seq<Project>)
    ensures Expand(a + b, projects) == Expand(a, projects) + Expand(b, projects)
  {
    if b != [] {
      var b' := b[..|b| - 1];
      assert (a + b)[..|a + b| - 1] == a + b';
      assert (a + b)[|a + b| - 1] == b[|b| - 1];
      ExpandAppend(a, b', projects);
    } else {
      assert a + b == a;
    }
  }

  /** The result is never longer than the container. */
  lemma {:induction false} ExpandLength(cpes: seq<ClasspathEntry>, projects: seq<Project>)
    ensures |Expand(cpes, projects)| <= |cpes|
  {
    if cpes != [] {
      ExpandLength(cpes[..|cpes| - 1], projects);
    }
  }

  /** An entry contributes nothing exactly when it is neither a library nor a resolvable project reference. */
  lemma ResolveEntryEmpty(cpe: ClasspathEntry, projects: seq<Project>)
    ensures ResolveEntry(cpe, projects) == [] <==>
      && cpe.kind != LibraryKind
      && (cpe.kind == ProjectKind ==>
            forall i | 0 <= i < |projects| ::
              !(projects[i].open && FullPath(projects[i].name) == cpe.path && JavaNatureId in projects[i].natures))
  {
  }

  /** An entry that contributes nothing, a dangling project reference included, leaves the rest intact. */
  lemma OmittedEntryLeavesRestIntact(a: seq<ClasspathEntry>, cpe: ClasspathEntry, b: seq<ClasspathEntry>, projects: seq<Project>)
    requires ResolveEntry(cpe, projects) == []
    ensures Expand(a + [cpe] + b, projects) == Expand(a, projects) + Expand(b, projects)
  {
    ExpandAppend(a + [cpe], b, projects);
    assert (a + [cpe])[..|a + [cpe]| - 1] == a;
  }

  /**
   * A project reference resolves to the project entry of the one accessible Java project at
   * the referenced path, when the workspace has one.
   */
  lemma ProjectReferenceResolves(cpe: ClasspathEntry, projects: seq<Project>, i: nat)
    requires DistinctNames(projects) && i < |projects|
    requires cpe.kind == ProjectKind
    requires projects[i].open && FullPath(projects[i].name) == cpe.path && JavaNatureId in projects[i].natures
    ensures ResolveEntry(cpe, projects) == [ProjectRuntimeEntry(projects[i])]
  {
    var found := FindProject(projects, AccessibleJavaProject(cpe.path));
    var k :| 0 <= k < |projects| && projects[k] == found.value && AccessibleJavaProject(cpe.path)(projects[k])
             && forall j | 0 <= j < k :: !AccessibleJavaProject(cpe.path)(projects[j]);
    assert FullPath(projects[k].name)[0] == FullPath(projects[i].name)[0];
  }

  /** The project entries of the result are bound to accessible Java projects at the referenced path. */
  lemma ResolvedProjectIsAccessibleJava(cpe: ClasspathEntry, projects: seq<Project>)
    requires cpe.kind == ProjectKind && ResolveEntry(cpe, projects) != []
    ensures exists p | p in projects ::
      && ResolveEntry(cpe, projects) == [ProjectRuntimeEntry(p)]
      && p.open && FullPath(p.name) == cpe.path && JavaNatureId in p.natures
  {
    var p := FindProject(projects, AccessibleJavaProject(cpe.path)).value;
    assert ResolveEntry(cpe, projects) == [ProjectRuntimeEntry(p)];
  }

  /** The library paths of a container, in order. */
  function LibraryPaths(cpes: seq<ClasspathEntry>): seq<Path> {
    if cpes == [] then []
    else LibraryPaths(cpes[..|cpes| - 1])
         + (if cpes[|cpes| - 1].kind == LibraryKind then [cpes[|cpes| - 1].path] else [])
  }

  /** The paths of the archive entries among runtime entries, in order. */
  function ArchivePaths(rs: seq<RuntimeClasspathEntry>): seq<Path> {
    if rs == [] then []
    else ArchivePaths(rs[..|rs| - 1])
         + (if rs[|rs| - 1].entryType == ArchiveType then [rs[|rs| - 1].path] else [])
  }

  lemma {:induction false} ArchivePathsAppend(a: seq<RuntimeClasspathEntry>, b: seq<RuntimeClasspathEntry>)
    ensures ArchivePaths(a + b) == ArchivePaths(a) + ArchivePaths(b)
  {
    if b != [] {
      var b' := b[..|b| - 1];
      assert (a + b)[..|a + b| - 1] == a + b';
      assert (a + b)[|a + b| - 1] == b[|b| - 1];
      ArchivePathsAppend(a, b');
    } else {
      assert a + b == a;
    }
  }

  /**
   * Every library of the container yields exactly one archive entry with the same path, in the
   * container's order, and nothing else yields an archive entry.
   */
  lemma {:induction false} ExpandLibraries(cpes: seq<ClasspathEntry>, projects: seq<Project>)
    ensures ArchivePaths(Expand(cpes, projects)) == LibraryPaths(cpes)
  {
    if cpes != [] {
      var init := cpes[..|cpes| - 1];
      var last := cpes[|cpes| - 1];
      ExpandLibraries(init, projects);
      ArchivePathsAppend(Expand(init, projects), ResolveEntry(last, projects));
      var rs := ResolveEntry(last, projects);
      if rs != [] {
        assert rs[..|rs| - 1] == [];
      }
    }
  }

  /** A container of libraries only resolves to the archive entries of those libraries. */
  lemma {:induction false} LibrariesOnly(cpes: seq<ClasspathEntry>, projects: seq<Project>)
    requires forall i | 0 <= i < |cpes| :: cpes[i].kind == LibraryKind
    ensures |Expand(cpes, projects)| == |cpes|
    ensures forall i | 0 <= i < |cpes| :: Expand(cpes, projects)[i] == ArchiveRuntimeEntry(cpes[i].path)
  {
    if cpes != [] {
      LibrariesOnly(cpes[..|cpes| - 1], projects);
    }
  }

  /**
   * Project `A` is open, Java and at `/A`; `B` is closed. The container
   * `[library /libs/x.jar, project /B, project /NotExist]` resolves to the archive entry alone.
   */
  lemma DanglingReferencesDropped()
    ensures
      var a := Project("A", ["ws", "A"], {JavaNatureId}, [], true);
      var b := Project("B", ["ws", "B"], {JavaNatureId}, [], false);
      var cpes := [ClasspathEntry(LibraryKind, ["libs", "x.jar"]),
                   ClasspathEntry(ProjectKind, ["B"]),
                   ClasspathEntry(ProjectKind, ["NotExist"])];
      Expand(cpes, [a, b]) == [ArchiveRuntimeEntry(["libs", "x.jar"])]
  {
    var a := Project("A", ["ws", "A"], {JavaNatureId}, [], true);
    var b := Project("B", ["ws", "B"], {JavaNatureId}, [], false);
    var lib := ClasspathEntry(LibraryKind, ["libs", "x.jar"]);
    var refB := ClasspathEntry(ProjectKind, ["B"]);
    var refNone := ClasspathEntry(ProjectKind, ["NotExist"]);
    assert ResolveEntry(refB, [a, b]) == [] by {
      assert !AccessibleJavaProject(["B"])(a) && !AccessibleJavaProject(["B"])(b);
    }
    assert ResolveEntry(refNone, [a, b]) == [] by {
      assert !AccessibleJavaProject(["NotExist"])(a) && !AccessibleJavaProject(["NotExist"])(b);
    }
    var cpes := [lib, refB, refNone];
    assert cpes[..2] == [lib, refB] && cpes[..2][..1] == [lib] && [lib][..0] == [];
    assert Expand([lib], [a, b]) == [ArchiveRuntimeEntry(lib.path)];
    assert Expand([lib, refB], [a, b]) == Expand([lib], [a, b]);
    assert Expand(cpes, [a, b]) == Expand([lib, refB], [a, b]);
  }
}

# Buildship workspace operations and Gradle container resolver, in Dafny

This project models two pieces of Buildship's workspace layer.

- **Workspace operations** (`WorkspaceOperations`). These query and change the projects of an
  Eclipse workspace: find, create, include and rename projects, add and remove natures and build
  commands, mark folders as build folders or sub-projects, and normalize project names. The
  workspace is a class `WorkspaceOperations.Workspace` with these fields:
  - the projects, in workspace order, with at most one per name (`Valid`);
  - the set of folders marked as build folders;
  - the set of folders marked as sub-projects;
  - the file-system location of the workspace root.

  A project record (`Projects.Project`) holds a name, a location, a set of natures, a build spec
  (an ordered list of named commands with argument maps) and an open flag. Projects are addressed
  by name, as Eclipse project handles are.
- **Gradle classpath container resolver** (`GradleClasspathContainerRuntimeClasspathEntryResolver`).
  When a launch asks for it, this resolver expands the Gradle classpath container into runtime
  classpath entries. Each library becomes an archive entry with the same path. A project reference
  becomes a project entry only when an accessible Java project sits at the referenced path;
  otherwise it is dropped. Entries of any other kind are dropped too. The resolving method walks
  the container with a loop and is proved equal to the specification function
  `ClasspathResolver.Expand`. The lemmas about `Expand` cover order, length, libraries and
  dangling references.

Both parts share the module `Projects` and its project list. The resolver looks projects up with
`Projects.FindProject` in the `Workspace` it is given, just as the source calls
`findProject` on the workspace operations.

Modelling decisions:
- Paths are sequences of segments, and path equality is sequence equality.
- A project's workspace path is `/name` (`Projects.FullPath`).
- A project of the workspace exists, so it is accessible exactly when it is open.
- `hasNature` raises an exception on a closed project, as Eclipse documents. The resolver's
  predicate turns that into `false`. That branch is never reached, in the model as in the
  source: the predicate asks for natures only after the project has been found accessible.
- Exceptions become `Wrappers.Result` failures and Guava's `Optional` becomes `Wrappers.Option`.
- `createProject` is given the set of existing file-system locations as a parameter.
- The interface documentation does not say whether `createProject` opens the new project. The
  model opens it, as `includeProject`'s documentation says for included projects.
- The interface documentation does not make `createProject` reject a location that another
  project already uses. The model does not reject it either.
- Lookups return the first match in workspace order.

## Model

| member | source | states |
|---|---|---|
| Projects.FindProject | org.eclipse.buildship.core/src/main/java/org/eclipse/buildship/core/workspace/WorkspaceOperations.java:58 | the result is the first project in workspace order that meets the condition; it is absent exactly when no project meets it |
| Projects.FindProjectByName | org.eclipse.buildship.core/src/main/java/org/eclipse/buildship/core/workspace/WorkspaceOperations.java:40-47 | a project is returned exactly when one has that name, and it has that name; otherwise absent |
| Projects.FindProjectByNameFindsEach | org.eclipse.buildship.core/src/main/java/org/eclipse/buildship/core/workspace/WorkspaceOperations.java:40-47 | with distinct names, every project, open or closed, is the one found by its name |
| Projects.FindProjectByLocation | org.eclipse.buildship.core/src/main/java/org/eclipse/buildship/core/workspace/WorkspaceOperations.java:49-56 | a project at that location is returned, open or closed; absent exactly when no project is there |
| WorkspaceOperations.Workspace.GetAllProjects | org.eclipse.buildship.core/src/main/java/org/eclipse/buildship/core/workspace/WorkspaceOperations.java:33-38 | the list has exactly the workspace's projects, open or closed, as many as the workspace holds, and each listed project is the one the workspace finds by its name |
| WorkspaceOperations.Workspace.CreateProject | org.eclipse.buildship.core/src/main/java/org/eclipse/buildship/core/workspace/WorkspaceOperations.java:76-88 | a missing location fails, then an existing name fails, and neither failure changes the workspace; on success exactly one open project with that name and the given natures is appended and is found by its name |
| WorkspaceOperations.Workspace.IncludeProject | org.eclipse.buildship.core/src/main/java/org/eclipse/buildship/core/workspace/WorkspaceOperations.java:90-100 | an existing name fails without change; otherwise the description's project is appended, open, with the description's natures plus every extra nature |
| WorkspaceOperations.Workspace.AddNature | org.eclipse.buildship.core/src/main/java/org/eclipse/buildship/core/workspace/WorkspaceOperations.java:112-121 | the project's natures become the old ones plus the id and nothing else changes; if it already had the nature, the workspace is unchanged |
| WorkspaceOperations.Workspace.RemoveNature | org.eclipse.buildship.core/src/main/java/org/eclipse/buildship/core/workspace/WorkspaceOperations.java:123-130 | the project's natures become the old ones minus the id and nothing else changes; an absent nature leaves the workspace unchanged |
| WorkspaceOperations.Workspace.AddBuildCommand | org.eclipse.buildship.core/src/main/java/org/eclipse/buildship/core/workspace/WorkspaceOperations.java:132-144 | only that project's build spec changes, to the spec with the command added; the same name with the same arguments leaves the workspace unchanged; unique builder names stay unique |
| BuildCommands.AddSameBuildCommandIsNoOp | org.eclipse.buildship.core/src/main/java/org/eclipse/buildship/core/workspace/WorkspaceOperations.java:135-136 | adding a command whose name already has exactly these arguments returns the build spec unchanged |
| BuildCommands.AddBuildCommandArguments | org.eclipse.buildship.core/src/main/java/org/eclipse/buildship/core/workspace/WorkspaceOperations.java:132-144 | after adding, the name has the given arguments and every other name keeps its arguments (replaced when different, added when new) |
| BuildCommands.AddBuildCommandNames | org.eclipse.buildship.core/src/main/java/org/eclipse/buildship/core/workspace/WorkspaceOperations.java:132-144 | an existing command keeps its place in the build spec; a new name is appended at the end |
| BuildCommands.AddBuildCommandIdempotent | org.eclipse.buildship.core/src/main/java/org/eclipse/buildship/core/workspace/WorkspaceOperations.java:132-144 | adding the same command twice has the effect of adding it once |
| BuildCommands.AddBuildCommandKeepsUniqueNames | org.eclipse.buildship.core/src/main/java/org/eclipse/buildship/core/workspace/WorkspaceOperations.java:132-144 | adding keeps builder names unique |
| WorkspaceOperations.Workspace.RemoveBuildCommand | org.eclipse.buildship.core/src/main/java/org/eclipse/buildship/core/workspace/WorkspaceOperations.java:146-155 | only that project's build spec changes, to the spec without the command; a name that is not present leaves the workspace unchanged; unique builder names stay unique |
| BuildCommands.RemoveBuildCommandArguments | org.eclipse.buildship.core/src/main/java/org/eclipse/buildship/core/workspace/WorkspaceOperations.java:146-155 | after removing, the name has no command and every other name keeps its arguments |
| BuildCommands.RemoveAbsentBuildCommandIsNoOp | org.eclipse.buildship.core/src/main/java/org/eclipse/buildship/core/workspace/WorkspaceOperations.java:149 | removing a name that has no command returns the build spec unchanged |
| BuildCommands.RemoveBuildCommandNames | org.eclipse.buildship.core/src/main/java/org/eclipse/buildship/core/workspace/WorkspaceOperations.java:146-155 | the remaining builder names are exactly the old ones other than the removed name; the spec never grows |
| BuildCommands.RemoveBuildCommandKeepsUniqueNames | org.eclipse.buildship.core/src/main/java/org/eclipse/buildship/core/workspace/WorkspaceOperations.java:146-155 | removing keeps builder names unique |
| BuildCommands.RemoveBuildCommandAt | org.eclipse.buildship.core/src/main/java/org/eclipse/buildship/core/workspace/WorkspaceOperations.java:146-155 | with unique names, removing the command at a position leaves exactly the other commands, in their old order |
| WorkspaceOperations.Workspace.MarkAsBuildFolder | org.eclipse.buildship.core/src/main/java/org/eclipse/buildship/core/workspace/WorkspaceOperations.java:157-170 | afterwards `IsBuildFolder` holds for the folder, re-marking adds nothing, `IsSubProject` is unchanged for every folder, and the projects are unchanged |
| WorkspaceOperations.Workspace.MarkAsSubProject | org.eclipse.buildship.core/src/main/java/org/eclipse/buildship/core/workspace/WorkspaceOperations.java:201-214 | afterwards `IsSubProject` holds for the folder, re-marking adds nothing, `IsBuildFolder` is unchanged for every folder, and the projects are unchanged |
| WorkspaceOperations.Workspace.NormalizeProjectName | org.eclipse.buildship.core/src/main/java/org/eclipse/buildship/core/workspace/WorkspaceOperations.java:172-183 | a location directly in the workspace root gives its directory name, whatever name was desired; any other location keeps the desired name |
| WorkspaceOperations.Workspace.RenameProject | org.eclipse.buildship.core/src/main/java/org/eclipse/buildship/core/workspace/WorkspaceOperations.java:185-199 | no effect when the name already equals the new name; fails without change at the default location or when the new name is taken; otherwise the same record is re-keyed under the new name in place, and the old name finds nothing |
| ClasspathResolver.ResolveRuntimeClasspathEntry | org.eclipse.buildship.core/src/main/java/org/eclipse/buildship/core/workspace/internal/GradleClasspathContainerRuntimeClasspathEntryResolver.java:33-38 | an absent entry, or one without a Java project, gives an empty result; otherwise the result is that of resolving against the entry's Java project |
| ClasspathResolver.ResolveRuntimeClasspathEntryForProject | org.eclipse.buildship.core/src/main/java/org/eclipse/buildship/core/workspace/internal/GradleClasspathContainerRuntimeClasspathEntryResolver.java:40-63 | anything other than a container entry at the Gradle container path gives an empty result; a failing container fetch is passed through; otherwise the result is `Expand` of the container entries, independent of the `project` argument |
| ClasspathResolver.AccessibleJavaProject | org.eclipse.buildship.core/src/main/java/org/eclipse/buildship/core/workspace/internal/GradleClasspathContainerRuntimeClasspathEntryResolver.java:65-77 | the condition holds exactly for an open project at that full path with the Java nature; a failing nature query gives false |
| ClasspathResolver.ResolveVMInstall | org.eclipse.buildship.core/src/main/java/org/eclipse/buildship/core/workspace/internal/GradleClasspathContainerRuntimeClasspathEntryResolver.java:79-82 | never a VM install |
| ClasspathResolver.ResolveEntry | org.eclipse.buildship.core/src/main/java/org/eclipse/buildship/core/workspace/internal/GradleClasspathContainerRuntimeClasspathEntryResolver.java:50-60 | each container entry contributes at most one runtime entry |
| ClasspathResolver.ResolveEntryEmpty | org.eclipse.buildship.core/src/main/java/org/eclipse/buildship/core/workspace/internal/GradleClasspathContainerRuntimeClasspathEntryResolver.java:50-60 | an entry contributes nothing exactly when it is not a library and, if it is a project reference, no accessible Java project is at its path |
| ClasspathResolver.ExpandAppend | org.eclipse.buildship.core/src/main/java/org/eclipse/buildship/core/workspace/internal/GradleClasspathContainerRuntimeClasspathEntryResolver.java:49-62 | the entries resolved from an earlier part of the container come first: container order is kept |
| ClasspathResolver.ExpandLength | org.eclipse.buildship.core/src/main/java/org/eclipse/buildship/core/workspace/internal/GradleClasspathContainerRuntimeClasspathEntryResolver.java:49-62 | the result is never longer than the container |
| ClasspathResolver.ExpandLibraries | org.eclipse.buildship.core/src/main/java/org/eclipse/buildship/core/workspace/internal/GradleClasspathContainerRuntimeClasspathEntryResolver.java:51-52 | the archive entries of the result are exactly the container's libraries, one each, with the same paths, in order |
| ClasspathResolver.LibrariesOnly | org.eclipse.buildship.core/src/main/java/org/eclipse/buildship/core/workspace/internal/GradleClasspathContainerRuntimeClasspathEntryResolver.java:51-52 | a container of libraries resolves, position by position, to archive entries with the same paths |
| ClasspathResolver.OmittedEntryLeavesRestIntact | org.eclipse.buildship.core/src/main/java/org/eclipse/buildship/core/workspace/internal/GradleClasspathContainerRuntimeClasspathEntryResolver.java:53-58 | a dangling project reference, or an entry of another kind, is omitted and leaves the entries around it resolved as before |
| ClasspathResolver.ProjectReferenceResolves | org.eclipse.buildship.core/src/main/java/org/eclipse/buildship/core/workspace/internal/GradleClasspathContainerRuntimeClasspathEntryResolver.java:53-58 | with distinct names, a reference to the path of an accessible Java project yields exactly that project's entry |
| ClasspathResolver.ResolvedProjectIsAccessibleJava | org.eclipse.buildship.core/src/main/java/org/eclipse/buildship/core/workspace/internal/GradleClasspathContainerRuntimeClasspathEntryResolver.java:53-58 | a project reference that yields an entry is bound to a workspace project that is open, at that path and Java |
| ClasspathResolver.DanglingReferencesDropped | org.eclipse.buildship.core/src/main/java/org/eclipse/buildship/core/workspace/internal/GradleClasspathContainerRuntimeClasspathEntryResolver.java:49-62 | with `A` open and Java and `B` closed, `[library /libs/x.jar, project /B, project /NotExist]` resolves to the archive entry alone |

## Left out

- `findProjectDescriptor`, `deleteProjectDescriptors` and `refreshProject`: they read, delete and synchronise `.project` and `.classpath` files, which is file-system I/O.
- Progress monitors and cancellation: all `IProgressMonitor` parameters are dropped.
- The launch configuration argument of `resolveRuntimeClasspathEntry`: it is unused by the source and not modelled.
- The Java model calls `JavaCore.getClasspathContainer`, `JavaCore.create` and `JavaRuntime.new*RuntimeClasspathEntry`: the container's contents come from a `ContainerProvider` parameter, and the runtime entries are datatype values.
- A null container from `JavaCore.getClasspathContainer` is not modelled: the provider yields either contents or a `CoreException`.
- `GradleClasspathContainer.java` is not part of this model. `ContainerPath` takes the value Buildship declares there, and the lemmas about the resolver do not depend on it.
- Path equality beyond segment equality (devices, trailing separators, case) is not modelled, and neither is `findProjectByLocation`'s file-system path comparison: locations are compared as opaque values.
- Handle invalidation on rename is not modelled: a rename re-keys the project record in place, and the result is the renamed record.
- Folder markers are keyed by the folder's workspace path. Renaming a project does not move the markers of its folders, and marking a folder does not check that it exists.
- Nature configuration hooks (a nature adding its own builders) are not modelled: a nature is a tag in a set, and the order in which natures are applied is not kept.
- AddNature, RemoveNature: require an existing project, as their documentation states.
- AddBuildCommand: requires an existing project. Its documentation says only "the target project", and the failure an implementation would raise for a missing project is not modelled.
- RemoveBuildCommand: requires an existing project. Its documentation says only "the target project", and the failure for a missing project is not modelled.
- RenameProject: requires an existing project. The failure its documentation allows when a project cannot be renamed is modelled for the default location and a taken name, but not for a missing project.
- Builder-name uniqueness is not part of the workspace invariant, because a project description may list one builder twice. The lemmas on unique names, and the matching clauses of AddBuildCommand and RemoveBuildCommand, say that uniqueness is kept where it holds.
- Project-name validity and the concurrency of workspace changes are not modelled.

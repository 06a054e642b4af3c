/**
 * What every platform contributes through the `Platform` interface's default
 * members: whether it is a graphical backend, copied template files, and
 * namespaced Gradle task descriptions.
 */
module Platforms {
  import opened Wrappers
  import opened Strings
  import opened Projects

  /** Directory under which each platform's templates live. */
  const GeneratorDirectory: string := "generator"

  /**
   * A platform: its unique id and, when its implementation overrides
   * `isGraphical`, the value it overrides it with.
   */
  datatype Platform = Platform(id: string, isGraphicalOverride: Option<bool>)

  /** A platform that does not override `isGraphical` is graphical. */
  function IsGraphical(p: Platform): (g: bool)
    ensures p.isGraphicalOverride.None? ==> g
    ensures p.isGraphicalOverride.Some? ==> g == p.isGraphicalOverride.value
  {
    match p.isGraphicalOverride
    case None => true
    case Some(v) => v
  }

  /**
   * A copied file that comes from its owner's template directory: its source
   * is the generator directory, then the owning platform's id, then exactly
   * the segments of its destination.
   */
  predicate FromOwnTemplates(f: CopiedFile)
  {
    && |f.original| == |f.path| + 2
    && f.original[0] == GeneratorDirectory
    && f.original[1] == f.projectName
    && f.original[2..] == f.path
  }

  /**
   * The copied-file record `addCopiedFile` builds for the given path segments:
   * owned by the platform, read from that platform's template directory, and
   * written to the given segments, unprefixed.
   */
  function CopiedFileFor(p: Platform, file: seq<string>): (f: CopiedFile)
    ensures f.projectName == p.id
    ensures f.path == file
    ensures FromOwnTemplates(f)
  {
    var f := CopiedFile(p.id, [GeneratorDirectory, p.id] + file, file);
    assert f.original[2..] == file;
    f
  }

  /** `addCopiedFile`: appends the record for `file` to the project's copy list and changes nothing else. */
  method AddCopiedFile(p: Platform, project: Project, file: seq<string>)
    modifies project
    ensures project.files == old(project.files) + [CopiedFileFor(p, file)]
    ensures |project.files| == |old(project.files)| + 1
    ensures project.files[..|old(project.files)|] == old(project.files)
    ensures project.dependencies == old(project.dependencies)
    ensures project.taskDescriptions == old(project.taskDescriptions)
    ensures project.trace == old(project.trace)
  {
    var original := [GeneratorDirectory, p.id] + file;
    project.AddFile(CopiedFile(projectName := p.id, original := original, path := file));
    assert CopiedFile(p.id, original, file) == CopiedFileFor(p, file);
    assert project.files[..|old(project.files)|] == old(project.files);
  }

  /**
   * The key a platform's task description is stored under: the platform id,
   * ':', then the task. For platform ids without ':' it splits back into both,
   * so no two platforms' keys collide.
   */
  function TaskKey(p: Platform, task: string): (key: string)
    ensures ':' !in p.id ==> SplitFirst(key, ':') == Some((p.id, task))
  {
    var key := p.id + ":" + task;
    assert ':' !in p.id ==> SplitFirst(key, ':') == Some((p.id, task)) by {
      if ':' !in p.id {
        SplitFirstJoin(p.id, ':', task);
      }
    }
    key
  }

  /** Within one platform, distinct tasks get distinct keys. */
  lemma TaskKeyInjective(p: Platform, t1: string, t2: string)
    requires TaskKey(p, t1) == TaskKey(p, t2)
    ensures t1 == t2
  {
    var n := |p.id| + 1;
    assert t1 == TaskKey(p, t1)[n..];
    assert t2 == TaskKey(p, t2)[n..];
  }

  /** `addGradleTaskDescription`: stores the description under the namespaced key; nothing else changes. */
  method AddGradleTaskDescription(p: Platform, project: Project, task: string, description: string)
    modifies project
    ensures project.taskDescriptions == old(project.taskDescriptions)[TaskKey(p, task) := description]
    ensures project.dependencies == old(project.dependencies)
    ensures project.files == old(project.files)
    ensures project.trace == old(project.trace)
  {
    project.AddGradleTaskDescription(p.id + ":" + task, description);
  }
}

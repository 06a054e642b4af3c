/**
 * The shared, per-run project that platforms and extensions initiate
 * themselves into: each platform module's ordered dependency set, the list of
 * files to copy from the generator's templates, and the Gradle task
 * descriptions.
 */
module Projects {
  import opened OrderedSets
  import opened KtxCatalog

  /**
   * A template to copy. Both paths are kept as their list of segments; how
   * the segments are joined into one path is not part of this model.
   */
  datatype CopiedFile = CopiedFile(projectName: string, original: seq<string>, path: seq<string>)

  /** The observable contents of a project at one moment. */
  datatype State = State(
    dependencies: map<string, seq<string>>,
    files: seq<CopiedFile>,
    taskDescriptions: map<string, string>)

  /** The Core module is present and no module lists a coordinate twice. */
  predicate ValidState(s: State)
  {
    && CoreId in s.dependencies
    && forall p :: p in s.dependencies ==> NoDuplicates(s.dependencies[p])
  }

  class Project {
    /** Per platform module id, the coordinates of its build file in insertion order. */
    var dependencies: map<string, seq<string>>
    /** Templates scheduled for copying, in the order they were added. */
    var files: seq<CopiedFile>
    /** Gradle task key to its description. */
    var taskDescriptions: map<string, string>
    /** Every node, extension or official library, whose initiation has finished, in the order they finished. */
    ghost var trace: seq<NodeId>

    /** The project's current contents. */
    function Snapshot(): State
      reads this
    {
      State(dependencies, files, taskDescriptions)
    }

    /** The Core module is always present and no module lists a coordinate twice. */
    ghost predicate Valid()
      reads this
    {
      ValidState(Snapshot())
    }

    /** A project for the given platform modules, Core among them, with empty build files. */
    constructor (platforms: set<string>)
      ensures Valid()
      ensures dependencies == map p | p in platforms + {CoreId} :: []
      ensures files == [] && taskDescriptions == map[] && trace == []
    {
      dependencies := map p | p in platforms + {CoreId} :: [];
      files := [];
      taskDescriptions := map[];
      trace := [];
    }

    /**
     * Adds a coordinate to a platform module's build file, ignoring a repeat;
     * a module the project does not have is refused and nothing changes.
     */
    method AddDependency(platform: string, coordinate: string) returns (ok: bool)
      requires Valid()
      modifies this
      ensures Valid()
      ensures ok <==> platform in old(dependencies)
      ensures dependencies == if ok
        then old(dependencies)[platform := Register(old(dependencies)[platform], coordinate)]
        else old(dependencies)
      ensures files == old(files) && taskDescriptions == old(taskDescriptions) && trace == old(trace)
    {
      ok := platform in dependencies;
      if ok {
        RegisterAllNoDuplicates(dependencies[platform], [coordinate]);
        assert RegisterAll(dependencies[platform], [coordinate]) == Register(dependencies[platform], coordinate);
        dependencies := dependencies[platform := Register(dependencies[platform], coordinate)];
      }
    }

    /**
     * Replaces the project's contents by `s`: the effect of an initiation whose
     * body is not part of this model, given as the state it leaves behind.
     */
    method Apply(s: State)
      requires ValidState(s)
      modifies this
      ensures Valid() && Snapshot() == s && trace == old(trace)
    {
      dependencies, files, taskDescriptions := s.dependencies, s.files, s.taskDescriptions;
    }

    /** Appends a file to the copy list. */
    method AddFile(f: CopiedFile)
      modifies this
      ensures files == old(files) + [f]
      ensures dependencies == old(dependencies) && taskDescriptions == old(taskDescriptions) && trace == old(trace)
    {
      files := files + [f];
    }

    /** Stores a task description under its key, replacing an earlier one. */
    method AddGradleTaskDescription(task: string, description: string)
      modifies this
      ensures taskDescriptions == old(taskDescriptions)[task := description]
      ensures dependencies == old(dependencies) && files == old(files) && trace == old(trace)
    {
      taskDescriptions := taskDescriptions[task := description];
    }
  }
}

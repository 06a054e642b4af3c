# KTX extension initiation in gdx-liftoff, modelled in Dafny

gdx-liftoff generates libGDX projects. When the user selects KTX extensions,
each extension *initiates* itself into the shared `Project`: it first
initiates the extensions and official libraries it needs, then adds its own
`io.github.libktx:<name>` coordinate to the Core module's build file. This
project models that dependency walk over the static KTX catalog, the lazily
cached latest KTX version, and the default members of the `Platform`
interface that add copied template files and namespaced Gradle task
descriptions.

Modules:

- `KtxCatalog` (ktx_catalog.dfy): the 23 extensions, their ids, artifact
  names and coordinates, the prerequisite edges and a rank that decreases
  along every edge; an explicit id registry in place of reflective discovery.
- `KtxInitiation` (ktx_initiation.dfy): the recursive `Initiate`, the
  dispatching `InitiateDependencies`, five methods for the five extension
  classes with prerequisites, and one method shared by the 18 leaf classes.
  Each method is proved against `Walk`, which applies the contribution of
  every node of `Closure` (the post-order of the prerequisite graph) to the
  project's state. An extension contributes its coordinate in Core. An
  official library contributes whatever the `official` parameter says,
  since its initiation is not part of this model. Lemmas cover the order,
  acyclicity, idempotence and the shared-prerequisite scenarios.
- `Projects` (project.dfy): the `Project` class. It holds each platform
  module's insertion-ordered, repeat-ignoring dependency list, the copied
  files and the task descriptions.
- `Platforms` (platforms.dfy): `isGraphical`, `addCopiedFile` and
  `addGradleTaskDescription`.
- `KtxVersion` (ktx_version.dfy): the `by lazy` version holder as a
  class. The two network lookups are parameters.
- `OrderedSets`, `Strings`, `Wrappers`: the repeat-ignoring
  registration, kebab-casing, trimming and splitting they rely on.

Two behaviours of the code worth knowing:

- ktx.kt has no "already initiated" guard. Each
  `initiateDependencies` calls `initiate` on fresh prerequisite instances
  every time (ktx.kt:102-103, 172-173). A guard, if there were one, would
  live in `ThirdPartyExtension.initiate`, which is not part of this model
  (see KtxInitiation.Initiate under "Left out"). So the model walks
  prerequisites again on every initiation. The build file's repeat-ignoring dependency set
  absorbs the repeats, and `InitiationIdempotent` proves that a second
  initiation adds no KTX coordinate, as long as the official libraries
  neither add nor remove KTX coordinates.
- `latestKtxVersion` has no fallback to `defaultVersion` (ktx.kt:29-37).
  When the repository fetch fails and the Maven Central lookup fails too,
  reading `latestKtxVersion` fails and nothing is cached. `defaultVersion`
  is carried only as the constant `DefaultVersion`.

## Model

| member | source | states |
|---|---|---|
| KtxCatalog.Id | src/main/kotlin/gdx/liftoff/data/libraries/unofficial/ktx.kt:44-339 | each extension's declared id; no id contains a hyphen |
| KtxCatalog.FromId | src/main/kotlin/gdx/liftoff/data/libraries/unofficial/ktx.kt:42-345 | the explicit registry that replaces reflective discovery: a found extension has exactly the looked-up id |
| KtxCatalog.FromIdRoundTrip | src/main/kotlin/gdx/liftoff/data/libraries/unofficial/ktx.kt:42-345 | the registry finds every extension under its own id |
| KtxCatalog.FromIdRejectsUnknown | src/main/kotlin/gdx/liftoff/data/libraries/unofficial/ktx.kt:42-345 | the registry finds nothing exactly when no extension declares the id |
| KtxCatalog.IdsDistinct | src/main/kotlin/gdx/liftoff/data/libraries/unofficial/ktx.kt:44-339 | extension ids are pairwise distinct across the catalog |
| KtxCatalog.Name | src/main/kotlin/gdx/liftoff/data/libraries/unofficial/ktx.kt:25-26 | the artifact name is the kebab-cased id, and camel-casing it gives the id back |
| KtxCatalog.Coordinate | src/main/kotlin/gdx/liftoff/data/libraries/unofficial/ktx.kt:48 | the coordinate each extension registers, `"$group:$name"`, is always in the KTX group |
| KtxCatalog.CoordinateSplits | src/main/kotlin/gdx/liftoff/data/libraries/unofficial/ktx.kt:24-26 | a coordinate is the group io.github.libktx, a ':' and the extension's name, and splits back into the two |
| KtxCatalog.CoordinateInjective | src/main/kotlin/gdx/liftoff/data/libraries/unofficial/ktx.kt:24-26 | distinct extensions register distinct coordinates |
| KtxCatalog.Deps | src/main/kotlin/gdx/liftoff/data/libraries/unofficial/ktx.kt:73-174 | the prerequisites each initiateDependencies initiates, in order; every edge descends in rank, and official libraries have no modelled edges |
| KtxCatalog.LeavesHaveNoPrerequisites | src/main/kotlin/gdx/liftoff/data/libraries/unofficial/ktx.kt:47-344 | an extension initiates nothing else exactly when it is not ktxAshley, ktxAssetsAsync, ktxBox2d, ktxFreetype or ktxFreetypeAsync |
| KtxCatalog.KtxEdgesEndAtLeavesOrFreetype | src/main/kotlin/gdx/liftoff/data/libraries/unofficial/ktx.kt:101-174 | every edge between KTX extensions ends at a leaf or at ktxFreetype, whose only edge goes to Freetype |
| Strings.CamelKebabRoundTrip | src/main/kotlin/gdx/liftoff/data/libraries/unofficial/ktx.kt:25-26 | on hyphen-free ids, camel-casing undoes the kebab-case renaming that gives the artifact name |
| Strings.KebabCaseInjective | src/main/kotlin/gdx/liftoff/data/libraries/unofficial/ktx.kt:25-26 | distinct hyphen-free ids give distinct artifact names |
| Strings.Trim | src/main/kotlin/gdx/liftoff/data/libraries/unofficial/ktx.kt:32 | the trimmed version is the slice of the response left after cutting whitespace on both ends; it neither starts nor ends with whitespace |
| Strings.TrimIdempotent | src/main/kotlin/gdx/liftoff/data/libraries/unofficial/ktx.kt:32 | trimming an already trimmed response changes nothing |
| OrderedSets.RegisterAllContents | src/main/kotlin/gdx/liftoff/data/libraries/unofficial/ktx.kt:48 | registering coordinates only appends: old entries keep their positions, and the result holds exactly the old and the registered coordinates |
| OrderedSets.RegisterAllNoDuplicates | src/main/kotlin/gdx/liftoff/data/libraries/unofficial/ktx.kt:48 | registration never lists a coordinate twice |
| OrderedSets.RegisterAllIdempotent | src/main/kotlin/gdx/liftoff/data/libraries/unofficial/ktx.kt:103 | registering the same coordinates again changes nothing |
| OrderedSets.RegisteredBefore | src/main/kotlin/gdx/liftoff/data/libraries/unofficial/ktx.kt:101-104 | a coordinate registered after others, and new, comes after each of them |
| OrderedSets.RegisteredOnce | src/main/kotlin/gdx/liftoff/data/libraries/unofficial/ktx.kt:173 | a coordinate registered by either of two registrations occurs exactly once afterwards |
| Projects.Project.AddDependency | src/main/kotlin/gdx/liftoff/data/libraries/unofficial/ktx.kt:48 | the coordinate is added, ignoring a repeat, to the named module's list, and the project stays valid |
| Projects.Project.Apply | src/main/kotlin/gdx/liftoff/data/libraries/unofficial/ktx.kt:74 | an official library's initiation leaves the project in the state its effect gives; the trace is kept |
| Projects.Project.AddFile | src/main/kotlin/com/github/czyzby/setup/data/platforms/platform.kt:38 | the copy list grows by exactly the given file; nothing else changes |
| Projects.Project.AddGradleTaskDescription | src/main/kotlin/com/github/czyzby/setup/data/platforms/platform.kt:42 | the description is stored under the key; nothing else changes |
| Platforms.IsGraphical | src/main/kotlin/com/github/czyzby/setup/data/platforms/platform.kt:21-22 | a platform that does not override isGraphical is graphical; an override decides otherwise |
| Platforms.CopiedFileFor | src/main/kotlin/com/github/czyzby/setup/data/platforms/platform.kt:36-38 | the record is owned by the platform id, its source is generator, the id, then the given segments, and its destination is the segments alone |
| Platforms.AddCopiedFile | src/main/kotlin/com/github/czyzby/setup/data/platforms/platform.kt:36-39 | appends exactly that record: earlier entries unchanged, length up by one, modules and task descriptions untouched |
| Platforms.TaskKey | src/main/kotlin/com/github/czyzby/setup/data/platforms/platform.kt:42 | the key is the platform id, ':' and the task, and for colon-free ids splits back into both, so platforms' keys never collide |
| Platforms.TaskKeyInjective | src/main/kotlin/com/github/czyzby/setup/data/platforms/platform.kt:41-42 | within one platform, distinct tasks get distinct keys |
| Platforms.AddGradleTaskDescription | src/main/kotlin/com/github/czyzby/setup/data/platforms/platform.kt:41-43 | stores the description under id:task; files and modules stay as they were |
| KtxInitiation.Initiate | src/main/kotlin/gdx/liftoff/data/libraries/unofficial/ktx.kt:102-103 | the project ends as the walk's nodes, prerequisites first, leave it (each official library by its effect, each extension by adding its coordinate to Core); the walk is recorded in post-order; the project stays valid |
| KtxInitiation.InitiateDependencies | src/main/kotlin/gdx/liftoff/data/libraries/unofficial/ktx.kt:47-344 | each class's initiateDependencies applies its prerequisites' walks and then its own registration |
| KtxInitiation.InitiateLeaf | src/main/kotlin/gdx/liftoff/data/libraries/unofficial/ktx.kt:47-49 | a leaf extension adds its own coordinate to Core and nothing else |
| KtxInitiation.InitiateKtxAshley | src/main/kotlin/gdx/liftoff/data/libraries/unofficial/ktx.kt:73-77 | Ashley is initiated first, then ktxAshley's coordinate is added to Core |
| KtxInitiation.InitiateKtxAssetsAsync | src/main/kotlin/gdx/liftoff/data/libraries/unofficial/ktx.kt:101-105 | ktxAssets, then ktxAsync, then ktxAssetsAsync's own coordinate |
| KtxInitiation.InitiateKtxBox2D | src/main/kotlin/gdx/liftoff/data/libraries/unofficial/ktx.kt:129-133 | Box2D is initiated first, then ktxBox2d's coordinate is added to Core |
| KtxInitiation.InitiateKtxFreetype | src/main/kotlin/gdx/liftoff/data/libraries/unofficial/ktx.kt:157-160 | Freetype is initiated first, then ktxFreetype's coordinate is added to Core |
| KtxInitiation.InitiateKtxFreetypeAsync | src/main/kotlin/gdx/liftoff/data/libraries/unofficial/ktx.kt:171-175 | ktxFreetype, then ktxAsync, then ktxFreetypeAsync's own coordinate |
| KtxInitiation.WalkLibraryFree | src/main/kotlin/gdx/liftoff/data/libraries/unofficial/ktx.kt:101-105 | when no official library is on the walk, Core gains exactly the walk's coordinates in order, ignoring repeats, and nothing else in the project changes |
| KtxInitiation.WalkKtxView | src/main/kotlin/gdx/liftoff/data/libraries/unofficial/ktx.kt:73-175 | whatever the official libraries do, as long as they neither add nor remove KTX coordinates, the KTX coordinates in Core become the old ones with the walk's coordinates registered after them |
| KtxInitiation.OfficialLibraryReached | src/main/kotlin/gdx/liftoff/data/libraries/unofficial/ktx.kt:73-175 | exactly ktxAshley, ktxBox2d, ktxFreetype and ktxFreetypeAsync reach an official library; every other walk has extensions only |
| KtxInitiation.CoordinatesUnfold | src/main/kotlin/gdx/liftoff/data/libraries/unofficial/ktx.kt:101-104 | an extension's registrations are its prerequisites' registrations followed by its own coordinate |
| KtxInitiation.NotOwnPrerequisite | src/main/kotlin/gdx/liftoff/data/libraries/unofficial/ktx.kt:101-174 | no node is among its own direct or transitive prerequisites, so the graph is acyclic and initiation terminates |
| KtxInitiation.PrerequisitesFirst | src/main/kotlin/gdx/liftoff/data/libraries/unofficial/ktx.kt:101-105 | when an extension's coordinate is new to Core, every direct or transitive prerequisite extension's coordinate comes before it |
| KtxInitiation.LeafInitiation | src/main/kotlin/gdx/liftoff/data/libraries/unofficial/ktx.kt:47-49 | a leaf's walk is itself alone and it registers exactly its own coordinate |
| KtxInitiation.OfficialPrerequisite | src/main/kotlin/gdx/liftoff/data/libraries/unofficial/ktx.kt:73-76 | ktxAshley, ktxBox2d and ktxFreetype finish their official library first and register only their own coordinate |
| KtxInitiation.AssetsAsyncClosure | src/main/kotlin/gdx/liftoff/data/libraries/unofficial/ktx.kt:101-105 | ktxAssetsAsync's walk is ktxAssets, ktxAsync, then itself |
| KtxInitiation.AssetsAsyncOrder | src/main/kotlin/gdx/liftoff/data/libraries/unofficial/ktx.kt:101-105 | selecting ktxAssetsAsync adds exactly ktxAssets, ktxAsync, ktxAssetsAsync to a Core list lacking them, in that order |
| KtxInitiation.FreetypeAsyncOrder | src/main/kotlin/gdx/liftoff/data/libraries/unofficial/ktx.kt:157-175 | ktxFreetypeAsync's walk finishes Freetype, ktxFreetype, ktxAsync, then ktxFreetypeAsync |
| KtxInitiation.SharedPrerequisiteOnce | src/main/kotlin/gdx/liftoff/data/libraries/unofficial/ktx.kt:103-173 | ktxAsync, required by both ktxAssetsAsync and ktxFreetypeAsync, is listed exactly once when both register into a repeat-free list |
| KtxInitiation.SharedPrerequisiteInProject | src/main/kotlin/gdx/liftoff/data/libraries/unofficial/ktx.kt:103-173 | in a valid project that initiates ktxAssetsAsync and then ktxFreetypeAsync, Core's own list holds ktxAsync exactly once, as long as the official libraries neither add nor remove KTX coordinates |
| KtxInitiation.PrerequisitesFirstInProject | src/main/kotlin/gdx/liftoff/data/libraries/unofficial/ktx.kt:101-105 | in any project whose Core lacks the extension's coordinate, initiating it leaves every transitive prerequisite extension's coordinate before its own in Core's list, also when an official library is on the walk, as long as the official libraries neither add nor remove KTX coordinates |
| KtxInitiation.KtxPartBefore | src/main/kotlin/gdx/liftoff/data/libraries/unofficial/ktx.kt:101-105 | an order between two coordinates among Core's KTX coordinates holds in Core's full list |
| KtxInitiation.KtxPartCount | src/main/kotlin/gdx/liftoff/data/libraries/unofficial/ktx.kt:103-173 | a KTX coordinate occurs among Core's KTX coordinates exactly as often as in Core's full list |
| KtxInitiation.InitiationIdempotent | src/main/kotlin/gdx/liftoff/data/libraries/unofficial/ktx.kt:171-174 | as long as the official libraries neither add nor remove KTX coordinates, initiating a node again leaves Core's KTX coordinates as the first initiation left them, and the whole project when no official library is on the walk |
| KtxVersion.LatestVersion | src/main/kotlin/gdx/liftoff/data/libraries/unofficial/ktx.kt:29-37 | the lazy initializer fails exactly when the repository fetch and the Maven Central lookup both fail |
| KtxVersion.RepositoryVersionIsTrimmed | src/main/kotlin/gdx/liftoff/data/libraries/unofficial/ktx.kt:31-32 | when the repository answers, the version is exactly `Trim` of the repository's text, with no surrounding whitespace, whatever Maven Central would say |
| KtxVersion.FallbackOnFailure | src/main/kotlin/gdx/liftoff/data/libraries/unofficial/ktx.kt:33-36 | when the repository fetch fails, the version is Maven Central's answer for ktxActors |
| KtxVersion.LazyKtxVersion.Get | src/main/kotlin/gdx/liftoff/data/libraries/unofficial/ktx.kt:29-37 | the initializer runs only while nothing is cached; a value it yields is cached and returned from then on; a failure caches nothing |
| KtxVersion.ReadTwice | src/main/kotlin/gdx/liftoff/data/libraries/unofficial/ktx.kt:29 | a second read returns the first read's value, whatever the network answers then, unless the first read failed |

## Left out

- Network I/O: the GitHub fetch and `fetchVersionFromMavenCentral` are
  parameters. Each gives an outcome, text or failure. `fetchVersionFromMavenCentral`
  is not part of this model, so whether it has a fallback of its own is not
  modelled. Decoding the response bytes (`decodeToString`) is taken as
  already done.
- Logging of the failed fetch (`Gdx.app.error`): a side effect with no
  bearing on the result.
- `repository = Repository.KTX` (ktx.kt:23): which Maven repository the
  generated build declares for KTX is not modelled. No modelled operation
  reads it.
- Strings.Trim: recognises only the ASCII whitespace accepted by Java's
  `Character.isWhitespace`, not the other Unicode spaces Kotlin's `trim` also cuts.
- Strings.KebabCase: `camelCaseToKebabCase` is not part of this model. The
  model uses its own renaming, in which an ASCII upper-case letter becomes '-'
  and its lower-case form. Proofs use only that distinct hyphen-free ids get
  distinct names.
- `path(...)`: not part of this model. Copied files keep their source and
  destination as lists of path segments, not joined paths. How the
  segments are joined, and whether two segment lists join to the same path,
  is not modelled.
- `addDependency`, `ThirdPartyExtension.initiate` and `GradleFile` are not
  part of this model. Project.AddDependency assumes several things about them:
  - the build file keeps coordinates in an insertion-ordered set that ignores
    repeats;
  - a module the project does not have is refused and nothing changes;
  - the coordinate is stored as given. Any version suffix or version property
    is left out.
- KtxInitiation.Initiate: the body of `ThirdPartyExtension.initiate` is not
  part of this model. It is read as "run `initiateDependencies`, then stop":
  no "already initiated" guard, and no effect on files, task descriptions or
  other modules. Any guard or extra effect it might have is not modelled.
  The whole-state results rest on this reading: WalkLibraryFree's "nothing
  else changes", InitiationIdempotent's whole-project clause, and the
  repeated walk described above.
- The official Ashley, Box2D and Freetype libraries: their initiation is not
  part of this model. Every initiation takes its effect as the parameter
  `official`, which is assumed to keep a valid project valid.
  KtxInitiation.WalkKtxView, KtxInitiation.InitiationIdempotent,
  KtxInitiation.SharedPrerequisiteInProject and
  KtxInitiation.PrerequisitesFirstInProject also assume that it keeps Core
  and neither adds nor removes a KTX coordinate (`LeavesKtxAlone`). Without
  that, the order and count results can fail: an effect that adds ktxFreetypeAsync's
  coordinate would leave ktxFreetype registered after it. What that effect does to other coordinates,
  modules, files or task descriptions is unconstrained. So exact "nothing
  else changes" results hold only for walks without an official library
  (WalkLibraryFree).
- `Core.ID` is not part of this model: its value is taken as `"core"`.
  A project always has that module.
- `Project.addGradleTaskDescription` is not part of this model: it is
  assumed to store the description under the key, replacing an earlier one.
- `createGradleFile` and `Platform.initiate`: abstract interface members
  whose implementations are not part of this model.
- The `@Extension` annotation and reflective discovery: replaced by the
  explicit datatype `Ktx` and the registry `FromId`. The `url` strings
  are descriptive metadata and are left out.
- Concurrency: the synchronised initialisation of `by lazy` is modelled as
  a single-threaded holder.

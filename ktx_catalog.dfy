/**
 * The static catalog of KTX extensions: each extension's id, the artifact name
 * derived from it, its `group:name` coordinate, and the prerequisite edges its
 * `initiateDependencies` follows. The three official libraries that KTX
 * extensions pull in (Ashley, Box2D, Freetype) are nodes whose own
 * initiation is not part of this model, so they have no edges here.
 * The catalog replaces discovery of annotated extension classes by reflection.
 */
module KtxCatalog {
  import opened Wrappers
  import opened Strings

  /** Every KTX extension class of the catalog, in the order they are declared. */
  datatype Ktx =
    | KtxActors | KtxApp | KtxAshley | KtxAssets | KtxAssetsAsync | KtxAsync
    | KtxBox2D | KtxCollections | KtxFreetype | KtxFreetypeAsync | KtxGraphics
    | KtxI18n | KtxInject | KtxJson | KtxLog | KtxMath | KtxPreferences
    | KtxReflect | KtxScene2D | KtxStyle | KtxTiled | KtxVis | KtxVisStyle

  /** The official libraries that some KTX extensions initiate. */
  datatype Official = Ashley | Box2D | Freetype

  /** A node of the initiation graph. */
  datatype NodeId = Extension(ext: Ktx) | Library(lib: Official)

  /** Maven group shared by every KTX extension. */
  const Group: string := "io.github.libktx"

  /** Version declared as the KTX default; carried as a constant only. */
  const DefaultVersion: string := "1.10.0-b4"

  /** Id of the Core platform module, the only module KTX extensions register into. */
  const CoreId: string := "core"

  /** The extension's id as its class declares it. */
  function Id(k: Ktx): (id: string)
    ensures '-' !in id
  {
    match k
    case KtxActors => "ktxActors"
    case KtxApp => "ktxApp"
    case KtxAshley => "ktxAshley"
    case KtxAssets => "ktxAssets"
    case KtxAssetsAsync => "ktxAssetsAsync"
    case KtxAsync => "ktxAsync"
    case KtxBox2D => "ktxBox2d"
    case KtxCollections => "ktxCollections"
    case KtxFreetype => "ktxFreetype"
    case KtxFreetypeAsync => "ktxFreetypeAsync"
    case KtxGraphics => "ktxGraphics"
    case KtxI18n => "ktxI18n"
    case KtxInject => "ktxInject"
    case KtxJson => "ktxJson"
    case KtxLog => "ktxLog"
    case KtxMath => "ktxMath"
    case KtxPreferences => "ktxPreferences"
    case KtxReflect => "ktxReflect"
    case KtxScene2D => "ktxScene2d"
    case KtxStyle => "ktxStyle"
    case KtxTiled => "ktxTiled"
    case KtxVis => "ktxVis"
    case KtxVisStyle => "ktxVisStyle"
  }

  /** Every extension of the catalog, in the order they are declared. */
  const All: seq<Ktx> := [
    KtxActors, KtxApp, KtxAshley, KtxAssets, KtxAssetsAsync, KtxAsync,
    KtxBox2D, KtxCollections, KtxFreetype, KtxFreetypeAsync, KtxGraphics, KtxI18n,
    KtxInject, KtxJson, KtxLog, KtxMath, KtxPreferences, KtxReflect,
    KtxScene2D, KtxStyle, KtxTiled, KtxVis, KtxVisStyle]

  /** The catalog lists every extension. */
  lemma AllListsEvery(k: Ktx)
    ensures k in All
  {
  }

  /** The first extension of `ks` whose id is `s`, if any. */
  function Find(s: string, ks: seq<Ktx>): (r: Option<Ktx>)
    ensures r.Some? ==> r.value in ks && Id(r.value) == s
    ensures r.None? ==> forall k :: k in ks ==> Id(k) != s
  {
    if ks == [] then None
    else if Id(ks[0]) == s then Some(ks[0])
    else Find(s, ks[1..])
  }

  /**
   * The registry lookup from an id to its extension, standing in for the
   * reflective discovery of annotated classes; `None` for an unknown id.
   */
  function FromId(s: string): (r: Option<Ktx>)
    ensures r.Some? ==> Id(r.value) == s
  {
    Find(s, All)
  }

  /**
   * Two characters that tell the ids apart: the last but one and the sixth.
   * Comparing these is what distinctness of the ids comes down to. This and
   * `FromFingerprint` model nothing in the extension classes; they are a proof
   * aid for `IdInjective`.
   */
  function Fingerprint(s: string): (char, char)
  {
    if |s| < 6 then (' ', ' ') else (s[|s| - 2], s[5])
  }

  /** The extension whose id has the given fingerprint characters. */
  function FromFingerprint(a: char, b: char): Ktx
  {
    if a == 'r' && b == 't' then KtxActors
    else if a == 'p' && b == 'p' then KtxApp
    else if a == 'e' && b == 'h' then KtxAshley
    else if a == 't' && b == 's' then KtxAssets
    else if a == 'n' && b == 's' then KtxAssetsAsync
    else if a == 'n' && b == 'y' then KtxAsync
    else if a == '2' && b == 'x' then KtxBox2D
    else if a == 'n' && b == 'l' then KtxCollections
    else if a == 'p' && b == 'e' then KtxFreetype
    else if a == 'n' && b == 'e' then KtxFreetypeAsync
    else if a == 'c' && b == 'a' then KtxGraphics
    else if a == '8' && b == '8' then KtxI18n
    else if a == 'c' && b == 'j' then KtxInject
    else if a == 'o' && b == 'o' then KtxJson
    else if a == 'o' && b == 'g' then KtxLog
    else if a == 't' && b == 't' then KtxMath
    else if a == 'e' && b == 'e' then KtxPreferences
    else if a == 'c' && b == 'f' then KtxReflect
    else if a == '2' && b == 'e' then KtxScene2D
    else if a == 'l' && b == 'y' then KtxStyle
    else if a == 'e' && b == 'l' then KtxTiled
    else if a == 'i' && b == 's' then KtxVis
    else KtxVisStyle
  }

  /** An id's fingerprint identifies its extension. */
  lemma FingerprintIdentifies(k: Ktx)
    ensures FromFingerprint(Fingerprint(Id(k)).0, Fingerprint(Id(k)).1) == k
  {
    match k
    case KtxActors =>
    case KtxApp =>
    case KtxAshley =>
    case KtxAssets =>
    case KtxAssetsAsync =>
    case KtxAsync =>
    case KtxBox2D =>
    case KtxCollections =>
    case KtxFreetype =>
    case KtxFreetypeAsync =>
    case KtxGraphics =>
    case KtxI18n =>
    case KtxInject =>
    case KtxJson =>
    case KtxLog =>
    case KtxMath =>
    case KtxPreferences =>
    case KtxReflect =>
    case KtxScene2D =>
    case KtxStyle =>
    case KtxTiled =>
    case KtxVis =>
    case KtxVisStyle =>
  }

  /** Equal ids belong to the same extension. */
  lemma IdInjective(a: Ktx, b: Ktx)
    requires Id(a) == Id(b)
    ensures a == b
  {
    FingerprintIdentifies(a);
    FingerprintIdentifies(b);
  }

  /** Looking up an extension's own id finds that extension. */
  lemma FromIdRoundTrip(k: Ktx)
    ensures FromId(Id(k)) == Some(k)
  {
    AllListsEvery(k);
    IdInjective(FromId(Id(k)).value, k);
  }

  /** The registry finds nothing exactly when no extension declares the id. */
  lemma FromIdRejectsUnknown(s: string)
    ensures FromId(s) == None <==> forall k :: Id(k) != s
  {
    if FromId(s) == None {
      forall k ensures Id(k) != s {
        AllListsEvery(k);
      }
    }
  }

  /** Extension ids are pairwise distinct across the catalog. */
  lemma IdsDistinct(a: Ktx, b: Ktx)
    requires a != b
    ensures Id(a) != Id(b)
  {
    if Id(a) == Id(b) {
      IdInjective(a, b);
    }
  }

  /**
   * The artifact name: the id renamed from camel case to kebab case. The
   * renaming loses nothing: camel-casing the name gives the id back.
   */
  function Name(k: Ktx): (name: string)
    ensures CamelCase(name) == Id(k)
  {
    CamelKebabRoundTrip(Id(k));
    KebabCase(Id(k))
  }

  /** A coordinate in the KTX group: it starts with the group and ':'. */
  predicate IsKtxCoordinate(c: string)
  {
    |Group| < |c| && c[..|Group| + 1] == Group + ":"
  }

  /** The coordinate an extension registers: `group:name`, always in the KTX group. */
  function Coordinate(k: Ktx): (c: string)
    ensures IsKtxCoordinate(c)
  {
    var c := Group + ":" + Name(k);
    assert c[..|Group| + 1] == Group + ":";
    c
  }

  /** A coordinate splits back, at its first ':', into the KTX group and the extension's name. */
  lemma CoordinateSplits(k: Ktx)
    ensures SplitFirst(Coordinate(k), ':') == Some((Group, Name(k)))
  {
    assert ':' !in Group;
    assert Coordinate(k) == Group + [':'] + Name(k);
    SplitFirstJoin(Group, ':', Name(k));
  }

  /** Distinct extensions register distinct coordinates. */
  lemma CoordinateInjective(a: Ktx, b: Ktx)
    requires Coordinate(a) == Coordinate(b)
    ensures a == b
  {
    CoordinateSplits(a);
    CoordinateSplits(b);
    KebabCaseInjective(Id(a), Id(b));
    IdInjective(a, b);
  }

  /**
   * Height of a node in the prerequisite graph: every edge goes from a node
   * to one of strictly smaller rank, so the graph has no cycle.
   */
  function Rank(n: NodeId): nat
  {
    match n
    case Extension(KtxFreetypeAsync) => 2
    case Extension(KtxAshley) => 1
    case Extension(KtxAssetsAsync) => 1
    case Extension(KtxBox2D) => 1
    case Extension(KtxFreetype) => 1
    case _ => 0
  }

  /**
   * The nodes an extension's `initiateDependencies` initiates before it
   * registers its own coordinate, in the order it initiates them.
   */
  function Deps(n: NodeId): (ds: seq<NodeId>)
    ensures forall d :: d in ds ==> Rank(d) < Rank(n)
    ensures n.Library? ==> ds == []
  {
    match n
    case Extension(KtxAshley) => [Library(Ashley)]
    case Extension(KtxAssetsAsync) => [Extension(KtxAssets), Extension(KtxAsync)]
    case Extension(KtxBox2D) => [Library(Box2D)]
    case Extension(KtxFreetype) => [Library(Freetype)]
    case Extension(KtxFreetypeAsync) => [Extension(KtxFreetype), Extension(KtxAsync)]
    case _ => []
  }

  /** The extensions whose initiation touches no other node. */
  predicate IsLeaf(k: Ktx)
  {
    k !in {KtxAshley, KtxAssetsAsync, KtxBox2D, KtxFreetype, KtxFreetypeAsync}
  }

  /** Exactly the leaf extensions have no prerequisites. */
  lemma LeavesHaveNoPrerequisites(k: Ktx)
    ensures Deps(Extension(k)) == [] <==> IsLeaf(k)
  {
  }

  /**
   * Every edge between two KTX extensions ends at a leaf or at ktxFreetype,
   * whose only edge goes to the official Freetype library.
   */
  lemma KtxEdgesEndAtLeavesOrFreetype(k: Ktx, d: Ktx)
    requires Extension(d) in Deps(Extension(k))
    ensures IsLeaf(d) || (d == KtxFreetype && Deps(Extension(d)) == [Library(Freetype)])
  {
  }
}

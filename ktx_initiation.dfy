/**
 * Initiating KTX extensions into a project: an extension first initiates its
 * prerequisites, in declared order, and then registers its own coordinate in
 * the Core module. `Closure` is the post-order of the prerequisite graph, and
 * `Coordinates` the KTX coordinates along it. `Walk` gives the project after
 * every node of a walk has made its contribution. The initiation of an official
 * library is not part of this model; its effect is a parameter.
 */
module KtxInitiation {
  import opened OrderedSets
  import opened KtxCatalog
  import opened Projects

  /** The nodes whose initiation finishes while `n` is initiated, in the order they finish. */
  function Closure(n: NodeId): seq<NodeId>
    decreases Rank(n), 1
  {
    ClosureAll(Deps(n), Rank(n)) + [n]
  }

  /** The closures of `ds`, one after another. */
  function ClosureAll(ds: seq<NodeId>, bound: nat): seq<NodeId>
    requires forall d :: d in ds ==> Rank(d) < bound
    decreases bound, 0, |ds|
  {
    if ds == [] then [] else Closure(ds[0]) + ClosureAll(ds[1..], bound)
  }

  /** The coordinates the extensions among `ns` register, in order. */
  function KtxCoordinates(ns: seq<NodeId>): seq<string>
  {
    if ns == [] then []
    else (if ns[0].Extension? then [Coordinate(ns[0].ext)] else []) + KtxCoordinates(ns[1..])
  }

  /** The coordinates initiating `n` registers in Core, in order, repeats included. */
  function Coordinates(n: NodeId): seq<string>
  {
    KtxCoordinates(Closure(n))
  }

  lemma {:induction false} KtxCoordinatesAppend(a: seq<NodeId>, b: seq<NodeId>)
    ensures KtxCoordinates(a + b) == KtxCoordinates(a) + KtxCoordinates(b)
  {
    if a == [] {
      assert a + b == b;
    } else {
      assert (a + b)[0] == a[0] && (a + b)[1..] == a[1..] + b;
      KtxCoordinatesAppend(a[1..], b);
    }
  }

  /** Every extension met on the walk contributes its coordinate. */
  lemma {:induction false} KtxCoordinatesInclude(ns: seq<NodeId>, k: Ktx)
    requires Extension(k) in ns
    ensures Coordinate(k) in KtxCoordinates(ns)
  {
    if ns[0] != Extension(k) {
      KtxCoordinatesInclude(ns[1..], k);
    }
  }

  /** An extension not met on the walk contributes no coordinate. */
  lemma {:induction false} KtxCoordinatesExclude(ns: seq<NodeId>, k: Ktx)
    requires Extension(k) !in ns
    ensures Coordinate(k) !in KtxCoordinates(ns)
  {
    if ns != [] {
      assert ns == [ns[0]] + ns[1..];
      KtxCoordinatesExclude(ns[1..], k);
      if ns[0].Extension? && Coordinate(ns[0].ext) == Coordinate(k) {
        CoordinateInjective(ns[0].ext, k);
      }
    }
  }

  /** Nothing on the walk from `n` ranks above `n`. */
  lemma {:induction false} ClosureRank(n: NodeId)
    ensures forall m :: m in Closure(n) ==> Rank(m) <= Rank(n)
    decreases Rank(n), 1
  {
    ClosureAllRank(Deps(n), Rank(n));
  }

  /** Everything on the walks from `ds` ranks below the bound. */
  lemma {:induction false} ClosureAllRank(ds: seq<NodeId>, bound: nat)
    requires forall d :: d in ds ==> Rank(d) < bound
    ensures forall m :: m in ClosureAll(ds, bound) ==> Rank(m) < bound
    decreases bound, 0, |ds|
  {
    if ds != [] {
      ClosureRank(ds[0]);
      ClosureAllRank(ds[1..], bound);
    }
  }

  /** No node is among its own prerequisites, direct or transitive: the graph has no cycle. */
  lemma NotOwnPrerequisite(n: NodeId)
    ensures n !in ClosureAll(Deps(n), Rank(n))
  {
    ClosureAllRank(Deps(n), Rank(n));
  }

  /** Initiating a node registers its prerequisites' coordinates, then its own. */
  lemma CoordinatesUnfold(k: Ktx)
    ensures Coordinates(Extension(k))
         == KtxCoordinates(ClosureAll(Deps(Extension(k)), Rank(Extension(k)))) + [Coordinate(k)]
  {
    var n := Extension(k);
    KtxCoordinatesAppend(ClosureAll(Deps(n), Rank(n)), [n]);
    assert KtxCoordinates([n]) == [Coordinate(k)] + KtxCoordinates([]);
  }

  /** A leaf extension's initiation finishes only itself and registers only its own coordinate. */
  lemma LeafInitiation(k: Ktx)
    requires IsLeaf(k)
    ensures Closure(Extension(k)) == [Extension(k)]
    ensures Coordinates(Extension(k)) == [Coordinate(k)]
  {
    LeavesHaveNoPrerequisites(k);
    CoordinatesUnfold(k);
  }

  /**
   * ktxAshley, ktxBox2d and ktxFreetype each finish their official library
   * first and then themselves, registering only their own coordinate.
   */
  lemma OfficialPrerequisite(k: Ktx, o: Official)
    requires Deps(Extension(k)) == [Library(o)]
    ensures Closure(Extension(k)) == [Library(o), Extension(k)]
    ensures Coordinates(Extension(k)) == [Coordinate(k)]
  {
    var ds := Deps(Extension(k));
    assert ds[1..] == [];
    assert Closure(Library(o)) == [Library(o)];
    CoordinatesUnfold(k);
    assert KtxCoordinates([Library(o)]) == [] + KtxCoordinates([]);
  }

  /**
   * Registering an extension's coordinates in a Core list that lacks its own
   * coordinate puts every prerequisite extension's coordinate, direct or
   * transitive, before the extension's own.
   */
  lemma PrerequisitesFirst(core: seq<string>, k: Ktx, m: Ktx)
    requires Extension(m) in ClosureAll(Deps(Extension(k)), Rank(Extension(k)))
    requires Coordinate(k) !in core
    ensures Before(RegisterAll(core, Coordinates(Extension(k))), Coordinate(m), Coordinate(k))
  {
    var pre := ClosureAll(Deps(Extension(k)), Rank(Extension(k)));
    CoordinatesUnfold(k);
    NotOwnPrerequisite(Extension(k));
    KtxCoordinatesExclude(pre, k);
    KtxCoordinatesInclude(pre, m);
    RegisteredBefore(core, KtxCoordinates(pre), Coordinate(m), Coordinate(k));
  }

  /** Distinct extensions listed once each give coordinates without repeats. */
  lemma CoordinatesDistinct(ks: seq<Ktx>)
    requires NoDuplicates(ks)
    ensures NoDuplicates(seq(|ks|, i requires 0 <= i < |ks| => Coordinate(ks[i])))
  {
    forall i, j | 0 <= i < j < |ks| ensures Coordinate(ks[i]) != Coordinate(ks[j]) {
      if Coordinate(ks[i]) == Coordinate(ks[j]) {
        CoordinateInjective(ks[i], ks[j]);
      }
    }
  }

  /**
   * Selecting ktxAssetsAsync in a Core module that lists none of the three
   * coordinates adds exactly ktxAssets, then ktxAsync, then ktxAssetsAsync.
   */
  lemma AssetsAsyncOrder(core: seq<string>)
    requires Coordinate(KtxAssets) !in core && Coordinate(KtxAsync) !in core
    requires Coordinate(KtxAssetsAsync) !in core && NoDuplicates(core)
    ensures Closure(Extension(KtxAssetsAsync))
         == [Extension(KtxAssets), Extension(KtxAsync), Extension(KtxAssetsAsync)]
    ensures RegisterAll(core, Coordinates(Extension(KtxAssetsAsync)))
         == core + [Coordinate(KtxAssets), Coordinate(KtxAsync), Coordinate(KtxAssetsAsync)]
  {
    AssetsAsyncClosure();
    var ns := [Extension(KtxAssets), Extension(KtxAsync), Extension(KtxAssetsAsync)];
    var c := [Coordinate(KtxAssets), Coordinate(KtxAsync), Coordinate(KtxAssetsAsync)];
    assert KtxCoordinates(ns) == c by {
      assert ns[1..] == [Extension(KtxAsync), Extension(KtxAssetsAsync)];
      assert ns[1..][1..] == [Extension(KtxAssetsAsync)];
    }
    var ks := [KtxAssets, KtxAsync, KtxAssetsAsync];
    CoordinatesDistinct(ks);
    assert seq(|ks|, i requires 0 <= i < |ks| => Coordinate(ks[i])) == c;
    NoDuplicatesConcat(core, c);
    RegisterAllFresh(core, c);
  }

  /** ktxFreetypeAsync's walk finishes Freetype, then ktxFreetype, then ktxAsync, then itself. */
  lemma FreetypeAsyncOrder()
    ensures Closure(Extension(KtxFreetypeAsync))
         == [Library(Freetype), Extension(KtxFreetype), Extension(KtxAsync), Extension(KtxFreetypeAsync)]
  {
    var ds := Deps(Extension(KtxFreetypeAsync));
    assert ds[1..] == [Extension(KtxAsync)];
    assert ClosureAll(ds[1..][1..], 2) == [];
    assert Closure(Extension(KtxFreetype)) == [Library(Freetype), Extension(KtxFreetype)] by {
      var fs := Deps(Extension(KtxFreetype));
      assert fs[1..] == [];
    }
  }

  /**
   * ktxAsync, which ktxAssetsAsync and ktxFreetypeAsync both require, is
   * listed once in a Core module that initiates both.
   */
  lemma SharedPrerequisiteOnce(core: seq<string>)
    requires NoDuplicates(core)
    ensures Coordinate(KtxAsync) in Coordinates(Extension(KtxAssetsAsync))
    ensures Coordinate(KtxAsync) in Coordinates(Extension(KtxFreetypeAsync))
    ensures Count(RegisterAll(RegisterAll(core, Coordinates(Extension(KtxAssetsAsync))),
                              Coordinates(Extension(KtxFreetypeAsync))), Coordinate(KtxAsync)) == 1
  {
    AsyncReachedByBoth();
    RegisteredOnce(core, Coordinates(Extension(KtxAssetsAsync)), Coordinates(Extension(KtxFreetypeAsync)),
                   Coordinate(KtxAsync));
  }

  lemma AsyncReachedByBoth()
    ensures Coordinate(KtxAsync) in Coordinates(Extension(KtxAssetsAsync))
    ensures Coordinate(KtxAsync) in Coordinates(Extension(KtxFreetypeAsync))
  {
    var ds := Deps(Extension(KtxAssetsAsync));
    assert ds[1..] == [Extension(KtxAsync)];
    assert Extension(KtxAsync) in Closure(Extension(KtxAsync));
    assert Extension(KtxAsync) in Closure(Extension(KtxAssetsAsync));
    KtxCoordinatesInclude(Closure(Extension(KtxAssetsAsync)), KtxAsync);
    FreetypeAsyncOrder();
    KtxCoordinatesInclude(Closure(Extension(KtxFreetypeAsync)), KtxAsync);
  }

  /**
   * What initiating an official library does to a project. Its body is not
   * part of this model, so every initiation takes it as a parameter.
   */
  type OfficialInitiation = (Official, State) -> State

  /** An official library's initiation keeps a valid project valid. */
  ghost predicate KeepsValid(official: OfficialInitiation)
  {
    forall o: Official, s: State :: ValidState(s) ==> ValidState(official(o, s))
  }

  /** The KTX coordinates of a dependency list, in order. */
  function KtxPart(xs: seq<string>): seq<string>
  {
    if xs == [] then []
    else (if IsKtxCoordinate(xs[0]) then [xs[0]] else []) + KtxPart(xs[1..])
  }

  /** The KTX coordinates the Core module lists. */
  function KtxView(s: State): seq<string>
  {
    if CoreId in s.dependencies then KtxPart(s.dependencies[CoreId]) else []
  }

  /**
   * An official library's initiation keeps the Core module and neither adds
   * nor removes a KTX coordinate in it.
   */
  ghost predicate LeavesKtxAlone(official: OfficialInitiation)
  {
    forall o: Official, s: State :: && (CoreId in s.dependencies ==> CoreId in official(o, s).dependencies)
                   && KtxView(official(o, s)) == KtxView(s)
  }

  /**
   * A node's own contribution: an official library's initiation, or an
   * extension adding its coordinate to Core, which a project without Core refuses.
   */
  function Step(official: OfficialInitiation, s: State, n: NodeId): State
  {
    match n
    case Library(o) => official(o, s)
    case Extension(k) =>
      if CoreId in s.dependencies
      then s.(dependencies := s.dependencies[CoreId := Register(s.dependencies[CoreId], Coordinate(k))])
      else s
  }

  /** The project after each node of `ns`, in order, has made its own contribution. */
  function Walk(official: OfficialInitiation, s: State, ns: seq<NodeId>): State
    decreases |ns|
  {
    if ns == [] then s else Walk(official, Step(official, s, ns[0]), ns[1..])
  }

  lemma {:induction false} WalkAppend(official: OfficialInitiation, s: State, a: seq<NodeId>, b: seq<NodeId>)
    ensures Walk(official, s, a + b) == Walk(official, Walk(official, s, a), b)
    decreases |a|
  {
    if a == [] {
      assert a + b == b;
    } else {
      assert (a + b)[0] == a[0] && (a + b)[1..] == a[1..] + b;
      WalkAppend(official, Step(official, s, a[0]), a[1..], b);
    }
  }

  /** No official library among the nodes. */
  predicate LibraryFree(ns: seq<NodeId>)
  {
    forall i :: 0 <= i < |ns| ==> ns[i].Extension?
  }

  /**
   * When no official library is on the walk, Core gains exactly the walk's
   * coordinates, in order and ignoring repeats, and nothing else changes.
   */
  lemma {:induction false} WalkLibraryFree(official: OfficialInitiation, s: State, ns: seq<NodeId>)
    requires CoreId in s.dependencies && LibraryFree(ns)
    ensures Walk(official, s, ns)
         == s.(dependencies := s.dependencies[CoreId := RegisterAll(s.dependencies[CoreId], KtxCoordinates(ns))])
    decreases |ns|
  {
    var core := s.dependencies[CoreId];
    if ns == [] {
      assert s.dependencies[CoreId := core] == s.dependencies;
    } else {
      var c := Coordinate(ns[0].ext);
      var s1 := Step(official, s, ns[0]);
      assert LibraryFree(ns[1..]) by {
        forall i | 0 <= i < |ns[1..]| ensures ns[1..][i].Extension? {
          assert ns[1..][i] == ns[i + 1];
        }
      }
      WalkLibraryFree(official, s1, ns[1..]);
      var rest := KtxCoordinates(ns[1..]);
      assert KtxCoordinates(ns) == [c] + rest;
      assert ([c] + rest)[0] == c && ([c] + rest)[1..] == rest;
      assert RegisterAll(core, [c] + rest) == RegisterAll(Register(core, c), rest);
    }
  }

  lemma {:induction false} KtxPartAppend(a: seq<string>, b: seq<string>)
    ensures KtxPart(a + b) == KtxPart(a) + KtxPart(b)
  {
    if a == [] {
      assert a + b == b;
    } else {
      assert (a + b)[0] == a[0] && (a + b)[1..] == a[1..] + b;
      KtxPartAppend(a[1..], b);
    }
  }

  lemma {:induction false} KtxPartMember(xs: seq<string>, c: string)
    requires IsKtxCoordinate(c)
    ensures c in KtxPart(xs) <==> c in xs
  {
    if xs != [] {
      assert xs == [xs[0]] + xs[1..];
      KtxPartMember(xs[1..], c);
    }
  }

  /** Keeping only KTX coordinates commutes with registering a KTX coordinate. */
  lemma KtxPartRegister(xs: seq<string>, c: string)
    requires IsKtxCoordinate(c)
    ensures KtxPart(Register(xs, c)) == Register(KtxPart(xs), c)
  {
    KtxPartMember(xs, c);
    if c !in xs {
      KtxPartAppend(xs, [c]);
      assert KtxPart([c]) == [c] + KtxPart([]);
    }
  }

  /** The KTX coordinates of a repeat-free list are repeat-free. */
  lemma {:induction false} KtxPartNoDuplicates(xs: seq<string>)
    requires NoDuplicates(xs)
    ensures NoDuplicates(KtxPart(xs))
  {
    if xs != [] {
      assert NoDuplicates(xs[1..]) by {
        forall i, j | 0 <= i < j < |xs[1..]| ensures xs[1..][i] != xs[1..][j] {
          assert xs[1..][i] == xs[i + 1] && xs[1..][j] == xs[j + 1];
        }
      }
      KtxPartNoDuplicates(xs[1..]);
      if IsKtxCoordinate(xs[0]) {
        KtxPartMember(xs[1..], xs[0]);
        assert xs[0] !in xs[1..];
        NoDuplicatesConcat([xs[0]], KtxPart(xs[1..]));
      }
    }
  }

  /** Every coordinate the KTX view keeps is in the list it was taken from. */
  lemma {:induction false} KtxPartSubset(xs: seq<string>)
    ensures forall c :: c in KtxPart(xs) ==> c in xs
  {
    if xs != [] {
      KtxPartSubset(xs[1..]);
    }
  }

  /** An order between two coordinates of the KTX view holds in the full list. */
  lemma {:induction false} KtxPartBefore(xs: seq<string>, x: string, y: string)
    requires Before(KtxPart(xs), x, y)
    ensures Before(xs, x, y)
  {
    var rest := KtxPart(xs[1..]);
    if IsKtxCoordinate(xs[0]) {
      assert KtxPart(xs) == [xs[0]] + rest;
      var i, j :| 0 <= i < j < |KtxPart(xs)| && KtxPart(xs)[i] == x && KtxPart(xs)[j] == y;
      if i == 0 {
        assert rest[j - 1] == y && y in rest;
        KtxPartSubset(xs[1..]);
        var j' :| 0 <= j' < |xs[1..]| && xs[1..][j'] == y;
        assert xs[0] == x && xs[j' + 1] == y;
      } else {
        assert rest[i - 1] == x && rest[j - 1] == y;
        KtxPartBefore(xs[1..], x, y);
        var i', j' :| 0 <= i' < j' < |xs[1..]| && xs[1..][i'] == x && xs[1..][j'] == y;
        assert xs[i' + 1] == x && xs[j' + 1] == y;
      }
    } else {
      assert KtxPart(xs) == rest;
      KtxPartBefore(xs[1..], x, y);
      var i', j' :| 0 <= i' < j' < |xs[1..]| && xs[1..][i'] == x && xs[1..][j'] == y;
      assert xs[i' + 1] == x && xs[j' + 1] == y;
    }
  }

  /** A KTX coordinate occurs in the KTX view as often as in the full list. */
  lemma {:induction false} KtxPartCount(xs: seq<string>, c: string)
    requires IsKtxCoordinate(c)
    ensures Count(KtxPart(xs), c) == Count(xs, c)
  {
    if xs != [] {
      KtxPartCount(xs[1..], c);
      var p := KtxPart(xs[1..]);
      if IsKtxCoordinate(xs[0]) {
        assert KtxPart(xs) == [xs[0]] + p;
        assert ([xs[0]] + p)[0] == xs[0] && ([xs[0]] + p)[1..] == p;
      } else {
        assert KtxPart(xs) == p && xs[0] != c;
      }
    }
  }

  /**
   * Whatever the official libraries do, as long as they leave KTX coordinates
   * alone, the KTX coordinates in Core are the old ones with the walk's
   * coordinates registered after them, in order and ignoring repeats.
   */
  lemma {:induction false} WalkKtxView(official: OfficialInitiation, s: State, ns: seq<NodeId>)
    requires LeavesKtxAlone(official) && CoreId in s.dependencies
    ensures CoreId in Walk(official, s, ns).dependencies
    ensures KtxView(Walk(official, s, ns)) == RegisterAll(KtxView(s), KtxCoordinates(ns))
    decreases |ns|
  {
    if ns != [] {
      var s1 := Step(official, s, ns[0]);
      var first := if ns[0].Extension? then [Coordinate(ns[0].ext)] else [];
      assert CoreId in s1.dependencies && KtxView(s1) == RegisterAll(KtxView(s), first) by {
        match ns[0] {
          case Library(o) =>
            assert KtxView(official(o, s)) == KtxView(s);
          case Extension(k) =>
            KtxPartRegister(s.dependencies[CoreId], Coordinate(k));
            assert RegisterAll(KtxView(s), [Coordinate(k)]) == Register(KtxView(s), Coordinate(k));
        }
      }
      WalkKtxView(official, s1, ns[1..]);
      RegisterAllAppend(KtxView(s), first, KtxCoordinates(ns[1..]));
    }
  }

  /** ktxAssetsAsync's walk finishes ktxAssets, then ktxAsync, then itself. */
  lemma AssetsAsyncClosure()
    ensures Closure(Extension(KtxAssetsAsync))
         == [Extension(KtxAssets), Extension(KtxAsync), Extension(KtxAssetsAsync)]
  {
    var ds := Deps(Extension(KtxAssetsAsync));
    assert ds[1..] == [Extension(KtxAsync)];
    assert ClosureAll(ds[1..][1..], 1) == [];
  }

  /**
   * Exactly ktxAshley, ktxBox2d, ktxFreetype and ktxFreetypeAsync reach an
   * official library; every other extension's walk is made of extensions only.
   */
  lemma OfficialLibraryReached(k: Ktx)
    ensures LibraryFree(Closure(Extension(k))) <==> k !in {KtxAshley, KtxBox2D, KtxFreetype, KtxFreetypeAsync}
  {
    if IsLeaf(k) {
      LeafInitiation(k);
    } else if k == KtxAssetsAsync {
      AssetsAsyncClosure();
    } else if k == KtxFreetypeAsync {
      FreetypeAsyncOrder();
      assert Closure(Extension(k))[0] == Library(Freetype);
    } else if k == KtxAshley {
      OfficialPrerequisite(k, Ashley);
    } else if k == KtxBox2D {
      OfficialPrerequisite(k, Box2D);
    } else {
      OfficialPrerequisite(k, Freetype);
    }
  }

  /**
   * Initiating a node a second time leaves the KTX coordinates in Core as the
   * first initiation left them; when no official library is on the walk, it
   * leaves the whole project as the first initiation left it.
   */
  lemma InitiationIdempotent(official: OfficialInitiation, s: State, n: NodeId)
    requires LeavesKtxAlone(official) && CoreId in s.dependencies
    ensures KtxView(Walk(official, Walk(official, s, Closure(n)), Closure(n)))
         == KtxView(Walk(official, s, Closure(n)))
    ensures LibraryFree(Closure(n))
        ==> Walk(official, Walk(official, s, Closure(n)), Closure(n)) == Walk(official, s, Closure(n))
  {
    var c := Closure(n);
    var s1 := Walk(official, s, c);
    WalkKtxView(official, s, c);
    WalkKtxView(official, s1, c);
    RegisterAllIdempotent(KtxView(s), KtxCoordinates(c));
    if LibraryFree(c) {
      WalkLibraryFree(official, s, c);
      WalkLibraryFree(official, s1, c);
      RegisterAllIdempotent(s.dependencies[CoreId], KtxCoordinates(c));
      assert s1.dependencies[CoreId := s1.dependencies[CoreId]] == s1.dependencies;
    }
  }

  /**
   * In a valid project that initiates ktxAssetsAsync and then ktxFreetypeAsync,
   * Core lists ktxAsync, which both require, exactly once.
   */
  lemma SharedPrerequisiteInProject(official: OfficialInitiation, s: State)
    requires LeavesKtxAlone(official) && ValidState(s)
    ensures var s2 := Walk(official, Walk(official, s, Closure(Extension(KtxAssetsAsync))),
                           Closure(Extension(KtxFreetypeAsync)));
      && Count(KtxView(s2), Coordinate(KtxAsync)) == 1
      && CoreId in s2.dependencies && Count(s2.dependencies[CoreId], Coordinate(KtxAsync)) == 1
  {
    var s1 := Walk(official, s, Closure(Extension(KtxAssetsAsync)));
    var s2 := Walk(official, s1, Closure(Extension(KtxFreetypeAsync)));
    WalkKtxView(official, s, Closure(Extension(KtxAssetsAsync)));
    WalkKtxView(official, s1, Closure(Extension(KtxFreetypeAsync)));
    KtxPartNoDuplicates(s.dependencies[CoreId]);
    SharedPrerequisiteOnce(KtxView(s));
    KtxPartCount(s2.dependencies[CoreId], Coordinate(KtxAsync));
  }

  /**
   * In any project, and whatever the official libraries do as long as they
   * leave KTX coordinates alone, initiating an extension whose coordinate Core
   * lacks lists every prerequisite extension's coordinate before its own.
   */
  lemma PrerequisitesFirstInProject(official: OfficialInitiation, s: State, k: Ktx, m: Ktx)
    requires LeavesKtxAlone(official) && CoreId in s.dependencies
    requires Extension(m) in ClosureAll(Deps(Extension(k)), Rank(Extension(k)))
    requires Coordinate(k) !in s.dependencies[CoreId]
    ensures var s1 := Walk(official, s, Closure(Extension(k)));
      CoreId in s1.dependencies && Before(s1.dependencies[CoreId], Coordinate(m), Coordinate(k))
  {
    var s1 := Walk(official, s, Closure(Extension(k)));
    WalkKtxView(official, s, Closure(Extension(k)));
    KtxPartMember(s.dependencies[CoreId], Coordinate(k));
    PrerequisitesFirst(KtxView(s), k, m);
    KtxPartBefore(s1.dependencies[CoreId], Coordinate(m), Coordinate(k));
  }

  /** The walk of two prerequisites, one after the other. */
  lemma TwoPrerequisites(d1: NodeId, d2: NodeId, bound: nat)
    requires Rank(d1) < bound && Rank(d2) < bound
    ensures ClosureAll([d1, d2], bound) == Closure(d1) + Closure(d2)
    ensures KtxCoordinates(ClosureAll([d1, d2], bound)) == Coordinates(d1) + Coordinates(d2)
  {
    assert [d1, d2][1..] == [d2];
    assert ClosureAll([d2], bound) == Closure(d2) + ClosureAll([d2][1..], bound);
    assert [d2][1..] == [];
    assert Closure(d2) + [] == Closure(d2);
    KtxCoordinatesAppend(Closure(d1), Closure(d2));
  }

  /** The walk of a single prerequisite. */
  lemma OnePrerequisite(d: NodeId, bound: nat)
    requires Rank(d) < bound
    ensures ClosureAll([d], bound) == Closure(d)
  {
    assert [d][1..] == [];
    assert Closure(d) + [] == Closure(d);
  }

  /** After its prerequisites, an extension's own registration completes its walk. */
  lemma OwnRegistration(official: OfficialInitiation, s0: State, s1: State, s2: State, k: Ktx)
    requires s1 == Walk(official, s0, ClosureAll(Deps(Extension(k)), Rank(Extension(k))))
    requires CoreId in s1.dependencies
    requires s2 == s1.(dependencies := s1.dependencies[CoreId := Register(s1.dependencies[CoreId], Coordinate(k))])
    ensures s2 == Walk(official, s0, Closure(Extension(k)))
  {
    var pre := ClosureAll(Deps(Extension(k)), Rank(Extension(k)));
    WalkAppend(official, s0, pre, [Extension(k)]);
    assert [Extension(k)][1..] == [];
  }

  /**
   * `initiate`: runs the node's own initiation and records it as finished. The
   * project ends as every node of the walk, prerequisites first, has left it:
   * an official library as its initiation does, an extension by adding its
   * coordinate to Core.
   */
  method Initiate(project: Project, official: OfficialInitiation, n: NodeId)
    requires project.Valid() && KeepsValid(official)
    modifies project
    ensures project.Valid()
    ensures project.Snapshot() == Walk(official, old(project.Snapshot()), Closure(n))
    ensures project.trace == old(project.trace) + Closure(n)
    decreases Rank(n), 2
  {
    match n {
      case Extension(k) =>
        InitiateDependencies(project, official, k);
      case Library(o) =>
        ghost var s0 := project.Snapshot();
        project.Apply(official(o, project.Snapshot()));
        assert Closure(n) == [n];
        assert [n][1..] == [];
        assert Walk(official, s0, [n]) == Walk(official, official(o, s0), []);
    }
    project.trace := project.trace + [n];
  }
  /** `initiateDependencies`, dispatched to the extension's own class. */
  method InitiateDependencies(project: Project, official: OfficialInitiation, k: Ktx)
    requires project.Valid() && KeepsValid(official)
    modifies project
    ensures project.Valid()
    ensures project.Snapshot() == Walk(official, old(project.Snapshot()), Closure(Extension(k)))
    ensures project.trace == old(project.trace) + ClosureAll(Deps(Extension(k)), Rank(Extension(k)))
    decreases Rank(Extension(k)), 1
  {
    match k {
      case KtxAshley => InitiateKtxAshley(project, official);
      case KtxAssetsAsync => InitiateKtxAssetsAsync(project, official);
      case KtxBox2D => InitiateKtxBox2D(project, official);
      case KtxFreetype => InitiateKtxFreetype(project, official);
      case KtxFreetypeAsync => InitiateKtxFreetypeAsync(project, official);
      case _ => InitiateLeaf(project, official, k);
    }
  }

  /** A leaf extension registers its own coordinate in Core and does nothing else. */
  method InitiateLeaf(project: Project, official: OfficialInitiation, k: Ktx)
    requires project.Valid() && KeepsValid(official) && IsLeaf(k)
    modifies project
    ensures project.Valid()
    ensures project.Snapshot() == Walk(official, old(project.Snapshot()), Closure(Extension(k)))
    ensures project.trace == old(project.trace) + ClosureAll(Deps(Extension(k)), Rank(Extension(k)))
    decreases Rank(Extension(k)), 0
  {
    ghost var s0 := project.Snapshot();
    assert Deps(Extension(k)) == [];
    var ok := project.AddDependency(CoreId, Group + ":" + Name(k));
    OwnRegistration(official, s0, s0, project.Snapshot(), k);
  }

  /** ktxAshley: the official Ashley library, then its own coordinate. */
  method InitiateKtxAshley(project: Project, official: OfficialInitiation)
    requires project.Valid() && KeepsValid(official)
    modifies project
    ensures project.Valid()
    ensures project.Snapshot() == Walk(official, old(project.Snapshot()), Closure(Extension(KtxAshley)))
    ensures project.trace == old(project.trace) + ClosureAll(Deps(Extension(KtxAshley)), Rank(Extension(KtxAshley)))
    decreases Rank(Extension(KtxAshley)), 0
  {
    ghost var s0 := project.Snapshot();
    OnePrerequisite(Library(Ashley), Rank(Extension(KtxAshley)));
    Initiate(project, official, Library(Ashley));
    ghost var s1 := project.Snapshot();
    var ok := project.AddDependency(CoreId, Group + ":" + Name(KtxAshley));
    OwnRegistration(official, s0, s1, project.Snapshot(), KtxAshley);
  }

  /** ktxAssetsAsync: ktxAssets, then ktxAsync, then its own coordinate. */
  method InitiateKtxAssetsAsync(project: Project, official: OfficialInitiation)
    requires project.Valid() && KeepsValid(official)
    modifies project
    ensures project.Valid()
    ensures project.Snapshot() == Walk(official, old(project.Snapshot()), Closure(Extension(KtxAssetsAsync)))
    ensures project.trace == old(project.trace) + ClosureAll(Deps(Extension(KtxAssetsAsync)), Rank(Extension(KtxAssetsAsync)))
    decreases Rank(Extension(KtxAssetsAsync)), 0
  {
    ghost var s0 := project.Snapshot();
    TwoPrerequisites(Extension(KtxAssets), Extension(KtxAsync), Rank(Extension(KtxAssetsAsync)));
    Initiate(project, official, Extension(KtxAssets));
    ghost var s1 := project.Snapshot();
    Initiate(project, official, Extension(KtxAsync));
    ghost var s2 := project.Snapshot();
    WalkAppend(official, s0, Closure(Extension(KtxAssets)), Closure(Extension(KtxAsync)));
    var ok := project.AddDependency(CoreId, Group + ":" + Name(KtxAssetsAsync));
    OwnRegistration(official, s0, s2, project.Snapshot(), KtxAssetsAsync);
  }

  /** ktxBox2D: the official Box2D library, then its own coordinate. */
  method InitiateKtxBox2D(project: Project, official: OfficialInitiation)
    requires project.Valid() && KeepsValid(official)
    modifies project
    ensures project.Valid()
    ensures project.Snapshot() == Walk(official, old(project.Snapshot()), Closure(Extension(KtxBox2D)))
    ensures project.trace == old(project.trace) + ClosureAll(Deps(Extension(KtxBox2D)), Rank(Extension(KtxBox2D)))
    decreases Rank(Extension(KtxBox2D)), 0
  {
    ghost var s0 := project.Snapshot();
    OnePrerequisite(Library(Box2D), Rank(Extension(KtxBox2D)));
    Initiate(project, official, Library(Box2D));
    ghost var s1 := project.Snapshot();
    var ok := project.AddDependency(CoreId, Group + ":" + Name(KtxBox2D));
    OwnRegistration(official, s0, s1, project.Snapshot(), KtxBox2D);
  }

  /** ktxFreetype: the official Freetype library, then its own coordinate. */
  method InitiateKtxFreetype(project: Project, official: OfficialInitiation)
    requires project.Valid() && KeepsValid(official)
    modifies project
    ensures project.Valid()
    ensures project.Snapshot() == Walk(official, old(project.Snapshot()), Closure(Extension(KtxFreetype)))
    ensures project.trace == old(project.trace) + ClosureAll(Deps(Extension(KtxFreetype)), Rank(Extension(KtxFreetype)))
    decreases Rank(Extension(KtxFreetype)), 0
  {
    ghost var s0 := project.Snapshot();
    OnePrerequisite(Library(Freetype), Rank(Extension(KtxFreetype)));
    Initiate(project, official, Library(Freetype));
    ghost var s1 := project.Snapshot();
    var ok := project.AddDependency(CoreId, Group + ":" + Name(KtxFreetype));
    OwnRegistration(official, s0, s1, project.Snapshot(), KtxFreetype);
  }

  /** ktxFreetypeAsync: ktxFreetype, then ktxAsync, then its own coordinate. */
  method InitiateKtxFreetypeAsync(project: Project, official: OfficialInitiation)
    requires project.Valid() && KeepsValid(official)
    modifies project
    ensures project.Valid()
    ensures project.Snapshot() == Walk(official, old(project.Snapshot()), Closure(Extension(KtxFreetypeAsync)))
    ensures project.trace == old(project.trace) + ClosureAll(Deps(Extension(KtxFreetypeAsync)), Rank(Extension(KtxFreetypeAsync)))
    decreases Rank(Extension(KtxFreetypeAsync)), 0
  {
    ghost var s0 := project.Snapshot();
    TwoPrerequisites(Extension(KtxFreetype), Extension(KtxAsync), Rank(Extension(KtxFreetypeAsync)));
    Initiate(project, official, Extension(KtxFreetype));
    ghost var s1 := project.Snapshot();
    Initiate(project, official, Extension(KtxAsync));
    ghost var s2 := project.Snapshot();
    WalkAppend(official, s0, Closure(Extension(KtxFreetype)), Closure(Extension(KtxAsync)));
    var ok := project.AddDependency(CoreId, Group + ":" + Name(KtxFreetypeAsync));
    OwnRegistration(official, s0, s2, project.Snapshot(), KtxFreetypeAsync);
  }
}

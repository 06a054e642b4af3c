/**
 * Insertion-ordered collections that ignore repeats, the behaviour of the
 * linked hash set a build file keeps its dependency coordinates in: a
 * registration appends an element only if it is not there yet, so the first
 * registration fixes its position.
 */
module OrderedSets {

  predicate NoDuplicates<T(==)>(s: seq<T>)
  {
    forall i, j :: 0 <= i < j < |s| ==> s[i] != s[j]
  }

  /** `x` occurs in `s` at some position before a position of `y`. */
  predicate Before<T(==)>(s: seq<T>, x: T, y: T)
  {
    exists i, j :: 0 <= i < j < |s| && s[i] == x && s[j] == y
  }

  /** Number of occurrences of `x` in `s`. */
  function Count<T(==)>(s: seq<T>, x: T): nat
  {
    if s == [] then 0 else (if s[0] == x then 1 else 0) + Count(s[1..], x)
  }

  /** Adds `x` at the end unless it is already present. */
  function Register<T(==)>(s: seq<T>, x: T): seq<T>
  {
    if x in s then s else s + [x]
  }

  /** Registers the elements of `xs` one after another, in order. */
  function RegisterAll<T(==)>(s: seq<T>, xs: seq<T>): seq<T>
    decreases xs
  {
    if xs == [] then s else RegisterAll(Register(s, xs[0]), xs[1..])
  }

  /** Registering `a` and then `b` is registering `a + b`. */
  lemma {:induction false} RegisterAllAppend<T>(s: seq<T>, a: seq<T>, b: seq<T>)
    ensures RegisterAll(s, a + b) == RegisterAll(RegisterAll(s, a), b)
    decreases a
  {
    if a == [] {
      assert a + b == b;
    } else {
      assert (a + b)[0] == a[0] && (a + b)[1..] == a[1..] + b;
      RegisterAllAppend(Register(s, a[0]), a[1..], b);
    }
  }

  /**
   * Registration only appends: the old contents stay in place as a prefix,
   * and the result holds exactly the old elements and the registered ones.
   */
  lemma {:induction false} RegisterAllContents<T>(s: seq<T>, xs: seq<T>)
    ensures |RegisterAll(s, xs)| >= |s| && RegisterAll(s, xs)[..|s|] == s
    ensures forall x :: x in RegisterAll(s, xs) <==> x in s || x in xs
    decreases xs
  {
    if xs != [] {
      var s' := Register(s, xs[0]);
      RegisterAllContents(s', xs[1..]);
      assert s'[..|s|] == s;
      assert RegisterAll(s, xs)[..|s|] == RegisterAll(s, xs)[..|s'|][..|s|];
      assert xs == [xs[0]] + xs[1..];
    }
  }

  /** Registration never introduces a repeat. */
  lemma {:induction false} RegisterAllNoDuplicates<T>(s: seq<T>, xs: seq<T>)
    requires NoDuplicates(s)
    ensures NoDuplicates(RegisterAll(s, xs))
    decreases xs
  {
    if xs != [] {
      RegisterAllNoDuplicates(Register(s, xs[0]), xs[1..]);
    }
  }

  /** Registering elements that are new and pairwise distinct appends them all, in order. */
  lemma {:induction false} RegisterAllFresh<T>(s: seq<T>, xs: seq<T>)
    requires NoDuplicates(s + xs)
    ensures RegisterAll(s, xs) == s + xs
    decreases xs
  {
    if xs != [] {
      assert xs[0] == (s + xs)[|s|];
      assert xs[0] !in s by {
        forall i | 0 <= i < |s| ensures s[i] != xs[0] {
          assert s[i] == (s + xs)[i];
        }
      }
      assert s + xs == (s + [xs[0]]) + xs[1..];
      RegisterAllFresh(s + [xs[0]], xs[1..]);
    }
  }

  /** Registering elements that are all present already changes nothing. */
  lemma {:induction false} RegisterAllPresent<T>(s: seq<T>, xs: seq<T>)
    requires forall x :: x in xs ==> x in s
    ensures RegisterAll(s, xs) == s
  {
    if xs != [] {
      assert xs[0] in xs;
      RegisterAllPresent(s, xs[1..]);
    }
  }

  /** Registering the same elements a second time changes nothing. */
  lemma RegisterAllIdempotent<T>(s: seq<T>, xs: seq<T>)
    ensures RegisterAll(RegisterAll(s, xs), xs) == RegisterAll(s, xs)
  {
    RegisterAllContents(s, xs);
    RegisterAllPresent(RegisterAll(s, xs), xs);
  }

  /**
   * When `y` is absent from both `s` and `xs`, registering `xs` and then `y`
   * puts every element of `s` and `xs` before `y`.
   */
  lemma RegisteredBefore<T>(s: seq<T>, xs: seq<T>, x: T, y: T)
    requires x in s || x in xs
    requires y !in s && y !in xs
    ensures Before(RegisterAll(s, xs + [y]), x, y)
  {
    var t := RegisterAll(s, xs);
    RegisterAllAppend(s, xs, [y]);
    RegisterAllContents(s, xs);
    assert RegisterAll(t, [y]) == RegisterAll(Register(t, y), []);
    assert RegisterAll(s, xs + [y]) == t + [y];
    var i :| 0 <= i < |t| && t[i] == x;
    assert (t + [y])[i] == x && (t + [y])[|t|] == y;
  }

  /** Two repeat-free sequences with no element in common concatenate to a repeat-free one. */
  lemma NoDuplicatesConcat<T>(s: seq<T>, t: seq<T>)
    requires NoDuplicates(s) && NoDuplicates(t)
    requires forall x :: x in t ==> x !in s
    ensures NoDuplicates(s + t)
  {
    forall i, j | 0 <= i < j < |s + t| ensures (s + t)[i] != (s + t)[j] {
      if j < |s| {
        assert (s + t)[i] == s[i] && (s + t)[j] == s[j];
      } else if i >= |s| {
        assert (s + t)[i] == t[i - |s|] && (s + t)[j] == t[j - |s|];
      } else {
        assert (s + t)[i] == s[i] && (s + t)[j] == t[j - |s|];
        assert t[j - |s|] in t;
      }
    }
  }

  /**
   * An element registered by either of two registrations into a repeat-free
   * list occurs exactly once afterwards.
   */
  lemma RegisteredOnce<T>(s: seq<T>, a: seq<T>, b: seq<T>, x: T)
    requires NoDuplicates(s)
    requires x in a || x in b
    ensures Count(RegisterAll(RegisterAll(s, a), b), x) == 1
  {
    RegisterAllNoDuplicates(s, a);
    RegisterAllNoDuplicates(RegisterAll(s, a), b);
    RegisterAllContents(s, a);
    RegisterAllContents(RegisterAll(s, a), b);
    CountNoDuplicates(RegisterAll(RegisterAll(s, a), b), x);
  }

  /** In a sequence without repeats, a present element occurs exactly once. */
  lemma {:induction false} CountNoDuplicates<T>(s: seq<T>, x: T)
    requires NoDuplicates(s)
    ensures Count(s, x) == if x in s then 1 else 0
  {
    if s != [] {
      assert NoDuplicates(s[1..]) by {
        forall i, j | 0 <= i < j < |s[1..]| ensures s[1..][i] != s[1..][j] {
          assert s[1..][i] == s[i + 1] && s[1..][j] == s[j + 1];
        }
      }
      CountNoDuplicates(s[1..], x);
      assert s == [s[0]] + s[1..];
      if s[0] == x {
        assert x !in s[1..] by {
          forall j | 0 <= j < |s[1..]| ensures s[1..][j] != x {
            assert s[1..][j] == s[j + 1];
          }
        }
      }
    }
  }
}

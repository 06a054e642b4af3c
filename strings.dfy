/**
 * String helpers the KTX catalog and the version lookup rely on: the
 * camel-case to kebab-case renaming that turns an extension id into its
 * artifact name, the whitespace trimming applied to the fetched version, and
 * splitting at the first separator, used to read back `group:name`
 * coordinates and `platform:task` keys.
 */
module Strings {
  import opened Wrappers

  predicate IsUpper(c: char) { 'A' <= c <= 'Z' }

  predicate IsLower(c: char) { 'a' <= c <= 'z' }

  function ToLower(c: char): (l: char)
    requires IsUpper(c)
    ensures IsLower(l)
  {
    (c as int + 32) as char
  }

  function ToUpper(c: char): (u: char)
    requires IsLower(c)
    ensures IsUpper(u) && ToLower(u) == c
  {
    (c as int - 32) as char
  }

  /** What one character becomes: an upper-case letter turns into '-' and its lower-case form. */
  function Piece(c: char): string
  {
    if IsUpper(c) then ['-', ToLower(c)] else [c]
  }

  /** The strings of `xs`, one after another. */
  function Flatten(xs: seq<string>): string
  {
    if xs == [] then [] else xs[0] + Flatten(xs[1..])
  }

  /** Renames camel case to kebab case: each character replaced by its piece. */
  function KebabCase(s: string): string
  {
    Flatten(seq(|s|, i requires 0 <= i < |s| => Piece(s[i])))
  }

  lemma KebabCaseCons(s: string)
    requires s != []
    ensures KebabCase(s) == Piece(s[0]) + KebabCase(s[1..])
  {
    var pieces := seq(|s|, i requires 0 <= i < |s| => Piece(s[i]));
    assert pieces[1..] == seq(|s[1..]|, i requires 0 <= i < |s[1..]| => Piece(s[1..][i]));
  }

  /** The inverse renaming: '-' followed by a lower-case letter becomes that letter in upper case. */
  function CamelCase(s: string): string
  {
    if s == [] then []
    else if |s| >= 2 && s[0] == '-' && IsLower(s[1]) then [ToUpper(s[1])] + CamelCase(s[2..])
    else [s[0]] + CamelCase(s[1..])
  }

  /** On a string without hyphens, camel-casing undoes kebab-casing. */
  lemma {:induction false} CamelKebabRoundTrip(s: string)
    requires '-' !in s
    ensures CamelCase(KebabCase(s)) == s
  {
    if s == [] {
      assert KebabCase(s) == [];
    } else {
      assert s == [s[0]] + s[1..];
      CamelKebabRoundTrip(s[1..]);
      KebabCaseCons(s);
      var rest := KebabCase(s[1..]);
      if IsUpper(s[0]) {
        var k := ['-', ToLower(s[0])] + rest;
        assert k[0] == '-' && k[1] == ToLower(s[0]) && k[2..] == rest;
      } else {
        var k := [s[0]] + rest;
        assert k[0] == s[0] && k[1..] == rest;
      }
    }
  }

  /** Distinct hyphen-free strings have distinct kebab-case forms. */
  lemma KebabCaseInjective(a: string, b: string)
    requires '-' !in a && '-' !in b
    requires KebabCase(a) == KebabCase(b)
    ensures a == b
  {
    CamelKebabRoundTrip(a);
    CamelKebabRoundTrip(b);
  }

  /**
   * The characters Java's `Character.isWhitespace` accepts in the ASCII range:
   * U+0009 to U+000D, U+001C to U+001F and the space.
   */
  predicate IsWhitespace(c: char)
  {
    c == ' ' || (9 <= c as int <= 13) || (28 <= c as int <= 31)
  }

  /** Drops the leading whitespace: the result is a suffix of `s` that does not start with whitespace. */
  function TrimStart(s: string): (r: string)
    ensures |r| <= |s| && r == s[|s| - |r|..]
    ensures forall i :: 0 <= i < |s| - |r| ==> IsWhitespace(s[i])
    ensures r == [] || !IsWhitespace(r[0])
  {
    if s != [] && IsWhitespace(s[0]) then TrimStart(s[1..]) else s
  }

  /** Drops the trailing whitespace: the result is a prefix of `s` that does not end with whitespace. */
  function TrimEnd(s: string): (r: string)
    ensures |r| <= |s| && r == s[..|r|]
    ensures forall i :: |r| <= i < |s| ==> IsWhitespace(s[i])
    ensures r == [] || !IsWhitespace(r[|r| - 1])
  {
    if s != [] && IsWhitespace(s[|s| - 1]) then TrimEnd(s[..|s| - 1]) else s
  }

  /**
   * Kotlin's `String.trim()`: the longest slice of `s` that neither starts
   * nor ends with whitespace, everything cut away on either side being whitespace.
   */
  function Trim(s: string): (r: string)
    ensures |r| <= |s|
    ensures IsSliceAt(s, |s| - |TrimStart(s)|, r)
    ensures forall k :: 0 <= k < |s| - |TrimStart(s)| ==> IsWhitespace(s[k])
    ensures forall k :: |s| - |TrimStart(s)| + |r| <= k < |s| ==> IsWhitespace(s[k])
    ensures r == [] || (!IsWhitespace(r[0]) && !IsWhitespace(r[|r| - 1]))
  {
    var t := TrimStart(s);
    var r := TrimEnd(t);
    TrimBothEnds(s, t, r);
    r
  }

  /** Cutting the whitespace from the front of `s`, giving `t`, and then from the back of `t`, giving `r`. */
  lemma TrimBothEnds(s: string, t: string, r: string)
    requires |t| <= |s| && t == s[|s| - |t|..]
    requires forall i :: 0 <= i < |s| - |t| ==> IsWhitespace(s[i])
    requires t == [] || !IsWhitespace(t[0])
    requires |r| <= |t| && r == t[..|r|]
    requires forall i :: |r| <= i < |t| ==> IsWhitespace(t[i])
    requires r == [] || !IsWhitespace(r[|r| - 1])
    ensures IsSliceAt(s, |s| - |t|, r)
    ensures forall k :: |s| - |t| + |r| <= k < |s| ==> IsWhitespace(s[k])
    ensures r == [] || (!IsWhitespace(r[0]) && !IsWhitespace(r[|r| - 1]))
  {
    PrefixOfSuffix(s, |s| - |t|, t, r);
    if r != [] {
      assert r[0] == t[0];
    }
  }

  /** `r` occurs in `s` starting at position `i`. */
  predicate IsSliceAt(s: string, i: int, r: string)
  {
    0 <= i && i + |r| <= |s| && s[i..i + |r|] == r
  }

  /** A prefix `r` of the suffix `t` of `s` that starts at `i` is a slice of `s` at `i`. */
  lemma PrefixOfSuffix(s: string, i: int, t: string, r: string)
    requires 0 <= i <= |s| && t == s[i..] && |r| <= |t| && r == t[..|r|]
    requires forall k :: |r| <= k < |t| ==> IsWhitespace(t[k])
    ensures IsSliceAt(s, i, r)
    ensures forall k :: i + |r| <= k < |s| ==> IsWhitespace(s[k])
  {
    assert s[i..][..|r|] == s[i..i + |r|];
    forall k | i + |r| <= k < |s| ensures IsWhitespace(s[k]) {
      assert s[k] == t[k - i];
    }
  }

  /** Trimming a trimmed string changes nothing. */
  lemma TrimIdempotent(s: string)
    ensures Trim(Trim(s)) == Trim(s)
  {
    var r := Trim(s);
    assert TrimStart(r) == r;
    assert TrimEnd(r) == r;
  }

  /**
   * Splits `s` at the first occurrence of `sep`: the part before it, which
   * holds no `sep`, and the part after it; `None` when `sep` does not occur.
   */
  function SplitFirst(s: string, sep: char): (r: Option<(string, string)>)
    ensures r.None? <==> sep !in s
    ensures r.Some? ==> sep !in r.value.0 && s == r.value.0 + [sep] + r.value.1
  {
    if s == [] then None
    else if s[0] == sep then Some(([], s[1..]))
    else match SplitFirst(s[1..], sep)
      case None => None
      case Some((a, b)) => Some(([s[0]] + a, b))
  }

  /** Joining two parts with a separator that the first part lacks is undone by `SplitFirst`. */
  lemma {:induction false} SplitFirstJoin(a: string, sep: char, b: string)
    requires sep !in a
    ensures SplitFirst(a + [sep] + b, sep) == Some((a, b))
  {
    var s := a + [sep] + b;
    if a == [] {
      assert s[0] == sep && s[1..] == b;
    } else {
      assert s[0] == a[0] && s[1..] == a[1..] + [sep] + b;
      SplitFirstJoin(a[1..], sep, b);
      assert [a[0]] + a[1..] == a;
    }
  }
}

/**
 * The part of Ruby's `Pathname` that `make_relative_paths` relies on:
 * splitting a path into names, `cleanpath` (dropping "." and folding
 * "name/.."), and `relative_path_from`, which answers "how is directory
 * `dest` reached by a relative path starting from directory `base`".
 */
module Pathnames {
  import opened Outcomes
  import opened RubyFile

  /** The ways `relative_path_from` can raise on paths of the same kind. */
  datatype PathError =
    /** After the common leading names, `base` still climbs with "..": the way back down is unknown. */
    | BaseHasParent

  /** A single path component: non-empty and free of separators. */
  predicate IsName(s: string) {
    s != [] && '/' !in s
  }

  predicate IsAbsolute(p: string) {
    |p| > 0 && p[0] == '/'
  }

  /** The position of the first `c` in `s`, or `|s|` when there is none. */
  function FirstIndexOf(s: string, c: char): (k: nat)
    ensures k <= |s|
    ensures c !in s[..k]
    ensures k < |s| ==> s[k] == c
  {
    if s == [] || s[0] == c then 0 else 1 + FirstIndexOf(s[1..], c)
  }

  /** The names of `p`, left to right; repeated, leading and trailing separators give none. */
  function Segments(p: string): (r: seq<string>)
    ensures forall i :: 0 <= i < |r| ==> IsName(r[i])
    decreases |p|
  {
    if p == [] then []
    else if p[0] == '/' then Segments(p[1..])
    else
      var k := FirstIndexOf(p, '/');
      [p[..k]] + Segments(p[k..])
  }

  /** `File.join(*names)`: the names joined left to right. */
  function JoinAll(names: seq<string>): string
  {
    if |names| == 0 then ""
    else if |names| == 1 then names[0]
    else Join(JoinAll(names[..|names| - 1]), names[|names| - 1])
  }

  /** `n` ".." names in a row. */
  function Parents(n: nat): (r: seq<string>)
    ensures |r| == n && forall i :: 0 <= i < n ==> r[i] == ".."
  {
    seq(n, _ => "..")
  }

  /**
   * One step of `cleanpath`: "." is dropped, ".." removes the name before
   * it, and a ".." with nothing to remove is kept in a relative path and
   * dropped at the root of an absolute one.
   */
  function Step(names: seq<string>, x: string, absolute: bool): seq<string>
  {
    if x == "." then names
    else if x == ".." then
      if |names| > 0 && names[|names| - 1] != ".." then names[..|names| - 1]
      else if absolute then names
      else names + [".."]
    else names + [x]
  }

  function Fold(names: seq<string>, xs: seq<string>, absolute: bool): seq<string>
    decreases |xs|
  {
    if xs == [] then names else Fold(Step(names, xs[0], absolute), xs[1..], absolute)
  }

  /** `cleanpath`, on the names of a path. */
  function Clean(xs: seq<string>, absolute: bool): (r: seq<string>)
    requires forall i :: 0 <= i < |xs| ==> IsName(xs[i])
    ensures Canonical(r, absolute)
  {
    FoldKeepsCanonical([], xs, absolute);
    Fold([], xs, absolute)
  }

  /**
   * The shape of a clean path: names only, no ".", every ".." ahead of
   * every other name, and no ".." at all in an absolute path.
   */
  predicate Canonical(names: seq<string>, absolute: bool) {
    && (forall i :: 0 <= i < |names| ==> IsName(names[i]) && names[i] != ".")
    && (forall i, j :: 0 <= j < i < |names| && names[i] == ".." ==> names[j] == "..")
    && (absolute ==> ".." !in names)
  }

  /** How many leading names `d` and `b` share. */
  function CommonPrefixLength(d: seq<string>, b: seq<string>): (k: nat)
    ensures k <= |d| && k <= |b|
    ensures d[..k] == b[..k]
    ensures k == |d| || k == |b| || d[k] != b[k]
  {
    if d == [] || b == [] || d[0] != b[0] then 0
    else
      var k := CommonPrefixLength(d[1..], b[1..]);
      assert d[..k + 1] == [d[0]] + d[1..][..k];
      assert b[..k + 1] == [b[0]] + b[1..][..k];
      k + 1
  }

  /**
   * The names of the relative path from clean `b` to clean `d`: their
   * common leading names dropped, every name left in `b` turned into "..",
   * then what is left of `d`.
   */
  function RelativeNames(d: seq<string>, b: seq<string>): Result<seq<string>, PathError>
  {
    var k := CommonPrefixLength(d, b);
    if ".." in b[k..] then Err(BaseHasParent) else Ok(Parents(|b| - k) + d[k..])
  }

  /** A `Pathname` built from names: "." for none. */
  function NamesToPath(names: seq<string>): string
  {
    if names == [] then "." else JoinAll(names)
  }

  /**
   * `Pathname.new(dest).relative_path_from(Pathname.new(base))`, as a
   * string. Mixing an absolute and a relative path raises in Ruby and is
   * excluded here.
   */
  function RelativePathFrom(dest: string, base: string): Result<string, PathError>
    requires IsAbsolute(dest) == IsAbsolute(base)
  {
    var absolute := IsAbsolute(base);
    match RelativeNames(Clean(Segments(dest), absolute), Clean(Segments(base), absolute))
    case Ok(names) => Ok(NamesToPath(names))
    case Err(e) => Err(e)
  }

  /**
   * The directory reached by following `rel` from `base`
   * (`(Pathname.new(base) + rel).cleanpath`), as names.
   */
  function Resolve(base: string, rel: string): seq<string>
  {
    if IsAbsolute(rel) then Clean(Segments(rel), true)
    else Clean(Segments(base) + Segments(rel), IsAbsolute(base))
  }

  // ---------------------------------------------------------------------
  // Lemmas about names and joins

  lemma {:induction false} FirstIndexOfIsFirst(s: string, c: char, k: nat)
    requires k <= |s| && c !in s[..k] && (k < |s| ==> s[k] == c)
    ensures FirstIndexOf(s, c) == k
  {
    if s == [] {
    } else if s[0] == c {
    } else {
      assert k > 0;
      assert s[1..][..k - 1] == s[1..k];
      FirstIndexOfIsFirst(s[1..], c, k - 1);
    }
  }

  /** A plain name is its own single segment. */
  lemma SegmentsOfName(n: string)
    requires IsName(n)
    ensures Segments(n) == [n]
  {
    FirstIndexOfIsFirst(n, '/', |n|);
    assert n[..|n|] == n;
  }

  /** Splitting distributes over a concatenation that meets at a separator. */
  lemma {:induction false} SegmentsAppend(x: string, y: string)
    requires x == [] || x[|x| - 1] == '/' || (y != [] && y[0] == '/')
    ensures Segments(x + y) == Segments(x) + Segments(y)
    decreases |x|
  {
    if x == [] {
      assert x + y == y;
    } else if x[0] == '/' {
      assert (x + y)[1..] == x[1..] + y;
      SegmentsAppend(x[1..], y);
    } else {
      var k := FirstIndexOf(x, '/');
      if k < |x| {
        SegmentsFirstName(x, y, k);
        SegmentsAppend(x[k..], y);
      } else {
        SegmentsLastName(x, y);
      }
    }
  }

  /** A first name of `x` that ends at a separator is also the first name of `x + y`. */
  lemma SegmentsFirstName(x: string, y: string, k: nat)
    requires x != [] && x[0] != '/'
    requires k == FirstIndexOf(x, '/') && k < |x|
    ensures Segments(x) == [x[..k]] + Segments(x[k..])
    ensures Segments(x + y) == [x[..k]] + Segments(x[k..] + y)
  {
    assert (x + y)[..k] == x[..k];
    FirstIndexOfIsFirst(x + y, '/', k);
    assert (x + y)[k..] == x[k..] + y;
  }

  /** A name without separators followed by a path that starts with one. */
  lemma SegmentsLastName(x: string, y: string)
    requires x != [] && x[0] != '/'
    requires FirstIndexOf(x, '/') == |x|
    requires y != [] && y[0] == '/'
    ensures Segments(x + y) == Segments(x) + Segments(y)
  {
    var k := |x|;
    assert (x + y)[..k] == x;
    FirstIndexOfIsFirst(x + y, '/', k);
    assert (x + y)[k..] == y;
    assert x[..k] == x;
    assert x[k..] == [];
  }

  /** Separators at the end of a path add no names. */
  lemma SegmentsOfStripped(a: string)
    ensures Segments(StripTrailingSlashes(a)) == Segments(a)
  {
    var q := StripTrailingSlashes(a);
    StripTrailingSlashesShape(a);
    var tail := a[|q|..];
    assert a == q + tail;
    if tail != [] {
      assert tail[0] == '/';
      SegmentsAppend(q, tail);
      SlashesHaveNoSegments(tail);
    }
  }

  lemma {:induction false} SlashesHaveNoSegments(s: string)
    requires AllSlashes(s)
    ensures Segments(s) == []
    decreases |s|
  {
    if s != [] {
      SlashesHaveNoSegments(s[1..]);
    }
  }

  /** The names of `File.join(a, b)` are those of `a` followed by those of `b`. */
  lemma SegmentsOfJoin(a: string, b: string)
    ensures Segments(Join(a, b)) == Segments(a) + Segments(b)
  {
    if |b| > 0 && b[0] == '/' {
      assert Join(a, b) == StripTrailingSlashes(a) + b;
      SegmentsAppend(StripTrailingSlashes(a), b);
      SegmentsOfStripped(a);
    } else if |a| > 0 && a[|a| - 1] == '/' {
      assert Join(a, b) == a + b;
      SegmentsAppend(a, b);
    } else {
      assert Join(a, b) == (a + "/") + b;
      SegmentsWithSeparator(a, b);
    }
  }

  lemma SegmentsWithSeparator(a: string, b: string)
    ensures Segments((a + "/") + b) == Segments(a) + Segments(b)
  {
    SegmentsAppend(a + "/", b);
    SegmentsAppend(a, "/");
    SlashesHaveNoSegments("/");
  }

  /** Joining names and splitting the result gives the names back. */
  lemma {:induction false} SegmentsOfJoinAll(names: seq<string>)
    requires forall i :: 0 <= i < |names| ==> IsName(names[i])
    ensures Segments(JoinAll(names)) == names
  {
    if |names| == 1 {
      SegmentsOfName(names[0]);
    } else if |names| > 1 {
      var init := names[..|names| - 1];
      var last := names[|names| - 1];
      calc {
        Segments(JoinAll(names));
        Segments(Join(JoinAll(init), last));
        { SegmentsOfJoin(JoinAll(init), last); }
        Segments(JoinAll(init)) + Segments(last);
        { SegmentsOfJoinAll(init); SegmentsOfName(last); }
        init + [last];
      }
      assert names == init + [last];
    }
  }

  /** A join of names starts with the first name, so it is a relative path. */
  lemma {:induction false} JoinAllIsRelative(names: seq<string>)
    requires |names| > 0
    requires forall i :: 0 <= i < |names| ==> IsName(names[i])
    ensures |JoinAll(names)| > 0 && JoinAll(names)[0] != '/'
    ensures JoinAll(names)[|JoinAll(names)| - 1] != '/'
  {
    var last := names[|names| - 1];
    assert last[|last| - 1] in last;
    if |names| == 1 {
      assert last[0] in last;
    } else {
      var init := names[..|names| - 1];
      JoinAllIsRelative(init);
      var r := JoinAll(names);
      assert StripTrailingSlashes(JoinAll(init)) == JoinAll(init);
      assert r[..|JoinAll(init)|] == JoinAll(init);
      assert r[0] == JoinAll(init)[0];
      assert r[|r| - 1] == last[|last| - 1];
    }
  }

  // ---------------------------------------------------------------------
  // Lemmas about cleanpath

  lemma {:induction false} FoldAppend(names: seq<string>, a: seq<string>, b: seq<string>, absolute: bool)
    ensures Fold(names, a + b, absolute) == Fold(Fold(names, a, absolute), b, absolute)
    decreases |a|
  {
    if a == [] {
      assert a + b == b;
    } else {
      assert (a + b)[0] == a[0];
      assert (a + b)[1..] == a[1..] + b;
      FoldAppend(Step(names, a[0], absolute), a[1..], b, absolute);
    }
  }

  lemma StepKeepsCanonical(names: seq<string>, x: string, absolute: bool)
    requires Canonical(names, absolute) && IsName(x)
    ensures Canonical(Step(names, x, absolute), absolute)
  {
    if x == ".." && |names| > 0 && names[|names| - 1] == ".." {
      assert forall j :: 0 <= j < |names| ==> names[j] == "..";
    }
  }

  lemma {:induction false} FoldKeepsCanonical(names: seq<string>, xs: seq<string>, absolute: bool)
    requires Canonical(names, absolute)
    requires forall i :: 0 <= i < |xs| ==> IsName(xs[i])
    ensures Canonical(Fold(names, xs, absolute), absolute)
    decreases |xs|
  {
    if xs != [] {
      StepKeepsCanonical(names, xs[0], absolute);
      FoldKeepsCanonical(Step(names, xs[0], absolute), xs[1..], absolute);
    }
  }

  /** Cleaning a path that is already clean changes nothing. */
  lemma {:induction false} FoldCanonical(prefix: seq<string>, rest: seq<string>, absolute: bool)
    requires Canonical(prefix + rest, absolute)
    ensures Fold(prefix, rest, absolute) == prefix + rest
    decreases |rest|
  {
    if rest != [] {
      var all := prefix + rest;
      assert all[|prefix|] == rest[0];
      if rest[0] == ".." {
        assert forall j :: 0 <= j < |prefix| ==> prefix[j] == all[j] == "..";
      }
      assert Step(prefix, rest[0], absolute) == prefix + [rest[0]];
      assert (prefix + [rest[0]]) + rest[1..] == all;
      FoldCanonical(prefix + [rest[0]], rest[1..], absolute);
    }
  }

  /** Climbing with one ".." per trailing name leads back to where those names began. */
  lemma {:induction false} ClimbBack(prefix: seq<string>, tail: seq<string>, absolute: bool)
    requires Canonical(prefix + tail, absolute)
    requires ".." !in tail
    ensures Fold(prefix + tail, Parents(|tail|), absolute) == prefix
    decreases |tail|
  {
    if tail != [] {
      var n := |tail|;
      var all := prefix + tail;
      assert all[|all| - 1] == tail[n - 1];
      assert tail[n - 1] in tail;
      var shorter := tail[..n - 1];
      assert Step(all, "..", absolute) == prefix + shorter;
      assert Parents(n)[1..] == Parents(n - 1);
      assert ".." !in shorter by {
        assert forall i :: 0 <= i < |shorter| ==> shorter[i] == tail[i];
      }
      assert Canonical(prefix + shorter, absolute) by {
        assert prefix + shorter == all[..|all| - 1];
      }
      ClimbBack(prefix, shorter, absolute);
    }
  }

  // ---------------------------------------------------------------------
  // What relative_path_from promises

  /** The path built from names is relative, and splitting it gives the names back ("." for none). */
  lemma NamesToPathShape(names: seq<string>)
    requires forall i :: 0 <= i < |names| ==> IsName(names[i])
    ensures |NamesToPath(names)| > 0 && NamesToPath(names)[0] != '/'
    ensures Segments(NamesToPath(names)) == if names == [] then ["."] else names
  {
    if names == [] {
      SegmentsOfName(".");
    } else {
      JoinAllIsRelative(names);
      SegmentsOfJoinAll(names);
    }
  }

  /** `relative_path_from` never returns an absolute path. */
  lemma RelativePathIsRelative(dest: string, base: string)
    requires IsAbsolute(dest) == IsAbsolute(base)
    requires RelativePathFrom(dest, base).Ok?
    ensures |RelativePathFrom(dest, base).value| > 0
    ensures RelativePathFrom(dest, base).value[0] != '/'
  {
    var absolute := IsAbsolute(base);
    var d := Clean(Segments(dest), absolute);
    var b := Clean(Segments(base), absolute);
    var names := RelativeNames(d, b).value;
    ClimbThenDescend(d, b, absolute);
    NamesToPathShape(names);
  }

  /**
   * Following the relative path from `base` reaches `dest`: the cleaned
   * names of `base` joined with the result clean to the names of `dest`.
   */
  lemma RelativePathResolves(dest: string, base: string)
    requires IsAbsolute(dest) == IsAbsolute(base)
    requires RelativePathFrom(dest, base).Ok?
    ensures Resolve(base, RelativePathFrom(dest, base).value) == Clean(Segments(dest), IsAbsolute(dest))
  {
    var absolute := IsAbsolute(base);
    var d := Clean(Segments(dest), absolute);
    var b := Clean(Segments(base), absolute);
    var names := RelativeNames(d, b).value;
    var rel := NamesToPath(names);
    assert RelativePathFrom(dest, base).value == rel;
    ClimbThenDescend(d, b, absolute);
    NamesToPathShape(names);
    ResolveFromClean(base, rel);
  }

  /** Following a relative path continues cleaning from the clean names of `base`. */
  lemma ResolveFromClean(base: string, rel: string)
    requires !IsAbsolute(rel)
    ensures Resolve(base, rel) == Fold(Clean(Segments(base), IsAbsolute(base)), Segments(rel), IsAbsolute(base))
  {
    FoldAppend([], Segments(base), Segments(rel), IsAbsolute(base));
  }

  /**
   * On clean names: from `b`, climbing out of the names it does not share
   * with `d` and then descending into the rest of `d` ends at `d`.
   */
  lemma ClimbThenDescend(d: seq<string>, b: seq<string>, absolute: bool)
    requires Canonical(d, absolute) && Canonical(b, absolute)
    requires RelativeNames(d, b).Ok?
    ensures var names := RelativeNames(d, b).value;
      && (forall i :: 0 <= i < |names| ==> IsName(names[i]))
      && Fold(b, if names == [] then ["."] else names, absolute) == d
  {
    var k := CommonPrefixLength(d, b);
    var names := Parents(|b| - k) + d[k..];
    assert RelativeNames(d, b).value == names;
    ClimbNamesAreNames(d, k, |b| - k);
    if names == [] {
      assert b == b[..k] && d == d[..k];
      DotStaysPut(b, absolute);
    } else {
      ClimbThenDescendNames(d, b, k, absolute);
    }
  }

  /** Parents followed by names of a clean path are all names. */
  lemma ClimbNamesAreNames(d: seq<string>, k: nat, n: nat)
    requires k <= |d|
    requires forall i :: 0 <= i < |d| ==> IsName(d[i])
    ensures forall i :: 0 <= i < |Parents(n) + d[k..]| ==> IsName((Parents(n) + d[k..])[i])
  {
    assert forall i :: 0 <= i < |d[k..]| ==> d[k..][i] == d[k + i];
  }

  /** Cleaning in "." changes nothing. */
  lemma DotStaysPut(b: seq<string>, absolute: bool)
    ensures Fold(b, ["."], absolute) == b
  {
    assert ["."][1..] == [];
  }

  lemma ClimbThenDescendNames(d: seq<string>, b: seq<string>, k: nat, absolute: bool)
    requires Canonical(d, absolute) && Canonical(b, absolute)
    requires k <= |d| && k <= |b| && d[..k] == b[..k]
    requires ".." !in b[k..]
    ensures Fold(b, Parents(|b| - k) + d[k..], absolute) == d
  {
    assert b == d[..k] + b[k..];
    assert d == d[..k] + d[k..];
    FoldAppend(b, Parents(|b| - k), d[k..], absolute);
    ClimbBack(d[..k], b[k..], absolute);
    FoldCanonical(d[..k], d[k..], absolute);
  }

  /** Between two absolute paths, `relative_path_from` always succeeds. */
  lemma AbsolutePathsNeverFail(dest: string, base: string)
    requires IsAbsolute(dest) && IsAbsolute(base)
    ensures RelativePathFrom(dest, base).Ok?
  {
  }

  /** A directory is reached from itself by ".". */
  lemma SameDirectoryIsDot(p: string)
    ensures RelativePathFrom(p, p) == Ok(".")
  {
  }

  /** A plain name under an absolute directory of one name splits into those two names. */
  lemma NamesOfNested(root: string, x: string)
    requires IsName(root) && IsName(x)
    ensures Segments("/" + root + "/" + x) == [root, x]
  {
    assert ("/" + root)[1..] == root;
    SegmentsOfName(root);
    assert Segments("/" + root) == [root];
    SegmentsWithSeparator("/" + root, x);
    SegmentsOfName(x);
  }

  /** Two names that are neither "." nor ".." are already clean. */
  lemma CleanPair(a: string, b: string, absolute: bool)
    requires IsName(a) && a != "." && a != ".."
    requires IsName(b) && b != "." && b != ".."
    ensures Clean([a, b], absolute) == [a, b]
  {
    assert [] + [a, b] == [a, b];
    FoldCanonical([], [a, b], absolute);
  }

  lemma SiblingNames(root: string, x: string, y: string)
    requires y != ".." && x != y
    ensures RelativeNames([root, x], [root, y]) == Ok(["..", x])
  {
    var d, b := [root, x], [root, y];
    assert d[1..] == [x] && b[1..] == [y];
    assert CommonPrefixLength(d, b) == 1;
    assert ".." !in b[1..];
    assert Parents(1) == [".."];
    assert Parents(1) + d[1..] == ["..", x];
  }

  /**
   * Between two sibling directories `/root/x` and `/root/y`, the relative
   * path climbs one level and descends into the other: "../x".
   */
  lemma SiblingDirectories(root: string, x: string, y: string)
    requires IsName(root) && root != "." && root != ".."
    requires IsName(x) && x != "." && x != ".."
    requires IsName(y) && y != "." && y != ".."
    requires x != y
    ensures RelativePathFrom("/" + root + "/" + x, "/" + root + "/" + y) == Ok("../" + x)
  {
    NamesOfNested(root, x);
    NamesOfNested(root, y);
    CleanPair(root, x, true);
    CleanPair(root, y, true);
    SiblingNames(root, x, y);
    assert JoinAll(["..", x]) == Join("..", x) by {
      assert ["..", x][..1] == [".."];
    }
    assert x[0] in x;
    assert Join("..", x) == "../" + x;
  }
}

/**
 * The three `File` class methods the template generator uses on path
 * strings: `File.basename`, `File.extname` and `File.join`, with '/' as
 * the only separator (POSIX behaviour).
 */
module RubyFile {

  /** True when every character of `s` is a separator. */
  predicate AllSlashes(s: string) {
    forall i :: 0 <= i < |s| ==> s[i] == '/'
  }

  /** True when `suffix` is a tail of `s`. */
  predicate EndsWith(s: string, suffix: string) {
    |suffix| <= |s| && s[|s| - |suffix|..] == suffix
  }

  /** `s` with its trailing separators removed. */
  function StripTrailingSlashes(s: string): (r: string)
    ensures |r| <= |s|
  {
    if |s| > 0 && s[|s| - 1] == '/' then StripTrailingSlashes(s[..|s| - 1]) else s
  }

  /** What is removed is a run of separators at the end, and nothing before it ends in one. */
  lemma {:induction false} StripTrailingSlashesShape(s: string)
    ensures var r := StripTrailingSlashes(s);
      && r <= s
      && (r == [] || r[|r| - 1] != '/')
      && AllSlashes(s[|r|..])
  {
    if |s| > 0 && s[|s| - 1] == '/' {
      var init := s[..|s| - 1];
      StripTrailingSlashesShape(init);
      var r := StripTrailingSlashes(init);
      assert s[|r|..] == init[|r|..] + [s[|s| - 1]];
    }
  }

  /** The part of `s` after the last occurrence of `c` (all of `s` when `c` does not occur). */
  function AfterLast(s: string, c: char): (r: string)
    ensures |r| <= |s|
  {
    if s == [] then []
    else if s[|s| - 1] == c then []
    else AfterLast(s[..|s| - 1], c) + [s[|s| - 1]]
  }

  /** The result is a tail of `s` free of `c`, preceded in `s` by a `c` unless it is all of `s`. */
  lemma {:induction false} AfterLastShape(s: string, c: char)
    ensures var r := AfterLast(s, c);
      && c !in r
      && EndsWith(s, r)
      && (|r| < |s| ==> s[|s| - |r| - 1] == c)
      && (|s| > 0 && s[|s| - 1] != c ==> r != [])
  {
    AfterLastTail(s, c);
    AfterLastBoundary(s, c);
    if |s| > 0 && s[|s| - 1] != c {
      AfterLastNonEmpty(s, c);
    }
  }

  lemma {:induction false} AfterLastTail(s: string, c: char)
    ensures c !in AfterLast(s, c) && EndsWith(s, AfterLast(s, c))
  {
    if s != [] && s[|s| - 1] != c {
      var init := s[..|s| - 1];
      AfterLastTail(init, c);
      var t := AfterLast(init, c);
      assert AfterLast(s, c) == t + [s[|s| - 1]];
      assert c !in t + [s[|s| - 1]];
      assert s[|s| - |t| - 1..] == init[|init| - |t|..] + [s[|s| - 1]];
    }
  }

  lemma {:induction false} AfterLastBoundary(s: string, c: char)
    ensures var r := AfterLast(s, c);
      |r| < |s| ==> s[|s| - |r| - 1] == c
  {
    if s != [] && s[|s| - 1] != c {
      var init := s[..|s| - 1];
      AfterLastBoundary(init, c);
    }
  }

  /** A string that does not end in `c` has a nonempty part after its last `c`. */
  lemma AfterLastNonEmpty(s: string, c: char)
    requires |s| > 0 && s[|s| - 1] != c
    ensures AfterLast(s, c) != []
  {
  }

  /**
   * `File.basename(p)`: the last component of `p`, trailing separators
   * ignored; "/" for a path made only of separators; "" for "".
   */
  function Basename(p: string): string
  {
    var q := StripTrailingSlashes(p);
    if q == [] then (if p == [] then [] else "/") else AfterLast(q, '/')
  }

  /**
   * The base name is empty only for "", contains a separator only when the
   * path is all separators, and otherwise ends the path once its trailing
   * separators are dropped.
   */
  lemma BasenameShape(p: string)
    ensures p != [] <==> Basename(p) != []
    ensures '/' in Basename(p) ==> Basename(p) == "/" && AllSlashes(p)
    ensures !AllSlashes(p) ==> EndsWith(StripTrailingSlashes(p), Basename(p))
  {
    var q := StripTrailingSlashes(p);
    StripTrailingSlashesShape(p);
    if q == [] {
      assert p[0..] == p;
    } else {
      AfterLastTail(q, '/');
      AfterLastNonEmpty(q, '/');
    }
  }

  /** The number of dots `s` starts with. */
  function LeadingDots(s: string): (n: nat)
    ensures n <= |s|
  {
    if |s| > 0 && s[0] == '.' then 1 + LeadingDots(s[1..]) else 0
  }

  /** `LeadingDots` counts exactly the dots at the start. */
  lemma {:induction false} LeadingDotsShape(s: string)
    ensures forall i :: 0 <= i < LeadingDots(s) ==> s[i] == '.'
    ensures LeadingDots(s) < |s| ==> s[LeadingDots(s)] != '.'
  {
    if |s| > 0 && s[0] == '.' {
      LeadingDotsShape(s[1..]);
    }
  }

  /**
   * The extension of a base name `b`: from its last dot to its end. Leading
   * dots do not start an extension (".bashrc" has none), and a name ending
   * in a dot has none either.
   */
  function ExtensionOf(b: string): (r: string)
    ensures |r| <= |b|
  {
    var n := LeadingDots(b);
    var rest := b[n..];
    var tail := AfterLast(rest, '.');
    if |tail| < |rest| && tail != [] then ['.'] + tail else []
  }

  /** An extension is a dot and at least one more character, none a dot, at the end of `b`. */
  lemma ExtensionOfShape(b: string)
    ensures var r := ExtensionOf(b);
      && (r == [] || (|r| >= 2 && r[0] == '.' && '.' !in r[1..]))
      && EndsWith(b, r)
      && (r != [] ==> |r| < |b|)
  {
    var n := LeadingDots(b);
    var rest := b[n..];
    var tail := AfterLast(rest, '.');
    if |tail| < |rest| && tail != [] {
      AfterLastTail(rest, '.');
      AfterLastBoundary(rest, '.');
      DotThenTail(b, n, tail);
    }
  }

  /** A dot-free tail of `b[n..]` preceded there by a dot gives a dotted tail of `b`. */
  lemma DotThenTail(b: string, n: nat, tail: string)
    requires n <= |b|
    requires EndsWith(b[n..], tail) && |tail| < |b[n..]|
    requires b[|b| - |tail| - 1] == '.'
    ensures EndsWith(b, ['.'] + tail)
    ensures (['.'] + tail)[1..] == tail
  {
    var k := |b| - |tail| - 1;
    assert b[k..] == [b[k]] + b[k + 1..];
  }

  /** `File.extname(p)`: the extension of the base name of `p`. */
  function Extname(p: string): (r: string)
    ensures |r| <= |Basename(p)|
  {
    ExtensionOf(Basename(p))
  }

  /** The extension ends the base name and holds no separator. */
  lemma ExtnameShape(p: string)
    ensures var r := Extname(p);
      && (r == [] || (|r| >= 2 && r[0] == '.' && '.' !in r[1..] && '/' !in r))
      && EndsWith(Basename(p), r)
      && (r != [] ==> |r| < |Basename(p)|)
  {
    var b := Basename(p);
    ExtensionOfShape(b);
    BasenameShape(p);
  }

  /**
   * `File.basename(p, File.extname(p))`: the base name with its extension
   * taken off.
   */
  function Stem(p: string): (r: string)
    ensures |r| <= |Basename(p)|
  {
    var b := Basename(p);
    b[..|b| - |Extname(p)|]
  }

  /** The stem followed by the extension is the base name; only "" has an empty stem. */
  lemma StemShape(p: string)
    ensures Stem(p) + Extname(p) == Basename(p)
    ensures p != [] ==> Stem(p) != []
  {
    var b := Basename(p);
    var e := Extname(p);
    ExtnameShape(p);
    BasenameShape(p);
    assert b == b[..|b| - |e|] + e;
  }

  /**
   * `File.join(a, b)`: exactly one place where the two parts meet carries
   * separators. When `b` starts with a separator, the trailing separators
   * of `a` are dropped; when neither side has one, "/" is inserted. Note
   * that `Join("", "x")` is "/x", as in Ruby.
   */
  function Join(a: string, b: string): string
  {
    if |b| > 0 && b[0] == '/' then StripTrailingSlashes(a) + b
    else if |a| > 0 && a[|a| - 1] == '/' then a + b
    else a + "/" + b
  }

  /**
   * The join starts with `a` less its trailing separators, ends with `b`,
   * and has only separators, at least one, between them.
   */
  lemma JoinShape(a: string, b: string)
    ensures var q := StripTrailingSlashes(a);
      var r := Join(a, b);
      && |q| + |b| <= |r|
      && r[..|q|] == q
      && EndsWith(r, b)
      && AllSlashes(r[|q|..|r| - |b|])
      && ((|b| > 0 && b[0] == '/') || |q| + |b| < |r|)
  {
    StripTrailingSlashesShape(a);
    var q := StripTrailingSlashes(a);
    var r := Join(a, b);
    if |b| > 0 && b[0] == '/' {
      assert r[|q|..|r| - |b|] == [];
    } else if |a| > 0 && a[|a| - 1] == '/' {
      assert r[|q|..|r| - |b|] == a[|q|..];
    } else {
      assert r[|q|..|r| - |b|] == "/";
    }
  }

  /** What follows a trailing `c` is everything after the last `c`. */
  lemma {:induction false} AfterLastAppend(x: string, y: string, c: char)
    requires x == [] || x[|x| - 1] == c
    requires c !in y
    ensures AfterLast(x + y, c) == y
  {
    if y == [] {
      assert x + y == x;
    } else {
      var y' := y[..|y| - 1];
      assert (x + y)[..|x + y| - 1] == x + y';
      AfterLastAppend(x, y', c);
      assert y == y' + [y[|y| - 1]];
    }
  }

  /** The base name of a joined path is the last part, when that part is a plain name. */
  lemma BasenameOfJoin(dir: string, name: string)
    requires name != [] && '/' !in name
    ensures Basename(Join(dir, name)) == name
  {
    var r := Join(dir, name);
    assert r[|r| - 1] == name[|name| - 1];
    assert StripTrailingSlashes(r) == r;
    assert name[0] in name;
    if |dir| > 0 && dir[|dir| - 1] == '/' {
      AfterLastAppend(dir, name, '/');
    } else {
      AfterLastAppend(dir + "/", name, '/');
      assert r == (dir + "/") + name;
    }
  }

  /** A plain file name is its own base name. */
  lemma BasenameOfName(name: string)
    requires name != [] && '/' !in name
    ensures Basename(name) == name
  {
    assert name[|name| - 1] in name;
    AfterLastAppend([], name, '/');
    assert [] + name == name;
  }

  /** A file name made of a stem and one extension has exactly that extension. */
  lemma ExtnameOfParts(stem: string, ext: string)
    requires stem != [] && stem[0] != '.' && '/' !in stem
    requires |ext| >= 2 && ext[0] == '.' && '.' !in ext[1..] && '/' !in ext
    ensures Extname(stem + ext) == ext
    ensures Stem(stem + ext) == stem
  {
    var b := stem + ext;
    assert '/' !in b by {
      assert forall i :: 0 <= i < |b| ==> b[i] == if i < |stem| then stem[i] else ext[i - |stem|];
    }
    BasenameOfName(b);
    assert LeadingDots(b) == 0;
    assert b[0..] == b;
    var tail := ext[1..];
    assert b == (stem + ".") + tail;
    AfterLastAppend(stem + ".", tail, '.');
    assert ['.'] + tail == ext;
  }

  /** `File.basename` ignores any directory part: it is idempotent. */
  lemma BasenameIdempotent(p: string)
    ensures Basename(Basename(p)) == Basename(p)
  {
    var b := Basename(p);
    BasenameShape(p);
    if '/' !in b && b != [] {
      assert b[|b| - 1] in b;
      assert StripTrailingSlashes(b) == b;
      AfterLastAppend([], b, '/');
      assert [] + b == b;
    }
  }
}

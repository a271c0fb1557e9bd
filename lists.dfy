/**
 * The two Ruby `Array` operations the manifest bookkeeping relies on:
 * `a - b` (drop every element that occurs in `b`) and `uniq` (keep the
 * first occurrence of each element).
 */
module Lists {

  /** The set of elements of `s`. */
  function Elements(s: seq<string>): set<string> {
    set x | x in s
  }

  predicate NoDuplicates(s: seq<string>) {
    forall i, j :: 0 <= i < j < |s| ==> s[i] != s[j]
  }

  /**
   * Ruby `a - b`: the elements of `a` that do not occur in `b`, in their
   * order in `a`, repeated as often as in `a`.
   */
  function Minus(a: seq<string>, b: seq<string>): (r: seq<string>)
    ensures |r| <= |a|
  {
    if a == [] then [] else (if a[0] in b then [] else [a[0]]) + Minus(a[1..], b)
  }

  /** `a - b` holds exactly the elements of `a` that are not in `b`. */
  lemma {:induction false} MinusMembers(a: seq<string>, b: seq<string>)
    ensures forall x :: x in Minus(a, b) <==> x in a && x !in b
  {
    if a != [] {
      MinusMembers(a[1..], b);
      assert a == [a[0]] + a[1..];
    }
  }

  /** `a - b` keeps every element not in `b` exactly as many times as `a` has it. */
  lemma {:induction false} MinusKeepsCounts(a: seq<string>, b: seq<string>, x: string)
    requires x !in b
    ensures multiset(Minus(a, b))[x] == multiset(a)[x]
  {
    if a != [] {
      MinusKeepsCounts(a[1..], b, x);
      assert a == [a[0]] + a[1..];
      assert multiset(a) == multiset([a[0]]) + multiset(a[1..]);
    }
  }

  /**
   * Ruby `uniq`: the first occurrence of every element, in order of first
   * occurrence.
   */
  function Uniq(s: seq<string>): (r: seq<string>)
    ensures |r| <= |s|
  {
    if s == [] then []
    else
      var init := s[..|s| - 1];
      var last := s[|s| - 1];
      if last in init then Uniq(init) else Uniq(init) + [last]
  }

  /** `uniq` has no repeats and the same elements as the list. */
  lemma {:induction false} UniqMembers(s: seq<string>)
    ensures NoDuplicates(Uniq(s))
    ensures forall x :: x in Uniq(s) <==> x in s
  {
    if s != [] {
      var init := s[..|s| - 1];
      var last := s[|s| - 1];
      UniqMembers(init);
      assert s == init + [last];
    }
  }

  /** `a - b` distributes over concatenation of its left side. */
  lemma {:induction false} MinusAppend(a: seq<string>, c: seq<string>, b: seq<string>)
    ensures Minus(a + c, b) == Minus(a, b) + Minus(c, b)
  {
    if a == [] {
      assert a + c == c;
    } else {
      assert (a + c)[0] == a[0];
      assert (a + c)[1..] == a[1..] + c;
      MinusAppend(a[1..], c, b);
    }
  }

  /** Removing every element of a list from itself leaves nothing. */
  lemma MinusSelf(a: seq<string>)
    ensures Minus(a, a) == []
  {
    MinusCovered(a, a);
  }

  lemma {:induction false} MinusCovered(a: seq<string>, b: seq<string>)
    requires forall x :: x in a ==> x in b
    ensures Minus(a, b) == []
  {
    if a != [] {
      assert a[0] in a;
      MinusCovered(a[1..], b);
    }
  }

  /** Removing nothing keeps the list as it is. */
  lemma {:induction false} MinusNothing(a: seq<string>)
    ensures Minus(a, []) == a
  {
    if a != [] {
      MinusNothing(a[1..]);
      assert a == [a[0]] + a[1..];
    }
  }

  /** A list without duplicates is its own `uniq`. */
  lemma {:induction false} UniqOfDistinct(s: seq<string>)
    requires NoDuplicates(s)
    ensures Uniq(s) == s
  {
    if s != [] {
      var init := s[..|s| - 1];
      UniqOfDistinct(init);
      assert s[|s| - 1] !in init by {
        assert forall i :: 0 <= i < |init| ==> init[i] == s[i];
      }
      assert s == init + [s[|s| - 1]];
    }
  }

  /** `uniq` of a list with one more element at the end. */
  lemma UniqSnoc(s: seq<string>, x: string)
    ensures Uniq(s + [x]) == if x in s then Uniq(s) else Uniq(s) + [x]
  {
    assert (s + [x])[..|s + [x]| - 1] == s;
  }

  /** `a - b` of a list with one more element at the end. */
  lemma {:induction false} MinusSnoc(s: seq<string>, x: string, b: seq<string>)
    ensures Minus(s + [x], b) == Minus(s, b) + (if x in b then [] else [x])
  {
    if s == [] {
      assert s + [x] == [x];
      assert [x][1..] == [];
    } else {
      assert (s + [x])[0] == s[0];
      assert (s + [x])[1..] == s[1..] + [x];
      MinusSnoc(s[1..], x, b);
    }
  }

  /**
   * `uniq` keeps first occurrences in order: the unique elements of `a + b`
   * are those of `a`, then the new elements of `b` in their first order.
   */
  lemma {:induction false} UniqAppend(a: seq<string>, b: seq<string>)
    ensures Uniq(a + b) == Uniq(a) + Uniq(Minus(b, a))
    decreases |b|
  {
    if b == [] {
      assert a + b == a;
    } else {
      var init := b[..|b| - 1];
      var x := b[|b| - 1];
      assert b == init + [x];
      UniqAppend(a, init);
      UniqAppendStep(a, init, x);
    }
  }

  /** The inductive step of `UniqAppend`: one more element at the end of `b`. */
  lemma UniqAppendStep(a: seq<string>, init: seq<string>, x: string)
    requires Uniq(a + init) == Uniq(a) + Uniq(Minus(init, a))
    ensures Uniq(a + (init + [x])) == Uniq(a) + Uniq(Minus(init + [x], a))
  {
    var m := Minus(init, a);
    assert a + (init + [x]) == (a + init) + [x];
    UniqSnoc(a + init, x);
    MinusSnoc(init, x, a);
    if x in a {
      calc {
        Uniq(a + (init + [x]));
        Uniq(a + init);
        Uniq(a) + Uniq(m);
        { assert Minus(init + [x], a) == m + []; assert m + [] == m; }
        Uniq(a) + Uniq(Minus(init + [x], a));
      }
    } else {
      UniqAppendNew(a, init, x);
    }
  }

  lemma UniqAppendNew(a: seq<string>, init: seq<string>, x: string)
    requires Uniq(a + init) == Uniq(a) + Uniq(Minus(init, a))
    requires x !in a
    ensures Uniq(a + (init + [x])) == Uniq(a) + Uniq(Minus(init + [x], a))
  {
    var m := Minus(init, a);
    AppendAssoc(a, init, [x]);
    UniqSnoc(a + init, x);
    MinusSnoc(init, x, a);
    UniqSnoc(m, x);
    MinusMembers(init, a);
    if x !in init {
      assert x !in a + init;
      AppendAssoc(Uniq(a), Uniq(m), [x]);
    }
  }

  lemma AppendAssoc(a: seq<string>, b: seq<string>, c: seq<string>)
    ensures a + (b + c) == (a + b) + c
  {
  }

  /** `uniq` is idempotent. */
  lemma UniqIdempotent(s: seq<string>)
    ensures Uniq(Uniq(s)) == Uniq(s)
  {
    UniqMembers(s);
    UniqOfDistinct(Uniq(s));
  }

  /** `s.map(&f)`: `f` applied to each element, in order. */
  function MapEach(s: seq<string>, f: string -> string): (r: seq<string>)
    ensures |r| == |s|
  {
    if s == [] then [] else MapEach(s[..|s| - 1], f) + [f(s[|s| - 1])]
  }

  /** The `i`-th element of the mapped list is the image of the `i`-th element. */
  lemma {:induction false} MapEachAt(s: seq<string>, f: string -> string, i: nat)
    requires i < |s|
    ensures MapEach(s, f)[i] == f(s[i])
  {
    var init := s[..|s| - 1];
    if i < |init| {
      MapEachAt(init, f, i);
    }
  }

  /** The elements of a list with one more element at the end. */
  lemma ElementsSnoc(s: seq<string>, x: string)
    ensures Elements(s + [x]) == Elements(s) + {x}
  {
  }

  /** Mapping one more element appends its image. */
  lemma MapEachSnoc(s: seq<string>, f: string -> string, i: nat)
    requires i < |s|
    ensures MapEach(s[..i + 1], f) == MapEach(s[..i], f) + [f(s[i])]
  {
    assert s[..i + 1][..i] == s[..i];
  }
}

/**
 * Order-preserving filtering of a table, the shape both a storage-layer
 * `filter(...)` and a Python list comprehension `[x for x in xs if f(x)]` have.
 */
module Seqs {

  /**
   * `a` can be obtained from `b` by deleting elements: same elements, same
   * relative order.
   */
  predicate IsSubsequence<T(==)>(a: seq<T>, b: seq<T>)
    decreases |b|
  {
    a == []
    || (b != [] && ((a[|a| - 1] == b[|b| - 1] && IsSubsequence(a[..|a| - 1], b[..|b| - 1]))
                    || IsSubsequence(a, b[..|b| - 1])))
  }

  lemma {:induction false} SubsequenceTransitive<T>(a: seq<T>, b: seq<T>, c: seq<T>)
    requires IsSubsequence(a, b) && IsSubsequence(b, c)
    ensures IsSubsequence(a, c)
    decreases |c|
  {
    if a != [] {
      var c' := c[..|c| - 1];
      if IsSubsequence(b, c') {
        SubsequenceTransitive(a, b, c');
      } else {
        var b' := b[..|b| - 1];
        assert b[|b| - 1] == c[|c| - 1] && IsSubsequence(b', c');
        if a[|a| - 1] == b[|b| - 1] && IsSubsequence(a[..|a| - 1], b') {
          SubsequenceTransitive(a[..|a| - 1], b', c');
        } else {
          SubsequenceTransitive(a, b', c');
        }
      }
    }
  }

  lemma {:induction false} SubsequenceReflexive<T>(a: seq<T>)
    ensures IsSubsequence(a, a)
    decreases |a|
  {
    if a != [] {
      SubsequenceReflexive(a[..|a| - 1]);
    }
  }

  /** The elements of `s` that satisfy `f`, in their original order. */
  function Filter<T(==,!new)>(s: seq<T>, f: T -> bool): (r: seq<T>)
    ensures |r| <= |s|
    ensures forall x :: x in r <==> x in s && f(x)
    ensures IsSubsequence(r, s)
    decreases |s|
  {
    if s == [] then []
    else
      var s' := s[..|s| - 1];
      var x := s[|s| - 1];
      var r := Filter(s', f) + (if f(x) then [x] else []);
      assert s == s' + [x];
      if f(x) then
        assert r[..|r| - 1] == Filter(s', f);
        r
      else
        assert r == Filter(s', f);
        assert r == [] || IsSubsequence(r, s[..|s| - 1]);
        r
  }

  /** Filtering a table with one more row at the end. */
  lemma FilterSnoc<T(!new)>(s: seq<T>, x: T, f: T -> bool)
    ensures Filter(s + [x], f) == Filter(s, f) + (if f(x) then [x] else [])
  {
    assert (s + [x])[..|s|] == s;
  }

  /** Filtering a sequence with one more element at the front. */
  lemma {:induction false} FilterCons<T(!new)>(x: T, s: seq<T>, f: T -> bool)
    ensures Filter([x] + s, f) == (if f(x) then [x] else []) + Filter(s, f)
    decreases |s|
  {
    if s == [] {
      assert [x] + s == [] + [x];
      FilterSnoc([], x, f);
    } else {
      var s', y := s[..|s| - 1], s[|s| - 1];
      var hd, tl := if f(x) then [x] else [], if f(y) then [y] else [];
      assert s == s' + [y];
      assert [x] + s == ([x] + s') + [y];
      calc {
        Filter([x] + s, f);
        { FilterSnoc([x] + s', y, f); }
        Filter([x] + s', f) + tl;
        { FilterCons(x, s', f); }
        (hd + Filter(s', f)) + tl;
        hd + (Filter(s', f) + tl);
        { FilterSnoc(s', y, f); }
        hd + Filter(s, f);
      }
    }
  }

  /** Two filters that agree on every row give the same result. */
  lemma {:induction false} FilterExtensional<T(!new)>(s: seq<T>, f: T -> bool, g: T -> bool)
    requires forall x :: f(x) == g(x)
    ensures Filter(s, f) == Filter(s, g)
    decreases |s|
  {
    if s != [] {
      FilterExtensional(s[..|s| - 1], f, g);
    }
  }

  /** Narrowing twice equals one pass with the conjunction of both conditions. */
  lemma {:induction false} FilterFilter<T(!new)>(s: seq<T>, f: T -> bool, g: T -> bool, h: T -> bool)
    requires forall x :: h(x) == (f(x) && g(x))
    ensures Filter(Filter(s, f), g) == Filter(s, h)
    decreases |s|
  {
    if s != [] {
      var s' := s[..|s| - 1];
      var x := s[|s| - 1];
      FilterFilter(s', f, g, h);
      assert Filter(s, h) == Filter(s', h) + (if h(x) then [x] else []);
      if f(x) {
        assert Filter(s, f) == Filter(s', f) + [x];
        FilterSnoc(Filter(s', f), x, g);
      } else {
        assert Filter(s, f) == Filter(s', f);
      }
    }
  }

  /** A condition every row satisfies keeps the whole table. */
  lemma {:induction false} FilterAll<T(!new)>(s: seq<T>, f: T -> bool)
    requires forall x :: x in s ==> f(x)
    ensures Filter(s, f) == s
    decreases |s|
  {
    if s != [] {
      FilterAll(s[..|s| - 1], f);
      assert s == s[..|s| - 1] + [s[|s| - 1]];
    }
  }
  /** A condition no row satisfies selects nothing. */
  lemma {:induction false} FilterNone<T(!new)>(s: seq<T>, f: T -> bool)
    requires forall x :: x in s ==> !f(x)
    ensures Filter(s, f) == []
    decreases |s|
  {
    if s != [] {
      FilterNone(s[..|s| - 1], f);
    }
  }

  /** A condition exactly one row satisfies selects that row alone. */
  lemma {:induction false} FilterSingle<T(!new)>(s: seq<T>, f: T -> bool, i: nat)
    requires i < |s| && f(s[i])
    requires forall j :: 0 <= j < |s| && j != i ==> !f(s[j])
    ensures Filter(s, f) == [s[i]]
    decreases |s|
  {
    var s' := s[..|s| - 1];
    if i == |s| - 1 {
      FilterNone(s', f);
    } else {
      FilterSingle(s', f, i);
    }
  }

  /** Two rows that satisfy the condition both survive it. */
  lemma {:induction false} FilterTwo<T(!new)>(s: seq<T>, f: T -> bool, i: nat, j: nat)
    requires i < j < |s| && f(s[i]) && f(s[j])
    ensures |Filter(s, f)| >= 2
    decreases |s|
  {
    var s' := s[..|s| - 1];
    if j == |s| - 1 {
      assert s'[i] in Filter(s', f);
    } else {
      FilterTwo(s', f, i, j);
    }
  }
}

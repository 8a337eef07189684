/**
 * The two list operations the application builds on: `Array.prototype.filter`
 * and `[...new Set(xs)]`, which keeps the first occurrence of every element
 * in the order of first occurrence.
 */
module Seqs {

  /** `s.filter(p)`: the elements satisfying `p`, in their original order. */
  function Filter<T>(s: seq<T>, p: T -> bool): (r: seq<T>)
    ensures |r| <= |s|
    ensures forall i :: 0 <= i < |r| ==> r[i] in s && p(r[i])
    ensures forall i :: 0 <= i < |s| && p(s[i]) ==> s[i] in r
  {
    if s == [] then [] else (if p(s[0]) then [s[0]] else []) + Filter(s[1..], p)
  }

  /** Filtering distributes over concatenation, so the order of `s` is kept. */
  lemma {:induction false} FilterConcat<T>(a: seq<T>, b: seq<T>, p: T -> bool)
    ensures Filter(a + b, p) == Filter(a, p) + Filter(b, p)
  {
    if a == [] {
      assert a + b == b;
    } else {
      assert (a + b)[0] == a[0];
      assert (a + b)[1..] == a[1..] + b;
      FilterConcat(a[1..], b, p);
    }
  }

  /** Filtering twice with the same predicate gives the same sequence as once. */
  lemma {:induction false} FilterIdempotent<T>(s: seq<T>, p: T -> bool)
    ensures Filter(Filter(s, p), p) == Filter(s, p)
  {
    if s != [] {
      FilterIdempotent(s[1..], p);
      FilterConcat(if p(s[0]) then [s[0]] else [], Filter(s[1..], p), p);
    }
  }

  /** Nothing is dropped when every element satisfies the predicate. */
  lemma {:induction false} FilterKeepsAll<T>(s: seq<T>, p: T -> bool)
    requires forall x :: x in s ==> p(x)
    ensures Filter(s, p) == s
  {
    if s != [] {
      FilterKeepsAll(s[1..], p);
    }
  }

  /** Filtering drops exactly the one element that fails the predicate. */
  lemma FilterDropsOne<T>(a: seq<T>, x: T, b: seq<T>, p: T -> bool)
    requires forall y :: y in a ==> p(y)
    requires !p(x)
    requires forall y :: y in b ==> p(y)
    ensures Filter(a + [x] + b, p) == a + b
  {
    FilterKeepsAll(a, p);
    FilterKeepsAll(b, p);
    FilterConcat(a, [x], p);
    FilterSkipsOne(x, p);
    assert Filter(a + [x], p) == a + [] == a;
    FilterConcat(a + [x], b, p);
  }

  lemma FilterSkipsOne<T>(x: T, p: T -> bool)
    requires !p(x)
    ensures Filter([x], p) == []
  {
    assert [x][1..] == [];
  }

  predicate NoDuplicates<T(==)>(s: seq<T>) {
    forall i, j :: 0 <= i < j < |s| ==> s[i] != s[j]
  }

  /** `[...new Set(s)]`. */
  function Unique<T(==)>(s: seq<T>): (r: seq<T>)
    ensures NoDuplicates(r)
    ensures forall i :: 0 <= i < |r| ==> r[i] in s
    ensures forall i :: 0 <= i < |s| ==> s[i] in r
    ensures |r| <= |s|
  {
    if s == [] then []
    else
      var r := Unique(s[..|s| - 1]);
      var x := s[|s| - 1];
      assert s == s[..|s| - 1] + [x];
      if x in r then r else r + [x]
  }

  /** A sequence without duplicates is its own de-duplication. */
  lemma {:induction false} UniqueOfDistinct<T>(s: seq<T>)
    requires NoDuplicates(s)
    ensures Unique(s) == s
  {
    if s != [] {
      var p := s[..|s| - 1];
      assert NoDuplicates(p);
      UniqueOfDistinct(p);
      assert s == p + [s[|s| - 1]];
      assert s[|s| - 1] !in p;
    }
  }

  /** Appending elements never reorders or drops what was already collected. */
  lemma {:induction false} UniquePrefix<T>(a: seq<T>, b: seq<T>)
    ensures |Unique(a)| <= |Unique(a + b)|
    ensures Unique(a + b)[..|Unique(a)|] == Unique(a)
    decreases |b|
  {
    if b == [] {
      assert a + b == a;
    } else {
      var b' := b[..|b| - 1];
      UniquePrefix(a, b');
      assert (a + b)[..|a + b| - 1] == a + b';
    }
  }

  /** De-duplicating after elements that are all already present gives the original. */
  lemma {:induction false} UniqueAbsorbs<T>(a: seq<T>, b: seq<T>)
    requires NoDuplicates(a)
    requires forall i :: 0 <= i < |b| ==> b[i] in a
    ensures Unique(a + b) == a
    decreases |b|
  {
    if b == [] {
      assert a + b == a;
      UniqueOfDistinct(a);
    } else {
      var b' := b[..|b| - 1];
      UniqueAbsorbs(a, b');
      assert (a + b)[..|a + b| - 1] == a + b';
      assert (a + b)[|a + b| - 1] == b[|b| - 1];
    }
  }

  lemma AppendAssoc<T>(a: seq<T>, b: seq<T>, c: seq<T>)
    ensures a + (b + c) == (a + b) + c
  {
  }

  lemma DropAppend<T>(a: seq<T>, b: seq<T>, k: nat)
    requires k <= |a|
    ensures (a + b)[k..] == a[k..] + b
  {
  }
}

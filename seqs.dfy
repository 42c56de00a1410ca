/** The array operations the components use: `filter`, `find`, and the order-preserving subsequence relation. */
module Seqs {
  import opened Wrappers

  /** `a` can be obtained from `b` by deleting elements, keeping the order of the rest. */
  predicate IsSubsequence<T(==)>(a: seq<T>, b: seq<T>)
    decreases |b|
  {
    if a == [] then true
    else if b == [] then false
    else (a[0] == b[0] && IsSubsequence(a[1..], b[1..])) || IsSubsequence(a, b[1..])
  }

  /** `Array.prototype.filter`: the elements of `s` that satisfy `p`, in their original order. */
  function Filter<T>(s: seq<T>, p: T -> bool): (r: seq<T>)
    ensures |r| <= |s|
    ensures forall i :: 0 <= i < |r| ==> r[i] in s && p(r[i])
    ensures forall i :: 0 <= i < |s| && p(s[i]) ==> s[i] in r
  {
    if s == [] then [] else (if p(s[0]) then [s[0]] else []) + Filter(s[1..], p)
  }

  lemma {:induction false} FilterIsSubsequence<T>(s: seq<T>, p: T -> bool)
    ensures IsSubsequence(Filter(s, p), s)
  {
    if s != [] {
      FilterIsSubsequence(s[1..], p);
      assert s[1..] == s[1..];
      if p(s[0]) {
        assert Filter(s, p) == [s[0]] + Filter(s[1..], p);
        assert Filter(s, p)[1..] == Filter(s[1..], p);
      } else {
        assert Filter(s, p) == Filter(s[1..], p);
      }
    }
  }

  /** Keeping everything keeps the sequence as it is. */
  lemma {:induction false} FilterAll<T>(s: seq<T>, p: T -> bool)
    requires forall x :: x in s ==> p(x)
    ensures Filter(s, p) == s
  {
    if s != [] {
      FilterAll(s[1..], p);
    }
  }

  /** Solver helper, no counterpart in the components: a non-empty list is its first element
      followed by the rest. */
  lemma SplitFirst<T>(s: seq<T>)
    requires s != []
    ensures s == [s[0]] + s[1..]
  {
  }

  /** Solver helper, no counterpart in the components: a non-empty list is its front followed
      by its last element. */
  lemma SplitLast<T>(s: seq<T>)
    requires s != []
    ensures s == s[..|s| - 1] + [s[|s| - 1]]
  {
  }

  /** `filter(p)` and `filter(!p)` together account for every element exactly once. */
  lemma {:induction false} FilterPartition<T>(s: seq<T>, p: T -> bool, q: T -> bool)
    requires forall x :: q(x) == !p(x)
    ensures |Filter(s, p)| + |Filter(s, q)| == |s|
  {
    if s != [] {
      FilterPartition(s[1..], p, q);
    }
  }

  /** A filtered list holds no element more often than the original: it is a sub-multiset. */
  lemma {:induction false} FilterMultiset<T>(s: seq<T>, p: T -> bool)
    ensures multiset(Filter(s, p)) <= multiset(s)
  {
    if s != [] {
      FilterMultiset(s[1..], p);
      SplitFirst(s);
      assert multiset(s) == multiset{s[0]} + multiset(s[1..]);
    }
  }

  /** `filter` keeps every copy of a value the callback accepts and no copy of one it rejects.
      Together with `FilterIsSubsequence` this fixes the result completely. */
  lemma {:induction false} FilterCount<T>(s: seq<T>, p: T -> bool)
    ensures forall x :: multiset(Filter(s, p))[x] == if p(x) then multiset(s)[x] else 0
  {
    if s != [] {
      FilterCount(s[1..], p);
      SplitFirst(s);
      assert multiset(s) == multiset{s[0]} + multiset(s[1..]);
    }
  }

  /** Filtering commutes with concatenation. */
  lemma {:induction false} FilterAppend<T>(a: seq<T>, b: seq<T>, p: T -> bool)
    ensures Filter(a + b, p) == Filter(a, p) + Filter(b, p)
  {
    if a == [] {
      assert a + b == b;
    } else {
      assert (a + b)[1..] == a[1..] + b;
      FilterAppend(a[1..], b, p);
    }
  }

  /** Putting the same element in front of two lists keeps a relation between their filtered forms. */
  lemma FilterConsShift<T>(h: T, a: seq<T>, b: seq<T>, c: seq<T>, p: T -> bool)
    requires Filter(a, p) == Filter(b, p) + c
    ensures Filter([h] + a, p) == Filter([h] + b, p) + c
  {
    var f := if p(h) then [h] else [];
    FilterCons(h, a, p);
    FilterCons(h, b, p);
    AppendAssociative(f, Filter(b, p), c);
  }

  /** Solver helper, no counterpart in the components: concatenation is associative. */
  lemma AppendAssociative<T>(x: seq<T>, y: seq<T>, z: seq<T>)
    ensures x + (y + z) == (x + y) + z
  {
  }

  /** Filtering a list with an element in front handles that element first. */
  lemma FilterCons<T>(h: T, a: seq<T>, p: T -> bool)
    ensures Filter([h] + a, p) == (if p(h) then [h] else []) + Filter(a, p)
  {
    assert ([h] + a)[0] == h && ([h] + a)[1..] == a;
  }

  /** `Array.prototype.findIndex`, with "not found" as `None` instead of -1. */
  function FindIndex<T>(s: seq<T>, p: T -> bool): (r: Option<nat>)
    ensures r.Some? ==> r.value < |s| && p(s[r.value]) && forall j :: 0 <= j < r.value ==> !p(s[j])
    ensures r.None? ==> forall j :: 0 <= j < |s| ==> !p(s[j])
  {
    if s == [] then None
    else if p(s[0]) then Some(0)
    else match FindIndex(s[1..], p)
      case None => None
      case Some(k) => Some(k + 1)
  }

  /** `Array.prototype.find`: the first element satisfying `p`, `None` for `undefined`. */
  function Find<T>(s: seq<T>, p: T -> bool): (r: Option<T>)
    ensures r.Some? <==> exists i :: 0 <= i < |s| && p(s[i])
    ensures r.Some? ==> exists i :: 0 <= i < |s| && s[i] == r.value && p(s[i]) && forall j :: 0 <= j < i ==> !p(s[j])
  {
    match FindIndex(s, p)
    case None => None
    case Some(k) => Some(s[k])
  }

  /** The `filter` callback that keeps everything except `x`. */
  function Except<T(==)>(x: T): T -> bool
  {
    y => y != x
  }

  /** Flip the membership of `x`: remove every copy when present (`filter(y => y !== x)`),
      otherwise append it (`push`). Used for both multiple-choice answers and correct-answer sets. */
  function Toggle<T(==)>(s: seq<T>, x: T): (r: seq<T>)
    ensures x in r <==> x !in s
    ensures forall i :: 0 <= i < |s| && s[i] != x ==> s[i] in r
    ensures forall i :: 0 <= i < |r| && r[i] != x ==> r[i] in s
    ensures x !in s ==> r == s + [x]
    ensures x in s ==> IsSubsequence(r, s)
    ensures x in s ==> multiset(r) == multiset(s)[x := 0]
  {
    if x in s then
      FilterIsSubsequence(s, Except(x));
      FilterCount(s, Except(x));
      assert multiset(Filter(s, Except(x))) == multiset(s)[x := 0];
      Filter(s, Except(x))
    else s + [x]
  }

  /** Toggling the same element twice restores a list that did not hold it. */
  lemma ToggleTwice<T>(s: seq<T>, x: T)
    requires x !in s
    ensures Toggle(Toggle(s, x), x) == s
  {
    var t := s + [x];
    assert t[..|s|] == s;
    FilterAppend(s, [x], Except(x));
    FilterAll(s, Except(x));
  }
}

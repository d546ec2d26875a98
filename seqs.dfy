/**
 * Sequence operations shared by the three views: JavaScript's
 * `Array.prototype.filter`, the de-duplication `[...new Set(xs)]`, and the
 * vocabulary used to state what they preserve (order, multiplicity,
 * absence of duplicates).
 */
module Seqs {

  /** `s.filter(p)`: the elements of `s` that satisfy `p`, in their original order. */
  function Filter<T(==,!new)>(p: T -> bool, s: seq<T>): (r: seq<T>)
    ensures |r| <= |s|
    ensures forall x :: x in r <==> x in s && p(x)
    ensures forall x :: multiset(r)[x] == if p(x) then multiset(s)[x] else 0
  {
    if s == [] then []
    else
      assert s == [s[0]] + s[1..];
      (if p(s[0]) then [s[0]] else []) + Filter(p, s[1..])
  }

  /** `r` can be obtained from `s` by deleting elements, without reordering. */
  predicate IsSubsequence<T(==,!new)>(r: seq<T>, s: seq<T>)
    decreases |s|
  {
    if r == [] then true
    else if s == [] then false
    else (r[0] == s[0] && IsSubsequence(r[1..], s[1..])) || IsSubsequence(r, s[1..])
  }

  /** No element occurs twice. */
  predicate NoDup<T(==,!new)>(s: seq<T>) {
    forall i, j :: 0 <= i < j < |s| ==> s[i] != s[j]
  }

  /** `s.filter((y) => y !== x)`: every occurrence of `x` is dropped. */
  function Remove<T(==,!new)>(s: seq<T>, x: T): (r: seq<T>)
    ensures x !in r
    ensures forall y :: y in r <==> y in s && y != x
    ensures multiset(r) == multiset(s)[x := 0]
    ensures IsSubsequence(r, s)
    ensures x !in s ==> r == s
    ensures NoDup(s) ==> NoDup(r)
  {
    var other := y => y != x;
    FilterIsSubsequence(other, s);
    FilterKeepsAll(other, s);
    FilterNoDup(other, s);
    Filter(other, s)
  }

  /** `[...new Set(s)]`: each value once, at the place of its first occurrence. */
  function Distinct<T(==,!new)>(s: seq<T>): (r: seq<T>)
    ensures NoDup(r)
    ensures forall x :: x in r <==> x in s
    decreases |s|
  {
    if s == [] then []
    else
      var d := Distinct(s[..|s| - 1]);
      var last := s[|s| - 1];
      assert s == s[..|s| - 1] + [last];
      if last in d then d else d + [last]
  }

  lemma {:induction false} FilterIsSubsequence<T(!new)>(p: T -> bool, s: seq<T>)
    ensures IsSubsequence(Filter(p, s), s)
    decreases |s|
  {
    if s != [] {
      FilterIsSubsequence(p, s[1..]);
      var r := Filter(p, s);
      if p(s[0]) {
        assert r[0] == s[0] && r[1..] == Filter(p, s[1..]);
      } else {
        assert r == Filter(p, s[1..]);
      }
    }
  }

  /** Filtering by a predicate every element satisfies changes nothing. */
  lemma {:induction false} FilterKeepsAll<T(!new)>(p: T -> bool, s: seq<T>)
    ensures (forall x :: x in s ==> p(x)) ==> Filter(p, s) == s
    decreases |s|
  {
    if s != [] && forall x :: x in s ==> p(x) {
      assert s[0] in s;
      FilterKeepsAll(p, s[1..]);
      assert [s[0]] + s[1..] == s;
    }
  }

  lemma NoDupTail<T(!new)>(s: seq<T>)
    requires NoDup(s) && s != []
    ensures NoDup(s[1..]) && s[0] !in s[1..]
  {
  }

  lemma NoDupCons<T(!new)>(x: T, s: seq<T>)
    requires NoDup(s) && x !in s
    ensures NoDup([x] + s)
  {
    var t := [x] + s;
    forall i, j | 0 <= i < j < |t| ensures t[i] != t[j] {
      if i == 0 {
        assert t[j] == s[j - 1];
      }
    }
  }

  lemma NoDupSnoc<T(!new)>(s: seq<T>, x: T)
    requires NoDup(s) && x !in s
    ensures NoDup(s + [x])
  {
  }

  /** Filtering never introduces duplicates. */
  lemma {:induction false} FilterNoDup<T(!new)>(p: T -> bool, s: seq<T>)
    ensures NoDup(s) ==> NoDup(Filter(p, s))
    decreases |s|
  {
    if s != [] && NoDup(s) {
      NoDupTail(s);
      FilterNoDup(p, s[1..]);
      if p(s[0]) {
        NoDupCons(s[0], Filter(p, s[1..]));
      }
    }
  }

  /**
   * On a duplicate-free sequence, `Remove` shortens the sequence by exactly one
   * when the value was present, and not at all otherwise.
   */
  lemma {:induction false} RemoveLength<T(!new)>(s: seq<T>, x: T)
    requires NoDup(s)
    ensures |Remove(s, x)| == if x in s then |s| - 1 else |s|
    decreases |s|
  {
    if s != [] {
      NoDupTail(s);
      assert Remove(s, x) == (if s[0] != x then [s[0]] else []) + Remove(s[1..], x);
      if s[0] != x {
        RemoveLength(s[1..], x);
      }
    }
  }
}

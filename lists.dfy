/** The JavaScript array primitives the task code is built from:
    `Array.prototype.filter`, `Array.prototype.map` and the insertion order
    of a `Set` built from an array. */
module Lists {

  /** `s.filter(p)`: the elements satisfying `p`, in their original order. */
  function Filter<T>(s: seq<T>, p: T -> bool): (r: seq<T>)
    ensures |r| <= |s|
  {
    if s == [] then [] else (if p(s[0]) then [s[0]] else []) + Filter(s[1..], p)
  }

  /** `s.map(f)`. */
  function Map<T, U>(s: seq<T>, f: T -> U): (r: seq<U>)
    ensures |r| == |s|
    ensures forall i :: 0 <= i < |s| ==> r[i] == f(s[i])
  {
    if s == [] then [] else [f(s[0])] + Map(s[1..], f)
  }

  /** `r` can be obtained from `s` by deleting elements, without reordering. */
  predicate IsSubsequence<T(==)>(r: seq<T>, s: seq<T>)
    decreases |s|
  {
    r == [] ||
    (s != [] &&
     ((r[0] == s[0] && IsSubsequence(r[1..], s[1..])) || IsSubsequence(r, s[1..])))
  }

  /** Position of the first occurrence of `x` in `s`. */
  function FirstIndex<T(==)>(s: seq<T>, x: T): (k: nat)
    requires x in s
    ensures k < |s| && s[k] == x && x !in s[..k]
  {
    if s[0] == x then 0 else 1 + FirstIndex(s[1..], x)
  }

  /** `[...new Set(s)]`: each value once, in the order it was first seen. */
  function Distinct<T(==,!new)>(s: seq<T>): (r: seq<T>)
    ensures forall x :: x in r <==> x in s
    ensures forall i, j :: 0 <= i < j < |r| ==> r[i] != r[j]
    ensures forall i, j :: 0 <= i < j < |r| ==> FirstIndex(s, r[i]) < FirstIndex(s, r[j])
  {
    if s == [] then []
    else
      var init, last := s[..|s| - 1], s[|s| - 1];
      assert s == init + [last];
      var d := Distinct(init);
      FirstIndexAppend(init, last);
      if last in d then d
      else
        FirstIndexUnique(s, last, |init|);
        d + [last]
  }

  /** The first occurrence is the only index holding `x` with no `x` before it. */
  lemma FirstIndexUnique<T>(s: seq<T>, x: T, k: nat)
    requires k < |s| && s[k] == x && x !in s[..k]
    ensures FirstIndex(s, x) == k
  {
  }

  /** Appending an element moves no first occurrence of the earlier elements. */
  lemma FirstIndexAppend<T(!new)>(init: seq<T>, last: T)
    ensures forall x :: x in init ==> FirstIndex(init + [last], x) == FirstIndex(init, x)
  {
    forall x | x in init ensures FirstIndex(init + [last], x) == FirstIndex(init, x) {
      var k := FirstIndex(init, x);
      assert (init + [last])[..k] == init[..k];
      FirstIndexUnique(init + [last], x, k);
    }
  }

  lemma {:induction false} FilterMembership<T(!new)>(s: seq<T>, p: T -> bool)
    ensures forall x :: x in Filter(s, p) <==> x in s && p(x)
  {
    if s != [] {
      FilterMembership(s[1..], p);
      assert s == [s[0]] + s[1..];
    }
  }

  /** Filtering keeps every copy of a passing element and no copy of a failing one. */
  lemma {:induction false} FilterCount<T(!new)>(s: seq<T>, p: T -> bool)
    ensures forall x :: multiset(Filter(s, p))[x] == if p(x) then multiset(s)[x] else 0
  {
    if s != [] {
      FilterCount(s[1..], p);
      assert s == [s[0]] + s[1..];
      assert multiset(s) == multiset{s[0]} + multiset(s[1..]);
    }
  }

  lemma {:induction false} FilterIsSubsequence<T>(s: seq<T>, p: T -> bool)
    ensures IsSubsequence(Filter(s, p), s)
  {
    if s != [] {
      FilterIsSubsequence(s[1..], p);
      var r := Filter(s, p);
      if p(s[0]) {
        assert r[0] == s[0] && r[1..] == Filter(s[1..], p);
      } else {
        assert r == Filter(s[1..], p);
      }
    }
  }

  /** A filter that every element passes changes nothing. */
  lemma {:induction false} FilterKeepsAll<T>(s: seq<T>, p: T -> bool)
    requires forall i :: 0 <= i < |s| ==> p(s[i])
    ensures Filter(s, p) == s
  {
    if s != [] {
      FilterKeepsAll(s[1..], p);
      assert s == [s[0]] + s[1..];
    }
  }

  lemma {:induction false} FilterConcat<T>(a: seq<T>, b: seq<T>, p: T -> bool)
    ensures Filter(a + b, p) == Filter(a, p) + Filter(b, p)
  {
    if a != [] {
      FilterConcat(a[1..], b, p);
      assert (a + b)[1..] == a[1..] + b;
    } else {
      assert a + b == b;
    }
  }

  /** Filtering twice by the same predicate is filtering once. */
  lemma {:induction false} FilterIdempotent<T(!new)>(s: seq<T>, p: T -> bool)
    ensures Filter(Filter(s, p), p) == Filter(s, p)
  {
    FilterMembership(s, p);
    var r := Filter(s, p);
    forall i | 0 <= i < |r| ensures p(r[i]) {
      assert r[i] in Filter(s, p);
    }
    FilterKeepsAll(r, p);
  }

  /** Filtering keeps the order of first occurrences of the elements it keeps. */
  lemma {:induction false} FilterKeepsFirstOrder<T(!new)>(s: seq<T>, p: T -> bool, x: T, y: T)
    requires x in Filter(s, p) && y in Filter(s, p)
    ensures x in s && y in s
    ensures FirstIndex(Filter(s, p), x) < FirstIndex(Filter(s, p), y) <==> FirstIndex(s, x) < FirstIndex(s, y)
  {
    FilterMembership(s, p);
    var rest := s[1..];
    var f := Filter(s, p);
    FilterMembership(rest, p);
    if p(s[0]) {
      assert f == [s[0]] + Filter(rest, p);
      if x != s[0] && y != s[0] {
        assert x in Filter(rest, p) && y in Filter(rest, p);
        FilterKeepsFirstOrder(rest, p, x, y);
      }
    } else {
      assert f == Filter(rest, p);
      assert x != s[0] && y != s[0];
      FilterKeepsFirstOrder(rest, p, x, y);
    }
  }

  lemma ConsIndex<T>(head: T, d: seq<T>, a: int)
    requires 1 <= a <= |d|
    ensures ([head] + d)[a] == d[a - 1]
  {
  }

  /** `[head, ...new Set(s.filter(p))]` lists the values after `head` in the
      order they first occur in `s`. */
  lemma DistinctFilterOrder<T(!new)>(s: seq<T>, p: T -> bool, head: T, a: int, b: int)
    requires 1 <= a < b < 1 + |Distinct(Filter(s, p))|
    ensures var r := [head] + Distinct(Filter(s, p));
      r[a] in s && r[b] in s && FirstIndex(s, r[a]) < FirstIndex(s, r[b])
  {
    var kept := Filter(s, p);
    var d := Distinct(kept);
    ConsIndex(head, d, a);
    ConsIndex(head, d, b);
    var x, y := d[a - 1], d[b - 1];
    assert x in kept && y in kept;
    assert FirstIndex(kept, x) < FirstIndex(kept, y);
    FilterKeepsFirstOrder(s, p, x, y);
  }
}

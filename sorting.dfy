/** `Array.prototype.sort(compare)`, which the language specifies as stable:
    an insertion sort driven by a "not after" relation `le`. For a
    comparator that is a total preorder the stable sorted order is unique, so
    this is the order the views show. */
module Sorting {
  import opened Seqs

  /** `le` relates every pair one way or the other and is transitive. */
  ghost predicate TotalPreorder<T(!new)>(le: (T, T) -> bool) {
    (forall a, b :: le(a, b) || le(b, a)) &&
    (forall a, b, c :: le(a, b) && le(b, c) ==> le(a, c))
  }

  ghost predicate SortedBy<T>(s: seq<T>, le: (T, T) -> bool) {
    forall i, j :: 0 <= i < j < |s| ==> le(s[i], s[j])
  }

  /** Puts `x` in front of the first element it is not after. */
  function Insert<T>(x: T, t: seq<T>, le: (T, T) -> bool): (r: seq<T>)
    ensures multiset(r) == multiset(t) + multiset{x}
    ensures |r| == |t| + 1
  {
    if t == [] then [x]
    else if le(x, t[0]) then [x] + t
    else
      assert t == [t[0]] + t[1..];
      [t[0]] + Insert(x, t[1..], le)
  }

  /** Sorts `s`; an element is never moved behind a later element that it is
      not after. */
  function SortBy<T>(s: seq<T>, le: (T, T) -> bool): (r: seq<T>)
    ensures multiset(r) == multiset(s)
    ensures |r| == |s|
  {
    if s == [] then []
    else
      assert s == [s[0]] + s[1..];
      Insert(s[0], SortBy(s[1..], le), le)
  }

  lemma {:induction false} InsertKeepsSorted<T(!new)>(x: T, t: seq<T>, le: (T, T) -> bool)
    requires TotalPreorder(le)
    requires SortedBy(t, le)
    ensures SortedBy(Insert(x, t, le), le)
    decreases |t|
  {
    if t != [] && !le(x, t[0]) {
      var rest := Insert(x, t[1..], le);
      InsertKeepsSorted(x, t[1..], le);
      assert le(t[0], x);
      forall y | y in multiset(rest) ensures le(t[0], y) {
        assert y == x || y in multiset(t[1..]);
        if y != x {
          var k :| 0 <= k < |t[1..]| && t[1..][k] == y;
          assert t[k + 1] == y;
        }
      }
      var r := [t[0]] + rest;
      forall i, j | 0 <= i < j < |r| ensures le(r[i], r[j]) {
        if i == 0 {
          assert r[j] == rest[j - 1];
          assert rest[j - 1] in multiset(rest);
        } else {
          assert r[i] == rest[i - 1] && r[j] == rest[j - 1];
        }
      }
    }
  }

  /** The result is in order. */
  lemma {:induction false} SortBySorted<T(!new)>(s: seq<T>, le: (T, T) -> bool)
    requires TotalPreorder(le)
    ensures SortedBy(SortBy(s, le), le)
    decreases |s|
  {
    if s != [] {
      SortBySorted(s[1..], le);
      InsertKeepsSorted(s[0], SortBy(s[1..], le), le);
    }
  }

  /** A list already in order is left as it is. */
  lemma {:induction false} SortedIsFixed<T>(s: seq<T>, le: (T, T) -> bool)
    requires SortedBy(s, le)
    ensures SortBy(s, le) == s
    decreases |s|
  {
    if s != [] {
      SortedIsFixed(s[1..], le);
      assert s == [s[0]] + s[1..];
      if |s| > 1 {
        assert le(s[0], s[1..][0]);
      }
    }
  }

  /** Sorting twice is sorting once. */
  lemma SortByIdempotent<T(!new)>(s: seq<T>, le: (T, T) -> bool)
    requires TotalPreorder(le)
    ensures SortBy(SortBy(s, le), le) == SortBy(s, le)
  {
    SortBySorted(s, le);
    SortedIsFixed(SortBy(s, le), le);
  }

  /** The elements that compare equal to `k` in both directions. */
  function SameKey<T>(le: (T, T) -> bool, k: T): T -> bool {
    y => le(y, k) && le(k, y)
  }

  lemma {:induction false} InsertStable<T>(x: T, t: seq<T>, le: (T, T) -> bool, k: T)
    requires forall y :: le(x, k) && le(k, y) ==> le(x, y)
    ensures Filter(Insert(x, t, le), SameKey(le, k)) ==
            (if SameKey(le, k)(x) then [x] else []) + Filter(t, SameKey(le, k))
    decreases |t|
  {
    var p := SameKey(le, k);
    if t == [] {
    } else if le(x, t[0]) {
      FilterCons(x, t, p);
    } else {
      InsertStable(x, t[1..], le, k);
      if p(x) {
        // `x` is after `t[0]` and has the key `k`, so `t[0]` is before `k`.
        assert !le(k, t[0]);
      }
      FilterPastHead(x, t[0], t[1..], Insert(x, t[1..], le), p);
      assert [t[0]] + t[1..] == t;
    }
  }

  /** Inserting `x` behind a head of another key does not change the order
      of the class of `x`. */
  lemma FilterPastHead<T>(x: T, head: T, tail: seq<T>, rest: seq<T>, p: T -> bool)
    requires Filter(rest, p) == (if p(x) then [x] else []) + Filter(tail, p)
    requires p(x) ==> !p(head)
    ensures Filter([head] + rest, p) == (if p(x) then [x] else []) + Filter([head] + tail, p)
  {
    var f := Filter(tail, p);
    FilterCons(head, rest, p);
    FilterCons(head, tail, p);
    if p(head) {
      assert Filter(rest, p) == f;
      assert Filter([head] + rest, p) == [head] + f;
      assert Filter([head] + tail, p) == [head] + f;
    } else {
      assert Filter([head] + tail, p) == f;
    }
  }

  lemma FilterCons<T>(a: T, s: seq<T>, p: T -> bool)
    ensures Filter([a] + s, p) == (if p(a) then [a] else []) + Filter(s, p)
  {
    assert ([a] + s)[0] == a && ([a] + s)[1..] == s;
  }

  /** The sort is stable: the elements of every class of equal keys appear in
      the result in the order they had in the input. */
  lemma {:induction false} SortByStable<T(!new)>(s: seq<T>, le: (T, T) -> bool, k: T)
    requires TotalPreorder(le)
    ensures Filter(SortBy(s, le), SameKey(le, k)) == Filter(s, SameKey(le, k))
    decreases |s|
  {
    if s != [] {
      SortByStable(s[1..], le, k);
      InsertStable(s[0], SortBy(s[1..], le), le, k);
    }
  }
}

/** Python's `list.sort(key=..., reverse=True)`: a stable sort on descending scores.
    The matching engine relies on it twice, so it is defined once here and pinned
    down by three facts: the result is ordered, holds the same elements, and keeps
    the input order among elements of equal score. */
module StableSort {

  ghost predicate Descending<T>(s: seq<T>, score: T -> real) {
    forall i, j :: 0 <= i < j < |s| ==> score(s[i]) >= score(s[j])
  }

  /** The place of a new front element: before the first element that does not beat it. */
  function InsertAt<T>(x: T, s: seq<T>, score: T -> real): (n: nat)
    ensures n <= |s|
    ensures forall i :: 0 <= i < n ==> score(s[i]) > score(x)
    ensures n < |s| ==> score(s[n]) <= score(x)
  {
    if s == [] || score(s[0]) <= score(x) then 0 else 1 + InsertAt(x, s[1..], score)
  }

  function Insert<T>(x: T, s: seq<T>, score: T -> real): seq<T> {
    var n := InsertAt(x, s, score);
    s[..n] + [x] + s[n..]
  }

  function Sorted<T>(s: seq<T>, score: T -> real): seq<T> {
    if s == [] then [] else Insert(s[0], Sorted(s[1..], score), score)
  }

  lemma {:induction false} SortedIsDescending<T>(s: seq<T>, score: T -> real)
    ensures Descending(Sorted(s, score), score)
  {
    if s != [] {
      SortedIsDescending(s[1..], score);
    }
  }

  lemma InsertIsPermutation<T>(x: T, s: seq<T>, score: T -> real)
    ensures |Insert(x, s, score)| == |s| + 1
    ensures multiset(Insert(x, s, score)) == multiset(s) + multiset{x}
  {
    var n := InsertAt(x, s, score);
    calc {
      multiset(s[..n] + [x] + s[n..]);
      multiset(s[..n]) + multiset{x} + multiset(s[n..]);
      { assert s == s[..n] + s[n..]; }
      multiset(s) + multiset{x};
    }
  }

  lemma {:induction false} SortedIsPermutation<T>(s: seq<T>, score: T -> real)
    ensures |Sorted(s, score)| == |s|
    ensures multiset(Sorted(s, score)) == multiset(s)
  {
    if s != [] {
      SortedIsPermutation(s[1..], score);
      InsertIsPermutation(s[0], Sorted(s[1..], score), score);
      assert s == [s[0]] + s[1..];
    }
  }

  lemma SortedMember<T>(s: seq<T>, score: T -> real, x: T)
    ensures x in Sorted(s, score) <==> x in s
  {
    SortedIsPermutation(s, score);
    assert x in Sorted(s, score) <==> x in multiset(Sorted(s, score));
    assert x in s <==> x in multiset(s);
  }

  /** The elements of one score, in the order they stand. */
  ghost function OfScore<T>(s: seq<T>, score: T -> real, v: real): seq<T> {
    if s == [] then [] else (if score(s[0]) == v then [s[0]] else []) + OfScore(s[1..], score, v)
  }

  lemma {:induction false} OfScoreConcat<T>(a: seq<T>, b: seq<T>, score: T -> real, v: real)
    ensures OfScore(a + b, score, v) == OfScore(a, score, v) + OfScore(b, score, v)
  {
    if a == [] {
      assert a + b == b;
    } else {
      assert (a + b)[0] == a[0] && (a + b)[1..] == a[1..] + b;
      OfScoreConcat(a[1..], b, score, v);
      var h, x, y := if score(a[0]) == v then [a[0]] else [], OfScore(a[1..], score, v), OfScore(b, score, v);
      assert h + (x + y) == (h + x) + y;
    }
  }

  lemma {:induction false} OfScoreNone<T>(s: seq<T>, score: T -> real, v: real)
    requires forall x :: x in s ==> score(x) != v
    ensures OfScore(s, score, v) == []
  {
    if s != [] {
      OfScoreNone(s[1..], score, v);
    }
  }

  lemma InsertIsStable<T>(x: T, s: seq<T>, score: T -> real, v: real)
    ensures OfScore(Insert(x, s, score), score, v) == (if score(x) == v then [x] else []) + OfScore(s, score, v)
  {
    var n := InsertAt(x, s, score);
    var front, back := s[..n], s[n..];
    assert s == front + back;
    OfScoreConcat(front, back, score, v);
    OfScoreConcat(front + [x], back, score, v);
    OfScoreConcat(front, [x], score, v);
    assert OfScore([x], score, v) == if score(x) == v then [x] else [];
    if score(x) == v {
      OfScoreNone(front, score, v);
    }
  }

  lemma {:induction false} SortedIsStable<T>(s: seq<T>, score: T -> real, v: real)
    ensures OfScore(Sorted(s, score), score, v) == OfScore(s, score, v)
  {
    if s != [] {
      SortedIsStable(s[1..], score, v);
      InsertIsStable(s[0], Sorted(s[1..], score), score, v);
    }
  }

  ghost predicate Distinct<T, K>(s: seq<T>, key: T -> K) {
    forall i, j :: 0 <= i < j < |s| ==> key(s[i]) != key(s[j])
  }

  lemma InsertKeepsDistinct<T, K>(x: T, s: seq<T>, score: T -> real, key: T -> K)
    requires Distinct(s, key) && forall y :: y in s ==> key(y) != key(x)
    ensures Distinct(Insert(x, s, score), key)
  {
    var n, r := InsertAt(x, s, score), Insert(x, s, score);
    assert forall i :: 0 <= i < |r| ==> r[i] == if i < n then s[i] else if i == n then x else s[i - 1];
  }

  lemma {:induction false} SortedKeepsDistinct<T, K>(s: seq<T>, score: T -> real, key: T -> K)
    requires Distinct(s, key)
    ensures Distinct(Sorted(s, score), key)
  {
    if s != [] {
      var rest := s[1..];
      assert forall i :: 0 <= i < |rest| ==> rest[i] == s[i + 1];
      SortedKeepsDistinct(rest, score, key);
      forall y | y in Sorted(rest, score) ensures key(y) != key(s[0]) {
        SortedMember(rest, score, y);
        var i :| 0 <= i < |rest| && rest[i] == y;
        assert s[i + 1] == y;
      }
      InsertKeepsDistinct(s[0], Sorted(rest, score), score, key);
    }
  }
}

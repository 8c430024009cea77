/** `update_suggestions_with_candidate` on the `top_matches` of one transaction: a candidate that
    arrives (again) replaces its own weaker entry, fills a free place, or evicts the weakest entry.
    The list kept this way is compared with the offline answer over everything seen so far. */
module TopMatches {
  import opened Scoring
  import opened StableSort

  type Top = seq<Suggestion>

  /** The first entry of the candidate, or the length of the list. */
  function PlaceOf(top: Top, key: Key): (i: nat)
    ensures i <= |top|
    ensures i < |top| ==> KeyOf(top[i]) == key
    ensures forall j :: 0 <= j < i ==> KeyOf(top[j]) != key
  {
    if top == [] || KeyOf(top[0]) == key then 0 else 1 + PlaceOf(top[1..], key)
  }

  /** The first entry of lowest score. */
  function Weakest(top: Top): (i: nat)
    requires top != []
    ensures i < |top|
    ensures forall j :: 0 <= j < |top| ==> top[i].score <= top[j].score
  {
    if |top| == 1 then 0
    else
      var i := 1 + Weakest(top[1..]);
      assert forall j :: 1 <= j < |top| ==> top[j] == top[1..][j - 1];
      if top[0].score <= top[i].score then 0 else i
  }

  /** The list before it is sorted again; unchanged when the arrival changes nothing. */
  function Placed(top: Top, s: Suggestion, k: int): Top {
    var i := PlaceOf(top, KeyOf(s));
    if i < |top| then (if s.score > top[i].score then top[i := s] else top)
    else if |top| < k then top + [s]
    else if top != [] && s.score > top[Weakest(top)].score then top[Weakest(top) := s]
    else top
  }

  predicate Changes(top: Top, s: Suggestion, k: int) {
    var i := PlaceOf(top, KeyOf(s));
    if i < |top| then s.score > top[i].score
    else |top| < k || (top != [] && s.score > top[Weakest(top)].score)
  }

  function Update(top: Top, s: Suggestion, k: int): Top {
    if Changes(top, s, k) then Sorted(Placed(top, s, k), ScoreOf) else top
  }

  method FindPlace(top: Top, key: Key) returns (i: nat)
    ensures i == PlaceOf(top, key)
  {
    i := 0;
    while i < |top| && KeyOf(top[i]) != key
      invariant i <= |top|
      invariant forall j :: 0 <= j < i ==> KeyOf(top[j]) != key
    {
      i := i + 1;
    }
  }

  method FindWeakest(top: Top) returns (worst: nat)
    requires top != []
    ensures worst == Weakest(top)
  {
    worst := 0;
    for j := 1 to |top|
      invariant worst < j
      invariant forall n :: 0 <= n < j ==> top[worst].score <= top[n].score
      invariant forall n :: 0 <= n < worst ==> top[n].score > top[worst].score
    {
      if top[j].score < top[worst].score {
        worst := j;
      }
    }
    WeakestIsFirst(top, worst);
  }

  /** The update as the code runs it: search, replace or append or evict, sort again. */
  method UpdateTop(top: Top, s: Suggestion, k: int) returns (r: Top, replaced: bool)
    ensures r == Update(top, s, k) && replaced == Changes(top, s, k)
  {
    var i := FindPlace(top, KeyOf(s));
    r, replaced := top, false;
    if i < |top| {
      if s.score > top[i].score {
        r, replaced := top[i := s], true;
      }
    } else if |top| < k {
      r, replaced := top + [s], true;
    } else if top != [] {
      var worst := FindWeakest(top);
      if s.score > top[worst].score {
        r, replaced := top[worst := s], true;
      }
    }
    if replaced {
      r := Sorted(r, ScoreOf);
    }
  }

  lemma {:induction false} WeakestIsFirst(top: Top, i: nat)
    requires i < |top|
    requires forall j :: 0 <= j < |top| ==> top[i].score <= top[j].score
    requires forall j :: 0 <= j < i ==> top[j].score > top[i].score
    ensures Weakest(top) == i
  {
    if |top| > 1 {
      var tail := top[1..];
      assert forall j :: 0 <= j < |tail| ==> tail[j] == top[j + 1];
      if i > 0 {
        WeakestIsFirst(tail, i - 1);
      }
    }
  }

  /** An arrival changes a list exactly when it beats the candidate's own entry, or has none and finds a
      free place or an entry it beats. */
  lemma ChangesExactly(top: Top, s: Suggestion, k: int)
    requires forall i, j :: 0 <= i < j < |top| ==> KeyOf(top[i]) != KeyOf(top[j])
    ensures Changes(top, s, k) <==>
            && (forall j :: 0 <= j < |top| && KeyOf(top[j]) == KeyOf(s) ==> top[j].score < s.score)
            && ((exists j :: 0 <= j < |top| && KeyOf(top[j]) == KeyOf(s)) || |top| < k || exists j :: 0 <= j < |top| && top[j].score < s.score)
    ensures !Changes(top, s, k) ==> Update(top, s, k) == top
    ensures Changes(top, s, k) ==> s in Update(top, s, k)
  {
    var i := PlaceOf(top, KeyOf(s));
    if Changes(top, s, k) {
      var placed := Placed(top, s, k);
      SortedMember(placed, ScoreOf, s);
      assert s in placed by {
        if i == |top| && |top| < k { assert placed[|top|] == s; }
        else if i == |top| { assert placed[Weakest(top)] == s; }
        else { assert placed[i] == s; }
      }
    }
  }

  // ----- The offline answer

  /** The best score seen for each candidate. */
  type Best = map<Key, real>

  function Seen(best: Best, s: Suggestion): Best {
    var key := KeyOf(s);
    best[key := if key in best && best[key] >= s.score then best[key] else s.score]
  }

  ghost predicate Holds(top: Top, key: Key) { exists i :: 0 <= i < |top| && KeyOf(top[i]) == key }

  /** The entries of a k-best list of `best`, in any order: one per candidate, each at its best score,
      and whatever is missing is beaten by a full list. */
  ghost predicate IsSelection(top: Top, best: Best, k: int) {
    && Distinct(top, KeyOf)
    && (forall i :: 0 <= i < |top| ==> KeyOf(top[i]) in best && best[KeyOf(top[i])] == top[i].score)
    && |top| <= k
    && (forall key :: key in best && !Holds(top, key) ==> Beaten(top, best[key], k))
  }

  ghost predicate Beaten(top: Top, score: real, k: int) {
    |top| == k && forall i :: 0 <= i < |top| ==> score <= top[i].score
  }

  /** `top` is the sorted k-best list of `best`. */
  ghost predicate IsTop(top: Top, best: Best, k: int) { Descending(top, ScoreOf) && IsSelection(top, best, k) }

  lemma HoldsSorted(top: Top, key: Key)
    ensures Holds(Sorted(top, ScoreOf), key) <==> Holds(top, key)
  {
    var r := Sorted(top, ScoreOf);
    if i :| 0 <= i < |r| && KeyOf(r[i]) == key {
      SortedMember(top, ScoreOf, r[i]);
      assert r[i] in top;
    }
    if i :| 0 <= i < |top| && KeyOf(top[i]) == key {
      SortedMember(top, ScoreOf, top[i]);
      assert top[i] in r;
    }
  }

  lemma SortedSelection(top: Top, best: Best, k: int)
    requires IsSelection(top, best, k)
    ensures IsTop(Sorted(top, ScoreOf), best, k)
  {
    var r := Sorted(top, ScoreOf);
    SortedIsDescending(top, ScoreOf);
    SortedKeepsDistinct(top, ScoreOf, KeyOf);
    SortedIsPermutation(top, ScoreOf);
    forall i | 0 <= i < |r| ensures exists j :: 0 <= j < |top| && top[j] == r[i] {
      SortedMember(top, ScoreOf, r[i]);
      assert r[i] in top;
    }
    forall key | key in best && !Holds(r, key) ensures Beaten(r, best[key], k) {
      HoldsSorted(top, key);
    }
  }

  // ----- One arrival keeps the list a k-best list

  lemma HoldsReplaced(top: Top, i: nat, s: Suggestion, key: Key)
    requires i < |top|
    ensures Holds(top[i := s], KeyOf(s))
    ensures Holds(top, key) && key != KeyOf(top[i]) ==> Holds(top[i := s], key)
  {
    var r := top[i := s];
    assert KeyOf(r[i]) == KeyOf(s);
    if Holds(top, key) && key != KeyOf(top[i]) {
      var j :| 0 <= j < |top| && KeyOf(top[j]) == key;
      assert KeyOf(r[j]) == key;
    }
  }

  lemma ReplaceOwn(top: Top, best: Best, s: Suggestion, k: int, i: nat)
    requires IsSelection(top, best, k) && i < |top| && KeyOf(top[i]) == KeyOf(s) && s.score > top[i].score
    ensures IsSelection(top[i := s], Seen(best, s), k)
  {
    var r, best' := top[i := s], Seen(best, s);
    assert best'[KeyOf(s)] == s.score;
    forall key | key in best' && !Holds(r, key) ensures Beaten(r, best'[key], k) {
      HoldsReplaced(top, i, s, key);
      assert Beaten(top, best[key], k);
    }
  }

  lemma FillFree(top: Top, best: Best, s: Suggestion, k: int)
    requires IsSelection(top, best, k) && !Holds(top, KeyOf(s)) && |top| < k
    ensures IsSelection(top + [s], Seen(best, s), k)
  {
    var r := top + [s];
    assert KeyOf(s) !in best;
    forall key | key in Seen(best, s) ensures Holds(r, key) {
      if key == KeyOf(s) {
        assert KeyOf(r[|top|]) == key;
      } else {
        var j :| 0 <= j < |top| && KeyOf(top[j]) == key;
        assert KeyOf(r[j]) == key;
      }
    }
  }

  lemma EvictWeakest(top: Top, best: Best, s: Suggestion, k: int, worst: nat)
    requires IsSelection(top, best, k) && !Holds(top, KeyOf(s)) && |top| == k
    requires worst < |top| && s.score > top[worst].score && forall j :: 0 <= j < |top| ==> top[worst].score <= top[j].score
    ensures IsSelection(top[worst := s], Seen(best, s), k)
  {
    var best' := Seen(best, s);
    var r := top[worst := s];
    assert best'[KeyOf(s)] == s.score;
    assert Distinct(r, KeyOf) by {
      forall i | 0 <= i < |top| ensures KeyOf(top[i]) != KeyOf(s) {}
    }
    forall key | key in best' && !Holds(r, key) ensures Beaten(r, best'[key], k) {
      HoldsReplaced(top, worst, s, key);
      if key == KeyOf(top[worst]) {
        assert best'[key] == top[worst].score;
      } else {
        assert Beaten(top, best[key], k);
      }
    }
  }

  /** An arrival that does not beat its own entry, or any entry of a full list, changes nothing. */
  lemma KeepOut(top: Top, best: Best, s: Suggestion, k: int)
    requires IsSelection(top, best, k) && !Holds(top, KeyOf(s)) && Beaten(top, s.score, k)
    ensures IsSelection(top, Seen(best, s), k)
  {
    var best' := Seen(best, s);
    forall key | key in best' && !Holds(top, key) ensures Beaten(top, best'[key], k) {
      if key in best {
        assert Beaten(top, best[key], k);
      }
    }
  }

  lemma KeepOwn(top: Top, best: Best, s: Suggestion, k: int, i: nat)
    requires IsSelection(top, best, k) && i < |top| && KeyOf(top[i]) == KeyOf(s) && s.score <= top[i].score
    ensures Seen(best, s) == best
  {
    assert KeyOf(s) in best && best[KeyOf(s)] == top[i].score;
  }

  lemma PlacedIsSelection(top: Top, best: Best, s: Suggestion, k: int)
    requires IsSelection(top, best, k)
    ensures IsSelection(Placed(top, s, k), Seen(best, s), k)
  {
    var i := PlaceOf(top, KeyOf(s));
    if i < |top| {
      if s.score > top[i].score {
        ReplaceOwn(top, best, s, k, i);
      } else {
        KeepOwn(top, best, s, k, i);
      }
    } else {
      assert !Holds(top, KeyOf(s));
      if |top| < k {
        FillFree(top, best, s, k);
      } else if top != [] && s.score > top[Weakest(top)].score {
        EvictWeakest(top, best, s, k, Weakest(top));
      } else {
        KeepOut(top, best, s, k);
      }
    }
  }

  lemma UpdateKeepsTop(top: Top, best: Best, s: Suggestion, k: int)
    requires IsTop(top, best, k)
    ensures IsTop(Update(top, s, k), Seen(best, s), k)
  {
    PlacedIsSelection(top, best, s, k);
    if Changes(top, s, k) {
      SortedSelection(Placed(top, s, k), Seen(best, s), k);
    }
  }

  // ----- Whole runs of arrivals

  function UpdateAll(top: Top, arrivals: seq<Suggestion>, k: int): Top
    decreases |arrivals|
  {
    if arrivals == [] then top else UpdateAll(Update(top, arrivals[0], k), arrivals[1..], k)
  }

  function SeenAll(best: Best, arrivals: seq<Suggestion>): Best
    decreases |arrivals|
  {
    if arrivals == [] then best else SeenAll(Seen(best, arrivals[0]), arrivals[1..])
  }

  /** The candidates of a list at their listed scores. */
  function Listed(top: Top): (best: Best)
    ensures forall key :: key in best <==> exists i :: 0 <= i < |top| && KeyOf(top[i]) == key
  {
    map i | 0 <= i < |top| :: KeyOf(top[i]) := top[PlaceOf(top, KeyOf(top[i]))].score
  }

  lemma {:induction false} RunKeepsTop(top: Top, best: Best, arrivals: seq<Suggestion>, k: int)
    requires IsTop(top, best, k)
    ensures IsTop(UpdateAll(top, arrivals, k), SeenAll(best, arrivals), k)
    decreases |arrivals|
  {
    if arrivals != [] {
      UpdateKeepsTop(top, best, arrivals[0], k);
      RunKeepsTop(Update(top, arrivals[0], k), Seen(best, arrivals[0]), arrivals[1..], k);
    }
  }

  /** From any sorted list of at most `k` different candidates, and after any arrivals with any
      repeats, the list is the k-best list of the best scores seen. */
  lemma OnlineIsOffline(top: Top, arrivals: seq<Suggestion>, k: int)
    requires Descending(top, ScoreOf) && Distinct(top, KeyOf) && |top| <= k
    ensures IsTop(UpdateAll(top, arrivals, k), SeenAll(Listed(top), arrivals), k)
  {
    ListedIsSelection(top, k);
    RunKeepsTop(top, Listed(top), arrivals, k);
  }

  lemma ListedIsSelection(top: Top, k: int)
    requires Distinct(top, KeyOf) && |top| <= k
    ensures IsSelection(top, Listed(top), k)
  {
    forall i | 0 <= i < |top| ensures PlaceOf(top, KeyOf(top[i])) == i {
      var j := PlaceOf(top, KeyOf(top[i]));
      assert KeyOf(top[j]) == KeyOf(top[i]);
    }
    forall key | key in Listed(top) ensures Holds(top, key) {}
  }

  /** `SeenAll` is what it says: the largest score of a candidate among the start and the arrivals. */
  lemma {:induction false} SeenIsMaximum(best: Best, arrivals: seq<Suggestion>, key: Key)
    ensures key in SeenAll(best, arrivals) <==> key in best || exists i :: 0 <= i < |arrivals| && KeyOf(arrivals[i]) == key
    ensures key in best ==> SeenAll(best, arrivals)[key] >= best[key]
    ensures forall i :: 0 <= i < |arrivals| && KeyOf(arrivals[i]) == key ==> SeenAll(best, arrivals)[key] >= arrivals[i].score
    ensures key in SeenAll(best, arrivals) ==>
              || (key in best && SeenAll(best, arrivals)[key] == best[key])
              || (exists i :: 0 <= i < |arrivals| && KeyOf(arrivals[i]) == key && SeenAll(best, arrivals)[key] == arrivals[i].score)
    decreases |arrivals|
  {
    if arrivals != [] {
      var rest := arrivals[1..];
      SeenIsMaximum(Seen(best, arrivals[0]), rest, key);
      assert forall i :: 0 <= i < |rest| ==> rest[i] == arrivals[i + 1];
      assert KeyOf(arrivals[0]) == key ==> key in SeenAll(best, arrivals);
    }
  }

  // ----- A k-best list has only one possible sequence of scores

  function Keys(top: Top): set<Key> { set i | 0 <= i < |top| :: KeyOf(top[i]) }

  lemma {:induction false} KeyCount(top: Top)
    requires Distinct(top, KeyOf)
    ensures |Keys(top)| == |top|
  {
    if top != [] {
      var n := |top| - 1;
      KeyCount(top[..n]);
      assert Keys(top) == Keys(top[..n]) + {KeyOf(top[n])};
    }
  }

  lemma SameLength(a: Top, b: Top, best: Best, k: int)
    requires IsTop(a, best, k) && IsTop(b, best, k)
    ensures |a| >= |b|
  {
    if |a| < k {
      KeyCount(a);
      KeyCount(b);
      forall key | key in Keys(b) ensures key in Keys(a) {
        assert Holds(a, key);
      }
      Subset(Keys(b), Keys(a));
    }
  }

  lemma {:induction false} Subset(a: set<Key>, b: set<Key>)
    requires a <= b
    ensures |a| <= |b|
  {
    assert b == a + (b - a);
  }

  /** Among the first `n + 1` entries of `a` one is not among the first `n` entries of `b`. */
  lemma OneLeftOver(a: Top, b: Top, n: nat) returns (i: nat)
    requires n < |a| && n < |b| && Distinct(a, KeyOf) && Distinct(b, KeyOf)
    ensures i <= n && forall j :: 0 <= j < n ==> KeyOf(b[j]) != KeyOf(a[i])
  {
    var x, y := a[..n + 1], b[..n];
    KeyCount(x);
    KeyCount(y);
    if Keys(x) <= Keys(y) {
      Subset(Keys(x), Keys(y));
    }
    var key :| key in Keys(x) && key !in Keys(y);
    i :| 0 <= i < |x| && KeyOf(x[i]) == key;
    forall j | 0 <= j < n ensures KeyOf(b[j]) != key {
      assert b[j] == y[j];
    }
  }

  lemma ScoresAreForced(a: Top, b: Top, best: Best, k: int, n: nat)
    requires IsTop(a, best, k) && IsTop(b, best, k) && n < |a| && n < |b|
    ensures a[n].score <= b[n].score
  {
    var i := OneLeftOver(a, b, n);
    var key := KeyOf(a[i]);
    assert ScoreOf(a[n]) <= ScoreOf(a[i]);
    if j :| 0 <= j < |b| && KeyOf(b[j]) == key {
      assert j >= n && ScoreOf(b[j]) <= ScoreOf(b[n]);
    } else {
      assert Beaten(b, best[key], k);
    }
  }

  /** Two k-best lists of the same scores show the same scores: the list kept online shows exactly
      the k largest. */
  lemma TopScoresAreUnique(a: Top, b: Top, best: Best, k: int)
    requires IsTop(a, best, k) && IsTop(b, best, k)
    ensures |a| == |b| && forall n :: 0 <= n < |a| ==> a[n].score == b[n].score
  {
    SameLength(a, b, best, k);
    SameLength(b, a, best, k);
    forall n | 0 <= n < |a| ensures a[n].score == b[n].score {
      ScoresAreForced(a, b, best, k, n);
      ScoresAreForced(b, a, best, k, n);
    }
  }

  function Least(k: nat, n: nat): nat { if k < n then k else n }

  /** A prefix of a sorted full list beats what it leaves out. */
  lemma PrefixIsSelection(s: Top, best: Best, k: nat)
    requires IsTop(s, best, |s|) && (forall key :: key in best ==> Holds(s, key))
    ensures IsTop(s[..Least(k, |s|)], best, k)
  {
    var n := Least(k, |s|);
    var r := s[..n];
    forall i, j | 0 <= i < j < |r| ensures ScoreOf(r[i]) >= ScoreOf(r[j]) && KeyOf(r[i]) != KeyOf(r[j]) {
      assert r[i] == s[i] && r[j] == s[j];
    }
    forall key | key in best && !Holds(r, key) ensures Beaten(r, best[key], k) {
      var i :| 0 <= i < |s| && KeyOf(s[i]) == key;
      assert i >= n by {
        assert forall j :: 0 <= j < n ==> KeyOf(r[j]) == KeyOf(s[j]);
      }
      forall j | 0 <= j < |r| ensures best[key] <= r[j].score {
        assert ScoreOf(s[i]) <= ScoreOf(s[j]);
      }
    }
  }

  /** Sorting everything and keeping the first `k` is such a list. */
  lemma PrefixIsTop(all: Top, best: Best, k: nat)
    requires Distinct(all, KeyOf) && (forall key :: key in best <==> Holds(all, key))
    requires forall i :: 0 <= i < |all| ==> KeyOf(all[i]) in best && best[KeyOf(all[i])] == all[i].score
    ensures IsTop(Sorted(all, ScoreOf)[..Least(k, |Sorted(all, ScoreOf)|)], best, k)
  {
    var s := Sorted(all, ScoreOf);
    SortedSelection(all, best, |all|);
    SortedIsPermutation(all, ScoreOf);
    forall key | key in best ensures Holds(s, key) {
      HoldsSorted(all, key);
    }
    PrefixIsSelection(s, best, k);
  }

  /** Online equals offline: after any run, the scores shown are those of "sort all best scores, keep k". */
  lemma OnlineScoresAreTheLargest(top: Top, arrivals: seq<Suggestion>, all: Top, k: nat, n: nat)
    requires Descending(top, ScoreOf) && Distinct(top, KeyOf) && |top| <= k
    requires Distinct(all, KeyOf) && forall key :: key in SeenAll(Listed(top), arrivals) <==> Holds(all, key)
    requires forall i :: 0 <= i < |all| ==>
      KeyOf(all[i]) in SeenAll(Listed(top), arrivals) && SeenAll(Listed(top), arrivals)[KeyOf(all[i])] == all[i].score
    ensures var s := Sorted(all, ScoreOf);
            var r := UpdateAll(top, arrivals, k);
            && |r| == Least(k, |s|)
            && (n < |r| ==> r[n].score == s[n].score)
  {
    var best := SeenAll(Listed(top), arrivals);
    var s := Sorted(all, ScoreOf);
    OnlineIsOffline(top, arrivals, k);
    PrefixIsTop(all, best, k);
    TopScoresAreUnique(UpdateAll(top, arrivals, k), s[..Least(k, |s|)], best, k);
  }

  /** What auto-dispatch reads: the first entry carries the best score of any candidate seen. */
  lemma FirstIsBest(top: Top, arrivals: seq<Suggestion>, k: int, key: Key)
    requires Descending(top, ScoreOf) && Distinct(top, KeyOf) && |top| <= k
    requires key in SeenAll(Listed(top), arrivals) && k > 0
    ensures var r := UpdateAll(top, arrivals, k); r != [] && r[0].score >= SeenAll(Listed(top), arrivals)[key]
  {
    var r, best := UpdateAll(top, arrivals, k), SeenAll(Listed(top), arrivals);
    OnlineIsOffline(top, arrivals, k);
    if i :| 0 <= i < |r| && KeyOf(r[i]) == key {
      assert ScoreOf(r[0]) >= ScoreOf(r[i]);
    } else {
      assert Beaten(r, best[key], k);
    }
  }

  /** The first entry of a list reaches a bound exactly when some candidate seen does. */
  lemma DispatchIffSomeHigh(top: Top, arrivals: seq<Suggestion>, k: int, bound: real)
    requires Descending(top, ScoreOf) && Distinct(top, KeyOf) && |top| <= k && k > 0
    ensures var r, best := UpdateAll(top, arrivals, k), SeenAll(Listed(top), arrivals);
            (r != [] && r[0].score >= bound) <==> exists key :: key in best && best[key] >= bound
  {
    var r, best := UpdateAll(top, arrivals, k), SeenAll(Listed(top), arrivals);
    OnlineIsOffline(top, arrivals, k);
    if r != [] {
      assert KeyOf(r[0]) in best && best[KeyOf(r[0])] == r[0].score;
    }
    if key :| key in best && best[key] >= bound {
      FirstIsBest(top, arrivals, k, key);
    }
  }
}

/** Phase 2 of `compute_suggestions`: the scored pairs are taken best first; a pair is
    skipped when its candidate is already claimed or its transaction is full. */
module GreedyAssignment {
  import opened Scoring
  import opened StableSort

  /** A scored pair; `suggestion` is what is handed to the transaction. */
  datatype Pair<S> = Pair(tx: string, cand: Key, score: real, suggestion: S)

  type Matches<S> = map<string, seq<S>>

  function PairScore<S>(p: Pair<S>): real { p.score }

  function MatchesOf<S>(m: Matches<S>, tx: string): seq<S> {
    if tx in m then m[tx] else []
  }

  predicate Open<S>(p: Pair<S>, m: Matches<S>, claimed: set<Key>, k: int) {
    p.cand !in claimed && |MatchesOf(m, p.tx)| < k
  }

  function Give<S>(p: Pair<S>, m: Matches<S>): Matches<S> {
    m[p.tx := MatchesOf(m, p.tx) + [p.suggestion]]
  }

  /** Which places of `pairs` the greedy pass takes, starting from `m` and `claimed`. */
  function Chosen<S>(pairs: seq<Pair<S>>, m: Matches<S>, claimed: set<Key>, k: int): (b: seq<bool>)
    ensures |b| == |pairs|
  {
    if pairs == [] then []
    else
      var p := pairs[0];
      if Open(p, m, claimed, k) then
        [true] + Chosen(pairs[1..], Give(p, m), claimed + {p.cand}, k)
      else
        [false] + Chosen(pairs[1..], m, claimed, k)
  }

  /** The suggestions of one transaction at the places marked in `mask`, in order. */
  function Picked<S>(pairs: seq<Pair<S>>, mask: seq<bool>, tx: string): seq<S>
    requires |mask| == |pairs|
  {
    if pairs == [] then []
    else (if mask[0] && pairs[0].tx == tx then [pairs[0].suggestion] else []) + Picked(pairs[1..], mask[1..], tx)
  }

  ghost function Total<S>(pairs: seq<Pair<S>>, mask: seq<bool>): real
    requires |mask| == |pairs|
  {
    if pairs == [] then 0.0
    else (if mask[0] then pairs[0].score else 0.0) + Total(pairs[1..], mask[1..])
  }

  ghost function Load<S>(pairs: seq<Pair<S>>, mask: seq<bool>, tx: string): nat
    requires |mask| == |pairs|
  {
    |Picked(pairs, mask, tx)|
  }

  /** The marked places use pairwise different candidates. */
  ghost predicate ApartOn<S>(pairs: seq<Pair<S>>, mask: seq<bool>)
    requires |mask| == |pairs|
  {
    forall i, j :: 0 <= i < j < |pairs| && mask[i] && mask[j] ==> pairs[i].cand != pairs[j].cand
  }

  ghost predicate Uses<S>(pairs: seq<Pair<S>>, mask: seq<bool>, cand: Key)
    requires |mask| == |pairs|
  {
    exists i :: 0 <= i < |pairs| && mask[i] && pairs[i].cand == cand
  }

  /** Any assignment of the same pairs that respects what is already taken: a free candidate
      at most once, and no transaction beyond `k`. */
  ghost predicate Feasible<S>(pairs: seq<Pair<S>>, mask: seq<bool>, m: Matches<S>, claimed: set<Key>, k: int)
    requires |mask| == |pairs|
  {
    && (forall i :: 0 <= i < |pairs| && mask[i] ==> pairs[i].cand !in claimed)
    && ApartOn(pairs, mask)
    && (forall tx :: Load(pairs, mask, tx) > 0 ==> Load(pairs, mask, tx) + |MatchesOf(m, tx)| <= k)
  }

  // ----- Facts about masks

  lemma {:induction false} LoadOfMarked<S>(pairs: seq<Pair<S>>, mask: seq<bool>, i: nat)
    requires |mask| == |pairs| && i < |pairs| && mask[i]
    ensures Load(pairs, mask, pairs[i].tx) > 0
  {
    if i > 0 {
      LoadOfMarked(pairs[1..], mask[1..], i - 1);
    }
  }

  lemma {:induction false} MarkedOfLoad<S>(pairs: seq<Pair<S>>, mask: seq<bool>, tx: string) returns (i: nat)
    requires |mask| == |pairs| && Load(pairs, mask, tx) > 0
    ensures i < |pairs| && mask[i] && pairs[i].tx == tx
  {
    if mask[0] && pairs[0].tx == tx {
      i := 0;
    } else {
      i := MarkedOfLoad(pairs[1..], mask[1..], tx);
      i := i + 1;
    }
  }

  /** Unmarking one place takes away its score and one unit of its transaction's load. */
  lemma {:induction false} Unmark<S>(pairs: seq<Pair<S>>, mask: seq<bool>, i: nat)
    requires |mask| == |pairs| && i < |pairs| && mask[i]
    ensures Total(pairs, mask) == Total(pairs, mask[i := false]) + pairs[i].score
    ensures forall tx :: Load(pairs, mask, tx) == Load(pairs, mask[i := false], tx) + (if tx == pairs[i].tx then 1 else 0)
  {
    if i == 0 {
      assert mask[i := false][1..] == mask[1..];
    } else {
      assert mask[i := false][1..] == mask[1..][i - 1 := false];
      Unmark(pairs[1..], mask[1..], i - 1);
      forall tx ensures Load(pairs, mask, tx) == Load(pairs, mask[i := false], tx) + (if tx == pairs[i].tx then 1 else 0) {
        assert Load(pairs[1..], mask[1..], tx) == Load(pairs[1..], mask[1..][i - 1 := false], tx) + (if tx == pairs[i].tx then 1 else 0);
      }
    }
  }

  // ----- Greedy against any other assignment

  /** `rest` marks no more than `mask` and gives up at most `worth`. */
  ghost predicate Trimmed<S>(pairs: seq<Pair<S>>, mask: seq<bool>, rest: seq<bool>, worth: real)
    requires |mask| == |pairs|
  {
    && |rest| == |pairs|
    && (forall i :: 0 <= i < |pairs| && rest[i] ==> mask[i])
    && (forall tx :: Load(pairs, rest, tx) <= Load(pairs, mask, tx))
    && Total(pairs, mask) <= Total(pairs, rest) + worth
  }

  lemma DropCandidate<S>(pairs: seq<Pair<S>>, mask: seq<bool>, cand: Key, worth: real) returns (rest: seq<bool>)
    requires |mask| == |pairs| && worth >= 0.0
    requires forall i :: 0 <= i < |pairs| ==> pairs[i].score <= worth
    requires ApartOn(pairs, mask)
    ensures Trimmed(pairs, mask, rest, worth)
    ensures forall i :: 0 <= i < |pairs| && rest[i] ==> pairs[i].cand != cand
  {
    rest := mask;
    if i :| 0 <= i < |pairs| && mask[i] && pairs[i].cand == cand {
      Unmark(pairs, mask, i);
      rest := mask[i := false];
    }
  }

  lemma DropLoad<S>(pairs: seq<Pair<S>>, mask: seq<bool>, tx: string, worth: real) returns (rest: seq<bool>)
    requires |mask| == |pairs| && worth >= 0.0
    requires forall i :: 0 <= i < |pairs| ==> pairs[i].score <= worth
    ensures Trimmed(pairs, mask, rest, worth)
    ensures Load(pairs, rest, tx) > 0 ==> Load(pairs, rest, tx) < Load(pairs, mask, tx)
  {
    rest := mask;
    if Load(pairs, mask, tx) > 0 {
      var i := MarkedOfLoad(pairs, mask, tx);
      Unmark(pairs, mask, i);
      rest := mask[i := false];
    }
  }

  /** When the head is taken, at most two entries of a rival assignment have to go: the one that
      uses the same candidate and one that uses the same transaction. */
  lemma MakeRoom<S>(pairs: seq<Pair<S>>, mask: seq<bool>, cand: Key, tx: string, worth: real) returns (rest: seq<bool>)
    requires |mask| == |pairs| && worth >= 0.0
    requires forall i :: 0 <= i < |pairs| ==> pairs[i].score <= worth
    requires ApartOn(pairs, mask)
    ensures Trimmed(pairs, mask, rest, 2.0 * worth)
    ensures forall i :: 0 <= i < |pairs| && rest[i] ==> pairs[i].cand != cand
    ensures Load(pairs, rest, tx) > 0 ==> Load(pairs, rest, tx) < Load(pairs, mask, tx)
  {
    var half := DropCandidate(pairs, mask, cand, worth);
    rest := DropLoad(pairs, half, tx, worth);
  }

  /** A rival assignment without its head entry, over the remaining pairs. */
  lemma TailFacts<S>(pairs: seq<Pair<S>>, mask: seq<bool>)
    requires |mask| == |pairs| && pairs != []
    ensures forall i :: 0 <= i < |pairs[1..]| ==> pairs[1..][i] == pairs[i + 1] && mask[1..][i] == mask[i + 1]
    ensures forall tx :: Load(pairs, mask, tx) == Load(pairs[1..], mask[1..], tx) + (if mask[0] && pairs[0].tx == tx then 1 else 0)
    ensures Total(pairs, mask) == Total(pairs[1..], mask[1..]) + (if mask[0] then pairs[0].score else 0.0)
  {
  }

  lemma RivalAfterTake<S>(pairs: seq<Pair<S>>, mask: seq<bool>, m: Matches<S>, claimed: set<Key>, k: int)
    returns (rest: seq<bool>)
    requires |mask| == |pairs| && pairs != [] && Feasible(pairs, mask, m, claimed, k)
    requires Descending(pairs, PairScore) && pairs[0].score >= 0.0
    requires Open(pairs[0], m, claimed, k)
    ensures |rest| == |pairs| - 1
    ensures Feasible(pairs[1..], rest, Give(pairs[0], m), claimed + {pairs[0].cand}, k)
    ensures Total(pairs, mask) <= 2.0 * pairs[0].score + Total(pairs[1..], rest)
  {
    var p, tail := pairs[0], pairs[1..];
    TailFacts(pairs, mask);
    assert forall i :: 0 <= i < |tail| ==> PairScore(tail[i]) <= PairScore(p);
    rest := mask[1..];
    if !mask[0] {
      rest := MakeRoom(tail, mask[1..], p.cand, p.tx, p.score);
    }
    forall tx | Load(tail, rest, tx) > 0 ensures Load(tail, rest, tx) + |MatchesOf(Give(p, m), tx)| <= k {
      assert Load(pairs, mask, tx) > 0;
    }
  }

  /** Greedy is a 1/2-approximation, from any partial assignment. */
  lemma {:induction false} HalfOptimalFrom<S>(pairs: seq<Pair<S>>, mask: seq<bool>, m: Matches<S>, claimed: set<Key>, k: int)
    requires |mask| == |pairs| && Feasible(pairs, mask, m, claimed, k)
    requires Descending(pairs, PairScore)
    requires forall p :: p in pairs ==> p.score >= 0.0
    ensures Total(pairs, mask) <= 2.0 * Total(pairs, Chosen(pairs, m, claimed, k))
  {
    if pairs != [] {
      var p, tail := pairs[0], pairs[1..];
      TailFacts(pairs, mask);
      assert Descending(tail, PairScore);
      if Open(p, m, claimed, k) {
        var rest := RivalAfterTake(pairs, mask, m, claimed, k);
        HalfOptimalFrom(tail, rest, Give(p, m), claimed + {p.cand}, k);
      } else {
        if mask[0] {
          LoadOfMarked(pairs, mask, 0);
        }
        HalfOptimalFrom(tail, mask[1..], m, claimed, k);
      }
    }
  }

  // ----- What the greedy pass guarantees about itself

  lemma FeasibleAfterTake<S>(pairs: seq<Pair<S>>, mask: seq<bool>, m: Matches<S>, claimed: set<Key>, k: int)
    requires |mask| == |pairs| && pairs != [] && mask[0] && Open(pairs[0], m, claimed, k)
    requires Feasible(pairs[1..], mask[1..], Give(pairs[0], m), claimed + {pairs[0].cand}, k)
    ensures Feasible(pairs, mask, m, claimed, k)
  {
    var p, tail, rest := pairs[0], pairs[1..], mask[1..];
    TailFacts(pairs, mask);
    assert ApartOn(pairs, mask) by {
      forall i, j | 0 <= i < j < |pairs| && mask[i] && mask[j] ensures pairs[i].cand != pairs[j].cand {
        assert rest[j - 1] && tail[j - 1] == pairs[j];
        assert i > 0 ==> rest[i - 1] && tail[i - 1] == pairs[i];
      }
    }
    forall tx | Load(pairs, mask, tx) > 0 ensures Load(pairs, mask, tx) + |MatchesOf(m, tx)| <= k {
      assert Load(tail, rest, tx) > 0 ==> Load(tail, rest, tx) + |MatchesOf(Give(p, m), tx)| <= k;
    }
  }

  lemma FeasibleAfterSkip<S>(pairs: seq<Pair<S>>, mask: seq<bool>, m: Matches<S>, claimed: set<Key>, k: int)
    requires |mask| == |pairs| && pairs != [] && !mask[0] && Feasible(pairs[1..], mask[1..], m, claimed, k)
    ensures Feasible(pairs, mask, m, claimed, k)
  {
    TailFacts(pairs, mask);
    forall tx | Load(pairs, mask, tx) > 0 ensures Load(pairs, mask, tx) + |MatchesOf(m, tx)| <= k {
      assert Load(pairs[1..], mask[1..], tx) > 0;
    }
  }

  /** From any partial assignment: no claimed candidate is taken again, none is taken twice,
      and no transaction is filled beyond `k`. */
  lemma {:induction false} ChosenIsFeasible<S>(pairs: seq<Pair<S>>, m: Matches<S>, claimed: set<Key>, k: int)
    ensures Feasible(pairs, Chosen(pairs, m, claimed, k), m, claimed, k)
  {
    if pairs != [] {
      var p := pairs[0];
      if Open(p, m, claimed, k) {
        ChosenIsFeasible(pairs[1..], Give(p, m), claimed + {p.cand}, k);
        FeasibleAfterTake(pairs, Chosen(pairs, m, claimed, k), m, claimed, k);
      } else {
        ChosenIsFeasible(pairs[1..], m, claimed, k);
        FeasibleAfterSkip(pairs, Chosen(pairs, m, claimed, k), m, claimed, k);
      }
    }
  }

  /** Why place `i` was passed over: its candidate went to an earlier place, or its transaction
      was filled by earlier places. */
  ghost predicate Blocked<S>(pairs: seq<Pair<S>>, mask: seq<bool>, i: nat, m: Matches<S>, claimed: set<Key>, k: int)
    requires |mask| == |pairs| && i < |pairs|
  {
    || pairs[i].cand in claimed
    || (exists j :: 0 <= j < i && mask[j] && pairs[j].cand == pairs[i].cand)
    || Load(pairs[..i], mask[..i], pairs[i].tx) + |MatchesOf(m, pairs[i].tx)| >= k
  }

  /** Being blocked among the later pairs, after the head was dealt with, is being blocked. */
  lemma BlockedInTail<S>(pairs: seq<Pair<S>>, mask: seq<bool>, i: nat, m: Matches<S>, claimed: set<Key>, k: int)
    requires |mask| == |pairs| && 0 < i < |pairs|
    requires Blocked(pairs[1..], mask[1..], i - 1, if mask[0] then Give(pairs[0], m) else m,
                     if mask[0] then claimed + {pairs[0].cand} else claimed, k)
    ensures Blocked(pairs, mask, i, m, claimed, k)
  {
    var p, tail, rest := pairs[0], pairs[1..], mask[1..];
    assert tail[i - 1] == pairs[i];
    if j :| 0 <= j < i - 1 && rest[j] && tail[j].cand == tail[i - 1].cand {
      assert mask[j + 1] && pairs[j + 1].cand == pairs[i].cand;
    } else if mask[0] && p.cand == pairs[i].cand {
    } else {
      assert pairs[..i][1..] == tail[..i - 1] && mask[..i][1..] == rest[..i - 1];
      TailFacts(pairs[..i], mask[..i]);
    }
  }

  lemma {:induction false} RejectedIsBlocked<S>(pairs: seq<Pair<S>>, i: nat, m: Matches<S>, claimed: set<Key>, k: int)
    requires i < |pairs| && !Chosen(pairs, m, claimed, k)[i]
    ensures Blocked(pairs, Chosen(pairs, m, claimed, k), i, m, claimed, k)
  {
    if i > 0 {
      var p := pairs[0];
      if Open(p, m, claimed, k) {
        RejectedIsBlocked(pairs[1..], i - 1, Give(p, m), claimed + {p.cand}, k);
      } else {
        RejectedIsBlocked(pairs[1..], i - 1, m, claimed, k);
      }
      BlockedInTail(pairs, Chosen(pairs, m, claimed, k), i, m, claimed, k);
    }
  }

  lemma {:induction false} PickedComesFrom<S>(pairs: seq<Pair<S>>, mask: seq<bool>, tx: string, x: S) returns (i: nat)
    requires |mask| == |pairs| && x in Picked(pairs, mask, tx)
    ensures i < |pairs| && mask[i] && pairs[i].tx == tx && pairs[i].suggestion == x
  {
    if mask[0] && pairs[0].tx == tx && pairs[0].suggestion == x {
      i := 0;
    } else {
      i := PickedComesFrom(pairs[1..], mask[1..], tx, x);
      i := i + 1;
    }
  }

  /** The suggestions handed to one transaction come out best first. */
  lemma {:induction false} PickedIsDescending<S>(pairs: seq<Pair<S>>, mask: seq<bool>, tx: string, scoreOf: S -> real)
    requires |mask| == |pairs| && Descending(pairs, PairScore)
    requires forall i :: 0 <= i < |pairs| ==> scoreOf(pairs[i].suggestion) == pairs[i].score
    ensures Descending(Picked(pairs, mask, tx), scoreOf)
  {
    if pairs != [] {
      var tail := pairs[1..];
      assert Descending(tail, PairScore);
      PickedIsDescending(tail, mask[1..], tx, scoreOf);
      forall x | x in Picked(tail, mask[1..], tx) ensures scoreOf(x) <= pairs[0].score {
        var i := PickedComesFrom(tail, mask[1..], tx, x);
        assert PairScore(pairs[i + 1]) <= PairScore(pairs[0]);
      }
    }
  }

  lemma {:induction false} TotalConcat<S>(a: seq<Pair<S>>, am: seq<bool>, b: seq<Pair<S>>, bm: seq<bool>)
    requires |am| == |a| && |bm| == |b|
    ensures Total(a + b, am + bm) == Total(a, am) + Total(b, bm)
  {
    if a == [] {
      assert a + b == b && am + bm == bm;
    } else {
      assert (a + b)[1..] == a[1..] + b && (am + bm)[1..] == am[1..] + bm;
      TotalConcat(a[1..], am[1..], b, bm);
    }
  }

  lemma {:induction false} PickedConcat<S>(a: seq<Pair<S>>, am: seq<bool>, b: seq<Pair<S>>, bm: seq<bool>, tx: string)
    requires |am| == |a| && |bm| == |b|
    ensures Picked(a + b, am + bm, tx) == Picked(a, am, tx) + Picked(b, bm, tx)
  {
    if a == [] {
      assert a + b == b && am + bm == bm;
    } else {
      assert (a + b)[1..] == a[1..] + b && (am + bm)[1..] == am[1..] + bm;
      PickedConcat(a[1..], am[1..], b, bm, tx);
    }
  }

  lemma PickedOne<S>(p: Pair<S>, b: bool, tx: string)
    ensures Picked([p], [b], tx) == if b && p.tx == tx then [p.suggestion] else []
    ensures Total([p], [b]) == if b then p.score else 0.0
  {
    assert [p][1..] == [] && [b][1..] == [];
    assert Picked([p][1..], [b][1..], tx) == [];
    assert Total([p][1..], [b][1..]) == 0.0;
  }

  lemma SpliceWorth<S>(a: seq<Pair<S>>, am: seq<bool>, p: Pair<S>, b: bool, c: seq<Pair<S>>, cm: seq<bool>, tx: string)
    requires |am| == |a| && |cm| == |c|
    ensures Total(a + [p] + c, am + [b] + cm) == Total(a + c, am + cm) + (if b then p.score else 0.0)
    ensures Load(a + [p] + c, am + [b] + cm, tx) == Load(a + c, am + cm, tx) + (if b && p.tx == tx then 1 else 0)
  {
    PickedOne(p, b, tx);
    TotalConcat(a, am, c, cm);
    TotalConcat(a, am, [p], [b]);
    TotalConcat(a + [p], am + [b], c, cm);
    PickedConcat(a, am, c, cm, tx);
    PickedConcat(a, am, [p], [b], tx);
    PickedConcat(a + [p], am + [b], c, cm, tx);
  }

  lemma SpliceApart<S>(s: seq<Pair<S>>, t: seq<bool>, n: nat, p: Pair<S>, b: bool)
    requires |t| == |s| && n <= |s| && ApartOn(s, t) && (b ==> !Uses(s, t, p.cand))
    ensures ApartOn(s[..n] + [p] + s[n..], t[..n] + [b] + t[n..])
    ensures forall c :: Uses(s[..n] + [p] + s[n..], t[..n] + [b] + t[n..], c) ==> Uses(s, t, c) || (b && c == p.cand)
  {
    var out, r := s[..n] + [p] + s[n..], t[..n] + [b] + t[n..];
    assert forall i :: 0 <= i < n ==> out[i] == s[i] && r[i] == t[i];
    assert out[n] == p && r[n] == b;
    assert forall i :: n < i < |out| ==> out[i] == s[i - 1] && r[i] == t[i - 1];
  }

  lemma InsertRival<S>(p: Pair<S>, b: bool, s: seq<Pair<S>>, t: seq<bool>) returns (r: seq<bool>)
    requires |t| == |s| && ApartOn(s, t) && (b ==> !Uses(s, t, p.cand))
    ensures |r| == |Insert(p, s, PairScore)|
    ensures Total(Insert(p, s, PairScore), r) == Total(s, t) + (if b then p.score else 0.0)
    ensures forall tx :: Load(Insert(p, s, PairScore), r, tx) == Load(s, t, tx) + (if b && p.tx == tx then 1 else 0)
    ensures ApartOn(Insert(p, s, PairScore), r)
    ensures forall c :: Uses(Insert(p, s, PairScore), r, c) ==> Uses(s, t, c) || (b && c == p.cand)
  {
    var n := InsertAt(p, s, PairScore);
    r := t[..n] + [b] + t[n..];
    SpliceApart(s, t, n, p, b);
    assert s == s[..n] + s[n..] && t == t[..n] + t[n..];
    SpliceWorth(s[..n], t[..n], p, b, s[n..], t[n..], "");
    forall tx ensures Load(Insert(p, s, PairScore), r, tx) == Load(s, t, tx) + (if b && p.tx == tx then 1 else 0) {
      SpliceWorth(s[..n], t[..n], p, b, s[n..], t[n..], tx);
    }
  }

  /** `r` marks in `s` what `mask` marks in `pairs`. */
  ghost predicate SameRival<S>(pairs: seq<Pair<S>>, mask: seq<bool>, s: seq<Pair<S>>, r: seq<bool>)
    requires |mask| == |pairs|
  {
    && |r| == |s|
    && Total(s, r) == Total(pairs, mask)
    && (forall tx :: Load(s, r, tx) == Load(pairs, mask, tx))
    && ApartOn(s, r)
    && (forall c :: Uses(s, r, c) ==> Uses(pairs, mask, c))
  }

  lemma ApartTail<S>(pairs: seq<Pair<S>>, mask: seq<bool>)
    requires |mask| == |pairs| && pairs != [] && ApartOn(pairs, mask)
    ensures ApartOn(pairs[1..], mask[1..])
    ensures mask[0] ==> !Uses(pairs[1..], mask[1..], pairs[0].cand)
    ensures forall c :: Uses(pairs[1..], mask[1..], c) || (mask[0] && c == pairs[0].cand) ==> Uses(pairs, mask, c)
  {
    assert forall i :: 0 <= i < |pairs| - 1 ==> pairs[1..][i] == pairs[i + 1] && mask[1..][i] == mask[i + 1];
  }

  /** A rival assignment of the pairs as collected is one of the pairs as sorted, of the same worth. */
  lemma {:induction false} SortedRival<S>(pairs: seq<Pair<S>>, mask: seq<bool>) returns (r: seq<bool>)
    requires |mask| == |pairs| && ApartOn(pairs, mask)
    ensures SameRival(pairs, mask, Sorted(pairs, PairScore), r)
  {
    if pairs == [] {
      r := [];
    } else {
      ApartTail(pairs, mask);
      var t := SortedRival(pairs[1..], mask[1..]);
      r := InsertRival(pairs[0], mask[0], Sorted(pairs[1..], PairScore), t);
      TailFacts(pairs, mask);
    }
  }

  // ----- The phase as a whole

  /** The places of the sorted pairs that end up in `tx_matches`. */
  function Outcome<S>(pairs: seq<Pair<S>>, k: int): (mask: seq<bool>)
    ensures |mask| == |Sorted(pairs, PairScore)|
  {
    Chosen(Sorted(pairs, PairScore), map[], {}, k)
  }

  ghost predicate Fits<S>(pairs: seq<Pair<S>>, mask: seq<bool>, k: int)
    requires |mask| == |pairs|
  {
    ApartOn(pairs, mask) && forall tx :: Load(pairs, mask, tx) > 0 ==> Load(pairs, mask, tx) <= k
  }

  /** No assignment of the collected pairs that uses each candidate at most once and gives each
      transaction at most `k` is worth more than twice what the greedy pass assigns. */
  lemma GreedyIsHalfOptimal<S>(pairs: seq<Pair<S>>, k: int, rival: seq<bool>)
    requires |rival| == |pairs| && Fits(pairs, rival, k)
    requires forall i :: 0 <= i < |pairs| ==> pairs[i].score >= 0.0
    ensures Total(pairs, rival) <= 2.0 * Total(Sorted(pairs, PairScore), Outcome(pairs, k))
  {
    var sorted := Sorted(pairs, PairScore);
    var mask := SortedRival(pairs, rival);
    SortedIsDescending(pairs, PairScore);
    forall p | p in sorted ensures p.score >= 0.0 {
      SortedMember(pairs, PairScore, p);
    }
    HalfOptimalFrom(sorted, mask, map[], {}, k);
  }

  const T1C1 := Pair("t1", Key(Invoice, "c1"), 1.0, ())
  const T1C2 := Pair("t1", Key(Invoice, "c2"), 1.0, ())
  const T2C1 := Pair("t2", Key(Invoice, "c1"), 1.0, ())

  lemma TightOutcome()
    ensures Sorted([T1C1, T1C2, T2C1], PairScore) == [T1C1, T1C2, T2C1]
    ensures Outcome([T1C1, T1C2, T2C1], 1) == [true] + [false] + [false]
  {
    assert [T1C1, T1C2, T2C1][1..] == [T1C2, T2C1] && [T1C2, T2C1][1..] == [T2C1] && [T2C1][1..] == [];
    assert Sorted([T2C1], PairScore) == [T2C1];
    assert Sorted([T1C2, T2C1], PairScore) == [T1C2, T2C1];
    var m: Matches<()> := map[];
    assert {} + {Key(Invoice, "c1")} == {Key(Invoice, "c1")};
    assert Chosen([T2C1], Give(T1C1, m), {Key(Invoice, "c1")}, 1) == [false];
    assert Chosen([T1C2, T2C1], Give(T1C1, m), {Key(Invoice, "c1")}, 1) == [false] + [false];
  }

  /** The bound is attained: the first of three equal pairs blocks the other two. */
  lemma HalfIsTight()
    ensures var pairs, rival := [T1C1, T1C2, T2C1], [false] + [true] + [true];
            && Fits(pairs, rival, 1)
            && Total(pairs, rival) == 2.0 * Total(Sorted(pairs, PairScore), Outcome(pairs, 1))
  {
    TightOutcome();
    var pairs := [T1C1] + [T1C2] + [T2C1];
    assert pairs == [T1C1, T1C2, T2C1];
    forall tx ensures Load(pairs, [false] + [true] + [true], tx) <= 1 {
      PickedOne(T1C1, false, tx);
      PickedOne(T1C2, true, tx);
      PickedOne(T2C1, true, tx);
      PickedConcat([T1C1], [false], [T1C2], [true], tx);
      PickedConcat([T1C1] + [T1C2], [false] + [true], [T2C1], [true], tx);
    }
    TotalOfThree([false, true, true]);
    TotalOfThree([true, false, false]);
  }

  lemma TotalOfThree(b: seq<bool>)
    requires |b| == 3
    ensures Total([T1C1, T1C2, T2C1], b) == (if b[0] then 1.0 else 0.0) + (if b[1] then 1.0 else 0.0) + (if b[2] then 1.0 else 0.0)
  {
    assert [T1C1, T1C2, T2C1] == [T1C1] + [T1C2] + [T2C1] && b == [b[0]] + [b[1]] + [b[2]];
    PickedOne(T1C1, b[0], "");
    PickedOne(T1C2, b[1], "");
    PickedOne(T2C1, b[2], "");
    TotalConcat([T1C1], [b[0]], [T1C2], [b[1]]);
    TotalConcat([T1C1] + [T1C2], [b[0]] + [b[1]], [T2C1], [b[2]]);
  }

  /** Stability: a pair that was passed over lost its candidate to a place of at least its score,
      or met a transaction that ends up full of suggestions of at least its score. */
  lemma GreedyIsStable<S>(pairs: seq<Pair<S>>, k: int, i: nat, scoreOf: S -> real)
    requires i < |Sorted(pairs, PairScore)| && !Outcome(pairs, k)[i]
    requires forall p :: p in pairs ==> scoreOf(p.suggestion) == p.score
    ensures var s, mask := Sorted(pairs, PairScore), Outcome(pairs, k);
            var own := Picked(s, mask, s[i].tx);
            || (exists j :: 0 <= j < |s| && mask[j] && s[j].cand == s[i].cand && s[j].score >= s[i].score)
            || (|own| >= k && forall x :: x in own ==> scoreOf(x) >= s[i].score)
  {
    var s, mask := Sorted(pairs, PairScore), Outcome(pairs, k);
    SortedIsDescending(pairs, PairScore);
    RejectedIsBlocked(s, i, map[], {}, k);
    if j :| 0 <= j < i && mask[j] && s[j].cand == s[i].cand {
      assert PairScore(s[j]) >= PairScore(s[i]);
    } else {
      FullBefore(s, i, k);
      var own := Picked(s, mask, s[i].tx);
      forall x | x in own ensures scoreOf(x) >= s[i].score {
        var j := PickedComesFrom(s[..i], mask[..i], s[i].tx, x);
        SortedMember(pairs, PairScore, s[j]);
        assert PairScore(s[j]) >= PairScore(s[i]);
      }
    }
  }

  /** A transaction filled by the places before `i` takes nothing from `i` on. */
  lemma FullBefore<S>(s: seq<Pair<S>>, i: nat, k: int)
    requires i < |s|
    requires Load(s[..i], Chosen(s, map[], {}, k)[..i], s[i].tx) >= k
    ensures |Picked(s, Chosen(s, map[], {}, k), s[i].tx)| >= k
    ensures Picked(s, Chosen(s, map[], {}, k), s[i].tx) == Picked(s[..i], Chosen(s, map[], {}, k)[..i], s[i].tx)
  {
    var mask, tx := Chosen(s, map[], {}, k), s[i].tx;
    ChosenIsFeasible(s, map[], {}, k);
    assert Load(s, mask, tx) > 0 ==> Load(s, mask, tx) <= k;
    var a, am, b, bm := s[..i], mask[..i], s[i..], mask[i..];
    assert s == a + b && mask == am + bm;
    PickedConcat(a, am, b, bm, tx);
  }

  /** Exclusive, within capacity, and best first for every transaction. */
  lemma GreedyIsExclusive<S>(pairs: seq<Pair<S>>, k: int, scoreOf: S -> real)
    requires forall p :: p in pairs ==> scoreOf(p.suggestion) == p.score
    ensures Fits(Sorted(pairs, PairScore), Outcome(pairs, k), k)
    ensures forall tx :: Descending(Picked(Sorted(pairs, PairScore), Outcome(pairs, k), tx), scoreOf)
  {
    var s := Sorted(pairs, PairScore);
    ChosenIsFeasible(s, map[], {}, k);
    forall tx | Load(s, Outcome(pairs, k), tx) > 0 ensures Load(s, Outcome(pairs, k), tx) <= k {
      assert Load(s, Outcome(pairs, k), tx) + |MatchesOf<S>(map[], tx)| <= k;
    }
    SortedIsDescending(pairs, PairScore);
    forall i | 0 <= i < |s| ensures scoreOf(s[i].suggestion) == s[i].score {
      SortedMember(pairs, PairScore, s[i]);
    }
    forall tx ensures Descending(Picked(s, Outcome(pairs, k), tx), scoreOf) {
      PickedIsDescending(s, Outcome(pairs, k), tx, scoreOf);
    }
  }

  /** The pass itself: what `tx_matches` and `claimed` hold when the pairs are used up. */
  function Pass<S>(pairs: seq<Pair<S>>, m: Matches<S>, claimed: set<Key>, k: int): (Matches<S>, set<Key>) {
    if pairs == [] then (m, claimed)
    else if Open(pairs[0], m, claimed, k) then Pass(pairs[1..], Give(pairs[0], m), claimed + {pairs[0].cand}, k)
    else Pass(pairs[1..], m, claimed, k)
  }

  lemma {:induction false} PassHandsOut<S>(pairs: seq<Pair<S>>, m: Matches<S>, claimed: set<Key>, k: int, tx: string)
    ensures MatchesOf(Pass(pairs, m, claimed, k).0, tx) == MatchesOf(m, tx) + Picked(pairs, Chosen(pairs, m, claimed, k), tx)
  {
    if pairs != [] {
      if Open(pairs[0], m, claimed, k) {
        PassHandsOut(pairs[1..], Give(pairs[0], m), claimed + {pairs[0].cand}, k, tx);
      } else {
        PassHandsOut(pairs[1..], m, claimed, k, tx);
      }
    }
  }

  lemma {:induction false} PassClaims<S>(pairs: seq<Pair<S>>, m: Matches<S>, claimed: set<Key>, k: int, c: Key)
    ensures c in Pass(pairs, m, claimed, k).1 <==> c in claimed || Uses(pairs, Chosen(pairs, m, claimed, k), c)
  {
    if pairs != [] {
      var p, mask := pairs[0], Chosen(pairs, m, claimed, k);
      if Open(p, m, claimed, k) {
        PassClaims(pairs[1..], Give(p, m), claimed + {p.cand}, k, c);
      } else {
        PassClaims(pairs[1..], m, claimed, k, c);
      }
      if Uses(pairs[1..], mask[1..], c) {
        var i :| 0 <= i < |pairs[1..]| && mask[1..][i] && pairs[1..][i].cand == c;
        assert mask[i + 1] && pairs[i + 1].cand == c;
      }
      if i :| 0 < i < |pairs| && mask[i] && pairs[i].cand == c {
        assert mask[1..][i - 1] && pairs[1..][i - 1].cand == c;
      }
    }
  }

  /** The same pass as the source runs it: sort, then one loop over `claimed` and `tx_matches`. */
  method AssignGreedily<S>(pairs: seq<Pair<S>>, k: int) returns (matches: Matches<S>, claimed: set<Key>)
    ensures forall tx :: MatchesOf(matches, tx) == Picked(Sorted(pairs, PairScore), Outcome(pairs, k), tx)
    ensures forall c :: c in claimed <==> Uses(Sorted(pairs, PairScore), Outcome(pairs, k), c)
  {
    var sorted := Sorted(pairs, PairScore);
    matches, claimed := map[], {};
    for i := 0 to |sorted|
      invariant Pass(sorted[i..], matches, claimed, k) == Pass(sorted, map[], {}, k)
    {
      var p := sorted[i];
      assert sorted[i..][0] == p && sorted[i..][1..] == sorted[i + 1..];
      if p.cand in claimed {
        continue;
      }
      var current := MatchesOf(matches, p.tx);
      if |current| >= k {
        continue;
      }
      matches := matches[p.tx := current + [p.suggestion]];
      claimed := claimed + {p.cand};
    }
    forall tx ensures MatchesOf(matches, tx) == Picked(sorted, Outcome(pairs, k), tx) {
      PassHandsOut(sorted, map[], {}, k, tx);
    }
    forall c ensures c in claimed <==> Uses(sorted, Outcome(pairs, k), c) {
      PassClaims(sorted, map[], {}, k, c);
    }
  }
}

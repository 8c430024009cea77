/** Which counterpart an id ends up with: the stored score is rounded and the challenger's is not, so the
    recorded pair depends on the order in which the pairs are met. */
module TransferOrder {
  import opened Scoring
  import opened Wrappers
  import opened TransferIndex

  /** A counterpart offered to an id, with the unrounded score. */
  datatype Offer = Offer(other: nat, score: real)

  // ----- The offers of one id

  /** What one meeting offers the id; a pair of equal ids offers both ends. */
  function OffersOf(ids: seq<string>, m: Meeting, id: string): seq<Offer> {
    if m.pair.first < |ids| && m.pair.second < |ids| then
      (if ids[m.pair.first] == id then [Offer(m.pair.second, m.score)] else []) +
      (if ids[m.pair.second] == id then [Offer(m.pair.first, m.score)] else [])
    else []
  }

  /** The offers of the meetings in order. */
  function Offers(ids: seq<string>, ms: seq<Meeting>, id: string): seq<Offer> {
    if ms == [] then [] else Offers(ids, ms[..|ms| - 1], id) + OffersOf(ids, ms[|ms| - 1], id)
  }

  /** The position of the offer that is kept: the last one that beat the rounded score kept before it. */
  function KeptAt(offers: seq<Offer>): (k: nat)
    requires offers != []
    ensures k < |offers|
  {
    var n := |offers| - 1;
    if n == 0 then 0
    else
      var k := KeptAt(offers[..n]);
      if Round3(offers[k].score) < offers[n].score then n else k
  }

  function LinkOf(o: Offer): Link { Link(o.other, Round3(o.score)) }

  /** The entry of `id` is the kept one of these offers. */
  ghost predicate Keeps(index: Index, id: string, offers: seq<Offer>) {
    if offers == [] then id !in index else id in index && index[id] == LinkOf(offers[KeptAt(offers)])
  }

  lemma PutKeeps(index: Index, id: string, offers: seq<Offer>, o: Offer)
    requires Keeps(index, id, offers)
    ensures Keeps(Put(index, id, o.other, o.score), id, offers + [o])
  {
    assert (offers + [o])[..|offers|] == offers;
  }

  /** A put under `name` offers `o` to the id of that name only. */
  lemma PutUnder(index: Index, id: string, offers: seq<Offer>, name: string, o: Offer)
    requires Keeps(index, id, offers)
    ensures Keeps(Put(index, name, o.other, o.score), id, offers + if name == id then [o] else [])
  {
    if name == id {
      PutKeeps(index, id, offers, o);
    } else {
      assert offers + [] == offers;
    }
  }

  lemma MeetingKeeps(index: Index, ids: seq<string>, id: string, offers: seq<Offer>, m: Meeting)
    requires Keeps(index, id, offers)
    ensures Keeps(RecordMeeting(index, ids, m), id, offers + OffersOf(ids, m, id))
  {
    if m.pair.first < |ids| && m.pair.second < |ids| {
      var a, b := Offer(m.pair.second, m.score), Offer(m.pair.first, m.score);
      var first := if ids[m.pair.first] == id then [a] else [];
      var second := if ids[m.pair.second] == id then [b] else [];
      PutUnder(index, id, offers, ids[m.pair.first], a);
      PutUnder(Put(index, ids[m.pair.first], a.other, a.score), id, offers + first, ids[m.pair.second], b);
      assert offers + (first + second) == (offers + first) + second;
    } else {
      assert offers + [] == offers;
    }
  }

  /** The index of the double loop keeps, for every id, the kept one of its offers. */
  lemma {:induction false} IndexKeepsOffers(ids: seq<string>, ms: seq<Meeting>, id: string)
    ensures Keeps(RecordAll(ids, ms), id, Offers(ids, ms, id))
  {
    if ms != [] {
      IndexKeepsOffers(ids, ms[..|ms| - 1], id);
      MeetingKeeps(RecordAll(ids, ms[..|ms| - 1]), ids, id, Offers(ids, ms[..|ms| - 1], id), ms[|ms| - 1]);
    }
  }

  // ----- The kept offer, read off the scores

  /** No offer has a larger rounded score. */
  ghost predicate TopAt(offers: seq<Offer>, k: nat) {
    k < |offers| && forall i :: 0 <= i < |offers| ==> Round3(offers[i].score) <= Round3(offers[k].score)
  }

  /** After `k`, no offer with the same rounded score lies above that rounded score. */
  ghost predicate LastAbove(offers: seq<Offer>, k: nat) {
    k < |offers| && forall i :: k < i < |offers| && Round3(offers[i].score) == Round3(offers[k].score) ==> offers[i].score <= Round3(offers[k].score)
  }

  /** The first of the offers with its rounded score. */
  ghost predicate FirstOfClass(offers: seq<Offer>, k: nat) {
    k < |offers| && forall i :: 0 <= i < k ==> Round3(offers[i].score) != Round3(offers[k].score)
  }

  /** Among the offers of the top rounded score R: the last one above R that is not the first, else the first. */
  ghost predicate IsKept(offers: seq<Offer>, k: nat) {
    TopAt(offers, k) && LastAbove(offers, k) && (FirstOfClass(offers, k) || offers[k].score > Round3(offers[k].score))
  }

  lemma BeatsIffAbove(x: real, y: real)
    ensures Round3(x) < y ==> Round3(x) <= Round3(y)
    ensures Round3(x) >= y ==> Round3(x) >= Round3(y)
    ensures Round3(x) < Round3(y) ==> Round3(x) < y && x < y
  {
    Round3IsIdempotent(x);
    Round3IsIdempotent(y);
    if Round3(x) <= y { Round3IsMonotone(Round3(x), y); }
    if y <= Round3(x) { Round3IsMonotone(y, Round3(x)); }
    if y <= x { Round3IsMonotone(y, x); }
  }

  lemma KeepsOn(offers: seq<Offer>, k: nat)
    requires |offers| > 1 && IsKept(offers[..|offers| - 1], k) && Round3(offers[k].score) >= offers[|offers| - 1].score
    ensures IsKept(offers, k)
  {
    var n := |offers| - 1;
    var before := offers[..n];
    assert forall i :: 0 <= i < n ==> offers[i] == before[i];
    BeatsIffAbove(offers[k].score, offers[n].score);
    if FirstOfClass(before, k) {
      assert FirstOfClass(offers, k);
    }
  }

  lemma TakesOver(offers: seq<Offer>, k: nat)
    requires |offers| > 1 && IsKept(offers[..|offers| - 1], k) && Round3(offers[k].score) < offers[|offers| - 1].score
    ensures IsKept(offers, |offers| - 1)
  {
    var n := |offers| - 1;
    var before := offers[..n];
    assert forall i :: 0 <= i < n ==> offers[i] == before[i];
    BeatsIffAbove(offers[k].score, offers[n].score);
    forall i | 0 <= i < |offers| ensures Round3(offers[i].score) <= Round3(offers[n].score) {
      if i < n { assert Round3(before[i].score) <= Round3(before[k].score); }
    }
    if Round3(offers[k].score) < Round3(offers[n].score) {
      forall i | 0 <= i < n ensures Round3(offers[i].score) != Round3(offers[n].score) {
        assert Round3(before[i].score) <= Round3(before[k].score);
      }
    }
  }

  lemma {:induction false} KeptAtIsKept(offers: seq<Offer>)
    requires offers != []
    ensures IsKept(offers, KeptAt(offers))
  {
    var n := |offers| - 1;
    if n > 0 {
      var k := KeptAt(offers[..n]);
      KeptAtIsKept(offers[..n]);
      if Round3(offers[k].score) < offers[n].score {
        TakesOver(offers, k);
      } else {
        KeepsOn(offers, k);
      }
    }
  }

  /** There is only one such position. */
  lemma KeptIsUnique(offers: seq<Offer>, a: nat, b: nat)
    requires IsKept(offers, a) && IsKept(offers, b)
    ensures a == b
  {
    assert Round3(offers[a].score) == Round3(offers[b].score);
  }

  /** The position kept by the loop is the one described by the scores. */
  lemma KeptExactly(offers: seq<Offer>, k: nat)
    requires offers != []
    ensures k == KeptAt(offers) <==> IsKept(offers, k)
  {
    KeptAtIsKept(offers);
    if IsKept(offers, k) {
      KeptIsUnique(offers, k, KeptAt(offers));
    }
  }

  // ----- When it is the best before rounding

  ghost predicate RawBest(offers: seq<Offer>, k: nat) {
    k < |offers| && forall i :: 0 <= i < |offers| ==> offers[i].score <= offers[k].score
  }

  /** The recorded counterpart has the best unrounded score. */
  ghost predicate RecordsBest(offers: seq<Offer>) {
    offers != [] && RawBest(offers, KeptAt(offers))
  }

  /** Both are in the class of the top rounded score. */
  ghost predicate SameTop(offers: seq<Offer>, k: nat, i: nat)
    requires k < |offers| && i < |offers|
  {
    Round3(offers[i].score) == Round3(offers[k].score)
  }

  /** The recorded pair is the raw best exactly when no offer of the same rounded score is above it. */
  lemma RecordsBestExactly(offers: seq<Offer>, k: nat)
    requires IsKept(offers, k)
    ensures RecordsBest(offers) <==> forall i: nat :: i < |offers| && SameTop(offers, k, i) ==> offers[i].score <= offers[k].score
  {
    KeptExactly(offers, k);
    forall i | 0 <= i < |offers| && !SameTop(offers, k, i) ensures offers[i].score <= offers[k].score {
      BeatsIffAbove(offers[i].score, offers[k].score);
    }
    if RecordsBest(offers) {
      assert RawBest(offers, k);
    }
  }

  // ----- Over all orders

  /** `t` is the largest unrounded score offered. */
  ghost predicate RawTop(offers: seq<Offer>, t: real) {
    (exists o :: o in offers && o.score == t) && forall o :: o in offers ==> o.score <= t
  }

  /** Every offer that rounds like `t` equals it, or `t` lies above its rounded value and all others do not. */
  ghost predicate Robust(offers: seq<Offer>, t: real) {
    || (forall o :: o in offers && Round3(o.score) == Round3(t) ==> o.score == t)
    || (t > Round3(t) && forall o :: o in offers && Round3(o.score) == Round3(t) ==> o.score <= Round3(t) || o.score == t)
  }

  lemma KeptRoundsLikeTop(offers: seq<Offer>, t: real, k: nat, j: nat)
    requires RawTop(offers, t) && TopAt(offers, k) && j < |offers| && offers[j].score == t
    ensures Round3(offers[k].score) == Round3(t)
  {
    assert offers[k] in offers;
    Round3IsMonotone(offers[k].score, t);
  }

  lemma RobustRecordsBest(offers: seq<Offer>, t: real)
    requires RawTop(offers, t) && Robust(offers, t)
    ensures RecordsBest(offers)
  {
    var o :| o in offers && o.score == t;
    var j :| 0 <= j < |offers| && offers[j] == o;
    var k := KeptAt(offers);
    KeptAtIsKept(offers);
    KeptRoundsLikeTop(offers, t, k, j);
    assert offers[k] in offers;
    assert offers[k].score == t;
    forall i | 0 <= i < |offers| ensures offers[i].score <= offers[k].score { assert offers[i] in offers; }
  }

  ghost predicate Reorders(p: seq<Offer>, offers: seq<Offer>) { multiset(p) == multiset(offers) }

  lemma SameMembers(p: seq<Offer>, offers: seq<Offer>, o: Offer)
    requires Reorders(p, offers)
    ensures o in p <==> o in offers
  {
    assert o in p <==> o in multiset(p);
    assert o in offers <==> o in multiset(offers);
  }

  lemma TopOfReorder(p: seq<Offer>, offers: seq<Offer>, t: real)
    requires Reorders(p, offers) && RawTop(offers, t)
    ensures RawTop(p, t) && (Robust(offers, t) ==> Robust(p, t))
  {
    forall o ensures o in p <==> o in offers { SameMembers(p, offers, o); }
  }

  lemma MoveTo(offers: seq<Offer>, i: nat) returns (first: seq<Offer>, last: seq<Offer>)
    requires i < |offers|
    ensures Reorders(first, offers) && first != [] && first[0] == offers[i]
    ensures Reorders(last, offers) && last != [] && last[|last| - 1] == offers[i]
  {
    var rest := offers[..i] + offers[i + 1..];
    first, last := [offers[i]] + rest, rest + [offers[i]];
    assert offers == offers[..i] + [offers[i]] + offers[i + 1..];
  }

  /** An offer of the top class that is kept although it is not the raw best. */
  lemma KeptBelow(p: seq<Offer>, t: real, k: nat)
    requires p != [] && IsKept(p, k) && p[k].score < t && RawTop(p, t)
    ensures !RecordsBest(p)
  {
    KeptExactly(p, k);
    var o :| o in p && o.score == t;
    var j :| 0 <= j < |p| && p[j] == o;
    assert !RawBest(p, k);
  }

  lemma RoundsAtMost(p: seq<Offer>, t: real, k: nat)
    requires RawTop(p, t) && k < |p| && Round3(p[k].score) == Round3(t)
    ensures TopAt(p, k)
  {
    forall i | 0 <= i < |p| ensures Round3(p[i].score) <= Round3(p[k].score) {
      assert p[i] in p;
      Round3IsMonotone(p[i].score, t);
    }
  }

  lemma FragileFails(offers: seq<Offer>, t: real) returns (p: seq<Offer>)
    requires RawTop(offers, t) && !Robust(offers, t)
    ensures Reorders(p, offers) && !RecordsBest(p)
  {
    if t <= Round3(t) {
      var o :| o in offers && Round3(o.score) == Round3(t) && o.score != t;
      var i :| 0 <= i < |offers| && offers[i] == o;
      var last;
      p, last := MoveTo(offers, i);
      TopOfReorder(p, offers, t);
      RoundsAtMost(p, t, 0);
      assert LastAbove(p, 0) by {
        assert forall j :: 0 <= j < |p| ==> p[j] in p;
      }
      KeptBelow(p, t, 0);
    } else {
      var o :| o in offers && Round3(o.score) == Round3(t) && !(o.score <= Round3(t) || o.score == t);
      var i :| 0 <= i < |offers| && offers[i] == o;
      var first;
      first, p := MoveTo(offers, i);
      TopOfReorder(p, offers, t);
      RoundsAtMost(p, t, |p| - 1);
      KeptBelow(p, t, |p| - 1);
    }
  }

  /** In whatever order the offers come, the best one is recorded, exactly when they are robust. */
  lemma AlwaysBestExactly(offers: seq<Offer>, t: real)
    requires RawTop(offers, t)
    ensures (forall p :: Reorders(p, offers) ==> RecordsBest(p)) <==> Robust(offers, t)
  {
    if Robust(offers, t) {
      forall p | Reorders(p, offers) ensures RecordsBest(p) {
        TopOfReorder(p, offers, t);
        RobustRecordsBest(p, t);
      }
    } else {
      var p := FragileFails(offers, t);
    }
  }
}

/** The listener of transaction statuses: a reference status per tracked
    transaction, an acknowledged status, and the changes it publishes. */
module TransactionStatus {
  import opened Wrappers

  /** A transaction of a snapshot; a null status is `None`. */
  datatype Tx<I, S> = Tx(id: I, status: Option<S>)

  datatype Tracker<I(==), S> = Tracker(reference: map<I, Option<S>>, acknowledged: map<I, Option<S>>)

  /** `acknowledged.get(id)`, which is also null for an id not in the map. */
  function Acknowledged<I(==), S>(t: Tracker<I, S>, id: I): Option<S> {
    if id in t.acknowledged then t.acknowledged[id] else None
  }

  predicate Publishes<I(==), S(==)>(t: Tracker<I, S>, tx: Tx<I, S>) {
    tx.id in t.reference && tx.status != t.reference[tx.id] && Acknowledged(t, tx.id) != tx.status
  }

  function Take<I(==), S(==)>(t: Tracker<I, S>, tx: Tx<I, S>): Tracker<I, S> {
    if Publishes(t, tx) then Tracker(t.reference[tx.id := tx.status], t.acknowledged[tx.id := tx.status]) else t
  }

  function After<I(==), S(==)>(t: Tracker<I, S>, txs: seq<Tx<I, S>>): Tracker<I, S> {
    if txs == [] then t else Take(After(t, txs[..|txs| - 1]), txs[|txs| - 1])
  }

  function Changes<I(==), S(==)>(t: Tracker<I, S>, txs: seq<Tx<I, S>>): map<I, Option<S>> {
    if txs == [] then map[]
    else
      var n := |txs| - 1;
      var before := Changes(t, txs[..n]);
      if Publishes(After(t, txs[..n]), txs[n]) then before[txs[n].id := txs[n].status] else before
  }

  class StatusListener<I(==), S(==)> {
    var reference: map<I, Option<S>>
    var acknowledged: map<I, Option<S>>

    ghost function Abstract(): Tracker<I, S>
      reads this
    {
      Tracker(reference, acknowledged)
    }

    constructor (initial: map<I, Option<S>>)
      ensures Abstract() == Tracker(initial, map[])
    {
      reference, acknowledged := initial, map[];
    }

    method Handle(txs: seq<Tx<I, S>>) returns (changes: map<I, Option<S>>)
      modifies this
      ensures Abstract() == After(old(Abstract()), txs)
      ensures changes == Changes(old(Abstract()), txs)
    {
      changes := map[];
      for k := 0 to |txs|
        invariant Abstract() == After(old(Abstract()), txs[..k])
        invariant changes == Changes(old(Abstract()), txs[..k])
      {
        assert txs[..k + 1][..k] == txs[..k];
        var tx := txs[k];
        if tx.id in reference && tx.status != reference[tx.id] &&
           (if tx.id in acknowledged then acknowledged[tx.id] else None) != tx.status
        {
          reference := reference[tx.id := tx.status];
          changes := changes[tx.id := tx.status];
          acknowledged := acknowledged[tx.id := tx.status];
        }
      }
      assert txs[..|txs|] == txs;
    }
  }

  // ---- the acknowledged map ----

  /** What is acknowledged is the current reference. */
  ghost predicate InStep<I(!new), S>(t: Tracker<I, S>) {
    forall id :: id in t.acknowledged ==> id in t.reference && t.acknowledged[id] == t.reference[id]
  }

  lemma {:induction false} StaysInStep<I(!new), S>(t: Tracker<I, S>, txs: seq<Tx<I, S>>)
    requires InStep(t)
    ensures InStep(After(t, txs)) && After(t, txs).reference.Keys == t.reference.Keys
  {
    if txs != [] {
      StaysInStep(t, txs[..|txs| - 1]);
    }
  }

  /** A tracked status change is published exactly when it is not to null, or the
      transaction was published before: the map holds back nothing else. */
  lemma SuppressesExactly<I(!new), S>(t: Tracker<I, S>, tx: Tx<I, S>)
    requires InStep(t) && tx.id in t.reference && tx.status != t.reference[tx.id]
    ensures Publishes(t, tx) <==> tx.status.Some? || tx.id in t.acknowledged
  {
  }

  /** A snapshot that repeats the reference publishes nothing and changes nothing. */
  lemma {:induction false} RepeatIsQuiet<I(!new), S>(t: Tracker<I, S>, txs: seq<Tx<I, S>>)
    requires forall k :: 0 <= k < |txs| && txs[k].id in t.reference ==> txs[k].status == t.reference[txs[k].id]
    ensures Changes(t, txs) == map[] && After(t, txs) == t
  {
    if txs != [] {
      RepeatIsQuiet(t, txs[..|txs| - 1]);
    }
  }

  /** What a snapshot publishes for a transaction is the last status it carries for it, of a tracked one. */
  lemma {:induction false} ChangesAreCarried<I(!new), S>(t: Tracker<I, S>, txs: seq<Tx<I, S>>, id: I)
    requires id in Changes(t, txs)
    ensures id in t.reference && exists k :: 0 <= k < |txs| && txs[k] == Tx(id, Changes(t, txs)[id])
  {
    var n := |txs| - 1;
    ReferenceKeys(t, txs[..n]);
    if !(Publishes(After(t, txs[..n]), txs[n]) && txs[n].id == id) {
      ChangesAreCarried(t, txs[..n], id);
      var k :| 0 <= k < n && txs[..n][k] == Tx(id, Changes(t, txs[..n])[id]);
      assert txs[k] == Tx(id, Changes(t, txs)[id]);
    } else {
      assert txs[n] == Tx(id, Changes(t, txs)[id]);
    }
  }

  lemma {:induction false} ReferenceKeys<I(!new), S>(t: Tracker<I, S>, txs: seq<Tx<I, S>>)
    ensures After(t, txs).reference.Keys == t.reference.Keys
  {
    if txs != [] {
      ReferenceKeys(t, txs[..|txs| - 1]);
    }
  }

  // ---- replay ----

  /** The client starts from the initial statuses and merges each published map. */
  function Client<I(==), S(==)>(t: Tracker<I, S>, snapshots: seq<seq<Tx<I, S>>>): (Tracker<I, S>, map<I, Option<S>>) {
    if snapshots == [] then (t, t.reference)
    else
      var before := Client(t, snapshots[..|snapshots| - 1]);
      var txs := snapshots[|snapshots| - 1];
      (After(before.0, txs), before.1 + Changes(before.0, txs))
  }

  lemma {:induction false} ChangesMoveReference<I(!new), S>(t: Tracker<I, S>, txs: seq<Tx<I, S>>)
    ensures After(t, txs).reference == t.reference + Changes(t, txs)
  {
    if txs != [] {
      ChangesMoveReference(t, txs[..|txs| - 1]);
    }
  }

  /** Replaying the published changes gives the listener's reference. */
  lemma {:induction false} ClientFollows<I(!new), S>(t: Tracker<I, S>, snapshots: seq<seq<Tx<I, S>>>)
    ensures Client(t, snapshots).1 == Client(t, snapshots).0.reference
    ensures Client(t, snapshots).0 == After(t, Flat(snapshots))
  {
    if snapshots != [] {
      var n := |snapshots| - 1;
      ClientFollows(t, snapshots[..n]);
      ChangesMoveReference(Client(t, snapshots[..n]).0, snapshots[n]);
      AfterConcat(t, Flat(snapshots[..n]), snapshots[n]);
    }
  }

  function Flat<A>(lists: seq<seq<A>>): seq<A> {
    if lists == [] then [] else Flat(lists[..|lists| - 1]) + lists[|lists| - 1]
  }

  lemma {:induction false} AfterConcat<I(!new), S>(t: Tracker<I, S>, xs: seq<Tx<I, S>>, ys: seq<Tx<I, S>>)
    ensures After(t, xs + ys) == After(After(t, xs), ys)
  {
    if ys == [] {
      assert xs + ys == xs;
    } else {
      var n := |ys| - 1;
      AfterConcat(t, xs, ys[..n]);
      assert (xs + ys)[..|xs + ys| - 1] == xs + ys[..n];
    }
  }

  // ---- the reference against the plain reading of the snapshots ----

  /** Every tracked transaction at its latest status, seen with no bookkeeping. */
  function Latest<I(==), S>(initial: map<I, Option<S>>, txs: seq<Tx<I, S>>): (r: map<I, Option<S>>)
    ensures r.Keys == initial.Keys
  {
    if txs == [] then initial
    else
      var before, last := Latest(initial, txs[..|txs| - 1]), txs[|txs| - 1];
      if last.id in before then before[last.id := last.status] else before
  }

  /** The transaction is not a first change to null. */
  predicate Visible<I(==), S(==)>(t: Tracker<I, S>, tx: Tx<I, S>) {
    tx.id in t.reference ==> tx.status.Some? || tx.id in t.acknowledged || t.reference[tx.id].None?
  }

  lemma TakeIsLatestExactly<I(!new), S>(t: Tracker<I, S>, tx: Tx<I, S>)
    requires InStep(t)
    ensures (tx.id in t.reference ==> Take(t, tx).reference == t.reference[tx.id := tx.status]) <==> Visible(t, tx)
  {
    if tx.id in t.reference {
      assert t.reference[tx.id := tx.status][tx.id] == tx.status;
      if tx.status == t.reference[tx.id] {
        assert t.reference[tx.id := tx.status] == t.reference;
      }
    }
  }

  ghost predicate TracksAt<I(!new), S>(t: Tracker<I, S>, txs: seq<Tx<I, S>>, k: nat)
    requires k <= |txs|
  {
    After(t, txs[..k]).reference == Latest(t.reference, txs[..k])
  }

  ghost predicate VisibleAt<I(!new), S>(t: Tracker<I, S>, txs: seq<Tx<I, S>>, k: nat)
    requires k < |txs|
  {
    Visible(After(t, txs[..k]), txs[k])
  }

  lemma TracksNext<I(!new), S>(t: Tracker<I, S>, txs: seq<Tx<I, S>>, k: nat)
    requires InStep(t) && k < |txs| && TracksAt(t, txs, k)
    ensures TracksAt(t, txs, k + 1) <==> VisibleAt(t, txs, k)
  {
    assert txs[..k + 1][..k] == txs[..k];
    var now := After(t, txs[..k]);
    StaysInStep(t, txs[..k]);
    TakeIsLatestExactly(now, txs[k]);
  }

  lemma {:induction false} VisibleUpTo<I(!new), S>(t: Tracker<I, S>, txs: seq<Tx<I, S>>, n: nat)
    requires InStep(t) && n <= |txs| && forall k :: 0 <= k < n ==> VisibleAt(t, txs, k)
    ensures TracksAt(t, txs, n)
  {
    if n > 0 {
      VisibleUpTo(t, txs, n - 1);
      TracksNext(t, txs, n - 1);
      assert VisibleAt(t, txs, n - 1);
    }
  }

  ghost predicate TracksThroughout<I(!new), S>(t: Tracker<I, S>, txs: seq<Tx<I, S>>) {
    forall k :: 0 <= k <= |txs| ==> TracksAt(t, txs, k)
  }

  ghost predicate VisibleThroughout<I(!new), S>(t: Tracker<I, S>, txs: seq<Tx<I, S>>) {
    forall k :: 0 <= k < |txs| ==> VisibleAt(t, txs, k)
  }

  /** The listener tracks the latest statuses throughout exactly when no
      transaction changes to null before it was ever published. */
  lemma TracksExactly<I(!new), S>(t: Tracker<I, S>, txs: seq<Tx<I, S>>)
    requires InStep(t)
    ensures TracksThroughout(t, txs) <==> VisibleThroughout(t, txs)
  {
    if VisibleThroughout(t, txs) {
      forall k | 0 <= k <= |txs| ensures TracksAt(t, txs, k) {
        VisibleUpTo(t, txs, k);
      }
    }
    if TracksThroughout(t, txs) {
      forall k | 0 <= k < |txs| ensures VisibleAt(t, txs, k) {
        TracksNext(t, txs, k);
        assert TracksAt(t, txs, k) && TracksAt(t, txs, k + 1);
      }
    }
  }

  /** With text statuses a client that merges every delta holds, for each tracked
      transaction, the latest status over all snapshots. */
  lemma TextStatusesReplay<I(!new), S>(initial: map<I, Option<S>>, snapshots: seq<seq<Tx<I, S>>>)
    requires forall k :: 0 <= k < |Flat(snapshots)| ==> Flat(snapshots)[k].status.Some?
    ensures Client(Tracker(initial, map[]), snapshots).1 == Latest(initial, Flat(snapshots))
  {
    var t := Tracker(initial, map[]);
    var txs := Flat(snapshots);
    ClientFollows(t, snapshots);
    forall k | 0 <= k < |txs| ensures VisibleAt(t, txs, k) {
    }
    VisibleUpTo(t, txs, |txs|);
    assert txs[..|txs|] == txs;
  }

  /** A first change to null stays unseen. */
  lemma FirstNullIsLost<I(!new), S>(id: I, status: S)
    ensures var t := Tracker(map[id := Some(status)], map[]);
            Client(t, [[Tx(id, None)]]).1 != Latest(t.reference, [Tx(id, None)])
  {
    var t := Tracker(map[id := Some(status)], map[]);
    var txs: seq<Tx<I, S>> := [Tx(id, None)];
    assert [txs][..0] == [] && txs[..0] == [];
    assert After(t, txs) == t;
    assert Latest(t.reference, txs) == t.reference[id := None];
    assert Client(t, [txs]).0 == t;
    ClientFollows(t, [txs]);
    assert t.reference[id] != None;
  }
}

/** Delta publishing by the workflow listeners: only the fields that differ from
    the cached snapshot are sent, and a client replays what it is sent. */
module ListenerDelta {
  import opened Wrappers

  /** `d.get(f, missing)` */
  function Get<F, V>(m: map<F, V>, f: F, missing: V): V {
    if f in m then m[f] else missing
  }

  /** The fields whose value differs from the previous one, a missing previous
      value reading as the default. */
  ghost function Delta<F, V>(previous: map<F, V>, current: map<F, V>, default: V): map<F, V> {
    map f | f in current && current[f] != Get(previous, f, default) :: current[f]
  }

  /** The cache of snapshots, one per listened document. */
  class WorkflowCache<K(==), F(==), V(==)> {
    var snapshots: map<K, map<F, V>>
    const default: V

    constructor (default: V)
      ensures snapshots == map[] && this.default == default
    {
      this.default := default;
      snapshots := map[];
    }

    /** One snapshot of document `k`; nothing is published when `published` is
        empty, and then the cache stays as it is. */
    method Process(k: K, current: map<F, V>) returns (published: map<F, V>)
      modifies this`snapshots
      ensures published == Delta(Get(old(snapshots), k, map[]), current, default)
      ensures snapshots == if published == map[] then old(snapshots) else old(snapshots)[k := current]
    {
      published := map[];
      var previous := if k in snapshots then snapshots[k] else map[];
      var rest := current.Keys;
      while rest != {}
        invariant rest <= current.Keys && snapshots == old(snapshots)
        invariant published == DeltaOutside(previous, current, default, rest)
        decreases rest
      {
        var f :| f in rest;
        DeltaNext(previous, current, default, rest, f);
        if current[f] != (if f in previous then previous[f] else default) {
          published := published[f := current[f]];
        }
        rest := rest - {f};
      }
      if published != map[] {
        snapshots := snapshots[k := current];
      }
    }
  }

  ghost function DeltaOutside<F, V>(previous: map<F, V>, current: map<F, V>, default: V, rest: set<F>): map<F, V> {
    map f | f in current && f !in rest && current[f] != Get(previous, f, default) :: current[f]
  }

  lemma DeltaNext<F, V>(previous: map<F, V>, current: map<F, V>, default: V, rest: set<F>, f: F)
    requires f in rest && f in current
    ensures DeltaOutside(previous, current, default, rest - {f})
         == if current[f] != Get(previous, f, default) then DeltaOutside(previous, current, default, rest)[f := current[f]]
            else DeltaOutside(previous, current, default, rest)
  {
  }

  // ---- the listener and its client ----

  /** The cached snapshot of one document and the values the client holds. */
  datatype Pair<F, V, W> = Pair(cache: map<F, V>, client: map<F, W>)

  function Sent<F, V, W>(delta: map<F, V>, ser: V -> W): map<F, W> {
    map f | f in delta :: ser(delta[f])
  }

  ghost function Observe<F, V, W>(s: Pair<F, V, W>, current: map<F, V>, default: V, ser: V -> W): Pair<F, V, W> {
    var delta := Delta(s.cache, current, default);
    if delta == map[] then s else Pair(current, s.client + Sent(delta, ser))
  }

  ghost function Replay<F, V, W>(run: seq<map<F, V>>, default: V, ser: V -> W): Pair<F, V, W> {
    if run == [] then Pair(map[], map[]) else Observe(Replay(run[..|run| - 1], default, ser), run[|run| - 1], default, ser)
  }

  /** The client's view of a field, a field never sent reading as the default. */
  function View<F, V, W>(client: map<F, W>, f: F, default: V, ser: V -> W): W {
    if f in client then client[f] else ser(default)
  }

  /** The client shows every field of the snapshot. */
  ghost predicate Shows<F(!new), V, W>(client: map<F, W>, current: map<F, V>, default: V, ser: V -> W) {
    forall f :: f in current ==> View(client, f, default, ser) == ser(current[f])
  }

  /** The client holds every field of the snapshot, none of them only by default. */
  ghost predicate Holds<F(!new), V, W>(client: map<F, W>, current: map<F, V>, ser: V -> W) {
    forall f :: f in current ==> f in client && client[f] == ser(current[f])
  }

  /** One field after one snapshot, as long as the client shows the cache. */
  lemma FieldAfter<F(!new), V, W>(s: Pair<F, V, W>, current: map<F, V>, default: V, ser: V -> W, f: F)
    requires Shows(s.client, s.cache, default, ser) && f in current
    ensures View(Observe(s, current, default, ser).client, f, default, ser) == ser(current[f]) <==>
            (current[f] == default && f !in s.cache ==> View(s.client, f, default, ser) == ser(default))
  {
    var delta := Delta(s.cache, current, default);
    assert f in delta <==> current[f] != Get(s.cache, f, default);
  }

  // ---- the condition, on snapshots only ----

  /** The snapshot the listener has cached after the run. */
  ghost function Cached<F, V>(run: seq<map<F, V>>, default: V): map<F, V> {
    if run == [] then map[]
    else
      var before, current := Cached(run[..|run| - 1], default), run[|run| - 1];
      if Delta(before, current, default) == map[] then before else current
  }

  lemma {:induction false} CacheIsCached<F, V, W>(run: seq<map<F, V>>, default: V, ser: V -> W)
    ensures Replay(run, default, ser).cache == Cached(run, default)
  {
    if run != [] {
      CacheIsCached(run[..|run| - 1], default, ser);
    }
  }

  /** The value of the field in the last snapshot that carried it. */
  function LastValue<F, V>(run: seq<map<F, V>>, f: F, default: V): V {
    if run == [] then default
    else if f in run[|run| - 1] then run[|run| - 1][f]
    else LastValue(run[..|run| - 1], f, default)
  }

  /** A field that comes at the default value and is not in the cache was at the default when last seen. */
  ghost predicate SafeAt<F(!new), V, W>(run: seq<map<F, V>>, default: V, ser: V -> W, k: nat)
    requires k < |run|
  {
    forall f :: f in run[k] && run[k][f] == default && f !in Cached(run[..k], default) ==>
      ser(LastValue(run[..k], f, default)) == ser(default)
  }

  ghost predicate AlwaysSafe<F(!new), V, W>(run: seq<map<F, V>>, default: V, ser: V -> W) {
    forall k :: 0 <= k < |run| ==> SafeAt(run, default, ser, k)
  }

  /** After snapshot `k` of the run the client shows that snapshot. */
  ghost predicate ShowsAt<F(!new), V, W>(run: seq<map<F, V>>, default: V, ser: V -> W, k: nat)
    requires k < |run|
  {
    Shows(Replay(run[..k + 1], default, ser).client, run[k], default, ser)
  }

  ghost predicate AlwaysShows<F(!new), V, W>(run: seq<map<F, V>>, default: V, ser: V -> W) {
    forall k :: 0 <= k < |run| ==> ShowsAt(run, default, ser, k)
  }

  lemma ReplayNext<F, V, W>(run: seq<map<F, V>>, default: V, ser: V -> W, k: nat)
    requires k < |run|
    ensures Replay(run[..k + 1], default, ser) == Observe(Replay(run[..k], default, ser), run[k], default, ser)
  {
    assert run[..k + 1][..k] == run[..k];
  }

  ghost predicate ShownBelow<F(!new), V, W>(run: seq<map<F, V>>, default: V, ser: V -> W, n: nat)
    requires n <= |run|
  {
    forall k :: 0 <= k < n ==> ShowsAt(run, default, ser, k)
  }

  /** As long as the client showed every snapshot it also shows the cache. */
  lemma {:induction false} CacheIsShown<F(!new), V, W>(run: seq<map<F, V>>, default: V, ser: V -> W, n: nat)
    requires n <= |run| && ShownBelow(run, default, ser, n)
    ensures Shows(Replay(run[..n], default, ser).client, Replay(run[..n], default, ser).cache, default, ser)
  {
    if n > 0 {
      CacheIsShown(run, default, ser, n - 1);
      ReplayNext(run, default, ser, n - 1);
      assert ShowsAt(run, default, ser, n - 1);
    }
  }

  /** And it shows every field at the value of the last snapshot that carried it. */
  lemma {:induction false} ViewIsLast<F(!new), V, W>(run: seq<map<F, V>>, default: V, ser: V -> W, n: nat, f: F)
    requires n <= |run| && ShownBelow(run, default, ser, n)
    ensures View(Replay(run[..n], default, ser).client, f, default, ser) == ser(LastValue(run[..n], f, default))
  {
    if n > 0 {
      ViewIsLast(run, default, ser, n - 1, f);
      ReplayNext(run, default, ser, n - 1);
      assert ShowsAt(run, default, ser, n - 1);
      assert run[..n][..n - 1] == run[..n - 1] && run[..n][n - 1] == run[n - 1];
    }
  }

  /** The next snapshot is shown exactly when it is safe. */
  lemma NextShowsExactly<F(!new), V, W>(run: seq<map<F, V>>, default: V, ser: V -> W, k: nat)
    requires k < |run| && ShownBelow(run, default, ser, k)
    ensures ShowsAt(run, default, ser, k) <==> SafeAt(run, default, ser, k)
  {
    var s, current := Replay(run[..k], default, ser), run[k];
    CacheIsShown(run, default, ser, k);
    CacheIsCached(run[..k], default, ser);
    ReplayNext(run, default, ser, k);
    forall f | f in current
      ensures View(Observe(s, current, default, ser).client, f, default, ser) == ser(current[f]) <==>
              (current[f] == default && f !in Cached(run[..k], default) ==> ser(LastValue(run[..k], f, default)) == ser(default))
    {
      FieldAfter(s, current, default, ser, f);
      ViewIsLast(run, default, ser, k, f);
    }
  }

  lemma {:induction false} SafeUpTo<F(!new), V, W>(run: seq<map<F, V>>, default: V, ser: V -> W, n: nat)
    requires n <= |run| && forall k :: 0 <= k < n ==> SafeAt(run, default, ser, k)
    ensures ShownBelow(run, default, ser, n)
  {
    if n > 0 {
      SafeUpTo(run, default, ser, n - 1);
      assert SafeAt(run, default, ser, n - 1);
      NextShowsExactly(run, default, ser, n - 1);
    }
  }

  /** Replaying the deltas shows every snapshot of the run exactly when no field comes back at the default
      after it was last seen at another value and left the cache. */
  lemma ReplayShowsExactly<F(!new), V, W>(run: seq<map<F, V>>, default: V, ser: V -> W)
    ensures AlwaysShows(run, default, ser) <==> AlwaysSafe(run, default, ser)
  {
    if AlwaysSafe(run, default, ser) {
      SafeUpTo(run, default, ser, |run|);
    }
    if AlwaysShows(run, default, ser) {
      forall k | 0 <= k < |run| ensures SafeAt(run, default, ser, k) {
        NextShowsExactly(run, default, ser, k);
        assert ShowsAt(run, default, ser, k);
      }
    }
  }

  /** A run on which it fails: the field leaves while another one is published, and returns at the default. */
  lemma ReturnAtDefaultIsMissed<F(!new), V, W>(f: F, g: F, default: V, v: V, ser: V -> W)
    requires f != g && v != default && ser(v) != ser(default)
    ensures !AlwaysShows([map[f := v], map[g := v], map[f := default]], default, ser)
  {
    var run := [map[f := v], map[g := v], map[f := default]];
    assert run[..2] == [run[0], run[1]] && [run[0], run[1]][..1] == [run[0]] && [run[0]][..0] == [];
    assert f in Delta(map[], run[0], default);
    assert Cached([run[0]], default) == run[0];
    assert g in Delta(run[0], run[1], default);
    assert Cached(run[..2], default) == run[1];
    assert LastValue([run[0]], f, default) == v && LastValue(run[..2], f, default) == v;
    assert f in run[2] && f !in Cached(run[..2], default);
    assert !SafeAt(run, default, ser, 2);
    ReplayShowsExactly(run, default, ser);
  }

  // ---- snapshots that never carry the default ----

  ghost predicate Plain<F(!new), V>(current: map<F, V>, default: V) {
    forall f :: f in current ==> current[f] != default
  }

  lemma PlainStepHolds<F(!new), V, W>(s: Pair<F, V, W>, current: map<F, V>, default: V, ser: V -> W)
    requires Holds(s.client, s.cache, ser) && Plain(current, default)
    ensures var after := Observe(s, current, default, ser);
            Holds(after.client, current, ser) && Holds(after.client, after.cache, ser)
  {
    var delta := Delta(s.cache, current, default);
    forall f | f in current
      ensures f in s.client + Sent(delta, ser) && (s.client + Sent(delta, ser))[f] == ser(current[f])
    {
      assert f in delta <==> current[f] != Get(s.cache, f, default);
    }
    if delta == map[] {
      assert s.client + Sent(delta, ser) == s.client;
    }
  }

  /** Then the client holds every field of the latest snapshot outright. */
  lemma {:induction false} PlainReplayHolds<F(!new), V, W>(run: seq<map<F, V>>, default: V, ser: V -> W)
    requires forall k :: 0 <= k < |run| ==> Plain(run[k], default)
    ensures Holds(Replay(run, default, ser).client, Replay(run, default, ser).cache, ser)
    ensures run != [] ==> Holds(Replay(run, default, ser).client, run[|run| - 1], ser)
  {
    if run != [] {
      PlainReplayHolds(run[..|run| - 1], default, ser);
      PlainStepHolds(Replay(run[..|run| - 1], default, ser), run[|run| - 1], default, ser);
    }
  }

  /** A first snapshot at the default is never sent at all. */
  lemma DefaultIsNeverSent<F(!new), V, W>(f: F, default: V, ser: V -> W)
    ensures !Holds(Replay([map[f := default]], default, ser).client, map[f := default], ser)
  {
    var current := map[f := default];
    assert [current][..0] == [];
    assert Delta(map[], current, default) == map[];
    assert Replay([current], default, ser) == Observe(Pair(map[], map[]), current, default, ser);
    assert f in current;
  }

  /** Whatever the values may be drawn from, outright replay works for all runs
      exactly when the default is not among them. */
  ghost predicate Drawn<F(!new), V(!new)>(current: map<F, V>, values: iset<V>) {
    forall f :: f in current ==> current[f] in values
  }

  ghost predicate ReplayWorks<F(!new), V(!new), W>(values: iset<V>, default: V, ser: V -> W) {
    forall run: seq<map<F, V>> | run != [] && AllDrawn(run, values) ::
      Holds(Replay(run, default, ser).client, run[|run| - 1], ser)
  }

  ghost predicate AllDrawn<F(!new), V(!new)>(run: seq<map<F, V>>, values: iset<V>) {
    forall k :: 0 <= k < |run| ==> Drawn(run[k], values)
  }

  lemma ReplayWorksExactly<F(!new), V(!new), W>(f: F, values: iset<V>, default: V, ser: V -> W)
    ensures ReplayWorks<F, V, W>(values, default, ser) <==> default !in values
  {
    if default in values {
      var run := [map[f := default]];
      assert AllDrawn(run, values);
      DefaultIsNeverSent(f, default, ser);
      assert !Holds(Replay(run, default, ser).client, run[|run| - 1], ser);
    } else {
      forall run: seq<map<F, V>> | run != [] && AllDrawn(run, values)
        ensures Holds(Replay(run, default, ser).client, run[|run| - 1], ser)
      {
        forall k | 0 <= k < |run| ensures Plain(run[k], default) { assert Drawn(run[k], values); }
        PlainReplayHolds(run, default, ser);
      }
    }
  }
}

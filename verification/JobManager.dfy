/** The `ActiveJobManager` calls as they run: queries over the two collections, then updates in place.
    Each call is shown to be the step of the same name on the state before it. */
module JobManager {
  import opened Wrappers
  import opened JobQueue

  datatype Place = OnProcess | Pending | NotFound

  // ----- Queries

  function OfMandate<I(==)>(c: Collection<I>, m: I): set<I> { set d | d in c && c[d].mandate == m }

  lemma NoneOrAny<I>(c: Collection<I>, m: I)
    ensures OfMandate(c, m) != {} <==> Any(c, m)
  {
    if Any(c, m) {
      var d :| d in c && Of(c, d, m);
      assert d in OfMandate(c, m);
    } else {
      assert forall d :: d in c ==> !Of(c, d, m);
    }
  }

  /** A query by mandate, then a look for the job id in each document met. */
  method FindHolder<I(==)>(c: Collection<I>, m: I, jobId: I) returns (found: Option<I>)
    ensures found.Some? ==> Holds(c, found.value, m, jobId)
    ensures found.None? ==> forall d :: !Holds(c, d, m, jobId)
  {
    var todo := OfMandate(c, m);
    while todo != {}
      invariant todo <= OfMandate(c, m)
      invariant forall d :: Holds(c, d, m, jobId) ==> d in todo
      decreases |todo|
    {
      var d :| d in todo;
      if jobId in c[d].status {
        return Some(d);
      }
      todo := todo - {d};
    }
    return None;
  }

  /** The query ordered by creation time, first result. */
  method FindOldest<I(==, !new)>(c: Collection<I>, m: I) returns (found: Option<I>)
    ensures found.Some? ==> IsOldest(c, m, found.value)
    ensures found.None? ==> !Any(c, m)
  {
    var todo := OfMandate(c, m);
    found := None;
    while todo != {}
      invariant todo <= OfMandate(c, m)
      invariant found.Some? ==> Of(c, found.value, m)
      invariant forall d :: Of(c, d, m) && d !in todo ==> found.Some? && c[found.value].createdAt <= c[d].createdAt
      decreases |todo|
    {
      var d :| d in todo;
      if found.None? || c[d].createdAt < c[found.value].createdAt {
        found := Some(d);
      }
      todo := todo - {d};
    }
  }

  /** What a scan would meet, for a call that needs none. */
  ghost function SomeHolder<I(!new)>(s: State<I>, m: I, jobId: I): (d: I)
    ensures (exists x :: Holds(s.onProcess, x, m, jobId)) ==> Holds(s.onProcess, d, m, jobId)
    ensures !(exists x :: Holds(s.onProcess, x, m, jobId)) && (exists x :: Holds(s.pending, x, m, jobId)) ==> Holds(s.pending, d, m, jobId)
  {
    if exists x :: Holds(s.onProcess, x, m, jobId) then
      var x :| Holds(s.onProcess, x, m, jobId);
      x
    else if exists x :: Holds(s.pending, x, m, jobId) then
      var x :| Holds(s.pending, x, m, jobId);
      x
    else m
  }

  // ----- Stopping a pending batch

  ghost predicate NoRepeats<I>(s: seq<I>) { forall i, j :: 0 <= i < j < |s| ==> s[i] != s[j] }

  /** The named ids are taken out one by one. What is reported as stopped and what is left split the old
      ids, with no id reported twice however often it was asked for. */
  method TakeOut<I(==)>(status: map<I, string>, jobIds: seq<I>) returns (stops: seq<I>, left: map<I, string>)
    ensures left == map i | i in status && i !in jobIds :: status[i]
    ensures NoRepeats(stops)
    ensures forall i :: i in stops <==> i in status && i in jobIds
  {
    stops, left := [], status;
    for n := 0 to |jobIds|
      invariant left == map i | i in status && i !in jobIds[..n] :: status[i]
      invariant NoRepeats(stops)
      invariant forall i :: i in stops <==> i in status && i in jobIds[..n]
    {
      var j := jobIds[n];
      assert jobIds[..n + 1] == jobIds[..n] + [j];
      if j in left {
        stops := stops + [j];
        left := left - {j};
      }
    }
    assert jobIds[..|jobIds|] == jobIds;
  }

  method AllIds<I(==)>(status: map<I, string>) returns (ids: seq<I>)
    ensures NoRepeats(ids) && forall i :: i in ids <==> i in status
  {
    ids := [];
    var todo := status.Keys;
    while todo != {}
      invariant todo <= status.Keys && NoRepeats(ids)
      invariant forall i :: i in ids <==> i in status && i !in todo
      decreases |todo|
    {
      var i :| i in todo;
      ids := ids + [i];
      todo := todo - {i};
    }
  }

  /** A pending stop: the stopped ids and the remaining ids are exactly the old ids. */
  method SplitBatch<I(==)>(doc: Doc<I>, jobIds: seq<I>) returns (stops: seq<I>, left: map<I, string>)
    ensures left == Remaining(doc, jobIds)
    ensures NoRepeats(stops)
    ensures forall i :: i in stops <==> i in doc.status && (jobIds == [] || i in jobIds)
    ensures forall i :: i in left <==> i in doc.status && jobIds != [] && i !in jobIds
    ensures forall i :: i in left ==> left[i] == doc.status[i]
  {
    if jobIds != [] {
      stops, left := TakeOut(doc.status, jobIds);
    } else {
      stops := AllIds(doc.status);
      left := map[];
    }
  }

  /** The collection in which a stop finds its document. */
  function WhereStopped<I(==)>(name: Naming<I>, s: State<I>, e: Event<I>): Place
    requires e.Stop?
  {
    var d := name(e.mandate, e.key);
    if d in s.onProcess then OnProcess
    else if d in s.pending then Pending
    else if Holds(s.onProcess, e.scan, e.mandate, e.key) then OnProcess
    else if Holds(s.pending, e.scan, e.mandate, e.key) then Pending
    else NotFound
  }

  /** `stops` lists once each the ids that document `d` lost. */
  ghost predicate AreStops<I(!new)>(before: Collection<I>, after: Collection<I>, d: I, stops: seq<I>) {
    d in before && NoRepeats(stops) &&
    forall i :: i in stops <==> i in before[d].status && (d !in after || i !in after[d].status)
  }

  /** A stop of waiting batch `d`: the stops are exactly the named ids it held, or all of them when none is named.
      The batch goes iff no id is left; else it keeps the others at their statuses and all else it had. Other
      batches stay. */
  ghost predicate StopsAreNamed<I(!new)>(before: Collection<I>, after: Collection<I>, d: I, jobIds: seq<I>, stops: seq<I>) {
    && d in before
    && (forall i :: i in stops <==> i in before[d].status && (jobIds == [] || i in jobIds))
    && (d !in after <==> jobIds == [] || forall i :: i in before[d].status ==> i in jobIds)
    && (d in after ==> KeepsRest(before[d], after[d], stops))
    && (forall x :: x != d ==> (x in before <==> x in after) && (x in before && x in after ==> after[x] == before[x]))
  }

  ghost predicate KeepsRest<I(!new)>(before: Doc<I>, after: Doc<I>, stops: seq<I>) {
    && (forall i :: i in after.status <==> i in before.status && i !in stops)
    && (forall i :: i in after.status ==> after.status[i] == before.status[i])
    && after == before.(status := after.status)
  }

  /** The update leaves its document without job ids. */
  predicate Finishes<I(==)>(name: Naming<I>, s: State<I>, e: Event<I>)
    requires e.Update?
  {
    Found(name, s, e).Some? && NewStatus(s.onProcess[Found(name, s, e).value], e.jobId, e.newStatus) == map[]
  }

  /** What a stop leaves of a running batch: no job id comes or goes. Named ids that exist become "stopping";
      without any, the named transactions are added to those to stop; without these either, the whole batch
      is asked to stop. The rest of the document stays. */
  ghost predicate AskedToStop<I(!new)>(before: Doc<I>, after: Doc<I>, jobIds: seq<I>, txIds: seq<I>) {
    && after.status.Keys == before.status.Keys
    && (forall i :: i in before.status ==> after.status[i] == if i in jobIds then "stopping" else before.status[i])
    && (forall t :: t in after.stopTransactions <==> t in before.stopTransactions || (jobIds == [] && t in txIds))
    && (after.stopRequested <==> before.stopRequested || (jobIds == [] && txIds == []))
    && (after.key, after.mandate, after.createdAt, after.startedAt) == (before.key, before.mandate, before.createdAt, before.startedAt)
  }

  // ----- What registrations, updates and promotions leave

  ghost predicate SameElsewhere<I(!new)>(before: Collection<I>, after: Collection<I>, d: I) {
    forall x :: x != d ==> (x in before <==> x in after) && (x in before && x in after ==> after[x] == before[x])
  }

  /** A new batch under `d`: its own key and mandate, created now, started now or not at all, every id queued. */
  ghost predicate Placed<I(!new)>(before: Collection<I>, after: Collection<I>, d: I, m: I, key: I, ids: set<I>, now: nat, start: bool) {
    && d in after && SameElsewhere(before, after, d)
    && after[d].key == key && after[d].mandate == m && after[d].createdAt == now
    && after[d].startedAt == (if start then Some(now) else None)
    && (forall i :: i in after[d].status <==> i in ids)
    && (forall i :: i in after[d].status ==> after[d].status[i] == "in_queue")
    && !after[d].stopRequested && after[d].stopTransactions == {}
  }

  /** The statuses that take a job out of its batch. */
  predicate EndsJob(status: string) {
    status == "completed" || status == "error" || status == "stopped" || status == "skipped" || status == "pending" || status == "routed"
  }

  /** The update is about the only job the batch still holds, and ends it. */
  ghost predicate LastJobEnds<I(!new)>(doc: Doc<I>, jobId: I, newStatus: string) {
    EndsJob(newStatus) && forall i :: i in doc.status ==> i == jobId
  }

  lemma EmptiesExactly<I(!new)>(doc: Doc<I>, jobId: I, newStatus: string)
    ensures NewStatus(doc, jobId, newStatus) == map[] <==> LastJobEnds(doc, jobId, newStatus)
  {
    var status := NewStatus(doc, jobId, newStatus);
    assert newStatus in Terminal <==> EndsJob(newStatus);
    if status == map[] {
      assert jobId !in status;
      forall i | i in doc.status ensures i == jobId { assert i !in status; }
    } else {
      var i :| i in status;
      assert EndsJob(newStatus) ==> i != jobId;
    }
  }

  lemma StatusMoves<I(!new)>(c: Collection<I>, d: I, jobId: I, newStatus: string)
    requires d in c
    ensures JobMoved(c, c[d := c[d].(status := NewStatus(c[d], jobId, newStatus))], d, jobId, newStatus)
  {
    assert newStatus in Terminal <==> EndsJob(newStatus);
  }

  /** The one job is taken out, or has the new status; the rest of the batch and all other batches stay. */
  ghost predicate JobMoved<I(!new)>(before: Collection<I>, after: Collection<I>, d: I, jobId: I, newStatus: string) {
    && d in before && d in after && SameElsewhere(before, after, d)
    && (jobId in after[d].status <==> !EndsJob(newStatus))
    && (jobId in after[d].status ==> after[d].status[jobId] == newStatus)
    && (forall i :: i != jobId ==> (i in after[d].status <==> i in before[d].status))
    && (forall i :: i != jobId && i in after[d].status && i in before[d].status ==> after[d].status[i] == before[d].status[i])
    && after[d] == before[d].(status := after[d].status)
  }

  /** The batch `o`, oldest of its mandate, has moved from `waits` to `runs` unchanged but for its start. */
  ghost predicate Moved<I(!new)>(name: Naming<I>, waits: Collection<I>, waits': Collection<I>, runs: Collection<I>, runs': Collection<I>,
                                 m: I, o: I, now: nat) {
    && o in waits && waits[o].mandate == m
    && (forall x :: x in waits && waits[x].mandate == m ==> waits[o].createdAt <= waits[x].createdAt)
    && o !in waits' && SameElsewhere(waits, waits', o)
    && var d := name(m, waits[o].key); d in runs' && SameElsewhere(runs, runs', d) && runs'[d] == waits[o].(startedAt := Some(now))
  }

  // ----- The calls

  class ActiveJobs<I(==, !new)> {
    var pending: Collection<I>
    var onProcess: Collection<I>
    var now: nat
    const name: Naming<I>

    ghost function Current(): State<I>
      reads this
    {
      State(pending, onProcess, now)
    }

    ghost predicate Valid()
      reads this
    {
      Dated(Current())
    }

    constructor (name: Naming<I>)
      ensures Valid() && Current() == Empty() && this.name == name
    {
      pending, onProcess, now := map[], map[], 0;
      this.name := name;
    }

    method RegisterJob(m: I, key: I, ids: set<I>) returns (shouldStart: bool, position: nat)
      requires Valid()
      modifies this
      ensures Valid() && Current() == DoRegister(name, old(Current()), m, key, ids)
      ensures shouldStart <==> !Any(old(onProcess), m)
      ensures position == if shouldStart then 0 else |OfMandate(old(pending), m)| + 1
      ensures shouldStart ==> Placed(old(onProcess), onProcess, name(m, key), m, key, ids, old(now), true) && pending == old(pending)
      ensures !shouldStart ==> Placed(old(pending), pending, name(m, key), m, key, ids, old(now), false) && onProcess == old(onProcess)
    {
      var running := OfMandate(onProcess, m);
      NoneOrAny(onProcess, m);
      var d := name(m, key);
      if running != {} {
        position := |OfMandate(pending, m)| + 1;
        pending := pending[d := NewDoc(m, key, ids, now, false)];
        shouldStart := false;
      } else {
        onProcess := onProcess[d := NewDoc(m, key, ids, now, true)];
        shouldStart, position := true, 0;
      }
      now := now + 1;
    }

    method StopPendingDoc(d: I, jobIds: seq<I>) returns (stops: seq<I>)
      requires Valid() && d in pending
      modifies this
      ensures Valid() && Current() == StopPending(old(Current()), d, jobIds)
      ensures AreStops(old(pending), pending, d, stops)
      ensures StopsAreNamed(old(pending), pending, d, jobIds, stops) && onProcess == old(onProcess)
    {
      var doc := pending[d];
      var left;
      stops, left := SplitBatch(doc, jobIds);
      if left == map[] {
        pending := pending - {d};
      } else {
        pending := pending[d := doc.(status := left)];
      }
      now := now + 1;
    }

    method StopRunningDoc(d: I, jobIds: seq<I>, txIds: seq<I>)
      requires Valid() && d in onProcess
      modifies this
      ensures Valid() && Current() == StopRunning(old(Current()), d, jobIds, txIds)
      ensures pending == old(pending) && onProcess.Keys == old(onProcess).Keys
      ensures forall x :: x in onProcess && x != d ==> onProcess[x] == old(onProcess)[x]
      ensures AskedToStop(old(onProcess)[d], onProcess[d], jobIds, txIds)
    {
      onProcess := onProcess[d := Stopping(onProcess[d], jobIds, txIds)];
      now := now + 1;
    }

    method RequestStop(m: I, key: I, jobIds: seq<I>, txIds: seq<I>) returns (place: Place, stops: seq<I>, ghost scan: I)
      requires Valid()
      modifies this
      ensures Valid() && ScanIsHonest(old(Current()), Stop(m, key, jobIds, txIds, scan))
      ensures Current() == Apply(name, old(Current()), Stop(m, key, jobIds, txIds, scan))
      ensures place == WhereStopped(name, old(Current()), Stop(m, key, jobIds, txIds, scan))
      ensures place == Pending ==> AreStops(old(pending), pending, if name(m, key) in old(pending) then name(m, key) else scan, stops)
      ensures place == Pending && name(m, key) in old(pending) ==> StopsAreNamed(old(pending), pending, name(m, key), jobIds, stops)
      ensures place == Pending && name(m, key) !in old(pending) ==>
        StopsAreNamed(old(pending), pending, scan, if jobIds != [] then jobIds else [key], stops)
      ensures place == OnProcess && name(m, key) in old(onProcess) ==>
        name(m, key) in onProcess && AskedToStop(old(onProcess)[name(m, key)], onProcess[name(m, key)], jobIds, txIds)
      ensures place == OnProcess && name(m, key) !in old(onProcess) ==>
        scan in old(onProcess) && scan in onProcess &&
        AskedToStop(old(onProcess)[scan], onProcess[scan], if jobIds != [] then jobIds else [key], txIds)
      ensures name(m, key) in old(onProcess) ==> place == OnProcess
      ensures name(m, key) !in old(onProcess) && name(m, key) in old(pending) ==> place == Pending
      ensures name(m, key) !in old(onProcess) && name(m, key) !in old(pending) ==>
        && (place == OnProcess <==> exists d :: Holds(old(onProcess), d, m, key))
        && (place == Pending ==> Holds(old(pending), scan, m, key))
        && (place == NotFound ==> forall d :: !Holds(old(pending), d, m, key))
      ensures place != OnProcess ==> onProcess == old(onProcess)
      ensures place != Pending ==> stops == [] && pending == old(pending)
    {
      stops, scan := [], SomeHolder(Current(), m, key);
      var d := name(m, key);
      if d in onProcess {
        StopRunningDoc(d, jobIds, txIds);
        return OnProcess, stops, scan;
      }
      if d in pending {
        stops := StopPendingDoc(d, jobIds);
        return Pending, stops, scan;
      }
      var ids := if jobIds != [] then jobIds else [key];
      var running := FindHolder(onProcess, m, key);
      if running.Some? {
        scan := running.value;
        StopRunningDoc(running.value, ids, txIds);
        return OnProcess, stops, scan;
      }
      var waiting := FindHolder(pending, m, key);
      if waiting.Some? {
        scan := waiting.value;
        stops := StopPendingDoc(waiting.value, ids);
        return Pending, stops, scan;
      }
      now := now + 1;
      return NotFound, stops, scan;
    }

    method PromoteNext(m: I) returns (promoted: bool)
      requires Valid()
      modifies this
      ensures Valid() && Current() == Promote(name, old(Current()), m)
      ensures promoted <==> Any(old(pending), m)
      ensures promoted ==> exists o :: Moved(name, old(pending), pending, old(onProcess), onProcess, m, o, now)
      ensures now == old(now) && (!promoted ==> pending == old(pending) && onProcess == old(onProcess))
    {
      var found := FindOldest(pending, m);
      promoted := found.Some?;
      if found.Some? {
        var d := found.value;
        assert d in pending && Of(pending, d, m);
        assert d == Oldest(pending, m);
        var doc := pending[d];
        onProcess := onProcess[name(m, doc.key) := doc.(startedAt := Some(now))];
        pending := pending - {d};
        assert Moved(name, old(pending), pending, old(onProcess), onProcess, m, d, now);
      }
    }

    method UpdateJobStatus(m: I, jobId: I, newStatus: string, batch: Option<I>)
      returns (updated: bool, allDone: bool, promoted: bool, ghost scan: I)
      requires Valid()
      modifies this
      ensures Valid() && ScanIsHonest(old(Current()), Update(m, jobId, newStatus, batch, scan))
      ensures Current() == Apply(name, old(Current()), Update(m, jobId, newStatus, batch, scan))
      ensures updated <==> Found(name, old(Current()), Update(m, jobId, newStatus, batch, scan)).Some?
      ensures allDone <==> Finishes(name, old(Current()), Update(m, jobId, newStatus, batch, scan))
      ensures promoted <==> allDone && Any(old(pending), m)
      ensures updated <==> (batch.Some? && name(m, batch.value) in old(onProcess)) || exists d :: Holds(old(onProcess), d, m, jobId)
      ensures !updated ==> onProcess == old(onProcess)
      ensures !promoted ==> pending == old(pending)
      ensures updated ==> var d := if batch.Some? && name(m, batch.value) in old(onProcess) then name(m, batch.value) else scan;
        && d in old(onProcess)
        && (allDone <==> LastJobEnds(old(onProcess)[d], jobId, newStatus))
        && (!allDone ==> JobMoved(old(onProcess), onProcess, d, jobId, newStatus))
        && (allDone && !promoted ==> onProcess == old(onProcess) - {d})
        && (promoted ==> exists o :: Moved(name, old(pending), pending, old(onProcess) - {d}, onProcess, m, o, now))
    {
      var held := FindHolder(onProcess, m, jobId);
      scan := if held.Some? then held.value else m;
      var found := held;
      if batch.Some? && name(m, batch.value) in onProcess {
        found := Some(name(m, batch.value));
      }
      updated, allDone, promoted := found.Some?, false, false;
      now := now + 1;
      if found.Some? {
        allDone, promoted := MoveJob(m, found.value, jobId, newStatus);
      }
    }

    /** Takes the job out of running batch `d` or sets its status; a batch without jobs is deleted and the
        next one promoted. */
    method MoveJob(m: I, d: I, jobId: I, newStatus: string) returns (allDone: bool, promoted: bool)
      requires Valid() && d in onProcess
      modifies this
      ensures Valid() && now == old(now)
      ensures Current() == Settle(name, old(Current()), m, d, jobId, newStatus)
      ensures allDone <==> NewStatus(old(onProcess)[d], jobId, newStatus) == map[]
      ensures promoted <==> allDone && Any(old(pending), m)
      ensures !promoted ==> pending == old(pending)
      ensures allDone <==> LastJobEnds(old(onProcess)[d], jobId, newStatus)
      ensures !allDone ==> JobMoved(old(onProcess), onProcess, d, jobId, newStatus)
      ensures allDone && !promoted ==> onProcess == old(onProcess) - {d}
      ensures promoted ==> exists o :: Moved(name, old(pending), pending, old(onProcess) - {d}, onProcess, m, o, now)
    {
      allDone, promoted := false, false;
      var status := NewStatus(onProcess[d], jobId, newStatus);
      EmptiesExactly(onProcess[d], jobId, newStatus);
      StatusMoves(onProcess, d, jobId, newStatus);
      if status == map[] {
        onProcess := onProcess - {d};
        allDone := true;
        promoted := PromoteNext(m);
      } else {
        onProcess := onProcess[d := onProcess[d].(status := status)];
      }
    }
  }

  /** The end of an update, its clock already advanced. */
  ghost function Settle<I(!new)>(name: Naming<I>, s: State<I>, m: I, d: I, jobId: I, newStatus: string): State<I>
    requires d in s.onProcess
  {
    var status := NewStatus(s.onProcess[d], jobId, newStatus);
    if status == map[] then Promote(name, s.(onProcess := s.onProcess - {d}), m)
    else s.(onProcess := s.onProcess[d := s.onProcess[d].(status := status)])
  }
}

/** Which runs of the queue lead to states that can be drained, and what a batch without job ids does. */
module JobDrainRuns {
  import opened Wrappers
  import opened JobQueue
  import opened JobDrain
  import opened JobPayload

  // ----- Batches keep their ids

  /** The call registers no batch of mandate `m` without job ids. */
  predicate BringsIds<I(==)>(e: Event<I>, m: I) {
    e.Register? && e.mandate == m ==> e.ids != {}
  }

  lemma PutKeepsIds<I(!new)>(c: Collection<I>, d: I, doc: Doc<I>, m: I)
    requires NoneEmpty(c, m) && (doc.mandate == m ==> doc.status != map[])
    ensures NoneEmpty(c[d := doc], m) && NoneEmpty(c - {d}, m)
  {
  }

  lemma NewHasIds<I>(m: I, key: I, ids: set<I>, now: nat, start: bool)
    ensures NewDoc(m, key, ids, now, start).status == map[] <==> ids == {}
  {
    assert NewDoc(m, key, ids, now, start).status.Keys == ids;
  }

  lemma RegisterKeepsIds<I(!new)>(name: Naming<I>, s: State<I>, e: Event<I>, m: I)
    requires AllHaveIds(s, m) && e.Register? && BringsIds(e, m)
    ensures AllHaveIds(Apply(name, s, e), m)
  {
    var d := name(e.mandate, e.key);
    NewHasIds(e.mandate, e.key, e.ids, s.now, false);
    NewHasIds(e.mandate, e.key, e.ids, s.now, true);
    PutKeepsIds(s.pending, d, NewDoc(e.mandate, e.key, e.ids, s.now, false), m);
    if e.mandate == m {
      PutKeepsIds(s.onProcess, d, NewDoc(e.mandate, e.key, e.ids, s.now, true), m);
    }
  }

  lemma StopRunningKeepsIds<I(!new)>(s: State<I>, d: I, jobIds: seq<I>, txIds: seq<I>, m: I)
    requires AllHaveIds(s, m) && d in s.onProcess
    ensures AllHaveIds(StopRunning(s, d, jobIds, txIds), m)
  {
    var doc := s.onProcess[d];
    assert Stopping(doc, jobIds, txIds).status.Keys == doc.status.Keys;
    PutKeepsIds(s.onProcess, d, Stopping(doc, jobIds, txIds), m);
  }

  lemma StopPendingKeepsIds<I(!new)>(s: State<I>, d: I, jobIds: seq<I>, m: I)
    requires AllHaveIds(s, m) && d in s.pending
    ensures AllHaveIds(StopPending(s, d, jobIds), m)
  {
    var left := Remaining(s.pending[d], jobIds);
    if left != map[] {
      PutKeepsIds(s.pending, d, s.pending[d].(status := left), m);
    }
  }

  lemma StopKeepsIds<I(!new)>(name: Naming<I>, s: State<I>, e: Event<I>, m: I)
    requires AllHaveIds(s, m) && e.Stop?
    ensures AllHaveIds(Apply(name, s, e), m)
  {
    var d := name(e.mandate, e.key);
    var ids := if e.jobIds != [] then e.jobIds else [e.key];
    if d in s.onProcess {
      StopRunningKeepsIds(s, d, e.jobIds, e.txIds, m);
    } else if d in s.pending {
      StopPendingKeepsIds(s, d, e.jobIds, m);
    } else if Holds(s.onProcess, e.scan, e.mandate, e.key) {
      StopRunningKeepsIds(s, e.scan, ids, e.txIds, m);
    } else if Holds(s.pending, e.scan, e.mandate, e.key) {
      StopPendingKeepsIds(s, e.scan, ids, m);
    }
  }

  lemma PromoteKeepsIds<I(!new)>(name: Naming<I>, s: State<I>, n: I, m: I)
    requires AllHaveIds(s, m)
    ensures AllHaveIds(Promote(name, s, n), m)
  {
    if Any(s.pending, n) {
      var d := Oldest(s.pending, n);
      var doc := s.pending[d].(startedAt := Some(s.now));
      assert Of(s.pending, d, n);
      PutKeepsIds(s.onProcess, name(n, doc.key), doc, m);
    }
  }

  lemma UpdateKeepsIds<I(!new)>(name: Naming<I>, s: State<I>, e: Event<I>, m: I)
    requires AllHaveIds(s, m) && e.Update?
    ensures AllHaveIds(Apply(name, s, e), m)
  {
    var found := Found(name, s, e);
    if found.Some? {
      var d := found.value;
      var status := NewStatus(s.onProcess[d], e.jobId, e.newStatus);
      if status == map[] {
        PromoteKeepsIds(name, s.(onProcess := s.onProcess - {d}, now := s.now + 1), e.mandate, m);
      } else {
        PutKeepsIds(s.onProcess, d, s.onProcess[d].(status := status), m);
      }
    }
  }

  /** No call but a registration without ids makes a batch of the mandate without ids. */
  lemma StepKeepsIds<I(!new)>(name: Naming<I>, s: State<I>, e: Event<I>, m: I)
    requires AllHaveIds(s, m) && BringsIds(e, m)
    ensures AllHaveIds(Apply(name, s, e), m)
  {
    match e
    case Register(_, _, _) => RegisterKeepsIds(name, s, e, m);
    case Stop(_, _, _, _, _) => StopKeepsIds(name, s, e, m);
    case Update(_, _, _, _, _) => UpdateKeepsIds(name, s, e, m);
  }

  /** And such a registration does. */
  lemma EmptyRegistrationShows<I(!new)>(name: Naming<I>, s: State<I>, e: Event<I>, m: I)
    requires !BringsIds(e, m)
    ensures !AllHaveIds(Apply(name, s, e), m)
  {
    var d := name(m, e.key);
    NewHasIds(m, e.key, e.ids, s.now, false);
    NewHasIds(m, e.key, e.ids, s.now, true);
    var t := Apply(name, s, e);
    if Any(s.onProcess, m) {
      assert t.pending[d] == NewDoc(m, e.key, e.ids, s.now, false);
    } else {
      assert t.onProcess[d] == NewDoc(m, e.key, e.ids, s.now, true);
    }
  }

  // ----- Over runs

  ghost predicate AllBringIds<I(!new)>(run: seq<Event<I>>, m: I) {
    forall i :: 0 <= i < |run| ==> BringsIds(run[i], m)
  }

  lemma {:induction false} RunKeepsIds<I(!new)>(name: Naming<I>, run: seq<Event<I>>, m: I)
    requires AllBringIds(run, m)
    ensures AllHaveIds(After(name, run), m)
  {
    if run != [] {
      RunKeepsIds(name, run[..|run| - 1], m);
      StepKeepsIds(name, After(name, run[..|run| - 1]), run[|run| - 1], m);
    }
  }

  ghost predicate AlwaysHaveIds<I(!new)>(name: Naming<I>, run: seq<Event<I>>, m: I) {
    forall n :: 0 <= n <= |run| ==> AllHaveIds(After(name, run[..n]), m)
  }

  /** Throughout a run every batch of the mandate has a job id exactly when every registration brings one. */
  lemma AlwaysHaveIdsExactly<I(!new)>(name: Naming<I>, run: seq<Event<I>>, m: I)
    ensures AlwaysHaveIds(name, run, m) <==> AllBringIds(run, m)
  {
    if AllBringIds(run, m) {
      forall n | 0 <= n <= |run| ensures AllHaveIds(After(name, run[..n]), m) {
        RunKeepsIds(name, run[..n], m);
      }
    } else {
      var i :| 0 <= i < |run| && !BringsIds(run[i], m);
      assert run[..i + 1][..i] == run[..i];
      EmptyRegistrationShows(name, After(name, run[..i]), run[i], m);
      assert !AllHaveIds(After(name, run[..i + 1]), m);
    }
  }

  ghost predicate Drainable<I(!new)>(name: Naming<I>, u: Scope<I>, run: seq<Event<I>>, m: I) {
    exists reports :: Empties(name, u, After(name, run), reports, m)
  }

  ghost predicate AlwaysDrainable<I(!new)>(name: Naming<I>, u: Scope<I>, run: seq<Event<I>>, m: I) {
    forall n :: 0 <= n <= |run| ==> Drainable(name, u, run[..n], m)
  }

  lemma DrainableAfter<I(!new)>(name: Naming<I>, u: Scope<I>, run: seq<Event<I>>, n: nat, m: I)
    requires Separates(name, u) && Legal(name, u, run) && m in u.mandates && n <= |run|
    ensures Drainable(name, u, run[..n], m) <==> AllHaveIds(After(name, run[..n]), m)
  {
    forall j | 0 <= j < n ensures InScope(u, run[..n][j]) && ScanIsHonest(After(name, run[..n][..j]), run[..n][j]) {
      assert run[..n][..j] == run[..j];
    }
    RunKeepsInv(name, u, run[..n]);
    DrainableExactly(name, u, After(name, run[..n]), m);
  }

  /** At every point of a run the mandate's queue can be emptied by reports exactly when every registration of
      the mandate brought a job id. */
  lemma AlwaysDrainableExactly<I(!new)>(name: Naming<I>, u: Scope<I>, run: seq<Event<I>>, m: I)
    requires Separates(name, u) && Legal(name, u, run) && m in u.mandates
    ensures AlwaysDrainable(name, u, run, m) <==> AllBringIds(run, m)
  {
    forall n | 0 <= n <= |run| ensures Drainable(name, u, run[..n], m) <==> AllHaveIds(After(name, run[..n]), m) {
      DrainableAfter(name, u, run, n, m);
    }
    AlwaysHaveIdsExactly(name, run, m);
  }

  /** After any run whose registrations bring ids, exactly as many reports as there are live ids empty the queue. */
  lemma RunDrainsExactly<I(!new)>(name: Naming<I>, u: Scope<I>, run: seq<Event<I>>, reports: seq<Event<I>>, m: I)
    requires Separates(name, u) && Legal(name, u, run) && AllBringIds(run, m)
    requires AllReport(name, u, After(name, run), reports, m)
    ensures |reports| <= Live(After(name, run), m)
    ensures Idle(From(name, After(name, run), reports), m) <==> |reports| == Live(After(name, run), m)
  {
    RunKeepsInv(name, u, run);
    RunKeepsIds(name, run, m);
    DrainsExactly(name, u, After(name, run), reports, m);
  }

  // ----- A batch without ids

  /** Nothing can be reported while a batch without ids runs. */
  lemma EmptyRunnerBlocks<I(!new)>(s: State<I>, d: I, m: I, e: Event<I>)
    requires OneRuns(s) && Of(s.onProcess, d, m) && s.onProcess[d].status == map[]
    ensures !Reports(s, e, m)
  {
    forall x ensures e.Update? ==> !Holds(s.onProcess, x, m, e.jobId) {
      if Of(s.onProcess, x, m) { OnlyRunner(s, m, d, x); }
    }
  }

  function StuckRun<I>(m: I, k: I, l: I, j: I): seq<Event<I>> { [Register(m, k, {}), Register(m, l, {j})] }

  /** A batch without ids runs and one with the id `j` waits. */
  lemma StuckState<I(!new)>(name: Naming<I>, m: I, k: I, l: I, j: I)
    ensures var s := After(name, StuckRun(m, k, l, j));
            s.onProcess == map[name(m, k) := NewDoc(m, k, {}, 0, true)] &&
            s.pending == map[name(m, l) := NewDoc(m, l, {j}, 1, false)]
  {
    var e, f := Register(m, k, {}), Register(m, l, {j});
    assert StuckRun(m, k, l, j)[..1] == [e] && [e][..0] == [];
    assert After(name, []) == Empty<I>();
    var s1 := After(name, [e]);
    assert s1 == Apply(name, Empty(), e);
    assert Of(s1.onProcess, name(m, k), m);
  }

  lemma StuckIsLegal<I(!new)>(name: Naming<I>, u: Scope<I>, m: I, k: I, l: I, j: I)
    requires m in u.mandates && k in u.keys && l in u.keys
    ensures Legal(name, u, StuckRun(m, k, l, j))
  {
  }

  /** A run that is stuck: a batch without ids starts, and a batch with one waits behind it. */
  lemma EmptyBatchBlocks<I(!new)>(name: Naming<I>, u: Scope<I>, m: I, k: I, l: I, j: I)
    requires Separates(name, u) && m in u.mandates && k in u.keys && l in u.keys
    ensures var run := StuckRun(m, k, l, j);
            Legal(name, u, run) && Live(After(name, run), m) == 1 && !Drainable(name, u, run, m) &&
            forall e :: !Reports(After(name, run), e, m)
  {
    var run := StuckRun(m, k, l, j);
    var s := After(name, run);
    StuckIsLegal(name, u, m, k, l, j);
    StuckState(name, m, k, l, j);
    NewHasIds(m, k, {}, 0, true);
    OneLive(s.pending, name(m, l), NewDoc(m, l, {j}, 1, false), s.onProcess, name(m, k), NewDoc(m, k, {}, 0, true), m, j);
    assert Of(s.onProcess, name(m, k), m);
    RunKeepsInv(name, u, run);
    DrainableExactly(name, u, s, m);
    forall e ensures !Reports(s, e, m) {
      EmptyRunnerBlocks(s, name(m, k), m, e);
    }
  }

  lemma OneLive<I(!new)>(pending: Collection<I>, p: I, waiting: Doc<I>, onProcess: Collection<I>, d: I, running: Doc<I>, m: I, j: I)
    requires pending == map[p := waiting] && waiting.mandate == m && waiting.status.Keys == {j}
    requires onProcess == map[d := running] && running.status == map[]
    ensures Load(pending, m) + Load(onProcess, m) == 1
  {
    LoadSplit(pending, m, p);
    LoadSplit(onProcess, m, d);
    assert pending - {p} == map[] && onProcess - {d} == map[];
    assert |waiting.status| == |waiting.status.Keys|;
  }

  /** Every registration of a job type the extraction does not know is of this kind. */
  lemma UnknownTypesRegisterNoIds(jobType: string, p: Payload, statuses: Statuses, m: string, key: string)
    requires jobType !in KnownTypes && Queues(statuses, id => Gives(jobType, p, id))
    ensures !BringsIds(Register(m, key, statuses.Keys), m)
  {
    forall id ensures id !in statuses {
      UnknownTypesGiveNothing(jobType, p, id);
    }
    assert statuses.Keys == {};
  }

  /** Such a batch leaves by a terminal status that names the batch, for whatever job id: it is taken for done. */
  lemma NamedReportFrees<I(!new)>(name: Naming<I>, s: State<I>, m: I, k: I, jobId: I, newStatus: string, scan: I)
    requires name(m, k) in s.onProcess && s.onProcess[name(m, k)].status == map[] && newStatus in Terminal
    ensures Apply(name, s, Update(m, jobId, newStatus, Some(k), scan))
         == Promote(name, s.(onProcess := s.onProcess - {name(m, k)}, now := s.now + 1), m)
  {
  }
}

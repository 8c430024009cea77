/** The `active_jobs` queue of one job type: two collections of documents, `pending` and `on_process`,
    shared by all mandates. Every public call is one atomic step. */
module JobQueue {
  import opened Wrappers

  /** A batch: `createdAt` is the reading of a strictly increasing clock at registration. */
  datatype Doc<I> = Doc(key: I, mandate: I, createdAt: nat, startedAt: Option<nat>, status: map<I, string>,
                     stopRequested: bool, stopTransactions: set<I>)

  type Collection<I> = map<I, Doc<I>>

  datatype State<I> = State(pending: Collection<I>, onProcess: Collection<I>, now: nat)

  /** How a document id is made of a mandate path and a batch key. */
  type Naming<!I> = (I, I) -> I

  /** `scan` is the document a collection scan meets first; [] stands for a missing list. */
  datatype Event<I> =
    | Register(mandate: I, key: I, ids: set<I>)
    | Stop(mandate: I, key: I, jobIds: seq<I>, txIds: seq<I>, scan: I)
    | Update(mandate: I, jobId: I, newStatus: string, batch: Option<I>, scan: I)

  const Terminal: set<string> := {"completed", "error", "stopped", "skipped", "pending", "routed"}

  predicate Of<I(==)>(c: Collection<I>, d: I, m: I) { d in c && c[d].mandate == m }

  predicate Any<I(==)>(c: Collection<I>, m: I) { exists d :: d in c && Of(c, d, m) }

  predicate Holds<I(==)>(c: Collection<I>, d: I, m: I, jobId: I) { Of(c, d, m) && jobId in c[d].status }

  // ----- Registration

  function NewDoc<I(==)>(m: I, key: I, ids: set<I>, now: nat, start: bool): Doc<I> {
    Doc(key, m, now, if start then Some(now) else None, map i | i in ids :: "in_queue", false, {})
  }

  function DoRegister<I(==)>(name: Naming<I>, s: State<I>, m: I, key: I, ids: set<I>): State<I> {
    if Any(s.onProcess, m) then
      s.(pending := s.pending[name(m, key) := NewDoc(m, key, ids, s.now, false)], now := s.now + 1)
    else
      s.(onProcess := s.onProcess[name(m, key) := NewDoc(m, key, ids, s.now, true)], now := s.now + 1)
  }

  // ----- Stop

  function Stopping<I(==)>(doc: Doc<I>, jobIds: seq<I>, txIds: seq<I>): Doc<I> {
    if jobIds != [] then doc.(status := map i | i in doc.status :: if i in jobIds then "stopping" else doc.status[i])
    else if txIds != [] then doc.(stopTransactions := doc.stopTransactions + (set t | t in txIds))
    else doc.(stopRequested := true)
  }

  /** What is left of a pending batch. */
  function Remaining<I(==)>(doc: Doc<I>, jobIds: seq<I>): map<I, string> {
    if jobIds != [] then map i | i in doc.status && i !in jobIds :: doc.status[i] else map[]
  }

  function StopRunning<I(==)>(s: State<I>, d: I, jobIds: seq<I>, txIds: seq<I>): State<I>
    requires d in s.onProcess
  {
    s.(onProcess := s.onProcess[d := Stopping(s.onProcess[d], jobIds, txIds)], now := s.now + 1)
  }

  function StopPending<I(==)>(s: State<I>, d: I, jobIds: seq<I>): State<I>
    requires d in s.pending
  {
    var left := Remaining(s.pending[d], jobIds);
    if left == map[] then s.(pending := s.pending - {d}, now := s.now + 1)
    else s.(pending := s.pending[d := s.pending[d].(status := left)], now := s.now + 1)
  }

  /** By batch key in `on_process`, then in `pending`; failing both, by a scan for the job id. */
  function DoStop<I(==)>(name: Naming<I>, s: State<I>, e: Event<I>): State<I>
    requires e.Stop?
  {
    var d := name(e.mandate, e.key);
    if d in s.onProcess then StopRunning(s, d, e.jobIds, e.txIds)
    else if d in s.pending then StopPending(s, d, e.jobIds)
    else
      var ids := if e.jobIds != [] then e.jobIds else [e.key];
      if Holds(s.onProcess, e.scan, e.mandate, e.key) then StopRunning(s, e.scan, ids, e.txIds)
      else if Holds(s.pending, e.scan, e.mandate, e.key) then StopPending(s, e.scan, ids)
      else s.(now := s.now + 1)
  }

  // ----- Status update and promotion

  ghost predicate IsOldest<I(!new)>(c: Collection<I>, m: I, d: I) {
    Of(c, d, m) && forall x :: Of(c, x, m) ==> c[d].createdAt <= c[x].createdAt
  }

  lemma {:induction false} OldestExists<I(!new)>(c: Collection<I>, m: I)
    requires Any(c, m)
    ensures exists d :: IsOldest(c, m, d)
    decreases |c|
  {
    var d :| d in c && Of(c, d, m);
    if x :| x in c && Of(c, x, m) && c[x].createdAt < c[d].createdAt {
      var rest := c - {d};
      assert Of(rest, x, m);
      OldestExists(rest, m);
      var o :| IsOldest(rest, m, o);
      forall y | Of(c, y, m) ensures c[o].createdAt <= c[y].createdAt {
        assert y != d ==> Of(rest, y, m);
        assert rest[o].createdAt <= rest[x].createdAt;
      }
      assert IsOldest(c, m, o);
    } else {
      assert IsOldest(c, m, d);
    }
  }

  ghost function Oldest<I(!new)>(c: Collection<I>, m: I): (d: I)
    requires Any(c, m)
    ensures IsOldest(c, m, d)
  {
    OldestExists(c, m);
    var d :| IsOldest(c, m, d);
    d
  }

  ghost function Promote<I(!new)>(name: Naming<I>, s: State<I>, m: I): State<I> {
    if !Any(s.pending, m) then s
    else
      var d := Oldest(s.pending, m);
      var doc := s.pending[d];
      s.(pending := s.pending - {d}, onProcess := s.onProcess[name(m, doc.key) := doc.(startedAt := Some(s.now))])
  }

  /** The document an update finds: by batch id, else by a scan for the job id. */
  function Found<I(==)>(name: Naming<I>, s: State<I>, e: Event<I>): Option<I>
    requires e.Update?
  {
    if e.batch.Some? && name(e.mandate, e.batch.value) in s.onProcess then Some(name(e.mandate, e.batch.value))
    else if Holds(s.onProcess, e.scan, e.mandate, e.jobId) then Some(e.scan)
    else None
  }

  function NewStatus<I(==)>(doc: Doc<I>, jobId: I, newStatus: string): map<I, string> {
    if newStatus in Terminal then doc.status - {jobId} else doc.status[jobId := newStatus]
  }

  function SetStatus<I(==)>(s: State<I>, d: I, status: map<I, string>): State<I>
    requires d in s.onProcess
  {
    s.(onProcess := s.onProcess[d := s.onProcess[d].(status := status)], now := s.now + 1)
  }

  ghost function DoUpdate<I(!new)>(name: Naming<I>, s: State<I>, e: Event<I>): State<I>
    requires e.Update?
  {
    var found := Found(name, s, e);
    if found.None? then s.(now := s.now + 1)
    else
      var d := found.value;
      var status := NewStatus(s.onProcess[d], e.jobId, e.newStatus);
      if status == map[] then
        Promote(name, s.(onProcess := s.onProcess - {d}, now := s.now + 1), e.mandate)
      else
        SetStatus(s, d, status)
  }

  // ----- Steps and runs

  ghost function Apply<I(!new)>(name: Naming<I>, s: State<I>, e: Event<I>): State<I> {
    match e
    case Register(m, key, ids) => DoRegister(name, s, m, key, ids)
    case Stop(_, _, _, _, _) => DoStop(name, s, e)
    case Update(_, _, _, _, _) => DoUpdate(name, s, e)
  }

  /** A scan misses only when there is nothing to find. */
  ghost predicate ScanIsHonest<I(!new)>(s: State<I>, e: Event<I>) {
    match e
    case Register(_, _, _) => true
    case Stop(m, key, _, _, scan) =>
      && ((exists d :: Holds(s.onProcess, d, m, key)) ==> Holds(s.onProcess, scan, m, key))
      && (!(exists d :: Holds(s.onProcess, d, m, key)) && (exists d :: Holds(s.pending, d, m, key)) ==> Holds(s.pending, scan, m, key))
    case Update(m, jobId, _, _, scan) =>
      (exists d :: Holds(s.onProcess, d, m, jobId)) ==> Holds(s.onProcess, scan, m, jobId)
  }

  function Empty<I>(): State<I> { State(map[], map[], 0) }

  ghost function After<I(!new)>(name: Naming<I>, run: seq<Event<I>>): State<I> {
    if run == [] then Empty() else Apply(name, After(name, run[..|run| - 1]), run[|run| - 1])
  }

  /** The mandates and batch keys in use. */
  datatype Scope<!I> = Scope(mandates: iset<I>, keys: iset<I>)

  ghost predicate InScope<I(!new)>(u: Scope<I>, e: Event<I>) {
    && e.mandate in u.mandates
    && (e.Register? ==> e.key in u.keys)
    && (e.Update? && e.batch.Some? ==> e.batch.value in u.keys)
  }

  ghost predicate Legal<I(!new)>(name: Naming<I>, u: Scope<I>, run: seq<Event<I>>) {
    forall i :: 0 <= i < |run| ==> InScope(u, run[i]) && ScanIsHonest(After(name, run[..i]), run[i])
  }

  /** Document ids of different mandates never coincide. */
  ghost predicate Separates<I(!new)>(name: Naming<I>, u: Scope<I>) {
    forall m, k, m', k' :: m in u.mandates && m' in u.mandates && k in u.keys && k' in u.keys && name(m, k) == name(m', k') ==> m == m'
  }

  // ----- The invariant

  /** At most one running batch per mandate, and none waits without one running. */
  ghost predicate OneRuns<I(!new)>(s: State<I>) {
    && (forall d, e :: d in s.onProcess && e in s.onProcess && s.onProcess[d].mandate == s.onProcess[e].mandate ==> d == e)
    && (forall d :: d in s.pending ==> Any(s.onProcess, s.pending[d].mandate))
  }

  ghost predicate Named<I(!new)>(name: Naming<I>, u: Scope<I>, c: Collection<I>) {
    forall d :: d in c ==> c[d].mandate in u.mandates && c[d].key in u.keys && d == name(c[d].mandate, c[d].key)
  }

  ghost predicate Dated<I(!new)>(s: State<I>) {
    && (forall d :: d in s.pending ==> s.pending[d].createdAt < s.now)
    && (forall d :: d in s.onProcess ==> s.onProcess[d].createdAt < s.now)
    && (forall d, e :: d in s.pending && e in s.pending && s.pending[d].createdAt == s.pending[e].createdAt ==> d == e)
  }

  ghost predicate Inv<I(!new)>(name: Naming<I>, u: Scope<I>, s: State<I>) {
    OneRuns(s) && Named(name, u, s.pending) && Named(name, u, s.onProcess) && Dated(s)
  }

  // ----- Every step keeps it

  lemma OnlyRunner<I(!new)>(s: State<I>, m: I, d: I, e: I)
    requires OneRuns(s) && Of(s.onProcess, d, m) && Of(s.onProcess, e, m)
    ensures d == e
  {
  }

  lemma RegisterKeepsInv<I(!new)>(name: Naming<I>, u: Scope<I>, s: State<I>, m: I, key: I, ids: set<I>)
    requires Separates(name, u) && Inv(name, u, s) && m in u.mandates && key in u.keys
    ensures Inv(name, u, DoRegister(name, s, m, key, ids))
  {
    var d, s' := name(m, key), DoRegister(name, s, m, key, ids);
    if Any(s.onProcess, m) {
      assert s'.onProcess == s.onProcess;
    } else {
      assert d !in s.onProcess by {
        if d in s.onProcess {
          assert Of(s.onProcess, d, m);
        }
      }
      KeepsRunners(s.onProcess, s'.onProcess);
    }
  }

  /** Adding documents, or changing them without changing their mandate, keeps every mandate running. */
  lemma KeepsRunners<I(!new)>(c: Collection<I>, c': Collection<I>)
    requires forall d :: d in c ==> d in c' && c'[d].mandate == c[d].mandate
    ensures forall m :: Any(c, m) ==> Any(c', m)
  {
    forall m | Any(c, m) ensures Any(c', m) {
      var d :| d in c && Of(c, d, m);
      assert Of(c', d, m);
    }
  }

  lemma StopRunningKeepsInv<I(!new)>(name: Naming<I>, u: Scope<I>, s: State<I>, d: I, jobIds: seq<I>, txIds: seq<I>)
    requires Inv(name, u, s) && d in s.onProcess
    ensures Inv(name, u, StopRunning(s, d, jobIds, txIds))
  {
    KeepsRunners(s.onProcess, StopRunning(s, d, jobIds, txIds).onProcess);
  }

  predicate SameBatch<I(==)>(a: Doc<I>, b: Doc<I>) { a.mandate == b.mandate && a.key == b.key && a.createdAt == b.createdAt }

  lemma StopPendingKeepsInv<I(!new)>(name: Naming<I>, u: Scope<I>, s: State<I>, d: I, jobIds: seq<I>)
    requires Inv(name, u, s) && d in s.pending
    ensures Inv(name, u, StopPending(s, d, jobIds))
  {
    var s' := StopPending(s, d, jobIds);
    assert forall x :: x in s'.pending ==> x in s.pending && SameBatch(s'.pending[x], s.pending[x]);
  }

  lemma StopKeepsInv<I(!new)>(name: Naming<I>, u: Scope<I>, s: State<I>, e: Event<I>)
    requires Inv(name, u, s) && e.Stop?
    ensures Inv(name, u, DoStop(name, s, e))
  {
    var d, ids := name(e.mandate, e.key), if e.jobIds != [] then e.jobIds else [e.key];
    if d in s.onProcess {
      StopRunningKeepsInv(name, u, s, d, e.jobIds, e.txIds);
    } else if d in s.pending {
      StopPendingKeepsInv(name, u, s, d, e.jobIds);
    } else if Holds(s.onProcess, e.scan, e.mandate, e.key) {
      StopRunningKeepsInv(name, u, s, e.scan, ids, e.txIds);
    } else if Holds(s.pending, e.scan, e.mandate, e.key) {
      StopPendingKeepsInv(name, u, s, e.scan, ids);
    }
  }

  /** Taking out the running batch and promoting the oldest pending one, if there is one. */
  lemma PromoteKeepsInv<I(!new)>(name: Naming<I>, u: Scope<I>, s: State<I>, d: I, now: nat)
    requires Separates(name, u) && Inv(name, u, s) && d in s.onProcess && now >= s.now
    ensures Inv(name, u, Promote(name, s.(onProcess := s.onProcess - {d}, now := now), s.onProcess[d].mandate))
  {
    var m := s.onProcess[d].mandate;
    var mid := s.(onProcess := s.onProcess - {d}, now := now);
    var s' := Promote(name, mid, m);
    assert forall x :: x in mid.onProcess ==> mid.onProcess[x].mandate != m;
    if Any(s.pending, m) {
      var o := Oldest(s.pending, m);
      assert o == name(m, s.pending[o].key);
      assert o !in mid.onProcess;
    }
    forall x | x in s'.pending ensures Any(s'.onProcess, s'.pending[x].mandate) {
      var n := s'.pending[x].mandate;
      assert x in s.pending && s.pending[x].mandate == n;
      if n == m {
        assert Of(s.pending, x, m);
        assert Of(s'.onProcess, Oldest(s.pending, m), m);
      } else {
        var r :| r in s.onProcess && Of(s.onProcess, r, n);
        assert Of(s'.onProcess, r, n);
      }
    }
  }

  /** An update always finds a document of its own mandate. */
  lemma FoundIsOwn<I(!new)>(name: Naming<I>, u: Scope<I>, s: State<I>, e: Event<I>)
    requires Separates(name, u) && Inv(name, u, s) && e.Update? && InScope(u, e) && Found(name, s, e).Some?
    ensures Of(s.onProcess, Found(name, s, e).value, e.mandate)
  {
  }

  lemma SetStatusKeepsInv<I(!new)>(name: Naming<I>, u: Scope<I>, s: State<I>, d: I, status: map<I, string>)
    requires Inv(name, u, s) && d in s.onProcess
    ensures Inv(name, u, SetStatus(s, d, status))
  {
    KeepsRunners(s.onProcess, SetStatus(s, d, status).onProcess);
  }

  lemma UpdateKeepsInv<I(!new)>(name: Naming<I>, u: Scope<I>, s: State<I>, e: Event<I>)
    requires Separates(name, u) && Inv(name, u, s) && e.Update? && InScope(u, e)
    ensures Inv(name, u, DoUpdate(name, s, e))
  {
    var found := Found(name, s, e);
    if found.Some? {
      FoundIsOwn(name, u, s, e);
      if NewStatus(s.onProcess[found.value], e.jobId, e.newStatus) == map[] {
        PromoteKeepsInv(name, u, s, found.value, s.now + 1);
      } else {
        SetStatusKeepsInv(name, u, s, found.value, NewStatus(s.onProcess[found.value], e.jobId, e.newStatus));
      }
    }
  }

  lemma StepKeepsInv<I(!new)>(name: Naming<I>, u: Scope<I>, s: State<I>, e: Event<I>)
    requires Separates(name, u) && Inv(name, u, s) && InScope(u, e)
    ensures Inv(name, u, Apply(name, s, e))
  {
    match e
    case Register(m, key, ids) => RegisterKeepsInv(name, u, s, m, key, ids);
    case Stop(_, _, _, _, _) => StopKeepsInv(name, u, s, e);
    case Update(_, _, _, _, _) => UpdateKeepsInv(name, u, s, e);
  }

  lemma {:induction false} RunKeepsInv<I(!new)>(name: Naming<I>, u: Scope<I>, run: seq<Event<I>>)
    requires Separates(name, u) && Legal(name, u, run)
    ensures Inv(name, u, After(name, run))
  {
    if run != [] {
      var front := run[..|run| - 1];
      forall i | 0 <= i < |front| ensures InScope(u, front[i]) && ScanIsHonest(After(name, front[..i]), front[i]) {
        assert front[..i] == run[..i];
      }
      RunKeepsInv(name, u, front);
      StepKeepsInv(name, u, After(name, front), run[|run| - 1]);
    }
  }

  /** The run that breaks it: the same batch registered twice by one mandate, then a batch of another
      mandate whose document id is the same. */
  lemma CollisionBreaksOneRuns<I(!new)>(name: Naming<I>, u: Scope<I>, m: I, k: I, m': I, k': I)
    requires m in u.mandates && m' in u.mandates && k in u.keys && k' in u.keys && name(m, k) == name(m', k') && m != m'
    ensures var run := [Register(m, k, {}), Register(m, k, {}), Register(m', k', {})];
            Legal(name, u, run) && !OneRuns(After(name, run))
  {
    var e1, e3 := Register(m, k, {}), Register(m', k', {});
    var run := [e1, e1, e3];
    var d := name(m, k);
    assert run[..0] == [] && run[..1] == [e1] && run[..2] == [e1, e1] && run[..2][..1] == [e1] && run[..1][..0] == [];
    var s1, s2, s3 := Apply(name, Empty(), e1), After(name, [e1, e1]), After(name, run);
    assert After(name, [e1]) == s1;
    assert s1.onProcess == map[d := NewDoc(m, k, {}, 0, true)];
    assert Of(s1.onProcess, d, m);
    assert s2 == Apply(name, s1, e1);
    assert s2.onProcess == s1.onProcess && s2.pending == map[d := NewDoc(m, k, {}, 1, false)];
    assert !Any(s2.onProcess, m');
    assert s3.onProcess == map[d := NewDoc(m', k', {}, 2, true)] && s3.pending == s2.pending;
    assert !Any(s3.onProcess, m);
  }

  /** Single runner and no stranded batch, over all runs of all interleavings of atomic calls, hold
      exactly when document ids keep the mandates apart. */
  lemma OneRunsExactly<I(!new)>(name: Naming<I>, u: Scope<I>)
    ensures (forall run :: Legal(name, u, run) ==> OneRuns(After(name, run))) <==> Separates(name, u)
  {
    if Separates(name, u) {
      forall run | Legal(name, u, run) ensures OneRuns(After(name, run)) {
        RunKeepsInv(name, u, run);
      }
    } else {
      var m, k, m', k' :| m in u.mandates && m' in u.mandates && k in u.keys && k' in u.keys && name(m, k) == name(m', k') && m != m';
      CollisionBreaksOneRuns(name, u, m, k, m', k');
    }
  }
}

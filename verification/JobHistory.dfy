/** What a run of the queue looks like from one mandate: which batches were registered, in which order
    they entered `on_process`, and how the others left. A batch is known by its registration time. */
module JobHistory {
  import opened Wrappers
  import opened JobQueue
  import opened QueueLog

  /** The registration times of a mandate's documents. */
  ghost function Times<I(!new)>(c: Collection<I>, m: I): set<nat> { set d | d in c && c[d].mandate == m :: c[d].createdAt }

  ghost function ViewOf<I(!new)>(s: State<I>, m: I): View { View(Times(s.pending, m), Times(s.onProcess, m), s.now) }

  ghost function KindOf<I(!new)>(e: Event<I>, m: I): Kind {
    if e.Stop? then Stopped else if e.mandate != m then Elsewhere else if e.Register? then Registered else Updated
  }

  /** The log of a run, kept by looking at the collections before and after every step. */
  ghost function History<I(!new)>(name: Naming<I>, run: seq<Event<I>>, m: I): Log {
    if run == [] then NoLog
    else
      var front, e := run[..|run| - 1], run[|run| - 1];
      Observe(History(name, front, m), ViewOf(After(name, front), m), KindOf(e, m), ViewOf(After(name, run), m))
  }

  // ----- A step as one mandate sees it

  lemma TimesOfMore<I(!new)>(c: Collection<I>, d: I, doc: Doc<I>, m: I)
    requires d !in c || c[d].mandate == doc.mandate
    ensures doc.mandate != m ==> Times(c[d := doc], m) == Times(c, m)
    ensures doc.mandate == m ==> Times(c[d := doc], m) <= Times(c, m) + {doc.createdAt} && doc.createdAt in Times(c[d := doc], m)
    ensures d in c && c[d].createdAt == doc.createdAt ==> Times(c[d := doc], m) == Times(c, m)
    ensures d !in c && doc.mandate == m ==> Times(c[d := doc], m) == Times(c, m) + {doc.createdAt}
  {
    var c' := c[d := doc];
    forall t ensures t in Times(c', m) <==> (t == doc.createdAt && doc.mandate == m) || exists x :: x in c && x != d && c[x].mandate == m && c[x].createdAt == t {
      if t in Times(c', m) {
        var x :| x in c' && c'[x].mandate == m && c'[x].createdAt == t;
        assert x != d ==> x in c && c[x] == c'[x];
      }
      if x :| x in c && x != d && c[x].mandate == m && c[x].createdAt == t {
        assert x in c' && c'[x] == c[x];
      }
      assert d in c' && c'[d] == doc;
    }
  }

  lemma TimesOfLess<I(!new)>(c: Collection<I>, d: I, m: I)
    requires d in c
    ensures c[d].mandate != m ==> Times(c - {d}, m) == Times(c, m)
    ensures c[d].mandate == m && (forall x :: x in c && c[x].createdAt == c[d].createdAt ==> x == d) ==>
              Times(c - {d}, m) == Times(c, m) - {c[d].createdAt}
    ensures Times(c - {d}, m) <= Times(c, m)
  {
    var c' := c - {d};
    forall t ensures t in Times(c', m) <==> exists x :: x in c && x != d && c[x].mandate == m && c[x].createdAt == t {
      if x :| x in c && x != d && c[x].mandate == m && c[x].createdAt == t {
        assert x in c' && c'[x] == c[x];
      }
    }
    forall t | t in Times(c, m) && t !in Times(c', m) ensures c[d].mandate == m && t == c[d].createdAt {
      var x :| x in c && c[x].mandate == m && c[x].createdAt == t;
    }
  }

  lemma RunningIff<I(!new)>(c: Collection<I>, m: I)
    ensures Times(c, m) != {} <==> Any(c, m)
  {
    if Any(c, m) {
      var d :| d in c && Of(c, d, m);
      assert c[d].createdAt in Times(c, m);
    }
    if t :| t in Times(c, m) {
      var d :| d in c && c[d].mandate == m && c[d].createdAt == t;
      assert Of(c, d, m);
    }
  }

  lemma NoneWaits<I(!new)>(s: State<I>, m: I)
    requires OneRuns(s) && !Any(s.onProcess, m)
    ensures Times(s.pending, m) == {}
  {
    RunningIff(s.pending, m);
  }

  lemma RegisterMoves<I(!new)>(name: Naming<I>, u: Scope<I>, s: State<I>, e: Event<I>, m: I)
    requires Separates(name, u) && Inv(name, u, s) && InScope(u, e) && e.Register?
    ensures Moves(ViewOf(s, m), KindOf(e, m), ViewOf(Apply(name, s, e), m))
  {
    var d, s' := name(e.mandate, e.key), Apply(name, s, e);
    RunningIff(s.onProcess, e.mandate);
    if Any(s.onProcess, e.mandate) {
      assert d in s.pending ==> s.pending[d].mandate == e.mandate;
      TimesOfMore(s.pending, d, NewDoc(e.mandate, e.key, e.ids, s.now, false), m);
    } else {
      NoneWaits(s, e.mandate);
      assert d !in s.onProcess by {
        if d in s.onProcess {
          assert Of(s.onProcess, d, e.mandate);
        }
      }
      TimesOfMore(s.onProcess, d, NewDoc(e.mandate, e.key, e.ids, s.now, true), m);
    }
  }

  lemma StopRunningMoves<I(!new)>(s: State<I>, d: I, jobIds: seq<I>, txIds: seq<I>, m: I)
    requires d in s.onProcess
    ensures Times(StopRunning(s, d, jobIds, txIds).onProcess, m) == Times(s.onProcess, m)
    ensures Times(StopRunning(s, d, jobIds, txIds).pending, m) == Times(s.pending, m)
  {
    TimesOfMore(s.onProcess, d, Stopping(s.onProcess[d], jobIds, txIds), m);
  }

  lemma StopPendingMoves<I(!new)>(s: State<I>, d: I, jobIds: seq<I>, m: I)
    requires d in s.pending
    ensures Times(StopPending(s, d, jobIds).onProcess, m) == Times(s.onProcess, m)
    ensures Times(StopPending(s, d, jobIds).pending, m) <= Times(s.pending, m)
  {
    TimesOfLess(s.pending, d, m);
    TimesOfMore(s.pending, d, s.pending[d].(status := Remaining(s.pending[d], jobIds)), m);
  }

  lemma StopMoves<I(!new)>(name: Naming<I>, s: State<I>, e: Event<I>, m: I)
    requires e.Stop?
    ensures Moves(ViewOf(s, m), KindOf(e, m), ViewOf(Apply(name, s, e), m))
  {
    var d, ids := name(e.mandate, e.key), if e.jobIds != [] then e.jobIds else [e.key];
    if d in s.onProcess {
      StopRunningMoves(s, d, e.jobIds, e.txIds, m);
    } else if d in s.pending {
      StopPendingMoves(s, d, e.jobIds, m);
    } else if Holds(s.onProcess, e.scan, e.mandate, e.key) {
      StopRunningMoves(s, e.scan, ids, e.txIds, m);
    } else if Holds(s.pending, e.scan, e.mandate, e.key) {
      StopPendingMoves(s, e.scan, ids, m);
    }
  }

  /** With the runner gone, the oldest waiting batch of the mandate becomes the runner. */
  lemma PromoteMoves<I(!new)>(name: Naming<I>, u: Scope<I>, s: State<I>, m: I)
    requires Separates(name, u) && Named(name, u, s.pending) && Named(name, u, s.onProcess) && Dated(s)
    requires !Any(s.onProcess, m)
    ensures forall n :: n != m ==> Times(Promote(name, s, m).pending, n) == Times(s.pending, n) && Times(Promote(name, s, m).onProcess, n) == Times(s.onProcess, n)
    ensures Times(s.pending, m) == {} ==> Promote(name, s, m) == s
    ensures Times(s.pending, m) != {} ==>
              exists t :: IsLeast(t, Times(s.pending, m)) && Times(Promote(name, s, m).pending, m) == Times(s.pending, m) - {t} && Times(Promote(name, s, m).onProcess, m) == {t}
  {
    RunningIff(s.pending, m);
    RunningIff(s.onProcess, m);
    if Any(s.pending, m) {
      var o := Oldest(s.pending, m);
      var doc := s.pending[o];
      assert name(m, doc.key) !in s.onProcess by {
        if name(m, doc.key) in s.onProcess {
          assert Of(s.onProcess, name(m, doc.key), m);
        }
      }
      forall n ensures n != m ==> Times(Promote(name, s, m).pending, n) == Times(s.pending, n) && Times(Promote(name, s, m).onProcess, n) == Times(s.onProcess, n) {
        TimesOfLess(s.pending, o, n);
        TimesOfMore(s.onProcess, name(m, doc.key), doc.(startedAt := Some(s.now)), n);
      }
      TimesOfLess(s.pending, o, m);
      TimesOfMore(s.onProcess, name(m, doc.key), doc.(startedAt := Some(s.now)), m);
      assert IsLeast(doc.createdAt, Times(s.pending, m)) by {
        forall t | t in Times(s.pending, m) ensures doc.createdAt <= t {
          var x :| x in s.pending && s.pending[x].mandate == m && s.pending[x].createdAt == t;
          assert Of(s.pending, x, m);
        }
      }
    }
  }

  /** A finished batch makes way for the oldest waiting one of its mandate. */
  lemma FinishMovesOwn<I(!new)>(name: Naming<I>, u: Scope<I>, s: State<I>, d: I)
    requires Separates(name, u) && Inv(name, u, s) && d in s.onProcess
    ensures var m := s.onProcess[d].mandate;
            Moves(ViewOf(s, m), Updated, ViewOf(Promote(name, s.(onProcess := s.onProcess - {d}, now := s.now + 1), m), m))
  {
    var m := s.onProcess[d].mandate;
    var mid := s.(onProcess := s.onProcess - {d}, now := s.now + 1);
    assert Of(s.onProcess, d, m);
    RunningIff(s.onProcess, m);
    assert !Any(mid.onProcess, m);
    RunningIff(mid.onProcess, m);
    PromoteMoves(name, u, mid, m);
  }

  /** Other mandates see nothing of it. */
  lemma FinishMovesOther<I(!new)>(name: Naming<I>, u: Scope<I>, s: State<I>, d: I, n: I)
    requires Separates(name, u) && Inv(name, u, s) && d in s.onProcess && n != s.onProcess[d].mandate
    ensures var m := s.onProcess[d].mandate;
            Moves(ViewOf(s, n), Elsewhere, ViewOf(Promote(name, s.(onProcess := s.onProcess - {d}, now := s.now + 1), m), n))
  {
    var m := s.onProcess[d].mandate;
    var mid := s.(onProcess := s.onProcess - {d}, now := s.now + 1);
    assert !Any(mid.onProcess, m);
    TimesOfLess(s.onProcess, d, n);
    PromoteMoves(name, u, mid, m);
  }

  lemma UpdateMoves<I(!new)>(name: Naming<I>, u: Scope<I>, s: State<I>, e: Event<I>, m: I)
    requires Separates(name, u) && Inv(name, u, s) && InScope(u, e) && e.Update?
    ensures Moves(ViewOf(s, m), KindOf(e, m), ViewOf(Apply(name, s, e), m))
  {
    var found := Found(name, s, e);
    if found.Some? {
      var d := found.value;
      FoundIsOwn(name, u, s, e);
      var status := NewStatus(s.onProcess[d], e.jobId, e.newStatus);
      if status == map[] {
        if m == e.mandate { FinishMovesOwn(name, u, s, d); } else { FinishMovesOther(name, u, s, d, m); }
      } else {
        SetStatusMoves(s, d, status, m);
      }
    }
  }

  lemma SetStatusMoves<I(!new)>(s: State<I>, d: I, status: map<I, string>, m: I)
    requires d in s.onProcess
    ensures ViewOf(SetStatus(s, d, status), m) == ViewOf(s, m).(now := s.now + 1)
  {
    TimesOfMore(s.onProcess, d, s.onProcess[d].(status := status), m);
  }

  lemma StepMoves<I(!new)>(name: Naming<I>, u: Scope<I>, s: State<I>, e: Event<I>, m: I)
    requires Separates(name, u) && Inv(name, u, s) && InScope(u, e)
    ensures Moves(ViewOf(s, m), KindOf(e, m), ViewOf(Apply(name, s, e), m))
  {
    match e
    case Register(_, _, _) => RegisterMoves(name, u, s, e, m);
    case Stop(_, _, _, _, _) => StopMoves(name, s, e, m);
    case Update(_, _, _, _, _) => UpdateMoves(name, u, s, e, m);
  }

  lemma LegalFront<I(!new)>(name: Naming<I>, u: Scope<I>, run: seq<Event<I>>)
    requires run != [] && Legal(name, u, run)
    ensures Legal(name, u, run[..|run| - 1]) && InScope(u, run[|run| - 1])
  {
    var front := run[..|run| - 1];
    forall i | 0 <= i < |front| ensures InScope(u, front[i]) && ScanIsHonest(After(name, front[..i]), front[i]) {
      assert front[..i] == run[..i];
    }
  }

  lemma {:induction false} RunKeepsLog<I(!new)>(name: Naming<I>, u: Scope<I>, run: seq<Event<I>>, m: I)
    requires Separates(name, u) && Legal(name, u, run)
    ensures LogInv(ViewOf(After(name, run), m), History(name, run, m))
  {
    if run != [] {
      var front, e := run[..|run| - 1], run[|run| - 1];
      LegalFront(name, u, run);
      RunKeepsLog(name, u, front, m);
      RunKeepsInv(name, u, front);
      StepMoves(name, u, After(name, front), e, m);
      ObserveKeepsLog(ViewOf(After(name, front), m), KindOf(e, m), ViewOf(After(name, run), m), History(name, front, m));
    }
  }

  /** Conservation, for every mandate and every run. */
  lemma BatchesAreConserved<I(!new)>(name: Naming<I>, u: Scope<I>, run: seq<Event<I>>, m: I)
    requires Separates(name, u) && Legal(name, u, run)
    ensures Conserved(ViewOf(After(name, run), m), History(name, run, m))
  {
    RunKeepsLog(name, u, run, m);
  }

  /** FIFO over whole runs. */
  lemma FirstComeFirstServed<I(!new)>(name: Naming<I>, u: Scope<I>, run: seq<Event<I>>, m: I, queue: seq<nat>)
    requires Separates(name, u) && Legal(name, u, run)
    requires IsQueueOf(queue, Times(After(name, run).pending, m))
    ensures var log := History(name, run, m);
            Without(log.registered, log.stopped + log.replaced) == log.started + queue
  {
    RunKeepsLog(name, u, run, m);
    LogIsFifo(ViewOf(After(name, run), m), History(name, run, m), queue);
  }

  /** Registering only under keys that are not waiting replaces nothing. */
  ghost predicate FreshKeys<I(!new)>(name: Naming<I>, run: seq<Event<I>>) {
    forall i :: 0 <= i < |run| && run[i].Register? ==> name(run[i].mandate, run[i].key) !in After(name, run[..i]).pending
  }

  lemma {:induction false} FreshKeysReplaceNothing<I(!new)>(name: Naming<I>, u: Scope<I>, run: seq<Event<I>>, m: I)
    requires Separates(name, u) && Legal(name, u, run) && FreshKeys(name, run)
    ensures History(name, run, m).replaced == {}
  {
    if run != [] {
      var front, e := run[..|run| - 1], run[|run| - 1];
      LegalFront(name, u, run);
      forall i | 0 <= i < |front| && front[i].Register? ensures name(front[i].mandate, front[i].key) !in After(name, front[..i]).pending {
        assert front[..i] == run[..i];
      }
      FreshKeysReplaceNothing(name, u, front, m);
      RunKeepsInv(name, u, front);
      var s := After(name, front);
      StepMoves(name, u, s, e, m);
      if e.Register? && Any(s.onProcess, e.mandate) {
        TimesOfMore(s.pending, name(e.mandate, e.key), NewDoc(e.mandate, e.key, e.ids, s.now, false), m);
      }
    }
  }

  // ----- Exactly when nothing is replaced

  /** What was replaced stays on record. */
  lemma {:induction false} ReplacedStays<I(!new)>(name: Naming<I>, run: seq<Event<I>>, i: nat, m: I)
    requires i <= |run|
    ensures History(name, run[..i], m).replaced <= History(name, run, m).replaced
    decreases |run|
  {
    if i == |run| {
      assert run[..i] == run;
    } else {
      var front := run[..|run| - 1];
      ReplacedStays(name, front, i, m);
      assert front[..i] == run[..i];
    }
  }

  /** A registration under a waiting key takes the waiting batch out. */
  lemma WaitingKeyIsReplaced<I(!new)>(name: Naming<I>, u: Scope<I>, front: seq<Event<I>>, e: Event<I>)
    requires Separates(name, u) && Legal(name, u, front) && InScope(u, e) && e.Register?
    requires name(e.mandate, e.key) in After(name, front).pending
    ensures After(name, front).pending[name(e.mandate, e.key)].createdAt in History(name, front + [e], e.mandate).replaced
  {
    var s, run := After(name, front), front + [e];
    var d := name(e.mandate, e.key);
    RunKeepsInv(name, u, front);
    assert run[..|run| - 1] == front && After(name, run) == Apply(name, s, e);
    var t := s.pending[d].createdAt;
    assert s.pending[d].mandate == e.mandate;
    assert Any(s.onProcess, e.mandate);
    assert t in Times(s.pending, e.mandate);
    var after := Apply(name, s, e);
    assert forall x :: x in after.pending && after.pending[x].createdAt == t ==> x == d;
    assert t !in Times(after.pending, e.mandate);
    RunKeepsLog(name, u, front, e.mandate);
    assert t !in Times(after.onProcess, e.mandate);
  }

  ghost predicate NoneReplacedFor<I(!new)>(name: Naming<I>, run: seq<Event<I>>, m: I) {
    History(name, run, m).replaced == {}
  }

  ghost predicate NoneReplaced<I(!new)>(name: Naming<I>, run: seq<Event<I>>) {
    forall m :: NoneReplacedFor(name, run, m)
  }

  lemma StaleKeyReplaces<I(!new)>(name: Naming<I>, u: Scope<I>, run: seq<Event<I>>, i: nat)
    requires Separates(name, u) && Legal(name, u, run) && i < |run| && run[i].Register?
    requires name(run[i].mandate, run[i].key) in After(name, run[..i]).pending
    ensures !NoneReplacedFor(name, run, run[i].mandate)
  {
    LegalPrefix(name, u, run, i);
    WaitingKeyIsReplaced(name, u, run[..i], run[i]);
    assert run[..i + 1] == run[..i] + [run[i]];
    ReplacedStays(name, run, i + 1, run[i].mandate);
  }

  /** Over a run nothing is replaced, for any mandate, exactly when no registration uses a key that waits. */
  lemma NothingReplacedExactly<I(!new)>(name: Naming<I>, u: Scope<I>, run: seq<Event<I>>)
    requires Separates(name, u) && Legal(name, u, run)
    ensures NoneReplaced(name, run) <==> FreshKeys(name, run)
  {
    if FreshKeys(name, run) {
      forall m ensures NoneReplacedFor(name, run, m) {
        FreshKeysReplaceNothing(name, u, run, m);
      }
    } else {
      var i :| 0 <= i < |run| && run[i].Register? && name(run[i].mandate, run[i].key) in After(name, run[..i]).pending;
      StaleKeyReplaces(name, u, run, i);
    }
  }

  lemma LegalPrefix<I(!new)>(name: Naming<I>, u: Scope<I>, run: seq<Event<I>>, i: nat)
    requires Legal(name, u, run) && i < |run|
    ensures Legal(name, u, run[..i]) && InScope(u, run[i])
  {
    forall j | 0 <= j < i ensures InScope(u, run[..i][j]) && ScanIsHonest(After(name, run[..i][..j]), run[..i][j]) {
      assert run[..i][..j] == run[..j];
    }
  }

  /** FIFO and conservation with nothing but stopped batches taken out, for every mandate. */
  ghost predicate PlainLaws<I(!new)>(name: Naming<I>, run: seq<Event<I>>) {
    forall m :: PlainFor(name, run, m)
  }

  ghost predicate PlainFor<I(!new)>(name: Naming<I>, run: seq<Event<I>>, m: I) {
    var v, log := ViewOf(After(name, run), m), History(name, run, m);
    ConservedPlainly(v, log) && forall queue :: IsQueueOf(queue, v.waiting) ==> FifoPlainly(log, queue)
  }

  lemma PlainForExactly<I(!new)>(name: Naming<I>, u: Scope<I>, run: seq<Event<I>>, m: I)
    requires Separates(name, u) && Legal(name, u, run)
    ensures PlainFor(name, run, m) <==> NoneReplacedFor(name, run, m)
  {
    RunKeepsLog(name, u, run, m);
    PlainExactly(ViewOf(After(name, run), m), History(name, run, m));
  }

  /** The two laws hold in this plain form exactly when no registration uses a key that waits. */
  lemma PlainLawsExactly<I(!new)>(name: Naming<I>, u: Scope<I>, run: seq<Event<I>>)
    requires Separates(name, u) && Legal(name, u, run)
    ensures PlainLaws(name, run) <==> FreshKeys(name, run)
  {
    forall m ensures PlainFor(name, run, m) <==> NoneReplacedFor(name, run, m) {
      PlainForExactly(name, u, run, m);
    }
    NothingReplacedExactly(name, u, run);
  }

  /** A run on which they fail: a waiting batch is registered again. */
  lemma SecondRegistrationReplaces<I(!new)>(name: Naming<I>, u: Scope<I>, m: I, k1: I, k2: I)
    requires Separates(name, u) && m in u.mandates && k1 in u.keys && k2 in u.keys
    ensures var run := [Register(m, k1, {}), Register(m, k2, {}), Register(m, k2, {})];
            Legal(name, u, run) && !FreshKeys(name, run) && !PlainLaws(name, run)
  {
    var e1, e2 := Register(m, k1, {}), Register(m, k2, {});
    var run := [e1, e2, e2];
    assert run[..0] == [] && run[..1] == [e1] && run[..2] == [e1, e2] && [e1][..0] == [] && [e1, e2][..1] == [e1];
    var s1 := After(name, [e1]);
    assert After(name, []) == Empty<I>();
    assert s1 == Apply(name, Empty(), e1);
    assert Of(s1.onProcess, name(m, k1), m);
    assert Any(s1.onProcess, m);
    var s2 := After(name, [e1, e2]);
    assert s2 == Apply(name, s1, e2);
    assert name(m, k2) in s2.pending;
    assert Legal(name, u, run);
    assert run[2].Register? && name(run[2].mandate, run[2].key) in After(name, run[..2]).pending;
    PlainLawsExactly(name, u, run);
  }
}

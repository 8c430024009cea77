/** Calls on one mandate and the batches of the others. */
module JobIsolation {
  import opened Wrappers
  import opened JobQueue

  /** The documents of mandate `n` are the same. */
  ghost predicate SameFor<I(!new)>(c: Collection<I>, c': Collection<I>, n: I) {
    forall d :: Of(c, d, n) || Of(c', d, n) ==> d in c && d in c' && c[d] == c'[d]
  }

  /** Nothing changes for the mandates other than `m`. */
  ghost predicate LeavesOthers<I(!new)>(s: State<I>, t: State<I>, m: I) {
    forall n :: n != m ==> SameFor(s.pending, t.pending, n) && SameFor(s.onProcess, t.onProcess, n)
  }

  lemma PutSame<I(!new)>(c: Collection<I>, d: I, doc: Doc<I>, n: I)
    requires doc.mandate != n && (d in c ==> c[d].mandate != n)
    ensures SameFor(c, c[d := doc], n)
  {
  }

  lemma DropSame<I(!new)>(c: Collection<I>, d: I, n: I)
    requires d in c ==> c[d].mandate != n
    ensures SameFor(c, c - {d}, n)
  {
  }

  lemma RegisterLeavesOthers<I(!new)>(name: Naming<I>, u: Scope<I>, s: State<I>, e: Event<I>)
    requires Separates(name, u) && Inv(name, u, s) && InScope(u, e) && e.Register?
    ensures LeavesOthers(s, Apply(name, s, e), e.mandate)
  {
  }

  lemma PromoteLeavesOthers<I(!new)>(name: Naming<I>, u: Scope<I>, s: State<I>, m: I)
    requires Separates(name, u) && Named(name, u, s.pending) && Named(name, u, s.onProcess) && m in u.mandates
    ensures LeavesOthers(s, Promote(name, s, m), m)
  {
    if Any(s.pending, m) {
      assert IsOldest(s.pending, m, Oldest(s.pending, m));
    }
  }

  lemma LeavesThrough<I(!new)>(s: State<I>, mid: State<I>, t: State<I>, m: I)
    requires LeavesOthers(s, mid, m) && LeavesOthers(mid, t, m)
    ensures LeavesOthers(s, t, m)
  {
    forall n | n != m ensures SameFor(s.pending, t.pending, n) && SameFor(s.onProcess, t.onProcess, n) {
      assert SameFor(s.pending, mid.pending, n) && SameFor(mid.pending, t.pending, n);
      assert SameFor(s.onProcess, mid.onProcess, n) && SameFor(mid.onProcess, t.onProcess, n);
    }
  }

  /** A running document that is changed or dropped. */
  lemma RunningLeavesOthers<I(!new)>(s: State<I>, d: I, doc: Doc<I>, now: nat)
    requires d in s.onProcess && doc.mandate == s.onProcess[d].mandate
    ensures LeavesOthers(s, s.(onProcess := s.onProcess[d := doc], now := now), doc.mandate)
    ensures LeavesOthers(s, s.(onProcess := s.onProcess - {d}, now := now), doc.mandate)
  {
    forall n | n != doc.mandate ensures SameFor(s.onProcess, s.onProcess[d := doc], n) && SameFor(s.onProcess, s.onProcess - {d}, n) {
      PutSame(s.onProcess, d, doc, n);
      DropSame(s.onProcess, d, n);
    }
  }

  /** A waiting document that is changed or dropped. */
  lemma WaitingLeavesOthers<I(!new)>(s: State<I>, d: I, doc: Doc<I>, now: nat)
    requires d in s.pending && doc.mandate == s.pending[d].mandate
    ensures LeavesOthers(s, s.(pending := s.pending[d := doc], now := now), doc.mandate)
    ensures LeavesOthers(s, s.(pending := s.pending - {d}, now := now), doc.mandate)
  {
    forall n | n != doc.mandate ensures SameFor(s.pending, s.pending[d := doc], n) && SameFor(s.pending, s.pending - {d}, n) {
      PutSame(s.pending, d, doc, n);
      DropSame(s.pending, d, n);
    }
  }

  lemma FinishLeavesOthers<I(!new)>(name: Naming<I>, u: Scope<I>, s: State<I>, d: I)
    requires Separates(name, u) && Inv(name, u, s) && d in s.onProcess
    ensures LeavesOthers(s, Promote(name, s.(onProcess := s.onProcess - {d}, now := s.now + 1), s.onProcess[d].mandate), s.onProcess[d].mandate)
  {
    var mid := s.(onProcess := s.onProcess - {d}, now := s.now + 1);
    var m := s.onProcess[d].mandate;
    RunningLeavesOthers(s, d, s.onProcess[d], s.now + 1);
    PromoteLeavesOthers(name, u, mid, m);
    LeavesThrough(s, mid, Promote(name, mid, m), m);
  }

  lemma UpdateLeavesOthers<I(!new)>(name: Naming<I>, u: Scope<I>, s: State<I>, e: Event<I>)
    requires Separates(name, u) && Inv(name, u, s) && InScope(u, e) && e.Update?
    ensures LeavesOthers(s, Apply(name, s, e), e.mandate)
  {
    var found := Found(name, s, e);
    if found.Some? {
      FoundIsOwn(name, u, s, e);
      var d := found.value;
      var status := NewStatus(s.onProcess[d], e.jobId, e.newStatus);
      if status == map[] {
        FinishLeavesOthers(name, u, s, d);
      } else {
        RunningLeavesOthers(s, d, s.onProcess[d].(status := status), s.now + 1);
      }
    }
  }

  // ----- Stops are looked up by document id first

  /** The stop goes, by its key alone, to a document of another mandate. */
  predicate HitsForeign<I(==)>(name: Naming<I>, s: State<I>, e: Event<I>)
    requires e.Stop?
  {
    var d := name(e.mandate, e.key);
    if d in s.onProcess then s.onProcess[d].mandate != e.mandate else d in s.pending && s.pending[d].mandate != e.mandate
  }

  /** The stop would leave the document it goes to by its key as it is. */
  ghost predicate NoEffect<I(!new)>(name: Naming<I>, s: State<I>, e: Event<I>)
    requires e.Stop?
  {
    var d := name(e.mandate, e.key);
    if d in s.onProcess then Stopping(s.onProcess[d], e.jobIds, e.txIds) == s.onProcess[d]
    else d in s.pending && Remaining(s.pending[d], e.jobIds) == s.pending[d].status && s.pending[d].status != map[]
  }

  lemma StopRunningLeaves<I(!new)>(s: State<I>, d: I, jobIds: seq<I>, txIds: seq<I>)
    requires d in s.onProcess
    ensures LeavesOthers(s, StopRunning(s, d, jobIds, txIds), s.onProcess[d].mandate)
  {
    RunningLeavesOthers(s, d, Stopping(s.onProcess[d], jobIds, txIds), s.now + 1);
  }

  lemma StopPendingLeaves<I(!new)>(s: State<I>, d: I, jobIds: seq<I>)
    requires d in s.pending
    ensures LeavesOthers(s, StopPending(s, d, jobIds), s.pending[d].mandate)
  {
    WaitingLeavesOthers(s, d, s.pending[d].(status := Remaining(s.pending[d], jobIds)), s.now + 1);
  }

  lemma OwnStopLeavesOthers<I(!new)>(name: Naming<I>, s: State<I>, e: Event<I>)
    requires e.Stop? && !HitsForeign(name, s, e)
    ensures LeavesOthers(s, Apply(name, s, e), e.mandate)
  {
    var d := name(e.mandate, e.key);
    var ids := if e.jobIds != [] then e.jobIds else [e.key];
    if d in s.onProcess {
      StopRunningLeaves(s, d, e.jobIds, e.txIds);
    } else if d in s.pending {
      StopPendingLeaves(s, d, e.jobIds);
    } else if Holds(s.onProcess, e.scan, e.mandate, e.key) {
      StopRunningLeaves(s, e.scan, ids, e.txIds);
    } else if Holds(s.pending, e.scan, e.mandate, e.key) {
      StopPendingLeaves(s, e.scan, ids);
    }
  }

  /** The mandate whose document is touched sees no change exactly when the document stays. */
  lemma RunningStays<I(!new)>(s: State<I>, d: I, jobIds: seq<I>, txIds: seq<I>)
    requires d in s.onProcess
    ensures SameFor(s.onProcess, StopRunning(s, d, jobIds, txIds).onProcess, s.onProcess[d].mandate)
       <==> Stopping(s.onProcess[d], jobIds, txIds) == s.onProcess[d]
  {
    assert Of(s.onProcess, d, s.onProcess[d].mandate);
  }

  lemma WaitingStays<I(!new)>(s: State<I>, d: I, jobIds: seq<I>)
    requires d in s.pending
    ensures SameFor(s.pending, StopPending(s, d, jobIds).pending, s.pending[d].mandate)
       <==> Remaining(s.pending[d], jobIds) == s.pending[d].status && s.pending[d].status != map[]
  {
    assert Of(s.pending, d, s.pending[d].mandate);
    var left, doc := Remaining(s.pending[d], jobIds), s.pending[d];
    if left != map[] {
      assert doc.(status := left) == doc <==> left == doc.status;
    }
  }

  lemma ForeignStopExactly<I(!new)>(name: Naming<I>, s: State<I>, e: Event<I>)
    requires e.Stop? && HitsForeign(name, s, e)
    ensures LeavesOthers(s, Apply(name, s, e), e.mandate) <==> NoEffect(name, s, e)
  {
    var d := name(e.mandate, e.key);
    var t := Apply(name, s, e);
    if d in s.onProcess {
      var n := s.onProcess[d].mandate;
      RunningStays(s, d, e.jobIds, e.txIds);
      StopRunningLeaves(s, d, e.jobIds, e.txIds);
      LeavesIff(s, t, e.mandate, n);
    } else {
      var n := s.pending[d].mandate;
      WaitingStays(s, d, e.jobIds);
      StopPendingLeaves(s, d, e.jobIds);
      LeavesIff(s, t, e.mandate, n);
    }
  }

  /** When only `n` can have changed, the others of `m` are left alone exactly when `n` is. */
  lemma LeavesIff<I(!new)>(s: State<I>, t: State<I>, m: I, n: I)
    requires n != m && LeavesOthers(s, t, n) && SameFor(s.pending, t.pending, m) && SameFor(s.onProcess, t.onProcess, m)
    ensures LeavesOthers(s, t, m) <==> SameFor(s.pending, t.pending, n) && SameFor(s.onProcess, t.onProcess, n)
  {
  }

  /** A stop leaves the other mandates alone exactly when its key does not name a document of theirs, or
      changes nothing there. */
  lemma StopLeavesOthersExactly<I(!new)>(name: Naming<I>, s: State<I>, e: Event<I>)
    requires e.Stop?
    ensures LeavesOthers(s, Apply(name, s, e), e.mandate) <==> !HitsForeign(name, s, e) || NoEffect(name, s, e)
  {
    if HitsForeign(name, s, e) {
      ForeignStopExactly(name, s, e);
    } else {
      OwnStopLeavesOthers(name, s, e);
    }
  }

  /** When the stop keys are in scope too, every call leaves the other mandates alone. */
  lemma CallsLeaveOthers<I(!new)>(name: Naming<I>, u: Scope<I>, s: State<I>, e: Event<I>)
    requires Separates(name, u) && Inv(name, u, s) && InScope(u, e) && (e.Stop? ==> e.key in u.keys)
    ensures LeavesOthers(s, Apply(name, s, e), e.mandate)
  {
    match e
    case Register(_, _, _) => RegisterLeavesOthers(name, u, s, e);
    case Update(_, _, _, _, _) => UpdateLeavesOthers(name, u, s, e);
    case Stop(_, _, _, _, _) => OwnStopLeavesOthers(name, s, e);
  }
}

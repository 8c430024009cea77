/** How fast a mandate's queue empties: the number of live job ids, waiting or running. */
module JobDrain {
  import opened Wrappers
  import opened JobQueue

  ghost function Weight<I>(doc: Doc<I>, m: I): nat { if doc.mandate == m then |doc.status| else 0 }

  ghost function Load<I(!new)>(c: Collection<I>, m: I): nat
    decreases |c|
  {
    if c == map[] then 0
    else
      var d :| d in c;
      Weight(c[d], m) + Load(c - {d}, m)
  }

  /** The choice of the document taken out first does not matter. */
  lemma {:induction false} LoadSplit<I(!new)>(c: Collection<I>, m: I, d: I)
    requires d in c
    ensures Load(c, m) == Weight(c[d], m) + Load(c - {d}, m)
    decreases |c|
  {
    var x :| x in c && Load(c, m) == Weight(c[x], m) + Load(c - {x}, m);
    if x != d {
      LoadSplit(c - {x}, m, d);
      LoadSplit(c - {d}, m, x);
      assert (c - {x}) - {d} == (c - {d}) - {x};
    }
  }

  lemma LoadAfterPut<I(!new)>(c: Collection<I>, m: I, d: I, doc: Doc<I>)
    ensures Load(c[d := doc], m) == Weight(doc, m) + Load(c - {d}, m)
  {
    LoadSplit(c[d := doc], m, d);
    assert c[d := doc] - {d} == c - {d};
  }

  /** The job ids of a mandate that are still in the queue. */
  ghost function Live<I(!new)>(s: State<I>, m: I): nat { Load(s.pending, m) + Load(s.onProcess, m) }

  ghost predicate NoneEmpty<I(!new)>(c: Collection<I>, m: I) { forall d :: d in c && c[d].mandate == m ==> c[d].status != map[] }

  /** Every batch of the mandate, waiting or running, has a job id. */
  ghost predicate AllHaveIds<I(!new)>(s: State<I>, m: I) { NoneEmpty(s.pending, m) && NoneEmpty(s.onProcess, m) }

  ghost predicate Idle<I(!new)>(s: State<I>, m: I) { !Any(s.pending, m) && !Any(s.onProcess, m) }

  /** A terminal status for a job id of the mandate's running batch. */
  ghost predicate Reports<I(!new)>(s: State<I>, e: Event<I>, m: I) {
    && e.Update? && e.mandate == m && e.newStatus in Terminal && ScanIsHonest(s, e)
    && exists d :: Holds(s.onProcess, d, m, e.jobId)
  }

  lemma {:induction false} LoadIsZero<I(!new)>(c: Collection<I>, m: I)
    requires NoneEmpty(c, m)
    ensures Load(c, m) == 0 <==> !Any(c, m)
    decreases |c|
  {
    if c != map[] {
      var x :| x in c;
      LoadSplit(c, m, x);
      LoadIsZero(c - {x}, m);
      if Any(c - {x}, m) {
        var d :| d in c - {x} && Of(c - {x}, d, m);
        assert Of(c, d, m);
      }
      if Any(c, m) {
        var d :| d in c && Of(c, d, m);
        if d == x {
          assert Weight(c[x], m) > 0 by {
            assert c[x].status != map[];
          }
        } else {
          assert Of(c - {x}, d, m);
        }
      }
    }
  }

  /** A mandate's queue is empty exactly when no id is left and no batch is without ids. */
  lemma LiveIsZero<I(!new)>(s: State<I>, m: I)
    ensures Idle(s, m) <==> Live(s, m) == 0 && AllHaveIds(s, m)
  {
    if AllHaveIds(s, m) {
      LoadIsZero(s.pending, m);
      LoadIsZero(s.onProcess, m);
    } else if d :| d in s.pending && s.pending[d].mandate == m && s.pending[d].status == map[] {
      assert Of(s.pending, d, m);
    } else {
      var d :| d in s.onProcess && s.onProcess[d].mandate == m && s.onProcess[d].status == map[];
      assert Of(s.onProcess, d, m);
    }
  }

  /** Promotion moves a batch and changes nothing about what is left and which batches have ids. */
  lemma PromoteKeepsLive<I(!new)>(name: Naming<I>, u: Scope<I>, s: State<I>, m: I)
    requires Separates(name, u) && Named(name, u, s.pending) && Named(name, u, s.onProcess) && m in u.mandates
    requires !Any(s.onProcess, m)
    ensures var s' := Promote(name, s, m); Live(s', m) == Live(s, m) && (AllHaveIds(s', m) <==> NoneEmpty(s.pending, m))
  {
    if Any(s.pending, m) {
      var d := Oldest(s.pending, m);
      var doc := s.pending[d].(startedAt := Some(s.now));
      assert Of(s.pending, d, m) && d == name(m, doc.key);
      FreeId(s.onProcess, d, m, name, u);
      PromotedLive(s.pending, s.onProcess, d, doc, m);
      PromotedHaveIds(s.pending, s.onProcess, d, doc, m);
    } else {
      NoneOf(s.pending, m);
      NoneOf(s.onProcess, m);
    }
  }

  /** With no runner of the mandate, no running document has an id of the mandate's. */
  lemma FreeId<I(!new)>(c: Collection<I>, d: I, m: I, name: Naming<I>, u: Scope<I>)
    requires Separates(name, u) && Named(name, u, c) && !Any(c, m) && m in u.mandates
    requires exists key :: key in u.keys && d == name(m, key)
    ensures d !in c
  {
    assert d in c ==> Of(c, d, m);
  }

  lemma PromotedLive<I(!new)>(pending: Collection<I>, onProcess: Collection<I>, d: I, doc: Doc<I>, m: I)
    requires d in pending && d !in onProcess && doc.mandate == pending[d].mandate && doc.status == pending[d].status
    ensures Load(pending - {d}, m) + Load(onProcess[d := doc], m) == Load(pending, m) + Load(onProcess, m)
  {
    LoadSplit(pending, m, d);
    LoadAfterPut(onProcess, m, d, doc);
    assert onProcess - {d} == onProcess;
  }

  lemma NoneOf<I(!new)>(c: Collection<I>, m: I)
    requires !Any(c, m)
    ensures NoneEmpty(c, m)
  {
    assert forall d :: d in c && c[d].mandate == m ==> Of(c, d, m);
  }

  lemma PromotedHaveIds<I(!new)>(pending: Collection<I>, onProcess: Collection<I>, d: I, doc: Doc<I>, m: I)
    requires d in pending && pending[d].mandate == m == doc.mandate && doc.status == pending[d].status && !Any(onProcess, m)
    ensures NoneEmpty(pending - {d}, m) && NoneEmpty(onProcess[d := doc], m) <==> NoneEmpty(pending, m)
  {
    NoneOf(onProcess, m);
    assert forall x :: x in pending ==> x == d || x in pending - {d};
    assert onProcess[d := doc][d] == doc;
  }

  /** A report reaches the batch that holds the id, and either finishes it or shrinks it. */
  lemma ReportFinds<I(!new)>(name: Naming<I>, u: Scope<I>, s: State<I>, e: Event<I>, m: I) returns (d: I)
    requires Separates(name, u) && Inv(name, u, s) && InScope(u, e) && Reports(s, e, m)
    ensures Holds(s.onProcess, d, m, e.jobId)
    ensures var left := s.onProcess[d].status - {e.jobId};
            Apply(name, s, e) == if left == map[] then Promote(name, s.(onProcess := s.onProcess - {d}, now := s.now + 1), m)
                                 else SetStatus(s, d, left)
  {
    var r :| Holds(s.onProcess, r, m, e.jobId);
    d := Found(name, s, e).value;
    FoundIsOwn(name, u, s, e);
    OnlyRunner(s, m, d, r);
  }

  lemma OneLess<I>(status: map<I, string>, j: I)
    requires j in status
    ensures |status - {j}| == |status| - 1
  {
    assert status.Keys == (status - {j}).Keys + {j};
  }

  /** The only running batch of the mandate, if it has ids, decides nothing about which batches have none. */
  lemma RunnerHasIds<I(!new)>(s: State<I>, d: I, m: I)
    requires OneRuns(s) && Of(s.onProcess, d, m) && s.onProcess[d].status != map[]
    ensures NoneEmpty(s.onProcess, m)
  {
    forall x | x in s.onProcess && s.onProcess[x].mandate == m ensures s.onProcess[x].status != map[] {
      OnlyRunner(s, m, d, x);
    }
  }

  lemma FinishTakesOne<I(!new)>(name: Naming<I>, u: Scope<I>, s: State<I>, d: I, m: I)
    requires Separates(name, u) && Inv(name, u, s) && m in u.mandates && Of(s.onProcess, d, m) && |s.onProcess[d].status| == 1
    ensures var s' := Promote(name, s.(onProcess := s.onProcess - {d}, now := s.now + 1), m);
            Live(s', m) == Live(s, m) - 1 && (AllHaveIds(s', m) <==> AllHaveIds(s, m))
  {
    var mid := s.(onProcess := s.onProcess - {d}, now := s.now + 1);
    LoadSplit(s.onProcess, m, d);
    assert !Any(mid.onProcess, m);
    RunnerHasIds(s, d, m);
    PromoteKeepsLive(name, u, mid, m);
  }

  lemma ShrinkTakesOne<I(!new)>(s: State<I>, d: I, j: I, m: I)
    requires OneRuns(s) && Holds(s.onProcess, d, m, j) && s.onProcess[d].status - {j} != map[]
    ensures var s' := SetStatus(s, d, s.onProcess[d].status - {j});
            Live(s', m) == Live(s, m) - 1 && (AllHaveIds(s', m) <==> AllHaveIds(s, m))
  {
    var doc := s.onProcess[d];
    OneLess(doc.status, j);
    LoadSplit(s.onProcess, m, d);
    LoadAfterPut(s.onProcess, m, d, doc.(status := doc.status - {j}));
    RunnerHasIds(s, d, m);
  }

  /** Each report takes exactly one live id out, and a batch without ids neither comes nor goes by it. */
  lemma ReportTakesOne<I(!new)>(name: Naming<I>, u: Scope<I>, s: State<I>, e: Event<I>, m: I)
    requires Separates(name, u) && Inv(name, u, s) && InScope(u, e) && Reports(s, e, m)
    ensures var s' := Apply(name, s, e);
            Live(s', m) == Live(s, m) - 1 && (AllHaveIds(s', m) <==> AllHaveIds(s, m))
  {
    var d := ReportFinds(name, u, s, e, m);
    OneLess(s.onProcess[d].status, e.jobId);
    if s.onProcess[d].status - {e.jobId} == map[] {
      FinishTakesOne(name, u, s, d, m);
    } else {
      ShrinkTakesOne(s, d, e.jobId, m);
    }
  }

  /** As long as something is left and every batch has ids, there is a running id to report. */
  lemma SomethingToReport<I(!new)>(name: Naming<I>, u: Scope<I>, s: State<I>, m: I) returns (e: Event<I>)
    requires Inv(name, u, s) && AllHaveIds(s, m) && Live(s, m) > 0 && m in u.mandates
    ensures InScope(u, e) && Reports(s, e, m)
  {
    LiveIsZero(s, m);
    assert Any(s.onProcess, m);
    var d :| d in s.onProcess && Of(s.onProcess, d, m);
    var j :| j in s.onProcess[d].status;
    e := Update(m, j, "completed", None, d);
    assert Holds(s.onProcess, d, m, j);
  }

  ghost function From<I(!new)>(name: Naming<I>, s: State<I>, run: seq<Event<I>>): State<I>
    decreases |run|
  {
    if run == [] then s else From(name, Apply(name, s, run[0]), run[1..])
  }

  /** A run of reports only, each of an id that is live at that point. */
  ghost predicate AllReport<I(!new)>(name: Naming<I>, u: Scope<I>, s: State<I>, run: seq<Event<I>>, m: I)
    decreases |run|
  {
    run == [] || (InScope(u, run[0]) && Reports(s, run[0], m) && AllReport(name, u, Apply(name, s, run[0]), run[1..], m))
  }

  /** No run of reports is longer than the number of live ids, and one empties the queue exactly when it is that
      long and every batch had ids to begin with. */
  lemma {:induction false} DrainsExactly<I(!new)>(name: Naming<I>, u: Scope<I>, s: State<I>, run: seq<Event<I>>, m: I)
    requires Separates(name, u) && Inv(name, u, s) && AllReport(name, u, s, run, m)
    ensures |run| <= Live(s, m)
    ensures Idle(From(name, s, run), m) <==> |run| == Live(s, m) && AllHaveIds(s, m)
    decreases |run|
  {
    if run == [] {
      LiveIsZero(s, m);
    } else {
      ReportTakesOne(name, u, s, run[0], m);
      StepKeepsInv(name, u, s, run[0]);
      DrainsExactly(name, u, Apply(name, s, run[0]), run[1..], m);
    }
  }

  lemma {:induction false} DrainExists<I(!new)>(name: Naming<I>, u: Scope<I>, s: State<I>, m: I) returns (run: seq<Event<I>>)
    requires Separates(name, u) && Inv(name, u, s) && AllHaveIds(s, m) && m in u.mandates
    ensures AllReport(name, u, s, run, m) && |run| == Live(s, m) && Idle(From(name, s, run), m)
    decreases Live(s, m)
  {
    if Live(s, m) == 0 {
      run := [];
      LiveIsZero(s, m);
    } else {
      var e := SomethingToReport(name, u, s, m);
      ReportTakesOne(name, u, s, e, m);
      StepKeepsInv(name, u, s, e);
      var rest := DrainExists(name, u, Apply(name, s, e), m);
      run := [e] + rest;
      assert run[1..] == rest;
    }
  }

  // ----- When the queue can be drained

  ghost predicate Empties<I(!new)>(name: Naming<I>, u: Scope<I>, s: State<I>, run: seq<Event<I>>, m: I) {
    AllReport(name, u, s, run, m) && Idle(From(name, s, run), m)
  }

  /** Some run of reports empties the mandate's queue exactly when every batch has a job id. */
  lemma DrainableExactly<I(!new)>(name: Naming<I>, u: Scope<I>, s: State<I>, m: I)
    requires Separates(name, u) && Inv(name, u, s) && m in u.mandates
    ensures (exists run :: Empties(name, u, s, run, m)) <==> AllHaveIds(s, m)
  {
    if AllHaveIds(s, m) {
      var run := DrainExists(name, u, s, m);
      assert Empties(name, u, s, run, m);
    }
    if run :| Empties(name, u, s, run, m) {
      DrainsExactly(name, u, s, run, m);
    }
  }
}

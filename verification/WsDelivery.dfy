/** Where every broadcast of a thread ends up, and exactly when a split drain
    loses or doubles messages. */
module WsDelivery {
  import opened Wrappers
  import opened WsHub
  import opened WsHubLaws

  // ---- messages that can be told apart ----

  /** The messages broadcast so far, on any thread or on none. */
  function Sent<U, C, T, M(==), R>(run: seq<Step<U, C, T, M, R>>): set<M> {
    set i | 0 <= i < |run| && run[i].Broadcast? :: run[i].m
  }

  /** No message is broadcast twice. */
  predicate Distinct<U, C, T, M(==), R>(run: seq<Step<U, C, T, M, R>>) {
    forall i, j :: 0 <= i < j < |run| && run[i].Broadcast? && run[j].Broadcast? ==> run[i].m != run[j].m
  }

  lemma DistinctFront<U, C, T, M, R>(run: seq<Step<U, C, T, M, R>>, n: nat)
    requires Distinct(run) && n <= |run|
    ensures Distinct(run[..n])
    ensures n < |run| && run[n].Broadcast? ==> run[n].m !in Sent(run[..n])
  {
  }

  // ---- a disturbed reader no longer holds the list ----

  /** Everything waiting was sent, and a disturbed reader's content has lost its
      first message from the list or is shorter than it. */
  ghost predicate Tracked<U, C, T, M, R(!new)>(s: State<U, C, T, M, R>, k: (U, T), sent: set<M>) {
    (forall m :: m in BufferOf(s, k) ==> m in sent) &&
    (forall r :: r in s.readers && s.readers[r].key == k ==> Outdated(s.readers[r], BufferOf(s, k), sent))
  }

  ghost predicate Outdated<K, M>(rd: Reading<K, M>, list: seq<M>, sent: set<M>) {
    rd.content != [] && rd.content[0] in sent && (rd.disturbed ==> rd.content[0] !in list || |rd.content| < |list|)
  }

  lemma StoreKeepsTracked<U, C, T, M(!new), R(!new)>(s: State<U, C, T, M, R>, k: (U, T), m: M, sent: set<M>)
    requires Tracked(s, k, sent) && InStep(s, k) && m !in sent
    ensures Tracked(Store(s, k, m), k, sent + {m})
  {
    var t := Store(s, k, m);
    assert BufferOf(t, k) == BufferOf(s, k) + [m];
    forall r | r in t.readers && t.readers[r].key == k ensures Outdated(t.readers[r], BufferOf(t, k), sent + {m}) {
      assert Outdated(s.readers[r], BufferOf(s, k), sent);
    }
  }

  lemma RemoveKeepsTracked<U, C, T, M(!new), R(!new)>(s: State<U, C, T, M, R>, k: (U, T), sent: set<M>)
    requires Tracked(s, k, sent)
    ensures Tracked(Remove(s, k), k, sent)
  {
    var t := Remove(s, k);
    assert BufferOf(t, k) == [];
    forall r | r in t.readers && t.readers[r].key == k ensures Outdated(t.readers[r], [], sent) {
      assert Outdated(s.readers[r], BufferOf(s, k), sent);
    }
  }

  /** Steps on other lists, and growing what was sent. */
  lemma SameKeepsTracked<U, C, T, M(!new), R(!new)>(s: State<U, C, T, M, R>, t: State<U, C, T, M, R>, k: (U, T), sent: set<M>, more: set<M>)
    requires Tracked(s, k, sent) && sent <= more && BufferOf(t, k) == BufferOf(s, k)
    requires forall r :: r in t.readers && t.readers[r].key == k ==> r in s.readers && t.readers[r] == s.readers[r]
    ensures Tracked(t, k, more)
  {
    forall r | r in t.readers && t.readers[r].key == k ensures Outdated(t.readers[r], BufferOf(t, k), more) {
      assert Outdated(s.readers[r], BufferOf(s, k), sent);
    }
  }

  lemma ReadKeepsTracked<U, C, T, M(!new), R(!new)>(s: State<U, C, T, M, R>, e: Step<U, C, T, M, R>, k: (U, T), sent: set<M>)
    requires Tracked(s, k, sent) && e.ReadList?
    ensures Tracked(Next(s, e), k, sent)
  {
    var t := Next(s, e);
    forall r | r in t.readers && t.readers[r].key == k ensures Outdated(t.readers[r], BufferOf(t, k), sent) {
      if r in s.readers {
        assert Outdated(s.readers[r], BufferOf(s, k), sent);
      } else {
        assert BufferOf(s, k)[0] in BufferOf(s, k);
      }
    }
  }

  lemma DeleteKeepsTracked<U, C, T, M(!new), R(!new)>(s: State<U, C, T, M, R>, e: Step<U, C, T, M, R>, k: (U, T), sent: set<M>)
    requires Tracked(s, k, sent) && e.DeleteList?
    ensures Tracked(Next(s, e), k, sent)
  {
    if e.r in s.readers {
      var mid := s.(readers := s.readers - {e.r});
      SameKeepsTracked(s, mid, k, sent, sent);
      if s.readers[e.r].key == k {
        RemoveKeepsTracked(mid, k, sent);
      } else {
        SameKeepsTracked(mid, Next(s, e), k, sent, sent);
      }
    }
  }

  lemma BroadcastKeepsTracked<U, C, T, M(!new), R(!new)>(s: State<U, C, T, M, R>, e: Step<U, C, T, M, R>, k: (U, T), sent: set<M>)
    requires Tracked(s, k, sent) && InStep(s, k) && e.Broadcast? && e.m !in sent
    ensures Tracked(Next(s, e), k, sent + {e.m})
  {
    var mid := AfterSends(s, e.u, e.m, e.failing);
    SameKeepsTracked(s, mid, k, sent, sent);
    if IsFor(e, k) && Reached(s, e.u, e.failing) == {} {
      StoreKeepsTracked(mid, k, e.m, sent);
    } else {
      SameKeepsTracked(mid, Next(s, e), k, sent, sent + {e.m});
    }
  }

  lemma StepKeepsTracked<U, C, T, M(!new), R(!new)>(s: State<U, C, T, M, R>, e: Step<U, C, T, M, R>, k: (U, T), sent: set<M>)
    requires Tracked(s, k, sent) && InStep(s, k) && (e.Broadcast? ==> e.m !in sent)
    ensures Tracked(Next(s, e), k, sent + if e.Broadcast? then {e.m} else {})
  {
    match e
    case Broadcast(_, _, _, _) => BroadcastKeepsTracked(s, e, k, sent);
    case ReadList(_, _, _) => ReadKeepsTracked(s, e, k, sent);
    case DeleteList(_) => DeleteKeepsTracked(s, e, k, sent);
    case Drain(u, t) => if (u, t) == k { RemoveKeepsTracked(s, k, sent); } else { SameKeepsTracked(s, Next(s, e), k, sent, sent); }
    case Clear(u, t) => if (u, t) == k { RemoveKeepsTracked(s, k, sent); } else { SameKeepsTracked(s, Next(s, e), k, sent, sent); }
    case Register(_, _) => SameKeepsTracked(s, Next(s, e), k, sent, sent);
    case Unregister(_, _) => SameKeepsTracked(s, Next(s, e), k, sent, sent);
  }

  lemma SentNext<U, C, T, M, R>(run: seq<Step<U, C, T, M, R>>, n: nat)
    requires n < |run|
    ensures Sent(run[..n + 1]) == Sent(run[..n]) + if run[n].Broadcast? then {run[n].m} else {}
  {
    assert run[..n + 1] == run[..n] + [run[n]];
  }

  lemma {:induction false} RunIsTracked<U, C, T, M(!new), R(!new)>(run: seq<Step<U, C, T, M, R>>, k: (U, T))
    requires Distinct(run)
    ensures Tracked(After(Empty(), run), k, Sent(run))
  {
    if run != [] {
      var n := |run| - 1;
      DistinctFront(run, n);
      RunIsTracked(run[..n], k);
      RunKeepsInStep(run[..n], k);
      StepKeepsTracked(After(Empty(), run[..n]), run[n], k, Sent(run[..n]));
      SentNext(run, n);
      assert run[..n + 1] == run;
    }
  }

  // ---- conserved exactly when every delete is clean ----

  /** A delete of a list that changed hands over something else than it removes. */
  lemma DirtyBreaks<U, C, T, M(!new), R(!new)>(run: seq<Step<U, C, T, M, R>>, k: (U, T))
    requires Distinct(run) && run != [] && Conserved(run[..|run| - 1], k) && !CleanAt(run, k, |run| - 1)
    ensures !Conserved(run, k)
  {
    var n := |run| - 1;
    var s: State<U, C, T, M, R>, f := After(Empty(), run[..n]), Flow(Empty<U, C, T, M, R>(), run[..n], k);
    DistinctFront(run, n);
    RunIsTracked(run[..n], k);
    var rd := s.readers[run[n].r];
    assert Outdated(rd, BufferOf(s, k), Sent(run[..n]));
    assert rd.content != BufferOf(s, k) by {
      assert rd.content[0] in rd.content;
    }
    assert BufferOf(After(Empty(), run), k) == [];
    Cancel(f.removed, rd.content, BufferOf(s, k));
    assert Flow(Empty(), run, k).removed + [] == f.removed + rd.content;
    assert Flow(Empty(), run, k).stored == f.stored + [];
  }

  lemma Cancel<M>(a: seq<M>, b: seq<M>, c: seq<M>)
    ensures a + b == a + c <==> b == c
  {
    assert (a + b)[|a|..] == b && (a + c)[|a|..] == c;
  }

  ghost predicate AlwaysConserved<U, C, T, M, R>(run: seq<Step<U, C, T, M, R>>, k: (U, T)) {
    forall n :: 0 <= n <= |run| ==> Conserved(run[..n], k)
  }

  lemma {:induction false} ConservedMeansClean<U, C, T, M(!new), R(!new)>(run: seq<Step<U, C, T, M, R>>, k: (U, T), i: nat)
    requires Distinct(run) && AlwaysConserved(run, k) && i < |run|
    ensures CleanAt(run, k, i)
  {
    var front := run[..i + 1];
    DistinctFront(run, i + 1);
    assert front[..i] == run[..i] && Conserved(run[..i], k) && Conserved(run[..i + 1], k);
    if !CleanAt(front, k, i) {
      DirtyBreaks(front, k);
    }
  }

  /** With drains as two calls, and messages that can be told apart, nothing is
      lost or doubled at any time exactly when no list changes between a reader's
      LRANGE and its DELETE. */
  lemma ConservedExactly<U, C, T, M(!new), R(!new)>(run: seq<Step<U, C, T, M, R>>, k: (U, T))
    requires Distinct(run)
    ensures AlwaysConserved(run, k) <==> AllClean(run, k)
  {
    if AllClean(run, k) {
      forall n | 0 <= n <= |run| ensures Conserved(run[..n], k) {
        CleanFront(run, k, n);
        CleanIsConserved(run[..n], k);
      }
    }
    if AlwaysConserved(run, k) {
      forall i | 0 <= i < |run| ensures CleanAt(run, k, i) {
        ConservedMeansClean(run, k, i);
      }
    }
  }

  /** The step adds to the list of `k` or deletes it. */
  predicate Touches<U(==), C(==), T(==), M, R(==)>(s: State<U, C, T, M, R>, e: Step<U, C, T, M, R>, k: (U, T)) {
    (IsFor(e, k) && Reached(s, e.u, e.failing) == {}) || ((e.Drain? || e.Clear?) && (e.u, e.t) == k) || Deletes(s, e, k)
  }

  /** A reader under way is disturbed by exactly these steps. */
  lemma DisturbedExactly<U, C, T, M, R>(s: State<U, C, T, M, R>, e: Step<U, C, T, M, R>, r: R)
    requires r in s.readers && r in Next(s, e).readers
    ensures Next(s, e).readers[r] == s.readers[r].(disturbed := s.readers[r].disturbed || Touches(s, e, s.readers[r].key))
  {
  }

  // ---- two runs of a split drain ----

  lemma RunOfFour<U, C, T, M, R>(a: Step<U, C, T, M, R>, b: Step<U, C, T, M, R>, c: Step<U, C, T, M, R>, d: Step<U, C, T, M, R>)
    ensures [a, b, c, d][..3] == [a, b, c] && After(Empty(), [a, b, c]) == Next(Next(Next(Empty(), a), b), c)
    ensures Distinct([a, b, c]) && Distinct([a, b, c, d]) ==> Distinct([a, b, c, d][..3])
  {
    assert [a, b, c][..2] == [a, b] && [a, b][..1] == [a] && [a][..0] == [];
    assert After(Empty(), [a]) == Next(Empty(), a) && After(Empty(), [a, b]) == Next(Next(Empty(), a), b);
  }

  /** One message buffered for a user nobody is connected for, and read by `r`. */
  lemma OneRead<U, C, T, M, R>(u: U, t: T, m: M, r: R)
    ensures var s1 := Next(Empty<U, C, T, M, R>(), Broadcast(u, Some(t), m, {}));
            BufferOf(s1, (u, t)) == [m] && s1.readers == map[] && s1.conns == map[] &&
            Next(s1, ReadList(r, u, t)).readers == map[r := Reading((u, t), [m], false)] &&
            BufferOf(Next(s1, ReadList(r, u, t)), (u, t)) == [m] && Next(s1, ReadList(r, u, t)).conns == map[]
  {
    var s0 := Empty<U, C, T, M, R>();
    assert Disturbed(s0.readers, (u, t)) == map[];
    assert [] + [m] == [m];
  }

  ghost predicate DeletesDirty<U, C, T, M, R>(s: State<U, C, T, M, R>, r: R, k: (U, T)) {
    r in s.readers && s.readers[r].key == k && s.readers[r].disturbed
  }

  lemma StoredUnderReader<U, C, T, M, R>(u: U, t: T, m: M, n: M, r: R)
    ensures DeletesDirty(Next(Next(Next(Empty<U, C, T, M, R>(), Broadcast(u, Some(t), m, {})), ReadList(r, u, t)), Broadcast(u, Some(t), n, {})), r, (u, t))
  {
    OneRead<U, C, T, M, R>(u, t, m, r);
    var s2 := Next(Next(Empty<U, C, T, M, R>(), Broadcast(u, Some(t), m, {})), ReadList(r, u, t));
    assert Reached(s2, u, {}) == {};
    DisturbedExactly(s2, Broadcast(u, Some(t), n, {}), r);
  }

  lemma DeletedUnderReader<U, C, T, M, R>(u: U, t: T, m: M, r: R, q: R)
    requires r != q
    ensures DeletesDirty(Next(Next(Next(Next(Empty<U, C, T, M, R>(), Broadcast(u, Some(t), m, {})), ReadList(r, u, t)), ReadList(q, u, t)), DeleteList(r)), q, (u, t))
  {
    OneRead<U, C, T, M, R>(u, t, m, r);
    var s2 := Next(Next(Empty<U, C, T, M, R>(), Broadcast(u, Some(t), m, {})), ReadList(r, u, t));
    var s3 := Next(s2, ReadList(q, u, t));
    assert s3.readers[r].key == (u, t) && s3.readers[q] == Reading((u, t), [m], false);
    DisturbedExactly(s3, DeleteList(r), q);
  }

  function LosingRun<U, C, T, M, R>(u: U, t: T, m: M, n: M, r: R): seq<Step<U, C, T, M, R>> {
    [Broadcast(u, Some(t), m, {}), ReadList(r, u, t), Broadcast(u, Some(t), n, {}), DeleteList(r)]
  }

  function DoublingRun<U, C, T, M, R>(u: U, t: T, m: M, r: R, q: R): seq<Step<U, C, T, M, R>> {
    [Broadcast(u, Some(t), m, {}), ReadList(r, u, t), ReadList(q, u, t), DeleteList(r), DeleteList(q)]
  }

  lemma LosingIsDirty<U, C, T, M, R>(u: U, t: T, m: M, n: M, r: R)
    ensures !AllClean(LosingRun<U, C, T, M, R>(u, t, m, n, r), (u, t))
  {
    var run := LosingRun<U, C, T, M, R>(u, t, m, n, r);
    RunOfFour(run[0], run[1], run[2], run[3]);
    StoredUnderReader<U, C, T, M, R>(u, t, m, n, r);
    NotClean(run, (u, t), Next(Next(Next(Empty<U, C, T, M, R>(), run[0]), run[1]), run[2]));
  }

  lemma DoublingIsDirty<U, C, T, M, R>(u: U, t: T, m: M, r: R, q: R)
    requires r != q
    ensures !AllClean(DoublingRun<U, C, T, M, R>(u, t, m, r, q), (u, t))
  {
    var run := DoublingRun<U, C, T, M, R>(u, t, m, r, q);
    RunOfFour(run[0], run[1], run[2], run[3]);
    DeletedUnderReader<U, C, T, M, R>(u, t, m, r, q);
    var four := [run[0], run[1], run[2], run[3]];
    var s4 := Next(Next(Next(Next(Empty<U, C, T, M, R>(), run[0]), run[1]), run[2]), run[3]);
    assert run[..4] == four && After(Empty(), four) == s4;
    NotClean(run, (u, t), s4);
  }

  /** A message stored between the LRANGE and the DELETE is lost. */
  lemma StoreBetweenIsLost<U, C, T, M(!new), R(!new)>(u: U, t: T, m: M, n: M, r: R)
    requires m != n
    ensures Distinct(LosingRun<U, C, T, M, R>(u, t, m, n, r)) && !AlwaysConserved(LosingRun<U, C, T, M, R>(u, t, m, n, r), (u, t))
  {
    LosingIsDirty<U, C, T, M, R>(u, t, m, n, r);
    ConservedExactly(LosingRun<U, C, T, M, R>(u, t, m, n, r), (u, t));
  }

  /** Two readers hand over the same messages. */
  lemma TwoReadersDouble<U, C, T, M(!new), R(!new)>(u: U, t: T, m: M, r: R, q: R)
    requires r != q
    ensures Distinct(DoublingRun<U, C, T, M, R>(u, t, m, r, q)) && !AlwaysConserved(DoublingRun<U, C, T, M, R>(u, t, m, r, q), (u, t))
  {
    DoublingIsDirty<U, C, T, M, R>(u, t, m, r, q);
    ConservedExactly(DoublingRun<U, C, T, M, R>(u, t, m, r, q), (u, t));
  }

  /** The last step deletes a list that changed. */
  lemma NotClean<U, C, T, M, R>(run: seq<Step<U, C, T, M, R>>, k: (U, T), s: State<U, C, T, M, R>)
    requires run != [] && s == After(Empty(), run[..|run| - 1])
    requires run[|run| - 1].DeleteList? && DeletesDirty(s, run[|run| - 1].r, k)
    ensures !AllClean(run, k)
  {
    assert !CleanAt(run, k, |run| - 1);
  }

  // ---- every broadcast has one home ----

  /** The connections that broadcast `i` of the run got through to. */
  function ReachedAt<U(==), C(==), T(==), M, R(==)>(run: seq<Step<U, C, T, M, R>>, i: nat): set<C>
    requires i < |run| && run[i].Broadcast?
  {
    Reached(After(Empty(), run[..i]), run[i].u, run[i].failing)
  }

  ghost predicate CameAt<U, C, T, M, R>(run: seq<Step<U, C, T, M, R>>, c: C, m: M, i: nat) {
    i < |run| && run[i].Broadcast? && run[i].m == m && c in ReachedAt(run, i)
  }

  ghost predicate Came<U, C, T, M, R>(run: seq<Step<U, C, T, M, R>>, c: C, m: M) {
    exists i: nat :: CameAt(run, c, m, i)
  }

  lemma CameNext<U, C, T, M, R>(run: seq<Step<U, C, T, M, R>>, c: C, m: M)
    requires run != []
    ensures Came(run, c, m) <==> Came(run[..|run| - 1], c, m) || CameAt(run, c, m, |run| - 1)
  {
    var front := run[..|run| - 1];
    forall i: nat | i < |front| ensures CameAt(front, c, m, i) <==> CameAt(run, c, m, i) {
      assert run[..i] == front[..i];
    }
    if i: nat :| CameAt(run, c, m, i) {
      assert i < |front| ==> CameAt(front, c, m, i);
    }
  }

  lemma {:induction false} GotFrom<U, C, T, M, R>(run: seq<Step<U, C, T, M, R>>, c: C, m: M)
    ensures m in Got(Empty(), run, c) <==> Came(run, c, m)
  {
    if run != [] {
      GotFrom(run[..|run| - 1], c, m);
      CameNext(run, c, m);
      CameLast(run, c, m);
    }
  }

  lemma CameLast<U, C, T, M, R>(run: seq<Step<U, C, T, M, R>>, c: C, m: M)
    requires run != []
    ensures CameAt(run, c, m, |run| - 1) <==> m in Arrives(After(Empty(), run[..|run| - 1]), run[|run| - 1], c)
  {
  }

  ghost predicate StoredAt<U, C, T, M, R>(run: seq<Step<U, C, T, M, R>>, k: (U, T), m: M, i: nat) {
    i < |run| && IsFor(run[i], k) && run[i].m == m && ReachedAt(run, i) == {}
  }

  ghost predicate WasStored<U, C, T, M, R>(run: seq<Step<U, C, T, M, R>>, k: (U, T), m: M) {
    exists i: nat :: StoredAt(run, k, m, i)
  }

  lemma StoredNext<U, C, T, M, R>(run: seq<Step<U, C, T, M, R>>, k: (U, T), m: M)
    requires run != []
    ensures WasStored(run, k, m) <==> WasStored(run[..|run| - 1], k, m) || StoredAt(run, k, m, |run| - 1)
  {
    var front := run[..|run| - 1];
    forall i: nat | i < |front| ensures StoredAt(front, k, m, i) <==> StoredAt(run, k, m, i) {
      assert run[..i] == front[..i];
    }
    if i: nat :| StoredAt(run, k, m, i) {
      assert i < |front| ==> StoredAt(front, k, m, i);
    }
  }

  lemma {:induction false} StoredFrom<U, C, T, M, R>(run: seq<Step<U, C, T, M, R>>, k: (U, T), m: M)
    ensures m in Flow(Empty(), run, k).stored <==> WasStored(run, k, m)
  {
    if run != [] {
      StoredFrom(run[..|run| - 1], k, m);
      StoredNext(run, k, m);
      StoredLast(run, k, m);
    }
  }

  lemma StoredLast<U, C, T, M, R>(run: seq<Step<U, C, T, M, R>>, k: (U, T), m: M)
    requires run != []
    ensures StoredAt(run, k, m, |run| - 1) <==> m in Added(After(Empty(), run[..|run| - 1]), run[|run| - 1], k)
  {
  }

  /** A connection has received a broadcast exactly when it was reached by it. */
  lemma ReceivedExactly<U, C, T, M, R>(run: seq<Step<U, C, T, M, R>>, i: nat, c: C)
    requires Distinct(run) && i < |run| && run[i].Broadcast?
    ensures run[i].m in InboxOf(After(Empty(), run), c) <==> c in ReachedAt(run, i)
  {
    InboxIsExact(Empty(), run, c);
    assert InboxOf(After(Empty(), run), c) == [] + Got(Empty(), run, c);
    GotFrom(run, c, run[i].m);
    if c in ReachedAt(run, i) {
      assert CameAt(run, c, run[i].m, i);
    }
  }

  /** A broadcast of a thread was buffered exactly when it reached nobody; then,
      over clean deletes, it was taken out or is still there. */
  lemma BufferedExactly<U, C, T, M, R(!new)>(run: seq<Step<U, C, T, M, R>>, k: (U, T), i: nat)
    requires Distinct(run) && AllClean(run, k) && i < |run| && IsFor(run[i], k)
    ensures run[i].m in Flow(Empty(), run, k).removed + BufferOf(After(Empty(), run), k) <==> ReachedAt(run, i) == {}
  {
    CleanIsConserved(run, k);
    StoredFrom(run, k, run[i].m);
    if ReachedAt(run, i) == {} {
      assert StoredAt(run, k, run[i].m, i);
    }
  }

  /** Every broadcast of a thread is in somebody's inbox or went through the
      buffer, and never both. */
  lemma OneHome<U, C(!new), T, M, R(!new)>(run: seq<Step<U, C, T, M, R>>, k: (U, T), i: nat)
    requires Distinct(run) && AllClean(run, k) && i < |run| && IsFor(run[i], k)
    ensures (exists c :: run[i].m in InboxOf(After(Empty(), run), c))
       <==> run[i].m !in Flow(Empty(), run, k).removed + BufferOf(After(Empty(), run), k)
  {
    BufferedExactly(run, k, i);
    forall c ensures run[i].m in InboxOf(After(Empty(), run), c) <==> c in ReachedAt(run, i) {
      ReceivedExactly(run, i, c);
    }
    if ReachedAt(run, i) != {} {
      var c :| c in ReachedAt(run, i);
      assert run[i].m in InboxOf(After(Empty(), run), c);
    }
  }
}

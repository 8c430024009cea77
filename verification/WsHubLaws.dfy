/** What holds over every run of the WebSocket hub: connectivity and its
    callbacks, what each connection receives, and what becomes of the rest. */
module WsHubLaws {
  import opened Wrappers
  import opened WsHub

  // ---- connectivity ----

  lemma {:induction false} NeverEmpty<U, C, T, M, R>(s: State<U, C, T, M, R>, run: seq<Step<U, C, T, M, R>>)
    requires NoEmptySet(s)
    ensures NoEmptySet(After(s, run))
  {
    if run != [] {
      NeverEmpty(s, run[..|run| - 1]);
      NextKeepsConns(After(s, run[..|run| - 1]), run[|run| - 1]);
    }
  }

  lemma NextKeepsConns<U, C, T, M, R>(s: State<U, C, T, M, R>, e: Step<U, C, T, M, R>)
    requires NoEmptySet(s)
    ensures NoEmptySet(Next(s, e))
  {
  }

  function Connected<U(==), C(==), T(==), M, R(==)>(s: State<U, C, T, M, R>, u: U): int {
    if ConnsOf(s, u) == {} then 0 else 1
  }

  predicate FiresFirst<U(==), C(==), T(==), M, R(==)>(s: State<U, C, T, M, R>, e: Step<U, C, T, M, R>, u: U) {
    e.Register? && e.u == u && ConnsOf(s, u) == {}
  }

  predicate FiresLast<U(==), C(==), T(==), M, R(==)>(s: State<U, C, T, M, R>, e: Step<U, C, T, M, R>, u: U) {
    e.Unregister? && e.u == u && ConnsOf(s, u) == {e.c}
  }

  /** The clean-up of a broadcast silently drops the last connection. */
  predicate DropsLast<U(==), C(==), T(==), M, R(==)>(s: State<U, C, T, M, R>, e: Step<U, C, T, M, R>, u: U) {
    e.Broadcast? && e.u == u && ConnsOf(s, u) != {} && ConnsOf(s, u) <= e.failing
  }

  /** How often the two callbacks fire and how often the clean-up drops a user. */
  datatype Tally = Tally(firsts: nat, lasts: nat, drops: nat)

  function Count<U(==), C(==), T(==), M, R(==)>(s: State<U, C, T, M, R>, run: seq<Step<U, C, T, M, R>>, u: U): Tally {
    if run == [] then Tally(0, 0, 0)
    else
      var n := |run| - 1;
      var before, now, e := Count(s, run[..n], u), After(s, run[..n]), run[n];
      Tally(before.firsts + if FiresFirst(now, e, u) then 1 else 0,
            before.lasts + if FiresLast(now, e, u) then 1 else 0,
            before.drops + if DropsLast(now, e, u) then 1 else 0)
  }

  lemma ConnsStep<U, C, T, M, R>(s: State<U, C, T, M, R>, e: Step<U, C, T, M, R>, u: U)
    ensures ConnsOf(Next(s, e), u)
         == if e.Register? && e.u == u then ConnsOf(s, u) + {e.c}
            else if e.Unregister? && e.u == u then ConnsOf(s, u) - {e.c}
            else if e.Broadcast? && e.u == u then ConnsOf(s, u) - e.failing
            else ConnsOf(s, u)
  {
  }

  /** Step `j` connects the user's `c`, and no later step disconnects it or fails on it. */
  ghost predicate ConnectsAt<U, C, T, M, R>(run: seq<Step<U, C, T, M, R>>, u: U, c: C, j: int) {
    0 <= j < |run| && run[j] == Register(u, c) && forall i :: j < i < |run| ==> !Disconnects(run[i], u, c)
  }

  predicate Disconnects<U(==), C(==), T, M, R>(e: Step<U, C, T, M, R>, u: U, c: C) {
    (e.Unregister? && e.u == u && e.c == c) || (e.Broadcast? && e.u == u && c in e.failing)
  }

  /** A connection is in its user's set exactly when it was registered and since
      then neither unregistered nor failed in a broadcast to the user. */
  lemma {:induction false} ConnectedExactly<U, C, T, M, R>(run: seq<Step<U, C, T, M, R>>, u: U, c: C)
    ensures c in ConnsOf(After(Empty<U, C, T, M, R>(), run), u) <==> exists j :: ConnectsAt(run, u, c, j)
  {
    if run != [] {
      var n := |run| - 1;
      var before := run[..n];
      ConnectedExactly(before, u, c);
      ConnsStep(After(Empty(), before), run[n], u);
      if run[n] == Register(u, c) {
        assert ConnectsAt(run, u, c, n);
      } else {
        assert forall j :: ConnectsAt(run, u, c, j) <==> ConnectsAt(before, u, c, j) && !Disconnects(run[n], u, c);
      }
    }
  }

  lemma ConnectedStep<U, C, T, M, R>(s: State<U, C, T, M, R>, e: Step<U, C, T, M, R>, u: U)
    ensures Connected(Next(s, e), u) - Connected(s, u)
         == (if FiresFirst(s, e, u) then 1 else 0) - (if FiresLast(s, e, u) then 1 else 0) - (if DropsLast(s, e, u) then 1 else 0)
  {
    ConnsStep(s, e, u);
    if e.Unregister? && e.u == u {
      EmptyDifference(ConnsOf(s, u), {e.c});
      assert ConnsOf(s, u) <= {e.c} <==> ConnsOf(s, u) == {} || ConnsOf(s, u) == {e.c};
    }
    if e.Broadcast? && e.u == u {
      EmptyDifference(ConnsOf(s, u), e.failing);
    }
  }

  /** First-connect minus last-disconnect callbacks over any run. */
  lemma {:induction false} CallbacksBalance<U, C, T, M, R>(s: State<U, C, T, M, R>, run: seq<Step<U, C, T, M, R>>, u: U)
    ensures var n := Count(s, run, u);
            n.firsts - n.lasts == Connected(After(s, run), u) - Connected(s, u) + n.drops
  {
    if run != [] {
      var n := |run| - 1;
      CallbacksBalance(s, run[..n], u);
      ConnectedStep(After(s, run[..n]), run[n], u);
    }
  }

  /** Hence the callbacks alone track the connection exactly when no clean-up
      dropped the user. */
  lemma CallbacksTrackExactly<U, C, T, M, R>(run: seq<Step<U, C, T, M, R>>, u: U)
    ensures var n := Count(Empty(), run, u);
            n.firsts - n.lasts == Connected(After(Empty<U, C, T, M, R>(), run), u) <==> n.drops == 0
  {
    CallbacksBalance(Empty<U, C, T, M, R>(), run, u);
  }

  /** A run with a silent drop: one connection, one broadcast on which it fails. */
  lemma SilentDrop<U, C, T, M, R>(u: U, c: C, thread: Option<T>, m: M)
    ensures var run: seq<Step<U, C, T, M, R>> := [Register(u, c), Broadcast(u, thread, m, {c})];
            Count(Empty(), run, u) == Tally(1, 0, 1) && Connected(After(Empty(), run), u) == 0
  {
    var e, f: Step<U, C, T, M, R> := Register(u, c), Broadcast(u, thread, m, {c});
    var run := [e, f];
    var s0 := Empty<U, C, T, M, R>();
    assert run[..1] == [e] && [e][..0] == [];
    assert After(s0, [e]) == Next(s0, e) && After(s0, run) == Next(Next(s0, e), f);
    assert Count(s0, [e], u) == Tally(1, 0, 0);
    ConnsStep(s0, e, u);
    assert ConnsOf(Next(s0, e), u) == {c};
    ConnsStep(Next(s0, e), f, u);
  }

  // ---- what each connection receives ----

  /** What a step brings to connection `c`. */
  function Arrives<U(==), C(==), T(==), M, R(==)>(s: State<U, C, T, M, R>, e: Step<U, C, T, M, R>, c: C): seq<M> {
    if e.Broadcast? && c in Reached(s, e.u, e.failing) then [e.m] else []
  }

  /** The messages that got through to `c` over a run, in order. */
  function Got<U(==), C(==), T(==), M, R(==)>(s: State<U, C, T, M, R>, run: seq<Step<U, C, T, M, R>>, c: C): seq<M> {
    if run == [] then [] else Got(s, run[..|run| - 1], c) + Arrives(After(s, run[..|run| - 1]), run[|run| - 1], c)
  }

  lemma InboxStep<U, C, T, M, R>(s: State<U, C, T, M, R>, e: Step<U, C, T, M, R>, c: C)
    ensures InboxOf(Next(s, e), c) == InboxOf(s, c) + Arrives(s, e, c)
  {
    assert InboxOf(s, c) + [] == InboxOf(s, c);
  }

  lemma {:induction false} InboxIsExact<U, C, T, M, R>(s: State<U, C, T, M, R>, run: seq<Step<U, C, T, M, R>>, c: C)
    ensures InboxOf(After(s, run), c) == InboxOf(s, c) + Got(s, run, c)
  {
    if run != [] {
      var n := |run| - 1;
      InboxIsExact(s, run[..n], c);
      InboxStep(After(s, run[..n]), run[n], c);
    }
  }

  // ---- what the buffer of a thread goes through ----

  predicate IsFor<U(==), C, T(==), M, R>(e: Step<U, C, T, M, R>, k: (U, T)) {
    e.Broadcast? && e.thread == Some(k.1) && e.u == k.0
  }

  /** What a step adds to the list of `k`. */
  function Added<U(==), C(==), T(==), M, R(==)>(s: State<U, C, T, M, R>, e: Step<U, C, T, M, R>, k: (U, T)): seq<M> {
    if IsFor(e, k) && Reached(s, e.u, e.failing) == {} then [e.m] else []
  }

  predicate Deletes<U(==), C(==), T(==), M, R(==)>(s: State<U, C, T, M, R>, e: Step<U, C, T, M, R>, k: (U, T)) {
    e.DeleteList? && e.r in s.readers && s.readers[e.r].key == k
  }

  /** What a step hands over or throws away from the list of `k`; a reader hands
      over what it read. */
  function Removed<U(==), C(==), T(==), M, R(==)>(s: State<U, C, T, M, R>, e: Step<U, C, T, M, R>, k: (U, T)): seq<M> {
    if (e.Drain? || e.Clear?) && (e.u, e.t) == k then BufferOf(s, k)
    else if Deletes(s, e, k) then s.readers[e.r].content
    else []
  }

  datatype Traffic<M> = Traffic(stored: seq<M>, removed: seq<M>)

  /** The messages of one thread over a run, each list in order. */
  function Flow<U(==), C(==), T(==), M, R(==)>(s: State<U, C, T, M, R>, run: seq<Step<U, C, T, M, R>>, k: (U, T)): Traffic<M> {
    if run == [] then Traffic([], [])
    else
      var n := |run| - 1;
      var before, now, e := Flow(s, run[..n], k), After(s, run[..n]), run[n];
      Traffic(before.stored + Added(now, e, k), before.removed + Removed(now, e, k))
  }

  /** What was taken out followed by what remains is what was stored, in order. */
  ghost predicate Conserved<U, C, T, M, R>(run: seq<Step<U, C, T, M, R>>, k: (U, T)) {
    Flow(Empty(), run, k).removed + BufferOf(After(Empty(), run), k) == Flow(Empty(), run, k).stored
  }

  // ---- readers ----

  /** A reader whose list was not touched still holds that list. */
  ghost predicate InStep<U, C, T, M, R(!new)>(s: State<U, C, T, M, R>, k: (U, T)) {
    forall r :: r in s.readers && s.readers[r].key == k && !s.readers[r].disturbed ==> s.readers[r].content == BufferOf(s, k)
  }

  lemma StepKeepsInStep<U, C, T, M, R(!new)>(s: State<U, C, T, M, R>, e: Step<U, C, T, M, R>, k: (U, T))
    requires InStep(s, k)
    ensures InStep(Next(s, e), k)
  {
  }

  lemma {:induction false} RunKeepsInStep<U, C, T, M, R(!new)>(run: seq<Step<U, C, T, M, R>>, k: (U, T))
    ensures InStep(After(Empty(), run), k)
  {
    if run != [] {
      RunKeepsInStep(run[..|run| - 1], k);
      StepKeepsInStep(After(Empty(), run[..|run| - 1]), run[|run| - 1], k);
    }
  }

  /** The step is no DELETE of a list that changed after it was read. */
  ghost predicate Clean<U, C, T, M, R>(s: State<U, C, T, M, R>, e: Step<U, C, T, M, R>, k: (U, T)) {
    Deletes(s, e, k) ==> !s.readers[e.r].disturbed
  }

  ghost predicate CleanAt<U, C, T, M, R>(run: seq<Step<U, C, T, M, R>>, k: (U, T), i: nat)
    requires i < |run|
  {
    Clean(After(Empty(), run[..i]), run[i], k)
  }

  ghost predicate AllClean<U, C, T, M, R>(run: seq<Step<U, C, T, M, R>>, k: (U, T)) {
    forall i :: 0 <= i < |run| ==> CleanAt(run, k, i)
  }

  lemma BufferStep<U, C, T, M, R(!new)>(s: State<U, C, T, M, R>, e: Step<U, C, T, M, R>, k: (U, T))
    requires InStep(s, k) && Clean(s, e, k)
    ensures Removed(s, e, k) + BufferOf(Next(s, e), k) == BufferOf(s, k) + Added(s, e, k)
  {
    assert BufferOf(s, k) + [] == BufferOf(s, k) && [] + BufferOf(Next(s, e), k) == BufferOf(Next(s, e), k);
  }

  lemma Shift<M>(out: seq<M>, more: seq<M>, after: seq<M>, now: seq<M>, added: seq<M>, stored: seq<M>)
    requires out + now == stored && more + after == now + added
    ensures (out + more) + after == stored + added
  {
    calc {
      (out + more) + after;
      out + (more + after);
      (out + now) + added;
    }
  }

  lemma ConservedNext<U, C, T, M, R(!new)>(run: seq<Step<U, C, T, M, R>>, k: (U, T))
    requires run != [] && Conserved(run[..|run| - 1], k) && CleanAt(run, k, |run| - 1)
    ensures Conserved(run, k)
  {
    var n := |run| - 1;
    var s: State<U, C, T, M, R>, f := After(Empty(), run[..n]), Flow(Empty<U, C, T, M, R>(), run[..n], k);
    RunKeepsInStep(run[..n], k);
    BufferStep(s, run[n], k);
    Shift(f.removed, Removed(s, run[n], k), BufferOf(Next(s, run[n]), k), BufferOf(s, k), Added(s, run[n], k), f.stored);
  }

  lemma CleanFront<U, C, T, M, R>(run: seq<Step<U, C, T, M, R>>, k: (U, T), n: nat)
    requires n <= |run| && forall i :: 0 <= i < n ==> CleanAt(run, k, i)
    ensures AllClean(run[..n], k)
  {
    forall i | 0 <= i < n ensures CleanAt(run[..n], k, i) {
      assert run[..n][..i] == run[..i];
      assert CleanAt(run, k, i);
    }
  }

  /** The messages of a thread are conserved over every run whose deletes are clean. */
  lemma {:induction false} CleanIsConserved<U, C, T, M, R(!new)>(run: seq<Step<U, C, T, M, R>>, k: (U, T))
    requires AllClean(run, k)
    ensures Conserved(run, k)
  {
    if run != [] {
      CleanFront(run, k, |run| - 1);
      CleanIsConserved(run[..|run| - 1], k);
      assert CleanAt(run, k, |run| - 1);
      ConservedNext(run, k);
    }
  }

  /** With drains in one piece they are conserved over every run. */
  lemma BufferIsConserved<U, C, T, M, R(!new)>(run: seq<Step<U, C, T, M, R>>, k: (U, T))
    requires forall i :: 0 <= i < |run| ==> !run[i].DeleteList?
    ensures Conserved(run, k)
  {
    forall i | 0 <= i < |run| ensures CleanAt(run, k, i) {
      assert !run[i].DeleteList?;
    }
    CleanIsConserved(run, k);
  }
}

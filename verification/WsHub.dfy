/** The WebSocket hub with its buffer of undelivered messages. */
module WsHub {
  import opened Wrappers

  // ---- state and steps ----

  /** A reader between its LRANGE and its DELETE; `disturbed` once the list has
      changed in the meantime. */
  datatype Reading<K, M> = Reading(key: K, content: seq<M>, disturbed: bool)

  /** Connections per user, messages received per connection, undelivered
      messages per user and thread, and readers under way. */
  datatype State<U(==), C(==), T(==), M, R(==)> =
    State(conns: map<U, set<C>>, inboxes: map<C, seq<M>>, buffers: map<(U, T), seq<M>>, readers: map<R, Reading<(U, T), M>>)

  /** `Drain` is an LRANGE with its DELETE at once; `ReadList` and `DeleteList`
      are the two calls by themselves. */
  datatype Step<U, C, T, M, R> =
    | Register(u: U, c: C)
    | Unregister(u: U, c: C)
    | Broadcast(u: U, thread: Option<T>, m: M, failing: set<C>)
    | Drain(u: U, t: T)
    | Clear(u: U, t: T)
    | ReadList(r: R, u: U, t: T)
    | DeleteList(r: R)

  function Empty<U(==), C(==), T(==), M, R(==)>(): State<U, C, T, M, R> {
    State(map[], map[], map[], map[])
  }

  function ConnsOf<U(==), C(==), T(==), M, R(==)>(s: State<U, C, T, M, R>, u: U): set<C> {
    if u in s.conns then s.conns[u] else {}
  }

  function InboxOf<U(==), C(==), T(==), M, R(==)>(s: State<U, C, T, M, R>, c: C): seq<M> {
    Box(s.inboxes, c)
  }

  function BufferOf<U(==), C(==), T(==), M, R(==)>(s: State<U, C, T, M, R>, k: (U, T)): seq<M> {
    if k in s.buffers then s.buffers[k] else []
  }

  /** The same connections and the same messages; a missing list is an empty one. */
  ghost predicate SameBuffers<U(!new), C, T(!new), M, R>(a: State<U, C, T, M, R>, b: State<U, C, T, M, R>) {
    a.conns == b.conns && a.inboxes == b.inboxes && forall k :: BufferOf(a, k) == BufferOf(b, k)
  }

  /** A user with no connection is not in the map. */
  function SetConns<U(==), C(==), T(==), M, R(==)>(s: State<U, C, T, M, R>, u: U, cs: set<C>): State<U, C, T, M, R> {
    s.(conns := if cs == {} then s.conns - {u} else s.conns[u := cs])
  }

  function Box<C(==), M>(inboxes: map<C, seq<M>>, c: C): seq<M> {
    if c in inboxes then inboxes[c] else []
  }

  /** Each of the connections receives the message. */
  function Delivered<C(==), M>(inboxes: map<C, seq<M>>, cs: set<C>, m: M): map<C, seq<M>> {
    map c | c in inboxes.Keys + cs :: if c in cs then Box(inboxes, c) + [m] else Box(inboxes, c)
  }

  /** The list of `k` changed under the readers. */
  function Disturbed<U(==), T(==), M, R(==)>(readers: map<R, Reading<(U, T), M>>, k: (U, T)): map<R, Reading<(U, T), M>> {
    map r | r in readers :: if readers[r].key == k then readers[r].(disturbed := true) else readers[r]
  }

  function Store<U(==), C(==), T(==), M, R(==)>(s: State<U, C, T, M, R>, k: (U, T), m: M): State<U, C, T, M, R> {
    s.(buffers := s.buffers[k := BufferOf(s, k) + [m]], readers := Disturbed(s.readers, k))
  }

  function Remove<U(==), C(==), T(==), M, R(==)>(s: State<U, C, T, M, R>, k: (U, T)): State<U, C, T, M, R> {
    s.(buffers := s.buffers - {k}, readers := Disturbed(s.readers, k))
  }

  /** The connections a broadcast gets through to. */
  function Reached<U(==), C(==), T(==), M, R(==)>(s: State<U, C, T, M, R>, u: U, failing: set<C>): set<C> {
    ConnsOf(s, u) - failing
  }

  /** Who is reached receives the message; who is not is dropped. */
  function AfterSends<U(==), C(==), T(==), M, R(==)>(s: State<U, C, T, M, R>, u: U, m: M, failing: set<C>): State<U, C, T, M, R> {
    SetConns(s.(inboxes := Delivered(s.inboxes, Reached(s, u, failing), m)), u, Reached(s, u, failing))
  }

  function Next<U(==), C(==), T(==), M, R(==)>(s: State<U, C, T, M, R>, e: Step<U, C, T, M, R>): State<U, C, T, M, R> {
    match e
    case Register(u, c) => SetConns(s, u, ConnsOf(s, u) + {c})
    case Unregister(u, c) => SetConns(s, u, ConnsOf(s, u) - {c})
    case Broadcast(u, thread, m, failing) =>
      var sent := AfterSends(s, u, m, failing);
      if Reached(s, u, failing) == {} && thread.Some? then Store(sent, (u, thread.value), m) else sent
    case Drain(u, t) => Remove(s, (u, t))
    case Clear(u, t) => Remove(s, (u, t))
    case ReadList(r, u, t) =>
      if r in s.readers || BufferOf(s, (u, t)) == [] then s
      else s.(readers := s.readers[r := Reading((u, t), BufferOf(s, (u, t)), false)])
    case DeleteList(r) =>
      if r in s.readers then Remove(s.(readers := s.readers - {r}), s.readers[r].key) else s
  }

  function After<U(==), C(==), T(==), M, R(==)>(s: State<U, C, T, M, R>, run: seq<Step<U, C, T, M, R>>): State<U, C, T, M, R> {
    if run == [] then s else Next(After(s, run[..|run| - 1]), run[|run| - 1])
  }

  // ---- the hub ----

  class WebSocketHub<U(==,!new), C(==), T(==,!new), M, R(==)> {
    var conns: map<U, set<C>>
    var inboxes: map<C, seq<M>>
    var buffers: map<(U, T), seq<M>>

    ghost function Abstract(): State<U, C, T, M, R>
      reads this
    {
      State(conns, inboxes, buffers, map[])
    }

    ghost predicate Valid()
      reads this
    {
      NoEmptySet(Abstract())
    }

    constructor ()
      ensures Valid() && Abstract() == Empty()
    {
      conns, inboxes, buffers := map[], map[], map[];
    }

    method Register(u: U, c: C) returns (first: bool)
      requires Valid()
      modifies this
      ensures Valid() && Abstract() == Next(old(Abstract()), Step.Register(u, c))
      ensures first <==> ConnsOf(old(Abstract()), u) == {}
    {
      first := u !in conns || conns[u] == {};
      var current := if u in conns then conns[u] else {};
      conns := conns[u := current + {c}];
    }

    method Unregister(u: U, c: C) returns (last: bool)
      requires Valid()
      modifies this
      ensures Valid() && Abstract() == Next(old(Abstract()), Step.Unregister(u, c))
      ensures last <==> ConnsOf(old(Abstract()), u) == {c}
    {
      last := false;
      if u in conns && c in conns[u] {
        var left := conns[u] - {c};
        if left == {} {
          conns := conns - {u};
          last := true;
        } else {
          conns := conns[u := left];
        }
      } else {
        SetSame(Abstract(), u, c);
      }
    }

    /** Sends in some order; a send fails exactly on the connections in `failing`. */
    method Broadcast(u: U, thread: Option<T>, m: M, failing: set<C>) returns (sent: nat, buffered: bool)
      requires Valid()
      modifies this
      ensures Valid() && Abstract() == Next(old(Abstract()), Step.Broadcast(u, thread, m, failing))
      ensures sent == |Reached(old(Abstract()), u, failing)|
      ensures buffered <==> sent == 0 && thread.Some?
    {
      sent, buffered, conns, inboxes, buffers := Deliver(Abstract(), conns, inboxes, buffers, u, thread, m, failing);
    }

    /** `get_pending_messages`; without `deleteAfter` it only reads. */
    method Pending(u: U, t: T, deleteAfter: bool) returns (messages: seq<M>)
      requires Valid()
      modifies this`buffers
      ensures messages == BufferOf(old(Abstract()), (u, t))
      ensures SameBuffers(Abstract(), if deleteAfter then Next(old(Abstract()), Step.Drain(u, t)) else old(Abstract()))
      ensures Valid()
    {
      var list := if (u, t) in buffers then buffers[(u, t)] else [];
      messages := [];
      for i := 0 to |list|
        invariant messages == list[..i]
      {
        messages := messages + [list[i]];
      }
      if deleteAfter && messages != [] {
        buffers := buffers - {(u, t)};
      }
      NoReaders<U, T, M, R>();
    }

    method HasPending(u: U, t: T) returns (some: bool)
      ensures some <==> BufferOf(Abstract(), (u, t)) != []
    {
      some := (u, t) in buffers && |buffers[(u, t)]| > 0;
    }

    method ClearPending(u: U, t: T)
      requires Valid()
      modifies this`buffers
      ensures Valid() && Abstract() == Next(old(Abstract()), Step.Clear(u, t))
      ensures BufferOf(Abstract(), (u, t)) == [] && conns == old(conns) && inboxes == old(inboxes)
      ensures forall k :: k != (u, t) ==> BufferOf(Abstract(), k) == BufferOf(old(Abstract()), k)
    {
      NoReaders<U, T, M, R>();
      buffers := buffers - {(u, t)};
    }

    method IsUserConnected(u: U) returns (r: bool)
      requires Valid()
      ensures r <==> ConnsOf(Abstract(), u) != {}
    {
      r := u in conns && |conns[u]| > 0;
    }

    method GetConnectedUsers() returns (users: set<U>)
      requires Valid()
      ensures forall u :: u in users <==> ConnsOf(Abstract(), u) != {}
    {
      users := conns.Keys;
    }
  }

  lemma NoReaders<U, T, M, R>()
    ensures forall k: (U, T) :: Disturbed<U, T, M, R>(map[], k) == map[]
  {
  }

  /** The sends of `targets` so far: `rest` is to come and `done` were reached. */
  ghost predicate Sending<C>(targets: set<C>, failing: set<C>, rest: set<C>, done: set<C>, dead: set<C>, sent: nat) {
    rest <= targets && done == (targets - rest) - failing && dead == (targets - rest) * failing &&
    sent + |rest - failing| == |targets - failing|
  }

  lemma SendNext<C>(targets: set<C>, failing: set<C>, rest: set<C>, done: set<C>, dead: set<C>, sent: nat, c: C)
    requires Sending(targets, failing, rest, done, dead, sent) && c in rest
    ensures c in failing ==> Sending(targets, failing, rest - {c}, done, dead + {c}, sent)
    ensures c !in failing ==> c !in done && Sending(targets, failing, rest - {c}, done + {c}, dead, sent + 1)
  {
    OneSend(rest, failing, c);
    assert targets - (rest - {c}) == (targets - rest) + {c};
  }

  /** One send per connection: it lands in the inbox, or fails and is remembered. */
  method SendAll<C(==), M>(inboxes: map<C, seq<M>>, targets: set<C>, m: M, failing: set<C>)
    returns (sent: nat, dead: set<C>, received: map<C, seq<M>>)
    ensures dead == targets * failing && sent == |targets - failing|
    ensures received == Delivered(inboxes, targets - failing, m)
  {
    sent, dead, received := 0, {}, inboxes;
    var rest := targets;
    ghost var done: set<C> := {};
    DeliveredNone(inboxes, m);
    while rest != {}
      invariant Sending(targets, failing, rest, done, dead, sent)
      invariant received == Delivered(inboxes, done, m)
      decreases rest
    {
      var c :| c in rest;
      SendNext(targets, failing, rest, done, dead, sent, c);
      if c in failing {
        dead := dead + {c};
      } else {
        DeliveredOne(inboxes, done, m, c);
        received := received[c := Box(received, c) + [m]];
        sent, done := sent + 1, done + {c};
      }
      rest := rest - {c};
    }
    assert targets - {} == targets;
  }

  /** The send loop and the removal of dead connections. */
  method SendAndClean<U(==), C(==), T(==), M, R(==)>(ghost s: State<U, C, T, M, R>, conns: map<U, set<C>>, inboxes: map<C, seq<M>>, u: U, m: M, failing: set<C>)
    returns (sent: nat, dead: set<C>, conns': map<U, set<C>>, inboxes': map<C, seq<M>>)
    requires NoEmptySet(s) && s.conns == conns && s.inboxes == inboxes && u in conns
    ensures s.(conns := conns', inboxes := inboxes') == AfterSends(s, u, m, failing) && NoEmptySet(AfterSends(s, u, m, failing))
    ensures sent == |Reached(s, u, failing)| && (sent == 0 <==> Reached(s, u, failing) == {})
    ensures dead == {} ==> sent > 0
  {
    sent, dead, inboxes' := SendAll(inboxes, conns[u], m, failing);
    AfterSendsIs(s, u, m, failing, dead);
    conns' := if dead == {} then conns else Cleaned(conns, u, dead);
  }

  /** The whole of `broadcast`: no connections and it is buffered; otherwise it is sent, and buffered only
      when connections died and nothing got through. */
  method Deliver<U(==), C(==), T(==), M, R(==)>(ghost s: State<U, C, T, M, R>, conns: map<U, set<C>>, inboxes: map<C, seq<M>>,
                                                buffers: map<(U, T), seq<M>>, u: U, thread: Option<T>, m: M, failing: set<C>)
    returns (sent: nat, buffered: bool, conns': map<U, set<C>>, inboxes': map<C, seq<M>>, buffers': map<(U, T), seq<M>>)
    requires NoEmptySet(s) && s == State(conns, inboxes, buffers, map[])
    ensures State(conns', inboxes', buffers', map[]) == Next(s, Broadcast(u, thread, m, failing))
    ensures NoEmptySet(Next(s, Broadcast(u, thread, m, failing)))
    ensures sent == |Reached(s, u, failing)| && (buffered <==> sent == 0 && thread.Some?)
  {
    sent, buffered, conns', inboxes', buffers' := 0, false, conns, inboxes, buffers;
    NoReaders<U, T, M, R>();
    if u !in conns {
      NobodyReached(s, u, m, failing);
      buffered, buffers' := StoreIfThread(s, buffers, u, thread, m);
      return;
    }
    var dead: set<C>;
    sent, dead, conns', inboxes' := SendAndClean(s, conns, inboxes, u, m, failing);
    if dead != {} && sent == 0 {
      buffered, buffers' := StoreIfThread(AfterSends(s, u, m, failing), buffers, u, thread, m);
    }
  }

  /** `store_pending_message` for a channel with a thread. */
  method StoreIfThread<U(==), C(==), T(==), M, R(==)>(ghost s: State<U, C, T, M, R>, buffers: map<(U, T), seq<M>>, u: U, thread: Option<T>, m: M)
    returns (stored: bool, buffers': map<(U, T), seq<M>>)
    requires s.buffers == buffers
    ensures stored <==> thread.Some?
    ensures s.(buffers := buffers', readers := if stored then Disturbed(s.readers, (u, thread.value)) else s.readers)
         == if stored then Store(s, (u, thread.value), m) else s
  {
    stored, buffers' := thread.Some?, buffers;
    if stored {
      var k := (u, thread.value);
      buffers' := buffers[k := (if k in buffers then buffers[k] else []) + [m]];
    }
  }

  lemma DeliveredNone<C, M>(inboxes: map<C, seq<M>>, m: M)
    ensures Delivered(inboxes, {}, m) == inboxes
  {
  }

  lemma DeliveredOne<C, M>(inboxes: map<C, seq<M>>, done: set<C>, m: M, c: C)
    requires c !in done
    ensures Delivered(inboxes, done + {c}, m) == Delivered(inboxes, done, m)[c := Box(Delivered(inboxes, done, m), c) + [m]]
  {
    var now, after := Delivered(inboxes, done, m), Delivered(inboxes, done + {c}, m);
    assert after.Keys == now.Keys + {c};
  }

  lemma OneSend<C>(rest: set<C>, failing: set<C>, c: C)
    requires c in rest
    ensures |rest - failing| == |(rest - {c}) - failing| + if c in failing then 0 else 1
  {
    if c in failing {
      assert (rest - {c}) - failing == rest - failing;
    } else {
      assert rest - failing == ((rest - {c}) - failing) + {c};
    }
  }

  /** The connections of `u` without the dead ones; no empty set stays. */
  function Cleaned<U(==), C(==)>(conns: map<U, set<C>>, u: U, dead: set<C>): map<U, set<C>>
    requires u in conns
  {
    if conns[u] - dead == {} then conns - {u} else conns[u := conns[u] - dead]
  }

  lemma AfterSendsIs<U, C, T, M, R>(s: State<U, C, T, M, R>, u: U, m: M, failing: set<C>, dead: set<C>)
    requires u in s.conns && NoEmptySet(s) && dead == s.conns[u] * failing
    ensures AfterSends(s, u, m, failing)
         == s.(inboxes := Delivered(s.inboxes, s.conns[u] - failing, m), conns := if dead == {} then s.conns else Cleaned(s.conns, u, dead))
    ensures |Reached(s, u, failing)| == 0 <==> Reached(s, u, failing) == {}
    ensures dead == {} ==> |s.conns[u] - failing| > 0
    ensures NoEmptySet(AfterSends(s, u, m, failing))
  {
    KeptAfterSend(s.conns[u], failing);
    if dead == {} {
      assert s.conns[u := s.conns[u]] == s.conns;
    }
  }

  lemma KeptAfterSend<C>(targets: set<C>, failing: set<C>)
    ensures targets - (targets * failing) == targets - failing
    ensures targets * failing == {} ==> targets - failing == targets
  {
    if targets * failing == {} {
      forall c | c in targets ensures c !in failing { assert c !in targets * failing; }
    }
  }

  lemma EmptyDifference<C>(a: set<C>, b: set<C>)
    ensures a - b == {} <==> a <= b
  {
    if a - b == {} {
      forall c | c in a ensures c in b { assert c !in a - b; }
    }
  }

  lemma SetSame<U, C, T, M, R>(s: State<U, C, T, M, R>, u: U, c: C)
    requires NoEmptySet(s) && c !in ConnsOf(s, u)
    ensures SetConns(s, u, ConnsOf(s, u) - {c}) == s
  {
    assert ConnsOf(s, u) - {c} == ConnsOf(s, u);
    if u in s.conns {
      assert s.conns[u := s.conns[u]] == s.conns;
    } else {
      assert s.conns - {u} == s.conns;
    }
  }

  /** A broadcast to a user without connections changes no inbox and no connection. */
  lemma NobodyReached<U, C, T, M, R>(s: State<U, C, T, M, R>, u: U, m: M, failing: set<C>)
    requires NoEmptySet(s) && ConnsOf(s, u) == {}
    ensures Reached(s, u, failing) == {} && AfterSends(s, u, m, failing) == s
  {
    assert {} - failing == {};
    DeliveredNone(s.inboxes, m);
    SetAbsent(s, u);
  }

  lemma SetAbsent<U, C, T, M, R>(s: State<U, C, T, M, R>, u: U)
    requires NoEmptySet(s) && ConnsOf(s, u) == {}
    ensures SetConns(s, u, {}) == s
  {
    assert s.conns - {u} == s.conns;
  }

  ghost predicate NoEmptySet<U, C, T, M, R>(s: State<U, C, T, M, R>) {
    forall u :: u in s.conns ==> s.conns[u] != {}
  }
}

/** The distributed lock of the cron scheduler: a key per task with a time to
    live, taken by SET NX EX, released and extended in two separate calls. */
module CronLock {
  import opened Wrappers

  /** The value of a lock key: who wrote it and when it stops being visible. */
  datatype Entry<I> = Entry(holder: I, expiry: nat)

  /** The key-value store with its clock.  Expired keys may linger, unseen. */
  datatype Store<T, I> = Store(now: nat, entries: map<T, Entry<I>>)

  const DefaultTtl: nat := 300

  /** `ttl or DEFAULT_TTL` */
  function Seconds(ttl: Option<nat>): (r: nat)
    ensures r > 0
  {
    if ttl.Some? && ttl.value != 0 then ttl.value else DefaultTtl
  }

  predicate Live<T, I>(s: Store<T, I>, t: T) {
    t in s.entries && s.now < s.entries[t].expiry
  }

  function HolderOf<T, I>(s: Store<T, I>, t: T): Option<I> {
    if Live(s, t) then Some(s.entries[t].holder) else None
  }

  function SetNx<T, I>(s: Store<T, I>, t: T, i: I, ttl: nat): Store<T, I> {
    if Live(s, t) then s else s.(entries := s.entries[t := Entry(i, s.now + ttl)])
  }

  function Remove<T, I>(s: Store<T, I>, t: T): Store<T, I> {
    s.(entries := s.entries - {t})
  }

  function Refresh<T, I>(s: Store<T, I>, t: T, ttl: nat): Store<T, I> {
    if Live(s, t) then s.(entries := s.entries[t := s.entries[t].(expiry := s.now + ttl)]) else s
  }

  // ---- the three lock methods, run without interference ----

  class DistributedLock<T(==), I(==)> {
    var store: Store<T, I>

    constructor (s: Store<T, I>)
      ensures store == s
    {
      store := s;
    }

    method Acquire(task: T, instance: I, ttl: Option<nat>) returns (ok: bool)
      modifies this
      ensures ok <==> HolderOf(old(store), task).None?
      ensures ok ==> HolderOf(store, task) == Some(instance)
      ensures ok ==> store.entries[task].expiry == store.now + Seconds(ttl)
      ensures !ok ==> store == old(store)
      ensures store.now == old(store).now
      ensures store.entries - {task} == old(store).entries - {task}
    {
      ok := !Live(store, task);
      store := SetNx(store, task, instance, Seconds(ttl));
    }

    method Release(task: T, instance: I) returns (ok: bool)
      modifies this
      ensures ok <==> HolderOf(old(store), task) == Some(instance)
      ensures ok ==> HolderOf(store, task).None?
      ensures !ok ==> store == old(store)
      ensures store.now == old(store).now
      ensures store.entries - {task} == old(store).entries - {task}
    {
      var current := HolderOf(store, task);
      ok := current == Some(instance);
      if ok {
        store := Remove(store, task);
      }
    }

    method Extend(task: T, instance: I, ttl: Option<nat>) returns (ok: bool)
      modifies this
      ensures ok <==> HolderOf(old(store), task) == Some(instance)
      ensures ok ==> HolderOf(store, task) == Some(instance)
      ensures ok ==> store.entries[task].expiry == store.now + Seconds(ttl)
      ensures !ok ==> store == old(store)
      ensures store.now == old(store).now
      ensures store.entries - {task} == old(store).entries - {task}
    {
      var current := HolderOf(store, task);
      ok := current == Some(instance);
      if ok {
        store := Refresh(store, task, Seconds(ttl));
      }
    }

    /** Acquiring, working and releasing with nobody else around gives the task
        back, whether or not the lock was free at the start. */
    method Bracket(task: T, instance: I) returns (ran: bool)
      modifies this
      ensures ran <==> HolderOf(old(store), task).None?
      ensures HolderOf(old(store), task) != Some(instance) ==>
        forall t :: HolderOf(store, t) == HolderOf(old(store), t)
    {
      ghost var before := store;
      ran := Acquire(task, instance, None);
      ghost var middle := store;
      var released := Release(task, instance);
      forall t | HolderOf(before, task) != Some(instance)
        ensures HolderOf(store, t) == HolderOf(before, t)
      {
        if t != task {
          SameElsewhere(before, middle, task, t);
          SameElsewhere(middle, store, task, t);
        }
      }
    }
  }

  lemma SameElsewhere<T, I>(a: Store<T, I>, b: Store<T, I>, task: T, t: T)
    requires a.now == b.now && a.entries - {task} == b.entries - {task} && t != task
    ensures HolderOf(a, t) == HolderOf(b, t)
  {
    assert t in a.entries <==> t in a.entries - {task};
    assert t in b.entries <==> t in b.entries - {task};
    if t in a.entries {
      assert (a.entries - {task})[t] == (b.entries - {task})[t];
    }
  }

  // ---- interleaved runs ----

  /** Where an instance is in `_execute_task`.  `since` is the time of the last
      SET or EXPIRE of the instance. */
  datatype Place<T> =
    | Idle
    | Working(task: T, since: nat)
    | Extending(task: T, since: nat)
    | Deleting(task: T, since: nat)
    | Leaving(task: T)
    | Dead

  datatype State<T, I> = State(store: Store<T, I>, places: map<I, Place<T>>)

  datatype Step<T, I> =
    | Tick(elapsed: nat)
    | Start(i: I, t: T)
    | Abort(i: I, t: T)
    | ReadToRelease(i: I)
    | Delete(i: I)
    | ReadToExtend(i: I)
    | Expire(i: I)
    | Crash(i: I)

  function Initial<T, I>(): State<T, I> {
    State(Store(0, map[]), map[])
  }

  function At<T, I>(s: State<T, I>, i: I): Place<T> {
    if i in s.places then s.places[i] else Idle
  }

  /** The instance is between its SET and its DEL. */
  predicate Holding<T>(p: Place<T>) {
    p.Working? || p.Extending? || p.Deleting?
  }

  function Move<T, I>(s: State<T, I>, i: I, p: Place<T>): State<T, I> {
    s.(places := s.places[i := p])
  }

  predicate Enabled<T, I>(s: State<T, I>, e: Step<T, I>) {
    match e
    case Tick(_) => true
    case Start(i, _) => At(s, i).Idle?
    case Abort(i, _) => At(s, i).Idle?
    case ReadToRelease(i) => At(s, i).Working? || At(s, i).Leaving?
    case Delete(i) => At(s, i).Deleting?
    case ReadToExtend(i) => At(s, i).Working?
    case Expire(i) => At(s, i).Extending?
    case Crash(i) => true
  }

  /** SET NX: on success the instance works, otherwise the early return still
      goes through the `finally`. */
  function Started<T, I>(s: State<T, I>, i: I, t: T, ttl: nat): State<T, I> {
    Move(s.(store := SetNx(s.store, t, i, ttl)), i, if Live(s.store, t) then Leaving(t) else Working(t, s.store.now))
  }

  /** GET of the release: go on to DEL only when the key carries the own name.
      An instance that never acquired but reads its own name deletes as well. */
  function Read<T, I>(s: State<T, I>, i: I): State<T, I>
    requires At(s, i).Working? || At(s, i).Leaving?
  {
    var p := At(s, i);
    if HolderOf(s.store, p.task) != Some(i) then Move(s, i, Idle)
    else Move(s, i, Deleting(p.task, if p.Working? then p.since else s.store.now))
  }

  function Next<T, I>(s: State<T, I>, e: Step<T, I>, ttl: nat): State<T, I>
    requires Enabled(s, e)
  {
    match e
    case Tick(d) => s.(store := s.store.(now := s.store.now + d))
    case Start(i, t) => Started(s, i, t, ttl)
    case Abort(i, t) => Move(s, i, Leaving(t))
    case ReadToRelease(i) => Read(s, i)
    case Delete(i) => Move(s.(store := Remove(s.store, At(s, i).task)), i, Idle)
    case ReadToExtend(i) =>
      var p := At(s, i);
      if HolderOf(s.store, p.task) == Some(i) then Move(s, i, Extending(p.task, p.since)) else s
    case Expire(i) =>
      var p := At(s, i);
      Move(s.(store := Refresh(s.store, p.task, ttl)), i, Working(p.task, s.store.now))
    case Crash(i) => Move(s, i, Dead)
  }

  /** Every instance between its SET and its DEL wrote or refreshed its key at
      most `hold` ago. */
  ghost predicate Prompt<T, I>(s: State<T, I>, hold: nat) {
    forall i :: i in s.places && Holding(s.places[i]) ==> s.store.now <= s.places[i].since + hold
  }

  /** A run in any interleaving whose holders all stay within `hold`. */
  ghost predicate Timely<T, I>(s: State<T, I>, run: seq<Step<T, I>>, ttl: nat, hold: nat)
    decreases run
  {
    Prompt(s, hold) &&
    (run != [] ==> Enabled(s, run[0]) && Timely(Next(s, run[0], ttl), run[1..], ttl, hold))
  }

  function After<T, I(!new)>(s: State<T, I>, run: seq<Step<T, I>>, ttl: nat, ghost hold: nat): State<T, I>
    requires Timely(s, run, ttl, hold)
    decreases run
  {
    if run == [] then s else After(Next(s, run[0], ttl), run[1..], ttl, hold)
  }

  /** No task has two instances between their SET and their DEL. */
  ghost predicate Exclusive<T(!new), I(!new)>(s: State<T, I>) {
    forall i, j :: i in s.places && j in s.places && Overlap(s.places[i], s.places[j]) ==> i == j
  }

  predicate Overlap<T(==)>(p: Place<T>, q: Place<T>) {
    Holding(p) && Holding(q) && p.task == q.task
  }

  /** A DEL or EXPIRE about to be sent meets the sender's own live key, and an
      instance that failed to acquire does not go on to a DEL. */
  predicate Harmless<T(==), I(==)>(s: State<T, I>, e: Step<T, I>) {
    match e
    case Delete(i) => At(s, i).Deleting? ==> HolderOf(s.store, At(s, i).task) == Some(i)
    case Expire(i) => At(s, i).Extending? ==> HolderOf(s.store, At(s, i).task) == Some(i)
    case ReadToRelease(i) => At(s, i).Leaving? ==> HolderOf(s.store, At(s, i).task) != Some(i)
    case _ => true
  }

  // ---- the invariant ----

  /** A holder's key is in the store under its name with a full time to live. */
  ghost predicate Backed<T(!new), I(!new)>(s: State<T, I>, i: I, ttl: nat) {
    i in s.places && Holding(s.places[i]) ==>
      s.places[i].task in s.store.entries &&
      s.store.entries[s.places[i].task] == Entry(i, s.places[i].since + ttl)
  }

  /** A key is named after an instance that holds it or has died. */
  ghost predicate Owned<T(!new), I(!new)>(s: State<T, I>, t: T) {
    t in s.store.entries ==>
      OwnerAt(At(s, s.store.entries[t].holder), t)
  }

  predicate OwnerAt<T(==)>(p: Place<T>, t: T) {
    p.Dead? || (Holding(p) && p.task == t)
  }

  ghost predicate AllBacked<T(!new), I(!new)>(s: State<T, I>, ttl: nat) {
    forall i :: Backed(s, i, ttl)
  }

  ghost predicate AllOwned<T(!new), I(!new)>(s: State<T, I>) {
    forall t :: Owned(s, t)
  }

  /** No key outlives the time to live counted from now. */
  ghost predicate Bounded<T(!new), I(!new)>(s: State<T, I>, ttl: nat) {
    forall t :: t in s.store.entries ==> s.store.entries[t].expiry <= s.store.now + ttl
  }

  ghost predicate Inv<T(!new), I(!new)>(s: State<T, I>, ttl: nat) {
    AllBacked(s, ttl) && AllOwned(s)
  }

  lemma HolderIsLive<T(!new), I(!new)>(s: State<T, I>, i: I, ttl: nat, hold: nat)
    requires AllBacked(s, ttl) && Prompt(s, hold) && hold < ttl
    requires Holding(At(s, i))
    ensures HolderOf(s.store, At(s, i).task) == Some(i)
  {
    assert Backed(s, i, ttl);
  }

  lemma ExclusiveFromInv<T(!new), I(!new)>(s: State<T, I>, ttl: nat)
    requires AllBacked(s, ttl)
    ensures Exclusive(s)
  {
    forall i, j | i in s.places && j in s.places && Overlap(s.places[i], s.places[j])
      ensures i == j
    {
      assert Backed(s, i, ttl) && Backed(s, j, ttl);
    }
  }

  lemma HarmlessFromInv<T(!new), I(!new)>(s: State<T, I>, e: Step<T, I>, ttl: nat, hold: nat)
    requires Inv(s, ttl) && Prompt(s, hold) && hold < ttl
    ensures Harmless(s, e)
  {
    match e
    case Delete(i) =>
      if At(s, i).Deleting? { HolderIsLive(s, i, ttl, hold); }
    case Expire(i) =>
      if At(s, i).Extending? { HolderIsLive(s, i, ttl, hold); }
    case ReadToRelease(i) =>
      if At(s, i).Leaving? { assert Owned(s, At(s, i).task); }
    case _ =>
  }

  lemma StepKeepsBacked<T(!new), I(!new)>(s: State<T, I>, e: Step<T, I>, ttl: nat, hold: nat)
    requires Inv(s, ttl) && Prompt(s, hold) && hold < ttl && Enabled(s, e)
    ensures AllBacked(Next(s, e, ttl), ttl)
  {
    HarmlessFromInv(s, e, ttl, hold);
    var n := Next(s, e, ttl);
    forall j ensures Backed(n, j, ttl) {
      assert Backed(s, j, ttl);
      if Holding(At(s, j)) { HolderIsLive(s, j, ttl, hold); }
    }
  }

  lemma StepKeepsOwned<T(!new), I(!new)>(s: State<T, I>, e: Step<T, I>, ttl: nat, hold: nat)
    requires Inv(s, ttl) && Prompt(s, hold) && hold < ttl && Enabled(s, e)
    ensures AllOwned(Next(s, e, ttl))
  {
    HarmlessFromInv(s, e, ttl, hold);
    var n := Next(s, e, ttl);
    forall t ensures Owned(n, t) {
      assert Owned(s, t);
      match e
      case Start(i, u) => assert Owned(s, u);
      case ReadToRelease(i) =>
        if At(s, i).Working? { HolderIsLive(s, i, ttl, hold); }
      case _ =>
    }
  }

  lemma {:induction false} RunKeepsInv<T(!new), I(!new)>(s: State<T, I>, run: seq<Step<T, I>>, ttl: nat, hold: nat)
    requires Timely(s, run, ttl, hold) && hold < ttl && Inv(s, ttl)
    ensures Inv(After(s, run, ttl, hold), ttl) && Prompt(After(s, run, ttl, hold), hold)
    decreases run
  {
    if run != [] {
      StepKeepsBacked(s, run[0], ttl, hold);
      StepKeepsOwned(s, run[0], ttl, hold);
      RunKeepsInv(Next(s, run[0], ttl), run[1..], ttl, hold);
    }
  }

  // ---- the promises of the lock, and exactly when they hold ----

  ghost predicate AlwaysExclusive<T(!new), I(!new)>(ttl: nat, hold: nat) {
    forall run: seq<Step<T, I>> | Timely(Initial(), run, ttl, hold) ::
      Exclusive(After(Initial(), run, ttl, hold))
  }

  ghost predicate AlwaysHarmless<T(!new), I(!new)>(ttl: nat, hold: nat) {
    forall run: seq<Step<T, I>>, e: Step<T, I> | Timely(Initial(), run, ttl, hold) ::
      Harmless(After(Initial(), run, ttl, hold), e)
  }

  lemma InTimeIsSafe<T(!new), I(!new)>(ttl: nat, hold: nat)
    requires hold < ttl
    ensures AlwaysExclusive<T, I>(ttl, hold)
    ensures AlwaysHarmless<T, I>(ttl, hold)
  {
    forall run: seq<Step<T, I>> | Timely(Initial(), run, ttl, hold)
      ensures Exclusive(After(Initial(), run, ttl, hold))
    {
      RunKeepsInv(Initial(), run, ttl, hold);
      ExclusiveFromInv(After(Initial(), run, ttl, hold), ttl);
    }
    forall run: seq<Step<T, I>>, e: Step<T, I> | Timely(Initial(), run, ttl, hold)
      ensures Harmless(After(Initial(), run, ttl, hold), e)
    {
      RunKeepsInv(Initial(), run, ttl, hold);
      HarmlessFromInv(After(Initial(), run, ttl, hold), e, ttl, hold);
    }
  }

  lemma {:induction false} AfterOne<T(!new), I(!new)>(s: State<T, I>, e: Step<T, I>, rest: seq<Step<T, I>>, ttl: nat, hold: nat)
    requires Prompt(s, hold) && Enabled(s, e) && Timely(Next(s, e, ttl), rest, ttl, hold)
    ensures Timely(s, [e] + rest, ttl, hold)
    ensures After(s, [e] + rest, ttl, hold) == After(Next(s, e, ttl), rest, ttl, hold)
  {
    assert ([e] + rest)[0] == e && ([e] + rest)[1..] == rest;
  }

  /** Both instances have been let in once the first outstays its key. */
  function Intrusion<T, I>(a: I, b: I, t: T, ttl: nat): State<T, I> {
    State(Store(ttl, map[t := Entry(b, ttl + ttl)]), map[a := Working(t, 0), b := Working(t, ttl)])
  }

  lemma LateHolderIsJoined<T(!new), I(!new)>(a: I, b: I, t: T, ttl: nat, hold: nat)
    requires a != b && hold >= ttl
    ensures !AlwaysExclusive<T, I>(ttl, hold)
  {
    var s0 := Initial<T, I>();
    var s1 := Next(s0, Start(a, t), ttl);
    var s2 := Next(s1, Tick(ttl), ttl);
    var s3 := Next(s2, Start(b, t), ttl);
    assert s3 == Intrusion(a, b, t, ttl);
    assert Timely(s3, [], ttl, hold);
    AfterOne(s2, Start(b, t), [], ttl, hold);
    AfterOne(s1, Tick(ttl), [Start(b, t)] + [], ttl, hold);
    AfterOne(s0, Start(a, t), [Tick(ttl)] + ([Start(b, t)] + []), ttl, hold);
    assert Overlap(s3.places[a], s3.places[b]);
    assert !Exclusive(s3);
  }

  lemma LateDeleteFreesAnother<T(!new), I(!new)>(a: I, b: I, t: T, ttl: nat, hold: nat)
    requires a != b && hold >= ttl && ttl > 0
    ensures !AlwaysHarmless<T, I>(ttl, hold)
  {
    var s0 := Initial<T, I>();
    var s1 := Next(s0, Start(a, t), ttl);
    var s2 := Next(s1, ReadToRelease(a), ttl);
    var s3 := Next(s2, Tick(ttl), ttl);
    var s4 := Next(s3, Start(b, t), ttl);
    assert s4.store == Store(ttl, map[t := Entry(b, ttl + ttl)]);
    assert At(s4, a) == Deleting(t, 0);
    assert Timely(s4, [], ttl, hold);
    AfterOne(s3, Start(b, t), [], ttl, hold);
    AfterOne(s2, Tick(ttl), [Start(b, t)] + [], ttl, hold);
    AfterOne(s1, ReadToRelease(a), [Tick(ttl)] + ([Start(b, t)] + []), ttl, hold);
    AfterOne(s0, Start(a, t), [ReadToRelease(a)] + ([Tick(ttl)] + ([Start(b, t)] + [])), ttl, hold);
    assert !Harmless(s4, Delete(a));
  }

  /** With at least two instances, the lock keeps its promises in every
      interleaving if and only if the holders are done before the key expires. */
  lemma SafeExactlyInTime<T(!new), I(!new)>(a: I, b: I, t: T, ttl: nat, hold: nat)
    requires a != b && ttl > 0
    ensures AlwaysExclusive<T, I>(ttl, hold) <==> hold < ttl
    ensures AlwaysHarmless<T, I>(ttl, hold) <==> hold < ttl
  {
    if hold < ttl {
      InTimeIsSafe<T, I>(ttl, hold);
    } else {
      LateHolderIsJoined(a, b, t, ttl, hold);
      LateDeleteFreesAnother(a, b, t, ttl, hold);
    }
  }

  /** In time, extending gives the holder a full time to live from now, and
      releasing frees the task and lets the next acquirer in. */
  lemma HolderExtendsAndReleases<T(!new), I(!new)>(run: seq<Step<T, I>>, ttl: nat, hold: nat, i: I)
    requires hold < ttl && Timely(Initial(), run, ttl, hold)
    requires At(After(Initial(), run, ttl, hold), i).Working?
    ensures var s := After(Initial(), run, ttl, hold);
            Enabled(Next(s, ReadToExtend(i), ttl), Expire(i)) && Enabled(Next(s, ReadToRelease(i), ttl), Delete(i))
    ensures var s := After(Initial(), run, ttl, hold);
            var t, extended := At(s, i).task, Next(Next(s, ReadToExtend(i), ttl), Expire(i), ttl);
            t in extended.store.entries && extended.store.entries[t] == Entry(i, s.store.now + ttl) && At(extended, i) == Working(t, s.store.now)
    ensures var s := After(Initial(), run, ttl, hold);
            var t, released := At(s, i).task, Next(Next(s, ReadToRelease(i), ttl), Delete(i), ttl);
            HolderOf(released.store, t).None? && At(released, i).Idle? && released.store.entries == s.store.entries - {t}
  {
    RunKeepsInv(Initial(), run, ttl, hold);
    HolderIsLive(After(Initial(), run, ttl, hold), i, ttl, hold);
  }

  // ---- orphaned locks ----

  lemma {:induction false} RunKeepsBounded<T(!new), I(!new)>(s: State<T, I>, run: seq<Step<T, I>>, ttl: nat, hold: nat)
    requires Timely(s, run, ttl, hold) && Bounded(s, ttl)
    ensures Bounded(After(s, run, ttl, hold), ttl)
    decreases run
  {
    if run != [] {
      assert Bounded(Next(s, run[0], ttl), ttl);
      RunKeepsBounded(Next(s, run[0], ttl), run[1..], ttl, hold);
    }
  }

  /** Whatever happened before, crashes of holders included, a key nobody
      refreshes for `ttl` gives way to the next acquirer. */
  lemma OrphanGivesWay<T(!new), I(!new)>(run: seq<Step<T, I>>, ttl: nat, hold: nat, i: I, t: T)
    requires ttl > 0
    requires Timely(Initial(), run, ttl, hold)
    requires At(After(Initial(), run, ttl, hold), i).Idle?
    ensures var s := Next(After(Initial(), run, ttl, hold), Tick(ttl), ttl);
            HolderOf(Next(s, Start(i, t), ttl).store, t) == Some(i) &&
            At(Next(s, Start(i, t), ttl), i) == Working(t, s.store.now)
  {
    RunKeepsBounded(Initial(), run, ttl, hold);
  }
}

/** The bookkeeping of one mandate's queue, in terms of registration times only: which batches wait and
    which runs, before and after a step, and the log an observer of these two sets keeps. */
module QueueLog {

  datatype View = View(waiting: set<nat>, running: set<nat>, now: nat)

  datatype Kind = Registered | Stopped | Updated | Elsewhere

  datatype Log = Log(registered: seq<nat>, started: seq<nat>, finished: set<nat>, stopped: set<nat>, replaced: set<nat>)

  const NoLog := Log([], [], {}, {}, {})

  ghost function Pick(s: set<nat>): nat
    requires s != {}
  {
    var x :| x in s;
    x
  }

  /** Who entered `on_process`, who left it, and who left `pending` without entering it. */
  ghost function Observe(log: Log, v: View, kind: Kind, v': View): Log {
    var entered := v'.running - v.running;
    var dropped := v.waiting - v'.waiting - v'.running;
    Log(
      if kind == Registered then log.registered + [v.now] else log.registered,
      if entered == {} then log.started else log.started + [Pick(entered)],
      log.finished + (v.running - v'.running),
      if kind == Stopped then log.stopped + dropped else log.stopped,
      if kind == Stopped then log.replaced else log.replaced + dropped)
  }

  ghost predicate IsLeast(t: nat, s: set<nat>) { t in s && forall x :: x in s ==> t <= x }

  /** Nothing moves except: a registration joins the queue or starts at once; a stop may take someone
      out of the queue; an update may finish the running batch, and then the oldest waiting one starts. */
  ghost predicate Moves(v: View, kind: Kind, v': View) {
    && v'.now == v.now + 1
    && (|| (kind != Registered && v'.waiting == v.waiting && v'.running == v.running)
        || (kind == Registered && v.running != {} && v'.running == v.running && v.now in v'.waiting && v'.waiting <= v.waiting + {v.now})
        || (kind == Registered && v.running == {} && v.waiting == {} && v'.waiting == {} && v'.running == {v.now})
        || (kind == Stopped && v'.running == v.running && v'.waiting <= v.waiting)
        || (kind == Updated && v.running != {} && v.waiting == {} && v'.waiting == {} && v'.running == {})
        || (kind == Updated && v.running != {} && HandsOver(v, v')))
  }

  ghost predicate HandsOver(v: View, v': View) {
    exists t :: IsLeast(t, v.waiting) && v'.waiting == v.waiting - {t} && v'.running == {t}
  }

  ghost predicate Ascending(s: seq<nat>) { forall i, j :: 0 <= i < j < |s| ==> s[i] < s[j] }

  ghost function Elements(s: seq<nat>): set<nat> { set x | x in s }

  /** Every registered batch is in exactly one place: waiting, running, finished, stopped while waiting,
      or replaced while waiting by a registration under its own key. */
  ghost predicate Conserved(v: View, log: Log) {
    && Elements(log.registered) == v.waiting + v.running + log.finished + log.stopped + log.replaced
    && v.waiting !! v.running !! log.finished !! log.stopped !! log.replaced
  }

  ghost predicate InOrder(v: View, log: Log) {
    && Ascending(log.registered) && (forall t :: t in Elements(log.registered) ==> t < v.now)
    && Ascending(log.started) && Elements(log.started) == v.running + log.finished
    && (forall a, b :: a in Elements(log.started) && b in v.waiting ==> a < b)
  }

  ghost predicate LogInv(v: View, log: Log) { Conserved(v, log) && InOrder(v, log) }

  lemma AppendLater(s: seq<nat>, t: nat)
    requires Ascending(s) && forall x :: x in Elements(s) ==> x < t
    ensures Ascending(s + [t]) && Elements(s + [t]) == Elements(s) + {t}
  {
    forall i | 0 <= i < |s| ensures s[i] < t {
      assert s[i] in Elements(s);
    }
  }

  lemma JoinQueue(v: View, v': View, log: Log)
    requires LogInv(v, log) && v'.now == v.now + 1
    requires v'.running == v.running && v.now in v'.waiting && v'.waiting <= v.waiting + {v.now}
    ensures LogInv(v', Observe(log, v, Registered, v'))
  {
    AppendLater(log.registered, v.now);
    var dropped := v.waiting - v'.waiting - v'.running;
    assert v'.waiting == v.waiting - dropped + {v.now};
  }

  lemma StartAtOnce(v: View, v': View, log: Log)
    requires LogInv(v, log) && v'.now == v.now + 1
    requires v.running == {} && v.waiting == {} && v'.waiting == {} && v'.running == {v.now}
    ensures LogInv(v', Observe(log, v, Registered, v'))
  {
    AppendLater(log.registered, v.now);
    AppendLater(log.started, v.now);
    assert v'.running - v.running == {v.now};
  }

  lemma LeaveQueue(v: View, v': View, log: Log)
    requires LogInv(v, log) && v'.now == v.now + 1 && v'.running == v.running && v'.waiting <= v.waiting
    ensures LogInv(v', Observe(log, v, Stopped, v'))
  {
    var dropped := v.waiting - v'.waiting - v'.running;
    assert v.waiting == v'.waiting + dropped;
  }

  lemma HandOver(v: View, v': View, log: Log, t: nat)
    requires LogInv(v, log) && v'.now == v.now + 1
    requires IsLeast(t, v.waiting) && v'.waiting == v.waiting - {t} && v'.running == {t}
    ensures LogInv(v', Observe(log, v, Updated, v'))
  {
    assert v'.running - v.running == {t} && v.running - v'.running == v.running;
    assert v.waiting - v'.waiting - v'.running == {};
    AppendLater(log.started, t);
    assert t in Elements(log.registered);
  }

  lemma ObserveKeepsLog(v: View, kind: Kind, v': View, log: Log)
    requires LogInv(v, log) && Moves(v, kind, v')
    ensures LogInv(v', Observe(log, v, kind, v'))
  {
    if kind != Registered && v'.waiting == v.waiting && v'.running == v.running {
      assert Observe(log, v, kind, v') == log;
    } else if kind == Registered && v.running != {} {
      JoinQueue(v, v', log);
    } else if kind == Registered {
      StartAtOnce(v, v', log);
    } else if kind == Stopped {
      LeaveQueue(v, v', log);
    } else if v.waiting == {} {
      assert Observe(log, v, kind, v') == log.(finished := log.finished + v.running);
    } else {
      var t :| IsLeast(t, v.waiting) && v'.waiting == v.waiting - {t} && v'.running == {t};
      HandOver(v, v', log, t);
    }
  }

  // ----- First come, first served

  ghost function Without(s: seq<nat>, out: set<nat>): seq<nat> {
    if s == [] then [] else Without(s[..|s| - 1], out) + (if s[|s| - 1] in out then [] else [s[|s| - 1]])
  }

  lemma {:induction false} WithoutIsFilter(s: seq<nat>, out: set<nat>)
    requires Ascending(s)
    ensures Ascending(Without(s, out)) && Elements(Without(s, out)) == Elements(s) - out
  {
    if s != [] {
      var front, t := s[..|s| - 1], s[|s| - 1];
      WithoutIsFilter(front, out);
      assert s == front + [t];
      assert Elements(s) == Elements(front) + {t};
      assert t !in Elements(front);
      if t !in out {
        AppendLater(Without(front, out), t);
      } else {
        assert Without(s, out) == Without(front, out);
      }
    }
  }

  /** A set of times, oldest first. */
  ghost predicate IsQueueOf(q: seq<nat>, s: set<nat>) { Ascending(q) && Elements(q) == s }

  lemma LastIsGreatest(s: seq<nat>)
    requires Ascending(s) && s != []
    ensures s[|s| - 1] in Elements(s) && forall x :: x in Elements(s) ==> x <= s[|s| - 1]
    ensures Elements(s[..|s| - 1]) == Elements(s) - {s[|s| - 1]}
  {
    assert s == s[..|s| - 1] + [s[|s| - 1]];
  }

  lemma EmptyIff(s: seq<nat>)
    ensures Elements(s) == {} <==> s == []
  {
    if s != [] {
      assert s[0] in Elements(s);
    }
  }

  lemma {:induction false} AscendingIsUnique(a: seq<nat>, b: seq<nat>)
    requires Ascending(a) && Ascending(b) && Elements(a) == Elements(b)
    ensures a == b
  {
    EmptyIff(a);
    EmptyIff(b);
    if a != [] {
      LastIsGreatest(a);
      assert b != [];
      LastIsGreatest(b);
      AscendingIsUnique(a[..|a| - 1], b[..|b| - 1]);
      assert a == a[..|a| - 1] + [a[|a| - 1]] && b == b[..|b| - 1] + [b[|b| - 1]];
    }
  }

  lemma QueueAfter(a: seq<nat>, b: seq<nat>)
    requires Ascending(a) && Ascending(b) && forall x, y :: x in Elements(a) && y in Elements(b) ==> x < y
    ensures Ascending(a + b) && Elements(a + b) == Elements(a) + Elements(b)
  {
    var s := a + b;
    forall i, j | 0 <= i < j < |s| ensures s[i] < s[j] {
      if i < |a| <= j {
        assert s[i] in Elements(a) && s[j] in Elements(b);
      }
    }
  }

  /** Registrations in order, without those stopped or replaced while waiting, are those that entered
      `on_process` in the order they did, followed by those waiting, oldest first. */
  lemma LogIsFifo(v: View, log: Log, queue: seq<nat>)
    requires LogInv(v, log) && IsQueueOf(queue, v.waiting)
    ensures Without(log.registered, log.stopped + log.replaced) == log.started + queue
  {
    var a, b := Without(log.registered, log.stopped + log.replaced), log.started + queue;
    WithoutIsFilter(log.registered, log.stopped + log.replaced);
    QueueAfter(log.started, queue);
    AscendingIsUnique(a, b);
  }

  // ----- The two laws without the replaced batches

  /** Every registered batch is waiting, running, finished or stopped while waiting, and only one of these. */
  ghost predicate ConservedPlainly(v: View, log: Log) {
    && Elements(log.registered) == v.waiting + v.running + log.finished + log.stopped
    && v.waiting !! v.running !! log.finished !! log.stopped
  }

  /** Registrations in order without the stopped ones are the starts and then the waiting ones. */
  ghost predicate FifoPlainly(log: Log, queue: seq<nat>) {
    Without(log.registered, log.stopped) == log.started + queue
  }

  lemma PlainExactly(v: View, log: Log)
    requires LogInv(v, log)
    ensures ConservedPlainly(v, log) <==> log.replaced == {}
    ensures forall queue :: IsQueueOf(queue, v.waiting) ==> (FifoPlainly(log, queue) <==> log.replaced == {})
  {
    forall t | t in log.replaced ensures t in Elements(log.registered) && t !in v.waiting + v.running + log.finished + log.stopped {
    }
    forall queue | IsQueueOf(queue, v.waiting) ensures FifoPlainly(log, queue) <==> log.replaced == {} {
      FifoExactly(v, log, queue);
    }
  }

  lemma FifoExactly(v: View, log: Log, queue: seq<nat>)
    requires LogInv(v, log) && IsQueueOf(queue, v.waiting)
    ensures FifoPlainly(log, queue) <==> log.replaced == {}
  {
    WithoutIsFilter(log.registered, log.stopped);
    QueueAfter(log.started, queue);
    assert Elements(log.started + queue) == v.running + log.finished + v.waiting;
    if log.replaced == {} {
      assert log.stopped + log.replaced == log.stopped;
      LogIsFifo(v, log, queue);
    } else {
      var t :| t in log.replaced;
      assert t in Elements(Without(log.registered, log.stopped));
      assert t !in Elements(log.started + queue);
    }
  }
}

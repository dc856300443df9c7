/** What every run of the thread library guarantees its threads. */
module ThreadTheorems {
  import opened Common
  import opened ThreadModel
  import opened ThreadRuns

  // ---------------------------------------------------------------- who is blocked, and where

  /** A place in a pending queue. */
  datatype Place = OnMutex(m: nat, i: nat) | OnBarrier(b: nat, i: nat)

  predicate QueuedAt(s: State, t: Tid, p: Place) {
    match p
    case OnMutex(m, i) => m < |s.mutexes| && i < |s.mutexes[m].waiters| && s.mutexes[m].waiters[i] == t
    case OnBarrier(b, i) => b < |s.barriers| && i < |Held(s.barriers[b])| && Held(s.barriers[b])[i] == t
  }

  lemma {:induction false} FindMutexWaiter(ms: seq<Mutex>, t: Tid) returns (m: nat, i: nat)
    requires t in MutexWaiters(ms)
    ensures m < |ms| && i < |ms[m].waiters| && ms[m].waiters[i] == t
  {
    if t in ms[0].waiters {
      m := 0;
      i :| 0 <= i < |ms[0].waiters| && ms[0].waiters[i] == t;
    } else {
      m, i := FindMutexWaiter(ms[1..], t);
      m := m + 1;
    }
  }

  lemma {:induction false} FindBarrierWaiter(bs: seq<Barrier>, t: Tid) returns (b: nat, i: nat)
    requires t in BarrierWaiters(bs)
    ensures b < |bs| && i < |Held(bs[b])| && Held(bs[b])[i] == t
  {
    if t in Held(bs[0]) {
      b := 0;
      i :| 0 <= i < |Held(bs[0])| && Held(bs[0])[i] == t;
    } else {
      b, i := FindBarrierWaiter(bs[1..], t);
      b := b + 1;
    }
  }

  /** Two occurrences in one queue count twice. */
  lemma TwiceInQueue(ws: seq<Tid>, t: Tid, i: nat, j: nat)
    requires i < j < |ws| && ws[i] == t == ws[j]
    ensures multiset(ws)[t] >= 2
  {
    assert ws == ws[..j] + [t] + ws[j + 1..];
    assert t in multiset(ws[..j]) by { assert ws[..j][i] == t; }
  }

  lemma TwoMutexes(ms: seq<Mutex>, t: Tid, m: nat, n: nat)
    requires m < n < |ms| && t in ms[m].waiters && t in ms[n].waiters
    ensures MutexWaiters(ms)[t] >= 2
  {
    var mu := ms[m].(waiters := []);
    MutexWaitersUpdate(ms, m, mu);
    MutexWaitersUpdate(ms[m := mu], n, ms[n]);
    assert t in multiset(ms[m].waiters) && t in multiset(ms[n].waiters);
  }

  lemma TwoBarriers(bs: seq<Barrier>, t: Tid, b: nat, d: nat)
    requires b < d < |bs| && t in Held(bs[b]) && t in Held(bs[d])
    ensures BarrierWaiters(bs)[t] >= 2
  {
    var ba := bs[b].(waiters := []);
    BarrierWaitersUpdate(bs, b, ba);
    BarrierWaitersUpdate(bs[b := ba], d, bs[d]);
    assert t in multiset(Held(bs[b])) && t in multiset(Held(bs[d]));
  }

  lemma QueuedIsWaiting(s: State, t: Tid, p: Place)
    requires QueuedAt(s, t, p)
    ensures if p.OnMutex? then t in MutexWaiters(s.mutexes) else t in BarrierWaiters(s.barriers)
  {
    match p
    case OnMutex(m, i) =>
      MutexWaitersUpdate(s.mutexes, m, s.mutexes[m]);
      assert t in multiset(s.mutexes[m].waiters);
    case OnBarrier(b, i) =>
      BarrierWaitersUpdate(s.barriers, b, s.barriers[b]);
      assert t in multiset(Held(s.barriers[b]));
  }

  lemma QueuedTwice(s: State, t: Tid, p: Place, q: Place)
    requires QueuedAt(s, t, p) && QueuedAt(s, t, q) && p != q
    ensures Waiting(s)[t] >= 2
  {
    QueuedIsWaiting(s, t, p);
    QueuedIsWaiting(s, t, q);
    match (p, q)
    case (OnMutex(m, i), OnMutex(n, j)) =>
      if m != n {
        TwoMutexes(s.mutexes, t, if m < n then m else n, if m < n then n else m);
      } else {
        TwiceInQueue(s.mutexes[m].waiters, t, if i < j then i else j, if i < j then j else i);
        MutexWaitersUpdate(s.mutexes, m, s.mutexes[m]);
      }
    case (OnBarrier(b, i), OnBarrier(d, j)) =>
      if b != d {
        TwoBarriers(s.barriers, t, if b < d then b else d, if b < d then d else b);
      } else {
        TwiceInQueue(Held(s.barriers[b]), t, if i < j then i else j, if i < j then j else i);
        BarrierWaitersUpdate(s.barriers, b, s.barriers[b]);
      }
    case _ =>
  }

  /** In every reachable state a thread is blocked exactly when it stands in a pending mutex or
      barrier queue, and then in one place only: no blocked thread is lost. */
  lemma BlockedIffQueuedOnce(c: Config, t: Tid)
    requires Inv(c)
    ensures c.s.status[t] == Blocked <==> exists p :: QueuedAt(c.s, t, p)
    ensures forall p, q :: QueuedAt(c.s, t, p) && QueuedAt(c.s, t, q) ==> p == q
  {
    WaitingIsBlocked(c.s, t);
    if c.s.status[t] == Blocked {
      if t in MutexWaiters(c.s.mutexes) {
        var m, i := FindMutexWaiter(c.s.mutexes, t);
        assert QueuedAt(c.s, t, OnMutex(m, i));
      } else {
        var b, i := FindBarrierWaiter(c.s.barriers, t);
        assert QueuedAt(c.s, t, OnBarrier(b, i));
      }
    }
    forall p | QueuedAt(c.s, t, p) ensures c.s.status[t] == Blocked {
      QueuedIsWaiting(c.s, t, p);
    }
    forall p, q | QueuedAt(c.s, t, p) && QueuedAt(c.s, t, q) ensures p == q {
      if p != q {
        QueuedTwice(c.s, t, p, q);
      }
    }
  }

  /** The live configurations a program can reach. */
  ghost predicate Reached(c: Config) {
    c.s.mode == Live && LeadsTo(Start(), c)
  }

  ghost predicate LeadsTo(c0: Config, c: Config) {
    exists es :: IsRun(c0, es) && After(c0, es) == c
  }

  lemma ReachedKeepsInv(c: Config)
    requires Reached(c)
    ensures Inv(c)
  {
    var es :| IsRun(Start(), es) && After(Start(), es) == c;
    StartKeepsInv();
    RunKeepsInv(Start(), es);
  }

  /** No blocked thread is lost, and only one thread runs, in every reachable state. */
  lemma ReachedThreads(c: Config, t: Tid)
    requires Reached(c)
    ensures Inv(c)
    ensures c.s.status[t] == Blocked <==> exists p :: QueuedAt(c.s, t, p)
    ensures forall p, q :: QueuedAt(c.s, t, p) && QueuedAt(c.s, t, q) ==> p == q
    ensures c.s.status[t] == Running ==> t == c.s.current == c.s.top
    ensures c.h.scheduled && c.s.status[c.s.current] != Blocked ==> c.s.status[c.s.current] == Running
  {
    ReachedKeepsInv(c);
    BlockedIffQueuedOnce(c, t);
  }

  // ---------------------------------------------------------------- the scheduler

  /** Yielding keeps the same slots runnable, so one turn finds one exactly when there is one. */
  lemma TurnFindsRunnable(s: State)
    requires Sized(s)
    ensures CanSchedule(s) <==>
      exists j :: 1 <= j <= s.numOfThreads + 1 && Runnable(Yielded(s)[Ring(s.top, s.numOfThreads, j)])
  {
    if j :| 1 <= j <= s.numOfThreads + 1 && Runnable(Yielded(s)[Ring(s.top, s.numOfThreads, j)]) {
      assert Runnable(s.status[Ring(s.top, s.numOfThreads, j)]);
    }
    if CanSchedule(s) {
      var t :| 0 <= t <= s.numOfThreads && Runnable(s.status[t]);
      assert Runnable(Yielded(s)[Ring(s.top, s.numOfThreads, Gap(s.top, s.numOfThreads, t))]);
    }
  }

  lemma PickedIsNearest(s: State, t: Tid)
    requires Sized(s) && CanSchedule(s) && t <= s.numOfThreads && Runnable(s.status[t])
    ensures Gap(s.top, s.numOfThreads, Picked(s)) <= Gap(s.top, s.numOfThreads, t)
  {
    assert Runnable(Yielded(s)[Ring(s.top, s.numOfThreads, Gap(s.top, s.numOfThreads, t))]);
  }

  /** `schedule` takes the first runnable slot after `top`, and `top` itself only when no other
      slot is runnable; its search ends within one turn exactly when some slot is runnable. */
  lemma SchedulerChoice(s: State)
    requires Sized(s)
    ensures CanSchedule(s) <==> exists j ::
        1 <= j <= s.numOfThreads + 1 && Runnable(Yielded(s)[Ring(s.top, s.numOfThreads, j)])
    ensures CanSchedule(s) ==>
      && DoSchedule(s).current == DoSchedule(s).top == Picked(s) && DoSchedule(s).status[Picked(s)] == Running
      && (forall t | 0 <= t <= s.numOfThreads && Runnable(s.status[t]) ::
            Gap(s.top, s.numOfThreads, Picked(s)) <= Gap(s.top, s.numOfThreads, t))
      && (forall t | 0 <= t < MAX_THREADS && t != Picked(s) && t != s.top :: DoSchedule(s).status[t] == s.status[t])
      && (Picked(s) != s.top ==> DoSchedule(s).status[s.top] == if Runnable(s.status[s.top]) then Ready
            else s.status[s.top])
  {
    hide Picked, Gap, Ring, CanSchedule;
    TurnFindsRunnable(s);
    if CanSchedule(s) {
      forall t: Tid | t <= s.numOfThreads && Runnable(s.status[t])
        ensures Gap(s.top, s.numOfThreads, Picked(s)) <= Gap(s.top, s.numOfThreads, t)
      {
        PickedIsNearest(s, t);
      }
    }
  }

  /** A ready thread other than the current one. */
  predicate WaitsTurn(c: Config, t: Tid)
    requires Shaped(c)
  {
    t <= c.s.numOfThreads && t != c.s.current && c.s.status[t] == Ready
  }

  /** The step calls `schedule`. */
  predicate Schedules(c: Config, e: Event)
    requires Shaped(c)
  {
    e.Schedule? || (e.Exit? && MarkExit(c.s).exited != c.s.numOfThreads)
  }

  ghost function ScheduleCalls(c: Config, es: seq<Event>): nat
    requires IsRun(c, es)
    decreases |es|
  {
    if es == [] then 0
    else (if Schedules(c, es[0]) then 1 else 0) + ScheduleCalls(Step(c, es[0]), es[1..])
  }

  /** At some point of the run the thread is running. */
  ghost predicate GetsTurn(c: Config, es: seq<Event>, t: Tid)
    requires IsRun(c, es)
    decreases |es|
  {
    || (Shaped(c) && c.s.status[t] == Running)
    || (es != [] && GetsTurn(Step(c, es[0]), es[1..], t))
  }

  /** The thread runs, or waits on and is nearer to its turn by at least `nearer` places. */
  ghost predicate Advances(s: State, s': State, t: Tid, nearer: nat)
    requires Sized(s) && t <= s.numOfThreads
  {
    Sized(s') && s'.numOfThreads == s.numOfThreads &&
    (s'.status[t] == Running || (s'.mode == Live && t != s'.current && s'.status[t] == Ready
      && Gap(s'.top, s.numOfThreads, t) <= Gap(s.top, s.numOfThreads, t) - nearer))
  }

  lemma ExitAdvances(s: State, scheduled: bool, t: Tid)
    requires Sized(s) && RunningIsCurrent(s, scheduled) && s.mode == Live && s.exited == |ExitedWorkers(s)|
    requires t <= s.numOfThreads && t != s.current && s.status[t] == Ready && s.status[s.current] != Blocked
    requires MarkExit(s).exited != s.numOfThreads ==> CanSchedule(MarkExit(s))
    ensures Advances(s, DoExit(s), t, if MarkExit(s).exited != s.numOfThreads then 1 else 0)
  {
    var x := MarkExit(s);
    if x.exited != x.numOfThreads {
      PickedOrNearer(x, t);
    } else {
      ExitCounts(s, scheduled);
      AllWorkersExited(x);
    }
  }

  lemma UnlockAdvances(s: State, m: nat, t: Tid)
    requires Sized(s) && QueuesMatch(s) && s.mode == Live && m < |s.mutexes|
    requires t <= s.numOfThreads && t != s.current && s.status[t] == Ready
    ensures Advances(s, DoUnlock(s, m), t, 0)
  {
    hide QueuesMatch;
    if s.mutexes[m].waiters != [] {
      MutexWaiterIsBlocked(s, m, s.mutexes[m].waiters[0]);
    }
  }

  /** One step leaves a waiting thread ready, or lets it run; a call of `schedule` that does not
      pick it brings its turn nearer. */
  lemma TurnComesNearer(c: Config, e: Event, t: Tid)
    requires Inv(c) && Enabled(c, e) && !e.Create? && WaitsTurn(c, t) && Shaped(Step(c, e))
    ensures Step(c, e).s.status[t] == Running || (Step(c, e).s.mode == Live && WaitsTurn(Step(c, e), t)
      && Gap(Step(c, e).s.top, c.s.numOfThreads, t) <= Gap(c.s.top, c.s.numOfThreads, t) - if Schedules(c, e) then 1
            else 0)
  {
    hide QueuesMatch, MutexKept, BarrierKept, ExitedWorkers, Gap, DoSchedule, DoUnlock, DoExit;
    match e
    case Schedule => PickedOrNearer(c.s, t);
    case Exit => ExitAdvances(c.s, c.h.scheduled, t);
    case Unlock(m) => UnlockAdvances(c.s, m, t);
    case _ =>
  }

  lemma PickedOrNearer(s: State, t: Tid)
    requires Sized(s) && t <= s.numOfThreads && t != s.top && s.status[t] == Ready && CanSchedule(s)
    ensures DoSchedule(s).numOfThreads == s.numOfThreads && DoSchedule(s).mode == s.mode
    ensures if DoSchedule(s).current == t then DoSchedule(s).status[t] == Running
            else && DoSchedule(s).status[t] == Ready
                 && Gap(DoSchedule(s).top, s.numOfThreads, t) < Gap(s.top, s.numOfThreads, t)
  {
    SchedulerChoice(s);
    assert Runnable(s.status[t]);
  }

  /** The count of exited workers reaches the number of threads exactly when all have exited. */
  lemma AllWorkersExited(s: State)
    requires Sized(s)
    ensures |ExitedWorkers(s)| == s.numOfThreads <==> forall t | 1 <= t <= s.numOfThreads :: s.status[t] == Exited
  {
    var all, exited := UpTo(s.numOfThreads), ExitedWorkers(s);
    assert exited <= all;
    if |exited| == |all| {
      SameSize(exited, all);
      forall t | 1 <= t <= s.numOfThreads ensures s.status[t] == Exited {
        assert t in all;
      }
    } else {
      assert exited != all;
      assert exists t: Tid :: t in all && t !in exited;
    }
  }

  ghost function UpTo(n: nat): (all: set<Tid>)
    requires n < MAX_THREADS
    ensures |all| == n && forall t: Tid :: t in all <==> 1 <= t <= n
  {
    if n == 0 then {} else UpTo(n - 1) + {n}
  }

  lemma SameSize(a: set<Tid>, b: set<Tid>)
    requires a <= b && |a| == |b|
    ensures a == b
  {
    assert b == a + (b - a);
  }

  lemma InvPlacesTop(c: Config)
    requires Inv(c)
    ensures c.s.top == c.s.current
  {}

  lemma NotAWholeTurn(c: Config, t: Tid)
    requires Inv(c) && WaitsTurn(c, t)
    ensures Gap(c.s.top, c.s.numOfThreads, t) <= c.s.numOfThreads
  {}

  /** One step on: the thread runs, or waits on, no further from its turn. */
  lemma WaitsOn(c: Config, e: Event, t: Tid)
    requires Inv(c) && Enabled(c, e) && !e.Create? && WaitsTurn(c, t)
    ensures Shaped(Step(c, e))
    ensures var c' := Step(c, e);
            c'.s.status[t] == Running || (Inv(c') && WaitsTurn(c', t) && c'.s.numOfThreads == c.s.numOfThreads &&
              Gap(c'.s.top, c.s.numOfThreads, t) <= Gap(c.s.top, c.s.numOfThreads, t) - if Schedules(c, e) then 1
              else 0)
  {
    hide QueuesMatch, ExitedWorkers, MutexKept, BarrierKept, RunningIsCurrent, Gap, AtLarge, Inside, WaitsTurn,
        DoSchedule, DoExit, ReadyAll;
    StepKeepsShape(c, e);
    TurnComesNearer(c, e, t);
    SameNumber(c, e);
    StepKeepsInv(c, e);
  }

  lemma SameNumber(c: Config, e: Event)
    requires Shaped(c) && Enabled(c, e) && !e.Create?
    ensures Step(c, e).s.numOfThreads == c.s.numOfThreads
  {
    hide AtLarge, Inside, CanSchedule, Picked, Yielded, ReadyAll;
  }

  /** Round-robin fairness: with no creation in between, a thread waiting for its turn runs
      before the (g+1)-th further call of `schedule`, where g, its distance from `top`, is at
      most the number of threads; until then it stays ready. */
  lemma {:induction false} Fairness(c: Config, es: seq<Event>, t: Tid)
    requires Inv(c) && IsRun(c, es) && WaitsTurn(c, t)
    requires forall e | e in es :: !e.Create?
    ensures Gap(c.s.top, c.s.numOfThreads, t) <= c.s.numOfThreads
    ensures GetsTurn(c, es, t) || (Shaped(After(c, es)) && WaitsTurn(After(c, es), t))
    ensures ScheduleCalls(c, es) >= Gap(c.s.top, c.s.numOfThreads, t) ==> GetsTurn(c, es, t)
    decreases |es|
  {
    hide QueuesMatch, ExitedWorkers, MutexKept, BarrierKept, RunningIsCurrent, Step, Enabled, Gap, Schedules;
    NotAWholeTurn(c, t);
    if es != [] {
      WaitsOn(c, es[0], t);
      if Step(c, es[0]).s.status[t] != Running {
        Fairness(Step(c, es[0]), es[1..], t);
      } else {
        assert GetsTurn(Step(c, es[0]), es[1..], t);
      }
    }
  }

  /** A ready thread that is itself current, as main is when its first `schedule` is called, has its
      next turn at most one call later than the others: that call passes it once. */
  lemma FairnessToCurrent(c: Config, es: seq<Event>)
    requires Inv(c) && c.s.status[c.s.current] == Ready
    requires es != [] && es[0].Schedule? && IsRun(c, es) && forall e | e in es :: !e.Create?
    ensures ScheduleCalls(c, es) > c.s.numOfThreads ==> GetsTurn(c, es, c.s.current)
  {
    hide QueuesMatch, ExitedWorkers, MutexKept, BarrierKept, RunningIsCurrent;
    var t, c1 := c.s.current, Step(c, es[0]);
    InvPlacesTop(c);
    StepKeepsInv(c, es[0]);
    SchedulerChoice(c.s);
    if c1.s.current == t {
      assert GetsTurn(c1, es[1..], t);
    } else {
      Fairness(c1, es[1..], t);
    }
  }

  // ---------------------------------------------------------------- mutexes

  /** In every reachable state at most one thread has obtained a mutex and not released it, and
      the mutex has been handed over in exactly the order in which threads blocked on it: those
      still queued are the rest of that order. */
  lemma MutualExclusionAndFifo(c: Config, m: nat)
    requires Reached(c) && m < |c.s.mutexes|
    ensures Inv(c)
    ensures forall t, u | (t, m) in c.h.holding && (u, m) in c.h.holding :: t == u
    ensures c.h.blocked[m] == c.h.handed[m] + c.s.mutexes[m].waiters
    ensures c.s.mutexes[m].free ==> c.s.mutexes[m].waiters == [] && forall t :: (t, m) !in c.h.holding
  {
    ReachedKeepsInv(c);
    assert MutexKept(c, m);
  }

  /** The mutex is claimed and nobody holds it. */
  ghost predicate Orphaned(c: Config, m: nat) {
    m < |c.s.mutexes| && !c.s.mutexes[m].free && forall t :: (t, m) !in c.h.holding
  }

  /** An unlock leaves the mutex obtainable exactly when somebody was waiting for it: with an
      empty queue it stays claimed by nobody. */
  lemma UnlockOrphansIdleMutex(c: Config, m: nat)
    requires Inv(c) && Enabled(c, Unlock(m))
    ensures Orphaned(Step(c, Unlock(m)), m) <==> c.s.mutexes[m].waiters == []
  {
    assert MutexKept(c, m);
    var ws := c.s.mutexes[m].waiters;
    if ws != [] {
      assert (ws[0], m) in Step(c, Unlock(m)).h.holding;
    }
  }

  lemma OrphanStays(c: Config, e: Event, m: nat)
    requires Shaped(c) && Enabled(c, e) && Orphaned(c, m)
    ensures Orphaned(Step(c, e), m) && c.s.mutexes[m].waiters <= Step(c, e).s.mutexes[m].waiters
  {
    hide AtLarge, DoSchedule, DoArrive, DoReturn, DoCreate;
    match e
    case Schedule => ScheduleSparesMutexes(c.s);
    case Arrive(b) => BarriersSpareMutexes(c.s, b);
    case Return(b) => BarriersSpareMutexes(c.s, b);
    case Create => CreateSparesMutexes(c.s);
    case Exit => ExitSparesMutexes(c.s);
    case _ =>
  }

  lemma ScheduleSparesMutexes(s: State)
    requires Sized(s) && CanSchedule(s)
    ensures DoSchedule(s).mutexes == s.mutexes
  {}

  lemma BarriersSpareMutexes(s: State, b: nat)
    requires Sized(s) && b < |s.barriers|
    ensures DoArrive(s, b).mutexes == s.mutexes && DoReturn(s, b).0.mutexes == s.mutexes
  {}

  lemma CreateSparesMutexes(s: State)
    requires Sized(s) && s.numOfThreads + 1 < MAX_THREADS
    ensures DoCreate(s).mutexes == s.mutexes
  {}

  lemma ExitSparesMutexes(s: State)
    requires Sized(s) && (MarkExit(s).exited != s.numOfThreads ==> CanSchedule(MarkExit(s)))
    ensures DoExit(s).mutexes == s.mutexes
  {}

  /** From then on nobody obtains it again, and whoever queues for it stays queued. */
  lemma {:induction false} OrphanedForever(c: Config, es: seq<Event>, m: nat)
    requires Orphaned(c, m) && IsRun(c, es)
    ensures Orphaned(After(c, es), m)
    ensures c.s.mutexes[m].waiters <= After(c, es).s.mutexes[m].waiters
    decreases |es|
  {
    hide Step, Enabled;
    if es != [] {
      OrphanStays(c, es[0], m);
      OrphanedForever(Step(c, es[0]), es[1..], m);
    }
  }

  // ---------------------------------------------------------------- barriers

  /** The counts the run gives its barriers, in order; a count of zero makes no barrier. */
  function CountsGiven(es: seq<Event>): seq<nat> {
    if es == [] then []
    else (if es[0].BarrierInit? && es[0].count > 0 then [es[0].count] else []) + CountsGiven(es[1..])
  }

  /** How often a thread arrives at the barrier. */
  function Arrivals(es: seq<Event>, b: nat): nat {
    if es == [] then 0 else (if es[0] == Arrive(b) then 1 else 0) + Arrivals(es[1..], b)
  }

  /** What the calls of `pthread_barrier_wait` on the barrier return, in order. */
  ghost function WaitValues(c: Config, es: seq<Event>, b: nat): seq<int>
    requires IsRun(c, es)
    decreases |es|
  {
    if es == [] then []
    else (if es[0] == Return(b) then [Value(c, es[0]).value] else []) + WaitValues(Step(c, es[0]), es[1..], b)
  }

  function ListAt<T>(ss: seq<seq<T>>, b: nat): seq<T> {
    if b < |ss| then ss[b] else []
  }

  lemma StepRecords(c: Config, e: Event, b: nat)
    requires Shaped(c) && Enabled(c, e)
    ensures Step(c, e).h.counts == c.h.counts + CountsGiven([e])
    ensures |ListAt(Step(c, e).h.arrived, b)| == |ListAt(c.h.arrived, b)| + if e == Arrive(b) then 1 else 0
    ensures |ListAt(Step(c, e).h.returned, b)| == |ListAt(c.h.returned, b)| + if e == Return(b) then 1 else 0
  {
    hide AtLarge, Inside, CanSchedule, DoCreate, DoSchedule, DoLock, DoUnlock, DoArrive, DoReturn, DoExit,
        DoMutexInit, DoBarrierInit;
    assert CountsGiven([e]) == if e.BarrierInit? && e.count > 0 then [e.count] else [] by {
      assert [e][1..] == [];
    }
  }

  lemma CountsOfFirst(e: Event, es: seq<Event>)
    ensures CountsGiven([e] + es) == CountsGiven([e]) + CountsGiven(es)
  {
    assert ([e] + es)[1..] == es && [e][1..] == [];
  }

  /** The history holds what the program asked for: the counts given and one entry a call. */
  lemma {:induction false} RunRecords(c: Config, es: seq<Event>, b: nat)
    requires IsRun(c, es)
    ensures After(c, es).h.counts == c.h.counts + CountsGiven(es)
    ensures |ListAt(After(c, es).h.arrived, b)| == |ListAt(c.h.arrived, b)| + Arrivals(es, b)
    ensures |ListAt(After(c, es).h.returned, b)| == |ListAt(c.h.returned, b)| + |WaitValues(c, es, b)|
    decreases |es|
  {
    hide Step, Enabled, Shaped, Value;
    if es != [] {
      StepRecords(c, es[0], b);
      RunRecords(Step(c, es[0]), es[1..], b);
      assert es == [es[0]] + es[1..];
      CountsOfFirst(es[0], es[1..]);
    }
  }

  /** The first call to return finds the serial flag set, and no later one. */
  lemma SerialIsFirst(c: Config, b: nat)
    requires Inv(c) && Enabled(c, Return(b))
    ensures Value(c, Return(b)) == Some(if ListAt(c.h.returned, b) == [] then PTHREAD_BARRIER_SERIAL_THREAD else 0)
  {
    assert BarrierKept(c, b);
  }

  /** The first of the values is the serial one, if `first` says that it may be, and no other. */
  predicate SerialOnce(vs: seq<int>, first: bool) {
    forall i | 0 <= i < |vs| :: vs[i] == if first && i == 0 then PTHREAD_BARRIER_SERIAL_THREAD else 0
  }

  lemma SerialMore(v: int, vs: seq<int>, first: bool)
    requires SerialOnce(vs, false) && v == if first then PTHREAD_BARRIER_SERIAL_THREAD else 0
    ensures SerialOnce([v] + vs, first)
  {}

  lemma {:induction false} OneSerialValue(c: Config, es: seq<Event>, b: nat)
    requires Inv(c) && IsRun(c, es)
    ensures SerialOnce(WaitValues(c, es, b), ListAt(c.h.returned, b) == [])
    decreases |es|
  {
    if es != [] {
      hide Inv, Step, Enabled, Shaped, Value, ListAt;
      assert Shaped(c) && Enabled(c, es[0]);
      var c', rest := Step(c, es[0]), WaitValues(Step(c, es[0]), es[1..], b);
      StepRecords(c, es[0], b);
      StepKeepsInv(c, es[0]);
      if c'.s.mode == Live {
        OneSerialValue(c', es[1..], b);
      } else {
        EndsThere(c', es[1..]);
        assert rest == [];
      }
      if es[0] == Return(b) {
        SerialIsFirst(c, b);
        SerialMore(Value(c, es[0]).value, rest, ListAt(c.h.returned, b) == []);
      }
    }
  }

  lemma EndsThere(c: Config, es: seq<Event>)
    requires IsRun(c, es) && c.s.mode != Live
    ensures es == []
  {}

  /** One round of a barrier in every run that is still live, with `n` the count the program gave:
      no call returns before the n-th arrival, the arrivals are distinct threads, only they return,
      and of the values returned exactly the first is PTHREAD_BARRIER_SERIAL_THREAD, which is not
      zero (pthread_barrier_wait(), section 3 of the System Interfaces volume of POSIX.1-2017). */
  lemma BarrierRound(es: seq<Event>, b: nat)
    requires IsRun(Start(), es) && After(Start(), es).s.mode == Live && b < |CountsGiven(es)|
    ensures var c, n, vs := After(Start(), es), CountsGiven(es)[b], WaitValues(Start(), es, b);
            && Shaped(c) && b < |c.h.arrived|
            && Arrivals(es, b) == |c.h.arrived[b]| <= n && Distinct(c.h.arrived[b])
            && |vs| == |c.h.returned[b]| && (vs != [] ==> Arrivals(es, b) == n)
            && (forall i | 0 <= i < |vs| :: c.h.returned[b][i].0 in c.h.arrived[b])
            && (forall i, j | 0 <= i < j < |vs| :: c.h.returned[b][i].0 != c.h.returned[b][j].0)
            && (forall i | 0 <= i < |vs| :: vs[i] == if i == 0 then -1 else 0)
  {
    hide Enabled, Step, Value, CountsGiven, Arrivals, WaitValues;
    StartKeepsInv();
    RunKeepsInv(Start(), es);
    RunRecords(Start(), es, b);
    OneSerialValue(Start(), es, b);
    var c := After(Start(), es);
    assert c.h.counts == CountsGiven(es);
    assert BarrierKept(c, b);
  }

  /** With `n` the count the program gave, exactly the n-th arrival makes every queued thread ready;
      an earlier one blocks its caller and touches nobody else. */
  lemma LastArrivalReleases(es: seq<Event>, b: nat)
    requires IsRun(Start(), es) && After(Start(), es).s.mode == Live && b < |CountsGiven(es)|
    requires Shaped(After(Start(), es)) && Enabled(After(Start(), es), Arrive(b))
    ensures var c, n, k := After(Start(), es), CountsGiven(es)[b], Arrivals(es, b) + 1;
            var c' := Step(c, Arrive(b));
            && k <= n && k == |c.h.arrived[b]| + 1
            && (forall t | t in c.h.arrived[b] :: c.s.status[t] == Blocked)
            && (k == n ==> forall t: Tid ::
                  c'.s.status[t] == if t in c.h.arrived[b] then Ready else c.s.status[t])
            && (k < n ==> c'.s.status == c.s.status[c.s.current := Blocked])
  {
    hide Step, CountsGiven, Arrivals, AtLarge;
    StartKeepsInv();
    RunKeepsInv(Start(), es);
    RunRecords(Start(), es, b);
    var c := After(Start(), es);
    assert c.h.counts == CountsGiven(es);
    ArrivalReleases(c, b);
  }

  lemma ArrivalReleases(c: Config, b: nat)
    requires Inv(c) && Enabled(c, Arrive(b))
    ensures var c', n, k := Step(c, Arrive(b)), c.h.counts[b], |c.h.arrived[b]| + 1;
            && (forall t | t in c.h.arrived[b] :: c.s.status[t] == Blocked)
            && (k == n ==> forall t: Tid ::
                  c'.s.status[t] == if t in c.h.arrived[b] then Ready else c.s.status[t])
            && (k < n ==> c'.s.status == c.s.status[c.s.current := Blocked])
  {
    hide QueuesMatch;
    assert BarrierKept(c, b);
    forall t | t in c.h.arrived[b] ensures c.s.status[t] == Blocked {
      BarrierWaiterIsBlocked(c.s, b, t);
    }
  }

  // ---------------------------------------------------------------- exits

  /** Every worker other than `t` has exited. */
  predicate OtherWorkersExited(s: State, t: Tid)
    requires Sized(s)
  {
    forall u: Tid | 1 <= u <= s.numOfThreads && u != t :: s.status[u] == Exited
  }

  lemma ExitModes(c: Config)
    requires Inv(c) && Enabled(c, Exit)
    ensures var s, s' := c.s, Step(c, Exit).s;
            && (s'.mode == Over <==> forall u: Tid | u <= s.numOfThreads && u != s.current :: s.status[u] == Exited)
            && (s'.mode == BackInMain <==>
                  s.current != 0 && s.status[0] != Exited && OtherWorkersExited(s, s.current))
  {
    var x := MarkExit(c.s);
    ExitCounts(c.s, c.h.scheduled);
    AllWorkersExited(x);
    forall u: Tid | u <= c.s.numOfThreads && u != c.s.current ensures x.status[u] == c.s.status[u] {}
  }

  lemma ExitSchedules(c: Config)
    requires Inv(c) && Enabled(c, Exit) && Step(c, Exit).s.mode == Live
    ensures var s, s' := c.s, Step(c, Exit).s;
            && s'.current <= s.numOfThreads && s'.current != s.current && Runnable(s.status[s'.current])
            && s'.status == s.status[s.current := Exited][s'.current := Running] && s'.top == s'.current
            && forall t: Tid | t <= s.numOfThreads && t != s.current && Runnable(s.status[t]) ::
                 Gap(s.top, s.numOfThreads, s'.current) <= Gap(s.top, s.numOfThreads, t)
  {
    hide QueuesMatch, MutexKept, BarrierKept, ExitedWorkers, Picked, Gap;
    SchedulerChoice(MarkExit(c.s));
  }

  /** `pthread_exit` marks its caller as exited, main included, and counts it if it is a worker. The
      process ends exactly when every other thread had exited, main is resumed exactly when it is
      the only one left, and otherwise the next runnable thread runs. */
  lemma ExitAccounting(c: Config)
    requires Inv(c) && Enabled(c, Exit)
    ensures var s, s' := c.s, Step(c, Exit).s;
            && s.exited == |ExitedWorkers(s)| && s'.exited == s.exited + (if s.current != 0 then 1 else 0)
            && s'.status[s.current] == Exited
            && (s'.mode == Over <==> forall u: Tid | u <= s.numOfThreads && u != s.current :: s.status[u] == Exited)
            && (s'.mode == BackInMain <==>
                  s.current != 0 && s.status[0] != Exited && OtherWorkersExited(s, s.current))
            && (s'.mode == Over ==> s'.status == s.status[s.current := Exited])
            && (s'.mode == BackInMain ==>
                  s'.current == 0 && s'.status == s.status[s.current := Exited][0 := Running])
            && (s'.mode == Live ==>
                  && s'.current <= s.numOfThreads && s'.current != s.current && Runnable(s.status[s'.current])
                  && s'.status == s.status[s.current := Exited][s'.current := Running])
            && s'.numOfThreads == s.numOfThreads && s'.mutexes == s.mutexes && s'.barriers == s.barriers
  {
    hide QueuesMatch, MutexKept, BarrierKept, ExitedWorkers, DoSchedule, CanSchedule;
    ExitModes(c);
    if MarkExit(c.s).exited != c.s.numOfThreads {
      ScheduleSpares(MarkExit(c.s));
      ExitSchedules(c);
    }
  }

  lemma ScheduleSpares(s: State)
    requires Sized(s) && CanSchedule(s)
    ensures var s' := DoSchedule(s);
            s' == s.(status := s'.status, top := s'.top, current := s'.current)
  {}

  /** A thread that has exited is never made ready or run again; main counts as a thread from the
      first creation on. */
  lemma ExitedStays(c: Config, e: Event, t: Tid)
    requires Inv(c) && Enabled(c, e) && !c.s.firstCall && t <= c.s.numOfThreads && c.s.status[t] == Exited
    ensures var s' := Step(c, e).s; Sized(s') && !s'.firstCall && t <= s'.numOfThreads && s'.status[t] == Exited
  {
    hide QueuesMatch, MutexKept, BarrierKept, ExitedWorkers, DoExit, DoSchedule, CanSchedule;
    StepKeepsShape(c, e);
    match e
    case Exit => ExitAccounting(c);
      ExitSparesFirstCall(c.s);
    case Schedule =>
      SchedulerChoice(c.s);
      ScheduleSpares(c.s);
    case Unlock(m) =>
      if c.s.mutexes[m].waiters != [] {
        MutexWaiterIsBlocked(c.s, m, c.s.mutexes[m].waiters[0]);
      }
    case Arrive(b) =>
      assert BarrierKept(c, b);
      ArrivalReleases(c, b);
    case _ =>
  }

  lemma ExitSparesFirstCall(s: State)
    requires Sized(s) && (MarkExit(s).exited != s.numOfThreads ==> CanSchedule(MarkExit(s)))
    ensures DoExit(s).firstCall == s.firstCall
  {}

  lemma {:induction false} ExitedForever(c: Config, es: seq<Event>, t: Tid)
    requires Inv(c) && IsRun(c, es) && !c.s.firstCall && t <= c.s.numOfThreads && c.s.status[t] == Exited
    ensures var s' := After(c, es).s; Sized(s') && t <= s'.numOfThreads && s'.status[t] == Exited
    decreases |es|
  {
    hide Step, Enabled, Inv;
    assert Sized(c.s) by { InvSized(c); }
    if es != [] {
      ExitedStays(c, es[0], t);
      StepKeepsInv(c, es[0]);
      if Step(c, es[0]).s.mode == Live {
        ExitedForever(Step(c, es[0]), es[1..], t);
      } else {
        EndsThere(Step(c, es[0]), es[1..]);
      }
    }
  }

  lemma InvSized(c: Config)
    requires Inv(c)
    ensures Sized(c.s)
  {}

  /** Resuming main after the last worker keeps the queues in step exactly when main was not
      blocked: a blocked main runs again while it still stands in a queue. */
  lemma MainResumedOutOfQueue(c: Config)
    requires Inv(c) && Enabled(c, Exit) && Step(c, Exit).s.mode == BackInMain
    ensures QueuesMatch(Step(c, Exit).s) <==> c.s.status[0] != Blocked
  {
    var s' := Step(c, Exit).s;
    if c.s.status[0] == Blocked {
      assert BlockedThreads(s'.status) == BlockedThreads(c.s.status) - {0};
      assert 0 in BlockedThreads(c.s.status);
      assert multiset(BlockedThreads(c.s.status))[0] == 1 && multiset(BlockedThreads(s'.status))[0] == 0;
    } else {
      assert BlockedThreads(s'.status) == BlockedThreads(c.s.status);
    }
  }
}

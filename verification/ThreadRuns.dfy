/** Runs of the thread library: which steps a program can take, and what every run keeps. */
module ThreadRuns {
  import opened Common
  import opened ThreadModel

  datatype Event =
    | Create | Schedule | MutexInit(owner: int) | BarrierInit(count: nat)
    | Lock(m: nat) | Unlock(m: nat) | Arrive(b: nat) | Return(b: nat) | Exit

  /** What the run so far has done. `holding` pairs a thread with a mutex it obtained and has not
      released; `blocked` and `handed` list, per mutex, the threads in the order they blocked on
      it and in the order they were handed it; `counts` holds the count each barrier was given;
      `returned` lists, per barrier, the returns and whether they were serial. */
  datatype History = History(
    holding: set<(Tid, nat)>, blocked: seq<seq<Tid>>, handed: seq<seq<Tid>>,
    counts: seq<nat>, arrived: seq<seq<Tid>>, returned: seq<seq<(Tid, bool)>>, scheduled: bool)

  datatype Config = Config(s: State, h: History)

  function Start(): Config {
    Config(Init(), History({}, [], [], [], [], [], false))
  }

  function Append<T>(ss: seq<seq<T>>, i: nat, x: T): seq<seq<T>>
    requires i < |ss|
  {
    ss[i := ss[i] + [x]]
  }

  predicate HasReturned(rs: seq<(Tid, bool)>, t: Tid) {
    exists i | 0 <= i < |rs| :: rs[i].0 == t
  }

  /** The thread is between the arrival and the return of a barrier call. */
  predicate Inside(h: History, t: Tid, b: nat)
    requires |h.arrived| == |h.returned|
  {
    b < |h.arrived| && t in h.arrived[b] && !HasReturned(h.returned[b], t)
  }

  predicate Shaped(c: Config) {
    && |c.s.status| == MAX_THREADS && c.s.numOfThreads < MAX_THREADS
    && c.s.top <= c.s.numOfThreads && c.s.current <= c.s.numOfThreads
    && |c.h.blocked| == |c.h.handed| == |c.s.mutexes|
    && |c.h.counts| == |c.h.arrived| == |c.h.returned| == |c.s.barriers|
  }

  /** The current thread runs its own code: it has not just blocked, and it is not inside a
      barrier call. */
  predicate AtLarge(c: Config)
    requires Shaped(c)
  {
    && c.s.status[c.s.current] != Blocked
    && forall b | 0 <= b < |c.h.arrived| :: !Inside(c.h, c.s.current, b)
  }

  /** Program order, and the scope of the claims: only a holder unlocks, and each barrier serves
      one round. A thread that has just blocked can only be scheduled away. */
  predicate Enabled(c: Config, e: Event)
    requires Shaped(c)
  {
    && c.s.mode == Live
    && match e
       case Create => AtLarge(c) && c.s.numOfThreads + 1 < MAX_THREADS
       case Schedule => CanSchedule(c.s)
       case MutexInit(_) => AtLarge(c)
       case BarrierInit(_) => AtLarge(c)
       case Lock(m) => AtLarge(c) && m < |c.s.mutexes|
       case Unlock(m) => AtLarge(c) && m < |c.s.mutexes| && (c.s.current, m) in c.h.holding
       case Arrive(b) => AtLarge(c) && b < |c.s.barriers| && |c.h.arrived[b]| < c.h.counts[b]
       case Return(b) => c.s.status[c.s.current] != Blocked && b < |c.s.barriers| && Inside(c.h, c.s.current, b)
       case Exit => AtLarge(c) && (MarkExit(c.s).exited != c.s.numOfThreads ==> CanSchedule(MarkExit(c.s)))
  }

  function Step(c: Config, e: Event): Config
    requires Shaped(c) && Enabled(c, e)
  {
    var Config(s, h) := c;
    match e
    case Create => Config(DoCreate(s), h)
    case Schedule => Config(DoSchedule(s), h.(scheduled := true))
    case MutexInit(owner) => Config(DoMutexInit(s, owner), h.(blocked := h.blocked + [[]], handed := h.handed + [[]]))
    case BarrierInit(count) =>
      if count == 0 then c else Config(DoBarrierInit(s, count),
          h.(counts := h.counts + [count], arrived := h.arrived + [[]], returned := h.returned + [[]]))
    case Lock(m) =>
      if s.mutexes[m].free then Config(DoLock(s, m), h.(holding := h.holding + {(s.current, m)}))
      else Config(DoLock(s, m), h.(blocked := Append(h.blocked, m, s.current)))
    case Unlock(m) =>
      var released := h.holding - {(s.current, m)};
      var ws := s.mutexes[m].waiters;
      if ws == [] then Config(DoUnlock(s, m), h.(holding := released))
      else Config(DoUnlock(s, m), h.(holding := released + {(ws[0], m)}, handed := Append(h.handed, m, ws[0])))
    case Arrive(b) => Config(DoArrive(s, b), h.(arrived := Append(h.arrived, b, s.current)))
    case Return(b) =>
      var (s', serial) := DoReturn(s, b);
      Config(s', h.(returned := Append(h.returned, b, (s.current, serial))))
    case Exit => Config(DoExit(s), if MarkExit(s).exited != s.numOfThreads then h.(scheduled := true) else h)
  }

  /** What the library call that ends with this step returns to the thread; a lock that blocks and
      a barrier call return later, or with `Return`. */
  function Value(c: Config, e: Event): Option<int>
    requires Shaped(c) && Enabled(c, e)
  {
    match e
    case BarrierInit(count) => Some(if count == 0 then EINVAL else 0)
    case Return(b) => Some(if DoReturn(c.s, b).1 then PTHREAD_BARRIER_SERIAL_THREAD else 0)
    case Create => Some(0)
    case MutexInit(_) => Some(0)
    case Unlock(_) => Some(0)
    case _ => None
  }

  // ---------------------------------------------------------------- queues

  function MutexWaiters(ms: seq<Mutex>): multiset<Tid> {
    if ms == [] then multiset{} else multiset(ms[0].waiters) + MutexWaiters(ms[1..])
  }

  /** The threads held back by a barrier: its list, while a round is in progress. */
  function Held(b: Barrier): seq<Tid> {
    if b.currentCount > 0 then b.waiters else []
  }

  function BarrierWaiters(bs: seq<Barrier>): multiset<Tid> {
    if bs == [] then multiset{} else multiset(Held(bs[0])) + BarrierWaiters(bs[1..])
  }

  /** Everyone in a pending queue, with multiplicity. */
  function Waiting(s: State): multiset<Tid> {
    MutexWaiters(s.mutexes) + BarrierWaiters(s.barriers)
  }

  function BlockedThreads(status: seq<Status>): set<Tid> {
    set t: Tid | 0 <= t < |status| && status[t] == Blocked
  }

  lemma {:induction false} MutexWaitersUpdate(ms: seq<Mutex>, m: nat, mu: Mutex)
    requires m < |ms|
    ensures multiset(ms[m].waiters) <= MutexWaiters(ms)
    ensures MutexWaiters(ms[m := mu]) == MutexWaiters(ms) - multiset(ms[m].waiters) + multiset(mu.waiters)
  {
    if m > 0 {
      MutexWaitersUpdate(ms[1..], m - 1, mu);
      assert ms[m := mu][1..] == ms[1..][m - 1 := mu];
    } else {
      assert ms[m := mu][1..] == ms[1..];
    }
  }

  lemma {:induction false} BarrierWaitersUpdate(bs: seq<Barrier>, b: nat, ba: Barrier)
    requires b < |bs|
    ensures multiset(Held(bs[b])) <= BarrierWaiters(bs)
    ensures BarrierWaiters(bs[b := ba]) == BarrierWaiters(bs) - multiset(Held(bs[b])) + multiset(Held(ba))
  {
    if b > 0 {
      BarrierWaitersUpdate(bs[1..], b - 1, ba);
      assert bs[b := ba][1..] == bs[1..][b - 1 := ba];
    } else {
      assert bs[b := ba][1..] == bs[1..];
    }
  }

  lemma {:induction false} MutexWaitersExtend(ms: seq<Mutex>, mu: Mutex)
    ensures MutexWaiters(ms + [mu]) == MutexWaiters(ms) + multiset(mu.waiters)
  {
    if ms != [] {
      MutexWaitersExtend(ms[1..], mu);
      assert (ms + [mu])[1..] == ms[1..] + [mu];
    }
  }

  lemma {:induction false} BarrierWaitersExtend(bs: seq<Barrier>, ba: Barrier)
    ensures BarrierWaiters(bs + [ba]) == BarrierWaiters(bs) + multiset(Held(ba))
  {
    if bs != [] {
      BarrierWaitersExtend(bs[1..], ba);
      assert (bs + [ba])[1..] == bs[1..] + [ba];
    }
  }

  // ---------------------------------------------------------------- the invariant

  /** Exactly the blocked threads are in the pending queues, each once. */
  ghost predicate QueuesMatch(s: State) {
    Waiting(s) == multiset(BlockedThreads(s.status))
  }

  /** Who runs: at most the current thread, which is where the scheduler stands; after the first
      `schedule` the current thread runs unless it has just blocked. */
  ghost predicate RunningIsCurrent(s: State, scheduled: bool)
    requires Sized(s)
  {
    && s.top == s.current
    && (forall t | 0 <= t < MAX_THREADS && s.status[t] == Running :: t == s.current)
    && (forall t | s.numOfThreads < t < MAX_THREADS :: s.status[t] == Exited)
    && (if s.firstCall then !scheduled && s.numOfThreads == 0 && s.status[0] in {Exited, Blocked}
        else if scheduled then s.status[s.current] in {Running, Blocked}
        else s.current == 0 && s.status[0] in {Ready, Blocked})
  }

  ghost predicate MutexKept(c: Config, m: nat)
    requires Shaped(c) && m < |c.s.mutexes|
  {
    && (c.s.mutexes[m].free ==> c.s.mutexes[m].waiters == [] && forall t :: (t, m) !in c.h.holding)
    && (forall t, u | (t, m) in c.h.holding && (u, m) in c.h.holding :: t == u)
    && c.h.blocked[m] == c.h.handed[m] + c.s.mutexes[m].waiters
  }

  ghost predicate Distinct<T>(xs: seq<T>) {
    forall i, j | 0 <= i < j < |xs| :: xs[i] != xs[j]
  }

  /** Before the last arrival nobody has returned; afterwards the first return was the serial
      one and no other. */
  ghost predicate BarrierKept(c: Config, b: nat)
    requires Shaped(c) && b < |c.s.barriers|
  {
    var ba, arrived, returned := c.s.barriers[b], c.h.arrived[b], c.h.returned[b];
    && ba.maxCount == c.h.counts[b] && |arrived| <= ba.maxCount && 0 < ba.maxCount && Distinct(arrived)
    && (if |arrived| < ba.maxCount
        then ba.waiters == arrived && ba.currentCount == |arrived| && ba.serial && returned == []
        else ba.waiters == arrived[..|arrived| - 1] && ba.currentCount == 0 && ba.serial == (returned == []))
    && (forall i | 0 <= i < |returned| :: returned[i].0 in arrived && returned[i].1 == (i == 0))
    && (forall i, j | 0 <= i < j < |returned| :: returned[i].0 != returned[j].0)
  }

  function ExitedWorkers(s: State): set<Tid> {
    set t: Tid | 1 <= t <= s.numOfThreads && t < |s.status| && s.status[t] == Exited
  }

  ghost predicate Inv(c: Config) {
    && Shaped(c)
    && RunningIsCurrent(c.s, c.h.scheduled)
    && QueuesMatch(c.s)
    && (forall m | 0 <= m < |c.s.mutexes| :: MutexKept(c, m))
    && (forall b | 0 <= b < |c.s.barriers| :: BarrierKept(c, b))
    && c.s.exited == |ExitedWorkers(c.s)|
    && HoldingKnown(c)
  }

  // ---------------------------------------------------------------- one step: the queues

  lemma WaitingIsBlocked(s: State, t: Tid)
    requires QueuesMatch(s)
    ensures t in Waiting(s) <==> t < |s.status| && s.status[t] == Blocked
    ensures Waiting(s)[t] <= 1
  {
    assert t in BlockedThreads(s.status) <==> t < |s.status| && s.status[t] == Blocked;
  }

  lemma MutexWaiterIsBlocked(s: State, m: nat, t: Tid)
    requires QueuesMatch(s) && m < |s.mutexes| && t in s.mutexes[m].waiters
    ensures t < |s.status| && s.status[t] == Blocked
  {
    MutexWaitersUpdate(s.mutexes, m, s.mutexes[m]);
    assert t in multiset(s.mutexes[m].waiters);
    WaitingIsBlocked(s, t);
  }

  lemma BarrierWaiterIsBlocked(s: State, b: nat, t: Tid)
    requires QueuesMatch(s) && b < |s.barriers| && t in Held(s.barriers[b])
    ensures t < |s.status| && s.status[t] == Blocked
  {
    BarrierWaitersUpdate(s.barriers, b, s.barriers[b]);
    assert t in multiset(Held(s.barriers[b]));
    WaitingIsBlocked(s, t);
  }

  lemma Unblock(status: seq<Status>, t: Tid, st: Status)
    requires t < |status| && status[t] == Blocked && st != Blocked
    ensures multiset(BlockedThreads(status[t := st])) == multiset(BlockedThreads(status)) - multiset{t}
  {
    assert BlockedThreads(status[t := st]) == BlockedThreads(status) - {t};
  }

  lemma Block(status: seq<Status>, t: Tid)
    requires t < |status| && status[t] != Blocked
    ensures multiset(BlockedThreads(status[t := Blocked])) == multiset(BlockedThreads(status)) + multiset{t}
  {
    assert BlockedThreads(status[t := Blocked]) == BlockedThreads(status) + {t};
  }

  lemma {:induction false} UnblockAll(status: seq<Status>, ts: seq<Tid>)
    requires |status| == MAX_THREADS
    requires multiset(ts) <= multiset(BlockedThreads(status))
    ensures multiset(BlockedThreads(ReadyAll(status, ts))) == multiset(BlockedThreads(status)) - multiset(ts)
    decreases |ts|
  {
    if ts != [] {
      assert ts == [ts[0]] + ts[1..];
      assert ts[0] in multiset(ts);
      assert ts[0] in BlockedThreads(status);
      Unblock(status, ts[0], Ready);
      UnblockAll(status[ts[0] := Ready], ts[1..]);
    }
  }

  /** Swapping part of the waiting threads for others, as queues and as blocked threads. */
  lemma Rebalance(a: multiset<Tid>, b: multiset<Tid>, blocked: multiset<Tid>, a': multiset<Tid>, out: multiset<Tid>,
      into: multiset<Tid>)
    requires a + b == blocked && a' == a - out + into && out <= a
    ensures a' + b == blocked - out + into
  {}

  lemma LockKeepsQueues(s: State, m: nat)
    requires Sized(s) && QueuesMatch(s) && m < |s.mutexes| && s.status[s.current] != Blocked
    ensures QueuesMatch(DoLock(s, m))
  {
    hide MutexWaiters, BarrierWaiters, BlockedThreads;
    var mu, t := s.mutexes[m], s.current;
    MutexWaitersUpdate(s.mutexes, m, DoLock(s, m).mutexes[m]);
    if !mu.free {
      Block(s.status, t);
      assert multiset(mu.waiters + [t]) == multiset(mu.waiters) + multiset{t};
      assert MutexWaiters(DoLock(s, m).mutexes) == MutexWaiters(s.mutexes) + multiset{t};
    }
  }

  lemma UnlockKeepsQueues(s: State, m: nat)
    requires Sized(s) && QueuesMatch(s) && m < |s.mutexes|
    ensures QueuesMatch(DoUnlock(s, m))
  {
    hide MutexWaiters, BarrierWaiters, BlockedThreads;
    var ws := s.mutexes[m].waiters;
    MutexWaitersUpdate(s.mutexes, m, DoUnlock(s, m).mutexes[m]);
    if ws != [] {
      MutexWaiterIsBlocked(s, m, ws[0]);
      Unblock(s.status, ws[0], Ready);
      HeadAndTail(ws);
      Rebalance(MutexWaiters(s.mutexes), BarrierWaiters(s.barriers), multiset(BlockedThreads(s.status)),
                MutexWaiters(DoUnlock(s, m).mutexes), multiset{ws[0]}, multiset{});
    }
  }

  lemma HeadAndTail(ws: seq<Tid>)
    requires ws != []
    ensures multiset(ws) == multiset{ws[0]} + multiset(ws[1..])
  {
    assert ws == [ws[0]] + ws[1..];
  }

  lemma ArriveKeepsQueues(s: State, b: nat)
    requires Sized(s) && QueuesMatch(s) && b < |s.barriers| && s.status[s.current] != Blocked
    requires Held(s.barriers[b]) == s.barriers[b].waiters
    ensures QueuesMatch(DoArrive(s, b))
  {
    hide MutexWaiters, BarrierWaiters, BlockedThreads;
    var ba := s.barriers[b];
    BarrierWaitersUpdate(s.barriers, b, DoArrive(s, b).barriers[b]);
    if ba.maxCount != ba.currentCount + 1 {
      Block(s.status, s.current);
    } else {
      UnblockAll(s.status, ba.waiters);
    }
  }

  lemma ScheduleKeepsQueues(s: State)
    requires Sized(s) && QueuesMatch(s) && CanSchedule(s)
    ensures QueuesMatch(DoSchedule(s))
  {
    assert BlockedThreads(DoSchedule(s).status) == BlockedThreads(s.status);
  }

  lemma ExitKeepsQueues(s: State)
    requires Sized(s) && QueuesMatch(s) && s.status[s.current] != Blocked
    requires MarkExit(s).exited != s.numOfThreads ==> CanSchedule(MarkExit(s))
    ensures DoExit(s).mode != BackInMain ==> QueuesMatch(DoExit(s))
  {
    var x := MarkExit(s);
    assert BlockedThreads(x.status) == BlockedThreads(s.status);
    if x.exited != s.numOfThreads {
      ScheduleKeepsQueues(x);
    }
  }

  lemma CreateKeepsQueues(s: State)
    requires Sized(s) && QueuesMatch(s) && s.numOfThreads + 1 < MAX_THREADS
    requires s.status[s.numOfThreads + 1] != Blocked && (s.firstCall ==> s.status[0] != Blocked)
    ensures QueuesMatch(DoCreate(s))
  {
    assert BlockedThreads(DoCreate(s).status) == BlockedThreads(s.status);
  }

  lemma ReturnKeepsQueues(s: State, b: nat)
    requires Sized(s) && QueuesMatch(s) && b < |s.barriers|
    ensures QueuesMatch(DoReturn(s, b).0)
  {
    hide BarrierWaiters, BlockedThreads;
    BarrierWaitersUpdate(s.barriers, b, s.barriers[b].(serial := false));
  }

  lemma InitKeepsQueues(s: State, owner: int, count: nat)
    requires QueuesMatch(s)
    ensures QueuesMatch(DoMutexInit(s, owner)) && QueuesMatch(DoBarrierInit(s, count))
  {
    hide MutexWaiters, BarrierWaiters, BlockedThreads;
    MutexWaitersExtend(s.mutexes, Mutex(true, owner, []));
    BarrierWaitersExtend(s.barriers, Barrier(count, 0, true, []));
  }

  lemma StepKeepsQueues(c: Config, e: Event)
    requires Shaped(c) && Enabled(c, e) && QueuesMatch(c.s)
    requires e.Arrive? ==> BarrierKept(c, e.b)
    requires e.Create? ==> c.s.status[c.s.numOfThreads + 1] != Blocked && (c.s.firstCall ==> c.s.status[0] != Blocked)
    ensures Step(c, e).s.mode != BackInMain ==> QueuesMatch(Step(c, e).s)
  {
    hide QueuesMatch, DoCreate, DoSchedule, DoLock, DoUnlock, DoArrive, DoReturn, DoExit, DoMutexInit, DoBarrierInit;
    match e
    case Create => CreateKeepsQueues(c.s);
    case Schedule => ScheduleKeepsQueues(c.s);
    case Lock(m) => LockKeepsQueues(c.s, m);
    case Unlock(m) => UnlockKeepsQueues(c.s, m);
    case Arrive(b) => ArriveKeepsQueues(c.s, b);
    case Return(b) => ReturnKeepsQueues(c.s, b);
    case MutexInit(owner) => InitKeepsQueues(c.s, owner, 1);
    case BarrierInit(count) => InitKeepsQueues(c.s, 0, count);
    case Exit => ExitKeepsQueues(c.s);
  }

  // ---------------------------------------------------------------- one step: who runs

  lemma StepKeepsShape(c: Config, e: Event)
    requires Inv(c) && Enabled(c, e)
    ensures Shaped(Step(c, e))
  {
    hide QueuesMatch, MutexKept, BarrierKept, ExitedWorkers, RunningIsCurrent, AtLarge, Inside;
  }

  lemma ScheduleKeepsRunning(s: State, before: bool)
    requires Sized(s) && RunningIsCurrent(s, before) && CanSchedule(s)
    ensures RunningIsCurrent(DoSchedule(s), true)
  {}

  lemma ExitKeepsRunning(s: State, before: bool)
    requires Sized(s) && RunningIsCurrent(s, before) && s.status[s.current] != Blocked
    requires MarkExit(s).exited != s.numOfThreads && CanSchedule(MarkExit(s))
    ensures RunningIsCurrent(DoExit(s), true)
  {}

  lemma WakeKeepsRunning(s: State, scheduled: bool, s': State)
    requires Sized(s) && RunningIsCurrent(s, scheduled) && Sized(s')
    requires s' == s.(status := s'.status, mutexes := s'.mutexes, barriers := s'.barriers)
    requires forall t | 0 <= t < MAX_THREADS && s'.status[t] != s.status[t] ::
      if t == s.current then s'.status[t] == Blocked else s.status[t] == Blocked && s'.status[t] == Ready
    ensures RunningIsCurrent(s', scheduled)
  {}

  lemma ArriveKeepsRunning(s: State, scheduled: bool, b: nat)
    requires Sized(s) && RunningIsCurrent(s, scheduled) && QueuesMatch(s)
    requires b < |s.barriers| && s.status[s.current] != Blocked && Held(s.barriers[b]) == s.barriers[b].waiters
    ensures RunningIsCurrent(DoArrive(s, b), scheduled)
  {
    hide QueuesMatch;
    forall t: Tid | t in s.barriers[b].waiters ensures s.status[t] == Blocked {
      BarrierWaiterIsBlocked(s, b, t);
    }
    WakeKeepsRunning(s, scheduled, DoArrive(s, b));
  }

  lemma StepKeepsRunning(c: Config, e: Event)
    requires Shaped(c) && Enabled(c, e) && QueuesMatch(c.s) && RunningIsCurrent(c.s, c.h.scheduled)
    requires e.Arrive? ==> BarrierKept(c, e.b)
    requires Step(c, e).s.mode == Live
    ensures RunningIsCurrent(Step(c, e).s, Step(c, e).h.scheduled)
  {
    hide QueuesMatch;
    var s' := Step(c, e).s;
    match e
    case Schedule => ScheduleKeepsRunning(c.s, c.h.scheduled);
    case Exit => ExitKeepsRunning(c.s, c.h.scheduled);
    case Create =>
    case Lock(m) => WakeKeepsRunning(c.s, c.h.scheduled, s');
    case Unlock(m) =>
      if c.s.mutexes[m].waiters != [] {
        MutexWaiterIsBlocked(c.s, m, c.s.mutexes[m].waiters[0]);
      }
      WakeKeepsRunning(c.s, c.h.scheduled, s');
    case Arrive(b) =>
      ArriveKeepsRunning(c.s, c.h.scheduled, b);
    case _ =>
  }

  // ---------------------------------------------------------------- one step: mutexes, barriers, exits

  ghost predicate HoldingKnown(c: Config) {
    forall p | p in c.h.holding :: p.1 < |c.s.mutexes|
  }

  lemma StepKeepsHolding(c: Config, e: Event)
    requires Shaped(c) && Enabled(c, e) && HoldingKnown(c)
    ensures HoldingKnown(Step(c, e))
  {}

  lemma StepKeepsMutex(c: Config, e: Event, m: nat)
    requires Shaped(c) && Enabled(c, e) && HoldingKnown(c) && Shaped(Step(c, e))
    requires m < |Step(c, e).s.mutexes|
    requires m < |c.s.mutexes| ==> MutexKept(c, m)
    ensures MutexKept(Step(c, e), m)
  {
    if e == Unlock(m) && c.s.mutexes[m].waiters != [] {
      var ws := c.s.mutexes[m].waiters;
      assert c.h.handed[m] + ws == (c.h.handed[m] + [ws[0]]) + ws[1..];
    }
  }

  lemma BarrierUntouched(c: Config, e: Event, b: nat)
    requires Shaped(c) && Enabled(c, e) && b < |c.s.barriers| && e != Arrive(b) && e != Return(b)
    ensures b < |Step(c, e).s.barriers| && Step(c, e).s.barriers[b] == c.s.barriers[b]
    ensures b < |Step(c, e).h.arrived| && Step(c, e).h.arrived[b] == c.h.arrived[b]
    ensures b < |Step(c, e).h.returned| && Step(c, e).h.returned[b] == c.h.returned[b]
    ensures b < |Step(c, e).h.counts| && Step(c, e).h.counts[b] == c.h.counts[b]
  {
    hide AtLarge;
  }

  /** A barrier that was not there before is new. */
  lemma BarrierNew(c: Config, e: Event, b: nat)
    requires Shaped(c) && Enabled(c, e) && Shaped(Step(c, e)) && |c.s.barriers| <= b < |Step(c, e).s.barriers|
    ensures BarrierKept(Step(c, e), b)
  {
    hide AtLarge;
  }

  lemma StepKeepsBarrier(c: Config, e: Event, b: nat)
    requires Shaped(c) && Enabled(c, e) && QueuesMatch(c.s) && Shaped(Step(c, e))
    requires b < |Step(c, e).s.barriers|
    requires b < |c.s.barriers| ==> BarrierKept(c, b)
    ensures BarrierKept(Step(c, e), b)
  {
    hide QueuesMatch, AtLarge, Step, Enabled;
    if e == Arrive(b) {
      UsesBarrier(c, e);
      ArriveKeepsBarrier(c, b);
    } else if e == Return(b) {
      UsesBarrier(c, e);
      ReturnKeepsBarrier(c, b);
    } else if b < |c.s.barriers| {
      BarrierUntouched(c, e, b);
    } else {
      BarrierNew(c, e, b);
    }
  }

  lemma UsesBarrier(c: Config, e: Event)
    requires Shaped(c) && Enabled(c, e) && (e.Arrive? || e.Return?)
    ensures e.b < |c.s.barriers|
  {}

  lemma ArriveKeepsBarrier(c: Config, b: nat)
    requires Shaped(c) && Enabled(c, Arrive(b)) && BarrierKept(c, b)
    ensures BarrierKept(Step(c, Arrive(b)), b)
  {
    var arrived := c.h.arrived[b];
    assert !HasReturned(c.h.returned[b], c.s.current);
    assert !Inside(c.h, c.s.current, b);
    assert (arrived + [c.s.current])[..|arrived|] == arrived;
  }

  lemma ReturnKeepsBarrier(c: Config, b: nat)
    requires Shaped(c) && Enabled(c, Return(b)) && BarrierKept(c, b) && QueuesMatch(c.s)
    ensures BarrierKept(Step(c, Return(b)), b)
  {
    hide QueuesMatch;
    var ba := c.s.barriers[b];
    if |c.h.arrived[b]| < ba.maxCount {
      BarrierWaiterIsBlocked(c.s, b, c.s.current);
    }
  }

  lemma ExitedAfter(s: State, s': State, t: Tid)
    requires Sized(s) && Sized(s') && s'.numOfThreads == s.numOfThreads
    requires 1 <= t <= s.numOfThreads && s.status[t] != Exited && s'.status[t] == Exited
    requires forall u | 0 <= u < MAX_THREADS && u != t :: s'.status[u] == Exited <==> s.status[u] == Exited
    ensures |ExitedWorkers(s')| == |ExitedWorkers(s)| + 1
  {
    assert ExitedWorkers(s') == ExitedWorkers(s) + {t};
  }

  lemma ExitedSame(s: State, s': State)
    requires Sized(s) && Sized(s') && s.numOfThreads <= s'.numOfThreads
    requires forall u | 1 <= u <= s.numOfThreads :: s'.status[u] == Exited <==> s.status[u] == Exited
    requires forall u | s.numOfThreads < u <= s'.numOfThreads :: s'.status[u] != Exited
    ensures ExitedWorkers(s') == ExitedWorkers(s)
  {}

  lemma ExitCounts(s: State, scheduled: bool)
    requires Sized(s) && RunningIsCurrent(s, scheduled) && s.status[s.current] != Blocked
    requires MarkExit(s).exited != s.numOfThreads ==> CanSchedule(MarkExit(s))
    requires s.exited == |ExitedWorkers(s)|
    ensures MarkExit(s).exited == |ExitedWorkers(MarkExit(s))|
    ensures DoExit(s).exited == |ExitedWorkers(DoExit(s))|
  {
    if s.current == 0 {
      ExitedSame(s, MarkExit(s));
    } else {
      ExitedAfter(s, MarkExit(s), s.current);
    }
    ExitedSame(MarkExit(s), DoExit(s));
  }

  /** The step counts no exit, and none happened. */
  ghost predicate ExitsNobody(s: State, s': State) {
    s'.exited == s.exited && ExitedWorkers(s') == ExitedWorkers(s)
  }

  lemma ArriveExitsNobody(s: State, b: nat)
    requires Sized(s) && QueuesMatch(s) && (s.status[s.current] != Exited || s.current == 0)
    requires b < |s.barriers| && Held(s.barriers[b]) == s.barriers[b].waiters
    ensures ExitsNobody(s, DoArrive(s, b))
  {
    hide QueuesMatch;
    forall t: Tid | t in s.barriers[b].waiters ensures s.status[t] == Blocked {
      BarrierWaiterIsBlocked(s, b, t);
    }
    ExitedSame(s, DoArrive(s, b));
  }

  lemma UnlockExitsNobody(s: State, m: nat)
    requires Sized(s) && QueuesMatch(s) && m < |s.mutexes|
    ensures ExitsNobody(s, DoUnlock(s, m))
  {
    hide QueuesMatch;
    if s.mutexes[m].waiters != [] {
      MutexWaiterIsBlocked(s, m, s.mutexes[m].waiters[0]);
    }
    ExitedSame(s, DoUnlock(s, m));
  }

  lemma LockExitsNobody(s: State, m: nat)
    requires Sized(s) && m < |s.mutexes| && (s.status[s.current] != Exited || s.current == 0)
    ensures ExitsNobody(s, DoLock(s, m))
  {
    ExitedSame(s, DoLock(s, m));
  }

  lemma ScheduleExitsNobody(s: State)
    requires Sized(s) && CanSchedule(s)
    ensures ExitsNobody(s, DoSchedule(s))
  {
    ExitedSame(s, DoSchedule(s));
  }

  lemma CreateExitsNobody(s: State)
    requires Sized(s) && s.numOfThreads + 1 < MAX_THREADS
    ensures ExitsNobody(s, DoCreate(s))
  {
    ExitedSame(s, DoCreate(s));
  }

  lemma OthersExitNobody(s: State, owner: int, count: nat, b: nat)
    ensures ExitsNobody(s, DoMutexInit(s, owner)) && ExitsNobody(s, DoBarrierInit(s, count))
    ensures b < |s.barriers| ==> ExitsNobody(s, DoReturn(s, b).0)
  {}

  /** Blocking, waking and scheduling threads exits nobody. */
  lemma StepKeepsExited(c: Config, e: Event)
    requires Shaped(c) && Enabled(c, e) && QueuesMatch(c.s) && RunningIsCurrent(c.s, c.h.scheduled)
    requires c.s.exited == |ExitedWorkers(c.s)|
    requires e.Arrive? ==> BarrierKept(c, e.b)
    ensures Step(c, e).s.exited == |ExitedWorkers(Step(c, e).s)|
  {
    hide QueuesMatch, ExitedWorkers, DoCreate, DoSchedule, DoLock, DoUnlock, DoArrive, DoReturn, DoExit, DoMutexInit,
        DoBarrierInit;
    match e
    case Exit => ExitCounts(c.s, c.h.scheduled);
    case Create => CreateExitsNobody(c.s);
    case Schedule => ScheduleExitsNobody(c.s);
    case Lock(m) => LockExitsNobody(c.s, m);
    case Unlock(m) => UnlockExitsNobody(c.s, m);
    case Arrive(b) => ArriveExitsNobody(c.s, b);
    case Return(b) => OthersExitNobody(c.s, 0, 0, b);
    case MutexInit(owner) => OthersExitNobody(c.s, owner, 0, 0);
    case BarrierInit(count) => OthersExitNobody(c.s, 0, count, 0);
  }

  // ---------------------------------------------------------------- whole runs

  /** Every step keeps the invariant; a run ends when the last thread exits. */
  lemma StepKeepsInv(c: Config, e: Event)
    requires Inv(c) && Enabled(c, e)
    ensures Step(c, e).s.mode == Live ==> Inv(Step(c, e))
  {
    hide QueuesMatch, ExitedWorkers, MutexKept, BarrierKept;
    StepKeepsShape(c, e);
    if Step(c, e).s.mode == Live {
      StepKeepsQueues(c, e);
      StepKeepsRunning(c, e);
      StepKeepsExited(c, e);
      StepKeepsHolding(c, e);
      forall m | 0 <= m < |Step(c, e).s.mutexes| ensures MutexKept(Step(c, e), m) {
        StepKeepsMutex(c, e, m);
      }
      forall b | 0 <= b < |Step(c, e).s.barriers| ensures BarrierKept(Step(c, e), b) {
        StepKeepsBarrier(c, e, b);
      }
    }
  }

  ghost predicate IsRun(c: Config, es: seq<Event>)
    decreases |es|
  {
    es != [] ==> Shaped(c) && Enabled(c, es[0]) && IsRun(Step(c, es[0]), es[1..])
  }

  ghost function After(c: Config, es: seq<Event>): Config
    requires IsRun(c, es)
    decreases |es|
  {
    if es == [] then c else After(Step(c, es[0]), es[1..])
  }

  /** What the calls of a run return, step by step. */
  ghost function Values(c: Config, es: seq<Event>): (vs: seq<Option<int>>)
    requires IsRun(c, es)
    ensures |vs| == |es|
    decreases |es|
  {
    if es == [] then [] else [Value(c, es[0])] + Values(Step(c, es[0]), es[1..])
  }

  /** The invariant holds after every run from the start of the program. */
  lemma {:induction false} RunKeepsInv(c: Config, es: seq<Event>)
    requires Inv(c) && IsRun(c, es)
    ensures After(c, es).s.mode == Live ==> Inv(After(c, es))
    decreases |es|
  {
    if es != [] {
      StepKeepsInv(c, es[0]);
      if Step(c, es[0]).s.mode == Live {
        RunKeepsInv(Step(c, es[0]), es[1..]);
      }
    }
  }

  lemma StartKeepsInv()
    ensures Inv(Start())
  {
    assert ExitedWorkers(Init()) == {};
    assert BlockedThreads(Init().status) == {};
  }
}

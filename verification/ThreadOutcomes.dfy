/** What each call of the thread library does to the threads, mutexes and barriers, said of the
    state before it, and what a run as a whole adds up to. */
module ThreadOutcomes {
  import opened Common
  import opened ThreadModel
  import opened ThreadRuns
  import opened ThreadTheorems

  // ---------------------------------------------------------------- one call

  /** No thread other than `t` changes its status. */
  predicate OthersStay(s: State, s': State, t: nat)
    requires |s.status| == |s'.status| == MAX_THREADS
  {
    forall u: Tid | u != t :: s'.status[u] == s.status[u]
  }

  /** Who runs, and how many threads there are. */
  predicate SameThreads(s: State, s': State) {
    && s'.numOfThreads == s.numOfThreads && s'.current == s.current && s'.top == s.top
    && s'.exited == s.exited && s'.firstCall == s.firstCall && s'.mode == s.mode
  }

  /** All mutexes but the one numbered `m` are as before. */
  predicate OtherMutexesStay(s: State, s': State, m: nat) {
    |s.mutexes| <= |s'.mutexes| && forall i | 0 <= i < |s.mutexes| && i != m :: s'.mutexes[i] == s.mutexes[i]
  }

  predicate OtherBarriersStay(s: State, s': State, b: nat) {
    |s.barriers| <= |s'.barriers| && forall i | 0 <= i < |s.barriers| && i != b :: s'.barriers[i] == s.barriers[i]
  }

  /** `pthread_create` makes the next slot ready, and main with the first creation; it runs nobody. */
  lemma CreateOutcome(c: Config)
    requires Shaped(c) && Enabled(c, Create)
    ensures var s, s', n := c.s, Step(c, Create).s, c.s.numOfThreads + 1;
            && s'.numOfThreads == n && |s'.status| == MAX_THREADS && s'.status[n] == Ready && !s'.firstCall
            && (forall u: Tid | u != n :: s'.status[u] == if u == 0 && s.firstCall then Ready else s.status[u])
            && s'.current == s.current && s'.top == s.top && s'.exited == s.exited && s'.mode == s.mode
            && s'.mutexes == s.mutexes && s'.barriers == s.barriers && Value(c, Create) == Some(0)
  {}

  /** `pthread_mutex_init` adds a free mutex nobody waits for. */
  lemma MutexInitOutcome(c: Config, owner: int)
    requires Shaped(c) && Enabled(c, MutexInit(owner))
    ensures var s, s', m := c.s, Step(c, MutexInit(owner)).s, |c.s.mutexes|;
            && |s'.mutexes| == m + 1 && s'.mutexes[m].free && s'.mutexes[m].waiters == []
            && s'.mutexes[m].owner == owner && Value(c, MutexInit(owner)) == Some(0)
            && OtherMutexesStay(s, s', m) && s'.barriers == s.barriers && s'.status == s.status && SameThreads(s, s')
  {
    hide AtLarge;
  }

  /** `pthread_mutex_lock` gives a free mutex to its caller, who runs on; otherwise the caller blocks
      at the end of that queue. */
  lemma LockOutcome(c: Config, m: nat)
    requires Shaped(c) && Enabled(c, Lock(m))
    ensures var s, s' := c.s, Step(c, Lock(m)).s;
            var mu, mu', held := s.mutexes[m], Step(c, Lock(m)).s.mutexes[m], Step(c, Lock(m)).h.holding;
            && |s'.status| == MAX_THREADS && OthersStay(s, s', s.current) && SameThreads(s, s')
            && OtherMutexesStay(s, s', m) && s'.barriers == s.barriers && !mu'.free
            && (if mu.free
                then && s'.status[s.current] == s.status[s.current] && held == c.h.holding + {(s.current, m)}
                     && mu'.owner == s.current && mu'.waiters == mu.waiters
                else && s'.status[s.current] == Blocked && held == c.h.holding
                     && mu'.owner == mu.owner && mu'.waiters == mu.waiters + [s.current])
  {
    hide AtLarge;
  }

  /** `pthread_mutex_unlock` makes the first waiting thread ready and the holder; the owner field is
      not updated. With nobody waiting it is set to the mark for no owner and the mutex stays
      claimed. */
  lemma UnlockOutcome(c: Config, m: nat)
    requires Shaped(c) && Enabled(c, Unlock(m)) && MutexKept(c, m)
    ensures var s, s' := c.s, Step(c, Unlock(m)).s;
            var mu, mu', held := s.mutexes[m], Step(c, Unlock(m)).s.mutexes[m], Step(c, Unlock(m)).h.holding;
            && |s'.status| == MAX_THREADS && SameThreads(s, s') && OtherMutexesStay(s, s', m)
            && s'.barriers == s.barriers && !mu'.free && Value(c, Unlock(m)) == Some(0)
            && (if mu.waiters == []
                then && s'.status == s.status && held == c.h.holding - {(s.current, m)}
                     && mu'.owner == 149311 && mu'.waiters == []
                else && OthersStay(s, s', mu.waiters[0]) && s'.status[mu.waiters[0]] == Ready
                     && held == c.h.holding - {(s.current, m)} + {(mu.waiters[0], m)}
                     && mu'.owner == mu.owner && mu'.waiters == mu.waiters[1..])
  {
    hide AtLarge;
  }

  /** `pthread_barrier_init` refuses a count of zero and otherwise adds a barrier of that count at
      which nobody has arrived. */
  lemma BarrierInitOutcome(c: Config, count: nat)
    requires Shaped(c) && Enabled(c, BarrierInit(count))
    ensures var s, s', b := c.s, Step(c, BarrierInit(count)).s, |c.s.barriers|;
            && Value(c, BarrierInit(count)) == Some(if count == 0 then 22 else 0)
            && (count == 0 ==> s' == s)
            && (count > 0 ==> |s'.barriers| == b + 1 && s'.barriers[b] == Barrier(count, 0, true, []))
            && OtherBarriersStay(s, s', b) && s'.mutexes == s.mutexes && s'.status == s.status && SameThreads(s, s')
  {
    hide AtLarge;
  }

  /** The return half of a barrier call changes no thread. */
  lemma ReturnOutcome(c: Config, b: nat)
    requires Shaped(c) && Enabled(c, Return(b))
    ensures var s, s' := c.s, Step(c, Return(b)).s;
            && s'.status == s.status && s'.mutexes == s.mutexes && SameThreads(s, s') && OtherBarriersStay(s, s', b)
            && s'.barriers[b].waiters == s.barriers[b].waiters
            && s'.barriers[b].currentCount == s.barriers[b].currentCount
  {
    hide Inside;
  }

  // ---------------------------------------------------------------- whole runs

  function Created(es: seq<Event>): nat {
    if es == [] then 0 else (if es[0].Create? then 1 else 0) + Created(es[1..])
  }

  function MutexesMade(es: seq<Event>): nat {
    if es == [] then 0 else (if es[0].MutexInit? then 1 else 0) + MutexesMade(es[1..])
  }

  lemma StepAddsUp(c: Config, e: Event)
    requires Shaped(c) && Enabled(c, e)
    ensures Step(c, e).s.numOfThreads == c.s.numOfThreads + if e.Create? then 1 else 0
    ensures |Step(c, e).s.mutexes| == |c.s.mutexes| + if e.MutexInit? then 1 else 0
  {
    hide AtLarge, Inside, CanSchedule, Picked, Yielded, ReadyAll;
  }

  /** There are as many threads beside main, and as many mutexes, as the run created. */
  lemma {:induction false} RunAddsUp(c: Config, es: seq<Event>)
    requires IsRun(c, es)
    ensures After(c, es).s.numOfThreads == c.s.numOfThreads + Created(es)
    ensures |After(c, es).s.mutexes| == |c.s.mutexes| + MutexesMade(es)
    decreases |es|
  {
    hide Step, Enabled, Shaped;
    if es != [] {
      StepAddsUp(c, es[0]);
      RunAddsUp(Step(c, es[0]), es[1..]);
    }
  }

  /** The mutex, if it exists, can be claimed. */
  predicate Claimable(s: State, m: nat) {
    m < |s.mutexes| ==> s.mutexes[m].free
  }

  lemma StepClaims(c: Config, e: Event, m: nat)
    requires Inv(c) && Enabled(c, e)
    ensures Claimable(Step(c, e).s, m) <==> Claimable(c.s, m) && e != Lock(m)
  {
    hide QueuesMatch, BarrierKept, ExitedWorkers, AtLarge, Inside, DoSchedule, DoCreate, DoExit, DoArrive, DoReturn;
    match e
    case Schedule => ScheduleSparesMutexes(c.s);
    case Arrive(b) => BarriersSpareMutexes(c.s, b);
    case Return(b) => BarriersSpareMutexes(c.s, b);
    case Create => CreateSparesMutexes(c.s);
    case Exit => ExitSparesMutexes(c.s);
    case Unlock(n) => assert MutexKept(c, n);
    case _ =>
  }

  lemma {:induction false} ClaimedAfter(c: Config, es: seq<Event>, m: nat)
    requires Inv(c) && IsRun(c, es)
    ensures Claimable(After(c, es).s, m) <==> Claimable(c.s, m) && Lock(m) !in es
    decreases |es|
  {
    hide Inv, Step, Enabled, Claimable, Shaped;
    if es != [] {
      assert Shaped(c) && Enabled(c, es[0]);
      StepClaims(c, es[0], m);
      StepKeepsInv(c, es[0]);
      if Step(c, es[0]).s.mode == Live {
        ClaimedAfter(Step(c, es[0]), es[1..], m);
      } else {
        EndsThere(Step(c, es[0]), es[1..]);
      }
      assert es == [es[0]] + es[1..];
    }
  }

  /** Over every run from the start, a mutex can be claimed exactly as long as nobody has locked it:
      no unlock frees it again. */
  lemma FreeUntilLocked(es: seq<Event>, m: nat)
    requires IsRun(Start(), es) && m < MutexesMade(es)
    ensures var s := After(Start(), es).s; m < |s.mutexes| && (s.mutexes[m].free <==> Lock(m) !in es)
  {
    StartKeepsInv();
    RunAddsUp(Start(), es);
    ClaimedAfter(Start(), es, m);
  }

  // ---------------------------------------------------------------- the owner field

  /** Who holds the mutex: the thread named by the owner field until the first hand-over, and from
      then on the one it was last handed to. */
  ghost predicate OwnerKept(c: Config, m: nat) {
    Shaped(c) && m < |c.s.mutexes| ==>
      var handed := c.h.handed[m];
      && (c.s.mutexes[m].free ==> handed == [])
      && forall t | (t, m) in c.h.holding :: t == if handed == [] then c.s.mutexes[m].owner else handed[|handed| - 1]
  }

  lemma StepKeepsOwner(c: Config, e: Event, m: nat)
    requires Inv(c) && Enabled(c, e) && OwnerKept(c, m)
    ensures OwnerKept(Step(c, e), m)
  {
    hide QueuesMatch, BarrierKept, ExitedWorkers, AtLarge, Inside, RunningIsCurrent, DoSchedule, DoCreate, DoExit,
        DoArrive, DoReturn, DoMutexInit;
    if m < |c.s.mutexes| {
      assert MutexKept(c, m);
    }
    match e
    case Schedule => ScheduleSparesMutexes(c.s);
    case Arrive(b) => BarriersSpareMutexes(c.s, b);
    case Return(b) => BarriersSpareMutexes(c.s, b);
    case Create => CreateSparesMutexes(c.s);
    case Exit => ExitSparesMutexes(c.s);
    case MutexInit(owner) => NewMutex(c, owner, m);
    case _ =>
  }

  lemma NewMutex(c: Config, owner: int, m: nat)
    requires Inv(c) && Enabled(c, MutexInit(owner)) && OwnerKept(c, m)
    ensures OwnerKept(Step(c, MutexInit(owner)), m)
  {
    hide QueuesMatch, BarrierKept, ExitedWorkers, AtLarge, RunningIsCurrent;
  }

  lemma {:induction false} RunKeepsOwner(c: Config, es: seq<Event>, m: nat)
    requires Inv(c) && IsRun(c, es) && OwnerKept(c, m)
    ensures OwnerKept(After(c, es), m)
    decreases |es|
  {
    hide Inv, Step, Enabled, OwnerKept, Shaped;
    if es != [] {
      assert Shaped(c) && Enabled(c, es[0]);
      StepKeepsOwner(c, es[0], m);
      StepKeepsInv(c, es[0]);
      if Step(c, es[0]).s.mode == Live {
        RunKeepsOwner(Step(c, es[0]), es[1..], m);
      } else {
        EndsThere(Step(c, es[0]), es[1..]);
      }
    }
  }

  /** In every reachable state the owner field names the holder exactly when the mutex was never
      handed over, or was last handed to the thread it names. */
  lemma OwnerNamesHolderIff(es: seq<Event>, m: nat, t: Tid)
    requires IsRun(Start(), es) && After(Start(), es).s.mode == Live
    requires m < MutexesMade(es) && (t, m) in After(Start(), es).h.holding
    ensures var c := After(Start(), es);
            && Shaped(c) && m < |c.s.mutexes|
            && var owner, handed := c.s.mutexes[m].owner, c.h.handed[m];
               && (handed != [] ==> t == handed[|handed| - 1])
               && (owner == t <==> handed == [] || handed[|handed| - 1] == owner)
  {
    StartKeepsInv();
    RunAddsUp(Start(), es);
    RunKeepsInv(Start(), es);
    RunKeepsOwner(Start(), es, m);
  }
}

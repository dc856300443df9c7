/** Runs of the thread library that reach the states in which it departs from its intent. */
module ThreadWitnesses {
  import opened ThreadModel
  import opened ThreadRuns
  import opened ThreadTheorems

  lemma {:induction false} RunExtends(c: Config, es: seq<Event>, e: Event)
    requires IsRun(c, es) && Shaped(After(c, es)) && Enabled(After(c, es), e)
    ensures IsRun(c, es + [e]) && After(c, es + [e]) == Step(After(c, es), e)
    decreases |es|
  {
    hide Step, Enabled;
    if es == [] {
      assert es + [e] == [e] && [e][1..] == [];
    } else {
      assert (es + [e])[1..] == es[1..] + [e];
      RunExtends(Step(c, es[0]), es[1..], e);
    }
  }

  /** The run from the start takes the library to `c`, still live. */
  ghost predicate Leads(es: seq<Event>, c: Config) {
    IsRun(Start(), es) && After(Start(), es) == c && c.s.mode == Live && Inv(c)
  }

  lemma Begin()
    ensures Leads([], Start())
  {
    StartKeepsInv();
  }

  lemma Next(es: seq<Event>, c: Config, e: Event)
    requires Leads(es, c) && Enabled(c, e) && Step(c, e).s.mode == Live
    ensures Leads(es + [e], Step(c, e))
  {
    hide Inv, Step, Enabled;
    assert Shaped(c) by { InvShaped(c); }
    RunExtends(Start(), es, e);
    StepKeepsInv(c, e);
  }

  lemma InvShaped(c: Config)
    requires Inv(c)
    ensures Shaped(c)
  {}

  lemma LeadsReaches(es: seq<Event>, c: Config)
    requires Leads(es, c)
    ensures Reached(c)
  {}

  /** A thread that locks and unlocks a mutex nobody waits for leaves it to nobody. */
  lemma LockAndUnlockOrphans()
    ensures var es := [Create, MutexInit(0), Lock(0), Unlock(0)];
            IsRun(Start(), es) && Reached(After(Start(), es)) && Orphaned(After(Start(), es), 0)
  {
    hide Inv;
    Begin();
    var c1 := Step(Start(), Create);
    Next([], Start(), Create);
    var c2 := Step(c1, MutexInit(0));
    Next([Create], c1, MutexInit(0));
    var c3 := Step(c2, Lock(0));
    Next([Create, MutexInit(0)], c2, Lock(0));
    Next([Create, MutexInit(0), Lock(0)], c3, Unlock(0));
    assert [Create, MutexInit(0), Lock(0)] + [Unlock(0)] == [Create, MutexInit(0), Lock(0), Unlock(0)];
    LeadsReaches([Create, MutexInit(0), Lock(0), Unlock(0)], Step(c3, Unlock(0)));
  }

  /** Main, one worker and one mutex. */
  function Two(main: Status, worker: Status, current: Tid, mutex: Mutex): State
    requires current <= 1
  {
    State(Init().status[0 := main][1 := worker], 1, current, current, 0, false, [mutex], [], Live)
  }

  function Yields(main: Status): Status {
    if Runnable(main) then Ready else main
  }

  /** With two threads `schedule` goes on to the other one. */
  lemma OtherIsPicked(main: Status, worker: Status, current: Tid, mutex: Mutex)
    requires current <= 1 && Runnable(if current == 0 then worker else main)
    ensures var s := Two(main, worker, current, mutex);
            CanSchedule(s) && DoSchedule(s) ==
              if current == 0 then Two(Yields(main), Running, 1, mutex) else Two(Running, Yields(worker), 0, mutex)
  {
    var s := Two(main, worker, current, mutex);
    assert Runnable(s.status[1 - current]) && CanSchedule(s);
    assert Picked(s) == 1 - current by {
      PickedIsNearest(s, 1 - current);
    }
  }

  function Kept(holding: set<(Tid, nat)>, blocked: seq<Tid>, scheduled: bool): History {
    History(holding, [blocked], [[]], [], [], [], scheduled)
  }

  /** The worker holds the mutex and main is blocked on it. */
  function MainQueued(): Config {
    Config(Two(Blocked, Running, 1, Mutex(false, 1, [0])), Kept({(1, 0)}, [0], true))
  }

  /** The worker takes the mutex, then main blocks on it and the worker goes on. */
  lemma MainBlocks()
    ensures Leads([Create, MutexInit(0), Schedule, Lock(0), Schedule, Lock(0), Schedule], MainQueued())
  {
    hide DoSchedule, Inv, CanSchedule;
    WorkerLocks();
    var c := Config(Two(Ready, Running, 1, Mutex(false, 1, [])), Kept({(1, 0)}, [], true));
    OtherIsPicked(Ready, Running, 1, c.s.mutexes[0]);
    Next([Create, MutexInit(0), Schedule, Lock(0)], c, Schedule);
    var c1 := Config(Two(Running, Ready, 0, Mutex(false, 1, [])), Kept({(1, 0)}, [], true));
    assert Step(c, Schedule) == c1;
    Next([Create, MutexInit(0), Schedule, Lock(0), Schedule], c1, Lock(0));
    var c2 := Config(Two(Blocked, Ready, 0, Mutex(false, 1, [0])), Kept({(1, 0)}, [0], true));
    assert Step(c1, Lock(0)).s.status == c2.s.status && [] + [0] == [0];
    assert Step(c1, Lock(0)) == c2;
    OtherIsPicked(Blocked, Ready, 0, c2.s.mutexes[0]);
    Next([Create, MutexInit(0), Schedule, Lock(0), Schedule, Lock(0)], c2, Schedule);
  }

  lemma WorkerLocks()
    ensures Leads([Create, MutexInit(0), Schedule, Lock(0)],
                  Config(Two(Ready, Running, 1, Mutex(false, 1, [])), Kept({(1, 0)}, [], true)))
  {
    hide DoSchedule, Inv, CanSchedule;
    Begin();
    Next([], Start(), Create);
    var c := Step(Start(), Create);
    Next([Create], c, MutexInit(0));
    var c1 := Config(Two(Ready, Ready, 0, Mutex(true, 0, [])), Kept({}, [], false));
    assert Step(c, MutexInit(0)) == c1;
    OtherIsPicked(Ready, Ready, 0, c1.s.mutexes[0]);
    Next([Create, MutexInit(0)], c1, Schedule);
    var c2 := Config(Two(Ready, Running, 1, Mutex(true, 0, [])), Kept({}, [], true));
    assert Step(c1, Schedule) == c2;
    Next([Create, MutexInit(0), Schedule], c2, Lock(0));
    assert Step(c2, Lock(0)) == Config(Two(Ready, Running, 1, Mutex(false, 1, [])), Kept({(1, 0)}, [], true));
  }

  /** When the worker then exits, main runs again although it is still queued. */
  lemma BlockedMainIsResumed()
    ensures Shaped(MainQueued()) && Enabled(MainQueued(), Exit) && MainQueued().s.status[0] == Blocked
    ensures Leads([Create, MutexInit(0), Schedule, Lock(0), Schedule, Lock(0), Schedule], MainQueued()) &&
        Reached(MainQueued())
    ensures var s := Step(MainQueued(), Exit).s;
            s.mode == BackInMain && s.status[0] == Running && s.mutexes[0].waiters == [0] && !QueuesMatch(s)
  {
    MainBlocks();
    LeadsReaches([Create, MutexInit(0), Schedule, Lock(0), Schedule, Lock(0), Schedule], MainQueued());
    WorkerMayExit();
    MainResumedOutOfQueue(MainQueued());
  }

  lemma WorkerMayExit()
    ensures Shaped(MainQueued()) && Enabled(MainQueued(), Exit)
    ensures var s := Step(MainQueued(), Exit).s;
        s.mode == BackInMain && s.status[0] == Running && s.mutexes[0].waiters == [0]
  {}

  /** When the worker unlocks instead, main holds the mutex and the owner field names the worker. */
  lemma OwnerGoesStale()
    ensures Shaped(MainQueued()) && Enabled(MainQueued(), Unlock(0)) && Reached(MainQueued())
    ensures Leads([Create, MutexInit(0), Schedule, Lock(0), Schedule, Lock(0), Schedule], MainQueued())
    ensures var c := Step(MainQueued(), Unlock(0)); c.h.holding == {(0, 0)} && c.s.mutexes[0].owner == 1
  {
    MainBlocks();
    LeadsReaches([Create, MutexInit(0), Schedule, Lock(0), Schedule, Lock(0), Schedule], MainQueued());
  }
}

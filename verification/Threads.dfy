/** threads.c: the thread table, the wait lists and the calls that update them in place. A context
    switch is a change of `currentThreadID`; what a call does after its `schedule` returns is a
    separate method. */
module Threads {
  import opened ThreadModel
  import opened WaitLists

  /** `pthread_mutex_t`: `count` is the index of its wait list. */
  class PthreadMutex {
    var lock: bool
    var count: nat
    var owner: int

    constructor () {}
  }

  /** `pthread_barrier_t`: `align` is the index of its list and counts. */
  class PthreadBarrier {
    var align: nat

    constructor () {}
  }

  /** `struct counts`. */
  datatype Counts = Counts(maxCount: nat, currentCount: nat, printSerialThread: bool)

  class ThreadLibrary {
    const tcbList: array<Status>
    var currentThreadID: Tid
    var numOfThreads: nat
    var topThread: Tid
    var exitedThreads: nat
    var isFirstCall: bool
    var mode: Mode

    var mutexId: nat
    var barrierId: nat
    // `mutexThreadLists`, then `barrierThreadLists`.
    const lists: seq<WaitList>
    const barrierCounts: array<Counts>

    // The initialised mutexes by id, and the state they all stand for.
    ghost var mutexes: seq<PthreadMutex>
    ghost var model: State
    ghost var Repr: set<object>

    ghost predicate Valid()
      reads this, Repr
    {
      && Footprint()
      && TableValid()
      && MutexesValid()
      && BarriersValid()
    }

    function MutexList(m: nat): WaitList
      requires m < MAX_THREADS && |lists| == 2 * MAX_THREADS
    {
      lists[m]
    }

    function BarrierList(b: nat): WaitList
      requires b < MAX_THREADS && |lists| == 2 * MAX_THREADS
    {
      lists[MAX_THREADS + b]
    }

    /** The objects involved, none of them shared. */
    ghost predicate Footprint()
      reads this, Repr
    {
      && this in Repr && tcbList in Repr && barrierCounts in Repr
      && |lists| == 2 * MAX_THREADS
      && (forall i | 0 <= i < |lists| :: lists[i] in Repr && (forall n | n in lists[i].nodes :: n in Repr) &&
            lists[i].Valid())
      && (forall i, j | 0 <= i < j < |lists| :: lists[i] != lists[j])
      && (forall i | 0 <= i < |mutexes| :: mutexes[i] in Repr)
    }

    ghost predicate TableValid()
      reads this, tcbList
    {
      && tcbList.Length == MAX_THREADS && numOfThreads < MAX_THREADS
      && topThread <= numOfThreads && currentThreadID <= numOfThreads
      && model.status == tcbList[..]
      && model == State(model.status, numOfThreads, currentThreadID, topThread, exitedThreads, isFirstCall,
                        model.mutexes, model.barriers, mode)
    }

    ghost predicate MutexesValid()
      reads this, Repr
      requires |lists| == 2 * MAX_THREADS
      requires (forall i | 0 <= i < |mutexes| :: mutexes[i] in Repr) && forall i | 0 <= i < |lists| :: lists[i] in Repr
    {
      && |mutexes| == |model.mutexes| == mutexId <= MAX_THREADS
      && (forall i | 0 <= i < mutexId :: mutexes[i].count == i)
      && (forall i | 0 <= i < mutexId :: model.mutexes[i] == Mutex(mutexes[i].lock, mutexes[i].owner, MutexList(i).ids))
    }

    ghost predicate BarriersValid()
      reads this, Repr
      requires |lists| == 2 * MAX_THREADS
      requires barrierCounts in Repr && forall i | 0 <= i < |lists| :: lists[i] in Repr
    {
      && |model.barriers| == barrierId <= MAX_THREADS == barrierCounts.Length
      && forall i | 0 <= i < barrierId ::
           model.barriers[i] == Barrier(barrierCounts[i].maxCount, barrierCounts[i].currentCount,
                                        barrierCounts[i].printSerialThread, BarrierList(i).ids)
    }

    /** `schedule`. */
    method Schedule()
      requires Valid() && CanSchedule(model)
      modifies this`topThread, this`currentThreadID, this`model, tcbList
      ensures Valid() && model == DoSchedule(old(model))
    {
      hide WaitList.Valid;
      ghost var s := model;
      if tcbList[topThread] != Exited && tcbList[topThread] != Blocked {
        tcbList[topThread] := Ready;
      }
      assert tcbList[..] == Yielded(s);
      NextRunnable(s);
      currentThreadID := topThread;
      tcbList[topThread] := Running;
      model := DoSchedule(s);
    }

    /** The search of `schedule` around the ring of thread slots. */
    method NextRunnable(ghost s: State)
      requires Sized(s) && CanSchedule(s) && s.numOfThreads == numOfThreads && s.top == topThread
      requires tcbList.Length == MAX_THREADS && tcbList[..] == Yielded(s)
      modifies this`topThread
      ensures topThread == Picked(s)
    {
      ghost var h := Gap(s.top, numOfThreads, Picked(s));
      PickedHops(s);
      Turn();
      ghost var k := 1;
      while tcbList[topThread] == Exited || tcbList[topThread] == Blocked
        invariant 1 <= k <= h && topThread == Ring(s.top, numOfThreads, k)
        decreases h - k
      {
        Turn();
        k := k + 1;
      }
    }

    /** `pthread_create`, up to the saved context of the new thread. */
    method Create() returns (r: int, thread: Tid)
      requires Valid() && numOfThreads + 1 < MAX_THREADS
      modifies this`numOfThreads, this`isFirstCall, this`model, tcbList
      ensures Valid() && model == DoCreate(old(model)) && r == 0 && thread == model.numOfThreads
    {
      hide WaitList.Valid;
      ghost var s := model;
      numOfThreads := numOfThreads + 1;
      thread := numOfThreads;
      tcbList[numOfThreads] := Ready;
      if isFirstCall {
        isFirstCall := false;
        tcbList[0] := Ready;
      }
      model := DoCreate(s);
      assert tcbList[..] == model.status;
      r := 0;
    }

    /** Tail insertion into one wait list leaves all others alone. */
    method AppendTo(k: nat, t: Tid)
      requires Footprint() && k < |lists|
      modifies this`Repr, lists[k], lists[k].nodes
      ensures Footprint() && old(Repr) <= Repr && fresh(Repr - old(Repr))
      ensures forall i | 0 <= i < |lists| :: lists[i].ids == if i == k then old(lists[i].ids) + [t]
          else old(lists[i].ids)
    {
      hide WaitList.Valid;
      forall i | 0 <= i < |lists| && i != k
          ensures lists[i] != lists[k] && forall n | n in lists[i].nodes :: n !in lists[k].nodes {
        lists[i].Apart(lists[k]);
      }
      lists[k].Append(t);
      Repr := Repr + {lists[k].nodes[|lists[k].nodes| - 1]};
      forall i | 0 <= i < |lists| && i != k
          ensures lists[i].Valid() && lists[i].ids == old(lists[i].ids) && lists[i].nodes == old(lists[i].nodes) {
        lists[i].Untouched();
      }
      forall n | n in lists[k].nodes ensures n in Repr {
        if n !in lists[k].nodes[..|old(lists[k].nodes)|] {
          assert n == lists[k].nodes[|old(lists[k].nodes)|];
        }
      }
    }

    /** The current thread blocks at the tail of one wait list. */
    method BlockAt(k: nat)
      requires Footprint() && k < |lists| && tcbList.Length == MAX_THREADS
      modifies this`Repr, tcbList, lists[k], lists[k].nodes
      ensures Footprint() && old(Repr) <= Repr && fresh(Repr - old(Repr))
      ensures tcbList[..] == old(tcbList[..])[currentThreadID := Blocked]
      ensures forall i | 0 <= i < |lists| ::
        lists[i].ids == if i == k then old(lists[i].ids) + [currentThreadID] else old(lists[i].ids)
    {
      hide WaitList.Valid;
      tcbList[currentThreadID] := Blocked;
      AppendTo(k, currentThreadID);
    }

    /** The lock() region of `pthread_mutex_lock`; a blocked caller goes on to `schedule`. */
    method MutexLock(mutex: PthreadMutex) returns (blocked: bool)
      requires Valid() && mutex in mutexes
      modifies Repr
      ensures Valid() && old(Repr) <= Repr && fresh(Repr - old(Repr))
      ensures mutexes == old(mutexes) && mutex.count < |mutexes|
      ensures model == DoLock(old(model), mutex.count) && blocked == !old(mutex.lock)
    {
      if mutex.lock {
        Claim(mutex);
        return false;
      } else {
        BlockOn(mutex);
        return true;
      }
    }

    method Claim(mutex: PthreadMutex)
      requires Valid() && mutex in mutexes && mutex.lock
      modifies this`model, mutex
      ensures Valid() && mutex.count == old(mutex.count) < |mutexes|
      ensures model == DoLock(old(model), mutex.count)
    {
      hide WaitList.Valid;
      mutex.lock := false;
      mutex.owner := currentThreadID;
      model := DoLock(model, mutex.count);
    }

    method BlockOn(mutex: PthreadMutex)
      requires Valid() && mutex in mutexes && !mutex.lock
      modifies this`model, this`Repr, tcbList, lists[mutex.count], lists[mutex.count].nodes
      ensures Valid() && old(Repr) <= Repr && fresh(Repr - old(Repr))
      ensures mutex.count < |mutexes| && model == DoLock(old(model), mutex.count)
    {
      hide WaitList.Valid;
      BlockAt(mutex.count);
      model := DoLock(model, mutex.count);
      assert TableValid();
      assert MutexesValid();
    }

    /** `pthread_mutex_init`. */
    method MutexInit(mutex: PthreadMutex) returns (r: int)
      requires Valid() && mutex !in mutexes && mutexId < MAX_THREADS && mutex !in Repr
      modifies this, mutex, lists[mutexId]
      ensures Valid() && Repr == old(Repr) + {mutex} && mutexes == old(mutexes) + [mutex]
      ensures model == DoMutexInit(old(model), old(mutex.owner)) && r == 0
    {
      hide WaitList.Valid;
      mutex.count := mutexId;
      mutex.lock := true;
      ClearList(mutex.count);
      mutexId := mutexId + 1;
      mutexes := mutexes + [mutex];
      Repr := Repr + {mutex};
      model := DoMutexInit(model, mutex.owner);
      r := 0;
    }

    /** Empties a list that no initialised mutex or barrier uses. */
    method ClearList(k: nat)
      requires Valid() && (mutexId <= k < MAX_THREADS || MAX_THREADS + barrierId <= k < |lists|)
      modifies lists[k]
      ensures Valid() && lists[k].ids == []
    {
      hide WaitList.Valid;
      lists[k].Clear();
      forall i | 0 <= i < |lists| && i != k ensures lists[i].Valid() {
        lists[i].Untouched();
      }
    }

    method PopFrom(k: nat)
      requires Footprint() && k < |lists| && lists[k].ids != []
      modifies lists[k]
      ensures Footprint()
      ensures forall i | 0 <= i < |lists| :: lists[i].ids == if i == k then old(lists[i].ids)[1..]
          else old(lists[i].ids)
    {
      hide WaitList.Valid;
      var t := lists[k].Pop();
      forall i | 0 <= i < |lists| && i != k ensures lists[i].Valid() {
        lists[i].Untouched();
      }
    }

    /** `pthread_mutex_unlock`. */
    method MutexUnlock(mutex: PthreadMutex) returns (r: int)
      requires Valid() && mutex in mutexes
      modifies this`model, tcbList, mutex, lists
      ensures Valid() && mutex.count == old(mutex.count) < |mutexes|
      ensures model == DoUnlock(old(model), mutex.count) && r == 0
    {
      hide WaitList.Valid;
      MutexList(mutex.count).EmptyOrHeaded();
      if MutexList(mutex.count).head == null {
        Abandon(mutex);
      } else {
        HandOver(mutex);
      }
      r := 0;
    }

    /** Nobody waits: the mutex stays claimed, by nobody. */
    method Abandon(mutex: PthreadMutex)
      requires Valid() && mutex in mutexes && MutexList(mutex.count).ids == []
      modifies this`model, mutex
      ensures Valid() && mutex.count == old(mutex.count) < |mutexes|
      ensures model == DoUnlock(old(model), mutex.count)
    {
      hide WaitList.Valid;
      mutex.lock := false;
      mutex.owner := NO_OWNER;
      model := DoUnlock(model, mutex.count);
    }

    /** The first waiting thread is made ready and leaves the list. */
    method HandOver(mutex: PthreadMutex)
      requires Valid() && mutex in mutexes && MutexList(mutex.count).head != null
      modifies this`model, tcbList, lists[mutex.count]
      ensures Valid() && mutex.count < |mutexes|
      ensures model == DoUnlock(old(model), mutex.count)
    {
      hide WaitList.Valid;
      MutexList(mutex.count).EmptyOrHeaded();
      var threadID := MutexList(mutex.count).head.threadID;
      tcbList[threadID] := Ready;
      PopFrom(mutex.count);
      model := DoUnlock(model, mutex.count);
    }

    /** `pthread_barrier_init`. */
    method BarrierInit(barrier: PthreadBarrier, count: nat) returns (r: int)
      requires Valid() && (count > 0 ==> barrierId < MAX_THREADS) && barrier !in Repr
      modifies this`model, this`barrierId, barrier, barrierCounts
      modifies if barrierId < MAX_THREADS then {lists[MAX_THREADS + barrierId]} else {}
      ensures Valid() && model == DoBarrierInit(old(model), count)
      ensures r == if count == 0 then EINVAL else 0
      ensures count > 0 ==> barrier.align == |old(model.barriers)|
    {
      hide WaitList.Valid;
      if count == 0 {
        return EINVAL;
      }
      barrier.align := barrierId;
      barrierCounts[barrier.align] := Counts(count, 0, true);
      ClearList(MAX_THREADS + barrier.align);
      barrierId := barrierId + 1;
      model := DoBarrierInit(model, count);
      r := 0;
    }

    /** The lock() region of `pthread_barrier_wait`; a blocked caller goes on to `schedule`. */
    method BarrierArrive(barrier: PthreadBarrier) returns (blocked: bool)
      requires Valid() && barrier.align < barrierId
      modifies this`model, this`Repr, tcbList, barrierCounts, lists[MAX_THREADS + barrier.align],
          lists[MAX_THREADS + barrier.align].nodes
      ensures Valid() && old(Repr) <= Repr && fresh(Repr - old(Repr))
      ensures barrier.align < |old(model).barriers| && model == DoArrive(old(model), barrier.align)
      ensures blocked == (old(model).barriers[barrier.align].currentCount +
          1 != old(model).barriers[barrier.align].maxCount)
    {
      hide WaitList.Valid;
      var b := barrier.align;
      var counts := barrierCounts[b];
      counts := counts.(currentCount := counts.currentCount + 1);
      if counts.printSerialThread == false {
        counts := counts.(printSerialThread := true);
      }
      if counts.maxCount != counts.currentCount {
        BarrierBlock(b, counts);
        return true;
      } else {
        BarrierRelease(b, counts.(currentCount := 0));
        return false;
      }
    }

    method BarrierBlock(b: nat, counts: Counts)
      requires Valid() && b < barrierId
      requires counts == barrierCounts[b].(currentCount := barrierCounts[b].currentCount + 1, printSerialThread := true)
      requires counts.maxCount != counts.currentCount
      modifies this`model, this`Repr, tcbList, barrierCounts, lists[MAX_THREADS + b], lists[MAX_THREADS + b].nodes
      ensures Valid() && old(Repr) <= Repr && fresh(Repr - old(Repr))
      ensures b < |old(model).barriers| && model == DoArrive(old(model), b)
    {
      hide WaitList.Valid;
      barrierCounts[b] := counts;
      BlockAt(MAX_THREADS + b);
      model := DoArrive(model, b);
    }

    method BarrierRelease(b: nat, counts: Counts)
      requires Valid() && b < barrierId
      requires counts == barrierCounts[b].(currentCount := 0, printSerialThread := true)
      requires barrierCounts[b].maxCount == barrierCounts[b].currentCount + 1
      modifies this`model, tcbList, barrierCounts
      ensures Valid() && b < |old(model).barriers| && model == DoArrive(old(model), b)
    {
      hide WaitList.Valid;
      barrierCounts[b] := counts;
      BarrierList(b).ReleaseInto(tcbList);
      forall i | 0 <= i < |lists| ensures lists[i].Valid() {
        lists[i].Untouched();
      }
      model := DoArrive(model, b);
    }

    /** What a barrier call does once it goes on: test and clear the serial flag. */
    method BarrierReturn(barrier: PthreadBarrier) returns (r: int)
      requires Valid() && barrier.align < barrierId
      modifies this`model, barrierCounts
      ensures Valid() && barrier.align < |old(model).barriers| && model == DoReturn(old(model), barrier.align).0
      ensures r == if DoReturn(old(model), barrier.align).1 then PTHREAD_BARRIER_SERIAL_THREAD else 0
    {
      hide WaitList.Valid;
      var b := barrier.align;
      model := DoReturn(model, b).0;
      if barrierCounts[b].printSerialThread {
        barrierCounts[b] := barrierCounts[b].(printSerialThread := false);
        return PTHREAD_BARRIER_SERIAL_THREAD;
      } else {
        return 0;
      }
    }

    /** `pthread_exit`: schedules on, resumes main, or ends the process. */
    method Exit()
      requires Valid()
      requires MarkExit(model).exited != model.numOfThreads ==> CanSchedule(MarkExit(model))
      modifies this`exitedThreads, this`topThread, this`currentThreadID, this`mode, this`model, tcbList
      ensures Valid() && model == DoExit(old(model))
    {
      hide WaitList.Valid;
      Leave();
      if exitedThreads != numOfThreads {
        Schedule();
      } else {
        Finish();
      }
    }

    method Leave()
      requires Valid()
      modifies this`exitedThreads, this`model, tcbList
      ensures Valid() && model == MarkExit(old(model))
    {
      hide WaitList.Valid;
      model := MarkExit(model);
      tcbList[currentThreadID] := Exited;
      if currentThreadID != 0 {
        exitedThreads := exitedThreads + 1;
      }
    }

    method Finish()
      requires Valid()
      modifies this`currentThreadID, this`mode, this`model, tcbList
      ensures Valid()
      ensures model == if old(model).status[0] != Exited
        then old(model).(current := 0, status := old(model).status[0 := Running], mode := BackInMain)
        else old(model).(mode := Over)
    {
      hide WaitList.Valid;
      if tcbList[0] != Exited {
        model := model.(current := 0, status := model.status[0 := Running], mode := BackInMain);
        currentThreadID := 0;
        tcbList[0] := Running;
        mode := BackInMain;
      } else {
        model := model.(mode := Over);
        mode := Over;
      }
    }

    /** The zero-initialised globals. */
    constructor ()
      ensures Valid() && fresh(Repr) && model == Init() && mutexes == []
    {
      hide WaitList.Valid;
      tcbList := new Status[MAX_THREADS](_ => Exited);
      barrierCounts := new Counts[MAX_THREADS](_ => Counts(0, 0, false));
      currentThreadID, numOfThreads, topThread, exitedThreads := 0, 0, 0, 0;
      isFirstCall, mode, mutexId, barrierId := true, ThreadModel.Live, 0, 0;
      var ls := EmptyLists(2 * MAX_THREADS);
      lists := ls;
      mutexes, model := [], Init();
      new;
      Repr := {this, tcbList, barrierCounts} + set l | l in ls;
      assert tcbList[..] == model.status;
    }

    /** `topThread++` with the wrap to slot 0. */
    method Turn()
      requires topThread <= numOfThreads < MAX_THREADS
      modifies this`topThread
      ensures topThread == Ring(old(topThread), numOfThreads, 1)
    {
      if topThread + 1 == numOfThreads + 1 {
        topThread := 0;
      } else {
        topThread := topThread + 1;
      }
    }
  }

  method EmptyLists(n: nat) returns (ls: seq<WaitList>)
    ensures |ls| == n && fresh(ls)
    ensures forall i | 0 <= i < n :: ls[i].Valid() && ls[i].ids == [] && ls[i].nodes == []
    ensures forall i, j | 0 <= i < j < n :: ls[i] != ls[j]
  {
    ls := [];
    for k := 0 to n
      invariant |ls| == k && fresh(ls)
      invariant forall i | 0 <= i < k :: ls[i].Valid() && ls[i].ids == [] && ls[i].nodes == []
      invariant forall i, j | 0 <= i < j < k :: ls[i] != ls[j]
    {
      var l := new WaitList();
      ls := ls + [l];
    }
  }

  /** The pick is `Hops` places on, and no slot before it is runnable. */
  lemma PickedHops(s: State)
    requires Sized(s) && CanSchedule(s)
    ensures forall j | 1 <= j < Gap(s.top, s.numOfThreads, Picked(s)) ::
        !Runnable(Yielded(s)[Ring(s.top, s.numOfThreads, j)])
    ensures Runnable(Yielded(s)[Picked(s)])
  {}
}

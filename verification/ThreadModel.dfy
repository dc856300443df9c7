/** The thread library of threads.c as a state machine. The lock()/unlock() regions, `schedule`,
    the test-and-clear of the serial flag and `pthread_exit` are single steps; an alarm may run
    `schedule` between any two steps. */
module ThreadModel {

  const MAX_THREADS: nat := 128
  const NO_OWNER: int := 149311

  const EINVAL: int := 22
  const PTHREAD_BARRIER_SERIAL_THREAD: int := -1

  type Tid = t: nat | t < MAX_THREADS

  datatype Status = Exited | Running | Ready | Blocked

  datatype Mutex = Mutex(free: bool, owner: int, waiters: seq<Tid>)

  datatype Barrier = Barrier(maxCount: nat, currentCount: nat, serial: bool, waiters: seq<Tid>)

  /** `BackInMain`: the last worker has exited and main was resumed; `Over`: exit(0). */
  datatype Mode = Live | BackInMain | Over

  datatype State = State(
    status: seq<Status>, numOfThreads: nat, current: Tid, top: Tid, exited: nat, firstCall: bool,
    mutexes: seq<Mutex>, barriers: seq<Barrier>, mode: Mode)

  /** The zero-initialised globals: a zero status is Exited. */
  function Init(): State {
    State(seq(MAX_THREADS, _ => Exited), 0, 0, 0, 0, true, [], [], Live)
  }

  ghost predicate Sized(s: State) {
    && |s.status| == MAX_THREADS && s.numOfThreads < MAX_THREADS
    && s.top <= s.numOfThreads && s.current <= s.numOfThreads
  }

  // ---------------------------------------------------------------- scheduler

  predicate Runnable(st: Status) {
    st != Exited && st != Blocked
  }

  /** The slot `k` places after `top` in the ring 0..n, up to one whole turn. */
  function Ring(top: nat, n: nat, k: nat): (t: nat)
    requires top <= n && k <= n + 1
    ensures t <= n
  {
    if top + k <= n then top + k else top + k - n - 1
  }

  /** How many places `schedule` moves on from `top`: to the first runnable slot, looking at
      `top` itself last. */
  function Hops(status: seq<Status>, n: nat, top: nat, k: nat): (h: nat)
    requires top <= n < |status| && 1 <= k <= n + 1
    requires exists j :: k <= j <= n + 1 && Runnable(status[Ring(top, n, j)])
    ensures k <= h <= n + 1 && Runnable(status[Ring(top, n, h)])
    ensures forall j | k <= j < h :: !Runnable(status[Ring(top, n, j)])
    decreases n + 1 - k
  {
    if Runnable(status[Ring(top, n, k)]) then k else Hops(status, n, top, k + 1)
  }

  /** The cyclic distance from `top` forward to `t`, a whole turn when they are equal. */
  function Gap(top: nat, n: nat, t: nat): (g: nat)
    requires top <= n && t <= n
    ensures 1 <= g <= n + 1 && Ring(top, n, g) == t
    ensures forall k | 1 <= k <= n + 1 && Ring(top, n, k) == t :: k == g
  {
    if t > top then t - top else t + n + 1 - top
  }

  /** The status array `schedule` searches: the thread it leaves is ready again unless it has
      exited or blocked. */
  function Yielded(s: State): (status: seq<Status>)
    requires Sized(s)
    ensures |status| == |s.status|
  {
    if Runnable(s.status[s.top]) then s.status[s.top := Ready] else s.status
  }

  predicate CanSchedule(s: State)
    requires Sized(s)
  {
    exists t | 0 <= t <= s.numOfThreads :: Runnable(s.status[t])
  }

  /** The thread `schedule` picks. */
  function Picked(s: State): (t: nat)
    requires Sized(s) && CanSchedule(s)
    ensures t <= s.numOfThreads && Runnable(s.status[t])
  {
    assert exists j :: 1 <= j <= s.numOfThreads + 1 && Runnable(Yielded(s)[Ring(s.top, s.numOfThreads, j)]) by {
      var t :| 0 <= t <= s.numOfThreads && Runnable(s.status[t]);
      assert Runnable(Yielded(s)[Ring(s.top, s.numOfThreads, Gap(s.top, s.numOfThreads, t))]);
    }
    Ring(s.top, s.numOfThreads, Hops(Yielded(s), s.numOfThreads, s.top, 1))
  }

  function DoSchedule(s: State): State
    requires Sized(s) && CanSchedule(s)
  {
    s.(status := Yielded(s)[Picked(s) := Running], top := Picked(s), current := Picked(s))
  }

  // ---------------------------------------------------------------- steps

  function DoCreate(s: State): State
    requires Sized(s) && s.numOfThreads + 1 < MAX_THREADS
  {
    var n := s.numOfThreads + 1;
    var status := s.status[n := Ready];
    s.(numOfThreads := n, status := if s.firstCall then status[0 := Ready] else status, firstCall := false)
  }

  /** The owner field keeps whatever value it had. */
  function DoMutexInit(s: State, owner: int): State {
    s.(mutexes := s.mutexes + [Mutex(true, owner, [])])
  }

  /** A count of zero is refused. */
  function DoBarrierInit(s: State, count: nat): State {
    if count == 0 then s else s.(barriers := s.barriers + [Barrier(count, 0, true, [])])
  }

  /** Claims a free mutex; otherwise blocks at the tail of its queue. */
  function DoLock(s: State, m: nat): State
    requires Sized(s) && m < |s.mutexes|
  {
    var mu := s.mutexes[m];
    if mu.free then s.(mutexes := s.mutexes[m := mu.(free := false, owner := s.current)])
    else s.(status := s.status[s.current := Blocked],
            mutexes := s.mutexes[m := mu.(waiters := mu.waiters + [s.current])])
  }

  /** Hands the mutex to the head of its queue; with no waiters it stays claimed, by nobody. */
  function DoUnlock(s: State, m: nat): State
    requires Sized(s) && m < |s.mutexes|
  {
    var mu := s.mutexes[m];
    if mu.waiters == [] then s.(mutexes := s.mutexes[m := mu.(free := false, owner := NO_OWNER)])
    else s.(status := s.status[mu.waiters[0] := Ready],
            mutexes := s.mutexes[m := mu.(waiters := mu.waiters[1..])])
  }

  /** `status` with every listed thread made ready. */
  function ReadyAll(status: seq<Status>, ts: seq<Tid>): (r: seq<Status>)
    requires |status| == MAX_THREADS
    ensures |r| == |status|
    ensures forall t | 0 <= t < |r| :: r[t] == if t in ts then Ready else status[t]
    decreases |ts|
  {
    if ts == [] then status else ReadyAll(status[ts[0] := Ready], ts[1..])
  }

  /** The arrival half of `pthread_barrier_wait`. The list of a released round is not cleared. */
  function DoArrive(s: State, b: nat): State
    requires Sized(s) && b < |s.barriers|
  {
    var ba := s.barriers[b].(currentCount := s.barriers[b].currentCount + 1, serial := true);
    if ba.maxCount != ba.currentCount then
      s.(status := s.status[s.current := Blocked],
         barriers := s.barriers[b := ba.(waiters := ba.waiters + [s.current])])
    else
      s.(status := ReadyAll(s.status, ba.waiters), barriers := s.barriers[b := ba.(currentCount := 0)])
  }

  /** The return half: whoever finds the serial flag set clears it and is the serial thread. */
  function DoReturn(s: State, b: nat): (State, bool)
    requires b < |s.barriers|
  {
    (s.(barriers := s.barriers[b := s.barriers[b].(serial := false)]), s.barriers[b].serial)
  }

  /** The current thread marked and counted as exited. */
  function MarkExit(s: State): State
    requires Sized(s)
  {
    s.(status := s.status[s.current := Exited], exited := if s.current != 0 then s.exited + 1 else s.exited)
  }

  function DoExit(s: State): State
    requires Sized(s)
    requires MarkExit(s).exited != s.numOfThreads ==> CanSchedule(MarkExit(s))
  {
    var x := MarkExit(s);
    if x.exited != x.numOfThreads then DoSchedule(x)
    else if x.status[0] != Exited then x.(current := 0, status := x.status[0 := Running], mode := BackInMain)
    else x.(mode := Over)
  }
}

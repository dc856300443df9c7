/** Whole runs on the running thread library: its arrays and lists end in the state the run
    leads to. */
module ThreadCalls {
  import opened Common
  import opened ThreadModel
  import opened ThreadRuns
  import opened WaitLists
  import opened Threads

  /** The program's mutexes and barriers, in the order in which they were initialised. */
  ghost predicate Knows(lib: ThreadLibrary, ms: seq<PthreadMutex>, bs: seq<PthreadBarrier>)
    reads lib, bs
  {
    && ms == lib.mutexes && |bs| == |lib.model.barriers|
    && forall b | 0 <= b < |bs| :: bs[b].align == b && bs[b] !in lib.Repr
  }

  lemma Ids(lib: ThreadLibrary)
    requires lib.Valid()
    ensures lib.mutexId == |lib.model.mutexes| == |lib.mutexes| && lib.barrierId == |lib.model.barriers|
    ensures lib.numOfThreads == lib.model.numOfThreads
    ensures forall m | m in lib.mutexes :: m in lib.Repr
    ensures |lib.lists| == 2 * MAX_THREADS && lib in lib.Repr && lib.tcbList in lib.Repr &&
        lib.barrierCounts in lib.Repr
    ensures forall i | 0 <= i < |lib.lists| ::
        lib.lists[i] in lib.Repr && forall n | n in lib.lists[i].nodes :: n in lib.Repr
    ensures forall m | 0 <= m < |lib.mutexes| :: lib.mutexes[m].count == m
  {}

  /** The lists and counts have room for whatever the step initialises. */
  predicate HasRoom(s: State) {
    |s.mutexes| <= MAX_THREADS && |s.barriers| <= MAX_THREADS
  }

  method MutexStep(lib: ThreadLibrary, ms: seq<PthreadMutex>, bs: seq<PthreadBarrier>, ghost c: Config, e: Event)
    returns (ms': seq<PthreadMutex>, v: Option<int>)
    requires lib.Valid() && lib.model == c.s && Knows(lib, ms, bs) && Shaped(c) && Enabled(c, e) &&
        HasRoom(Step(c, e).s)
    requires e.MutexInit? || e.Lock? || e.Unlock?
    modifies lib.Repr
    ensures lib.Valid() && old(lib.Repr) <= lib.Repr && fresh(lib.Repr - old(lib.Repr))
    ensures lib.model == Step(c, e).s && Knows(lib, ms', bs) && v == Value(c, e)
  {
    hide WaitList.Valid, ThreadLibrary.Footprint, ThreadLibrary.TableValid, ThreadLibrary.MutexesValid,
        ThreadLibrary.BarriersValid;
    hide AtLarge;
    Ids(lib);
    ms', v := ms, None;
    match e {
      case MutexInit(owner) =>
        var m := new PthreadMutex();
        m.owner := owner;
        var r := lib.MutexInit(m);
        ms', v := ms + [m], Some(r);
      case Lock(m) =>
        var _ := lib.MutexLock(ms[m]);
      case Unlock(m) =>
        var r := lib.MutexUnlock(ms[m]);
        v := Some(r);
    }
    Ids(lib);
  }

  method BarrierStep(lib: ThreadLibrary, ms: seq<PthreadMutex>, bs: seq<PthreadBarrier>, ghost c: Config, e: Event)
    returns (bs': seq<PthreadBarrier>, v: Option<int>)
    requires lib.Valid() && lib.model == c.s && Knows(lib, ms, bs) && Shaped(c) && Enabled(c, e) &&
        HasRoom(Step(c, e).s)
    requires e.BarrierInit? || e.Arrive? || e.Return?
    modifies lib.Repr
    ensures lib.Valid() && old(lib.Repr) <= lib.Repr && fresh(lib.Repr - old(lib.Repr))
    ensures lib.model == Step(c, e).s && Knows(lib, ms, bs') && v == Value(c, e)
  {
    hide WaitList.Valid, ThreadLibrary.Footprint, ThreadLibrary.TableValid, ThreadLibrary.MutexesValid,
        ThreadLibrary.BarriersValid;
    hide AtLarge;
    Ids(lib);
    bs', v := bs, None;
    match e {
      case BarrierInit(count) =>
        var b := new PthreadBarrier();
        var r := lib.BarrierInit(b, count);
        v := Some(r);
        if count > 0 {
          bs' := bs + [b];
        }
      case Arrive(b) =>
        var _ := lib.BarrierArrive(bs[b]);
      case Return(b) =>
        var r := lib.BarrierReturn(bs[b]);
        v := Some(r);
    }
  }

  method ThreadStep(lib: ThreadLibrary, ms: seq<PthreadMutex>, bs: seq<PthreadBarrier>, ghost c: Config, e: Event)
    returns (v: Option<int>)
    requires lib.Valid() && lib.model == c.s && Knows(lib, ms, bs) && Shaped(c) && Enabled(c, e)
    requires e.Create? || e.Schedule? || e.Exit?
    modifies lib.Repr
    ensures lib.Valid() && lib.Repr == old(lib.Repr) && lib.model == Step(c, e).s && Knows(lib, ms, bs)
    ensures v == Value(c, e)
  {
    hide WaitList.Valid, ThreadLibrary.Footprint, ThreadLibrary.TableValid, ThreadLibrary.MutexesValid,
        ThreadLibrary.BarriersValid;
    hide AtLarge;
    Ids(lib);
    v := None;
    match e {
      case Create =>
        var r, _ := lib.Create();
        v := Some(r);
      case Schedule =>
        lib.Schedule();
      case Exit =>
        lib.Exit();
    }
  }

  /** No step of the run initialises more mutexes or barriers than the lists and counts hold. */
  ghost predicate RunHasRoom(c: Config, es: seq<Event>)
    requires IsRun(c, es)
    decreases |es|
  {
    HasRoom(c.s) && (es != [] ==> RunHasRoom(Step(c, es[0]), es[1..]))
  }

  /** Every run from the start, played on the arrays and lists of the library, returns what the
      calls of the run return and ends with the library standing for the state the run leads to. */
  method Play(es: seq<Event>) returns (lib: ThreadLibrary, vs: seq<Option<int>>)
    requires IsRun(Start(), es) && RunHasRoom(Start(), es)
    ensures fresh(lib) && lib.Valid() && lib.model == After(Start(), es).s
    ensures vs == Values(Start(), es)
  {
    hide ThreadLibrary.Valid, Step, Enabled, Shaped, Start, Value;
    lib := new ThreadLibrary();
    vs := [];
    var ms, bs := [], [];
    ghost var c, left := Start(), es;
    StartIsInit();
    for i := 0 to |es|
      invariant left == es[i..] && IsRun(c, left) && RunHasRoom(c, left) && After(c, left) == After(Start(), es)
      invariant vs + Values(c, left) == Values(Start(), es)
      invariant fresh(lib) && fresh(lib.Repr) && lib.Valid() && lib.model == c.s && Knows(lib, ms, bs)
    {
      var e := es[i];
      assert left[0] == e;
      var v;
      if e.MutexInit? || e.Lock? || e.Unlock? {
        ms, v := MutexStep(lib, ms, bs, c, e);
      } else if e.BarrierInit? || e.Arrive? || e.Return? {
        bs, v := BarrierStep(lib, ms, bs, c, e);
      } else {
        v := ThreadStep(lib, ms, bs, c, e);
      }
      assert vs + ([v] + Values(Step(c, e), left[1..])) == vs + [v] + Values(Step(c, e), left[1..]);
      c, left, vs := Step(c, e), left[1..], vs + [v];
    }
  }

  lemma StartIsInit()
    ensures Start().s == Init() && Init().barriers == []
  {}
}

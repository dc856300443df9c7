/** What each call of the file system answers, and what a program can tell from the answers alone. */
module FsReplies {
  import opened Common
  import opened FsCodec
  import opened FsBitmap
  import opened FsModel
  import opened FsRuns
  import opened FsView
  import opened FsTheorems

  // ---------------------------------------------------------------- one call

  /** The least handle that is not in use. */
  predicate LeastUnused(open: seq<Option<Handle>>, f: nat) {
    f < |open| && open[f].None? && forall g | 0 <= g < f :: open[g].Some?
  }

  lemma {:induction false} UnusedIsLeast(open: seq<Option<Handle>>, from: nat)
    requires from <= |open| && forall g | 0 <= g < from :: open[g].Some?
    ensures var f := Unused(open, from);
            if f == -1 then forall g | 0 <= g < |open| :: open[g].Some? else LeastUnused(open, f)
    decreases |open| - from
  {
    if from < |open| && open[from].Some? {
      UnusedIsLeast(open, from + 1);
    }
  }

  /** `fs_open` succeeds exactly on an existing name with a handle left, and returns the least one. */
  lemma OpenReply(v: View, name: seq<byte>)
    requires Tidy(v)
    ensures var r := ViewStep(v, Open(name)).1.code;
            if v.mounted && name in v.files && exists f | 0 <= f < 32 :: v.open[f].None?
            then r >= 0 && LeastUnused(v.open, r) else r == -1
  {
    UnusedIsLeast(v.open, 0);
  }

  /** The code of every other call. */
  function Code(v: View, e: Event): int
    requires Tidy(v) && !e.Open?
  {
    match e
    case Make(_) => 0
    case Mount => 0
    case Unmount(_) => if v.mounted then 0 else -1
    case Create(name, _) => if v.mounted && |name| <= 14 && name !in v.files && |v.files| < 64 then 0 else -1
    case Close(fd) => if Usable(v, fd) then 0 else -1
    case Delete(name) =>
      if v.mounted && name in v.files && forall f | 0 <= f < 32 && v.open[f].Some? :: v.open[f].value.name != name
      then 0 else -1
    case Read(fd, n) =>
      if !Usable(v, fd) then -1
      else if v.open[fd].value.offset < 4096 && v.open[fd].value.offset < v.files[v.open[fd].value.name].size then n
      else 0
    case Write(fd, buf) => if Usable(v, fd) then |buf| else -1
    case Seek(fd, offset) =>
      if Usable(v, fd) && 0 <= offset <= v.files[v.open[fd].value.name].size then 0 else -1
    case Size(fd) => if Usable(v, fd) then v.files[v.open[fd].value.name].size else -1
  }

  /** Each call answers with that code, and data come with a read only. */
  lemma ReplyIs(v: View, e: Event)
    requires Tidy(v) && Suits(v, e) && !e.Open? && |v.files| <= 64
    ensures ViewStep(v, e).1.code == Code(v, e) && (!e.Read? ==> ViewStep(v, e).1.data == [])
  {}

  /** There are never more than 64 files. */
  lemma FewFiles(c: Config)
    requires Inv(c)
    ensures EntriesSound(Image(c.s)) && |ViewOf(c.s).files| <= 64
  {
    hide FilesSound, FilesApart, FreeBlank, InodesNamed, EntriesSound, Decode, FilesOf;
    FullTogether(Image(c.s), c.s.disk.blocks, c.failed);
  }

  /** On a disk that is open, `make_fs` blanks every block and fails, and `mount_fs` fails and leaves
      the disk alone. */
  lemma OpenDiskRefuses(s: Fs, rest: seq<byte>)
    requires s.disk.active && |rest| == BLOCK_SIZE - META_SIZE
    ensures var (made, r) := DoMake(s, rest);
            && r == Reply(-1, []) && made.disk.active && made.ready == s.ready
            && forall b: nat | b < DISK_BLOCKS :: made.disk.blocks[b] == Zeros(BLOCK_SIZE)
    ensures var (mounted, r) := DoMount(s);
            r == Reply(-1, []) && mounted.disk == s.disk && mounted.ready == s.ready && mounted.fds == s.fds
  {}

  // ---------------------------------------------------------------- what the answers tell

  /** A handle as the calls made and their codes tell it. */
  function HandleTold(e: Event, code: int, fd: nat, h: Option<Handle>): Option<Handle> {
    match e
    case Make(_) => None
    case Unmount(_) => if code == 0 then None else h
    case Open(name) => if code == fd then Some(Handle(name, 0)) else h
    case Close(f) => if f == fd && code == 0 then None else h
    case Read(f, _) => Advanced(h, f == fd, code)
    case Write(f, _) => Advanced(h, f == fd, code)
    case Seek(f, offset) =>
      if f == fd && code == 0 && h.Some? && offset >= 0 then Some(h.value.(offset := offset)) else h
    case _ => h
  }

  /** The offset moves on by the number of bytes returned or taken. */
  function Advanced(h: Option<Handle>, mine: bool, code: int): Option<Handle> {
    if mine && code > 0 && h.Some? then Some(h.value.(offset := h.value.offset + code)) else h
  }

  function ExistsTold(e: Event, code: int, name: seq<byte>, present: bool): bool {
    match e
    case Make(_) => false
    case Create(n, _) => present || (n == name && code == 0)
    case Delete(n) => present && !(n == name && code == 0)
    case _ => present
  }

  function MountedTold(e: Event, code: int, mounted: bool): bool {
    match e
    case Make(_) => false
    case Mount => mounted || code == 0
    case Unmount(_) => mounted && code != 0
    case _ => mounted
  }

  datatype Told = Told(mounted: bool, present: bool, handle: Option<Handle>)

  function Tell(e: Event, code: int, name: seq<byte>, fd: nat, t: Told): Told {
    Told(MountedTold(e, code, t.mounted), ExistsTold(e, code, name, t.present), HandleTold(e, code, fd, t.handle))
  }

  function TellAll(es: seq<Event>, rs: seq<Reply>, name: seq<byte>, fd: nat, t: Told): Told
    requires |es| == |rs|
  {
    if es == [] then t else TellAll(es[1..], rs[1..], name, fd, Tell(es[0], rs[0].code, name, fd, t))
  }

  /** What is so, for one name and one handle. */
  function Truth(v: View, name: seq<byte>, fd: nat): Told
    requires fd < |v.open|
  {
    Told(v.mounted, name in v.files, v.open[fd])
  }

  lemma HandleStep(v: View, e: Event, fd: nat)
    requires Tidy(v) && Suits(v, e) && fd < MAX_FDS && Tidy(ViewStep(v, e).0)
    ensures ViewStep(v, e).0.open[fd] == HandleTold(e, ViewStep(v, e).1.code, fd, v.open[fd])
  {}

  lemma StepTells(v: View, e: Event, name: seq<byte>, fd: nat)
    requires Tidy(v) && Suits(v, e) && fd < MAX_FDS && Tidy(ViewStep(v, e).0)
    ensures Truth(ViewStep(v, e).0, name, fd) == Tell(e, ViewStep(v, e).1.code, name, fd, Truth(v, name, fd))
  {
    hide HandleTold, Suits;
    HandleStep(v, e, fd);
  }

  lemma {:induction false} RunTells(v: View, es: seq<Event>, name: seq<byte>, fd: nat)
    requires Playable(v, es) && fd < MAX_FDS
    ensures |Play(v, es).1| == |es| && fd < |Play(v, es).0.open|
    ensures Truth(Play(v, es).0, name, fd) == TellAll(es, Play(v, es).1, name, fd, Truth(v, name, fd))
    decreases |es|
  {
    assert |v.open| == MAX_FDS;
    if es != [] {
      hide Tell, Truth, ViewStep, Suits, Tidy;
      var v1, r := ViewStep(v, es[0]).0, ViewStep(v, es[0]).1;
      assert Playable(v1, es[1..]) && Tidy(v1);
      StepTells(v, es[0], name, fd);
      RunTells(v1, es[1..], name, fd);
      assert Play(v, es).1 == [r] + Play(v1, es[1..]).1;
      assert ([r] + Play(v1, es[1..]).1)[1..] == Play(v1, es[1..]).1;
    }
  }

  /** After any run on a newly made file system, whether it is mounted, whether a file exists, and
      which file a descriptor is open on and at which offset, are what the calls and the codes they
      returned tell. */
  lemma StateIsTold(c: Config, rest: seq<byte>, es: seq<Event>, name: seq<byte>, fd: nat)
    requires Unmounted(c.s) && Legal(c.s, Make(rest)) && IsRun(Step(c, Make(rest)), es) && fd < MAX_FDS
    ensures var c0 := Step(c, Make(rest));
            var c1, rs := After(c0, es), Replies(c0, es);
            && EntriesSound(Image(c1.s)) && |rs| == |es|
            && Truth(ViewOf(c1.s), name, fd) == TellAll(es, rs, name, fd, Told(false, false, None))
  {
    hide Inv, EntriesSound, ViewOf, After, Step, Playable, Play, TellAll;
    FreshView(c, rest);
    var c0 := Step(c, Make(rest));
    RefinesSimple(c0, es);
    RunTells(ViewOf(c0.s), es, name, fd);
  }
}

/** What the file system promises over every run. */
module FsTheorems {
  import opened Common
  import opened FsCodec
  import opened FsBitmap
  import opened FsModel
  import opened FsRuns
  import opened FsView

  // ---------------------------------------------------------------- refinement over runs

  function Replies(c: Config, es: seq<Event>): seq<Reply>
    requires IsRun(c, es)
    decreases |es|
  {
    if es == [] then [] else [Call(c.s, es[0]).1] + Replies(Step(c, es[0]), es[1..])
  }

  predicate Playable(v: View, es: seq<Event>)
    decreases |es|
  {
    Tidy(v) && (es == [] || (Suits(v, es[0]) && Playable(ViewStep(v, es[0]).0, es[1..])))
  }

  function Play(v: View, es: seq<Event>): (View, seq<Reply>)
    requires Playable(v, es)
    decreases |es|
  {
    if es == [] then (v, [])
    else
      var (v1, r) := ViewStep(v, es[0]);
      var (v2, rs) := Play(v1, es[1..]);
      (v2, [r] + rs)
  }

  /** Over every run, fs.c answers as the simple file system does and ends with its view. */
  lemma {:induction false} RefinesSimple(c: Config, es: seq<Event>)
    requires Inv(c) && IsRun(c, es)
    ensures Inv(After(c, es)) && EntriesSound(Image(c.s)) && EntriesSound(Image(After(c, es).s))
    ensures Playable(ViewOf(c.s), es) && Play(ViewOf(c.s), es) == (ViewOf(After(c, es).s), Replies(c, es))
    decreases |es|
  {
    hide Inv, ViewStep, EntriesSound, Suits, Call, ViewOf, Tidy;
    ViewTidy(c);
    SoundEntries(c);
    if es != [] {
      CallAgrees(c, es[0]);
      StepKeepsInv(c, es[0]);
      RefinesSimple(Step(c, es[0]), es[1..]);
    }
  }

  // ---------------------------------------------------------------- isolation

  /** The call goes through a handle on `name`. */
  predicate Writes(v: View, e: Event, name: seq<byte>) {
    e.Write? && Usable(v, e.fd) && v.open[e.fd].value.name == name
  }

  /** The call cannot touch the file `name`: it neither writes through a handle on it nor makes,
      creates or deletes it. */
  predicate Spares(v: View, e: Event, name: seq<byte>) {
    !Writes(v, e, name) && !e.Make? && !(e.Create? && e.name == name) && !(e.Delete? && e.name == name)
  }

  /** A call that spares a file leaves its bytes and its size alone. */
  lemma SparedFile(v: View, e: Event, name: seq<byte>)
    requires Tidy(v) && Suits(v, e) && Spares(v, e, name)
    ensures name in v.files <==> name in ViewStep(v, e).0.files
    ensures name in v.files ==> ViewStep(v, e).0.files[name] == v.files[name]
  {}

  predicate AllSpare(v: View, es: seq<Event>, name: seq<byte>)
    requires Playable(v, es)
    decreases |es|
  {
    es == [] || (Spares(v, es[0], name) && AllSpare(ViewStep(v, es[0]).0, es[1..], name))
  }

  lemma {:induction false} SparedOverRun(v: View, es: seq<Event>, name: seq<byte>)
    requires Playable(v, es) && AllSpare(v, es, name)
    ensures name in v.files <==> name in Play(v, es).0.files
    ensures name in v.files ==> Play(v, es).0.files[name] == v.files[name]
    decreases |es|
  {
    hide ViewStep, Spares, Tidy, Suits;
    if es != [] {
      SparedFile(v, es[0], name);
      SparedOverRun(ViewStep(v, es[0]).0, es[1..], name);
    }
  }

  /** Bytes written through one descriptor are read back through any descriptor on the same file,
      after any calls that spare the file, exactly when they were written below offset 4096 and
      the file's size reaches past where they start: a write further out is lost in block 0. */
  lemma ReadAfterWrite(v: View, fd: nat, buf: seq<byte>, es: seq<Event>, g: nat)
    requires Tidy(v) && Usable(v, fd) && Suits(v, Write(fd, buf)) && buf != []
    requires var v1 := ViewWrite(v, fd, buf);
             Playable(v1, es) && AllSpare(v1, es, v.open[fd].value.name)
    requires var v2 := Play(ViewWrite(v, fd, buf), es).0;
             Tidy(v2) && Usable(v2, g) && v2.open[g].value == v.open[fd].value
    ensures var v2, h := Play(ViewWrite(v, fd, buf), es).0, v.open[fd].value;
            && Suits(v2, Read(g, |buf|))
            && (ViewStep(v2, Read(g, |buf|)).1 == Reply(|buf|, buf) <==>
                h.offset < BLOCK_SIZE && h.offset < (v.files[h.name].size + |buf|) % 0x1_0000)
  {
    var v1, h := ViewWrite(v, fd, buf), v.open[fd].value;
    SparedOverRun(v1, es, h.name);
    if h.offset < BLOCK_SIZE {
      assert Splice(v.files[h.name].data, h.offset, buf)[h.offset..h.offset + |buf|] == buf;
    }
  }

  /** The value a call gives byte `k` of the file `name`, if it gives it one: a write that covers
      the byte below offset 4096, or the create of the file. */
  function Given(v: View, e: Event, name: seq<byte>, k: nat): Option<byte>
    requires Tidy(v) && Suits(v, e)
  {
    if Writes(v, e, name) && k < BLOCK_SIZE && v.open[e.fd].value.offset <= k < v.open[e.fd].value.offset + |e.buf| then
      Some(e.buf[k - v.open[e.fd].value.offset])
    else if e.Create? && e.name == name && ViewStep(v, e).1.code == 0 then Some(0)
    else None
  }

  /** The value the last such call of a run gives it. */
  function LastGiven(v: View, es: seq<Event>, name: seq<byte>, k: nat): Option<byte>
    requires Playable(v, es)
    decreases |es|
  {
    if es == [] then None
    else match LastGiven(ViewStep(v, es[0]).0, es[1..], name, k)
         case Some(b) => Some(b)
         case None => Given(v, es[0], name, k)
  }

  /** The byte a file holds at `k`, compared with a value it was given or its earlier state. */
  predicate HoldsGiven(before: View, after: View, name: seq<byte>, k: nat, given: Option<byte>)
    requires k < BLOCK_SIZE
  {
    name in after.files ==>
      match given
      case Some(b) => after.files[name].data[k] == b
      case None => name in before.files && after.files[name].data[k] == before.files[name].data[k]
  }

  lemma StepGives(v: View, e: Event, name: seq<byte>, k: nat)
    requires Tidy(v) && Suits(v, e) && k < BLOCK_SIZE
    ensures HoldsGiven(v, ViewStep(v, e).0, name, k, Given(v, e, name, k))
  {}

  /** Over every run, byte `k` of a file is the byte of the last write that covered it since the
      file was created, or zero if there was none; only with neither in the run is it the byte the
      file started with. */
  lemma {:induction false} LastWriteWins(v: View, es: seq<Event>, name: seq<byte>, k: nat)
    requires Playable(v, es) && k < BLOCK_SIZE
    ensures HoldsGiven(v, Play(v, es).0, name, k, LastGiven(v, es, name, k))
    decreases |es|
  {
    hide ViewStep, Given, Tidy, Suits;
    if es != [] {
      StepGives(v, es[0], name, k);
      LastWriteWins(ViewStep(v, es[0]).0, es[1..], name, k);
    }
  }

  lemma FreshView(c: Config, rest: seq<byte>)
    requires Unmounted(c.s) && Legal(c.s, Make(rest))
    ensures var c0 := Step(c, Make(rest));
            && Inv(c0) && EntriesSound(Image(c0.s))
            && ViewOf(c0.s) == View(false, map[], seq(MAX_FDS, _ => None))
  {
    hide Consistent, EntriesSound, Decode, Encode, Fresh, Legal;
    MakeEstablishesInv(c, rest);
    var c0 := Step(c, Make(rest));
    SoundEntries(c0);
    forall name ensures name !in Names(Fresh().directory) {
      FreshHasNoNames(name);
    }
    assert ViewOf(c0.s).open == seq(MAX_FDS, _ => None);
  }

  lemma FreshHasNoNames(name: seq<byte>)
    ensures name !in Names(Fresh().directory)
  {
    NoNames(Fresh(), name);
  }

  /** A read through the handle starts below the end of its file and below offset 4096. */
  predicate HasBytes(v: View, fd: nat) {
    && Usable(v, fd) && v.open[fd].value.name in v.files
    && v.open[fd].value.offset < v.files[v.open[fd].value.name].size && v.open[fd].value.offset < BLOCK_SIZE
  }

  lemma ViewReads(v: View, fd: nat, n: nat)
    requires Tidy(v) && Suits(v, Read(fd, n))
    ensures var r := ViewStep(v, Read(fd, n)).1;
            && (r.code > 0 <==> n > 0 && HasBytes(v, fd))
            && (r.code > 0 ==> Usable(v, fd) && |r.data| == r.code == n && var h := v.open[fd].value;
                  && h.name in v.files && h.offset + n <= BLOCK_SIZE
                  && r.data == v.files[h.name].data[h.offset..h.offset + n])
  {}

  /** Where there were no files, every byte of a file was given to it in the run. */
  lemma GivenInRun(v: View, es: seq<Event>, name: seq<byte>, k: nat)
    requires Playable(v, es) && v.files == map[] && name in Play(v, es).0.files && k < BLOCK_SIZE
    ensures LastGiven(v, es, name, k) == Some(Play(v, es).0.files[name].data[k])
  {
    hide Playable, Play, LastGiven;
    LastWriteWins(v, es, name, k);
  }

  /** What `fs_read` returns after any run on a newly made file system: bytes exactly when the
      offset lies below the size and below 4096, and each byte is the byte of the last write that
      covered it since the file was created, or zero. */
  lemma ReadsLastWritten(c: Config, rest: seq<byte>, es: seq<Event>, fd: nat, n: nat)
    requires Unmounted(c.s) && Legal(c.s, Make(rest)) && IsRun(Step(c, Make(rest)), es)
    requires Linked(After(Step(c, Make(rest)), es).s) && Legal(After(Step(c, Make(rest)), es).s, Read(fd, n))
    ensures var c0 := Step(c, Make(rest));
            var c1 := After(c0, es);
            && EntriesSound(Image(c0.s)) && EntriesSound(Image(c1.s))
            && var v0, v1, r := ViewOf(c0.s), ViewOf(c1.s), DoRead(c1.s, fd, n).1;
               && Playable(v0, es)
               && (r.code > 0 ==> |r.data| == r.code == n && Usable(v1, fd))
               && (r.code > 0 <==> n > 0 && HasBytes(v1, fd))
               && (r.code > 0 ==> forall j | 0 <= j < n :: var h := v1.open[fd].value;
                     h.offset + j < BLOCK_SIZE && LastGiven(v0, es, h.name, h.offset + j) == Some(r.data[j]))
  {
    hide Inv, EntriesSound, ViewOf, DoRead, After, Step, ViewStep, Tidy, Suits, HasBytes, Playable, Play, LastGiven;
    FreshView(c, rest);
    var c0 := Step(c, Make(rest));
    RefinesSimple(c0, es);
    var c1 := After(c0, es);
    CallAgrees(c1, Read(fd, n));
    ViewReads(ViewOf(c1.s), fd, n);
    var v0, v1, r := ViewOf(c0.s), ViewOf(c1.s), DoRead(c1.s, fd, n).1;
    if r.code > 0 {
      var h := v1.open[fd].value;
      forall j | 0 <= j < n
          ensures h.offset + j < BLOCK_SIZE && LastGiven(v0, es, h.name, h.offset + j) == Some(r.data[j]) {
        GivenInRun(v0, es, h.name, h.offset + j);
      }
    }
  }

  // ---------------------------------------------------------------- sizes

  /** The bytes written to a file since its create, and the furthest end of a write. */
  datatype Tally = Tally(written: nat, end: nat)

  function Tallied(v: View, e: Event, name: seq<byte>, t: Tally): Tally
    requires Tidy(v) && Suits(v, e)
  {
    if Writes(v, e, name) && e.buf != [] then
      var end := v.open[e.fd].value.offset + |e.buf|;
      Tally(t.written + |e.buf|, if end > t.end then end else t.end)
    else if e.Create? && e.name == name && ViewStep(v, e).1.code == 0 then Tally(0, 0)
    else t
  }

  function TallyAfter(v: View, es: seq<Event>, name: seq<byte>, t: Tally): Tally
    requires Playable(v, es)
    decreases |es|
  {
    if es == [] then t else TallyAfter(ViewStep(v, es[0]).0, es[1..], name, Tallied(v, es[0], name, t))
  }

  /** The file's size is what was written, in 16 bits. */
  predicate SizeIs(v: View, name: seq<byte>, n: nat) {
    name in v.files ==> v.files[name].size == n % 0x1_0000
  }

  lemma StepTallies(v: View, e: Event, name: seq<byte>, t: Tally)
    requires Tidy(v) && Suits(v, e) && SizeIs(v, name, t.written)
    ensures SizeIs(ViewStep(v, e).0, name, Tallied(v, e, name, t).written)
  {}

  /** Over every run, the size of a file is the total length of the writes to it since it was
      created, modulo 2^16: bytes overwritten count again. */
  lemma {:induction false} SizeIsTotalWritten(v: View, es: seq<Event>, name: seq<byte>, t: Tally)
    requires Playable(v, es) && SizeIs(v, name, t.written)
    ensures SizeIs(Play(v, es).0, name, TallyAfter(v, es, name, t).written)
    decreases |es|
  {
    hide ViewStep, Tallied, Tidy, Suits, SizeIs;
    if es != [] {
      StepTallies(v, es[0], name, t);
      SizeIsTotalWritten(ViewStep(v, es[0]).0, es[1..], name, Tallied(v, es[0], name, t));
    }
  }

  /** What `fs_get_filesize` returns after any run on a newly made file system. */
  lemma ReportsTotalWritten(c: Config, rest: seq<byte>, es: seq<Event>, fd: nat)
    requires Unmounted(c.s) && Legal(c.s, Make(rest)) && IsRun(Step(c, Make(rest)), es)
    requires Linked(After(Step(c, Make(rest)), es).s) && Legal(After(Step(c, Make(rest)), es).s, Size(fd))
    ensures var c0 := Step(c, Make(rest));
            var c1 := After(c0, es);
            && EntriesSound(Image(c0.s)) && EntriesSound(Image(c1.s))
            && var v0, v1, r := ViewOf(c0.s), ViewOf(c1.s), DoSize(c1.s, fd).1;
               && Playable(v0, es)
               && r.code == if !Usable(v1, fd) then -1
                            else TallyAfter(v0, es, v1.open[fd].value.name, Tally(0, 0)).written % 0x1_0000
  {
    hide Inv, EntriesSound, ViewOf, DoSize, After, Step;
    FreshView(c, rest);
    var c0 := Step(c, Make(rest));
    RefinesSimple(c0, es);
    var c1 := After(c0, es);
    CallAgrees(c1, Size(fd));
    var v0, v1 := ViewOf(c0.s), ViewOf(c1.s);
    if Usable(v1, fd) {
      SizeIsTotalWritten(v0, es, v1.open[fd].value.name, Tally(0, 0));
    }
  }

  /** A write starts where the file ends, and 16 bits suffice for the new size. */
  predicate Appends(v: View, e: Event, name: seq<byte>)
    requires Tidy(v)
  {
    Writes(v, e, name) && e.buf != [] ==>
      v.open[e.fd].value.offset == v.files[name].size && v.files[name].size + |e.buf| < 0x1_0000
  }

  predicate SizeIsEnd(v: View, name: seq<byte>, t: Tally) {
    name in v.files ==> v.files[name].size == t.end
  }

  /** One call keeps the size at the furthest end of a write exactly when it appends: overwriting
      counts bytes again, and 16 bits wrap. */
  lemma SizeIsExtentIff(v: View, e: Event, name: seq<byte>, t: Tally)
    requires Tidy(v) && Suits(v, e) && SizeIsEnd(v, name, t)
    ensures SizeIsEnd(ViewStep(v, e).0, name, Tallied(v, e, name, t)) <==> Appends(v, e, name)
  {}

  /** The size is where the furthest write ended, at every point of the run. */
  predicate AlwaysExtent(v: View, es: seq<Event>, name: seq<byte>, t: Tally)
    requires Playable(v, es)
    decreases |es|
  {
    SizeIsEnd(v, name, t) &&
    (es == [] || AlwaysExtent(ViewStep(v, es[0]).0, es[1..], name, Tallied(v, es[0], name, t)))
  }

  predicate AllAppend(v: View, es: seq<Event>, name: seq<byte>)
    requires Playable(v, es)
    decreases |es|
  {
    es == [] || (Appends(v, es[0], name) && AllAppend(ViewStep(v, es[0]).0, es[1..], name))
  }

  /** Over every run, the size stays where the furthest write ended exactly when every write to
      the file appends. */
  lemma {:induction false} AlwaysExtentIff(v: View, es: seq<Event>, name: seq<byte>, t: Tally)
    requires Playable(v, es) && SizeIsEnd(v, name, t)
    ensures AlwaysExtent(v, es, name, t) <==> AllAppend(v, es, name)
    decreases |es|
  {
    hide ViewStep, Tallied, Tidy, Suits, SizeIsEnd, Appends;
    if es != [] {
      SizeIsExtentIff(v, es[0], name, t);
      if Appends(v, es[0], name) {
        AlwaysExtentIff(ViewStep(v, es[0]).0, es[1..], name, Tallied(v, es[0], name, t));
      }
    }
  }

  // ---------------------------------------------------------------- persistence

  /** Unmounting and mounting again brings back the superblock, the bitmap, the inode table and
      the directory, and every file with its name, size and bytes; only the descriptors are gone. */
  lemma Persistence(c: Config, rest: seq<byte>)
    requires Inv(c) && c.s.ready && |rest| == BLOCK_SIZE - META_SIZE
    ensures var c1 := Step(c, Unmount(rest));
            && Linked(c1.s) && Legal(c1.s, Mount)
            && var c2 := Step(c1, Mount);
               && Inv(c2) && c2.s ==
                     c.s.(fds := NoDescriptors(),
                     disk := c.s.disk.(blocks := c.s.disk.blocks[0 := Encode(c.s.meta, rest)]))
               && EntriesSound(Image(c.s)) && EntriesSound(Image(c2.s))
               && ViewOf(c2.s) == ViewOf(c.s).(open := seq(MAX_FDS, _ => None))
  {
    hide Consistent, EntriesSound, Encode, Decode;
    MetaRoundTrip(c.s.meta, rest);
    var c1 := Step(c, Unmount(rest));
    StepKeepsInv(c, Unmount(rest));
    StepKeepsInv(c1, Mount);
    CallAgrees(c, Unmount(rest));
    CallAgrees(c1, Mount);
  }

  // ---------------------------------------------------------------- block ownership

  /** Under metadata that keep the invariant each used inode has an index block and a data block of
      its own: marked, neither is block 0, and no two files share any. */
  lemma BlocksOwned(m: Meta, bs: Blocks, failed: nat, i: nat, j: nat)
    requires Consistent(m, bs, failed) && i < MAX_FILES && j < MAX_FILES && Used(m, i) && Used(m, j)
    ensures var a, b, a', b' := Index(m, i), Data(m, bs, i), Index(m, j), Data(m, bs, j);
            && Owned(m, a) && Owned(m, b) && a != b && BlockEntry(bs[a], 0) == b && BlockEntry(bs[a], 1) == 0
            && (i != j ==> {a, b} !! {a', b'})
  {
    hide Bit, BlockEntry;
    assert Sound(m, bs, i) && Sound(m, bs, j);
    if i != j {
      assert Index(m, i) != Index(m, j) && Data(m, bs, i) != Data(m, bs, j) && Index(m, i) != Data(m, bs, j);
      assert Index(m, j) != Data(m, bs, i);
    }
  }

  predicate SamePlace(s: Fs, s': Fs, i: nat)
    requires i < MAX_FILES
  {
    && Index(Image(s'), i) == Index(Image(s), i)
    && Data(Image(s'), s'.disk.blocks, i) == Data(Image(s), s.disk.blocks, i)
  }

  lemma UnmountStays(c: Config, rest: seq<byte>, i: nat)
    requires Inv(c) && Legal(c.s, Unmount(rest)) && i < MAX_FILES && Used(Image(c.s), i)
    ensures SamePlace(c.s, DoUnmount(c.s, rest).0, i)
  {
    hide FilesApart, FreeBlank, EntriesSound, InodesNamed, Accounted, Bit, BlockEntry, Decode, Encode;
    assert Sound(Image(c.s), c.s.disk.blocks, i);
    MetaRoundTrip(c.s.meta, rest);
  }

  lemma CreateStays(c: Config, name: seq<byte>, rest: seq<byte>, i: nat)
    requires Inv(c) && Legal(c.s, Create(name, rest)) && i < MAX_FILES && Used(Image(c.s), i)
    ensures SamePlace(c.s, DoCreate(c.s, name, rest).0, i)
  {
    hide FilesApart, FreeBlank, EntriesSound, InodesNamed, Accounted, Bit, SetBit, BlockEntry, IndexBlock, Decode,
        DoCreate, Copied;
    assert Sound(Image(c.s), c.s.disk.blocks, i);
    CreateOutcome(c.s, name, rest);
  }

  lemma DeleteStays(c: Config, name: seq<byte>, i: nat)
    requires Inv(c) && Legal(c.s, Delete(name)) && i < MAX_FILES && Used(Image(c.s), i) &&
        Used(Image(DoDelete(c.s, name).0), i)
    ensures SamePlace(c.s, DoDelete(c.s, name).0, i)
  {
    hide FreeBlank, EntriesSound, InodesNamed, Accounted, Bit, SetBit, BlockEntry, Decode, DoDelete;
    DeleteOutcome(c, name);
    var m, bs := c.s.meta, c.s.disk.blocks;
    if DoDelete(c.s, name).1.code == 0 {
      var k := m.directory[Lookup(m.directory, name, MAX_FILES)].inodeNum;
      assert Sound(m, bs, i) && Sound(m, bs, k);
      assert Index(m, i) != Index(m, k) && Index(m, i) != Data(m, bs, k);
    }
  }

  lemma WriteStays(c: Config, fd: nat, buf: seq<byte>, i: nat)
    requires Inv(c) && Legal(c.s, Write(fd, buf)) && i < MAX_FILES && Used(Image(c.s), i)
    ensures SamePlace(c.s, DoWrite(c.s, fd, buf).0, i)
  {
    hide FreeBlank, EntriesSound, InodesNamed, Accounted, Bit, BlockEntry, Decode, DoWrite;
    if c.s.ready && c.s.fds[fd].isUsed {
      WriteOutcome(c, fd, buf);
      NotAnIndex(c.s.meta, c.s.disk.blocks, c.s.fds[fd].inodeNum);
    } else {
      WriteRefused(c.s, fd, buf);
    }
  }

  /** Short of making a new file system, a file that lives through a call stays in its blocks. */
  lemma BlocksStay(c: Config, e: Event, i: nat)
    requires Inv(c) && Legal(c.s, e) && !e.Make? && i < MAX_FILES
    requires Used(Image(c.s), i) && Used(Image(Step(c, e).s), i)
    ensures SamePlace(c.s, Step(c, e).s, i)
  {
    hide Bit, SetBit, BlockEntry, Consistent, Decode, DoCreate, DoDelete, DoWrite, DoUnmount, Used;
    match e
    case Unmount(rest) => UnmountStays(c, rest, i);
    case Create(name, rest) => CreateStays(c, name, rest, i);
    case Delete(name) => DeleteStays(c, name, i);
    case Write(fd, buf) => WriteStays(c, fd, buf, i);
    case _ =>
  }

  /** Inode `i` is in use before and after every call of the run, and no call makes a new disk. */
  predicate Lives(c: Config, es: seq<Event>, i: nat)
    requires IsRun(c, es) && i < MAX_FILES
    decreases |es|
  {
    Used(Image(c.s), i) && (es == [] || (!es[0].Make? && Lives(Step(c, es[0]), es[1..], i)))
  }

  lemma {:induction false} BlocksStayOverRun(c: Config, es: seq<Event>, i: nat)
    requires Inv(c) && IsRun(c, es) && i < MAX_FILES && Lives(c, es, i)
    ensures SamePlace(c.s, After(c, es).s, i)
    decreases |es|
  {
    hide Inv, Call, Index, Data;
    if es != [] {
      StepKeepsInv(c, es[0]);
      BlocksStayOverRun(Step(c, es[0]), es[1..], i);
      BlocksStay(c, es[0], i);
    }
  }

  /** The first two blocks that are clear, in order. */
  predicate FirstTwoClear(bm: Bitmap, a: nat, b: nat) {
    && a < b < DISK_BLOCKS && !Bit(bm, a) && !Bit(bm, b)
    && forall j: nat | j < b && j != a :: Bit(bm, j)
  }

  lemma ClaimsFirstTwo(s: Fs)
    requires TwoClear(s.meta.bitmap)
    ensures FirstTwoClear(s.meta.bitmap, IndexFor(s), DataFor(s))
  {
    hide Bit, SetBit;
    TwoFound(s.meta.bitmap);
    OneBitChanges(s.meta.bitmap, IndexFor(s), true);
  }

  lemma InvLinked(c: Config)
    requires Inv(c)
    ensures Linked(c.s)
  {}

  lemma CreateMarks(c: Config, name: seq<byte>, rest: seq<byte>)
    requires Inv(c) && Legal(c.s, Create(name, rest))
    ensures var s', a, b, i := DoCreate(c.s, name, rest).0, IndexFor(c.s), DataFor(c.s), FindInode(c.s.meta.inodes, 0);
            && (forall j: nat | j < DISK_BLOCKS ::
                  Bit(s'.meta.bitmap, j) == (j == a || j == b || Bit(c.s.meta.bitmap, j)))
            && (DoCreate(c.s, name, rest).1.code == 0 ==>
                  s'.ready && i != -1 && Index(s'.meta, i) == a && Data(s'.meta, s'.disk.blocks, i) == b)
  {
    hide Bit, SetBit, IndexBlock, Copied, Consistent, DoCreate, BlockEntry;
    CreateOutcome(c.s, name, rest);
    TwoFound(c.s.meta.bitmap);
    BitsAfter(c.s.meta, IndexFor(c.s), DataFor(c.s));
    IndexBlockEntries(DataFor(c.s), rest);
  }

  lemma DeleteClears(c: Config, name: seq<byte>)
    requires Inv(c) && Legal(c.s, Delete(name)) && DoDelete(c.s, name).1.code == 0
    ensures var e := Lookup(c.s.meta.directory, name, MAX_FILES);
            && c.s.ready && e != -1
            && var i := c.s.meta.directory[e].inodeNum;
               forall j: nat | j < DISK_BLOCKS :: Bit(DoDelete(c.s, name).0.meta.bitmap, j)
                 == (j != Index(c.s.meta, i) && j != Data(c.s.meta, c.s.disk.blocks, i) && Bit(c.s.meta.bitmap, j))
  {
    hide Bit, SetBit, FilesApart, FreeBlank, EntriesSound, InodesNamed, Accounted, BlockEntry, DoDelete;
    DeleteOutcome(c, name);
    var i := c.s.meta.directory[Lookup(c.s.meta.directory, name, MAX_FILES)].inodeNum;
    assert Sound(c.s.meta, c.s.disk.blocks, i);
    BitsCleared(c.s.meta, Index(c.s.meta, i), Data(c.s.meta, c.s.disk.blocks, i));
  }

  /** A create marks the first two clear blocks, whether it succeeds or not. */
  lemma CreateMarksTwo(c: Config, name: seq<byte>, rest: seq<byte>, a: nat, b: nat)
    requires Inv(c) && Legal(c.s, Create(name, rest)) && FirstTwoClear(c.s.meta.bitmap, a, b)
    ensures forall j: nat | j < DISK_BLOCKS ::
      Bit(DoCreate(c.s, name, rest).0.meta.bitmap, j) == (j == a || j == b || Bit(c.s.meta.bitmap, j))
  {
    hide Bit, SetBit, Inv, DoCreate;
    ClaimsFirstTwo(c.s);
    CreateMarks(c, name, rest);
  }

  /** The delete of a file, after any run in which it lives, clears the two blocks that were the
      first clear ones when it was created, and no others. */
  lemma DeleteClearsTheTwo(c: Config, name: seq<byte>, rest: seq<byte>, es: seq<Event>, name': seq<byte>, a: nat,
      b: nat)
    requires Inv(c) && Legal(c.s, Create(name, rest)) && FirstTwoClear(c.s.meta.bitmap, a, b)
    requires FindInode(c.s.meta.inodes, 0) != -1 && DoCreate(c.s, name, rest).1.code == 0
    requires IsRun(Step(c, Create(name, rest)), es) &&
        Lives(Step(c, Create(name, rest)), es, FindInode(c.s.meta.inodes, 0))
    requires var c2 := After(Step(c, Create(name, rest)), es);
             var e := Lookup(c2.s.meta.directory, name', MAX_FILES);
             && Linked(c2.s) && Legal(c2.s, Delete(name')) && DoDelete(c2.s, name').1.code == 0
             && e != -1 && c2.s.meta.directory[e].inodeNum == FindInode(c.s.meta.inodes, 0)
    ensures var c2 := After(Step(c, Create(name, rest)), es);
            forall j: nat | j < DISK_BLOCKS ::
              Bit(DoDelete(c2.s, name').0.meta.bitmap, j) == (j != a && j != b && Bit(c2.s.meta.bitmap, j))
  {
    hide Bit, SetBit, Inv, DoCreate;
    InvLinked(c);
    ClaimsFirstTwo(c.s);
    CreateMarks(c, name, rest);
    var c1 := Step(c, Create(name, rest));
    StepKeepsInv(c, Create(name, rest));
    RunKeepsInv(c1, es);
    BlocksStayOverRun(c1, es, FindInode(c.s.meta.inodes, 0));
    DeleteClears(After(c1, es), name');
  }

  // ---------------------------------------------------------------- accounting and the directory

  lemma Conserved(c: Config)
    requires Inv(c)
    ensures EntriesSound(Image(c.s))
    ensures Marked(Image(c.s).bitmap, DISK_BLOCKS) == 1 + 2 * |ViewOf(c.s).files| + 2 * c.failed
    ensures forall b: nat | b < DISK_BLOCKS && !Bit(Image(c.s).bitmap, b) :: c.s.disk.blocks[b] == Zeros(BLOCK_SIZE)
  {
    hide Bit, FilesSound, FilesApart, InodesNamed, EntriesSound, Decode, FilesOf;
    FullTogether(Image(c.s), c.s.disk.blocks, c.failed);
  }

  /** From a newly made file system on, after every run: an unmarked block is blank, and block 0,
      two blocks a file and two for each failed create are what is marked. */
  lemma BlocksConserved(c: Config, rest: seq<byte>, es: seq<Event>)
    requires Unmounted(c.s) && Legal(c.s, Make(rest)) && IsRun(Step(c, Make(rest)), es)
    ensures var c' := After(Step(c, Make(rest)), es);
            && EntriesSound(Image(c'.s))
            && Marked(Image(c'.s).bitmap, DISK_BLOCKS) == 1 + 2 * |ViewOf(c'.s).files| + 2 * c'.failed
            && (forall b: nat | b < DISK_BLOCKS &&
                  !Bit(Image(c'.s).bitmap, b) :: c'.s.disk.blocks[b] == Zeros(BLOCK_SIZE))
  {
    hide Bit, EntriesSound, Decode, Inv, FilesOf, Step;
    assert Linked(c.s);
    MakeEstablishesInv(c, rest);
    RunKeepsInv(Step(c, Make(rest)), es);
    Conserved(After(Step(c, Make(rest)), es));
  }

  /** Names are unique, and the entries with a name and the used inodes correspond one to one. */
  lemma EntriesAndInodes(c: Config, e: nat, i: nat)
    requires Inv(c) && e < MAX_FILES && i < MAX_FILES
    ensures var m := Image(c.s);
            && (Used(m, i) <==> EntryOf(m.directory, i, MAX_FILES) != -1)
            && (Named(m.directory[e]) ==> m.directory[e].inodeNum < MAX_FILES && Used(m, m.directory[e].inodeNum))
            && (Named(m.directory[e]) ==> Lookup(m.directory, Text(m.directory[e].name), MAX_FILES) == e)
            && (Named(m.directory[e]) ==> EntryOf(m.directory, m.directory[e].inodeNum, MAX_FILES) == e)
  {
    hide Named, Text, Strlen, FilesSound, FilesApart, FreeBlank, Accounted, Decode;
    var m := Image(c.s);
    if Named(m.directory[e]) {
      EntryFound(m, e);
    }
    if EntryOf(m.directory, i, MAX_FILES) != -1 {
      assert Named(m.directory[EntryOf(m.directory, i, MAX_FILES)]);
    }
  }

  /** A create succeeds exactly when the disk is mounted, the name fits, no file has it and there
      are fewer than 64 files. */
  lemma CreateSucceedsIff(c: Config, name: seq<byte>, rest: seq<byte>)
    requires Inv(c) && Legal(c.s, Create(name, rest))
    ensures EntriesSound(Image(c.s))
    ensures DoCreate(c.s, name, rest).1.code == 0 <==>
            c.s.ready && |name| < NAME_SIZE && name !in ViewOf(c.s).files && |ViewOf(c.s).files| < MAX_FILES
  {
    hide Inv, DoCreate, ViewOf, EntriesSound;
    CreateFailsWhen(c, name, rest);
  }

  /** After a create the directory leads from the name to an inode that was free, and that to a
      blank, empty file. */
  lemma CreatedIsFound(c: Config, name: seq<byte>, rest: seq<byte>)
    requires Inv(c) && Legal(c.s, Create(name, rest)) && DoCreate(c.s, name, rest).1.code == 0
    ensures var s, s' := c.s, DoCreate(c.s, name, rest).0;
            var e := Lookup(s'.meta.directory, name, MAX_FILES);
            && e != -1 && !Named(s.meta.directory[e])
            && var i := s'.meta.directory[e].inodeNum;
               && i < MAX_FILES && !Used(s.meta, i) && Used(s'.meta, i)
               && FileOf(s'.meta, s'.disk.blocks, i) == File(Zeros(BLOCK_SIZE), 0)
  {
    hide Text, Strlen, FilesSound, FilesApart, Accounted, EntriesSound, InodesNamed, FileOf, Bit, SetBit, IndexBlock,
        Copied, DoCreate, Decode;
    var s, m := c.s, c.s.meta;
    CreateOutcome(s, name, rest);
    var i, e := FindInode(m.inodes, 0), FindDirectory(true, m.directory, name);
    CreatedEntriesSound(m, i, e, name, IndexFor(s), DataFor(s));
    NameOfCopied(m.directory[e].name, name);
    EntryFound(Created(m, i, e, name, IndexFor(s), DataFor(s)), e);
    NewFile(m, s.disk.blocks, i, e, name, IndexFor(s), DataFor(s), rest);
  }
}

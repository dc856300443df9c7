/** What a program sees of the file system: a map from names to files and a table of handles.
    Every call of fs.c does to the view exactly what the simple operations below do. */
module FsView {
  import opened Common
  import opened FsCodec
  import opened FsBitmap
  import opened FsModel
  import opened FsRuns

  datatype File = File(data: Block, size: u16)

  datatype Handle = Handle(name: seq<byte>, offset: nat)

  datatype View = View(mounted: bool, files: map<seq<byte>, File>, open: seq<Option<Handle>>)

  // ---------------------------------------------------------------- the simple file system

  function Unused(open: seq<Option<Handle>>, from: nat): (r: int)
    requires from <= |open|
    ensures r == -1 || (from <= r < |open| && open[r].None?)
    decreases |open| - from
  {
    if from == |open| then -1 else if open[from].None? then from else Unused(open, from + 1)
  }

  predicate IsOpen(open: seq<Option<Handle>>, name: seq<byte>) {
    exists f | 0 <= f < |open| :: open[f].Some? && open[f].value.name == name
  }

  predicate Usable(v: View, fd: nat) {
    v.mounted && fd < |v.open| && v.open[fd].Some?
  }

  predicate Tidy(v: View) {
    |v.open| == MAX_FDS && forall f | 0 <= f < MAX_FDS && v.open[f].Some? ::
        v.mounted && v.open[f].value.name in v.files
  }

  function Moved(v: View, fd: nat, offset: nat): View
    requires Usable(v, fd)
  {
    v.(open := v.open[fd := Some(v.open[fd].value.(offset := offset))])
  }

  /** Bytes reach the file only below 4096; the offset and the size grow by the length anyway. */
  function ViewWrite(v: View, fd: nat, buf: seq<byte>): View
    requires Tidy(v) && Usable(v, fd)
    requires v.open[fd].value.offset % BLOCK_SIZE + |buf| <= BLOCK_SIZE
  {
    var h := v.open[fd].value;
    var file := v.files[h.name];
    var data := if h.offset < BLOCK_SIZE then Splice(file.data, h.offset, buf) else file.data;
    Moved(v.(files := v.files[h.name := File(data, (file.size + |buf|) % 0x1_0000)]), fd, h.offset + |buf|)
  }

  predicate Readable(v: View, fd: nat)
    requires Tidy(v)
  {
    Usable(v, fd) && v.open[fd].value.offset < v.files[v.open[fd].value.name].size &&
        v.open[fd].value.offset < BLOCK_SIZE
  }

  function ViewRead(v: View, fd: nat, n: nat): (View, Reply)
    requires Tidy(v) && Usable(v, fd) && (Readable(v, fd) ==> v.open[fd].value.offset + n <= BLOCK_SIZE)
  {
    var h := v.open[fd].value;
    if !Readable(v, fd) then (v, Reply(0, []))
    else (Moved(v, fd, h.offset + n), Reply(n, v.files[h.name].data[h.offset..h.offset + n]))
  }

  predicate Suits(v: View, e: Event)
    requires Tidy(v)
  {
    match e
    case Read(fd, n) => Readable(v, fd) ==> v.open[fd].value.offset + n <= BLOCK_SIZE
    case Write(fd, buf) => Usable(v, fd) ==> v.open[fd].value.offset % BLOCK_SIZE + |buf| <= BLOCK_SIZE
    case _ => true
  }

  function ViewStep(v: View, e: Event): (View, Reply)
    requires Tidy(v) && Suits(v, e)
  {
    match e
    case Make(_) => (View(false, map[], v.open), Reply(0, []))
    case Mount => (v.(mounted := true), Reply(0, []))
    case Unmount(_) => if !v.mounted then (v, Reply(-1, []))
        else (View(false, v.files, seq(MAX_FDS, _ => None)), Reply(0, []))
    case Create(name, _) =>
      if !v.mounted || |name| >= NAME_SIZE || name in v.files || |v.files| == MAX_FILES then (v, Reply(-1, []))
      else (v.(files := v.files[name := File(Zeros(BLOCK_SIZE), 0)]), Reply(0, []))
    case Open(name) =>
      if !v.mounted || name !in v.files || Unused(v.open, 0) == -1 then (v, Reply(-1, []))
      else (v.(open := v.open[Unused(v.open, 0) := Some(Handle(name, 0))]), Reply(Unused(v.open, 0), []))
    case Close(fd) =>
      if !Usable(v, fd) then (v, Reply(-1, [])) else (v.(open := v.open[fd := None]), Reply(0, []))
    case Delete(name) =>
      if !v.mounted || name !in v.files || IsOpen(v.open, name) then (v, Reply(-1, []))
      else (v.(files := v.files - {name}), Reply(0, []))
    case Read(fd, n) => if !Usable(v, fd) then (v, Reply(-1, [])) else ViewRead(v, fd, n)
    case Write(fd, buf) => if !Usable(v, fd) then (v, Reply(-1, [])) else (ViewWrite(v, fd, buf), Reply(|buf|, []))
    case Seek(fd, offset) =>
      if !Usable(v, fd) || offset < 0 || offset > v.files[v.open[fd].value.name].size then (v, Reply(-1, []))
      else (Moved(v, fd, offset), Reply(0, []))
    case Size(fd) => if !Usable(v, fd) then (v, Reply(-1, [])) else (v, Reply(v.files[v.open[fd].value.name].size, []))
  }

  // ---------------------------------------------------------------- the view of a state

  function Names(dir: Directory): set<seq<byte>> {
    set e: nat | e < MAX_FILES && Named(dir[e]) :: Text(dir[e].name)
  }

  function FileOf(m: Meta, bs: Blocks, i: nat): File
    requires i < MAX_FILES
  {
    File(if Data(m, bs, i) < DISK_BLOCKS then bs[Data(m, bs, i)] else Zeros(BLOCK_SIZE), m.inodes[i].fileSize)
  }

  /** The inode number of the entry that carries `name`. */
  function InodeOf(dir: Directory, name: seq<byte>): u16
    requires name in Names(dir)
  {
    NamesAre(dir, name);
    dir[Lookup(dir, name, MAX_FILES)].inodeNum
  }

  function FilesOf(m: Meta, bs: Blocks): map<seq<byte>, File>
    requires EntriesSound(m)
  {
    map name | name in Names(m.directory) :: FileOf(m, bs, InodeOf(m.directory, name))
  }

  function NameOf(dir: Directory, i: nat): seq<byte> {
    var e := EntryOf(dir, i, MAX_FILES);
    if e == -1 then [] else Text(dir[e].name)
  }

  function HandleOf(dir: Directory, d: Descriptor): Option<Handle> {
    if d.isUsed then Some(Handle(NameOf(dir, d.inodeNum), d.offset)) else None
  }

  function ViewOf(s: Fs): View
    requires EntriesSound(Image(s))
  {
    View(s.ready, FilesOf(Image(s), s.disk.blocks),
        seq(MAX_FDS, f requires 0 <= f < MAX_FDS => HandleOf(Image(s).directory, s.fds[f])))
  }

  // ---------------------------------------------------------------- names and entries

  lemma NamesAre(dir: Directory, name: seq<byte>)
    ensures name in Names(dir) <==> Lookup(dir, name, MAX_FILES) != -1
  {
    hide Named, Text;
    if name in Names(dir) {
      var e: nat :| e < MAX_FILES && Named(dir[e]) && Text(dir[e].name) == name;
    }
  }

  /** An entry is found again by its name and by its inode number. */
  lemma EntryFound(m: Meta, e: nat)
    requires EntriesSound(m) && e < MAX_FILES && Named(m.directory[e])
    ensures Lookup(m.directory, Text(m.directory[e].name), MAX_FILES) == e
    ensures EntryOf(m.directory, m.directory[e].inodeNum, MAX_FILES) == e
    ensures Text(m.directory[e].name) in Names(m.directory)
  {
    hide Named, Text, Strlen;
    var l := Lookup(m.directory, Text(m.directory[e].name), MAX_FILES);
    var o := EntryOf(m.directory, m.directory[e].inodeNum, MAX_FILES);
    assert Named(m.directory[l]) && Named(m.directory[o]);
  }

  /** A used inode's name leads back to it. */
  lemma InodeFound(m: Meta, i: nat)
    requires EntriesSound(m) && InodesNamed(m) && i < MAX_FILES && Used(m, i)
    ensures NameOf(m.directory, i) in Names(m.directory) && InodeOf(m.directory, NameOf(m.directory, i)) == i
  {
    hide Named, Text, Strlen;
    EntryFound(m, EntryOf(m.directory, i, MAX_FILES));
  }

  lemma NameFound(m: Meta, name: seq<byte>)
    requires EntriesSound(m) && name in Names(m.directory)
    ensures InodeOf(m.directory, name) < MAX_FILES && Used(m, InodeOf(m.directory, name)) &&
        NameOf(m.directory, InodeOf(m.directory, name)) == name
  {
    hide Named, Text, Strlen;
    NamesAre(m.directory, name);
    EntryFound(m, Lookup(m.directory, name, MAX_FILES));
  }

  // ---------------------------------------------------------------- when the tables are full

  function NamesBelow(dir: Directory, n: nat): set<seq<byte>>
    requires n <= MAX_FILES
  {
    set e: nat | e < n && Named(dir[e]) :: Text(dir[e].name)
  }

  lemma NamesStep(dir: Directory, n: nat)
    requires n < MAX_FILES
    ensures NamesBelow(dir, n + 1) == NamesBelow(dir, n) + if Named(dir[n]) then {Text(dir[n].name)} else {}
  {
    hide Named, Text;
    forall name | name in NamesBelow(dir, n) ensures name in NamesBelow(dir, n + 1) {
      var e: nat :| e < n && Named(dir[e]) && Text(dir[e].name) == name;
    }
  }

  lemma NoneBelow(dir: Directory)
    ensures NamesBelow(dir, 0) == {}
  {}

  lemma NameIsNew(m: Meta, n: nat)
    requires EntriesSound(m) && n < MAX_FILES && Named(m.directory[n])
    ensures Text(m.directory[n].name) !in NamesBelow(m.directory, n)
  {
    hide Named, Text, Strlen;
  }

  lemma {:induction false} NamesCounted(m: Meta, n: nat)
    requires EntriesSound(m) && n <= MAX_FILES
    ensures |NamesBelow(m.directory, n)| == UsedEntries(m.directory, n)
  {
    hide Named, Text, NamesBelow, EntriesSound;
    if n == 0 {
      NoneBelow(m.directory);
    } else {
      NamesCounted(m, n - 1);
      NamesStep(m.directory, n - 1);
      if Named(m.directory[n - 1]) {
        NameIsNew(m, n - 1);
      }
    }
  }

  lemma {:induction false} AllInodesUsed(inodes: InodeTable, n: nat)
    requires n <= MAX_FILES
    ensures UsedInodes(inodes, n) == n <==> forall i | 0 <= i < n :: inodes[i].isUsed
  {
    if n > 0 {
      AllInodesUsed(inodes, n - 1);
    }
  }

  lemma {:induction false} AllEntriesUsed(dir: Directory, n: nat)
    requires n <= MAX_FILES
    ensures UsedEntries(dir, n) == n <==> forall e | 0 <= e < n :: Named(dir[e])
  {
    hide Named;
    if n > 0 {
      AllEntriesUsed(dir, n - 1);
    }
  }

  /** Inodes, entries and the map of files run out together. */
  lemma FullTogether(m: Meta, bs: Blocks, failed: nat)
    requires Consistent(m, bs, failed)
    ensures |FilesOf(m, bs)| == Files(m)
    ensures FindInode(m.inodes, 0) == -1 <==> |FilesOf(m, bs)| == MAX_FILES
    ensures FirstFree(m.directory, 0) == -1 <==> |FilesOf(m, bs)| == MAX_FILES
  {
    hide Named, Text, Strlen, FilesSound, FilesApart, FreeBlank, EntriesSound, InodesNamed;
    NamesCounted(m, MAX_FILES);
    AllInodesUsed(m.inodes, MAX_FILES);
    AllEntriesUsed(m.directory, MAX_FILES);
    assert FilesOf(m, bs).Keys == NamesBelow(m.directory, MAX_FILES);
  }

  // ---------------------------------------------------------------- how the view changes

  lemma ViewTidy(c: Config)
    requires Inv(c)
    ensures Tidy(ViewOf(c.s))
  {
    hide Named, Text, Strlen, FilesSound, FilesApart, FreeBlank, Accounted, EntriesSound, InodesNamed, Decode;
    forall f: nat | f < MAX_FDS && c.s.fds[f].isUsed
        ensures NameOf(Image(c.s).directory, c.s.fds[f].inodeNum) in Names(Image(c.s).directory) {
      InodeFound(Image(c.s), c.s.fds[f].inodeNum);
    }
  }

  /** The handle of an open descriptor names its inode. */
  lemma HandleIs(c: Config, fd: nat)
    requires Inv(c) && fd < MAX_FDS && c.s.fds[fd].isUsed
    ensures Tidy(ViewOf(c.s)) && Usable(ViewOf(c.s), fd) && ViewOf(c.s).open[fd].value.offset == c.s.fds[fd].offset
    ensures var i, name := c.s.fds[fd].inodeNum, ViewOf(c.s).open[fd].value.name;
            && Used(c.s.meta, i) && name == NameOf(c.s.meta.directory, i) && name in Names(c.s.meta.directory) &&
                  InodeOf(c.s.meta.directory, name) == i
            && ViewOf(c.s).files[name] == FileOf(c.s.meta, c.s.disk.blocks, i)
  {
    hide Named, Text, Strlen, FilesSound, FilesApart, FreeBlank, Accounted, EntriesSound, InodesNamed, NameOf, InodeOf;
    ViewTidy(c);
    InodeFound(c.s.meta, c.s.fds[fd].inodeNum);
  }

  predicate Agrees(c: Config, e: Event)
    requires Linked(c.s) && Legal(c.s, e)
  {
    && EntriesSound(Image(c.s)) && Tidy(ViewOf(c.s)) && Suits(ViewOf(c.s), e)
    && EntriesSound(Image(Call(c.s, e).0))
    && ViewStep(ViewOf(c.s), e) == (ViewOf(Call(c.s, e).0), Call(c.s, e).1)
  }

  /** Writing a descriptor changes its handle and nothing else. */
  lemma DescriptorSet(s: Fs, fd: nat, d: Descriptor)
    requires s.ready && EntriesSound(s.meta) && fd < MAX_FDS
    ensures ViewOf(s.(fds := s.fds[fd := d])) == ViewOf(s).(open := ViewOf(s).open[fd := HandleOf(s.meta.directory, d)])
  {
    hide EntriesSound, HandleOf, FilesOf;
    assert ViewOf(s.(fds := s.fds[fd := d])).open == ViewOf(s).open[fd := HandleOf(s.meta.directory, d)];
  }

  /** Calls that only move descriptors about, or do nothing. */
  lemma SeekAgrees(c: Config, fd: nat, offset: int)
    requires Inv(c) && Legal(c.s, Seek(fd, offset))
    ensures Agrees(c, Seek(fd, offset))
  {
    hide Named, Text, Strlen, FilesSound, FilesApart, FreeBlank, Accounted, EntriesSound, InodesNamed, NameOf,
        InodeOf, Decode;
    ViewTidy(c);
    if c.s.fds[fd].isUsed {
      HandleIs(c, fd);
      DescriptorSet(c.s, fd, c.s.fds[fd].(offset := if offset < 0 then 0 else offset));
    }
  }

  lemma SizeAgrees(c: Config, fd: nat)
    requires Inv(c) && Legal(c.s, Size(fd))
    ensures Agrees(c, Size(fd))
  {
    hide Named, Text, Strlen, FilesSound, FilesApart, FreeBlank, Accounted, EntriesSound, InodesNamed, NameOf,
        InodeOf, Decode;
    ViewTidy(c);
    if c.s.fds[fd].isUsed {
      HandleIs(c, fd);
    }
  }

  lemma CloseAgrees(c: Config, fd: nat)
    requires Inv(c) && Legal(c.s, Close(fd))
    ensures Agrees(c, Close(fd))
  {
    hide Named, Text, Strlen, FilesSound, FilesApart, FreeBlank, Accounted, EntriesSound, InodesNamed, NameOf,
        InodeOf, Decode;
    ViewTidy(c);
    if c.s.fds[fd].isUsed {
      HandleIs(c, fd);
      DescriptorSet(c.s, fd, NO_DESCRIPTOR);
    }
  }

  /** A read through an open descriptor: what it returns, and where the descriptor ends up. */
  lemma ReadOutcome(c: Config, fd: nat, n: nat)
    requires Inv(c) && Legal(c.s, Read(fd, n)) && c.s.fds[fd].isUsed
    ensures var s, d := c.s, c.s.fds[fd];
            var b := Data(s.meta, s.disk.blocks, d.inodeNum);
            if d.offset < s.meta.inodes[d.inodeNum].fileSize && d.offset < BLOCK_SIZE
            then && b < DISK_BLOCKS && d.offset + n <= BLOCK_SIZE
                 && DoRead(s, fd, n) == (s.(fds := s.fds[fd := d.(offset := d.offset + n)]),
                                         Reply(n, s.disk.blocks[b][d.offset..d.offset + n]))
            else DoRead(s, fd, n) == (s, Reply(0, []))
  {
    hide FilesSound, FilesApart, FreeBlank, Accounted, EntriesSound, InodesNamed, BlockFor, BlockEntry, Bit;
    if c.s.fds[fd].offset < c.s.meta.inodes[c.s.fds[fd].inodeNum].fileSize {
      BlockForIs(c, fd);
    }
  }

  lemma ReadAgrees(c: Config, fd: nat, n: nat)
    requires Inv(c) && Legal(c.s, Read(fd, n))
    ensures Agrees(c, Read(fd, n))
  {
    hide Named, Consistent, EntriesSound, NameOf, InodeOf, Decode, Copies, FilesOf;
    ViewTidy(c);
    SoundEntries(c);
    if c.s.fds[fd].isUsed {
      hide DoRead;
      HandleIs(c, fd);
      ReadOutcome(c, fd, n);
      DescriptorSet(c.s, fd, c.s.fds[fd].(offset := c.s.fds[fd].offset + n));
    }
  }

  lemma SoundEntries(c: Config)
    requires Inv(c)
    ensures EntriesSound(Image(c.s)) && InodesNamed(Image(c.s))
  {}

  lemma {:induction false} UnusedIs(s: Fs, from: nat)
    requires EntriesSound(Image(s)) && from <= MAX_FDS
    ensures Unused(ViewOf(s).open, from) == FindFD(s.fds, from)
    decreases MAX_FDS - from
  {
    hide EntriesSound, FilesOf, Image;
    if from < MAX_FDS {
      UnusedIs(s, from + 1);
    }
  }

  lemma OpenAgrees(c: Config, name: seq<byte>)
    requires Inv(c) && Legal(c.s, Open(name))
    ensures Agrees(c, Open(name))
  {
    hide Named, Text, Strlen, FilesSound, FilesApart, FreeBlank, Accounted, InodesNamed, Decode;
    ViewTidy(c);
    UnusedIs(c.s, 0);
    NamesAre(Image(c.s).directory, name);
    var m, e, f := c.s.meta, Lookup(c.s.meta.directory, name, MAX_FILES), FindFD(c.s.fds, 0);
    if c.s.ready && e != -1 && f != -1 {
      EntryFound(m, e);
      DescriptorSet(c.s, f, Descriptor(true, m.directory[e].inodeNum, 0));
    }
  }

  lemma MountAgrees(c: Config)
    requires Inv(c) && Legal(c.s, Mount)
    ensures Agrees(c, Mount)
  {
    hide Named, Text, Strlen, FilesSound, FilesApart, FreeBlank, Accounted, InodesNamed, EntriesSound, Decode;
    ViewTidy(c);
    assert ViewOf(DoMount(c.s).0).open == ViewOf(c.s).open;
  }

  lemma MakeAgrees(c: Config, rest: seq<byte>)
    requires Inv(c) && Legal(c.s, Make(rest))
    ensures Agrees(c, Make(rest))
  {
    hide FilesSound, FilesApart, FreeBlank, Accounted, InodesNamed, EntriesSound, Decode, Encode, Inv;
    assert Unmounted(c.s) && EntriesSound(Image(c.s)) by { MakeStart(c); }
    ViewTidy(c);
    MakeEstablishesInv(c, rest);
    var s' := DoMake(c.s, rest).0;
    assert EntriesSound(Image(s')) by { MakeStart(Config(s', 0)); }
    forall name ensures name !in Names(Fresh().directory) { NoNames(Fresh(), name); }
    assert ViewOf(s').open == ViewOf(c.s).open;
  }

  lemma MakeStart(c: Config)
    requires Inv(c) && !c.s.ready
    ensures Unmounted(c.s) && EntriesSound(Image(c.s))
  {}

  lemma NoNames(m: Meta, name: seq<byte>)
    requires m.directory == Cleared(m.sb).directory
    ensures name !in Names(m.directory)
  {}

  lemma UnmountAgrees(c: Config, rest: seq<byte>)
    requires Inv(c) && Legal(c.s, Unmount(rest))
    ensures Agrees(c, Unmount(rest))
  {
    hide Named, Text, Strlen, FilesApart, FreeBlank, Accounted, InodesNamed, EntriesSound, Decode, Encode, BlockEntry,
        Bit;
    ViewTidy(c);
    if c.s.ready {
      var m, bs := c.s.meta, c.s.disk.blocks;
      MetaRoundTrip(m, rest);
      forall i: nat | i < MAX_FILES && Used(m, i) ensures FileOf(m, bs[0 := Encode(m, rest)], i) == FileOf(m, bs, i) {
        assert Sound(m, bs, i);
      }
      SameFiles(m, bs, m, bs[0 := Encode(m, rest)]);
      assert ViewOf(DoUnmount(c.s, rest).0).open == seq(MAX_FDS, _ => None);
    }
  }

  /** The map of files depends on the directory and on each used inode's data and size. */
  lemma SameFiles(m: Meta, bs: Blocks, m': Meta, bs': Blocks)
    requires EntriesSound(m) && m'.directory == m.directory && EntriesSound(m')
    requires forall i: nat | i < MAX_FILES && Used(m, i) :: FileOf(m', bs', i) == FileOf(m, bs, i)
    ensures FilesOf(m', bs') == FilesOf(m, bs)
  {
    hide EntriesSound, InodeOf, FileOf, Used, Named, Text;
    forall name | name in Names(m.directory)
      ensures FilesOf(m', bs')[name] == FilesOf(m, bs)[name]
    {
      NameFound(m, name);
    }
  }

  // ---------------------------------------------------------------- write, create and delete

  lemma OneFileChanges(m: Meta, bs: Blocks, m': Meta, bs': Blocks, i: nat)
    requires EntriesSound(m) && InodesNamed(m) && m'.directory == m.directory && EntriesSound(m') && i < MAX_FILES &&
        Used(m, i)
    requires forall j: nat | j < MAX_FILES && Used(m, j) && j != i :: FileOf(m', bs', j) == FileOf(m, bs, j)
    ensures FilesOf(m', bs') == FilesOf(m, bs)[NameOf(m.directory, i) := FileOf(m', bs', i)]
  {
    hide EntriesSound, InodesNamed, InodeOf, NameOf, FileOf;
    InodeFound(m, i);
    forall name | name in Names(m.directory)
      ensures FilesOf(m', bs')[name] == if name == NameOf(m.directory, i) then FileOf(m', bs', i)
          else FilesOf(m, bs)[name]
    {
      NameFound(m, name);
    }
  }

  /** The files before and after a write that lands in file `i` or in block 0. */
  lemma WriteFiles(m: Meta, bs: Blocks, i: nat, b: nat, x: Block, j: nat)
    requires FilesSound(m, bs) && FilesApart(m, bs) && i < MAX_FILES && Used(m, i) && j < MAX_FILES && Used(m, j)
    requires b < DISK_BLOCKS && (b == Data(m, bs, i) || b == 0)
    ensures Data(m, bs[b := x], j) == Data(m, bs, j)
    ensures bs[b := x][Data(m, bs, j)] == if j == i && b != 0 then x else bs[Data(m, bs, j)]
  {
    hide Bit, BlockEntry;
    assert Sound(m, bs, i) && Sound(m, bs, j);
    NotAnIndex(m, bs, i);
    assert j == i || Data(m, bs, j) != Data(m, bs, i);
  }

  /** A write through an open descriptor lands in the file's data block below offset 4096, in
      block 0 beyond it; the offset and the size grow either way. */
  lemma WriteOutcome(c: Config, fd: nat, buf: seq<byte>)
    requires Inv(c) && Legal(c.s, Write(fd, buf)) && c.s.ready && c.s.fds[fd].isUsed
    ensures var s, d := c.s, c.s.fds[fd];
            var b := if d.offset < BLOCK_SIZE then Data(s.meta, s.disk.blocks, d.inodeNum) else 0;
            var inode := s.meta.inodes[d.inodeNum];
            && b < DISK_BLOCKS && (b == 0) == (d.offset >= BLOCK_SIZE) && d.offset % BLOCK_SIZE + |buf| <= BLOCK_SIZE
            && DoWrite(s, fd, buf) == (
                 s.(disk := Put(s.disk, b, Splice(s.disk.blocks[b], d.offset % BLOCK_SIZE, buf)),
                    fds := s.fds[fd := d.(offset := d.offset + |buf|)],
                    meta := s.meta.(inodes :=
                        s.meta.inodes[d.inodeNum := inode.(fileSize := (inode.fileSize + |buf|) % 0x1_0000)])),
                 Reply(|buf|, []))
  {
    hide FilesSound, FilesApart, FreeBlank, Accounted, EntriesSound, InodesNamed, BlockFor, BlockEntry, Bit;
    BlockForIs(c, fd);
  }

  lemma WriteView(m: Meta, bs: Blocks, failed: nat, i: nat, b: nat, x: Block, size: u16)
    requires Consistent(m, bs, failed) && i < MAX_FILES && Used(m, i)
    requires b < DISK_BLOCKS && (b == Data(m, bs, i) || b == 0)
    ensures var m' := m.(inodes := m.inodes[i := m.inodes[i].(fileSize := size)]);
            && EntriesSound(m') && Data(m, bs, i) < DISK_BLOCKS
            && FilesOf(m', bs[b := x]) ==
                  FilesOf(m, bs)[NameOf(m.directory, i) := File(if b == 0 then bs[Data(m, bs, i)] else x, size)]
  {
    hide Named, Text, Accounted, EntriesSound, NameOf, BlockEntry, Bit, FilesOf;
    var m' := m.(inodes := m.inodes[i := m.inodes[i].(fileSize := size)]);
    forall j: nat | j < MAX_FILES && Used(m, j)
      ensures Data(m', bs[b := x], j) == Data(m, bs, j) < DISK_BLOCKS
      ensures bs[b := x][Data(m, bs, j)] == if j == i && b != 0 then x else bs[Data(m, bs, j)]
    {
      assert Sound(m, bs, j);
      WriteFiles(m, bs, i, b, x, j);
    }
    EntriesStay(m, m');
    OneFileChanges(m, bs, m', bs[b := x], i);
  }

  lemma WriteRefused(s: Fs, fd: nat, buf: seq<byte>)
    requires Linked(s) && Legal(s, Write(fd, buf)) && !(s.ready && s.fds[fd].isUsed)
    ensures DoWrite(s, fd, buf) == (s, Reply(-1, []))
  {}

  /** A write through an open descriptor does to the view what the simple write does. */
  lemma WriteSeen(c: Config, fd: nat, buf: seq<byte>)
    requires Inv(c) && Legal(c.s, Write(fd, buf)) && c.s.ready && c.s.fds[fd].isUsed
    ensures EntriesSound(Image(c.s)) && Tidy(ViewOf(c.s)) && Usable(ViewOf(c.s), fd)
    ensures ViewOf(c.s).open[fd].value.offset % BLOCK_SIZE + |buf| <= BLOCK_SIZE
    ensures DoWrite(c.s, fd, buf).1 == Reply(|buf|, []) && EntriesSound(Image(DoWrite(c.s, fd, buf).0))
    ensures ViewOf(DoWrite(c.s, fd, buf).0) == ViewWrite(ViewOf(c.s), fd, buf)
  {
    hide Named, Consistent, EntriesSound, NameOf, InodeOf, FilesOf, Splice, DoWrite, Decode;
    SoundEntries(c);
    HandleIs(c, fd);
    WriteOutcome(c, fd, buf);
    var s, m, bs, i := c.s, c.s.meta, c.s.disk.blocks, c.s.fds[fd].inodeNum;
    var b := if s.fds[fd].offset < BLOCK_SIZE then Data(m, bs, i) else 0;
    WriteView(m, bs, c.failed, i, b, Splice(bs[b], s.fds[fd].offset % BLOCK_SIZE, buf),
        (m.inodes[i].fileSize + |buf|) % 0x1_0000);
    assert s.fds[fd].offset < BLOCK_SIZE ==> s.fds[fd].offset % BLOCK_SIZE == s.fds[fd].offset;
    var h := ViewOf(s).open[fd].value;
    assert ViewOf(DoWrite(s, fd, buf).0).open == ViewOf(s).open[fd := Some(h.(offset := h.offset + |buf|))];
  }

  lemma WriteAgrees(c: Config, fd: nat, buf: seq<byte>)
    requires Inv(c) && Legal(c.s, Write(fd, buf))
    ensures Agrees(c, Write(fd, buf))
  {
    hide Consistent, EntriesSound, Decode, FilesOf, DoWrite, ViewWrite;
    ViewTidy(c);
    SoundEntries(c);
    if c.s.ready && c.s.fds[fd].isUsed {
      WriteSeen(c, fd, buf);
    } else {
      WriteRefused(c.s, fd, buf);
    }
  }

  /** An entry that two directories share means the same in both. */
  lemma EntryKept(m: Meta, m': Meta, e: nat)
    requires EntriesSound(m) && EntriesSound(m') && e < MAX_FILES && Named(m.directory[e]) &&
        m'.directory[e] == m.directory[e]
    ensures var name, i := Text(m.directory[e].name), m.directory[e].inodeNum;
            && name in Names(m.directory) && name in Names(m'.directory)
            && InodeOf(m.directory, name) == InodeOf(m'.directory, name) == i
            && NameOf(m.directory, i) == NameOf(m'.directory, i) == name
  {
    hide Named, Text, EntriesSound;
    EntryFound(m, e);
    EntryFound(m', e);
  }

  lemma CreatedNames(m: Meta, i: nat, e: nat, name: seq<byte>, a: nat, b: nat)
    requires EntriesSound(m) && InodesNamed(m) && Vacant(m, i, e, name, a, b)
    ensures var m' := Created(m, i, e, name, a, b);
            && EntriesSound(m') && Names(m'.directory) == Names(m.directory) + {name}
            && InodeOf(m'.directory, name) == i
            && (forall n | n in Names(m.directory) :: n != name && InodeOf(m'.directory, n) == InodeOf(m.directory, n))
            && (forall j: nat | j < MAX_FILES && Used(m, j) :: NameOf(m'.directory, j) == NameOf(m.directory, j))
  {
    hide Text, EntriesSound, InodesNamed, NameOf, InodeOf, Copied, Bit, SetBit, Lookup;
    var m' := Created(m, i, e, name, a, b);
    CreatedEntriesSound(m, i, e, name, a, b);
    NameOfCopied(m.directory[e].name, name);
    EntryKept(m', m', e);
    NamesAre(m.directory, name);
    forall n | n in Names(m.directory)
      ensures n != name && n in Names(m'.directory) && InodeOf(m'.directory, n) == InodeOf(m.directory, n)
    {
      var f: nat :| f < MAX_FILES && Named(m.directory[f]) && Text(m.directory[f].name) == n;
      EntryKept(m, m', f);
    }
    forall n | n in Names(m'.directory) ensures n in Names(m.directory) + {name} {
      var f: nat :| f < MAX_FILES && Named(m'.directory[f]) && Text(m'.directory[f].name) == n;
    }
    forall j: nat | j < MAX_FILES && Used(m, j) ensures NameOf(m'.directory, j) == NameOf(m.directory, j) {
      EntryKept(m, m', EntryOf(m.directory, j, MAX_FILES)) by { assert InodesNamed(m); HasEntry(m, j); }
    }
  }

  lemma HasEntry(m: Meta, i: nat)
    requires InodesNamed(m) && i < MAX_FILES && Used(m, i)
    ensures EntryOf(m.directory, i, MAX_FILES) != -1
  {}

  lemma CreatedFiles(m: Meta, bs: Blocks, failed: nat, i: nat, e: nat, name: seq<byte>, a: nat, b: nat, rest: seq<byte>)
    requires Consistent(m, bs, failed) && Vacant(m, i, e, name, a, b) && |rest| == BLOCK_SIZE - 512
    ensures var m' := Created(m, i, e, name, a, b);
            EntriesSound(m') && FilesOf(m', bs[a := IndexBlock(b, rest)]) ==
                FilesOf(m, bs)[name := File(Zeros(BLOCK_SIZE), 0)]
  {
    hide Text, Accounted, EntriesSound, InodesNamed, InodeOf, Copied, Bit, SetBit, BlockEntry, IndexBlock, FileOf;
    var m', bs' := Created(m, i, e, name, a, b), bs[a := IndexBlock(b, rest)];
    CreatedNames(m, i, e, name, a, b);
    NewFile(m, bs, i, e, name, a, b, rest);
    forall n | n in Names(m.directory) ensures FilesOf(m', bs')[n] == FilesOf(m, bs)[n] {
      NameFound(m, n);
      OldFile(m, bs, i, e, name, a, b, rest, InodeOf(m.directory, n));
    }
    assert FilesOf(m', bs')[name] == FileOf(m', bs', i);
  }

  lemma NewFile(m: Meta, bs: Blocks, i: nat, e: nat, name: seq<byte>, a: nat, b: nat, rest: seq<byte>)
    requires FreeBlank(m, bs) && Vacant(m, i, e, name, a, b) && |rest| == BLOCK_SIZE - 512
    ensures FileOf(Created(m, i, e, name, a, b), bs[a := IndexBlock(b, rest)], i) == File(Zeros(BLOCK_SIZE), 0)
  {
    hide Copied, Bit, SetBit, BlockEntry, IndexBlock;
    IndexBlockEntries(b, rest);
  }

  lemma OldFile(m: Meta, bs: Blocks, i: nat, e: nat, name: seq<byte>, a: nat, b: nat, rest: seq<byte>, j: nat)
    requires FilesSound(m, bs) && Vacant(m, i, e, name, a, b) && |rest| == BLOCK_SIZE - 512 && j < MAX_FILES &&
        Used(m, j)
    ensures FileOf(Created(m, i, e, name, a, b), bs[a := IndexBlock(b, rest)], j) == FileOf(m, bs, j)
  {
    hide Copied, Bit, SetBit, BlockEntry, IndexBlock;
    assert Sound(m, bs, j);
  }

  /** A create that succeeds adds the file to the view. */
  lemma CreateSeen(c: Config, name: seq<byte>, rest: seq<byte>)
    requires Inv(c) && Legal(c.s, Create(name, rest)) && DoCreate(c.s, name, rest).1.code != -1
    ensures c.s.ready && EntriesSound(c.s.meta) && EntriesSound(Image(DoCreate(c.s, name, rest).0))
    ensures ViewOf(DoCreate(c.s, name, rest).0)
         == ViewOf(c.s).(files := ViewOf(c.s).files[name := File(Zeros(BLOCK_SIZE), 0)])
  {
    hide Text, Consistent, EntriesSound, NameOf, InodeOf, FilesOf, FileOf, Copied, Bit, SetBit, IndexBlock, DoCreate;
    var s, m := c.s, c.s.meta;
    SoundEntries(c);
    CreateOutcome(s, name, rest);
    var i, e := FindInode(m.inodes, 0), FindDirectory(true, m.directory, name);
    CreatedFiles(m, s.disk.blocks, c.failed, i, e, name, IndexFor(s), DataFor(s), rest);
    CreatedNames(m, i, e, name, IndexFor(s), DataFor(s));
    assert ViewOf(DoCreate(s, name, rest).0).open == ViewOf(s).open;
  }

  /** One that fails changes nothing in it. */
  lemma CreateUnseen(c: Config, name: seq<byte>, rest: seq<byte>)
    requires Inv(c) && Legal(c.s, Create(name, rest)) && DoCreate(c.s, name, rest).1.code == -1
    ensures EntriesSound(Image(c.s)) && EntriesSound(Image(DoCreate(c.s, name, rest).0))
    ensures ViewOf(DoCreate(c.s, name, rest).0) == ViewOf(c.s)
  {
    hide Text, Consistent, EntriesSound, NameOf, InodeOf, FilesOf, Bit, SetBit, IndexBlock, Decode, DoCreate;
    var s := c.s;
    SoundEntries(c);
    CreateOutcome(s, name, rest);
    if s.ready {
      LeakedView(s.meta, s.disk.blocks, IndexFor(s), DataFor(s));
    }
    assert ViewOf(DoCreate(s, name, rest).0).open == ViewOf(s).open;
  }

  /** When a create fails, as seen in the view. */
  lemma CreateFailsWhen(c: Config, name: seq<byte>, rest: seq<byte>)
    requires Inv(c) && Legal(c.s, Create(name, rest))
    ensures EntriesSound(Image(c.s))
    ensures DoCreate(c.s, name, rest).1 == Reply(-1, []) || DoCreate(c.s, name, rest).1 == Reply(0, [])
    ensures DoCreate(c.s, name, rest).1.code == -1 <==>
            !c.s.ready || |name| >= NAME_SIZE || name in ViewOf(c.s).files || |ViewOf(c.s).files| >= MAX_FILES
    ensures c.s.ready ==> |ViewOf(c.s).files| <= MAX_FILES
  {
    hide Text, Consistent, EntriesSound, Bit, SetBit, IndexBlock, Copied, Decode, DoCreate, FileOf, InodeOf;
    SoundEntries(c);
    CreateOutcome(c.s, name, rest);
    if c.s.ready {
      NamesAre(c.s.meta.directory, name);
      FullTogether(c.s.meta, c.s.disk.blocks, c.failed);
    }
  }

  lemma CreateAgrees(c: Config, name: seq<byte>, rest: seq<byte>)
    requires Inv(c) && Legal(c.s, Create(name, rest))
    ensures Agrees(c, Create(name, rest))
  {
    hide Consistent, EntriesSound, Decode, FilesOf, DoCreate;
    ViewTidy(c);
    CreateFailsWhen(c, name, rest);
    if DoCreate(c.s, name, rest).1.code == -1 {
      CreateUnseen(c, name, rest);
    } else {
      CreateSeen(c, name, rest);
    }
  }

  lemma LeakedView(m: Meta, bs: Blocks, a: nat, b: nat)
    requires EntriesSound(m) && a < DISK_BLOCKS && b < DISK_BLOCKS
    ensures EntriesSound(MarkTwo(m, a, b)) && FilesOf(MarkTwo(m, a, b), bs) == FilesOf(m, bs)
  {
    hide Text, Strlen, InodeOf, SetBit, BlockEntry;
    EntriesStay(m, MarkTwo(m, a, b));
  }

  lemma RemovedNames(m: Meta, i: nat, e: nat, a: nat, b: nat)
    requires EntriesSound(m) && InodesNamed(m) && Holds(m, i, e) && a < DISK_BLOCKS && b < DISK_BLOCKS
    ensures var m', name := Removed(m, i, e, a, b), Text(m.directory[e].name);
            && EntriesSound(m') && Names(m'.directory) == Names(m.directory) - {name}
            && name in Names(m.directory) && InodeOf(m.directory, name) == i
            && (forall n | n in Names(m'.directory) :: InodeOf(m'.directory, n) == InodeOf(m.directory, n) != i)
            && (forall j: nat | j < MAX_FILES && Used(m, j) &&
                  j != i :: NameOf(m'.directory, j) == NameOf(m.directory, j) != name)
  {
    hide Text, Strlen, InodesNamed, NameOf, InodeOf, Bit, SetBit, Lookup;
    var m', name := Removed(m, i, e, a, b), Text(m.directory[e].name);
    RemovedEntriesSound(m, i, e, a, b);
    EntryKept(m, m, e);
    forall n | n in Names(m'.directory)
      ensures n in Names(m.directory) && n != name && InodeOf(m'.directory, n) == InodeOf(m.directory, n) != i
    {
      var f: nat :| f < MAX_FILES && Named(m'.directory[f]) && Text(m'.directory[f].name) == n;
      EntryKept(m, m', f);
    }
    forall n | n in Names(m.directory) && n != name ensures n in Names(m'.directory) {
      var f: nat :| f < MAX_FILES && Named(m.directory[f]) && Text(m.directory[f].name) == n;
      EntryKept(m, m', f);
    }
    forall j: nat | j < MAX_FILES && Used(m, j) && j != i
        ensures NameOf(m'.directory, j) == NameOf(m.directory, j) != name {
      HasEntry(m, j);
      EntryKept(m, m', EntryOf(m.directory, j, MAX_FILES));
    }
  }

  lemma RemovedFiles(m: Meta, bs: Blocks, failed: nat, i: nat, e: nat)
    requires Consistent(m, bs, failed) && Holds(m, i, e)
    ensures var a, b := Index(m, i), Data(m, bs, i);
            && a < DISK_BLOCKS && b < DISK_BLOCKS && EntriesSound(Removed(m, i, e, a, b))
            && FilesOf(Removed(m, i, e, a, b), bs[b := Zeros(BLOCK_SIZE)][a := Zeros(BLOCK_SIZE)])
               == FilesOf(m, bs) - {Text(m.directory[e].name)}
  {
    hide Text, Accounted, EntriesSound, InodesNamed, InodeOf, Bit, SetBit, BlockEntry, FileOf;
    assert Sound(m, bs, i);
    var a, b := Index(m, i), Data(m, bs, i);
    var m', bs' := Removed(m, i, e, a, b), bs[b := Zeros(BLOCK_SIZE)][a := Zeros(BLOCK_SIZE)];
    RemovedNames(m, i, e, a, b);
    forall n | n in Names(m'.directory) ensures FilesOf(m', bs')[n] == FilesOf(m, bs)[n] {
      NameFound(m, n);
      KeptFile(m, bs, i, e, InodeOf(m.directory, n));
    }
  }

  lemma KeptFile(m: Meta, bs: Blocks, i: nat, e: nat, j: nat)
    requires FilesSound(m, bs) && FilesApart(m, bs) && Holds(m, i, e) && j < MAX_FILES && Used(m, j) && j != i
    ensures var a, b := Index(m, i), Data(m, bs, i);
            && a < DISK_BLOCKS && b < DISK_BLOCKS
            && FileOf(Removed(m, i, e, a, b), bs[b := Zeros(BLOCK_SIZE)][a := Zeros(BLOCK_SIZE)], j) == FileOf(m, bs, j)
  {
    hide Bit, SetBit, BlockEntry;
    assert Sound(m, bs, i) && Sound(m, bs, j);
    assert Index(m, i) != Index(m, j) && Data(m, bs, i) != Data(m, bs, j) && Index(m, i) != Data(m, bs, j);
    assert Index(m, j) != Data(m, bs, i);
  }

  /** A name is open in the view when a descriptor is open on its inode. */
  lemma OpenIs(c: Config, name: seq<byte>)
    requires Inv(c) && c.s.ready && name in Names(c.s.meta.directory)
    ensures IsOpen(ViewOf(c.s).open, name) <==> OpenOn(c.s.fds, InodeOf(c.s.meta.directory, name))
  {
    hide Text, Consistent, EntriesSound, NameOf, InodeOf, FilesOf, Named;
    SoundEntries(c);
    NameFound(c.s.meta, name);
    forall f: nat | f < MAX_FDS && c.s.fds[f].isUsed
      ensures ViewOf(c.s).open[f].Some?
      ensures ViewOf(c.s).open[f].value.name == name <==> c.s.fds[f].inodeNum == InodeOf(c.s.meta.directory, name)
    {
      HandleIs(c, f);
    }
  }

  lemma DeleteAgrees(c: Config, name: seq<byte>)
    requires Inv(c) && Legal(c.s, Delete(name))
    ensures Agrees(c, Delete(name))
  {
    hide Text, Consistent, EntriesSound, NameOf, Bit, SetBit, Decode, DoDelete, IsOpen, OpenOn;
    var s, m, e := c.s, c.s.meta, Lookup(c.s.meta.directory, name, MAX_FILES);
    ViewTidy(c);
    SoundEntries(c);
    DeleteOutcome(c, name);
    NamesAre(m.directory, name);
    if s.ready && e != -1 {
      OpenIs(c, name);
      if !OpenOn(s.fds, m.directory[e].inodeNum) {
        DeletedView(c, name);
      }
    }
  }

  lemma DeletedView(c: Config, name: seq<byte>)
    requires Inv(c) && Legal(c.s, Delete(name)) && c.s.ready && name in Names(c.s.meta.directory)
    requires !OpenOn(c.s.fds, InodeOf(c.s.meta.directory, name))
    ensures var s' := DoDelete(c.s, name).0;
            && s'.ready && EntriesSound(s'.meta) && EntriesSound(c.s.meta)
            && ViewOf(s') == ViewOf(c.s).(files := ViewOf(c.s).files - {name})
  {
    hide Text, Consistent, EntriesSound, NameOf, FilesOf, Bit, SetBit, Decode, DoDelete;
    var s, m, bs, e := c.s, c.s.meta, c.s.disk.blocks, Lookup(c.s.meta.directory, name, MAX_FILES);
    SoundEntries(c);
    DeleteOutcome(c, name);
    NamesAre(m.directory, name);
    var i := m.directory[e].inodeNum;
    RemovedFiles(m, bs, c.failed, i, e);
    RemovedNames(m, i, e, Index(m, i), Data(m, bs, i));
    var s' := DoDelete(s, name).0;
    forall f: nat | f < MAX_FDS ensures HandleOf(s'.meta.directory, s.fds[f]) == HandleOf(m.directory, s.fds[f]) {
      assert s.fds[f].isUsed ==> Used(m, s.fds[f].inodeNum) && s.fds[f].inodeNum != i;
    }
    assert ViewOf(s').open == ViewOf(s).open;
  }

  // ---------------------------------------------------------------- every call

  /** fs.c refines the simple file system: each call returns what the simple one returns and
      changes the view as it does. */
  lemma CallAgrees(c: Config, e: Event)
    requires Inv(c) && Legal(c.s, e)
    ensures Agrees(c, e)
  {
    hide Agrees, Inv;
    match e
    case Make(rest) => MakeAgrees(c, rest);
    case Mount => MountAgrees(c);
    case Unmount(rest) => UnmountAgrees(c, rest);
    case Create(name, rest) => CreateAgrees(c, name, rest);
    case Open(name) => OpenAgrees(c, name);
    case Close(fd) => CloseAgrees(c, fd);
    case Delete(name) => DeleteAgrees(c, name);
    case Read(fd, n) => ReadAgrees(c, fd, n);
    case Write(fd, buf) => WriteAgrees(c, fd, buf);
    case Seek(fd, offset) => SeekAgrees(c, fd, offset);
    case Size(fd) => SizeAgrees(c, fd);
  }
}

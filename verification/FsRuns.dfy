/** Runs of the file system: the calls a program makes, and what every run keeps. */
module FsRuns {
  import opened Common
  import opened FsCodec
  import opened FsBitmap
  import opened FsModel

  datatype Event =
    | Make(rest: seq<byte>) | Mount | Unmount(rest: seq<byte>)
    | Create(name: seq<byte>, rest: seq<byte>) | Open(name: seq<byte>) | Close(fd: nat) | Delete(name: seq<byte>)
    | Read(fd: nat, n: nat) | Write(fd: nat, buf: seq<byte>) | Seek(fd: nat, offset: int) | Size(fd: nat)

  /** `failed` counts the creates that failed on the mounted file system since it was made. */
  datatype Config = Config(s: Fs, failed: nat)

  /** What the callers of fs.c must keep to. */
  predicate Legal(s: Fs, e: Event)
    requires Linked(s)
  {
    match e
    case Make(rest) => !s.ready && |rest| == BLOCK_SIZE - META_SIZE
    case Mount => !s.ready
    case Unmount(rest) => |rest| == BLOCK_SIZE - META_SIZE
    case Create(name, rest) =>
      name != [] && IsString(name) && |name| != NAME_SIZE && |rest| == BLOCK_SIZE - 512 && TwoClear(s.meta.bitmap)
    case Open(name) => IsString(name)
    case Close(fd) => fd < MAX_FDS
    case Delete(name) => IsString(name)
    case Read(fd, n) => fd < MAX_FDS && (Copies(s, fd) ==> s.fds[fd].offset % BLOCK_SIZE + n <= BLOCK_SIZE)
    case Write(fd, buf) => fd < MAX_FDS && (s.ready && s.fds[fd].isUsed ==> Fits(s, fd, |buf|))
    case Seek(fd, _) => fd < MAX_FDS
    case Size(fd) => fd < MAX_FDS
  }

  function Call(s: Fs, e: Event): (Fs, Reply)
    requires Linked(s) && Legal(s, e)
  {
    match e
    case Make(rest) => DoMake(s, rest)
    case Mount => DoMount(s)
    case Unmount(rest) => DoUnmount(s, rest)
    case Create(name, rest) => DoCreate(s, name, rest)
    case Open(name) => DoOpen(s, name)
    case Close(fd) => DoClose(s, fd)
    case Delete(name) => DoDelete(s, name)
    case Read(fd, n) => DoRead(s, fd, n)
    case Write(fd, buf) => DoWrite(s, fd, buf)
    case Seek(fd, offset) => DoSeek(s, fd, offset)
    case Size(fd) => DoSize(s, fd)
  }

  function Step(c: Config, e: Event): Config
    requires Linked(c.s) && Legal(c.s, e)
  {
    var (s, reply) := Call(c.s, e);
    Config(s, if e.Make? then 0 else if e.Create? && c.s.ready && reply.code == -1 then c.failed + 1 else c.failed)
  }

  // ---------------------------------------------------------------- block ownership

  predicate Used(m: Meta, i: nat)
    requires i < MAX_FILES
  {
    m.inodes[i].isUsed
  }

  function Index(m: Meta, i: nat): u16
    requires i < MAX_FILES
  {
    m.inodes[i].singleIndirectBlock
  }

  /** The data block of inode `i`, as its index block on disk says. */
  function Data(m: Meta, bs: Blocks, i: nat): nat
    requires i < MAX_FILES
  {
    if Index(m, i) < DISK_BLOCKS then BlockEntry(bs[Index(m, i)], 0) else 0
  }

  predicate Owned(m: Meta, b: nat) {
    0 < b < DISK_BLOCKS && Bit(m.bitmap, b)
  }

  /** A file's two blocks are real, marked and different, and its index block lists the data
      block and nothing after it. */
  predicate Sound(m: Meta, bs: Blocks, i: nat)
    requires i < MAX_FILES
  {
    && Owned(m, Index(m, i)) && Owned(m, Data(m, bs, i)) && Index(m, i) != Data(m, bs, i)
    && forall e | 1 <= e < 128 :: BlockEntry(bs[Index(m, i)], e) == 0
  }

  predicate FilesSound(m: Meta, bs: Blocks) {
    forall i: nat | i < MAX_FILES && Used(m, i) :: Sound(m, bs, i)
  }

  /** No block belongs to two files. */
  predicate FilesApart(m: Meta, bs: Blocks) {
    forall i: nat, j: nat | i < MAX_FILES && j < MAX_FILES && i != j && Used(m, i) && Used(m, j) ::
      Index(m, i) != Index(m, j) && Data(m, bs, i) != Data(m, bs, j) && Index(m, i) != Data(m, bs, j)
  }

  /** Block 0 is marked, and an unmarked block is blank. */
  predicate FreeBlank(m: Meta, bs: Blocks) {
    && Bit(m.bitmap, 0)
    && forall b: nat | b < DISK_BLOCKS && !Bit(m.bitmap, b) :: bs[b] == Zeros(BLOCK_SIZE)
  }

  // ---------------------------------------------------------------- directory

  /** Entries have short names and used inodes; no two share a name or an inode. */
  predicate EntriesSound(m: Meta) {
    && (forall e: nat | e < MAX_FILES :: m.directory[e].isUsed == Named(m.directory[e]) &&
          m.directory[e].inodeNum < MAX_FILES)
    && (forall e: nat | e < MAX_FILES && Named(m.directory[e]) ::
          Strlen(m.directory[e].name) < NAME_SIZE && Used(m, m.directory[e].inodeNum))
    && (forall e: nat, f: nat | e < f < MAX_FILES && Named(m.directory[e]) && Named(m.directory[f]) ::
          Text(m.directory[e].name) != Text(m.directory[f].name) && m.directory[e].inodeNum != m.directory[f].inodeNum)
  }

  /** The last entry below `n` that names inode `i`, or -1. */
  function EntryOf(dir: Directory, i: nat, n: nat): (r: int)
    requires n <= MAX_FILES
    ensures r == -1 || (0 <= r < n && Named(dir[r]) && dir[r].inodeNum == i)
    ensures forall e | (if r == -1 then 0 else r + 1) <= e < n :: !(Named(dir[e]) && dir[e].inodeNum == i)
  {
    if n == 0 then -1
    else if Named(dir[n - 1]) && dir[n - 1].inodeNum == i then n - 1
    else EntryOf(dir, i, n - 1)
  }

  /** Every used inode has a name. */
  predicate InodesNamed(m: Meta) {
    forall i: nat | i < MAX_FILES && Used(m, i) :: EntryOf(m.directory, i, MAX_FILES) != -1
  }

  // ---------------------------------------------------------------- counting

  function UsedInodes(inodes: InodeTable, n: nat): (k: nat)
    requires n <= MAX_FILES
    ensures k <= n
  {
    if n == 0 then 0 else UsedInodes(inodes, n - 1) + if inodes[n - 1].isUsed then 1 else 0
  }

  function UsedEntries(dir: Directory, n: nat): (k: nat)
    requires n <= MAX_FILES
    ensures k <= n
  {
    if n == 0 then 0 else UsedEntries(dir, n - 1) + if Named(dir[n - 1]) then 1 else 0
  }

  function Files(m: Meta): nat {
    UsedInodes(m.inodes, MAX_FILES)
  }

  /** Block 0, two blocks a file and two for each failed create are marked. */
  predicate Accounted(m: Meta, failed: nat) {
    && UsedEntries(m.directory, MAX_FILES) == Files(m)
    && Marked(m.bitmap, DISK_BLOCKS) == 1 + 2 * Files(m) + 2 * failed
  }

  predicate Consistent(m: Meta, bs: Blocks, failed: nat) {
    FilesSound(m, bs) && FilesApart(m, bs) && FreeBlank(m, bs) && EntriesSound(m) && InodesNamed(m) &&
        Accounted(m, failed)
  }

  // ---------------------------------------------------------------- the invariant

  /** The metadata in force: in memory while mounted, in block 0 otherwise. */
  function Image(s: Fs): Meta {
    if s.ready then s.meta else Decode(s.disk.blocks[0])
  }

  /** Open descriptors refer to used inodes, and there are none unless mounted. */
  predicate DescriptorsSound(s: Fs)
    requires Linked(s)
  {
    forall f: nat | f < MAX_FDS && s.fds[f].isUsed :: s.ready && Used(s.meta, s.fds[f].inodeNum)
  }

  predicate Inv(c: Config) {
    && Linked(c.s) && c.s.ready == c.s.disk.active && DescriptorsSound(c.s)
    && Consistent(Image(c.s), c.s.disk.blocks, c.failed)
  }

  // ---------------------------------------------------------------- making, mounting, unmounting

  lemma {:induction false} NothingUsed(sb: SuperBlock, n: nat)
    requires n <= MAX_FILES
    ensures UsedInodes(Cleared(sb).inodes, n) == 0 && UsedEntries(Cleared(sb).directory, n) == 0
  {
    if n > 0 {
      NothingUsed(sb, n - 1);
    }
  }

  lemma FreshConsistent(bs: Blocks)
    requires forall b | 1 <= b < DISK_BLOCKS :: bs[b] == Zeros(BLOCK_SIZE)
    ensures Consistent(Fresh(), bs, 0)
  {
    hide Bit, SetBit;
    var sb := SuperBlock(SB_SIZE, INODES_AT, DIRECTORY_AT);
    var m := Cleared(sb);
    NothingUsed(sb, MAX_FILES);
    forall b: nat | b < DISK_BLOCKS ensures !Bit(m.bitmap, b) { ZeroBit(m.bitmap, b); }
    NoneMarked(m.bitmap, DISK_BLOCKS);
    OneBitChanges(m.bitmap, 0, true);
    MarkedChange(m.bitmap, 0, true, DISK_BLOCKS);
  }

  /** No file looks at what a marked block holds unless it is an index block. */
  lemma ContentsFree(m: Meta, bs: Blocks, failed: nat, b: nat, x: Block)
    requires Consistent(m, bs, failed) && b < DISK_BLOCKS && Bit(m.bitmap, b)
    requires forall i: nat | i < MAX_FILES && Used(m, i) :: Index(m, i) != b
    ensures Consistent(m, bs[b := x], failed)
    ensures forall i: nat | i < MAX_FILES && Used(m, i) :: Data(m, bs[b := x], i) == Data(m, bs, i)
  {
    hide Bit, BlockEntry, EntriesSound, InodesNamed, Accounted;
    assert forall i: nat | i < MAX_FILES && Used(m, i) :: Sound(m, bs, i);
  }

  /** A closed disk with no descriptors open, whatever is on it. */
  predicate Unmounted(s: Fs) {
    Linked(s) && !s.ready && !s.disk.active && forall f | 0 <= f < MAX_FDS :: !s.fds[f].isUsed
  }

  lemma MakeEstablishesInv(c: Config, rest: seq<byte>)
    requires Unmounted(c.s) && Legal(c.s, Make(rest))
    ensures Inv(Step(c, Make(rest))) && Image(Step(c, Make(rest)).s) == Fresh()
  {
    hide FilesSound, FilesApart, FreeBlank, InodesNamed, Accounted, Fresh, Encode, Decode;
    MetaRoundTrip(Fresh(), rest);
    FreshConsistent(DoMake(c.s, rest).0.disk.blocks);
  }

  lemma MountKeepsInv(c: Config)
    requires Inv(c) && Legal(c.s, Mount)
    ensures Inv(Step(c, Mount))
  {
    hide FilesSound, FilesApart, FreeBlank, InodesNamed, Accounted, Decode;
  }

  lemma UnmountKeepsInv(c: Config, rest: seq<byte>)
    requires Inv(c) && Legal(c.s, Unmount(rest))
    ensures Inv(Step(c, Unmount(rest)))
  {
    hide Encode, Decode, EntriesSound, InodesNamed, Accounted, FilesApart, Bit;
    if c.s.ready {
      var m, bs := c.s.meta, c.s.disk.blocks;
      MetaRoundTrip(m, rest);
      forall i: nat | i < MAX_FILES && Used(m, i) ensures Index(m, i) != 0 { assert Sound(m, bs, i); }
      ContentsFree(m, bs, c.failed, 0, Encode(m, rest));
    }
  }

  lemma {:induction false} UsedInodesChange(inodes: InodeTable, i: nat, x: Inode, n: nat)
    requires i < MAX_FILES && n <= MAX_FILES
    ensures UsedInodes(inodes[i := x], n) == UsedInodes(inodes, n) + if i >= n || x.isUsed == inodes[i].isUsed then 0
        else if x.isUsed then 1 else -1
  {
    if n > 0 {
      UsedInodesChange(inodes, i, x, n - 1);
    }
  }

  lemma {:induction false} UsedEntriesChange(dir: Directory, e: nat, x: DirEntry, n: nat)
    requires e < MAX_FILES && n <= MAX_FILES
    ensures UsedEntries(dir[e := x], n) == UsedEntries(dir, n) + if e >= n || Named(x) == Named(dir[e]) then 0
        else if Named(x) then 1 else -1
  {
    hide Named;
    if n > 0 {
      UsedEntriesChange(dir, e, x, n - 1);
    }
  }

  function MarkTwo(m: Meta, a: nat, b: nat): Meta
    requires a < DISK_BLOCKS && b < DISK_BLOCKS
  {
    m.(bitmap := SetBit(SetBit(m.bitmap, a, true), b, true))
  }

  /** A failed create leaks its two blocks and changes nothing else. */
  lemma LeakKeepsConsistent(m: Meta, bs: Blocks, failed: nat, a: nat, b: nat)
    requires Consistent(m, bs, failed) && a < DISK_BLOCKS && b < DISK_BLOCKS && a != b && !Bit(m.bitmap, a) &&
        !Bit(m.bitmap, b)
    ensures Consistent(MarkTwo(m, a, b), bs, failed + 1)
  {
    hide Bit, SetBit, EntriesSound, BlockEntry;
    BitsAfter(m, a, b);
    var m' := MarkTwo(m, a, b);
    forall i: nat | i < MAX_FILES && Used(m', i) ensures Sound(m', bs, i) { assert Sound(m, bs, i); }
    forall i: nat, j: nat | i < MAX_FILES && j < MAX_FILES && i != j && Used(m', i) && Used(m', j)
      ensures Index(m', i) != Index(m', j) && Data(m', bs, i) != Data(m', bs, j) && Index(m', i) != Data(m', bs, j)
    {
      assert Used(m, i) && Used(m, j);
      assert Index(m, i) != Index(m, j) && Data(m, bs, i) != Data(m, bs, j) && Index(m, i) != Data(m, bs, j);
    }
    EntriesStay(m, m');
  }

  /** Only the directory and which inodes are used matter to the directory's soundness. */
  lemma EntriesStay(m: Meta, m': Meta)
    requires EntriesSound(m) && m'.directory == m.directory
    requires forall i: nat | i < MAX_FILES :: Used(m', i) == Used(m, i)
    ensures EntriesSound(m')
  {
    hide Named, Text, Strlen;
  }

  lemma BitsAfter(m: Meta, a: nat, b: nat)
    requires a < DISK_BLOCKS && b < DISK_BLOCKS && a != b && !Bit(m.bitmap, a) && !Bit(m.bitmap, b)
    ensures forall j: nat | j < DISK_BLOCKS :: Bit(MarkTwo(m, a, b).bitmap, j) == (j == a || j == b || Bit(m.bitmap, j))
    ensures Marked(MarkTwo(m, a, b).bitmap, DISK_BLOCKS) == Marked(m.bitmap, DISK_BLOCKS) + 2
  {
    hide Bit, SetBit;
    var bm := SetBit(m.bitmap, a, true);
    OneBitChanges(m.bitmap, a, true);
    OneBitChanges(bm, b, true);
    MarkedChange(m.bitmap, a, true, DISK_BLOCKS);
    MarkedChange(bm, b, true, DISK_BLOCKS);
  }

  // ---------------------------------------------------------------- creating

  /** The metadata after a create: inode `i`, entry `e`, index block `a` and data block `b`. */
  function Created(m: Meta, i: nat, e: nat, name: seq<byte>, a: nat, b: nat): Meta
    requires i < MAX_FILES && e < MAX_FILES && |name| < NAME_SIZE && a < DISK_BLOCKS && b < DISK_BLOCKS
  {
    MarkTwo(m, a, b).(
      inodes := m.inodes[i := Inode(true, a, 0)],
      directory := m.directory[e := DirEntry(true, i, Copied(m.directory[e].name, name))])
  }

  /** The places a create takes are all free, and the name is new. */
  predicate Vacant(m: Meta, i: nat, e: nat, name: seq<byte>, a: nat, b: nat) {
    && i < MAX_FILES && !Used(m, i) && e < MAX_FILES && !Named(m.directory[e])
    && 0 < |name| < NAME_SIZE && IsString(name) && Lookup(m.directory, name, MAX_FILES) == -1
    && a < DISK_BLOCKS && b < DISK_BLOCKS && a != b && !Bit(m.bitmap, a) && !Bit(m.bitmap, b)
  }

  lemma CreatedFilesSound(m: Meta, bs: Blocks, i: nat, e: nat, name: seq<byte>, a: nat, b: nat, rest: seq<byte>)
    requires FilesSound(m, bs) && FilesApart(m, bs) && FreeBlank(m, bs) && Vacant(m, i, e, name, a, b) &&
        |rest| == BLOCK_SIZE - 512
    ensures var m', bs' := Created(m, i, e, name, a, b), bs[a := IndexBlock(b, rest)];
            FilesSound(m', bs') && FilesApart(m', bs') && FreeBlank(m', bs')
  {
    hide Bit, SetBit, BlockEntry, IndexBlock, Copied, Text;
    var m', bs' := Created(m, i, e, name, a, b), bs[a := IndexBlock(b, rest)];
    BitsAfter(m, a, b);
    IndexBlockEntries(b, rest);
    assert Sound(m', bs', i);
    forall j: nat | j < MAX_FILES && Used(m', j) && j != i
      ensures Sound(m', bs', j) && Index(m', j) == Index(m, j) && Data(m', bs', j) == Data(m, bs, j)
    {
      assert Used(m, j) && Sound(m, bs, j);
    }
    forall j: nat, k: nat | j < MAX_FILES && k < MAX_FILES && j != k && Used(m', j) && Used(m', k)
      ensures Index(m', j) != Index(m', k) && Data(m', bs', j) != Data(m', bs', k) && Index(m', j) != Data(m', bs', k)
    {
      assert j == i || (Used(m, j) && Sound(m, bs, j));
      assert k == i || (Used(m, k) && Sound(m, bs, k));
      if j != i && k != i {
        assert Index(m, j) != Index(m, k) && Data(m, bs, j) != Data(m, bs, k) && Index(m, j) != Data(m, bs, k);
      }
    }
  }

  lemma CreatedEntriesSound(m: Meta, i: nat, e: nat, name: seq<byte>, a: nat, b: nat)
    requires EntriesSound(m) && InodesNamed(m) && Vacant(m, i, e, name, a, b)
    ensures EntriesSound(Created(m, i, e, name, a, b)) && InodesNamed(Created(m, i, e, name, a, b))
    ensures Text(Created(m, i, e, name, a, b).directory[e].name) == name
  {
    hide Bit, SetBit, Text, Strlen, Copied;
    var m' := Created(m, i, e, name, a, b);
    TextOfCopied(m.directory[e].name, name);
    NameOfCopied(m.directory[e].name, name);
    forall f: nat | f < MAX_FILES && Named(m'.directory[f]) && f != e
      ensures Text(m'.directory[f].name) != name && m'.directory[f].inodeNum != i
    {
      assert Named(m.directory[f]) && Used(m, m.directory[f].inodeNum);
    }
    forall j: nat | j < MAX_FILES && Used(m', j) ensures EntryOf(m'.directory, j, MAX_FILES) != -1 {
      if j == i {
        assert Named(m'.directory[e]) && m'.directory[e].inodeNum == j;
      } else {
        assert Used(m, j);
        var f := EntryOf(m.directory, j, MAX_FILES);
        assert Named(m'.directory[f]) && m'.directory[f].inodeNum == j;
      }
    }
  }

  lemma NameOfCopied(was: Name, name: seq<byte>)
    requires 0 < |name| < NAME_SIZE && IsString(name)
    ensures Copied(was, name)[0] != 0
  {}

  lemma CreatedConsistent(m: Meta, bs: Blocks, failed: nat, i: nat, e: nat, name: seq<byte>, a: nat, b: nat,
      rest: seq<byte>)
    requires Consistent(m, bs, failed) && Vacant(m, i, e, name, a, b) && |rest| == BLOCK_SIZE - 512
    ensures Consistent(Created(m, i, e, name, a, b), bs[a := IndexBlock(b, rest)], failed)
  {
    hide FilesSound, FilesApart, FreeBlank, EntriesSound, InodesNamed, Bit, SetBit, IndexBlock, Copied;
    CreatedFilesSound(m, bs, i, e, name, a, b, rest);
    CreatedEntriesSound(m, i, e, name, a, b);
    BitsAfter(m, a, b);
    NameOfCopied(m.directory[e].name, name);
    UsedInodesChange(m.inodes, i, Inode(true, a, 0), MAX_FILES);
    UsedEntriesChange(m.directory, e, DirEntry(true, i, Copied(m.directory[e].name, name)), MAX_FILES);
  }

  /** A create that gets as far as changing the directory does exactly `Created`. */
  lemma CreateOutcome(s: Fs, name: seq<byte>, rest: seq<byte>)
    requires Linked(s) && Legal(s, Create(name, rest)) && s.ready == s.disk.active
    ensures var (s', r) := DoCreate(s, name, rest);
            if r.code == -1 then r == Reply(-1, []) && s' == s.(meta := MarkTwo(s.meta, IndexFor(s), DataFor(s)))
            else var i, e, a, b := FindInode(s.meta.inodes, 0), FindDirectory(true, s.meta.directory, name),
                IndexFor(s), DataFor(s);
                 && r == Reply(0, []) && s.ready && Vacant(s.meta, i, e, name, a, b)
                 && s' == s.(meta := Created(s.meta, i, e, name, a, b),
                       disk := s.disk.(blocks := s.disk.blocks[a := IndexBlock(b, rest)]))
    ensures DoCreate(s, name, rest).1.code == -1 <==>
            (!s.ready || |name| >= NAME_SIZE || Lookup(s.meta.directory, name, MAX_FILES) != -1
             || FirstFree(s.meta.directory, 0) == -1 || FindInode(s.meta.inodes, 0) == -1)
  {
    hide Bit, SetBit, IndexBlock, Copied;
    TwoFound(s.meta.bitmap);
  }

  lemma CreateKeepsInv(c: Config, name: seq<byte>, rest: seq<byte>)
    requires Inv(c) && Legal(c.s, Create(name, rest))
    ensures Inv(Step(c, Create(name, rest)))
  {
    hide Bit, SetBit, IndexBlock, Copied, Consistent, DoCreate;
    var s, m := c.s, c.s.meta;
    var a, b := IndexFor(s), DataFor(s);
    CreateOutcome(s, name, rest);
    TwoFound(m.bitmap);
    if DoCreate(s, name, rest).1.code == -1 {
      if s.ready {
        LeakKeepsConsistent(m, s.disk.blocks, c.failed, a, b);
      }
    } else {
      CreatedConsistent(m, s.disk.blocks, c.failed, FindInode(m.inodes, 0), FindDirectory(true, m.directory, name),
          name, a, b, rest);
    }
  }

  // ---------------------------------------------------------------- deleting

  /** The metadata after a delete of inode `i` and entry `e`, whose blocks were `a` and `b`. */
  function Removed(m: Meta, i: nat, e: nat, a: nat, b: nat): Meta
    requires i < MAX_FILES && e < MAX_FILES && a < DISK_BLOCKS && b < DISK_BLOCKS
  {
    m.(bitmap := SetBit(SetBit(m.bitmap, b, false), a, false),
       inodes := m.inodes[i := NO_INODE], directory := m.directory[e := NO_ENTRY])
  }

  lemma BitsCleared(m: Meta, a: nat, b: nat)
    requires a < DISK_BLOCKS && b < DISK_BLOCKS && a != b && Bit(m.bitmap, a) && Bit(m.bitmap, b)
    ensures var bm := SetBit(SetBit(m.bitmap, b, false), a, false);
            && (forall j: nat | j < DISK_BLOCKS :: Bit(bm, j) == (j != a && j != b && Bit(m.bitmap, j)))
            && Marked(bm, DISK_BLOCKS) == Marked(m.bitmap, DISK_BLOCKS) - 2
  {
    hide Bit, SetBit;
    var bm := SetBit(m.bitmap, b, false);
    OneBitChanges(m.bitmap, b, false);
    OneBitChanges(bm, a, false);
    MarkedChange(m.bitmap, b, false, DISK_BLOCKS);
    MarkedChange(bm, a, false, DISK_BLOCKS);
  }

  /** The loop over a sound index block releases the data block and stops. */
  lemma OneBlockListed(s: Fs, i: nat)
    requires i < MAX_FILES && Sound(s.meta, s.disk.blocks, i) && s.disk.active
    ensures ReleaseListed(s, s.disk.blocks[Index(s.meta, i)], 0) == (Release(s, Data(s.meta, s.disk.blocks, i)), true)
  {
    hide Bit, SetBit, BlockEntry;
    var index := s.disk.blocks[Index(s.meta, i)];
    assert BlockEntry(index, 1) == 0;
    assert ReleaseListed(Release(s, BlockEntry(index, 0)), index, 1) == (Release(s, BlockEntry(index, 0)), true);
  }

  predicate Holds(m: Meta, i: nat, e: nat) {
    i < MAX_FILES && Used(m, i) && e < MAX_FILES && Named(m.directory[e]) && m.directory[e].inodeNum == i
  }

  lemma RemovedFilesSound(m: Meta, bs: Blocks, i: nat, e: nat)
    requires FilesSound(m, bs) && FilesApart(m, bs) && FreeBlank(m, bs) && Holds(m, i, e)
    ensures var a, b := Index(m, i), Data(m, bs, i);
            var m', bs' := Removed(m, i, e, a, b), bs[b := Zeros(BLOCK_SIZE)][a := Zeros(BLOCK_SIZE)];
            FilesSound(m', bs') && FilesApart(m', bs') && FreeBlank(m', bs')
  {
    hide Bit, SetBit, BlockEntry;
    var a, b := Index(m, i), Data(m, bs, i);
    var m', bs' := Removed(m, i, e, a, b), bs[b := Zeros(BLOCK_SIZE)][a := Zeros(BLOCK_SIZE)];
    assert Sound(m, bs, i);
    BitsCleared(m, a, b);
    forall j: nat | j < MAX_FILES && Used(m', j)
      ensures j != i && Used(m, j) && Sound(m', bs', j) && Index(m', j) == Index(m, j) &&
          Data(m', bs', j) == Data(m, bs, j)
    {
      assert Used(m, j) && Sound(m, bs, j);
      assert Index(m, i) != Index(m, j) && Data(m, bs, i) != Data(m, bs, j) && Index(m, i) != Data(m, bs, j);
      assert Index(m, j) != Data(m, bs, i);
    }
    forall j: nat, k: nat | j < MAX_FILES && k < MAX_FILES && j != k && Used(m', j) && Used(m', k)
      ensures Index(m', j) != Index(m', k) && Data(m', bs', j) != Data(m', bs', k) && Index(m', j) != Data(m', bs', k)
    {
      assert Index(m, j) != Index(m, k) && Data(m, bs, j) != Data(m, bs, k) && Index(m, j) != Data(m, bs, k);
    }
  }

  lemma RemovedEntriesSound(m: Meta, i: nat, e: nat, a: nat, b: nat)
    requires EntriesSound(m) && InodesNamed(m) && Holds(m, i, e) && a < DISK_BLOCKS && b < DISK_BLOCKS
    ensures EntriesSound(Removed(m, i, e, a, b)) && InodesNamed(Removed(m, i, e, a, b))
  {
    hide Bit, SetBit, Text, Strlen;
    var m' := Removed(m, i, e, a, b);
    forall f: nat | f < MAX_FILES && Named(m'.directory[f]) ensures f != e && m'.directory[f].inodeNum != i {
      assert Named(m.directory[f]) && Used(m, m.directory[f].inodeNum);
    }
    forall j: nat | j < MAX_FILES && Used(m', j) ensures EntryOf(m'.directory, j, MAX_FILES) != -1 {
      assert Used(m, j);
      var f := EntryOf(m.directory, j, MAX_FILES);
      assert Named(m'.directory[f]) && m'.directory[f].inodeNum == j;
    }
  }

  lemma RemovedConsistent(m: Meta, bs: Blocks, failed: nat, i: nat, e: nat)
    requires Consistent(m, bs, failed) && Holds(m, i, e)
    ensures var a, b := Index(m, i), Data(m, bs, i);
            && a < DISK_BLOCKS && b < DISK_BLOCKS
            && Consistent(Removed(m, i, e, a, b), bs[b := Zeros(BLOCK_SIZE)][a := Zeros(BLOCK_SIZE)], failed)
  {
    hide FilesApart, EntriesSound, InodesNamed, Bit, SetBit, BlockEntry;
    var a, b := Index(m, i), Data(m, bs, i);
    assert Sound(m, bs, i);
    RemovedFilesSound(m, bs, i, e);
    RemovedEntriesSound(m, i, e, a, b);
    BitsCleared(m, a, b);
    UsedInodesChange(m.inodes, i, NO_INODE, MAX_FILES);
    UsedEntriesChange(m.directory, e, NO_ENTRY, MAX_FILES);
  }

  /** A delete that succeeds does exactly `Removed`, to the entry found and its inode. */
  lemma DeleteOutcome(c: Config, name: seq<byte>)
    requires Inv(c) && Legal(c.s, Delete(name))
    ensures var s, (s', r) := c.s, DoDelete(c.s, name);
            var m, bs, e := s.meta, s.disk.blocks, Lookup(s.meta.directory, name, MAX_FILES);
            if !s.ready || e == -1 || OpenOn(s.fds, m.directory[e].inodeNum) then s' == s && r == Reply(-1, [])
            else var i := m.directory[e].inodeNum;
                 var a, b := Index(m, i), Data(m, bs, i);
                 && r == Reply(0, []) && Holds(m, i, e) && a < DISK_BLOCKS && b < DISK_BLOCKS
                 && s' == s.(meta := Removed(m, i, e, a, b),
                       disk := s.disk.(blocks := bs[b := Zeros(BLOCK_SIZE)][a := Zeros(BLOCK_SIZE)]))
  {
    hide Bit, SetBit, BlockEntry, FilesApart, FreeBlank, InodesNamed, Accounted, ReleaseListed;
    var s, e := c.s, Lookup(c.s.meta.directory, name, MAX_FILES);
    if s.ready && e != -1 {
      var i := s.meta.directory[e].inodeNum;
      assert Used(s.meta, i) && Sound(s.meta, s.disk.blocks, i);
      OneBlockListed(s, i);
    }
  }

  lemma DeleteKeepsInv(c: Config, name: seq<byte>)
    requires Inv(c) && Legal(c.s, Delete(name))
    ensures Inv(Step(c, Delete(name)))
  {
    hide Bit, SetBit, BlockEntry, Consistent, DoDelete;
    DeleteOutcome(c, name);
    var m, e := c.s.meta, Lookup(c.s.meta.directory, name, MAX_FILES);
    if c.s.ready && e != -1 && !OpenOn(c.s.fds, m.directory[e].inodeNum) {
      RemovedConsistent(m, c.s.disk.blocks, c.failed, m.directory[e].inodeNum, e);
    }
  }

  // ---------------------------------------------------------------- writing

  /** The block an access falls in: the file's data block up to offset 4096, block 0 after it. */
  lemma BlockForIs(c: Config, fd: nat)
    requires Inv(c) && c.s.ready && fd < MAX_FDS && c.s.fds[fd].isUsed && c.s.fds[fd].offset / BLOCK_SIZE < 128
    ensures var i := c.s.fds[fd].inodeNum;
            && Used(c.s.meta, i) && Sound(c.s.meta, c.s.disk.blocks, i)
            && BlockFor(c.s, fd) == if c.s.fds[fd].offset < BLOCK_SIZE then Data(c.s.meta, c.s.disk.blocks, i) else 0
  {
    hide Bit, BlockEntry, FilesApart, FreeBlank, InodesNamed, Accounted, EntriesSound;
    var i := c.s.fds[fd].inodeNum;
    assert Used(c.s.meta, i) && Sound(c.s.meta, c.s.disk.blocks, i);
    if c.s.fds[fd].offset < BLOCK_SIZE {
      assert c.s.fds[fd].offset / BLOCK_SIZE == 0;
    } else {
      assert c.s.fds[fd].offset / BLOCK_SIZE >= 1;
    }
  }

  /** Changing the size of a file keeps everything. */
  lemma SizeFree(m: Meta, bs: Blocks, failed: nat, i: nat, size: u16)
    requires Consistent(m, bs, failed) && i < MAX_FILES
    ensures Consistent(m.(inodes := m.inodes[i := m.inodes[i].(fileSize := size)]), bs, failed)
  {
    hide Bit, BlockEntry, EntriesSound;
    var m' := m.(inodes := m.inodes[i := m.inodes[i].(fileSize := size)]);
    forall j: nat | j < MAX_FILES
        ensures Used(m', j) == Used(m, j) && Index(m', j) == Index(m, j) && Data(m', bs, j) == Data(m, bs, j) {}
    forall j: nat | j < MAX_FILES && Used(m', j) ensures Sound(m', bs, j) { assert Used(m, j) && Sound(m, bs, j); }
    EntriesStay(m, m');
    UsedInodesChange(m.inodes, i, m.inodes[i].(fileSize := size), MAX_FILES);
    forall j: nat | j < MAX_FILES && Used(m', j)
        ensures EntryOf(m'.directory, j, MAX_FILES) != -1 { assert Used(m, j); }
  }

  /** No index block is the data block of a file, or block 0. */
  lemma NotAnIndex(m: Meta, bs: Blocks, i: nat)
    requires FilesSound(m, bs) && FilesApart(m, bs) && i < MAX_FILES && Used(m, i)
    ensures forall j: nat | j < MAX_FILES && Used(m, j) :: Index(m, j) != Data(m, bs, i) && Index(m, j) != 0
  {
    hide Bit, BlockEntry;
    forall j: nat | j < MAX_FILES && Used(m, j) ensures Index(m, j) != Data(m, bs, i) && Index(m, j) != 0 {
      assert Sound(m, bs, j) && Sound(m, bs, i);
      assert j == i || Index(m, j) != Data(m, bs, i);
    }
  }

  /** Writing into a file's data block or into block 0, and changing the file's size. */
  lemma WrittenConsistent(m: Meta, bs: Blocks, failed: nat, i: nat, b: nat, x: Block, size: u16)
    requires Consistent(m, bs, failed) && i < MAX_FILES && Used(m, i)
    requires b < DISK_BLOCKS && (b == Data(m, bs, i) || b == 0)
    ensures Consistent(m.(inodes := m.inodes[i := m.inodes[i].(fileSize := size)]), bs[b := x], failed)
  {
    hide Bit, BlockEntry, InodesNamed, EntriesSound, Accounted;
    assert Sound(m, bs, i);
    NotAnIndex(m, bs, i);
    ContentsFree(m, bs, failed, b, x);
    SizeFree(m, bs[b := x], failed, i, size);
  }

  lemma WriteKeepsInv(c: Config, fd: nat, buf: seq<byte>)
    requires Inv(c) && Legal(c.s, Write(fd, buf))
    ensures Inv(Step(c, Write(fd, buf)))
  {
    hide Consistent, BlockEntry, BlockFor, Decode;
    var s, m, bs := c.s, c.s.meta, c.s.disk.blocks;
    if s.ready && s.fds[fd].isUsed {
      BlockForIs(c, fd);
      var i, b := s.fds[fd].inodeNum, BlockFor(s, fd);
      if Reaches(s.disk, b) {
        var x := Splice(bs[b], s.fds[fd].offset % BLOCK_SIZE, buf);
        WrittenConsistent(m, bs, c.failed, i, b, x, (m.inodes[i].fileSize + |buf|) % 0x1_0000);
      }
    }
  }

  // ---------------------------------------------------------------- every run

  lemma StepKeepsInv(c: Config, e: Event)
    requires Inv(c) && Legal(c.s, e)
    ensures Inv(Step(c, e))
  {
    hide Consistent, DoMake, DoMount, DoUnmount, DoCreate, DoOpen, DoDelete, DoWrite, Decode;
    match e
    case Make(rest) => MakeEstablishesInv(c, rest);
    case Mount => MountKeepsInv(c);
    case Unmount(rest) => UnmountKeepsInv(c, rest);
    case Create(name, rest) => CreateKeepsInv(c, name, rest);
    case Delete(name) => DeleteKeepsInv(c, name);
    case Write(fd, buf) => WriteKeepsInv(c, fd, buf);
    case Open(name) => OpenKeepsInv(c, name);
    case _ => DescriptorCallKeepsInv(c, e);
  }

  /** Setting a descriptor that is unused or refers to a used inode keeps everything. */
  lemma DescriptorFree(c: Config, fd: nat, d: Descriptor)
    requires Inv(c) && fd < MAX_FDS && d.inodeNum < MAX_FILES && (d.isUsed ==> c.s.ready && Used(c.s.meta, d.inodeNum))
    ensures Inv(Config(c.s.(fds := c.s.fds[fd := d]), c.failed))
  {
    hide Consistent, Decode;
  }

  lemma OpenKeepsInv(c: Config, name: seq<byte>)
    requires Inv(c) && Legal(c.s, Open(name))
    ensures Inv(Step(c, Open(name)))
  {
    hide FilesSound, FilesApart, FreeBlank, InodesNamed, Accounted, Decode;
    var e, f := FindDirectory(false, c.s.meta.directory, name), FindFD(c.s.fds, 0);
    if c.s.ready && e != -1 && f != -1 {
      DescriptorFree(c, f, Descriptor(true, c.s.meta.directory[e].inodeNum, 0));
    }
  }

  /** Calls that move or close one descriptor, or none. */
  lemma DescriptorCallKeepsInv(c: Config, e: Event)
    requires Inv(c) && Legal(c.s, e) && (e.Close? || e.Read? || e.Seek? || e.Size?)
    ensures Inv(Step(c, e))
  {
    hide Consistent, Decode, BlockFor, BlockEntry;
    DescriptorFree(c, e.fd, Step(c, e).s.fds[e.fd]);
  }

  predicate IsRun(c: Config, es: seq<Event>)
    decreases |es|
  {
    es == [] || (Linked(c.s) && Legal(c.s, es[0]) && IsRun(Step(c, es[0]), es[1..]))
  }

  function After(c: Config, es: seq<Event>): Config
    requires IsRun(c, es)
    decreases |es|
  {
    if es == [] then c else After(Step(c, es[0]), es[1..])
  }

  /** The invariant holds after every run that starts where it holds; `MakeEstablishesInv` says
      that it holds once a file system has been made. */
  lemma {:induction false} RunKeepsInv(c: Config, es: seq<Event>)
    requires Inv(c) && IsRun(c, es)
    ensures Inv(After(c, es))
    decreases |es|
  {
    hide Inv, Step;
    if es != [] {
      StepKeepsInv(c, es[0]);
      RunKeepsInv(Step(c, es[0]), es[1..]);
    }
  }
}

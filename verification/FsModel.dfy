/** The file system of fs.c as functions from state to state and result, step by step in the
    source's order, over a disk with the block contract of disk.c. */
module FsModel {
  import opened Common
  import opened FsCodec
  import opened FsBitmap

  datatype Descriptor = Descriptor(isUsed: bool, inodeNum: u16, offset: nat)

  const NO_DESCRIPTOR: Descriptor := Descriptor(false, 0, 0)

  type FdTable = s: seq<Descriptor> | |s| == MAX_FDS witness seq(MAX_FDS, _ => NO_DESCRIPTOR)

  type Blocks = s: seq<Block> | |s| == DISK_BLOCKS witness seq(DISK_BLOCKS, _ => Zeros(BLOCK_SIZE))

  datatype Disk = Disk(active: bool, blocks: Blocks)

  /** The globals of fs.c and the disk below them. */
  datatype Fs = Fs(meta: Meta, fds: FdTable, ready: bool, disk: Disk)

  /** What a call returns, and what it copies into the caller's buffer. */
  datatype Reply = Reply(code: int, data: seq<byte>)

  /** Every inode number the arrays hold indexes the inode table. */
  predicate Linked(s: Fs) {
    && (forall e | 0 <= e < MAX_FILES :: s.meta.directory[e].inodeNum < MAX_FILES)
    && (forall f | 0 <= f < MAX_FDS :: s.fds[f].inodeNum < MAX_FILES)
  }

  // ---------------------------------------------------------------- names

  /** The C string in a name array. */
  function Text(n: Name): seq<byte> {
    n[..Strlen(n)]
  }

  /** What strcpy of a string leaves in a name array. */
  function Copied(was: Name, name: seq<byte>): Name
    requires |name| < NAME_SIZE
  {
    Splice(was, 0, name + [0])
  }

  predicate Named(d: DirEntry) {
    d.name[0] != 0
  }

  predicate IsString(name: seq<byte>) {
    forall k | 0 <= k < |name| :: name[k] != 0
  }

  lemma TextOfCopied(was: Name, name: seq<byte>)
    requires |name| < NAME_SIZE && IsString(name)
    ensures Text(Copied(was, name)) == name && Strlen(Copied(was, name)) == |name|
  {
    var n := Copied(was, name);
    assert n[|name|] == 0;
    assert forall k | 0 <= k < |name| :: n[k] == name[k];
  }

  // ---------------------------------------------------------------- searches

  /** `findInode`: the first unused inode from `from` on, or -1. */
  function FindInode(inodes: InodeTable, from: nat): (r: int)
    requires from <= MAX_FILES
    ensures r == -1 || (from <= r < MAX_FILES && !inodes[r].isUsed)
    ensures forall i | from <= i < (if r == -1 then MAX_FILES else r) :: inodes[i].isUsed
    decreases MAX_FILES - from
  {
    if from == MAX_FILES then -1 else if !inodes[from].isUsed then from else FindInode(inodes, from + 1)
  }

  /** The last entry below `n` with this name, or -1. */
  function Lookup(dir: Directory, name: seq<byte>, n: nat): (r: int)
    requires n <= MAX_FILES
    ensures r == -1 || (0 <= r < n && Named(dir[r]) && Text(dir[r].name) == name)
    ensures forall e | (if r == -1 then 0 else r + 1) <= e < n :: !(Named(dir[e]) && Text(dir[e].name) == name)
  {
    if n == 0 then -1
    else if Named(dir[n - 1]) && Text(dir[n - 1].name) == name then n - 1
    else Lookup(dir, name, n - 1)
  }

  /** The first entry from `from` on without a name, or -1. */
  function FirstFree(dir: Directory, from: nat): (r: int)
    requires from <= MAX_FILES
    ensures r == -1 || (from <= r < MAX_FILES && !Named(dir[r]))
    ensures forall e | from <= e < (if r == -1 then MAX_FILES else r) :: Named(dir[e])
    decreases MAX_FILES - from
  {
    if from == MAX_FILES then -1 else if !Named(dir[from]) then from else FirstFree(dir, from + 1)
  }

  /** `findDirectory`: a free entry for a new name, or the entry of an existing one. */
  function FindDirectory(newEntry: bool, dir: Directory, name: seq<byte>): (r: int)
    ensures r == -1 || 0 <= r < MAX_FILES
  {
    if !newEntry then Lookup(dir, name, MAX_FILES)
    else if Lookup(dir, name, MAX_FILES) != -1 then -1
    else FirstFree(dir, 0)
  }

  /** `findFD`: the first unused descriptor from `from` on, or -1. */
  function FindFD(fds: FdTable, from: nat): (r: int)
    requires from <= MAX_FDS
    ensures r == -1 || (from <= r < MAX_FDS && !fds[r].isUsed)
    ensures forall f | from <= f < (if r == -1 then MAX_FDS else r) :: fds[f].isUsed
    decreases MAX_FDS - from
  {
    if from == MAX_FDS then -1 else if !fds[from].isUsed then from else FindFD(fds, from + 1)
  }

  /** A descriptor is open on inode `i`. */
  predicate OpenOn(fds: FdTable, i: nat) {
    exists f | 0 <= f < MAX_FDS :: fds[f].isUsed && fds[f].inodeNum == i
  }

  // ---------------------------------------------------------------- the disk

  /** `block_read` and `block_write` of block `b` succeed. */
  predicate Reaches(d: Disk, b: nat) {
    d.active && b < DISK_BLOCKS
  }

  function Put(d: Disk, b: nat, data: Block): Disk
    requires Reaches(d, b)
  {
    d.(blocks := d.blocks[b := data])
  }

  function ZeroBlocks(): Blocks {
    seq(DISK_BLOCKS, _ => Zeros(BLOCK_SIZE))
  }

  // ---------------------------------------------------------------- make, mount, unmount

  function Cleared(sb: SuperBlock): Meta {
    Meta(sb, seq(BITMAP_WORDS, _ => 0), seq(MAX_FILES, _ => NO_INODE), seq(MAX_FILES, _ => NO_ENTRY))
  }

  function Fresh(): Meta {
    var m := Cleared(SuperBlock(SB_SIZE, INODES_AT, DIRECTORY_AT));
    m.(bitmap := SetBit(m.bitmap, 0, true))
  }

  function NoDescriptors(): FdTable {
    seq(MAX_FDS, _ => NO_DESCRIPTOR)
  }

  /** `make_fs`; `rest` is what the unused end of its buffer holds. A disk that is already open
      is blanked and then cannot be opened. */
  function DoMake(s: Fs, rest: seq<byte>): (Fs, Reply)
    requires |rest| == BLOCK_SIZE - META_SIZE
  {
    if s.disk.active then (s.(meta := Fresh(), disk := Disk(true, ZeroBlocks())), Reply(-1, []))
    else (s.(meta := Fresh(), disk := Disk(false, ZeroBlocks()[0 := Encode(Fresh(), rest)])), Reply(0, []))
  }

  /** `mount_fs` */
  function DoMount(s: Fs): (Fs, Reply) {
    if s.disk.active then (s.(meta := Cleared(s.meta.sb)), Reply(-1, []))
    else (s.(meta := Decode(s.disk.blocks[0]), ready := true, disk := s.disk.(active := true)), Reply(0, []))
  }

  /** `umount_fs` */
  function DoUnmount(s: Fs, rest: seq<byte>): (Fs, Reply)
    requires |rest| == BLOCK_SIZE - META_SIZE
  {
    if !s.ready || !s.disk.active then (s, Reply(-1, []))
    else (Fs(Cleared(s.meta.sb), NoDescriptors(), false, Disk(false, s.disk.blocks[0 := Encode(s.meta, rest)])),
        Reply(0, []))
  }

  // ---------------------------------------------------------------- files

  /** The two blocks `fs_create` marks before anything else. */
  function IndexFor(s: Fs): (b: nat)
    requires TwoClear(s.meta.bitmap)
    ensures b < DISK_BLOCKS
  {
    TwoFound(s.meta.bitmap);
    FirstClear(s.meta.bitmap, 0)
  }

  function DataFor(s: Fs): (b: nat)
    requires TwoClear(s.meta.bitmap)
    ensures b < DISK_BLOCKS
  {
    TwoFound(s.meta.bitmap);
    FirstClear(SetBit(s.meta.bitmap, IndexFor(s), true), 0)
  }

  function Claimed(s: Fs): Fs
    requires TwoClear(s.meta.bitmap)
  {
    s.(meta := s.meta.(bitmap := SetBit(SetBit(s.meta.bitmap, IndexFor(s), true), DataFor(s), true)))
  }

  /** A new inode and a new entry that names it. */
  function Enter(s: Fs, i: nat, e: nat, index: u16, name: seq<byte>): Fs
    requires i < MAX_FILES && e < MAX_FILES && |name| < NAME_SIZE
  {
    var entry := DirEntry(true, i, Copied(s.meta.directory[e].name, name));
    s.(meta := s.meta.(inodes := s.meta.inodes[i := Inode(true, index, 0)], directory := s.meta.directory[e := entry]))
  }

  /** `fs_create`. The two blocks stay marked when the call fails. */
  function DoCreate(s: Fs, name: seq<byte>, rest: seq<byte>): (Fs, Reply)
    requires TwoClear(s.meta.bitmap) && |name| != NAME_SIZE && |rest| == BLOCK_SIZE - 512
  {
    var i, e := FindInode(s.meta.inodes, 0), FindDirectory(true, s.meta.directory, name);
    var s1 := Claimed(s);
    if !s.ready || |name| > NAME_SIZE || i == -1 || e == -1 then (s1, Reply(-1, []))
    else
      var s2 := Enter(s1, i, e, IndexFor(s), name);
      if !Reaches(s2.disk, IndexFor(s)) then (s2, Reply(-1, []))
      else (s2.(disk := Put(s2.disk, IndexFor(s), IndexBlock(DataFor(s), rest))), Reply(0, []))
  }

  /** `fs_open` */
  function DoOpen(s: Fs, name: seq<byte>): (Fs, Reply) {
    var e, f := FindDirectory(false, s.meta.directory, name), FindFD(s.fds, 0);
    if !s.ready || e == -1 || f == -1 then (s, Reply(-1, []))
    else (s.(fds := s.fds[f := Descriptor(true, s.meta.directory[e].inodeNum, 0)]), Reply(f, []))
  }

  /** `fs_close` */
  function DoClose(s: Fs, fd: nat): (Fs, Reply)
    requires fd < MAX_FDS
  {
    if !s.fds[fd].isUsed then (s, Reply(-1, []))
    else (s.(fds := s.fds[fd := NO_DESCRIPTOR]), Reply(0, []))
  }

  /** Blanks block `b` and clears its bit. */
  function Release(s: Fs, b: nat): Fs
    requires Reaches(s.disk, b)
  {
    s.(disk := Put(s.disk, b, Zeros(BLOCK_SIZE)), meta := s.meta.(bitmap := SetBit(s.meta.bitmap, b, false)))
  }

  /** The loop of `fs_delete` over the entries of an index block, up to the first zero. */
  function ReleaseListed(s: Fs, index: Block, e: nat): (r: (Fs, bool))
    requires e <= 256
    ensures r.0.disk.active == s.disk.active && r.0.fds == s.fds && r.0.ready == s.ready
    ensures r.0.meta.inodes == s.meta.inodes && r.0.meta.directory == s.meta.directory && r.0.meta.sb == s.meta.sb
    decreases 256 - e
  {
    if e == 256 || BlockEntry(index, e) == 0 then (s, true)
    else if !Reaches(s.disk, BlockEntry(index, e)) then (s, false)
    else ReleaseListed(Release(s, BlockEntry(index, e)), index, e + 1)
  }

  /** `fs_delete` */
  function DoDelete(s: Fs, name: seq<byte>): (Fs, Reply)
    requires Linked(s)
  {
    var e := FindDirectory(false, s.meta.directory, name);
    if !s.ready || e == -1 then (s, Reply(-1, []))
    else
      var i := s.meta.directory[e].inodeNum;
      var idx := s.meta.inodes[i].singleIndirectBlock;
      if OpenOn(s.fds, i) || !Reaches(s.disk, idx) then (s, Reply(-1, []))
      else
        var (s1, ok) := ReleaseListed(s, s.disk.blocks[idx], 0);
        if !ok then (s1, Reply(-1, []))
        else
          var s2 := Release(s1, idx);
          (s2.(meta := s2.meta.(inodes := s2.meta.inodes[i := NO_INODE],
              directory := s2.meta.directory[e := NO_ENTRY])),
           Reply(0, []))
  }

  // ---------------------------------------------------------------- reading and writing

  /** The block an offset falls in, as the index block of the descriptor's file gives it. */
  function BlockFor(s: Fs, fd: nat): nat
    requires Linked(s) && fd < MAX_FDS && s.fds[fd].offset / BLOCK_SIZE < 256
    requires s.meta.inodes[s.fds[fd].inodeNum].singleIndirectBlock < DISK_BLOCKS
  {
    BlockEntry(s.disk.blocks[s.meta.inodes[s.fds[fd].inodeNum].singleIndirectBlock], s.fds[fd].offset / BLOCK_SIZE)
  }

  /** `fs_read` gets as far as copying. */
  predicate Copies(s: Fs, fd: nat)
    requires Linked(s) && fd < MAX_FDS
  {
    var inode := s.meta.inodes[s.fds[fd].inodeNum];
    && s.ready && s.fds[fd].isUsed && s.fds[fd].offset < inode.fileSize && Reaches(s.disk, inode.singleIndirectBlock)
    && BlockFor(s, fd) != 0 && Reaches(s.disk, BlockFor(s, fd))
  }

  /** `fs_read` */
  function DoRead(s: Fs, fd: nat, n: nat): (Fs, Reply)
    requires Linked(s) && fd < MAX_FDS && (Copies(s, fd) ==> s.fds[fd].offset % BLOCK_SIZE + n <= BLOCK_SIZE)
  {
    if !s.ready || !s.fds[fd].isUsed then (s, Reply(-1, []))
    else
      var i, offset := s.fds[fd].inodeNum, s.fds[fd].offset;
      if offset >= s.meta.inodes[i].fileSize then (s, Reply(0, []))
      else if !Reaches(s.disk, s.meta.inodes[i].singleIndirectBlock) then (s, Reply(-1, []))
      else
        var b := BlockFor(s, fd);
        if b == 0 then (s, Reply(0, []))
        else if !Reaches(s.disk, b) then (s, Reply(-1, []))
        else
          var at := offset % BLOCK_SIZE;
          (s.(fds := s.fds[fd := s.fds[fd].(offset := offset + n)]), Reply(n, s.disk.blocks[b][at..at + n]))
  }

  /** The access stays inside one block, and the index block lists it. */
  predicate Fits(s: Fs, fd: nat, n: nat)
    requires fd < MAX_FDS
  {
    s.fds[fd].offset / BLOCK_SIZE < 128 && s.fds[fd].offset % BLOCK_SIZE + n <= BLOCK_SIZE
  }

  /** `fs_write`. Every write adds to the size, and an offset past the first block writes into
      whatever block a zero entry names. */
  function DoWrite(s: Fs, fd: nat, buf: seq<byte>): (Fs, Reply)
    requires Linked(s) && fd < MAX_FDS
    requires s.ready && s.fds[fd].isUsed ==> Fits(s, fd, |buf|)
  {
    if !s.ready || !s.fds[fd].isUsed then (s, Reply(-1, []))
    else
      var i, offset := s.fds[fd].inodeNum, s.fds[fd].offset;
      if !Reaches(s.disk, s.meta.inodes[i].singleIndirectBlock) then (s, Reply(-1, []))
      else
        var b := BlockFor(s, fd);
        if !Reaches(s.disk, b) then (s, Reply(-1, []))
        else
          var inode := s.meta.inodes[i];
          (s.(disk := Put(s.disk, b, Splice(s.disk.blocks[b], offset % BLOCK_SIZE, buf)),
              fds := s.fds[fd := s.fds[fd].(offset := offset + |buf|)],
              meta := s.meta.(inodes := s.meta.inodes[i := inode.(fileSize := (inode.fileSize + |buf|) % 0x1_0000)])),
           Reply(|buf|, []))
  }

  /** `fs_lseek` */
  function DoSeek(s: Fs, fd: nat, offset: int): (Fs, Reply)
    requires Linked(s) && fd < MAX_FDS
  {
    if !s.ready || !s.fds[fd].isUsed || offset < 0 ||
        offset > s.meta.inodes[s.fds[fd].inodeNum].fileSize then (s, Reply(-1, []))
    else (s.(fds := s.fds[fd := s.fds[fd].(offset := offset)]), Reply(0, []))
  }

  /** `fs_get_filesize` */
  function DoSize(s: Fs, fd: nat): (Fs, Reply)
    requires Linked(s) && fd < MAX_FDS
  {
    if !s.fds[fd].isUsed then (s, Reply(-1, [])) else (s, Reply(s.meta.inodes[s.fds[fd].inodeNum].fileSize, []))
  }
}

/** fs.c and disk.c as they run: global arrays searched and updated in place, and blocks
    overwritten on a disk. Every call does to the state what its function in FsModel says. */
module FileSystems {
  import opened Common
  import opened FsCodec
  import opened FsBitmap
  import M = FsModel

  /** disk.c: whole blocks, read and written only while the disk is open. */
  class DiskDevice {
    var active: bool
    const blocks: array<Block>

    ghost predicate Valid()
      reads this
    {
      blocks.Length == DISK_BLOCKS
    }

    ghost function State(): M.Disk
      reads this, blocks
      requires Valid()
    {
      M.Disk(active, blocks[..])
    }

    constructor ()
      ensures Valid() && fresh(blocks) && !active
    {
      active := false;
      blocks := new Block[DISK_BLOCKS](_ => Zeros(BLOCK_SIZE));
    }

    /** `make_disk`: writes a zero block for every block. */
    method MakeDisk()
      requires Valid()
      modifies blocks
      ensures State() == M.Disk(active, M.ZeroBlocks())
    {
      var cnt := 0;
      while cnt < DISK_BLOCKS
        invariant cnt <= DISK_BLOCKS
        invariant forall b | 0 <= b < cnt :: blocks[b] == Zeros(BLOCK_SIZE)
      {
        blocks[cnt] := Zeros(BLOCK_SIZE);
        cnt := cnt + 1;
      }
      assert blocks[..] == M.ZeroBlocks();
    }

    /** `open_disk` */
    method OpenDisk() returns (r: int)
      requires Valid()
      modifies this
      ensures Valid() && active && r == if old(active) then -1 else 0
    {
      if active {
        return -1;
      }
      active := true;
      return 0;
    }

    /** `close_disk` */
    method CloseDisk() returns (r: int)
      requires Valid()
      modifies this
      ensures Valid() && !active && r == if old(active) then 0 else -1
    {
      if !active {
        return -1;
      }
      active := false;
      return 0;
    }

    /** `block_write` */
    method BlockWrite(block: nat, buf: Block) returns (r: int)
      requires Valid()
      modifies blocks
      ensures r == if M.Reaches(old(State()), block) then 0 else -1
      ensures State() == if r == 0 then M.Put(old(State()), block, buf) else old(State())
    {
      if !active {
        return -1;
      }
      if block >= DISK_BLOCKS {
        return -1;
      }
      blocks[block] := buf;
      return 0;
    }

    /** `block_read` */
    method BlockRead(block: nat) returns (r: int, buf: Block)
      requires Valid()
      ensures r == if M.Reaches(State(), block) then 0 else -1
      ensures r == 0 ==> buf == State().blocks[block]
    {
      buf := Zeros(BLOCK_SIZE);
      if !active {
        return -1, buf;
      }
      if block >= DISK_BLOCKS {
        return -1, buf;
      }
      return 0, blocks[block];
    }
  }

  class FileSystem {
    var sb: SuperBlock
    const inodes: array<Inode>
    const directory: array<DirEntry>
    const fds: array<M.Descriptor>
    const usedBlocksBitmap: array<bv32>
    var readyForUse: bool
    const disk: DiskDevice

    ghost predicate Valid()
      reads this, disk
    {
      && inodes.Length == MAX_FILES && directory.Length == MAX_FILES && fds.Length == MAX_FDS
      && usedBlocksBitmap.Length == BITMAP_WORDS && disk.Valid()
    }

    ghost function Meta(): FsCodec.Meta
      reads this, inodes, directory, usedBlocksBitmap, disk
      requires Valid()
    {
      FsCodec.Meta(sb, usedBlocksBitmap[..], inodes[..], directory[..])
    }

    ghost function State(): M.Fs
      reads this, inodes, directory, fds, usedBlocksBitmap, disk, disk.blocks
      requires Valid()
    {
      M.Fs(Meta(), fds[..], readyForUse, disk.State())
    }

    /** The zero-initialised globals over a closed disk. */
    constructor (d: DiskDevice)
      requires d.Valid()
      ensures Valid() && disk == d && fresh(inodes) && fresh(directory) && fresh(fds) && fresh(usedBlocksBitmap)
      ensures State() == M.Fs(M.Cleared(SuperBlock(0, 0, 0)), M.NoDescriptors(), false, d.State())
    {
      sb := SuperBlock(0, 0, 0);
      inodes := new Inode[MAX_FILES](_ => NO_INODE);
      directory := new DirEntry[MAX_FILES](_ => NO_ENTRY);
      fds := new M.Descriptor[MAX_FDS](_ => M.NO_DESCRIPTOR);
      usedBlocksBitmap := new bv32[BITMAP_WORDS](_ => 0);
      readyForUse := false;
      disk := d;
      new;
      assert Meta() == M.Cleared(SuperBlock(0, 0, 0));
      assert fds[..] == M.NoDescriptors();
    }

    // -------------------------------------------------------------- searches

    method FindInode() returns (r: int)
      requires Valid()
      ensures r == M.FindInode(inodes[..], 0)
    {
      var i := 0;
      while i < MAX_FILES
        invariant i <= MAX_FILES && M.FindInode(inodes[..], 0) == M.FindInode(inodes[..], i)
      {
        if !inodes[i].isUsed {
          return i;
        }
        i := i + 1;
      }
      return -1;
    }

    /** One pass: notes the first free entry while looking for the name. */
    method FindDirectory(newEntry: bool, filename: seq<byte>) returns (index: int)
      requires Valid()
      ensures index == M.FindDirectory(newEntry, directory[..], filename)
    {
      index := -1;
      var check := newEntry;
      var i := 0;
      while i < MAX_FILES
        invariant i <= MAX_FILES && (check ==> newEntry)
        invariant newEntry ==> M.Lookup(directory[..], filename, i) == -1
        invariant newEntry && check ==> index == -1 && M.FirstFree(directory[..], 0) == M.FirstFree(directory[..], i)
        invariant newEntry && !check ==> index == M.FirstFree(directory[..], 0)
        invariant !newEntry ==> index == M.Lookup(directory[..], filename, i)
      {
        if check && directory[i].name[0] == 0 {
          index := i;
          check := false;
        }
        if directory[i].name[0] != 0 {
          if filename == M.Text(directory[i].name) {
            if newEntry {
              LookupFound(directory[..], filename, i);
              return -1;
            } else {
              index := i;
            }
          }
        }
        i := i + 1;
      }
    }

    method FindFD() returns (r: int)
      requires Valid()
      ensures r == M.FindFD(fds[..], 0)
    {
      var i := 0;
      while i < MAX_FDS
        invariant i <= MAX_FDS && M.FindFD(fds[..], 0) == M.FindFD(fds[..], i)
      {
        if !fds[i].isUsed {
          return i;
        }
        i := i + 1;
      }
      return -1;
    }

    /** The bit is tested word by word. */
    method FindUsedBlocksBit() returns (r: int)
      requires Valid()
      ensures r == FirstClear(usedBlocksBitmap[..], 0)
    {
      hide Mask, Has;
      var i := 0;
      while i < DISK_BLOCKS
        invariant i <= DISK_BLOCKS && FirstClear(usedBlocksBitmap[..], 0) == FirstClear(usedBlocksBitmap[..], i)
      {
        var index, bit := i / 32, i % 32;
        var taken := Has(usedBlocksBitmap[index], Mask(bit));
        if !taken {
          return i;
        }
        i := i + 1;
      }
      return -1;
    }

    method WriteUsedBlocksBit(position: nat, clearSet: bool)
      requires Valid() && position < DISK_BLOCKS
      modifies usedBlocksBitmap
      ensures usedBlocksBitmap[..] == SetBit(old(usedBlocksBitmap[..]), position, clearSet)
    {
      hide Mask, With, Without;
      var index, flag := position / 32, Mask(position % 32);
      if clearSet {
        usedBlocksBitmap[index] := With(usedBlocksBitmap[index], flag);
      } else {
        usedBlocksBitmap[index] := Without(usedBlocksBitmap[index], flag);
      }
    }

    // -------------------------------------------------------------- make, mount, unmount

    /** The memsets of the three metadata arrays. */
    method ClearArrays()
      requires Valid()
      modifies inodes, directory, usedBlocksBitmap
      ensures Meta() == M.Cleared(sb)
    {
      forall i | 0 <= i < MAX_FILES {
        inodes[i] := NO_INODE;
      }
      forall i | 0 <= i < MAX_FILES {
        directory[i] := NO_ENTRY;
      }
      forall i | 0 <= i < BITMAP_WORDS {
        usedBlocksBitmap[i] := 0;
      }
      assert Meta() == M.Cleared(sb);
    }

    /** `make_fs` */
    method MakeFs(rest: seq<byte>) returns (r: int)
      requires Valid() && |rest| == BLOCK_SIZE - META_SIZE
      modifies this, inodes, directory, usedBlocksBitmap, disk, disk.blocks
      ensures Valid() && (State(), M.Reply(r, [])) == M.DoMake(old(State()), rest)
    {
      hide SetBit, Encode;
      sb := SuperBlock(SB_SIZE, INODES_AT, DIRECTORY_AT);
      ClearArrays();
      WriteUsedBlocksBit(0, true);
      assert Meta() == M.Fresh();
      var writeBuf := Encode(FsCodec.Meta(sb, usedBlocksBitmap[..], inodes[..], directory[..]), rest);
      disk.MakeDisk();
      var started := disk.OpenDisk();
      if started == -1 {
        return -1;
      }
      var written := disk.BlockWrite(0, writeBuf);
      var closed := disk.CloseDisk();
      return 0;
    }

    /** `mount_fs` */
    method MountFs() returns (r: int)
      requires Valid()
      modifies this, inodes, directory, usedBlocksBitmap, disk
      ensures Valid() && (State(), M.Reply(r, [])) == M.DoMount(old(State()))
    {
      hide Decode;
      ClearArrays();
      var started := disk.OpenDisk();
      if started == -1 {
        return -1;
      }
      var _, readBuf := disk.BlockRead(0);
      LoadArrays(Decode(readBuf));
      readyForUse := true;
      return 0;
    }

    /** The memcpys out of block 0. */
    method LoadArrays(meta: FsCodec.Meta)
      requires Valid()
      modifies this`sb, inodes, directory, usedBlocksBitmap
      ensures Valid() && Meta() == meta
    {
      sb := meta.sb;
      forall i | 0 <= i < BITMAP_WORDS {
        usedBlocksBitmap[i] := meta.bitmap[i];
      }
      forall i | 0 <= i < MAX_FILES {
        inodes[i] := meta.inodes[i];
      }
      forall i | 0 <= i < MAX_FILES {
        directory[i] := meta.directory[i];
      }
      assert usedBlocksBitmap[..] == meta.bitmap && inodes[..] == meta.inodes && directory[..] == meta.directory;
    }

    /** `umount_fs` */
    method UmountFs(rest: seq<byte>) returns (r: int)
      requires Valid() && |rest| == BLOCK_SIZE - META_SIZE
      modifies this, inodes, directory, fds, usedBlocksBitmap, disk, disk.blocks
      ensures Valid() && (State(), M.Reply(r, [])) == M.DoUnmount(old(State()), rest)
    {
      hide Encode;
      if !readyForUse {
        return -1;
      }
      var writeBuf := Encode(FsCodec.Meta(sb, usedBlocksBitmap[..], inodes[..], directory[..]), rest);
      var written := disk.BlockWrite(0, writeBuf);
      if written == -1 {
        return -1;
      }
      var closed := disk.CloseDisk();
      ClearArrays();
      forall i | 0 <= i < MAX_FDS {
        fds[i] := M.NO_DESCRIPTOR;
      }
      assert fds[..] == M.NoDescriptors();
      readyForUse := false;
      return 0;
    }

    // -------------------------------------------------------------- files

    /** `fs_create` */
    method FsCreate(name: seq<byte>, rest: seq<byte>) returns (r: int)
      requires Valid() && TwoClear(usedBlocksBitmap[..]) && |name| != NAME_SIZE && |rest| == BLOCK_SIZE - 512
      modifies inodes, directory, usedBlocksBitmap, disk.blocks
      ensures (State(), M.Reply(r, [])) == M.DoCreate(old(State()), name, rest)
    {
      hide SetBit, Bit, IndexBlock, M.Copied;
      var inodeIndex := FindInode();
      var dirIndex := FindDirectory(true, name);
      TwoFound(usedBlocksBitmap[..]);
      var inodeBlocksArrayLoc := FindUsedBlocksBit();
      WriteUsedBlocksBit(inodeBlocksArrayLoc, true);
      var blockNum := FindUsedBlocksBit();
      WriteUsedBlocksBit(blockNum, true);
      assert State() == M.Claimed(old(State()));
      if !readyForUse {
        return -1;
      }
      if |name| > NAME_SIZE {
        return -1;
      }
      if inodeIndex == -1 || dirIndex == -1 {
        return -1;
      }
      inodes[inodeIndex] := Inode(true, inodeBlocksArrayLoc, 0);
      directory[dirIndex] := DirEntry(true, inodeIndex, M.Copied(directory[dirIndex].name, name));
      r := disk.BlockWrite(inodeBlocksArrayLoc, IndexBlock(blockNum, rest));
    }

    /** `fs_open` */
    method FsOpen(name: seq<byte>) returns (r: int)
      requires Valid()
      modifies fds
      ensures (State(), M.Reply(r, [])) == M.DoOpen(old(State()), name)
    {
      var dirIndex := FindDirectory(false, name);
      var fdIndex := FindFD();
      if !readyForUse {
        return -1;
      }
      if dirIndex == -1 || fdIndex == -1 {
        return -1;
      }
      fds[fdIndex] := M.Descriptor(true, directory[dirIndex].inodeNum, 0);
      return fdIndex;
    }

    /** `fs_close` */
    method FsClose(fildes: nat) returns (r: int)
      requires Valid() && fildes < MAX_FDS
      modifies fds
      ensures (State(), M.Reply(r, [])) == M.DoClose(old(State()), fildes)
    {
      if !fds[fildes].isUsed {
        return -1;
      }
      fds[fildes] := M.NO_DESCRIPTOR;
      return 0;
    }

    /** The loop of `fs_delete` that refuses a file in use. */
    method InUse(inodeIndex: nat) returns (open: bool)
      requires Valid()
      ensures open == M.OpenOn(fds[..], inodeIndex)
    {
      var i := 0;
      while i < MAX_FDS
        invariant i <= MAX_FDS && forall f | 0 <= f < i :: !(fds[f].isUsed && fds[f].inodeNum == inodeIndex)
      {
        if fds[i].inodeNum == inodeIndex && fds[i].isUsed {
          return true;
        }
        i := i + 1;
      }
      return false;
    }

    /** The loop of `fs_delete` that blanks and unmarks the listed blocks, up to the first zero. */
    method ReleaseListed(inodeBlocksArray: Block) returns (ok: bool)
      requires Valid()
      modifies usedBlocksBitmap, disk.blocks
      ensures (State(), ok) == M.ReleaseListed(old(State()), inodeBlocksArray, 0)
    {
      hide BlockEntry, SetBit;
      var i := 0;
      while i < 256
        invariant i <= 256
        invariant M.ReleaseListed(State(), inodeBlocksArray, i) == M.ReleaseListed(old(State()), inodeBlocksArray, 0)
      {
        var currentBlockNum := BlockEntry(inodeBlocksArray, i);
        if currentBlockNum == 0 {
          return true;
        }
        var written := disk.BlockWrite(currentBlockNum, Zeros(BLOCK_SIZE));
        if written == -1 {
          return false;
        }
        WriteUsedBlocksBit(currentBlockNum, false);
        i := i + 1;
      }
      return true;
    }

    /** `fs_delete` */
    method FsDelete(name: seq<byte>) returns (r: int)
      requires Valid() && M.Linked(State())
      modifies inodes, directory, usedBlocksBitmap, disk.blocks
      ensures (State(), M.Reply(r, [])) == M.DoDelete(old(State()), name)
    {
      hide BlockEntry, SetBit, M.ReleaseListed, M.OpenOn;
      var dirIndex := FindDirectory(false, name);
      if !readyForUse {
        return -1;
      }
      if dirIndex == -1 {
        return -1;
      }
      var inodeIndex := directory[dirIndex].inodeNum;
      var open := InUse(inodeIndex);
      if open {
        return -1;
      }
      var blocksLoc := inodes[inodeIndex].singleIndirectBlock;
      var read, inodeBlocksArray := disk.BlockRead(blocksLoc);
      if read == -1 {
        return -1;
      }
      var ok := ReleaseListed(inodeBlocksArray);
      if !ok {
        return -1;
      }
      var written := disk.BlockWrite(blocksLoc, Zeros(BLOCK_SIZE));
      WriteUsedBlocksBit(blocksLoc, false);
      inodes[inodeIndex] := NO_INODE;
      directory[dirIndex] := NO_ENTRY;
      return 0;
    }

    // -------------------------------------------------------------- reading and writing

    /** `fs_read` */
    method FsRead(fildes: nat, nbyte: nat) returns (r: int, buf: seq<byte>)
      requires Valid() && M.Linked(State()) && fildes < MAX_FDS
      requires M.Copies(State(), fildes) ==> fds[fildes].offset % BLOCK_SIZE + nbyte <= BLOCK_SIZE
      modifies fds
      ensures (State(), M.Reply(r, buf)) == M.DoRead(old(State()), fildes, nbyte)
    {
      hide BlockEntry;
      if !readyForUse {
        return -1, [];
      }
      if !fds[fildes].isUsed {
        return -1, [];
      }
      var inodeIndex, blockIndex := fds[fildes].inodeNum, fds[fildes].offset / BLOCK_SIZE;
      var remOffset := fds[fildes].offset - blockIndex * BLOCK_SIZE;
      if fds[fildes].offset >= inodes[inodeIndex].fileSize {
        return 0, [];
      }
      var read, arrayRead := disk.BlockRead(inodes[inodeIndex].singleIndirectBlock);
      if read == -1 {
        return -1, [];
      }
      var block := BlockEntry(arrayRead, blockIndex);
      if block == 0 {
        return 0, [];
      }
      var readBlock, readFromBlock := disk.BlockRead(block);
      if readBlock == -1 {
        return -1, [];
      }
      buf := readFromBlock[remOffset..remOffset + nbyte];
      fds[fildes] := fds[fildes].(offset := fds[fildes].offset + nbyte);
      return nbyte, buf;
    }

    /** `fs_write` */
    method FsWrite(fildes: nat, buf: seq<byte>) returns (r: int)
      requires Valid() && M.Linked(State()) && fildes < MAX_FDS
      requires readyForUse && fds[fildes].isUsed ==> M.Fits(State(), fildes, |buf|)
      modifies fds, inodes, disk.blocks
      ensures (State(), M.Reply(r, [])) == M.DoWrite(old(State()), fildes, buf)
    {
      hide BlockEntry, Splice;
      if !readyForUse {
        return -1;
      }
      if !fds[fildes].isUsed {
        return -1;
      }
      var inodeIndex, blockIndex := fds[fildes].inodeNum, fds[fildes].offset / BLOCK_SIZE;
      var remOffset := fds[fildes].offset - blockIndex * BLOCK_SIZE;
      var read, arrayRead := disk.BlockRead(inodes[inodeIndex].singleIndirectBlock);
      if read == -1 {
        return -1;
      }
      var block := BlockEntry(arrayRead, blockIndex);
      var readBlock, writeToBlock := disk.BlockRead(block);
      if readBlock == -1 {
        return -1;
      }
      writeToBlock := Splice(writeToBlock, remOffset, buf);
      var written := disk.BlockWrite(block, writeToBlock);
      fds[fildes] := fds[fildes].(offset := fds[fildes].offset + |buf|);
      inodes[inodeIndex] := inodes[inodeIndex].(fileSize := (inodes[inodeIndex].fileSize + |buf|) % 0x1_0000);
      return |buf|;
    }

    /** `fs_lseek` */
    method FsLseek(fildes: nat, offset: int) returns (r: int)
      requires Valid() && M.Linked(State()) && fildes < MAX_FDS
      modifies fds
      ensures (State(), M.Reply(r, [])) == M.DoSeek(old(State()), fildes, offset)
    {
      if !readyForUse {
        return -1;
      }
      if !fds[fildes].isUsed {
        return -1;
      }
      var inodeIndex := fds[fildes].inodeNum;
      if offset < 0 {
        return -1;
      }
      if offset > inodes[inodeIndex].fileSize {
        return -1;
      }
      fds[fildes] := fds[fildes].(offset := offset);
      return 0;
    }

    /** `fs_get_filesize` */
    method FsGetFilesize(fildes: nat) returns (r: int)
      requires Valid() && M.Linked(State()) && fildes < MAX_FDS
      ensures (State(), M.Reply(r, [])) == M.DoSize(State(), fildes)
    {
      if !fds[fildes].isUsed {
        return -1;
      }
      return inodes[fds[fildes].inodeNum].fileSize;
    }
  }

  lemma {:induction false} LookupFound(dir: Directory, name: seq<byte>, e: nat)
    requires e < MAX_FILES && M.Named(dir[e]) && M.Text(dir[e].name) == name
    ensures M.Lookup(dir, name, MAX_FILES) != -1
  {}
}

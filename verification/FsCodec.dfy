/** The metadata of fs.c as it lies in memory and in block 0, and the index block of a file. */
module FsCodec {
  import opened Common

  const MAX_FILES: nat := 64
  const MAX_FDS: nat := 32
  const BLOCK_SIZE: nat := 4096
  const DISK_BLOCKS: nat := 8192
  const BITMAP_WORDS: nat := 256
  const NAME_SIZE: nat := 15

  // sizeof of struct super_block, uint32_t, struct inode and struct dir_entry, and where the
  // arrays start in block 0.
  const SB_SIZE: nat := 6
  const WORD_SIZE: nat := 4
  const INODE_SIZE: nat := 6
  const ENTRY_SIZE: nat := 20
  const INODES_AT: nat := SB_SIZE + WORD_SIZE * BITMAP_WORDS
  const DIRECTORY_AT: nat := INODES_AT + INODE_SIZE * MAX_FILES
  const META_SIZE: nat := DIRECTORY_AT + ENTRY_SIZE * MAX_FILES

  type u16 = x: nat | x < 0x1_0000

  datatype SuperBlock = SuperBlock(used_block_bitmap_offset: u16, inode_metadata_offset: u16, directory_offset: u16)

  datatype Inode = Inode(isUsed: bool, singleIndirectBlock: u16, fileSize: u16)

  type Name = n: seq<byte> | |n| == NAME_SIZE witness Zeros(NAME_SIZE)

  datatype DirEntry = DirEntry(isUsed: bool, inodeNum: u16, name: Name)

  const NO_INODE: Inode := Inode(false, 0, 0)

  const NO_ENTRY: DirEntry := DirEntry(false, 0, Zeros(NAME_SIZE))

  type Bitmap = s: seq<bv32> | |s| == BITMAP_WORDS witness seq(BITMAP_WORDS, _ => 0)

  type InodeTable = s: seq<Inode> | |s| == MAX_FILES witness seq(MAX_FILES, _ => NO_INODE)

  type Directory = s: seq<DirEntry> | |s| == MAX_FILES witness seq(MAX_FILES, _ => NO_ENTRY)

  type Block = s: seq<byte> | |s| == BLOCK_SIZE witness Zeros(BLOCK_SIZE)

  datatype Meta = Meta(sb: SuperBlock, bitmap: Bitmap, inodes: InodeTable, directory: Directory)

  // ---------------------------------------------------------------- little-endian fields

  function Low(x: u16): byte { (x % 256) as byte }

  function High(x: u16): byte { (x / 256) as byte }

  function U16(lo: byte, hi: byte): u16 { lo as int + 256 * hi as int }

  function Flag(b: bool): byte { if b then 1 else 0 }

  function U32(b0: byte, b1: byte, b2: byte, b3: byte): (n: nat)
    ensures n < 0x1_0000_0000
  {
    b0 as int + 256 * b1 as int + 65536 * b2 as int + 16777216 * b3 as int
  }

  function Exp2(k: nat): nat {
    if k == 0 then 1 else 2 * Exp2(k - 1)
  }

  function LowBit(w: bv32): (b: nat)
    ensures b < 2
  {
    if w & 1 != 0 then 1 else 0
  }

  function Half(w: bv32): bv32 { w >> 1 }

  function Double(w: bv32): bv32 { w << 1 }

  /** The lowest `k` bits of a word as a number. */
  function LowBits(w: bv32, k: nat): (n: nat)
    ensures n < Exp2(k)
  {
    if k == 0 then 0 else 2 * LowBits(Half(w), k - 1) + LowBit(w)
  }

  function OneBit(b: nat): bv32 {
    if b == 1 then 1 else 0
  }

  /** The bits of a number as a word. */
  function Bits(n: nat): bv32 {
    if n == 0 then 0 else Double(Bits(n / 2)) | OneBit(n % 2)
  }

  function Ones(k: nat): bv32 {
    if k == 0 then 0 else Double(Ones(k - 1)) | 1
  }

  /** Byte `c` of a 32-bit word. */
  function WordByte(w: bv32, c: nat): byte
    requires c < WORD_SIZE
  {
    var v := match c case 0 => w case 1 => w >> 8 case 2 => w >> 16 case _ => w >> 24;
    assert Exp2(8) == 256;
    LowBits(v, 8) as byte
  }

  /** The word four bytes make up. */
  function Word(b0: byte, b1: byte, b2: byte, b3: byte): bv32 {
    Bits(b0 as nat) | (Bits(b1 as nat) << 8) | (Bits(b2 as nat) << 16) | (Bits(b3 as nat) << 24)
  }

  lemma LowIs(w: bv32)
    ensures OneBit(LowBit(w)) == w & 1
  {}

  lemma ShiftBack(w: bv32)
    ensures Double(Half(w)) == w & 0xFFFF_FFFE
  {}

  lemma ShiftBoth(a: bv32, b: bv32)
    ensures Double(a & b) == Double(a) & Double(b)
  {}

  lemma Rejoin(w: bv32, p: bv32)
    ensures ((w & 0xFFFF_FFFE) & p) | (w & 1) == w & (p | 1)
  {}

  lemma ShiftedIn(w: bv32, ones: bv32)
    ensures Double(Half(w) & ones) | OneBit(LowBit(w)) == w & (Double(ones) | 1)
  {
    hide OneBit, LowBit, Double, Half;
    LowIs(w);
    ShiftBack(w);
    ShiftBoth(Half(w), ones);
    Rejoin(w, Double(ones));
  }

  lemma NoBits(w: bv32)
    ensures Bits(LowBits(w, 0)) == w & Ones(0)
  {}

  lemma ZeroStep()
    ensures Bits(0) == Double(Bits(0)) | OneBit(0)
  {}

  lemma BitsStep(y: nat, b: nat)
    requires b < 2
    ensures Bits(2 * y + b) == Double(Bits(y)) | OneBit(b)
  {
    hide Double, OneBit;
    if y == 0 && b == 0 {
      ZeroStep();
    } else {
      assert (2 * y + b) / 2 == y && (2 * y + b) % 2 == b;
    }
  }

  lemma OnesStep(k: nat)
    requires k > 0
    ensures Ones(k) == Double(Ones(k - 1)) | 1
  {
    hide Double;
  }

  lemma LowBitsStep(w: bv32, k: nat)
    requires k > 0
    ensures LowBits(w, k) == 2 * LowBits(Half(w), k - 1) + LowBit(w)
  {
    hide Half, LowBit;
  }

  lemma {:induction false} BitsOfLow(w: bv32, k: nat)
    ensures Bits(LowBits(w, k)) == w & Ones(k)
    decreases k
  {
    hide Bits, OneBit, LowBit, LowBits, Ones, Double, Half;
    if k == 0 {
      NoBits(w);
    } else {
      BitsOfLow(Half(w), k - 1);
      BitsStep(LowBits(Half(w), k - 1), LowBit(w));
      ShiftedIn(w, Ones(k - 1));
      OnesStep(k);
      LowBitsStep(w, k);
    }
  }

  lemma FourBytes(w: bv32)
    ensures (w & 0xFF) | (((w >> 8) & 0xFF) << 8) | (((w >> 16) & 0xFF) << 16) | (((w >> 24) & 0xFF) << 24) == w
  {}

  lemma WordRoundTrip(w: bv32)
    ensures Word(WordByte(w, 0), WordByte(w, 1), WordByte(w, 2), WordByte(w, 3)) == w
  {
    hide Bits, LowBits;
    assert Ones(8) == 0xFF;
    BitsOfLow(w, 8);
    BitsOfLow(w >> 8, 8);
    BitsOfLow(w >> 16, 8);
    BitsOfLow(w >> 24, 8);
    FourBytes(w);
  }

  // ---------------------------------------------------------------- arrays as bytes

  function SbBytes(sb: SuperBlock): (s: seq<byte>)
    ensures |s| == SB_SIZE
  {
    [Low(sb.used_block_bitmap_offset), High(sb.used_block_bitmap_offset),
     Low(sb.inode_metadata_offset), High(sb.inode_metadata_offset),
     Low(sb.directory_offset), High(sb.directory_offset)]
  }

  function BitmapBytes(bm: Bitmap): (s: seq<byte>)
    ensures |s| == WORD_SIZE * |bm|
  {
    seq(WORD_SIZE * |bm|, k requires 0 <= k < WORD_SIZE * |bm| => WordByte(bm[k / WORD_SIZE], k % WORD_SIZE))
  }

  /** A bool, a padding byte and two 16-bit fields. */
  function InodeByte(i: Inode, c: nat): byte
    requires c < INODE_SIZE
  {
    match c
    case 0 => Flag(i.isUsed)
    case 1 => 0
    case 2 => Low(i.singleIndirectBlock)
    case 3 => High(i.singleIndirectBlock)
    case 4 => Low(i.fileSize)
    case _ => High(i.fileSize)
  }

  function InodeBytes(inodes: InodeTable): (s: seq<byte>)
    ensures |s| == INODE_SIZE * |inodes|
  {
    seq(INODE_SIZE * |inodes|,
        k requires 0 <= k < INODE_SIZE * |inodes| => InodeByte(inodes[k / INODE_SIZE], k % INODE_SIZE))
  }

  /** A bool, a padding byte, a 16-bit field, fifteen name bytes and a padding byte. */
  function EntryByte(d: DirEntry, c: nat): byte
    requires c < ENTRY_SIZE
  {
    if c == 0 then Flag(d.isUsed)
    else if c == 2 then Low(d.inodeNum)
    else if c == 3 then High(d.inodeNum)
    else if 4 <= c < 4 + NAME_SIZE then d.name[c - 4]
    else 0
  }

  function DirectoryBytes(ds: Directory): (s: seq<byte>)
    ensures |s| == ENTRY_SIZE * |ds|
  {
    seq(ENTRY_SIZE * |ds|, k requires 0 <= k < ENTRY_SIZE * |ds| => EntryByte(ds[k / ENTRY_SIZE], k % ENTRY_SIZE))
  }

  /** Block 0: the four pieces one after the other; the rest of the buffer is whatever it was. */
  function Encode(m: Meta, rest: seq<byte>): (b: Block)
    requires |rest| == BLOCK_SIZE - META_SIZE
  {
    SbBytes(m.sb) + BitmapBytes(m.bitmap) + InodeBytes(m.inodes) + DirectoryBytes(m.directory) + rest
  }

  // ---------------------------------------------------------------- and back

  function SbAt(b: Block): SuperBlock
  {
    SuperBlock(U16(b[0], b[1]), U16(b[2], b[3]), U16(b[4], b[5]))
  }

  function WordAt(b: Block, at: nat): bv32
    requires at + WORD_SIZE <= |b|
  {
    Word(b[at], b[at + 1], b[at + 2], b[at + 3])
  }

  function InodeAt(b: Block, at: nat): Inode
    requires at + INODE_SIZE <= |b|
  {
    Inode(b[at] != 0, U16(b[at + 2], b[at + 3]), U16(b[at + 4], b[at + 5]))
  }

  function EntryAt(b: Block, at: nat): DirEntry
    requires at + ENTRY_SIZE <= |b|
  {
    DirEntry(b[at] != 0, U16(b[at + 2], b[at + 3]), b[at + 4..at + 4 + NAME_SIZE])
  }

  function Decode(b: Block): (m: Meta)
  {
    Meta(SbAt(b),
         seq(BITMAP_WORDS, i requires 0 <= i < BITMAP_WORDS => WordAt(b, SB_SIZE + WORD_SIZE * i)),
         seq(MAX_FILES, i requires 0 <= i < MAX_FILES => InodeAt(b, INODES_AT + INODE_SIZE * i)),
         seq(MAX_FILES, i requires 0 <= i < MAX_FILES => EntryAt(b, DIRECTORY_AT + ENTRY_SIZE * i)))
  }

  lemma Pieces(m: Meta, rest: seq<byte>)
    requires |rest| == BLOCK_SIZE - META_SIZE
    ensures var b := Encode(m, rest);
            b[..SB_SIZE] == SbBytes(m.sb) && b[SB_SIZE..INODES_AT] == BitmapBytes(m.bitmap) &&
            b[INODES_AT..DIRECTORY_AT] == InodeBytes(m.inodes) &&
                b[DIRECTORY_AT..META_SIZE] == DirectoryBytes(m.directory)
  {
    hide SbBytes, BitmapBytes, InodeBytes, DirectoryBytes;
  }

  lemma SbRoundTrip(sb: SuperBlock, b: Block)
    requires b[..SB_SIZE] == SbBytes(sb)
    ensures SbAt(b) == sb
  {
    forall c | 0 <= c < SB_SIZE ensures b[c] == SbBytes(sb)[c] { assert b[c] == b[..SB_SIZE][c]; }
  }

  lemma BitmapRoundTrip(bm: Bitmap, b: Block, i: nat)
    requires b[SB_SIZE..INODES_AT] == BitmapBytes(bm) && i < BITMAP_WORDS
    ensures WordAt(b, SB_SIZE + WORD_SIZE * i) == bm[i]
  {
    hide WordByte, Word;
    forall c: nat | c < WORD_SIZE ensures b[SB_SIZE + WORD_SIZE * i + c] == WordByte(bm[i], c) {
      assert b[SB_SIZE + WORD_SIZE * i + c] == BitmapBytes(bm)[WORD_SIZE * i + c];
    }
    assert b[SB_SIZE + WORD_SIZE * i + 0] == WordByte(bm[i], 0);
    WordRoundTrip(bm[i]);
  }

  lemma InodeByteAt(inodes: InodeTable, b: Block, i: nat, c: nat)
    requires b[INODES_AT..DIRECTORY_AT] == InodeBytes(inodes)
    requires i < MAX_FILES && c < INODE_SIZE
    ensures b[INODES_AT + INODE_SIZE * i + c] == InodeByte(inodes[i], c)
  {
    hide InodeByte;
    assert b[INODES_AT + INODE_SIZE * i + c] == InodeBytes(inodes)[INODE_SIZE * i + c];
  }

  lemma InodeRoundTrip(inodes: InodeTable, b: Block, i: nat)
    requires b[INODES_AT..DIRECTORY_AT] == InodeBytes(inodes) && i < MAX_FILES
    ensures InodeAt(b, INODES_AT + INODE_SIZE * i) == inodes[i]
  {
    hide InodeBytes;
    InodeByteAt(inodes, b, i, 0);
    InodeByteAt(inodes, b, i, 2);
    InodeByteAt(inodes, b, i, 3);
    InodeByteAt(inodes, b, i, 4);
    InodeByteAt(inodes, b, i, 5);
  }

  lemma EntryByteAt(ds: Directory, b: Block, i: nat, c: nat)
    requires b[DIRECTORY_AT..META_SIZE] == DirectoryBytes(ds)
    requires i < MAX_FILES && c < ENTRY_SIZE
    ensures b[DIRECTORY_AT + ENTRY_SIZE * i + c] == EntryByte(ds[i], c)
  {
    hide EntryByte;
    assert b[DIRECTORY_AT + ENTRY_SIZE * i + c] == DirectoryBytes(ds)[ENTRY_SIZE * i + c];
  }

  lemma EntryRoundTrip(ds: Directory, b: Block, i: nat)
    requires b[DIRECTORY_AT..META_SIZE] == DirectoryBytes(ds) && i < MAX_FILES
    ensures EntryAt(b, DIRECTORY_AT + ENTRY_SIZE * i) == ds[i]
  {
    hide DirectoryBytes;
    var at := DIRECTORY_AT + ENTRY_SIZE * i;
    EntryByteAt(ds, b, i, 0);
    EntryByteAt(ds, b, i, 2);
    EntryByteAt(ds, b, i, 3);
    forall c | 0 <= c < NAME_SIZE ensures b[at + 4..at + 4 + NAME_SIZE][c] == ds[i].name[c] {
      EntryByteAt(ds, b, i, 4 + c);
    }
  }

  /** What umount writes, mount reads back: the encoding fits in a block and loses nothing,
      whatever the unused end of the block holds. */
  lemma MetaRoundTrip(m: Meta, rest: seq<byte>)
    requires |rest| == BLOCK_SIZE - META_SIZE
    ensures Decode(Encode(m, rest)) == m
  {
    hide Encode, SbBytes, BitmapBytes, InodeBytes, DirectoryBytes, WordAt, InodeAt, EntryAt, SbAt;
    var b := Encode(m, rest);
    var d := Decode(b);
    Pieces(m, rest);
    forall i | 0 <= i < BITMAP_WORDS ensures d.bitmap[i] == m.bitmap[i] { BitmapRoundTrip(m.bitmap, b, i); }
    forall i | 0 <= i < MAX_FILES ensures d.inodes[i] == m.inodes[i] { InodeRoundTrip(m.inodes, b, i); }
    forall i | 0 <= i < MAX_FILES ensures d.directory[i] == m.directory[i] { EntryRoundTrip(m.directory, b, i); }
    SbRoundTrip(m.sb, b);
  }

  // ---------------------------------------------------------------- index blocks

  /** The block fs_create writes: the data block number as the first of 256 16-bit entries, the
      others zero; the rest of the block is whatever lay behind that array. */
  function IndexBlock(dataBlock: u16, rest: seq<byte>): (b: Block)
    requires |rest| == BLOCK_SIZE - 512
  {
    [Low(dataBlock), High(dataBlock)] + Zeros(510) + rest
  }

  /** Entry `e` as the readers see it: 32 bits wide. */
  function BlockEntry(b: Block, e: nat): nat
    requires e < 256
  {
    U32(b[4 * e], b[4 * e + 1], b[4 * e + 2], b[4 * e + 3])
  }

  /** Written 16 bits wide and read 32 bits wide, the first entry is the data block and the
      next ones are zero. */
  lemma IndexBlockEntries(dataBlock: u16, rest: seq<byte>)
    requires |rest| == BLOCK_SIZE - 512
    ensures BlockEntry(IndexBlock(dataBlock, rest), 0) == dataBlock
    ensures forall e | 1 <= e < 128 :: BlockEntry(IndexBlock(dataBlock, rest), e) == 0
  {}
}

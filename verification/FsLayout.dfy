/** Where everything lies in block 0: the superblock locates the arrays, each field has its bytes,
    and every run keeps it so. */
module FsLayout {
  import opened Common
  import opened FsCodec
  import opened FsBitmap
  import opened FsModel
  import opened FsRuns

  /** The 16-bit number at byte `at`, low byte first. */
  function Number(b: Block, at: nat): nat
    requires at + 1 < 4096
  {
    b[at] as int + 256 * b[at + 1] as int
  }

  // ---------------------------------------------------------------- the superblock locates the arrays

  const SUPERBLOCK := SuperBlock(6, 1030, 1414)

  /** The bytes at the three offsets stored at the start of the block are the bitmap, the inode
      table and the directory. */
  predicate Located(b: Block, m: Meta) {
    var bitmapAt, inodesAt, directoryAt := Number(b, 0), Number(b, 2), Number(b, 4);
    && 6 <= bitmapAt && bitmapAt + 1024 <= inodesAt && inodesAt + 384 <= directoryAt && directoryAt + 1280 <= 4096
    && b[bitmapAt..bitmapAt + 1024] == BitmapBytes(m.bitmap)
    && b[inodesAt..inodesAt + 384] == InodeBytes(m.inodes)
    && b[directoryAt..directoryAt + 1280] == DirectoryBytes(m.directory)
  }

  lemma EncodedIsLocated(m: Meta, rest: seq<byte>)
    requires |rest| == BLOCK_SIZE - META_SIZE && m.sb == SUPERBLOCK
    ensures Located(Encode(m, rest), m)
  {
    hide Encode, BitmapBytes, InodeBytes, DirectoryBytes;
    Pieces(m, rest);
    var b := Encode(m, rest);
    forall c | 0 <= c < SB_SIZE ensures b[c] == SbBytes(m.sb)[c] { assert b[c] == b[..SB_SIZE][c]; }
  }

  /** The superblock in force is the one `make_fs` writes, and on a disk that is not mounted it
      locates the arrays in block 0. */
  predicate Placed(c: Config) {
    Image(c.s).sb == SUPERBLOCK && (!c.s.ready ==> Located(c.s.disk.blocks[0], Image(c.s)))
  }

  lemma MakePlaces(s: Fs, rest: seq<byte>)
    requires |rest| == BLOCK_SIZE - META_SIZE && !s.disk.active
    ensures var (s', r) := DoMake(s, rest);
            && r == Reply(0, []) && !s'.disk.active && Located(s'.disk.blocks[0], Fresh())
            && forall b: nat | 0 < b < DISK_BLOCKS :: s'.disk.blocks[b] == Zeros(BLOCK_SIZE)
    ensures Fresh().sb == SUPERBLOCK
  {
    hide Encode, Located;
    EncodedIsLocated(Fresh(), rest);
  }

  /** `fs_create`, `fs_delete`, `fs_write` and the rest leave the superblock alone, and touch
      neither disk nor mount state unless mounted. */
  predicate Harmless(s: Fs, s': Fs) {
    s'.ready == s.ready && s'.meta.sb == s.meta.sb && (!s.ready ==> s'.disk == s.disk)
  }

  lemma FileCallsHarmless(c: Config, e: Event)
    requires Inv(c) && Legal(c.s, e) && !e.Make? && !e.Mount? && !e.Unmount?
    ensures Harmless(c.s, Step(c, e).s)
  {
    hide Consistent, Decode, ReleaseListed, BlockFor, Bit, SetBit, IndexBlock, Copied, TwoClear;
  }

  lemma StepPlaces(c: Config, e: Event)
    requires Inv(c) && Legal(c.s, e) && Placed(c)
    ensures Placed(Step(c, e))
  {
    hide Consistent, Encode, Decode, Located, DoCreate, DoDelete, DoWrite, DoRead, DoOpen, DoSeek, DoSize, DoClose,
        Fresh;
    match e
    case Make(rest) =>
      MakePlaces(c.s, rest);
      MetaRoundTrip(Fresh(), rest);
    case Mount =>
    case Unmount(rest) =>
      if c.s.ready {
        EncodedIsLocated(c.s.meta, rest);
        MetaRoundTrip(c.s.meta, rest);
      }
    case _ => FileCallsHarmless(c, e);
  }

  lemma {:induction false} RunPlaces(c: Config, es: seq<Event>)
    requires Inv(c) && IsRun(c, es) && Placed(c)
    ensures Placed(After(c, es))
    decreases |es|
  {
    hide Inv, Step, Placed, Legal;
    if es != [] {
      StepPlaces(c, es[0]);
      StepKeepsInv(c, es[0]);
      RunPlaces(Step(c, es[0]), es[1..]);
    }
  }

  /** After every run on a newly made file system, mounted and unmounted any number of times, the
      superblock holds the offsets 6, 1030 and 1414, and whenever the disk is closed the arrays are
      at them in block 0. */
  lemma SuperblockLocates(c: Config, rest: seq<byte>, es: seq<Event>)
    requires Unmounted(c.s) && Legal(c.s, Make(rest)) && IsRun(Step(c, Make(rest)), es)
    ensures var s := After(Step(c, Make(rest)), es).s;
            && Image(s).sb == SuperBlock(6, 1030, 1414)
            && (!s.ready ==> Located(s.disk.blocks[0], Image(s)))
  {
    hide Inv, Located, Fresh, Decode, Encode;
    MakeEstablishesInv(c, rest);
    MakePlaces(c.s, rest);
    RunPlaces(Step(c, Make(rest)), es);
  }

  // ---------------------------------------------------------------- the bytes of each field

  function Shifted(w: bv32, n: nat): bv32 {
    if n == 0 then w else Shifted(Half(w), n - 1)
  }

  lemma HalfMask(w: bv32, m: bv32)
    ensures Has(w, Double(m)) <==> Has(Half(w), m)
  {}

  lemma HasLowBit(w: bv32)
    ensures Has(w, 1) <==> LowBit(w) == 1
  {}

  lemma MaskDoubles(n: nat)
    ensures Mask(0) == 1 && Mask(n + 1) == Double(Mask(n))
  {}

  lemma {:induction false} MaskShifts(w: bv32, n: nat)
    ensures Has(w, Mask(n)) <==> LowBit(Shifted(w, n)) == 1
    decreases n
  {
    hide Has, Half, LowBit, Mask, Double;
    if n == 0 {
      MaskDoubles(0);
      HasLowBit(w);
    } else {
      MaskShifts(Half(w), n - 1);
      MaskDoubles(n - 1);
      HalfMask(w, Mask(n - 1));
    }
  }

  lemma {:induction false} ShiftedTwice(w: bv32, n: nat, k: nat)
    ensures Shifted(Shifted(w, n), k) == Shifted(w, n + k)
    decreases n
  {
    hide Half;
    if n > 0 {
      ShiftedTwice(Half(w), n - 1, k);
    }
  }

  /** The word moved down by one byte. */
  function Down(w: bv32): bv32 { w >> 8 }

  lemma EightHalves(w: bv32)
    ensures Half(Half(Half(Half(Half(Half(Half(Half(w)))))))) == Down(w)
  {}

  lemma DownByBytes(w: bv32)
    ensures w >> 8 == Down(w) && w >> 16 == Down(Down(w)) && w >> 24 == Down(Down(Down(w)))
  {}

  lemma ShiftedStep(w: bv32, n: nat)
    ensures Shifted(w, 0) == w && Shifted(w, n + 1) == Shifted(Half(w), n)
  {}

  lemma ShiftedEight(w: bv32)
    ensures Shifted(w, 8) == Down(w)
  {
    hide Half, Shifted, Down;
    var h1 := Half(w);
    var h2 := Half(h1);
    var h3 := Half(h2);
    var h4 := Half(h3);
    var h5 := Half(h4);
    var h6 := Half(h5);
    var h7 := Half(h6);
    ShiftedStep(w, 7);
    ShiftedStep(h1, 6);
    ShiftedStep(h2, 5);
    ShiftedStep(h3, 4);
    ShiftedStep(h4, 3);
    ShiftedStep(h5, 2);
    ShiftedStep(h6, 1);
    ShiftedStep(h7, 0);
    ShiftedStep(Half(h7), 0);
    EightHalves(w);
  }

  lemma ShiftedBytes(w: bv32)
    ensures Shifted(w, 0) == w && Shifted(w, 8) == Down(w) && Shifted(w, 16) == Down(Down(w))
    ensures Shifted(w, 24) == Down(Down(Down(w)))
  {
    hide Half, Shifted, Down;
    ShiftedStep(w, 0);
    ShiftedEight(w);
    ShiftedEight(Down(w));
    ShiftedTwice(w, 8, 8);
    ShiftedEight(Down(Down(w)));
    ShiftedTwice(w, 16, 8);
  }

  lemma HalvesDivide(x: nat, bit: nat, d: nat)
    requires bit < 2 && d > 0
    ensures (2 * x + bit) / (2 * d) == x / d
  {
    var q, r := x / d, x % d;
    assert x == q * d + r;
    assert 2 * x + bit == q * (2 * d) + (2 * r + bit);
    QuotientIs(2 * x + bit, 2 * d, q, 2 * r + bit);
  }

  lemma QuotientIs(n: nat, d: nat, q: nat, r: nat)
    requires n == q * d + r && r < d
    ensures n / d == q
  {
    var p, s := n / d, n % d;
    assert n == p * d + s;
    SameQuotient(p, q, d, r, s);
  }

  lemma SameQuotient(p: nat, q: nat, d: nat, r: nat, s: nat)
    requires q * d + r == p * d + s && r < d && s < d
    ensures p == q
  {
    if p > q {
      MoreMultiples(p, q, d);
    } else if p < q {
      MoreMultiples(q, p, d);
    }
  }

  lemma MoreMultiples(p: nat, q: nat, d: nat)
    requires p > q
    ensures p * d >= q * d + d
  {
    assert p * d == q * d + d + (p - q - 1) * d;
  }

  lemma ExpStep(j: nat)
    ensures Exp2(j) > 0 && Exp2(0) == 1 && Exp2(j + 1) == 2 * Exp2(j)
  {
    if j > 0 {
      ExpStep(j - 1);
    }
  }

  lemma LastBit(x: nat, bit: nat)
    requires bit < 2
    ensures (2 * x + bit) / 1 % 2 == bit
  {}

  /** Bit `j` of the lowest `k` bits as a number. */
  lemma {:induction false} BitOfLow(w: bv32, k: nat, j: nat)
    requires j < k
    ensures Exp2(j) > 0 && LowBits(w, k) / Exp2(j) % 2 == LowBit(Shifted(w, j))
    decreases j
  {
    hide Half, LowBit, LowBits, Exp2, Shifted;
    LowBitsStep(w, k);
    if j == 0 {
      ExpStep(0);
      ShiftedStep(w, 0);
      LastBit(LowBits(Half(w), k - 1), LowBit(w));
    } else {
      ExpStep(j - 1);
      ShiftedStep(w, j - 1);
      BitOfLow(Half(w), k - 1, j - 1);
      HalvesDivide(LowBits(Half(w), k - 1), LowBit(w), Exp2(j - 1));
    }
  }

  /** Byte `c` of a word holds its bits from 8 * c on. */
  lemma ByteIsLow(w: bv32, c: nat)
    requires c < 4
    ensures WordByte(w, c) as nat == LowBits(Shifted(w, 8 * c), 8)
  {
    hide LowBits, Shifted, Down;
    assert Exp2(8) == 256;
    DownByBytes(w);
    ShiftedBytes(w);
  }

  lemma WordByteBit(w: bv32, c: nat, j: nat)
    requires c < 4 && j < 8
    ensures Exp2(j) > 0 && (WordByte(w, c) as nat / Exp2(j) % 2 == 1 <==> Has(w, Mask(8 * c + j)))
  {
    hide Mask, Shifted, Has, LowBit, Exp2, LowBits, WordByte;
    ByteIsLow(w, c);
    BitOfLow(Shifted(w, 8 * c), 8, j);
    ShiftedTwice(w, 8 * c, j);
    MaskShifts(w, 8 * c + j);
  }

  /** Block `k` is marked exactly when bit `k % 8` of byte 6 + k / 8 of block 0 is set. */
  lemma BitmapOnDisk(m: Meta, rest: seq<byte>, k: nat)
    requires |rest| == BLOCK_SIZE - META_SIZE && k < 8192
    ensures Exp2(k % 8) > 0
    ensures Bit(m.bitmap, k) <==> Encode(m, rest)[6 + k / 8] as nat / Exp2(k % 8) % 2 == 1
  {
    hide Encode, Has, Mask, Exp2, WordByte;
    Pieces(m, rest);
    var b := Encode(m, rest);
    assert b[6 + k / 8] == b[SB_SIZE..INODES_AT][k / 8];
    assert k / 8 / 4 == k / 32 && 8 * (k / 8 % 4) + k % 8 == k % 32;
    WordByteBit(m.bitmap[k / 32], k / 8 % 4, k % 8);
  }

  /** Inode `i` takes the six bytes from 1030 + 6 * i on: the used flag, a padding byte, the index
      block and the size. */
  lemma InodeOnDisk(m: Meta, rest: seq<byte>, i: nat)
    requires |rest| == BLOCK_SIZE - META_SIZE && i < 64
    ensures var b, at := Encode(m, rest), 1030 + 6 * i;
            && b[at] == (if m.inodes[i].isUsed then 1 else 0) && b[at + 1] == 0
            && Number(b, at + 2) == m.inodes[i].singleIndirectBlock && Number(b, at + 4) == m.inodes[i].fileSize
  {
    hide Encode, InodeBytes;
    Pieces(m, rest);
    var b := Encode(m, rest);
    InodeByteAt(m.inodes, b, i, 0);
    InodeByteAt(m.inodes, b, i, 1);
    InodeByteAt(m.inodes, b, i, 2);
    InodeByteAt(m.inodes, b, i, 3);
    InodeByteAt(m.inodes, b, i, 4);
    InodeByteAt(m.inodes, b, i, 5);
  }

  /** Entry `e` takes the twenty bytes from 1414 + 20 * e on: the used flag, a padding byte, the
      inode number, the fifteen bytes of the name and a padding byte. */
  lemma EntryOnDisk(m: Meta, rest: seq<byte>, e: nat)
    requires |rest| == BLOCK_SIZE - META_SIZE && e < 64
    ensures var b, at := Encode(m, rest), 1414 + 20 * e;
            && b[at] == (if m.directory[e].isUsed then 1 else 0) && b[at + 1] == b[at + 19] == 0
            && Number(b, at + 2) == m.directory[e].inodeNum && b[at + 4..at + 19] == m.directory[e].name
  {
    hide Encode, DirectoryBytes;
    Pieces(m, rest);
    var b, at := Encode(m, rest), 1414 + 20 * e;
    EntryByteAt(m.directory, b, e, 0);
    EntryByteAt(m.directory, b, e, 1);
    EntryByteAt(m.directory, b, e, 2);
    EntryByteAt(m.directory, b, e, 3);
    EntryByteAt(m.directory, b, e, 19);
    forall c | 0 <= c < 15 ensures b[at + 4..at + 19][c] == m.directory[e].name[c] {
      EntryByteAt(m.directory, b, e, 4 + c);
    }
  }

  /** The index block of a new file starts with the data block's number, low byte first, followed
      by zeros up to byte 512. */
  lemma IndexOnDisk(dataBlock: u16, rest: seq<byte>)
    requires |rest| == BLOCK_SIZE - 512
    ensures var b := IndexBlock(dataBlock, rest);
            && Number(b, 0) == dataBlock && (forall k | 2 <= k < 512 :: b[k] == 0) && b[512..] == rest
  {}
}

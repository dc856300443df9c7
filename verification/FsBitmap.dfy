/** The used-blocks bitmap of fs.c: 256 words of 32 flags. */
module FsBitmap {
  import opened FsCodec

  // ---------------------------------------------------------------- flags of one word

  /** One, shifted left `bit` times. */
  function Mask(bit: nat): bv32 {
    if bit == 0 then 1 else Mask(bit - 1) << 1
  }

  predicate Has(w: bv32, flag: bv32) { w & flag != 0 }

  function With(w: bv32, flag: bv32): bv32 { w | flag }

  function Without(w: bv32, flag: bv32): bv32 { w & !flag }

  lemma {:induction false} MaskIsShift(b: nat)
    requires b < 32
    ensures Mask(b) == (1 as bv32) << b
  {
    if b > 0 {
      MaskIsShift(b - 1);
    }
  }

  lemma MaskNonZero(b: nat)
    requires b < 32
    ensures Mask(b) != 0
  {
    hide Mask;
    MaskIsShift(b);
  }

  lemma MasksApart(b: nat, c: nat)
    requires b < 32 && c < 32 && b != c
    ensures Mask(b) & Mask(c) == 0
  {
    hide Mask;
    MaskIsShift(b);
    MaskIsShift(c);
  }

  lemma Absorb(w: bv32, m: bv32)
    ensures (w | m) & m == m && (w & !m) & m == 0
  {}

  lemma Distribute(w: bv32, m: bv32, n: bv32)
    ensures (w | m) & n == (w & n) | (m & n)
    ensures (w & !m) & n == w & (n & !m)
  {}

  lemma Split(m: bv32, n: bv32)
    ensures (n & !m) | (m & n) == n
  {}

  lemma OrZero(x: bv32)
    ensures x | 0 == x
  {}

  lemma SameFlag(w: bv32, m: bv32)
    requires m != 0
    ensures Has(With(w, m), m) && !Has(Without(w, m), m)
  {
    Absorb(w, m);
  }

  lemma OtherFlagWith(w: bv32, m: bv32, n: bv32)
    requires m & n == 0
    ensures Has(With(w, m), n) == Has(w, n)
  {
    Distribute(w, m, n);
    OrZero(w & n);
  }

  lemma OtherFlagWithout(w: bv32, m: bv32, n: bv32)
    requires m & n == 0
    ensures Has(Without(w, m), n) == Has(w, n)
  {
    Distribute(w, m, n);
    Split(m, n);
    OrZero(n & !m);
  }

  lemma WithFlag(w: bv32, b: nat, c: nat)
    requires b < 32 && c < 32
    ensures Has(With(w, Mask(b)), Mask(c)) == (b == c || Has(w, Mask(c)))
  {
    hide Mask, Has, With, Without;
    if b == c {
      MaskNonZero(b);
      SameFlag(w, Mask(b));
    } else {
      MasksApart(b, c);
      OtherFlagWith(w, Mask(b), Mask(c));
    }
  }

  lemma WithoutFlag(w: bv32, b: nat, c: nat)
    requires b < 32 && c < 32
    ensures Has(Without(w, Mask(b)), Mask(c)) == (b != c && Has(w, Mask(c)))
  {
    hide Mask, Has, With, Without;
    if b == c {
      MaskNonZero(b);
      SameFlag(w, Mask(b));
    } else {
      MasksApart(b, c);
      OtherFlagWithout(w, Mask(b), Mask(c));
    }
  }

  // ---------------------------------------------------------------- bits of the map

  /** Block `i` is marked as used. */
  predicate Bit(bm: Bitmap, i: nat)
    requires i < DISK_BLOCKS
  {
    Has(bm[i / 32], Mask(i % 32))
  }

  /** `writeUsedBlocksBit` */
  function SetBit(bm: Bitmap, i: nat, on: bool): Bitmap
    requires i < DISK_BLOCKS
  {
    var w := bm[i / 32];
    bm[i / 32 := if on then With(w, Mask(i % 32)) else Without(w, Mask(i % 32))]
  }

  /** Writing a bit changes that bit and no other. */
  lemma OneBitChanges(bm: Bitmap, i: nat, on: bool)
    requires i < DISK_BLOCKS
    ensures forall j: nat | j < DISK_BLOCKS :: Bit(SetBit(bm, i, on), j) == if j == i then on else Bit(bm, j)
  {
    forall j: nat | j < DISK_BLOCKS
      ensures Bit(SetBit(bm, i, on), j) == if j == i then on else Bit(bm, j)
    {
      BitAfter(bm, i, on, j);
    }
  }

  lemma BitAfter(bm: Bitmap, i: nat, on: bool, j: nat)
    requires i < DISK_BLOCKS && j < DISK_BLOCKS
    ensures Bit(SetBit(bm, i, on), j) == if j == i then on else Bit(bm, j)
  {
    hide Mask, Has, With, Without;
    if i / 32 == j / 32 {
      WithFlag(bm[i / 32], i % 32, j % 32);
      WithoutFlag(bm[i / 32], i % 32, j % 32);
    }
  }

  /** `findUsedBlocksBit`: the least clear bit from `from` on, or -1. */
  function FirstClear(bm: Bitmap, from: nat): (r: int)
    requires from <= DISK_BLOCKS
    ensures r == -1 || from <= r < DISK_BLOCKS
    ensures r != -1 ==> !Bit(bm, r)
    ensures forall j: nat | from <= j < (if r == -1 then DISK_BLOCKS else r) :: Bit(bm, j)
    decreases DISK_BLOCKS - from
  {
    if from == DISK_BLOCKS then -1 else if !Bit(bm, from) then from else FirstClear(bm, from + 1)
  }

  lemma ZeroBit(bm: Bitmap, i: nat)
    requires i < DISK_BLOCKS && bm[i / 32] == 0
    ensures !Bit(bm, i)
  {
    hide Mask;
    var m := Mask(i % 32);
    assert 0 & m == 0;
  }

  /** How many of the first `n` blocks are marked. */
  function Marked(bm: Bitmap, n: nat): (k: nat)
    requires n <= DISK_BLOCKS
    ensures k <= n
  {
    if n == 0 then 0 else Marked(bm, n - 1) + if Bit(bm, n - 1) then 1 else 0
  }

  lemma {:induction false} MarkedChange(bm: Bitmap, i: nat, on: bool, n: nat)
    requires i < DISK_BLOCKS && n <= DISK_BLOCKS && Bit(bm, i) != on
    ensures Marked(SetBit(bm, i, on), n) == Marked(bm, n) + if i >= n then 0 else if on then 1 else -1
  {
    hide Bit, SetBit;
    OneBitChanges(bm, i, on);
    if n > 0 {
      MarkedChange(bm, i, on, n - 1);
    }
  }

  lemma {:induction false} NoneMarked(bm: Bitmap, n: nat)
    requires n <= DISK_BLOCKS && forall j: nat | j < n :: !Bit(bm, j)
    ensures Marked(bm, n) == 0
  {
    if n > 0 {
      NoneMarked(bm, n - 1);
    }
  }

  /** A map with at least two clear bits. */
  predicate TwoClear(bm: Bitmap) {
    exists i: nat, j: nat :: i < j < DISK_BLOCKS && !Bit(bm, i) && !Bit(bm, j)
  }

  /** Two calls of `findUsedBlocksBit` with the first result marked in between give two
      different clear blocks. */
  lemma TwoFound(bm: Bitmap)
    requires TwoClear(bm)
    ensures var a := FirstClear(bm, 0);
            a != -1 && var b := FirstClear(SetBit(bm, a, true), 0);
                       b != -1 && a != b && !Bit(bm, a) && !Bit(bm, b)
  {
    hide Bit, SetBit;
    var i: nat, j: nat :| i < j < DISK_BLOCKS && !Bit(bm, i) && !Bit(bm, j);
    var a := FirstClear(bm, 0);
    OneBitChanges(bm, a, true);
  }
}

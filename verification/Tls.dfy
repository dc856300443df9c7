/** tls.c: reference-counted pages shared by several threads, copied when written. */
module Tls {
  import opened Common
  import opened TlsPages
  import opened TlsModel

  datatype Protection = NoAccess | Readable | Writable

  /** `struct page` together with the memory mapped at its address. */
  class Page {
    var bytes: seq<byte>
    var refCount: int
    var prot: Protection

    /** A page obtained from malloc and an anonymous, hence zero-filled, mmap. */
    constructor (prot: Protection)
      ensures bytes == Zeros(PAGE_SIZE) && refCount == 1 && this.prot == prot
    {
      bytes, refCount, this.prot := Zeros(PAGE_SIZE), 1, prot;
    }
  }

  /** `TLS`: only the entries of `pages` change after creation. */
  datatype Storage = Storage(tid: Tid, size: nat, pages: array<Page>)

  /** `struct tid_tls_pair`. */
  datatype Slot = Slot(tid: Tid, tls: Option<Storage>)

  const EMPTY := Slot(-1, None)
  const UNTOUCHED := Slot(0, None)

  predicate Holds(s: Slot, t: Tid) {
    s.tls.Some? && s.tid == t
  }

  /** Occupied slots carry distinct thread ids; the slot at `maxIndex` is empty and ready. */
  ghost predicate SlotsValid(slots: seq<Slot>, maxIndex: nat, firstCall: bool) {
    && maxIndex < MAX_THREADS == |slots|
    && (forall i | 0 <= i < |slots| :: slots[i].tls.Some? ==>
          i < maxIndex && slots[i].tid !in {0, -1} && slots[i].tls.value.tid == slots[i].tid)
    && (forall i | 0 <= i < |slots| :: slots[i].tls.None? ==> slots[i].tid in {0, -1})
    && (forall i, j | 0 <= i < j < |slots| :: slots[i].tls.Some? && slots[j].tls.Some? ==>
          slots[i].tid != slots[j].tid && slots[i].tls.value.pages != slots[j].tls.value.pages)
    && (if firstCall then maxIndex == 0 else slots[maxIndex] == EMPTY)
  }

  /** The storages as a map from thread id to byte string. */
  ghost function StoreOf(slots: seq<Slot>, view: seq<seq<byte>>): map<Tid, seq<byte>>
    requires |slots| == |view|
    requires forall i, j | 0 <= i < j < |slots| :: slots[i].tls.Some? && slots[j].tls.Some? ==>
        slots[i].tid != slots[j].tid
  {
    map i | 0 <= i < |slots| && slots[i].tls.Some? :: slots[i].tid := view[i]
  }

  /** Emptying a slot that holds no storage changes no storage. */
  lemma EmptySlot(slots: seq<Slot>, view: seq<seq<byte>>, i: nat, maxIndex: nat, firstCall: bool)
    requires SlotsValid(slots, maxIndex, firstCall) && |view| == |slots|
    requires i < |slots| && slots[i].tls.None?
    requires i == if firstCall then maxIndex else maxIndex + 1
    ensures SlotsValid(slots[i := EMPTY], i, false)
    ensures StoreOf(slots[i := EMPTY], view) == StoreOf(slots, view)
  {
    var after := slots[i := EMPTY];
    assert forall k | 0 <= k < |slots| :: after[k].tls.Some? <==> slots[k].tls.Some?;
    assert forall k | 0 <= k < |slots| && slots[k].tls.Some? :: after[k] == slots[k];
  }

  /** The storage of an occupied slot is what the map holds for its thread id. */
  lemma StoreAt(slots: seq<Slot>, view: seq<seq<byte>>, i: nat, v: seq<byte>, maxIndex: nat, firstCall: bool)
    requires SlotsValid(slots, maxIndex, firstCall) && |view| == |slots|
    requires i < |slots| && slots[i].tls.Some?
    ensures slots[i].tid in StoreOf(slots, view) && StoreOf(slots, view)[slots[i].tid] == view[i]
    ensures StoreOf(slots, view[i := v]) == StoreOf(slots, view)[slots[i].tid := v]
  {
    assert Holds(slots[i], slots[i].tid);
  }

  ghost predicate CanFill(slots: seq<Slot>, i: nat, slot: Slot, maxIndex: nat) {
    && i < maxIndex < |slots| && slots[i].tls.None?
    && slot.tls.Some? && slot.tid !in {0, -1} && slot.tls.value.tid == slot.tid
    && (forall s | s in slots :: !Holds(s, slot.tid))
    && (forall k | 0 <= k < |slots| && slots[k].tls.Some? :: slots[k].tls.value.pages != slot.tls.value.pages)
  }

  /** A storage with a page array of its own can go into an empty slot. */
  lemma FreshStorage(slots: seq<Slot>, i: nat, slot: Slot, maxIndex: nat)
    requires i < maxIndex < |slots| && slots[i].tls.None?
    requires slot.tls.Some? && slot.tid !in {0, -1} && slot.tls.value.tid == slot.tid
    requires forall s | s in slots :: !Holds(s, slot.tid)
    requires forall k | 0 <= k < |slots| && slots[k].tls.Some? :: slots[k].tls.value.pages != slot.tls.value.pages
    ensures CanFill(slots, i, slot, maxIndex)
  {}

  /** Filling the slot a lookup handed out adds one storage to the map. */
  lemma FillSlot(slots: seq<Slot>, view: seq<seq<byte>>, i: nat, slot: Slot, v: seq<byte>, maxIndex: nat,
      firstCall: bool)
    requires SlotsValid(slots, maxIndex, firstCall) && |view| == |slots| && CanFill(slots, i, slot, maxIndex)
    ensures SlotsValid(slots[i := slot], maxIndex, firstCall)
    ensures StoreOf(slots[i := slot], view[i := v]) == StoreOf(slots, view)[slot.tid := v]
  {
    FilledSlotsValid(slots, i, slot, maxIndex, firstCall);
    var after := slots[i := slot];
    var a, b := StoreOf(after, view[i := v]), StoreOf(slots, view)[slot.tid := v];
    forall t ensures t in a <==> t in b {
      if t == slot.tid {
        assert Holds(after[i], t);
      } else if t in b {
        var k :| 0 <= k < |slots| && slots[k].tls.Some? && slots[k].tid == t;
        assert after[k] == slots[k];
      }
    }
    forall t | t in a ensures a[t] == b[t] {
      var k :| 0 <= k < |after| && after[k].tls.Some? && after[k].tid == t;
      if k != i {
        assert after[k] == slots[k] && Holds(slots[k], t);
        assert t != slot.tid;
      }
    }
    assert a == b;
  }

  lemma FilledSlotsValid(slots: seq<Slot>, i: nat, slot: Slot, maxIndex: nat, firstCall: bool)
    requires SlotsValid(slots, maxIndex, firstCall) && CanFill(slots, i, slot, maxIndex)
    ensures SlotsValid(slots[i := slot], maxIndex, firstCall)
  {
    forall k | 0 <= k < |slots| && slots[k].tls.Some? ensures slots[k].tid != slot.tid {
      assert !Holds(slots[k], slot.tid);
    }
  }

  /** The page-level outcome of a write, read as a step of the abstract map. */
  lemma WriteMeaning(slots: seq<Slot>, maxIndex: nat, firstCall: bool, before: seq<seq<byte>>, after: seq<seq<byte>>,
      i: nat,
                     offset: nat, length: nat, buffer: seq<byte>, r: int)
    requires SlotsValid(slots, maxIndex, firstCall) && |before| == |slots|
    requires i < |slots| && slots[i].tls.Some? && |before[i]| % PAGE_SIZE == 0
    requires offset < |before[i]| && length <= |buffer| && length <= |before[i]|
    requires Crosses(offset, length) ==> Strlen(buffer) < |buffer|
    requires r == if Crosses(offset, length) && offset + Strlen(buffer) > |before[i]| then -1 else 0
    requires offset + |Payload(offset, length, buffer)| <= |before[i]| || r == -1
    requires after == if r == -1 then before
        else before[i := Splice(before[i], offset, Payload(offset, length, buffer))]
    requires Regular(Model(StoreOf(slots, before), maxIndex))
    ensures Suits(Model(StoreOf(slots, before), maxIndex), slots[i].tid, TlsModel.Write(offset, length, buffer))
    ensures Act(Model(StoreOf(slots, before), maxIndex), slots[i].tid, TlsModel.Write(offset, length, buffer))
         == (Model(StoreOf(slots, after), maxIndex), if r == 0 then DONE else FAILED)
  {
    StoreAt(slots, before, i, after[i], maxIndex, firstCall);
  }

  /** The scan that precedes a page-crossing transfer: it walks the pages byte by byte and
      accepts exactly the ranges that end inside the storage. */
  method ScanPages(pageNum: nat, numOfPages: nat, len: nat, start: nat) returns (fits: bool)
    requires pageNum < numOfPages && start < PAGE_SIZE
    ensures fits <==> pageNum * PAGE_SIZE + start + len <= numOfPages * PAGE_SIZE
  {
    var pn, startTrack, endTrack, count := pageNum, start, PAGE_SIZE, 0;
    for i := 0 to len
      invariant pn < numOfPages && startTrack + count <= endTrack == PAGE_SIZE
      invariant pn * PAGE_SIZE + startTrack + count == pageNum * PAGE_SIZE + start + i
    {
      if startTrack + count >= endTrack {
        pn := pn + 1;
        if pn >= numOfPages {
          return false;
        }
        count, startTrack, endTrack := 0, 0, PAGE_SIZE;
      }
      count := count + 1;
    }
    return true;
  }

  /** `roundUp`, with the float quotient as a real number. */
  method RoundUp(size: nat, pagesize: nat) returns (round: nat)
    requires pagesize == PAGE_SIZE
    ensures size <= round * pagesize < size + pagesize && round == PagesFor(size)
  {
    var div := size as real / pagesize as real;
    round := div.Floor;
    div := div - round as real;
    if div > 0.0 {
      round := round + 1;
    }
  }

  /** `memcpy` out of an open page. */
  method CopyOut(page: Page, d: nat, len: nat, dest: array<byte>)
    requires page.prot != NoAccess && d + len <= |page.bytes| && len <= dest.Length
    modifies dest
    ensures dest[..] == page.bytes[d..d + len] + old(dest[len..])
  {
    forall k | 0 <= k < len {
      dest[k] := page.bytes[d + k];
    }
  }

  /** `memcpy` of a whole page, between two open pages. */
  method CopyPage(from: Page, to: Page)
    requires from != to && from.prot != NoAccess && to.prot == Writable
    modifies to`bytes
    ensures to.bytes == from.bytes
  {
    to.bytes := from.bytes;
  }

  class TlsLibrary {
    const ttpArray: array<Slot>
    var maxIndex: nat
    var firstCall: bool

    // The page pointers and the storage bytes of every slot.
    ghost var table: seq<seq<Page>>
    ghost var view: seq<seq<byte>>
    ghost var Repr: set<object>

    ghost predicate Valid()
      reads this, Repr
    {
      && this in Repr && ttpArray in Repr
      && ttpArray.Length == MAX_THREADS == |table| == |view|
      && SlotsValid(ttpArray[..], maxIndex, firstCall)
      && ArraysValid()
      && SameIndexSharing(table)
      && PagesValid()
    }

    ghost predicate ArraysValid()
      reads this, Repr
      requires this in Repr && ttpArray in Repr && ttpArray.Length == |table| == |view|
    {
      forall i | 0 <= i < ttpArray.Length ::
        && |view[i]| == |table[i]| * PAGE_SIZE
        && match ttpArray[i].tls
           case None => table[i] == []
           case Some(tls) => tls.pages in Repr && tls.pages[..] == table[i]
    }

    ghost predicate PagesValid()
      reads this, Repr
      requires |table| == |view| && forall i | 0 <= i < |table| :: |view[i]| == |table[i]| * PAGE_SIZE
    {
      forall i, j | 0 <= i < |table| && 0 <= j < |table[i]| ::
        && table[i][j] in Repr
        && table[i][j].bytes == Chunk(view[i], j)
        && table[i][j].refCount == |Owners(table, table[i][j])|
    }

    /** The abstract state. */
    ghost function Abs(): (m: Model)
      reads this, Repr
      requires Valid()
      ensures Regular(m)
    {
      Model(StoreOf(ttpArray[..], view), maxIndex)
    }

    ghost function PageAt(index: nat, j: nat): Page
      reads this
      requires index < |table| && j < |table[index]|
    {
      table[index][j]
    }

    constructor ()
      ensures Valid() && fresh(Repr)
      ensures Abs() == Model(map[], 0)
    {
      ttpArray := new Slot[MAX_THREADS](_ => UNTOUCHED);
      maxIndex, firstCall := 0, true;
      new;
      table, view := seq(MAX_THREADS, _ => []), seq(MAX_THREADS, _ => []);
      Repr := {this, ttpArray};
    }

    /** Makes slot `i` the next empty one. */
    method PrepareSlot(i: nat)
      requires Valid() && i < MAX_THREADS && ttpArray[i].tls.None?
      requires i == if firstCall then maxIndex else maxIndex + 1
      modifies this`maxIndex, this`firstCall, ttpArray
      ensures Valid() && maxIndex == i && !firstCall
      ensures Abs() == old(Abs()).(used := i)
      ensures ttpArray[..] == old(ttpArray[..])[i := EMPTY]
      ensures AllClosed() == old(AllClosed())
    {
      hide SameIndexSharing;
      EmptySlot(ttpArray[..], view, i, maxIndex, firstCall);
      ttpArray[i], maxIndex, firstCall := EMPTY, i, false;
      assert ttpArray[..] == old(ttpArray[..])[i := EMPTY];
    }

    /** Finds the slot of `tid`, or hands out the next empty one and prepares its successor. */
    method FindIndex(tid: Tid) returns (index: nat)
      requires Valid() && tid !in {0, -1}
      requires tid in Abs().store || maxIndex + 1 < MAX_THREADS
      modifies this`maxIndex, this`firstCall, ttpArray
      ensures Valid() && index < MAX_THREADS && maxIndex < MAX_THREADS
      ensures Abs() == old(Abs()).(used := old(maxIndex) + if tid in old(Abs()).store then 0 else 1)
      ensures if tid in old(Abs()).store then Holds(ttpArray[index], tid)
              else ttpArray[index] == EMPTY && index == old(maxIndex)
      ensures forall i | 0 <= i < MAX_THREADS ::
          ttpArray[i] == old(ttpArray[i]) || (ttpArray[i] == EMPTY && old(ttpArray[i].tls).None?)
      ensures AllClosed() == old(AllClosed())
    {
      hide TlsLibrary.PagesValid, TlsLibrary.ArraysValid, SameIndexSharing, TlsLibrary.AllClosed;
      if firstCall {
        PrepareSlot(0);
      }
      for i := 0 to MAX_THREADS
        invariant forall k | 0 <= k < i :: ttpArray[k].tid != tid
      {
        if ttpArray[i].tid == tid {
          return i;
        }
      }
      index := maxIndex;
      PrepareSlot(maxIndex + 1);
    }

    /** Every open page is the page at (index, j). */
    ghost predicate OnlyOpen(index: nat, j: nat)
      reads this, Repr
      requires Valid() && index < |table| && j < |table[index]|
    {
      forall k, l | 0 <= k < |table| && 0 <= l < |table[k]| :: table[k][l].prot != NoAccess ==>
          table[k][l] == table[index][j]
    }

    ghost predicate AllClosed()
      reads this, Repr
      requires Valid()
    {
      forall k, l | 0 <= k < |table| && 0 <= l < |table[k]| :: table[k][l].prot == NoAccess
    }

    /** What copy-on-write does to the heap: `pg` takes over from the shared page. */
    twostate predicate CopiedOnWrite(index: nat, j: nat)
      reads this, Repr
    {
      && old(Valid()) && index < MAX_THREADS && j < |old(table)[index]| && old(ttpArray[index].tls).Some?
      && index < |table| && j < |table[index]|
      && Repr == old(Repr) + {table[index][j]} && table[index][j] !in old(Repr)
      && ttpArray[..] == old(ttpArray[..]) && maxIndex == old(maxIndex) && firstCall == old(firstCall) &&
            view == old(view)
      && table == SetEntry(old(table), index, j, table[index][j])
      && ttpArray[index].tls.value.pages[..] == old(ttpArray[index].tls.value.pages[..])[j := table[index][j]]
      && (forall a: array<Page> | a in old(Repr) && a != ttpArray[index].tls.value.pages :: unchanged(a))
      && (forall p: Page | p in old(Repr) && p != old(table)[index][j] :: unchanged(p))
      && table[index][j].bytes == old(table[index][j].bytes) && table[index][j].refCount == 1
      && SharedPageLeft(old(table)[index][j])
    }

    twostate predicate SharedPageLeft(p: Page)
      reads p
    {
      p.bytes == old(p.bytes) && p.refCount == old(p.refCount) - 1 && p.prot == NoAccess
    }

    // The slot and page index travel as one pair through the two-state lemmas.
    twostate lemma CopyKeepsArrays(at: (nat, nat))
      requires CopiedOnWrite(at.0, at.1)
      ensures ArraysValid()
    {
      forall i | 0 <= i < ttpArray.Length && i != at.0 && ttpArray[i].tls.Some?
        ensures ttpArray[i].tls.value.pages[..] == table[i]
      {
        assert ttpArray[i].tls.value.pages != ttpArray[at.0].tls.value.pages;
      }
    }

    twostate lemma CopyKeepsPages(at: (nat, nat))
      requires CopiedOnWrite(at.0, at.1)
      ensures PagesValid() && SameIndexSharing(table)
    {
      PrivatiseOwners(old(table), at.0, at.1, table[at.0][at.1]);
      forall k, l | 0 <= k < |table| && 0 <= l < |table[k]|
        ensures table[k][l] in Repr
        ensures table[k][l].bytes == Chunk(view[k], l)
        ensures table[k][l].refCount == |Owners(table, table[k][l])|
      {
        if (k, l) != at {
          var p := old(table)[k][l];
          assert p in old(Repr) && table[k][l] == p;
        }
      }
    }

    /** Of all pages exactly the one at (index, j) is open. */
    ghost predicate LeftOpen(index: nat, j: nat, prot: Protection)
      reads this, Repr
      requires Valid()
    {
      && prot != NoAccess && index < |table| && j < |table[index]|
      && table[index][j].prot == prot
      && OnlyOpen(index, j)
    }

    /** Replaces the shared page at (index, j) by a private, writable copy. */
    method CopyOnWrite(index: nat, j: nat)
      requires Valid() && index < MAX_THREADS && j < |table[index]|
      requires ttpArray[index].tls.Some? && table[index][j].refCount > 1
      modifies this`table, this`Repr, ttpArray[index].tls.value.pages, table[index][j]
      ensures Valid() && fresh(table[index][j])
      ensures CopiedOnWrite(index, j) && table[index][j].prot == Writable
    {
      var pages := ttpArray[index].tls.value.pages;
      var shared := pages[j];
      shared.refCount := shared.refCount - 1;
      var pg := new Page(Writable);
      pages[j] := pg;
      shared.prot := Writable;
      CopyPage(shared, pg);
      shared.prot := NoAccess;
      table := SetEntry(table, index, j, pg);
      Repr := Repr + {pg};
      CopyKeepsArrays((index, j));
      CopyKeepsPages((index, j));
    }

    /** `mprotect` on one page. */
    method Protect(p: Page, prot: Protection)
      requires Valid() && p in Repr
      modifies p`prot
      ensures Valid() && Abs() == old(Abs()) && p.prot == prot
    {
      p.prot := prot;
      assert PagesValid();
    }

    /** Everything but the pages and their bytes is as before. */
    twostate predicate SameSlots()
      reads this, ttpArray
    {
      && ttpArray[..] == old(ttpArray[..]) && maxIndex == old(maxIndex) && firstCall == old(firstCall)
      && |table| == |old(table)| && (forall i | 0 <= i < |table| :: |table[i]| == |old(table)[i]|)
    }

    /** Opens the page at (index, j) for writing, after making a private copy if it is shared. */
    method OpenForWrite(index: nat, j: nat)
      requires Valid() && index < MAX_THREADS && j < |table[index]|
      modifies Repr
      ensures Valid() && old(Repr) <= Repr && fresh(Repr - old(Repr))
      ensures SameSlots() && view == old(view)
      ensures table[index][j] in Repr && table[index][j].refCount == 1 && table[index][j].prot == Writable
      ensures old(AllClosed()) ==> OnlyOpen(index, j)
    {
      if ttpArray[index].tls.value.pages[j].refCount > 1 {
        CopyOnWrite(index, j);
      } else {
        assert (index, j) in Owners(table, table[index][j]);
        assert table[index][j := table[index][j]] == table[index];
        Protect(ttpArray[index].tls.value.pages[j], Writable);
      }
    }

    /** `memcpy` into an open page that only this slot points to. */
    method Store(index: nat, j: nat, d: nat, src: seq<byte>)
      requires Valid() && index < MAX_THREADS && j < |table[index]| && d + |src| <= PAGE_SIZE
      requires table[index][j].refCount == 1 && table[index][j].prot == Writable
      modifies this`view, PageAt(index, j)`bytes
      ensures Valid() && j * PAGE_SIZE + d + |src| <= |old(view)[index]|
      ensures view == old(view)[index := Splice(old(view)[index], j * PAGE_SIZE + d, src)]
    {
      var p := ttpArray[index].tls.value.pages[j];
      SoleOwner(table, index, j);
      SpliceChunk(view[index], j, d, src, |table[index]|);
      p.bytes := Splice(p.bytes, d, src);
      view := view[index := Splice(view[index], j * PAGE_SIZE + d, src)];
    }

    /** Copies byte `k` of `src` to storage position `at + k`, when the bytes before it are in place. */
    method StoreNext(index: nat, j: nat, d: nat, src: seq<byte>, k: nat, ghost before: seq<byte>, ghost at: nat)
      requires Valid() && index < MAX_THREADS && j < |table[index]| && d < PAGE_SIZE && k < |src|
      requires table[index][j].refCount == 1 && table[index][j].prot == Writable
      requires j * PAGE_SIZE + d == at + k < |before|
      requires view[index] == Splice(before, at, src[..k])
      modifies this`view, PageAt(index, j)`bytes
      ensures Valid() && view[index] == Splice(before, at, src[..k + 1])
      ensures view == old(view)[index := view[index]]
    {
      SpliceExtend(before, at, src[..k], [src[k]]);
      assert src[..k] + [src[k]] == src[..k + 1];
      Store(index, j, d, [src[k]]);
    }

    method ClosePage(index: nat, j: nat)
      requires Valid() && index < MAX_THREADS && j < |table[index]|
      modifies PageAt(index, j)`prot
      ensures Valid() && Abs() == old(Abs())
      ensures old(OnlyOpen(index, j)) ==> AllClosed()
    {
      Protect(ttpArray[index].tls.value.pages[j], NoAccess);
    }

    /** Closes page `j` and moves on to the next page of the same storage. */
    method NextForWrite(index: nat, j: nat)
      requires Valid() && index < MAX_THREADS && j + 1 < |table[index]|
      modifies Repr
      ensures Valid() && old(Repr) <= Repr && fresh(Repr - old(Repr))
      ensures SameSlots() && view == old(view)
      ensures table[index][j + 1] in Repr && table[index][j + 1].refCount == 1 && table[index][j + 1].prot == Writable
      ensures old(OnlyOpen(index, j)) ==> OnlyOpen(index, j + 1)
    {
      hide TlsLibrary.PagesValid, TlsLibrary.ArraysValid, SlotsValid;
      PagesInRepr(index);
      ClosePage(index, j);
      OpenForWrite(index, j + 1);
    }

    /** One round of the copying loop: turns to the next page at the end of the current one,
        then copies byte `k` of `src`. */
    method WriteByte(src: seq<byte>, k: nat, index: nat, pageNum: nat, startWrite: nat, count: nat,
        ghost before: seq<byte>, ghost at: nat)
      returns (pageNum': nat, startWrite': nat, count': nat)
      requires Valid() && index < MAX_THREADS && pageNum < |table[index]| && k < |src|
      requires table[index][pageNum] in Repr && table[index][pageNum].refCount == 1 &&
          table[index][pageNum].prot == Writable
      requires startWrite + count <= PAGE_SIZE && pageNum * PAGE_SIZE + startWrite + count == at + k < |before|
      requires view[index] == Splice(before, at, src[..k])
      modifies Repr
      ensures Valid() && old(Repr) <= Repr && fresh(Repr - old(Repr)) && SameSlots()
      ensures pageNum' < |table[index]| && startWrite' + count' <= PAGE_SIZE
      ensures pageNum' * PAGE_SIZE + startWrite' + count' == at + k + 1
      ensures table[index][pageNum'] in Repr && table[index][pageNum'].refCount == 1 &&
          table[index][pageNum'].prot == Writable
      ensures view[index] == Splice(before, at, src[..k + 1]) && view == old(view)[index := view[index]]
      ensures old(OnlyOpen(index, pageNum)) ==> OnlyOpen(index, pageNum')
    {
      hide TlsLibrary.PagesValid, TlsLibrary.ArraysValid, SlotsValid, Splice;
      PagesInRepr(index);
      pageNum', startWrite', count' := pageNum, startWrite, count;
      var endPage := PAGE_SIZE;
      if startWrite + count >= endPage {
        NextForWrite(index, pageNum);
        pageNum', startWrite', count' := pageNum + 1, 0, 0;
      }
      StoreNext(index, pageNum', startWrite' + count', src, k, before, at);
      count' := count' + 1;
    }

    /** The copying loop of `boundaryWrite`, for a range that fits. Positions are kept relative
        to the address of the current page. */
    method WritePages(src: seq<byte>, firstPage: nat, index: nat, start: nat, len: nat)
      requires Valid() && index < MAX_THREADS && firstPage < |table[index]| && start < PAGE_SIZE
      requires 0 < |src| && len <= |src|
      requires table[index][firstPage] in Repr && table[index][firstPage].refCount == 1 &&
          table[index][firstPage].prot == Writable
      requires firstPage * PAGE_SIZE + start < |view[index]|
      requires firstPage * PAGE_SIZE + start + len <= |view[index]|
      modifies Repr
      ensures Valid() && old(Repr) <= Repr && fresh(Repr - old(Repr)) && SameSlots()
      ensures view == old(view)[index := view[index]]
      ensures view[index] == Splice(old(view)[index], firstPage * PAGE_SIZE + start, src[..if len == 0 then 1 else len])
      ensures old(OnlyOpen(index, firstPage)) ==> AllClosed()
    {
      hide TlsLibrary.PagesValid, TlsLibrary.ArraysValid;
      var pageNum: nat, startWrite: nat, count: nat, strTrack: nat := firstPage, start, 0, 0;
      ghost var at, before := firstPage * PAGE_SIZE + start, view[index];
      assert Splice(before, at, src[..0]) == before;
      var more := true;
      while more
        invariant Valid() && old(Repr) <= Repr && fresh(Repr - old(Repr)) && SameSlots()
        invariant strTrack <= |src| &&
            (if more then strTrack < |src| && (strTrack == 0 || strTrack < len) else strTrack == if len == 0 then 1
            else len)
        invariant pageNum < |table[index]| && startWrite + count <= PAGE_SIZE
        invariant pageNum * PAGE_SIZE + startWrite + count == at + strTrack <= |before|
        invariant table[index][pageNum] in Repr && table[index][pageNum].refCount == 1 &&
            table[index][pageNum].prot == Writable
        invariant view[index] == Splice(before, at, src[..strTrack])
        invariant |view| == |old(view)| && forall i | 0 <= i < |view| && i != index :: view[i] == old(view)[i]
        invariant old(OnlyOpen(index, firstPage)) ==> OnlyOpen(index, pageNum)
        decreases |src| - strTrack
      {
        pageNum, startWrite, count := WriteByte(src, strTrack, index, pageNum, startWrite, count, before, at);
        strTrack := strTrack + 1;
        more := strTrack < len;
      }
      ClosePage(index, pageNum);
    }

    /** `boundaryWrite`. */
    method BoundaryWrite(src: seq<byte>, firstPage: nat, index: nat, start: nat) returns (r: int)
      requires Valid() && index < MAX_THREADS && firstPage < |table[index]| && start < PAGE_SIZE
      requires Strlen(src) < |src|
      requires table[index][firstPage].refCount == 1 && table[index][firstPage].prot == Writable
      modifies Repr
      ensures Valid() && old(Repr) <= Repr && fresh(Repr - old(Repr)) && SameSlots()
      ensures r == if firstPage * PAGE_SIZE + start + Strlen(src) > |old(view)[index]| then -1 else 0
      ensures r == -1 ==> view == old(view) && PageAt(index, firstPage).prot == Writable
      ensures r == -1 && old(OnlyOpen(index, firstPage)) ==> OnlyOpen(index, firstPage)
      ensures r == 0 ==> view == old(view)[index := view[index]]
      ensures r == 0 ==> view[index] == Splice(old(view)[index], firstPage * PAGE_SIZE + start, StringBytes(src))
      ensures r == 0 && old(OnlyOpen(index, firstPage)) ==> AllClosed()
    {
      var len := Strlen(src);
      var fits := ScanPages(firstPage, ttpArray[index].tls.value.pages.Length, len, start);
      if !fits {
        return -1;
      }
      WritePages(src, firstPage, index, start, len);
      return 0;
    }

    /** A write that stays inside the open page: copy, then close the page. */
    method StoreAndClose(index: nat, j: nat, d: nat, src: seq<byte>)
      requires Valid() && index < MAX_THREADS && j < |table[index]| && d + |src| <= PAGE_SIZE
      requires PageAt(index, j).refCount == 1 && PageAt(index, j).prot == Writable
      modifies this`view, PageAt(index, j)
      ensures Valid() && SameSlots() && Repr == old(Repr)
      ensures view == old(view)[index := view[index]]
      ensures view[index] == Splice(old(view)[index], j * PAGE_SIZE + d, src)
      ensures old(OnlyOpen(index, j)) ==> AllClosed()
    {
      Store(index, j, d, src);
      ClosePage(index, j);
    }

    /** The part of `tls_write` under the lock: the first page is made private and opened, then
        the bytes go there alone or across the following pages. */
    method WriteAt(index: nat, pageNum: nat, rem: nat, length: nat, buffer: seq<byte>) returns (r: int)
      requires Valid() && index < MAX_THREADS && pageNum < |table[index]| && rem < PAGE_SIZE
      requires length <= |buffer| && (rem + length > PAGE_SIZE ==> Strlen(buffer) < |buffer|)
      modifies Repr
      ensures Valid() && old(Repr) <= Repr && fresh(Repr - old(Repr)) && SameSlots()
      ensures r == if rem + length > PAGE_SIZE &&
          pageNum * PAGE_SIZE + rem + Strlen(buffer) > |old(view)[index]| then -1 else 0
      ensures r == -1 ==> view == old(view)
      ensures r == 0 ==> view == old(view)[index := view[index]]
      ensures r == 0 ==>
          view[index] == Splice(old(view)[index], pageNum * PAGE_SIZE + rem,
                                if rem + length > PAGE_SIZE then StringBytes(buffer) else buffer[..length])
      ensures r == 0 && old(AllClosed()) ==> AllClosed()
      ensures r == -1 && old(AllClosed()) ==> LeftOpen(index, pageNum, Writable)
    {
      hide TlsLibrary.PagesValid, TlsLibrary.ArraysValid;
      OpenForWrite(index, pageNum);
      if rem + length > PAGE_SIZE {
        r := BoundaryWrite(buffer, pageNum, index, rem);
      } else {
        StoreAndClose(index, pageNum, rem, buffer[..length]);
        r := 0;
      }
    }

    /** The slot of a known thread: its storage in the map, and what replacing it does. */
    lemma SlotStorage(i: nat, v: seq<byte>)
      requires Valid() && i < MAX_THREADS && ttpArray[i].tls.Some?
      ensures ttpArray[i].tid in Abs().store && Abs().store[ttpArray[i].tid] == view[i]
      ensures |view[i]| == |table[i]| * PAGE_SIZE && ttpArray[i].tls.value.pages[..] == table[i]
      ensures StoreOf(ttpArray[..], view[i := v]) == Abs().store[ttpArray[i].tid := v]
    {
      StoreAt(ttpArray[..], view, i, v, maxIndex, firstCall);
    }

    /** `tls_write` once the slot of the caller is known to hold a storage. */
    method WriteFound(index: nat, offset: nat, length: nat, buffer: seq<byte>) returns (r: int)
      requires Valid() && index < MAX_THREADS && ttpArray[index].tls.Some?
      requires Suits(Abs(), ttpArray[index].tid, TlsModel.Write(offset, length, buffer))
      modifies Repr
      ensures Valid() && old(Repr) <= Repr && fresh(Repr - old(Repr))
      ensures Abs() == Act(old(Abs()), old(ttpArray[index].tid), TlsModel.Write(offset, length, buffer)).0
      ensures r == Act(old(Abs()), old(ttpArray[index].tid), TlsModel.Write(offset, length, buffer)).1.code
      ensures r == 0 && old(AllClosed()) ==> AllClosed()
      ensures ttpArray[..] == old(ttpArray[..]) && ttpArray[index].tid in old(Abs()).store
      ensures r == -1 && old(AllClosed()) ==>
        if length <= |old(Abs()).store[ttpArray[index].tid]| then LeftOpen(index, offset / PAGE_SIZE, Writable)
            else AllClosed()
    {
      hide TlsLibrary.PagesValid, TlsLibrary.ArraysValid, SlotsValid;
      var tls := ttpArray[index].tls.value;
      SlotStorage(index, view[index]);
      if length > tls.pages.Length * PAGE_SIZE {
        return -1;
      }
      var pageNum := offset / PAGE_SIZE;
      r := WriteAt(index, pageNum, offset - pageNum * PAGE_SIZE, length, buffer);
      WriteMeaning(ttpArray[..], maxIndex, firstCall, old(view), view, index, offset, length, buffer, r);
    }

    /** `tls_write`. A failing page-crossing write leaves its first page private and open. */
    method Write(self: Tid, offset: nat, length: nat, buffer: seq<byte>) returns (r: int)
      requires Valid() && Admissible(Abs(), self, TlsModel.Write(offset, length, buffer))
      modifies Repr
      ensures Valid() && old(Repr) <= Repr && fresh(Repr - old(Repr))
      ensures Abs() == Apply(old(Abs()), self, TlsModel.Write(offset, length, buffer)).0
      ensures r == Apply(old(Abs()), self, TlsModel.Write(offset, length, buffer)).1.code
      ensures r == 0 && old(AllClosed()) ==> AllClosed()
      ensures r == -1 && old(AllClosed()) ==>
        if self in old(Abs()).store && length <= |old(Abs()).store[self]|
        then exists i :: 0 <= i < MAX_THREADS && Holds(ttpArray[i], self) && LeftOpen(i, offset / PAGE_SIZE, Writable)
        else AllClosed()
    {
      hide TlsLibrary.PagesValid, TlsLibrary.ArraysValid, SlotsValid;
      var index := FindIndex(self);
      if ttpArray[index].tls.None? {
        return -1;
      }
      r := WriteFound(index, offset, length, buffer);
    }

    /** One byte of `memcpy` out of an open page. */
    method Load(index: nat, j: nat, d: nat) returns (b: byte)
      requires Valid() && index < MAX_THREADS && j < |table[index]| && d < PAGE_SIZE
      requires PageAt(index, j).prot != NoAccess
      ensures j * PAGE_SIZE + d < |view[index]| && b == view[index][j * PAGE_SIZE + d]
    {
      b := ttpArray[index].tls.value.pages[j].bytes[d];
    }

    /** Opens the page at (index, j) for reading. */
    method OpenForRead(index: nat, j: nat)
      requires Valid() && index < MAX_THREADS && j < |table[index]|
      modifies PageAt(index, j)`prot
      ensures Valid() && Abs() == old(Abs()) && PageAt(index, j).prot == Readable
      ensures old(AllClosed()) ==> OnlyOpen(index, j)
    {
      Protect(ttpArray[index].tls.value.pages[j], Readable);
    }

    /** Closes page `j` and opens the next page of the same storage. */
    method NextForRead(index: nat, j: nat)
      requires Valid() && index < MAX_THREADS && j + 1 < |table[index]|
      modifies PageAt(index, j)`prot, PageAt(index, j + 1)`prot
      ensures Valid() && PageAt(index, j + 1) in Repr && PageAt(index, j + 1).prot == Readable
      ensures old(OnlyOpen(index, j)) ==> OnlyOpen(index, j + 1)
    {
      ClosePage(index, j);
      OpenForRead(index, j + 1);
    }

    /** One round of the reading loop: turns to the next page at the end of the current one,
        then reads a byte. */
    method ReadByte(index: nat, pageNum: nat, startRead: nat, count: nat)
      returns (b: byte, pageNum': nat, startRead': nat, count': nat)
      requires Valid() && index < MAX_THREADS && pageNum < |table[index]|
      requires PageAt(index, pageNum) in Repr && PageAt(index, pageNum).prot != NoAccess
      requires startRead + count <= PAGE_SIZE && pageNum * PAGE_SIZE + startRead + count < |view[index]|
      modifies Repr
      ensures Valid() && SameSlots() && Repr == old(Repr) && view == old(view)
      ensures b == view[index][pageNum * PAGE_SIZE + startRead + count]
      ensures pageNum' < |table[index]| && startRead' + count' <= PAGE_SIZE
      ensures PageAt(index, pageNum') in Repr && PageAt(index, pageNum').prot != NoAccess
      ensures pageNum' * PAGE_SIZE + startRead' + count' == pageNum * PAGE_SIZE + startRead + count + 1
      ensures old(OnlyOpen(index, pageNum)) ==> OnlyOpen(index, pageNum')
    {
      hide TlsLibrary.PagesValid, TlsLibrary.ArraysValid, SlotsValid;
      PagesInRepr(index);
      pageNum', startRead', count' := pageNum, startRead, count;
      var endPage := PAGE_SIZE;
      if startRead + count >= endPage {
        NextForRead(index, pageNum);
        pageNum', startRead', count' := pageNum + 1, 0, 0;
      }
      b := Load(index, pageNum', startRead' + count');
      count' := count' + 1;
    }

    /** The copying loop of `boundaryRead`, for a range that fits. */
    method ReadPages(dest: array<byte>, firstPage: nat, len: nat, index: nat, start: nat)
      requires Valid() && index < MAX_THREADS && firstPage < |table[index]| && start < PAGE_SIZE
      requires 0 < len <= dest.Length && dest !in Repr
      requires PageAt(index, firstPage) in Repr && PageAt(index, firstPage).prot == Readable
      requires firstPage * PAGE_SIZE + start + len <= |view[index]|
      modifies Repr, dest
      ensures Valid() && SameSlots() && Repr == old(Repr) && view == old(view)
      ensures dest[..] == view[index][firstPage * PAGE_SIZE + start..firstPage * PAGE_SIZE + start + len] +
          old(dest[len..])
      ensures old(OnlyOpen(index, firstPage)) ==> AllClosed()
    {
      hide TlsLibrary.PagesValid, TlsLibrary.ArraysValid, SlotsValid;
      var pageNum: nat, startRead: nat, count: nat, strTrack: nat := firstPage, start, 0, 0;
      ghost var at := firstPage * PAGE_SIZE + start;
      while strTrack < len
        invariant Valid() && SameSlots() && Repr == old(Repr) && view == old(view)
        invariant strTrack <= len && pageNum < |table[index]| && startRead + count <= PAGE_SIZE
        invariant pageNum * PAGE_SIZE + startRead + count == at + strTrack
        invariant PageAt(index, pageNum) in Repr && PageAt(index, pageNum).prot != NoAccess
        invariant forall k | 0 <= k < strTrack :: dest[k] == view[index][at + k]
        invariant forall k | strTrack <= k < dest.Length :: dest[k] == old(dest[k])
        invariant old(OnlyOpen(index, firstPage)) ==> OnlyOpen(index, pageNum)
      {
        var b;
        b, pageNum, startRead, count := ReadByte(index, pageNum, startRead, count);
        dest[strTrack] := b;
        strTrack := strTrack + 1;
      }
      ClosePage(index, pageNum);
    }

    /** `boundaryRead`. */
    method BoundaryRead(dest: array<byte>, firstPage: nat, len: nat, index: nat, start: nat) returns (r: int)
      requires Valid() && index < MAX_THREADS && firstPage < |table[index]| && start < PAGE_SIZE
      requires 0 < len <= dest.Length && dest !in Repr && PageAt(index, firstPage).prot == Readable
      modifies Repr, dest
      ensures Valid() && SameSlots() && Repr == old(Repr) && view == old(view)
      ensures r == if firstPage * PAGE_SIZE + start + len > |view[index]| then -1 else 0
      ensures r == -1 ==> dest[..] == old(dest[..]) && PageAt(index, firstPage).prot == Readable
      ensures r == -1 && old(OnlyOpen(index, firstPage)) ==> OnlyOpen(index, firstPage)
      ensures r == 0 ==>
          dest[..] == view[index][firstPage * PAGE_SIZE + start..firstPage * PAGE_SIZE + start + len] + old(dest[len..])
      ensures r == 0 && old(OnlyOpen(index, firstPage)) ==> AllClosed()
    {
      var fits := ScanPages(firstPage, ttpArray[index].tls.value.pages.Length, len, start);
      if !fits {
        return -1;
      }
      ReadPages(dest, firstPage, len, index, start);
      return 0;
    }

    /** A read that stays inside the open page: copy, then close the page. */
    method LoadAndClose(dest: array<byte>, index: nat, j: nat, d: nat, len: nat)
      requires Valid() && index < MAX_THREADS && j < |table[index]| && d + len <= PAGE_SIZE
      requires len <= dest.Length && dest !in Repr && PageAt(index, j).prot != NoAccess
      modifies PageAt(index, j)`prot, dest
      ensures Valid() && SameSlots() && view == old(view)
      ensures j * PAGE_SIZE + d + len <= |view[index]|
      ensures dest[..] == view[index][j * PAGE_SIZE + d..j * PAGE_SIZE + d + len] + old(dest[len..])
      ensures old(OnlyOpen(index, j)) ==> AllClosed()
    {
      var page := ttpArray[index].tls.value.pages[j];
      assert page.bytes == Chunk(view[index], j);
      ChunkSlice(view[index], j, d, len);
      hide TlsLibrary.PagesValid, TlsLibrary.ArraysValid, SlotsValid;
      CopyOut(page, d, len, dest);
      ClosePage(index, j);
    }

    /** The part of `tls_read` under the lock. */
    method ReadAt(dest: array<byte>, index: nat, pageNum: nat, rem: nat, length: nat) returns (r: int)
      requires Valid() && index < MAX_THREADS && pageNum < |table[index]| && rem < PAGE_SIZE
      requires length <= dest.Length && dest !in Repr
      modifies Repr, dest
      ensures Valid() && SameSlots() && Repr == old(Repr) && view == old(view)
      ensures r == if rem + length > PAGE_SIZE && pageNum * PAGE_SIZE + rem + length > |view[index]| then -1 else 0
      ensures r == -1 ==> dest[..] == old(dest[..])
      ensures r == 0 ==> pageNum * PAGE_SIZE + rem + length <= |view[index]|
      ensures r == 0 ==>
          dest[..] == view[index][pageNum * PAGE_SIZE + rem..pageNum * PAGE_SIZE + rem + length] + old(dest[length..])
      ensures r == 0 && old(AllClosed()) ==> AllClosed()
      ensures r == -1 && old(AllClosed()) ==> LeftOpen(index, pageNum, Readable)
    {
      assert PageAt(index, pageNum) in Repr;
      hide TlsLibrary.PagesValid, TlsLibrary.ArraysValid, SlotsValid;
      OpenForRead(index, pageNum);
      if rem + length > PAGE_SIZE {
        r := BoundaryRead(dest, pageNum, length, index, rem);
      } else {
        LoadAndClose(dest, index, pageNum, rem, length);
        r := 0;
      }
    }

    /** `tls_read` once the slot of the caller is known to hold a storage. */
    method ReadFound(dest: array<byte>, index: nat, offset: nat, length: nat) returns (r: int)
      requires Valid() && index < MAX_THREADS && ttpArray[index].tls.Some?
      requires Suits(Abs(), ttpArray[index].tid, TlsModel.Read(offset, length))
      requires length <= dest.Length && dest !in Repr
      modifies Repr, dest
      ensures Valid() && Repr == old(Repr) && ttpArray[..] == old(ttpArray[..]) &&
          ttpArray[index].tid in old(Abs()).store
      ensures Abs() == Act(old(Abs()), ttpArray[index].tid, TlsModel.Read(offset, length)).0
      ensures r == Act(old(Abs()), ttpArray[index].tid, TlsModel.Read(offset, length)).1.code
      ensures dest[..] == var data :=
          Act(old(Abs()), ttpArray[index].tid, TlsModel.Read(offset, length)).1.data; data + old(dest[..])[|data|..]
      ensures r == 0 && old(AllClosed()) ==> AllClosed()
      ensures r == -1 && old(AllClosed()) ==>
        if length <= |old(Abs()).store[ttpArray[index].tid]| then LeftOpen(index, offset / PAGE_SIZE, Readable)
            else AllClosed()
    {
      hide TlsLibrary.PagesValid, TlsLibrary.ArraysValid, SlotsValid;
      var tls := ttpArray[index].tls.value;
      SlotStorage(index, view[index]);
      if length > tls.pages.Length * PAGE_SIZE {
        return -1;
      }
      var pageNum := offset / PAGE_SIZE;
      r := ReadAt(dest, index, pageNum, offset - pageNum * PAGE_SIZE, length);
    }

    /** `tls_read`. */
    method Read(self: Tid, offset: nat, length: nat, dest: array<byte>) returns (r: int)
      requires Valid() && Admissible(Abs(), self, TlsModel.Read(offset, length))
      requires length <= dest.Length && dest !in Repr
      modifies Repr, dest
      ensures Valid() && Repr == old(Repr)
      ensures Abs() == Apply(old(Abs()), self, TlsModel.Read(offset, length)).0
      ensures r == Apply(old(Abs()), self, TlsModel.Read(offset, length)).1.code
      ensures dest[..] == var data := Apply(old(Abs()), self, TlsModel.Read(offset, length)).1.data;
          data + old(dest[..])[|data|..]
      ensures r == 0 && old(AllClosed()) ==> AllClosed()
      ensures r == -1 && old(AllClosed()) ==>
        if self in old(Abs()).store && length <= |old(Abs()).store[self]|
        then exists i :: 0 <= i < MAX_THREADS && Holds(ttpArray[i], self) && LeftOpen(i, offset / PAGE_SIZE, Readable)
        else AllClosed()
    {
      hide TlsLibrary.PagesValid, TlsLibrary.ArraysValid, SlotsValid;
      var index := FindIndex(self);
      if ttpArray[index].tls.None? {
        return -1;
      }
      r := ReadFound(dest, index, offset, length);
    }

    /** The page loop of `tls_create`. */
    method NewPages(n: nat) returns (row: seq<Page>)
      ensures |row| == n && fresh(row)
      ensures forall j, k | 0 <= j < k < n :: row[j] != row[k]
      ensures forall j | 0 <= j < n ::
          row[j].bytes == Zeros(PAGE_SIZE) && row[j].refCount == 1 && row[j].prot == NoAccess
    {
      row := [];
      for i := 0 to n
        invariant |row| == i && fresh(row)
        invariant forall j, k | 0 <= j < k < i :: row[j] != row[k]
        invariant forall j | 0 <= j < i ::
            row[j].bytes == Zeros(PAGE_SIZE) && row[j].refCount == 1 && row[j].prot == NoAccess
      {
        var pg := new Page(NoAccess);
        row := row + [pg];
      }
    }

    /** Slot `index` has been filled with a storage; the pages of the others are as before up to
        their reference counts. */
    twostate predicate Filled(index: nat)
      reads this, Repr
    {
      && old(Valid()) && index < old(maxIndex) && this in Repr && ttpArray in Repr && old(Repr) <= Repr
      && maxIndex == old(maxIndex) && firstCall == old(firstCall)
      && CanFill(old(ttpArray[..]), index, ttpArray[index], maxIndex)
      && ttpArray[..] == old(ttpArray[..])[index := ttpArray[index]]
      && ttpArray[index].tls.value.pages in Repr
      && |table| == |old(table)| == |view|
      && table[index] == ttpArray[index].tls.value.pages[..]
      && table == old(table)[index := table[index]] && view == old(view)[index := view[index]]
      && |view[index]| == |table[index]| * PAGE_SIZE
      && (forall a: array<Page> | a in old(Repr) :: a[..] == old(a[..]))
      && (forall p: Page | p in old(Repr) :: p.bytes == old(p.bytes))
    }

    twostate lemma FillKeepsArrays(index: nat)
      requires Filled(index)
      ensures ArraysValid() && SlotsValid(ttpArray[..], maxIndex, firstCall)
      ensures StoreOf(ttpArray[..], view) == old(Abs()).store[ttpArray[index].tid := view[index]]
    {
      FillSlot(old(ttpArray[..]), old(view), index, ttpArray[index], view[index], maxIndex, firstCall);
      forall i | 0 <= i < ttpArray.Length && i != index && ttpArray[i].tls.Some?
        ensures ttpArray[i].tls.value.pages[..] == table[i]
      {
        assert ttpArray[i] == old(ttpArray[i]);
        assert ttpArray[i].tls.value.pages in old(Repr);
      }
    }

    twostate predicate FreshRow(index: nat)
      reads this, Repr
    {
      && Filled(index) && view[index] == Zeros(|table[index]| * PAGE_SIZE)
      && (forall j, k | 0 <= j < k < |table[index]| :: table[index][j] != table[index][k])
      && (forall j | 0 <= j < |table[index]| :: table[index][j] in Repr - old(Repr))
      && (forall j | 0 <= j < |table[index]| :: table[index][j].bytes == Zeros(PAGE_SIZE) &&
            table[index][j].refCount == 1 && table[index][j].prot == NoAccess)
      && (forall p: Page | p in old(Repr) :: p.refCount == old(p.refCount) && p.prot == old(p.prot))
    }

    twostate lemma CreateKeepsPages(index: nat)
      requires FreshRow(index) && ArraysValid() && SlotsValid(ttpArray[..], maxIndex, firstCall)
      ensures Valid()
      ensures old(AllClosed()) ==> AllClosed()
    {
      CreateOwners(old(table), index, table[index]);
      ZeroChunks(|table[index]|);
      forall k, l | 0 <= k < |table| && 0 <= l < |table[k]|
        ensures table[k][l] in Repr
        ensures table[k][l].bytes == Chunk(view[k], l)
        ensures table[k][l].refCount == |Owners(table, table[k][l])|
        ensures old(AllClosed()) ==> table[k][l].prot == NoAccess
      {
        if k != index {
          assert table[k] == old(table)[k] && table[k][l] in old(Repr);
        }
      }
    }

    /** Fills slot `index` with a storage whose page pointers are `row`. */
    method Install(index: nat, self: Tid, size: nat, row: seq<Page>, ghost bytes: seq<byte>)
      requires this in Repr && ttpArray in Repr && index < ttpArray.Length == |table| == |view|
      modifies this`table, this`view, this`Repr, ttpArray
      ensures ttpArray[..] == old(ttpArray[..])[index := ttpArray[index]]
      ensures ttpArray[index].tls.Some? &&
          ttpArray[index] == Slot(self, Some(Storage(self, size, ttpArray[index].tls.value.pages)))
      ensures fresh(ttpArray[index].tls.value.pages) && ttpArray[index].tls.value.pages[..] == row
      ensures table == old(table)[index := row] && view == old(view)[index := bytes]
      ensures Repr == old(Repr) + {ttpArray[index].tls.value.pages} + set p | p in row
    {
      var pages := new Page[|row|](j requires 0 <= j < |row| => row[j]);
      ttpArray[index] := Slot(self, Some(Storage(self, size, pages)));
      table, view := table[index := row], view[index := bytes];
      Repr := Repr + {pages} + set p | p in row;
    }

    lemma NotHeld(t: Tid)
      requires Valid() && t !in Abs().store
      ensures forall s | s in ttpArray[..] :: !Holds(s, t)
    {
      if k :| 0 <= k < ttpArray.Length && Holds(ttpArray[k], t) {
        SlotStorage(k, view[k]);
      }
    }

    lemma PagesInRepr(e: nat)
      requires Valid() && e < MAX_THREADS
      ensures forall p: Page | p in table[e] :: p in Repr
      ensures |table| == |view| == MAX_THREADS && |view[e]| == |table[e]| * PAGE_SIZE
    {}

    /** `tls_create` in the empty slot the lookup handed out. */
    method CreateAt(index: nat, self: Tid, size: nat, numOfPages: nat)
      requires Valid() && index < maxIndex < MAX_THREADS && ttpArray[index] == EMPTY && self !in {0, -1} &&
          self !in Abs().store
      modifies Repr
      ensures Valid() && old(Repr) <= Repr && fresh(Repr - old(Repr))
      ensures Abs() == old(Abs()).(store := old(Abs()).store[self := Zeros(numOfPages * PAGE_SIZE)])
      ensures old(AllClosed()) ==> AllClosed()
    {
      hide SlotsValid, TlsLibrary.PagesValid, TlsLibrary.ArraysValid;
      NotHeld(self);
      var row := NewPages(numOfPages);
      Install(index, self, size, row, Zeros(numOfPages * PAGE_SIZE));
      assert FreshRow(index);
      FillKeepsArrays(index);
      CreateKeepsPages(index);
    }

    /** The page loop of `tls_clone`: takes over the pointers of slot `e` and counts each one. */
    method SharePages(e: nat) returns (row: seq<Page>)
      requires Valid() && e < MAX_THREADS && ttpArray[e].tls.Some?
      modifies set p: Page | p in table[e]
      ensures row == table[e]
      ensures forall p: Page | p in old(Repr) ::
        p.bytes == old(p.bytes) && p.prot == old(p.prot) && p.refCount == old(p.refCount) + if p in table[e] then 1
            else 0
    {
      row := [];
      ghost var source := table[e];
      assert forall j, k | 0 <= j < k < |source| :: source[j] != source[k];
      assert forall j | 0 <= j < |source| :: source[j] in Repr;
      assert source == ttpArray[e].tls.value.pages[..];
      for i := 0 to ttpArray[e].tls.value.pages.Length
        invariant row == source[..i]
        invariant forall p: Page | p in old(Repr) ::
          p.bytes == old(p.bytes) && p.prot == old(p.prot) &&
              p.refCount == old(p.refCount) + if p in source[..i] then 1 else 0
      {
        var p := ttpArray[e].tls.value.pages[i];
        row := row + [p];
        p.refCount := p.refCount + 1;
        assert source[..i + 1] == source[..i] + [p];
      }
    }

    twostate predicate SharedRow(at: (nat, nat))
      reads this, Repr
    {
      && Filled(at.0) && at.1 < |table| && at.1 != at.0 && table[at.0] == table[at.1] && view[at.0] == view[at.1]
      && (forall p: Page | p in old(Repr) ::
           p.prot == old(p.prot) && p.refCount == old(p.refCount) + if p in old(table)[at.1] then 1 else 0)
    }

    twostate lemma CloneKeepsPages(at: (nat, nat))
      requires SharedRow(at) && ArraysValid() && SlotsValid(ttpArray[..], maxIndex, firstCall)
      ensures Valid()
      ensures old(AllClosed()) ==> AllClosed()
    {
      var (c, e) := at;
      var row := old(table)[e];
      assert table == old(table)[c := row];
      forall k, l | 0 <= k < |table| && 0 <= l < |table[k]|
        ensures table[k][l] in Repr
        ensures table[k][l].bytes == Chunk(view[k], l)
        ensures table[k][l].refCount == |Owners(table, table[k][l])|
        ensures old(AllClosed()) ==> table[k][l].prot == NoAccess
      {
        var i := if k == c then e else k;
        var p := old(table)[i][l];
        assert p == table[k][l] && p in old(Repr);
        if p in row {
          var j :| 0 <= j < |row| && row[j] == p;
          CloneGainsOwner(old(table), c, e, j);
        } else {
          CloneKeepsOwners(old(table), c, e, p);
        }
      }
    }

    static lemma NothingNew(known: set<object>, row: seq<Page>)
      requires forall p | p in row :: p in known
      ensures known + (set p | p in row) == known
    {}

    /** Slot `index` takes over the page pointers of slot `e`, whose counts grow. */
    method ShareInto(index: nat, self: Tid, e: nat)
      requires Valid() && index < maxIndex < MAX_THREADS && ttpArray[index] == EMPTY && self !in {0, -1}
      requires forall s | s in ttpArray[..] :: !Holds(s, self)
      requires e < MAX_THREADS && ttpArray[e].tls.Some?
      modifies Repr
      ensures SharedRow((index, e)) && ttpArray[index].tid == self && view[index] == old(view)[e]
      ensures Repr == old(Repr) + {ttpArray[index].tls.value.pages} && fresh(Repr - old(Repr))
    {
      hide SlotsValid, TlsLibrary.PagesValid, TlsLibrary.ArraysValid, CanFill, SameIndexSharing, StoreOf,
          TlsLibrary.Abs;
      SlotStorage(e, view[e]);
      PagesInRepr(e);
      var size := ttpArray[e].tls.value.size;
      var row := SharePages(e);
      Install(index, self, size, row, view[e]);
      NothingNew(old(Repr) + {ttpArray[index].tls.value.pages}, row);
      FreshStorage(old(ttpArray[..]), index, ttpArray[index], maxIndex);
    }

    /** `tls_clone` into the empty slot the lookup handed out. */
    method CloneAt(index: nat, self: Tid, e: nat)
      requires Valid() && index < maxIndex < MAX_THREADS && ttpArray[index] == EMPTY && self !in {0, -1} &&
          self !in Abs().store
      requires e < MAX_THREADS && ttpArray[e].tls.Some?
      modifies Repr
      ensures Valid() && old(Repr) <= Repr && fresh(Repr - old(Repr))
      ensures old(ttpArray[e].tid) in old(Abs()).store
      ensures Abs() == old(Abs()).(store := old(Abs()).store[self := old(Abs()).store[old(ttpArray[e].tid)]])
      ensures old(AllClosed()) ==> AllClosed()
    {
      hide SlotsValid, TlsLibrary.PagesValid, TlsLibrary.ArraysValid;
      NotHeld(self);
      SlotStorage(e, view[e]);
      ShareInto(index, self, e);
      FillKeepsArrays(index);
      CloneKeepsPages((index, e));
    }

    /** `tls_create`. */
    method Create(self: Tid, size: nat) returns (r: int)
      requires Valid() && Admissible(Abs(), self, TlsModel.Create(size))
      modifies Repr
      ensures Valid() && old(Repr) <= Repr && fresh(Repr - old(Repr))
      ensures Abs() == Apply(old(Abs()), self, TlsModel.Create(size)).0
      ensures r == Apply(old(Abs()), self, TlsModel.Create(size)).1.code
      ensures r == if size > 0 && self !in old(Abs()).store then 0 else -1
      ensures old(AllClosed()) ==> AllClosed()
    {
      hide TlsLibrary.PagesValid, TlsLibrary.ArraysValid, SlotsValid;
      var index := FindIndex(self);
      var numOfPages := RoundUp(size, PAGE_SIZE);
      if size <= 0 {
        return -1;
      } else if ttpArray[index].tls.Some? {
        return -1;
      }
      CreateAt(index, self, size, numOfPages);
      return 0;
    }

    /** `tls_clone`. */
    method Clone(self: Tid, target: Tid) returns (r: int)
      requires Valid() && Admissible(Abs(), self, TlsModel.Clone(target))
      modifies Repr
      ensures Valid() && old(Repr) <= Repr && fresh(Repr - old(Repr))
      ensures Abs() == Apply(old(Abs()), self, TlsModel.Clone(target)).0
      ensures r == Apply(old(Abs()), self, TlsModel.Clone(target)).1.code
      ensures r == if self !in old(Abs()).store && target in old(Abs()).store then 0 else -1
      ensures old(AllClosed()) ==> AllClosed()
    {
      hide TlsLibrary.PagesValid, TlsLibrary.ArraysValid, SlotsValid, SameIndexSharing, StoreOf, TlsLibrary.AllClosed;
      var clonerIndex := FindIndex(self);
      var cloneeIndex := FindIndex(target);
      if ttpArray[clonerIndex].tls.Some? {
        return -1;
      } else if ttpArray[cloneeIndex].tls.None? {
        return -1;
      }
      CloneAt(clonerIndex, self, cloneeIndex);
      return 0;
    }
  }

  /** One call on the library, with a fresh buffer for a read. */
  method Perform(lib: TlsLibrary, e: Event) returns (r: Reply)
    requires lib.Valid() && Admissible(lib.Abs(), e.self, e.call)
    modifies lib.Repr
    ensures lib.Valid() && old(lib.Repr) <= lib.Repr && fresh(lib.Repr - old(lib.Repr))
    ensures (lib.Abs(), r) == Apply(old(lib.Abs()), e.self, e.call)
  {
    hide TlsLibrary.PagesValid, TlsLibrary.ArraysValid, SlotsValid, TlsLibrary.Valid, TlsLibrary.Abs;
    match e.call
    case Create(size) =>
      var code := lib.Create(e.self, size);
      r := Reply(code, []);
    case Clone(target) =>
      var code := lib.Clone(e.self, target);
      r := Reply(code, []);
    case Write(offset, length, buffer) =>
      var code := lib.Write(e.self, offset, length, buffer);
      r := Reply(code, []);
    case Read(offset, length) =>
      var dest := new byte[length];
      var code := lib.Read(e.self, offset, length, dest);
      ghost var data := Apply(old(lib.Abs()), e.self, e.call).1.data;
      assert code == 0 ==> dest[..] == data;
      r := Reply(code, if code == 0 then dest[..] else []);
  }

  /** Refinement: over every sequence of calls, the aliased, reference-counted pages behave as
      the map in which a clone is a deep copy, replies included. */
  method RefinesDeepCopy(lib: TlsLibrary, es: seq<Event>) returns (replies: seq<Reply>)
    requires lib.Valid() && Playable(lib.Abs(), es)
    modifies lib.Repr
    ensures lib.Valid()
    ensures (lib.Abs(), replies) == Play(old(lib.Abs()), es)
  {
    hide TlsLibrary.PagesValid, TlsLibrary.ArraysValid, SlotsValid, TlsLibrary.Valid, TlsLibrary.Abs;
    replies := [];
    for i := 0 to |es|
      invariant lib.Valid() && old(lib.Repr) <= lib.Repr && fresh(lib.Repr - old(lib.Repr))
      invariant Playable(old(lib.Abs()), es[..i])
      invariant (lib.Abs(), replies) == Play(old(lib.Abs()), es[..i])
    {
      PlayPrefix(old(lib.Abs()), es, i + 1);
      assert es[..i + 1] == es[..i] + [es[i]];
      PlayExtend(old(lib.Abs()), es[..i], es[i]);
      var r := Perform(lib, es[i]);
      replies := replies + [r];
    }
    assert es[..|es|] == es;
  }
}

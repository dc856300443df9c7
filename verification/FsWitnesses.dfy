/** Runs of the file system, from a closed disk on, in which it departs from its intent. */
module FsWitnesses {
  import opened Common
  import opened FsCodec
  import opened FsBitmap
  import opened FsModel
  import opened FsRuns
  import opened FsView
  import opened FsTheorems

  /** The program sees `v`. */
  predicate Sees(c: Config, v: View) {
    Inv(c) && EntriesSound(Image(c.s)) && ViewOf(c.s) == v
  }

  lemma Advance(c: Config, v: View, e: Event)
    requires Sees(c, v) && Legal(c.s, e)
    ensures Tidy(v) && Suits(v, e)
    ensures Sees(Step(c, e), ViewStep(v, e).0) && Call(c.s, e).1 == ViewStep(v, e).1
  {
    hide Inv, EntriesSound, ViewOf, ViewStep, Call;
    CallAgrees(c, e);
    StepKeepsInv(c, e);
  }

  /** A call through a descriptor that stays inside one block, as the view shows it. */
  predicate Stays(v: View, e: Event)
    requires Tidy(v)
  {
    match e
    case Write(fd, buf) => Usable(v, fd) && v.open[fd].value.offset / BLOCK_SIZE < 128 &&
        v.open[fd].value.offset % BLOCK_SIZE + |buf| <= BLOCK_SIZE
    case Read(fd, n) => Usable(v, fd) && v.open[fd].value.offset % BLOCK_SIZE + n <= BLOCK_SIZE
    case Seek(fd, _) => Usable(v, fd)
    case Size(fd) => Usable(v, fd)
    case _ => false
  }

  lemma StaysIsLegal(c: Config, v: View, e: Event)
    requires Sees(c, v) && Tidy(v) && Stays(v, e)
    ensures Legal(c.s, e)
  {
    hide Consistent, EntriesSound, FilesOf, NameOf, Decode, BlockFor;
  }

  predicate AllStay(v: View, es: seq<Event>)
    decreases |es|
  {
    Tidy(v) && (es == [] || (Stays(v, es[0]) && Suits(v, es[0]) && AllStay(ViewStep(v, es[0]).0, es[1..])))
  }

  /** Such calls can be made, and answer as the simple file system does. */
  lemma {:induction false} StaysRun(c: Config, v: View, es: seq<Event>)
    requires Sees(c, v) && AllStay(v, es)
    ensures IsRun(c, es) && Playable(v, es) && Replies(c, es) == Play(v, es).1
    decreases |es|
  {
    hide Sees, Legal, ViewStep, Stays, Call, Tidy, Suits;
    if es != [] {
      SeesLinked(c, v);
      StaysIsLegal(c, v, es[0]);
      Advance(c, v, es[0]);
      StaysRun(Step(c, es[0]), ViewStep(v, es[0]).0, es[1..]);
    }
  }

  lemma SeesLinked(c: Config, v: View)
    requires Sees(c, v)
    ensures Linked(c.s)
  {}

  lemma Prepend(c: Config, e: Event, es: seq<Event>)
    requires Linked(c.s) && Legal(c.s, e) && IsRun(Step(c, e), es)
    ensures IsRun(c, [e] + es) && Replies(c, [e] + es) == [Call(c.s, e).1] + Replies(Step(c, e), es)
    ensures After(c, [e] + es) == After(Step(c, e), es)
  {
    hide Legal, Linked, Step, Call;
    assert ([e] + es)[1..] == es;
  }

  const NAME: seq<byte> := [97]

  /** One file, open on descriptor 0. */
  function OneFile(data: Block, size: u16, offset: nat): View {
    View(true, map[NAME := File(data, size)], NoHandles()[0 := Some(Handle(NAME, offset))])
  }

  function NoHandles(): (open: seq<Option<Handle>>)
    ensures |open| == MAX_FDS
  {
    seq(MAX_FDS, _ => None)
  }

  /** On a newly made disk the blocks after block 0 are free. */
  lemma FreshBits()
    ensures forall j: nat | 1 <= j <= 4 :: !Bit(Fresh().bitmap, j)
  {
    hide Bit, SetBit;
    var bm := Cleared(SuperBlock(SB_SIZE, INODES_AT, DIRECTORY_AT)).bitmap;
    OneBitChanges(bm, 0, true);
    forall j: nat | 1 <= j <= 4 ensures !Bit(Fresh().bitmap, j) {
      ZeroBit(bm, j);
    }
  }

  lemma FreshHasRoom()
    ensures TwoClear(Fresh().bitmap)
  {
    hide Bit, Fresh;
    FreshBits();
    assert !Bit(Fresh().bitmap, 1) && !Bit(Fresh().bitmap, 2);
  }

  lemma MountedFresh(c: Config)
    requires Inv(c) && !c.s.ready && Image(c.s) == Fresh() && Sees(c, View(false, map[], NoHandles()))
    ensures Legal(c.s, Mount) && Call(c.s, Mount).1 == Reply(0, [])
    ensures Sees(Step(c, Mount), View(true, map[], NoHandles())) && Step(c, Mount).s.meta == Fresh()
  {
    hide Consistent, EntriesSound, ViewOf, Fresh, Decode, DescriptorsSound;
    Advance(c, View(false, map[], NoHandles()), Mount);
  }

  /** A file is created and opened, then the calls of `tail` are made. */
  lemma CreatedThen(c: Config, tailOfIndex: seq<byte>, tail: seq<Event>)
    requires Sees(c, View(true, map[], NoHandles())) && TwoClear(c.s.meta.bitmap) && |tailOfIndex| == BLOCK_SIZE - 512
    requires AllStay(OneFile(Zeros(BLOCK_SIZE), 0, 0), tail) && Playable(OneFile(Zeros(BLOCK_SIZE), 0, 0), tail)
    ensures var es := [Create(NAME, tailOfIndex)] + ([Open(NAME)] + tail);
            IsRun(c, es) && Replies(c, es) == [Reply(0, [])] +
                ([Reply(0, [])] + Play(OneFile(Zeros(BLOCK_SIZE), 0, 0), tail).1)
  {
    hide Sees, TwoClear, Legal, Linked, Step, Call, IsRun, Replies, AllStay, Playable, Play, OneFile;
    CreatesOne(c, tailOfIndex);
    var c2 := Step(c, Create(NAME, tailOfIndex));
    OpensOne(c2);
    StaysRun(Step(c2, Open(NAME)), OneFile(Zeros(BLOCK_SIZE), 0, 0), tail);
    Prepend(c2, Open(NAME), tail);
    Prepend(c, Create(NAME, tailOfIndex), [Open(NAME)] + tail);
  }

  lemma MakeIsLegal(c: Config, rest: seq<byte>)
    requires Unmounted(c.s) && |rest| == BLOCK_SIZE - META_SIZE
    ensures Linked(c.s) && Legal(c.s, Make(rest)) && Call(c.s, Make(rest)).1 == Reply(0, [])
    ensures var c0 := Step(c, Make(rest)); Inv(c0) && !c0.s.ready && Image(c0.s) == Fresh()
    ensures Sees(Step(c, Make(rest)), View(false, map[], NoHandles()))
  {
    hide Consistent, EntriesSound, ViewOf, Fresh, Decode, Encode;
    FreshView(c, rest);
    MakeEstablishesInv(c, rest);
  }

  /** The same from a closed disk on, whatever is on it. */
  lemma OpenedThen(c: Config, rest: seq<byte>, tailOfIndex: seq<byte>, tail: seq<Event>)
    requires Unmounted(c.s) && |rest| == BLOCK_SIZE - META_SIZE && |tailOfIndex| == BLOCK_SIZE - 512
    requires AllStay(OneFile(Zeros(BLOCK_SIZE), 0, 0), tail) && Playable(OneFile(Zeros(BLOCK_SIZE), 0, 0), tail)
    ensures var es := [Make(rest)] + ([Mount] + ([Create(NAME, tailOfIndex)] + ([Open(NAME)] + tail)));
            var done := Reply(0, []);
            IsRun(c, es) && Replies(c, es) == [done] +
                ([done] + ([done] + ([done] + Play(OneFile(Zeros(BLOCK_SIZE), 0, 0), tail).1)))
  {
    hide Inv, Sees, Image, Fresh, TwoClear, Legal, Linked, Step, Call, IsRun, Replies, AllStay, Playable, Play,
        OneFile, Unmounted;
    MakeIsLegal(c, rest);
    var c0 := Step(c, Make(rest));
    MountedFresh(c0);
    FreshHasRoom();
    SeesLinked(c0, View(false, map[], NoHandles()));
    var c1 := Step(c0, Mount);
    var more := [Create(NAME, tailOfIndex)] + ([Open(NAME)] + tail);
    CreatedThen(c1, tailOfIndex, tail);
    Prepend(c0, Mount, more);
    Prepend(c, Make(rest), [Mount] + more);
  }

  lemma CreatesOne(c: Config, tailOfIndex: seq<byte>)
    requires Sees(c, View(true, map[], NoHandles())) && TwoClear(c.s.meta.bitmap) && |tailOfIndex| == BLOCK_SIZE - 512
    ensures Linked(c.s) && Legal(c.s, Create(NAME, tailOfIndex)) &&
        Call(c.s, Create(NAME, tailOfIndex)).1 == Reply(0, [])
    ensures Sees(Step(c, Create(NAME, tailOfIndex)), View(true, map[NAME := File(Zeros(BLOCK_SIZE), 0)], NoHandles()))
  {
    hide Inv, EntriesSound, ViewOf, TwoClear;
    SeesLinked(c, View(true, map[], NoHandles()));
    Advance(c, View(true, map[], NoHandles()), Create(NAME, tailOfIndex));
  }

  lemma OpensOne(c: Config)
    requires Sees(c, View(true, map[NAME := File(Zeros(BLOCK_SIZE), 0)], NoHandles()))
    ensures Linked(c.s) && Legal(c.s, Open(NAME)) && Call(c.s, Open(NAME)).1 == Reply(0, [])
    ensures Sees(Step(c, Open(NAME)), OneFile(Zeros(BLOCK_SIZE), 0, 0))
  {
    hide Inv, EntriesSound, ViewOf;
    var v := View(true, map[NAME := File(Zeros(BLOCK_SIZE), 0)], NoHandles());
    SeesLinked(c, v);
    Advance(c, v, Open(NAME));
  }

  // ---------------------------------------------------------------- lost and overwritten bytes

  /** Play of one call and then more. */
  lemma PlayNext(v: View, e: Event, w: View, r: Reply, es: seq<Event>)
    requires Tidy(v) && Suits(v, e) && Stays(v, e) && ViewStep(v, e) == (w, r) && AllStay(w, es) && Playable(w, es)
    ensures AllStay(v, [e] + es) && Playable(v, [e] + es) && Play(v, [e] + es).1 == [r] + Play(w, es).1
  {
    hide Tidy, Suits, Stays, ViewStep;
    assert ([e] + es)[1..] == es;
  }

  /** The calls in which a byte is written at offset 4096, sought and read. */
  function LostByte(): seq<Event> {
    [Write(0, Zeros(BLOCK_SIZE))] + ([Write(0, [1])] + ([Seek(0, BLOCK_SIZE)] + ([Read(0, 1)] + [])))
  }

  lemma LostByteSeen()
    ensures var v := OneFile(Zeros(BLOCK_SIZE), 0, 0);
            && AllStay(v, LostByte()) && Playable(v, LostByte())
            && Play(v, LostByte()).1 == [Reply(BLOCK_SIZE, [])] +
                  ([Reply(1, [])] + ([Reply(0, [])] + ([Reply(0, [])] + [])))
  {
    var z := Zeros(BLOCK_SIZE);
    var v1, v2, v3 := OneFile(z, BLOCK_SIZE, BLOCK_SIZE), OneFile(z, BLOCK_SIZE + 1, BLOCK_SIZE + 1),
        OneFile(z, BLOCK_SIZE + 1, BLOCK_SIZE);
    FilledByZeros();
    PastTheEnd();
    PlayNothing(v3);
    PlayNext(v3, Read(0, 1), v3, Reply(0, []), []);
    PlayNext(v2, Seek(0, BLOCK_SIZE), v3, Reply(0, []), [Read(0, 1)] + []);
    PlayNext(v1, Write(0, [1]), v2, Reply(1, []), [Seek(0, BLOCK_SIZE)] + ([Read(0, 1)] + []));
    PlayNext(OneFile(z, 0, 0), Write(0, z), v1, Reply(BLOCK_SIZE, []),
        [Write(0, [1])] + ([Seek(0, BLOCK_SIZE)] + ([Read(0, 1)] + [])));
  }

  lemma PlayNothing(v: View)
    requires Tidy(v)
    ensures AllStay(v, []) && Playable(v, []) && Play(v, []).1 == []
  {}

  /** Changing the one file and its one handle gives the view with both changed. */
  lemma OneFileChanged(data: Block, size: u16, offset: nat, data': Block, size': u16, offset': nat)
    ensures var v := OneFile(data, size, offset);
            && Tidy(v) && v.files[NAME] == File(data, size) && v.open[0] == Some(Handle(NAME, offset))
            && v.(files := v.files[NAME := File(data', size')], open := v.open[0 := Some(Handle(NAME, offset'))]) ==
                  OneFile(data', size', offset')
            && v.(open := v.open[0 := Some(Handle(NAME, offset'))]) == OneFile(data, size, offset')
  {
    var v := OneFile(data, size, offset);
    assert v.open[0 := Some(Handle(NAME, offset'))] == OneFile(data', size', offset').open;
    assert v.files[NAME := File(data', size')] == OneFile(data', size', offset').files;
  }

  lemma FilledByZeros()
    ensures var z := Zeros(BLOCK_SIZE);
            var v, w := OneFile(z, 0, 0), OneFile(z, BLOCK_SIZE, BLOCK_SIZE);
            Tidy(v) && Tidy(w) && Stays(v, Write(0, z)) && Suits(v, Write(0, z)) &&
                ViewStep(v, Write(0, z)) == (w, Reply(BLOCK_SIZE, []))
  {
    var z := Zeros(BLOCK_SIZE);
    assert Splice(z, 0, z) == z;
    OneFileChanged(z, 0, 0, z, BLOCK_SIZE, BLOCK_SIZE);
    OneFileChanged(z, BLOCK_SIZE, BLOCK_SIZE, z, 0, 0);
  }

  lemma PastTheEnd()
    ensures var z := Zeros(BLOCK_SIZE);
            var v, w, x := OneFile(z, BLOCK_SIZE, BLOCK_SIZE), OneFile(z, BLOCK_SIZE + 1, BLOCK_SIZE + 1),
                OneFile(z, BLOCK_SIZE + 1, BLOCK_SIZE);
            && Tidy(v) && Stays(v, Write(0, [1])) && Suits(v, Write(0, [1])) &&
                  ViewStep(v, Write(0, [1])) == (w, Reply(1, []))
            && Tidy(w) && Stays(w, Seek(0, BLOCK_SIZE)) && ViewStep(w, Seek(0, BLOCK_SIZE)) == (x, Reply(0, []))
            && Tidy(x) && Stays(x, Read(0, 1)) && Suits(x, Read(0, 1)) && ViewStep(x, Read(0, 1)) == (x, Reply(0, []))
  {
    hide OneFile, Tidy;
    var z := Zeros(BLOCK_SIZE);
    OneFileChanged(z, BLOCK_SIZE, BLOCK_SIZE, z, BLOCK_SIZE + 1, BLOCK_SIZE + 1);
    OneFileChanged(z, BLOCK_SIZE + 1, BLOCK_SIZE + 1, z, BLOCK_SIZE + 1, BLOCK_SIZE);
    OneFileChanged(z, BLOCK_SIZE + 1, BLOCK_SIZE, z, 0, 0);
  }

  /** From any closed disk on: a file is filled, one byte is written at offset 4096 and reported
      written, and a read at that offset returns nothing. */
  lemma LostByteRun(c: Config, rest: seq<byte>, tailOfIndex: seq<byte>)
    requires Unmounted(c.s) && |rest| == BLOCK_SIZE - META_SIZE && |tailOfIndex| == BLOCK_SIZE - 512
    ensures var es := [Make(rest), Mount, Create(NAME, tailOfIndex), Open(NAME),
                       Write(0, Zeros(BLOCK_SIZE)), Write(0, [1]), Seek(0, BLOCK_SIZE), Read(0, 1)];
            var done := Reply(0, []);
            IsRun(c, es) && Replies(c, es) == [done, done, done, done, Reply(BLOCK_SIZE, []), Reply(1, []), done, done]
  {
    hide IsRun, Replies, AllStay, Playable, Play, OneFile, Unmounted;
    LostByteSeen();
    OpenedThen(c, rest, tailOfIndex, LostByte());
    var es := [Make(rest), Mount, Create(NAME, tailOfIndex), Open(NAME),
               Write(0, Zeros(BLOCK_SIZE)), Write(0, [1]), Seek(0, BLOCK_SIZE), Read(0, 1)];
    assert es == [Make(rest)] + ([Mount] + ([Create(NAME, tailOfIndex)] + ([Open(NAME)] + LostByte())));
  }

  /** The calls in which a byte is written, overwritten, and the size asked for. */
  function Overwrite(): seq<Event> {
    [Write(0, [1])] + ([Seek(0, 0)] + ([Write(0, [2])] + ([Size(0)] + [])))
  }

  lemma FirstByteWritten(d: Block)
    requires d == Splice(Zeros(BLOCK_SIZE), 0, [1])
    ensures var v, v1, v2 := OneFile(Zeros(BLOCK_SIZE), 0, 0), OneFile(d, 1, 1), OneFile(d, 1, 0);
            && Tidy(v) && Stays(v, Write(0, [1])) && Suits(v, Write(0, [1])) &&
                  ViewStep(v, Write(0, [1])) == (v1, Reply(1, []))
            && Tidy(v1) && Stays(v1, Seek(0, 0)) && ViewStep(v1, Seek(0, 0)) == (v2, Reply(0, []))
  {
    hide OneFile, Tidy, Splice;
    OneFileChanged(Zeros(BLOCK_SIZE), 0, 0, d, 1, 1);
    OneFileChanged(d, 1, 1, d, 1, 0);
  }

  lemma FirstByteOverwritten(d: Block, d': Block)
    requires d' == Splice(d, 0, [2])
    ensures var v2, v3 := OneFile(d, 1, 0), OneFile(d', 2, 1);
            && Tidy(v2) && Stays(v2, Write(0, [2])) && Suits(v2, Write(0, [2])) &&
                  ViewStep(v2, Write(0, [2])) == (v3, Reply(1, []))
            && Tidy(v3) && Stays(v3, Size(0)) && ViewStep(v3, Size(0)) == (v3, Reply(2, []))
  {
    hide OneFile, Tidy, Splice;
    OneFileChanged(d, 1, 0, d', 2, 1);
    OneFileChanged(d', 2, 1, d, 0, 0);
  }

  lemma OverwriteSeen()
    ensures var v := OneFile(Zeros(BLOCK_SIZE), 0, 0);
            && AllStay(v, Overwrite()) && Playable(v, Overwrite())
            && Play(v, Overwrite()).1 == [Reply(1, [])] + ([Reply(0, [])] + ([Reply(1, [])] + ([Reply(2, [])] + [])))
  {
    hide OneFile, Tidy, Stays, ViewStep;
    var d := Splice(Zeros(BLOCK_SIZE), 0, [1]);
    var d' := Splice(d, 0, [2]);
    var v1, v2, v3 := OneFile(d, 1, 1), OneFile(d, 1, 0), OneFile(d', 2, 1);
    FirstByteWritten(d);
    FirstByteOverwritten(d, d');
    PlayNothing(v3);
    PlayNext(v3, Size(0), v3, Reply(2, []), []);
    PlayNext(v2, Write(0, [2]), v3, Reply(1, []), [Size(0)] + []);
    PlayNext(v1, Seek(0, 0), v2, Reply(0, []), [Write(0, [2])] + ([Size(0)] + []));
    PlayNext(OneFile(Zeros(BLOCK_SIZE), 0, 0), Write(0, [1]), v1, Reply(1, []),
        [Seek(0, 0)] + ([Write(0, [2])] + ([Size(0)] + [])));
  }

  /** From any closed disk on: a file of one byte whose byte is overwritten reports two. */
  lemma OverwriteRun(c: Config, rest: seq<byte>, tailOfIndex: seq<byte>)
    requires Unmounted(c.s) && |rest| == BLOCK_SIZE - META_SIZE && |tailOfIndex| == BLOCK_SIZE - 512
    ensures var es := [Make(rest), Mount, Create(NAME, tailOfIndex), Open(NAME), Write(0, [1]), Seek(0, 0),
        Write(0, [2]), Size(0)];
            var done := Reply(0, []);
            IsRun(c, es) && Replies(c, es) == [done, done, done, done, Reply(1, []), done, Reply(1, []), Reply(2, [])]
  {
    hide IsRun, Replies, AllStay, Playable, Play, OneFile, Unmounted;
    OverwriteSeen();
    OpenedThen(c, rest, tailOfIndex, Overwrite());
    var es := [Make(rest), Mount, Create(NAME, tailOfIndex), Open(NAME), Write(0, [1]), Seek(0, 0), Write(0, [2]),
        Size(0)];
    assert es == [Make(rest)] + ([Mount] + ([Create(NAME, tailOfIndex)] + ([Open(NAME)] + Overwrite())));
  }

  // ---------------------------------------------------------------- a failed create

  /** A mounted disk with the one file, blocks 3 and 4 still free, and no create failed yet. */
  predicate HasOne(c: Config) {
    && Sees(c, View(true, map[NAME := File(Zeros(BLOCK_SIZE), 0)], NoHandles()))
    && c.s.ready && TwoClear(c.s.meta.bitmap) && c.failed == 0
  }

  lemma CountsFailures(c: Config, e: Event)
    requires Linked(c.s) && Legal(c.s, e)
    ensures Step(c, e).failed ==
            if e.Make? then 0
            else if e.Create? && c.s.ready && Call(c.s, e).1.code == -1 then c.failed + 1
            else c.failed
  {
    hide Call, Legal, Linked;
  }

  /** The first create takes blocks 1 and 2, so there is room for the next. */
  lemma RoomForMore(c: Config, tailOfIndex: seq<byte>)
    requires Inv(c) && Legal(c.s, Create(NAME, tailOfIndex)) && c.s.meta == Fresh()
    ensures TwoClear(DoCreate(c.s, NAME, tailOfIndex).0.meta.bitmap)
  {
    hide Bit, SetBit, Inv, DoCreate, Fresh;
    var bm := DoCreate(c.s, NAME, tailOfIndex).0.meta.bitmap;
    FreshBits();
    ClaimsFirstTwo(c.s);
    CreateMarks(c, NAME, tailOfIndex);
    assert !Bit(c.s.meta.bitmap, 1) && !Bit(c.s.meta.bitmap, 2);
    assert IndexFor(c.s) <= 2 && DataFor(c.s) <= 2;
    assert !Bit(bm, 3) && !Bit(bm, 4);
  }

  lemma CreatesTheOne(c: Config, tailOfIndex: seq<byte>)
    requires Sees(c, View(true, map[], NoHandles())) && c.s.meta == Fresh() && c.failed == 0
    requires |tailOfIndex| == BLOCK_SIZE - 512
    ensures Linked(c.s) && Legal(c.s, Create(NAME, tailOfIndex)) &&
        Call(c.s, Create(NAME, tailOfIndex)).1 == Reply(0, [])
    ensures HasOne(Step(c, Create(NAME, tailOfIndex)))
  {
    hide Inv, EntriesSound, Bit, SetBit, Fresh, DoCreate, FilesOf, Legal;
    FreshHasRoom();
    CreatesOne(c, tailOfIndex);
    CountsFailures(c, Create(NAME, tailOfIndex));
    RoomForMore(c, tailOfIndex);
  }

  /** Creating it again fails and leaves two more blocks marked. */
  lemma CreateAgainLeaks(c: Config, tailOfIndex: seq<byte>)
    requires HasOne(c) && |tailOfIndex| == BLOCK_SIZE - 512
    ensures Linked(c.s) && Legal(c.s, Create(NAME, tailOfIndex)) &&
        Call(c.s, Create(NAME, tailOfIndex)).1 == Reply(-1, [])
    ensures var c' := Step(c, Create(NAME, tailOfIndex));
            && Sees(c', View(true, map[NAME := File(Zeros(BLOCK_SIZE), 0)], NoHandles()))
            && c'.failed == 1 && Marked(Image(c'.s).bitmap, DISK_BLOCKS) == 5
  {
    hide Inv, EntriesSound, ViewOf, TwoClear, Call, Marked;
    var v := View(true, map[NAME := File(Zeros(BLOCK_SIZE), 0)], NoHandles());
    SeesLinked(c, v);
    Advance(c, v, Create(NAME, tailOfIndex));
    CountsFailures(c, Create(NAME, tailOfIndex));
    Conserved(Step(c, Create(NAME, tailOfIndex)));
  }

  /** From any closed disk on: creating the same file twice fails the second time, and five blocks
      are marked instead of the three that block 0 and one file need. */
  lemma LeakRun(c: Config, rest: seq<byte>, tailOfIndex: seq<byte>)
    requires Unmounted(c.s) && |rest| == BLOCK_SIZE - META_SIZE && |tailOfIndex| == BLOCK_SIZE - 512
    ensures var es := [Make(rest), Mount, Create(NAME, tailOfIndex), Create(NAME, tailOfIndex)];
            var done := Reply(0, []);
            && IsRun(c, es) && Replies(c, es) == [done, done, done, Reply(-1, [])]
            && var c' := After(c, es);
               && Sees(c', View(true, map[NAME := File(Zeros(BLOCK_SIZE), 0)], NoHandles()))
               && c'.failed == 1 && Marked(Image(c'.s).bitmap, DISK_BLOCKS) == 5
  {
    hide Inv, Sees, HasOne, Image, Fresh, Legal, Linked, Step, Call, IsRun, Replies, After, Unmounted, Marked;
    var e := Create(NAME, tailOfIndex);
    MakeIsLegal(c, rest);
    var c0 := Step(c, Make(rest));
    CountsFailures(c, Make(rest));
    MountedFresh(c0);
    SeesLinked(c0, View(false, map[], NoHandles()));
    CountsFailures(c0, Mount);
    var c1 := Step(c0, Mount);
    CreatesTheOne(c1, tailOfIndex);
    var c2 := Step(c1, e);
    CreateAgainLeaks(c2, tailOfIndex);
    NoCalls(Step(c2, e));
    Prepend(c2, e, []);
    Prepend(c1, e, [e] + []);
    Prepend(c0, Mount, [e] + ([e] + []));
    Prepend(c, Make(rest), [Mount] + ([e] + ([e] + [])));
    assert [Make(rest), Mount, e, e] == [Make(rest)] + ([Mount] + ([e] + ([e] + [])));
  }

  lemma NoCalls(c: Config)
    ensures IsRun(c, []) && Replies(c, []) == [] && After(c, []) == c
  {}
}

/** What the thread-local storage of tls.c is for: a byte string per thread, where a clone is
    a deep copy. `used` is the number of table slots that lookups have consumed. */
module TlsModel {
  import opened Common
  import opened TlsPages

  const MAX_THREADS: nat := 128
  const MAX_SIZE: nat := 0x100_0000

  type Tid = int

  datatype Model = Model(store: map<Tid, seq<byte>>, used: nat)

  datatype Call =
    | Create(size: nat)
    | Clone(target: Tid)
    | Read(offset: nat, length: nat)
    | Write(offset: nat, length: nat, buffer: seq<byte>)

  datatype Reply = Reply(code: int, data: seq<byte>)

  const FAILED := Reply(-1, [])
  const DONE := Reply(0, [])

  /** The number of pages that hold `size` bytes. */
  function PagesFor(size: nat): nat {
    (size + PAGE_SIZE - 1) / PAGE_SIZE
  }

  predicate Crosses(offset: nat, length: nat) {
    offset % PAGE_SIZE + length > PAGE_SIZE
  }

  /** What a page-crossing write copies out of its buffer: the string measured by strlen, and
      never less than one byte. */
  function StringBytes(buffer: seq<byte>): seq<byte>
    requires Strlen(buffer) < |buffer|
  {
    if Strlen(buffer) == 0 then buffer[..1] else buffer[..Strlen(buffer)]
  }

  /** The bytes a write transfers. */
  function Payload(offset: nat, length: nat, buffer: seq<byte>): seq<byte>
    requires length <= |buffer|
    requires Crosses(offset, length) ==> Strlen(buffer) < |buffer|
  {
    if Crosses(offset, length) then StringBytes(buffer) else buffer[..length]
  }

  /** What the caller owes: sizes the float rounding is exact on, and accesses that start
      inside the storage. */
  predicate Suits(m: Model, self: Tid, c: Call) {
    match c
    case Create(size) => size <= MAX_SIZE
    case Clone(target) => true
    case Read(offset, length) => self in m.store ==> offset < |m.store[self]|
    case Write(offset, length, buffer) =>
      self in m.store ==>
        && offset < |m.store[self]|
        && length <= |buffer|
        && (Crosses(offset, length) ==> Strlen(buffer) < |buffer|)
  }

  /** A suitable call by a real thread id, with a free slot for each lookup that misses. */
  predicate Admissible(m: Model, self: Tid, c: Call) {
    && Suits(m, self, c)
    && self !in {0, -1} && (c.Clone? ==> c.target !in {0, -1})
    && m.used + Misses(m, self, c) < MAX_THREADS
  }

  /** Every lookup of an unknown thread id consumes a slot. */
  function Misses(m: Model, self: Tid, c: Call): nat {
    (if self in m.store then 0 else 1) +
    (if c.Clone? && c.target !in m.store then 1 else 0)
  }

  predicate WriteFits(s: seq<byte>, offset: nat, length: nat, buffer: seq<byte>)
  {
    && length <= |s|
    && (Crosses(offset, length) ==> offset + Strlen(buffer) <= |s|)
  }

  predicate ReadFits(s: seq<byte>, offset: nat, length: nat) {
    length <= |s| && offset + length <= |s|
  }

  /** A call: its lookups consume slots, then it acts on the storages. */
  function Apply(m: Model, self: Tid, c: Call): (r: (Model, Reply))
    requires Admissible(m, self, c) && Regular(m)
    ensures Regular(r.0)
    ensures r.1.code in {0, -1} && (r.1.code == 0 && c.Read? ==> |r.1.data| == c.length) &&
        (r.1.code == -1 || !c.Read? ==> r.1.data == [])
  {
    Act(m.(used := m.used + Misses(m, self, c)), self, c)
  }

  function Act(m: Model, self: Tid, c: Call): (r: (Model, Reply))
    requires Suits(m, self, c) && Regular(m)
    ensures Regular(r.0)
    ensures r.1.code in {0, -1} && (r.1.code == 0 && c.Read? ==> |r.1.data| == c.length) &&
        (r.1.code == -1 || !c.Read? ==> r.1.data == [])
  {
    match c
    case Create(size) =>
      if size == 0 || self in m.store then (m, FAILED)
      else (m.(store := m.store[self := Zeros(PagesFor(size) * PAGE_SIZE)]), DONE)
    case Clone(target) =>
      if self in m.store || target !in m.store then (m, FAILED)
      else (m.(store := m.store[self := m.store[target]]), DONE)
    case Read(offset, length) =>
      if self !in m.store || !ReadFits(m.store[self], offset, length) then (m, FAILED)
      else (m, Reply(0, m.store[self][offset..offset + length]))
    case Write(offset, length, buffer) =>
      if self !in m.store || !WriteFits(m.store[self], offset, length, buffer) then (m, FAILED)
      else
        PayloadFits(m.store[self], offset, length, buffer);
        (m.(store := m.store[self := Splice(m.store[self], offset, Payload(offset, length, buffer))]), DONE)
  }

  /** Every storage is a whole number of pages. */
  ghost predicate Regular(m: Model) {
    forall t | t in m.store :: |m.store[t]| % PAGE_SIZE == 0
  }

  lemma PayloadFits(s: seq<byte>, offset: nat, length: nat, buffer: seq<byte>)
    requires |s| % PAGE_SIZE == 0 && offset < |s| && length <= |buffer|
    requires Crosses(offset, length) ==> Strlen(buffer) < |buffer|
    requires WriteFits(s, offset, length, buffer)
    ensures offset + |Payload(offset, length, buffer)| <= |s|
  {}

  // ---------------------------------------------------------------- what each call answers

  /** The storages other than `self`'s are as before. */
  ghost predicate SparesOthers(m: Model, m': Model, self: Tid) {
    forall t | t != self :: (t in m'.store <==> t in m.store) && (t in m.store ==> m'.store[t] == m.store[t])
  }

  /** A create succeeds exactly for a positive size and a thread without storage, and then the
      thread has the fewest whole pages of zeros that hold `size` bytes. */
  lemma CreateOutcome(m: Model, self: Tid, size: nat)
    requires Regular(m) && Admissible(m, self, Create(size))
    ensures var (m', r) := Apply(m, self, Create(size));
            && r == Reply(if size > 0 && self !in m.store then 0 else -1, [])
            && (r.code == -1 ==> m'.store == m.store)
            && (r.code == 0 ==>
                  && SparesOthers(m, m', self) && self in m'.store && var s := m'.store[self];
                  && size <= |s| < size + PAGE_SIZE && |s| % PAGE_SIZE == 0
                  && forall k | 0 <= k < |s| :: s[k] == 0)
  {}

  /** A clone succeeds exactly when the caller has no storage and the target has one, and then the
      caller has the target's bytes. */
  lemma CloneOutcome(m: Model, self: Tid, target: Tid)
    requires Regular(m) && Admissible(m, self, Clone(target))
    ensures var (m', r) := Apply(m, self, Clone(target));
            && r == Reply(if self !in m.store && target in m.store then 0 else -1, [])
            && (r.code == -1 ==> m'.store == m.store)
            && (r.code == 0 ==> SparesOthers(m, m', self) && self in m'.store && m'.store[self] == m.store[target])
  {}

  /** A read succeeds exactly when the caller has a storage and the range ends inside it, and then
      returns the bytes of that range; it never changes a storage. */
  lemma ReadOutcome(m: Model, self: Tid, offset: nat, length: nat)
    requires Regular(m) && Admissible(m, self, Read(offset, length))
    ensures var (m', r) := Apply(m, self, Read(offset, length));
            && m'.store == m.store && r.code in {0, -1}
            && (r.code == 0 <==> self in m.store && offset + length <= |m.store[self]|)
            && |r.data| == (if r.code == 0 then length else 0)
            && (r.code == 0 ==> forall k | 0 <= k < length :: r.data[k] == m.store[self][offset + k])
  {}

  /** How many bytes a write transfers: those asked for when they stay inside one page, otherwise
      the string in the buffer, whose end is its first zero, and one byte if that is empty. */
  function Transferred(offset: nat, length: nat, buffer: seq<byte>, end: nat): nat {
    if offset / PAGE_SIZE == (offset + length - 1) / PAGE_SIZE || length == 0 then length
    else if end == 0 then 1 else end
  }

  lemma CrossesIs(offset: nat, length: nat)
    ensures Crosses(offset, length) <==> length > 0 && offset / PAGE_SIZE != (offset + length - 1) / PAGE_SIZE
  {
    var page, start := offset / PAGE_SIZE, offset % PAGE_SIZE;
    assert offset == page * PAGE_SIZE + start;
    if length > 0 {
      if start + length <= PAGE_SIZE {
        PageOf(page, start + length - 1);
      } else {
        PageAfter(page, start + length - 1);
      }
    }
  }

  lemma PageOf(page: nat, rest: nat)
    requires rest < PAGE_SIZE
    ensures (page * PAGE_SIZE + rest) / PAGE_SIZE == page
  {}

  lemma PageAfter(page: nat, rest: nat)
    requires rest >= PAGE_SIZE
    ensures (page * PAGE_SIZE + rest) / PAGE_SIZE > page
  {}

  /** `end` is where the first zero of the buffer is. */
  predicate EndsAt(buffer: seq<byte>, end: nat) {
    end < |buffer| && buffer[end] == 0 && forall k | 0 <= k < end :: buffer[k] != 0
  }

  /** A write succeeds exactly when the caller has a storage, `length` is no more than the storage
      holds and, if the range crosses a page end, the string in the buffer ends inside the storage;
      it then replaces exactly the transferred bytes. */
  lemma WriteOutcome(m: Model, self: Tid, offset: nat, length: nat, buffer: seq<byte>, end: nat)
    requires Regular(m) && Admissible(m, self, Write(offset, length, buffer))
    requires self in m.store && Crosses(offset, length) ==> EndsAt(buffer, end)
    ensures var (m', r) := Apply(m, self, Write(offset, length, buffer));
            && r == Reply(if self in m.store && length <= |m.store[self]| &&
                               (Crosses(offset, length) ==> offset + end <= |m.store[self]|) then 0 else -1, [])
            && (r.code == -1 ==> m'.store == m.store)
            && (r.code == 0 ==>
                  && SparesOthers(m, m', self) && self in m'.store && |m'.store[self]| == |m.store[self]|
                  && var n := Transferred(offset, length, buffer, end);
                  && n <= |buffer| && forall k | 0 <= k < |m.store[self]| ::
                    m'.store[self][k] == if offset <= k < offset + n then buffer[k - offset] else m.store[self][k])
  {
    CrossesIs(offset, length);
    if self in m.store && Crosses(offset, length) {
      assert Strlen(buffer) == end;
    }
  }

  datatype Event = Event(self: Tid, call: Call)

  ghost predicate Playable(m: Model, es: seq<Event>)
    requires Regular(m)
    decreases |es|
  {
    es != [] ==>
      && Admissible(m, es[0].self, es[0].call)
      && Playable(Apply(m, es[0].self, es[0].call).0, es[1..])
  }

  /** The states and replies of a whole run. */
  ghost function Play(m: Model, es: seq<Event>): (Model, seq<Reply>)
    requires Regular(m) && Playable(m, es)
    decreases |es|
  {
    if es == [] then (m, [])
    else
      var (m', r) := Apply(m, es[0].self, es[0].call);
      var (end, rs) := Play(m', es[1..]);
      (end, [r] + rs)
  }

  lemma {:induction false} PlayExtend(m: Model, es: seq<Event>, e: Event)
    requires Regular(m) && Playable(m, es + [e])
    ensures Playable(m, es)
    ensures var (m', rs) := Play(m, es);
      && Regular(m') && Admissible(m', e.self, e.call)
      && Play(m, es + [e]) == (Apply(m', e.self, e.call).0, rs + [Apply(m', e.self, e.call).1])
    decreases |es|
  {
    if es == [] {
      assert es + [e] == [e] && [e][1..] == [];
      var (m', r) := Apply(m, e.self, e.call);
      assert Play(m', []) == (m', []) && [r] + [] == [] + [r];
    } else {
      assert (es + [e])[1..] == es[1..] + [e];
      var (m1, r) := Apply(m, es[0].self, es[0].call);
      PlayExtend(m1, es[1..], e);
      var (m', rs) := Play(m1, es[1..]);
      assert Play(m, es) == (m', [r] + rs);
      assert [r] + (rs + [Apply(m', e.self, e.call).1]) == [r] + rs + [Apply(m', e.self, e.call).1];
    }
  }

  lemma {:induction false} PlayPrefix(m: Model, es: seq<Event>, i: nat)
    requires Regular(m) && Playable(m, es) && i <= |es|
    ensures Playable(m, es[..i])
    decreases |es|
  {
    if i > 0 {
      assert es[..i][1..] == es[1..][..i - 1];
      PlayPrefix(Apply(m, es[0].self, es[0].call).0, es[1..], i - 1);
    }
  }

  /** No thread's storage is changed by the calls of other threads, over any run. */
  lemma {:induction false} Isolation(m: Model, es: seq<Event>, t: Tid)
    requires Regular(m) && Playable(m, es) && t in m.store
    requires forall e | e in es :: e.self != t
    ensures Regular(Play(m, es).0)
    ensures t in Play(m, es).0.store && Play(m, es).0.store[t] == m.store[t]
    decreases |es|
  {
    if es != [] {
      Isolation(Apply(m, es[0].self, es[0].call).0, es[1..], t);
    }
  }

  /** A clone is a deep copy: whatever the others do afterwards, the original's owner included,
      the cloner keeps the string the original had when it was cloned; and the other way round. */
  lemma CloneIsDeepCopy(m: Model, self: Tid, target: Tid, es: seq<Event>)
    requires Regular(m) && self !in m.store && target in m.store
    requires Playable(m, [Event(self, Clone(target))] + es)
    ensures (forall e | e in es :: e.self != self) ==>
      self in Play(m, [Event(self, Clone(target))] + es).0.store &&
          Play(m, [Event(self, Clone(target))] + es).0.store[self] == m.store[target]
    ensures (forall e | e in es :: e.self != target) ==>
      target in Play(m, [Event(self, Clone(target))] + es).0.store &&
          Play(m, [Event(self, Clone(target))] + es).0.store[target] == m.store[target]
  {
    var run := [Event(self, Clone(target))] + es;
    assert run[1..] == es;
    var m' := Apply(m, self, Clone(target)).0;
    if forall e | e in es :: e.self != self {
      Isolation(m', es, self);
    }
    if forall e | e in es :: e.self != target {
      Isolation(m', es, target);
    }
  }

  /** A run never uses up the last slot. */
  lemma {:induction false} SlotRemains(m: Model, es: seq<Event>)
    requires Regular(m) && Playable(m, es) && m.used < MAX_THREADS
    ensures Play(m, es).0.used < MAX_THREADS
    decreases |es|
  {
    if es != [] {
      SlotRemains(Apply(m, es[0].self, es[0].call).0, es[1..]);
    }
  }

  /** What a successful write stored is what the same thread reads back, whatever the other
      threads do in between. */
  lemma ReadAfterWrite(m: Model, self: Tid, offset: nat, length: nat, buffer: seq<byte>, es: seq<Event>)
    requires Regular(m) && Playable(m, [Event(self, Write(offset, length, buffer))] + es)
    requires self in m.store && WriteFits(m.store[self], offset, length, buffer)
    requires forall e | e in es :: e.self != self
    ensures var end := Play(m, [Event(self, Write(offset, length, buffer))] + es).0;
      var stored := Payload(offset, length, buffer);
      && Regular(end) && Admissible(end, self, Read(offset, |stored|))
      && Apply(end, self, Read(offset, |stored|)).1 == Reply(0, stored)
  {
    assert ([Event(self, Write(offset, length, buffer))] + es)[1..] == es;
    var m' := Apply(m, self, Write(offset, length, buffer)).0;
    PayloadFits(m.store[self], offset, length, buffer);
    var s := m'.store[self];
    assert s[offset..offset + |Payload(offset, length, buffer)|] == Payload(offset, length, buffer);
    Isolation(m', es, self);
    SlotRemains(m', es);
  }

  /** The write did what its caller asked: it stored the first `length` bytes of the buffer if
      that range lies inside the storage, and was refused, changing nothing, if it does not. */
  predicate AsAsked(m: Model, self: Tid, offset: nat, length: nat, buffer: seq<byte>)
    requires self in m.store && Regular(m) && Admissible(m, self, Write(offset, length, buffer))
  {
    var s, (m', r) := m.store[self], Apply(m, self, Write(offset, length, buffer));
    if offset + length <= |s| then r == DONE && m'.store == m.store[self := Splice(s, offset, buffer[..length])]
    else r == FAILED && m'.store == m.store
  }

  /** The string in the buffer is of the length asked for, or is refused as that length is. */
  predicate StringSuits(size: nat, offset: nat, length: nat, buffer: seq<byte>) {
    if offset + length <= size then Strlen(buffer) == length else length > size || offset + Strlen(buffer) > size
  }

  function WithBytes(m: Model, self: Tid, s: seq<byte>): Model {
    m.(store := m.store[self := s])
  }

  /** Whatever bytes the storage holds, a write does what was asked exactly when it stays inside
      one page or the string in its buffer suits the length asked for: a shorter string is cut
      short, and a longer one is stored whole or refused. */
  lemma WritesWhatWasAsked(m: Model, self: Tid, offset: nat, length: nat, buffer: seq<byte>)
    requires Regular(m) && self in m.store && Admissible(m, self, Write(offset, length, buffer))
    ensures (forall s: seq<byte> | |s| == |m.store[self]| ::
        AsAsked(WithBytes(m, self, s), self, offset, length, buffer))
        <==> (!Crosses(offset, length) || StringSuits(|m.store[self]|, offset, length, buffer))
  {
    var size := |m.store[self]|;
    if !Crosses(offset, length) || StringSuits(size, offset, length, buffer) {
      forall s: seq<byte> | |s| == size ensures AsAsked(WithBytes(m, self, s), self, offset, length, buffer) {
        DoesAsAsked(WithBytes(m, self, s), self, offset, length, buffer);
      }
    } else {
      var s := Contrary(size, offset, length, buffer);
      DoesOtherwise(WithBytes(m, self, s), self, offset, length, buffer);
    }
  }

  lemma DoesAsAsked(m: Model, self: Tid, offset: nat, length: nat, buffer: seq<byte>)
    requires Regular(m) && self in m.store && Admissible(m, self, Write(offset, length, buffer))
    requires !Crosses(offset, length) || StringSuits(|m.store[self]|, offset, length, buffer)
    ensures AsAsked(m, self, offset, length, buffer)
  {
    if Crosses(offset, length) && Strlen(buffer) == length {
      assert StringBytes(buffer) == buffer[..length];
    }
  }

  /** Where the bytes transferred and the bytes asked for part. */
  function Parting(offset: nat, length: nat, buffer: seq<byte>): (k: nat)
    requires length <= |buffer| && (Crosses(offset, length) ==> Strlen(buffer) < |buffer|)
    ensures k <= length
  {
    var transferred := |Payload(offset, length, buffer)|;
    if transferred < length then transferred else length
  }

  /** A storage whose byte at that place differs from the buffer's. */
  function Contrary(size: nat, offset: nat, length: nat, buffer: seq<byte>): (s: seq<byte>)
    requires length <= |buffer| && (Crosses(offset, length) ==> Strlen(buffer) < |buffer|)
    ensures |s| == size
    ensures var k := Parting(offset, length, buffer); offset + k < size && k < |buffer| ==> s[offset + k] != buffer[k]
  {
    var k := Parting(offset, length, buffer);
    seq(size, i => if k < |buffer| && buffer[k] == 0 then 1 else 0)
  }

  lemma DoesOtherwise(m: Model, self: Tid, offset: nat, length: nat, buffer: seq<byte>)
    requires Regular(m) && self in m.store && Admissible(m, self, Write(offset, length, buffer))
    requires Crosses(offset, length) && !StringSuits(|m.store[self]|, offset, length, buffer)
    requires var k := Parting(offset, length, buffer);
             offset + k < |m.store[self]| && k < |buffer| ==> m.store[self][offset + k] != buffer[k]
    ensures !AsAsked(m, self, offset, length, buffer)
  {
    var s, k, p := m.store[self], Parting(offset, length, buffer), Payload(offset, length, buffer);
    var after := Apply(m, self, Write(offset, length, buffer)).0.store;
    if offset + length <= |s| && offset + Strlen(buffer) <= |s| {
      var asked, done := Splice(s, offset, buffer[..length]), Splice(s, offset, p);
      assert after == m.store[self := done] && m.store[self := asked][self] == asked && after[self] == done;
      assert asked[offset + k] != done[offset + k];
    }
  }

  /** In a storage just created, a page-crossing write of 200 bytes whose second byte is zero stores
      one byte only. */
  lemma ZeroByteCutsWrite(m0: Model)
    requires m0 == Model(map[], 0)
    ensures Regular(m0) && Admissible(m0, 7, Create(2 * PAGE_SIZE))
    ensures var buffer := [1, 0] + seq(199, _ => 1);
            var (m, made) := Apply(m0, 7, Create(2 * PAGE_SIZE));
            && made == DONE && m.store == map[7 := Zeros(2 * PAGE_SIZE)] && Admissible(m, 7, Write(4000, 200, buffer))
            && var (m', done) := Apply(m, 7, Write(4000, 200, buffer));
               && done == DONE && m'.store == map[7 := Splice(m.store[7], 4000, [1])]
               && m'.store[7] != Splice(m.store[7], 4000, buffer[..200])
  {
    var m := Apply(m0, 7, Create(2 * PAGE_SIZE)).0;
    assert m.store == map[7 := Zeros(2 * PAGE_SIZE)];
    var buffer: seq<byte> := [1, 0] + seq(199, _ => 1);
    assert buffer[1..][0] == 0;
    assert Strlen(buffer) == 1;
    assert Payload(4000, 200, buffer) == [1];
    var s := Splice(m.store[7], 4000, [1]);
    assert m.store[7 := s] == map[7 := s];
    assert Splice(m.store[7], 4000, buffer[..200])[4002] == 1;
    assert Splice(m.store[7], 4000, [1])[4002] == 0;
  }
}

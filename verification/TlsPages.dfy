/** The page tables of tls.c as values: who points at a page, and which part of a
    thread's storage a page holds. */
module TlsPages {
  import opened Common

  const PAGE_SIZE: nat := 4096

  /** The (thread slot, page index) pairs whose pointer is `p`. */
  ghost function Owners<P>(table: seq<seq<P>>, p: P): set<(nat, nat)> {
    set i: nat, j: nat | i < |table| && j < |table[i]| && table[i][j] == p :: (i, j)
  }

  ghost predicate Occurs<P>(table: seq<seq<P>>, p: P) {
    exists i, j :: 0 <= i < |table| && 0 <= j < |table[i]| && table[i][j] == p
  }

  /** A page is only ever shared at one and the same page index. */
  ghost predicate SameIndexSharing<P>(table: seq<seq<P>>) {
    forall i, j, k, l | 0 <= i < |table| && 0 <= j < |table[i]| && 0 <= k < |table| && 0 <= l < |table[k]| ::
      table[i][j] == table[k][l] ==> j == l
  }

  ghost function SetEntry<P>(table: seq<seq<P>>, i: nat, j: nat, q: P): seq<seq<P>>
    requires i < |table| && j < |table[i]|
  {
    table[i := table[i][j := q]]
  }

  /** A count of one means the writer's slot is the only pointer to the page. */
  lemma SoleOwner<P>(table: seq<seq<P>>, i: nat, j: nat)
    requires i < |table| && j < |table[i]|
    requires |Owners(table, table[i][j])| == 1
    ensures forall k, l | 0 <= k < |table| && 0 <= l < |table[k]| && table[k][l] == table[i][j] :: k == i && l == j
  {
    var os := Owners(table, table[i][j]);
    assert (i, j) in os;
    assert |os - {(i, j)}| == 0;
    forall k: nat, l: nat | k < |table| && l < |table[k]| && table[k][l] == table[i][j]
      ensures k == i && l == j
    {
      assert (k, l) in os;
    }
  }

  /** Copy-on-write of one slot: the old page loses exactly that owner, the new page has only
      that owner, every other page keeps its owners, and sharing stays at equal indices. */
  lemma PrivatiseOwners<P>(table: seq<seq<P>>, i: nat, j: nat, q: P)
    requires i < |table| && j < |table[i]| && !Occurs(table, q)
    ensures var t := SetEntry(table, i, j, q);
      && Owners(t, q) == {(i, j)}
      && |Owners(t, table[i][j])| == |Owners(table, table[i][j])| - 1
      && (forall r | r != q && r != table[i][j] :: Owners(t, r) == Owners(table, r))
      && (SameIndexSharing(table) ==> SameIndexSharing(t))
  {
    var t := SetEntry(table, i, j, q);
    var p := table[i][j];
    assert Owners(t, q) == {(i, j)};
    assert (i, j) in Owners(table, p);
    assert Owners(t, p) == Owners(table, p) - {(i, j)};
    forall r | r != q && r != p ensures Owners(t, r) == Owners(table, r) {
      assert forall a: nat, b: nat | a < |table| && b < |table[a]| :: t[a][b] == r <==> table[a][b] == r;
    }
  }

  /** Cloning row `e` into the empty row `c`: each shared page gains exactly one owner. */
  lemma CloneGainsOwner<P>(table: seq<seq<P>>, c: nat, e: nat, j: nat)
    requires c < |table| && e < |table| && table[c] == [] && j < |table[e]|
    requires SameIndexSharing(table)
    ensures |Owners(table[c := table[e]], table[e][j])| == |Owners(table, table[e][j])| + 1
  {
    var t, r := table[c := table[e]], table[e][j];
    var before, after := Owners(table, r), Owners(t, r);
    assert (c, j) !in before;
    assert (c, j) in after;
    forall a: nat, b: nat | (a, b) in after ensures (a, b) in before + {(c, j)} {
      if a == c {
        assert table[e][b] == table[e][j];
      }
    }
    forall a: nat, b: nat | (a, b) in before ensures (a, b) in after {
      assert a != c;
    }
    assert after == before + {(c, j)};
  }

  lemma CloneKeepsOwners<P>(table: seq<seq<P>>, c: nat, e: nat, r: P)
    requires c < |table| && e < |table| && table[c] == [] && r !in table[e]
    ensures Owners(table[c := table[e]], r) == Owners(table, r)
  {
    var t := table[c := table[e]];
    assert forall b | 0 <= b < |t[c]| :: t[c][b] != r;
  }

  /** A row of new, distinct pages: each has one owner, the others keep theirs. */
  lemma CreateOwners<P>(table: seq<seq<P>>, c: nat, row: seq<P>)
    requires c < |table| && table[c] == []
    requires forall j, k | 0 <= j < k < |row| :: row[j] != row[k]
    requires forall j | 0 <= j < |row| :: !Occurs(table, row[j])
    ensures SameIndexSharing(table) ==> SameIndexSharing(table[c := row])
    ensures forall j | 0 <= j < |row| :: |Owners(table[c := row], row[j])| == 1
    ensures forall r | r !in row :: Owners(table[c := row], r) == Owners(table, r)
  {
    var t := table[c := row];
    forall j: nat | j < |row| ensures |Owners(t, row[j])| == 1 {
      assert Owners(t, row[j]) == {(c, j)};
    }
    forall r | r !in row ensures Owners(t, r) == Owners(table, r) {
      assert forall b | 0 <= b < |t[c]| :: t[c][b] != r;
    }
  }

  /** Page `j` of a storage string. */
  ghost function Chunk(v: seq<byte>, j: nat): (c: seq<byte>)
    requires (j + 1) * PAGE_SIZE <= |v|
    ensures |c| == PAGE_SIZE
  {
    v[j * PAGE_SIZE..(j + 1) * PAGE_SIZE]
  }

  lemma ChunkSlice(v: seq<byte>, j: nat, d: nat, len: nat)
    requires (j + 1) * PAGE_SIZE <= |v| && d + len <= PAGE_SIZE
    ensures Chunk(v, j)[d..d + len] == v[j * PAGE_SIZE + d..j * PAGE_SIZE + d + len]
  {
    var c, w := Chunk(v, j)[d..d + len], v[j * PAGE_SIZE + d..j * PAGE_SIZE + d + len];
    assert forall k | 0 <= k < len :: c[k] == w[k];
  }

  lemma ZeroChunks(n: nat)
    ensures forall j: nat | j < n :: Chunk(Zeros(n * PAGE_SIZE), j) == Zeros(PAGE_SIZE)
  {}

  /** Writing inside page `j` changes that page and no other page of the string. */
  lemma SpliceChunk(v: seq<byte>, j: nat, d: nat, b: seq<byte>, n: nat)
    requires |v| == n * PAGE_SIZE && j < n && d + |b| <= PAGE_SIZE
    ensures j * PAGE_SIZE + d + |b| <= |v|
    ensures var w := Splice(v, j * PAGE_SIZE + d, b);
      forall l: nat | l < n :: Chunk(w, l) == if l == j then Splice(Chunk(v, j), d, b) else Chunk(v, l)
  {
    var w := Splice(v, j * PAGE_SIZE + d, b);
    forall l: nat | l < n
      ensures Chunk(w, l) == if l == j then Splice(Chunk(v, j), d, b) else Chunk(v, l)
    {
      forall k | 0 <= k < PAGE_SIZE
          ensures Chunk(w, l)[k] == (if l == j then Splice(Chunk(v, j), d, b) else Chunk(v, l))[k] {
        assert Chunk(w, l)[k] == w[l * PAGE_SIZE + k];
        assert Chunk(v, l)[k] == v[l * PAGE_SIZE + k];
      }
    }
  }

  /** Extending a splice by the bytes that follow it. */
  lemma SpliceExtend(v: seq<byte>, at: nat, b: seq<byte>, c: seq<byte>)
    requires at + |b| + |c| <= |v|
    ensures Splice(Splice(v, at, b), at + |b|, c) == Splice(v, at, b + c)
  {}
}

/** The linked lists of waiting threads in threads.c, as the sequences they stand for. */
module WaitLists {
  import opened ThreadModel

  /** `struct threadList`. */
  class Node {
    const threadID: Tid
    var next: Node?
    ghost const home: WaitList

    constructor (threadID: Tid, ghost home: WaitList)
      ensures this.threadID == threadID && next == null && this.home == home
    {
      this.threadID, next, this.home := threadID, null, home;
    }
  }

  /** One cell of `mutexThreadLists` or `barrierThreadLists`. */
  class WaitList {
    var head: Node?
    ghost var nodes: seq<Node>
    ghost var ids: seq<Tid>

    ghost predicate Valid()
      reads this, nodes
    {
      && |ids| == |nodes|
      && (forall n | n in nodes :: n.home == this)
      && head == NodeAt(0)
      && (forall i, j | 0 <= i < j < |nodes| :: nodes[i] != nodes[j])
      && (forall i | 0 <= i < |nodes| :: nodes[i].threadID == ids[i])
      && (forall i | 0 <= i < |nodes| :: nodes[i].next == NodeAt(i + 1))
    }

    ghost function NodeAt(i: nat): Node?
      reads this
    {
      if i < |nodes| then nodes[i] else null
    }

    constructor ()
      ensures Valid() && ids == [] && nodes == []
    {
      head, nodes, ids := null, [], [];
    }

    lemma EmptyOrHeaded()
      requires Valid()
      ensures if head == null then ids == [] else ids != [] && head.threadID == ids[0]
    {}

    /** Different lists have no node in common. */
    lemma Apart(other: WaitList)
      requires Valid() && other.Valid() && this != other
      ensures forall n | n in nodes :: n !in other.nodes
    {
      assert forall n | n in nodes :: n.home == this;
      assert forall n | n in other.nodes :: n.home == other;
    }

    /** A list none of whose nodes was written is still well formed. */
    twostate lemma Untouched()
      requires old(Valid()) && unchanged(this) && forall n | n in nodes :: unchanged(n)
      ensures Valid()
    {
      forall i | 0 <= i < |nodes| ensures nodes[i].next == old(nodes[i].next) {
        assert nodes[i] in nodes;
      }
    }

    /** Insertion at the tail: walks to the last node, or fills an empty list. */
    method Append(t: Tid)
      requires Valid()
      modifies this, nodes
      ensures Valid() && ids == old(ids) + [t]
      ensures |nodes| == |old(nodes)| + 1 && nodes[..|old(nodes)|] == old(nodes) && fresh(nodes[|old(nodes)|])
    {
      var thread := new Node(t, this);
      if head == null {
        head := thread;
      } else {
        var current: Node := head;
        ghost var i := 0;
        while current.next != null
          invariant 0 <= i < |nodes| && current == nodes[i]
          decreases |nodes| - i
        {
          assert nodes[i].next == NodeAt(i + 1);
          current := current.next;
          i := i + 1;
        }
        assert nodes[i].next == NodeAt(i + 1);
        current.next := thread;
      }
      nodes, ids := nodes + [thread], ids + [t];
    }

    /** `list = NULL`. */
    method Clear()
      modifies this
      ensures Valid() && ids == [] && nodes == []
    {
      head, nodes, ids := null, [], [];
    }

    /** Removal of the head. */
    method Pop() returns (t: Tid)
      requires Valid() && ids != []
      modifies this
      ensures Valid() && ids == old(ids)[1..] && t == old(ids)[0] && nodes == old(nodes)[1..]
    {
      t := head.threadID;
      assert nodes[0].next == NodeAt(1);
      assert forall i | 0 <= i < |nodes| :: nodes[i].next == NodeAt(i + 1);
      head := head.next;
      nodes, ids := nodes[1..], ids[1..];
    }

    /** Makes every listed thread ready: the release loop of the barrier. */
    method ReleaseInto(status: array<Status>)
      requires Valid() && status.Length == MAX_THREADS
      modifies status
      ensures status[..] == ReadyAll(old(status[..]), ids)
    {
      var current := head;
      ghost var i := 0;
      while current != null
        invariant 0 <= i <= |nodes| && current == NodeAt(i)
        invariant ReadyAll(status[..], ids[i..]) == ReadyAll(old(status[..]), ids)
        decreases |nodes| - i
      {
        assert ids[i] == current.threadID && nodes[i].next == NodeAt(i + 1);
        status[current.threadID] := Ready;
        current := current.next;
        i := i + 1;
      }
    }
  }
}

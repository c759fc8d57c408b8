/** The pool of emi_shmem.c and include/shmem.h on the heap, refining the sequence of PoolSpec. */
module MsgPool {
  import opened Common
  import opened Lists
  import Spec = PoolSpec

  /** struct emi_transfer_buf; its list member is the node whose container it is. */
  class TransferBuf {
    var busy: bool
    var addr: nat
    var offset: nat

    constructor (offset: nat)
      ensures !busy && addr == 0 && this.offset == offset
    {
      busy, addr, this.offset := false, 0, offset;
    }
  }

  /** Each node is embedded in the buffer at its place, and no two in the same one. */
  ghost predicate Paired(links: seq<ListHead<TransferBuf?>>, bufs: seq<TransferBuf>) {
    && |links| == |bufs|
    && (forall i | 0 <= i < |bufs| :: links[i].container == bufs[i])
    && (forall i, j | 0 <= i < j < |bufs| :: bufs[i] != bufs[j])
  }

  ghost predicate Abstracts(slots: seq<Spec.Slot>, bufs: seq<TransferBuf>)
    reads bufs
  {
    |slots| == |bufs| && forall i | 0 <= i < |bufs| :: slots[i] == Spec.Slot(bufs[i].busy, bufs[i].addr, bufs[i].offset)
  }

  lemma MovedToTail(links: seq<ListHead<TransferBuf?>>, bufs: seq<TransferBuf>, slots: seq<Spec.Slot>)
    requires Paired(links, bufs) && Abstracts(slots, bufs) && bufs != []
    ensures Paired(links[1..] + [links[0]], bufs[1..] + [bufs[0]])
    ensures Abstracts(slots[1..] + [slots[0]], bufs[1..] + [bufs[0]])
    ensures multiset(bufs[1..] + [bufs[0]]) == multiset(bufs)
    ensures Without(links, 0) == links[1..]
  {
    assert bufs == [bufs[0]] + bufs[1..];
  }

  lemma PairedToHead(links: seq<ListHead<TransferBuf?>>, bufs: seq<TransferBuf>, k: nat)
    requires Paired(links, bufs) && k < |bufs|
    ensures Paired([links[k]] + Without(links, k), [bufs[k]] + Without(bufs, k))
  {}

  lemma AbstractsToHead(bufs: seq<TransferBuf>, slots: seq<Spec.Slot>, k: nat)
    requires Abstracts(slots, bufs) && k < |bufs|
    ensures Abstracts([slots[k]] + Without(slots, k), [bufs[k]] + Without(bufs, k))
  {}

  lemma SameBufs(bufs: seq<TransferBuf>, k: nat)
    requires k < |bufs|
    ensures multiset([bufs[k]] + Without(bufs, k)) == multiset(bufs)
  {
    assert bufs == bufs[..k] + [bufs[k]] + bufs[k + 1..];
  }

  lemma InitialNone(biasBase: nat, size: nat)
    ensures Spec.Initial(0, biasBase, size) == Spec.Pool([], 0)
  {}

  /** The slots that i turns of emi_init_space make are those of i - 1 turns and one more. */
  lemma InitialNext(i: nat, biasBase: nat, size: nat)
    requires 1 <= i
    ensures Spec.Initial(i, biasBase, size)
         == (var one := Spec.Slot(false, 0, (biasBase + i * size) % TWO32);
             Spec.Pool(Spec.Initial(i - 1, biasBase, size).slots + [one], 0))
  {}

  class MsgPool {
    /** __msg_list. */
    const head: ListHead<TransferBuf?>
    /** __num_busy_msg. */
    var numBusy: nat
    /** The buffers in ring order, their nodes, and their abstract values. */
    ghost var bufs: seq<TransferBuf>
    ghost var links: seq<ListHead<TransferBuf?>>
    ghost var slots: seq<Spec.Slot>

    ghost predicate Valid()
      reads this`bufs, this`links, this`slots, head, links, bufs
    {
      Ring(head, links) && Paired(links, bufs) && Abstracts(slots, bufs)
    }

    ghost function Value(): Spec.Pool
      reads this
    {
      Spec.Pool(slots, numBusy)
    }

    /** emi_init_space where every malloc succeeds: slots are numbered from 1, and offset is an eu32. */
    constructor (num: nat, biasBase: nat, size: nat)
      ensures Valid() && fresh(head) && fresh(links) && fresh(bufs)
      ensures Value() == Spec.Initial(num, biasBase, size)
    {
      head := new ListHead<TransferBuf?>(null);
      numBusy, bufs, links, slots := 0, [], [], [];
      new;
      hide Ring, Paired, Abstracts, Linked, Distinct, Spec.Initial;
      InitialNone(biasBase, size);
      var i := 1;
      while i <= num
        invariant 1 <= i <= num + 1
        invariant Valid() && fresh(head) && fresh(links) && fresh(bufs)
        invariant Value() == Spec.Initial(i - 1, biasBase, size)
      {
        InitialNext(i, biasBase, size);
        Append((biasBase + i * size) % TWO32);
        i := i + 1;
      }
    }

    /** One turn of emi_init_space. */
    method Append(offset: nat)
      requires Valid()
      modifies this`bufs, this`links, this`slots, Nodes(head, links)`next, Nodes(head, links)`prev
      ensures Valid() && numBusy == old(numBusy) && |links| == |bufs| == old(|bufs|) + 1
      ensures bufs == old(bufs) + [bufs[old(|bufs|)]] && fresh(bufs[old(|bufs|)])
      ensures links == old(links) + [links[old(|bufs|)]] && fresh(links[old(|bufs|)])
      ensures slots == old(slots) + [Spec.Slot(false, 0, offset)]
    {
      hide Linked, Distinct;
      var buf := new TransferBuf(offset);
      var node := new ListHead<TransferBuf?>(buf);
      TailNeighbour(head, links);
      AddTail(node, head, links);
      bufs, links, slots := bufs + [buf], links + [node], slots + [Spec.Slot(false, 0, offset)];
    }

    /** list_move_tail on the node of the first buffer. */
    method ToTail(node: ListHead<TransferBuf?>)
      requires Valid() && bufs != [] && node == links[0]
      modifies this`bufs, this`links, this`slots, Nodes(head, links)`next, Nodes(head, links)`prev
      ensures Valid() && multiset(bufs) == old(multiset(bufs))
      ensures bufs == old(bufs[1..]) + [old(bufs[0])]
      ensures slots == old(slots[1..]) + [old(slots[0])]
    {
      hide Ring;
      MoveTail(node, head, links, 0);
      MovedToTail(links, bufs, slots);
      bufs, links, slots := bufs[1..] + [bufs[0]], links[1..] + [links[0]], slots[1..] + [slots[0]];
    }

    /** list_move on the node of buffer k. */
    method ToHead(node: ListHead<TransferBuf?>, ghost k: nat)
      requires Valid() && k < |bufs| && node == links[k]
      modifies this`bufs, this`links, this`slots, Nodes(head, links)`next, Nodes(head, links)`prev
      ensures Valid() && multiset(bufs) == old(multiset(bufs))
      ensures bufs == [old(bufs[k])] + Without(old(bufs), k)
      ensures slots == [old(slots[k])] + Without(old(slots), k)
    {
      hide Ring, Without;
      Move(node, head, links, k);
      PairedToHead(links, bufs, k);
      AbstractsToHead(bufs, slots, k);
      SameBufs(bufs, k);
      bufs, links, slots := [bufs[k]] + Without(bufs, k), [links[k]] + Without(links, k),
          [slots[k]] + Without(slots, k);
    }

    /** Writing the busy and addr fields of buffer k changes slot k alone. */
    method Mark(buf: TransferBuf, ghost k: nat, busy: bool, addr: nat)
      requires Valid() && k < |bufs| && buf == bufs[k]
      modifies this`slots, buf
      ensures Valid() && slots == old(slots)[k := Spec.Slot(busy, addr, buf.offset)]
      ensures buf.offset == old(buf.offset) && buf.addr == addr
    {
      hide Ring;
      buf.busy := busy;
      buf.addr := addr;
      slots := slots[k := Spec.Slot(busy, addr, buf.offset)];
    }

    /** The locked part of __emi_obtain_space, and the address: the first buffer goes to the tail, busy. */
    method TakeFirst(node: ListHead<TransferBuf?>, buf: TransferBuf, base: nat)
      requires Valid() && bufs != [] && slots != [] && node == links[0] && buf == bufs[0]
      modifies this`bufs, this`links, this`slots, buf, Nodes(head, links)`next, Nodes(head, links)`prev
      ensures Valid() && multiset(bufs) == old(multiset(bufs))
      ensures buf.addr == base + old(slots[0]).offset
      ensures slots == old(slots[1..]) + [Spec.Slot(true, base + old(slots[0]).offset, old(slots[0]).offset)]
    {
      ghost var was := slots;
      assert was[0] == Spec.Slot(buf.busy, buf.addr, buf.offset) && |was| == |bufs|;
      hide *;
      ToTail(node);
      Mark(buf, |was| - 1, true, base + buf.offset);
    }

    /** What the node after the head stands for. */
    lemma First()
      requires Valid() && bufs != []
      ensures slots != [] && head.next == links[0] && links[0].container == bufs[0]
      ensures slots[0] == Spec.Slot(bufs[0].busy, bufs[0].addr, bufs[0].offset)
    {
      Neighbours(head, links, 0);
    }

    lemma ObtainedValue(p: Spec.Pool, base: nat)
      requires p.slots != []
      ensures var first := p.slots[0];
              Spec.Obtain(p, base) ==
                if first.busy then (p, 0)
                else (Spec.Pool(p.slots[1..] + [Spec.Slot(true, base + first.offset, first.offset)],
                                Increment(p.numBusy)),
                      base + first.offset)
    {}

    /** __emi_obtain_space, with base the address of the segment. */
    method Obtain(base: nat) returns (addr: nat)
      requires Valid() && bufs != []
      modifies this, bufs, Nodes(head, links)`next, Nodes(head, links)`prev
      ensures Valid() && multiset(bufs) == old(multiset(bufs))
      ensures slots != [] && old(slots) != [] && (Value(), addr) == Spec.Obtain(old(Value()), base)
    {
      First();
      ObtainedValue(Value(), base);
      var node := head.next;
      var buf := node.container;
      hide Valid, Nodes, Spec.Obtain;
      if buf.busy {
        return 0;
      }
      TakeFirst(node, buf, base);
      numBusy := Increment(numBusy);
      return buf.addr;
    }

    /** The backward search of __emi_return_space: the last buffer that carries addr, or null. */
    method FindBackwards(addr: nat) returns (found: ListHead?<TransferBuf?>, ghost k: int)
      requires Valid()
      ensures k == Spec.LastWith(slots, addr, |slots|)
      ensures found == if k < 0 || |links| <= k then null else links[k]
    {
      ghost var walk := [head] + links + [head];
      HeadIsOutside(head, links);
      var lh := head.prev;
      k := |bufs|;
      assert walk[k + 1].prev == walk[k];
      while lh != head
        invariant 0 <= k <= |bufs| && lh == walk[k]
        invariant Spec.LastWith(slots, addr, |slots|) == Spec.LastWith(slots, addr, k)
        decreases k
      {
        assert lh == links[k - 1];
        var buf := lh.container;
        k := k - 1;
        if buf.addr == addr {
          return lh, k;
        }
        assert walk[k + 1].prev == walk[k];
        lh := lh.prev;
      }
      return null, -1;
    }

    /** The found buffer goes to the front, free. */
    method Free(lh: ListHead<TransferBuf?>, ghost k: nat)
      requires Valid() && k < |bufs| && lh == links[k]
      modifies this`bufs, this`links, this`slots, bufs, Nodes(head, links)`next, Nodes(head, links)`prev
      ensures Valid() && multiset(bufs) == old(multiset(bufs))
      ensures slots == Spec.ToFront(old(slots), k)
    {
      var buf := lh.container;
      ghost var was := slots;
      assert bufs[k] == buf && was[k] == Spec.Slot(buf.busy, buf.addr, buf.offset) && |was| == |bufs|;
      assert Spec.ToFront(was, k) == [was[k].(busy := false)] + Without(was, k);
      hide *;
      ToHead(lh, k);
      assert slots[0] == was[k] && bufs[0] == buf;
      Mark(buf, 0, false, buf.addr);
      assert slots == [was[k].(busy := false)] + Without(was, k);
    }

    /** __emi_return_space. */
    method Return(addr: nat) returns (ret: int)
      requires Valid()
      modifies this, bufs, Nodes(head, links)`next, Nodes(head, links)`prev
      ensures Valid() && multiset(bufs) == old(multiset(bufs))
      ensures (Value(), ret) == Spec.Return(old(Value()), addr)
    {
      var lh, k := FindBackwards(addr);
      assert |links| == |bufs| == |slots|;
      hide Valid, Nodes, Spec.ToFront;
      if lh == null {
        return -1;
      }
      Free(lh, k);
      numBusy := Decrement(numBusy);
      return 0;
    }
  }
}

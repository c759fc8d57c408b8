/** How the shared segment is laid out: index cells, then the message slots that emi_init_space numbers from 1. */
module Layout {
  import opened Common
  import opened PoolSpec

  const EMI_DATA_SIZE_PER_MSG: nat := 1024

  /** GET_SIZE(struct emi_msg), for a header of msgSize bytes. */
  function SlotSize(msgSize: nat): nat { msgSize + EMI_DATA_SIZE_PER_MSG }

  /** The size that int_global_shm_space asks for; dataSize is the configured one. */
  function SegmentSize(pidMax: nat, msgSize: nat, dataSize: nat): nat {
    pidMax * 4 + msgSize * EMI_MAX_MSG + dataSize * EMI_MAX_MSG
  }

  /** __obtain_space_num with size 1. */
  function SlotNumber(base: int, addr: int): int { addr - base }

  lemma {:induction false} ScaledApart(i: nat, j: nat, size: nat)
    requires i < j
    ensures i * size + size <= j * size
  {
    assert (i + 1) * size <= j * size by {
      assert j * size - (i + 1) * size == (j - i - 1) * size;
    }
  }

  /** Without wrap-around, slot i starts i + 1 slot sizes behind the index cells. */
  lemma InitialOffset(num: nat, bias: nat, size: nat, i: nat)
    requires bias + num * size < TWO32 && i < num
    ensures Initial(num, bias, size).slots[i].offset == bias + (i + 1) * size
  {
    if i + 1 < num {
      ScaledApart(i + 1, num, size);
    }
  }

  /** Byte ranges of slots are pairwise disjoint, and disjoint from the index cell of every pid below pidMax. */
  lemma SlotsAreDisjoint(num: nat, pidMax: nat, size: nat, i: nat, j: nat, pid: nat)
    requires pidMax * 4 + num * size < TWO32 && i < j < num && pid < pidMax
    ensures var s := Initial(num, pidMax * 4, size).slots;
            && s[i].offset + size <= s[j].offset
            && 4 * pid + 4 <= s[i].offset
  {
    InitialOffset(num, pidMax * 4, size, i);
    InitialOffset(num, pidMax * 4, size, j);
    ScaledApart(i + 1, j + 1, size);
  }

  /** Data behind the header of a slot stays out of the next slot if and only if it has the default size at most. */
  lemma SlotRoom(num: nat, pidMax: nat, msgSize: nat, i: nat, size: nat)
    requires pidMax * 4 + num * SlotSize(msgSize) < TWO32 && i + 1 < num
    ensures var s := Initial(num, pidMax * 4, SlotSize(msgSize)).slots;
            s[i].offset + msgSize + size <= s[i + 1].offset <==> size <= EMI_DATA_SIZE_PER_MSG
  {
    InitialOffset(num, pidMax * 4, SlotSize(msgSize), i);
    InitialOffset(num, pidMax * 4, SlotSize(msgSize), i + 1);
    assert (i + 2) * SlotSize(msgSize) == (i + 1) * SlotSize(msgSize) + SlotSize(msgSize);
  }

  /** The pool that emi_init_space leaves is consistent, so every history from it is. */
  lemma InitialConsistent(num: nat, bias: nat, size: nat, base: nat)
    requires 0 < num < TWO32 && 0 < size && bias + num * size < TWO32
    ensures Consistent(Initial(num, bias, size), base)
  {
    var s := Initial(num, bias, size).slots;
    forall i | 0 <= i < num
      ensures 0 < s[i].offset
    {
      InitialOffset(num, bias, size, i);
      ScaledApart(0, i + 1, size);
    }
    forall i, j | 0 <= i < j < num
      ensures s[i].offset != s[j].offset
    {
      InitialOffset(num, bias, size, i);
      InitialOffset(num, bias, size, j);
      ScaledApart(i + 1, j + 1, size);
    }
    CountNoneBusy(s);
  }

  /** Along every valid history, the offset that is sent for an obtained slot is never the acknowledged value 0. */
  lemma ObtainedNumberIsNotZero(num: nat, bias: nat, size: nat, base: nat, ops: seq<Op>)
    requires 0 < num < TWO32 && 0 < size && bias + num * size < TWO32
    requires ValidRun(Initial(num, bias, size), base, ops)
    ensures var (_, addr) := Obtain(Run(Initial(num, bias, size), base, ops), base);
            addr != 0 ==> SlotNumber(base, addr) > 0
  {
    InitialConsistent(num, bias, size, base);
    RunKeeps(Initial(num, bias, size), base, ops);
  }

  /** Every slot of the ring has the offset of some number from 1 to num. */
  lemma {:induction false} OffsetIsNumbered(num: nat, bias: nat, size: nat, slots: seq<Slot>, i: nat)
    requires bias + num * size < TWO32 && i < |slots| && Offsets(slots) == Offsets(Initial(num, bias, size).slots)
    ensures exists n | 1 <= n <= num :: slots[i].offset == bias + n * size
  {
    InOffsets(slots, slots[i].offset);
    var s := Initial(num, bias, size).slots;
    InOffsets(s, slots[i].offset);
    var j :| 0 <= j < num && s[j].offset == slots[i].offset;
    InitialOffset(num, bias, size, j);
    assert 1 <= j + 1 <= num;
    hide Initial, Offsets;
  }

  lemma {:induction false} InOffsets(slots: seq<Slot>, x: nat)
    ensures x in Offsets(slots) <==> exists i :: 0 <= i < |slots| && slots[i].offset == x
    decreases slots
  {
    if slots != [] {
      InOffsets(slots[1..], x);
      assert forall i | 0 < i < |slots| :: slots[i] == slots[1..][i - 1];
      assert forall i | 0 <= i < |slots| - 1 :: slots[1..][i] == slots[i + 1];
    }
  }

  /**
   * Along every valid history, what is sent for an obtained slot is its place in the segment: the receiver, which
   * adds it to its own mapping of the segment, finds the slot with that number there, and every address is the one of
   * a slot.
   */
  lemma NumberFindsSlot(num: nat, bias: nat, size: nat, base: nat, ops: seq<Op>, mapped: nat)
    requires 0 < num < TWO32 && 0 < size && bias + num * size < TWO32
    requires ValidRun(Initial(num, bias, size), base, ops)
    ensures var (_, addr) := Obtain(Run(Initial(num, bias, size), base, ops), base);
            addr != 0 ==>
              && base + SlotNumber(base, addr) == addr
              && exists n | 1 <= n <= num :: mapped + SlotNumber(base, addr) == mapped + bias + n * size
  {
    InitialConsistent(num, bias, size, base);
    RunKeeps(Initial(num, bias, size), base, ops);
    var p := Run(Initial(num, bias, size), base, ops);
    OffsetIsNumbered(num, bias, size, p.slots, 0);
  }

  /** A slot ends inside the segment exactly when the configured data size leaves room for its number. */
  lemma SlotInsideSegment(pidMax: nat, msgSize: nat, dataSize: nat, i: nat)
    requires i < EMI_MAX_MSG && pidMax * 4 + EMI_MAX_MSG * SlotSize(msgSize) < TWO32
    ensures Initial(EMI_MAX_MSG, pidMax * 4, SlotSize(msgSize)).slots[i].offset + SlotSize(msgSize)
              <= SegmentSize(pidMax, msgSize, dataSize)
       <==> (i + 2) * SlotSize(msgSize) <= (msgSize + dataSize) * EMI_MAX_MSG
  {
    InitialOffset(EMI_MAX_MSG, pidMax * 4, SlotSize(msgSize), i);
    assert (i + 2) * SlotSize(msgSize) == (i + 1) * SlotSize(msgSize) + SlotSize(msgSize);
    assert (msgSize + dataSize) * EMI_MAX_MSG == msgSize * EMI_MAX_MSG + dataSize * EMI_MAX_MSG;
  }

  /** With the default data size, that is every slot but the last one. */
  lemma LastSlotOutsideSegment(pidMax: nat, msgSize: nat, i: nat)
    requires i < EMI_MAX_MSG && pidMax * 4 + EMI_MAX_MSG * SlotSize(msgSize) < TWO32
    ensures Initial(EMI_MAX_MSG, pidMax * 4, SlotSize(msgSize)).slots[i].offset + SlotSize(msgSize)
              <= SegmentSize(pidMax, msgSize, EMI_DATA_SIZE_PER_MSG)
       <==> i + 1 < EMI_MAX_MSG
  {
    SlotInsideSegment(pidMax, msgSize, EMI_DATA_SIZE_PER_MSG, i);
    if i + 2 < EMI_MAX_MSG {
      ScaledApart(i + 2, EMI_MAX_MSG, SlotSize(msgSize));
    } else if i + 1 == EMI_MAX_MSG {
      ScaledApart(EMI_MAX_MSG, i + 2, SlotSize(msgSize));
    }
  }
}

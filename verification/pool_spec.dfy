/** The pool of message slots as a sequence: what obtain and return do, and what every history of them keeps. */
module PoolSpec {
  import opened Common

  /** struct emi_transfer_buf without its links; addr 0 is NULL. */
  datatype Slot = Slot(busy: bool, addr: nat, offset: nat)

  /** The ring from the head on, and the counter of busy slots (an eu32). */
  datatype Pool = Pool(slots: seq<Slot>, numBusy: nat)

  /** __emi_obtain_space: only the first slot is looked at; 0 is a failure. */
  function Obtain(p: Pool, base: nat): (Pool, nat)
    requires p.slots != []
  {
    var first := p.slots[0];
    if first.busy then (p, 0)
    else
      var addr := base + first.offset;
      (Pool(p.slots[1..] + [Slot(true, addr, first.offset)], Increment(p.numBusy)), addr)
  }

  /** The backward search of __emi_return_space, over the first n slots; -1 if none matches. */
  function LastWith(slots: seq<Slot>, addr: nat, n: nat): (k: int)
    requires n <= |slots|
    ensures -1 <= k < n
    ensures 0 <= k ==> slots[k].addr == addr
    ensures forall i | k < i < n :: slots[i].addr != addr
  {
    if n == 0 then -1
    else if slots[n - 1].addr == addr then n - 1
    else LastWith(slots, addr, n - 1)
  }

  function ToFront(slots: seq<Slot>, k: nat): seq<Slot>
    requires k < |slots|
  {
    [slots[k].(busy := false)] + (slots[..k] + slots[k + 1..])
  }

  /** __emi_return_space: the freed slot moves to the front and keeps its addr; the counter wraps like an eu32. */
  function Return(p: Pool, addr: nat): (Pool, int) {
    var k := LastWith(p.slots, addr, |p.slots|);
    if k < 0 then (p, -1) else (Pool(ToFront(p.slots, k), Decrement(p.numBusy)), 0)
  }

  /** emi_init_space: slots are numbered from 1. */
  function Initial(num: nat, biasBase: nat, size: nat): Pool {
    Pool(seq(num, i requires 0 <= i < num => Slot(false, 0, (biasBase + (i + 1) * size) % TWO32)), 0)
  }

  // ----- What holds between operations

  function CountBusy(slots: seq<Slot>): nat {
    if slots == [] then 0 else CountBusy(slots[1..]) + if slots[0].busy then 1 else 0
  }

  /** Free slots come before busy ones. */
  ghost predicate FreeFirst(slots: seq<Slot>) {
    forall i, j | 0 <= i < j < |slots| && slots[i].busy :: slots[j].busy
  }

  ghost predicate OffsetsDistinct(slots: seq<Slot>) {
    && (forall i | 0 <= i < |slots| :: 0 < slots[i].offset)
    && (forall i, j | 0 <= i < j < |slots| :: slots[i].offset != slots[j].offset)
  }

  /** A slot has its own address once it was handed out, and NULL before. */
  ghost predicate AddressesFit(slots: seq<Slot>, base: nat) {
    forall i | 0 <= i < |slots| ::
      && (slots[i].addr == 0 || slots[i].addr == base + slots[i].offset)
      && (slots[i].busy ==> slots[i].addr == base + slots[i].offset)
  }

  ghost predicate Consistent(p: Pool, base: nat) {
    && 0 < |p.slots| < TWO32
    && FreeFirst(p.slots)
    && OffsetsDistinct(p.slots)
    && AddressesFit(p.slots, base)
    && p.numBusy == CountBusy(p.slots)
  }

  /** The addresses that are handed out and not returned. */
  ghost function Outstanding(slots: seq<Slot>): set<nat> {
    set i | 0 <= i < |slots| && slots[i].busy :: slots[i].addr
  }

  /** Which slots the ring holds, whatever their order. */
  ghost function Offsets(slots: seq<Slot>): multiset<nat> {
    if slots == [] then multiset{} else multiset{slots[0].offset} + Offsets(slots[1..])
  }

  ghost predicate AllBusy(p: Pool) {
    forall i | 0 <= i < |p.slots| :: p.slots[i].busy
  }

  lemma {:induction false} CountBusyAppend(s: seq<Slot>, t: seq<Slot>)
    ensures CountBusy(s + t) == CountBusy(s) + CountBusy(t)
  {
    if s == [] {
      assert s + t == t;
    } else {
      assert (s + t)[1..] == s[1..] + t;
      CountBusyAppend(s[1..], t);
    }
  }

  lemma {:induction false} CountBusyBound(s: seq<Slot>)
    ensures CountBusy(s) <= |s|
    ensures CountBusy(s) == |s| <==> forall i | 0 <= i < |s| :: s[i].busy
  {
    if s != [] {
      CountBusyBound(s[1..]);
      assert forall i | 0 < i < |s| :: s[i] == s[1..][i - 1];
    }
  }

  /** Looking at the head is enough: obtain fails exactly when every slot is busy. */
  lemma ObtainFailsWhenFull(p: Pool, base: nat)
    requires Consistent(p, base)
    ensures Obtain(p, base).1 == 0 <==> AllBusy(p)
    ensures Obtain(p, base).1 == 0 ==> Obtain(p, base).0 == p
  {
    if p.slots[0].busy {
      forall i | 0 <= i < |p.slots|
        ensures p.slots[i].busy
      {
        if i != 0 {
          assert p.slots[0].busy;
        }
      }
    }
  }

  lemma {:induction false} OffsetsAppend(s: seq<Slot>, t: seq<Slot>)
    ensures Offsets(s + t) == Offsets(s) + Offsets(t)
  {
    if s == [] {
      assert s + t == t;
    } else {
      assert (s + t)[1..] == s[1..] + t;
      OffsetsAppend(s[1..], t);
    }
  }

  lemma OutstandingAppend(s: seq<Slot>, t: seq<Slot>)
    ensures Outstanding(s + t) == Outstanding(s) + Outstanding(t)
  {
    forall a | a in Outstanding(s) + Outstanding(t)
      ensures a in Outstanding(s + t)
    {
      if a in Outstanding(s) {
        var i :| 0 <= i < |s| && s[i].busy && s[i].addr == a;
        assert (s + t)[i] == s[i];
      } else {
        var i :| 0 <= i < |t| && t[i].busy && t[i].addr == a;
        assert (s + t)[|s| + i] == t[i];
      }
    }
  }

  lemma OneSlot(x: Slot)
    ensures Offsets([x]) == multiset{x.offset}
    ensures CountBusy([x]) == if x.busy then 1 else 0
  {
    assert [x][1..] == [];
  }

  /** Moving a slot to either end of the ring, and changing it from x to y, seen through the three measures. */
  lemma ReorderedOffsets(s: seq<Slot>, x: Slot, t: seq<Slot>, y: Slot)
    requires x.offset == y.offset
    ensures Offsets(s + [x] + t) == Offsets([y] + (s + t)) == Offsets((s + t) + [y])
  {
    hide Offsets;
    OneSlot(x);
    OneSlot(y);
    OffsetsAppend(s + [x], t);
    OffsetsAppend(s, [x]);
    OffsetsAppend([y], s + t);
    OffsetsAppend(s, t);
    OffsetsAppend(s + t, [y]);
  }

  lemma ReorderedCount(s: seq<Slot>, x: Slot, t: seq<Slot>, y: Slot)
    ensures CountBusy([y] + (s + t)) == CountBusy((s + t) + [y])
    ensures CountBusy(s + [x] + t) + (if y.busy then 1 else 0) == CountBusy([y] + (s + t)) + (if x.busy then 1 else 0)
  {
    hide CountBusy;
    OneSlot(x);
    OneSlot(y);
    CountBusyAppend(s + [x], t);
    CountBusyAppend(s, [x]);
    CountBusyAppend([y], s + t);
    CountBusyAppend(s, t);
    CountBusyAppend(s + t, [y]);
  }

  lemma ReorderedOutstanding(s: seq<Slot>, x: Slot, t: seq<Slot>, y: Slot)
    ensures Outstanding(s + [x] + t) == Outstanding(s) + Outstanding([x]) + Outstanding(t)
    ensures Outstanding([y] + (s + t)) == Outstanding((s + t) + [y])
            == Outstanding(s) + Outstanding([y]) + Outstanding(t)
  {
    hide Outstanding;
    OutstandingAppend(s + [x], t);
    OutstandingAppend(s, [x]);
    OutstandingAppend([y], s + t);
    OutstandingAppend(s, t);
    OutstandingAppend(s + t, [y]);
  }

  lemma Reordered(s: seq<Slot>, x: Slot, t: seq<Slot>, y: Slot)
    requires x.offset == y.offset
    ensures Offsets(s + [x] + t) == Offsets([y] + (s + t)) == Offsets((s + t) + [y])
    ensures CountBusy([y] + (s + t)) == CountBusy((s + t) + [y])
    ensures CountBusy(s + [x] + t) + (if y.busy then 1 else 0) == CountBusy([y] + (s + t)) + (if x.busy then 1 else 0)
    ensures Outstanding(s + [x] + t) == Outstanding(s) + Outstanding([x]) + Outstanding(t)
    ensures Outstanding([y] + (s + t)) == Outstanding((s + t) + [y])
            == Outstanding(s) + Outstanding([y]) + Outstanding(t)
  {
    hide *;
    ReorderedOffsets(s, x, t, y);
    ReorderedCount(s, x, t, y);
    ReorderedOutstanding(s, x, t, y);
  }

  lemma TakenMeasures(p: Pool, base: nat)
    requires Consistent(p, base) && !p.slots[0].busy
    ensures var (p', addr) := Obtain(p, base);
            && CountBusy(p'.slots) == p.numBusy + 1 <= |p.slots|
            && Outstanding(p'.slots) == Outstanding(p.slots) + {addr}
            && Offsets(p'.slots) == Offsets(p.slots)
  {
    hide Offsets, CountBusy, Outstanding, FreeFirst, OffsetsDistinct, AddressesFit;
    var s, s' := p.slots, Obtain(p, base).0.slots;
    var taken := s'[|s| - 1];
    assert s == [] + [s[0]] + s[1..] && s' == ([] + s[1..]) + [taken];
    Reordered([], s[0], s[1..], taken);
    CountBusyBound(s');
    OutstandingOf([s[0]]);
    OutstandingOf([taken]);
    OutstandingOf([]);
  }

  /** A successful obtain hands out a new address and keeps the pool consistent. */
  lemma ObtainKeeps(p: Pool, base: nat)
    requires Consistent(p, base)
    ensures var (p', addr) := Obtain(p, base);
            && Consistent(p', base)
            && Outstanding(p'.slots) == Outstanding(p.slots) + (if addr == 0 then {} else {addr})
            && (addr != 0 ==> addr !in Outstanding(p.slots))
            && Offsets(p'.slots) == Offsets(p.slots)
  {
    var (p', addr) := Obtain(p, base);
    if addr != 0 {
      TakenShape(p, base);
      TakenMeasures(p, base);
      NotOutstanding(p, base);
      hide Offsets, CountBusy, Outstanding, FreeFirst, OffsetsDistinct, AddressesFit;
    }
  }

  lemma TakenShape(p: Pool, base: nat)
    requires Consistent(p, base) && !p.slots[0].busy
    ensures var s' := Obtain(p, base).0.slots; FreeFirst(s') && OffsetsDistinct(s') && AddressesFit(s', base)
  {
    hide CountBusy;
    var s, s' := p.slots, Obtain(p, base).0.slots;
    assert forall i | 0 <= i < |s| - 1 :: s'[i] == s[i + 1];
  }

  lemma OutstandingOf(one: seq<Slot>)
    requires |one| <= 1
    ensures Outstanding(one) == if one != [] && one[0].busy then {one[0].addr} else {}
  {
    if one != [] && one[0].busy {
      assert one[0].addr in Outstanding(one);
    }
  }

  lemma NotOutstanding(p: Pool, base: nat)
    requires Consistent(p, base) && !p.slots[0].busy
    ensures base + p.slots[0].offset !in Outstanding(p.slots)
  {
    forall i | 0 <= i < |p.slots| && p.slots[i].busy
      ensures p.slots[i].addr != base + p.slots[0].offset
    {}
  }

  /** In a consistent pool at most one slot carries a given address. */
  lemma AddressFindsSlot(p: Pool, base: nat, addr: nat, k: nat)
    requires Consistent(p, base) && k < |p.slots| && p.slots[k].addr == addr != 0
    ensures LastWith(p.slots, addr, |p.slots|) == k
  {
    forall i | k < i < |p.slots|
      ensures p.slots[i].addr != addr
    {
      assert p.slots[k].offset != p.slots[i].offset;
    }
  }

  /** Returning an outstanding address frees exactly its slot, although free slots keep stale addresses. */
  lemma ReturnKeeps(p: Pool, base: nat, addr: nat)
    requires Consistent(p, base) && addr in Outstanding(p.slots)
    ensures var (p', ret) := Return(p, addr);
            && ret == 0
            && Consistent(p', base)
            && Outstanding(p'.slots) == Outstanding(p.slots) - {addr}
            && Offsets(p'.slots) == Offsets(p.slots)
  {
    var s := p.slots;
    var k :| 0 <= k < |s| && s[k].busy && s[k].addr == addr;
    AddressFindsSlot(p, base, addr, k);
    ReturnedSlot(p, base, k);
  }

  lemma FreedMeasures(p: Pool, base: nat, k: nat)
    requires Consistent(p, base) && k < |p.slots| && p.slots[k].busy
    ensures CountBusy(ToFront(p.slots, k)) == p.numBusy - 1
    ensures Outstanding(ToFront(p.slots, k)) == Outstanding(p.slots) - {p.slots[k].addr}
    ensures Offsets(ToFront(p.slots, k)) == Offsets(p.slots)
  {
    OthersNotAt(p, base, k);
    hide Offsets, CountBusy, Outstanding, FreeFirst, OffsetsDistinct, AddressesFit;
    var s := p.slots;
    var freed := s[k].(busy := false);
    assert s == s[..k] + [s[k]] + s[k + 1..];
    Reordered(s[..k], s[k], s[k + 1..], freed);
    OutstandingOf([s[k]]);
    OutstandingOf([freed]);
  }

  lemma ReturnedSlot(p: Pool, base: nat, k: nat)
    requires Consistent(p, base) && k < |p.slots| && p.slots[k].busy
    ensures Consistent(Pool(ToFront(p.slots, k), Decrement(p.numBusy)), base)
    ensures Outstanding(ToFront(p.slots, k)) == Outstanding(p.slots) - {p.slots[k].addr}
    ensures Offsets(ToFront(p.slots, k)) == Offsets(p.slots)
  {
    FreedMeasures(p, base, k);
    FreedShape(p, base, k);
    hide Offsets, CountBusy, Outstanding, FreeFirst, OffsetsDistinct, AddressesFit;
  }

  lemma FreedShape(p: Pool, base: nat, k: nat)
    requires Consistent(p, base) && k < |p.slots| && p.slots[k].busy
    ensures var s' := ToFront(p.slots, k); FreeFirst(s') && OffsetsDistinct(s') && AddressesFit(s', base)
  {
    hide CountBusy;
    var s, s' := p.slots, ToFront(p.slots, k);
    assert forall i | 0 < i < |s| :: s'[i] == if i <= k then s[i - 1] else s[i];
  }

  lemma OthersNotAt(p: Pool, base: nat, k: nat)
    requires Consistent(p, base) && k < |p.slots| && p.slots[k].busy
    ensures p.slots[k].addr !in Outstanding(p.slots[..k]) && p.slots[k].addr !in Outstanding(p.slots[k + 1..])
  {
    var s := p.slots;
    forall i | 0 <= i < k && s[..k][i].busy
      ensures s[..k][i].addr != s[k].addr
    {
      assert s[i].offset != s[k].offset;
    }
    var after := s[k + 1..];
    forall i | 0 <= i < |after| && after[i].busy
      ensures after[i].addr != s[k].addr
    {
      assert after[i] == s[k + 1 + i] && s[k + 1 + i].offset != s[k].offset;
    }
  }

  /** An address that no slot carries, NULL included, changes nothing. */
  lemma ReturnUnknown(p: Pool, addr: nat)
    requires forall i | 0 <= i < |p.slots| :: p.slots[i].addr != addr
    ensures Return(p, addr) == (p, -1)
  {}

  ghost predicate NamesFreeSlot(p: Pool, addr: nat) {
    exists i :: 0 <= i < |p.slots| && p.slots[i].addr == addr && !p.slots[i].busy
  }

  /** Returning an address twice moves a free slot and miscounts. */
  lemma ReturnOfFreeMiscounts(p: Pool, base: nat, addr: nat)
    requires Consistent(p, base) && NamesFreeSlot(p, addr)
    ensures Return(p, addr).1 == 0
    ensures Return(p, addr).0.numBusy != CountBusy(Return(p, addr).0.slots)
  {
    FoundSlotIsFree(p, base, addr);
    hide Offsets, CountBusy, Outstanding, FreeFirst, OffsetsDistinct, AddressesFit, LastWith;
    var s := p.slots;
    var k := LastWith(s, addr, |s|);
    assert s == s[..k] + [s[k]] + s[k + 1..];
    Reordered(s[..k], s[k], s[k + 1..], s[k].(busy := false));
    CountBusyBound(s);
  }

  /** NULL, returned to a fresh pool, names its last slot: the counter of busy slots goes below zero, and wraps. */
  lemma NullMiscountsFreshPool(num: nat, biasBase: nat, size: nat)
    requires 0 < num
    ensures var p := Initial(num, biasBase, size);
            && NamesFreeSlot(p, 0)
            && Return(p, 0) == (Pool(ToFront(p.slots, num - 1), TWO32 - 1), 0)
            && CountBusy(Return(p, 0).0.slots) == 0
  {
    var p := Initial(num, biasBase, size);
    assert p.slots[num - 1].addr == 0 && !p.slots[num - 1].busy;
    CountNoneBusy(ToFront(p.slots, num - 1));
  }

  lemma {:induction false} CountNoneBusy(s: seq<Slot>)
    requires forall i | 0 <= i < |s| :: !s[i].busy
    ensures CountBusy(s) == 0
  {
    if s != [] {
      CountNoneBusy(s[1..]);
    }
  }

  lemma FoundSlotIsFree(p: Pool, base: nat, addr: nat)
    requires Consistent(p, base) && NamesFreeSlot(p, addr)
    ensures var k := LastWith(p.slots, addr, |p.slots|); 0 <= k && !p.slots[k].busy
  {
    hide CountBusy, FreeFirst;
    var i :| 0 <= i < |p.slots| && p.slots[i].addr == addr && !p.slots[i].busy;
    if addr != 0 {
      AddressFindsSlot(p, base, addr, i);
    }
  }

  /** A return keeps the pool consistent exactly when it does not name a slot that is free already. */
  lemma ReturnKeepsIff(p: Pool, base: nat, addr: nat)
    requires Consistent(p, base)
    ensures Consistent(Return(p, addr).0, base) <==> !NamesFreeSlot(p, addr)
  {
    if NamesFreeSlot(p, addr) {
      ReturnOfFreeMiscounts(p, base, addr);
    } else {
      var k := LastWith(p.slots, addr, |p.slots|);
      if 0 <= k {
        ReturnedSlot(p, base, k);
      }
    }
  }

  // ----- Histories

  datatype Op = ObtainOp | ReturnOp(addr: nat)

  function Step(p: Pool, base: nat, op: Op): Pool
    requires p.slots != []
  {
    match op
    case ObtainOp => Obtain(p, base).0
    case ReturnOp(addr) => Return(p, addr).0
  }

  /** A client returns what it holds, or NULL after a failed obtain: by then every slot has an address. */
  ghost predicate ValidOp(p: Pool, op: Op) {
    op.ReturnOp? ==>
      op.addr in Outstanding(p.slots) || (op.addr == 0 && forall i | 0 <= i < |p.slots| :: p.slots[i].addr != 0)
  }

  function Run(p: Pool, base: nat, ops: seq<Op>): (p': Pool)
    requires p.slots != []
    ensures p'.slots != []
    decreases ops
  {
    if ops == [] then p else Run(Step(p, base, ops[0]), base, ops[1..])
  }

  ghost predicate ValidRun(p: Pool, base: nat, ops: seq<Op>)
    requires p.slots != []
    decreases ops
  {
    ops == [] || (ValidOp(p, ops[0]) && ValidRun(Step(p, base, ops[0]), base, ops[1..]))
  }

  lemma StepKeeps(p: Pool, base: nat, op: Op)
    requires Consistent(p, base) && ValidOp(p, op)
    ensures Consistent(Step(p, base, op), base)
    ensures Offsets(Step(p, base, op).slots) == Offsets(p.slots)
  {
    match op
    case ObtainOp => ObtainKeeps(p, base);
    case ReturnOp(addr) =>
      if addr in Outstanding(p.slots) {
        ReturnKeeps(p, base, addr);
      } else {
        ReturnUnknown(p, addr);
      }
  }

  /** Every history of obtain and valid return keeps the pool consistent and its slots the initial ones. */
  lemma {:induction false} RunKeeps(p: Pool, base: nat, ops: seq<Op>)
    requires Consistent(p, base) && ValidRun(p, base, ops)
    ensures Consistent(Run(p, base, ops), base)
    ensures Offsets(Run(p, base, ops).slots) == Offsets(p.slots)
    decreases ops
  {
    hide Offsets, FreeFirst, OffsetsDistinct, AddressesFit, CountBusy, Step;
    if ops != [] {
      StepKeeps(p, base, ops[0]);
      RunKeeps(Step(p, base, ops[0]), base, ops[1..]);
    }
  }

  /** Once every slot has been handed out, returning NULL never changes the pool again. */
  lemma {:induction false} NullStaysUnknown(p: Pool, base: nat, ops: seq<Op>)
    requires Consistent(p, base) && ValidRun(p, base, ops)
    requires forall i | 0 <= i < |p.slots| :: p.slots[i].addr != 0
    ensures Return(Run(p, base, ops), 0) == (Run(p, base, ops), -1)
    decreases ops
  {
    hide FreeFirst, OffsetsDistinct, AddressesFit, CountBusy, Step, Offsets;
    if ops == [] {
      ReturnUnknown(p, 0);
    } else {
      StepKeeps(p, base, ops[0]);
      StepKeepsAddresses(p, base, ops[0]);
      NullStaysUnknown(Step(p, base, ops[0]), base, ops[1..]);
    }
  }

  lemma StepKeepsAddresses(p: Pool, base: nat, op: Op)
    requires Consistent(p, base) && forall i | 0 <= i < |p.slots| :: p.slots[i].addr != 0
    ensures forall i | 0 <= i < |Step(p, base, op).slots| :: Step(p, base, op).slots[i].addr != 0
  {
    hide CountBusy;
    assert 0 < p.slots[0].offset;
  }

  /** A failed obtain shows that every slot has been handed out. */
  lemma FailedObtainUsedAll(p: Pool, base: nat)
    requires Consistent(p, base) && Obtain(p, base).1 == 0
    ensures forall i | 0 <= i < |p.slots| :: p.slots[i].addr != 0
  {
    ObtainFailsWhenFull(p, base);
  }
}

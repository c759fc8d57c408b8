/** The inductive invariant of the delivery protocol, part by part, and that every step keeps it. */
module DeliveryInvariant {
  import opened Common
  import opened Registry
  import opened Delivery

  // ----- The lock

  ghost predicate Owner(s: State, w: nat) {
    w < |s.workers| && s.workers[w].pc.Holds()
  }

  ghost predicate LockInv(s: State) {
    && (s.lock.Some? ==> Owner(s, s.lock.value))
    && (forall w | 0 <= w < |s.workers| :: s.workers[w].pc.Holds() ==> s.lock == Some(w))
  }

  lemma WorkKeepsLock(s: State, w: nat, step: WorkStep)
    requires LockInv(s) && w < |s.workers| && CanWork(s, w, step)
    ensures LockInv(DoWork(s, w, step))
  {
    hide Insert, Delete, FirstFrom, Hash;
  }

  // ----- Slots

  ghost predicate Owns(s: State, w: nat, x: nat) {
    w < |s.workers| && s.workers[w].pc.HasSlot() && s.workers[w].slot == x
  }

  ghost predicate Owned(s: State, x: nat) {
    exists w :: Owns(s, w, x)
  }

  /** The slots of owners are slots of the pool; none is 0. */
  ghost predicate PoolInv(s: State) {
    && 0 !in s.count
    && (forall x | x in s.count :: s.count[x] < TWO32)
    && (forall w | 0 <= w < |s.workers| :: s.workers[w].pc.HasSlot() ==> s.workers[w].slot in s.count)
  }

  lemma WorkKeepsPool(s: State, w: nat, step: WorkStep)
    requires PoolInv(s) && w < |s.workers| && CanWork(s, w, step)
    ensures PoolInv(DoWork(s, w, step))
  {
    hide Insert, Delete, FirstFrom, Hash;
  }

  // ----- Ownership of slots, in orderly runs

  /** Nobody holds the slot that is obtained. */
  ghost function Orderly(): (State, Action) -> bool {
    (s: State, a: Action) => a.Work? && a.work.Obtain? ==> !Owned(s, a.work.slot)
  }

  /** No slot has two owners. */
  ghost predicate OwnersDiffer(s: State) {
    forall v, w | 0 <= v < w < |s.workers| :: s.workers[v].pc.HasSlot() && s.workers[w].pc.HasSlot() ==>
      s.workers[v].slot != s.workers[w].slot
  }

  lemma WorkKeepsOwnersApart(s: State, w: nat, step: WorkStep)
    requires OwnersDiffer(s) && w < |s.workers| && CanWork(s, w, step) && Orderly()(s, Work(w, step))
    ensures OwnersDiffer(DoWork(s, w, step))
  {
    hide Effect, FirstFrom, Hash;
    var t := DoWork(s, w, step);
    forall v, u | 0 <= v < u < |t.workers| && t.workers[v].pc.HasSlot() && t.workers[u].pc.HasSlot()
      ensures t.workers[v].slot != t.workers[u].slot
    {
      if step.Obtain? {
        assert !Owns(s, v, step.slot) && !Owns(s, u, step.slot);
      }
    }
  }

  // ----- Targets

  /** Every pid in the table and in a worker's hands has an index cell, and every message has a bucket. */
  ghost predicate TargetInv(s: State) {
    && (forall h, i | 0 <= h < |s.table| && 0 <= i < |s.table[h]| :: HasCell(s, s.table[h][i].pid))
    && (forall w | 0 <= w < |s.workers| :: InTable(s.table, s.workers[w].msg))
    && (forall w | 0 <= w < |s.workers| :: s.workers[w].pc.HasTarget() ==> HasCell(s, s.workers[w].pc.pid))
  }

  lemma WorkKeepsTargets(s: State, w: nat, step: WorkStep)
    requires TargetInv(s) && w < |s.workers| && CanWork(s, w, step)
    ensures TargetInv(DoWork(s, w, step))
  {
    hide Hash;
  }

  // ----- The table

  /**
   * What the step of a worker does to the set of registrations: its own pair is added, or the dead process's removed.
   */
  function Registered(s: State, w: nat, step: WorkStep, pairs: set<Entry>): set<Entry>
    requires w < |s.workers| && CanWork(s, w, step)
  {
    var Worker(pc, _, msg, _) := s.workers[w];
    match step
    case Register(pid, memory) => if memory then pairs + {Entry(msg, pid)} else pairs
    case Remove => pairs - {Entry(msg, pc.pid)}
    case _ => pairs
  }

  lemma WorkRefinesPairs(s: State, w: nat, step: WorkStep)
    requires WellFormed(s.table) && w < |s.workers| && CanWork(s, w, step)
    ensures WellFormed(DoWork(s, w, step).table)
    ensures Pairs(DoWork(s, w, step).table) == Registered(s, w, step, Pairs(s.table))
  {
    var Worker(pc, _, msg, _) := s.workers[w];
    match step
    case Register(pid, memory) =>
      InsertRefines(s.table, Entry(msg, pid), memory);
      InsertCodes(s.table, Entry(msg, pid), memory);
      hide Insert, Pairs, WellFormed, Hash;
    case Remove =>
      DeleteRefines(s.table, Entry(msg, pc.pid));
      hide Delete, Pairs, WellFormed, Hash;
    case _ =>
      assert DoWork(s, w, step).table == s.table;
  }

  // ----- Index cells

  /** Nothing under way in the process. */
  ghost predicate Quiet(q: Proc) {
    q.cell == 0 && !q.pending && !q.handler.Unread()
  }

  /** The process was signalled for slot x and its handler has not cleared the cell. */
  ghost predicate InFlight(q: Proc, x: nat) {
    && q.cell == x
    && if q.pending then !q.handler.Unread() else q.handler.Entered? || q.handler == HasRead(x)
  }

  /** What the lock holder at pc with slot x may find in its target. */
  ghost predicate Expected(pc: Pc, x: nat, q: Proc) {
    if pc.Written? || pc.KillFailed? then q.cell == x && !q.pending && !q.handler.Unread()
    else Quiet(q) || (pc.Sent() && InFlight(q, x))
  }

  ghost predicate Targets(s: State, w: nat, p: nat) {
    Owner(s, w) && s.workers[w].pc.pid == p
  }

  ghost predicate OnlyTargetBusy(s: State) {
    forall p | 0 <= p < |s.procs| :: Quiet(s.procs[p]) || (s.lock.Some? && Targets(s, s.lock.value, p))
  }

  ghost predicate HolderExpects(s: State) {
    forall w | 0 <= w < |s.workers| :: s.workers[w].pc.Holds() && HasCell(s, s.workers[w].pc.pid) ==>
      Expected(s.workers[w].pc, s.workers[w].slot, s.procs[s.workers[w].pc.pid])
  }

  ghost predicate CellInv(s: State) {
    OnlyTargetBusy(s) && HolderExpects(s)
  }

  lemma WorkKeepsQuiet(s: State, w: nat, step: WorkStep)
    requires LockInv(s) && PoolInv(s) && CellInv(s) && w < |s.workers| && CanWork(s, w, step)
    ensures OnlyTargetBusy(DoWork(s, w, step))
  {
    hide Insert, Delete, FirstFrom, Hash;
  }

  lemma WorkKeepsExpected(s: State, w: nat, step: WorkStep)
    requires LockInv(s) && PoolInv(s) && TargetInv(s) && CellInv(s) && w < |s.workers| && CanWork(s, w, step)
    ensures HolderExpects(DoWork(s, w, step))
  {
    hide Insert, Delete, FirstFrom, Hash;
  }

  lemma WorkKeepsCells(s: State, w: nat, step: WorkStep)
    requires LockInv(s) && PoolInv(s) && TargetInv(s) && CellInv(s) && w < |s.workers| && CanWork(s, w, step)
    ensures CellInv(DoWork(s, w, step))
  {
    hide LockInv, PoolInv, TargetInv, OnlyTargetBusy, HolderExpects;
    WorkKeepsQuiet(s, w, step);
    WorkKeepsExpected(s, w, step);
  }

  // ----- Counts

  function Serves(x: nat): Proc -> nat {
    (q: Proc) => if q.handler == Serving(x) then 1 else 0
  }

  /** How many handlers are serving slot x. */
  function InService(procs: seq<Proc>, x: nat): nat { Sum(procs, Serves(x)) }

  /** The signal of the worker has not reached the point where its cell is cleared. */
  ghost predicate Unheard(s: State, w: nat)
    requires w < |s.workers|
  {
    var Worker(pc, slot, _, _) := s.workers[w];
    pc.Sent() && HasCell(s, pc.pid) && InFlight(s.procs[pc.pid], slot)
  }

  /** What count would be without wrap-around: handlers still to count down, less a count++ still to come. */
  ghost function Owed(s: State, w: nat): int
    requires w < |s.workers|
  {
    InService(s.procs, s.workers[w].slot) + (if Unheard(s, w) then 1 else 0) - (if s.workers[w].pc.Signalled? then 1
                                                                                else 0)
  }

  /** An unsigned 32-bit field counted up and down to n. */
  function Wrap(n: int): nat { n % TWO32 }

  /** A slot under delivery has the count it owes; before and after, no handler serves it. */
  ghost predicate Counted(s: State, w: nat)
    requires w < |s.workers|
  {
    var Worker(pc, slot, _, _) := s.workers[w];
    && (pc.Active() && slot in s.count ==> s.count[slot] == Wrap(Owed(s, w)))
    && (pc.HasSlot() && !pc.Active() ==> InService(s.procs, slot) == 0)
  }

  /** Some worker is delivering the slot. */
  ghost predicate Delivered(s: State, x: nat) {
    exists w :: Delivers(s, w, x)
  }

  ghost predicate Delivers(s: State, w: nat, x: nat) {
    w < |s.workers| && s.workers[w].pc.Active() && s.workers[w].slot == x
  }

  ghost predicate CountInv(s: State) {
    && |s.procs| < TWO32 - 1
    && (forall p | 0 <= p < |s.procs| :: s.procs[p].handler.Serving? ==>
          s.procs[p].handler.slot in s.count && Delivered(s, s.procs[p].handler.slot))
    && (forall w | 0 <= w < |s.workers| :: Counted(s, w))
  }

  // ----- History

  /** Offsets the process was signalled for and has not read. */
  function Outstanding(q: Proc): seq<nat> {
    if q.pending || q.handler.Entered? then [q.cell] else []
  }

  ghost predicate HistoryInv(s: State) {
    forall p | 0 <= p < |s.procs| :: s.procs[p].sent == s.procs[p].heard + Outstanding(s.procs[p])
  }

  lemma WorkKeepsHistory(s: State, w: nat, step: WorkStep)
    requires LockInv(s) && CellInv(s) && HistoryInv(s) && w < |s.workers| && CanWork(s, w, step)
    ensures HistoryInv(DoWork(s, w, step))
  {
    hide Insert, Delete, FirstFrom, Hash;
  }

  lemma WorkKeepsServices(s: State, w: nat, step: WorkStep, x: nat)
    requires w < |s.workers| && CanWork(s, w, step)
    ensures InService(DoWork(s, w, step).procs, x) == InService(s.procs, x)
  {
    hide Insert, Delete, FirstFrom, Hash;
    var pc := s.workers[w].pc;
    if step in {WriteCell, KillOk, Withdraw} {
      SumUpdate(s.procs, pc.pid, DoWork(s, w, step).procs[pc.pid], Serves(x));
    }
  }

  lemma UnownedSlotNotServed(s: State, x: nat)
    requires CountInv(s) && !Owned(s, x)
    ensures InService(s.procs, x) == 0
  {
    assert forall w | Delivers(s, w, x) :: Owns(s, w, x);
    SumIsZero(s.procs, Serves(x));
  }

  lemma ServicesAreFew(s: State, x: nat)
    ensures InService(s.procs, x) <= |s.procs|
  {
    SumIsBounded(s.procs, Serves(x), 1);
  }

  lemma Wraps(n: int)
    ensures Increment(Wrap(n)) == Wrap(n + 1)
    ensures Decrement(Wrap(n)) == Wrap(n - 1)
    ensures 0 <= n < TWO32 ==> Wrap(n) == n
  {}

  lemma WorkKeepsOthersCount(s: State, w: nat, step: WorkStep, v: nat)
    requires LockInv(s) && PoolInv(s) && OwnersDiffer(s) && CountInv(s)
    requires w < |s.workers| && CanWork(s, w, step) && v < |s.workers| && v != w
    ensures Counted(DoWork(s, w, step), v)
  {
    hide Insert, Delete, FirstFrom, Hash, InService, Wrap;
    WorkKeepsServices(s, w, step, s.workers[v].slot);
    assert Counted(s, v);
    assert s.workers[v].pc.Sent() ==> s.lock == Some(v);
    assert Unheard(DoWork(s, w, step), v) == Unheard(s, v);
  }

  /** Of the worker's own steps, only its kill makes it wait to be heard. */
  lemma WorkUnheard(s: State, w: nat, step: WorkStep)
    requires PoolInv(s) && TargetInv(s) && CellInv(s) && w < |s.workers| && CanWork(s, w, step)
    ensures Unheard(DoWork(s, w, step), w) == (step.KillOk? || Unheard(s, w))
    ensures step.KillOk? ==> !Unheard(s, w)
  {
    hide Insert, Delete, FirstFrom, Hash;
  }

  /** A kill owes a count-down and a count-up; only the count-up changes what is owed. */
  lemma WorkOwes(s: State, w: nat, step: WorkStep)
    requires PoolInv(s) && TargetInv(s) && CellInv(s) && w < |s.workers| && CanWork(s, w, step) && !step.Obtain?
    ensures Owed(DoWork(s, w, step), w) == Owed(s, w) + if step.CountUp? then 1 else 0
  {
    WorkKeepsServices(s, w, step, s.workers[w].slot);
    WorkUnheard(s, w, step);
    hide Insert, Delete, FirstFrom, Hash, InService, Unheard, SetProc, PoolInv, TargetInv, CellInv;
  }

  /** When a delivery begins and ends. */
  lemma WorkPhases(s: State, w: nat, step: WorkStep)
    requires w < |s.workers| && CanWork(s, w, step) && !step.Obtain?
    ensures var t := DoWork(s, w, step);
            var v, v', x := s.workers[w], t.workers[w], s.workers[w].slot;
            && |t.workers| == |s.workers| && v'.slot == x
            && (v'.pc.HasSlot() ==> v.pc.HasSlot())
            && (v'.pc.Active() ==> v'.pc.HasSlot() && (v.pc.Active() || step.Arrive?))
            && (v.pc.Active() ==> v'.pc.Active() || (step.Drained? && x in s.count && s.count[x] == 0))
            && (step.Arrive? ==> !v.pc.Active() && v.pc.HasSlot())
            && (step.Arrive? || step.Drained? ==> Owed(s, w) == InService(s.procs, x))
  {
    hide Effect, FirstFrom, Hash, InService;
  }

  /** What a step does to the count of its worker's slot. */
  lemma WorkCount(s: State, w: nat, step: WorkStep)
    requires PoolInv(s) && w < |s.workers| && CanWork(s, w, step) && s.workers[w].pc.HasSlot()
    ensures var t, x := DoWork(s, w, step), s.workers[w].slot;
            && x in s.count && x in t.count
            && t.count[x] == if step.Arrive? then 0 else if step.CountUp? then Increment(s.count[x]) else s.count[x]
  {
    hide Insert, Delete, NextPc, Hash, Increment;
  }

  lemma NewSlotCounted(s: State, w: nat, step: WorkStep)
    requires CountInv(s) && w < |s.workers| && CanWork(s, w, step) && step.Obtain? && Orderly()(s, Work(w, step))
    ensures Counted(DoWork(s, w, step), w)
  {
    var x := step.slot;
    WorkKeepsServices(s, w, step, x);
    UnownedSlotNotServed(s, x);
    hide InService, Unheard, Wrap, CountInv, Hash;
  }

  lemma WorkKeepsOwnCount(s: State, w: nat, step: WorkStep)
    requires PoolInv(s) && OwnersDiffer(s) && TargetInv(s) && CellInv(s) && CountInv(s)
    requires w < |s.workers| && CanWork(s, w, step) && !step.Obtain? && s.workers[w].pc.HasSlot()
    ensures Counted(DoWork(s, w, step), w)
  {
    var pc, x := s.workers[w].pc, s.workers[w].slot;
    assert Counted(s, w);
    WorkKeepsServices(s, w, step, x);
    ServicesAreFew(s, x);
    WorkPhases(s, w, step);
    WorkCount(s, w, step);
    WorkOwes(s, w, step);
    Wraps(Owed(s, w));
    Wraps(0);
    hide DoWork, InService, Wrap, Increment, Unheard, PoolInv, OwnersDiffer, TargetInv, CellInv, CountInv, Hash,
         CanWork;
    hide pc.Active, pc.HasSlot, pc.Holds, pc.HasTarget, pc.Sent;
  }

  lemma SlotlessCounted(s: State, w: nat)
    requires w < |s.workers| && !s.workers[w].pc.HasSlot()
    ensures Counted(s, w)
  {}

  lemma WorkKeepsCounted(s: State, w: nat, step: WorkStep, v: nat)
    requires LockInv(s) && PoolInv(s) && OwnersDiffer(s) && TargetInv(s) && CellInv(s) && CountInv(s)
    requires w < |s.workers| && CanWork(s, w, step) && Orderly()(s, Work(w, step)) && v < |s.workers|
    ensures Counted(DoWork(s, w, step), v)
  {
    hide Insert, Delete, FirstFrom, Hash, InService, Counted, Orderly;
    if v == w && step.Obtain? {
      NewSlotCounted(s, w, step);
    } else if v == w && s.workers[w].pc.HasSlot() {
      WorkKeepsOwnCount(s, w, step);
    } else if v == w {
      SlotlessCounted(DoWork(s, w, step), w);
    } else {
      WorkKeepsOthersCount(s, w, step, v);
    }
  }

  /** A worker ends its delivery when no handler serves its slot any more. */
  lemma WorkKeepsServing(s: State, w: nat, step: WorkStep, p: nat)
    requires PoolInv(s) && CountInv(s) && w < |s.workers| && CanWork(s, w, step)
    requires Counted(DoWork(s, w, step), w) && p < |s.procs| && s.procs[p].handler.Serving?
    ensures var t, x := DoWork(s, w, step), s.procs[p].handler.slot; p < |t.procs| && x in t.count && Delivered(t, x)
  {
    hide Insert, Delete, FirstFrom, Hash, Counted;
    var t, x := DoWork(s, w, step), s.procs[p].handler.slot;
    var v: nat :| Delivers(s, v, x);
    if v != w || t.workers[w].pc.Active() {
      assert Delivers(t, v, x);
    } else {
      NoLongerActive(s, w, step);
      assert t.procs[p].handler == Serving(x);
      DoneNotServed(t, w);
    }
  }

  lemma NoLongerActive(s: State, w: nat, step: WorkStep)
    requires w < |s.workers| && CanWork(s, w, step) && s.workers[w].pc.Active() && !NextPc(s, w, step).Active()
    ensures DoWork(s, w, step).workers[w].pc.HasSlot() && DoWork(s, w, step).procs == s.procs
    ensures DoWork(s, w, step).workers[w].slot == s.workers[w].slot
  {
    hide Hash, FirstFrom;
  }

  lemma DoneNotServed(s: State, w: nat)
    requires w < |s.workers| && Counted(s, w) && s.workers[w].pc.HasSlot() && !s.workers[w].pc.Active()
    ensures forall p | 0 <= p < |s.procs| :: s.procs[p].handler != Serving(s.workers[w].slot)
  {
    SumIsZero(s.procs, Serves(s.workers[w].slot));
  }

  lemma WorkKeepsHandlers(s: State, w: nat, step: WorkStep, p: nat)
    requires w < |s.workers| && CanWork(s, w, step) && p < |s.procs|
    ensures p < |DoWork(s, w, step).procs| && DoWork(s, w, step).procs[p].handler == s.procs[p].handler
  {
    hide NextPc;
  }

  lemma WorkKeepsCounts(s: State, w: nat, step: WorkStep)
    requires LockInv(s) && PoolInv(s) && OwnersDiffer(s) && TargetInv(s) && CellInv(s) && CountInv(s)
    requires w < |s.workers| && CanWork(s, w, step) && Orderly()(s, Work(w, step))
    ensures CountInv(DoWork(s, w, step))
  {
    hide LockInv, PoolInv, OwnersDiffer, TargetInv, CellInv, Counted, Orderly, DoWork, CanWork, Delivered;
    var t := DoWork(s, w, step);
    WorkKeepsSizes(s, w, step);
    forall v | 0 <= v < |s.workers|
      ensures Counted(t, v)
    {
      WorkKeepsCounted(s, w, step, v);
    }
    forall p | 0 <= p < |s.procs|
      ensures t.procs[p].handler == s.procs[p].handler
      ensures t.procs[p].handler.Serving? ==>
                t.procs[p].handler.slot in t.count && Delivered(t, t.procs[p].handler.slot)
    {
      WorkKeepsHandlers(s, w, step, p);
      if s.procs[p].handler.Serving? {
        WorkKeepsServing(s, w, step, p);
      }
    }
  }

  lemma WorkKeepsSizes(s: State, w: nat, step: WorkStep)
    requires w < |s.workers| && CanWork(s, w, step)
    ensures |DoWork(s, w, step).procs| == |s.procs| && |DoWork(s, w, step).workers| == |s.workers|
  {
    hide NextPc, Insert, Delete;
  }

  // ----- Steps of handlers

  lemma HandleKeepsLockTargets(s: State, p: nat, step: HandleStep)
    requires LockInv(s) && TargetInv(s) && p < |s.procs| && CanHandle(s, p, step)
    ensures LockInv(DoHandle(s, p, step)) && TargetInv(DoHandle(s, p, step))
  {
    hide Hash;
  }

  lemma HandleKeepsPool(s: State, p: nat, step: HandleStep)
    requires PoolInv(s) && p < |s.procs| && CanHandle(s, p, step)
    ensures PoolInv(DoHandle(s, p, step))
  {
    hide Hash;
  }

  lemma HandleKeepsOwners(s: State, p: nat, step: HandleStep)
    requires OwnersDiffer(s) && p < |s.procs| && CanHandle(s, p, step)
    ensures OwnersDiffer(DoHandle(s, p, step))
  {
    assert DoHandle(s, p, step).workers == s.workers;
    hide DoHandle;
  }

  lemma HandleKeepsCells(s: State, p: nat, step: HandleStep)
    requires LockInv(s) && PoolInv(s) && TargetInv(s) && CellInv(s) && p < |s.procs| && CanHandle(s, p, step)
    ensures CellInv(DoHandle(s, p, step))
  {
    hide Hash;
  }

  lemma HandleKeepsHistory(s: State, p: nat, step: HandleStep)
    requires CellInv(s) && HistoryInv(s) && p < |s.procs| && CanHandle(s, p, step)
    ensures HistoryInv(DoHandle(s, p, step))
  {
    hide Hash;
  }

  lemma HandleKeepsServing(s: State, p: nat, step: HandleStep)
    requires LockInv(s) && PoolInv(s) && CellInv(s) && CountInv(s) && p < |s.procs| && CanHandle(s, p, step)
    ensures var t := DoHandle(s, p, step);
            forall r | 0 <= r < |t.procs| :: t.procs[r].handler.Serving? ==>
              t.procs[r].handler.slot in t.count && Delivered(t, t.procs[r].handler.slot)
  {
    hide Hash, Counted;
    var t := DoHandle(s, p, step);
    assert t.workers == s.workers && t.count.Keys == s.count.Keys;
    forall w: nat, x: nat | Delivers(s, w, x)
      ensures Delivers(t, w, x)
    {}
    if step.ClearCell? {
      assert s.lock.Some?;
      assert Delivers(s, s.lock.value, s.procs[p].handler.nth);
    }
  }

  /** The handler starts serving slot x. */
  predicate Begins(s: State, p: nat, step: HandleStep, x: nat)
    requires p < |s.procs|
  {
    step.ClearCell? && s.procs[p].handler == HasRead(x)
  }

  /** The handler counts slot x down. */
  predicate Ends(s: State, p: nat, step: HandleStep, x: nat)
    requires p < |s.procs|
  {
    step.CountDown? && s.procs[p].handler == Serving(x)
  }

  lemma HandleServices(s: State, p: nat, step: HandleStep, x: nat)
    requires p < |s.procs| && CanHandle(s, p, step)
    ensures InService(DoHandle(s, p, step).procs, x) == InService(s.procs, x)
              + (if Begins(s, p, step, x) then 1 else 0) - (if Ends(s, p, step, x) then 1 else 0)
    ensures Ends(s, p, step, x) ==> InService(s.procs, x) > 0
  {
    SumUpdate(s.procs, p, DoHandle(s, p, step).procs[p], Serves(x));
    SumIsZero(s.procs, Serves(x));
  }

  /** The one handler that begins a slot is the one its owner waits for. */
  lemma HandleHears(s: State, p: nat, step: HandleStep, w: nat)
    requires LockInv(s) && PoolInv(s) && OwnersDiffer(s) && TargetInv(s) && CellInv(s)
    requires p < |s.procs| && CanHandle(s, p, step) && w < |s.workers| && s.workers[w].pc.HasSlot()
    ensures Unheard(s, w) == (Unheard(DoHandle(s, p, step), w) || Begins(s, p, step, s.workers[w].slot))
    ensures Begins(s, p, step, s.workers[w].slot) ==> !Unheard(DoHandle(s, p, step), w)
  {
    hide Hash;
  }

  lemma HandleCount(s: State, p: nat, step: HandleStep, x: nat)
    requires p < |s.procs| && CanHandle(s, p, step) && x in s.count
    ensures var t := DoHandle(s, p, step);
            && t.workers == s.workers && |t.procs| == |s.procs| && x in t.count
            && t.count[x] == if Ends(s, p, step, x) then Decrement(s.count[x]) else s.count[x]
  {}

  /** A count-down pays what is owed; a signal that is heard is owed by a handler from then on. */
  lemma HandleOwes(s: State, p: nat, step: HandleStep, w: nat)
    requires LockInv(s) && PoolInv(s) && OwnersDiffer(s) && TargetInv(s) && CellInv(s)
    requires p < |s.procs| && CanHandle(s, p, step) && w < |s.workers| && s.workers[w].pc.HasSlot()
    ensures var t, x := DoHandle(s, p, step), s.workers[w].slot;
            && t.workers == s.workers
            && Owed(t, w) == Owed(s, w) - (if Ends(s, p, step, x) then 1 else 0)
            && (!s.workers[w].pc.Active() ==> InService(t.procs, x) <= InService(s.procs, x))
  {
    var x := s.workers[w].slot;
    assert DoHandle(s, p, step).workers == s.workers;
    assert Unheard(s, w) ==> s.workers[w].pc.Active();
    HandleServices(s, p, step, x);
    HandleHears(s, p, step, w);
    hide DoHandle, InService, Unheard, Begins, Ends, LockInv, PoolInv, OwnersDiffer, TargetInv, CellInv, Hash,
         CanHandle;
  }

  lemma HandleKeepsCounted(s: State, p: nat, step: HandleStep, w: nat)
    requires LockInv(s) && PoolInv(s) && OwnersDiffer(s) && TargetInv(s) && CellInv(s) && CountInv(s)
    requires p < |s.procs| && CanHandle(s, p, step) && w < |s.workers| && s.workers[w].pc.HasSlot()
    ensures Counted(DoHandle(s, p, step), w)
  {
    var pc, x := s.workers[w].pc, s.workers[w].slot;
    assert Counted(s, w) && x in s.count;
    Wraps(Owed(s, w));
    HandleOwes(s, p, step, w);
    HandleCount(s, p, step, x);
    hide DoHandle, InService, Owed, Wrap, Decrement, Ends;
    hide LockInv, PoolInv, OwnersDiffer, TargetInv, CellInv, CountInv, Hash, CanHandle;
    hide pc.Active, pc.HasSlot, pc.Holds, pc.HasTarget, pc.Sent;
  }

  lemma HandleKeepsCounts(s: State, p: nat, step: HandleStep)
    requires LockInv(s) && PoolInv(s) && OwnersDiffer(s) && TargetInv(s) && CellInv(s) && CountInv(s)
    requires p < |s.procs| && CanHandle(s, p, step)
    ensures CountInv(DoHandle(s, p, step))
  {
    hide Hash, Counted;
    HandleKeepsServing(s, p, step);
    forall w | 0 <= w < |s.workers|
      ensures Counted(DoHandle(s, p, step), w)
    {
      if s.workers[w].pc.HasSlot() {
        HandleKeepsCounted(s, p, step, w);
      } else {
        assert DoHandle(s, p, step).workers == s.workers;
        SlotlessCounted(DoHandle(s, p, step), w);
      }
    }
  }

  // ----- All of it

  /** What every run keeps. */
  ghost predicate Inv(s: State) {
    LockInv(s) && PoolInv(s) && TargetInv(s) && CellInv(s) && HistoryInv(s) && WellFormed(s.table)
  }

  /** What orderly runs keep besides. */
  ghost predicate ApartInv(s: State) {
    OwnersDiffer(s) && CountInv(s)
  }

  lemma InitInv(s: State)
    requires Init(s)
    ensures Inv(s) && ApartInv(s)
  {}

  lemma AcceptKeeps(s: State, msg: bv32)
    requires Inv(s) && InTable(s.table, msg)
    ensures Inv(Do(s, Accept(msg)))
  {
    hide Hash;
  }

  lemma AcceptKeepsApart(s: State, msg: bv32)
    requires ApartInv(s) && InTable(s.table, msg)
    ensures ApartInv(Do(s, Accept(msg)))
  {
    hide Hash, InService, Wrap;
    var t := Do(s, Accept(msg));
    assert forall w, x | Delivers(s, w, x) :: Delivers(t, w, x);
    forall w | 0 <= w < |t.workers|
      ensures Counted(t, w)
    {
      if w < |s.workers| {
        assert Counted(s, w);
      }
    }
  }

  /** One step of any thread or process keeps the invariant. */
  lemma StepKeeps(s: State, a: Action)
    requires Inv(s) && Enabled(s, a)
    ensures Inv(Do(s, a))
  {
    hide LockInv, PoolInv, TargetInv, CellInv, HistoryInv;
    match a
    case Accept(msg) => AcceptKeeps(s, msg);
    case Work(w, step) =>
      WorkKeepsLock(s, w, step);
      WorkKeepsPool(s, w, step);
      WorkKeepsTargets(s, w, step);
      WorkKeepsCells(s, w, step);
      WorkKeepsHistory(s, w, step);
      WorkRefinesPairs(s, w, step);
    case Handle(p, step) =>
      HandleKeepsLockTargets(s, p, step);
      HandleKeepsPool(s, p, step);
      HandleKeepsCells(s, p, step);
      HandleKeepsHistory(s, p, step);
      assert DoHandle(s, p, step).table == s.table;
  }

  /** One step that takes no slot that somebody holds keeps the slots apart and the counts right. */
  lemma StepKeepsApart(s: State, a: Action)
    requires Inv(s) && ApartInv(s) && Enabled(s, a) && Orderly()(s, a)
    ensures ApartInv(Do(s, a))
  {
    hide LockInv, PoolInv, OwnersDiffer, TargetInv, CellInv, CountInv, HistoryInv, Orderly;
    match a
    case Accept(msg) => AcceptKeepsApart(s, msg);
    case Work(w, step) =>
      WorkKeepsOwnersApart(s, w, step);
      WorkKeepsCounts(s, w, step);
    case Handle(p, step) =>
      HandleKeepsOwners(s, p, step);
      HandleKeepsCounts(s, p, step);
  }

  /** Every state of every interleaving has the invariant. */
  lemma {:induction false} RunKeeps(s: State, actions: seq<Action>)
    requires Inv(s) && ValidRun(s, actions)
    ensures Inv(After(s, actions))
    decreases actions
  {
    hide Inv;
    if actions != [] {
      StepKeeps(s, actions[0]);
      RunKeeps(Do(s, actions[0]), actions[1..]);
    }
  }

  lemma {:induction false} RunKeepsApart(s: State, actions: seq<Action>)
    requires Inv(s) && ApartInv(s) && ValidRun(s, actions) && Always(s, actions, Orderly())
    ensures ApartInv(After(s, actions))
    decreases actions
  {
    hide Inv, ApartInv, Orderly;
    if actions != [] {
      StepKeeps(s, actions[0]);
      StepKeepsApart(s, actions[0]);
      RunKeepsApart(Do(s, actions[0]), actions[1..]);
    }
  }
}

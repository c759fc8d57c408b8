/** What the delivery protocol promises in every state of every interleaving. */
module DeliverySafety {
  import opened Common
  import opened Registry
  import opened Delivery
  import opened DeliveryInvariant

  /** Some interleaving leads from an initial state to s. */
  ghost predicate Reachable(s: State) {
    exists s0, actions :: Init(s0) && ValidRun(s0, actions) && After(s0, actions) == s
  }

  lemma ReachableInv(s: State)
    requires Reachable(s)
    ensures Inv(s)
  {
    var s0, actions :| Init(s0) && ValidRun(s0, actions) && After(s0, actions) == s;
    InitInv(s0);
    RunKeeps(s0, actions);
  }

  /** Some orderly interleaving does: no worker obtains a slot that another one holds (module System says when). */
  ghost predicate OrderlyReachable(s: State) {
    exists s0, actions ::
      Init(s0) && ValidRun(s0, actions) && After(s0, actions) == s && Always(s0, actions, Orderly())
  }

  lemma OrderlyReachableInv(s: State)
    requires OrderlyReachable(s)
    ensures Reachable(s) && Inv(s) && ApartInv(s)
  {
    var s0, actions :|
      Init(s0) && ValidRun(s0, actions) && After(s0, actions) == s && Always(s0, actions, Orderly());
    InitInv(s0);
    RunKeeps(s0, actions);
    RunKeepsApart(s0, actions);
  }

  /** The process has still to read slot x or to count it down. */
  predicate Uses(q: Proc, x: nat) {
    || ((q.pending || q.handler.Entered?) && q.cell == x)
    || q.handler == HasRead(x)
    || q.handler == Serving(x)
  }

  ghost predicate Unused(s: State, x: nat) {
    forall p | 0 <= p < |s.procs| :: !Uses(s.procs[p], x)
  }

  // ----- Index cells

  /** At most one index cell is set, only under critical_shmem_lock, and it holds the slot of the lock holder. */
  lemma OneCellUnderLock(s: State, p: nat)
    requires Reachable(s) && p < |s.procs| && s.procs[p].cell != 0
    ensures s.lock.Some? && s.lock.value < |s.workers|
    ensures var w := s.workers[s.lock.value]; w.pc.Holds() && w.pc.pid == p && w.slot == s.procs[p].cell
    ensures forall r | 0 <= r < |s.procs| && r != p :: s.procs[r].cell == 0
  {
    ReachableInv(s);
  }

  /** A signal never finds another one pending: at kill, the target has heard all that was sent to it. */
  lemma SignalsDoNotMerge(s: State, w: nat)
    requires Reachable(s) && Enabled(s, Work(w, KillOk))
    ensures var q := s.procs[s.workers[w].pc.pid];
            !q.pending && q.heard == q.sent && q.cell == s.workers[w].slot
  {
    ReachableInv(s);
  }

  /**
   * Each process reads the offsets it was signalled for, in order; only the last may be outstanding, still in its
   * cell.
   */
  lemma SignalsAreHeardOnce(s: State, p: nat)
    requires Reachable(s) && p < |s.procs|
    ensures var q := s.procs[p];
            q.sent == q.heard + if q.pending || q.handler.Entered? then [q.cell] else []
  {
    ReachableInv(s);
  }

  // ----- The table

  /**
   * Under every interleaving, a registration adds its pair, a failed kill costs the process its pair, and no step
   * more.
   */
  lemma RegistrationsFollow(s: State, a: Action)
    requires Reachable(s) && Enabled(s, a)
    ensures WellFormed(s.table)
    ensures Pairs(Do(s, a).table) ==
            if a.Work? && a.work.Register? && a.work.memory
            then Pairs(s.table) + {Entry(s.workers[a.w].msg, a.work.pid)}
            else if a.Work? && a.work.Remove? then Pairs(s.table) - {Entry(s.workers[a.w].msg, s.workers[a.w].pc.pid)}
            else Pairs(s.table)
  {
    ReachableInv(s);
    hide Inv, DoWork, WellFormed, Hash, Pairs;
    if a.Work? {
      WorkRefinesPairs(s, a.w, a.work);
    }
  }

  // ----- Owners

  ghost predicate AlwaysApart(s: State, actions: seq<Action>)
    requires ValidRun(s, actions)
    decreases actions
  {
    OwnersDiffer(s) && (actions == [] || AlwaysApart(Do(s, actions[0]), actions[1..]))
  }

  lemma DisorderShares(s: State, a: Action)
    requires Enabled(s, a) && !Orderly()(s, a)
    ensures !OwnersDiffer(Do(s, a))
  {
    hide Hash;
    var x, t := a.work.slot, Do(s, a);
    var v: nat :| Owns(s, v, x);
    assert t.workers[v].slot == t.workers[a.w].slot == x && v != a.w;
  }

  lemma {:induction false} ApartIff(s: State, actions: seq<Action>)
    requires Inv(s) && ApartInv(s) && ValidRun(s, actions)
    ensures AlwaysApart(s, actions) <==> Always(s, actions, Orderly())
    decreases actions
  {
    assert OwnersDiffer(s);
    hide Inv, ApartInv, Orderly, OwnersDiffer;
    if actions != [] {
      var t := Do(s, actions[0]);
      StepKeeps(s, actions[0]);
      if Orderly()(s, actions[0]) {
        StepKeepsApart(s, actions[0]);
        ApartIff(t, actions[1..]);
      } else {
        DisorderShares(s, actions[0]);
        assert !AlwaysApart(t, actions[1..]);
      }
    }
  }

  /** Along every run, no slot ever has two owners if and only if the run is orderly. */
  lemma OwnersApartIff(s: State, actions: seq<Action>)
    requires Init(s) && ValidRun(s, actions)
    ensures AlwaysApart(s, actions) <==> Always(s, actions, Orderly())
  {
    InitInv(s);
    ApartIff(s, actions);
  }

  // ----- Slots and counts, in orderly runs

  lemma UnusedIff(s: State, w: nat)
    requires Inv(s) && ApartInv(s) && w < |s.workers| && s.workers[w].pc.HasSlot()
    ensures Unused(s, s.workers[w].slot) <==> InService(s.procs, s.workers[w].slot) == 0 && !Unheard(s, w)
  {
    hide Hash;
    SumIsZero(s.procs, Serves(s.workers[w].slot));
  }

  /** While a handler may read it, a slot belongs to a worker that is still delivering it. */
  lemma SlotInUseIsDelivered(s: State, p: nat, x: nat)
    requires OrderlyReachable(s) && p < |s.procs| && Uses(s.procs[p], x)
    ensures exists w | 0 <= w < |s.workers| :: s.workers[w].slot == x && s.workers[w].pc.Active()
  {
    hide Hash;
    OrderlyReachableInv(s);
    if s.procs[p].handler == Serving(x) {
      var w: nat :| Delivers(s, w, x);
    } else {
      assert Targets(s, s.lock.value, p);
    }
  }

  /** After the wait for count the slot is not used: not when the reply is sent, not when the slot is returned. */
  lemma SlotSafeAfterDrain(s: State, w: nat)
    requires OrderlyReachable(s) && w < |s.workers| && s.workers[w].pc.HasSlot() && !s.workers[w].pc.Active()
    ensures Unused(s, s.workers[w].slot)
  {
    OrderlyReachableInv(s);
    UnusedIff(s, w);
    assert Counted(s, w);
  }

  /**
   * The count of a slot under delivery is zero exactly when no process uses the slot, except between kill and
   * count++: there the field has wrapped to its largest value exactly when the handler was faster.
   */
  lemma CountTellsUse(s: State, w: nat)
    requires OrderlyReachable(s) && w < |s.workers| && s.workers[w].pc.Active()
    ensures s.workers[w].slot in s.count
    ensures var n := if s.workers[w].pc.Signalled? then TWO32 - 1 else 0;
            s.count[s.workers[w].slot] == n <==> Unused(s, s.workers[w].slot)
  {
    OrderlyReachableInv(s);
    assert Counted(s, w);
    UnusedIff(s, w);
    ServicesAreFew(s, s.workers[w].slot);
    hide Unused, Unheard, InService;
  }

  function HandlerRun(p: nat): seq<Action> {
    [Handle(p, Enter), Handle(p, ReadCell), Handle(p, ClearCell), Handle(p, CountDown), Handle(p, Leave)]
  }

  /**
   * A handler that is not interrupted clears its cell, counts the slot it found there down once, and changes no more.
   */
  lemma HandlerCountsDownOnce(s: State, p: nat)
    requires p < |s.procs| && s.procs[p].pending && s.procs[p].handler.Idle? && s.procs[p].cell in s.count
    ensures var q := s.procs[p];
            && ValidRun(s, HandlerRun(p))
            && After(s, HandlerRun(p)) == s.(
                 procs := s.procs[p := q.(cell := 0, pending := false, heard := q.heard + [q.cell])],
                 count := s.count[q.cell := Decrement(s.count[q.cell])])
  {
    var s1 := DoHandle(s, p, Enter);
    var s2 := DoHandle(s1, p, ReadCell);
    var s3 := DoHandle(s2, p, ClearCell);
    var s4 := DoHandle(s3, p, CountDown);
    var s5 := DoHandle(s4, p, Leave);
    var q := s.procs[p];
    assert s5.procs == s.procs[p := q.(cell := 0, pending := false, heard := q.heard + [q.cell])];
    hide DoHandle;
    RunOfOne(s4, Handle(p, Leave), []);
    RunOfOne(s3, Handle(p, CountDown), [Handle(p, Leave)]);
    RunOfOne(s2, Handle(p, ClearCell), [Handle(p, CountDown), Handle(p, Leave)]);
    RunOfOne(s1, Handle(p, ReadCell), [Handle(p, ClearCell), Handle(p, CountDown), Handle(p, Leave)]);
    RunOfOne(s, Handle(p, Enter), [Handle(p, ReadCell), Handle(p, ClearCell), Handle(p, CountDown), Handle(p, Leave)]);
  }

  lemma AtKill(s: State, w: nat)
    requires OrderlyReachable(s) && Enabled(s, Work(w, KillOk)) && Unused(s, s.workers[w].slot)
    ensures var x, p := s.workers[w].slot, s.workers[w].pc.pid;
            HasCell(s, p) && s.procs[p].cell == x && x in s.count && s.count[x] == 0
  {
    CountTellsUse(s, w);
    OrderlyReachableInv(s);
    hide Reachable, OrderlyReachable, Unused, Hash, Sum, Counted;
  }

  /** A handler may be faster than count++: the field then wraps to its largest value, and count++ brings it back. */
  lemma FastHandlerWraps(s: State, w: nat)
    requires OrderlyReachable(s) && Enabled(s, Work(w, KillOk)) && Unused(s, s.workers[w].slot)
    requires s.procs[s.workers[w].pc.pid].handler.Idle?
    ensures var x, p, sent := s.workers[w].slot, s.workers[w].pc.pid, Do(s, Work(w, KillOk));
            && ValidRun(sent, HandlerRun(p))
            && var t := After(sent, HandlerRun(p));
               x in t.count && t.count[x] == TWO32 - 1
               && Enabled(t, Work(w, CountUp)) && Do(t, Work(w, CountUp)).count == s.count
  {
    AtKill(s, w);
    hide Reachable, OrderlyReachable, Unused, Hash, Sum, HandlerRun, After, ValidRun;
    var p, sent := s.workers[w].pc.pid, Do(s, Work(w, KillOk));
    HandlerCountsDownOnce(sent, p);
  }
}

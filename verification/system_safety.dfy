/** What workers and pool together promise: slots in use stay out of the pool, and every request comes to an end. */
module SystemSafety {
  import opened Common
  import opened System
  import Registry
  import Delivery
  import DeliverySafety
  import DeliveryProgress
  import PoolRace
  import PoolOwners
  import PoolSearch
  import PoolLock
  import PoolEnds

  /** Some orderly run leads from an initial state to s. */
  ghost predicate Reachable(s: State) {
    exists s0, steps :: Init(s0) && ValidRun(s0, steps) && OrderlyRun(s0, steps) && After(s0, steps) == s
  }

  lemma ReachableInv(s: State)
    requires Reachable(s)
    ensures SystemInv(s) && DeliverySafety.OrderlyReachable(s.delivery)
  {
    var s0, steps :| Init(s0) && ValidRun(s0, steps) && OrderlyRun(s0, steps) && After(s0, steps) == s;
    OrderlySystem(s0, steps);
  }

  // ----- Slots

  /** The slot of a worker is busy as long as the worker has it, and no other worker has it. */
  lemma OwnedIsBusy(s: State, w: nat, x: nat)
    requires Reachable(s) && Owns(s, w, x)
    ensures x in s.pool.busy && forall v | Owns(s, v, x) :: v == w
  {
    ReachableInv(s);
    OwnersHold(s, w, x);
    forall v | Owns(s, v, x)
      ensures v == w
    {
      OwnersHold(s, v, x);
    }
  }

  /** While a handler may read it, a slot is busy, and its one owner is still delivering it. */
  lemma SlotInUseIsBusy(s: State, p: nat, x: nat)
    requires Reachable(s) && p < |s.delivery.procs| && DeliverySafety.Uses(s.delivery.procs[p], x)
    ensures x in s.pool.busy
    ensures exists w | 0 <= w < |s.delivery.workers| ::
              s.delivery.workers[w].pc.Active() && Owns(s, w, x) && forall v | Owns(s, v, x) :: v == w
  {
    ReachableInv(s);
    DeliverySafety.SlotInUseIsDelivered(s.delivery, p, x);
    var w :| 0 <= w < |s.delivery.workers| && s.delivery.workers[w].slot == x && s.delivery.workers[w].pc.Active();
    OwnedIsBusy(s, w, x);
    hide Reachable, SystemInv, DeliverySafety.OrderlyReachable, DeliverySafety.Uses;
  }

  // ----- The end

  predicate Ended(t: PoolRace.Thread) { t.Missed? || t.Gone? }

  ghost predicate Finished(s: State) {
    && DeliveryProgress.Finished(s.delivery)
    && forall w | 0 <= w < |s.delivery.workers| && w < |s.pool.threads| :: Ended(s.pool.threads[w])
  }

  /** An orderly step, and not the arrival of a new request. */
  ghost predicate Goes(s: State, step: Step) {
    && Enabled(s, step) && !(step.Alone? && step.action.Accept?)
    && (step.InPool? ==> PoolOwners.Orderly()(s.pool, step.act))
  }

  ghost predicate CanStep(s: State) {
    exists step :: Goes(s, step)
  }

  lemma WorkerGoes(s: State, a: Delivery.Action)
    requires Joined(s) && PoolRace.Inv(s.pool) && DeliveryProgress.Goes(s.delivery, a)
    ensures CanStep(s)
  {
    if UsesPool(a) {
      assert Fits(s.delivery.workers[a.w], s.pool.threads[a.w]);
      assert Goes(s, InPool(PoolRace.Act(a.w, PoolRace.Begin)));
    } else {
      assert Goes(s, Alone(a));
    }
  }

  lemma ThreadGoes(s: State, w: nat)
    requires Joined(s) && PoolRace.Inv(s.pool) && w < |s.delivery.workers|
    requires !Ended(s.pool.threads[w]) && !s.pool.threads[w].Holding?
    requires PoolOwners.Orderly()(s.pool, PoolRace.Act(w, PoolEnds.NextStep(s.pool, w)))
    ensures Goes(s, InPool(PoolRace.Act(w, PoolEnds.NextStep(s.pool, w))))
  {
    var act := PoolRace.Act(w, PoolEnds.NextStep(s.pool, w));
    PoolEnds.NeverStuck(s.pool, w);
    assert Fits(s.delivery.workers[w], s.pool.threads[w]);
    assert PoolRace.Knows(s.pool.threads[w], s.pool);
    hide PoolOwners.Orderly, PoolRace.Matches;
  }

  /** A thread that has a slot, in obtain or in return, can go on; if there is none, every thread can. */
  lemma SomeThreadGoes(s: State, w: nat)
    requires Joined(s) && PoolRace.Inv(s.pool) && w < |s.delivery.workers| && !Ended(s.pool.threads[w])
    requires forall v | 0 <= v < |s.delivery.workers| :: !s.pool.threads[v].Holding?
    ensures CanStep(s)
  {
    if v: nat, x :| PoolOwners.HeldBy(s.pool, v, x) {
      ThreadGoes(s, v);
    } else {
      ThreadGoes(s, w);
    }
  }

  lemma IdleIsNotFinished(s: State)
    requires Joined(s) && !DeliveryProgress.Busy(s.delivery) && !Finished(s)
    ensures forall v | 0 <= v < |s.delivery.workers| :: !s.pool.threads[v].Holding?
    ensures exists w :: 0 <= w < |s.delivery.workers| && !Ended(s.pool.threads[w])
  {
    assert forall v | 0 <= v < |s.delivery.workers| :: Fits(s.delivery.workers[v], s.pool.threads[v]);
    if w :| 0 <= w < |s.delivery.workers| && !s.delivery.workers[w].pc.Done? {
      assert !Ended(s.pool.threads[w]);
    }
  }

  lemma FinishedIsStuck(s: State)
    requires Joined(s) && Finished(s)
    ensures !CanStep(s)
  {
    hide Registry.Hash, PoolRace.Matches, PoolOwners.Orderly;
  }

  /**
   * The whole system stops only when all requests are finished and all threads have come to the end of their return.
   */
  lemma NoDeadlock(s: State)
    requires Reachable(s)
    ensures CanStep(s) <==> !Finished(s)
  {
    ReachableInv(s);
    hide Reachable, DeliverySafety.OrderlyReachable, PoolRace.Inv, PoolOwners.Sound, CanStep, DeliveryProgress.Goes;
    if Finished(s) {
      FinishedIsStuck(s);
    } else if DeliveryProgress.Busy(s.delivery) {
      DeliveryProgress.BusySteps(s.delivery);
      var a :| DeliveryProgress.Goes(s.delivery, a);
      WorkerGoes(s, a);
    } else {
      IdleIsNotFinished(s);
      var w :| 0 <= w < |s.delivery.workers| && !Ended(s.pool.threads[w]);
      SomeThreadGoes(s, w);
    }
  }

  lemma {:induction false} StepsAreSeen(s: State, steps: seq<Step>)
    requires ValidRun(s, steps) && forall step | step in steps :: !(step.Alone? && step.action.Accept?)
    ensures |steps| <= |Actions(s, steps)| + |Acts(steps)|
    ensures forall a | a in Actions(s, steps) :: !a.Accept?
    decreases steps
  {
    hide Do, Enabled;
    if steps != [] {
      StepsAreSeen(Do(s, steps[0]), steps[1..]);
      assert steps[0] in steps;
    }
  }

  /** With no further requests, every run of the whole system has at most so many steps. */
  lemma EveryRunEnds(s: State, steps: seq<Step>)
    requires PoolRace.Inv(s.pool) && ValidRun(s, steps)
    requires forall step | step in steps :: !(step.Alone? && step.action.Accept?)
    ensures |steps| <= DeliveryProgress.Measure(s.delivery,
                                                DeliveryProgress.Bound(s.delivery)) + PoolEnds.Potential(s.pool)
  {
    StepsAreSeen(s, steps);
    Projects(s, steps);
    DeliveryProgress.EveryRunEnds(s.delivery, Actions(s, steps));
    PoolEnds.RunIsShort(s.pool, Acts(steps));
    hide PoolRace.Inv;
  }

  // ----- The pool at the end

  lemma FinishedHoldsNothing(s: State, x: nat)
    requires Joined(s) && Finished(s)
    ensures !PoolOwners.Held(s.pool, x)
  {}

  /** After orderly runs with serialised returns, once all is finished, every slot is free again. */
  lemma FinishedPoolIsFree(s: State, steps: seq<Step>)
    requires Init(s) && ValidRun(s, steps) && OrderlyRun(s, steps) && Finished(After(s, steps))
    requires PoolAlways(s, steps, PoolSearch.SerialReturns())
    ensures After(s, steps).pool.busy == {}
  {
    hide Finished, PoolSearch.SerialReturns, PoolOwners.Orderly;
    var t := After(s, steps);
    Projects(s, steps);
    OrderlySystem(s, steps);
    PoolSearch.SerialReturnsLoseNothing(s.pool, Acts(steps));
    if x :| x in t.pool.busy {
      FinishedHoldsNothing(t, x);
    }
  }

  // ----- One lock around all of obtain and all of return

  /**
   * Under such a lock every run is orderly, so that all of the above holds; a request is refused only when every slot
   * is busy; and once all is finished, every slot is free again.
   */
  lemma OneLockSuffices(s: State, steps: seq<Step>)
    requires Init(s) && ValidRun(s, steps) && PoolAlways(s, steps, PoolLock.Exclusive())
    ensures Reachable(After(s, steps))
    ensures var t := After(s, steps);
            && (forall w | Enabled(t, InPool(PoolRace.Act(w, PoolRace.Fail))) ::
                  forall x | x in t.delivery.count :: x in t.pool.busy)
            && (Finished(t) ==> t.pool.busy == {})
  {
    hide Finished, PoolLock.Exclusive, PoolOwners.Orderly;
    var t := After(s, steps);
    Projects(s, steps);
    PoolLock.LockIsEnough(s.pool, Acts(steps));
    PoolOwners.SoundIff(s.pool, Acts(steps));
    assert OrderlyRun(s, steps);
    assert Reachable(t);
    ReachableInv(t);
    if Finished(t) {
      if x :| x in t.pool.busy {
        FinishedHoldsNothing(t, x);
      }
    }
  }

  ghost predicate SomebodyInside(s: PoolRace.State) {
    exists v :: 0 <= v < |s.threads| && PoolLock.Inside(s.threads[v])
  }

  lemma InsideGoes(s: State, w: nat)
    requires SystemInv(s) && PoolLock.LockInv(s.pool) && w < |s.pool.threads| && PoolLock.Inside(s.pool.threads[w])
    ensures var act := PoolRace.Act(w, PoolEnds.NextStep(s.pool, w));
            Goes(s, InPool(act)) && PoolLock.Exclusive()(s.pool, act)
  {
    PoolEnds.NeverStuck(s.pool, w);
    var act := PoolRace.Act(w, PoolEnds.NextStep(s.pool, w));
    PoolLock.StepIsCalm(s.pool, act);
    PoolOwners.CalmIsOrderly(s.pool, act);
    ThreadGoes(s, w);
    hide Goes, PoolLock.LockInv, PoolRace.Inv, PoolOwners.Sound, PoolOwners.Orderly, PoolRace.Enabled;
  }

  /** And the lock itself does not bring the system to a halt: whoever is inside can go on. */
  lemma OneLockNoDeadlock(s: State, steps: seq<Step>)
    requires Init(s) && ValidRun(s, steps) && PoolAlways(s, steps, PoolLock.Exclusive()) && !Finished(After(s, steps))
    ensures var t := After(s, steps);
            exists step :: Goes(t, step) && (step.InPool? ==> PoolLock.Exclusive()(t.pool, step.act))
  {
    hide Finished, PoolOwners.Orderly, PoolLock.LockInv;
    var t := After(s, steps);
    Projects(s, steps);
    OneLockSuffices(s, steps);
    ReachableInv(t);
    LockHolds(s.pool, Acts(steps));
    if SomebodyInside(t.pool) {
      var w :| 0 <= w < |t.pool.threads| && PoolLock.Inside(t.pool.threads[w]);
      InsideGoes(t, w);
    } else {
      NoDeadlock(t);
      var step :| Goes(t, step);
      assert step.InPool? ==> PoolLock.Exclusive()(t.pool, step.act);
    }
  }

  lemma LockHolds(s: PoolRace.State, acts: seq<PoolRace.Act>)
    requires PoolRace.Init(s) && PoolRace.ValidRun(s, acts) && PoolRace.Always(s, acts, PoolLock.Exclusive())
    ensures PoolLock.LockInv(PoolRace.After(s, acts))
  {
    PoolRace.InitInv(s);
    PoolOwners.InitSound(s);
    PoolLock.LockedRun(s, acts);
  }
}

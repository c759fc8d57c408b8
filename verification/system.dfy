/**
 * The workers of the delivery protocol on the pool of overlapping threads: a worker has the slot that its thread has
 * taken, is refused when its thread finds the head busy, and gives its slot up when its thread begins to return it.
 */
module System {
  import opened Common
  import Registry
  import Delivery
  import DeliveryInvariant
  import DeliverySafety
  import PoolRace
  import PoolOwners

  /** Worker w is thread w of the pool; the threads behind the workers wait for requests to come. */
  datatype State = State(delivery: Delivery.State, pool: PoolRace.State)

  datatype Step = Alone(action: Delivery.Action) | InPool(act: PoolRace.Act)

  /** These are steps of the pool. */
  predicate UsesPool(a: Delivery.Action) {
    a.Work? && (a.work.Obtain? || a.work.NoSlot? || a.work.GiveBack?)
  }

  /** What the worker makes of a step of its thread. */
  function Shown(s: PoolRace.State, act: PoolRace.Act): Option<Delivery.Action>
    requires PoolRace.Enabled(s, act)
  {
    match act.step
    case Name => Some(Delivery.Work(act.w, Delivery.Obtain(s.threads[act.w].x)))
    case Fail => Some(Delivery.Work(act.w, Delivery.NoSlot))
    case Begin => if s.threads[act.w].Holding? then Some(Delivery.Work(act.w, Delivery.GiveBack)) else None
    case _ => None
  }

  predicate Enabled(s: State, step: Step) {
    match step
    case Alone(a) =>
      && Delivery.Enabled(s.delivery, a) && !UsesPool(a)
      && (a.Accept? ==> |s.delivery.workers| < |s.pool.threads|)
    case InPool(act) =>
      && act.w < |s.delivery.workers| && PoolRace.Enabled(s.pool, act)
      && (Shown(s.pool, act).Some? ==> Delivery.Enabled(s.delivery, Shown(s.pool, act).value))
  }

  function Do(s: State, step: Step): State
    requires Enabled(s, step)
  {
    match step
    case Alone(a) => s.(delivery := Delivery.Do(s.delivery, a))
    case InPool(act) =>
      var shown := Shown(s.pool, act);
      State(if shown.Some? then Delivery.Do(s.delivery, shown.value) else s.delivery, PoolRace.Do(s.pool, act))
  }

  // ----- Runs

  ghost predicate Init(s: State) {
    && Delivery.Init(s.delivery) && PoolRace.Init(s.pool)
    && forall x :: x in s.pool.ring <==> x in s.delivery.count
  }

  ghost predicate ValidRun(s: State, steps: seq<Step>)
    decreases steps
  {
    steps == [] || (Enabled(s, steps[0]) && ValidRun(Do(s, steps[0]), steps[1..]))
  }

  ghost function After(s: State, steps: seq<Step>): State
    requires ValidRun(s, steps)
    decreases steps
  {
    if steps == [] then s else After(Do(s, steps[0]), steps[1..])
  }

  /** What the pool sees of a run. */
  function Acts(steps: seq<Step>): seq<PoolRace.Act>
    decreases steps
  {
    if steps == [] then [] else (if steps[0].InPool? then [steps[0].act] else []) + Acts(steps[1..])
  }

  /** What the delivery protocol sees of a step, and of a run. */
  function Seen(s: State, step: Step): seq<Delivery.Action>
    requires Enabled(s, step)
  {
    match step
    case Alone(a) => [a]
    case InPool(act) => if Shown(s.pool, act).Some? then [Shown(s.pool, act).value] else []
  }

  ghost function Actions(s: State, steps: seq<Step>): seq<Delivery.Action>
    requires ValidRun(s, steps)
    decreases steps
  {
    if steps == [] then [] else Seen(s, steps[0]) + Actions(Do(s, steps[0]), steps[1..])
  }

  lemma StepProjects(s: State, step: Step)
    requires Enabled(s, step)
    ensures |Seen(s, step)| <= 1
    ensures var t := Do(s, step);
            && (if step.InPool? then PoolRace.Enabled(s.pool, step.act) && t.pool == PoolRace.Do(s.pool, step.act)
                else t.pool == s.pool)
            && (if Seen(s, step) == [] then t.delivery == s.delivery
                else Delivery.Enabled(s.delivery, Seen(s, step)[0])
                     && t.delivery == Delivery.Do(s.delivery, Seen(s, step)[0]))
  {
    hide Shown, Delivery.Do, PoolRace.Do, Delivery.Enabled, PoolRace.Enabled;
  }

  /** A run of the system is a run of the pool and a run of the delivery protocol. */
  lemma {:induction false} Projects(s: State, steps: seq<Step>)
    requires ValidRun(s, steps)
    ensures PoolRace.ValidRun(s.pool, Acts(steps))
    ensures PoolRace.After(s.pool, Acts(steps)) == After(s, steps).pool
    ensures Delivery.ValidRun(s.delivery, Actions(s, steps))
    ensures Delivery.After(s.delivery, Actions(s, steps)) == After(s, steps).delivery
    decreases steps
  {
    hide Delivery.Do, PoolRace.Do, Delivery.Enabled, PoolRace.Enabled, Do, Enabled, Seen;
    if steps != [] {
      var t := Do(s, steps[0]);
      StepProjects(s, steps[0]);
      Projects(t, steps[1..]);
      if steps[0].InPool? {
        PoolRace.RunOfOne(s.pool, steps[0].act, Acts(steps[1..]));
      } else {
        assert Acts(steps) == Acts(steps[1..]);
      }
      if Seen(s, steps[0]) != [] {
        assert Seen(s, steps[0]) == [Seen(s, steps[0])[0]];
        Delivery.RunOfOne(s.delivery, Seen(s, steps[0])[0], Actions(t, steps[1..]));
      } else {
        assert Actions(s, steps) == Actions(t, steps[1..]);
      }
    }
  }

  // ----- Workers and threads

  /** The worker has the slot of its thread from the write of addr to the beginning of the return. */
  predicate Fits(v: Delivery.Worker, t: PoolRace.Thread) {
    match t
    case Outside => v.pc.Start?
    case Peeked(_) => v.pc.Start?
    case Looked(_) => v.pc.Start?
    case Taken(_) => v.pc.Start?
    case Holding(x) => v.pc.HasSlot() && v.slot == x
    case _ => v.pc.Done?
  }

  ghost predicate Joined(s: State) {
    && |s.delivery.workers| <= |s.pool.threads|
    && (forall x :: x in s.pool.ring <==> x in s.delivery.count)
    && (forall w | 0 <= w < |s.delivery.workers| :: Fits(s.delivery.workers[w], s.pool.threads[w]))
    && (forall w | |s.delivery.workers| <= w < |s.pool.threads| :: s.pool.threads[w].Outside?)
  }

  function Worked(v: Delivery.Worker, shown: Option<Delivery.Action>): Delivery.Worker {
    match shown
    case Some(Work(_, Obtain(x))) => v.(pc := Delivery.Reading, slot := x)
    case Some(_) => v.(pc := Delivery.Done)
    case None => v
  }

  lemma PoolWork(s: Delivery.State, w: nat, step: Delivery.WorkStep)
    requires w < |s.workers| && Delivery.CanWork(s, w, step) && UsesPool(Delivery.Work(w, step))
    ensures Delivery.DoWork(s, w, step)
         == s.(workers := s.workers[w := Worked(s.workers[w], Some(Delivery.Work(w, step)))])
  {
    hide Registry.Hash, Registry.Insert, Registry.Delete, Registry.FirstFrom;
  }

  lemma ThreadFits(s: PoolRace.State, act: PoolRace.Act, v: Delivery.Worker)
    requires PoolRace.Enabled(s, act) && Fits(v, s.threads[act.w])
    ensures Fits(Worked(v, Shown(s, act)), PoolRace.Next(s, act))
  {
    hide PoolRace.Matches, PoolRace.Place;
  }

  lemma PoolStepFits(s: State, act: PoolRace.Act)
    requires Joined(s) && Enabled(s, InPool(act))
    ensures var t, v := Do(s, InPool(act)).delivery, s.delivery.workers[act.w];
            t == s.delivery.(workers := s.delivery.workers[act.w := Worked(v, Shown(s.pool, act))])
    ensures Fits(Do(s, InPool(act)).delivery.workers[act.w], PoolRace.Next(s.pool, act))
  {
    ThreadFits(s.pool, act, s.delivery.workers[act.w]);
    if Shown(s.pool, act).Some? {
      PoolWork(s.delivery, act.w, Shown(s.pool, act).value.work);
    } else {
      assert s.delivery.workers[act.w := s.delivery.workers[act.w]] == s.delivery.workers;
    }
    hide PoolRace.Next, PoolRace.Enabled, Delivery.CanWork, Delivery.DoWork, PoolRace.Do, Fits;
  }

  lemma OtherStepFits(s: State, a: Delivery.Action)
    requires Joined(s) && Enabled(s, Alone(a))
    ensures var t := Do(s, Alone(a)).delivery;
            && t.count.Keys == s.delivery.count.Keys
            && |s.delivery.workers| <= |t.workers| <= |s.pool.threads|
            && forall w | 0 <= w < |t.workers| :: Fits(t.workers[w], s.pool.threads[w])
  {
    hide Registry.Hash, Registry.Insert, Registry.Delete, Registry.FirstFrom;
    if a.Work? {
      assert Fits(s.delivery.workers[a.w], s.pool.threads[a.w]);
    }
  }

  lemma StepKeepsJoined(s: State, step: Step)
    requires PoolRace.Inv(s.pool) && Joined(s) && Enabled(s, step)
    ensures PoolRace.Inv(Do(s, step).pool) && Joined(Do(s, step))
  {
    match step
    case Alone(a) => OtherStepFits(s, a);
    case InPool(act) =>
      PoolRace.StepKeeps(s.pool, act);
      PoolRace.StepKeepsRing(s.pool, act);
      PoolStepFits(s, act);
      hide Fits, PoolRace.Next, PoolRace.NextRing, PoolRace.Inv;
  }

  // ----- Orderly runs of the pool are orderly for the workers

  ghost predicate Owns(s: State, w: nat, x: nat) { DeliveryInvariant.Owns(s.delivery, w, x) }

  lemma OwnersHold(s: State, w: nat, x: nat)
    requires Joined(s) && Owns(s, w, x)
    ensures w < |s.pool.threads| && s.pool.threads[w] == PoolRace.Holding(x) && PoolOwners.HeldBy(s.pool, w, x)
  {
    assert Fits(s.delivery.workers[w], s.pool.threads[w]);
  }

  /** What a thread has taken belongs to no other worker. */
  lemma TakenIsNotOwned(s: State, w: nat)
    requires Joined(s) && PoolOwners.Apart(s.pool) && w < |s.delivery.workers| && s.pool.threads[w].Taken?
    ensures !DeliveryInvariant.Owned(s.delivery, s.pool.threads[w].x)
  {
    var x := s.pool.threads[w].x;
    if v: nat :| DeliveryInvariant.Owns(s.delivery, v, x) {
      OwnersHold(s, v, x);
      assert PoolOwners.HeldBy(s.pool, w, x);
    }
  }

  lemma StepIsOrderly(s: State, step: Step)
    requires Joined(s) && PoolOwners.Apart(s.pool) && Enabled(s, step)
    ensures forall a | a in Seen(s, step) :: DeliveryInvariant.Orderly()(s.delivery, a)
  {
    if step.InPool? && step.act.step.Name? {
      TakenIsNotOwned(s, step.act.w);
    }
    hide Joined, PoolOwners.Apart, DeliveryInvariant.Owned;
  }

  /** What the pool sees of the run meets ok throughout. */
  ghost predicate PoolAlways(s: State, steps: seq<Step>, ok: (PoolRace.State, PoolRace.Act) -> bool)
    requires ValidRun(s, steps)
  {
    PoolRace.ValidRun(s.pool, Acts(steps)) && PoolRace.Always(s.pool, Acts(steps), ok)
  }

  ghost predicate OrderlyRun(s: State, steps: seq<Step>)
    requires ValidRun(s, steps)
  {
    PoolAlways(s, steps, PoolOwners.Orderly())
  }

  lemma OrderlyBegins(s: State, steps: seq<Step>)
    requires ValidRun(s, steps) && steps != [] && OrderlyRun(s, steps)
    ensures OrderlyRun(Do(s, steps[0]), steps[1..])
    ensures steps[0].InPool? ==> PoolOwners.Orderly()(s.pool, steps[0].act)
  {
    hide PoolOwners.Orderly;
    Projects(Do(s, steps[0]), steps[1..]);
    if steps[0].InPool? {
      assert Acts(steps)[1..] == Acts(steps[1..]);
    } else {
      assert Acts(steps) == Acts(steps[1..]);
    }
    hide PoolRace.Do, Delivery.Do;
  }

  ghost predicate SystemInv(s: State) {
    PoolRace.Inv(s.pool) && PoolOwners.Sound(s.pool) && Joined(s)
  }

  lemma StepKeeps(s: State, step: Step)
    requires SystemInv(s) && Enabled(s, step) && (step.InPool? ==> PoolOwners.Orderly()(s.pool, step.act))
    ensures SystemInv(Do(s, step))
  {
    StepKeepsJoined(s, step);
    hide PoolRace.Inv, PoolOwners.Apart, PoolOwners.HeldAreBusy, Joined, PoolOwners.Orderly;
    if step.InPool? {
      PoolOwners.OrderlyTakes(s.pool, step.act);
      PoolOwners.OrderlyKeepsApart(s.pool, step.act);
      PoolOwners.OrderlyKeepsBusy(s.pool, step.act);
    }
  }

  lemma AlwaysMore(s: Delivery.State, first: seq<Delivery.Action>, rest: seq<Delivery.Action>,
                   ok: (Delivery.State, Delivery.Action) -> bool)
    requires |first| <= 1 && (first != [] ==> Delivery.Enabled(s, first[0]) && ok(s, first[0]))
    requires var t := if first == [] then s else Delivery.Do(s, first[0]);
             Delivery.ValidRun(t, rest) && Delivery.Always(t, rest, ok)
    ensures Delivery.ValidRun(s, first + rest) && Delivery.Always(s, first + rest, ok)
  {
    if first == [] {
      assert first + rest == rest;
    } else {
      assert (first + rest)[1..] == rest;
    }
  }

  /** As long as the run is orderly for the pool, it is orderly for the workers. */
  lemma {:induction false} OrderlyBelow(s: State, steps: seq<Step>)
    requires SystemInv(s) && ValidRun(s, steps) && OrderlyRun(s, steps)
    ensures SystemInv(After(s, steps))
    ensures Delivery.ValidRun(s.delivery, Actions(s, steps))
    ensures Delivery.Always(s.delivery, Actions(s, steps), DeliveryInvariant.Orderly())
    decreases steps
  {
    Projects(s, steps);
    if steps != [] {
      var t := Do(s, steps[0]);
      OrderlyBegins(s, steps);
      StepIsOrderly(s, steps[0]);
      StepKeeps(s, steps[0]);
      OrderlyBelow(t, steps[1..]);
      AlwaysMore(s.delivery, Seen(s, steps[0]), Actions(t, steps[1..]), DeliveryInvariant.Orderly());
    }
    hide SystemInv, OrderlyRun, DeliveryInvariant.Orderly, Delivery.Do, PoolRace.Do, Delivery.Enabled, PoolRace.Enabled;
  }

  /** So all that is said about orderly runs of the delivery protocol holds, and the pool is sound. */
  lemma OrderlySystem(s: State, steps: seq<Step>)
    requires Init(s) && ValidRun(s, steps) && OrderlyRun(s, steps)
    ensures DeliverySafety.OrderlyReachable(After(s, steps).delivery)
    ensures SystemInv(After(s, steps))
  {
    PoolRace.InitInv(s.pool);
    PoolOwners.InitSound(s.pool);
    Projects(s, steps);
    OrderlyBelow(s, steps);
  }
}

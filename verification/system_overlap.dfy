/** Whatever overlapping threads can do in the pool can happen to workers: two of them may own one slot. */
module SystemOverlap {
  import opened Common
  import opened System
  import Registry
  import Delivery
  import PoolRace
  import PoolOverlap

  lemma {:induction false} ActsCompose(first: seq<Step>, rest: seq<Step>)
    ensures Acts(first + rest) == Acts(first) + Acts(rest)
    decreases first
  {
    if first == [] {
      assert first + rest == rest;
    } else {
      var head := if first[0].InPool? then [first[0].act] else [];
      assert (first + rest)[0] == first[0] && (first + rest)[1..] == first[1..] + rest;
      ActsCompose(first[1..], rest);
      assert Acts(first) == head + Acts(first[1..]);
      assert Acts(first + rest) == head + Acts(first[1..] + rest);
    }
  }

  lemma {:induction false} RunsCompose(s: State, first: seq<Step>, rest: seq<Step>)
    requires ValidRun(s, first) && ValidRun(After(s, first), rest)
    ensures ValidRun(s, first + rest) && After(s, first + rest) == After(After(s, first), rest)
    ensures Acts(first + rest) == Acts(first) + Acts(rest)
    decreases first
  {
    hide Do, Enabled, Acts;
    ActsCompose(first, rest);
    if first == [] {
      assert first + rest == rest;
    } else {
      assert (first + rest)[1..] == first[1..] + rest;
      RunsCompose(Do(s, first[0]), first[1..], rest);
    }
  }

  lemma RunOfOne(s: State, step: Step, rest: seq<Step>)
    requires Enabled(s, step) && ValidRun(Do(s, step), rest)
    ensures ValidRun(s, [step] + rest) && After(s, [step] + rest) == After(Do(s, step), rest)
    ensures Acts([step] + rest) == (if step.InPool? then [step.act] else []) + Acts(rest)
  {
    assert ([step] + rest)[1..] == rest;
  }

  /** All requests have come, and none that has a slot has read its message. */
  ghost predicate Ready(s: State) {
    && PoolRace.Inv(s.pool) && Joined(s) && |s.delivery.workers| == |s.pool.threads|
    && forall w | 0 <= w < |s.delivery.workers| ::
         s.delivery.workers[w].pc.Start? || s.delivery.workers[w].pc.Reading? || s.delivery.workers[w].pc.Done?
  }

  /** A worker whose thread returns its slot has failed to read its message. */
  function Lifted(s: PoolRace.State, act: PoolRace.Act): seq<Step>
    requires PoolRace.Enabled(s, act)
  {
    if act.step.Begin? && s.threads[act.w].Holding? then [Alone(Delivery.Work(act.w, Delivery.ReadFails)), InPool(act)]
    else [InPool(act)]
  }

  lemma ReadFailsLeads(s: State, w: nat, x: nat)
    requires Ready(s) && w < |s.delivery.workers| && s.pool.threads[w] == PoolRace.Holding(x)
    ensures var step := Alone(Delivery.Work(w, Delivery.ReadFails));
            && Enabled(s, step)
            && var v := s.delivery.workers[w];
               Do(s, step)
               == s.(delivery := s.delivery.(workers := s.delivery.workers[w := v.(pc := Delivery.Releasing)]))
  {
    assert Fits(s.delivery.workers[w], s.pool.threads[w]);
    hide Registry.Hash, Registry.Insert, Registry.Delete, Registry.FirstFrom;
  }

  lemma ThreadStepEnabled(s: State, act: PoolRace.Act)
    requires PoolRace.Inv(s.pool) && Joined(s) && |s.delivery.workers| == |s.pool.threads|
             && PoolRace.Enabled(s.pool, act)
    requires act.step.Begin? && s.pool.threads[act.w].Holding? ==> s.delivery.workers[act.w].pc.Releasing?
    ensures Enabled(s, InPool(act))
  {
    assert Fits(s.delivery.workers[act.w], s.pool.threads[act.w]);
    assert PoolRace.Knows(s.pool.threads[act.w], s.pool);
    hide Registry.Hash, PoolRace.Matches;
  }

  lemma LiftStep(s: State, act: PoolRace.Act)
    requires Ready(s) && PoolRace.Enabled(s.pool, act)
    ensures var run := Lifted(s.pool, act);
            && ValidRun(s, run) && Acts(run) == [act]
            && After(s, run).pool == PoolRace.Do(s.pool, act) && Ready(After(s, run))
  {
    if act.step.Begin? && s.pool.threads[act.w].Holding? {
      var step := Alone(Delivery.Work(act.w, Delivery.ReadFails));
      ReadFailsLeads(s, act.w, s.pool.threads[act.w].x);
      StepKeepsJoined(s, step);
      LiftPoolStep(Do(s, step), act);
      RunOfOne(s, step, [InPool(act)]);
    } else {
      LiftPoolStep(s, act);
    }
    hide Do, Enabled, PoolRace.Inv, Joined, PoolRace.Do, PoolRace.Enabled;
  }

  lemma LiftPoolStep(s: State, act: PoolRace.Act)
    requires PoolRace.Inv(s.pool) && Joined(s) && |s.delivery.workers| == |s.pool.threads|
             && PoolRace.Enabled(s.pool, act)
    requires if act.step.Begin? && s.pool.threads[act.w].Holding? then s.delivery.workers[act.w].pc.Releasing? else true
    requires forall w | 0 <= w < |s.delivery.workers| ::
               || s.delivery.workers[w].pc.Start? || s.delivery.workers[w].pc.Reading? || s.delivery.workers[w].pc.Done?
               || (w == act.w && act.step.Begin? && s.pool.threads[w].Holding?)
    ensures ValidRun(s, [InPool(act)]) && Acts([InPool(act)]) == [act]
    ensures After(s, [InPool(act)]).pool == PoolRace.Do(s.pool, act) && Ready(After(s, [InPool(act)]))
  {
    ThreadStepEnabled(s, act);
    StepKeepsJoined(s, InPool(act));
    PoolStepFits(s, act);
    RunOfOne(s, InPool(act), []);
    PoolRace.StepKeeps(s.pool, act);
    assert [InPool(act)] + [] == [InPool(act)];
    hide PoolRace.Inv, Joined, PoolRace.Enabled, PoolRace.Do, Enabled, Fits, Delivery.Do;
  }

  lemma {:induction false} ReadyRunHappens(s: State, acts: seq<PoolRace.Act>) returns (steps: seq<Step>)
    requires Ready(s) && PoolRace.ValidRun(s.pool, acts)
    ensures ValidRun(s, steps) && Acts(steps) == acts && Ready(After(s, steps))
    decreases acts
  {
    hide Ready, Do, Enabled, PoolRace.Do, PoolRace.Enabled, Lifted;
    steps := [];
    if acts != [] {
      var first := Lifted(s.pool, acts[0]);
      LiftStep(s, acts[0]);
      var rest := ReadyRunHappens(After(s, first), acts[1..]);
      RunsCompose(s, first, rest);
      steps := first + rest;
    }
  }

  /** The requests come one after the other. */
  lemma {:induction false} AllAccepted(s: State, msg: bv32, n: nat) returns (steps: seq<Step>)
    requires PoolRace.Inv(s.pool) && Joined(s) && Registry.InTable(s.delivery.table, msg)
    requires |s.delivery.workers| + n == |s.pool.threads|
    requires forall w | 0 <= w < |s.delivery.workers| :: s.delivery.workers[w].pc.Start?
    ensures ValidRun(s, steps) && Acts(steps) == [] && Ready(After(s, steps)) && After(s, steps).pool == s.pool
    decreases n
  {
    steps := [];
    if n != 0 {
      var step := Alone(Delivery.Accept(msg));
      StepKeepsJoined(s, step);
      var rest := AllAccepted(Do(s, step), msg, n - 1);
      RunOfOne(s, step, rest);
      steps := [step] + rest;
    }
    hide Registry.Hash, PoolRace.Inv;
  }

  /** Every run of the pool is what the pool sees of a run of the system. */
  lemma EveryPoolRunHappens(s: State, acts: seq<PoolRace.Act>, msg: bv32)
    requires Init(s) && PoolRace.ValidRun(s.pool, acts) && Registry.InTable(s.delivery.table, msg)
    ensures exists steps :: ValidRun(s, steps) && Acts(steps) == acts && Ready(After(s, steps))
  {
    hide Ready, Do, Enabled, PoolRace.Do, PoolRace.Enabled;
    PoolRace.InitInv(s.pool);
    var first := AllAccepted(s, msg, |s.pool.threads|);
    var rest := ReadyRunHappens(After(s, first), acts);
    RunsCompose(s, first, rest);
    assert Acts(first + rest) == acts;
  }

  /** Although every obtain is a whole, two workers come to own slot f, in a pool with two slots and five requests. */
  lemma TwoWorkersOwnASlot(s: State, a: nat, f: nat, msg: bv32)
    requires Init(s) && s.pool == PoolOverlap.Fresh(a, f, 5) && a != f && Registry.InTable(s.delivery.table, msg)
    ensures exists steps :: ValidRun(s, steps) && PoolAlways(s, steps, PoolOverlap.WholeObtains())
                         && Owns(After(s, steps), 3, f) && Owns(After(s, steps), 4, f)
  {
    var run := PoolOverlap.StrayRun() + PoolOverlap.Obtains(4);
    PoolOverlap.NullGivesTwoHolders(a, f);
    hide PoolOverlap.StrayRun, PoolOverlap.Obtains, PoolRace.Always, PoolRace.ValidRun, Init, PoolOverlap.Fresh;
    EveryPoolRunHappens(s, run, msg);
    var steps :| ValidRun(s, steps) && Acts(steps) == run && Ready(After(s, steps));
    Projects(s, steps);
    var t := After(s, steps);
    assert Fits(t.delivery.workers[3], t.pool.threads[3]) && Fits(t.delivery.workers[4], t.pool.threads[4]);
  }
}

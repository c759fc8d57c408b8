/** Every request ends: no deadlock, a measure that every step lowers, and what is left at the end. */
module DeliveryProgress {
  import opened Common
  import opened Registry
  import opened Delivery
  import opened DeliveryInvariant
  import opened DeliverySafety

  // ----- No deadlock

  predicate Resting(q: Proc) { q.handler.Idle? && !q.pending }

  ghost predicate Finished(s: State) {
    && (forall w | 0 <= w < |s.workers| :: s.workers[w].pc.Done?)
    && (forall p | 0 <= p < |s.procs| :: Resting(s.procs[p]))
  }

  /** Some orderly step other than the arrival of a new request is possible. */
  ghost predicate CanStep(s: State) {
    exists a :: Enabled(s, a) && !a.Accept? && Orderly()(s, a)
  }

  /** A step that does not wait for the pool. */
  predicate Goes(s: State, a: Action) {
    Enabled(s, a) && !a.Accept? && !(a.Work? && (a.work.Obtain? || a.work.NoSlot?))
  }

  ghost predicate Busy(s: State) {
    || (exists w :: 0 <= w < |s.workers| && s.workers[w].pc.HasSlot())
    || (exists p :: 0 <= p < |s.procs| && !Resting(s.procs[p]))
  }

  lemma BusyHandlerSteps(s: State, p: nat)
    requires CountInv(s) && p < |s.procs| && !Resting(s.procs[p])
    ensures exists a :: Goes(s, a)
  {
    hide Hash;
    match s.procs[p].handler
    case Idle => assert Goes(s, Handle(p, Enter));
    case Entered => assert Goes(s, Handle(p, ReadCell));
    case HasRead(_) => assert Goes(s, Handle(p, ClearCell));
    case Serving(_) => assert Goes(s, Handle(p, CountDown));
    case Leaving => assert Goes(s, Handle(p, Leave));
  }

  lemma HolderSteps(s: State, w: nat)
    requires TargetInv(s) && CellInv(s) && (forall p | 0 <= p < |s.procs| :: Resting(s.procs[p]))
    requires w < |s.workers| && s.workers[w].pc.Holds() && s.workers[w].slot in s.count
    ensures exists a :: Goes(s, a)
  {
    hide Hash;
    match s.workers[w].pc
    case Locked(_, _) => assert Goes(s, Work(w, WriteCell));
    case Written(_, _) => assert Goes(s, Work(w, KillFails));
    case Signalled(_, _) => assert Goes(s, Work(w, CountUp));
    case KillFailed(_, _) => assert Goes(s, Work(w, Withdraw));
    case Spinning(_, _, _) => assert Goes(s, Work(w, SpinEnds));
    case Unlocking(_, _, _) => assert Goes(s, Work(w, Unlock));
  }

  lemma DrainEnds(s: State, w: nat)
    requires CountInv(s) && (forall p | 0 <= p < |s.procs| :: Resting(s.procs[p]))
    requires w < |s.workers| && s.workers[w].pc.Draining? && s.workers[w].slot in s.count
    ensures exists a :: Goes(s, a)
  {
    assert Counted(s, w);
    SumIsZero(s.procs, Serves(s.workers[w].slot));
    assert Goes(s, Work(w, Drained));
  }

  lemma OtherSteps(s: State, w: nat)
    requires TargetInv(s) && s.lock.None?
    requires w < |s.workers| && s.workers[w].pc.HasSlot() && !s.workers[w].pc.Holds() && !s.workers[w].pc.Draining?
    requires s.workers[w].slot in s.count
    ensures exists a :: Goes(s, a)
  {
    hide Hash;
    match s.workers[w].pc
    case Reading => assert Goes(s, Work(w, Arrive));
    case Searching(_) => assert Goes(s, Work(w, Search));
    case Waiting(_, _) => assert Goes(s, Work(w, Acquire));
    case Removing(_, _) => assert Goes(s, Work(w, Remove));
    case Replying => assert Goes(s, Work(w, Reply));
    case Releasing => assert Goes(s, Work(w, GiveBack));
  }

  lemma BusyWorkerSteps(s: State, w: nat)
    requires Inv(s) && ApartInv(s) && (forall p | 0 <= p < |s.procs| :: Resting(s.procs[p]))
    requires w < |s.workers| && s.workers[w].pc.HasSlot()
    ensures exists a :: Goes(s, a)
  {
    assert s.lock.Some? ==> Owner(s, s.lock.value);
    assert forall v | 0 <= v < |s.workers| && s.workers[v].pc.HasSlot() :: s.workers[v].slot in s.count;
    hide PoolInv, OwnersDiffer, TargetInv, CellInv, CountInv, HistoryInv, Hash, Goes;
    if s.lock.Some? {
      HolderSteps(s, s.lock.value);
    } else if s.workers[w].pc.Draining? {
      DrainEnds(s, w);
    } else {
      OtherSteps(s, w);
    }
  }

  /** As long as a worker has a slot or a handler runs, some step is possible, whatever the pool does. */
  lemma BusySteps(s: State)
    requires OrderlyReachable(s) && Busy(s)
    ensures exists a :: Goes(s, a)
  {
    OrderlyReachableInv(s);
    hide Inv, OwnersDiffer, CountInv, Hash, OrderlyReachable, Goes;
    if p :| 0 <= p < |s.procs| && !Resting(s.procs[p]) {
      BusyHandlerSteps(s, p);
    } else {
      var w :| 0 <= w < |s.workers| && s.workers[w].pc.HasSlot();
      BusyWorkerSteps(s, w);
    }
  }

  /** The system stops only when all requests are finished and all handlers have returned. */
  lemma NoDeadlock(s: State)
    requires OrderlyReachable(s)
    ensures CanStep(s) <==> !Finished(s)
  {
    hide Hash, OrderlyReachable;
    if Busy(s) {
      BusySteps(s);
      var a :| Goes(s, a);
      assert Orderly()(s, a);
    } else if w :| 0 <= w < |s.workers| && s.workers[w].pc.Start? {
      assert Enabled(s, Work(w, NoSlot)) && Orderly()(s, Work(w, NoSlot));
    }
  }

  /** When all requests are finished, the lock is free, all cells are clear, and all that was sent has been heard. */
  lemma FinishedIsClean(s: State)
    requires Reachable(s) && Finished(s)
    ensures s.lock.None?
    ensures forall p | 0 <= p < |s.procs| :: s.procs[p].cell == 0 && s.procs[p].heard == s.procs[p].sent
  {
    hide Hash;
    ReachableInv(s);
  }

  // ----- The measure

  function Early(): Worker -> nat {
    (w: Worker) => if w.pc.Start? || w.pc.Reading? then 1 else 0
  }

  /** The worst still to come in the loop of a worker at num, when chains stay within bound. */
  function Left(num: nat, bound: nat): nat { if num <= bound then 20 * (bound + 1 - num) else 20 }

  function Rank(pc: Pc, bound: nat): nat {
    match pc
    case Start => Left(0, bound) + 10
    case Reading => Left(0, bound) + 9
    case Searching(num) => Left(num, bound) + 8
    case Waiting(num, _) => Left(num, bound) + 7
    case Locked(num, _) => Left(num, bound) + 6
    case Written(num, _) => Left(num, bound) + 5
    case KillFailed(num, _) => Left(num, bound) + 4
    case Signalled(num, _) => Left(num, bound) - 2
    case Spinning(num, _, _) => Left(num, bound) - 3
    case Unlocking(num, _, _) => Left(num, bound) - 4
    case Removing(num, _) => Left(num, bound) - 5
    case Draining => 3
    case Replying => 2
    case Releasing => 1
    case Done => 0
  }

  function WorkerRank(bound: nat): Worker -> nat { (w: Worker) => Rank(w.pc, bound) }

  function HandlerRank(h: Handler): nat {
    match h
    case Idle => 0
    case Entered => 4
    case HasRead(_) => 3
    case Serving(_) => 2
    case Leaving => 1
  }

  function ProcRank(): Proc -> nat {
    (q: Proc) => HandlerRank(q.handler) + if q.pending then 5 else 0
  }

  function Measure(s: State, bound: nat): nat {
    Sum(s.workers, WorkerRank(bound)) + Sum(s.procs, ProcRank())
  }

  /** No loop counter has passed bound. */
  ghost predicate NumsWithin(s: State, bound: nat) {
    && (forall w | 0 <= w < |s.workers| :: s.workers[w].pc.HasTarget() ==> s.workers[w].pc.num < bound)
    && (forall w | 0 <= w < |s.workers| :: s.workers[w].pc.Searching? ==> s.workers[w].pc.num <= bound)
  }

  /** And no chain will, whatever the requests that wait still register. */
  ghost predicate Within(s: State, bound: nat) {
    && (forall h | 0 <= h < |s.table| :: |s.table[h]| + Sum(s.workers, Early()) <= bound)
    && NumsWithin(s, bound)
  }

  lemma TableGrows(s: State, w: nat, step: WorkStep, h: nat)
    requires w < |s.workers| && CanWork(s, w, step) && h < |s.table|
    ensures |DoWork(s, w, step).table| == |s.table|
    ensures |DoWork(s, w, step).table[h]| <= |s.table[h]| + if step.Register? then 1 else 0
  {
    hide Hash, NextPc;
  }

  lemma NumsStayWithin(s: State, w: nat, step: WorkStep, bound: nat)
    requires Within(s, bound) && w < |s.workers| && CanWork(s, w, step)
    ensures NumsWithin(DoWork(s, w, step), bound)
  {
    hide Hash, Effect, Sum;
  }

  lemma WorkStaysWithin(s: State, w: nat, step: WorkStep, bound: nat)
    requires Within(s, bound) && w < |s.workers| && CanWork(s, w, step)
    ensures Within(DoWork(s, w, step), bound)
  {
    var t := DoWork(s, w, step);
    SumUpdate(s.workers, w, t.workers[w], Early());
    NumsStayWithin(s, w, step, bound);
    hide Hash, Effect, NumsWithin, Sum;
    forall h | 0 <= h < |s.table|
      ensures |t.table| == |s.table| && |t.table[h]| <= |s.table[h]| + if step.Register? then 1 else 0
    {
      TableGrows(s, w, step, h);
    }
  }

  /** A successful kill pays for the handler that it starts. */
  lemma RankFalls(s: State, w: nat, step: WorkStep, bound: nat)
    requires Within(s, bound) && w < |s.workers| && CanWork(s, w, step)
    ensures Rank(NextPc(s, w, step), bound) + (if step.KillOk? then 6 else 1) <= Rank(s.workers[w].pc, bound)
  {
    hide Hash, FirstFrom;
  }

  lemma WorkLowers(s: State, w: nat, step: WorkStep, bound: nat)
    requires Within(s, bound) && w < |s.workers| && CanWork(s, w, step)
    ensures Measure(DoWork(s, w, step), bound) < Measure(s, bound)
  {
    RankFalls(s, w, step, bound);
    hide Hash, Insert, Delete, NextPc, Rank, Within;
    var t := DoWork(s, w, step);
    SumUpdate(s.workers, w, t.workers[w], WorkerRank(bound));
    if step in {WriteCell, KillOk, Withdraw} {
      var p := s.workers[w].pc.pid;
      SumUpdate(s.procs, p, t.procs[p], ProcRank());
    }
  }

  lemma HandleLowers(s: State, p: nat, step: HandleStep, bound: nat)
    requires Within(s, bound) && p < |s.procs| && CanHandle(s, p, step)
    ensures Within(DoHandle(s, p, step), bound)
    ensures Measure(DoHandle(s, p, step), bound) < Measure(s, bound)
  {
    SumUpdate(s.procs, p, DoHandle(s, p, step).procs[p], ProcRank());
  }

  /** Every step of a worker or handler lowers the measure. */
  lemma StepLowers(s: State, a: Action, bound: nat)
    requires Within(s, bound) && Enabled(s, a) && !a.Accept?
    ensures Within(Do(s, a), bound) && Measure(Do(s, a), bound) < Measure(s, bound)
  {
    hide Within, Measure;
    match a
    case Work(w, step) =>
      WorkStaysWithin(s, w, step, bound);
      WorkLowers(s, w, step, bound);
    case Handle(p, step) => HandleLowers(s, p, step, bound);
  }

  // ----- A bound for every state

  function Length(): seq<Entry> -> nat { (chain: seq<Entry>) => |chain| }

  function Num(): Worker -> nat {
    (w: Worker) => if w.pc.Searching? || w.pc.HasTarget() then w.pc.num + 1 else 0
  }

  function Bound(s: State): nat {
    Sum(s.table, Length()) + Sum(s.workers, Early()) + Sum(s.workers, Num())
  }

  lemma {:induction false} SumHasPart<T>(xs: seq<T>, f: T -> nat, i: nat)
    requires i < |xs|
    ensures f(xs[i]) <= Sum(xs, f)
  {
    var n := |xs| - 1;
    if i < n {
      SumHasPart(xs[..n], f, i);
    }
  }

  lemma BoundIsEnough(s: State)
    ensures Within(s, Bound(s))
  {
    forall h | 0 <= h < |s.table|
      ensures |s.table[h]| <= Sum(s.table, Length())
    {
      SumHasPart(s.table, Length(), h);
    }
    forall w | 0 <= w < |s.workers|
      ensures Num()(s.workers[w]) <= Sum(s.workers, Num())
    {
      SumHasPart(s.workers, Num(), w);
    }
  }

  lemma {:induction false} RunIsShort(s: State, actions: seq<Action>, bound: nat)
    requires Within(s, bound) && ValidRun(s, actions) && forall a | a in actions :: !a.Accept?
    ensures |actions| + Measure(After(s, actions), bound) <= Measure(s, bound)
    decreases actions
  {
    hide Within, Measure;
    if actions != [] {
      StepLowers(s, actions[0], bound);
      RunIsShort(Do(s, actions[0]), actions[1..], bound);
    }
  }

  lemma {:induction false} AlwaysComposes(s: State, first: seq<Action>, rest: seq<Action>, ok: (State, Action) -> bool)
    requires ValidRun(s, first) && ValidRun(After(s, first), rest) && ValidRun(s, first + rest)
    requires Always(s, first, ok) && Always(After(s, first), rest, ok)
    ensures Always(s, first + rest, ok)
    decreases first
  {
    if first == [] {
      assert first + rest == rest;
    } else {
      assert (first + rest)[1..] == first[1..] + rest;
      AlwaysComposes(Do(s, first[0]), first[1..], rest, ok);
    }
  }

  lemma OrderlyContinues(s: State, actions: seq<Action>)
    requires OrderlyReachable(s) && ValidRun(s, actions) && Always(s, actions, Orderly())
    ensures OrderlyReachable(After(s, actions))
  {
    hide Orderly;
    var s0, before :| Init(s0) && ValidRun(s0, before) && After(s0, before) == s && Always(s0, before, Orderly());
    RunsCompose(s0, before, actions);
    AlwaysComposes(s0, before, actions, Orderly());
  }

  /** From any state with no further requests, every run has at most so many steps. */
  lemma EveryRunEnds(s: State, actions: seq<Action>)
    requires ValidRun(s, actions) && forall a | a in actions :: !a.Accept?
    ensures |actions| <= Measure(s, Bound(s))
  {
    BoundIsEnough(s);
    RunIsShort(s, actions, Bound(s));
  }

  /** And if it is orderly and cannot be continued, it has finished all requests. */
  lemma EveryRunFinishes(s: State, actions: seq<Action>)
    requires OrderlyReachable(s) && ValidRun(s, actions) && Always(s, actions, Orderly())
    ensures Finished(After(s, actions)) <==> !CanStep(After(s, actions))
  {
    OrderlyContinues(s, actions);
    NoDeadlock(After(s, actions));
  }
}

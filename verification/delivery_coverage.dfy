/** Which processes a worker signals, whatever the other threads and processes do meanwhile. */
module Coverage {
  import opened Common
  import opened Registry
  import opened Sweep
  import opened Delivery

  /** The chain in which the message of a worker is searched. */
  function ChainOf(s: State, w: nat): seq<Entry>
    requires w < |s.workers| && InTable(s.table, s.workers[w].msg)
  {
    s.table[Hash(s.workers[w].msg)]
  }

  /** Before its loop. */
  ghost predicate Fresh(s: State, w: nat) {
    && w < |s.workers| && InTable(s.table, s.workers[w].msg)
    && (s.workers[w].pc.Start? || s.workers[w].pc.Reading?) && s.workers[w].told == []
  }

  /** A step of another thread or a process leaves a worker alone. */
  lemma OthersLeave(s: State, a: Action, w: nat)
    requires Enabled(s, a) && w < |s.workers| && !(a.Work? && a.w == w)
    ensures w < |Do(s, a).workers| && Do(s, a).workers[w] == s.workers[w]
  {
    hide Hash, Effect, NextPc;
  }

  lemma TableChanges(s: State, a: Action)
    requires Enabled(s, a)
    ensures |Do(s, a).table| == |s.table|
    ensures !(a.Work? && (a.work.Register? || a.work.Remove?)) ==> Do(s, a).table == s.table
  {
    hide Hash, NextPc;
  }

  lemma MessageStays(s: State, w: nat, step: WorkStep)
    requires w < |s.workers| && CanWork(s, w, step)
    ensures var t := DoWork(s, w, step); |t.workers| == |s.workers| && t.workers[w].msg == s.workers[w].msg
  {
    hide Hash, Effect, NextPc;
  }

  // ----- Registrations are not missed, as long as nothing is removed from the bucket

  /** No entry is removed from bucket h; registrations are free. */
  function Keeps(h: nat): (State, Action) -> bool {
    (s: State, a: Action) =>
      a.Work? && a.work.Remove? && a.w < |s.workers| ==> Hash(s.workers[a.w].msg) != h
  }

  /** New entries only push the old ones back. */
  ghost predicate Extends(chain: seq<Entry>, was: seq<Entry>) {
    |was| <= |chain| && chain[|chain| - |was|..] == was
  }

  /** Every entry of was for the message that now stands before place n is in pids. */
  ghost predicate CoveredTo(chain: seq<Entry>, was: seq<Entry>, msg: bv32, n: nat, pids: seq<int>)
    requires |was| <= |chain|
  {
    forall i | 0 <= i < |was| && i + (|chain| - |was|) < n && was[i].msg == msg :: was[i].pid in pids
  }

  ghost predicate Covered(s: State, w: nat, was: seq<Entry>)
    requires w < |s.workers| && InTable(s.table, s.workers[w].msg) && |was| <= |ChainOf(s, w)|
  {
    var Worker(pc, _, msg, told) := s.workers[w];
    var chain := ChainOf(s, w);
    match pc
    case Start => told == []
    case Reading => told == []
    case Searching(num) => CoveredTo(chain, was, msg, num, told)
    case Waiting(num, pid) => Entry(msg, pid) in chain && CoveredTo(chain, was, msg, num + 1, told + [pid])
    case Locked(num, pid) => Entry(msg, pid) in chain && CoveredTo(chain, was, msg, num + 1, told + [pid])
    case Written(num, pid) => Entry(msg, pid) in chain && CoveredTo(chain, was, msg, num + 1, told + [pid])
    case Signalled(num, _) => CoveredTo(chain, was, msg, num + 1, told)
    case Spinning(num, _, failed) => failed || CoveredTo(chain, was, msg, num + 1, told)
    case Unlocking(num, _, failed) => failed || CoveredTo(chain, was, msg, num + 1, told)
    case Draining => CoveredTo(chain, was, msg, |chain|, told)
    case Replying => CoveredTo(chain, was, msg, |chain|, told)
    case _ => true
  }

  ghost predicate CoverInv(s: State, w: nat, msg: bv32, was: seq<Entry>) {
    && w < |s.workers| && InTable(s.table, msg) && s.workers[w].msg == msg
    && Extends(ChainOf(s, w), was)
    && Covered(s, w, was)
    && forall p | p in s.workers[w].told :: Entry(msg, p) in ChainOf(s, w)
  }

  /** A registration in the bucket puts one entry first, or none. */
  lemma Registers(s: State, a: Action, h: nat)
    requires Enabled(s, a) && h < |s.table| && Keeps(h)(s, a)
    ensures h < |Do(s, a).table|
    ensures Do(s, a).table[h] == s.table[h] || exists e :: Do(s, a).table[h] == [e] + s.table[h]
  {
    TableChanges(s, a);
    hide Hash, NextPc;
  }

  lemma CoverGrows(s: State, t: State, w: nat, msg: bv32, was: seq<Entry>)
    requires CoverInv(s, w, msg, was) && w < |t.workers| && t.workers[w] == s.workers[w] && InTable(t.table, msg)
    requires var h := Hash(msg); t.table[h] == s.table[h] || exists e :: t.table[h] == [e] + s.table[h]
    ensures CoverInv(t, w, msg, was)
  {
    hide Hash;
  }

  /** What a search finds: either nothing is left, or the entry at num, if it is for the message. */
  lemma SearchCovers(s: State, w: nat, msg: bv32, was: seq<Entry>)
    requires CoverInv(s, w, msg, was) && CanWork(s, w, Search)
    ensures CoverInv(DoWork(s, w, Search), w, msg, was)
  {
    hide Hash;
    var chain, num := ChainOf(s, w), s.workers[w].pc.num;
    var k, d := FirstFrom(chain, msg, num), |chain| - |was|;
    assert forall i | 0 <= i < |was| :: was[i] == chain[i + d];
    if 0 <= k {
      assert chain[k] == Entry(msg, chain[k].pid);
    }
  }

  lemma OwnStepCovers(s: State, w: nat, step: WorkStep, msg: bv32, was: seq<Entry>)
    requires CoverInv(s, w, msg, was) && CanWork(s, w, step) && !step.Register? && !step.Remove?
    ensures CoverInv(DoWork(s, w, step), w, msg, was)
  {
    TableChanges(s, Work(w, step));
    MessageStays(s, w, step);
    if step.Search? {
      SearchCovers(s, w, msg, was);
    } else {
      hide Hash, Effect, FirstFrom;
    }
  }

  lemma StepCovers(s: State, a: Action, w: nat, msg: bv32, was: seq<Entry>)
    requires CoverInv(s, w, msg, was) && Enabled(s, a) && Keeps(Hash(msg))(s, a)
    ensures CoverInv(Do(s, a), w, msg, was)
  {
    if a.Work? && a.w == w && !a.work.Register? {
      OwnStepCovers(s, w, a.work, msg, was);
    } else if a.Work? && a.w == w {
      Registers(s, a, Hash(msg));
    } else {
      Registers(s, a, Hash(msg));
      OthersLeave(s, a, w);
      CoverGrows(s, Do(s, a), w, msg, was);
    }
  }

  lemma {:induction false} RunCovers(s: State, actions: seq<Action>, w: nat, msg: bv32, was: seq<Entry>)
    requires CoverInv(s, w, msg, was) && ValidRun(s, actions) && Always(s, actions, Keeps(Hash(msg)))
    ensures CoverInv(After(s, actions), w, msg, was)
    decreases actions
  {
    hide CoverInv, Hash, Keeps;
    if actions != [] {
      StepCovers(s, actions[0], w, msg, was);
      RunCovers(Do(s, actions[0]), actions[1..], w, msg, was);
    }
  }

  lemma FreshCovers(s: State, w: nat)
    requires Fresh(s, w)
    ensures CoverInv(s, w, s.workers[w].msg, ChainOf(s, w))
  {
    hide Hash;
  }

  lemma CoverMeans(t: State, w: nat, msg: bv32, was: seq<Entry>)
    requires CoverInv(t, w, msg, was)
    ensures t.workers[w].pc.Draining? || t.workers[w].pc.Replying? ==>
              && (forall p :: Entry(msg, p) in was ==> p in t.workers[w].told)
              && (forall p :: p in t.workers[w].told ==> Entry(msg, p) in ChainOf(t, w))
  {
    hide Hash;
    var told := t.workers[w].told;
    if t.workers[w].pc.Draining? || t.workers[w].pc.Replying? {
      forall p | Entry(msg, p) in was
        ensures p in told
      {
        var i :| 0 <= i < |was| && was[i] == Entry(msg, p);
        assert was[i].pid in told;
      }
    }
  }

  /**
   * While no entry is removed from its bucket, a worker that has left the loop has signalled every process that was
   * registered for its message when it started, and no other than those that are registered by now: registrations may
   * come in between anywhere.
   */
  lemma EveryRegistrationIsSignalled(s: State, actions: seq<Action>, w: nat)
    requires Fresh(s, w) && ValidRun(s, actions) && Always(s, actions, Keeps(Hash(s.workers[w].msg)))
    ensures var t, msg := After(s, actions), s.workers[w].msg;
            && w < |t.workers| && t.workers[w].msg == msg && InTable(t.table, msg)
            && (t.workers[w].pc.Draining? || t.workers[w].pc.Replying? ==>
                  && (forall p :: Entry(msg, p) in ChainOf(s, w) ==> p in t.workers[w].told)
                  && (forall p :: p in t.workers[w].told ==> Entry(msg, p) in ChainOf(t, w)))
  {
    var msg, was := s.workers[w].msg, ChainOf(s, w);
    FreshCovers(s, w);
    RunCovers(s, actions, w, msg, was);
    CoverMeans(After(s, actions), w, msg, was);
    hide Hash, After, CoverInv, ValidRun, Always;
  }

  /**
   * A request that is accepted signals every process that is registered for its message by then, and only processes
   * that are registered for it, while no entry is removed from the bucket.
   */
  lemma RequestIsDelivered(s: State, msg: bv32, actions: seq<Action>)
    requires InTable(s.table, msg) && ValidRun(Do(s, Accept(msg)), actions)
    requires Always(Do(s, Accept(msg)), actions, Keeps(Hash(msg)))
    ensures var t, w := After(Do(s, Accept(msg)), actions), |s.workers|;
            && w < |t.workers| && InTable(t.table, msg)
            && (t.workers[w].pc.Draining? || t.workers[w].pc.Replying? ==>
                  && (forall p :: Entry(msg, p) in s.table[Hash(msg)] ==> p in t.workers[w].told)
                  && (forall p :: p in t.workers[w].told ==> Entry(msg, p) in t.table[Hash(msg)]))
  {
    hide Hash, After, Always, ValidRun, Keeps;
    EveryRegistrationIsSignalled(Do(s, Accept(msg)), actions, |s.workers|);
  }

  lemma {:induction false} RegistrationLasts(s: State, actions: seq<Action>, e: Entry)
    requires InTable(s.table, e.msg) && e in s.table[Hash(e.msg)] && ValidRun(s, actions)
    requires Always(s, actions, Keeps(Hash(e.msg)))
    ensures InTable(After(s, actions).table, e.msg) && e in After(s, actions).table[Hash(e.msg)]
    decreases actions
  {
    hide Hash, Keeps;
    if actions != [] {
      TableChanges(s, actions[0]);
      Registers(s, actions[0], Hash(e.msg));
      RegistrationLasts(Do(s, actions[0]), actions[1..], e);
    }
  }

  /** From the registration of a process to a later request for its message, with anything but removals in between. */
  lemma RegisteredIsSignalled(s: State, v: nat, pid: int, between: seq<Action>, actions: seq<Action>)
    requires Enabled(s, Work(v, Register(pid, true)))
    requires ValidRun(Do(s, Work(v, Register(pid, true))), between)
    requires var msg, t := s.workers[v].msg, After(Do(s, Work(v, Register(pid, true))), between);
             && Always(Do(s, Work(v, Register(pid, true))), between, Keeps(Hash(msg)))
             && InTable(t.table, msg) && ValidRun(Do(t, Accept(msg)), actions)
             && Always(Do(t, Accept(msg)), actions, Keeps(Hash(msg)))
    ensures var msg, t := s.workers[v].msg, After(Do(s, Work(v, Register(pid, true))), between);
            var u, w := After(Do(t, Accept(msg)), actions), |t.workers|;
            w < |u.workers| && (u.workers[w].pc.Draining? || u.workers[w].pc.Replying? ==> pid in u.workers[w].told)
  {
    var e := Entry(s.workers[v].msg, pid);
    var s1 := Do(s, Work(v, Register(pid, true)));
    TableChanges(s, Work(v, Register(pid, true)));
    assert e in s1.table[Hash(e.msg)] by {
      hide Hash;
    }
    hide Hash, After, Always, ValidRun, Keeps, Do;
    RegistrationLasts(s1, between, e);
    RequestIsDelivered(After(s1, between), e.msg, actions);
  }

  // ----- Dead processes

  /**
   * The worker has its bucket to itself, except that others may search it, and its kills fail exactly for the processes
   * in dead.
   */
  function Alone(w: nat, h: nat, dead: set<int>): (State, Action) -> bool {
    (s: State, a: Action) =>
      a.Work? && a.w < |s.workers| ==>
        var v := s.workers[a.w];
        && (a.work.Register? || (a.work.Remove? && a.w != w) ==> Hash(v.msg) != h)
        && (a.w == w && a.work.KillOk? && v.pc.Written? ==> v.pc.pid !in dead)
        && (a.w == w && a.work.KillFails? && v.pc.Written? ==> v.pc.pid in dead)
  }

  ghost predicate Found(chain: seq<Entry>, msg: bv32, num: nat, pid: int) {
    FirstFrom(chain, msg, num) >= 0 && pid == chain[FirstFrom(chain, msg, num)].pid
  }

  /** Not yet through with the loop. */
  predicate InLoop(pc: Pc) { pc.Start? || pc.Reading? || pc.Searching? || pc.HasTarget() }

  predicate Failed(pc: Pc) { pc.KillFailed? || pc.Removing? || ((pc.Spinning? || pc.Unlocking?) && pc.failed) }

  /** Has found an entry, and not signalled its process. */
  predicate Facing(pc: Pc) { pc.Waiting? || pc.Locked? || pc.Written? || Failed(pc) }

  /** The place from which the rest of the loop goes on; an entry that is faced is still to come. */
  function Place(pc: Pc): nat {
    if Facing(pc) || pc.Searching? then pc.num else if pc.HasTarget() then pc.num + 1 else 0
  }

  /** The worker has signalled pids, or will, when the rest of its loop goes through the chain as Swept does. */
  ghost predicate Sweeps(v: Worker, chain: seq<Entry>, dead: set<int>, pids: seq<int>) {
    && (InLoop(v.pc) ==> pids == v.told + Swept(chain, v.msg, dead, Place(v.pc)))
    && (v.pc.Draining? || v.pc.Replying? ==> pids == v.told)
    && (Facing(v.pc) ==> Found(chain, v.msg, v.pc.num, v.pc.pid))
    && (Failed(v.pc) ==> v.pc.pid in dead)
  }

  ghost predicate SweepInv(s: State, w: nat, msg: bv32, dead: set<int>, pids: seq<int>) {
    && w < |s.workers| && InTable(s.table, msg) && s.workers[w].msg == msg
    && NoDuplicates(ChainOf(s, w))
    && Sweeps(s.workers[w], ChainOf(s, w), dead, pids)
  }

  /** Where the steps that matter lead. */
  lemma LoopStep(s: State, w: nat, step: WorkStep)
    requires w < |s.workers| && InTable(s.table, s.workers[w].msg) && CanWork(s, w, step)
    ensures var t, v, chain := DoWork(s, w, step), s.workers[w], ChainOf(s, w);
            && (step.Search? ==>
                  var k := FirstFrom(chain, v.msg, v.pc.num);
                  t.workers[w] == v.(pc := if k < 0 then Draining else Waiting(v.pc.num, chain[k].pid)))
            && (step.KillOk? ==>
                  t.workers[w] == v.(pc := Signalled(v.pc.num, v.pc.pid), told := v.told + [v.pc.pid]))
            && (step.KillFails? ==> t.workers[w] == v.(pc := KillFailed(v.pc.num, v.pc.pid)))
            && (step.Remove? ==>
                  && t.workers[w] == v.(pc := Searching(v.pc.num + 1))
                  && t.table == Delete(s.table, Entry(v.msg, v.pc.pid)).0)
  {
    hide Hash, Delete, FirstFrom;
  }

  /** How Swept goes on from a hit at place k. */
  lemma SweptGoesOn(chain: seq<Entry>, msg: bv32, dead: set<int>, num: nat, pid: int, pids: seq<int>, told: seq<int>)
    requires Found(chain, msg, num, pid) && pids == told + Swept(chain, msg, dead, num)
    ensures var k := FirstFrom(chain, msg, num);
            && chain[k] == Entry(msg, pid)
            && (pid in dead ==> pids == told + Swept(Without(chain, k), msg, dead, num + 1))
            && (pid !in dead ==> pids == told + [pid] + Swept(chain, msg, dead, num + 1))
  {}

  /** A removal after a failed kill is the step that Swept takes. */
  lemma RemoveSweeps(s: State, w: nat, msg: bv32, dead: set<int>, pids: seq<int>)
    requires SweepInv(s, w, msg, dead, pids) && CanWork(s, w, Remove)
    ensures SweepInv(DoWork(s, w, Remove), w, msg, dead, pids)
  {
    hide Hash, FirstFrom, Swept, Delete, DoWork, NoDuplicates, Without;
    var chain, v := ChainOf(s, w), s.workers[w];
    SweptGoesOn(chain, msg, dead, v.pc.num, v.pc.pid, pids, v.told);
    DeleteFound(s.table, Entry(msg, v.pc.pid), FirstFrom(chain, msg, v.pc.num));
    LoopStep(s, w, Remove);
    TableChanges(s, Work(w, Remove));
    MessageStays(s, w, Remove);
  }

  lemma SearchSweeps(s: State, w: nat, msg: bv32, dead: set<int>, pids: seq<int>)
    requires SweepInv(s, w, msg, dead, pids) && CanWork(s, w, Search)
    ensures SweepInv(DoWork(s, w, Search), w, msg, dead, pids)
  {
    LoopStep(s, w, Search);
    TableChanges(s, Work(w, Search));
    MessageStays(s, w, Search);
    assert FirstFrom(ChainOf(s, w), msg, s.workers[w].pc.num) < 0 ==>
      Swept(ChainOf(s, w), msg, dead, s.workers[w].pc.num) == [];
    hide Hash, FirstFrom, Swept, DoWork, NoDuplicates, CanWork;
  }

  /** The kill of a live process adds it, and that of a dead one does not. */
  lemma KillSweeps(s: State, w: nat, step: WorkStep, msg: bv32, dead: set<int>, pids: seq<int>)
    requires SweepInv(s, w, msg, dead, pids) && CanWork(s, w, step) && (step.KillOk? || step.KillFails?)
    requires step.KillOk? <==> s.workers[w].pc.pid !in dead
    ensures SweepInv(DoWork(s, w, step), w, msg, dead, pids)
  {
    hide Hash, FirstFrom, Swept, DoWork, NoDuplicates;
    var chain, v := ChainOf(s, w), s.workers[w];
    if step.KillOk? {
      SweptGoesOn(chain, msg, dead, v.pc.num, v.pc.pid, pids, v.told);
    }
    LoopStep(s, w, step);
    TableChanges(s, Work(w, step));
    MessageStays(s, w, step);
  }

  predicate IsPlain(step: WorkStep) {
    !step.Remove? && !step.KillOk? && !step.KillFails? && !step.Search? && !step.Register?
  }

  lemma PlainStep(s: State, w: nat, step: WorkStep)
    requires w < |s.workers| && CanWork(s, w, step) && IsPlain(step)
    ensures var v, v' := s.workers[w], DoWork(s, w, step).workers[w];
            v'.pc == NextPc(s, w, step) && v'.msg == v.msg && v'.told == v.told
  {
    hide Hash, Effect, NextPc;
  }

  lemma PlainPc(s: State, w: nat, step: WorkStep)
    requires w < |s.workers| && CanWork(s, w, step) && IsPlain(step)
    ensures var pc, pc' := s.workers[w].pc, NextPc(s, w, step);
            && (InLoop(pc') ==> InLoop(pc) && Place(pc') == Place(pc))
            && (pc'.Draining? || pc'.Replying? ==> pc.Draining? || pc.Replying?)
            && (Facing(pc') ==> Facing(pc) && (pc'.num, pc'.pid) == (pc.num, pc.pid))
            && (Failed(pc') ==> Failed(pc))
  {
    hide Hash, FirstFrom;
  }

  lemma OtherStepSweeps(s: State, w: nat, step: WorkStep, msg: bv32, dead: set<int>, pids: seq<int>)
    requires SweepInv(s, w, msg, dead, pids) && CanWork(s, w, step) && IsPlain(step)
    ensures SweepInv(DoWork(s, w, step), w, msg, dead, pids)
  {
    TableChanges(s, Work(w, step));
    MessageStays(s, w, step);
    PlainStep(s, w, step);
    PlainPc(s, w, step);
    hide Hash, DoWork, NextPc, CanWork, Swept, NoDuplicates, Found, InLoop, Place, Facing, Failed;
  }

  lemma OwnStepSweeps(s: State, w: nat, step: WorkStep, msg: bv32, dead: set<int>, pids: seq<int>)
    requires SweepInv(s, w, msg, dead, pids) && CanWork(s, w, step)
    requires Alone(w, Hash(msg), dead)(s, Work(w, step))
    ensures SweepInv(DoWork(s, w, step), w, msg, dead, pids)
  {
    assert !step.Register?;
    assert step.KillOk? || step.KillFails? ==> (step.KillOk? <==> s.workers[w].pc.pid !in dead);
    hide SweepInv, Hash, DoWork, CanWork, Alone;
    if step.Remove? {
      RemoveSweeps(s, w, msg, dead, pids);
    } else if step.Search? {
      SearchSweeps(s, w, msg, dead, pids);
    } else if step.KillOk? || step.KillFails? {
      KillSweeps(s, w, step, msg, dead, pids);
    } else {
      OtherStepSweeps(s, w, step, msg, dead, pids);
    }
  }

  lemma OthersSweep(s: State, a: Action, w: nat, msg: bv32, dead: set<int>, pids: seq<int>)
    requires SweepInv(s, w, msg, dead, pids) && Enabled(s, a) && Alone(w, Hash(msg), dead)(s, a)
    requires !(a.Work? && a.w == w)
    ensures SweepInv(Do(s, a), w, msg, dead, pids)
  {
    OthersLeave(s, a, w);
    TableChanges(s, a);
    hide Sweeps, NextPc, Hash;
    assert Do(s, a).table[Hash(msg)] == s.table[Hash(msg)];
  }

  lemma {:induction false} RunSweeps(s: State, actions: seq<Action>, w: nat, msg: bv32, dead: set<int>, pids: seq<int>)
    requires SweepInv(s, w, msg, dead, pids) && ValidRun(s, actions) && Always(s, actions, Alone(w, Hash(msg), dead))
    ensures SweepInv(After(s, actions), w, msg, dead, pids)
    decreases actions
  {
    hide SweepInv, Hash, Alone;
    if actions != [] {
      if actions[0].Work? && actions[0].w == w {
        OwnStepSweeps(s, w, actions[0].work, msg, dead, pids);
      } else {
        OthersSweep(s, actions[0], w, msg, dead, pids);
      }
      RunSweeps(Do(s, actions[0]), actions[1..], w, msg, dead, pids);
    }
  }

  /**
   * When some processes are dead, a worker that has left the loop has signalled what Swept says, in order. Whether a
   * live registration is among them is a matter of its place alone: module Sweep.
   */
  lemma SweptAreSignalled(s: State, actions: seq<Action>, w: nat, dead: set<int>)
    requires Fresh(s, w) && NoDuplicates(ChainOf(s, w))
    requires ValidRun(s, actions) && Always(s, actions, Alone(w, Hash(s.workers[w].msg), dead))
    ensures var t := After(s, actions);
            && w < |t.workers|
            && (t.workers[w].pc.Draining? || t.workers[w].pc.Replying? ==>
                  t.workers[w].told == Swept(ChainOf(s, w), s.workers[w].msg, dead, 0))
  {
    RunSweeps(s, actions, w, s.workers[w].msg, dead, Swept(ChainOf(s, w), s.workers[w].msg, dead, 0));
  }

  /** For a request that is accepted: in order, what Swept says of the chain of its message. */
  lemma RequestIsSwept(s: State, msg: bv32, actions: seq<Action>, dead: set<int>)
    requires InTable(s.table, msg) && NoDuplicates(s.table[Hash(msg)])
    requires ValidRun(Do(s, Accept(msg)), actions)
    requires Always(Do(s, Accept(msg)), actions, Alone(|s.workers|, Hash(msg), dead))
    ensures var t, w := After(Do(s, Accept(msg)), actions), |s.workers|;
            && w < |t.workers|
            && (t.workers[w].pc.Draining? || t.workers[w].pc.Replying? ==>
                  t.workers[w].told == Swept(s.table[Hash(msg)], msg, dead, 0))
  {
    hide Hash, After, Always, ValidRun, Alone, Swept, NoDuplicates;
    SweptAreSignalled(Do(s, Accept(msg)), actions, |s.workers|, dead);
  }

  /** A live registration at place j gets the message if and only if there is slack at its place. */
  lemma LiveIsSignalledIff(s: State, actions: seq<Action>, w: nat, dead: set<int>, j: nat)
    requires Fresh(s, w) && NoDuplicates(ChainOf(s, w))
    requires ValidRun(s, actions) && Always(s, actions, Alone(w, Hash(s.workers[w].msg), dead))
    requires var t := After(s, actions);
             w < |t.workers| && (t.workers[w].pc.Draining? || t.workers[w].pc.Replying?)
    requires var chain := ChainOf(s, w);
             j < |chain| && chain[j].msg == s.workers[w].msg && chain[j].pid !in dead
    ensures var chain, msg, told := ChainOf(s, w), s.workers[w].msg, After(s, actions).workers[w].told;
            chain[j].pid in told <==> 0 <= Slack(chain[..j], msg, dead, 0)
  {
    SweptAreSignalled(s, actions, w, dead);
    SignalledIffSlack(ChainOf(s, w), s.workers[w].msg, dead, j);
    hide Swept, Slack, Hash, After;
  }

  /**
   * No process is signalled twice for a message exactly when nothing else comes before its last entry in the bucket.
   */
  lemma SignalledOnceIff(chain: seq<Entry>, msg: bv32)
    requires NoDuplicates(chain)
    ensures (forall i, j | 0 <= i < j < |HitPids(chain, msg, 0)|
             :: HitPids(chain, msg, 0)[i] != HitPids(chain, msg, 0)[j])
       <==> (forall k | 0 <= k <= LastMatch(chain, msg) :: chain[k].msg == msg)
  {
    var hits, pids := Hits(chain, msg, 0), HitPids(chain, msg, 0);
    forall i, j | 0 <= i < j < |hits|
      ensures pids[i] == pids[j] <==> hits[i] == hits[j]
    {
      HitsMatch(chain, msg, hits[i]);
      HitsMatch(chain, msg, hits[j]);
      if pids[i] == pids[j] {
        assert chain[hits[i]] == chain[hits[j]];
      }
    }
    DeliveryOnceIff(chain, msg);
  }
}

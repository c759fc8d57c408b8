/** When a live registration gets its message, whatever the other threads register and remove meanwhile. */
module Reach {
  import opened Common
  import opened Registry
  import opened Delivery
  import Coverage

  /** The place at which the next search of the worker begins. */
  function NextPlace(pc: Pc): nat {
    if pc.Searching? then pc.num else if pc.HasTarget() then pc.num + 1 else 0
  }

  /** The registration stands where a search that is still to come begins, or behind. */
  ghost predicate Ahead(s: State, w: nat, e: Entry) {
    && w < |s.workers| && InTable(s.table, e.msg) && s.workers[w].msg == e.msg
    && Coverage.InLoop(s.workers[w].pc)
    && e in s.table[Hash(e.msg)] && NextPlace(s.workers[w].pc) <= IndexOf(s.table[Hash(e.msg)], e)
  }

  /** The worker has found the process and not signalled it yet. */
  predicate Faces(pc: Pc, pid: int) { (pc.Waiting? || pc.Locked? || pc.Written?) && pc.pid == pid }

  /** The process has been signalled, or will be, unless the worker gives up before its loop. */
  ghost predicate Reached(s: State, w: nat, e: Entry) {
    && w < |s.workers| && InTable(s.table, e.msg) && s.workers[w].msg == e.msg
    && var Worker(pc, _, _, told) := s.workers[w];
       pc.Releasing? || pc.Done? || e.pid in told || Faces(pc, e.pid) || Ahead(s, w, e)
  }

  /** The entry that the step removes. */
  function Removed(s: State, a: Action): Entry
    requires Enabled(s, a) && a.Work? && a.work.Remove?
  {
    Entry(s.workers[a.w].msg, s.workers[a.w].pc.pid)
  }

  /** An entry before e is removed while e stands where the next search of the worker begins. */
  ghost predicate PullsBack(s: State, w: nat, e: Entry, a: Action)
    requires Ahead(s, w, e) && Enabled(s, a) && a.Work? && a.work.Remove?
  {
    var chain, d := s.table[Hash(e.msg)], Removed(s, a);
    && Hash(d.msg) == Hash(e.msg) && d in chain && IndexOf(chain, d) < IndexOf(chain, e)
    && IndexOf(chain, e) == NextPlace(s.workers[w].pc)
  }

  lemma IndexIs(chain: seq<Entry>, e: Entry, j: nat)
    requires j < |chain| && chain[j] == e && forall i | 0 <= i < j :: chain[i] != e
    ensures e in chain && IndexOf(chain, e) == j
  {
    var k := IndexOf(chain, e);
    assert forall i | 0 <= i < k :: chain[..k][i] == chain[i];
    assert forall i | 0 <= i < k :: chain[..k][i] in chain[..k];
  }

  lemma IndexAfterRemoval(chain: seq<Entry>, d: Entry, e: Entry)
    requires d in chain && e in chain && d != e
    ensures e in Without(chain, IndexOf(chain, d))
    ensures IndexOf(Without(chain, IndexOf(chain, d)), e)
         == IndexOf(chain, e) - if IndexOf(chain, d) < IndexOf(chain, e) then 1 else 0
  {
    var k, j := IndexOf(chain, d), IndexOf(chain, e);
    forall i | 0 <= i < j
      ensures chain[i] != e
    {
      assert chain[..j][i] == chain[i];
    }
    hide IndexOf;
    IndexIs(Without(chain, k), e, if k < j then j - 1 else j);
  }

  lemma IndexAfterInsert(chain: seq<Entry>, d: Entry, e: Entry)
    requires e in chain && d != e
    ensures e in [d] + chain && IndexOf([d] + chain, e) == 1 + IndexOf(chain, e)
  {
    assert ([d] + chain)[1..] == chain;
  }

  lemma TableAfter(s: State, a: Action)
    requires Enabled(s, a)
    ensures Do(s, a).table ==
            if a.Work? && a.work.Remove? then Delete(s.table, Removed(s, a)).0
            else if a.Work? && a.work.Register?
            then Insert(s.table, Entry(s.workers[a.w].msg, a.work.pid), a.work.memory).0
            else s.table
  {
    hide Hash, NextPc, Insert, Delete;
  }

  /** Where a registration stands after a step that does not remove it. */
  lemma ChainAfterDelete(t: Table, d: Entry, e: Entry)
    requires InTable(t, d.msg) && InTable(t, e.msg) && e in t[Hash(e.msg)] && d != e
    ensures var chain, chain' := t[Hash(e.msg)], Delete(t, d).0[Hash(e.msg)];
            && |Delete(t, d).0| == |t| && e in chain'
            && IndexOf(chain', e) == IndexOf(chain, e)
                 - if Hash(d.msg) == Hash(e.msg) && d in chain && IndexOf(chain, d) < IndexOf(chain, e) then 1 else 0
  {
    hide Hash, IndexOf;
    if Hash(d.msg) == Hash(e.msg) && d in t[Hash(e.msg)] {
      IndexAfterRemoval(t[Hash(e.msg)], d, e);
    }
  }

  lemma ChainAfterInsert(t: Table, d: Entry, memory: bool, e: Entry)
    requires InTable(t, d.msg) && InTable(t, e.msg) && e in t[Hash(e.msg)]
    ensures var chain, chain' := t[Hash(e.msg)], Insert(t, d, memory).0[Hash(e.msg)];
            && |Insert(t, d, memory).0| == |t| && e in chain' && IndexOf(chain, e) <= IndexOf(chain', e)
  {
    hide Hash, IndexOf;
    if d != e {
      IndexAfterInsert(t[Hash(e.msg)], d, e);
    }
  }

  lemma WorkerAfterRemove(s: State, w: nat, a: Action)
    requires Enabled(s, a) && a.Work? && a.work.Remove? && w < |s.workers|
    ensures var v, v' := s.workers[w], Do(s, a).workers[w];
            && |Do(s, a).workers| == |s.workers| && v'.msg == v.msg && v'.told == v.told
            && v'.pc == (if a.w == w then Searching(v.pc.num + 1) else v.pc)
            && (a.w == w ==> v.pc.Removing?)
  {
    hide Hash, Effect, Delete, FirstFrom;
  }

  /** A removal leaves a registration that is not removed ahead of a worker if and only if it does not pull it back. */
  lemma RemovalIff(s: State, w: nat, e: Entry, a: Action)
    requires Ahead(s, w, e) && Enabled(s, a) && a.Work? && a.work.Remove? && Removed(s, a) != e
    ensures Ahead(Do(s, a), w, e) <==> !PullsBack(s, w, e, a)
  {
    TableAfter(s, a);
    WorkerAfterRemove(s, w, a);
    ChainAfterDelete(s.table, Removed(s, a), e);
    hide Hash, IndexOf, Do, Delete;
  }

  // ----- Along a run

  /** The worker has neither signalled nor found it. */
  ghost predicate Waits(s: State, w: nat, e: Entry) {
    Ahead(s, w, e) && e.pid !in s.workers[w].told && !Faces(s.workers[w].pc, e.pid)
  }

  /**
   * Until it is signalled, the kill of the worker does not fail; and while it waits, its registration is not removed.
   */
  ghost function Lives(w: nat, e: Entry): (State, Action) -> bool {
    (s: State, a: Action) =>
      Enabled(s, a) && a.Work? ==>
        && (a.work.KillFails? && a.w == w && s.workers[w].pc.pid == e.pid ==> e.pid in s.workers[w].told)
        && (a.work.Remove? && Waits(s, w, e) ==> Removed(s, a) != e)
  }

  /** While it waits, it is not pulled back. */
  ghost function NotPulled(w: nat, e: Entry): (State, Action) -> bool {
    (s: State, a: Action) =>
      Waits(s, w, e) && Enabled(s, a) && a.Work? && a.work.Remove? ==> !PullsBack(s, w, e, a)
  }

  ghost predicate Spares(w: nat, e: Entry, s: State, a: Action) {
    Lives(w, e)(s, a) && NotPulled(w, e)(s, a)
  }

  lemma OthersReach(s: State, w: nat, e: Entry, a: Action)
    requires Reached(s, w, e) && Enabled(s, a) && Spares(w, e, s, a) && !(a.Work? && a.w == w)
    ensures Reached(Do(s, a), w, e)
  {
    Coverage.OthersLeave(s, a, w);
    Coverage.TableChanges(s, a);
    if Waits(s, w, e) {
      if a.Work? && a.work.Remove? {
        RemovalIff(s, w, e, a);
      } else {
        RegistrationStaysAhead(s, w, e, a);
      }
    }
    hide Hash, Do, IndexOf, Ahead, Enabled;
  }

  lemma RegistrationStaysAhead(s: State, w: nat, e: Entry, a: Action)
    requires Ahead(s, w, e) && Enabled(s, a) && !(a.Work? && (a.w == w || a.work.Remove?))
    ensures Ahead(Do(s, a), w, e)
  {
    Coverage.OthersLeave(s, a, w);
    TableAfter(s, a);
    if a.Work? && a.work.Register? {
      ChainAfterInsert(s.table, Entry(s.workers[a.w].msg, a.work.pid), a.work.memory, e);
    }
    hide Hash, IndexOf, Do, Insert;
  }

  lemma SearchReaches(s: State, w: nat, e: Entry)
    requires Ahead(s, w, e) && CanWork(s, w, Search)
    ensures Reached(DoWork(s, w, Search), w, e)
  {
    Coverage.LoopStep(s, w, Search);
    Coverage.TableChanges(s, Work(w, Search));
    Coverage.MessageStays(s, w, Search);
    hide Hash, DoWork;
    var chain, num := s.table[Hash(e.msg)], s.workers[w].pc.num;
    var k := FirstFrom(chain, e.msg, num);
    assert chain[IndexOf(chain, e)] == e;
    if k == IndexOf(chain, e) {
      assert chain[k] == e;
    }
  }

  lemma OwnReach(s: State, w: nat, e: Entry, step: WorkStep)
    requires Reached(s, w, e) && w < |s.workers| && CanWork(s, w, step) && Spares(w, e, s, Work(w, step))
    ensures Reached(DoWork(s, w, step), w, e)
  {
    Coverage.TableChanges(s, Work(w, step));
    Coverage.MessageStays(s, w, step);
    if step.Remove? && Waits(s, w, e) {
      RemovalIff(s, w, e, Work(w, step));
    } else if step.Search? && Ahead(s, w, e) {
      SearchReaches(s, w, e);
    } else {
      PlainReach(s, w, e, step);
    }
    hide Hash, DoWork;
  }

  lemma PlainReach(s: State, w: nat, e: Entry, step: WorkStep)
    requires Reached(s, w, e) && w < |s.workers| && CanWork(s, w, step) && Spares(w, e, s, Work(w, step))
    requires (step.Search? && Ahead(s, w, e)) || (step.Remove? && Waits(s, w, e)) ==> e.pid in s.workers[w].told
    ensures Reached(DoWork(s, w, step), w, e)
  {
    Coverage.TableChanges(s, Work(w, step));
    Coverage.MessageStays(s, w, step);
    hide Hash, Effect, FirstFrom, IndexOf;
  }

  lemma StepReaches(s: State, w: nat, e: Entry, a: Action)
    requires Reached(s, w, e) && Enabled(s, a) && Spares(w, e, s, a)
    ensures Reached(Do(s, a), w, e)
  {
    hide Reached, Spares;
    if a.Work? && a.w == w {
      OwnReach(s, w, e, a.work);
    } else {
      OthersReach(s, w, e, a);
    }
  }

  lemma {:induction false} RunReaches(s: State, actions: seq<Action>, w: nat, e: Entry)
    requires Reached(s, w, e) && ValidRun(s, actions)
    requires Always(s, actions, Lives(w, e)) && Always(s, actions, NotPulled(w, e))
    ensures Reached(After(s, actions), w, e)
    decreases actions
  {
    hide Reached, Lives, NotPulled;
    if actions != [] {
      StepReaches(s, w, e, actions[0]);
      RunReaches(Do(s, actions[0]), actions[1..], w, e);
    }
  }

  /**
   * Along every run, whatever is registered and removed: a process that is registered when a worker starts, whose
   * kill does not fail, and whose registration is neither removed nor pulled back from where the next search begins,
   * is signalled.
   */
  lemma LiveIsSignalled(s: State, actions: seq<Action>, w: nat, pid: int)
    requires Coverage.Fresh(s, w) && Entry(s.workers[w].msg, pid) in Coverage.ChainOf(s, w)
    requires ValidRun(s, actions)
    requires var e := Entry(s.workers[w].msg, pid);
             Always(s, actions, Lives(w, e)) && Always(s, actions, NotPulled(w, e))
    ensures var t := After(s, actions);
            w < |t.workers| && (t.workers[w].pc.Draining? || t.workers[w].pc.Replying? ==> pid in t.workers[w].told)
  {
    RunReaches(s, actions, w, Entry(s.workers[w].msg, pid));
    hide Lives, NotPulled, Hash;
  }

  /** For a request that is accepted: a process that is registered for its message by then. */
  lemma RequestSignalsLive(s: State, msg: bv32, actions: seq<Action>, pid: int)
    requires InTable(s.table, msg) && Entry(msg, pid) in s.table[Hash(msg)] && ValidRun(Do(s, Accept(msg)), actions)
    requires Always(Do(s, Accept(msg)), actions, Lives(|s.workers|, Entry(msg, pid)))
    requires Always(Do(s, Accept(msg)), actions, NotPulled(|s.workers|, Entry(msg, pid)))
    ensures var t, w := After(Do(s, Accept(msg)), actions), |s.workers|;
            w < |t.workers| && (t.workers[w].pc.Draining? || t.workers[w].pc.Replying? ==> pid in t.workers[w].told)
  {
    hide Hash, After, Always, ValidRun, Lives, NotPulled;
    LiveIsSignalled(Do(s, Accept(msg)), actions, |s.workers|, pid);
  }

  // ----- And only then, unless a registration pushes it back

  /** The worker has passed it. */
  ghost predicate Passed(s: State, w: nat, e: Entry) {
    && w < |s.workers| && InTable(s.table, e.msg) && s.workers[w].msg == e.msg && NoDuplicates(s.table[Hash(e.msg)])
    && e.pid !in s.workers[w].told && !Faces(s.workers[w].pc, e.pid) && !Ahead(s, w, e)
  }

  /** Nothing is registered in the bucket. */
  ghost function NoneRegisters(e: Entry): (State, Action) -> bool {
    (s: State, a: Action) => Enabled(s, a) && a.Work? && a.work.Register? ==> Hash(s.workers[a.w].msg) != Hash(e.msg)
  }

  lemma SearchPasses(s: State, w: nat, e: Entry)
    requires Passed(s, w, e) && CanWork(s, w, Search)
    ensures Passed(DoWork(s, w, Search), w, e)
  {
    Coverage.LoopStep(s, w, Search);
    Coverage.TableChanges(s, Work(w, Search));
    Coverage.MessageStays(s, w, Search);
    hide Hash, DoWork;
    var chain, num := s.table[Hash(e.msg)], s.workers[w].pc.num;
    var k := FirstFrom(chain, e.msg, num);
    assert forall i | 0 <= i < |chain| && chain[i] == e :: IndexOf(chain, e) == i;
  }

  lemma MembersAfterDelete(t: Table, d: Entry, e: Entry)
    requires InTable(t, d.msg) && InTable(t, e.msg) && NoDuplicates(t[Hash(e.msg)])
    ensures var chain, chain' := t[Hash(e.msg)], Delete(t, d).0[Hash(e.msg)];
            |Delete(t, d).0| == |t| && NoDuplicates(chain') && (e in chain' ==> e in chain && d != e)
  {
    hide Hash, NoDuplicates;
    var chain := t[Hash(e.msg)];
    if Hash(d.msg) == Hash(e.msg) && d in chain {
      RemovedMembers(chain, IndexOf(chain, d));
      assert chain[IndexOf(chain, d)] == d;
      assert Delete(t, d).0[Hash(e.msg)] == Without(chain, IndexOf(chain, d));
    }
  }

  lemma DeleteKeepsBehind(t: Table, d: Entry, e: Entry, n: nat)
    requires InTable(t, d.msg) && InTable(t, e.msg) && NoDuplicates(t[Hash(e.msg)])
    requires e in t[Hash(e.msg)] ==> IndexOf(t[Hash(e.msg)], e) < n
    ensures InTable(Delete(t, d).0, e.msg)
    ensures e in Delete(t, d).0[Hash(e.msg)] ==> IndexOf(Delete(t, d).0[Hash(e.msg)], e) < n
  {
    MembersAfterDelete(t, d, e);
    if e in t[Hash(e.msg)] && d != e {
      ChainAfterDelete(t, d, e);
    }
    hide Hash, Delete, NoDuplicates, IndexOf;
  }

  lemma RemovalPasses(s: State, w: nat, e: Entry, a: Action)
    requires Passed(s, w, e) && Enabled(s, a) && a.Work? && a.work.Remove?
    ensures Passed(Do(s, a), w, e)
  {
    TableAfter(s, a);
    WorkerAfterRemove(s, w, a);
    MembersAfterDelete(s.table, Removed(s, a), e);
    if Coverage.InLoop(s.workers[w].pc) {
      DeleteKeepsBehind(s.table, Removed(s, a), e, NextPlace(s.workers[w].pc));
    }
    hide Hash, Do, Delete, NoDuplicates, IndexOf, Enabled;
  }

  lemma PlainPasses(s: State, w: nat, e: Entry, step: WorkStep)
    requires Passed(s, w, e) && CanWork(s, w, step) && NoneRegisters(e)(s, Work(w, step))
    requires !step.Remove? && !step.Search?
    ensures Passed(DoWork(s, w, step), w, e)
  {
    Coverage.MessageStays(s, w, step);
    TableAfter(s, Work(w, step));
    hide Hash, Effect, FirstFrom, IndexOf, NoDuplicates;
  }

  lemma OthersPass(s: State, w: nat, e: Entry, a: Action)
    requires Passed(s, w, e) && Enabled(s, a) && NoneRegisters(e)(s, a)
    requires !(a.Work? && a.w == w) && !(a.Work? && a.work.Remove?)
    ensures Passed(Do(s, a), w, e)
  {
    Coverage.OthersLeave(s, a, w);
    TableAfter(s, a);
    hide Hash, Do, IndexOf, NoDuplicates;
  }

  lemma StepPasses(s: State, w: nat, e: Entry, a: Action)
    requires Passed(s, w, e) && Enabled(s, a) && NoneRegisters(e)(s, a)
    ensures Passed(Do(s, a), w, e)
  {
    hide Passed, NoneRegisters;
    if a.Work? && a.work.Remove? {
      RemovalPasses(s, w, e, a);
    } else if !(a.Work? && a.w == w) {
      OthersPass(s, w, e, a);
    } else if a.work.Search? {
      SearchPasses(s, w, e);
    } else {
      PlainPasses(s, w, e, a.work);
    }
  }

  lemma {:induction false} RunPasses(s: State, actions: seq<Action>, w: nat, e: Entry)
    requires Passed(s, w, e) && ValidRun(s, actions) && Always(s, actions, NoneRegisters(e))
    ensures Passed(After(s, actions), w, e)
    decreases actions
  {
    hide Passed, NoneRegisters;
    if actions != [] {
      StepPasses(s, w, e, actions[0]);
      RunPasses(Do(s, actions[0]), actions[1..], w, e);
    }
  }

  lemma PullPasses(s: State, w: nat, e: Entry, a: Action)
    requires Waits(s, w, e) && NoDuplicates(s.table[Hash(e.msg)]) && Enabled(s, a)
    requires Lives(w, e)(s, a) && !NotPulled(w, e)(s, a)
    ensures Passed(Do(s, a), w, e)
  {
    RemovalIff(s, w, e, a);
    TableAfter(s, a);
    WorkerAfterRemove(s, w, a);
    MembersAfterDelete(s.table, Removed(s, a), e);
    hide Hash, Do, Delete, NoDuplicates, IndexOf, PullsBack, Enabled;
  }

  /** A registration that is pulled back while it waits is passed for good. */
  lemma {:induction false} PulledRunPasses(s: State, actions: seq<Action>, w: nat, e: Entry)
    requires Reached(s, w, e) && WellFormed(s.table) && ValidRun(s, actions)
    requires Always(s, actions, Lives(w, e)) && Always(s, actions, NoneRegisters(e))
    requires !Always(s, actions, NotPulled(w, e))
    ensures Passed(After(s, actions), w, e)
    decreases actions
  {
    var a, t := actions[0], Do(s, actions[0]);
    if NotPulled(w, e)(s, a) {
      StepReaches(s, w, e, a);
      TableStaysWellFormed(s, a);
      PulledRunPasses(t, actions[1..], w, e);
    } else {
      ChainHasNoDuplicates(s.table, Hash(e.msg));
      PullPasses(s, w, e, a);
      RunPasses(t, actions[1..], w, e);
    }
    hide Reached, Lives, NoneRegisters, NotPulled, WellFormed, Passed, Do, Enabled, Hash;
  }

  lemma TableStaysWellFormed(s: State, a: Action)
    requires WellFormed(s.table) && Enabled(s, a)
    ensures WellFormed(Do(s, a).table)
  {
    TableAfter(s, a);
    if a.Work? && a.work.Register? {
      InsertRefines(s.table, Entry(s.workers[a.w].msg, a.work.pid), a.work.memory);
    } else if a.Work? && a.work.Remove? {
      DeleteRefines(s.table, Removed(s, a));
    }
    hide WellFormed, Insert, Delete, Do, Hash, Pairs;
  }

  /**
   * If nothing is registered in the bucket meanwhile, that is exactly when: a live registration is signalled if and
   * only if no removal, by this worker or another one, pulls it back while it waits.
   */
  lemma LiveIsSignalledIff(s: State, actions: seq<Action>, w: nat, pid: int)
    requires Coverage.Fresh(s, w) && Entry(s.workers[w].msg, pid) in Coverage.ChainOf(s, w) && WellFormed(s.table)
    requires ValidRun(s, actions)
    requires var e := Entry(s.workers[w].msg, pid);
             Always(s, actions, Lives(w, e)) && Always(s, actions, NoneRegisters(e))
    requires var t := After(s, actions);
             w < |t.workers| && (t.workers[w].pc.Draining? || t.workers[w].pc.Replying?)
    ensures pid in After(s, actions).workers[w].told
       <==> Always(s, actions, NotPulled(w, Entry(s.workers[w].msg, pid)))
  {
    var e := Entry(s.workers[w].msg, pid);
    if Always(s, actions, NotPulled(w, e)) {
      LiveIsSignalled(s, actions, w, pid);
    } else {
      PulledRunPasses(s, actions, w, e);
    }
    hide Lives, NotPulled, NoneRegisters, WellFormed, Hash;
  }
}

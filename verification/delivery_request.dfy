/** What one request does when nothing comes in between, from its arrival to the return of its slot. */
module Request {
  import opened Common
  import opened Registry
  import opened Sweep
  import opened Delivery
  import DeliverySafety

  /** The process is at rest, and its index cell is clear. */
  predicate AtRest(q: Proc) { q.cell == 0 && !q.pending && q.handler.Idle? }

  /** The process has been signalled for slot x, and its handler has run. */
  function Served(q: Proc, x: nat): Proc { q.(sent := q.sent + [x], heard := q.heard + [x]) }

  predicate HaveCells(n: nat, pids: seq<int>) { forall i | 0 <= i < |pids| :: 0 <= pids[i] < n }

  /** So have the processes in pids, one after the other. */
  function AllServed(procs: seq<Proc>, x: nat, pids: seq<int>): seq<Proc>
    requires HaveCells(|procs|, pids)
    decreases pids
  {
    if pids == [] then procs else AllServed(procs[pids[0] := Served(procs[pids[0]], x)], x, pids[1..])
  }

  ghost predicate Leads(s: State, run: seq<Action>, t: State) { ValidRun(s, run) && After(s, run) == t }

  lemma LeadsOn(s: State, first: seq<Action>, t: State, rest: seq<Action>, u: State)
    requires Leads(s, first, t) && Leads(t, rest, u)
    ensures Leads(s, first + rest, u)
  {
    RunsCompose(s, first, rest);
  }

  lemma OneLeads(s: State, a: Action)
    requires Enabled(s, a)
    ensures Leads(s, [a], Do(s, a))
  {
    RunOfOne(s, a, []);
  }

  // ----- One turn of the loop

  /** The worker is before a search in the chain of its message, and nobody is under way. */
  ghost predicate AtLoop(s: State, w: nat) {
    && w < |s.workers| && s.workers[w].pc.Searching? && InTable(s.table, s.workers[w].msg) && s.lock.None?
    && s.workers[w].slot in s.count && s.count[s.workers[w].slot] < TWO32
    && (forall p | 0 <= p < |s.procs| :: AtRest(s.procs[p]))
    && (forall i | 0 <= i < |Chain(s, w)| :: HasCell(s, Chain(s, w)[i].pid))
  }

  ghost function Chain(s: State, w: nat): seq<Entry>
    requires w < |s.workers| && InTable(s.table, s.workers[w].msg)
  {
    s.table[Hash(s.workers[w].msg)]
  }

  /** What the search at num finds. */
  ghost function Hit(s: State, w: nat): int
    requires AtLoop(s, w)
  {
    FirstFrom(Chain(s, w), s.workers[w].msg, s.workers[w].pc.num)
  }

  ghost function HitPid(s: State, w: nat): (p: nat)
    requires AtLoop(s, w) && 0 <= Hit(s, w)
    ensures p < |s.procs| && AtRest(s.procs[p])
  {
    Chain(s, w)[Hit(s, w)].pid
  }

  /** From the search to the test before kill. */
  function Reaches(w: nat): seq<Action> { [Work(w, Search)] + [Work(w, Acquire)] + [Work(w, WriteCell)] }

  ghost function AtKill(s: State, w: nat): State
    requires AtLoop(s, w) && 0 <= Hit(s, w)
  {
    var v, p := s.workers[w], HitPid(s, w);
    s.(workers := s.workers[w := v.(pc := Written(v.pc.num, p))],
       procs := s.procs[p := s.procs[p].(cell := v.slot)], lock := Some(w))
  }

  lemma ReachesKill(s: State, w: nat)
    requires AtLoop(s, w) && 0 <= Hit(s, w)
    ensures Leads(s, Reaches(w), AtKill(s, w))
  {
    hide Leads, Hash, FirstFrom;
    var v, p := s.workers[w], HitPid(s, w);
    var s1 := s.(workers := s.workers[w := v.(pc := Waiting(v.pc.num, p))]);
    var s2 := s1.(workers := s.workers[w := v.(pc := Locked(v.pc.num, p))], lock := Some(w));
    OneLeads(s, Work(w, Search));
    assert Do(s, Work(w, Search)) == s1;
    OneLeads(s1, Work(w, Acquire));
    assert Do(s1, Work(w, Acquire)) == s2;
    OneLeads(s2, Work(w, WriteCell));
    assert Do(s2, Work(w, WriteCell)) == AtKill(s, w);
    LeadsOn(s, [Work(w, Search)], s1, [Work(w, Acquire)], s2);
    LeadsOn(s, [Work(w, Search)] + [Work(w, Acquire)], s2, [Work(w, WriteCell)], AtKill(s, w));
  }

  function KillAndHandle(w: nat, p: nat): seq<Action> {
    [Work(w, KillOk)] + DeliverySafety.HandlerRun(p) + [Work(w, CountUp)]
  }

  function Releases(w: nat): seq<Action> { [Work(w, SpinEnds)] + [Work(w, Unlock)] }

  /** The worker at pc has told the process, which has served the slot. */
  ghost function ToldAt(s: State, w: nat, pc: Pc): State
    requires AtLoop(s, w) && 0 <= Hit(s, w)
  {
    var v, p := s.workers[w], HitPid(s, w);
    s.(workers := s.workers[w := Worker(pc, v.slot, v.msg, v.told + [p])],
       procs := s.procs[p := Served(s.procs[p], v.slot)])
  }

  ghost function Told(s: State, w: nat): State
    requires AtLoop(s, w) && 0 <= Hit(s, w)
  {
    ToldAt(s, w, Searching(s.workers[w].pc.num + 1))
  }

  ghost function BeforeCount(s: State, w: nat): State
    requires AtLoop(s, w) && 0 <= Hit(s, w)
  {
    var v := s.workers[w];
    ToldAt(s, w, Signalled(v.pc.num, HitPid(s, w))).(
      count := s.count[v.slot := Decrement(s.count[v.slot])], lock := Some(w))
  }

  ghost function AfterCount(s: State, w: nat): State
    requires AtLoop(s, w) && 0 <= Hit(s, w)
  {
    ToldAt(s, w, Spinning(s.workers[w].pc.num, HitPid(s, w), false)).(lock := Some(w))
  }

  /** The handler runs before the count-up. */
  lemma KillLeads(s: State, w: nat)
    requires AtLoop(s, w) && 0 <= Hit(s, w)
    ensures Leads(AtKill(s, w), [Work(w, KillOk)] + DeliverySafety.HandlerRun(HitPid(s, w)), BeforeCount(s, w))
  {
    hide Leads, Hash, FirstFrom, DeliverySafety.HandlerRun;
    var v, p, x, t := s.workers[w], HitPid(s, w), s.workers[w].slot, AtKill(s, w);
    var q := s.procs[p];
    var s1 := t.(workers := s.workers[w := Worker(Signalled(v.pc.num, p), x, v.msg, v.told + [p])],
                 procs := s.procs[p := q.(cell := x, pending := true, sent := q.sent + [x])]);
    OneLeads(t, Work(w, KillOk));
    assert Do(t, Work(w, KillOk)) == s1;
    HandlerLeads(s1, p);
    assert s1.procs[p := s1.procs[p].(cell := 0, pending := false, heard := q.heard + [x])] == BeforeCount(s, w).procs;
    LeadsOn(t, [Work(w, KillOk)], s1, DeliverySafety.HandlerRun(p), BeforeCount(s, w));
  }

  lemma HandlerLeads(s: State, p: nat)
    requires p < |s.procs| && s.procs[p].pending && s.procs[p].handler.Idle? && s.procs[p].cell in s.count
    ensures var q := s.procs[p];
            Leads(s, DeliverySafety.HandlerRun(p),
                  s.(procs := s.procs[p := q.(cell := 0, pending := false, heard := q.heard + [q.cell])],
                     count := s.count[q.cell := Decrement(s.count[q.cell])]))
  {
    hide DeliverySafety.HandlerRun, ValidRun, After;
    DeliverySafety.HandlerCountsDownOnce(s, p);
  }

  lemma CountLeads(s: State, w: nat)
    requires AtLoop(s, w) && 0 <= Hit(s, w)
    ensures Leads(BeforeCount(s, w), [Work(w, CountUp)], AfterCount(s, w))
  {
    hide Leads, Hash, FirstFrom;
    var t, x := BeforeCount(s, w), s.workers[w].slot;
    OneLeads(t, Work(w, CountUp));
    assert t.count[x := Increment(t.count[x])] == s.count;
    assert Do(t, Work(w, CountUp)) == AfterCount(s, w);
  }

  lemma ReleaseLeads(s: State, w: nat)
    requires AtLoop(s, w) && 0 <= Hit(s, w)
    ensures Leads(AfterCount(s, w), Releases(w), Told(s, w))
  {
    hide Leads, Hash, FirstFrom;
    var v, p, t := s.workers[w], HitPid(s, w), AfterCount(s, w);
    var s1 := t.(workers := s.workers[w := Worker(Unlocking(v.pc.num, p, false), v.slot, v.msg, v.told + [p])]);
    OneLeads(t, Work(w, SpinEnds));
    assert Do(t, Work(w, SpinEnds)) == s1;
    OneLeads(s1, Work(w, Unlock));
    assert Do(s1, Work(w, Unlock)) == Told(s, w);
    LeadsOn(t, [Work(w, SpinEnds)], s1, [Work(w, Unlock)], Told(s, w));
  }

  /** One turn on a live process: it is signalled, serves the slot, and all else is as before. */
  lemma LiveTurn(s: State, w: nat)
    requires AtLoop(s, w) && 0 <= Hit(s, w)
    ensures Leads(s, Reaches(w) + KillAndHandle(w, HitPid(s, w)) + Releases(w), Told(s, w))
  {
    hide Leads, Reaches, Releases, AtKill, BeforeCount, AfterCount, Told, AtLoop, HitPid, DeliverySafety.HandlerRun;
    ReachesKill(s, w);
    KillLeads(s, w);
    CountLeads(s, w);
    ReleaseLeads(s, w);
    LeadsOn(AtKill(s, w), [Work(w, KillOk)] + DeliverySafety.HandlerRun(HitPid(s, w)), BeforeCount(s, w),
            [Work(w, CountUp)], AfterCount(s, w));
    LeadsOn(s, Reaches(w), AtKill(s, w), KillAndHandle(w, HitPid(s, w)), AfterCount(s, w));
    LeadsOn(s, Reaches(w) + KillAndHandle(w, HitPid(s, w)), AfterCount(s, w), Releases(w), Told(s, w));
  }

  function FailsAndRemoves(w: nat): seq<Action> {
    [Work(w, KillFails)] + [Work(w, Withdraw)] + (Releases(w) + [Work(w, Remove)])
  }

  /** The process is dead: its registration goes. */
  ghost function Removed(s: State, w: nat): State
    requires AtLoop(s, w) && 0 <= Hit(s, w)
  {
    var v, p := s.workers[w], HitPid(s, w);
    s.(workers := s.workers[w := v.(pc := Searching(v.pc.num + 1))], table := Delete(s.table, Entry(v.msg, p)).0)
  }

  ghost function Withdrawn(s: State, w: nat, pc: Pc): State
    requires w < |s.workers|
  {
    s.(workers := s.workers[w := s.workers[w].(pc := pc)], lock := Some(w))
  }

  lemma FailLeads(s: State, w: nat)
    requires AtLoop(s, w) && 0 <= Hit(s, w)
    ensures Leads(AtKill(s, w), [Work(w, KillFails)] + [Work(w, Withdraw)],
                  Withdrawn(s, w, Spinning(s.workers[w].pc.num, HitPid(s, w), true)))
  {
    hide Leads, Hash, FirstFrom, Delete;
    var v, p, t := s.workers[w], HitPid(s, w), AtKill(s, w);
    var s1 := t.(workers := s.workers[w := v.(pc := KillFailed(v.pc.num, p))]);
    var s2 := Withdrawn(s, w, Spinning(v.pc.num, p, true));
    OneLeads(t, Work(w, KillFails));
    assert Do(t, Work(w, KillFails)) == s1;
    OneLeads(s1, Work(w, Withdraw));
    assert s1.procs[p := s1.procs[p].(cell := 0)] == s.procs;
    assert Do(s1, Work(w, Withdraw)) == s2;
    LeadsOn(t, [Work(w, KillFails)], s1, [Work(w, Withdraw)], s2);
  }

  lemma RemoveLeads(s: State, w: nat)
    requires AtLoop(s, w) && 0 <= Hit(s, w)
    ensures Leads(Withdrawn(s, w, Spinning(s.workers[w].pc.num, HitPid(s, w), true)),
                  Releases(w) + [Work(w, Remove)], Removed(s, w))
  {
    hide Leads, Hash, FirstFrom, Delete;
    var v, p := s.workers[w], HitPid(s, w);
    var s2 := Withdrawn(s, w, Spinning(v.pc.num, p, true));
    var s3 := Withdrawn(s, w, Unlocking(v.pc.num, p, true));
    var s4 := s.(workers := s.workers[w := v.(pc := Removing(v.pc.num, p))]);
    OneLeads(s2, Work(w, SpinEnds));
    assert Do(s2, Work(w, SpinEnds)) == s3;
    OneLeads(s3, Work(w, Unlock));
    assert Do(s3, Work(w, Unlock)) == s4;
    OneLeads(s4, Work(w, Remove));
    assert Do(s4, Work(w, Remove)) == Removed(s, w);
    LeadsOn(s2, [Work(w, SpinEnds)], s3, [Work(w, Unlock)], s4);
    LeadsOn(s2, Releases(w), s4, [Work(w, Remove)], Removed(s, w));
  }

  /** One turn on a dead process: its registration is removed, and all else is as before. */
  lemma DeadTurn(s: State, w: nat)
    requires AtLoop(s, w) && 0 <= Hit(s, w)
    ensures Leads(s, Reaches(w) + FailsAndRemoves(w), Removed(s, w))
  {
    hide Leads, Reaches, Releases, AtKill, Removed, HitPid, Withdrawn;
    ReachesKill(s, w);
    FailLeads(s, w);
    RemoveLeads(s, w);
    LeadsOn(AtKill(s, w), [Work(w, KillFails)] + [Work(w, Withdraw)],
            Withdrawn(s, w, Spinning(s.workers[w].pc.num, HitPid(s, w), true)),
            Releases(w) + [Work(w, Remove)], Removed(s, w));
    LeadsOn(s, Reaches(w), AtKill(s, w), FailsAndRemoves(w), Removed(s, w));
  }

  // ----- The whole loop

  /** The worker has left the loop: it has signalled pids, and left of its chain what is in left. */
  ghost predicate Drains(s: State, w: nat, pids: seq<int>, left: seq<Entry>, t: State)
    requires w < |s.workers| && InTable(s.table, s.workers[w].msg)
  {
    var v := s.workers[w];
    && HaveCells(|s.procs|, pids)
    && t == s.(workers := s.workers[w := Worker(Draining, v.slot, v.msg, v.told + pids)],
               procs := AllServed(s.procs, v.slot, pids), table := s.table[Hash(v.msg) := left])
  }

  /** Where the loop ends: the pids of Swept have served the slot, and the chain is what Survivors leaves. */
  ghost predicate LoopEnd(s: State, w: nat, dead: set<int>, t: State)
    requires AtLoop(s, w)
  {
    var v, chain := s.workers[w], Chain(s, w);
    Drains(s, w, Swept(chain, v.msg, dead, v.pc.num), Survivors(chain, v.msg, dead, v.pc.num), t)
  }

  lemma NothingFound(s: State, w: nat, dead: set<int>) returns (t: State)
    requires AtLoop(s, w) && Hit(s, w) < 0
    ensures Leads(s, [Work(w, Search)], t) && LoopEnd(s, w, dead, t)
  {
    hide Leads, Hash, FirstFrom;
    SweptAt(Chain(s, w), s.workers[w].msg, dead, s.workers[w].pc.num);
    SurvivorsAt(Chain(s, w), s.workers[w].msg, dead, s.workers[w].pc.num);
    hide Swept, Survivors;
    OneLeads(s, Work(w, Search));
    t := Do(s, Work(w, Search));
    assert s.table[Hash(s.workers[w].msg) := Chain(s, w)] == s.table;
    assert s.workers[w].told + [] == s.workers[w].told;
  }

  lemma ToldStays(s: State, w: nat)
    requires AtLoop(s, w) && 0 <= Hit(s, w)
    ensures AtLoop(Told(s, w), w) && Chain(Told(s, w), w) == Chain(s, w)
  {
    hide FirstFrom, Hash;
  }

  lemma ToldDrains(s: State, w: nat, rest: seq<int>, left: seq<Entry>, t: State)
    requires AtLoop(s, w) && 0 <= Hit(s, w) && AtLoop(Told(s, w), w) && Drains(Told(s, w), w, rest, left, t)
    ensures Drains(s, w, [HitPid(s, w)] + rest, left, t)
  {
    var p, v := HitPid(s, w), s.workers[w];
    OneServed(s.procs, v.slot, p, rest);
    hide Hash, FirstFrom, AtLoop, AllServed, HaveCells, Served, HitPid;
    assert v.told + [p] + rest == v.told + ([p] + rest);
  }

  lemma ToldGoesOn(s: State, w: nat, dead: set<int>, t: State)
    requires AtLoop(s, w) && 0 <= Hit(s, w) && HitPid(s, w) !in dead
    requires AtLoop(Told(s, w), w) && LoopEnd(Told(s, w), w, dead, t)
    ensures LoopEnd(s, w, dead, t)
  {
    var v, chain := s.workers[w], Chain(s, w);
    ToldDrains(s, w, Swept(chain, v.msg, dead, v.pc.num + 1), Survivors(chain, v.msg, dead, v.pc.num + 1), t);
    SweptAt(chain, v.msg, dead, v.pc.num);
    SurvivorsAt(chain, v.msg, dead, v.pc.num);
    hide Swept, Survivors, Hash, FirstFrom, AtLoop, Drains;
  }

  lemma OneServed(procs: seq<Proc>, x: nat, p: nat, rest: seq<int>)
    requires p < |procs| && HaveCells(|procs|, rest)
    ensures HaveCells(|procs|, [p] + rest)
    ensures AllServed(procs, x, [p] + rest) == AllServed(procs[p := Served(procs[p], x)], x, rest)
  {
    assert ([p] + rest)[1..] == rest;
  }

  lemma RemovedTable(s: State, w: nat)
    requires AtLoop(s, w) && 0 <= Hit(s, w) && NoDuplicates(Chain(s, w))
    ensures Removed(s, w).table == s.table[Hash(s.workers[w].msg) := Without(Chain(s, w), Hit(s, w))]
    ensures NoDuplicates(Without(Chain(s, w), Hit(s, w)))
  {
    DeleteFound(s.table, Entry(s.workers[w].msg, HitPid(s, w)), Hit(s, w));
    hide Hash, Delete, NoDuplicates;
  }

  lemma RemovedStays(s: State, w: nat)
    requires AtLoop(s, w) && 0 <= Hit(s, w) && NoDuplicates(Chain(s, w))
    ensures AtLoop(Removed(s, w), w) && NoDuplicates(Chain(Removed(s, w), w))
    ensures |Chain(Removed(s, w), w)| == |Chain(s, w)| - 1
  {
    RemovedTable(s, w);
    hide Hash, FirstFrom, Delete, NoDuplicates;
  }

  lemma RemovedDrains(s: State, w: nat, pids: seq<int>, left: seq<Entry>, t: State)
    requires AtLoop(s, w) && 0 <= Hit(s, w) && NoDuplicates(Chain(s, w))
    requires AtLoop(Removed(s, w), w) && Drains(Removed(s, w), w, pids, left, t)
    ensures Drains(s, w, pids, left, t)
  {
    RemovedTable(s, w);
    hide Hash, FirstFrom, Delete, AtLoop, AllServed, HaveCells, Without, NoDuplicates, HitPid;
  }

  lemma RemovedGoesOn(s: State, w: nat, dead: set<int>, t: State)
    requires AtLoop(s, w) && 0 <= Hit(s, w) && HitPid(s, w) in dead && NoDuplicates(Chain(s, w))
    requires AtLoop(Removed(s, w), w) && LoopEnd(Removed(s, w), w, dead, t)
    ensures LoopEnd(s, w, dead, t)
  {
    var v, chain := s.workers[w], Chain(s, w);
    var chain' := Without(chain, Hit(s, w));
    RemovedTable(s, w);
    RemovedDrains(s, w, Swept(chain', v.msg, dead, v.pc.num + 1), Survivors(chain', v.msg, dead, v.pc.num + 1), t);
    SweptAt(chain, v.msg, dead, v.pc.num);
    SurvivorsAt(chain, v.msg, dead, v.pc.num);
    hide Swept, Survivors, Hash, FirstFrom, Delete, NoDuplicates, Without, AtLoop, Drains;
  }

  lemma {:induction false} LoopLeads(s: State, w: nat, dead: set<int>) returns (run: seq<Action>, t: State)
    requires AtLoop(s, w) && NoDuplicates(Chain(s, w))
    ensures Leads(s, run, t) && LoopEnd(s, w, dead, t)
    decreases |Chain(s, w)| - s.workers[w].pc.num
  {
    hide Leads, LoopEnd, NoDuplicates, Reaches, KillAndHandle, Releases, FailsAndRemoves, Hash;
    if Hit(s, w) < 0 {
      run := [Work(w, Search)];
      t := NothingFound(s, w, dead);
    } else if HitPid(s, w) in dead {
      var first := Reaches(w) + FailsAndRemoves(w);
      DeadTurn(s, w);
      RemovedStays(s, w);
      var rest;
      rest, t := LoopLeads(Removed(s, w), w, dead);
      RemovedGoesOn(s, w, dead, t);
      LeadsOn(s, first, Removed(s, w), rest, t);
      run := first + rest;
    } else {
      var first := Reaches(w) + KillAndHandle(w, HitPid(s, w)) + Releases(w);
      LiveTurn(s, w);
      ToldStays(s, w);
      var rest;
      rest, t := LoopLeads(Told(s, w), w, dead);
      ToldGoesOn(s, w, dead, t);
      LeadsOn(s, first, Told(s, w), rest, t);
      run := first + rest;
    }
  }

  // ----- From the arrival of the request to the return of its slot

  function Begins(w: nat, msg: bv32, x: nat): seq<Action> {
    [Accept(msg)] + [Work(w, Obtain(x))] + [Work(w, Arrive)]
  }

  function Ends(w: nat): seq<Action> { [Work(w, Drained)] + [Work(w, Reply)] + [Work(w, GiveBack)] }

  /** The state when the loop begins. */
  ghost function Begun(s: State, msg: bv32, x: nat): State {
    s.(workers := s.workers + [Worker(Searching(0), x, msg, [])], count := s.count[x := 0])
  }

  lemma BeginLeads(s: State, msg: bv32, x: nat)
    requires InTable(s.table, msg) && x in s.count
    ensures Leads(s, Begins(|s.workers|, msg, x), Begun(s, msg, x))
  {
    hide Leads, Hash;
    var w := |s.workers|;
    var s1 := s.(workers := s.workers + [Worker(Start, 0, msg, [])]);
    var s2 := s.(workers := s.workers + [Worker(Reading, x, msg, [])]);
    OneLeads(s, Accept(msg));
    OneLeads(s1, Work(w, Obtain(x)));
    assert Do(s1, Work(w, Obtain(x))) == s2;
    OneLeads(s2, Work(w, Arrive));
    assert Do(s2, Work(w, Arrive)) == Begun(s, msg, x);
    LeadsOn(s, [Accept(msg)], s1, [Work(w, Obtain(x))], s2);
    LeadsOn(s, [Accept(msg)] + [Work(w, Obtain(x))], s2, [Work(w, Arrive)], Begun(s, msg, x));
  }

  lemma EndLeads(s: State, w: nat)
    requires w < |s.workers| && s.workers[w].pc.Draining? && s.workers[w].slot in s.count
    requires s.count[s.workers[w].slot] == 0
    ensures Leads(s, Ends(w), s.(workers := s.workers[w := s.workers[w].(pc := Done)]))
  {
    hide Leads, Hash;
    var v := s.workers[w];
    var s1 := s.(workers := s.workers[w := v.(pc := Replying)]);
    var s2 := s.(workers := s.workers[w := v.(pc := Releasing)]);
    var s3 := s.(workers := s.workers[w := v.(pc := Done)]);
    OneLeads(s, Work(w, Drained));
    assert Do(s, Work(w, Drained)) == s1;
    OneLeads(s1, Work(w, Reply));
    assert Do(s1, Work(w, Reply)) == s2;
    OneLeads(s2, Work(w, GiveBack));
    assert Do(s2, Work(w, GiveBack)) == s3;
    LeadsOn(s, [Work(w, Drained)], s1, [Work(w, Reply)], s2);
    LeadsOn(s, [Work(w, Drained)] + [Work(w, Reply)], s2, [Work(w, GiveBack)], s3);
  }

  /** Nobody is under way, and all registrations have index cells. */
  ghost predicate AllAtRest(s: State) {
    && s.lock.None? && (forall p | 0 <= p < |s.procs| :: AtRest(s.procs[p]))
    && (forall h, i | 0 <= h < |s.table| && 0 <= i < |s.table[h]| :: HasCell(s, s.table[h][i].pid))
  }

  /**
   * A request for msg that gets slot x can run to its end: it signals the pids of Swept, each of these processes
   * reads x once for each signal, the dead registrations that Survivors leaves out are removed, count is 0 in the
   * end, and nothing else has changed.
   */
  lemma RequestRuns(s: State, msg: bv32, x: nat, dead: set<int>)
    requires AllAtRest(s) && InTable(s.table, msg) && x in s.count && NoDuplicates(s.table[Hash(msg)])
    ensures var pids := Swept(s.table[Hash(msg)], msg, dead, 0);
            && HaveCells(|s.procs|, pids)
            && exists run ::
                 && ValidRun(s, run)
                 && After(s, run) == s.(workers := s.workers + [Worker(Done, x, msg, pids)],
                                        procs := AllServed(s.procs, x, pids),
                                        count := s.count[x := 0],
                                        table := s.table[Hash(msg) := Survivors(s.table[Hash(msg)], msg, dead, 0)])
  {
    hide Hash, Swept, Survivors, AllServed, NoDuplicates;
    var w, s1 := |s.workers|, Begun(s, msg, x);
    BeginLeads(s, msg, x);
    var loop, t := LoopLeads(s1, w, dead);
    EndLeads(t, w);
    var done := t.(workers := t.workers[w := t.workers[w].(pc := Done)]);
    LeadsOn(s, Begins(w, msg, x), s1, loop, t);
    LeadsOn(s, Begins(w, msg, x) + loop, t, Ends(w), done);
    var pids := Swept(s.table[Hash(msg)], msg, dead, 0);
    assert [] + pids == pids;
    assert (s.workers + [Worker(Searching(0), x, msg, [])])[w := Worker(Done, x, msg, pids)]
        == s.workers + [Worker(Done, x, msg, pids)];
    assert ValidRun(s, Begins(w, msg, x) + loop + Ends(w));
  }
}

/**
 * The delivery protocol between the worker threads of emi_core.c (emi_recieve_operation) and the signal handlers of
 * the receivers (func_sterotype in emi_if.c). A step is one access to an index cell, a count or a lock, one operation
 * on the table, or one obtain or return of a slot. Which slot an obtain gives is left open here: module System joins
 * the workers to the pool of module PoolRace.
 */
module Delivery {
  import opened Common
  import opened Registry

  /** Where a worker is in emi_recieve_operation; num is its loop counter, pid the entry it found. */
  datatype Pc =
    | Start                                        // before emi_obtain_msg_space
    | Reading                                      // has a slot, reads the message into it
    | Searching(num: nat)                          // before __emi_hsearch
    | Waiting(num: nat, pid: int)                  // before emi_lock(&critical_shmem_lock)
    | Locked(num: nat, pid: int)                   // before *pid_num = nth
    | Written(num: nat, pid: int)                  // before kill
    | Signalled(num: nat, pid: int)                // kill succeeded, before count++
    | KillFailed(num: nat, pid: int)               // kill failed, before *pid_num = 0
    | Spinning(num: nat, pid: int, failed: bool)   // while (*pid_num)
    | Unlocking(num: nat, pid: int, failed: bool)  // before emi_unlock
    | Removing(num: nat, pid: int)                 // before emi_hdelete
    | Draining                                     // while (msg_pos->count)
    | Replying                                     // before the reply is written
    | Releasing                                    // before emi_return_msg_space
    | Done
  {
    /** Holds critical_shmem_lock. */
    predicate Holds() { Locked? || Written? || Signalled? || KillFailed? || Spinning? || Unlocking? }

    /** Has found an entry and not left its loop turn. */
    predicate HasTarget() { Waiting? || Holds() || Removing? }

    /** Owns a slot. */
    predicate HasSlot() { !Start? && !Done? }

    /** Between the arrival of the message and the end of the wait for count. */
    predicate Active() { Searching? || HasTarget() || Draining? }

    /** After a successful kill and before the lock is released. */
    predicate Sent() { Signalled? || (Spinning? && !failed) }
  }

  /** A thread with its slot and its message; told is history: the processes it has signalled. */
  datatype Worker = Worker(pc: Pc, slot: nat, msg: bv32, told: seq<int>)

  /** Where the SIGUSR2 handler of a process is; the signal is blocked while it runs. */
  datatype Handler =
    | Idle
    | Entered              // before nth is read from the index cell
    | HasRead(nth: nat)    // before the cell is cleared
    | Serving(slot: nat)   // callbacks run, before count--
    | Leaving              // before the handler returns
  {
    predicate Unread() { Entered? || HasRead? }
  }

  /**
   * A receiving process: its index cell, its pending bit, its handler. The last two fields are history:
   * the offsets it was signalled for, and the offsets its handler read.
   */
  datatype Proc = Proc(cell: nat, pending: bool, handler: Handler, sent: seq<nat>, heard: seq<nat>)

  /** The slots are the keys of count. */
  datatype State = State(
    workers: seq<Worker>,
    procs: seq<Proc>,
    lock: Option<nat>,
    count: map<nat, nat>,
    table: Table)

  // ----- Steps

  datatype WorkStep =
    | Obtain(slot: nat) | NoSlot | Arrive | Register(pid: int, memory: bool) | ReadFails
    | Search | Acquire | WriteCell | KillOk | KillFails | CountUp | Withdraw | SpinEnds | Unlock | Remove
    | Drained | Reply | GiveBack

  datatype HandleStep = Enter | ReadCell | ClearCell | CountDown | Leave

  /** Spinning without effect is not a step. */
  datatype Action = Accept(msg: bv32) | Work(w: nat, work: WorkStep) | Handle(p: nat, handle: HandleStep)

  /** The pid has an index cell: pid < pid_max. */
  predicate HasCell(s: State, pid: int) { 0 <= pid < |s.procs| }

  predicate CanWork(s: State, w: nat, step: WorkStep)
    requires w < |s.workers|
  {
    var Worker(pc, slot, msg, _) := s.workers[w];
    match step
    case Obtain(x) => pc.Start? && x in s.count
    case NoSlot => pc.Start?
    case Arrive => pc.Reading? && slot in s.count
    case Register(pid, memory) => pc.Reading? && HasCell(s, pid) && InTable(s.table, msg)
    case ReadFails => pc.Reading?
    case Search => pc.Searching? && InTable(s.table, msg)
    case Acquire => pc.Waiting? && s.lock.None?
    case WriteCell => pc.Locked? && HasCell(s, pc.pid)
    case KillOk => pc.Written? && HasCell(s, pc.pid)
    case KillFails => pc.Written?
    case CountUp => pc.Signalled? && slot in s.count
    case Withdraw => pc.KillFailed? && HasCell(s, pc.pid)
    case SpinEnds => pc.Spinning? && HasCell(s, pc.pid) && s.procs[pc.pid].cell == 0
    case Unlock => pc.Unlocking?
    case Remove => pc.Removing? && InTable(s.table, msg)
    case Drained => pc.Draining? && slot in s.count && s.count[slot] == 0
    case Reply => pc.Replying?
    case GiveBack => pc.Releasing?
  }

  predicate CanHandle(s: State, p: nat, step: HandleStep)
    requires p < |s.procs|
  {
    var h := s.procs[p].handler;
    match step
    case Enter => h.Idle? && s.procs[p].pending
    case ReadCell => h.Entered?
    case ClearCell => h.HasRead?
    case CountDown => h.Serving? && h.slot in s.count
    case Leave => h.Leaving?
  }

  predicate Enabled(s: State, a: Action) {
    match a
    case Accept(msg) => InTable(s.table, msg)
    case Work(w, step) => w < |s.workers| && CanWork(s, w, step)
    case Handle(p, step) => p < |s.procs| && CanHandle(s, p, step)
  }

  /** Where the worker goes. */
  function NextPc(s: State, w: nat, step: WorkStep): Pc
    requires w < |s.workers| && CanWork(s, w, step)
  {
    var Worker(pc, slot, msg, _) := s.workers[w];
    match step
    case Obtain(_) => Reading
    case NoSlot => Done
    case Arrive => Searching(0)
    case Register(pid, memory) => Releasing
    case ReadFails => Releasing
    case Search =>
      var chain := s.table[Hash(msg)];
      var k := FirstFrom(chain, msg, pc.num);
      if k < 0 then Draining else Waiting(pc.num, chain[k].pid)
    case Acquire => Locked(pc.num, pc.pid)
    case WriteCell => Written(pc.num, pc.pid)
    case KillOk => Signalled(pc.num, pc.pid)
    case KillFails => KillFailed(pc.num, pc.pid)
    case CountUp => Spinning(pc.num, pc.pid, false)
    case Withdraw => Spinning(pc.num, pc.pid, true)
    case SpinEnds => Unlocking(pc.num, pc.pid, pc.failed)
    case Unlock => if pc.failed then Removing(pc.num, pc.pid) else Searching(pc.num + 1)
    case Remove => Searching(pc.num + 1)
    case Drained => Replying
    case Reply => Releasing
    case GiveBack => Done
  }

  /** What the step does to shared memory, the lock and the table. */
  function Effect(s: State, w: nat, step: WorkStep): State
    requires w < |s.workers| && CanWork(s, w, step)
  {
    var Worker(pc, slot, msg, _) := s.workers[w];
    match step
    case Arrive => s.(count := s.count[slot := 0])
    case Register(pid, memory) => s.(table := Insert(s.table, Entry(msg, pid), memory).0)
    case Acquire => s.(lock := Some(w))
    case WriteCell => SetProc(s, pc.pid, s.procs[pc.pid].(cell := slot))
    case KillOk => SetProc(s, pc.pid, s.procs[pc.pid].(pending := true, sent := s.procs[pc.pid].sent + [slot]))
    case CountUp => s.(count := s.count[slot := Increment(s.count[slot])])
    case Withdraw => SetProc(s, pc.pid, s.procs[pc.pid].(cell := 0))
    case Unlock => s.(lock := None)
    case Remove => s.(table := Delete(s.table, Entry(msg, pc.pid)).0)
    case _ => s
  }

  function SetProc(s: State, p: nat, q: Proc): State
    requires p < |s.procs|
  {
    s.(procs := s.procs[p := q])
  }

  function DoWork(s: State, w: nat, step: WorkStep): State
    requires w < |s.workers| && CanWork(s, w, step)
  {
    var Worker(pc, slot, msg, told) := s.workers[w];
    var slot' := if step.Obtain? then step.slot else slot;
    var told' := if step.KillOk? then told + [pc.pid] else told;
    Effect(s, w, step).(workers := s.workers[w := Worker(NextPc(s, w, step), slot', msg, told')])
  }

  function DoHandle(s: State, p: nat, step: HandleStep): State
    requires p < |s.procs| && CanHandle(s, p, step)
  {
    var q := s.procs[p];
    match step
    case Enter => SetProc(s, p, q.(pending := false, handler := Entered))
    case ReadCell => SetProc(s, p, q.(handler := HasRead(q.cell), heard := q.heard + [q.cell]))
    case ClearCell => SetProc(s, p, q.(cell := 0, handler := Serving(q.handler.nth)))
    case CountDown =>
      var x := q.handler.slot;
      SetProc(s, p, q.(handler := Leaving)).(count := s.count[x := Decrement(s.count[x])])
    case Leave => SetProc(s, p, q.(handler := Idle))
  }

  function Do(s: State, a: Action): State
    requires Enabled(s, a)
  {
    match a
    case Accept(msg) => s.(workers := s.workers + [Worker(Start, 0, msg, [])])
    case Work(w, step) => DoWork(s, w, step)
    case Handle(p, step) => DoHandle(s, p, step)
  }

  // ----- Runs

  /** Nothing sent, nothing held, and counts that may hold anything. */
  ghost predicate Init(s: State) {
    && s.workers == [] && s.lock.None?
    && |s.procs| < TWO32 - 1
    && (forall p | 0 <= p < |s.procs| :: s.procs[p] == Proc(0, false, Idle, [], []))
    && 0 !in s.count
    && (forall x | x in s.count :: s.count[x] < TWO32)
    && s.table == Empty()
  }

  ghost predicate ValidRun(s: State, actions: seq<Action>)
    decreases actions
  {
    actions == [] || (Enabled(s, actions[0]) && ValidRun(Do(s, actions[0]), actions[1..]))
  }

  ghost function After(s: State, actions: seq<Action>): State
    requires ValidRun(s, actions)
    decreases actions
  {
    if actions == [] then s else After(Do(s, actions[0]), actions[1..])
  }

  /** Every step of the run meets ok in the state where it is taken. */
  ghost predicate Always(s: State, actions: seq<Action>, ok: (State, Action) -> bool)
    requires ValidRun(s, actions)
    decreases actions
  {
    actions == [] || (ok(s, actions[0]) && Always(Do(s, actions[0]), actions[1..], ok))
  }

  lemma RunOfOne(s: State, a: Action, rest: seq<Action>)
    requires Enabled(s, a) && ValidRun(Do(s, a), rest)
    ensures ValidRun(s, [a] + rest) && After(s, [a] + rest) == After(Do(s, a), rest)
  {
    assert ([a] + rest)[1..] == rest;
  }

  lemma {:induction false} RunsCompose(s: State, first: seq<Action>, rest: seq<Action>)
    requires ValidRun(s, first) && ValidRun(After(s, first), rest)
    ensures ValidRun(s, first + rest) && After(s, first + rest) == After(After(s, first), rest)
    decreases first
  {
    if first == [] {
      assert first + rest == rest;
    } else {
      assert (first + rest)[1..] == first[1..] + rest;
      RunsCompose(Do(s, first[0]), first[1..], rest);
    }
  }
}

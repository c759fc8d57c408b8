/** What a sender that waits may rely on when its worker replies: every process that was signalled is through. */
module DeliveryReceipt {
  import opened Common
  import opened Delivery
  import opened DeliveryInvariant
  import opened DeliverySafety
  import opened DeliveryProgress

  /** How often the process was signalled for slot x, and how often its handler has read x. */
  function TimesSent(s: State, p: nat, x: nat): nat
    requires p < |s.procs|
  {
    multiset(s.procs[p].sent)[x]
  }

  function TimesHeard(s: State, p: nat, x: nat): nat
    requires p < |s.procs|
  {
    multiset(s.procs[p].heard)[x]
  }

  function TimesTold(s: State, w: nat, p: nat): nat
    requires w < |s.workers|
  {
    multiset(s.workers[w].told)[p as int]
  }

  lemma SequencesStay(s: State, a: Action)
    requires Enabled(s, a)
    ensures |s.workers| <= |Do(s, a).workers| && |Do(s, a).procs| == |s.procs|
  {
    hide Registry.Hash, NextPc;
  }

  lemma {:induction false} DoneStays(s: State, actions: seq<Action>, w: nat)
    requires ValidRun(s, actions) && w < |s.workers| && s.workers[w].pc.Done?
    ensures w < |After(s, actions).workers| && After(s, actions).workers[w].pc.Done?
    decreases actions
  {
    if actions != [] {
      StepKeepsDone(s, actions[0], w);
      DoneStays(Do(s, actions[0]), actions[1..], w);
    }
  }

  lemma StepKeepsDone(s: State, a: Action, w: nat)
    requires Enabled(s, a) && w < |s.workers| && s.workers[w].pc.Done?
    ensures w < |Do(s, a).workers| && Do(s, a).workers[w].pc.Done?
  {
    hide Registry.Hash, Effect, NextPc;
  }

  lemma StepKeepsSlot(s: State, a: Action, w: nat)
    requires Enabled(s, a) && w < |s.workers| && s.workers[w].pc.HasSlot()
    ensures w < |Do(s, a).workers| && Do(s, a).workers[w].slot == s.workers[w].slot
    ensures Do(s, a).workers[w].pc.HasSlot() || Do(s, a).workers[w].pc.Done?
  {
    hide Registry.Hash, Effect, Registry.FirstFrom;
  }

  lemma OnlyKillsSend(s: State, a: Action, w: nat, p: nat)
    requires Enabled(s, a) && !(a.Work? && a.work.KillOk?) && w < |s.workers| && p < |s.procs|
    ensures w < |Do(s, a).workers| && p < |Do(s, a).procs|
    ensures Do(s, a).procs[p].sent == s.procs[p].sent && Do(s, a).workers[w].told == s.workers[w].told
  {
    hide Registry.Hash, NextPc;
  }

  lemma KillSends(s: State, v: nat, w: nat, p: nat)
    requires Enabled(s, Work(v, KillOk)) && w < |s.workers| && p < |s.procs|
    ensures var t, pid := Do(s, Work(v, KillOk)), s.workers[v].pc.pid;
            && w < |t.workers| && p < |t.procs|
            && t.procs[p].sent == (if p == pid then s.procs[p].sent + [s.workers[v].slot] else s.procs[p].sent)
            && t.workers[w].told == (if v == w then s.workers[w].told + [pid] else s.workers[w].told)
  {
    hide Registry.Hash;
  }

  /** As long as a worker has its slot, only its own kills send the slot. */
  lemma StepTallies(s: State, a: Action, w: nat, p: nat)
    requires OwnersDiffer(s) && Enabled(s, a) && p < |s.procs|
    requires w < |s.workers| && s.workers[w].pc.HasSlot()
    ensures var t, x := Do(s, a), s.workers[w].slot;
            && w < |t.workers| && p < |t.procs|
            && TimesSent(t, p, x) + TimesTold(s, w, p) == TimesSent(s, p, x) + TimesTold(t, w, p)
  {
    if a.Work? && a.work.KillOk? {
      assert a.w != w ==> s.workers[a.w].slot != s.workers[w].slot;
      KillSends(s, a.w, w, p);
    } else {
      OnlyKillsSend(s, a, w, p);
    }
    hide Do, Enabled, OwnersDiffer;
  }

  lemma {:induction false} RunTallies(s: State, actions: seq<Action>, w: nat, p: nat)
    requires Inv(s) && ApartInv(s) && ValidRun(s, actions) && Always(s, actions, Orderly()) && p < |s.procs|
    requires w < |s.workers| && s.workers[w].pc.HasSlot()
    requires w < |After(s, actions).workers| && After(s, actions).workers[w].pc.HasSlot()
    ensures var t, x := After(s, actions), s.workers[w].slot;
            && t.workers[w].slot == x && |t.procs| == |s.procs|
            && TimesSent(t, p, x) + TimesTold(s, w, p) == TimesSent(s, p, x) + TimesTold(t, w, p)
    decreases actions
  {
    assert OwnersDiffer(s);
    hide Inv, ApartInv, Orderly, OwnersDiffer, TimesSent, TimesTold;
    if actions != [] {
      var next := Do(s, actions[0]);
      StepKeeps(s, actions[0]);
      StepKeepsApart(s, actions[0]);
      StepTallies(s, actions[0], w, p);
      StepKeepsSlot(s, actions[0], w);
      SequencesStay(s, actions[0]);
      if next.workers[w].pc.Done? {
        DoneStays(next, actions[1..], w);
      } else {
        RunTallies(next, actions[1..], w, p);
      }
    }
  }

  /** In a slot that nobody uses, all that was sent has been read. */
  lemma UnusedIsHeard(s: State, p: nat, x: nat)
    requires Reachable(s) && p < |s.procs| && Unused(s, x)
    ensures TimesSent(s, p, x) == TimesHeard(s, p, x)
  {
    SignalsAreHeardOnce(s, p);
    assert !Uses(s.procs[p], x);
  }

  /**
   * When a worker replies, each process has read the slot of this request as often as the worker has told it to, and
   * has counted it down: none uses the slot any more.
   */
  lemma ToldHaveHeard(s: State, actions: seq<Action>, w: nat, p: nat)
    requires OrderlyReachable(s) && ValidRun(s, actions) && Always(s, actions, Orderly())
    requires w < |s.workers| && s.workers[w].pc.Reading? && s.workers[w].told == [] && p < |s.procs|
    requires w < |After(s, actions).workers| && After(s, actions).workers[w].pc.Replying?
    ensures var t, x := After(s, actions), s.workers[w].slot;
            && t.workers[w].slot == x && |t.procs| == |s.procs|
            && Unused(t, x)
            && TimesHeard(t, p, x) == TimesHeard(s, p, x) + TimesTold(t, w, p)
  {
    hide Inv, ApartInv, Orderly, OrderlyReachable, Reachable, TimesSent, TimesHeard, Always, After, ValidRun, Unused;
    var t, x := After(s, actions), s.workers[w].slot;
    OrderlyReachableInv(s);
    OrderlyContinues(s, actions);
    OrderlyReachableInv(t);
    RunTallies(s, actions, w, p);
    SlotSafeAfterDrain(s, w);
    SlotSafeAfterDrain(t, w);
    UnusedIsHeard(s, p, x);
    UnusedIsHeard(t, p, x);
  }
}

/** One lock around all of obtain and all of return: the threads then see the pool as if each of them ran alone. */
module PoolLock {
  import opened Common
  import opened PoolRace
  import opened PoolOwners
  import opened PoolOrder
  import opened PoolSearch

  /** Inside __emi_obtain_space or __emi_return_space. */
  predicate Inside(t: Thread) { t.Peeked? || t.Looked? || t.Taken? || t.Keyed() }

  /** No thread enters while another one is inside. */
  ghost function Exclusive(): (State, Act) -> bool {
    (s: State, a: Act) =>
      a.step.Peek? || a.step.Begin? ==> forall v | 0 <= v < |s.threads| :: !Inside(s.threads[v])
  }

  ghost predicate OneInside(s: State) {
    forall v, w | 0 <= v < w < |s.threads| :: !(Inside(s.threads[v]) && Inside(s.threads[w]))
  }

  ghost predicate AllNamed(s: State) {
    forall x | x in s.ring :: x in s.named
  }

  /** The thread sees the head as it is, and returns NULL only when every slot has been handed out. */
  ghost predicate SeesRight(s: State, t: Thread) {
    && (t.Peeked? || t.Looked? ==> s.ring != [] && t.x == s.ring[0])
    && (t.Looked? ==> t.x !in s.busy)
    && (t.Failed? || (t.Scanning? && t.key.None?) ==> AllNamed(s))
    && (t.Found? || t.Moved? ==> t.key.Some?)
  }

  ghost predicate BusyNamed(s: State) {
    forall x | x in s.busy :: x in s.named || exists w :: 0 <= w < |s.threads| && s.threads[w] == Taken(x)
  }

  ghost predicate LockInv(s: State) {
    && OneInside(s) && BusyNamed(s)
    && forall w | 0 <= w < |s.threads| :: SeesRight(s, s.threads[w])
  }

  /** While one thread is inside, no other one moves. */
  lemma OnlyInsideMoves(s: State, a: Act, w: nat)
    requires OneInside(s) && Enabled(s, a) && Exclusive()(s, a)
    requires w < |s.threads| && Inside(s.threads[w])
    ensures a.w == w
  {
    hide NextRing;
  }

  lemma StepKeepsOneInside(s: State, a: Act)
    requires OneInside(s) && Enabled(s, a) && Exclusive()(s, a)
    ensures OneInside(Do(s, a)) && SerialReturns()(s, a)
  {
    hide NextRing;
  }

  lemma StepIsCalm(s: State, a: Act)
    requires LockInv(s) && Enabled(s, a)
    ensures Calm()(s, a)
  {
    hide AllNamed;
    assert SeesRight(s, s.threads[a.w]);
  }

  /** A failed test inside the lock means that every slot is busy. */
  lemma FailMeansFull(s: State, w: nat)
    requires Inv(s) && FreeFirst(s) && LockInv(s) && Enabled(s, Act(w, Fail))
    ensures forall x | x in s.ring :: x in s.busy && x in s.named
  {
    var head := s.ring[0];
    assert SeesRight(s, s.threads[w]);
    assert forall v | 0 <= v < |s.threads| && Inside(s.threads[v]) :: v == w;
    assert !IsMoved(s, head);
    forall x | x in s.ring
      ensures x in s.busy && x in s.named
    {
      if x !in s.busy {
        var j :| 0 <= j < |s.ring| && s.ring[j] == x;
        assert 0 < j && Precedes(s.ring, head, x);
      }
    }
  }

  lemma StepKeepsNames(s: State, a: Act)
    requires BusyNamed(s) && Enabled(s, a)
    ensures BusyNamed(Do(s, a))
  {
    hide NextRing;
    var t := Do(s, a);
    forall x | x in t.busy && x !in t.named
      ensures exists w :: 0 <= w < |t.threads| && t.threads[w] == Taken(x)
    {
      if a.step.Take? && x == s.threads[a.w].x {
        assert t.threads[a.w] == Taken(x);
      } else {
        var w :| 0 <= w < |s.threads| && s.threads[w] == Taken(x);
        assert t.threads[w] == Taken(x);
      }
    }
  }

  lemma AllNamedStays(s: State, a: Act)
    requires Inv(s) && AllNamed(s) && Enabled(s, a)
    ensures AllNamed(Do(s, a))
  {
    StepKeepsRing(s, a);
    hide NextRing;
  }

  lemma OwnStepSeesRight(s: State, a: Act)
    requires Inv(s) && FreeFirst(s) && LockInv(s) && Enabled(s, a)
    ensures SeesRight(Do(s, a), Do(s, a).threads[a.w])
  {
    var t := s.threads[a.w];
    assert SeesRight(s, t) && Knows(t, s);
    if a.step.Fail? {
      FailMeansFull(s, a.w);
    }
    if AllNamed(s) {
      AllNamedStays(s, a);
    }
  }

  lemma OthersSeeRight(s: State, a: Act, w: nat)
    requires Inv(s) && LockInv(s) && Enabled(s, a) && Exclusive()(s, a) && w < |s.threads| && w != a.w
    ensures SeesRight(Do(s, a), s.threads[w])
  {
    assert SeesRight(s, s.threads[w]);
    if Inside(s.threads[w]) {
      OnlyInsideMoves(s, a, w);
    }
    if AllNamed(s) {
      AllNamedStays(s, a);
    }
    hide AllNamed, NextRing, Next;
  }

  lemma StepKeepsLock(s: State, a: Act)
    requires Inv(s) && FreeFirst(s) && LockInv(s) && Enabled(s, a) && Exclusive()(s, a)
    ensures LockInv(Do(s, a))
  {
    StepKeepsOneInside(s, a);
    StepKeepsNames(s, a);
    forall w | 0 <= w < |s.threads|
      ensures SeesRight(Do(s, a), Do(s, a).threads[w])
    {
      if w == a.w {
        OwnStepSeesRight(s, a);
      } else {
        OthersSeeRight(s, a, w);
      }
    }
    hide SeesRight, OneInside, BusyNamed, NextRing, Next;
  }

  lemma {:induction false} LockedRun(s: State, acts: seq<Act>)
    requires Inv(s) && Sound(s) && FreeFirst(s) && LockInv(s) && ValidRun(s, acts) && Always(s, acts, Exclusive())
    ensures Always(s, acts, Calm()) && Always(s, acts, SerialReturns())
    ensures Inv(After(s, acts)) && FreeFirst(After(s, acts)) && LockInv(After(s, acts))
    decreases acts
  {
    hide Inv, Apart, HeldAreBusy, FreeFirst, OneInside, SeesRight, BusyNamed, Calm, SerialReturns, Exclusive;
    if acts != [] {
      var a := acts[0];
      StepIsCalm(s, a);
      StepKeepsOneInside(s, a);
      StepKeepsLock(s, a);
      assert ValidRun(Do(s, a), []) && ValidRun(s, [a]) && Always(s, [a], Calm()) && After(s, [a]) == Do(s, a);
      CalmRunKeepsOrder(s, [a]);
      LockedRun(Do(s, a), acts[1..]);
    }
  }

  /**
   * With one lock around all of obtain and all of return, every run from an initial pool is sound, loses no slot, and
   * lets an obtain fail exactly when all slots are busy.
   */
  lemma LockIsEnough(s: State, acts: seq<Act>)
    requires Init(s) && ValidRun(s, acts) && Always(s, acts, Exclusive())
    ensures AlwaysSound(s, acts)
    ensures forall x: nat :: x in After(s, acts).busy <==> Held(After(s, acts), x)
    ensures forall w | 0 <= w < |After(s, acts).threads| && After(s, acts).threads[w].Peeked? ::
              Enabled(After(s, acts), Act(w, Fail)) <==> forall x | x in After(s, acts).ring :: x in After(s, acts).busy
  {
    InitInv(s);
    InitSound(s);
    LockedRun(s, acts);
    CalmRunIsOrderly(s, acts);
    SoundFrom(s, acts);
    SerialReturnsLoseNothing(s, acts);
    var t := After(s, acts);
    forall w | 0 <= w < |t.threads| && t.threads[w].Peeked?
      ensures Enabled(t, Act(w, Fail)) <==> forall x | x in t.ring :: x in t.busy
    {
      assert SeesRight(t, t.threads[w]);
      if Enabled(t, Act(w, Fail)) {
        FailMeansFull(t, w);
      }
    }
  }
}

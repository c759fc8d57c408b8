/** When no slot of the pool has two holders, and none is free while it is held. */
module PoolOwners {
  import opened Common
  import opened PoolRace

  ghost predicate Held(s: State, x: nat) {
    exists w :: HeldBy(s, w, x)
  }

  ghost predicate HeldBy(s: State, w: nat, x: nat) {
    w < |s.threads| && s.threads[w].Holds(x)
  }

  ghost predicate Apart(s: State) {
    forall v, w, x :: HeldBy(s, v, x) && HeldBy(s, w, x) ==> v == w
  }

  ghost predicate HeldAreBusy(s: State) {
    forall w, x :: HeldBy(s, w, x) ==> x in s.busy
  }

  /** No slot has two holders, and none that is held looks free. */
  ghost predicate Sound(s: State) {
    Apart(s) && HeldAreBusy(s)
  }

  /** Nobody holds the slot that is taken, and nobody holds the node that a return of NULL frees. */
  ghost function Orderly(): (State, Act) -> bool {
    (s: State, a: Act) =>
      a.w < |s.threads| ==>
        && (a.step.Take? && s.threads[a.w].Looked? ==> !Held(s, s.threads[a.w].x))
        && (a.step.Clear? && s.threads[a.w].Moved? && s.threads[a.w].key.None? ==> !Held(s, s.threads[a.w].at))
  }

  lemma NextHolds(s: State, a: Act, x: nat)
    requires Inv(s) && Enabled(s, a)
    ensures Next(s, a).Holds(x) <==>
            if a.step.Take? then x == s.threads[a.w].x
            else !a.step.Clear? && !(a.step.Back? && Next(s, a).Missed?) && s.threads[a.w].Holds(x)
  {
    assert Knows(s.threads[a.w], s);
    hide NoRepeats, Knows, Matches, Place, NextRing;
  }

  /** Who holds what after a step. */
  lemma HoldersAfter(s: State, a: Act, v: nat, x: nat)
    requires Inv(s) && Enabled(s, a)
    ensures HeldBy(Do(s, a), v, x) <==>
            if v == a.w && a.step.Take? then x == s.threads[a.w].x
            else if v == a.w && a.step.Clear? then false
            else if v == a.w && a.step.Back? && Next(s, a).Missed? then false
            else HeldBy(s, v, x)
  {
    NextHolds(s, a, x);
    hide NextRing, NoRepeats, Knows, Matches, Next, Inv;
  }

  /** The holding ends with this step. */
  predicate LetsGo(s: State, a: Act)
    requires Enabled(s, a)
  {
    a.step.Clear? || (a.step.Back? && Next(s, a).Missed?)
  }

  lemma AllHoldersAfter(s: State, a: Act)
    requires Inv(s) && Enabled(s, a)
    ensures forall v: nat, x: nat :: HeldBy(Do(s, a), v, x) <==>
              if v == a.w && a.step.Take? then x == s.threads[a.w].x
              else !(v == a.w && LetsGo(s, a)) && HeldBy(s, v, x)
  {
    forall v: nat, x: nat {
      HoldersAfter(s, a, v, x);
    }
  }

  // ----- Exactly when

  lemma OrderlyKeepsApart(s: State, a: Act)
    requires Inv(s) && Apart(s) && Enabled(s, a) && (a.step.Take? ==> !Held(s, s.threads[a.w].x))
    ensures Apart(Do(s, a))
  {
    AllHoldersAfter(s, a);
    hide Do, Next, HeldBy, Inv, LetsGo;
  }

  lemma OrderlyKeepsBusy(s: State, a: Act)
    requires Inv(s) && Sound(s) && Enabled(s, a) && Orderly()(s, a)
    ensures HeldAreBusy(Do(s, a))
  {
    AllHoldersAfter(s, a);
    assert Knows(s.threads[a.w], s);
    var t := s.threads[a.w];
    if a.step.Clear? {
      assert t.key.Some? ==> HeldBy(s, a.w, t.at);
      assert t.key.None? ==> !Held(s, t.at);
    }
    hide Next, NextRing, HeldBy, Inv, Orderly;
  }

  lemma DisorderBreaks(s: State, a: Act)
    requires Inv(s) && Sound(s) && Enabled(s, a) && !Orderly()(s, a)
    ensures !Sound(Do(s, a))
  {
    AllHoldersAfter(s, a);
    var t, s' := s.threads[a.w], Do(s, a);
    var x := if a.step.Take? then t.x else t.at;
    var v: nat :| HeldBy(s, v, x);
    if a.step.Take? {
      assert !t.Holds(x);
      assert HeldBy(s', v, x) && HeldBy(s', a.w, x);
    } else {
      assert !t.Holds(x);
      assert HeldBy(s', v, x) && x !in s'.busy;
    }
  }

  ghost predicate AlwaysSound(s: State, acts: seq<Act>)
    requires ValidRun(s, acts)
    decreases acts
  {
    Sound(s) && (acts == [] || AlwaysSound(Do(s, acts[0]), acts[1..]))
  }

  lemma {:induction false} SoundFrom(s: State, acts: seq<Act>)
    requires Inv(s) && Sound(s) && ValidRun(s, acts)
    ensures AlwaysSound(s, acts) <==> Always(s, acts, Orderly())
    decreases acts
  {
    hide Inv, Apart, HeldAreBusy, Orderly;
    if acts != [] {
      var a, t := acts[0], Do(s, acts[0]);
      StepKeeps(s, a);
      if Orderly()(s, a) {
        OrderlyTakes(s, a);
        OrderlyKeepsApart(s, a);
        OrderlyKeepsBusy(s, a);
        SoundFrom(t, acts[1..]);
      } else {
        DisorderBreaks(s, a);
        assert !AlwaysSound(t, acts[1..]);
      }
    }
  }

  lemma OrderlyTakes(s: State, a: Act)
    requires Enabled(s, a) && Orderly()(s, a)
    ensures a.step.Take? ==> !Held(s, s.threads[a.w].x)
  {
    hide Held;
  }

  lemma InitSound(s: State)
    requires Init(s)
    ensures Sound(s)
  {}

  /**
   * Along every run from an initial pool: never two holders of a slot, nor one whose slot looks free, if and only if
   * nobody holds what is taken, nor what a return of NULL frees.
   */
  lemma SoundIff(s: State, acts: seq<Act>)
    requires Init(s) && ValidRun(s, acts)
    ensures AlwaysSound(s, acts) <==> Always(s, acts, Orderly())
  {
    InitInv(s);
    InitSound(s);
    SoundFrom(s, acts);
  }

  lemma {:induction false} OrderlyRunIsSound(s: State, acts: seq<Act>)
    requires Inv(s) && Sound(s) && ValidRun(s, acts) && Always(s, acts, Orderly())
    ensures Inv(After(s, acts)) && Sound(After(s, acts))
    decreases acts
  {
    hide Inv, Apart, HeldAreBusy, Orderly;
    if acts != [] {
      OrderlyTakes(s, acts[0]);
      StepKeeps(s, acts[0]);
      OrderlyKeepsApart(s, acts[0]);
      OrderlyKeepsBusy(s, acts[0]);
      OrderlyRunIsSound(Do(s, acts[0]), acts[1..]);
    }
  }

  // ----- What looks right to the threads

  /**
   * The test that is missing inside the lock, and one that a return of NULL does not make: the slot is free by then.
   */
  function Calm(): (State, Act) -> bool {
    (s: State, a: Act) =>
      a.w < |s.threads| ==>
        && (a.step.Take? && s.threads[a.w].Looked? ==> s.threads[a.w].x !in s.busy)
        && (a.step.Clear? && s.threads[a.w].Moved? && s.threads[a.w].key.None? ==> s.threads[a.w].at !in s.busy)
  }

  lemma CalmIsOrderly(s: State, a: Act)
    requires Sound(s) && Enabled(s, a) && Calm()(s, a)
    ensures Orderly()(s, a)
  {
    hide HeldBy;
  }

  lemma {:induction false} CalmRunIsOrderly(s: State, acts: seq<Act>)
    requires Inv(s) && Sound(s) && ValidRun(s, acts) && Always(s, acts, Calm())
    ensures Always(s, acts, Orderly())
    decreases acts
  {
    hide Inv, Apart, HeldAreBusy, Orderly, Calm;
    if acts != [] {
      CalmIsOrderly(s, acts[0]);
      OrderlyTakes(s, acts[0]);
      StepKeeps(s, acts[0]);
      OrderlyKeepsApart(s, acts[0]);
      OrderlyKeepsBusy(s, acts[0]);
      CalmRunIsOrderly(Do(s, acts[0]), acts[1..]);
    }
  }

  // ----- First remedy: serialise obtain, and return nothing after a failed one

  /** No return of NULL. */
  function NoNull(): (State, Act) -> bool {
    (s: State, a: Act) => a.step.Begin? && a.w < |s.threads| ==> !s.threads[a.w].Failed?
  }

  /** No thread takes a slot between the look of another one at it and the take of that one. */
  ghost function Undisturbed(): (State, Act) -> bool {
    (s: State, a: Act) =>
      a.step.Take? && a.w < |s.threads| && s.threads[a.w].Looked? ==>
        forall v | 0 <= v < |s.threads| && v != a.w :: s.threads[v] != Looked(s.threads[a.w].x)
  }

  /** No thread begins to obtain while another one has not taken yet. */
  ghost function SerialObtain(): (State, Act) -> bool {
    (s: State, a: Act) =>
      a.step.Peek? ==> forall v | 0 <= v < |s.threads| :: !s.threads[v].Peeked? && !s.threads[v].Looked?
  }

  /** What threads have looked at is still free, and no search is for NULL. */
  ghost predicate Quiet(s: State) {
    forall w | 0 <= w < |s.threads| ::
      && (s.threads[w].Looked? ==> s.threads[w].x !in s.busy)
      && (s.threads[w].Keyed() ==> s.threads[w].key.Some?)
  }

  lemma StepStaysQuiet(s: State, a: Act)
    requires Quiet(s) && Enabled(s, a) && Undisturbed()(s, a) && NoNull()(s, a)
    ensures Quiet(Do(s, a)) && Calm()(s, a)
  {
    hide NextRing;
    assert Quiet(s);
  }

  lemma {:induction false} UndisturbedIsCalm(s: State, acts: seq<Act>)
    requires Quiet(s) && ValidRun(s, acts) && Always(s, acts, Undisturbed()) && Always(s, acts, NoNull())
    ensures Always(s, acts, Calm())
    decreases acts
  {
    hide Undisturbed, NoNull, Calm, Quiet;
    if acts != [] {
      StepStaysQuiet(s, acts[0]);
      UndisturbedIsCalm(Do(s, acts[0]), acts[1..]);
    }
  }

  ghost predicate OneObtains(s: State) {
    forall v, w | 0 <= v < w < |s.threads| ::
      !((s.threads[v].Peeked? || s.threads[v].Looked?) && (s.threads[w].Peeked? || s.threads[w].Looked?))
  }

  lemma StepKeepsOneObtain(s: State, a: Act)
    requires OneObtains(s) && Enabled(s, a) && SerialObtain()(s, a)
    ensures OneObtains(Do(s, a)) && Undisturbed()(s, a)
  {
    hide NextRing;
  }

  lemma {:induction false} SerialIsUndisturbed(s: State, acts: seq<Act>)
    requires OneObtains(s) && ValidRun(s, acts) && Always(s, acts, SerialObtain())
    ensures Always(s, acts, Undisturbed())
    decreases acts
  {
    hide SerialObtain, Undisturbed, OneObtains;
    if acts != [] {
      StepKeepsOneObtain(s, acts[0]);
      SerialIsUndisturbed(Do(s, acts[0]), acts[1..]);
    }
  }

  /** A lock from the test to the take, and no return of NULL, keep every run from an initial pool sound. */
  lemma SerialObtainIsSound(s: State, acts: seq<Act>)
    requires Init(s) && ValidRun(s, acts) && Always(s, acts, SerialObtain()) && Always(s, acts, NoNull())
    ensures AlwaysSound(s, acts)
  {
    InitInv(s);
    InitSound(s);
    assert OneObtains(s) && Quiet(s);
    SerialIsUndisturbed(s, acts);
    UndisturbedIsCalm(s, acts);
    CalmRunIsOrderly(s, acts);
    SoundFrom(s, acts);
  }
}

/**
 * Threads that overlap inside __emi_obtain_space and __emi_return_space (include/shmem.h). Only the moves of list
 * nodes are locked: not the test of the head before them, not the write of addr after it, not the backward search of
 * a return, and not the clearing of busy after it. A request that gets no slot returns NULL all the same
 * (emi_core.c).
 */
module PoolRace {
  import opened Common

  /**
   * Where a thread is. x is the slot it is about; a search is for the address of a slot or for NULL, with the node at
   * under its cursor.
   */
  datatype Thread =
    | Outside
    | Peeked(x: nat)                         // has read head->next, before the test of busy
    | Looked(x: nat)                         // has found it free, before emi_lock
    | Failed                                 // has found it busy: the address is NULL
    | Taken(x: nat)                          // has moved it and set busy, before buf->addr is written
    | Holding(x: nat)
    | Scanning(key: Option<nat>, at: nat)    // in list_for_each_tail
    | Found(key: Option<nat>, at: nat)       // before list_move
    | Moved(key: Option<nat>, at: nat)       // before busy is cleared
    | Missed(key: Option<nat>)               // the search has come back to the head
    | Gone
  {
    /** From the take of x to the end of its return. */
    predicate Holds(x: nat) {
      match this
      case Taken(y) => y == x
      case Holding(y) => y == x
      case Scanning(key, _) => key == Some(x)
      case Found(key, _) => key == Some(x)
      case Moved(key, _) => key == Some(x)
      case _ => false
    }

    predicate Keyed() { Scanning? || Found? || Moved? }
  }

  /** The ring from the head on, the slots whose busy is set, and those whose addr is written. */
  datatype State = State(ring: seq<nat>, busy: set<nat>, named: set<nat>, threads: seq<Thread>)

  datatype Step = Peek | Test | Fail | Take | Name | Begin | Back | Hit | Front | Clear

  datatype Act = Act(w: nat, step: Step)

  function Place(ring: seq<nat>, y: nat): (i: nat)
    requires y in ring
    ensures i < |ring| && ring[i] == y
  {
    if ring[0] == y then 0 else 1 + Place(ring[1..], y)
  }

  function Others(ring: seq<nat>, y: nat): seq<nat>
    requires y in ring
  {
    Without(ring, Place(ring, y))
  }

  /** The addr of the node is the address that is searched. */
  predicate Matches(s: State, key: Option<nat>, at: nat) {
    if key.None? then at !in s.named else at == key.value && at in s.named
  }

  predicate Enabled(s: State, a: Act) {
    a.w < |s.threads| &&
    var t := s.threads[a.w];
    match a.step
    case Peek => t.Outside? && s.ring != []
    case Test => t.Peeked? && t.x !in s.busy
    case Fail => t.Peeked? && t.x in s.busy
    case Take => t.Looked? && t.x in s.ring
    case Name => t.Taken?
    case Begin => (t.Holding? || t.Failed?) && s.ring != []
    case Back => t.Scanning? && !Matches(s, t.key, t.at) && t.at in s.ring
    case Hit => t.Scanning? && Matches(s, t.key, t.at)
    case Front => t.Found? && t.at in s.ring
    case Clear => t.Moved?
  }

  /** Where the thread goes. */
  function Next(s: State, a: Act): Thread
    requires Enabled(s, a)
  {
    var t := s.threads[a.w];
    match a.step
    case Peek => Peeked(s.ring[0])
    case Test => Looked(t.x)
    case Fail => Failed
    case Take => Taken(t.x)
    case Name => Holding(t.x)
    case Begin => Scanning(if t.Failed? then None else Some(t.x), s.ring[|s.ring| - 1])
    case Back =>
      var i := Place(s.ring, t.at);
      if i == 0 then Missed(t.key) else Scanning(t.key, s.ring[i - 1])
    case Hit => Found(t.key, t.at)
    case Front => Moved(t.key, t.at)
    case Clear => Gone
  }

  function NextRing(s: State, a: Act): seq<nat>
    requires Enabled(s, a)
  {
    var t := s.threads[a.w];
    match a.step
    case Take => Others(s.ring, t.x) + [t.x]
    case Front => [t.at] + Others(s.ring, t.at)
    case _ => s.ring
  }

  function Do(s: State, a: Act): State
    requires Enabled(s, a)
  {
    var t := s.threads[a.w];
    State(NextRing(s, a),
          if a.step.Take? then s.busy + {t.x} else if a.step.Clear? then s.busy - {t.at} else s.busy,
          if a.step.Name? then s.named + {t.x} else s.named,
          s.threads[a.w := Next(s, a)])
  }

  // ----- Runs

  ghost predicate Init(s: State) {
    && s.ring != [] && NoRepeats(s.ring) && s.busy == {} && s.named == {}
    && forall w | 0 <= w < |s.threads| :: s.threads[w].Outside?
  }

  ghost predicate ValidRun(s: State, acts: seq<Act>)
    decreases acts
  {
    acts == [] || (Enabled(s, acts[0]) && ValidRun(Do(s, acts[0]), acts[1..]))
  }

  ghost function After(s: State, acts: seq<Act>): State
    requires ValidRun(s, acts)
    decreases acts
  {
    if acts == [] then s else After(Do(s, acts[0]), acts[1..])
  }

  /** Every step of the run meets ok in the state where it is taken. */
  ghost predicate Always(s: State, acts: seq<Act>, ok: (State, Act) -> bool)
    requires ValidRun(s, acts)
    decreases acts
  {
    acts == [] || (ok(s, acts[0]) && Always(Do(s, acts[0]), acts[1..], ok))
  }

  lemma RunOfOne(s: State, a: Act, rest: seq<Act>)
    requires Enabled(s, a) && ValidRun(Do(s, a), rest)
    ensures ValidRun(s, [a] + rest) && After(s, [a] + rest) == After(Do(s, a), rest)
  {
    assert ([a] + rest)[1..] == rest;
  }

  lemma {:induction false} RunsCompose(s: State, first: seq<Act>, rest: seq<Act>, ok: (State, Act) -> bool)
    requires ValidRun(s, first) && ValidRun(After(s, first), rest)
    ensures ValidRun(s, first + rest) && After(s, first + rest) == After(After(s, first), rest)
    ensures Always(s, first, ok) && Always(After(s, first), rest, ok) ==> Always(s, first + rest, ok)
    decreases first
  {
    if first == [] {
      assert first + rest == rest;
    } else {
      assert (first + rest)[1..] == first[1..] + rest;
      RunsCompose(Do(s, first[0]), first[1..], rest, ok);
    }
  }

  // ----- What every step keeps

  ghost predicate NoRepeats(ring: seq<nat>) {
    forall i, j | 0 <= i < j < |ring| :: ring[i] != ring[j]
  }

  ghost predicate Knows(t: Thread, s: State) {
    && (t.Peeked? || t.Looked? || t.Taken? || t.Holding? ==> t.x in s.ring)
    && (t.Holding? ==> t.x in s.named)
    && (t.Keyed() ==> t.at in s.ring && (t.key.Some? ==> t.key.value in s.ring && t.key.value in s.named))
    && ((t.Found? || t.Moved?) && t.key.Some? ==> t.at == t.key.value)
  }

  ghost predicate Inv(s: State) {
    && s.ring != [] && NoRepeats(s.ring)
    && (forall x | x in s.busy :: x in s.ring)
    && (forall x | x in s.named :: x in s.ring)
    && (forall w | 0 <= w < |s.threads| :: Knows(s.threads[w], s))
  }

  lemma PlaceIs(ring: seq<nat>, i: nat)
    requires NoRepeats(ring) && i < |ring|
    ensures Place(ring, ring[i]) == i
  {}

  lemma OthersAre(ring: seq<nat>, x: nat)
    requires NoRepeats(ring) && x in ring
    ensures NoRepeats(Others(ring, x)) && x !in Others(ring, x)
    ensures multiset(Others(ring, x)) + multiset{x} == multiset(ring)
  {
    var k := Place(ring, x);
    assert ring == ring[..k] + [x] + ring[k + 1..];
    hide Place;
  }

  lemma MovedRing(ring: seq<nat>, x: nat)
    requires NoRepeats(ring) && x in ring
    ensures NoRepeats(Others(ring, x) + [x]) && NoRepeats([x] + Others(ring, x))
    ensures multiset(Others(ring, x) + [x]) == multiset(ring) == multiset([x] + Others(ring, x))
    ensures forall y :: y in ring <==> y in Others(ring, x) + [x]
    ensures forall y :: y in ring <==> y in [x] + Others(ring, x)
  {
    OthersAre(ring, x);
    hide Others;
    assert forall y :: y in ring <==> y in multiset(ring);
    assert forall y :: y in Others(ring, x) <==> y in multiset(Others(ring, x));
  }

  lemma InitInv(s: State)
    requires Init(s)
    ensures Inv(s)
  {}

  lemma StepKeepsRing(s: State, a: Act)
    requires NoRepeats(s.ring) && Enabled(s, a)
    ensures var t := Do(s, a);
            && NoRepeats(t.ring) && multiset(t.ring) == multiset(s.ring) && |t.threads| == |s.threads|
            && (s.ring != [] ==> t.ring != []) && forall y :: y in t.ring <==> y in s.ring
  {
    hide Others, Place, NoRepeats;
    if a.step.Take? {
      MovedRing(s.ring, s.threads[a.w].x);
    } else if a.step.Front? {
      MovedRing(s.ring, s.threads[a.w].at);
    }
  }

  lemma NextKnows(s: State, a: Act)
    requires Enabled(s, a) && Knows(s.threads[a.w], s)
    ensures Knows(Next(s, a), s.(named := Do(s, a).named))
  {
    hide NextRing, Others;
  }

  lemma KnowsStays(t: Thread, s: State, s': State)
    requires Knows(t, s) && (forall y :: y in s.ring ==> y in s'.ring) && s.named <= s'.named
    ensures Knows(t, s')
  {}

  lemma StepKeepsKnowledge(s: State, a: Act, w: nat)
    requires Inv(s) && Enabled(s, a) && w < |s.threads|
    ensures w < |Do(s, a).threads| && Knows(Do(s, a).threads[w], Do(s, a))
  {
    StepKeepsRing(s, a);
    assert Knows(s.threads[a.w], s);
    NextKnows(s, a);
    hide NextRing, Next, NoRepeats, Knows;
    KnowsStays(Next(s, a), s.(named := Do(s, a).named), Do(s, a));
    KnowsStays(s.threads[w], s, Do(s, a));
  }

  /** Every step keeps the nodes of the ring. */
  lemma StepKeeps(s: State, a: Act)
    requires Inv(s) && Enabled(s, a)
    ensures Inv(Do(s, a)) && multiset(Do(s, a).ring) == multiset(s.ring)
    ensures |Do(s, a).threads| == |s.threads|
  {
    StepKeepsRing(s, a);
    forall w | 0 <= w < |s.threads|
      ensures w < |Do(s, a).threads| && Knows(Do(s, a).threads[w], Do(s, a))
    {
      StepKeepsKnowledge(s, a, w);
    }
    assert Knows(s.threads[a.w], s);
    hide NextRing, Next, NoRepeats, Knows;
  }

  lemma {:induction false} RunKeeps(s: State, acts: seq<Act>)
    requires Inv(s) && ValidRun(s, acts)
    ensures Inv(After(s, acts)) && multiset(After(s, acts).ring) == multiset(s.ring)
    ensures |After(s, acts).threads| == |s.threads|
    decreases acts
  {
    hide Inv;
    if acts != [] {
      StepKeeps(s, acts[0]);
      RunKeeps(Do(s, acts[0]), acts[1..]);
    }
  }
}

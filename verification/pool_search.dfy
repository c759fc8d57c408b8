/** When the backward search of a return finds its slot, although others move the nodes of the ring. */
module PoolSearch {
  import opened Common
  import opened PoolRace
  import opened PoolOwners

  /** x stands at the cursor, or before it. */
  predicate Before(ring: seq<nat>, x: nat, at: nat) {
    x in ring && at in ring && Place(ring, x) <= Place(ring, at)
  }

  ghost predicate SearchesFor(s: State, w: nat, x: nat) {
    w < |s.threads| && s.threads[w].Scanning? && s.threads[w].key == Some(x)
  }

  ghost predicate Ahead(s: State, w: nat, x: nat) {
    SearchesFor(s, w, x) && Before(s.ring, x, s.threads[w].at)
  }

  lemma BeginIsAhead(s: State, w: nat, x: nat)
    requires Inv(s) && Enabled(s, Act(w, Begin)) && s.threads[w] == Holding(x)
    ensures Ahead(Do(s, Act(w, Begin)), w, x)
  {
    assert Knows(s.threads[w], s);
    PlaceIs(s.ring, |s.ring| - 1);
  }

  /** The search itself does not step over its slot. */
  lemma BackStaysAhead(s: State, w: nat, x: nat)
    requires Inv(s) && Ahead(s, w, x) && Enabled(s, Act(w, Back))
    ensures Ahead(Do(s, Act(w, Back)), w, x)
  {
    var t := s.threads[w];
    assert Knows(t, s);
    PlaceIs(s.ring, Place(s.ring, t.at) - 1);
  }

  lemma PlacesInOthers(ring: seq<nat>, y: nat, z: nat)
    requires NoRepeats(ring) && y in ring && z in ring && y != z
    ensures var j := Place(ring, z) - if Place(ring, y) < Place(ring, z) then 1 else 0;
            j < |Others(ring, y)| && Others(ring, y)[j] == z
  {}

  lemma PlacesAfterMove(ring: seq<nat>, y: nat, z: nat)
    requires NoRepeats(ring) && y in ring && z in ring && y != z
    ensures z in Others(ring, y) + [y] && z in [y] + Others(ring, y)
    ensures Place(Others(ring, y) + [y], z) == Place(ring, z) - if Place(ring, y) < Place(ring, z) then 1 else 0
    ensures Place([y] + Others(ring, y), z) == Place(ring, z) + if Place(ring, y) < Place(ring, z) then 0 else 1
    ensures Place(Others(ring, y) + [y], y) == |ring| - 1 && Place([y] + Others(ring, y), y) == 0
  {
    MovedRing(ring, y);
    PlacesInOthers(ring, y, z);
    assert |Others(ring, y)| == |ring| - 1;
    hide Others, NoRepeats;
    var j := Place(ring, z) - if Place(ring, y) < Place(ring, z) then 1 else 0;
    var back, front := Others(ring, y) + [y], [y] + Others(ring, y);
    assert back[j] == z && front[j + 1] == z && back[|ring| - 1] == y && front[0] == y;
    PlaceIs(back, j);
    PlaceIs(front, j + 1);
    PlaceIs(back, |ring| - 1);
    PlaceIs(front, 0);
  }

  lemma MoveBack(ring: seq<nat>, y: nat, x: nat, at: nat)
    requires NoRepeats(ring) && y in ring && Before(ring, x, at)
    ensures Before(Others(ring, y) + [y], x, at) <==> at == x || y != x
  {
    MovedRing(ring, y);
    if x != y {
      PlacesAfterMove(ring, y, x);
    }
    if at != y {
      PlacesAfterMove(ring, y, at);
    }
    hide Others, Place, NoRepeats;
  }

  lemma MoveFront(ring: seq<nat>, y: nat, x: nat, at: nat)
    requires NoRepeats(ring) && y in ring && Before(ring, x, at)
    ensures Before([y] + Others(ring, y), x, at) <==> at == x || y != at
  {
    MovedRing(ring, y);
    if x != y {
      PlacesAfterMove(ring, y, x);
    }
    if at != y {
      PlacesAfterMove(ring, y, at);
    }
    hide Others, Place, NoRepeats;
  }

  /** Another thread moves the node under the cursor to the front, as a return of it does, or takes the slot itself. */
  predicate Undercuts(s: State, w: nat, x: nat, a: Act)
    requires w < |s.threads| && s.threads[w].Scanning? && Enabled(s, a)
  {
    && s.threads[w].at != x
    && ((a.step.Front? && s.threads[a.w].at == s.threads[w].at) || (a.step.Take? && s.threads[a.w].x == x))
  }

  /** A step of another thread puts the slot out of the reach of a search if and only if it undercuts it. */
  lemma OthersStep(s: State, w: nat, x: nat, a: Act)
    requires Inv(s) && Ahead(s, w, x) && Enabled(s, a) && a.w != w
    ensures SearchesFor(Do(s, a), w, x)
    ensures Ahead(Do(s, a), w, x) <==> !Undercuts(s, w, x, a)
  {
    hide Others, NoRepeats, Before, Next, Place;
    var at := s.threads[w].at;
    if a.step.Take? {
      MoveBack(s.ring, s.threads[a.w].x, x, at);
    } else if a.step.Front? {
      MoveFront(s.ring, s.threads[a.w].at, x, at);
    }
  }

  // ----- Along a run

  /** No other thread undercuts the search of w for x. */
  ghost function Spares(w: nat, x: nat): (State, Act) -> bool {
    (s: State, a: Act) => SearchesFor(s, w, x) && a.w != w && Enabled(s, a) ==> !Undercuts(s, w, x, a)
  }

  /** The thread is on its way to free x, or has done it. */
  ghost predicate FindsIt(s: State, w: nat, x: nat) {
    w < |s.threads| &&
    (Ahead(s, w, x) || s.threads[w] == Found(Some(x), x) || s.threads[w] == Moved(Some(x), x) || s.threads[w].Gone?)
  }

  lemma StepFindsIt(s: State, w: nat, x: nat, a: Act)
    requires Inv(s) && FindsIt(s, w, x) && Enabled(s, a) && Spares(w, x)(s, a)
    ensures FindsIt(Do(s, a), w, x)
  {
    if Ahead(s, w, x) && a.w != w {
      OthersStep(s, w, x, a);
    } else if Ahead(s, w, x) && a.step.Back? {
      BackStaysAhead(s, w, x);
    }
    hide NextRing, Before, Others, NoRepeats, Ahead;
  }

  /** A search that is ahead, and that nobody undercuts on the way, does not end without its slot. */
  lemma {:induction false} SparedSearchFinds(s: State, w: nat, x: nat, acts: seq<Act>)
    requires Inv(s) && FindsIt(s, w, x) && ValidRun(s, acts) && Always(s, acts, Spares(w, x))
    ensures FindsIt(After(s, acts), w, x) && !After(s, acts).threads[w].Missed?
    decreases acts
  {
    hide Inv, Spares, Before;
    if acts != [] {
      StepKeeps(s, acts[0]);
      StepFindsIt(s, w, x, acts[0]);
      SparedSearchFinds(Do(s, acts[0]), w, x, acts[1..]);
    }
  }

  /** Steps of thread w alone, as many as its search takes. */
  function Alone(s: State, w: nat, steps: nat): (r: State)
    requires w < |s.threads| && (s.threads[w].Scanning? ==> s.threads[w].at in s.ring)
    ensures |r.threads| == |s.threads|
    decreases steps
  {
    if steps == 0 || !s.threads[w].Scanning? then s
    else if Enabled(s, Act(w, Hit)) then Do(s, Act(w, Hit))
    else Alone(Do(s, Act(w, Back)), w, steps - 1)
  }

  /** Left alone from any point, a search finds its slot if and only if it is ahead. */
  lemma FindsIffAhead(s: State, w: nat, x: nat)
    requires Inv(s) && SearchesFor(s, w, x)
    ensures Alone(s, w, |s.ring|).threads[w] == if Ahead(s, w, x) then Found(Some(x), x) else Missed(Some(x))
  {
    assert Knows(s.threads[w], s);
    AloneFor(s, w, x, |s.ring|);
  }

  lemma {:induction false} AloneFor(s: State, w: nat, x: nat, steps: nat)
    requires Inv(s) && SearchesFor(s, w, x) && s.threads[w].at in s.ring && Place(s.ring, s.threads[w].at) < steps
    ensures Alone(s, w, steps).threads[w] == if Ahead(s, w, x) then Found(Some(x), x) else Missed(Some(x))
    decreases steps
  {
    var t := s.threads[w];
    assert Knows(t, s);
    if t.at != x {
      var i, next := Place(s.ring, t.at), Do(s, Act(w, Back));
      StepKeeps(s, Act(w, Back));
      if i != 0 {
        PlaceIs(s.ring, i - 1);
        PlaceIs(s.ring, i);
        AloneFor(next, w, x, steps - 1);
        assert Place(s.ring, x) != i;
      }
    }
  }

  // ----- Serialised returns

  /** No thread begins a search while another one searches or has found and not moved yet. */
  ghost function SerialReturns(): (State, Act) -> bool {
    (s: State, a: Act) =>
      a.step.Begin? ==> forall v | 0 <= v < |s.threads| :: !s.threads[v].Scanning? && !s.threads[v].Found?
  }

  ghost predicate OneReturns(s: State) {
    forall v, w | 0 <= v < w < |s.threads| ::
      !((s.threads[v].Scanning? || s.threads[v].Found?) && (s.threads[w].Scanning? || s.threads[w].Found?))
  }

  lemma StepKeepsOneReturn(s: State, a: Act)
    requires OneReturns(s) && Enabled(s, a) && SerialReturns()(s, a)
    ensures OneReturns(Do(s, a))
  {
    hide NextRing;
  }

  /** Such a step spares every search, as long as nobody takes what is held. */
  lemma SerialSpares(s: State, w: nat, x: nat, a: Act)
    requires Inv(s) && OneReturns(s) && SearchesFor(s, w, x) && Enabled(s, a) && Orderly()(s, a)
    ensures Spares(w, x)(s, a)
  {
    assert HeldBy(s, w, x);
    hide NextRing, Before, NoRepeats;
  }

  ghost predicate AllAhead(s: State) {
    forall w: nat, x: nat :: SearchesFor(s, w, x) ==> Ahead(s, w, x)
  }

  lemma StepKeepsAllAhead(s: State, a: Act)
    requires Inv(s) && OneReturns(s) && AllAhead(s) && Enabled(s, a) && Orderly()(s, a)
    ensures AllAhead(Do(s, a))
  {
    forall w: nat, x: nat | SearchesFor(Do(s, a), w, x)
      ensures Ahead(Do(s, a), w, x)
    {
      if SearchesFor(s, w, x) {
        SerialSpares(s, w, x, a);
        StepFindsIt(s, w, x, a);
      } else {
        assert a.w == w && a.step.Begin?;
        BeginIsAhead(s, w, x);
      }
    }
  }

  /** Every busy slot is in somebody's hands. */
  ghost predicate NothingLost(s: State) {
    forall x | x in s.busy :: Held(s, x)
  }

  lemma StepLosesNothing(s: State, a: Act)
    requires Inv(s) && AllAhead(s) && NothingLost(s) && Enabled(s, a)
    ensures NothingLost(Do(s, a))
  {
    AllHoldersAfter(s, a);
    var t, s' := s.threads[a.w], Do(s, a);
    assert Knows(t, s);
    if a.step.Back? && t.key.Some? {
      assert SearchesFor(s, a.w, t.key.value);
      BackStaysAhead(s, a.w, t.key.value);
    }
    forall x | x in s'.busy
      ensures Held(s', x)
    {
      if a.step.Take? && x == t.x {
        assert HeldBy(s', a.w, x);
      } else {
        var v: nat :| HeldBy(s, v, x);
        assert HeldBy(s', v, x);
      }
    }
  }

  lemma {:induction false} SerialRunLosesNothing(s: State, acts: seq<Act>)
    requires Inv(s) && Sound(s) && OneReturns(s) && AllAhead(s) && NothingLost(s)
    requires ValidRun(s, acts) && Always(s, acts, Orderly()) && Always(s, acts, SerialReturns())
    ensures NothingLost(After(s, acts)) && Sound(After(s, acts)) && Inv(After(s, acts))
    decreases acts
  {
    hide Inv, Apart, HeldAreBusy, OneReturns, AllAhead, NothingLost, Orderly, SerialReturns;
    if acts != [] {
      var a := acts[0];
      StepKeeps(s, a);
      OrderlyTakes(s, a);
      OrderlyKeepsApart(s, a);
      OrderlyKeepsBusy(s, a);
      StepKeepsOneReturn(s, a);
      StepKeepsAllAhead(s, a);
      StepLosesNothing(s, a);
      SerialRunLosesNothing(Do(s, a), acts[1..]);
    }
  }

  /**
   * In orderly runs from an initial pool with serialised searches, a slot is busy if and only if somebody holds it: no
   * return misses, and when nobody holds a slot any more all are free.
   */
  lemma SerialReturnsLoseNothing(s: State, acts: seq<Act>)
    requires Init(s) && ValidRun(s, acts) && Always(s, acts, Orderly()) && Always(s, acts, SerialReturns())
    ensures forall x: nat :: x in After(s, acts).busy <==> Held(After(s, acts), x)
  {
    InitInv(s);
    InitSound(s);
    SerialRunLosesNothing(s, acts);
  }
}

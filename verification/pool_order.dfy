/** When looking at the head of the ring is enough, although threads overlap. */
module PoolOrder {
  import opened Common
  import opened PoolRace
  import opened PoolOwners

  ghost predicate Precedes(ring: seq<nat>, u: nat, v: nat) {
    exists i, j :: 0 <= i < j < |ring| && ring[i] == u && ring[j] == v
  }

  /** Some thread has moved the node to the front and not cleared its busy yet. */
  ghost predicate IsMoved(s: State, x: nat) {
    exists w :: 0 <= w < |s.threads| && s.threads[w].Moved? && s.threads[w].at == x
  }

  /** It is the one that returns the slot. */
  ghost predicate IsReturned(s: State, x: nat) {
    exists w :: 0 <= w < |s.threads| && s.threads[w] == Moved(Some(x), x)
  }

  ghost predicate FreeSoon(s: State, x: nat) {
    x !in s.busy || IsReturned(s, x)
  }

  /** What is free, or will be when a return ends, has nothing before it but free nodes and nodes just moved. */
  ghost predicate FreeFirst(s: State) {
    forall u, v :: Precedes(s.ring, u, v) && FreeSoon(s, v) ==> u !in s.busy || IsMoved(s, u)
  }

  lemma PrecedesInOthers(ring: seq<nat>, y: nat, u: nat, v: nat)
    requires y in ring && Precedes(Others(ring, y), u, v)
    ensures Precedes(ring, u, v)
  {
    var k := Place(ring, y);
    var o := Others(ring, y);
    var i, j :| 0 <= i < j < |o| && o[i] == u && o[j] == v;
    assert ring[if i < k then i else i + 1] == u && ring[if j < k then j else j + 1] == v;
  }

  lemma PrecedesMovedBack(ring: seq<nat>, y: nat, u: nat, v: nat)
    requires NoRepeats(ring) && y in ring && Precedes(Others(ring, y) + [y], u, v)
    ensures u != y && (v == y || Precedes(ring, u, v))
  {
    MovedRing(ring, y);
    var o := Others(ring, y);
    var r := o + [y];
    var i, j :| 0 <= i < j < |r| && r[i] == u && r[j] == v;
    assert r[|r| - 1] == y;
    if j < |o| {
      assert o[i] == u && o[j] == v;
      PrecedesInOthers(ring, y, u, v);
    }
  }

  lemma PrecedesMovedFront(ring: seq<nat>, y: nat, u: nat, v: nat)
    requires NoRepeats(ring) && y in ring && Precedes([y] + Others(ring, y), u, v)
    ensures v != y && (u == y || Precedes(ring, u, v))
  {
    MovedRing(ring, y);
    var o := Others(ring, y);
    var r := [y] + o;
    var i, j :| 0 <= i < j < |r| && r[i] == u && r[j] == v;
    assert r[0] == y;
    if 0 < i {
      assert o[i - 1] == u && o[j - 1] == v;
      PrecedesInOthers(ring, y, u, v);
    }
  }

  lemma TakeKeepsOrder(s: State, a: Act)
    requires Inv(s) && Sound(s) && FreeFirst(s) && Enabled(s, a) && a.step.Take? && Calm()(s, a)
    ensures FreeFirst(Do(s, a))
  {
    var t, x := Do(s, a), s.threads[a.w].x;
    forall u: nat, v: nat | Precedes(t.ring, u, v) && FreeSoon(t, v)
      ensures u !in t.busy || IsMoved(t, u)
    {
      PrecedesMovedBack(s.ring, x, u, v);
      if IsReturned(t, v) {
        var w :| 0 <= w < |t.threads| && t.threads[w] == Moved(Some(v), v);
        assert s.threads[w] == t.threads[w] && HeldBy(s, w, v);
      }
      assert v != x && FreeSoon(s, v);
      if u in s.busy {
        var w :| 0 <= w < |s.threads| && s.threads[w].Moved? && s.threads[w].at == u;
        assert t.threads[w] == s.threads[w];
      }
    }
  }

  lemma FrontKeepsOrder(s: State, a: Act)
    requires Inv(s) && FreeFirst(s) && Enabled(s, a) && a.step.Front?
    ensures FreeFirst(Do(s, a))
  {
    var t, y := Do(s, a), s.threads[a.w].at;
    assert t.threads[a.w].Moved? && t.threads[a.w].at == y;
    forall u: nat, v: nat | Precedes(t.ring, u, v) && FreeSoon(t, v)
      ensures u !in t.busy || IsMoved(t, u)
    {
      PrecedesMovedFront(s.ring, y, u, v);
      if u != y {
        if IsReturned(t, v) {
          var w :| 0 <= w < |t.threads| && t.threads[w] == Moved(Some(v), v);
          assert s.threads[w] == t.threads[w];
        }
        assert FreeSoon(s, v);
        if u in s.busy {
          var w :| 0 <= w < |s.threads| && s.threads[w].Moved? && s.threads[w].at == u;
          assert t.threads[w] == s.threads[w];
        }
      }
    }
  }

  lemma OtherStepKeepsOrder(s: State, a: Act)
    requires Inv(s) && Sound(s) && FreeFirst(s) && Enabled(s, a) && !a.step.Take? && !a.step.Front? && Calm()(s, a)
    ensures FreeFirst(Do(s, a))
  {
    var t, y := Do(s, a), s.threads[a.w];
    assert Knows(y, s);
    forall u: nat, v: nat | Precedes(t.ring, u, v) && FreeSoon(t, v)
      ensures u !in t.busy || IsMoved(t, u)
    {
      if IsReturned(t, v) {
        var w :| 0 <= w < |t.threads| && t.threads[w] == Moved(Some(v), v);
        assert s.threads[w] == t.threads[w];
      }
      if a.step.Clear? && v == y.at && y.key.Some? {
        assert s.threads[a.w] == Moved(Some(v), v);
      }
      assert FreeSoon(s, v);
      if u in t.busy {
        var w :| 0 <= w < |s.threads| && s.threads[w].Moved? && s.threads[w].at == u;
        assert t.threads[w] == s.threads[w];
      }
    }
  }

  lemma {:induction false} CalmRunKeepsOrder(s: State, acts: seq<Act>)
    requires Inv(s) && Sound(s) && FreeFirst(s) && ValidRun(s, acts) && Always(s, acts, Calm())
    ensures Inv(After(s, acts)) && Sound(After(s, acts)) && FreeFirst(After(s, acts))
    decreases acts
  {
    hide Inv, Apart, HeldAreBusy, FreeFirst, Calm, Orderly;
    if acts != [] {
      var a := acts[0];
      StepKeeps(s, a);
      CalmIsOrderly(s, a);
      OrderlyTakes(s, a);
      OrderlyKeepsApart(s, a);
      OrderlyKeepsBusy(s, a);
      if a.step.Take? {
        TakeKeepsOrder(s, a);
      } else if a.step.Front? {
        FrontKeepsOrder(s, a);
      } else {
        OtherStepKeepsOrder(s, a);
      }
      CalmRunKeepsOrder(Do(s, a), acts[1..]);
    }
  }

  /**
   * In calm runs from an initial pool, as long as a slot is free: a busy head was just moved there, and stays so till
   * cleared.
   */
  lemma BusyHeadIsMoved(s: State, acts: seq<Act>)
    requires Init(s) && ValidRun(s, acts) && Always(s, acts, Calm())
    requires exists x :: x in After(s, acts).ring && x !in After(s, acts).busy
    ensures var t := After(s, acts);
            && t.ring != []
            && (t.ring[0] in t.busy ==> IsMoved(t, t.ring[0]))
            && (IsReturned(t, t.ring[0]) ==> t.ring[0] in t.busy)
  {
    InitInv(s);
    InitSound(s);
    CalmRunKeepsOrder(s, acts);
    var t := After(s, acts);
    var x :| x in t.ring && x !in t.busy;
    var j :| 0 <= j < |t.ring| && t.ring[j] == x;
    if t.ring[0] in t.busy {
      assert 0 < j && Precedes(t.ring, t.ring[0], x);
    }
    if IsReturned(t, t.ring[0]) {
      var w :| 0 <= w < |t.threads| && t.threads[w] == Moved(Some(t.ring[0]), t.ring[0]);
      assert HeldBy(t, w, t.ring[0]);
    }
  }

  lemma {:induction false} RunStaysQuiet(s: State, acts: seq<Act>)
    requires Quiet(s) && ValidRun(s, acts) && Always(s, acts, Undisturbed()) && Always(s, acts, NoNull())
    ensures Quiet(After(s, acts))
    decreases acts
  {
    hide Undisturbed, NoNull, Quiet;
    if acts != [] {
      StepStaysQuiet(s, acts[0]);
      RunStaysQuiet(Do(s, acts[0]), acts[1..]);
    }
  }

  /**
   * In runs from an initial pool without returns of NULL, in which no look is disturbed: as long as a slot is free, an
   * obtain that looks now fails if and only if the head is in the hands of a return, between its move and its clearing.
   */
  lemma ObtainFailsIff(s: State, acts: seq<Act>, w: nat)
    requires Init(s) && ValidRun(s, acts) && Always(s, acts, Undisturbed()) && Always(s, acts, NoNull())
    requires exists x :: x in After(s, acts).ring && x !in After(s, acts).busy
    requires w < |After(s, acts).threads| && After(s, acts).threads[w].Outside?
    ensures var t := After(s, acts);
            && Enabled(t, Act(w, Peek))
            && (Enabled(Do(t, Act(w, Peek)), Act(w, Fail)) <==> IsReturned(t, t.ring[0]))
  {
    InitInv(s);
    InitSound(s);
    assert Quiet(s);
    UndisturbedIsCalm(s, acts);
    RunStaysQuiet(s, acts);
    BusyHeadIsMoved(s, acts);
    RunKeeps(s, acts);
    var t := After(s, acts);
    if IsMoved(t, t.ring[0]) {
      var v :| 0 <= v < |t.threads| && t.threads[v].Moved? && t.threads[v].at == t.ring[0];
      assert Knows(t.threads[v], t);
      assert t.threads[v] == Moved(Some(t.ring[0]), t.ring[0]);
    }
    hide Always, ValidRun, After, NoRepeats;
  }
}

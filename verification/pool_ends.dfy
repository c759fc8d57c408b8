/**
 * Every thread comes to the end of its obtain and its return: a search goes back only so far, whatever the others
 * move.
 */
module PoolEnds {
  import opened Common
  import opened PoolRace

  /** How much a thread has before it. */
  function Stage(): Thread -> nat {
    (t: Thread) =>
      match t
      case Outside => 9
      case Peeked(_) => 8
      case Looked(_) => 7
      case Taken(_) => 6
      case Holding(_) => 5
      case Failed => 4
      case Scanning(_, _) => 3
      case Found(_, _) => 2
      case Moved(_, _) => 1
      case _ => 0
  }

  /** How far a search has to go. */
  function Cursor(ring: seq<nat>): Thread -> nat {
    (t: Thread) => if t.Scanning? && t.at in ring then Place(ring, t.at) else 0
  }

  /** All cursors together have less to go than one stage is worth. */
  function Potential(s: State): nat {
    Sum(s.threads, Stage()) * (|s.threads| * |s.ring|) + Sum(s.threads, Cursor(s.ring))
  }

  lemma BackLowers(s: State, w: nat)
    requires Inv(s) && Enabled(s, Act(w, Back)) && Place(s.ring, s.threads[w].at) != 0
    ensures Potential(Do(s, Act(w, Back))) < Potential(s)
  {
    var t, i := Do(s, Act(w, Back)), Place(s.ring, s.threads[w].at);
    SumUpdate(s.threads, w, t.threads[w], Stage());
    SumUpdate(s.threads, w, t.threads[w], Cursor(s.ring));
    PlaceIs(s.ring, i - 1);
    hide Place, Sum, NoRepeats, Inv;
  }

  lemma StageFalls(s: State, a: Act)
    requires Enabled(s, a) && (a.step.Back? ==> Next(s, a).Missed?)
    ensures Sum(Do(s, a).threads, Stage()) < Sum(s.threads, Stage())
  {
    SumUpdate(s.threads, a.w, Next(s, a), Stage());
    assert Stage()(Next(s, a)) < Stage()(s.threads[a.w]);
    hide Place, Sum, Next, NextRing, Stage;
  }

  lemma CursorsAreBounded(s: State)
    requires s.ring != [] && s.threads != []
    ensures Sum(s.threads, Cursor(s.ring)) < |s.threads| * |s.ring|
  {
    SumIsBounded(s.threads, Cursor(s.ring), |s.ring| - 1);
    assert |s.threads| * (|s.ring| - 1) == |s.threads| * |s.ring| - |s.threads|;
  }

  lemma StageIsEnough(was: nat, now: nat, left: nat, k: nat)
    requires now < was && left < k
    ensures now * k + left < was * k
  {
    assert was * k == (now + 1) * k + (was - now - 1) * k;
  }

  lemma OtherLowers(s: State, a: Act)
    requires Inv(s) && Enabled(s, a) && (a.step.Back? ==> Next(s, a).Missed?)
    ensures Potential(Do(s, a)) < Potential(s)
  {
    var t := Do(s, a);
    StepKeepsRing(s, a);
    assert |t.ring| == |multiset(t.ring)| == |multiset(s.ring)| == |s.ring|;
    StageFalls(s, a);
    CursorsAreBounded(t);
    StageIsEnough(Sum(s.threads, Stage()), Sum(t.threads, Stage()), Sum(t.threads, Cursor(t.ring)),
                  |s.threads| * |s.ring|);
    hide Sum, NoRepeats, Inv, Enabled, Do;
  }

  lemma StepLowers(s: State, a: Act)
    requires Inv(s) && Enabled(s, a)
    ensures Potential(Do(s, a)) < Potential(s)
  {
    if a.step.Back? && Next(s, a).Scanning? {
      BackLowers(s, a.w);
    } else {
      OtherLowers(s, a);
    }
  }

  /** No run of the threads is longer than this. */
  lemma {:induction false} RunIsShort(s: State, acts: seq<Act>)
    requires Inv(s) && ValidRun(s, acts)
    ensures |acts| + Potential(After(s, acts)) <= Potential(s)
    decreases acts
  {
    hide Inv, Potential;
    if acts != [] {
      StepKeeps(s, acts[0]);
      StepLowers(s, acts[0]);
      RunIsShort(Do(s, acts[0]), acts[1..]);
    }
  }

  /** No thread waits for another one. */
  function NextStep(s: State, w: nat): Step
    requires w < |s.threads|
  {
    match s.threads[w]
    case Peeked(x) => if x in s.busy then Fail else Test
    case Looked(_) => Take
    case Taken(_) => Name
    case Scanning(key, at) => if Matches(s, key, at) then Hit else Back
    case Found(_, _) => Front
    case Moved(_, _) => Clear
    case Outside => Peek
    case _ => Begin
  }

  lemma NeverStuck(s: State, w: nat)
    requires Inv(s) && w < |s.threads| && !s.threads[w].Missed? && !s.threads[w].Gone?
    ensures Enabled(s, Act(w, NextStep(s, w)))
  {
    assert Knows(s.threads[w], s);
  }
}

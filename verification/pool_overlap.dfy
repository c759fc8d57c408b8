/** Runs from an initial pool in which overlapping threads break what a single one may rely on. */
module PoolOverlap {
  import opened Common
  import opened PoolRace
  import opened PoolOwners
  import opened PoolOrder

  /** A lock around all of obtain: no thread begins to obtain while another one has not written its addr yet. */
  ghost function WholeObtains(): (State, Act) -> bool {
    (s: State, a: Act) =>
      a.step.Peek? ==>
        forall v | 0 <= v < |s.threads| :: !s.threads[v].Peeked? && !s.threads[v].Looked? && !s.threads[v].Taken?
  }

  ghost predicate NobodyObtains(s: State) {
    forall v | 0 <= v < |s.threads| :: !s.threads[v].Peeked? && !s.threads[v].Looked? && !s.threads[v].Taken?
  }

  /** The run leads from s to t, with every obtain as a whole. */
  ghost predicate Leads(s: State, acts: seq<Act>, t: State) {
    ValidRun(s, acts) && After(s, acts) == t && Always(s, acts, WholeObtains())
  }

  lemma LeadsOn(s: State, first: seq<Act>, t: State, rest: seq<Act>, u: State)
    requires Leads(s, first, t) && Leads(t, rest, u)
    ensures Leads(s, first + rest, u)
  {
    RunsCompose(s, first, rest, WholeObtains());
  }

  lemma OneLeads(s: State, a: Act)
    requires Enabled(s, a) && (a.step.Peek? ==> NobodyObtains(s))
    ensures Leads(s, [a], Do(s, a))
  {
    RunOfOne(s, a, []);
  }

  lemma TwoLead(s: State, a: Act, b: Act)
    requires Enabled(s, a) && Enabled(Do(s, a), b) && (a.step.Peek? ==> NobodyObtains(s)) && !b.step.Peek?
    ensures Leads(s, [a, b], Do(Do(s, a), b))
  {
    OneLeads(s, a);
    OneLeads(Do(s, a), b);
    LeadsOn(s, [a], Do(s, a), [b], Do(Do(s, a), b));
  }

  // ----- A thread that obtains, and one that returns, on a ring of two slots

  function Obtains(w: nat): seq<Act> { [Act(w, Peek), Act(w, Test)] + [Act(w, Take), Act(w, Name)] }

  function Fails(w: nat): seq<Act> { [Act(w, Peek), Act(w, Fail)] }

  function Finds(w: nat): seq<Act> { [Act(w, Begin), Act(w, Hit)] }

  /** The first slot of the ring goes to the thread. */
  lemma ObtainLeads(s: State, w: nat, x: nat, y: nat)
    requires s.ring == [x, y] && x != y && x !in s.busy && NobodyObtains(s) && w < |s.threads| && s.threads[w].Outside?
    ensures Leads(s, Obtains(w), State([y, x], s.busy + {x}, s.named + {x}, s.threads[w := Holding(x)]))
  {
    assert Others([x, y], x) == [y];
    var looked := s.(threads := s.threads[w := Looked(x)]);
    var t := State([y, x], s.busy + {x}, s.named + {x}, s.threads[w := Holding(x)]);
    TwoLead(s, Act(w, Peek), Act(w, Test));
    assert Do(Do(s, Act(w, Peek)), Act(w, Test)) == looked;
    TwoLead(looked, Act(w, Take), Act(w, Name));
    assert Do(Do(looked, Act(w, Take)), Act(w, Name)) == t;
    LeadsOn(s, [Act(w, Peek), Act(w, Test)], looked, [Act(w, Take), Act(w, Name)], t);
  }

  lemma FailLeads(s: State, w: nat)
    requires s.ring != [] && s.ring[0] in s.busy && NobodyObtains(s) && w < |s.threads| && s.threads[w].Outside?
    ensures Leads(s, Fails(w), s.(threads := s.threads[w := Failed]))
  {
    TwoLead(s, Act(w, Peek), Act(w, Fail));
  }

  /** A search that finds its node at the end of the ring. */
  lemma FindLeads(s: State, w: nat, x: nat, y: nat)
    requires s.ring == [y, x] && w < |s.threads|
    requires (s.threads[w] == Holding(x) && x in s.named) || (s.threads[w].Failed? && x !in s.named)
    ensures var key := if s.threads[w].Failed? then None else Some(x);
            Leads(s, Finds(w), s.(threads := s.threads[w := Found(key, x)]))
  {
    TwoLead(s, Act(w, Begin), Act(w, Hit));
  }

  lemma FrontLeads(s: State, w: nat, x: nat, y: nat)
    requires (s.ring == [y, x] || s.ring == [x, y]) && x != y
    requires w < |s.threads| && s.threads[w].Found? && s.threads[w].at == x
    ensures Leads(s, [Act(w, Front)], State([x, y], s.busy, s.named, s.threads[w := Moved(s.threads[w].key, x)]))
  {
    assert Others([y, x], x) == [y] && Others([x, y], x) == [y];
    OneLeads(s, Act(w, Front));
  }

  lemma ClearLeads(s: State, w: nat)
    requires w < |s.threads| && s.threads[w].Moved?
    ensures Leads(s, [Act(w, Clear)],
                  s.(busy := s.busy - {s.threads[w].at}, threads := s.threads[w := Gone]))
  {
    OneLeads(s, Act(w, Clear));
  }

  function Threads(n: nat): seq<Thread> { seq(n, _ => Outside) }

  function Fresh(a: nat, f: nat, n: nat): State { State([a, f], {}, {}, Threads(n)) }

  /** A return in progress: slot a is at the head again, busy, and f has never been handed out. */
  function HalfReturned(a: nat, f: nat, n: nat): State
    requires 0 < n
  {
    State([a, f], {a}, {a}, Threads(n)[0 := Moved(Some(a), a)])
  }

  lemma HalfReturn(a: nat, f: nat, n: nat)
    requires a != f && 0 < n
    ensures Init(Fresh(a, f, n))
    ensures Leads(Fresh(a, f, n), HalfReturns(), HalfReturned(a, f, n))
  {
    hide Leads;
    var s := Fresh(a, f, n);
    var t := State([f, a], {a}, {a}, Threads(n)[0 := Holding(a)]);
    var u := t.(threads := Threads(n)[0 := Found(Some(a), a)]);
    ObtainLeads(s, 0, a, f);
    FindLeads(t, 0, a, f);
    LeadsOn(s, Obtains(0), t, Finds(0), u);
    FrontLeads(u, 0, a, f);
    LeadsOn(s, Obtains(0) + Finds(0), u, [Act(0, Front)], HalfReturned(a, f, n));
  }

  function HalfReturns(): seq<Act> { Obtains(0) + Finds(0) + [Act(0, Front)] }

  /** Then the head is busy and f is free: an obtain fails although there is a slot. */
  lemma FailsWithFreeSlot(a: nat, f: nat)
    requires a != f
    ensures Init(Fresh(a, f, 2))
    ensures Leads(Fresh(a, f, 2), HalfReturns() + Fails(1), State([a, f], {a}, {a}, [Moved(Some(a), a), Failed]))
  {
    var half := HalfReturned(a, f, 2);
    var t := State([a, f], {a}, {a}, [Moved(Some(a), a), Failed]);
    HalfReturn(a, f, 2);
    FailLeads(half, 1);
    assert half.(threads := half.threads[1 := Failed]) == t;
    LeadsOn(Fresh(a, f, 2), HalfReturns(), half, Fails(1), t);
  }

  // ----- The return of NULL

  function StrayRun(): seq<Act> {
    HalfReturns() + Fails(1) + Finds(1) + [Act(0, Clear)]
    + (Obtains(2) + Obtains(3) + [Act(1, Front)] + [Act(1, Clear)])
  }

  /** In the end thread 3 holds f, and f looks free. */
  function Stray(a: nat, f: nat): State {
    State([f, a], {a}, {a, f}, [Gone, Gone, Holding(a), Holding(f), Outside])
  }

  /** The request that failed returns NULL; its search finds f, and pauses. */
  lemma NullFindsUnused(a: nat, f: nat)
    requires a != f
    ensures Leads(Fresh(a, f, 5), HalfReturns() + Fails(1) + Finds(1) + [Act(0, Clear)],
                  State([a, f], {}, {a}, [Gone, Found(None, f), Outside, Outside, Outside]))
  {
    hide Leads, HalfReturns, Fails, Finds;
    var s, s0 := Fresh(a, f, 5), HalfReturned(a, f, 5);
    HalfReturn(a, f, 5);
    var moved, stray := Moved(Some(a), a), Found(None, f);
    var s1 := State([a, f], {a}, {a}, [moved, Failed, Outside, Outside, Outside]);
    var s2 := State([a, f], {a}, {a}, [moved, stray, Outside, Outside, Outside]);
    var s3 := State([a, f], {}, {a}, [Gone, stray, Outside, Outside, Outside]);
    FailLeads(s0, 1);
    assert s0.(threads := s0.threads[1 := Failed]) == s1;
    FindLeads(s1, 1, f, a);
    assert s1.(threads := s1.threads[1 := stray]) == s2;
    ClearLeads(s2, 0);
    assert s2.(busy := s2.busy - {a}, threads := s2.threads[0 := Gone]) == s3;
    LeadsOn(s, HalfReturns(), s0, Fails(1), s1);
    LeadsOn(s, HalfReturns() + Fails(1), s1, Finds(1), s2);
    LeadsOn(s, HalfReturns() + Fails(1) + Finds(1), s2, [Act(0, Clear)], s3);
  }

  /** Meanwhile both slots are obtained; then it goes on. */
  lemma NullFreesUsed(a: nat, f: nat)
    requires a != f
    ensures Leads(State([a, f], {}, {a}, [Gone, Found(None, f), Outside, Outside, Outside]),
                  Obtains(2) + Obtains(3) + [Act(1, Front)] + [Act(1, Clear)], Stray(a, f))
  {
    hide Leads, Obtains;
    var stray := Found(None, f);
    var s3 := State([a, f], {}, {a}, [Gone, stray, Outside, Outside, Outside]);
    var s4 := State([f, a], {a}, {a}, [Gone, stray, Holding(a), Outside, Outside]);
    var s5 := State([a, f], {a, f}, {a, f}, [Gone, stray, Holding(a), Holding(f), Outside]);
    var s6 := State([f, a], {a, f}, {a, f}, [Gone, Moved(None, f), Holding(a), Holding(f), Outside]);
    ObtainLeads(s3, 2, a, f);
    assert State([f, a], s3.busy + {a}, s3.named + {a}, s3.threads[2 := Holding(a)]) == s4;
    ObtainLeads(s4, 3, f, a);
    assert State([a, f], s4.busy + {f}, s4.named + {f}, s4.threads[3 := Holding(f)]) == s5;
    FrontLeads(s5, 1, f, a);
    assert State([f, a], s5.busy, s5.named, s5.threads[1 := Moved(None, f)]) == s6;
    ClearLeads(s6, 1);
    assert s6.(busy := s6.busy - {f}, threads := s6.threads[1 := Gone]) == Stray(a, f);
    LeadsOn(s3, Obtains(2), s4, Obtains(3), s5);
    LeadsOn(s3, Obtains(2) + Obtains(3), s5, [Act(1, Front)], s6);
    LeadsOn(s3, Obtains(2) + Obtains(3) + [Act(1, Front)], s6, [Act(1, Clear)], Stray(a, f));
  }

  /**
   * The request that failed returns NULL. Its search finds f, which no thread has had yet, and frees it when thread 3
   * holds it, although every obtain was a whole.
   */
  lemma NullFreesHeldSlot(a: nat, f: nat)
    requires a != f
    ensures Init(Fresh(a, f, 5)) && Leads(Fresh(a, f, 5), StrayRun(), Stray(a, f))
    ensures HeldBy(Stray(a, f), 3, f) && f !in Stray(a, f).busy
  {
    hide Leads, HalfReturns, Fails, Finds, Obtains;
    HalfReturn(a, f, 5);
    NullFindsUnused(a, f);
    NullFreesUsed(a, f);
    LeadsOn(Fresh(a, f, 5), HalfReturns() + Fails(1) + Finds(1) + [Act(0, Clear)],
            State([a, f], {}, {a}, [Gone, Found(None, f), Outside, Outside, Outside]),
            Obtains(2) + Obtains(3) + [Act(1, Front)] + [Act(1, Clear)], Stray(a, f));
  }

  /** And the next obtain gives f a second holder: a lock around all of obtain alone is not enough. */
  lemma NullGivesTwoHolders(a: nat, f: nat)
    requires a != f
    ensures Init(Fresh(a, f, 5)) && Leads(Fresh(a, f, 5), StrayRun() + Obtains(4), Shared(a, f))
    ensures HeldBy(Shared(a, f), 3, f) && HeldBy(Shared(a, f), 4, f)
  {
    hide Leads, StrayRun, Obtains;
    var s := Stray(a, f);
    NullFreesHeldSlot(a, f);
    ObtainLeads(s, 4, f, a);
    assert State([a, f], s.busy + {f}, s.named + {f}, s.threads[4 := Holding(f)]) == Shared(a, f);
    LeadsOn(Fresh(a, f, 5), StrayRun(), s, Obtains(4), Shared(a, f));
  }

  function Shared(a: nat, f: nat): State {
    State([a, f], {a, f}, {a, f}, [Gone, Gone, Holding(a), Holding(f), Holding(f)])
  }

  /** In a pool with one slot, taken and not yet named, the search for NULL finds that slot and frees it. */
  lemma NullFreesTakenSlot(f: nat)
    ensures var s, t := State([f], {}, {}, [Outside, Outside]), State([f], {}, {}, [Taken(f), Gone]);
            var run := [Act(0, Peek), Act(0, Test), Act(0, Take)]
                       + [Act(1, Peek), Act(1, Fail), Act(1, Begin), Act(1, Hit)] + [Act(1, Front), Act(1, Clear)];
            Init(s) && ValidRun(s, run) && After(s, run) == t
  {
    hide ValidRun, After, Always;
    var s := State([f], {}, {}, [Outside, Outside]);
    var first := [Act(0, Peek), Act(0, Test), Act(0, Take)];
    var second := [Act(1, Peek), Act(1, Fail), Act(1, Begin), Act(1, Hit)];
    TakeRun(f);
    NullRun(f);
    FreeRun(f);
    RunsCompose(s, first, second, WholeObtains());
    RunsCompose(s, first + second, [Act(1, Front), Act(1, Clear)], WholeObtains());
  }

  lemma FreeRun(f: nat)
    ensures var s := State([f], {f}, {}, [Taken(f), Found(None, f)]);
            var run := [Act(1, Front), Act(1, Clear)];
            ValidRun(s, run) && After(s, run) == State([f], {}, {}, [Taken(f), Gone])
  {
    assert Others([f], f) == [];
    var s := State([f], {f}, {}, [Taken(f), Found(None, f)]);
    var s1 := State([f], {f}, {}, [Taken(f), Moved(None, f)]);
    assert Do(s, Act(1, Front)) == s1;
    RunOfOne(s1, Act(1, Clear), []);
    RunOfOne(s, Act(1, Front), [Act(1, Clear)]);
  }

  lemma TakeRun(f: nat)
    ensures var s := State([f], {}, {}, [Outside, Outside]);
            var run := [Act(0, Peek), Act(0, Test), Act(0, Take)];
            ValidRun(s, run) && After(s, run) == State([f], {f}, {}, [Taken(f), Outside])
  {
    assert Others([f], f) == [];
    var s := State([f], {}, {}, [Outside, Outside]);
    var s1 := State([f], {}, {}, [Peeked(f), Outside]);
    var s2 := State([f], {}, {}, [Looked(f), Outside]);
    assert Do(s, Act(0, Peek)) == s1 && Do(s1, Act(0, Test)) == s2;
    RunOfOne(s2, Act(0, Take), []);
    RunOfOne(s1, Act(0, Test), [Act(0, Take)]);
    RunOfOne(s, Act(0, Peek), [Act(0, Test), Act(0, Take)]);
  }

  lemma NullRun(f: nat)
    ensures var s := State([f], {f}, {}, [Taken(f), Outside]);
            var run := [Act(1, Peek), Act(1, Fail), Act(1, Begin), Act(1, Hit)];
            ValidRun(s, run) && After(s, run) == State([f], {f}, {}, [Taken(f), Found(None, f)])
  {
    var s := State([f], {f}, {}, [Taken(f), Outside]);
    var s1 := State([f], {f}, {}, [Taken(f), Peeked(f)]);
    var s2 := State([f], {f}, {}, [Taken(f), Failed]);
    var s3 := State([f], {f}, {}, [Taken(f), Scanning(None, f)]);
    assert Do(s, Act(1, Peek)) == s1 && Do(s1, Act(1, Fail)) == s2 && Do(s2, Act(1, Begin)) == s3;
    RunOfOne(s3, Act(1, Hit), []);
    RunOfOne(s2, Act(1, Begin), [Act(1, Hit)]);
    RunOfOne(s1, Act(1, Fail), [Act(1, Begin), Act(1, Hit)]);
    RunOfOne(s, Act(1, Peek), [Act(1, Fail), Act(1, Begin), Act(1, Hit)]);
  }

  // ----- Two looks, and two returns

  function BothLook(): seq<Act> { [Act(0, Peek), Act(0, Test), Act(1, Peek), Act(1, Test)] }

  lemma LookTwice(a: nat, f: nat)
    requires a != f
    ensures ValidRun(Fresh(a, f, 2), BothLook())
    ensures After(Fresh(a, f, 2), BothLook()) == State([a, f], {}, {}, [Looked(a), Looked(a)])
  {
    var s := Fresh(a, f, 2);
    var s1 := State([a, f], {}, {}, [Peeked(a), Outside]);
    var s2 := State([a, f], {}, {}, [Looked(a), Outside]);
    var s3 := State([a, f], {}, {}, [Looked(a), Peeked(a)]);
    assert Do(s, Act(0, Peek)) == s1 && Do(s1, Act(0, Test)) == s2 && Do(s2, Act(1, Peek)) == s3;
    RunOfOne(s3, Act(1, Test), []);
    RunOfOne(s2, Act(1, Peek), [Act(1, Test)]);
    RunOfOne(s1, Act(0, Test), [Act(1, Peek), Act(1, Test)]);
    RunOfOne(s, Act(0, Peek), [Act(0, Test), Act(1, Peek), Act(1, Test)]);
  }

  lemma TakeTwice(a: nat, f: nat)
    requires a != f
    ensures var s, run := State([a, f], {}, {}, [Looked(a), Looked(a)]), [Act(0, Take), Act(1, Take)];
            ValidRun(s, run) && After(s, run) == State([f, a], {a}, {}, [Taken(a), Taken(a)])
  {
    assert Others([a, f], a) == [f] && Others([f, a], a) == [f];
    var s := State([a, f], {}, {}, [Looked(a), Looked(a)]);
    var s1 := State([f, a], {a}, {}, [Taken(a), Looked(a)]);
    assert Do(s, Act(0, Take)) == s1;
    RunOfOne(s1, Act(1, Take), []);
    RunOfOne(s, Act(0, Take), [Act(1, Take)]);
  }

  /** Two threads that look before either takes get the same slot. */
  lemma BothTake(a: nat, f: nat)
    requires a != f
    ensures var s, t := Fresh(a, f, 2), State([f, a], {a}, {}, [Taken(a), Taken(a)]);
            var run := BothLook() + [Act(0, Take), Act(1, Take)];
            Init(s) && ValidRun(s, run) && After(s, run) == t && HeldBy(t, 0, a) && HeldBy(t, 1, a)
  {
    hide ValidRun, After, Always, BothLook;
    LookTwice(a, f);
    TakeTwice(a, f);
    RunsCompose(Fresh(a, f, 2), BothLook(), [Act(0, Take), Act(1, Take)], WholeObtains());
  }

  lemma BeginLeads(s: State, w: nat, x: nat, y: nat)
    requires s.ring == [x, y] && w < |s.threads| && s.threads[w] == Holding(x)
    ensures Leads(s, [Act(w, Begin)], s.(threads := s.threads[w := Scanning(Some(x), y)]))
  {
    OneLeads(s, Act(w, Begin));
  }

  lemma MissLeads(s: State, w: nat, x: nat, y: nat)
    requires s.ring == [y, x] && x != y && w < |s.threads| && s.threads[w] == Scanning(Some(x), y)
    ensures Leads(s, [Act(w, Back)], s.(threads := s.threads[w := Missed(Some(x))]))
  {
    OneLeads(s, Act(w, Back));
  }

  /** The return of b moves it from under the cursor of the return of a, which misses a: a stays busy for good. */
  lemma ReturnMisses(a: nat, b: nat)
    requires a != b
    ensures var run := Obtains(0) + Obtains(1) + [Act(0, Begin)] + Finds(1) + [Act(1, Front)] + [Act(0, Back)];
            Init(Fresh(a, b, 2))
            && Leads(Fresh(a, b, 2), run, State([b, a], {a, b}, {a, b}, [Missed(Some(a)), Moved(Some(b), b)]))
  {
    hide Leads;
    var s := Fresh(a, b, 2);
    var s1 := State([b, a], {a}, {a}, [Holding(a), Outside]);
    var s2 := State([a, b], {a, b}, {a, b}, [Holding(a), Holding(b)]);
    var s3 := State([a, b], {a, b}, {a, b}, [Scanning(Some(a), b), Holding(b)]);
    var s4 := State([a, b], {a, b}, {a, b}, [Scanning(Some(a), b), Found(Some(b), b)]);
    var s5 := State([b, a], {a, b}, {a, b}, [Scanning(Some(a), b), Moved(Some(b), b)]);
    var s6 := State([b, a], {a, b}, {a, b}, [Missed(Some(a)), Moved(Some(b), b)]);
    ObtainLeads(s, 0, a, b);
    assert State([b, a], s.busy + {a}, s.named + {a}, s.threads[0 := Holding(a)]) == s1;
    ObtainLeads(s1, 1, b, a);
    assert State([a, b], s1.busy + {b}, s1.named + {b}, s1.threads[1 := Holding(b)]) == s2;
    BeginLeads(s2, 0, a, b);
    assert s2.(threads := s2.threads[0 := Scanning(Some(a), b)]) == s3;
    FindLeads(s3, 1, b, a);
    assert s3.(threads := s3.threads[1 := Found(Some(b), b)]) == s4;
    FrontLeads(s4, 1, b, a);
    assert State([b, a], s4.busy, s4.named, s4.threads[1 := Moved(Some(b), b)]) == s5;
    MissLeads(s5, 0, a, b);
    assert s5.(threads := s5.threads[0 := Missed(Some(a))]) == s6;
    LeadsOn(s, Obtains(0), s1, Obtains(1), s2);
    LeadsOn(s, Obtains(0) + Obtains(1), s2, [Act(0, Begin)], s3);
    var run := Obtains(0) + Obtains(1) + [Act(0, Begin)];
    LeadsOn(s, run, s3, Finds(1), s4);
    LeadsOn(s, run + Finds(1), s4, [Act(1, Front)], s5);
    LeadsOn(s, run + Finds(1) + [Act(1, Front)], s5, [Act(0, Back)], s6);
  }
}

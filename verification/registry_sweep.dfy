/**
 * The delivery loop on a chain in which some processes are dead: a failed kill removes the entry, and num advances
 * all the same (emi_core.c).
 */
module Sweep {
  import opened Common
  import opened Registry

  /** The pids that the loop signals from num on; kills fail for the pids in dead. */
  function Swept(chain: seq<Entry>, msg: bv32, dead: set<int>, num: nat): seq<int>
    decreases |chain| - num
  {
    var k := FirstFrom(chain, msg, num);
    if k < 0 then []
    else if chain[k].pid in dead then Swept(Without(chain, k), msg, dead, num + 1)
    else [chain[k].pid] + Swept(chain, msg, dead, num + 1)
  }

  /** How the loop goes on from its next hit. */
  lemma SweptAt(chain: seq<Entry>, msg: bv32, dead: set<int>, num: nat)
    ensures var k := FirstFrom(chain, msg, num);
            && (k < 0 ==> Swept(chain, msg, dead, num) == [])
            && (0 <= k ==>
                  && k < |chain| && chain[k] == Entry(msg, chain[k].pid)
                  && Swept(chain, msg, dead, num) ==
                       if chain[k].pid in dead then Swept(Without(chain, k), msg, dead, num + 1)
                       else [chain[k].pid] + Swept(chain, msg, dead, num + 1))
  {}

  /**
   * Read from left to right, how many places the loop has to spare behind its counter: an entry for another message
   * gives one, a removal costs one, and a live hit leaves none. At -1 the next entry slips through.
   */
  function Slack(before: seq<Entry>, msg: bv32, dead: set<int>, slack: int): (r: int)
    requires -1 <= slack
    ensures -1 <= r
    decreases before
  {
    if before == [] then slack
    else
      var e := before[0];
      var next :=
        if e.msg != msg then slack + 1
        else if slack < 0 || e.pid !in dead then 0
        else slack - 1;
      Slack(before[1..], msg, dead, next)
  }

  /** The loop comes upon the entry at place j: it is for the message, and does not slip through. */
  predicate Meets(chain: seq<Entry>, msg: bv32, dead: set<int>, num: nat, j: nat)
    requires num <= j < |chain|
  {
    chain[j].msg == msg && 0 <= Slack(chain[num..j], msg, dead, 0)
  }

  predicate Reached(chain: seq<Entry>, msg: bv32, dead: set<int>, num: nat, j: nat)
    requires num <= j < |chain|
  {
    Meets(chain, msg, dead, num, j) && chain[j].pid !in dead
  }

  /** Entries for other messages add up. */
  lemma {:induction false} SlackOfOthers(others: seq<Entry>, rest: seq<Entry>, msg: bv32, dead: set<int>, slack: int)
    requires -1 <= slack && forall i | 0 <= i < |others| :: others[i].msg != msg
    ensures Slack(others + rest, msg, dead, slack) == Slack(rest, msg, dead, slack + |others|)
    decreases others
  {
    if others == [] {
      assert others + rest == rest;
    } else {
      assert (others + rest)[1..] == others[1..] + rest;
      SlackOfOthers(others[1..], rest, msg, dead, slack + 1);
    }
  }

  /** Up to the first hit at place k there is one place to spare for each entry passed. */
  lemma SlackBeforeHit(chain: seq<Entry>, msg: bv32, dead: set<int>, num: nat, j: nat)
    requires num <= j < |chain| && j <= FirstFrom(chain, msg, num)
    ensures Slack(chain[num..j], msg, dead, 0) == j - num
  {
    var others := chain[num..j];
    assert others + [] == others;
    SlackOfOthers(others, [], msg, dead, 0);
  }

  lemma SlackPastHit(chain: seq<Entry>, msg: bv32, dead: set<int>, num: nat, j: nat)
    requires num <= j < |chain| && 0 <= FirstFrom(chain, msg, num) < j
    ensures var k := FirstFrom(chain, msg, num);
            Slack(chain[num..j], msg, dead, 0)
            == Slack(chain[k + 1..j], msg, dead, if chain[k].pid in dead then k - num - 1 else 0)
  {
    var k := FirstFrom(chain, msg, num);
    var others, rest := chain[num..k], chain[k..j];
    assert chain[num..j] == others + rest && rest[1..] == chain[k + 1..j];
    SlackOfOthers(others, rest, msg, dead, 0);
  }

  /** A hit on a live process changes nothing for the entries behind it. */
  lemma MetAfterHit(chain: seq<Entry>, msg: bv32, dead: set<int>, num: nat, j: nat)
    requires num < |chain| && 0 <= FirstFrom(chain, msg, num) < j < |chain|
    requires chain[FirstFrom(chain, msg, num)].pid !in dead
    ensures Meets(chain, msg, dead, num, j) <==> Meets(chain, msg, dead, num + 1, j)
  {
    var k := FirstFrom(chain, msg, num);
    SlackPastHit(chain, msg, dead, num, j);
    if num < k {
      SlackPastHit(chain, msg, dead, num + 1, j);
    }
  }

  /** The removal of a dead entry costs the entries behind it one place, and the next one its turn if there is none. */
  lemma MetAfterRemoval(chain: seq<Entry>, msg: bv32, dead: set<int>, num: nat, j: nat)
    requires num < |chain| && 0 <= FirstFrom(chain, msg, num) < j < |chain|
    requires chain[FirstFrom(chain, msg, num)].pid in dead
    ensures Meets(chain, msg, dead, num, j)
       <==> num < j - 1 && Meets(Without(chain, FirstFrom(chain, msg, num)), msg, dead, num + 1, j - 1)
  {
    var k := FirstFrom(chain, msg, num);
    var chain', rest := Without(chain, k), chain[k + 1..j];
    SlackPastHit(chain, msg, dead, num, j);
    if num < k {
      var others := chain[num + 1..k];
      assert chain'[num + 1..j - 1] == others + rest;
      SlackOfOthers(others, rest, msg, dead, 0);
    } else if num + 1 < j {
      assert chain'[num + 1..j - 1] == rest[1..];
    }
  }

  /** Some entry for p is reached. */
  predicate Reaches(chain: seq<Entry>, msg: bv32, dead: set<int>, num: nat, p: int) {
    exists j :: num <= j < |chain| && Reached(chain, msg, dead, num, j) && chain[j].pid == p
  }

  lemma ReachesNothing(chain: seq<Entry>, msg: bv32, dead: set<int>, num: nat, p: int)
    requires FirstFrom(chain, msg, num) < 0
    ensures !Reaches(chain, msg, dead, num, p)
  {
    hide Slack;
  }

  lemma ReachesLive(chain: seq<Entry>, msg: bv32, dead: set<int>, num: nat, p: int)
    requires 0 <= FirstFrom(chain, msg, num) && chain[FirstFrom(chain, msg, num)].pid !in dead
    ensures var q := chain[FirstFrom(chain, msg, num)].pid;
            Reaches(chain, msg, dead, num, p) <==> p == q || Reaches(chain, msg, dead, num + 1, p)
  {
    hide Slack;
    var k := FirstFrom(chain, msg, num);
    SlackBeforeHit(chain, msg, dead, num, k);
    assert Reached(chain, msg, dead, num, k);
    forall j | k < j < |chain|
      ensures Reached(chain, msg, dead, num, j) <==> Reached(chain, msg, dead, num + 1, j)
    {
      MetAfterHit(chain, msg, dead, num, j);
    }
  }

  lemma ReachesPastDead(chain: seq<Entry>, msg: bv32, dead: set<int>, num: nat, p: int)
    requires 0 <= FirstFrom(chain, msg, num) && chain[FirstFrom(chain, msg, num)].pid in dead
    ensures Reaches(chain, msg, dead, num, p)
       <==> Reaches(Without(chain, FirstFrom(chain, msg, num)), msg, dead, num + 1, p)
  {
    hide Slack;
    var k := FirstFrom(chain, msg, num);
    var chain' := Without(chain, k);
    forall j | k < j < |chain|
      ensures Reached(chain, msg, dead, num, j) <==> num < j - 1 && Reached(chain', msg, dead, num + 1, j - 1)
    {
      MetAfterRemoval(chain, msg, dead, num, j);
    }
    if j :| num <= j < |chain| && Reached(chain, msg, dead, num, j) && chain[j].pid == p {
      assert chain'[j - 1] == chain[j] && Reached(chain', msg, dead, num + 1, j - 1);
    }
    if j :| num + 1 <= j < |chain'| && Reached(chain', msg, dead, num + 1, j) && chain'[j].pid == p {
      BehindHit(chain, msg, num, j);
      assert Reached(chain, msg, dead, num, j + 1);
    }
  }

  /** The loop signals exactly the entries that one pass from left to right finds with slack. */
  lemma {:induction false} SweptExactly(chain: seq<Entry>, msg: bv32, dead: set<int>, num: nat, p: int)
    ensures p in Swept(chain, msg, dead, num) <==> Reaches(chain, msg, dead, num, p)
    decreases |chain| - num
  {
    SweptAt(chain, msg, dead, num);
    hide Swept, Reaches;
    var k := FirstFrom(chain, msg, num);
    if k < 0 {
      ReachesNothing(chain, msg, dead, num, p);
    } else if chain[k].pid in dead {
      SweptExactly(Without(chain, k), msg, dead, num + 1, p);
      ReachesPastDead(chain, msg, dead, num, p);
    } else {
      SweptExactly(chain, msg, dead, num + 1, p);
      ReachesLive(chain, msg, dead, num, p);
    }
  }

  /** What is for the message in the chain without its first hit stood behind that hit. */
  lemma BehindHit(chain: seq<Entry>, msg: bv32, num: nat, j: nat)
    requires 0 <= FirstFrom(chain, msg, num) && num <= j < |chain| - 1
    requires Without(chain, FirstFrom(chain, msg, num))[j].msg == msg
    ensures FirstFrom(chain, msg, num) <= j && Without(chain, FirstFrom(chain, msg, num))[j] == chain[j + 1]
  {}

  /** A live registration gets the message if and only if there is slack at its place. */
  lemma SignalledIffSlack(chain: seq<Entry>, msg: bv32, dead: set<int>, j: nat)
    requires NoDuplicates(chain) && j < |chain| && chain[j].msg == msg && chain[j].pid !in dead
    ensures chain[j].pid in Swept(chain, msg, dead, 0) <==> 0 <= Slack(chain[..j], msg, dead, 0)
  {
    hide Slack, Swept;
    SweptExactly(chain, msg, dead, 0, chain[j].pid);
    assert chain[0..j] == chain[..j];
    forall i | 0 <= i < |chain| && chain[i].msg == msg && chain[i].pid == chain[j].pid
      ensures i == j
    {
      assert chain[i] == chain[j];
    }
  }

  // ----- What the loop leaves of the chain

  function Survivors(chain: seq<Entry>, msg: bv32, dead: set<int>, num: nat): seq<Entry>
    decreases |chain| - num
  {
    var k := FirstFrom(chain, msg, num);
    if k < 0 then chain
    else if chain[k].pid in dead then Survivors(Without(chain, k), msg, dead, num + 1)
    else Survivors(chain, msg, dead, num + 1)
  }

  lemma SurvivorsAt(chain: seq<Entry>, msg: bv32, dead: set<int>, num: nat)
    ensures var k := FirstFrom(chain, msg, num);
            && (k < 0 ==> Survivors(chain, msg, dead, num) == chain)
            && (0 <= k ==>
                  Survivors(chain, msg, dead, num)
                  == Survivors(if chain[k].pid in dead then Without(chain, k) else chain, msg, dead, num + 1))
  {}

  /** The loop comes upon e, and e is dead. */
  predicate Removes(chain: seq<Entry>, msg: bv32, dead: set<int>, num: nat, e: Entry) {
    e.pid in dead && exists j :: num <= j < |chain| && Meets(chain, msg, dead, num, j) && chain[j] == e
  }

  lemma RemovesNothing(chain: seq<Entry>, msg: bv32, dead: set<int>, num: nat, e: Entry)
    requires FirstFrom(chain, msg, num) < 0
    ensures !Removes(chain, msg, dead, num, e)
  {
    hide Slack;
  }

  lemma RemovesPastLive(chain: seq<Entry>, msg: bv32, dead: set<int>, num: nat, e: Entry)
    requires 0 <= FirstFrom(chain, msg, num) && chain[FirstFrom(chain, msg, num)].pid !in dead
    ensures Removes(chain, msg, dead, num, e) <==> Removes(chain, msg, dead, num + 1, e)
  {
    hide Slack;
    var k := FirstFrom(chain, msg, num);
    forall j | k < j < |chain|
      ensures Meets(chain, msg, dead, num, j) <==> Meets(chain, msg, dead, num + 1, j)
    {
      MetAfterHit(chain, msg, dead, num, j);
    }
  }

  lemma RemovesPastDead(chain: seq<Entry>, msg: bv32, dead: set<int>, num: nat, e: Entry)
    requires 0 <= FirstFrom(chain, msg, num) && chain[FirstFrom(chain, msg, num)].pid in dead
    ensures Removes(chain, msg, dead, num, e)
       <==> e == chain[FirstFrom(chain, msg, num)]
            || Removes(Without(chain, FirstFrom(chain, msg, num)), msg, dead, num + 1, e)
  {
    var k := FirstFrom(chain, msg, num);
    var chain' := Without(chain, k);
    SlackBeforeHit(chain, msg, dead, num, k);
    assert Meets(chain, msg, dead, num, k);
    hide Slack;
    forall j | k < j < |chain|
      ensures Meets(chain, msg, dead, num, j) <==> num < j - 1 && Meets(chain', msg, dead, num + 1, j - 1)
    {
      MetAfterRemoval(chain, msg, dead, num, j);
    }
    if j :| num <= j < |chain| && Meets(chain, msg, dead, num, j) && chain[j] == e && e != chain[k] {
      assert k < j && chain'[j - 1] == chain[j] && Meets(chain', msg, dead, num + 1, j - 1);
    }
    if j :| num + 1 <= j < |chain'| && Meets(chain', msg, dead, num + 1, j) && chain'[j] == e {
      BehindHit(chain, msg, num, j);
      assert Meets(chain, msg, dead, num, j + 1);
    }
  }

  /** The loop removes exactly the dead entries that it comes upon. */
  lemma {:induction false} SurvivorsExactly(chain: seq<Entry>, msg: bv32, dead: set<int>, num: nat, e: Entry)
    requires NoDuplicates(chain)
    ensures e in Survivors(chain, msg, dead, num) <==> e in chain && !Removes(chain, msg, dead, num, e)
    decreases |chain| - num
  {
    SurvivorsAt(chain, msg, dead, num);
    hide Survivors, Removes, NoDuplicates, Without;
    var k := FirstFrom(chain, msg, num);
    if k < 0 {
      RemovesNothing(chain, msg, dead, num, e);
    } else if chain[k].pid in dead {
      RemovedMembers(chain, k);
      SurvivorsExactly(Without(chain, k), msg, dead, num + 1, e);
      RemovesPastDead(chain, msg, dead, num, e);
    } else {
      SurvivorsExactly(chain, msg, dead, num + 1, e);
      RemovesPastLive(chain, msg, dead, num, e);
    }
  }

  /** A registration is removed if and only if it is one for the message, its process is dead, and there is slack. */
  lemma RemovedIffSlack(chain: seq<Entry>, msg: bv32, dead: set<int>, j: nat)
    requires NoDuplicates(chain) && j < |chain|
    ensures chain[j] !in Survivors(chain, msg, dead, 0)
       <==> chain[j].msg == msg && chain[j].pid in dead && 0 <= Slack(chain[..j], msg, dead, 0)
  {
    SurvivorsExactly(chain, msg, dead, 0, chain[j]);
    assert chain[0..j] == chain[..j];
    hide Slack, Survivors;
  }

  // ----- The loop on a table

  /** The loop has come to num, signalled pids, and changed the table from was to t. */
  ghost predicate Sweeping(was: Table, t: Table, msg: bv32, dead: set<int>, num: nat, pids: seq<int>) {
    && InTable(was, msg) && |t| == |was|
    && t == was[Hash(msg) := t[Hash(msg)]]
    && pids + Swept(t[Hash(msg)], msg, dead, num) == Swept(was[Hash(msg)], msg, dead, 0)
    && Survivors(t[Hash(msg)], msg, dead, num) == Survivors(was[Hash(msg)], msg, dead, 0)
  }

  lemma SweepBegins(t: Table, msg: bv32, dead: set<int>)
    requires InTable(t, msg)
    ensures Sweeping(t, t, msg, dead, 0, [])
  {}

  lemma SweepEnds(was: Table, t: Table, msg: bv32, dead: set<int>, num: nat, pids: seq<int>)
    requires Sweeping(was, t, msg, dead, num, pids) && InTable(t, msg) && FirstFrom(t[Hash(msg)], msg, num) < 0
    ensures InTable(was, msg) && pids == Swept(was[Hash(msg)], msg, dead, 0)
    ensures t == was[Hash(msg) := Survivors(was[Hash(msg)], msg, dead, 0)]
  {
    SweptAt(t[Hash(msg)], msg, dead, num);
    SurvivorsAt(t[Hash(msg)], msg, dead, num);
    hide Swept, Survivors, Hash, FirstFrom;
  }

  /** A turn with a hit. */
  lemma SweepGoesOn(was: Table, t: Table, msg: bv32, dead: set<int>, num: nat, pids: seq<int>)
    requires Sweeping(was, t, msg, dead, num, pids) && InTable(t, msg) && NoDuplicates(t[Hash(msg)])
    requires 0 <= FirstFrom(t[Hash(msg)], msg, num)
    ensures var k := FirstFrom(t[Hash(msg)], msg, num);
            var pid := t[Hash(msg)][k].pid;
            && num < |t[Hash(msg)]|
            && if pid in dead
               then var t' := Delete(t, Entry(msg, pid)).0;
                    |t'| == |t| && |t'[Hash(msg)]| == |t[Hash(msg)]| - 1 && Sweeping(was, t', msg, dead, num + 1, pids)
               else Sweeping(was, t, msg, dead, num + 1, pids + [pid])
  {
    var h, k := Hash(msg), FirstFrom(t[Hash(msg)], msg, num);
    SweptAt(t[h], msg, dead, num);
    SurvivorsAt(t[h], msg, dead, num);
    hide Swept, Survivors, Hash, FirstFrom, Delete, NoDuplicates, Without;
    if t[h][k].pid in dead {
      DeleteFound(t, Entry(msg, t[h][k].pid), k);
      assert was[h := t[h]][h := Without(t[h], k)] == was[h := Without(t[h], k)];
    } else {
      assert pids + ([t[h][k].pid] + Swept(t[h], msg, dead, num + 1))
          == pids + [t[h][k].pid] + Swept(t[h], msg, dead, num + 1);
    }
  }

  // ----- Buckets that serve one message

  /** How many dead entries stand directly before place j. */
  function DeadRun(chain: seq<Entry>, dead: set<int>, j: nat): nat
    requires j <= |chain|
  {
    if j == 0 || chain[j - 1].pid !in dead then 0 else 1 + DeadRun(chain, dead, j - 1)
  }

  lemma {:induction false} SlackAppend(before: seq<Entry>, e: Entry, msg: bv32, dead: set<int>, slack: int)
    requires -1 <= slack
    ensures Slack(before + [e], msg, dead, slack) == Slack([e], msg, dead, Slack(before, msg, dead, slack))
    decreases before
  {
    if before == [] {
      assert before + [e] == [e];
    } else {
      assert (before + [e])[1..] == before[1..] + [e];
      var first := before[0];
      var next :=
        if first.msg != msg then slack + 1
        else if slack < 0 || first.pid !in dead then 0
        else slack - 1;
      SlackAppend(before[1..], e, msg, dead, next);
    }
  }

  lemma {:induction false} SlackIsParity(chain: seq<Entry>, msg: bv32, dead: set<int>, j: nat)
    requires j <= |chain| && forall i | 0 <= i < j :: chain[i].msg == msg
    ensures Slack(chain[..j], msg, dead, 0) == -(DeadRun(chain, dead, j) % 2)
    decreases j
  {
    if 0 < j {
      SlackIsParity(chain, msg, dead, j - 1);
      assert chain[..j] == chain[..j - 1] + [chain[j - 1]];
      SlackAppend(chain[..j - 1], chain[j - 1], msg, dead, 0);
      assert [chain[j - 1]][1..] == [];
    }
  }

  /** In a bucket of one message, an even number of dead entries directly before it. */
  lemma SignalledIffEven(chain: seq<Entry>, msg: bv32, dead: set<int>, j: nat)
    requires NoDuplicates(chain) && (forall i | 0 <= i < |chain| :: chain[i].msg == msg)
    requires j < |chain| && chain[j].pid !in dead
    ensures chain[j].pid in Swept(chain, msg, dead, 0) <==> DeadRun(chain, dead, j) % 2 == 0
  {
    SignalledIffSlack(chain, msg, dead, j);
    SlackIsParity(chain, msg, dead, j);
  }

  /** A live process behind a dead one loses the message. */
  lemma LiveBehindDead(msg: bv32, p: int, q: int)
    requires p != q
    ensures Swept([Entry(msg, p), Entry(msg, q)], msg, {p}, 0) == []
  {
    var chain := [Entry(msg, p), Entry(msg, q)];
    assert FirstFrom(chain, msg, 0) == 0 && Without(chain, 0) == [Entry(msg, q)];
    assert FirstFrom([Entry(msg, q)], msg, 1) == -1;
  }

  // ----- Without dead processes

  /** The pids of the hits from num on. */
  function HitPids(chain: seq<Entry>, msg: bv32, num: nat): (pids: seq<int>)
    ensures |pids| == |Hits(chain, msg, num)|
    ensures forall i | 0 <= i < |pids| :: pids[i] == chain[Hits(chain, msg, num)[i]].pid
  {
    var hits := Hits(chain, msg, num);
    seq(|hits|, i requires 0 <= i < |hits| => chain[hits[i]].pid)
  }

  /** If no registration for the message is dead, the loop signals its hits. */
  lemma {:induction false} SweptAlive(chain: seq<Entry>, msg: bv32, dead: set<int>, num: nat)
    requires forall i | 0 <= i < |chain| && chain[i].msg == msg :: chain[i].pid !in dead
    ensures Swept(chain, msg, dead, num) == HitPids(chain, msg, num)
    decreases |chain| - num
  {
    SweptAt(chain, msg, dead, num);
    HitPidsAt(chain, msg, num);
    hide Swept, HitPids, Hits, FirstFrom;
    if 0 <= FirstFrom(chain, msg, num) {
      SweptAlive(chain, msg, dead, num + 1);
    }
  }

  lemma HitPidsAt(chain: seq<Entry>, msg: bv32, num: nat)
    ensures var k := FirstFrom(chain, msg, num);
            HitPids(chain, msg, num) == if k < 0 then [] else [chain[k].pid] + HitPids(chain, msg, num + 1)
  {
    hide FirstFrom;
  }
}

/** The chained hash table of include/msg_table.h on the heap, refining the table of Registry. */
module MsgTable {
  import opened Common
  import opened Registry
  import opened Sweep

  /** struct msg_map. */
  class MsgMap {
    const msg: bv32
    const pid: int
    var next: MsgMap?

    constructor (msg: bv32, pid: int, next: MsgMap?)
      ensures this.msg == msg && this.pid == pid && this.next == next
    {
      this.msg, this.pid, this.next := msg, pid, next;
    }
  }

  /** The nodes of s, in order, hang off first and end in null. */
  ghost predicate Chain(first: MsgMap?, s: seq<MsgMap>)
    reads s
  {
    && first == (if s == [] then null else s[0])
    && (forall i {:trigger s[i].next} | 0 <= i < |s| :: s[i].next == if i + 1 < |s| then s[i + 1] else null)
  }

  ghost predicate Represents(s: seq<MsgMap>, entries: seq<Entry>) {
    |s| == |entries| && forall i | 0 <= i < |s| :: entries[i] == Entry(s[i].msg, s[i].pid)
  }

  lemma ChainCons(n: MsgMap, s: seq<MsgMap>)
    requires Chain(n.next, s)
    ensures Chain(n, [n] + s)
  {
    var t := [n] + s;
    forall i | 0 <= i < |t|
      ensures t[i].next == if i + 1 < |t| then t[i + 1] else null
    {
      if 0 < i {
        assert t[i] == s[i - 1];
      }
    }
  }

  lemma ChainTail(first: MsgMap?, s: seq<MsgMap>)
    requires Chain(first, s) && s != []
    ensures Chain(s[0].next, s[1..])
  {
    assert s[0].next == if 1 < |s| then s[1] else null;
    forall i | 0 <= i < |s| - 1
      ensures s[1..][i].next == if i + 1 < |s| - 1 then s[1..][i + 1] else null
    {
      assert s[1..][i] == s[i + 1];
    }
  }

  lemma RepresentsWithout(s: seq<MsgMap>, entries: seq<Entry>, k: nat)
    requires Represents(s, entries) && k < |s|
    ensures Represents(Without(s, k), Without(entries, k))
  {}

  ghost function NodesOf(chains: seq<seq<MsgMap>>): set<MsgMap> {
    set h, i | 0 <= h < |chains| && 0 <= i < |chains[h]| :: chains[h][i]
  }

  lemma NodesWithout(chains: seq<seq<MsgMap>>, h: nat, k: nat)
    requires h < |chains| && k < |chains[h]|
    ensures NodesOf(chains[h := Without(chains[h], k)]) <= NodesOf(chains)
  {}

  class MsgTable {
    const buckets: array<MsgMap?>
    ghost var chains: seq<seq<MsgMap>>
    ghost var table: Table

    ghost function Nodes(): set<MsgMap>
      reads this
    {
      NodesOf(chains)
    }

    ghost predicate Valid()
      reads this, buckets, Nodes()
    {
      && |chains| == |table| == buckets.Length
      && WellFormed(table)
      && (forall h | 0 <= h < |chains| :: Represents(chains[h], table[h]))
      && (forall h | 0 <= h < |chains| :: Chain(buckets[h], chains[h]))
    }

    /** init_msg_table. */
    constructor ()
      ensures Valid() && fresh(buckets) && chains == seq(EMI_MAX_MSG, _ => [])
      ensures table == Empty()
    {
      buckets := new MsgMap?[EMI_MAX_MSG](_ => null);
      chains := seq(EMI_MAX_MSG, _ => []);
      table := Empty();
    }

    /** The scan of emi_hinsert. */
    method Contains(e: Entry) returns (found: bool)
      requires Valid() && InTable(table, e.msg)
      ensures found <==> e in table[Hash(e.msg)]
    {
      hide Hash, WellFormed;
      var h := Hash(e.msg);
      ghost var s, k := chains[h], 0;
      assert Chain(buckets[h], s) && Represents(s, table[h]);
      var tmp := buckets[h];
      while tmp != null
        invariant 0 <= k <= |s| && tmp == (if k < |s| then s[k] else null)
        invariant forall i | 0 <= i < k :: table[h][i] != e
        invariant Chain(buckets[h], s)
        decreases |s| - k
      {
        if tmp.msg == e.msg && tmp.pid == e.pid {
          assert table[h][k] == e;
          return true;
        }
        assert s[k].next == if k + 1 < |s| then s[k + 1] else null;
        tmp := tmp.next;
        k := k + 1;
      }
      return false;
    }

    /** A node occurs once: its message gives the bucket, its pair the place. */
    lemma NodesDistinct(h: nat, i: nat, h': nat, i': nat)
      requires Valid() && h < |chains| && h' < |chains| && i < |chains[h]| && i' < |chains[h']|
      ensures chains[h][i] == chains[h'][i'] ==> h == h' && i == i'
    {
      hide Hash;
      assert Represents(chains[h], table[h]) && Represents(chains[h'], table[h']);
      assert table[h][i] == Entry(chains[h][i].msg, chains[h][i].pid);
      assert table[h'][i'] == Entry(chains[h'][i'].msg, chains[h'][i'].pid);
      assert NoDuplicates(table[h]);
    }

    /** Changing one chain keeps the others. */
    twostate lemma OtherChains(h: nat)
      requires old(Valid()) && h < |old(chains)|
      requires |chains| == |table| == buckets.Length
      requires forall g | 0 <= g < |chains| && g != h ::
                 chains[g] == old(chains[g]) && table[g] == old(table[g]) && buckets[g] == old(buckets[g])
      requires forall g, i | 0 <= g < |chains| && g != h && 0 <= i < |chains[g]| :: unchanged(chains[g][i])
      ensures forall g | 0 <= g < |chains| && g != h :: Chain(buckets[g], chains[g]) && Represents(chains[g], table[g])
    {
      hide Hash, WellFormed;
      forall g | 0 <= g < |chains| && g != h
        ensures Chain(buckets[g], chains[g]) && Represents(chains[g], table[g])
      {
        assert old(Chain(buckets[g], chains[g])) && Represents(old(chains[g]), old(table[g]));
        forall i | 0 <= i < |chains[g]|
          ensures chains[g][i].next == old(chains[g][i].next)
        {
          assert unchanged(chains[g][i]);
        }
      }
    }

    /** emi_hinsert; memory says whether malloc succeeds. */
    method Insert(msg: bv32, pid: int, memory: bool) returns (ret: int)
      requires Valid() && InTable(table, msg)
      modifies this, buckets
      ensures Valid() && (table, ret) == Registry.Insert(old(table), Entry(msg, pid), memory)
    {
      hide Hash, WellFormed;
      var e := Entry(msg, pid);
      var found := Contains(e);
      if found {
        return 1;
      }
      if !memory {
        return -1;
      }
      InsertRefines(table, e, memory);
      var h := Hash(msg);
      assert Chain(buckets[h], chains[h]) && Represents(chains[h], table[h]);
      var insert := new MsgMap(msg, pid, buckets[h]);
      ChainCons(insert, chains[h]);
      buckets[h] := insert;
      chains := chains[h := [insert] + chains[h]];
      table := table[h := [e] + table[h]];
      assert Represents(chains[h], table[h]);
      OtherChains(h);
      return 0;
    }

    /** Unlinking node k of chain h, from the bucket or from the node before it. */
    method Splice(h: nat, tmp: MsgMap?, deleted: MsgMap, ghost k: nat)
      requires Valid() && h < |chains| && k < |chains[h]| && deleted == chains[h][k]
      requires tmp == if k == 0 then null else chains[h][k - 1]
      modifies buckets, Nodes()
      ensures Chain(buckets[h], Without(chains[h], k))
      ensures forall g | 0 <= g < |chains| && g != h :: buckets[g] == old(buckets[g])
      ensures forall g, i | 0 <= g < |chains| && g != h && 0 <= i < |chains[g]| :: unchanged(chains[g][i])
    {
      hide Hash, WellFormed;
      ghost var s := chains[h];
      assert Chain(buckets[h], s);
      ghost var t := Without(s, k);
      if tmp == null {
        ChainTail(buckets[h], s);
        assert t == s[1..];
        buckets[h] := deleted.next;
      } else {
        forall i | 0 <= i < |s| && i != k - 1
          ensures s[i] != s[k - 1]
        {
          NodesDistinct(h, i, h, k - 1);
        }
        forall g, i | 0 <= g < |chains| && g != h && 0 <= i < |chains[g]|
          ensures chains[g][i] != s[k - 1]
        {
          NodesDistinct(g, i, h, k - 1);
        }
        assert s[k].next == if k + 1 < |s| then s[k + 1] else null;
        tmp.next := deleted.next;
        forall i | 0 <= i < |t|
          ensures t[i].next == if i + 1 < |t| then t[i + 1] else null
        {
          ghost var j := if i < k then i else i + 1;
          assert t[i] == s[j];
          assert old(s[j].next) == if j + 1 < |s| then s[j + 1] else null;
        }
      }
    }

    method Unlink(h: nat, tmp: MsgMap?, deleted: MsgMap, ghost k: nat, ghost e: Entry)
      requires Valid() && h < |chains| && k < |chains[h]| && deleted == chains[h][k]
      requires h == Hash(e.msg) && table[h][k] == e && forall i | 0 <= i < k :: table[h][i] != e
      requires tmp == if k == 0 then null else chains[h][k - 1]
      modifies this, buckets, Nodes()
      ensures Valid() && (table, 0) == Registry.Delete(old(table), e)
      ensures Nodes() <= old(Nodes())
    {
      hide Hash;
      assert Represents(chains[h], table[h]) && NoDuplicates(table[h]);
      hide WellFormed, Registry.Delete, Without, NoDuplicates;
      DeleteFound(table, e, k);
      DeleteRefines(table, e);
      RepresentsWithout(chains[h], table[h], k);
      hide Represents;
      Splice(h, tmp, deleted, k);
      NodesWithout(chains, h, k);
      chains := chains[h := Without(chains[h], k)];
      table := table[h := Without(table[h], k)];
      OtherChains(h);
    }

    /** emi_hdelete; the freed node is dropped. */
    method Delete(msg: bv32, pid: int) returns (ret: int)
      requires Valid() && InTable(table, msg)
      modifies this, buckets, Nodes()
      ensures Valid() && (table, ret) == Registry.Delete(old(table), Entry(msg, pid))
      ensures Nodes() <= old(Nodes())
    {
      hide Hash, WellFormed;
      ghost var e := Entry(msg, pid);
      var h := Hash(msg);
      ghost var s, k := chains[h], 0;
      assert Chain(buckets[h], s) && Represents(s, table[h]);
      var deleted := buckets[h];
      var tmp: MsgMap? := null;
      if deleted != null && deleted.msg == msg && deleted.pid == pid {
        assert table[h][0] == e;
        Unlink(h, null, deleted, 0, e);
        return 0;
      }
      while deleted != null
        invariant 0 <= k <= |s| && deleted == (if k < |s| then s[k] else null)
        invariant Chain(buckets[h], s)
        invariant forall i | 0 <= i <= k && i < |s| :: table[h][i] != e
        modifies {}
        decreases |s| - k
      {
        tmp := deleted;
        assert s[k].next == if k + 1 < |s| then s[k + 1] else null;
        deleted := deleted.next;
        k := k + 1;
        if deleted != null && deleted.msg == msg && deleted.pid == pid {
          break;
        }
      }
      if deleted != null {
        assert table[h][k] == e;
        Unlink(h, tmp, deleted, k, e);
        return 0;
      }
      return -1;
    }

    /** __emi_hsearch: skips num nodes, then stops at the first one for the message; it writes num on a hit. */
    method Search(msg: bv32, num: nat) returns (m: MsgMap?, num': nat, ghost k: int)
      requires Valid() && InTable(table, msg)
      ensures k == FirstFrom(table[Hash(msg)], msg, num) && num' == num
      ensures m == if 0 <= k < |chains[Hash(msg)]| then chains[Hash(msg)][k] else null
      ensures if 0 <= k then m != null && Entry(m.msg, m.pid) == table[Hash(msg)][k] else m == null
    {
      hide Hash, WellFormed;
      var h := Hash(msg);
      ghost var s := chains[h];
      assert Chain(buckets[h], s) && Represents(s, table[h]);
      num' := num;
      k := 0;
      var i, tmp := 0, buckets[h];
      while i < num && tmp != null
        invariant i <= num && k == i <= |s| && tmp == (if k < |s| then s[k] else null)
        invariant Chain(buckets[h], s)
        decreases |s| - k
      {
        assert s[k].next == if k + 1 < |s| then s[k + 1] else null;
        i := i + 1;
        tmp := tmp.next;
        k := k + 1;
      }
      while tmp != null
        invariant i <= k <= |s| && tmp == (if k < |s| then s[k] else null) && (tmp != null ==> i == num)
        invariant Chain(buckets[h], s)
        invariant FirstFrom(table[h], msg, num) == FirstFrom(table[h], msg, if num < k then k else num)
        decreases |s| - k
      {
        if tmp.msg == msg {
          num' := i;
          return tmp, num', k;
        }
        assert s[k].next == if k + 1 < |s| then s[k + 1] else null;
        tmp := tmp.next;
        k := k + 1;
      }
      return null, num, -1;
    }

    /** The loop of emi_core.c that searches with num = 0, 1, ... until nothing is found: the pids it signals. */
    method SearchAll(msg: bv32) returns (pids: seq<int>)
      requires Valid() && InTable(table, msg)
      ensures var chain := table[Hash(msg)];
              && |pids| == |Hits(chain, msg, 0)|
              && forall i | 0 <= i < |pids| :: pids[i] == chain[Hits(chain, msg, 0)[i]].pid
    {
      hide Hash, WellFormed, Hits, FirstFrom;
      ghost var h, chain := Hash(msg), table[Hash(msg)];
      assert Represents(chains[h], chain);
      pids := [];
      var num := 0;
      while true
        invariant |pids| == num <= |chain|
        invariant forall i | 0 <= i < num ::
                    FirstFrom(chain, msg, i) >= 0 && pids[i] == chain[FirstFrom(chain, msg, i)].pid
        decreases |chain| - num
      {
        var m, n, k := Search(msg, num);
        if m == null {
          break;
        }
        num := n;
        pids := pids + [m.pid];
        num := num + 1;
      }
      HitsUntilMiss(chain, msg, num);
    }

    /**
     * The same loop where kills fail for the pids in dead: their entries are removed, and num advances all the same.
     */
    method SweepAll(msg: bv32, dead: set<int>) returns (pids: seq<int>)
      requires Valid() && InTable(table, msg)
      modifies this, buckets, Nodes()
      ensures Valid()
      ensures pids == Swept(old(table)[Hash(msg)], msg, dead, 0)
      ensures table == old(table)[Hash(msg) := Survivors(old(table)[Hash(msg)], msg, dead, 0)]
    {
      hide Hash, WellFormed, Swept, Survivors, FirstFrom, Registry.Delete, Sweeping;
      ghost var h, was := Hash(msg), table;
      pids := [];
      var num := 0;
      SweepBegins(table, msg, dead);
      while true
        invariant Valid() && InTable(table, msg) && Nodes() <= old(Nodes())
        invariant Sweeping(was, table, msg, dead, num, pids)
        decreases |table[h]| - num
      {
        var m, n, k := Search(msg, num);
        if m == null {
          SweepEnds(was, table, msg, dead, num, pids);
          break;
        }
        assert NoDuplicates(table[h]) by {
          assert WellFormed(table);
          ChainHasNoDuplicates(table, h);
        }
        SweepGoesOn(was, table, msg, dead, num, pids);
        if m.pid in dead {
          var ret := Delete(msg, m.pid);
        } else {
          pids := pids + [m.pid];
        }
        num := n + 1;
      }
    }
  }
}

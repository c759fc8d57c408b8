/** The registration table as a table of chains: what insert, delete and search do (include/msg_table.h). */
module Registry {
  import opened Common

  /** struct msg_map without its links. */
  datatype Entry = Entry(msg: bv32, pid: int)

  /** The chains, bucket by bucket. */
  type Table = seq<seq<Entry>>

  const EMI_HASH_MASK: bv32 := 0xfff

  /** __emi_hash. */
  function Hash(msg: bv32): nat { (msg & EMI_HASH_MASK) as nat }

  /** The bucket of the message exists. */
  predicate InTable(t: Table, msg: bv32) { Hash(msg) < |t| }

  /** init_msg_table. */
  function Empty(): Table { seq(EMI_MAX_MSG, _ => []) }

  /** The hash has 4096 values and the table 4095 buckets: the messages without a bucket end in 0xfff. */
  lemma BucketExists(msg: bv32)
    ensures Hash(msg) <= EMI_MAX_MSG
    ensures InTable(Empty(), msg) <==> msg & EMI_HASH_MASK != EMI_HASH_MASK
  {}

  /** Two messages share a bucket if and only if their numbers agree in the low twelve bits. */
  lemma SameBucketIff(msg: bv32, msg': bv32)
    ensures Hash(msg) == Hash(msg') <==> msg & 0xfff == msg' & 0xfff
  {
    SameNumber(msg & EMI_HASH_MASK, msg' & EMI_HASH_MASK);
  }

  lemma SameNumber(a: bv32, b: bv32)
    ensures a as nat == b as nat <==> a == b
  {
    if a as nat == b as nat {
      assert (a as nat) as bv32 == a;
      assert (b as nat) as bv32 == b;
    }
  }

  /** emi_hinsert: 1 for an entry that is there, -1 without memory, and a new entry goes first in its chain. */
  function Insert(t: Table, e: Entry, memory: bool): (Table, int)
    requires InTable(t, e.msg)
  {
    var h := Hash(e.msg);
    if e in t[h] then (t, 1)
    else if memory then (t[h := [e] + t[h]], 0)
    else (t, -1)
  }

  function IndexOf(chain: seq<Entry>, e: Entry): (k: nat)
    requires e in chain
    ensures k < |chain| && chain[k] == e && e !in chain[..k]
  {
    if chain[0] == e then 0 else 1 + IndexOf(chain[1..], e)
  }

  /** emi_hdelete unlinks the first entry of its chain that has both fields. */
  function Delete(t: Table, e: Entry): (Table, int)
    requires InTable(t, e.msg)
  {
    var h := Hash(e.msg);
    if e in t[h] then (t[h := Without(t[h], IndexOf(t[h], e))], 0) else (t, -1)
  }

  // ----- Refinement of a set of pairs

  ghost predicate NoDuplicates(chain: seq<Entry>) {
    forall i, j | 0 <= i < j < |chain| :: chain[i] != chain[j]
  }

  ghost predicate WellFormed(t: Table) {
    && (forall h | 0 <= h < |t| :: NoDuplicates(t[h]))
    && (forall h, i | 0 <= h < |t| && 0 <= i < |t[h]| :: Hash(t[h][i].msg) == h)
  }

  ghost function Pairs(t: Table): set<Entry> {
    set h, i | 0 <= h < |t| && 0 <= i < |t[h]| :: t[h][i]
  }

  lemma InPairs(t: Table, e: Entry)
    requires WellFormed(t)
    ensures e in Pairs(t) <==> InTable(t, e.msg) && e in t[Hash(e.msg)]
  {}

  /** Insert adds the pair to the set, once; its code says whether it was there. */
  lemma InsertRefines(t: Table, e: Entry, memory: bool)
    requires WellFormed(t) && InTable(t, e.msg)
    ensures var (t', ret) := Insert(t, e, memory);
            && |t'| == |t| && WellFormed(t')
            && (ret == 1 <==> e in Pairs(t))
            && (ret == 0 ==> Pairs(t') == Pairs(t) + {e})
            && (ret != 0 ==> t' == t)
            && (memory ==> ret != -1)
  {
    hide Hash;
    InPairs(t, e);
    var (t', ret) := Insert(t, e, memory);
    if ret == 0 {
      var h := Hash(e.msg);
      forall x
        ensures x in Pairs(t') <==> x in Pairs(t) || x == e
      {
        InPairs(t, x);
        InPairs(t', x);
      }
    }
  }

  /** Delete removes the pair from the set; its code says whether it was there. */
  lemma DeleteRefines(t: Table, e: Entry)
    requires WellFormed(t) && InTable(t, e.msg)
    ensures var (t', ret) := Delete(t, e);
            && |t'| == |t| && WellFormed(t')
            && (ret == 0 <==> e in Pairs(t)) && (ret == 0 || ret == -1)
            && Pairs(t') == Pairs(t) - {e}
  {
    hide Hash;
    InPairs(t, e);
    var (t', ret) := Delete(t, e);
    if ret == 0 {
      var h := Hash(e.msg);
      var k := IndexOf(t[h], e);
      RemovedMembers(t[h], k);
      forall x
        ensures x in Pairs(t') <==> x in Pairs(t) && x != e
      {
        InPairs(t, x);
        InPairs(t', x);
      }
    }
  }

  lemma RemovedMembers(chain: seq<Entry>, k: nat)
    requires NoDuplicates(chain) && k < |chain|
    ensures NoDuplicates(Without(chain, k))
    ensures forall x :: x in Without(chain, k) <==> x in chain && x != chain[k]
  {
    var r := Without(chain, k);
    forall x | x in chain && x != chain[k]
      ensures x in r
    {
      var i :| 0 <= i < |chain| && chain[i] == x;
      assert r[if i < k then i else i - 1] == x;
    }
  }

  lemma ChainHasNoDuplicates(t: Table, h: nat)
    requires WellFormed(t) && h < |t|
    ensures NoDuplicates(t[h])
  {}

  /** In a chain without repeats, delete takes the entry from its place. */
  lemma DeleteFound(t: Table, e: Entry, k: nat)
    requires InTable(t, e.msg) && NoDuplicates(t[Hash(e.msg)]) && k < |t[Hash(e.msg)]| && t[Hash(e.msg)][k] == e
    ensures Delete(t, e) == (t[Hash(e.msg) := Without(t[Hash(e.msg)], k)], 0)
    ensures NoDuplicates(Without(t[Hash(e.msg)], k))
  {
    hide Hash;
    assert IndexOf(t[Hash(e.msg)], e) == k;
    RemovedMembers(t[Hash(e.msg)], k);
  }

  // ----- Histories

  datatype Op = InsertOp(e: Entry, memory: bool) | DeleteOp(e: Entry)

  function Apply(t: Table, op: Op): (r: (Table, int))
    requires InTable(t, op.e.msg)
    ensures |r.0| == |t|
  {
    match op
    case InsertOp(e, memory) => Insert(t, e, memory)
    case DeleteOp(e) => Delete(t, e)
  }

  /** The same operation on a plain set of pairs. */
  function ApplySet(s: set<Entry>, op: Op): (set<Entry>, int) {
    match op
    case InsertOp(e, memory) => if e in s then (s, 1) else if memory then (s + {e}, 0) else (s, -1)
    case DeleteOp(e) => if e in s then (s - {e}, 0) else (s, -1)
  }

  ghost predicate AllInTable(t: Table, ops: seq<Op>) {
    forall op | op in ops :: InTable(t, op.e.msg)
  }

  /** The table and the return codes after a history; messages without a bucket are not allowed in it. */
  ghost function Run(t: Table, ops: seq<Op>): (r: (Table, seq<int>))
    requires AllInTable(t, ops)
    decreases ops
  {
    if ops == [] then (t, [])
    else
      assert ops == [ops[0]] + ops[1..];
      var (t', ret) := Apply(t, ops[0]);
      var (t'', rets) := Run(t', ops[1..]);
      (t'', [ret] + rets)
  }

  function RunSet(s: set<Entry>, ops: seq<Op>): (set<Entry>, seq<int>)
    decreases ops
  {
    if ops == [] then (s, [])
    else
      var (s', ret) := ApplySet(s, ops[0]);
      var (s'', rets) := RunSet(s', ops[1..]);
      (s'', [ret] + rets)
  }

  lemma ApplyRefines(t: Table, op: Op)
    requires WellFormed(t) && InTable(t, op.e.msg)
    ensures var (t', ret) := Apply(t, op);
            |t'| == |t| && WellFormed(t') && (Pairs(t'), ret) == ApplySet(Pairs(t), op)
  {
    hide Hash, WellFormed, Pairs, Insert, Delete;
    match op
    case InsertOp(e, memory) =>
      InsertRefines(t, e, memory);
      InsertCodes(t, e, memory);
    case DeleteOp(e) =>
      DeleteRefines(t, e);
      assert e !in Pairs(t) ==> Pairs(t) - {e} == Pairs(t);
  }

  lemma InsertCodes(t: Table, e: Entry, memory: bool)
    requires InTable(t, e.msg)
    ensures Insert(t, e, memory).1 in {0, 1, -1}
    ensures Insert(t, e, memory).1 == 0 ==> memory
  {}

  /**
   * Every history of inserts and deletes gives the pairs and the codes that a set gives; the chains stay well formed.
   */
  lemma {:induction false} RunRefines(t: Table, ops: seq<Op>)
    requires WellFormed(t) && AllInTable(t, ops)
    ensures WellFormed(Run(t, ops).0)
    ensures (Pairs(Run(t, ops).0), Run(t, ops).1) == RunSet(Pairs(t), ops)
    decreases ops
  {
    hide Hash, WellFormed, Pairs, Apply;
    if ops != [] {
      assert ops == [ops[0]] + ops[1..];
      ApplyRefines(t, ops[0]);
      RunRefines(Apply(t, ops[0]).0, ops[1..]);
    }
  }

  // ----- Search, and the loop of emi_core that repeats it

  /** The first entry for the message at place num or later, or -1: where __emi_hsearch stops. */
  function FirstFrom(chain: seq<Entry>, msg: bv32, num: nat): (k: int)
    ensures k == -1 || num <= k < |chain|
    ensures 0 <= k ==> chain[k].msg == msg
    ensures forall i | num <= i < (if k < 0 then |chain| else k) :: chain[i].msg != msg
    decreases |chain| - num
  {
    if |chain| <= num then -1
    else if chain[num].msg == msg then num
    else FirstFrom(chain, msg, num + 1)
  }

  /** The places that the delivery loop reaches from num on: every hit advances num by one only. */
  function Hits(chain: seq<Entry>, msg: bv32, num: nat): (hits: seq<nat>)
    ensures forall i | 0 <= i < |hits| :: hits[i] < |chain|
    decreases |chain| - num
  {
    var k := FirstFrom(chain, msg, num);
    if k < 0 then [] else [k] + Hits(chain, msg, num + 1)
  }

  /** The place of the last entry for the message, or -1. */
  function LastMatch(chain: seq<Entry>, msg: bv32): (k: int)
    ensures -1 <= k < |chain|
    ensures 0 <= k ==> chain[k].msg == msg
    ensures forall i | k < i < |chain| :: chain[i].msg != msg
  {
    if chain == [] then -1
    else if chain[|chain| - 1].msg == msg then |chain| - 1
    else LastMatch(chain[..|chain| - 1], msg)
  }

  /** Hit j of the loop is the first match at place num + j or later, and there are as many as the last match allows. */
  lemma {:induction false} HitsAt(chain: seq<Entry>, msg: bv32, num: nat)
    ensures |Hits(chain, msg, num)| == if LastMatch(chain, msg) < num then 0 else LastMatch(chain, msg) + 1 - num
    ensures forall j | 0 <= j < |Hits(chain, msg, num)| :: Hits(chain, msg, num)[j] == FirstFrom(chain, msg, num + j)
    decreases |chain| - num
  {
    if FirstFrom(chain, msg, num) >= 0 {
      HitsAt(chain, msg, num + 1);
      var rest := Hits(chain, msg, num + 1);
      forall j | 0 <= j < |Hits(chain, msg, num)|
        ensures Hits(chain, msg, num)[j] == FirstFrom(chain, msg, num + j)
      {
        if 0 < j {
          assert rest[j - 1] == FirstFrom(chain, msg, num + 1 + (j - 1));
        }
      }
    }
  }

  /** A loop that hits at 0 to num - 1 and misses at num has gone through Hits. */
  lemma HitsUntilMiss(chain: seq<Entry>, msg: bv32, num: nat)
    requires FirstFrom(chain, msg, num) < 0 && forall i | 0 <= i < num :: 0 <= FirstFrom(chain, msg, i)
    ensures |Hits(chain, msg, 0)| == num
    ensures forall i | 0 <= i < num :: Hits(chain, msg, 0)[i] == FirstFrom(chain, msg, i)
  {
    HitsAt(chain, msg, 0);
    hide Hits;
    assert num > 0 ==> FirstFrom(chain, msg, num - 1) >= 0;
    forall i | 0 <= i < num
      ensures Hits(chain, msg, 0)[i] == FirstFrom(chain, msg, i)
    {
      assert Hits(chain, msg, 0)[i] == FirstFrom(chain, msg, 0 + i);
    }
  }

  lemma HitsMatch(chain: seq<Entry>, msg: bv32, k: nat)
    requires k < |chain|
    ensures k in Hits(chain, msg, 0) <==> chain[k].msg == msg
  {
    var hits := Hits(chain, msg, 0);
    HitsAt(chain, msg, 0);
    forall j | 0 <= j < |hits|
      ensures hits[j] < |chain| && chain[hits[j]].msg == msg
    {
      assert hits[j] == FirstFrom(chain, msg, 0 + j);
    }
    if chain[k].msg == msg {
      assert hits[k] == FirstFrom(chain, msg, 0 + k) == k;
    }
  }

  lemma HitsInOrder(chain: seq<Entry>, msg: bv32, i: nat, j: nat)
    requires i < j < |Hits(chain, msg, 0)|
    ensures Hits(chain, msg, 0)[i] <= Hits(chain, msg, 0)[j]
  {
    HitsAt(chain, msg, 0);
    var hits := Hits(chain, msg, 0);
    assert hits[i] == FirstFrom(chain, msg, 0 + i) && hits[j] == FirstFrom(chain, msg, 0 + j);
  }

  /** Terminates after 1 + (place of the last match) hits, and reaches every registration, in chain order. */
  lemma DeliveryCoverage(chain: seq<Entry>, msg: bv32)
    ensures |Hits(chain, msg, 0)| == LastMatch(chain, msg) + 1
    ensures forall k | 0 <= k < |chain| :: k in Hits(chain, msg, 0) <==> chain[k].msg == msg
    ensures forall i, j | 0 <= i < j < |Hits(chain, msg, 0)| :: Hits(chain, msg, 0)[i] <= Hits(chain, msg, 0)[j]
  {
    HitsAt(chain, msg, 0);
    hide Hits, FirstFrom, LastMatch;
    forall k | 0 <= k < |chain|
      ensures k in Hits(chain, msg, 0) <==> chain[k].msg == msg
    {
      HitsMatch(chain, msg, k);
    }
    forall i, j | 0 <= i < j < |Hits(chain, msg, 0)|
      ensures Hits(chain, msg, 0)[i] <= Hits(chain, msg, 0)[j]
    {
      HitsInOrder(chain, msg, i, j);
    }
  }

  /** Each registration is reached once exactly when nothing else comes before the last match in the bucket. */
  lemma DeliveryOnceIff(chain: seq<Entry>, msg: bv32)
    ensures (forall i, j | 0 <= i < j < |Hits(chain, msg, 0)| :: Hits(chain, msg, 0)[i] != Hits(chain, msg, 0)[j])
       <==> (forall k | 0 <= k <= LastMatch(chain, msg) :: chain[k].msg == msg)
  {
    var hits, last := Hits(chain, msg, 0), LastMatch(chain, msg);
    HitsAt(chain, msg, 0);
    if k :| 0 <= k <= last && chain[k].msg != msg {
      assert hits[k] == FirstFrom(chain, msg, 0 + k) && hits[k + 1] == FirstFrom(chain, msg, 0 + (k + 1));
    } else {
      assert forall k | 0 <= k <= last :: hits[k] == FirstFrom(chain, msg, 0 + k) == k;
    }
  }
}

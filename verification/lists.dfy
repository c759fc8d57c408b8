/** The circular doubly linked list of include/list.h, refining a sequence of nodes. */
module Lists {
  import opened Common

  /** struct list_head, with the structure it is embedded in: what container_of recovers. */
  class ListHead<T> {
    var next: ListHead<T>
    var prev: ListHead<T>
    const container: T

    /** INIT_LIST_HEAD. */
    constructor (container: T)
      ensures next == this && prev == this && this.container == container
      ensures Ring(this, [])
    {
      next := this;
      prev := this;
      this.container := container;
    }
  }

  /** Consecutive nodes of the walk point at each other. */
  ghost predicate Linked<T>(walk: seq<ListHead<T>>)
    reads walk
  {
    && (forall i {:trigger walk[i].next} | 0 <= i < |walk| - 1 :: walk[i].next == walk[i + 1])
    && (forall i {:trigger walk[i].prev} | 0 < i < |walk| :: walk[i].prev == walk[i - 1])
  }

  ghost predicate Distinct<T>(s: seq<ListHead<T>>) {
    forall i, j | 0 <= i < j < |s| :: s[i] != s[j]
  }

  /** The nodes of s, in order, hang off head in a closed ring. */
  ghost predicate Ring<T>(head: ListHead<T>, s: seq<ListHead<T>>)
    reads head, s
  {
    Distinct([head] + s) && Linked([head] + s + [head])
  }

  /** __list_add, where prev and next are neighbours: the nodes at places k and k + 1 of the walk around the ring. */
  method AddBetween<T>(newLst: ListHead<T>, prev: ListHead<T>, next: ListHead<T>,
                       ghost head: ListHead<T>, ghost s: seq<ListHead<T>>, ghost k: nat)
    requires Ring(head, s) && newLst !in [head] + s && k <= |s|
    requires prev == ([head] + s)[k] && next == (s + [head])[k]
    modifies newLst`next, newLst`prev, prev`next, next`prev
    ensures Ring(head, s[..k] + [newLst] + s[k..])
  {
    ghost var walk := [head] + s + [head];
    assert walk[k] == prev && walk[k + 1] == next;
    assert walk[k].next == next;
    next.prev := newLst;
    newLst.next := next;
    newLst.prev := prev;
    prev.next := newLst;
    ghost var s' := s[..k] + [newLst] + s[k..];
    ghost var walk' := [head] + s' + [head];
    InsertedPlaces(head, s, newLst, k);
    forall i {:trigger walk'[i].next} | 0 <= i < |walk'| - 1
      ensures walk'[i].next == walk'[i + 1]
    {
      if i < k {
        assert old(walk[i].next) == walk[i + 1];
      } else if k + 1 < i {
        assert old(walk[i - 1].next) == walk[i];
      }
    }
    forall i {:trigger walk'[i].prev} | 0 < i < |walk'|
      ensures walk'[i].prev == walk'[i - 1]
    {
      if i <= k {
        assert old(walk[i].prev) == walk[i - 1];
      } else if k + 2 < i {
        assert old(walk[i - 1].prev) == walk[i - 2];
      }
    }
  }

  /** Where the nodes of the walk are after an insertion at place k + 1, and that they stay distinct. */
  lemma InsertedPlaces<T>(head: ListHead<T>, s: seq<ListHead<T>>, n: ListHead<T>, k: nat)
    requires Distinct([head] + s) && n !in [head] + s && k <= |s|
    ensures var walk, walk' := [head] + s + [head], [head] + (s[..k] + [n] + s[k..]) + [head];
            forall i | 0 <= i < |walk'| :: walk'[i] == if i <= k then walk[i] else if i == k + 1 then n else walk[i - 1]
    ensures var walk := [head] + s + [head];
            forall i, j | 0 <= i < j < |walk| && !(i == 0 && j == |walk| - 1) :: walk[i] != walk[j]
    ensures n !in [head] + s + [head]
    ensures Distinct([head] + (s[..k] + [n] + s[k..]))
  {
    var walk, walk' := [head] + s + [head], [head] + (s[..k] + [n] + s[k..]) + [head];
    assert walk' == walk[..k + 1] + [n] + walk[k + 1..];
    var r := [head] + s;
    forall i, j | 0 <= i < j < |walk| && !(i == 0 && j == |walk| - 1)
      ensures walk[i] != walk[j]
    {
      assert walk[i] == r[i];
      assert walk[j] == if j == |walk| - 1 then r[0] else r[j];
    }
    var r' := [head] + (s[..k] + [n] + s[k..]);
    assert forall i | 0 <= i < |r'| :: r'[i] == walk'[i];
  }

  /** list_add. */
  method Add<T>(newLst: ListHead<T>, head: ListHead<T>, ghost s: seq<ListHead<T>>)
    requires Ring(head, s) && newLst !in [head] + s
    modifies newLst`next, newLst`prev, head`next, head.next`prev
    ensures Ring(head, [newLst] + s)
  {
    assert ([head] + s + [head])[0].next == (s + [head])[0];
    AddBetween(newLst, head, head.next, head, s, 0);
    assert s[..0] + [newLst] + s[0..] == [newLst] + s;
  }

  /** list_add_tail. */
  method AddTail<T>(newLst: ListHead<T>, head: ListHead<T>, ghost s: seq<ListHead<T>>)
    requires Ring(head, s) && newLst !in [head] + s
    modifies newLst`next, newLst`prev, head`prev, head.prev`next
    ensures Ring(head, s + [newLst])
  {
    assert ([head] + s + [head])[|s| + 1].prev == ([head] + s)[|s|];
    AddBetween(newLst, head.prev, head, head, s, |s|);
    assert s[..|s|] + [newLst] + s[|s|..] == s + [newLst];
  }

  /** list_del, with __list_del in place; the entry keeps its own pointers. */
  method Del<T>(entry: ListHead<T>, ghost head: ListHead<T>, ghost s: seq<ListHead<T>>, ghost k: nat)
    requires Ring(head, s) && k < |s| && entry == s[k]
    modifies entry.prev`next, entry.next`prev
    ensures Ring(head, Without(s, k))
    ensures entry !in [head] + Without(s, k)
  {
    ghost var walk := [head] + s + [head];
    assert walk[k + 1] == entry;
    var prev, next := entry.prev, entry.next;
    assert prev == walk[k] && next == walk[k + 2];
    next.prev := prev;
    prev.next := next;
    ghost var walk' := [head] + Without(s, k) + [head];
    RemovedPlaces(head, s, k);
    forall i {:trigger walk'[i].next} | 0 <= i < |walk'| - 1
      ensures walk'[i].next == walk'[i + 1]
    {
      if i < k {
        assert old(walk[i].next) == walk[i + 1];
      } else if k < i {
        assert old(walk[i + 1].next) == walk[i + 2];
      }
    }
    forall i {:trigger walk'[i].prev} | 0 < i < |walk'|
      ensures walk'[i].prev == walk'[i - 1]
    {
      if i <= k {
        assert old(walk[i].prev) == walk[i - 1];
      } else if k + 1 < i {
        assert old(walk[i + 1].prev) == walk[i];
      }
    }
  }

  lemma RemovedPlaces<T>(head: ListHead<T>, s: seq<ListHead<T>>, k: nat)
    requires Distinct([head] + s) && k < |s|
    ensures var walk, walk' := [head] + s + [head], [head] + Without(s, k) + [head];
            forall i | 0 <= i < |walk'| :: walk'[i] == if i <= k then walk[i] else walk[i + 1]
    ensures var walk := [head] + s + [head];
            forall i, j | 0 <= i < j < |walk| && !(i == 0 && j == |walk| - 1) :: walk[i] != walk[j]
    ensures Distinct([head] + Without(s, k))
    ensures s[k] !in [head] + Without(s, k)
  {
    var walk, walk' := [head] + s + [head], [head] + Without(s, k) + [head];
    assert walk' == walk[..k + 1] + walk[k + 2..];
    var r := [head] + s;
    forall i, j | 0 <= i < j < |walk| && !(i == 0 && j == |walk| - 1)
      ensures walk[i] != walk[j]
    {
      assert walk[i] == r[i];
      assert walk[j] == if j == |walk| - 1 then r[0] else r[j];
    }
    assert walk[k + 1] == s[k];
    var r' := [head] + Without(s, k);
    forall i | 0 <= i < |r'|
      ensures r'[i] == walk'[i] && r'[i] != s[k]
    {}
  }

  ghost function Nodes<T>(head: ListHead<T>, s: seq<ListHead<T>>): set<ListHead<T>> {
    set n | n in [head] + s
  }

  /** In a ring, the neighbours of a node are in the ring. */
  lemma Neighbours<T>(head: ListHead<T>, s: seq<ListHead<T>>, k: nat)
    requires Ring(head, s) && k < |s|
    ensures s[k].next == (s + [head])[k + 1] && s[k].prev == ([head] + s)[k]
    ensures head.next == (s + [head])[0] && head.prev == ([head] + s)[|s|]
  {
    var walk := [head] + s + [head];
    assert walk[k + 1].next == walk[k + 2] && walk[k + 1].prev == walk[k];
    assert walk[0].next == walk[1] && walk[|s| + 1].prev == walk[|s|];
  }

  /** The last node of a ring, or the head of an empty one. */
  lemma TailNeighbour<T>(head: ListHead<T>, s: seq<ListHead<T>>)
    requires Ring(head, s)
    ensures head.prev == ([head] + s)[|s|]
  {
    assert ([head] + s + [head])[|s| + 1].prev == ([head] + s)[|s|];
  }

  /** list_move: the entry becomes the first node; it may be that already, or the only one. */
  method Move<T>(entry: ListHead<T>, head: ListHead<T>, ghost s: seq<ListHead<T>>, ghost k: nat)
    requires Ring(head, s) && k < |s| && entry == s[k]
    modifies Nodes(head, s)`next, Nodes(head, s)`prev
    ensures Ring(head, [entry] + Without(s, k))
  {
    Neighbours(head, s, k);
    Del(entry, head, s, k);
    ghost var s' := Without(s, k);
    assert ([head] + s' + [head])[0].next == (s' + [head])[0];
    Add(entry, head, s');
  }

  /** list_move_tail: the entry becomes the last node. */
  method MoveTail<T>(entry: ListHead<T>, head: ListHead<T>, ghost s: seq<ListHead<T>>, ghost k: nat)
    requires Ring(head, s) && k < |s| && entry == s[k]
    modifies Nodes(head, s)`next, Nodes(head, s)`prev
    ensures Ring(head, Without(s, k) + [entry])
  {
    Neighbours(head, s, k);
    Del(entry, head, s, k);
    ghost var s' := Without(s, k);
    assert ([head] + s' + [head])[|s'| + 1].prev == ([head] + s')[|s'|];
    AddTail(entry, head, s');
  }

  function Reversed<T>(s: seq<ListHead<T>>): (r: seq<ListHead<T>>)
    ensures |r| == |s| && forall i | 0 <= i < |s| :: r[i] == s[|s| - 1 - i]
  {
    seq(|s|, i requires 0 <= i < |s| => s[|s| - 1 - i])
  }

  lemma HeadIsOutside<T>(head: ListHead<T>, s: seq<ListHead<T>>)
    requires Distinct([head] + s)
    ensures head !in s
  {
    var r := [head] + s;
    assert forall i | 0 <= i < |s| :: s[i] == r[i + 1] && r[0] != r[i + 1];
  }

  /** list_for_each visits the nodes in order. */
  method ForEach<T>(head: ListHead<T>, ghost s: seq<ListHead<T>>) returns (visited: seq<ListHead<T>>)
    requires Ring(head, s)
    ensures visited == s
  {
    ghost var walk := [head] + s + [head];
    visited := [];
    var pos := head.next;
    assert walk[0].next == walk[1];
    HeadIsOutside(head, s);
    while pos != head
      invariant |visited| <= |s| && visited == s[..|visited|] && pos == walk[|visited| + 1]
      decreases |s| - |visited|
    {
      assert walk[|visited| + 1].next == walk[|visited| + 2];
      visited := visited + [pos];
      pos := pos.next;
    }
  }

  /** list_for_each_tail visits them in the opposite order. */
  method ForEachTail<T>(head: ListHead<T>, ghost s: seq<ListHead<T>>) returns (visited: seq<ListHead<T>>)
    requires Ring(head, s)
    ensures visited == Reversed(s)
  {
    ghost var walk := [head] + s + [head];
    visited := [];
    var pos := head.prev;
    assert walk[|s| + 1].prev == walk[|s|];
    HeadIsOutside(head, s);
    while pos != head
      invariant |visited| <= |s| && visited == Reversed(s)[..|visited|] && pos == walk[|s| - |visited|]
      decreases |s| - |visited|
    {
      assert 0 < |s| - |visited|;
      assert walk[|s| - |visited|].prev == walk[|s| - |visited| - 1];
      visited := visited + [pos];
      pos := pos.prev;
    }
  }
}

/** The 22 queues of the kernel over the list nodes embedded in the task structures: the free queue, the ready
    queue and the blocked queue of each semaphore slot.  One node per task, so a task is in one queue at most. */
module Queues {
  import opened Sequences
  import opened Lists
  import opened SchedSpec

  const NR_NODES := 37

  class QueueTable {
    /** The `list` member of each task, then the heads of the queues. */
    const node: seq<ListHead>

    /** What the links represent: the queues, the queue of each task, and the heads initialised so far. */
    ghost var q: seq<seq<Tid>>
    ghost var at: seq<int>
    ghost var live: set<Queue>

    ghost predicate Fixed() {
      && |node| == NR_NODES
      && (forall i, j | 0 <= i < j < NR_NODES :: node[i] != node[j])
      && (forall t: Tid :: node[t].owner == t)
    }

    function Head(i: Queue): ListHead
      requires |node| == NR_NODES
    {
      node[NR_TASKS + i]
    }

    ghost function Anchors(ts: seq<Tid>): seq<ListHead>
      requires |node| == NR_NODES
    {
      seq(|ts|, k requires 0 <= k < |ts| => node[ts[k]])
    }

    ghost predicate Valid()
      reads this, node
    {
      && Fixed()
      && |q| == NR_QUEUES && |at| == NR_TASKS
      && Linked(q, at)
      && (forall i: Queue | i in live :: Ring(Head(i), Anchors(q[i])))
      && (forall i: Queue | i !in live :: q[i] == [])
    }

    /** Static storage: no queue initialised, no task linked. */
    constructor ()
      ensures Valid() && live == {} && fresh(node)
      ensures q == seq(NR_QUEUES, i => []) && at == seq(NR_TASKS, t => NOWHERE)
    {
      var ns: seq<ListHead> := [];
      while |ns| < NR_NODES
        invariant |ns| <= NR_NODES && fresh(ns)
        invariant forall i, j | 0 <= i < j < |ns| :: ns[i] != ns[j]
        invariant forall t | 0 <= t < |ns| && t < NR_TASKS :: ns[t].owner == t
      {
        var n := new ListHead(if |ns| < NR_TASKS then |ns| else -1);
        ns := ns + [n];
      }
      node := ns;
      live := {};
      q := seq(NR_QUEUES, i => []);
      at := seq(NR_TASKS, t => NOWHERE);
    }

    /** The nodes of queue i are those of its tasks and its head; no node of another queue is among them. */
    lemma Apart(i: Queue, j: Queue)
      requires Fixed() && Linked(q, at) && i != j
      ensures Head(i) != Head(j) && Head(j) !in Anchors(q[i])
      ensures forall n | n in Anchors(q[j]) :: n != Head(i) && n !in Anchors(q[i])
    {
    }

    lemma AnchoredAt(t: Tid, i: Queue)
      requires Fixed() && Linked(q, at)
      ensures node[t] in Anchors(q[i]) <==> at[t] == i
    {
      if t in q[i] {
        var k :| 0 <= k < |q[i]| && q[i][k] == t;
        assert Anchors(q[i])[k] == node[t];
      }
    }

    /** A task that is linked nowhere has its node in no queue. */
    lemma Loose(t: Tid, j: Queue)
      requires Fixed() && Linked(q, at) && at[t] == NOWHERE
      ensures node[t] != Head(j) && node[t] !in Anchors(q[j])
    {
    }

    /** `INIT_LIST_HEAD` of queue i, which must not hold tasks. */
    method Init(i: Queue)
      requires Valid() && q[i] == []
      modifies this`live, node
      ensures Valid() && live == old(live) + {i}
    {
      forall j: Queue | j != i {
        Apart(i, j);
      }
      InitListHead(Head(i));
      live := live + {i};
      assert Anchors(q[i]) == [];
    }

    method Empty(i: Queue) returns (empty: bool)
      requires Valid() && i in live
      ensures empty <==> q[i] == []
    {
      empty := ListEmpty(Head(i), Anchors(q[i]));
      assert |Anchors(q[i])| == |q[i]|;
    }

    /** `list_first`, then `list_head_to_task_struct`. */
    method First(i: Queue) returns (t: Tid)
      requires Valid() && i in live && q[i] != []
      ensures t == q[i][0]
    {
      var n := ListFirst(Head(i), Anchors(q[i]));
      t := n.owner;
    }

    /** All nodes but those of queue i and of a loose task t. */
    lemma Others(i: Queue, t: Tid)
      requires Fixed() && Linked(q, at) && (at[t] == NOWHERE || at[t] == i)
      ensures forall j: Queue | j != i ::
                Head(j) != Head(i) && Head(j) != node[t] && Head(j) !in Anchors(q[i])
                && forall n | n in Anchors(q[j]) :: n != Head(i) && n != node[t] && n !in Anchors(q[i])
    {
      forall j: Queue | j != i
        ensures Head(j) != Head(i) && Head(j) != node[t] && Head(j) !in Anchors(q[i])
        ensures forall n | n in Anchors(q[j]) :: n != Head(i) && n != node[t] && n !in Anchors(q[i])
      {
        Apart(i, j);
      }
    }

    /** `list_add_tail` */
    method AddTail(t: Tid, i: Queue)
      requires Valid() && i in live && at[t] == NOWHERE
      modifies this`q, this`at, node
      ensures Valid() && q == old(q)[i := old(q)[i] + [t]] && at == old(at)[t := i]
    {
      Loose(t, i);
      Others(i, t);
      EnqueueKeeps(q, at, t, i);
      ghost var s := Anchors(q[i]);
      ListAddTail(node[t], Head(i), s);
      q, at := q[i := q[i] + [t]], at[t := i];
      assert Anchors(q[i]) == s + [node[t]];
    }

    /** `list_add` */
    method Add(t: Tid, i: Queue)
      requires Valid() && i in live && at[t] == NOWHERE
      modifies this`q, this`at, node
      ensures Valid() && q == old(q)[i := [t] + old(q)[i]] && at == old(at)[t := i]
    {
      Loose(t, i);
      Others(i, t);
      PrependKeeps(q, at, t, i);
      ghost var s := Anchors(q[i]);
      ListAdd(node[t], Head(i), s);
      q, at := q[i := [t] + q[i]], at[t := i];
      assert Anchors(q[i]) == [node[t]] + s;
    }

    lemma Position(t: Tid) returns (k: nat)
      requires Fixed() && Linked(q, at) && at[t] != NOWHERE
      ensures |q| == NR_QUEUES && |at| == NR_TASKS && 0 <= at[t] < NR_QUEUES
      ensures k < |q[at[t]]| && q[at[t]][k] == t
      ensures Without(q[at[t]], t) == q[at[t]][..k] + q[at[t]][k + 1..]
    {
      k :| 0 <= k < |q[at[t]]| && q[at[t]][k] == t;
      WithoutAt(q[at[t]], t, k);
    }

    /** The nodes that `list_del` writes: the node itself and its neighbours in queue i. */
    ghost function Touched(i: Queue, k: nat): set<ListHead>
      requires Fixed() && |q| == NR_QUEUES && k < |q[i]|
      reads this`q
    {
      var s := Anchors(q[i]);
      {s[k], Before(Head(i), s, k), After(Head(i), s, k)}
    }

    /** None of them belongs to another queue. */
    lemma TouchedApart(i: Queue, k: nat, j: Queue)
      requires Fixed() && Linked(q, at) && k < |q[i]| && j != i
      ensures Head(j) !in Touched(i, k) && forall n | n in Anchors(q[j]) :: n !in Touched(i, k)
    {
      Apart(i, j);
      hide Linked;
      var s := Anchors(q[i]);
      assert s[k] in s;
      assert Before(Head(i), s, k) == Head(i) || Before(Head(i), s, k) in s;
      assert After(Head(i), s, k) == Head(i) || After(Head(i), s, k) in s;
    }

    /** `list_del`: the caller does not say of which queue, nor where in it the task stands. */
    method Del(t: Tid)
      requires Valid() && at[t] != NOWHERE
      modifies this`q, this`at, node
      ensures Valid() && at == old(at)[t := NOWHERE]
      ensures q == old(q)[old(at[t]) := Without(old(q)[old(at[t])], t)]
    {
      hide Linked;
      ghost var k := Position(t);
      ghost var i: Queue := at[t];
      ghost var ts := q[i];
      ghost var s := Anchors(ts);
      UnlinkKeeps(q, at, t);
      assert i in live;
      forall j: Queue | j != i
        ensures Head(j) !in Touched(i, k) && forall n | n in Anchors(q[j]) :: n !in Touched(i, k)
      {
        TouchedApart(i, k, j);
      }
      ghost var touched := Touched(i, k);
      assert touched == {node[t], Before(Head(i), s, k), After(Head(i), s, k)};
      ListDel(node[t], Head(i), s, k);
      q, at := q[i := Without(ts, t)], at[t := NOWHERE];
      assert Anchors(q[i]) == s[..k] + s[k + 1..];
      forall j: Queue | j in live && j != i
        ensures Ring(Head(j), Anchors(q[j]))
      {
        assert old(Ring(Head(j), Anchors(q[j])));
      }
    }

    /** `list_add_tail` of the task that is already the last of queue i: the queue is knotted, and all others are as
        they were. */
    method AddTailAgain(t: Tid, i: Queue)
      requires Valid() && i in live && q[i] != [] && q[i][|q[i]| - 1] == t
      modifies node
      ensures Knotted(Head(i), Anchors(q[i][..|q[i]| - 1]), node[t])
      ensures forall j: Queue | j in live && j != i :: Ring(Head(j), Anchors(q[j]))
    {
      ghost var front := q[i][..|q[i]| - 1];
      ghost var s := Anchors(front);
      assert q[i] == front + [t] && Anchors(q[i]) == s + [node[t]];
      assert node[t] in Anchors(q[i]);
      forall j: Queue | j != i
        ensures Head(j) != Head(i) && Head(j) != node[t]
        ensures forall n | n in Anchors(q[j]) :: n != Head(i) && n != node[t]
      {
        Apart(i, j);
      }
      hide Linked;
      AppendAgain(node[t], Head(i), s);
      forall j: Queue | j in live && j != i
        ensures Ring(Head(j), Anchors(q[j]))
      {
        assert old(Ring(Head(j), Anchors(q[j])));
      }
    }
  }

  lemma PrependKeeps(q: seq<seq<Tid>>, at: seq<int>, t: Tid, i: Queue)
    requires Linked(q, at) && at[t] == NOWHERE
    ensures Linked(q[i := [t] + q[i]], at[t := i])
  {
    var q', at' := q[i := [t] + q[i]], at[t := i];
    assert t !in q[i];
    forall x: Tid
      ensures at'[x] == NOWHERE || (0 <= at'[x] < NR_QUEUES && x in q'[at'[x]])
    {
      if x == t {
        assert q'[i][0] == t;
      } else if at[x] == i {
        assert x in q[i];
      }
    }
  }
}

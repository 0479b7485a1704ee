/** The intrusive circular doubly linked list of list.c, at pointer level.

    A list is a head node and the nodes anchored in it.  `Ring(h, s)` says that the links of head `h`
    and of the nodes `s`, in this order, close one circle whose forward and backward links are mutual
    inverses.  Each method below is the pointer surgery of its C function, proved against the sequence. */
module Lists {
  import opened Sequences

  /** `struct list_head`.  `owner` stands for the address arithmetic of `list_entry`: the index of the
      task whose structure embeds this node, or -1 for the head of a list. */
  class ListHead {
    const owner: int
    var next: ListHead?
    var prev: ListHead?

    /** Static storage: both links are null until the node is initialised or inserted. */
    constructor (owner: int)
      ensures this.owner == owner && next == null && prev == null
    {
      this.owner := owner;
      next, prev := null, null;
    }
  }

  /** The circle unrolled: head, nodes, head again. */
  ghost function Circle(h: ListHead, s: seq<ListHead>): seq<ListHead> {
    [h] + s + [h]
  }

  /** The predecessor of position k: a node or, at the front, the head. */
  ghost function Before(h: ListHead, s: seq<ListHead>, k: nat): ListHead
    requires k <= |s|
  {
    if k == 0 then h else s[k - 1]
  }

  /** The successor of position k: a node or, at the back, the head. */
  ghost function After(h: ListHead, s: seq<ListHead>, k: nat): ListHead
    requires k < |s|
  {
    if k + 1 == |s| then h else s[k + 1]
  }

  ghost predicate Joined(a: ListHead, b: ListHead)
    reads a, b
  {
    a.next == b && b.prev == a
  }

  ghost predicate Ring(h: ListHead, s: seq<ListHead>)
    reads h, s
  {
    && h !in s
    && NoDup(s)
    && forall k | 0 <= k <= |s| :: Joined(Circle(h, s)[k], Circle(h, s)[k + 1])
  }

  /** A ring determines its sequence: no two different sequences are threaded through the same links. */
  lemma {:induction false} RingDeterminesSequence(h: ListHead, s: seq<ListHead>, t: seq<ListHead>)
    requires Ring(h, s) && Ring(h, t)
    ensures s == t
  {
    var n := if |s| <= |t| then |s| else |t|;
    forall k | 0 <= k <= n
      ensures Circle(h, s)[k] == Circle(h, t)[k]
    {
      SamePrefix(h, s, t, k);
    }
    assert Circle(h, s)[n] == Circle(h, t)[n];
    assert Joined(Circle(h, s)[n], Circle(h, s)[n + 1]) && Joined(Circle(h, t)[n], Circle(h, t)[n + 1]);
    assert Circle(h, s)[n + 1] == Circle(h, t)[n + 1];
    assert |s| == |t|;
    forall k | 0 <= k < |s|
      ensures s[k] == t[k]
    {
      assert Circle(h, s)[k + 1] == s[k] && Circle(h, t)[k + 1] == t[k];
    }
  }

  lemma {:induction false} SamePrefix(h: ListHead, s: seq<ListHead>, t: seq<ListHead>, k: nat)
    requires Ring(h, s) && Ring(h, t) && k <= |s| && k <= |t|
    ensures Circle(h, s)[k] == Circle(h, t)[k]
  {
    if k > 0 {
      SamePrefix(h, s, t, k - 1);
      assert Joined(Circle(h, s)[k - 1], Circle(h, s)[k]) && Joined(Circle(h, t)[k - 1], Circle(h, t)[k]);
    }
  }

  /** `INIT_LIST_HEAD` */
  method InitListHead(list: ListHead)
    modifies list
    ensures Ring(list, [])
  {
    list.next := list;
    list.prev := list;
  }

  /** `__list_add`: the four assignments in their order, which matters when nodes coincide. */
  method InternalAdd(node: ListHead, prev: ListHead, next: ListHead)
    modifies node`next, node`prev, prev`next, next`prev
    ensures node.prev == prev && prev.next == node
    ensures node.next == if node == prev then node else next
    ensures next != node ==> next.prev == node
  {
    next.prev := node;
    node.next := next;
    node.prev := prev;
    prev.next := node;
  }

  /** `list_add` prepends. */
  method ListAdd(node: ListHead, head: ListHead, ghost s: seq<ListHead>)
    requires Ring(head, s) && node != head && node !in s
    modifies node, head`next, {After(head, [node] + s, 0)}`prev
    ensures Ring(head, [node] + s)
  {
    ghost var before := Circle(head, s);
    assert Joined(before[0], before[1]);
    InternalAdd(node, head, head.next);
    ghost var after := Circle(head, [node] + s);
    forall k | 0 <= k <= |s| + 1
      ensures Joined(after[k], after[k + 1])
    {
      if k >= 2 {
        assert old(Joined(before[k - 1], before[k]));
        assert after[k] == before[k - 1] && after[k + 1] == before[k];
      }
    }
  }

  /** `list_add_tail` appends. */
  method ListAddTail(node: ListHead, head: ListHead, ghost s: seq<ListHead>)
    requires Ring(head, s) && node != head && node !in s
    modifies node, head`prev, {Before(head, s, |s|)}`next
    ensures Ring(head, s + [node])
  {
    ghost var before := Circle(head, s);
    assert Joined(before[|s|], before[|s| + 1]);
    InternalAdd(node, head.prev, head);
    ghost var after := Circle(head, s + [node]);
    forall k | 0 <= k <= |s| + 1
      ensures Joined(after[k], after[k + 1])
    {
      if k < |s| {
        assert old(Joined(before[k], before[k + 1]));
        assert after[k] == before[k] && after[k + 1] == before[k + 1];
      }
    }
  }

  /** `list_del` takes out a node at any position and leaves its own links null. */
  method ListDel(entry: ListHead, ghost head: ListHead, ghost s: seq<ListHead>, ghost k: nat)
    requires Ring(head, s) && k < |s| && s[k] == entry
    modifies entry, {Before(head, s, k)}`next, {After(head, s, k)}`prev
    ensures Ring(head, s[..k] + s[k + 1..])
    ensures entry.next == null && entry.prev == null
  {
    ghost var before := Circle(head, s);
    assert Joined(before[k], before[k + 1]) && Joined(before[k + 1], before[k + 2]);
    var prev, next := entry.prev, entry.next;
    next.prev := prev;
    prev.next := next;
    entry.next := null;
    entry.prev := null;
    ghost var rest := s[..k] + s[k + 1..];
    ghost var after := Circle(head, rest);
    forall j | 0 <= j <= |rest|
      ensures Joined(after[j], after[j + 1])
    {
      if j < k {
        assert old(Joined(before[j], before[j + 1]));
        assert after[j] == before[j] && after[j + 1] == before[j + 1];
      } else if j > k {
        assert old(Joined(before[j + 1], before[j + 2]));
        assert after[j] == before[j + 1] && after[j + 1] == before[j + 2];
      } else {
        assert after[j] == before[k] && after[j + 1] == before[k + 2];
      }
    }
  }

  /** `list_empty` is exact. */
  method ListEmpty(head: ListHead, ghost s: seq<ListHead>) returns (empty: bool)
    requires Ring(head, s)
    ensures empty <==> s == []
  {
    assert Joined(Circle(head, s)[0], Circle(head, s)[1]);
    empty := head.next == head;
  }

  /** `list_is_last` */
  method ListIsLast(list: ListHead, head: ListHead, ghost s: seq<ListHead>) returns (last: bool)
    requires Ring(head, s) && list in s
    ensures last <==> list == s[|s| - 1]
  {
    ghost var k :| 0 <= k < |s| && s[k] == list;
    assert Joined(Circle(head, s)[k + 1], Circle(head, s)[k + 2]);
    last := list.next == head;
  }

  /** `list_first` of a list that is not empty. */
  method ListFirst(head: ListHead, ghost s: seq<ListHead>) returns (first: ListHead)
    requires Ring(head, s) && s != []
    ensures first == s[0]
  {
    assert Joined(Circle(head, s)[0], Circle(head, s)[1]);
    first := head.next;
  }

  // ---- The two insertions of sys_exit, as written ----

  /** What the second insertion of the last node of a list leaves: the nodes `s` are chained from the head as
      before, but the last of them leads to `node`, and `node` leads to itself and never back to the head. */
  ghost predicate Knotted(head: ListHead, s: seq<ListHead>, node: ListHead)
    reads head, s, node
  {
    && head != node && head !in s && node !in s && NoDup(s)
    && head.prev == node && node.next == node
    && (forall k | 0 <= k < |s| :: Joined(Before(head, s, k), s[k]))
    && Before(head, s, |s|).next == node
    && (node.prev == node || (s == [] && node.prev == head))
  }

  lemma RingCloses(h: ListHead, s: seq<ListHead>)
    ensures Ring(h, s) ==> h.prev != null && h.prev.next == h
  {
    if Ring(h, s) {
      assert Joined(Circle(h, s)[|s|], Circle(h, s)[|s| + 1]);
    }
  }

  /** No sequence is threaded through a knotted list: it is not a list any more. */
  lemma KnottedIsNoRing(head: ListHead, s: seq<ListHead>, node: ListHead, t: seq<ListHead>)
    requires Knotted(head, s, node)
    ensures !Ring(head, t)
  {
    RingCloses(head, t);
  }

  /** The insertion of the last node once more: `__list_add` finds the node itself as its predecessor. */
  method AppendAgain(node: ListHead, head: ListHead, ghost s: seq<ListHead>)
    requires Ring(head, s + [node])
    modifies node, head`prev
    ensures Knotted(head, s, node)
  {
    ghost var before := Circle(head, s + [node]);
    assert (s + [node])[|s|] == node && forall k | 0 <= k < |s| :: (s + [node])[k] == s[k];
    assert Joined(before[|s| + 1], before[|s| + 2]) && Joined(before[|s|], before[|s| + 1]);
    forall k | 0 <= k < |s|
      ensures Joined(Before(head, s, k), s[k])
    {
      assert Joined(before[k], before[k + 1]);
    }
    InternalAdd(node, head.prev, head);
  }

  /** `sys_exit` appends the exiting task to the free queue, and `update_process_state_rr` then appends it
      again: its state is still "running", so no `list_del` comes between.  Whatever the queue held before,
      no sequence is threaded through the result. */
  method AppendTwice(node: ListHead, head: ListHead, ghost s: seq<ListHead>)
    requires Ring(head, s) && node != head && node !in s
    modifies node, head, {Before(head, s, |s|)}
    ensures Knotted(head, s, node)
    ensures forall t: seq<ListHead> :: !Ring(head, t)
  {
    ListAddTail(node, head, s);
    AppendAgain(node, head, s);
    forall t: seq<ListHead>
      ensures !Ring(head, t)
    {
      KnottedIsNoRing(head, s, node, t);
    }
  }

  /** The head of a knotted list points at the knot exactly when no other node is left. */
  lemma FrontOf(head: ListHead, s: seq<ListHead>, node: ListHead)
    requires Knotted(head, s, node)
    ensures head.next == if s == [] then node else s[0]
  {
    if s != [] {
      assert Joined(Before(head, s, 0), s[0]);
    }
  }

  /** `list_first` and `list_del` on a knotted list, as in `sys_fork`: first the nodes before the knot in their
      order, and then the knotted node, which the head goes on pointing at. */
  method TakeKnotted(head: ListHead, node: ListHead, ghost s: seq<ListHead>) returns (t: ListHead)
    requires Knotted(head, s, node)
    modifies head`next, node, s
    ensures t == (if s == [] then node else s[0]) && t.next == null && t.prev == null
    ensures s != [] ==> Knotted(head, s[1..], node)
    ensures s == [] ==> head.next == node && head.prev == node
  {
    FrontOf(head, s, node);
    assert |s| > 1 ==> Joined(Before(head, s, 1), s[1]);
    ghost var rest := if s == [] then [] else s[1..];
    t := head.next;
    var prev, next := t.prev, t.next;
    next.prev := prev;
    prev.next := next;
    t.next := null;
    t.prev := null;
    forall k | 0 <= k < |rest|
      ensures Joined(Before(head, rest, k), rest[k])
    {
      assert rest[k] == s[k + 1];
      assert old(Joined(Before(head, s, k + 1), s[k + 1]));
    }
    assert |rest| > 0 ==> Before(head, rest, |rest|) == Before(head, s, |s|);
  }

  /** The nodes of a knotted free queue and those of the ready queue are different nodes. */
  ghost predicate Separate(head: ListHead, node: ListHead, s: seq<ListHead>, ready: ListHead, r: seq<ListHead>) {
    && ready != head && ready != node && ready !in s
    && head !in r && node !in r && forall x | x in s :: x !in r
  }

  /** What a fork that takes node n appends to the ready queue. */
  ghost function Kept(n: ListHead, accept: bool): seq<ListHead> {
    if accept then [n] else []
  }

  /** One `sys_fork` while other nodes are left before the knot.  If it is refused a directory, the node it took
      goes nowhere. */
  method ForkBeforeKnot(head: ListHead, node: ListHead, ghost s: seq<ListHead>,
                        ready: ListHead, ghost r: seq<ListHead>, accept: bool)
    returns (t: ListHead)
    requires Knotted(head, s, node) && s != [] && Ring(ready, r) && Separate(head, node, s, ready, r)
    modifies head`next, node, s, r, ready
    ensures t == s[0] && Knotted(head, s[1..], node) && Ring(ready, r + Kept(t, accept))
    ensures Separate(head, node, s[1..], ready, r + Kept(t, accept))
  {
    hide Knotted;
    KnottedNodes(head, s, node);
    ghost var c := Circle(ready, r);
    assert s[0] in s && forall i | 0 <= i < |c| :: c[i] != node && c[i] != head && c[i] !in s;
    t := TakeKnotted(head, node, s);
    forall k | 0 <= k <= |r|
      ensures Joined(c[k], c[k + 1])
    {
      assert old(Joined(c[k], c[k + 1]));
    }
    if accept {
      AddBeside(t, ready, r, head, node, s[1..]);
    } else {
      assert r + [] == r;
    }
  }

  /** An insertion at the back of the ready queue leaves the knotted queue as it is. */
  method AddBeside(t: ListHead, ready: ListHead, ghost r: seq<ListHead>,
                   ghost head: ListHead, ghost node: ListHead, ghost s: seq<ListHead>)
    requires Knotted(head, s, node) && Ring(ready, r) && Separate(head, node, s, ready, r)
    requires t != head && t != node && t !in s && t != ready && t !in r
    modifies t, ready, r
    ensures Knotted(head, s, node) && Ring(ready, r + [t])
  {
    ghost var c := [head] + s;
    assert forall i | 0 <= i < |c| :: c[i] != t && c[i] != ready && c[i] !in r;
    assert forall k | 0 <= k <= |s| :: Before(head, s, k) == c[k];
    ListAddTail(t, ready, r);
    forall k | 0 <= k < |s|
      ensures Joined(Before(head, s, k), s[k])
    {
      assert s[k] == c[k + 1] && old(Joined(Before(head, s, k), s[k]));
    }
  }

  method DelFirst(t: ListHead, ready: ListHead, ghost r: seq<ListHead>)
    requires Ring(ready, r) && r != [] && t == r[0]
    modifies ready, r
    ensures Ring(ready, r[1..])
  {
    hide Ring;
    assert r[..0] + r[0 + 1..] == r[1..];
    assert After(ready, r, 0) == ready || After(ready, r, 0) in r;
    ListDel(t, ready, r, 0);
  }

  /** Taking out the first ready node leaves it as it is, too. */
  method DelFirstBeside(t: ListHead, ready: ListHead, ghost r: seq<ListHead>,
                        ghost head: ListHead, ghost node: ListHead, ghost s: seq<ListHead>)
    requires Knotted(head, s, node) && Ring(ready, r) && Separate(head, node, s, ready, r)
    requires r != [] && t == r[0]
    modifies ready, r
    ensures Knotted(head, s, node) && Ring(ready, r[1..])
  {
    hide Ring;
    ghost var c := [head] + s;
    assert forall i | 0 <= i < |c| :: c[i] != ready && c[i] !in r;
    assert forall k | 0 <= k <= |s| :: Before(head, s, k) == c[k];
    DelFirst(t, ready, r);
    forall k | 0 <= k < |s|
      ensures Joined(Before(head, s, k), s[k])
    {
      assert s[k] == c[k + 1] && old(Joined(Before(head, s, k), s[k]));
    }
  }

  lemma KnottedNodes(head: ListHead, s: seq<ListHead>, node: ListHead)
    requires Knotted(head, s, node)
    ensures head != node && head !in s && node !in s && (s != [] ==> s[0] !in s[1..])
  {
  }

  /** How many of the forks can be made: once the knotted node has been taken and refused, its links are null,
      and the next `list_del` of it would go through them. */
  ghost function Made(m: nat, accept: seq<bool>): nat {
    if accept == [] then 0
    else if m == 0 && !accept[0] then 1
    else 1 + Made(if m == 0 then 0 else m - 1, accept[1..])
  }

  /** What the forks append to the ready queue: the accepted ones of the nodes before the knot, and the knotted node
      once, unless the last fork that took it was refused. */
  ghost function Appended(s: seq<ListHead>, node: ListHead, accept: seq<bool>): seq<ListHead> {
    if accept == [] then []
    else if s == [] then Kept(node, forall b | b in accept :: b)
    else Kept(s[0], accept[0]) + Appended(s[1..], node, accept[1..])
  }

  lemma {:induction false} MadeKnotted(accept: seq<bool>, n: nat)
    requires n < |accept| && forall k | 0 <= k < n :: accept[k]
    ensures !accept[n] ==> Made(0, accept) == n + 1
    ensures (forall k | 0 <= k < |accept| :: accept[k]) ==> Made(0, accept) == |accept|
    decreases |accept|
  {
    if n > 0 {
      MadeKnotted(accept[1..], n - 1);
    } else if |accept| > 1 && accept[0] {
      MadeKnotted(accept[1..], 0);
    }
  }

  /** The forks from the knot on: every one of them gets the knotted node. */
  method TakeForEver(head: ListHead, node: ListHead, ready: ListHead, ghost r: seq<ListHead>, accept: seq<bool>)
    returns (taken: seq<ListHead>)
    requires Knotted(head, [], node) && Ring(ready, r) && Separate(head, node, [], ready, r) && accept != []
    modifies head`next, node, r, ready
    ensures |taken| == Made(0, accept) && (forall k | 0 <= k < |taken| :: taken[k] == node)
    ensures head.next == node && Ring(ready, r + Appended([], node, accept))
    ensures |taken| < |accept| ==> node.next == null && node.prev == null
  {
    var first := TakeKnotted(head, node, []);
    taken := [first];
    var good := accept[0];
    if good {
      ListAddTail(first, ready, r);
    }
    while good && |taken| < |accept|
      invariant 0 < |taken| <= |accept| && head.next == node
      invariant forall k | 0 <= k < |taken| :: taken[k] == node
      invariant forall k | 0 <= k < |taken| - 1 :: accept[k]
      invariant good == accept[|taken| - 1]
      invariant if good then Ring(ready, r + [node]) else Ring(ready, r) && node.next == null && node.prev == null
      decreases |accept| - |taken|
    {
      good := accept[|taken|];
      var again := TakeOrRefuse(head, node, ready, r, good);
      taken := taken + [again];
    }
    MadeKnotted(accept, |taken| - 1);
    assert good ==> forall k | 0 <= k < |accept| :: accept[k];
    assert !good ==> accept[|taken| - 1] in accept;
    assert r + [] == r;
  }

  /** One fork that finds the knotted node in the ready queue. */
  method TakeOrRefuse(head: ListHead, node: ListHead, ready: ListHead, ghost r: seq<ListHead>, accept: bool)
    returns (t: ListHead)
    requires head.next == node && head !in r && head != ready && head != node && Ring(ready, r + [node])
    modifies node, ready`prev, {Before(ready, r, |r|)}`next
    ensures t == node
    ensures if accept then Ring(ready, r + [node]) else Ring(ready, r) && node.next == null && node.prev == null
  {
    t := head.next;
    ghost var all := r + [node];
    assert all[|r|] == node && all[..|r|] + all[|r| + 1..] == r;
    ListDel(t, ready, all, |r|);
    if accept {
      ListAddTail(t, ready, r);
    }
  }

  /** After one exit as written, a series of calls of `sys_fork`, each of which may be refused a directory.  They
      take the tasks that were free before the exit, in their order, and from then on the exited task again and
      again, out of the ready queue and back into it: the free queue never looks empty.  Once one of these is
      refused, the next goes through null links. */
  method ForksAfterExit(head: ListHead, node: ListHead, ghost s: seq<ListHead>,
                        ready: ListHead, ghost r: seq<ListHead>, accept: seq<bool>)
    returns (taken: seq<ListHead>)
    requires Knotted(head, s, node) && Ring(ready, r) && Separate(head, node, s, ready, r)
    modifies head`next, node, s, r, ready
    ensures |taken| == Made(|s|, accept)
    ensures forall k | 0 <= k < |taken| :: taken[k] == if k < |s| then s[k] else node
    ensures Ring(ready, r + Appended(s, node, accept))
    ensures |taken| > |s| ==> head.next == node
    ensures |taken| < |accept| ==> node.next == null && node.prev == null
    decreases |accept|
  {
    hide Knotted, Ring, Separate;
    taken := [];
    assert r + [] == r;
    if accept != [] {
      FrontOf(head, s, node);
      KnottedNodes(head, s, node);
      if head.next == node {
        taken := TakeForEver(head, node, ready, r, accept);
      } else {
        var t := ForkBeforeKnot(head, node, s, ready, r, accept[0]);
        var rest := ForksAfterExit(head, node, s[1..], ready, r + Kept(t, accept[0]), accept[1..]);
        taken := [t] + rest;
        assert Appended(s, node, accept) == Kept(t, accept[0]) + Appended(s[1..], node, accept[1..]);
        Associative(r, Kept(t, accept[0]), Appended(s[1..], node, accept[1..]));
      }
    }
  }
}

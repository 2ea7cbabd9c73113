/** The doubly linked lists on the heap of 392/lab 3/linked_list.h (insertion in order, freeing)
    and 392/LinkedList/linked_list.h (a deque).  Both use the same node and the same header. */
module LinkedLists {
  import opened Mapping
  import opened StableSort

  class Node<T> {
    var data: T
    var next: Node?<T>
    var prev: Node?<T>

    /** `create_node` in node.h. */
    constructor (data: T)
      ensures this.data == data && next == null && prev == null
    {
      this.data := data;
      next, prev := null, null;
    }
  }

  /** The allocator's view of the nodes: which are in use, and which have been given back, with
      their data, in order. */
  class Heap<T> {
    ghost var live: set<Node<T>>
    ghost var freed: seq<Item<T, Node<T>>>

    constructor (ghost live: set<Node<T>>)
      ensures this.live == live && freed == []
    {
      this.live := live;
      freed := [];
    }

    /** `free_node` in node.h: releases the data and the node.  The node must be in use. */
    method FreeNode(n: Node<T>)
      requires n in live
      modifies this
      ensures live == old(live) - {n} && freed == old(freed) + [Item(n.data, n)]
    {
      freed := freed + [Item(n.data, n)];
      live := live - {n};
    }
  }

  function Reversed<X>(s: seq<X>): seq<X> {
    if s == [] then [] else [s[|s| - 1]] + Reversed(s[..|s| - 1])
  }

  ghost predicate Distinct<X>(s: seq<X>) {
    forall i, j :: 0 <= i < j < |s| ==> s[i] != s[j]
  }

  function PutAt<X>(s: seq<X>, k: nat, x: X): (r: seq<X>)
    requires k <= |s|
    ensures |r| == |s| + 1
    ensures forall i {:trigger r[i]} :: 0 <= i < |r| ==> r[i] == if i < k then s[i] else if i == k then x else s[i - 1]
  {
    s[..k] + [x] + s[k..]
  }

  lemma {:induction false} DistinctInsert<X>(s: seq<X>, k: nat, x: X)
    requires Distinct(s) && k <= |s| && x !in s
    ensures Distinct(PutAt(s, k, x))
  {
  }

  lemma {:induction false} PutAtElements<X>(s: seq<X>, k: nat, x: X)
    requires k <= |s|
    ensures Elements(PutAt(s, k, x)) == Elements(s) + {x}
  {
    assert s == s[..k] + s[k..];
    forall y ensures y in PutAt(s, k, x) <==> y in s || y == x {
      assert y in PutAt(s, k, x) <==> y in s[..k] || y in [x] || y in s[k..];
    }
  }

  lemma {:induction false} ReversedPrefix<X>(s: seq<X>, k: nat)
    requires 0 < k <= |s|
    ensures Reversed(s[..k]) == [s[k - 1]] + Reversed(s[..k - 1])
  {
    assert s[..k][..k - 1] == s[..k - 1];
  }

  lemma {:induction false} SuffixElements<X>(s: seq<X>, k: nat)
    requires 0 < k <= |s|
    ensures Elements(s[k - 1..]) == {s[k - 1]} + Elements(s[k..])
  {
    assert s[k - 1..] == [s[k - 1]] + s[k..];
  }

  /** A reversed sequence holds the same elements, each as often, in the opposite order. */
  lemma {:induction false} ReversedAt<X>(s: seq<X>, i: nat)
    requires i < |s|
    ensures |Reversed(s)| == |s| && Reversed(s)[i] == s[|s| - 1 - i]
  {
    ReversedLength(s);
    if i > 0 {
      ReversedAt(s[..|s| - 1], i - 1);
    }
  }

  lemma {:induction false} ReversedLength<X>(s: seq<X>)
    ensures |Reversed(s)| == |s|
  {
    if s != [] {
      ReversedLength(s[..|s| - 1]);
    }
  }

  lemma {:induction false} PositionUnique<K, I>(cmp: Comparator<K>, xs: seq<Item<K, I>>, key: K, k: nat)
    requires k <= |xs| && forall j :: 0 <= j < k ==> cmp(xs[j].key, key) <= 0
    requires k < |xs| ==> cmp(xs[k].key, key) > 0
    ensures Position(cmp, xs, key) == k
  {
  }

  /** Giving back item `k - 1` moves it from what is still to be given back to what has been. */
  lemma {:induction false} FreedNext<X>(freed: seq<X>, items: seq<X>, k: nat)
    requires 0 < k <= |items|
    ensures (freed + [items[k - 1]]) + Reversed(items[..k - 1]) == freed + Reversed(items[..k])
  {
    ReversedPrefix(items, k);
    ConcatAssociative(freed, [items[k - 1]], Reversed(items[..k - 1]));
  }

  lemma {:induction false} LiveNext<X>(live: set<X>, all: seq<X>, k: nat)
    requires 0 < k <= |all|
    ensures live - Elements(all[k..]) - {all[k - 1]} == live - Elements(all[k - 1..])
  {
    SuffixElements(all, k);
  }

  class LinkedList<T> {
    var head: Node?<T>
    var tail: Node?<T>
    var numNodes: nat
    /** The nodes of the list from head to tail, alone and together with their data. */
    ghost var nodes: seq<Node<T>>
    ghost var items: seq<Item<T, Node<T>>>

    /** Head and tail are the ends, each node's links are its neighbours in both directions, and
        the count is the length. */
    ghost predicate Linked()
      reads this, nodes
    {
      && numNodes == |nodes|
      && head == (if nodes == [] then null else nodes[0])
      && tail == (if nodes == [] then null else nodes[|nodes| - 1])
      && Distinct(nodes)
      && (forall i {:trigger nodes[i].next} :: 0 <= i < |nodes| ==>
            nodes[i].next == if i + 1 < |nodes| then nodes[i + 1] else null)
      && (forall i {:trigger nodes[i].prev} :: 0 <= i < |nodes| ==>
            nodes[i].prev == if i > 0 then nodes[i - 1] else null)
    }

    /** The items are the nodes with their data. */
    ghost predicate Labelled()
      reads this, nodes
    {
      && |items| == |nodes|
      && forall i {:trigger items[i]} :: 0 <= i < |nodes| ==> items[i] == Item(nodes[i].data, nodes[i])
    }

    ghost predicate Valid()
      reads this, nodes
    {
      Linked() && Labelled()
    }

    /** `create_linked_list`. */
    constructor ()
      ensures Valid() && items == []
    {
      head, tail, numNodes := null, null, 0;
      nodes, items := [], [];
    }

    /** Lines 33 to 37: the walk to the first node that is greater than `key`, and the node before. */
    method FindPlace(key: T, cmp: Comparator<T>) returns (p: Node?<T>, q: Node?<T>, ghost k: nat)
      requires Valid()
      ensures k == Position(cmp, items, key)
      ensures p == if k < |nodes| then nodes[k] else null
      ensures q == if k > 0 then nodes[k - 1] else null
    {
      p, q, k := head, null, 0;
      while p != null && cmp(p.data, key) <= 0
        invariant 0 <= k <= |nodes|
        invariant p == if k < |nodes| then nodes[k] else null
        invariant q == if k > 0 then nodes[k - 1] else null
        invariant forall j :: 0 <= j < k ==> cmp(items[j].key, key) <= 0
        decreases |nodes| - k
      {
        assert items[k].key == p.data;
        q := p;
        p := p.next;
        k := k + 1;
      }
      assert p != null ==> items[k].key == p.data;
      PositionUnique(cmp, items, key, k);
    }

    /** Lines 32 and 38 to 52: the links of the node and of its neighbours. */
    method SetLinks(n: Node<T>, p: Node?<T>, q: Node?<T>, ghost k: nat)
      requires Linked() && n !in nodes && k <= |nodes|
      requires p == if k < |nodes| then nodes[k] else null
      requires q == if k > 0 then nodes[k - 1] else null
      modifies this`head, this`tail, this`numNodes, nodes, n
      ensures n.data == old(n.data) && n.next == p && n.prev == q && numNodes == old(numNodes) + 1
      ensures head == (if q == null then n else old(head)) && tail == (if p == null then n else old(tail))
      ensures forall i {:trigger nodes[i].data} :: 0 <= i < |nodes| ==> nodes[i].data == old(nodes[i].data)
      ensures forall i {:trigger nodes[i].next} :: 0 <= i < |nodes| ==>
                nodes[i].next == (if i == k - 1 then n else old(nodes[i].next))
      ensures forall i {:trigger nodes[i].prev} :: 0 <= i < |nodes| ==>
                nodes[i].prev == (if i == k then n else old(nodes[i].prev))
    {
      numNodes := numNodes + 1;
      n.next := p;
      n.prev := q;
      if p != null {
        p.prev := n;
      } else {
        tail := n;
      }
      if q != null {
        q.next := n;
      } else {
        head := n;
      }
    }

    /** Links the node in between its neighbours. */
    method Link(n: Node<T>, p: Node?<T>, q: Node?<T>, ghost k: nat)
      requires Linked() && n !in nodes && k <= |nodes|
      requires p == if k < |nodes| then nodes[k] else null
      requires q == if k > 0 then nodes[k - 1] else null
      modifies this`head, this`tail, this`numNodes, this`nodes, nodes, n
      ensures Linked() && nodes == PutAt(old(nodes), k, n)
      ensures n.data == old(n.data) && forall i :: 0 <= i < |old(nodes)| ==> old(nodes)[i].data == old(nodes[i].data)
    {
      DistinctInsert(nodes, k, n);
      SetLinks(n, p, q, k);
      nodes := PutAt(nodes, k, n);
    }

    /** `insert_in_order`, lines 31 to 54 of 392/lab 3/linked_list.h. */
    method InsertInOrder(n: Node<T>, cmp: Comparator<T>)
      requires Valid() && n !in nodes
      modifies this, nodes, n
      ensures Valid() && n.data == old(n.data)
      ensures items == Insert(cmp, old(items), Item(n.data, n))
      ensures Elements(nodes) == Elements(old(nodes)) + {n} && |nodes| == |old(nodes)| + 1
      ensures forall m :: m in old(nodes) ==> m.data == old(m.data)
    {
      var p, q, k := FindPlace(n.data, cmp);
      PutAtElements(nodes, k, n);
      Link(n, p, q, k);
      items := PutAt(items, k, Item(n.data, n));
    }

    /** `free_list`, lines 80 to 86: walking back from the tail it reads only nodes that are still
        in use, and gives every node back once, last to first.  Head and count are left as they
        were. */
    method FreeList(heap: Heap<T>)
      requires Valid() && forall i :: 0 <= i < |nodes| ==> nodes[i] in heap.live
      modifies this, heap
      ensures tail == null && head == old(head) && numNodes == old(numNodes)
      ensures heap.freed == old(heap.freed) + Reversed(old(items))
      ensures heap.live == old(heap.live) - Elements(old(nodes))
    {
      ghost var all, k := nodes, |nodes|;
      assert items[..k] == items && all[k..] == [];
      while tail != null
        invariant 0 <= k <= |all| && nodes == all && items == old(items)
        invariant head == old(head) && numNodes == old(numNodes)
        invariant tail == if k > 0 then all[k - 1] else null
        invariant heap.freed + Reversed(items[..k]) == old(heap.freed) + Reversed(items)
        invariant heap.live == old(heap.live) - Elements(all[k..])
        decreases k
      {
        var prev := tail.prev;
        assert items[k - 1].key == tail.data && items[k - 1].id == tail;
        FreedNext(heap.freed, items, k);
        LiveNext(old(heap.live), all, k);
        heap.FreeNode(tail);
        tail := prev;
        k := k - 1;
      }
      assert items[..0] == [] && all[0..] == all;
    }

    /** `push_back`, lines 18 to 27 of 392/LinkedList/linked_list.h. */
    method PushBack(n: Node<T>)
      requires Valid() && n !in nodes
      requires n.next == null && (head == null ==> n.prev == null)
      modifies this, nodes, n
      ensures Valid() && n.data == old(n.data)
      ensures nodes == old(nodes) + [n] && items == old(items) + [Item(n.data, n)]
      ensures forall m :: m in old(nodes) ==> m.data == old(m.data)
    {
      if head == null {
        head, tail := n, n;
      } else {
        tail.next := n;
        n.prev := tail;
        tail := n;
      }
      numNodes := numNodes + 1;
      nodes, items := nodes + [n], items + [Item(n.data, n)];
    }

    /** `push_front`, lines 29 to 38. */
    method PushFront(n: Node<T>)
      requires Valid() && n !in nodes
      requires n.prev == null && (head == null ==> n.next == null)
      modifies this, nodes, n
      ensures Valid() && n.data == old(n.data)
      ensures nodes == [n] + old(nodes) && items == [Item(n.data, n)] + old(items)
      ensures forall m :: m in old(nodes) ==> m.data == old(m.data)
    {
      if head == null {
        head, tail := n, n;
      } else {
        head.prev := n;
        n.next := head;
        head := n;
      }
      numNodes := numNodes + 1;
      nodes, items := [n] + nodes, [Item(n.data, n)] + items;
    }

    /** `pop_front`, lines 40 to 55: the first node, with both links cleared, or null. */
    method PopFront() returns (cur: Node?<T>)
      requires Valid()
      modifies this, nodes
      ensures Valid()
      ensures forall m :: m in old(nodes) ==> m.data == old(m.data)
      ensures old(nodes) == [] ==> cur == null && nodes == []
      ensures old(nodes) != [] ==>
                && cur == old(nodes)[0] && cur.next == null && cur.prev == null
                && cur.data == old(items)[0].key
                && nodes == old(nodes)[1..] && items == old(items)[1..]
    {
      cur := head;
      if cur == null {
        return;
      }
      if cur.next == null {
        head := null;
        tail := null;
      } else {
        head := head.next;
        head.prev := null;
        cur.next := null;
      }
      numNodes := numNodes - 1;
      nodes, items := nodes[1..], items[1..];
    }
  }

  // ---- Any sequence of calls ----------------------------------------------------------------

  /** The nodes with their data. */
  ghost function ItemsOf<T>(ns: seq<Node<T>>): (xs: seq<Item<T, Node<T>>>)
    reads ns
    ensures |xs| == |ns| && forall i :: 0 <= i < |ns| ==> xs[i] == Item(ns[i].data, ns[i])
  {
    if ns == [] then [] else ItemsOf(ns[..|ns| - 1]) + [Item(ns[|ns| - 1].data, ns[|ns| - 1])]
  }

  lemma {:induction false} InsertOneMore<K, I>(cmp: Comparator<K>, xs: seq<Item<K, I>>, k: nat)
    requires k < |xs|
    ensures InsertAll(cmp, xs[..k + 1]) == Insert(cmp, InsertAll(cmp, xs[..k]), xs[k])
  {
    assert xs[..k + 1][..k] == xs[..k];
  }

  method InsertNext<T>(list: LinkedList<T>, n: Node<T>, cmp: Comparator<T>, ghost all: set<Node<T>>)
    requires list.Valid() && n !in list.nodes && n in all && forall m :: m in list.nodes ==> m in all
    modifies list, all
    ensures list.Valid() && forall m :: m in list.nodes ==> m in all
    ensures forall m :: m in list.nodes ==> m in old(list.nodes) || m == n
    ensures forall m :: m in all ==> m.data == old(m.data)
    ensures list.items == Insert(cmp, old(list.items), Item(old(n.data), n))
  {
    list.InsertInOrder(n, cmp);
    assert forall m :: m in list.nodes ==> m in Elements(list.nodes);
  }

  /** Inserting any sequence of nodes into an empty list, with any comparator. */
  method InsertEach<T>(ns: seq<Node<T>>, cmp: Comparator<T>) returns (list: LinkedList<T>)
    requires Distinct(ns)
    modifies Elements(ns)
    ensures fresh(list) && list.Valid() && forall n :: n in ns ==> n.data == old(n.data)
    ensures list.items == InsertAll(cmp, old(ItemsOf(ns)))
  {
    ghost var all, items := Elements(ns), ItemsOf(ns);
    list := new LinkedList<T>();
    var k := 0;
    while k < |ns|
      invariant 0 <= k <= |ns| && fresh(list) && list.Valid() && forall m :: m in list.nodes ==> m in all
      invariant forall j :: k <= j < |ns| ==> ns[j] !in list.nodes
      invariant forall n :: n in all ==> n.data == old(n.data)
      invariant list.items == InsertAll(cmp, items[..k])
    {
      InsertOneMore(cmp, items, k);
      InsertNext(list, ns[k], cmp, all);
      k := k + 1;
    }
    assert items[..k] == items;
  }

  /** With a total preorder it leaves their stable sort. */
  method InsertSequence<T(!new)>(ns: seq<Node<T>>, cmp: Comparator<T>) returns (list: LinkedList<T>)
    requires TotalPreorder(cmp) && Distinct(ns)
    modifies Elements(ns)
    ensures fresh(list) && list.Valid() && forall n :: n in ns ==> n.data == old(n.data)
    ensures IsStableSort(cmp, list.items, old(ItemsOf(ns)))
    ensures multiset(list.items) == multiset(old(ItemsOf(ns)))
  {
    InsertAllIsStableSort(cmp, ItemsOf(ns));
    list := InsertEach(ns, cmp);
  }

  datatype Op<T> = Back(n: Node<T>) | Front(n: Node<T>) | Pop

  /** What a call does to the sequence of nodes. */
  function DequeStep<T>(ns: seq<Node<T>>, op: Op<T>): seq<Node<T>> {
    match op
    case Back(n) => ns + [n]
    case Front(n) => [n] + ns
    case Pop => if ns == [] then [] else ns[1..]
  }

  function DequeEnd<T>(ns: seq<Node<T>>, ops: seq<Op<T>>): seq<Node<T>> {
    if ops == [] then ns else DequeStep(DequeEnd(ns, ops[..|ops| - 1]), ops[|ops| - 1])
  }

  function PoppedBy<T>(ns: seq<Node<T>>, op: Op<T>): seq<Node?<T>> {
    if !op.Pop? then [] else if ns == [] then [null] else [ns[0]]
  }

  /** What the calls of `pop_front` return. */
  function Popped<T>(ns: seq<Node<T>>, ops: seq<Op<T>>): seq<Node?<T>> {
    if ops == [] then []
    else
      var before := DequeEnd(ns, ops[..|ops| - 1]);
      Popped(ns, ops[..|ops| - 1]) + PoppedBy(before, ops[|ops| - 1])
  }

  /** A node is pushed only while it is not in the list; a node that was popped may be pushed again. */
  predicate PushesNew<T>(ns: seq<Node<T>>, ops: seq<Op<T>>) {
    forall k :: 0 <= k < |ops| && !ops[k].Pop? ==> ops[k].n !in DequeEnd(ns, ops[..k])
  }

  function Backs<T>(ns: seq<Node<T>>): (ops: seq<Op<T>>)
    ensures |ops| == |ns|
  {
    seq(|ns|, k requires 0 <= k < |ns| => Back(ns[k]))
  }

  function Pops<T>(n: nat): (ops: seq<Op<T>>)
    ensures |ops| == n
  {
    seq(n, k => Pop)
  }

  lemma {:induction false} OneMoreCall<T>(ns: seq<Node<T>>, ops: seq<Op<T>>, op: Op<T>)
    ensures DequeEnd(ns, ops + [op]) == DequeStep(DequeEnd(ns, ops), op)
    ensures Popped(ns, ops + [op]) == Popped(ns, ops) + PoppedBy(DequeEnd(ns, ops), op)
  {
    assert (ops + [op])[..|ops|] == ops;
  }

  lemma {:induction false} OneMoreBack<T>(ns: seq<Node<T>>, n: Node<T>)
    ensures Backs(ns + [n]) == Backs(ns) + [Back(n)]
  {
  }

  lemma {:induction false} BacksAppend<T>(ns: seq<Node<T>>, more: seq<Node<T>>)
    ensures DequeEnd(ns, Backs(more)) == ns + more && Popped(ns, Backs(more)) == []
  {
    if more != [] {
      var front, last := more[..|more| - 1], more[|more| - 1];
      BacksAppend(ns, front);
      OneMoreCall(ns, Backs(front), Back(last));
      OneMoreBack(front, last);
      assert more == front + [last];
      ConcatAssociative(ns, front, [last]);
    }
  }

  lemma {:induction false} TakeOne<X>(xs: seq<X>, n: nat)
    requires n < |xs|
    ensures xs[n..] != [] && xs[n..][0] == xs[n] && xs[n..][1..] == xs[n + 1..] && xs[..n] + [xs[n]] == xs[..n + 1]
  {
  }

  lemma {:induction false} OneMorePop<T>(ops: seq<Op<T>>, n: nat)
    requires n > 0
    ensures ops + Pops<T>(n) == (ops + Pops<T>(n - 1)) + [Pop]
  {
  }

  lemma {:induction false} PopsEnd<T>(ns: seq<Node<T>>, ops: seq<Op<T>>, n: nat)
    requires n <= |DequeEnd(ns, ops)|
    ensures DequeEnd(ns, ops + Pops<T>(n)) == DequeEnd(ns, ops)[n..]
  {
    if n == 0 {
      assert ops + Pops<T>(0) == ops;
    } else {
      PopsEnd(ns, ops, n - 1);
      OneMorePop(ops, n);
      OneMoreCall(ns, ops + Pops<T>(n - 1), Pop);
      TakeOne(DequeEnd(ns, ops), n - 1);
    }
  }

  /** The next call returns the next node. */
  lemma {:induction false} NextPopped<T>(before: seq<Node?<T>>, all: seq<Node<T>>, n: nat)
    requires n < |all|
    ensures before + all[..n] + PoppedBy(all[n..], Pop) == before + all[..n + 1]
  {
    assert PoppedBy(all[n..], Pop) == [all[n]];
  }

  lemma {:induction false} PopsTake<T>(ns: seq<Node<T>>, ops: seq<Op<T>>, n: nat)
    requires n <= |DequeEnd(ns, ops)|
    ensures Popped(ns, ops + Pops<T>(n)) == Popped(ns, ops) + DequeEnd(ns, ops)[..n]
  {
    var all := DequeEnd(ns, ops);
    if n == 0 {
      assert ops + Pops<T>(0) == ops;
    } else {
      PopsTake(ns, ops, n - 1);
      PopsEnd(ns, ops, n - 1);
      OneMorePop(ops, n);
      OneMoreCall(ns, ops + Pops<T>(n - 1), Pop);
      NextPopped(Popped(ns, ops), all, n - 1);
    }
  }

  /** First in, first out: what is pushed at the back comes out behind what was there, in order. */
  lemma {:induction false} DequeOrder<T>(ns: seq<Node<T>>, more: seq<Node<T>>)
    ensures Popped(ns, Backs(more) + Pops<T>(|ns + more|)) == ns + more
    ensures DequeEnd(ns, Backs(more) + Pops<T>(|ns + more|)) == []
  {
    var all := ns + more;
    BacksAppend(ns, more);
    PopsTake(ns, Backs(more), |all|);
    PopsEnd(ns, Backs(more), |all|);
    assert all[..|all|] == all && all[|all|..] == [];
  }

  /** What is pushed at the front comes out next. */
  lemma {:induction false} FrontComesNext<T>(ns: seq<Node<T>>, n: Node<T>)
    ensures Popped(ns, [Front(n), Pop]) == [n] && DequeEnd(ns, [Front(n), Pop]) == ns
  {
    OneMoreCall(ns, [], Front(n));
    OneMoreCall(ns, [] + [Front(n)], Pop);
    assert [Front(n), Pop] == ([] + [Front(n)]) + [Pop];
    assert ([n] + ns)[1..] == ns;
  }

  ghost predicate Unlinked<T>(n: Node<T>)
    reads n
  {
    n.next == null && n.prev == null
  }

  /** The list uses nodes out of `all`; the others are unlinked. */
  ghost predicate Tidy<T>(list: LinkedList<T>, all: set<Node<T>>)
    reads list, list.nodes, all
  {
    && list.Valid()
    && (forall n :: n in list.nodes ==> n in all)
    && (forall n :: n in all && n !in list.nodes ==> Unlinked(n))
  }

  method CallDeque<T>(list: LinkedList<T>, op: Op<T>, ghost all: set<Node<T>>) returns (popped: seq<Node?<T>>)
    requires Tidy(list, all) && (!op.Pop? ==> op.n in all && op.n !in list.nodes)
    modifies list, all
    ensures Tidy(list, all) && forall n :: n in all ==> n.data == old(n.data)
    ensures list.nodes == DequeStep(old(list.nodes), op) && popped == PoppedBy(old(list.nodes), op)
  {
    popped := [];
    match op {
      case Back(n) => list.PushBack(n);
      case Front(n) => list.PushFront(n);
      case Pop =>
        var cur := list.PopFront();
        popped := [cur];
    }
  }

  /** Any sequence of calls does to the list what it does to the sequence of nodes. */
  method RunDeque<T>(list: LinkedList<T>, ops: seq<Op<T>>, ghost all: set<Node<T>>) returns (popped: seq<Node?<T>>)
    requires Tidy(list, all) && PushesNew(list.nodes, ops)
    requires forall k :: 0 <= k < |ops| && !ops[k].Pop? ==> ops[k].n in all
    modifies list, all
    ensures Tidy(list, all) && forall n :: n in all ==> n.data == old(n.data)
    ensures list.nodes == DequeEnd(old(list.nodes), ops) && popped == Popped(old(list.nodes), ops)
  {
    ghost var start := list.nodes;
    popped := [];
    var k := 0;
    while k < |ops|
      invariant 0 <= k <= |ops| && Tidy(list, all)
      invariant list.nodes == DequeEnd(start, ops[..k]) && popped == Popped(start, ops[..k])
      invariant forall n :: n in all ==> n.data == old(n.data)
    {
      assert ops[..k + 1][..k] == ops[..k];
      var more := CallDeque(list, ops[k], all);
      popped := popped + more;
      k := k + 1;
    }
    assert ops[..k] == ops;
  }
}

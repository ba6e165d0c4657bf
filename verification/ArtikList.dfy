/** The generic singly linked list of inc/base/artik_list.h, on the heap. */
module ArtikList {
  import opened Base
  import opened HeapLog

  // sizeof(artik_list) on a 64-bit target.
  const NODE_SIZE := 48

  // A node's key: a number the caller chose, or by default the node's own address.
  datatype Handle<!T> = Invalid | Key(key: int) | Address(node: Node<T>)

  // The copy callback, as the data it stores in the new node for the data of the old one.
  type Copier<!T> = Option<T> -> Option<T>

  // Everything a node holds except its link.
  datatype Entry<!T> = Entry(
    clear: bool, copy: Option<Copier<T>>, handle: Handle<T>, size: int, data: Option<T>)

  class Node<T> {
    var next: Node?<T>
    var entry: Entry<T>

    // malloc and memset to zero.
    constructor Zeroed()
      ensures next == null && entry == Entry(false, None, Invalid, 0, None)
    {
      next, entry := null, Entry(false, None, Invalid, 0, None);
    }
  }

  // ---- The positions the lookups and deletions are about ----

  datatype Lookup<!T> = ByHandle(handle: Handle<T>) | ByCheck(check: Entry<T> -> bool)

  ghost predicate Matches<T>(e: Entry<T>, key: Lookup<T>) {
    match key
    case ByHandle(h) => e.handle == h
    case ByCheck(f) => f(e)
  }

  // The first matching position; the length of the list when there is none.
  ghost function FirstMatch<T>(es: seq<Entry<T>>, key: Lookup<T>): (k: nat)
    ensures k <= |es|
    ensures forall i :: 0 <= i < k ==> !Matches(es[i], key)
    ensures k < |es| ==> Matches(es[k], key)
  {
    if es == [] || Matches(es[0], key) then 0 else 1 + FirstMatch(es[1..], key)
  }

  ghost function HandleIndex<T>(es: seq<Entry<T>>, h: Handle<T>): nat {
    if h.Invalid? then |es| else FirstMatch(es, ByHandle(h))
  }

  ghost function CheckIndex<T>(es: seq<Entry<T>>, check: Option<Entry<T> -> bool>): nat {
    if check.None? then |es| else FirstMatch(es, ByCheck(check.value))
  }

  ghost function PosIndex(size: nat, pos: nat): nat {
    if pos < size then pos else size
  }

  ghost function NodeIndex<T>(nodes: seq<Node<T>>, node: Node?<T>): (k: nat) {
    if node == null then |nodes| else IndexOf(nodes, node)
  }

  ghost function NodeAt<T>(nodes: seq<Node<T>>, k: nat): Node?<T> {
    if k < |nodes| then nodes[k] else null
  }

  ghost function DisposeAt<T>(nodes: seq<Node<T>>, es: seq<Entry<T>>, k: nat): seq<HeapEvent<Node<T>>>
    requires |es| == |nodes|
  {
    if k < |nodes| then Dispose(nodes[k], es[k].clear) else []
  }

  ghost function DisposeAll<T>(nodes: seq<Node<T>>, es: seq<Entry<T>>): seq<HeapEvent<Node<T>>>
    requires |es| == |nodes|
  {
    if nodes == [] then [] else DisposeAt(nodes, es, 0) + DisposeAll(nodes[1..], es[1..])
  }

  lemma DisposeNothing<T>(log: seq<HeapEvent<Node<T>>>, nodes: seq<Node<T>>, es: seq<Entry<T>>)
    requires |es| == |nodes| == 0
    ensures log + DisposeAll(nodes, es) == log
  {
  }

  lemma DisposeFirst<T>(log: seq<HeapEvent<Node<T>>>, nodes: seq<Node<T>>, es: seq<Entry<T>>)
    requires |es| == |nodes| && nodes != []
    ensures log + DisposeAll(nodes, es) == log + DisposeAt(nodes, es, 0) + DisposeAll(nodes[1..], es[1..])
  {
  }

  ghost function Allocs<T>(nodes: seq<Node<T>>): seq<HeapEvent<Node<T>>> {
    seq(|nodes|, i requires 0 <= i < |nodes| => Alloc(nodes[i]))
  }

  lemma AllocOneMore<T>(log: seq<HeapEvent<Node<T>>>, nodes: seq<Node<T>>, n: Node<T>)
    ensures log + Allocs(nodes) + [Alloc(n)] == log + Allocs(nodes + [n])
  {
  }

  ghost predicate Distinct<X>(xs: seq<X>) {
    forall i, j :: 0 <= i < j < |xs| ==> xs[i] != xs[j]
  }

  ghost predicate Chained<T>(nodes: seq<Node<T>>)
    reads nodes
  {
    forall i {:trigger nodes[i].next} :: 0 <= i < |nodes| ==> nodes[i].next == NodeAt(nodes, i + 1)
  }

  ghost predicate Mirrored<T>(nodes: seq<Node<T>>, es: seq<Entry<T>>)
    reads nodes
  {
    && |es| == |nodes|
    && (forall i :: 0 <= i < |nodes| ==> nodes[i].entry == es[i])
    && (forall i :: 0 <= i < |es| ==> !es[i].handle.Invalid? && es[i].size >= NODE_SIZE)
  }

  // The chain from head is `nodes`, meets no node twice and ends in NULL.
  ghost predicate Linked<T>(head: Node?<T>, nodes: seq<Node<T>>, es: seq<Entry<T>>)
    reads nodes
  {
    && Distinct(nodes)
    && head == NodeAt(nodes, 0)
    && Chained(nodes)
    && Mirrored(nodes, es)
  }

  // The nodes freed, in order.
  function Freed<T>(log: seq<HeapEvent<Node<T>>>): seq<Node<T>> {
    if log == [] then []
    else (if log[0].Free? then [log[0].node] else []) + Freed(log[1..])
  }

  lemma {:induction false} FreedInOrder<T>(nodes: seq<Node<T>>, es: seq<Entry<T>>)
    requires |es| == |nodes|
    ensures Freed(DisposeAll(nodes, es)) == nodes
  {
    if nodes != [] {
      var first, rest := DisposeAt(nodes, es, 0), DisposeAll(nodes[1..], es[1..]);
      FreedInOrder(nodes[1..], es[1..]);
      if es[0].clear {
        assert (first + rest)[1..] == [Free(nodes[0], true)] + rest;
        assert (first + rest)[1..][1..] == rest;
      } else {
        assert (first + rest)[1..] == rest;
      }
    }
  }

  lemma {:induction false} OthersAreKept<T>(
    log: seq<HeapEvent<Node<T>>>, nodes: seq<Node<T>>, es: seq<Entry<T>>, n: Node<T>)
    requires |es| == |nodes| && n !in nodes
    ensures Count(log + DisposeAll(nodes, es), Clear(n)) == Count(log, Clear(n))
    decreases |nodes|
  {
    if nodes == [] {
      assert log + [] == log;
    } else {
      DisposeFirst(log, nodes, es);
      CountDispose(log, nodes[0], es[0].clear, Clear(n));
      OthersAreKept(log + DisposeAt(nodes, es, 0), nodes[1..], es[1..], n);
    }
  }

  lemma {:induction false} EachIsDisposed<T>(
    log: seq<HeapEvent<Node<T>>>, nodes: seq<Node<T>>, es: seq<Entry<T>>, i: nat)
    requires |es| == |nodes| && Distinct(nodes) && i < |nodes|
    ensures Free(nodes[i], es[i].clear) in DisposeAll(nodes, es)
    ensures Count(log + DisposeAll(nodes, es), Clear(nodes[i])) ==
      Count(log, Clear(nodes[i])) + if es[i].clear then 1 else 0
    decreases |nodes|
  {
    hide Count, DisposeAll, DisposeAt;
    var first, later, laterEs := log + DisposeAt(nodes, es, 0), nodes[1..], es[1..];
    DisposeFirst(log, nodes, es);
    FirstIsDisposed(log, nodes, es, nodes[i]);
    if i == 0 {
      OthersAreKept(first, later, laterEs, nodes[0]);
    } else {
      EachIsDisposed(first, later, laterEs, i - 1);
      assert later[i - 1] == nodes[i] && laterEs[i - 1] == es[i];
    }
  }

  lemma FirstIsDisposed<T>(
    log: seq<HeapEvent<Node<T>>>, nodes: seq<Node<T>>, es: seq<Entry<T>>, n: Node<T>)
    requires |es| == |nodes| && nodes != []
    ensures Free(nodes[0], es[0].clear) in DisposeAll(nodes, es)
    ensures forall e :: e in DisposeAll(nodes[1..], es[1..]) ==> e in DisposeAll(nodes, es)
    ensures Count(log + DisposeAt(nodes, es, 0), Clear(n)) ==
      Count(log, Clear(n)) + if es[0].clear && n == nodes[0] then 1 else 0
  {
    CountDispose(log, nodes[0], es[0].clear, Clear(n));
    hide Count;
    assert Free(nodes[0], es[0].clear) in DisposeAt(nodes, es, 0);
  }

  // Disposing of a whole list frees its nodes in order and clears each that wants it once.
  lemma DisposalsOfAll<T>(was: seq<HeapEvent<Node<T>>>, log: seq<HeapEvent<Node<T>>>,
                          nodes: seq<Node<T>>, es: seq<Entry<T>>)
    requires |es| == |nodes| && Distinct(nodes) && log == was + DisposeAll(nodes, es)
    ensures |was| <= |log| && log[..|was|] == was && Freed(log[|was|..]) == nodes
    ensures forall i :: 0 <= i < |nodes| ==>
      && Free(nodes[i], es[i].clear) in log[|was|..]
      && Count(log, Clear(nodes[i])) == Count(was, Clear(nodes[i])) + if es[i].clear then 1 else 0
  {
    hide *;
    FreedInOrder(nodes, es);
    assert log[|was|..] == DisposeAll(nodes, es);
    forall i | 0 <= i < |nodes|
      ensures Free(nodes[i], es[i].clear) in log[|was|..]
      ensures Count(log, Clear(nodes[i])) == Count(was, Clear(nodes[i])) + if es[i].clear then 1 else 0
    {
      EachIsDisposed(was, nodes, es, i);
    }
  }

  // Re-linking the predecessor of a node past it chains the rest of the list.
  lemma ChainedWithout<T>(nodes: seq<Node<T>>, k: nat)
    requires k < |nodes|
    requires forall i {:trigger nodes[i].next} ::
      0 <= i < |nodes| && i != k - 1 ==> nodes[i].next == NodeAt(nodes, i + 1)
    requires k > 0 ==> nodes[k - 1].next == NodeAt(nodes, k + 1)
    ensures Chained(Without(nodes, k))
  {
    var rest := Without(nodes, k);
    forall i | 0 <= i < |rest| ensures rest[i].next == NodeAt(rest, i + 1) {
      if i < k - 1 {
        assert rest[i] == nodes[i] && nodes[i].next == nodes[i + 1];
      } else if i >= k {
        assert rest[i] == nodes[i + 1] && nodes[i + 1].next == NodeAt(nodes, i + 2);
      }
    }
  }

  lemma MirroredWithout<T>(nodes: seq<Node<T>>, es: seq<Entry<T>>, k: nat)
    requires Mirrored(nodes, es)
    ensures Mirrored(Without(nodes, k), Without(es, k))
  {
  }

  lemma OnlyOneAt<X>(xs: seq<X>, k: nat)
    requires Distinct(xs) && k < |xs|
    ensures forall i :: 0 <= i < |xs| && i != k ==> xs[i] != xs[k]
  {
  }

  lemma DistinctWithout<X>(xs: seq<X>, k: nat)
    requires Distinct(xs) && k < |xs|
    ensures Distinct(Without(xs, k))
    ensures IndexOf(xs, xs[k]) == k
  {
  }

  // Deleting the node a lookup returns is deleting at the position the lookup found, not
  // found included: NodeIndex inverts NodeAt on a list without repeated nodes.
  lemma DeleteFoundNode<T>(nodes: seq<Node<T>>, k: nat)
    requires Distinct(nodes) && k <= |nodes|
    ensures NodeIndex(nodes, NodeAt(nodes, k)) == k
  {
  }

  // The entry memcpy and the copy callback leave in the copy of an entry.
  function CopyOf<T>(e: Entry<T>): Entry<T> {
    if e.copy.Some? then e.(data := e.copy.value(e.data)) else e
  }

  ghost function CopyAll<T>(es: seq<Entry<T>>): (cs: seq<Entry<T>>)
    ensures |cs| == |es| && forall i :: 0 <= i < |es| ==> cs[i] == CopyOf(es[i])
  {
    seq(|es|, i requires 0 <= i < |es| => CopyOf(es[i]))
  }

  lemma CopyOneMore<T>(es: seq<Entry<T>>, k: nat)
    requires k < |es|
    ensures CopyAll(es[..k]) + [CopyOf(es[k])] == CopyAll(es[..k + 1])
  {
  }

  // A lookup by handle finds the same position in a list and in its copy, default handles
  // included: the copy keeps the addresses of the source's nodes as its keys.
  lemma {:induction false} CopyKeepsHandles<T>(es: seq<Entry<T>>, h: Handle<T>)
    ensures HandleIndex(CopyAll(es), h) == HandleIndex(es, h)
  {
    if !h.Invalid? && es != [] {
      assert CopyAll(es)[1..] == CopyAll(es[1..]);
      CopyKeepsHandles(es[1..], h);
    }
  }

  /** A list variable (`artik_list *`) together with the nodes it reaches. */
  class List<T> {
    var head: Node?<T>
    ghost var nodes: seq<Node<T>>
    ghost var contents: seq<Entry<T>>
    ghost var log: seq<HeapEvent<Node<T>>>

    // Of all the nodes ever allocated for this list exactly the linked ones are not freed.
    ghost predicate Valid()
      reads this, nodes
    {
      && Linked(head, nodes, contents)
      && Disciplined(log) && Live(log) == nodes
    }

    lemma EntriesAreContents()
      requires Valid()
      ensures |contents| == |nodes| && Distinct(nodes)
      ensures forall i :: 0 <= i < |nodes| ==> nodes[i].entry == contents[i]
    {
    }

    constructor ()
      ensures Valid() && nodes == [] && contents == [] && log == []
    {
      head, nodes, contents, log := null, [], [], [];
    }

    // The end of the list, or NULL if it is empty.
    method End() returns (elem: Node?<T>)
      requires Linked(head, nodes, contents)
      ensures elem == if nodes == [] then null else nodes[|nodes| - 1]
    {
      elem := head;
      ghost var k := 0;
      while elem != null && elem.next != null
        invariant elem == NodeAt(nodes, k) && k <= |nodes|
        invariant nodes != [] ==> k < |nodes|
        decreases |nodes| - k
      {
        elem := elem.next;
        k := k + 1;
      }
    }

    method Append(n: Node<T>)
      requires Linked(head, nodes, contents) && n !in nodes
      requires n.next == null && !n.entry.handle.Invalid? && n.entry.size >= NODE_SIZE
      modifies this, nodes`next
      ensures Linked(head, nodes, contents)
      ensures nodes == old(nodes) + [n] && contents == old(contents) + [n.entry]
      ensures log == old(log) && n.entry == old(n.entry)
    {
      var elem := End();
      if elem != null {
        elem.next := n;
      } else {
        head := n;
      }
      nodes, contents := nodes + [n], contents + [n.entry];
    }

    method Add(handle: Handle<T>, size: int) returns (elem: Node?<T>)
      requires Valid()
      modifies this, nodes`next
      ensures Valid()
      ensures elem == null <==> size < NODE_SIZE
      ensures elem == null ==> nodes == old(nodes) && contents == old(contents) && log == old(log)
      ensures elem != null ==>
        && fresh(elem)
        && nodes == old(nodes) + [elem]
        && elem.entry == Entry(false, None, if handle.Invalid? then Address(elem) else handle, size, None)
        && contents == old(contents) + [elem.entry]
        && log == old(log) + [Alloc(elem)]
    {
      hide Disciplined, Live;
      if size < NODE_SIZE { return null; }
      elem := new Node<T>.Zeroed();
      elem.entry := elem.entry.(handle := if handle.Invalid? then Address(elem) else handle, size := size);
      AfterAlloc(log, elem);
      Append(elem);
      log := log + [Alloc(elem)];
    }

    // Writes the fields of a node of the list, its link aside.
    method Store(elem: Node<T>, entry: Entry<T>, ghost k: nat)
      requires Valid() && k < |nodes| && elem == nodes[k]
      requires !entry.handle.Invalid? && entry.size >= NODE_SIZE
      modifies this`contents, elem`entry
      ensures Valid()
      ensures contents == old(contents)[k := entry]
    {
      elem.entry := entry;
      contents := contents[k := entry];
    }

    method Size() returns (res: nat)
      requires Valid()
      ensures res == |nodes|
    {
      var elem := head;
      res := 0;
      while elem != null
        invariant res <= |nodes| && elem == NodeAt(nodes, res)
        decreases |nodes| - res
      {
        res := res + 1;
        elem := elem.next;
      }
    }

    method GetByHandle(handle: Handle<T>) returns (elem: Node?<T>)
      requires Valid()
      ensures elem == NodeAt(nodes, HandleIndex(contents, handle))
      ensures elem == null <==> handle.Invalid? || forall n :: n in nodes ==> n.entry.handle != handle
      ensures elem != null ==> elem in nodes && elem.entry.handle == handle
    {
      elem := head;
      if elem == null || handle.Invalid? { return null; }
      ghost var k := 0;
      while elem != null && elem.entry.handle != handle
        invariant k <= HandleIndex(contents, handle) && elem == NodeAt(nodes, k)
        decreases |nodes| - k
      {
        assert !Matches(contents[k], ByHandle(handle));
        elem := elem.next;
        k := k + 1;
      }
    }

    method GetByPos(pos: nat) returns (elem: Node?<T>)
      requires Valid()
      ensures elem == NodeAt(nodes, PosIndex(|nodes|, pos))
      ensures elem == null <==> pos >= |nodes|
      ensures elem != null ==> elem == nodes[pos] && elem.entry == contents[pos]
    {
      elem := head;
      var i := 0;
      var size := Size();
      if head == null || pos >= size { return null; }
      while elem != null && i < pos
        invariant i <= pos && elem == NodeAt(nodes, i)
      {
        i := i + 1;
        elem := elem.next;
      }
    }

    method GetByCheck(check: Option<Entry<T> -> bool>) returns (elem: Node?<T>)
      requires Valid()
      ensures elem == NodeAt(nodes, CheckIndex(contents, check))
      ensures elem == null <==> check.None? || forall n :: n in nodes ==> !check.value(n.entry)
      ensures elem != null ==> elem in nodes && check.value(elem.entry)
    {
      elem := head;
      if head == null || check.None? { return null; }
      ghost var k := 0;
      while elem != null && !check.value(elem.entry)
        invariant k <= CheckIndex(contents, check) && elem == NodeAt(nodes, k)
        decreases |nodes| - k
      {
        assert !Matches(contents[k], ByCheck(check.value));
        elem := elem.next;
        k := k + 1;
      }
    }

    method Unlink(prev: Node?<T>, elem: Node<T>, ghost k: nat)
      requires Linked(head, nodes, contents)
      requires k < |nodes| && elem == nodes[k]
      requires prev == if k == 0 then null else nodes[k - 1]
      modifies this, nodes`next
      ensures Linked(head, nodes, contents)
      ensures nodes == Without(old(nodes), k) && contents == Without(old(contents), k)
      ensures log == old(log) && IndexOf(old(nodes), elem) == k
      ensures elem.entry == old(contents)[k]
    {
      hide Distinct, IndexOf, Without;
      OnlyOneAt(nodes, if k == 0 then 0 else k - 1);
      assert elem.next == NodeAt(nodes, k + 1);
      hide Mirrored;
      if prev != null { prev.next := elem.next; }
      if elem == head { head := elem.next; }
      ChainedWithout(nodes, k);
      MirroredWithout(nodes, contents, k);
      DistinctWithout(nodes, k);
      nodes, contents := Without(nodes, k), Without(contents, k);
    }

    // The tail all four single deletions share: unlink, clear, free.
    method Remove(prev: Node?<T>, elem: Node<T>, ghost k: nat)
      requires Valid()
      requires k < |nodes| && elem == nodes[k]
      requires prev == if k == 0 then null else nodes[k - 1]
      modifies this, nodes`next
      ensures Valid()
      ensures nodes == Without(old(nodes), k)
      ensures contents == Without(old(contents), k)
      ensures log == old(log) +
        if old(elem.entry.clear) then [Clear(elem), Free(elem, true)] else [Free(elem, false)]
    {
      hide Linked, Disciplined, Live, IndexOf;
      AfterDispose(log, elem, elem.entry.clear);
      Unlink(prev, elem, k);
      if elem.entry.clear { log := log + [Clear(elem)]; }
      log := log + [Free(elem, elem.entry.clear)];
      assert log == old(log) + Dispose(elem, elem.entry.clear);
    }

    method DeleteNode(node: Node?<T>) returns (ret: Error)
      requires Valid()
      modifies this, nodes`next
      ensures Valid()
      ensures var k := NodeIndex(old(nodes), node);
        && ret == (if node != null && k < |old(nodes)| then SOk else EBadArgs)
        && nodes == Without(old(nodes), k)
        && contents == Without(old(contents), k)
        && log == old(log) +
           if k >= |old(nodes)| then []
           else if old(nodes[k].entry.clear) then [Clear(old(nodes)[k]), Free(old(nodes)[k], true)]
           else [Free(old(nodes)[k], false)]
    {
      hide Disciplined, Live, Distinct;
      if head == null || node == null { return EBadArgs; }
      var elem, prev: Node?<T> := head, null;
      ghost var k := 0;
      while elem != null && elem != node
        invariant k <= NodeIndex(nodes, node) && elem == NodeAt(nodes, k)
        invariant prev == if k == 0 then null else nodes[k - 1]
        decreases |nodes| - k
      {
        prev := elem;
        elem := elem.next;
        k := k + 1;
      }
      if elem == null { return EBadArgs; }
      Remove(prev, elem, k);
      return SOk;
    }

    method DeleteHandle(handle: Handle<T>) returns (ret: Error)
      requires Valid()
      modifies this, nodes`next
      ensures Valid()
      ensures var k := HandleIndex(old(contents), handle);
        && ret == (if k < |old(nodes)| then SOk else EBadArgs)
        && nodes == Without(old(nodes), k)
        && contents == Without(old(contents), k)
        && log == old(log) +
           if k >= |old(nodes)| then []
           else if old(nodes[k].entry.clear) then [Clear(old(nodes)[k]), Free(old(nodes)[k], true)]
           else [Free(old(nodes)[k], false)]
    {
      hide Disciplined, Live, Distinct;
      if head == null || handle.Invalid? { return EBadArgs; }
      var elem, prev: Node?<T> := head, null;
      ghost var k := 0;
      while elem != null && elem.entry.handle != handle
        invariant k <= HandleIndex(contents, handle) && elem == NodeAt(nodes, k)
        invariant prev == if k == 0 then null else nodes[k - 1]
        decreases |nodes| - k
      {
        assert !Matches(contents[k], ByHandle(handle));
        prev := elem;
        elem := elem.next;
        k := k + 1;
      }
      if elem == null { return EBadArgs; }
      Remove(prev, elem, k);
      return SOk;
    }

    method DeletePos(pos: nat) returns (ret: Error)
      requires Valid()
      modifies this, nodes`next
      ensures Valid()
      ensures var k := PosIndex(|old(nodes)|, pos);
        && ret == (if k < |old(nodes)| then SOk else EBadArgs)
        && nodes == Without(old(nodes), k)
        && contents == Without(old(contents), k)
        && log == old(log) +
           if k >= |old(nodes)| then []
           else if old(nodes[k].entry.clear) then [Clear(old(nodes)[k]), Free(old(nodes)[k], true)]
           else [Free(old(nodes)[k], false)]
    {
      hide Disciplined, Live, Distinct;
      var size := Size();
      if head == null || pos >= size { return EBadArgs; }
      var elem, prev: Node?<T>, left := head, null, pos;
      ghost var k := 0;
      while elem != null && left > 0
        invariant k + left == pos && elem == NodeAt(nodes, k)
        invariant prev == if k == 0 then null else nodes[k - 1]
        decreases left
      {
        prev := elem;
        elem := elem.next;
        left := left - 1;
        k := k + 1;
      }
      Remove(prev, elem, k);
      return SOk;
    }

    method DeleteCheck(check: Option<Entry<T> -> bool>) returns (ret: Error)
      requires Valid()
      modifies this, nodes`next
      ensures Valid()
      ensures var k := CheckIndex(old(contents), check);
        && ret == (if k < |old(nodes)| then SOk else EBadArgs)
        && nodes == Without(old(nodes), k)
        && contents == Without(old(contents), k)
        && log == old(log) +
           if k >= |old(nodes)| then []
           else if old(nodes[k].entry.clear) then [Clear(old(nodes)[k]), Free(old(nodes)[k], true)]
           else [Free(old(nodes)[k], false)]
    {
      hide Disciplined, Live, Distinct;
      if check.None? { return EBadArgs; }
      var elem, prev: Node?<T> := head, null;
      ghost var k := 0;
      while elem != null && !check.value(elem.entry)
        invariant k <= CheckIndex(contents, check) && elem == NodeAt(nodes, k)
        invariant prev == if k == 0 then null else nodes[k - 1]
        decreases |nodes| - k
      {
        assert !Matches(contents[k], ByCheck(check.value));
        prev := elem;
        elem := elem.next;
        k := k + 1;
      }
      if elem == null { return EBadArgs; }
      Remove(prev, elem, k);
      return SOk;
    }

    method Advance() returns (elem: Node<T>)
      requires Linked(head, nodes, contents) && nodes != []
      modifies this
      ensures Linked(head, nodes, contents)
      ensures elem == old(nodes)[0] && elem.entry == old(contents)[0]
      ensures nodes == old(nodes)[1..] && contents == old(contents)[1..] && log == old(log)
    {
      elem := head;
      head := elem.next;
      nodes, contents := nodes[1..], contents[1..];
    }

    // One round of the disposal loop: advance the head, then clear and free the old one.
    method Pop()
      requires Valid() && nodes != []
      modifies this
      ensures Valid()
      ensures nodes == old(nodes)[1..] && contents == old(contents)[1..]
      ensures log == old(log) + DisposeAt(old(nodes), old(contents), 0)
    {
      hide Linked;
      var elem := Advance();
      AfterDispose(log, elem, elem.entry.clear);
      assert IndexOf(old(nodes), elem) == 0 && Without(old(nodes), 0) == nodes;
      if elem.entry.clear { log := log + [Clear(elem)]; }
      log := log + [Free(elem, elem.entry.clear)];
      assert log == old(log) + Dispose(elem, elem.entry.clear);
    }

    // Disposes of every node, in list order.
    method DeleteAll() returns (ret: Error)
      requires Valid()
      modifies this
      ensures Valid()
      ensures nodes == [] && head == null
      ensures ret == if old(nodes) == [] then EBadArgs else SOk
      ensures |old(log)| <= |log| && log[..|old(log)|] == old(log)
      ensures Freed(log[|old(log)|..]) == old(nodes)
      ensures forall i :: 0 <= i < |old(nodes)| ==>
        var n, hasClear := old(nodes)[i], old(nodes[i].entry.clear);
        && Free(n, hasClear) in log[|old(log)|..]
        && Count(log, Clear(n)) == Count(old(log), Clear(n)) + if hasClear then 1 else 0
    {
      hide Disciplined, Live, Chained, Mirrored, Distinct, DisposeAll, DisposeAt, Count;
      ghost var was, all, es := log, nodes, contents;
      EntriesAreContents();
      if head == null { return EBadArgs; }
      while head != null
        invariant Valid() && |contents| == |nodes|
        invariant log + DisposeAll(nodes, contents) == old(log) + DisposeAll(old(nodes), old(contents))
        decreases |nodes|
      {
        DisposeFirst(log, nodes, contents);
        Pop();
        EntriesAreContents();
      }
      DisposeNothing(log, nodes, contents);
      DisposalsOfAll(was, log, all, es);
      head := null;
      return SOk;
    }

    // One round of the copy loop: the memcpy first links the new last node to whatever
    // follows the copied one in the source, then the callback runs, then the link is cut.
    method AddCopy(elem: Node<T>) returns (newElem: Node<T>)
      requires Valid() && elem !in nodes
      requires !elem.entry.handle.Invalid? && elem.entry.size >= NODE_SIZE
      modifies this, nodes`next
      ensures Valid() && fresh(newElem)
      ensures nodes == old(nodes) + [newElem]
      ensures contents == old(contents) + [CopyOf(elem.entry)]
      ensures log == old(log) + [Alloc(newElem)]
    {
      assert |contents| == |nodes|;
      hide Linked, Disciplined, Live;
      newElem := Add(elem.entry.handle, elem.entry.size);
      FillCopy(newElem, elem, |nodes| - 1);
    }

    method FillCopy(newElem: Node<T>, elem: Node<T>, ghost k: nat)
      requires Valid() && |nodes| == k + 1 == |contents| && newElem == nodes[k] && elem !in nodes
      requires !elem.entry.handle.Invalid? && elem.entry.size >= NODE_SIZE
      modifies this`contents, newElem
      ensures Valid() && contents == old(contents)[..k] + [CopyOf(elem.entry)]
      ensures var e := elem.entry;
        newElem.entry == Entry(e.clear, e.copy, e.handle, e.size,
                               if e.copy.Some? then e.copy.value(e.data) else e.data)
    {
      hide Disciplined, Live, Distinct;
      OnlyOneAt(nodes, k);
      newElem.next := elem.next;
      newElem.entry := elem.entry;
      var data := elem.entry.data;
      if newElem.entry.copy.Some? {
        data := newElem.entry.copy.value(elem.entry.data);
      }
      newElem.entry := newElem.entry.(data := data);
      newElem.next := null;
      contents := contents[..k] + [newElem.entry];
    }

    // The copy loop of artik_list_cpy.
    method CopyInto(dest: List<T>)
      requires Valid() && dest.Valid() && dest != this && dest.nodes == []
      modifies dest
      ensures dest.Valid() && fresh(dest.nodes)
      ensures dest.contents == CopyAll(contents)
      ensures |dest.contents| == |contents| && forall i :: 0 <= i < |contents| ==>
        var e := contents[i];
        dest.contents[i] == Entry(e.clear, e.copy, e.handle, e.size,
                                  if e.copy.Some? then e.copy.value(e.data) else e.data)
      ensures dest.log == old(dest.log) + Allocs(dest.nodes)
    {
      var elem := head;
      ghost var k := 0;
      while elem != null
        invariant unchanged(this) && unchanged(old(nodes)) && dest.Valid()
        invariant k <= |nodes| && elem == NodeAt(nodes, k)
        invariant |dest.nodes| == k && fresh(dest.nodes)
        invariant dest.contents == CopyAll(contents[..k])
        invariant dest.log == old(dest.log) + Allocs(dest.nodes)
        decreases |nodes| - k
      {
        ghost var copies := dest.nodes;
        CopyOneMore(contents, k);
        var newElem := dest.AddCopy(elem);
        AllocOneMore(old(dest.log), copies, newElem);
        elem := elem.next;
        k := k + 1;
      }
      assert contents[..k] == contents;
    }

    // The receiver is untouched; the nodes of the copy are new, so none is the receiver's.
    method Cpy(dest: List?<T>) returns (ret: Error)
      requires Valid() && (dest != null ==> dest.Valid())
      modifies if dest == null then {} else {dest}
      ensures Valid() && (dest != null ==> dest.Valid())
      ensures nodes == old(nodes) && contents == old(contents) && log == old(log)
      ensures ret == if nodes == [] || dest == null || old(dest.nodes) != [] then EBadArgs else SOk
      ensures ret != SOk && dest != null ==> dest.nodes == old(dest.nodes) && dest.log == old(dest.log)
      ensures ret == SOk ==>
        && fresh(dest.nodes)
        && dest.contents == CopyAll(contents)
        && dest.log == old(dest.log) + Allocs(dest.nodes)
      ensures ret == SOk ==> |dest.nodes| == |nodes| && forall i :: 0 <= i < |nodes| ==>
        var e := nodes[i].entry;
        dest.nodes[i].entry == Entry(e.clear, e.copy, e.handle, e.size,
                                     if e.copy.Some? then e.copy.value(e.data) else e.data)
    {
      if head == null || dest == null || dest.head != null { return EBadArgs; }
      CopyInto(dest);
      return SOk;
    }
  }

  // Whatever operations led here: a node is reachable exactly when it was allocated and not
  // freed, and an unreachable one was freed as often as it was allocated, at most once; its
  // clear callback ran exactly as often as it was freed having one.
  lemma ReachableIffNotFreed<T>(list: List<T>, n: Node<T>)
    requires list.Valid()
    ensures n in list.nodes <==> Count(list.log, Alloc(n)) == 1 && Frees(list.log, n) == 0
    ensures n !in list.nodes <==> Frees(list.log, n) == Count(list.log, Alloc(n))
    ensures Frees(list.log, n) <= Count(list.log, Alloc(n)) <= 1
    ensures Count(list.log, Clear(n)) == Count(list.log, Free(n, true))
  {
    Conservation(list.log, n);
  }

  // ---- A deletion by key is the lookup by that key followed by delete_node ----

  method DeleteHandleByLookup<T>(list: List<T>, handle: Handle<T>) returns (ret: Error)
    requires list.Valid()
    modifies list, list.nodes`next
    ensures list.Valid()
    ensures var k := HandleIndex(old(list.contents), handle);
      && ret == (if k < |old(list.nodes)| then SOk else EBadArgs)
      && list.nodes == Without(old(list.nodes), k)
      && list.contents == Without(old(list.contents), k)
      && list.log == old(list.log) +
         if k >= |old(list.nodes)| then []
         else if old(list.nodes[k].entry.clear)
         then [Clear(old(list.nodes)[k]), Free(old(list.nodes)[k], true)]
         else [Free(old(list.nodes)[k], false)]
  {
    var node := list.GetByHandle(handle);
    DeleteFoundNode(list.nodes, HandleIndex(list.contents, handle));
    ret := list.DeleteNode(node);
  }

  method DeletePosByLookup<T>(list: List<T>, pos: nat) returns (ret: Error)
    requires list.Valid()
    modifies list, list.nodes`next
    ensures list.Valid()
    ensures var k := PosIndex(|old(list.nodes)|, pos);
      && ret == (if k < |old(list.nodes)| then SOk else EBadArgs)
      && list.nodes == Without(old(list.nodes), k)
      && list.contents == Without(old(list.contents), k)
      && list.log == old(list.log) +
         if k >= |old(list.nodes)| then []
         else if old(list.nodes[k].entry.clear)
         then [Clear(old(list.nodes)[k]), Free(old(list.nodes)[k], true)]
         else [Free(old(list.nodes)[k], false)]
  {
    var node := list.GetByPos(pos);
    DeleteFoundNode(list.nodes, PosIndex(|list.nodes|, pos));
    ret := list.DeleteNode(node);
  }

  method DeleteCheckByLookup<T>(list: List<T>, check: Option<Entry<T> -> bool>) returns (ret: Error)
    requires list.Valid()
    modifies list, list.nodes`next
    ensures list.Valid()
    ensures var k := CheckIndex(old(list.contents), check);
      && ret == (if k < |old(list.nodes)| then SOk else EBadArgs)
      && list.nodes == Without(old(list.nodes), k)
      && list.contents == Without(old(list.contents), k)
      && list.log == old(list.log) +
         if k >= |old(list.nodes)| then []
         else if old(list.nodes[k].entry.clear)
         then [Clear(old(list.nodes)[k]), Free(old(list.nodes)[k], true)]
         else [Free(old(list.nodes)[k], false)]
  {
    var node := list.GetByCheck(check);
    DeleteFoundNode(list.nodes, CheckIndex(list.contents, check));
    ret := list.DeleteNode(node);
  }
}

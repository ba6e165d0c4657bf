/** The allocator calls a list makes, in order, and what they leave allocated. */
module HeapLog {
  import opened Base

  // malloc, the node's own clear callback, and free; the latter with whether the node had a
  // clear callback when it was freed.
  datatype HeapEvent<N> = Alloc(node: N) | Clear(node: N) | Free(node: N, hadClear: bool)

  // The first position of x; the length when it does not occur.
  function IndexOf<X(==)>(xs: seq<X>, x: X): (k: nat)
    ensures k <= |xs|
    ensures forall i :: 0 <= i < k ==> xs[i] != x
    ensures k < |xs| ==> xs[k] == x
  {
    if xs == [] || xs[0] == x then 0 else 1 + IndexOf(xs[1..], x)
  }

  // The nodes allocated and not yet freed, oldest first.
  ghost function Live<N>(log: seq<HeapEvent<N>>): seq<N> {
    if log == [] then []
    else
      var past, e := Live(log[..|log| - 1]), log[|log| - 1];
      match e
      case Alloc(n) => past + [n]
      case Clear(n) => past
      case Free(n, _) => Without(past, IndexOf(past, n))
  }

  // No node is handed out twice; only a live node is freed; the clear callback runs exactly
  // when the freed node has one, and then immediately before the free.
  ghost predicate Disciplined<N>(log: seq<HeapEvent<N>>) {
    log == [] ||
    var past, e := log[..|log| - 1], log[|log| - 1];
    match e
    case Alloc(n) => Disciplined(past) && e !in past
    case Clear(n) => false
    case Free(n, hadClear) =>
      if hadClear then
        && past != [] && past[|past| - 1] == Clear(n)
        && Disciplined(past[..|past| - 1]) && n in Live(past[..|past| - 1])
      else Disciplined(past) && n in Live(past)
  }

  // What disposing of one node does: its clear callback if it has one, then free.
  function Dispose<N>(n: N, hasClear: bool): seq<HeapEvent<N>> {
    if hasClear then [Clear(n), Free(n, true)] else [Free(n, false)]
  }

  lemma AfterAlloc<N>(log: seq<HeapEvent<N>>, n: N)
    requires Disciplined(log) && Alloc(n) !in log
    ensures Disciplined(log + [Alloc(n)]) && Live(log + [Alloc(n)]) == Live(log) + [n]
  {
    assert (log + [Alloc(n)])[..|log|] == log;
  }

  lemma AfterDispose<N>(log: seq<HeapEvent<N>>, n: N, hasClear: bool)
    requires Disciplined(log) && n in Live(log)
    ensures var l := log + Dispose(n, hasClear);
      Disciplined(l) && Live(l) == Without(Live(log), IndexOf(Live(log), n))
  {
    var l := log + Dispose(n, hasClear);
    if hasClear {
      var l1 := log + [Clear(n)];
      assert l1[..|log|] == log;
      assert l[..|l1|] == l1;
    } else {
      assert l[..|log|] == log;
    }
  }

  // How often an event occurs.
  function Count<N(==)>(log: seq<HeapEvent<N>>, e: HeapEvent<N>): nat {
    if log == [] then 0
    else Count(log[..|log| - 1], e) + (if log[|log| - 1] == e then 1 else 0)
  }

  lemma {:induction false} CountZero<N>(log: seq<HeapEvent<N>>, e: HeapEvent<N>)
    requires e !in log
    ensures Count(log, e) == 0
  {
    if log != [] { CountZero(log[..|log| - 1], e); }
  }

  lemma CountSnoc<N>(log: seq<HeapEvent<N>>, last: HeapEvent<N>, e: HeapEvent<N>)
    ensures Count(log + [last], e) == Count(log, e) + (if last == e then 1 else 0)
  {
    assert (log + [last])[..|log|] == log;
  }

  lemma CountDispose<N>(log: seq<HeapEvent<N>>, m: N, hasClear: bool, e: HeapEvent<N>)
    ensures Count(log + Dispose(m, hasClear), e) ==
      Count(log, e) + (if e == Free(m, hasClear) || (hasClear && e == Clear(m)) then 1 else 0)
  {
    if hasClear {
      CountSnoc(log, Clear(m), e);
      CountSnoc(log + [Clear(m)], Free(m, true), e);
      assert log + Dispose(m, true) == log + [Clear(m)] + [Free(m, true)];
    } else {
      CountSnoc(log, Free(m, false), e);
    }
  }

  function Frees<N(==)>(log: seq<HeapEvent<N>>, n: N): nat {
    Count(log, Free(n, true)) + Count(log, Free(n, false))
  }

  // Allocations, live copies and frees of one node always balance, and its clear callback runs
  // exactly as often as it is freed with one.
  ghost predicate Balanced<N>(log: seq<HeapEvent<N>>, n: N) {
    && Count(log, Alloc(n)) <= 1
    && multiset(Live(log))[n] + Frees(log, n) == Count(log, Alloc(n))
    && Count(log, Clear(n)) == Count(log, Free(n, true))
  }

  // The last thing a disciplined log did: one allocation, or one disposal.
  lemma LastStep<N>(log: seq<HeapEvent<N>>) returns (was: seq<HeapEvent<N>>, m: N, alloc: bool, hasClear: bool)
    requires Disciplined(log) && log != []
    ensures |was| < |log| && Disciplined(was)
    ensures alloc ==> log == was + [Alloc(m)] && Alloc(m) !in was
    ensures !alloc ==> log == was + Dispose(m, hasClear) && m in Live(was)
  {
    hide Live;
    var past, e := log[..|log| - 1], log[|log| - 1];
    m, alloc, was := e.node, e.Alloc?, past;
    hasClear := e.Free? && e.hadClear;
    if hasClear { was := past[..|past| - 1]; }
  }

  // Conservation, node by node: a node is allocated at most once; once allocated it is either
  // live or was freed exactly once, never both; and its clear callback ran exactly once if it
  // was freed having one, and never otherwise.
  lemma {:induction false} Conservation<N>(log: seq<HeapEvent<N>>, n: N)
    requires Disciplined(log)
    ensures Balanced(log, n)
    decreases |log|
  {
    if log == [] {
    } else {
      hide Balanced, Disciplined, Live;
      var was, m, alloc, hasClear := LastStep(log);
      Conservation(was, n);
      if alloc { AllocBalances(was, m, n); } else { DisposeBalances(was, m, hasClear, n); }
    }
  }

  lemma AllocBalances<N>(log: seq<HeapEvent<N>>, m: N, n: N)
    requires Disciplined(log) && Balanced(log, n) && Alloc(m) !in log
    ensures Balanced(log + [Alloc(m)], n)
  {
    CountSnoc(log, Alloc(m), Alloc(n));
    CountSnoc(log, Alloc(m), Free(n, true));
    CountSnoc(log, Alloc(m), Free(n, false));
    CountSnoc(log, Alloc(m), Clear(n));
    AfterAlloc(log, m);
    if m == n { CountZero(log, Alloc(n)); }
  }

  lemma DisposeBalances<N>(log: seq<HeapEvent<N>>, m: N, hasClear: bool, n: N)
    requires Disciplined(log) && Balanced(log, n) && m in Live(log)
    ensures Balanced(log + Dispose(m, hasClear), n)
  {
    CountDispose(log, m, hasClear, Alloc(n));
    CountDispose(log, m, hasClear, Free(n, true));
    CountDispose(log, m, hasClear, Free(n, false));
    CountDispose(log, m, hasClear, Clear(n));
    AfterDispose(log, m, hasClear);
    FreeTakesOne(Live(log), m, n);
  }

  lemma FreeTakesOne<N>(live: seq<N>, m: N, n: N)
    requires m in live
    ensures multiset(Without(live, IndexOf(live, m)))[n] == multiset(live)[n] - (if m == n then 1 else 0)
  {
    var k := IndexOf(live, m);
    assert live[k] == m;
    hide IndexOf;
    MultisetWithout(live, k);
  }

  lemma MultisetWithout<N>(xs: seq<N>, k: nat)
    requires k < |xs|
    ensures multiset(xs) == multiset(Without(xs, k)) + multiset{xs[k]}
  {
    assert xs == xs[..k] + [xs[k]] + xs[k + 1..];
  }
}

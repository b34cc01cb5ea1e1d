/** `topological_region_order`: the reading order of the layout graph, or the discovery of a cycle.
    Regions go by their rank, their index in the layout. */
module LayoutOrder {
  import opened Common
  import opened Sorting

  /** An edge between ranks. */
  datatype Edge = Edge(before: int, after: int)

  predicate Within(n: nat, edges: seq<Edge>) {
    forall e :: e in edges ==> 0 <= e.before < n && 0 <= e.after < n
  }

  // ---------- sorting ranks ----------

  predicate AtMostAs(a: int, b: int) {
    a <= b
  }

  lemma RanksOrder()
    ensures Linear(AtMostAs)
  {
  }

  // ---------- open edges ----------

  /** How many edges lead to a rank from ranks that are not done. */
  function Pending(edges: seq<Edge>, done: set<int>, v: int): nat {
    if edges == [] then 0
    else
      var e := edges[|edges| - 1];
      Pending(edges[..|edges| - 1], done, v) + if e.after == v && e.before !in done then 1 else 0
  }

  /** Where the edges of a rank lead. */
  function Targets(edges: seq<Edge>, u: int): seq<int> {
    if edges == [] then []
    else
      var e := edges[|edges| - 1];
      Targets(edges[..|edges| - 1], u) + if e.before == u then [e.after] else []
  }

  lemma {:induction false} TargetsWithin(n: nat, edges: seq<Edge>, u: int)
    requires Within(n, edges)
    ensures forall v :: v in Targets(edges, u) ==> 0 <= v < n
  {
    if edges != [] {
      var k := |edges| - 1;
      assert edges[k] in edges && forall e :: e in edges[..k] ==> e in edges;
      TargetsWithin(n, edges[..k], u);
    }
  }

  /** Doing one more rank closes its edges. */
  lemma {:induction false} PendingAfter(edges: seq<Edge>, done: set<int>, u: int, v: int)
    requires u !in done
    ensures Pending(edges, done, v) == Pending(edges, done + {u}, v) + multiset(Targets(edges, u))[v]
  {
    if edges != [] { PendingAfter(edges[..|edges| - 1], done, u, v); }
  }

  lemma {:induction false} NonePending(edges: seq<Edge>, done: set<int>, v: int)
    ensures Pending(edges, done, v) == 0 <==> forall e :: e in edges && e.after == v ==> e.before in done
  {
    if edges != [] {
      var k := |edges| - 1;
      NonePending(edges[..k], done, v);
      assert forall e :: e in edges <==> e in edges[..k] || e == edges[k];
    }
  }

  // ---------- orders and cycles ----------

  function Elements(s: seq<int>): set<int> {
    set x | x in s
  }

  /** All predecessors are among the ranks. */
  predicate Free(edges: seq<Edge>, done: seq<int>, v: int) {
    forall e :: e in edges && e.after == v ==> e.before in done
  }

  /** Each rank comes after its predecessors, and is the least that could come at its place. */
  ghost predicate Greedy(n: nat, edges: seq<Edge>, order: seq<int>) {
    forall k :: 0 <= k < |order| ==>
      && 0 <= order[k] < n && order[k] !in order[..k] && Free(edges, order[..k], order[k])
      && forall v :: 0 <= v < n && v !in order[..k] && Free(edges, order[..k], v) ==> order[k] <= v
  }

  /** A closed walk along the edges. */
  ghost predicate Cycle(edges: seq<Edge>, walk: seq<int>) {
    && |walk| >= 2 && walk[0] == walk[|walk| - 1]
    && forall i :: 0 <= i < |walk| - 1 ==> Edge(walk[i], walk[i + 1]) in edges
  }

  // ---------- the loop ----------

  /** The ranks that wait, sorted: not ordered yet, with no open edge. */
  ghost predicate Ready(n: nat, done: set<int>, incoming: seq<int>, ready: seq<int>) {
    && |incoming| == n && Sorted(AtMostAs, ready) && Distinct(ready)
    && forall v :: v in ready <==> 0 <= v < n && v !in done && incoming[v] == 0
  }

  ghost predicate Counted(n: nat, edges: seq<Edge>, done: set<int>, incoming: seq<int>) {
    |incoming| == n && forall v :: 0 <= v < n ==> incoming[v] == Pending(edges, done, v)
  }

  lemma OneLess(sorted: seq<int>)
    requires sorted != [] && Sorted(AtMostAs, sorted) && Distinct(sorted)
    ensures Sorted(AtMostAs, sorted[1..]) && Distinct(sorted[1..]) && sorted[0] !in sorted[1..]
    ensures forall v :: v in sorted <==> v == sorted[0] || v in sorted[1..]
    ensures forall v :: v in sorted ==> sorted[0] <= v
  {
    DistinctTail(sorted);
    var rest := sorted[1..];
    assert forall i :: 0 <= i < |rest| ==> rest[i] == sorted[i + 1];
  }

  lemma Joined(sorted: seq<int>, v: int)
    requires Sorted(AtMostAs, sorted) && Distinct(sorted) && v !in sorted
    ensures Sorted(AtMostAs, Sort(AtMostAs, sorted + [v])) && Distinct(Sort(AtMostAs, sorted + [v]))
    ensures forall x :: x in Sort(AtMostAs, sorted + [v]) <==> x in sorted || x == v
  {
    var all, after := sorted + [v], Sort(AtMostAs, sorted + [v]);
    RanksOrder();
    SortSorts(AtMostAs, all);
    forall x ensures x in after <==> x in all { assert x in multiset(after) <==> x in multiset(all); }
    forall x ensures multiset(after)[x] <= 1 { DistinctMultiset(all, x); }
    BagIsDistinct(after);
  }

  /** The inner loop: the edges of the current rank are closed, and what they freed joins the queue. */
  method Close(n: nat, targets: seq<int>, ghost done: set<int>, counts: seq<int>, queue: seq<int>)
    returns (incoming: seq<int>, ready: seq<int>)
    requires |counts| == n && (forall v :: v in targets ==> 0 <= v < n && v !in done)
    requires forall v :: 0 <= v < n ==> multiset(targets)[v] <= counts[v]
    requires Ready(n, done, counts, queue)
    ensures |incoming| == n && forall v :: 0 <= v < n ==> incoming[v] == counts[v] - multiset(targets)[v]
    ensures Ready(n, done, incoming, ready)
  {
    hide Ready, Sort;
    incoming, ready := counts, queue;
    for i := 0 to |targets|
      invariant |incoming| == n && forall v :: 0 <= v < n ==> incoming[v] == counts[v] - multiset(targets[..i])[v]
      invariant Ready(n, done, incoming, ready)
    {
      var v := targets[i];
      assert v in targets;
      OneMoreTarget(targets, i);
      Joinable(n, done, incoming, ready, v);
      incoming := incoming[v := incoming[v] - 1];
      if incoming[v] == 0 { ready := Sort(AtMostAs, ready + [v]); }
    }
    assert targets[..|targets|] == targets;
  }

  lemma OneMoreTarget(targets: seq<int>, i: nat)
    requires i < |targets|
    ensures multiset(targets[..i + 1]) == multiset(targets[..i]) + multiset{targets[i]}
    ensures forall v :: multiset(targets[..i + 1])[v] <= multiset(targets)[v]
  {
    assert targets[..i + 1] == targets[..i] + [targets[i]];
    assert targets == targets[..i + 1] + targets[i + 1..];
  }

  lemma Joinable(n: nat, done: set<int>, incoming: seq<int>, ready: seq<int>, v: int)
    requires Ready(n, done, incoming, ready) && 0 <= v < n && v !in done && incoming[v] > 0
    ensures var after := incoming[v := incoming[v] - 1];
            Ready(n, done, after, if after[v] == 0 then Sort(AtMostAs, ready + [v]) else ready)
  {
    Joined(ready, v);
  }

  /** The count of the edges into each rank. */
  method CountIncoming(n: nat, edges: seq<Edge>) returns (incoming: seq<int>)
    requires Within(n, edges)
    ensures Counted(n, edges, {}, incoming)
  {
    incoming := seq(n, v => 0);
    for i := 0 to |edges|
      invariant Counted(n, edges[..i], {}, incoming)
    {
      assert edges[..i + 1][..i] == edges[..i] && edges[i] in edges;
      incoming := incoming[edges[i].after := incoming[edges[i].after] + 1];
    }
    assert edges[..|edges|] == edges;
  }

  /** The first queue: the ranks without edges into them, ascending. */
  method QueueFree(n: nat, incoming: seq<int>) returns (ready: seq<int>)
    requires |incoming| == n
    ensures Ready(n, {}, incoming, ready)
  {
    ready := [];
    for i := 0 to n
      invariant Sorted(AtMostAs, ready) && Distinct(ready)
      invariant forall v :: v in ready <==> 0 <= v < i && incoming[v] == 0
    {
      if incoming[i] == 0 {
        assert forall k :: 0 <= k < |ready| ==> ready[k] in ready;
        ready := ready + [i];
      }
    }
  }

  // ---------- one step ----------

  lemma NothingOrdered(n: nat, edges: seq<Edge>)
    ensures Greedy(n, edges, [])
  {
  }

  lemma ElementsAfter(s: seq<int>, x: int)
    ensures Elements(s + [x]) == Elements(s) + {x}
  {
    assert forall y :: y in s + [x] <==> y in s || y == x;
  }

  function Below(n: nat): (s: set<int>)
    ensures forall v :: v in s <==> 0 <= v < n
    ensures |s| == n
  {
    if n == 0 then {} else Below(n - 1) + {n - 1}
  }

  /** Distinct ranks below `n` are at most `n`, and all of them exactly when they are `n`. */
  lemma AtMost(n: nat, s: seq<int>)
    requires Distinct(s) && forall v :: v in s ==> 0 <= v < n
    ensures |s| <= n && (|s| == n <==> forall v :: 0 <= v < n ==> v in s)
  {
    var all, some := Below(n), Elements(s);
    DistinctCount(s);
    assert some <= all;
    assert all == some + (all - some) && |all| == |some| + |all - some|;
    if |s| == n {
      forall v | 0 <= v < n ensures v in s {
        assert v in all && v !in all - some;
      }
    }
    if forall v :: 0 <= v < n ==> v in s { assert all == some; }
  }

  lemma {:induction false} DistinctCount(s: seq<int>)
    requires Distinct(s)
    ensures |Elements(s)| == |s|
  {
    if s == [] {
      assert Elements(s) == {};
    } else {
      var n := |s| - 1;
      DistinctFront(s);
      DistinctCount(s[..n]);
      assert s == s[..n] + [s[n]];
      ElementsAfter(s[..n], s[n]);
    }
  }

  lemma {:induction false} GreedyDistinct(n: nat, edges: seq<Edge>, order: seq<int>)
    requires Greedy(n, edges, order)
    ensures Distinct(order) && forall v :: v in order ==> 0 <= v < n
  {
    forall i, j | 0 <= i < j < |order| ensures order[i] != order[j] {
      assert order[..j][i] == order[i] && order[j] !in order[..j];
    }
  }

  lemma GreedyAfter(n: nat, edges: seq<Edge>, order: seq<int>, v: int)
    requires Greedy(n, edges, order) && 0 <= v < n && v !in order && Free(edges, order, v)
    requires forall w :: 0 <= w < n && w !in order && Free(edges, order, w) ==> v <= w
    ensures Greedy(n, edges, order + [v])
  {
    var after := order + [v];
    forall k | 0 <= k < |after|
      ensures 0 <= after[k] < n && after[k] !in after[..k] && Free(edges, after[..k], after[k])
      ensures forall w :: 0 <= w < n && w !in after[..k] && Free(edges, after[..k], w) ==> after[k] <= w
    {
      assert after[..k] == if k < |order| then order[..k] else order;
    }
  }

  /** A rank is free exactly when no open edge leads to it. */
  lemma FreeIff(edges: seq<Edge>, order: seq<int>, v: int)
    ensures Free(edges, order, v) <==> Pending(edges, Elements(order), v) == 0
  {
    NonePending(edges, Elements(order), v);
  }

  /** Whatever is ordered has its predecessors ordered. */
  lemma OrderedAreFree(n: nat, edges: seq<Edge>, order: seq<int>, v: int)
    requires Greedy(n, edges, order) && v in order
    ensures Free(edges, order, v)
  {
    var k :| 0 <= k < |order| && order[k] == v;
    assert forall x :: x in order[..k] ==> x in order;
  }

  /** The first of the queue may come next, and nothing less may. */
  lemma TakesFirst(n: nat, edges: seq<Edge>, ordered: seq<int>, incoming: seq<int>, ready: seq<int>)
    requires Within(n, edges) && ready != [] && Greedy(n, edges, ordered)
    requires Counted(n, edges, Elements(ordered), incoming) && Ready(n, Elements(ordered), incoming, ready)
    ensures 0 <= ready[0] < n && ready[0] !in ordered && |ordered| < n && Greedy(n, edges, ordered + [ready[0]])
    ensures Pending(edges, Elements(ordered), ready[0]) == 0
  {
    var current := ready[0];
    hide Greedy, Pending, Distinct, Sorted, Free, Within;
    OneLess(ready);
    assert current in ready && current !in ordered;
    FreeIff(edges, ordered, current);
    forall w | 0 <= w < n && w !in ordered && Free(edges, ordered, w) ensures current <= w {
      FreeIff(edges, ordered, w);
      assert w in ready;
    }
    GreedyAfter(n, edges, ordered, current);
    GreedyDistinct(n, edges, ordered + [current]);
    AtMost(n, ordered + [current]);
  }

  lemma TakesRest(n: nat, done: set<int>, incoming: seq<int>, ready: seq<int>)
    requires ready != [] && Ready(n, done, incoming, ready)
    ensures Ready(n, done + {ready[0]}, incoming, ready[1..])
  {
    OneLess(ready);
  }

  /** The edges of the rank taken lead to ranks not done, as often as they are open. */
  lemma TakesTargets(n: nat, edges: seq<Edge>, ordered: seq<int>, incoming: seq<int>, current: int)
    requires Within(n, edges) && Greedy(n, edges, ordered) && current !in ordered
    requires Counted(n, edges, Elements(ordered), incoming) && Pending(edges, Elements(ordered), current) == 0
    ensures forall v :: v in Sort(AtMostAs, Targets(edges, current)) ==> 0 <= v < n && v !in Elements(ordered) + {current}
    ensures forall v :: 0 <= v < n ==> multiset(Sort(AtMostAs, Targets(edges, current)))[v] <= incoming[v]
  {
    var targets := Targets(edges, current);
    RanksOrder();
    SortSorts(AtMostAs, targets);
    TargetsWithin(n, edges, current);
    hide Greedy, Sort, Targets, Pending, Within, Free;
    forall v | v in Sort(AtMostAs, targets) ensures 0 <= v < n && v !in Elements(ordered) + {current} {
      assert v in multiset(Sort(AtMostAs, targets)) && v in targets;
      PendingAfter(edges, Elements(ordered), current, v);
      assert Pending(edges, Elements(ordered), v) > 0;
      FreeIff(edges, ordered, v);
      if v in ordered { OrderedAreFree(n, edges, ordered, v); }
    }
    forall v | 0 <= v < n ensures multiset(Sort(AtMostAs, targets))[v] <= incoming[v] {
      PendingAfter(edges, Elements(ordered), current, v);
    }
  }

  lemma Closed(n: nat, edges: seq<Edge>, before: seq<int>, current: int, counts: seq<int>, incoming: seq<int>)
    requires current !in before && Counted(n, edges, Elements(before), counts) && |incoming| == n
    requires forall v :: 0 <= v < n ==> incoming[v] == counts[v] - multiset(Sort(AtMostAs, Targets(edges, current)))[v]
    ensures Counted(n, edges, Elements(before) + {current}, incoming)
  {
    hide Sort, Targets, Pending;
    RanksOrder();
    SortSorts(AtMostAs, Targets(edges, current));
    forall v | 0 <= v < n ensures incoming[v] == Pending(edges, Elements(before) + {current}, v) {
      PendingAfter(edges, Elements(before), current, v);
    }
  }

  // ---------- cycles ----------

  /** A walk along the edges, among ranks not ordered. */
  ghost predicate Walk(n: nat, edges: seq<Edge>, ordered: seq<int>, walk: seq<int>) {
    && (forall i :: 0 <= i < |walk| ==> 0 <= walk[i] < n && walk[i] !in ordered)
    && forall i :: 0 <= i < |walk| - 1 ==> Edge(walk[i], walk[i + 1]) in edges
  }

  lemma Predecessor(n: nat, edges: seq<Edge>, ordered: seq<int>, v: int) returns (e: Edge)
    requires !Free(edges, ordered, v)
    ensures e in edges && e.after == v && e.before !in ordered
  {
    e :| e in edges && e.after == v && e.before !in ordered;
  }

  /** With every rest rank unfree, walks get as long as wanted. */
  lemma {:induction false} LongWalk(n: nat, edges: seq<Edge>, ordered: seq<int>, start: int, length: nat) returns (walk: seq<int>)
    requires Within(n, edges) && 0 <= start < n && start !in ordered
    requires forall v :: 0 <= v < n && v !in ordered ==> !Free(edges, ordered, v)
    ensures Walk(n, edges, ordered, walk) && |walk| == length + 1
  {
    if length == 0 {
      walk := [start];
    } else {
      var rest := LongWalk(n, edges, ordered, start, length - 1);
      var e := Predecessor(n, edges, ordered, rest[0]);
      walk := [e.before] + rest;
    }
  }

  lemma {:induction false} WalkCloses(n: nat, edges: seq<Edge>, ordered: seq<int>, walk: seq<int>)
    requires Walk(n, edges, ordered, walk) && |walk| > n
    ensures exists cycle :: Cycle(edges, cycle)
  {
    if Distinct(walk) {
      assert forall v :: v in walk ==> 0 <= v < n;
      AtMost(n, walk);
    }
    var i, j :| 0 <= i < j < |walk| && walk[i] == walk[j];
    var cycle := walk[i..j + 1];
    forall k | 0 <= k < |cycle| - 1 ensures Edge(cycle[k], cycle[k + 1]) in edges {
      assert cycle[k] == walk[i + k] && cycle[k + 1] == walk[i + k + 1];
    }
    assert Cycle(edges, cycle);
  }

  /** Stopping short means there is a cycle. */
  lemma Stuck(n: nat, edges: seq<Edge>, ordered: seq<int>, incoming: seq<int>, ready: seq<int>)
    requires Within(n, edges) && Greedy(n, edges, ordered) && |ordered| != n && ready == []
    requires Counted(n, edges, Elements(ordered), incoming) && Ready(n, Elements(ordered), incoming, ready)
    ensures exists cycle :: Cycle(edges, cycle)
  {
    hide Greedy, Free, Pending, Cycle;
    GreedyDistinct(n, edges, ordered);
    AtMost(n, ordered);
    var start: int :| 0 <= start < n && start !in ordered;
    forall v | 0 <= v < n && v !in ordered ensures !Free(edges, ordered, v) {
      FreeIff(edges, ordered, v);
      assert v !in ready;
    }
    var walk := LongWalk(n, edges, ordered, start, n);
    WalkCloses(n, edges, ordered, walk);
  }

  /** In a full greedy order every edge leads forward. */
  lemma EdgesLeadForward(n: nat, edges: seq<Edge>, order: seq<int>, e: Edge)
    requires Greedy(n, edges, order) && e in edges && e.after in order
    ensures e.before in order && LastIndex(order, e.before) < LastIndex(order, e.after)
  {
    var j := LastIndex(order, e.after);
    assert Free(edges, order[..j], order[j]) && e.before in order[..j];
    var i :| 0 <= i < j && order[i] == e.before;
    GreedyDistinct(n, edges, order);
    assert LastIndex(order, e.before) == i;
  }

  lemma {:induction false} WalkLeadsForward(n: nat, edges: seq<Edge>, order: seq<int>, walk: seq<int>, i: nat)
    requires Greedy(n, edges, order) && (forall v :: 0 <= v < n ==> v in order) && Within(n, edges)
    requires 0 < i < |walk| && forall k :: 0 <= k < |walk| - 1 ==> Edge(walk[k], walk[k + 1]) in edges
    ensures walk[0] in order && walk[i] in order && LastIndex(order, walk[0]) < LastIndex(order, walk[i])
  {
    hide Greedy, LastIndex;
    var e := Edge(walk[i - 1], walk[i]);
    assert e in edges && Edge(walk[0], walk[1]) in edges;
    EdgesLeadForward(n, edges, order, e);
    if i > 1 { WalkLeadsForward(n, edges, order, walk, i - 1); }
  }

  lemma NoCycles(n: nat, edges: seq<Edge>, order: seq<int>, walk: seq<int>)
    requires Within(n, edges) && Greedy(n, edges, order) && |order| == n
    ensures !Cycle(edges, walk)
  {
    if Cycle(edges, walk) {
      GreedyDistinct(n, edges, order);
      AtMost(n, order);
      WalkLeadsForward(n, edges, order, walk, |walk| - 1);
    }
  }

  // ---------- the whole loop ----------

  /** `_ordered_region_ids`: an order exactly when the graph has no cycle; each region follows its
      predecessors and is the least by rank that could come at its place. */
  method OrderRanks(n: nat, edges: seq<Edge>) returns (order: Option<seq<int>>)
    requires Within(n, edges)
    ensures order.Some? ==> Greedy(n, edges, order.value) && |order.value| == n
    ensures order.None? <==> exists walk :: Cycle(edges, walk)
  {
    hide Greedy, Ready, Counted, Cycle, Sort, Elements, Targets, Pending;
    var incoming := CountIncoming(n, edges);
    var ready := QueueFree(n, incoming);
    var ordered: seq<int> := [];
    NothingOrdered(n, edges);
    assert Elements([]) == {} by { NoElements(); }
    while ready != []
      invariant Greedy(n, edges, ordered) && |ordered| <= n
      invariant Counted(n, edges, Elements(ordered), incoming) && Ready(n, Elements(ordered), incoming, ready)
      decreases n - |ordered|
    {
      var current := ready[0];
      assert |incoming| == n by { Lengths(n, edges, Elements(ordered), incoming); }
      TakesFirst(n, edges, ordered, incoming, ready);
      TakesRest(n, Elements(ordered), incoming, ready);
      TakesTargets(n, edges, ordered, incoming, current);
      ghost var before, counts := ordered, incoming;
      ordered := ordered + [current];
      ElementsAfter(before, current);
      incoming, ready := Close(n, Sort(AtMostAs, Targets(edges, current)), Elements(ordered), incoming, ready[1..]);
      Closed(n, edges, before, current, counts, incoming);
    }
    if |ordered| != n {
      Stuck(n, edges, ordered, incoming, ready);
      return None;
    }
    forall walk ensures !Cycle(edges, walk) { NoCycles(n, edges, ordered, walk); }
    order := Some(ordered);
  }

  lemma NoElements()
    ensures Elements([]) == {}
  {
  }

  lemma Lengths(n: nat, edges: seq<Edge>, done: set<int>, incoming: seq<int>)
    requires Counted(n, edges, done, incoming)
    ensures |incoming| == n
  {
  }
}

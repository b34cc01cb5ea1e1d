/** The reading order of a layout by region IDs: `topological_region_order` over the ranks of the
    regions, against the validator's order check. */
module RegionOrder {
  import opened Common
  import opened Candidates
  import opened Canonical
  import opened Assembly
  import opened Validator
  import opened AssemblerCompleteness
  import opened LayoutOrder

  /** What `LayoutDocument.validate_layout` says of regions and edges. */
  predicate ValidLayout(layout: Layout) {
    && Distinct(IdsOf(layout.regions))
    && forall e :: e in layout.edges ==> e.before in IdsOf(layout.regions) && e.after in IdsOf(layout.regions) && e.before != e.after
  }

  predicate KnownEdges(ids: seq<RegionId>, edges: seq<OrderEdge>) {
    forall i :: 0 <= i < |edges| ==> edges[i].before in ids && edges[i].after in ids
  }

  /** The edges between the ranks of their regions. */
  function RankEdges(ids: seq<RegionId>, edges: seq<OrderEdge>): (r: seq<Edge>)
    requires KnownEdges(ids, edges)
    ensures |r| == |edges|
    ensures forall i :: 0 <= i < |r| ==> r[i] == Edge(FirstIndex(ids, edges[i].before), FirstIndex(ids, edges[i].after))
  {
    seq(|edges|, i requires 0 <= i < |edges| => Edge(FirstIndex(ids, edges[i].before), FirstIndex(ids, edges[i].after)))
  }

  function ByRank(ids: seq<RegionId>, order: seq<int>): (r: seq<RegionId>)
    requires forall i :: 0 <= i < |order| ==> 0 <= order[i] < |ids|
    ensures |r| == |order| && forall i :: 0 <= i < |r| ==> r[i] == ids[order[i]]
  {
    seq(|order|, i requires 0 <= i < |order| => ids[order[i]])
  }

  /** A full greedy order of the ranks permutes the regions. */
  lemma RanksPermute(ids: seq<RegionId>, edges: seq<Edge>, order: seq<int>)
    requires Distinct(ids) && Greedy(|ids|, edges, order) && |order| == |ids|
    ensures forall i :: 0 <= i < |order| ==> 0 <= order[i] < |ids|
    ensures Distinct(ByRank(ids, order)) && multiset(ByRank(ids, order)) == multiset(ids)
  {
    GreedyDistinct(|ids|, edges, order);
    AtMost(|ids|, order);
    assert forall i :: 0 <= i < |order| ==> order[i] in order;
    hide Greedy;
    var named := ByRank(ids, order);
    assert Distinct(named) by {
      forall i, j | 0 <= i < j < |named| ensures named[i] != named[j] { assert order[i] != order[j]; }
    }
    forall id ensures id in named <==> id in ids {
      if id in ids {
        var k :| 0 <= k < |ids| && ids[k] == id;
        assert k in order;
        var i :| 0 <= i < |order| && order[i] == k;
        assert named[i] == id;
      }
    }
    SameBag(named, ids);
  }

  lemma RanksPrecede(ids: seq<RegionId>, edges: seq<OrderEdge>, order: seq<int>, e: OrderEdge)
    requires Distinct(ids) && KnownEdges(ids, edges) && Greedy(|ids|, RankEdges(ids, edges), order) && |order| == |ids| && e in edges
    requires forall i :: 0 <= i < |order| ==> 0 <= order[i] < |ids|
    ensures Precedes(ByRank(ids, order), e.before, e.after)
  {
    var k :| 0 <= k < |edges| && edges[k] == e;
    var ranked := RankEdges(ids, edges)[k];
    GreedyDistinct(|ids|, RankEdges(ids, edges), order);
    AtMost(|ids|, order);
    assert ranked.after in order;
    EdgesLeadForward(|ids|, RankEdges(ids, edges), order, ranked);
    hide Greedy;
    var i, j := LastIndex(order, ranked.before), LastIndex(order, ranked.after);
    var named := ByRank(ids, order);
    assert named[i] == e.before && named[j] == e.after;
  }

  /** The ordered regions pass the validator's check. */
  lemma OrderIsValid(layout: Layout, order: seq<int>)
    requires ValidLayout(layout) && |order| == |layout.regions| && KnownEdges(IdsOf(layout.regions), layout.edges)
    requires Greedy(|layout.regions|, RankEdges(IdsOf(layout.regions), layout.edges), order)
    ensures forall i :: 0 <= i < |order| ==> 0 <= order[i] < |layout.regions|
    ensures var named := ByRank(IdsOf(layout.regions), order);
            ValidRegionOrder(named, layout) && multiset(named) == multiset(IdsOf(layout.regions))
  {
    var ids := IdsOf(layout.regions);
    RanksPermute(ids, RankEdges(ids, layout.edges), order);
    var named := ByRank(ids, order);
    forall e | e in layout.edges ensures Precedes(named, e.before, e.after) {
      RanksPrecede(ids, layout.edges, order, e);
    }
    hide Greedy, Precedes;
    OrderedArePermuted(layout, named);
    forall id | id in named ensures RegionById(layout.regions, id).Some? {
      var i :| 0 <= i < |named| && named[i] == id;
    }
    forall r | r in layout.regions ensures r.id in named {
      var i :| 0 <= i < |ids| && layout.regions[i] == r;
      assert ids[i] in multiset(named);
    }
  }

  /** `topological_region_order`: a permutation of the regions that the validator accepts as reading
      order, unless the edges have a cycle. */
  method TopologicalRegionOrder(layout: Layout) returns (order: Option<seq<RegionId>>)
    requires ValidLayout(layout)
    ensures order.Some? ==> ValidRegionOrder(order.value, layout) && multiset(order.value) == multiset(IdsOf(layout.regions))
    ensures KnownEdges(IdsOf(layout.regions), layout.edges)
    ensures order.None? <==> exists walk :: Cycle(RankEdges(IdsOf(layout.regions), layout.edges), walk)
  {
    hide Greedy, Cycle, ValidRegionOrder, FirstIndex;
    var ids := IdsOf(layout.regions);
    assert forall i :: 0 <= i < |layout.edges| ==> layout.edges[i] in layout.edges;
    var ranks := OrderRanks(|ids|, RankEdges(ids, layout.edges));
    if ranks.None? { return None; }
    OrderIsValid(layout, ranks.value);
    order := Some(ByRank(ids, ranks.value));
  }
}

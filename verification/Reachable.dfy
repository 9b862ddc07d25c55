/** Counting the nonterminals reachable from a node, with a work list and a set of visited nodes. */
module Reachable {
  import opened NodeGraph
  import opened CacheState
  import opened NodeCache

  /** Every child of a visited node is visited or waiting. */
  ghost predicate Frontier(g: Graph, visited: set<nat>, queue: seq<NodeId>) {
    forall p, c :: p in visited && p < |g| && Owns(g[p], c) > 0 ==> c in visited || Nonterminal(c) in queue
  }

  /** A set closed under children contains everything reachable from its members. */
  lemma {:induction false} ReachMinimal(g: Graph, id: NodeId, visited: set<nat>)
    requires GraphOk(g) && IdOk(g, id) && Frontier(g, visited, [])
    requires id.Nonterminal? ==> id.index in visited
    ensures Reach(g, id) <= visited
    decreases Above(g, id)
  {
    if id.Nonterminal? {
      AboveShrinks(g, id.index);
      LiveKeyOk(g, id.index);
      var k := g[id.index].key;
      assert k.low.Nonterminal? ==> Owns(g[id.index], k.low.index) > 0;
      assert k.high.Nonterminal? ==> Owns(g[id.index], k.high.index) > 0;
      ReachMinimal(g, k.low, visited);
      ReachMinimal(g, k.high, visited);
    }
  }

  /** The children of a reachable node are reachable. */
  lemma {:induction false} ReachChild(g: Graph, id: NodeId, p: nat, c: NodeId)
    requires GraphOk(g) && IdOk(g, id) && p in Reach(g, id) && g[p].Live?
    requires c == g[p].key.low || c == g[p].key.high
    ensures IdOk(g, c) && (c.Nonterminal? ==> c.index in Reach(g, id))
    decreases Above(g, id)
  {
    var i := id.index;
    AboveShrinks(g, i);
    LiveKeyOk(g, i);
    LiveKeyOk(g, p);
    if p != i {
      ReachChild(g, if p in Reach(g, g[i].key.low) then g[i].key.low else g[i].key.high, p, c);
    }
  }

  /**
   The state of the search from id: everything seen or waiting is reachable, and children of seen nodes
   are seen or waiting.
   */
  ghost predicate Searching(g: Graph, id: NodeId, visited: set<NodeId>, seen: set<nat>, queue: seq<NodeId>)
    requires GraphOk(g) && IdOk(g, id)
  {
    && (forall x :: x in queue ==> x.Nonterminal? && x.index in Reach(g, id))
    && Frontier(g, seen, queue)
    && seen <= Reach(g, id)
    && (forall i :: Nonterminal(i) in visited <==> i in seen)
    && (id.Nonterminal? ==> id.index in seen || id in queue)
  }

  function Pushed(queue: seq<NodeId>, child: NodeId): seq<NodeId> {
    if child.Nonterminal? then queue + [child] else queue
  }

  lemma {:induction false} SearchSkip(g: Graph, id: NodeId, visited: set<NodeId>, seen: set<nat>, queue: seq<NodeId>)
    requires GraphOk(g) && IdOk(g, id) && Searching(g, id, visited, seen, queue) && queue != []
    requires queue[|queue| - 1] in visited
    ensures Searching(g, id, visited, seen, queue[..|queue| - 1])
  {
    assert queue == queue[..|queue| - 1] + [queue[|queue| - 1]];
  }

  lemma {:induction false} SearchVisit(g: Graph, id: NodeId, visited: set<NodeId>, seen: set<nat>, queue: seq<NodeId>)
    requires GraphOk(g) && IdOk(g, id) && Searching(g, id, visited, seen, queue) && queue != []
    ensures var curr, rest := queue[|queue| - 1], queue[..|queue| - 1];
            && IdOk(g, curr) && curr.Nonterminal?
            && Searching(g, id, visited + {curr}, seen + {curr.index},
                         Pushed(Pushed(rest, g[curr.index].key.low), g[curr.index].key.high))
  {
    hide Reach, Frontier, Pushed;
    var curr, rest := queue[|queue| - 1], queue[..|queue| - 1];
    assert queue == rest + [curr] && curr in queue;
    assert curr.index in LiveSet(g);
    hide LiveSet;
    var low, high := g[curr.index].key.low, g[curr.index].key.high;
    ReachChild(g, id, curr.index, low);
    ReachChild(g, id, curr.index, high);
    FrontierVisit(g, seen, rest, curr);
    PushedMembers(rest, low, high);
    var queue' := Pushed(Pushed(rest, low), high);
    forall x | x in queue' ensures x.Nonterminal? && x.index in Reach(g, id) {
      assert x in rest ==> x in queue;
    }
    assert id.Nonterminal? && id in queue ==> id == curr || id in rest;
  }

  lemma {:induction false} PushedMembers(rest: seq<NodeId>, low: NodeId, high: NodeId)
    ensures forall x :: x in Pushed(Pushed(rest, low), high) <==>
              x in rest || (x.Nonterminal? && (x == low || x == high))
  {
  }

  lemma {:induction false} FrontierVisit(g: Graph, seen: set<nat>, rest: seq<NodeId>, curr: NodeId)
    requires IdOk(g, curr) && curr.Nonterminal? && Frontier(g, seen, rest + [curr])
    ensures var k := g[curr.index].key; Frontier(g, seen + {curr.index}, Pushed(Pushed(rest, k.low), k.high))
  {
    var k, seen' := g[curr.index].key, seen + {curr.index};
    var queue' := Pushed(Pushed(rest, k.low), k.high);
    forall p, c | p in seen' && p < |g| && Owns(g[p], c) > 0 ensures c in seen' || Nonterminal(c) in queue' {
      if p in seen && c !in seen' {
        assert Nonterminal(c) in rest + [curr];
        assert Nonterminal(c) in rest;
      }
    }
  }

  method ReachableCount(cache: Cache, id: NodeId) returns (nodeCount: nat)
    requires Valid(cache.S()) && IdOk(cache.graph, id)
    ensures nodeCount == |Reach(cache.graph, id)|
  {
    var visited: set<NodeId> := {};
    ghost var seen: set<nat> := {};
    var queue: seq<NodeId> := [];
    if id.Nonterminal? {
      queue := queue + [id];
    }
    nodeCount := 0;
    ghost var g := cache.graph;
    assert Searching(g, id, visited, seen, queue);
    hide Reach, NodesOk, FreeOk, TableOk, GraphOk;
    while queue != []
      invariant Searching(g, id, visited, seen, queue) && nodeCount == |seen|
      decreases Reach(g, id) - seen, |queue|
    {
      var curr := queue[|queue| - 1];
      assert curr in queue;
      if curr in visited {
        SearchSkip(g, id, visited, seen, queue);
        queue := queue[..|queue| - 1];
      } else {
        SearchVisit(g, id, visited, seen, queue);
        SlotContents(cache.S(), curr.index);
        queue := queue[..|queue| - 1];
        visited := visited + {curr};
        nodeCount := nodeCount + 1;
        var node := cache.nodes[curr.index];
        if node.low.Nonterminal? {
          queue := queue + [node.low];
        }
        if node.high.Nonterminal? {
          queue := queue + [node.high];
        }
        hide Searching;
        seen := seen + {curr.index};
      }
    }
    ReachMinimal(g, id, seen);
    assert seen == Reach(g, id);
  }
}

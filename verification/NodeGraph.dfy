/**
 The shared graph of BDD nodes as a value: which slots of the node cache are in use, what they hold,
 how many parent edges point at each, and the tree that a node id stands for.
 */
module NodeGraph {
  import opened DecisionTree

  datatype NodeId = Terminal(value: nat) | Nonterminal(index: nat)

  /** The contents that nonterminals are hash-consed by. */
  datatype Key = Key(variable: nat, low: NodeId, high: NodeId)

  /**
   The life of a slot. Dying is the state of a node whose reference count has reached zero while its
   children are still being released: it is in the hash table, but owns no edges any more.
   */
  datatype Slot = Free | Dying(key: Key) | Live(key: Key)

  type Graph = seq<Slot>

  predicate IdOk(g: Graph, id: NodeId) {
    id.Nonterminal? ==> id.index < |g| && g[id.index].Live?
  }

  /** The id is in use and tests only variables from floor on. */
  predicate IdAtLeast(g: Graph, id: NodeId, floor: nat) {
    IdOk(g, id) && (id.Nonterminal? ==> floor <= g[id.index].key.variable)
  }

  predicate KeyOk(g: Graph, k: Key) {
    && k.low != k.high
    && IdAtLeast(g, k.low, k.variable + 1)
    && IdAtLeast(g, k.high, k.variable + 1)
  }

  /** Every live node is ordered, irredundant and has live children. */
  predicate GraphOk(g: Graph) {
    forall i :: 0 <= i < |g| && g[i].Live? ==> KeyOk(g, g[i].key)
  }

  lemma {:induction false} LiveKeyOk(g: Graph, i: nat)
    requires GraphOk(g) && IdOk(g, Nonterminal(i))
    ensures KeyOk(g, g[i].key)
  {
  }

  /** No two nodes in use have the same contents. */
  predicate Distinct(g: Graph) {
    forall i, j :: 0 <= i < |g| && 0 <= j < |g| && g[i].Live? && g[j].Live? && g[i].key == g[j].key ==> i == j
  }

  /** Every live node of g is a live node of h, with the same contents. */
  predicate Sub(g: Graph, h: Graph) {
    |g| <= |h| && forall i :: 0 <= i < |g| && g[i].Live? ==> h[i] == g[i]
  }

  /** What a release does: live nodes may become free; nothing else changes. */
  predicate OnlyFrees(g: Graph, h: Graph) {
    |g| == |h| && forall i :: 0 <= i < |g| ==> h[i] == g[i] || (g[i].Live? && h[i].Free?)
  }

  /** A release of node i, made of the releases of its two children, is a release. */
  lemma {:induction false} ReleaseFrees(g: Graph, i: nat, afterLow: Graph, afterHigh: Graph)
    requires i < |g| && g[i].Live?
    requires OnlyFrees(g[i := Dying(g[i].key)], afterLow) && OnlyFrees(afterLow, afterHigh)
    ensures |afterLow| == |afterHigh| == |g|
    ensures afterLow[i] == afterHigh[i] == Dying(g[i].key)
    ensures OnlyFrees(g, afterHigh[i := Free])
    ensures LiveSet(afterLow) < LiveSet(g)
  {
    assert afterLow[i] == g[i := Dying(g[i].key)][i];
    assert i in LiveSet(g) && i !in LiveSet(afterLow);
    assert forall j :: 0 <= j < |g| && j != i ==> g[i := Dying(g[i].key)][j] == g[j];
  }

  lemma {:induction false} SubTransitive(g: Graph, h: Graph, k: Graph)
    requires Sub(g, h) && Sub(h, k)
    ensures Sub(g, k)
  {
  }

  function LiveSet(g: Graph): set<nat> {
    set i | 0 <= i < |g| && g[i].Live?
  }

  /** The live nodes testing a variable no smaller than the root of id: a termination measure. */
  ghost function Above(g: Graph, id: NodeId): set<nat>
    requires IdOk(g, id)
  {
    if id.Terminal? then {}
    else set i | 0 <= i < |g| && g[i].Live? && g[id.index].key.variable <= g[i].key.variable
  }

  lemma {:induction false} AboveShrinks(g: Graph, i: nat)
    requires GraphOk(g) && IdOk(g, Nonterminal(i))
    ensures Above(g, g[i].key.low) < Above(g, Nonterminal(i))
    ensures Above(g, g[i].key.high) < Above(g, Nonterminal(i))
  {
    assert KeyOk(g, g[i].key);
    assert i in Above(g, Nonterminal(i));
    assert i !in Above(g, g[i].key.low) && i !in Above(g, g[i].key.high);
  }

  /** The tree a node id stands for. */
  ghost function Unfold(g: Graph, id: NodeId): (t: Tree)
    requires GraphOk(g) && IdOk(g, id)
    ensures id.Terminal? <==> t.Leaf?
    ensures forall v :: IdAtLeast(g, id, v) <==> RootAtLeast(t, v)
    ensures Ordered(t)
    decreases Above(g, id)
  {
    match id
    case Terminal(v) => Leaf(v)
    case Nonterminal(i) =>
      AboveShrinks(g, i);
      var k := g[i].key;
      assert KeyOk(g, k);
      Branch(k.variable, Unfold(g, k.low), Unfold(g, k.high))
  }

  /** Sharing is complete: two ids of one duplicate-free graph with the same tree are the same id. */
  lemma {:induction false} UnfoldInjective(g: Graph, x: NodeId, y: NodeId)
    requires GraphOk(g) && Distinct(g) && IdOk(g, x) && IdOk(g, y)
    requires Unfold(g, x) == Unfold(g, y)
    ensures x == y
    decreases Unfold(g, x)
  {
    if x.Nonterminal? {
      assert KeyOk(g, g[x.index].key) && KeyOk(g, g[y.index].key);
      UnfoldInjective(g, g[x.index].key.low, g[y.index].key.low);
      UnfoldInjective(g, g[x.index].key.high, g[y.index].key.high);
    }
  }

  lemma {:induction false} UnfoldCanonical(g: Graph, x: NodeId)
    requires GraphOk(g) && Distinct(g) && IdOk(g, x)
    ensures Canonical(Unfold(g, x))
    decreases Unfold(g, x)
  {
    if x.Nonterminal? {
      var k := g[x.index].key;
      assert KeyOk(g, k);
      UnfoldCanonical(g, k.low);
      UnfoldCanonical(g, k.high);
      if Unfold(g, k.low) == Unfold(g, k.high) {
        UnfoldInjective(g, k.low, k.high);
      }
    }
  }

  /** Canonicity within one cache: two ids are equal exactly if they denote the same function. */
  lemma {:induction false} SameIdIffSameFunction(g: Graph, x: NodeId, y: NodeId)
    requires GraphOk(g) && Distinct(g) && IdOk(g, x) && IdOk(g, y)
    ensures x == y <==> SameFunction(Unfold(g, x), Unfold(g, y))
  {
    UnfoldCanonical(g, x);
    UnfoldCanonical(g, y);
    CanonicalUnique(Unfold(g, x), Unfold(g, y));
    if Unfold(g, x) == Unfold(g, y) {
      UnfoldInjective(g, x, y);
    }
  }

  /** Nodes that stay live keep their meaning, whatever happens to the rest of the graph. */
  lemma {:induction false} UnfoldStable(g: Graph, h: Graph, id: NodeId)
    requires GraphOk(g) && GraphOk(h) && Sub(g, h) && IdOk(g, id)
    ensures IdOk(h, id) && Unfold(g, id) == Unfold(h, id)
    ensures id.Nonterminal? ==> h[id.index] == g[id.index]
    decreases Unfold(g, id)
  {
    if id.Nonterminal? {
      var k := g[id.index].key;
      assert KeyOk(g, k);
      UnfoldStable(g, h, k.low);
      UnfoldStable(g, h, k.high);
    }
  }

  // ----- parent edges

  function PointsTo(id: NodeId, c: nat): nat {
    if id == Nonterminal(c) then 1 else 0
  }

  /** How many references to node c the slot owns. */
  function Owns(s: Slot, c: nat): nat {
    if s.Live? then PointsTo(s.key.low, c) + PointsTo(s.key.high, c) else 0
  }

  /** How many parent edges point at node c. */
  function Edges(g: Graph, c: nat): nat {
    if g == [] then 0 else Edges(g[..|g| - 1], c) + Owns(g[|g| - 1], c)
  }

  lemma {:induction false} EdgesUpdate(g: Graph, i: nat, s: Slot, c: nat)
    requires i < |g|
    ensures Edges(g[i := s], c) == Edges(g, c) - Owns(g[i], c) + Owns(s, c)
  {
    var n, u := |g| - 1, g[i := s];
    if i == n {
      assert u[..n] == g[..n];
    } else {
      assert u[..n] == g[..n][i := s];
      EdgesUpdate(g[..n], i, s, c);
    }
  }

  lemma {:induction false} EdgesAppend(g: Graph, s: Slot, c: nat)
    ensures Edges(g + [s], c) == Edges(g, c) + Owns(s, c)
  {
    assert (g + [s])[..|g|] == g;
  }

  /** A node has a parent edge exactly if some live node is its parent. */
  lemma {:induction false} EdgesPositive(g: Graph, c: nat)
    ensures Edges(g, c) > 0 <==> exists p :: 0 <= p < |g| && Owns(g[p], c) > 0
  {
    if g != [] {
      var n := |g| - 1;
      EdgesPositive(g[..n], c);
      if Edges(g[..n], c) > 0 {
        var p :| 0 <= p < n && Owns(g[..n][p], c) > 0;
        assert Owns(g[p], c) > 0;
      }
      if p :| 0 <= p < n && Owns(g[p], c) > 0 {
        assert Owns(g[..n][p], c) > 0;
      }
    }
  }

  /** Changing the state of slot i without its key adds or removes exactly the edges it owns. */
  lemma {:induction false} EdgesUpdateAll(g: Graph, i: nat, s: Slot)
    requires i < |g|
    ensures forall c: nat :: Edges(g[i := s], c) == Edges(g, c) - Owns(g[i], c) + Owns(s, c)
  {
    forall c: nat ensures Edges(g[i := s], c) == Edges(g, c) - Owns(g[i], c) + Owns(s, c) {
      EdgesUpdate(g, i, s, c);
    }
  }

  /** A node without parent edges may stop being live without breaking its neighbours. */
  lemma {:induction false} RetireOk(g: Graph, i: nat, s: Slot)
    requires GraphOk(g) && i < |g| && !s.Live?
    requires Edges(g, i) == 0
    ensures GraphOk(g[i := s])
  {
    EdgesPositive(g, i);
    var h := g[i := s];
    forall p | 0 <= p < |h| && h[p].Live? ensures KeyOk(h, h[p].key) {
      assert KeyOk(g, g[p].key);
      assert Owns(g[p], i) == 0;
    }
  }

  // ----- reachability

  /** The nonterminals reachable from id. */
  ghost function Reach(g: Graph, id: NodeId): (r: set<nat>)
    requires GraphOk(g) && IdOk(g, id)
    ensures r <= LiveSet(g)
    ensures id.Nonterminal? ==> id.index in r
    decreases Above(g, id)
  {
    match id
    case Terminal(_) => {}
    case Nonterminal(i) =>
      AboveShrinks(g, i);
      assert KeyOk(g, g[i].key);
      {i} + Reach(g, g[i].key.low) + Reach(g, g[i].key.high)
  }
}

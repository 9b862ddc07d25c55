/**
 The node cache of libipset: hash-consing, reference counts, index recycling, and the if-then-else
 that inserts an assignment.

 The chunks are one sequence of nodes; the free list is threaded through the refcount field of the
 nodes it contains.
 */
module NodeCache {
  import opened DecisionTree
  import opened NodeGraph
  import opened CacheState

  /** A fake BDD node given by an assignment. */
  class FakeNode {
    var currentVar: nat
    var varCount: nat
    const assignment: Valuation
    const value: nat

    constructor (currentVar: nat, varCount: nat, assignment: Valuation, value: nat)
      ensures this.currentVar == currentVar && this.varCount == varCount
      ensures this.assignment == assignment && this.value == value
    {
      this.currentVar, this.varCount := currentVar, varCount;
      this.assignment, this.value := assignment, value;
    }
  }

  class Cache {
    var nodes: seq<Node>
    var freeList: int
    var nodeCache: map<Key, NodeId>

    ghost var graph: Graph
    ghost var free: seq<nat>
    ghost var handles: multiset<NodeId>

    ghost function S(): State reads this {
      State(nodes, freeList, nodeCache, graph, free, handles)
    }

    /** The structural invariant. */
    ghost predicate Ok() reads this {
      Valid(S()) && Settled(S()) && GraphOk(graph)
    }

    /** The structural invariant and exact reference counts. */
    ghost predicate Exact() reads this {
      Ok() && Counted(S())
    }

    ghost predicate Held(id: NodeId) reads this {
      id.Nonterminal? ==> id in handles
    }

    /** What a held id means. */
    ghost function Meaning(id: NodeId): Tree
      reads this
      requires GraphOk(graph) && IdOk(graph, id)
    {
      Unfold(graph, id)
    }

    constructor ()
      ensures Exact()
      ensures graph == [] && handles == multiset{} && free == []
    {
      nodes, freeList, nodeCache := [], NULL_INDEX, map[];
      graph, free, handles := [], [], multiset{};
    }

    /** Returns the index of a node that may be overwritten. */
    method AllocNode() returns (index: nat)
      requires Valid(S())
      modifies this`nodes, this`freeList
      ensures index == NextIndex(old(S())) < |nodes|
      ensures if old(free) == [] then
                freeList == old(freeList) && exists blank :: nodes == old(nodes) + [blank]
              else
                freeList == old(nodes)[index].refcount && nodes == old(nodes)
    {
      if freeList == NULL_INDEX {
        index := |nodes|;
        nodes := nodes + [Node(0, 0, Terminal(0), Terminal(0))];
      } else {
        index := freeList;
        freeList := nodes[index].refcount;
      }
    }

    /** If the counts were exact they still are. */
    method Incref(id: NodeId) returns (r: NodeId)
      requires Valid(S()) && IdOk(graph, id)
      modifies this`nodes, this`handles
      ensures Valid(S()) && r == id && S() == BumpId(old(S()), id, 1)
      ensures old(Counted(S())) ==> Counted(S()) && handles == old(handles) + Ref(id)
    {
      hide Valid, CountedBut, Ref, IdOk;
      ghost var s := S();
      Taken(s, id);
      r := id;
      if id.Nonterminal? {
        var node := nodes[id.index];
        nodes := nodes[id.index := node.(refcount := node.refcount + 1)];
        handles := handles + Ref(id);
        assert S() == Bump(s, id.index, 1);
      }
    }

    /** The counts are exact, and the caller holds a reference; or there are others, and nothing is released. */
    method Decref(id: NodeId)
      requires Valid(S()) && ((Counted(S()) && Ref(id) <= handles) || Spare(S(), id))
      modifies this
      ensures Valid(S()) && OnlyFrees(old(graph), graph)
      ensures handles == old(handles) - Ref(id)
      ensures old(Counted(S()) && Ref(id) <= handles) ==> Counted(S())
      ensures old(Spare(S(), id)) ==> graph == old(graph) && S() == BumpId(old(S()), id, -1)
      decreases LiveSet(graph), 1
    {
      hide Valid, CountedBut, Ref, IdOk;
      ghost var s := S();
      GivenUp(s, id);
      if id.Nonterminal? {
        var i := id.index;
        var node := nodes[i];
        nodes := nodes[i := node.(refcount := node.refcount - 1)];
        handles := handles - Ref(id);
        assert S() == Bump(s, i, -1);
        if nodes[i].refcount == 0 {
          Release(i);
        }
      }
    }

    /** Node i has no references left: it releases its children and goes to the free list. */
    method Release(i: nat)
      requires Valid(S()) && CountedBut(S(), i) && IdOk(graph, Nonterminal(i)) && nodes[i].refcount == 0
      modifies this
      ensures Valid(S()) && Counted(S()) && OnlyFrees(old(graph), graph)
      ensures handles == old(handles) && graph[i].Free?
      decreases LiveSet(graph), 0
    {
      ghost var s := S();
      BeginRelease(i);
      ghost var low, high := nodes[i].low, nodes[i].high;
      Returned(s.handles, low, high);
      SlotContents(S(), i);
      ReleaseFrees(s.graph, i, graph, graph);
      hide Valid, CountedBut, Ref, OnlyFrees, LiveSet;
      Decref(nodes[i].low);
      ghost var afterLow := graph;
      ReleaseFrees(s.graph, i, afterLow, afterLow);
      SlotContents(S(), i);
      Decref(nodes[i].high);
      ReleaseFrees(s.graph, i, afterLow, graph);
      EndRelease(i);
    }

    /** A ghost step: the edges of a node whose count is zero become references of the release in progress. */
    ghost method BeginRelease(i: nat)
      requires Valid(S()) && CountedBut(S(), i) && IdOk(graph, Nonterminal(i)) && nodes[i].refcount == 0
      modifies this`graph, this`handles
      ensures Valid(S()) && Counted(S())
      ensures graph == old(graph)[i := Dying(old(graph[i]).key)]
      ensures handles == old(handles) + Ref(nodes[i].low) + Ref(nodes[i].high)
    {
      var s := S();
      RetireValid(s, i);
      RetireCounted(s, i);
      graph, handles := Retire(s, i).graph, Retire(s, i).handles;
      assert S() == Retire(s, i);
    }

    /** The last part of a release: out of the hash table, onto the free list. */
    method EndRelease(i: nat)
      requires Valid(S()) && Counted(S()) && i < |graph| && graph[i].Dying?
      modifies this
      ensures Valid(S()) && Counted(S())
      ensures graph == old(graph)[i := Free] && handles == old(handles)
    {
      ghost var s := S();
      nodeCache := nodeCache - {nodes[i].Contents()};
      nodes := nodes[i := nodes[i].(refcount := freeList)];
      freeList := i;
      graph, free := graph[i := Free], [i] + free;
      assert S() == Recycle(s, i);
      RecycleValid(s, i);
      RecycleCounted(s, i);
    }

    /** The caller accounts for references and owns one to each of low and high. */
    ghost predicate Owned(low: NodeId, high: NodeId) reads this {
      Counted(S()) && Ref(low) + Ref(high) <= handles
    }

    /** An existing node takes the place of a new one with the same children. */
    method Reuse(id: NodeId, low: NodeId, high: NodeId)
      requires Valid(S()) && IdOk(graph, id) && id.Nonterminal? && Spare(S(), low) && Spare(S(), high)
      requires graph[id.index].key.low == low && graph[id.index].key.high == high && low != high
      modifies this
      ensures Valid(S()) && graph == old(graph)
      ensures IdOk(graph, low) && IdOk(graph, high)
      ensures S() == BumpId(BumpId(BumpId(old(S()), id, 1), low, -1), high, -1)
      ensures old(Owned(low, high)) ==> Counted(S()) && handles == old(handles) - Ref(low) - Ref(high) + Ref(id)
    {
      hide Valid, CountedBut, Ref, GraphOk, Spare, BumpId, Bump;
      ghost var s := S();
      ReuseSteps(s, id);
      if Owned(low, high) {
        Exchanged(handles, id, low, high);
      }
      var _ := Incref(id);
      Decref(low);
      Decref(high);
    }

    /** A held child of a live node is referenced at least twice. */
    lemma {:induction false} SharedChild(c: NodeId, parent: nat)
      requires Valid(S()) && Counted(S()) && parent < |graph| && graph[parent].Live?
      requires c == graph[parent].key.low || c == graph[parent].key.high
      requires Ref(c) <= handles
      ensures c.Nonterminal? ==> c.index < |nodes| && nodes[c.index].refcount > 1
    {
      HeldIsLive(S(), c);
      assert KeyOk(graph, graph[parent].key);
      if c.Nonterminal? {
        EdgesPositive(graph, c.index);
        assert Owns(graph[parent], c.index) > 0;
        assert CountOk(S(), c.index);
        assert multiset{c} <= handles;
      }
    }

    /** A node with new contents. */
    method Create(key: Key) returns (r: NodeId)
      requires Valid(S()) && KeyOk(graph, key) && key !in nodeCache
      modifies this
      ensures Valid(S()) && S() == Fill(old(S()), key) && r == Nonterminal(NextIndex(old(S())))
    {
      hide NodesOk, FreeOk, TableOk, GraphOk, KeyOk;
      ghost var s := S();
      FillValid(s, key);
      var newIndex := AllocNode();
      r := Nonterminal(newIndex);
      nodes := nodes[newIndex := Node(1, key.variable, key.low, key.high)];
      nodeCache := nodeCache[key := r];
      graph, free, handles := Fill(s, key).graph, Fill(s, key).free, Fill(s, key).handles;
      assert nodes == Fill(s, key).nodes;
      assert S() == Fill(s, key);
    }

    /** A caller that owns the references makes a node safely. */
    lemma {:induction false} OwnedIsSafe(variable: nat, low: NodeId, high: NodeId)
      requires Ok() && Owned(low, high)
      requires IdAtLeast(graph, low, variable + 1) && IdAtLeast(graph, high, variable + 1)
      ensures Safe(S(), Key(variable, low, high))
    {
      var key := Key(variable, low, high);
      if low == high {
        if high.Nonterminal? {
          HeldIsLive(S(), high);
          assert handles[high] >= 2;
          assert CountOk(S(), high.index);
        }
      } else if key in nodeCache {
        Lookup(S(), key);
        HeldIsLive(S(), low);
        HeldIsLive(S(), high);
        SharedChild(low, nodeCache[key].index);
        SharedChild(high, nodeCache[key].index);
      }
    }

    /**
     The hash-consing constructor. It steals the references to low and high: if the caller owns them, exact counts
     stay exact. In any case the structure is kept, as long as it is safe to make this node.
     */
    method MakeNonterminal(variable: nat, low: NodeId, high: NodeId) returns (r: NodeId)
      requires Ok() && Safe(S(), Key(variable, low, high))
      modifies this
      ensures Ok() && (S(), r) == Made(old(S()), Key(variable, low, high))
      ensures Sub(old(graph), graph) && IdOk(graph, r) && old(IdOk(graph, low)) && old(IdOk(graph, high))
      ensures Meaning(r) == Mk(variable, old(Meaning(low)), old(Meaning(high)))
      ensures old(Owned(low, high)) ==>
                Counted(S()) && handles == old(handles) - Ref(low) - Ref(high) + Ref(r)
    {
      hide Valid, Settled, CountedBut, GraphOk, Ref, IdOk, Spare, KeyOk, BumpId, Mk, Sub, OnlyFrees;
      ghost var s := S();
      var key := Key(variable, low, high);
      MadeOk(s, key);
      if low == high {
        if Owned(low, high) {
          TwoHeld(handles, low);
        }
        Decref(high);
        r := low;
      } else if key in nodeCache {
        r := nodeCache[key];
        Lookup(s, key);
        Reuse(r, low, high);
      } else {
        if Owned(low, high) {
          FillCounted(s, key);
        }
        r := Create(key);
      }
      assert (S(), r) == Made(s, key);
    }

    /** Evaluates a BDD under a valuation of its variables. */
    method Evaluate(id: NodeId, assignment: Valuation) returns (r: nat)
      requires Valid(S()) && IdOk(graph, id)
      ensures r == Eval(Meaning(id), assignment)
    {
      var curr := id;
      while curr.Nonterminal?
        invariant IdOk(graph, curr)
        invariant Eval(Meaning(curr), assignment) == Eval(Meaning(id), assignment)
        decreases Meaning(curr)
      {
        var node := nodes[curr.index];
        assert KeyOk(graph, graph[curr.index].key);
        if assignment(node.variable) {
          curr := node.high;
        } else {
          curr := node.low;
        }
      }
      r := curr.value;
    }

    /** Whether nodes of two caches, possibly the same one, have equal BDDs. */
    function NodesEqual(id1: NodeId, that: Cache, id2: NodeId): (r: bool)
      reads this, that
      requires Valid(S()) && Valid(that.S()) && IdOk(graph, id1) && IdOk(that.graph, id2)
      ensures r <==> Meaning(id1) == that.Meaning(id2)
      decreases Meaning(id1)
    {
      if id1.Nonterminal? != id2.Nonterminal? then false
      else if id1.Terminal? then id1 == id2
      else
        assert KeyOk(graph, graph[id1.index].key) && KeyOk(that.graph, that.graph[id2.index].key);
        var node1, node2 := nodes[id1.index], that.nodes[id2.index];
        && node1.variable == node2.variable
        && NodesEqual(node1.low, that, node2.low)
        && NodesEqual(node1.high, that, node2.high)
    }

    /** Comparing structure decides equality of functions, across caches. */
    lemma {:induction false} NodesEqualIffSameFunction(id1: NodeId, that: Cache, id2: NodeId)
      requires Valid(S()) && Valid(that.S()) && IdOk(graph, id1) && IdOk(that.graph, id2)
      ensures NodesEqual(id1, that, id2) <==> SameFunction(Meaning(id1), that.Meaning(id2))
    {
      UnfoldCanonical(graph, id1);
      UnfoldCanonical(that.graph, id2);
      CanonicalUnique(Meaning(id1), that.Meaning(id2));
    }

    /** Builds a node from two results obtained one after the other. */
    method Combine(variable: nat, low: NodeId, high: NodeId, ghost held: multiset<NodeId>) returns (r: NodeId)
      requires Exact() && IdAtLeast(graph, low, variable + 1) && IdAtLeast(graph, high, variable + 1)
      requires handles == held + Ref(high) + Ref(low)
      modifies this
      ensures Exact() && Sub(old(graph), graph) && IdOk(graph, r)
      ensures handles == held + Ref(r)
      ensures Meaning(r) == Mk(variable, old(Meaning(low)), old(Meaning(high)))
    {
      Stolen(held, low, high);
      OwnedIsSafe(variable, low, high);
      hide Valid, CountedBut, Settled, Ref;
      r := MakeNonterminal(variable, low, high);
    }

    /**
     F? G: H for the fake node F, the terminal G and the node H, by the standard recursion of APPLY.
     The cache and F's current variable change on the way; `zero` is the one shared fake terminal 0.
     */
    method ApplyIte(f: FakeNode, zero: FakeNode, g: nat, h: NodeId) returns (r: NodeId)
      requires Exact() && IdOk(graph, h)
      requires f.currentVar <= f.varCount
      requires zero.value == 0 && (f == zero ==> f.currentVar == f.varCount)
      modifies this, f, zero
      ensures Exact() && Sub(old(graph), graph) && IdOk(graph, r)
      ensures handles == old(handles) + Ref(r)
      ensures f.currentVar == old(f.currentVar) && f.varCount == old(f.varCount)
      ensures Meaning(r) == Ite(f.currentVar, f.varCount, f.assignment, f.value != 0, g, old(Meaning(h)))
      decreases 2 * (f.varCount - f.currentVar), Meaning(h), 1
    {
      hide Valid, CountedBut, Settled, Ref, Unfold, BumpId, Distinct, KeyOk;
      if f.currentVar == f.varCount {
        r := IteEnd(f, g, h);
        return;
      }
      if h == Terminal(g) {
        TerminalFacts(S(), g);
        return h;
      }
      var hLow, hHigh := h, h;
      if h.Nonterminal? {
        ReadNode(h.index);
        var hNode := nodes[h.index];
        if hNode.variable < f.currentVar {
          r := IteBelowH(f, zero, g, h);
          return;
        } else if hNode.variable == f.currentVar {
          hLow, hHigh := hNode.low, hNode.high;
        }
      }
      r := IteBelowF(f, zero, g, hLow, hHigh);
    }

    /** F is a terminal. */
    method IteEnd(f: FakeNode, g: nat, h: NodeId) returns (r: NodeId)
      requires Exact() && IdOk(graph, h)
      modifies this`nodes, this`handles
      ensures Exact() && IdOk(graph, r) && handles == old(handles) + Ref(r)
      ensures Meaning(r) == if f.value == 0 then Meaning(h) else Leaf(g)
    {
      hide Valid, CountedBut, BumpId, Bump;
      if f.value == 0 {
        r := Incref(h);
      } else {
        r := Terminal(g);
      }
    }

    /** H tests an earlier variable than F: recurse down the H branches only. */
    method IteBelowH(f: FakeNode, zero: FakeNode, g: nat, h: NodeId) returns (r: NodeId)
      requires Exact() && IdOk(graph, h) && h.Nonterminal?
      requires f.currentVar < f.varCount && nodes[h.index].variable < f.currentVar
      requires zero.value == 0 && f != zero
      modifies this, f, zero
      ensures Exact() && Sub(old(graph), graph) && IdOk(graph, r)
      ensures handles == old(handles) + Ref(r)
      ensures f.currentVar == old(f.currentVar) && f.varCount == old(f.varCount)
      ensures Meaning(r) == Ite(f.currentVar, f.varCount, f.assignment, f.value != 0, g, old(Meaning(h)))
      decreases 2 * (f.varCount - f.currentVar), Meaning(h), 0
    {
      hide Valid, GraphOk, CountedBut, Settled, Ref, Ite, Unfold, Mk, Canonical, Sub, Distinct, KeyOk;
      ghost var g0, held := graph, handles;
      IteBelowRoot(f.currentVar, f.varCount, f.assignment, f.value != 0, g, h);

      var resultHigh := ApplyIte(f, zero, g, nodes[h.index].high);
      ghost var g1 := graph;
      StillReads(g0, h.index);
      var resultLow := ApplyIte(f, zero, g, nodes[h.index].low);
      ghost var g2 := graph;
      UnfoldStable(g1, g2, resultHigh);
      SubTransitive(g0, g1, g2);
      StillReads(g0, h.index);
      r := Combine(nodes[h.index].variable, resultLow, resultHigh, held);
      SubTransitive(g0, g2, graph);
    }

    lemma {:induction false} IteBelowRoot(k: nat, n: nat, a: Valuation, accept: bool, g: nat, h: NodeId)
      requires Exact() && IdOk(graph, h) && h.Nonterminal? && k < n && nodes[h.index].variable < k
      ensures h.index < |nodes| && IdOk(graph, nodes[h.index].low) && IdOk(graph, nodes[h.index].high)
      ensures var v, low, high := nodes[h.index].variable, Meaning(nodes[h.index].low), Meaning(nodes[h.index].high);
              && Meaning(h) == Branch(v, low, high)
              && Ite(k, n, a, accept, g, Meaning(h))
                 == Mk(v, Ite(k, n, a, accept, g, low), Ite(k, n, a, accept, g, high))
              && RootAtLeast(Ite(k, n, a, accept, g, low), v + 1)
              && RootAtLeast(Ite(k, n, a, accept, g, high), v + 1)
    {
      ReadNode(h.index);
      UnfoldCanonical(graph, h);
      IteBelow(k, n, a, accept, g, Meaning(h));
    }

    /** A node that was live before the graph grew is read as before. */
    lemma {:induction false} StillReads(g: Graph, i: nat)
      requires Ok() && GraphOk(g) && Sub(g, graph) && IdOk(g, Nonterminal(i))
      ensures i < |nodes| && nodes[i].Contents() == g[i].key
      ensures IdOk(graph, nodes[i].low) && IdOk(graph, nodes[i].high)
      ensures Branch(nodes[i].variable, Meaning(nodes[i].low), Meaning(nodes[i].high)) == Unfold(g, Nonterminal(i))
    {
      UnfoldStable(g, graph, Nonterminal(i));
      ReadNode(i);
    }

    /** What the fields of a live node say. */
    lemma {:induction false} ReadNode(i: nat)
      requires Valid(S()) && IdOk(graph, Nonterminal(i))
      ensures i < |nodes| && nodes[i].Contents() == graph[i].key && KeyOk(graph, graph[i].key)
      ensures Meaning(Nonterminal(i))
           == Branch(nodes[i].variable, Meaning(nodes[i].low), Meaning(nodes[i].high))
      ensures Distinct(graph)
    {
      LiveKeyOk(graph, i);
    }

    /**
     F tests the current variable: one branch of F is the terminal 0, the other F with the next variable.
     */
    method IteBelowF(f: FakeNode, zero: FakeNode, g: nat, hLow: NodeId, hHigh: NodeId) returns (r: NodeId)
      requires Exact()
      requires f.currentVar < f.varCount && zero.value == 0 && f != zero
      requires IdAtLeast(graph, hLow, f.currentVar + 1) && IdAtLeast(graph, hHigh, f.currentVar + 1)
      modifies this, f, zero
      ensures Exact() && Sub(old(graph), graph) && IdOk(graph, r)
      ensures handles == old(handles) + Ref(r)
      ensures f.currentVar == old(f.currentVar) && f.varCount == old(f.varCount)
      ensures Meaning(r) == IteStep(f.currentVar, f.varCount, f.assignment, f.value != 0, g,
                                    old(Meaning(hLow)), old(Meaning(hHigh)))
      decreases 2 * (f.varCount - f.currentVar) - 1, 1
    {
      ghost var s := S();
      hide Valid, GraphOk, CountedBut, Settled, Ref, Ite, IteBranch, Unfold, Mk, Sub, Canonical;

      var resultHigh := IteOneBranch(f, zero, g, hHigh, f.assignment(f.currentVar));
      ghost var u := graph;
      UnfoldStable(s.graph, u, hLow);
      var resultLow := IteOneBranch(f, zero, g, hLow, !f.assignment(f.currentVar));
      UnfoldStable(u, graph, resultHigh);
      SubTransitive(s.graph, u, graph);
      u := graph;
      r := Combine(f.currentVar, resultLow, resultHigh, s.handles);
      SubTransitive(s.graph, u, graph);
    }

    /** The branch of F that agrees with the assignment is F with the next variable; the other, the fake terminal. */
    method IteOneBranch(f: FakeNode, zero: FakeNode, g: nat, h: NodeId, taken: bool) returns (r: NodeId)
      requires Exact()
      requires f.currentVar < f.varCount && zero.value == 0 && f != zero
      requires IdAtLeast(graph, h, f.currentVar + 1)
      modifies this, f, zero
      ensures Exact() && Sub(old(graph), graph) && IdAtLeast(graph, r, f.currentVar + 1)
      ensures handles == old(handles) + Ref(r)
      ensures f.currentVar == old(f.currentVar) && f.varCount == old(f.varCount)
      ensures Meaning(r) == IteBranch(f.currentVar, f.varCount, f.assignment, f.value != 0, g, old(Meaning(h)), taken)
      decreases 2 * (f.varCount - f.currentVar) - 1, 0
    {
      hide Valid, GraphOk, CountedBut, Settled, Ref, Unfold, Sub, KeyOk, Ite;
      if taken {
        r := IteNext(f, zero, g, h);
      } else {
        IteOfZero(f.varCount, zero.assignment, g, Meaning(h));
        zero.currentVar := f.varCount;
        zero.varCount := f.varCount;
        r := ApplyIte(zero, zero, g, h);
      }
    }

    lemma {:induction false} IteNextRoot(k: nat, n: nat, a: Valuation, accept: bool, g: nat, h: NodeId)
      requires Exact() && IdAtLeast(graph, h, k + 1) && k < n
      ensures RootAtLeast(Ite(k + 1, n, a, accept, g, Meaning(h)), k + 1)
    {
      UnfoldCanonical(graph, h);
      IteCanonical(k + 1, n, a, accept, g, Meaning(h), k + 1);
    }

    /** F with the next variable. */
    method IteNext(f: FakeNode, zero: FakeNode, g: nat, h: NodeId) returns (r: NodeId)
      requires Exact()
      requires f.currentVar < f.varCount && zero.value == 0 && f != zero
      requires IdAtLeast(graph, h, f.currentVar + 1)
      modifies this, f, zero
      ensures Exact() && Sub(old(graph), graph) && IdAtLeast(graph, r, f.currentVar + 1)
      ensures handles == old(handles) + Ref(r)
      ensures f.currentVar == old(f.currentVar) && f.varCount == old(f.varCount)
      ensures Meaning(r) == Ite(f.currentVar + 1, f.varCount, f.assignment, f.value != 0, g, old(Meaning(h)))
      decreases 2 * (f.varCount - f.currentVar) - 2, Meaning(h), 2
    {
      hide Valid, GraphOk, CountedBut, Settled, Ref, Unfold, Ite, Canonical, Sub, KeyOk;
      IteNextRoot(f.currentVar, f.varCount, f.assignment, f.value != 0, g, h);
      f.currentVar := f.currentVar + 1;
      r := ApplyIte(f, zero, g, h);
      f.currentVar := f.currentVar - 1;
    }

    /** Adds an assignment of the first varCount variables to a BDD; the old BDD stays as it was. */
    method Insert(id: NodeId, assignment: Valuation, varCount: nat, value: nat, zero: FakeNode) returns (r: NodeId)
      requires Exact() && IdOk(graph, id) && zero.value == 0
      modifies this, zero
      ensures Exact() && Sub(old(graph), graph) && IdOk(graph, r)
      ensures handles == old(handles) + Ref(r)
      ensures forall x: Valuation ::
                Eval(Meaning(r), x) == if InCube(x, assignment, 0, varCount) then value else old(Eval(Meaning(id), x))
      ensures Meaning(r) == Ite(0, varCount, assignment, true, value, old(Meaning(id)))
      ensures Meaning(id) == old(Meaning(id))
    {
      var f := new FakeNode(0, varCount, assignment, 1);
      ghost var g, t := graph, Meaning(id);
      r := ApplyIte(f, zero, value, id);
      UnfoldStable(g, graph, id);
      forall x: Valuation
        ensures Eval(Meaning(r), x) == if InCube(x, assignment, 0, varCount) then value else Eval(t, x)
      {
        IteMeaning(0, varCount, assignment, value, t, x);
      }
    }
  }
}

/**
 Whole runs of a node cache: any sequence of insertions, reference increments and decrements by a
 client that holds a list of BDD roots.
 */
module CacheRuns {
  import opened DecisionTree
  import opened NodeGraph
  import opened CacheState
  import opened NodeCache

  // ----- storage is exact

  /** Children of reachable nodes are reachable. */
  lemma {:induction false} ReachClosed(g: Graph, id: NodeId, p: nat, c: nat)
    requires GraphOk(g) && IdOk(g, id) && p in Reach(g, id) && g[p].Live? && Owns(g[p], c) > 0
    ensures c in Reach(g, id)
    decreases Above(g, id)
  {
    var i := id.index;
    AboveShrinks(g, i);
    LiveKeyOk(g, i);
    if p != i {
      if p in Reach(g, g[i].key.low) {
        ReachClosed(g, g[i].key.low, p, c);
      } else {
        ReachClosed(g, g[i].key.high, p, c);
      }
    }
  }

  /** A live node hangs from some held reference. */
  lemma {:induction false} LiveIsReachable(s: State, i: nat) returns (root: NodeId)
    requires Valid(s) && Counted(s) && IdOk(s.graph, Nonterminal(i))
    ensures root in s.handles && i in Reach(s.graph, root)
    decreases s.graph[i].key.variable
  {
    assert CountOk(s, i);
    if Nonterminal(i) in s.handles {
      root := Nonterminal(i);
    } else {
      EdgesPositive(s.graph, i);
      var p :| 0 <= p < |s.graph| && Owns(s.graph[p], i) > 0;
      LiveKeyOk(s.graph, p);
      root := LiveIsReachable(s, p);
      ReachClosed(s.graph, root, p, i);
    }
  }

  // ----- runs

  datatype Op =
    | Insert(root: nat, assignment: Valuation, varCount: nat, value: nat)
    | Incref(root: nat)
    | Decref(root: nat)

  type Function = Valuation -> nat

  /** The functions that the client's roots denote after one operation; an operation on no root is none. */
  ghost function Step(fs: seq<Function>, op: Op): seq<Function> {
    if |fs| <= op.root then fs
    else match op
      case Insert(k, a, n, v) => fs + [(x: Valuation) => if InCube(x, a, 0, n) then v else fs[k](x)]
      case Incref(k) => fs + [fs[k]]
      case Decref(k) => fs[..k] + fs[k + 1..]
  }

  ghost function Denotation(ops: seq<Op>): seq<Function> {
    if ops == [] then [_ => 0]
    else Step(Denotation(ops[..|ops| - 1]), ops[|ops| - 1])
  }

  ghost function Refs(roots: seq<NodeId>): multiset<NodeId> {
    if roots == [] then multiset{} else Refs(roots[..|roots| - 1]) + Ref(roots[|roots| - 1])
  }

  lemma {:induction false} RefsAppend(roots: seq<NodeId>, id: NodeId)
    ensures Refs(roots + [id]) == Refs(roots) + Ref(id)
  {
    assert (roots + [id])[..|roots|] == roots;
  }

  lemma {:induction false} Shift<T>(a: multiset<T>, b: multiset<T>, c: multiset<T>)
    requires b <= a
    ensures a - b + c == a + c - b && b <= a + c
  {
  }

  lemma {:induction false} RefsRemove(roots: seq<NodeId>, k: nat)
    requires k < |roots|
    ensures Ref(roots[k]) <= Refs(roots)
    ensures Refs(roots[..k] + roots[k + 1..]) == Refs(roots) - Ref(roots[k])
  {
    hide Ref;
    var n := |roots| - 1;
    var front := roots[..n];
    assert Refs(roots) == Refs(front) + Ref(roots[n]);
    hide Refs;
    if k == n {
      assert roots[..k] + roots[k + 1..] == front;
    } else {
      var rest := front[..k] + front[k + 1..];
      RefsRemove(front, k);
      assert roots[..k] + roots[k + 1..] == rest + [roots[n]];
      RefsAppend(rest, roots[n]);
      Shift(Refs(front), Ref(roots[k]), Ref(roots[n]));
    }
  }

  lemma {:induction false} RefsMember(roots: seq<NodeId>, id: NodeId)
    ensures id in Refs(roots) <==> id.Nonterminal? && id in roots
  {
    if roots != [] {
      RefsMember(roots[..|roots| - 1], id);
      assert roots == roots[..|roots| - 1] + [roots[|roots| - 1]];
    }
  }

  /** Each root denotes its function. */
  ghost predicate Denotes(g: Graph, roots: seq<NodeId>, fs: seq<Function>) {
    && GraphOk(g)
    && |roots| == |fs|
    && forall k :: 0 <= k < |roots| ==> IdOk(g, roots[k]) && forall x :: Eval(Unfold(g, roots[k]), x) == fs[k](x)
  }

  /** Roots keep their functions when the nodes they need stay as they are. */
  lemma {:induction false} DenotesStable(g: Graph, h: Graph, roots: seq<NodeId>, fs: seq<Function>)
    requires Denotes(g, roots, fs) && GraphOk(h)
    requires Sub(g, h) || (OnlyFrees(g, h) && forall k :: 0 <= k < |roots| ==> IdOk(h, roots[k]))
    ensures Denotes(h, roots, fs)
  {
    forall k | 0 <= k < |roots| ensures IdOk(h, roots[k]) && Unfold(h, roots[k]) == Unfold(g, roots[k]) {
      if Sub(g, h) {
        UnfoldStable(g, h, roots[k]);
      } else {
        UnfoldStable(h, g, roots[k]);
      }
    }
  }

  lemma {:induction false} DenotesAppend(g: Graph, roots: seq<NodeId>, fs: seq<Function>, r: NodeId, f: Function)
    requires Denotes(g, roots, fs) && IdOk(g, r) && forall x :: Eval(Unfold(g, r), x) == f(x)
    ensures Denotes(g, roots + [r], fs + [f])
  {
  }

  lemma {:induction false} DenotesRemove(g: Graph, roots: seq<NodeId>, fs: seq<Function>, k: nat)
    requires Denotes(g, roots, fs) && k < |roots|
    ensures Denotes(g, roots[..k] + roots[k + 1..], fs[..k] + fs[k + 1..])
  {
  }

  /** One operation on the client's roots. */
  method Execute(cache: Cache, zero: FakeNode, roots: seq<NodeId>, op: Op, ghost fs: seq<Function>)
    returns (roots': seq<NodeId>)
    requires cache.Exact() && zero.value == 0
    requires cache.handles == Refs(roots) && Denotes(cache.graph, roots, fs)
    modifies cache, zero
    ensures cache.Exact()
    ensures cache.handles == Refs(roots') && Denotes(cache.graph, roots', Step(fs, op))
  {
    if |roots| <= op.root {
      return roots;
    }
    hide Valid, CountedBut, GraphOk, Denotes, Refs, Ref, Settled;
    match op {
      case Insert(_, _, _, _) =>
        var r := DoInsert(cache, zero, roots, op, fs);
        roots' := roots + [r];
      case Incref(_) =>
        var r := DoIncref(cache, roots, op, fs);
        roots' := roots + [r];
      case Decref(_) =>
        roots' := DoDecref(cache, roots, op, fs);
    }
  }

  method DoIncref(cache: Cache, roots: seq<NodeId>, op: Op, ghost fs: seq<Function>) returns (r: NodeId)
    requires cache.Exact() && cache.handles == Refs(roots) && Denotes(cache.graph, roots, fs)
    requires op.Incref? && op.root < |roots|
    modifies cache
    ensures cache.Exact()
    ensures cache.handles == Refs(roots + [r]) && Denotes(cache.graph, roots + [r], Step(fs, op))
  {
    DenotesAppend(cache.graph, roots, fs, roots[op.root], fs[op.root]);
    RefsAppend(roots, roots[op.root]);
    hide Valid, CountedBut, GraphOk, Denotes, Refs, Ref, Settled;
    r := cache.Incref(roots[op.root]);
  }

  method DoDecref(cache: Cache, roots: seq<NodeId>, op: Op, ghost fs: seq<Function>) returns (roots': seq<NodeId>)
    requires cache.Exact() && cache.handles == Refs(roots) && Denotes(cache.graph, roots, fs)
    requires op.Decref? && op.root < |roots|
    modifies cache
    ensures cache.Exact()
    ensures cache.handles == Refs(roots') && Denotes(cache.graph, roots', Step(fs, op))
  {
    ghost var s := cache.S();
    roots' := roots[..op.root] + roots[op.root + 1..];
    RefsRemove(roots, op.root);
    DenotesRemove(s.graph, roots, fs, op.root);
    assert Step(fs, op) == fs[..op.root] + fs[op.root + 1..];
    hide Valid, CountedBut, GraphOk, Denotes, Refs, Ref, Settled, OnlyFrees;
    cache.Decref(roots[op.root]);
    AfterDecref(s, cache.S(), roots', Step(fs, op));
  }

  lemma {:induction false} AfterDecref(s: State, t: State, roots: seq<NodeId>, fs: seq<Function>)
    requires Denotes(s.graph, roots, fs) && Settled(s) && OnlyFrees(s.graph, t.graph)
    requires Valid(t) && Counted(t) && t.handles == Refs(roots)
    ensures Settled(t) && GraphOk(t.graph) && Denotes(t.graph, roots, fs)
  {
    HeldRootsLive(t, roots);
    DenotesStable(s.graph, t.graph, roots, fs);
  }

  method DoInsert(cache: Cache, zero: FakeNode, roots: seq<NodeId>, op: Op, ghost fs: seq<Function>)
    returns (r: NodeId)
    requires cache.Exact() && zero.value == 0
    requires cache.handles == Refs(roots) && Denotes(cache.graph, roots, fs)
    requires op.Insert? && op.root < |roots|
    modifies cache, zero
    ensures cache.Exact()
    ensures cache.handles == Refs(roots + [r]) && Denotes(cache.graph, roots + [r], Step(fs, op))
  {
    ghost var g := cache.graph;
    ghost var t := cache.Meaning(roots[op.root]);
    assert forall x :: Eval(t, x) == fs[op.root](x);
    hide Valid, CountedBut, GraphOk, Refs, Ref, Settled, Denotes, Sub;
    r := cache.Insert(roots[op.root], op.assignment, op.varCount, op.value, zero);
    RefsAppend(roots, r);
    DenotesStable(g, cache.graph, roots, fs);
    ghost var f := (x: Valuation) => if InCube(x, op.assignment, 0, op.varCount) then op.value else fs[op.root](x);
    DenotesAppend(cache.graph, roots, fs, r, f);
  }

  lemma {:induction false} HeldRootsLive(s: State, roots: seq<NodeId>)
    requires Counted(s) && s.handles == Refs(roots)
    ensures forall k :: 0 <= k < |roots| ==> IdOk(s.graph, roots[k])
  {
    forall k | 0 <= k < |roots| ensures IdOk(s.graph, roots[k]) {
      RefsMember(roots, roots[k]);
    }
  }

  method Start(cache: Cache) returns (roots: seq<NodeId>)
    requires cache.Exact() && cache.graph == [] && cache.handles == multiset{}
    ensures cache.handles == Refs(roots) && Denotes(cache.graph, roots, Denotation([]))
  {
    roots := [Terminal(0)];
    assert Refs(roots) == Refs([]) + Ref(Terminal(0));
  }

  /** Roots are the same id exactly if they denote the same function. */
  ghost predicate IdsAreFunctions(roots: seq<NodeId>, fs: seq<Function>) {
    && |roots| == |fs|
    && forall k, l :: 0 <= k < |roots| && 0 <= l < |roots| ==>
         (roots[k] == roots[l] <==> forall x :: fs[k](x) == fs[l](x))
  }

  /** The slots in use are exactly those the roots need. */
  ghost predicate StorageExact(g: Graph, roots: seq<NodeId>) {
    && GraphOk(g)
    && (forall k :: 0 <= k < |roots| ==> IdOk(g, roots[k]))
    && forall i :: 0 <= i < |g| ==>
         if g[i].Free? then forall k :: 0 <= k < |roots| ==> i !in Reach(g, roots[k])
         else exists k :: 0 <= k < |roots| && i in Reach(g, roots[k])
  }

  /**
   Any run from an empty cache, starting as ipset_init does from the one root "terminal 0": at its end
   every root evaluates as the run says, ids are canonical, and storage and reference counts are exact.
   */
  method Run(cache: Cache, zero: FakeNode, ops: seq<Op>) returns (roots: seq<NodeId>)
    requires cache.Exact() && cache.graph == [] && cache.handles == multiset{} && zero.value == 0
    modifies cache, zero
    ensures cache.Exact() && cache.handles == Refs(roots)
    ensures Denotes(cache.graph, roots, Denotation(ops))
    ensures IdsAreFunctions(roots, Denotation(ops))
    ensures StorageExact(cache.graph, roots)
  {
    roots := Start(cache);
    assert ops[..0] == [];
    hide Valid, CountedBut, GraphOk, Refs, Ref, Settled, Denotes, IdsAreFunctions, StorageExact, Denotation;
    for j := 0 to |ops|
      invariant cache.Exact() && cache.handles == Refs(roots)
      invariant Denotes(cache.graph, roots, Denotation(ops[..j]))
    {
      DenotationStep(ops, j);
      roots := Execute(cache, zero, roots, ops[j], Denotation(ops[..j]));
    }
    assert ops[..|ops|] == ops;
    RunEnds(cache.S(), roots, Denotation(ops));
  }

  lemma {:induction false} DenotationStep(ops: seq<Op>, j: nat)
    requires j < |ops|
    ensures Denotation(ops[..j + 1]) == Step(Denotation(ops[..j]), ops[j])
  {
    assert ops[..j + 1][..j] == ops[..j];
  }

  lemma {:induction false} RunEnds(s: State, roots: seq<NodeId>, fs: seq<Function>)
    requires Valid(s) && Settled(s) && Counted(s) && s.handles == Refs(roots) && Denotes(s.graph, roots, fs)
    ensures IdsAreFunctions(roots, fs)
    ensures StorageExact(s.graph, roots)
  {
    RootsCanonical(s, roots, fs);
    RootsKeepAll(s, roots);
  }

  lemma {:induction false} RootsCanonical(s: State, roots: seq<NodeId>, fs: seq<Function>)
    requires Valid(s) && Denotes(s.graph, roots, fs)
    ensures IdsAreFunctions(roots, fs)
  {
    ValidDistinct(s);
    forall k, l | 0 <= k < |roots| && 0 <= l < |roots|
      ensures roots[k] == roots[l] <==> forall x :: fs[k](x) == fs[l](x)
    {
      SameIdIffSameFunction(s.graph, roots[k], roots[l]);
    }
  }

  lemma {:induction false} RootsKeepAll(s: State, roots: seq<NodeId>)
    requires Valid(s) && Settled(s) && Counted(s) && s.handles == Refs(roots)
    ensures StorageExact(s.graph, roots)
  {
    HeldRootsLive(s, roots);
    forall i | 0 <= i < |s.graph| && !s.graph[i].Free?
      ensures exists k :: 0 <= k < |roots| && i in Reach(s.graph, roots[k])
    {
      var k := KeptBy(s, roots, i);
    }
    hide Reach, Valid, CountedBut, Settled, Refs;
    forall i, k | 0 <= i < |s.graph| && s.graph[i].Free? && 0 <= k < |roots|
      ensures i !in Reach(s.graph, roots[k])
    {
      assert i !in LiveSet(s.graph);
    }
  }

  lemma {:induction false} KeptBy(s: State, roots: seq<NodeId>, i: nat) returns (k: nat)
    requires Valid(s) && Counted(s) && s.handles == Refs(roots)
    requires IdOk(s.graph, Nonterminal(i))
    ensures k < |roots| && IdOk(s.graph, roots[k]) && i in Reach(s.graph, roots[k])
  {
    var root := LiveIsReachable(s, i);
    hide *;
    RefsMember(roots, root);
    k :| 0 <= k < |roots| && roots[k] == root;
  }
}

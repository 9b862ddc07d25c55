/**
 A node cache as a value: the invariant of NodeCache.dfy, and the lemmas that each elementary step of
 the cache keeps it.
 */
module CacheState {
  import opened DecisionTree
  import opened NodeGraph

  datatype Node = Node(refcount: int, variable: nat, low: NodeId, high: NodeId) {
    function Contents(): Key { Key(variable, low, high) }
  }

  /** (ipset_variable) -1 */
  const NULL_INDEX: int := -1

  /**
   The concrete fields of a cache, and three ghost ones: the graph, the indices on the free list in
   order, and the references that callers hold.
   */
  datatype State = State(
    nodes: seq<Node>, freeList: int, table: map<Key, NodeId>,
    graph: Graph, free: seq<nat>, handles: multiset<NodeId>)

  /** Following refcount links from head visits exactly the indices in list. */
  ghost predicate Chain(nodes: seq<Node>, head: int, list: seq<nat>)
    decreases list
  {
    if list == [] then head == NULL_INDEX
    else head == list[0] && list[0] < |nodes| && Chain(nodes, nodes[list[0]].refcount, list[1..])
  }

  lemma {:induction false} ChainFrame(nodes: seq<Node>, nodes': seq<Node>, head: int, list: seq<nat>)
    requires Chain(nodes, head, list) && |nodes| <= |nodes'|
    requires forall k :: 0 <= k < |list| && list[k] < |nodes| ==> nodes'[list[k]].refcount == nodes[list[k]].refcount
    ensures Chain(nodes', head, list)
    decreases list
  {
    if list != [] {
      forall k | 0 <= k < |list[1..]| && list[1..][k] < |nodes|
        ensures nodes'[list[1..][k]].refcount == nodes[list[1..][k]].refcount
      {
        assert list[1..][k] == list[k + 1];
      }
      ChainFrame(nodes, nodes', nodes[list[0]].refcount, list[1..]);
    }
  }

  // ----- structure

  /** The slots in use hold what the graph says. */
  ghost predicate NodesOk(s: State) {
    && |s.graph| == |s.nodes|
    && forall i :: 0 <= i < |s.graph| && !s.graph[i].Free? ==> s.nodes[i].Contents() == s.graph[i].key
  }

  /** The free list runs through exactly the free slots, each once. */
  ghost predicate FreeOk(s: State) {
    && Chain(s.nodes, s.freeList, s.free)
    && (forall i :: 0 <= i < |s.graph| && s.graph[i].Free? ==> i in s.free)
    && (forall k :: 0 <= k < |s.free| ==> s.free[k] < |s.graph| && s.graph[s.free[k]].Free?)
    && (forall k, l :: 0 <= k < l < |s.free| ==> s.free[k] != s.free[l])
  }

  /** The hash table maps the contents of each slot in use to that slot, and nothing else. */
  ghost predicate TableOk(s: State) {
    && (forall k :: k in s.table ==>
          && s.table[k].Nonterminal?
          && s.table[k].index < |s.graph|
          && !s.graph[s.table[k].index].Free?
          && s.graph[s.table[k].index].key == k)
    && (forall i :: 0 <= i < |s.graph| && !s.graph[i].Free? ==>
          s.graph[i].key in s.table && s.table[s.graph[i].key] == Nonterminal(i))
  }

  ghost predicate Valid(s: State) {
    NodesOk(s) && FreeOk(s) && TableOk(s) && GraphOk(s.graph)
  }

  /** No release is in progress. */
  ghost predicate Settled(s: State) {
    forall i :: 0 <= i < |s.graph| ==> !s.graph[i].Dying?
  }

  lemma {:induction false} ValidDistinct(s: State)
    requires Valid(s)
    ensures Distinct(s.graph)
  {
  }

  // ----- reference counts

  /** The reference that an id stands for; terminals are not counted. */
  function Ref(id: NodeId): multiset<NodeId> {
    if id.Nonterminal? then multiset{id} else multiset{}
  }

  /** The count of node i is the number of its parent edges plus the number of references held outside. */
  ghost predicate CountOk(s: State, i: nat)
    requires i < |s.graph| == |s.nodes|
  {
    match s.graph[i]
    case Live(_) => s.nodes[i].refcount == Edges(s.graph, i) + s.handles[Nonterminal(i)]
    case Dying(_) => s.nodes[i].refcount == 0
    case Free => true
  }

  /** All counts are right, all but possibly that of node `except` are positive, and held ids are live. */
  ghost predicate CountedBut(s: State, except: int) {
    && |s.graph| == |s.nodes|
    && (forall i :: 0 <= i < |s.graph| ==> CountOk(s, i))
    && (forall i :: 0 <= i < |s.graph| && s.graph[i].Live? && i != except ==> s.nodes[i].refcount > 0)
    && (forall id :: id in s.handles ==> IdOk(s.graph, id))
  }

  ghost predicate Counted(s: State) {
    CountedBut(s, -1)
  }

  // ----- the elementary steps

  /** Adds d to the count of node i, and (if d is 1) a reference to the held ones or (if -1) removes one. */
  function Bump(s: State, i: nat, d: int): State
    requires i < |s.nodes|
  {
    var n := s.nodes[i];
    s.(nodes := s.nodes[i := n.(refcount := n.refcount + d)],
       handles := if d > 0 then s.handles + Ref(Nonterminal(i)) else s.handles - Ref(Nonterminal(i)))
  }

  /** Counts play no part in the structure. */
  lemma {:induction false} BumpValid(s: State, i: nat, d: int)
    requires Valid(s) && IdOk(s.graph, Nonterminal(i))
    ensures i < |s.nodes| && Valid(Bump(s, i, d))
    ensures Settled(s) ==> Settled(Bump(s, i, d))
  {
    var t := Bump(s, i, d);
    ChainFrame(s.nodes, t.nodes, s.freeList, s.free);
  }

  lemma {:induction false} BumpOk(s: State, i: nat, d: int)
    requires Valid(s) && Counted(s) && IdOk(s.graph, Nonterminal(i))
    requires d == 1 || (d == -1 && Nonterminal(i) in s.handles)
    ensures Valid(Bump(s, i, d)) && CountedBut(Bump(s, i, d), i)
    ensures s.nodes[i].refcount >= 1
    ensures s.nodes[i].refcount + d > 0 ==> Counted(Bump(s, i, d))
  {
    var t := Bump(s, i, d);
    ChainFrame(s.nodes, t.nodes, s.freeList, s.free);
    forall j | 0 <= j < |t.graph| ensures CountOk(t, j) {
      assert CountOk(s, j);
    }
  }

  /** A node whose count has reached zero stops being live; its two edges become held references. */
  function Retire(s: State, i: nat): State
    requires i < |s.graph| && s.graph[i].Live?
  {
    var k := s.graph[i].key;
    s.(graph := s.graph[i := Dying(k)], handles := s.handles + Ref(k.low) + Ref(k.high))
  }

  lemma {:induction false} RetireShape(s: State, i: nat)
    requires Valid(s) && IdOk(s.graph, Nonterminal(i))
    ensures NodesOk(Retire(s, i)) && FreeOk(Retire(s, i)) && TableOk(Retire(s, i))
  {
    hide Chain, GraphOk;
  }

  lemma {:induction false} RetireValid(s: State, i: nat)
    requires Valid(s) && CountedBut(s, i) && IdOk(s.graph, Nonterminal(i)) && s.nodes[i].refcount == 0
    ensures Valid(Retire(s, i))
  {
    RetireShape(s, i);
    hide NodesOk, FreeOk, TableOk, GraphOk;
    assert CountOk(s, i);
    RetireOk(s.graph, i, Dying(s.graph[i].key));
  }

  lemma {:induction false} RetireCount(s: State, i: nat, j: nat)
    requires CountedBut(s, i) && IdOk(s.graph, Nonterminal(i)) && s.graph[i].key.low != s.graph[i].key.high
    requires j < |s.graph| && (j == i ==> s.nodes[i].refcount == 0)
    ensures CountOk(Retire(s, i), j)
  {
    assert CountOk(s, j);
    EdgesUpdate(s.graph, i, Dying(s.graph[i].key), j);
  }

  lemma {:induction false} RetireHandles(s: State, i: nat)
    requires Valid(s) && CountedBut(s, i) && IdOk(s.graph, Nonterminal(i)) && s.nodes[i].refcount == 0
    ensures forall id :: id in Retire(s, i).handles ==> IdOk(Retire(s, i).graph, id)
  {
    var t, k := Retire(s, i), s.graph[i].key;
    assert KeyOk(s.graph, k);
    assert CountOk(s, i);
    hide CountOk, NodesOk, FreeOk, TableOk, GraphOk;
    EdgesPositive(s.graph, i);
    assert Owns(s.graph[i], i) == 0;
    forall id | id in t.handles ensures IdOk(t.graph, id) {
      assert id in s.handles || id == k.low || id == k.high;
      assert id == Nonterminal(i) ==> id !in s.handles;
    }
  }

  lemma {:induction false} RetireCounted(s: State, i: nat)
    requires Valid(s) && CountedBut(s, i) && IdOk(s.graph, Nonterminal(i)) && s.nodes[i].refcount == 0
    ensures Counted(Retire(s, i))
  {
    RetireHandles(s, i);
    assert KeyOk(s.graph, s.graph[i].key);
    hide NodesOk, FreeOk, TableOk, GraphOk;
    forall j | 0 <= j < |s.graph| ensures CountOk(Retire(s, i), j) {
      RetireCount(s, i, j);
    }
  }

  /** A dying node leaves the hash table and goes to the front of the free list. */
  function Recycle(s: State, i: nat): State
    requires i < |s.graph| == |s.nodes|
  {
    s.(nodes := s.nodes[i := s.nodes[i].(refcount := s.freeList)], freeList := i,
       table := s.table - {s.nodes[i].Contents()},
       graph := s.graph[i := Free], free := [i] + s.free)
  }

  lemma {:induction false} RecycleFree(s: State, i: nat)
    requires NodesOk(s) && FreeOk(s) && i < |s.graph| && s.graph[i].Dying?
    ensures FreeOk(Recycle(s, i))
  {
    var t := Recycle(s, i);
    ChainFrame(s.nodes, t.nodes, s.freeList, s.free);
    assert t.free[1..] == s.free;
  }

  lemma {:induction false} RecycleTable(s: State, i: nat)
    requires NodesOk(s) && TableOk(s) && i < |s.graph| && s.graph[i].Dying?
    ensures NodesOk(Recycle(s, i)) && TableOk(Recycle(s, i))
  {
  }

  lemma {:induction false} RecycleValid(s: State, i: nat)
    requires Valid(s) && i < |s.graph| && s.graph[i].Dying?
    ensures Valid(Recycle(s, i))
  {
    RecycleFree(s, i);
    RecycleTable(s, i);
    hide FreeOk, TableOk, Chain;
    var t := Recycle(s, i);
    forall p | 0 <= p < |t.graph| && t.graph[p].Live? ensures KeyOk(t.graph, t.graph[p].key) {
      assert KeyOk(s.graph, s.graph[p].key);
    }
  }

  lemma {:induction false} RecycleCounted(s: State, i: nat)
    requires NodesOk(s) && Counted(s) && i < |s.graph| && s.graph[i].Dying?
    ensures Counted(Recycle(s, i))
  {
    var t := Recycle(s, i);
    EdgesUpdateAll(s.graph, i, Free);
    forall j | 0 <= j < |t.graph| ensures CountOk(t, j) {
      assert CountOk(s, j);
    }
  }

  /** The index that the allocator hands out. */
  function NextIndex(s: State): nat {
    if s.free == [] then |s.nodes| else s.free[0]
  }

  /** The slots after the allocator has made NextIndex available. */
  function Slots(s: State): Graph {
    if s.free == [] then s.graph + [Free] else s.graph
  }

  /** The next index takes a new node that owns the references to its children, held until now by the caller. */
  function Fill(s: State, k: Key): State
    requires NodesOk(s) && FreeOk(s)
  {
    var i, node := NextIndex(s), Node(1, k.variable, k.low, k.high);
    s.(nodes := if s.free == [] then s.nodes + [node] else s.nodes[i := node],
       freeList := if s.free == [] then s.freeList else s.nodes[i].refcount,
       table := s.table[k := Nonterminal(i)],
       graph := Slots(s)[i := Live(k)],
       free := if s.free == [] then [] else s.free[1..],
       handles := s.handles - Ref(k.low) - Ref(k.high) + Ref(Nonterminal(i)))
  }

  lemma {:induction false} FillFree(s: State, k: Key)
    requires NodesOk(s) && FreeOk(s)
    ensures FreeOk(Fill(s, k))
  {
    if s.free != [] {
      PopFree(s, k);
      hide Chain;
    }
  }

  /** The first free slot is taken. */
  lemma {:induction false} PopFree(s: State, k: Key)
    requires NodesOk(s) && FreeOk(s) && s.free != []
    ensures var t := Fill(s, k); Chain(t.nodes, t.freeList, t.free) && t.free == s.free[1..]
    ensures var t := Fill(s, k); forall j :: 0 <= j < |t.graph| && t.graph[j].Free? ==> j in t.free
  {
    var t, i := Fill(s, k), NextIndex(s);
    assert forall m :: 0 <= m < |t.free| ==> t.free[m] == s.free[m + 1];
    ChainFrame(s.nodes, t.nodes, s.nodes[i].refcount, t.free);
    forall j | 0 <= j < |t.graph| && t.graph[j].Free? ensures j in t.free {
      var m :| 0 <= m < |s.free| && s.free[m] == j;
      assert t.free[m - 1] == j;
    }
  }

  lemma {:induction false} FillNodes(s: State, k: Key)
    requires NodesOk(s) && FreeOk(s)
    ensures NodesOk(Fill(s, k))
  {
  }

  /** Only the new slot changes. */
  lemma {:induction false} FillOthers(s: State, k: Key)
    requires NodesOk(s) && FreeOk(s)
    ensures var t, i := Fill(s, k), NextIndex(s);
            && t.table == s.table[k := Nonterminal(i)]
            && |s.graph| <= |t.graph| && i < |t.graph| && t.graph[i] == Live(k)
            && (i < |s.graph| ==> s.graph[i].Free?)
            && (forall j :: 0 <= j < |t.graph| && j != i ==> j < |s.graph| && t.graph[j] == s.graph[j])
  {
  }

  lemma {:induction false} FillTable(s: State, k: Key)
    requires NodesOk(s) && FreeOk(s) && TableOk(s) && k !in s.table
    ensures TableOk(Fill(s, k))
  {
    hide NodesOk, FreeOk, Fill, NextIndex;
    FillOthers(s, k);
    var t := Fill(s, k);
    forall i | 0 <= i < |t.graph| && !t.graph[i].Free?
      ensures t.graph[i].key in t.table && t.table[t.graph[i].key] == Nonterminal(i)
    {
      if i != NextIndex(s) {
        assert t.graph[i].key in s.table;
      }
    }
  }

  lemma {:induction false} FillValid(s: State, k: Key)
    requires Valid(s) && KeyOk(s.graph, k) && k !in s.table
    ensures Valid(Fill(s, k))
  {
    FillNodes(s, k);
    FillTable(s, k);
    FillFree(s, k);
    FillGraph(s, k);
    hide NodesOk, TableOk, FreeOk, GraphOk;
  }

  lemma {:induction false} FillGraph(s: State, k: Key)
    requires NodesOk(s) && FreeOk(s) && GraphOk(s.graph) && KeyOk(s.graph, k)
    ensures GraphOk(Fill(s, k).graph)
  {
    FillSub(s, k);
    var g, i := Fill(s, k).graph, NextIndex(s);
    forall p | 0 <= p < |g| && g[p].Live? ensures KeyOk(g, g[p].key) {
      if p != i {
        assert p < |s.graph| && KeyOk(s.graph, s.graph[p].key);
      }
    }
  }

  lemma {:induction false} FillSub(s: State, k: Key)
    requires NodesOk(s) && FreeOk(s)
    ensures Sub(s.graph, Fill(s, k).graph)
    ensures forall j :: 0 <= j < |Fill(s, k).graph| && Fill(s, k).graph[j].Dying? ==>
                          j < |s.graph| && s.graph[j].Dying?
  {
  }

  /** A new node means what its contents say. */
  lemma {:induction false} FillMeaning(s: State, k: Key)
    requires Valid(s) && Settled(s) && KeyOk(s.graph, k) && k !in s.table
    ensures var t, r := Fill(s, k), Nonterminal(NextIndex(s));
            && Valid(t) && Settled(t) && Sub(s.graph, t.graph) && IdOk(t.graph, r)
            && Unfold(t.graph, r) == Branch(k.variable, Unfold(s.graph, k.low), Unfold(s.graph, k.high))
  {
    FillValid(s, k);
    FillSub(s, k);
    UnfoldStable(s.graph, Fill(s, k).graph, k.low);
    UnfoldStable(s.graph, Fill(s, k).graph, k.high);
    hide NodesOk, FreeOk, TableOk;
  }

  /** With no free slot, a new node goes to the end. */
  lemma {:induction false} FillAtEnd(s: State, k: Key)
    requires NodesOk(s) && FreeOk(s) && s.free == []
    ensures var t := Fill(s, k);
            && t.graph == s.graph + [Live(k)] && t.free == [] && NextIndex(s) == |s.graph|
            && t.nodes == s.nodes + [Node(1, k.variable, k.low, k.high)]
  {
  }

  /** The hash table knows only contents of slots in use. */
  lemma {:induction false} NotInTable(s: State, k: Key)
    requires Valid(s) && forall i :: 0 <= i < |s.graph| && !s.graph[i].Free? ==> s.graph[i].key != k
    ensures k !in s.table
  {
  }

  lemma {:induction false} FillEdges(s: State, k: Key, c: nat)
    requires NodesOk(s) && FreeOk(s)
    ensures Edges(Fill(s, k).graph, c) == Edges(s.graph, c) + Owns(Live(k), c)
  {
    EdgesAppend(s.graph, Free, c);
    EdgesUpdate(Slots(s), NextIndex(s), Live(k), c);
  }

  /** Counting references after the two of a new node's children were stolen. */
  lemma {:induction false} StolenCount(held: multiset<NodeId>, k: Key, r: NodeId, c: nat)
    requires k.low != k.high && Ref(k.low) <= held && Ref(k.high) <= held && r.Nonterminal?
    ensures (held - Ref(k.low) - Ref(k.high) + Ref(r))[Nonterminal(c)]
         == held[Nonterminal(c)] - Owns(Live(k), c) + PointsTo(r, c)
  {
  }

  lemma {:induction false} FillCount(s: State, k: Key, j: nat)
    requires Valid(s) && Counted(s) && KeyOk(s.graph, k)
    requires k.low != k.high && Ref(k.low) <= s.handles && Ref(k.high) <= s.handles
    requires j < |Fill(s, k).graph|
    ensures |Fill(s, k).nodes| == |Fill(s, k).graph| && CountOk(Fill(s, k), j)
  {
    hide Edges, TableOk, GraphOk, Chain, Owns, Ref, KeyOk;
    FillEdges(s, k, j);
    StolenCount(s.handles, k, Nonterminal(NextIndex(s)), j);
    if j == NextIndex(s) {
      NoParents(s, j);
    } else {
      assert CountOk(s, j);
    }
  }

  lemma {:induction false} FillPositive(s: State, k: Key)
    requires Valid(s) && Counted(s)
    ensures var t := Fill(s, k);
            && |t.nodes| == |t.graph|
            && forall j :: 0 <= j < |t.graph| && t.graph[j].Live? ==> t.nodes[j].refcount > 0
  {
    hide CountOk, Chain, TableOk, GraphOk, Ref;
  }

  lemma {:induction false} FillHeld(s: State, k: Key)
    requires Valid(s) && Counted(s)
    ensures var t := Fill(s, k); forall id :: id in t.handles ==> IdOk(t.graph, id)
  {
    FillSub(s, k);
    hide CountOk, Chain, TableOk, GraphOk;
  }

  lemma {:induction false} FillCounted(s: State, k: Key)
    requires Valid(s) && Counted(s) && KeyOk(s.graph, k)
    requires k.low != k.high && Ref(k.low) <= s.handles && Ref(k.high) <= s.handles
    ensures Counted(Fill(s, k))
  {
    hide Fill, CountOk, NodesOk, FreeOk, TableOk, GraphOk, KeyOk, Ref, IdOk;
    var t := Fill(s, k);
    FillPositive(s, k);
    forall j | 0 <= j < |t.graph| ensures CountOk(t, j) {
      FillCount(s, k, j);
    }
    FillHeld(s, k);
  }

  lemma {:induction false} SlotContents(s: State, i: nat)
    requires Valid(s) && i < |s.graph| && !s.graph[i].Free?
    ensures i < |s.nodes| && s.nodes[i].Contents() == s.graph[i].key
  {
  }

  /** The hash table finds a live node with the wanted contents. */
  lemma {:induction false} Lookup(s: State, key: Key)
    requires Valid(s) && Settled(s) && key in s.table
    ensures s.table[key].Nonterminal? && IdOk(s.graph, s.table[key]) && s.graph[s.table[key].index] == Live(key)
    ensures KeyOk(s.graph, key)
  {
  }

  // ----- the constructor as a function

  /** A reference can be given up without releasing the node. */
  predicate Spare(s: State, id: NodeId) {
    id.Nonterminal? ==> IdOk(s.graph, id) && id.index < |s.nodes| && s.nodes[id.index].refcount > 1
  }

  /** One reference less, or (if d is 1) more; terminals are not counted. */
  function BumpId(s: State, id: NodeId, d: int): State
    requires id.Nonterminal? ==> id.index < |s.nodes|
  {
    if id.Nonterminal? then Bump(s, id.index, d) else s
  }

  /**
   A node with this key can be made without breaking the structure: a new one tests its variable before its
   children do, and if none is made, there are references to give up.
   */
  predicate Safe(s: State, k: Key) {
    if k.low == k.high then Spare(s, k.low)
    else if k in s.table then Spare(s, k.low) && Spare(s, k.high)
    else KeyOk(s.graph, k)
  }

  /** The cache after a node has been made, and its id. */
  ghost function Made(s: State, k: Key): (State, NodeId)
    requires Valid(s) && Settled(s) && Safe(s, k)
  {
    if k.low == k.high then (BumpId(s, k.high, -1), k.low)
    else if k in s.table then
      Lookup(s, k);
      var id := s.table[k];
      (BumpId(BumpId(BumpId(s, id, 1), k.low, -1), k.high, -1), id)
    else (Fill(s, k), Nonterminal(NextIndex(s)))
  }

  lemma {:induction false} BumpIdValid(s: State, id: NodeId, d: int)
    requires Valid(s) && Settled(s) && IdOk(s.graph, id)
    ensures id.Nonterminal? ==> id.index < |s.nodes|
    ensures var t := BumpId(s, id, d); Valid(t) && Settled(t) && t.graph == s.graph && |t.nodes| == |s.nodes|
  {
    if id.Nonterminal? {
      BumpValid(s, id.index, d);
    }
  }

  /** Making a node keeps the structure, and the new id stands for the reduced test. */
  lemma {:induction false} MadeOk(s: State, k: Key)
    requires Valid(s) && Settled(s) && Safe(s, k)
    ensures var t, r := Made(s, k).0, Made(s, k).1;
            && Valid(t) && Settled(t) && GraphOk(t.graph) && Sub(s.graph, t.graph) && IdOk(t.graph, r)
            && IdOk(s.graph, k.low) && IdOk(s.graph, k.high)
            && Unfold(t.graph, r) == Mk(k.variable, Unfold(s.graph, k.low), Unfold(s.graph, k.high))
  {
    if k.low == k.high {
      hide Valid, Settled, GraphOk, NodesOk;
      BumpIdValid(s, k.high, -1);
    } else if k in s.table {
      Lookup(s, k);
      var id := s.table[k];
      hide Valid, Settled, NodesOk;
      BumpIdValid(s, id, 1);
      BumpIdValid(BumpId(s, id, 1), k.low, -1);
      BumpIdValid(BumpId(BumpId(s, id, 1), k.low, -1), k.high, -1);
      DifferentMeaning(s, k.low, k.high);
    } else {
      FillMeaning(s, k);
      DifferentMeaning(s, k.low, k.high);
    }
  }

  lemma {:induction false} TerminalFacts(s: State, value: nat)
    requires GraphOk(s.graph)
    ensures s.handles + Ref(Terminal(value)) == s.handles && Unfold(s.graph, Terminal(value)) == Leaf(value)
  {
  }

  /** Before a reference is taken. */
  lemma {:induction false} Taken(s: State, id: NodeId)
    requires Valid(s) && IdOk(s.graph, id)
    ensures id.Terminal? ==> s.handles + Ref(id) == s.handles && BumpId(s, id, 1) == s
    ensures id.Nonterminal? ==>
              && id.index < |s.nodes| && BumpId(s, id, 1) == Bump(s, id.index, 1) && Valid(Bump(s, id.index, 1))
              && (Counted(s) ==> Counted(Bump(s, id.index, 1)))
  {
    if id.Nonterminal? {
      BumpValid(s, id.index, 1);
      if Counted(s) {
        BumpOk(s, id.index, 1);
        assert CountOk(s, id.index);
      }
    }
  }

  /** Before a reference is given up. */
  lemma {:induction false} GivenUp(s: State, id: NodeId)
    requires Valid(s) && ((Counted(s) && Ref(id) <= s.handles) || Spare(s, id))
    ensures id.Terminal? ==> s.handles - Ref(id) == s.handles && BumpId(s, id, -1) == s
    ensures id.Nonterminal? ==>
              && id.index < |s.nodes| && IdOk(s.graph, id) && BumpId(s, id, -1) == Bump(s, id.index, -1)
              && Valid(Bump(s, id.index, -1)) && s.nodes[id.index].refcount >= 1
              && (Counted(s) && Ref(id) <= s.handles ==>
                    && CountedBut(Bump(s, id.index, -1), id.index)
                    && (s.nodes[id.index].refcount > 1 ==> Counted(Bump(s, id.index, -1))))
  {
    if id.Nonterminal? {
      if Counted(s) && Ref(id) <= s.handles {
        HeldIsLive(s, id);
        BumpOk(s, id.index, -1);
      }
      BumpValid(s, id.index, -1);
    }
  }

  /** A live node stays live, and its children keep a spare reference, when it gets one reference more. */
  lemma {:induction false} ReuseSteps(s: State, id: NodeId)
    requires Valid(s) && IdOk(s.graph, id) && id.Nonterminal?
    ensures var k := s.graph[id.index].key;
            && IdOk(s.graph, k.low) && IdOk(s.graph, k.high)
            && (k.low != k.high && Spare(s, k.low) && Spare(s, k.high) ==>
                  var t := BumpId(s, id, 1);
                  && t.graph == s.graph && Spare(t, k.low) && Spare(BumpId(t, k.low, -1), k.high))
  {
    LiveKeyOk(s.graph, id.index);
  }

  lemma {:induction false} TwoHeld(held: multiset<NodeId>, id: NodeId)
    requires Ref(id) + Ref(id) <= held
    ensures held - Ref(id) - Ref(id) + Ref(id) == held - Ref(id) && Ref(id) <= held
  {
  }

  lemma {:induction false} DifferentMeaning(s: State, x: NodeId, y: NodeId)
    requires Valid(s) && IdOk(s.graph, x) && IdOk(s.graph, y)
    ensures x == y <==> Unfold(s.graph, x) == Unfold(s.graph, y)
  {
    if Unfold(s.graph, x) == Unfold(s.graph, y) {
      ValidDistinct(s);
      UnfoldInjective(s.graph, x, y);
    }
  }

  /** A node that tests its variable too late, or that has a child which is not live, breaks the graph. */
  lemma {:induction false} UnsafeBreaks(s: State, k: Key)
    requires Valid(s) && k.low != k.high && k !in s.table && !Safe(s, k)
    ensures !GraphOk(Fill(s, k).graph)
  {
    var t, i := Fill(s, k), NextIndex(s);
    FillOthers(s, k);
    assert t.graph[i] == Live(k);
    if KeyOk(t.graph, k) {
      assert KeyOk(s.graph, k);
    }
  }

  /**
   When no node is made, giving up the references releases a node that stays in use: the one that is returned, or a
   child of it.
   */
  lemma {:induction false} UnsafeReleases(s: State, k: Key)
    requires Valid(s) && Settled(s) && !Safe(s, k) && (k.low == k.high || k in s.table)
    requires IdOk(s.graph, k.low)
    ensures exists c: NodeId :: c in {k.low, k.high} && LastReference(s, c)
    ensures k.low != k.high ==>
              var id := s.table[k];
              IdOk(s.graph, id) && id.Nonterminal? && s.graph[id.index] == Live(k)
  {
    if k.low != k.high {
      Lookup(s, k);
    }
    assert !Spare(s, k.low) ==> LastReference(s, k.low);
    assert !Spare(s, k.high) ==> LastReference(s, k.high);
  }

  /** A live node with one reference, if not none */
  predicate LastReference(s: State, id: NodeId) {
    id.Nonterminal? && IdOk(s.graph, id) && id.index < |s.nodes| && s.nodes[id.index].refcount <= 1
  }

  /** References handed over and then released leave the held ones as they were. */
  lemma {:induction false} Returned(held: multiset<NodeId>, low: NodeId, high: NodeId)
    ensures held + Ref(low) + Ref(high) - Ref(low) - Ref(high) == held
    ensures Ref(low) <= held + Ref(low) + Ref(high)
    ensures Ref(high) <= held + Ref(low) + Ref(high) - Ref(low)
  {
  }

  /** References obtained one after the other are exactly what the constructor steals. */
  lemma {:induction false} Stolen(held: multiset<NodeId>, low: NodeId, high: NodeId)
    ensures Ref(low) + Ref(high) <= held + Ref(high) + Ref(low)
    ensures held + Ref(high) + Ref(low) - Ref(low) - Ref(high) == held
  {
  }

  /** A new reference may be taken before two held ones are given up. */
  lemma {:induction false} Exchanged(held: multiset<NodeId>, id: NodeId, low: NodeId, high: NodeId)
    requires Ref(low) + Ref(high) <= held
    ensures held + Ref(id) - Ref(low) - Ref(high) == held - Ref(low) - Ref(high) + Ref(id)
    ensures Ref(low) <= held + Ref(id) && Ref(high) <= held + Ref(id) - Ref(low) && Ref(high) <= held + Ref(id)
  {
  }

  lemma {:induction false} HeldIsLive(s: State, id: NodeId)
    requires Counted(s) && Ref(id) <= s.handles
    ensures IdOk(s.graph, id)
    ensures id.Nonterminal? ==> id in s.handles && |s.nodes| == |s.graph|
  {
    assert id.Nonterminal? ==> id in Ref(id);
  }

  /** An index that is not live has neither parent edges nor holders. */
  lemma {:induction false} NoParents(s: State, i: nat)
    requires GraphOk(s.graph) && Counted(s) && !IdOk(s.graph, Nonterminal(i))
    ensures Edges(s.graph, i) == 0 && Nonterminal(i) !in s.handles
  {
    EdgesPositive(s.graph, i);
    forall p | 0 <= p < |s.graph| ensures Owns(s.graph[p], i) == 0 {
      assert s.graph[p].Live? ==> KeyOk(s.graph, s.graph[p].key);
    }
  }
}

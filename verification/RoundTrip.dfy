/**
 Saving and loading together: the BDD comes back, as a graph and as a function. Exact reference counts come
 back only without shared nonterminals, and the error word is also a valid id.
 */
module RoundTrip {
  import opened DecisionTree
  import opened NodeGraph
  import opened CacheState
  import opened NodeCache
  import opened FileFormat
  import opened Octets
  import opened SavedOrder
  import opened LoadSteps
  import opened SaveLoad

  /** What Save writes is what Load understands. */
  lemma {:induction false} SavedDecodes(g: Graph, order: seq<nat>, root: NodeId)
    requires GraphOk(g) && Distinct(g) && IdOk(g, root) && Encodable(g, root) && PostOrder(g, order)
    requires |order| == |Reach(g, root)| && (forall i :: i in order <==> i in Reach(g, root))
    requires root.Nonterminal? ==> order != []
    ensures var b := Header(|order|, root.Terminal?)
                     + if root.Terminal? then U32(root.value) else EncodeRecs(Records(g, order));
            && FormatOk(Processed(b))
            && Decode(b) == if root.Terminal? then Value(root.value) else Nodes(Records(g, order))
  {
    if root.Terminal? {
      assert Reach(g, root) == {} && order == [];
      hide Decode, Header, Available, U32;
      DecodeValue(root.value);
      TerminalAvailable(root.value);
      assert Processed(Header(0, true) + U32(root.value)) == [];
    } else {
      RecordsFit(g, order, root);
      RecordsFormatOk(g, order);
      hide Decode, Header, FormatOk, Records, EncodeRecs, Available, Processed, Reach, Encodable, PostOrder;
      DecodeNodes(Records(g, order));
      NodesAvailable(Records(g, order));
      HeaderProcessed(Records(g, order));
    }
  }

  lemma {:induction false} NodesAvailable(rs: seq<Rec>)
    requires |rs| < TWO_TO_THE_32 && forall k :: 0 <= k < |rs| ==> RecFits(rs[k])
    ensures Available(Header(|rs|, false) + EncodeRecs(rs)) == rs
  {
    hide Header, EncodeRecs, DecodeRecs, RecFits, Read32;
    DecodeHeader(|rs|, false, EncodeRecs(rs));
    DecodeEncodeRecs(rs, []);
    assert EncodeRecs(rs) + [] == EncodeRecs(rs);
  }

  lemma {:induction false} HeaderProcessed(rs: seq<Rec>)
    requires |rs| < TWO_TO_THE_32
    ensures var b := Header(|rs|, false) + EncodeRecs(rs); Processed(b) == Available(b)
  {
    hide Header, EncodeRecs, Available;
    DecodeHeader(|rs|, false, EncodeRecs(rs));
  }

  lemma {:induction false} TerminalAvailable(value: nat)
    ensures Available(Header(0, true) + U32(value)) == []
  {
    hide Header, U32, Read32;
    DecodeHeader(0, true, U32(value));
  }

  /** A cache into which the records rs, and nothing else, have been loaded: all reference counts are one. */
  ghost predicate LoadedInto(cache: Cache, rs: seq<Rec>)
    reads cache
    requires FormatOk(rs)
  {
    && cache.Ok() && cache.graph == GraphOf(rs) && cache.free == []
    && forall k :: 0 <= k < |rs| ==> cache.nodes[k].refcount == 1
  }

  /** A file that keeps the format's guarantee, loaded into an empty cache. */
  lemma {:induction false} GuaranteeLoads(s: State, b: seq<Octet>, r: LoadResult, cache: Cache)
    requires Valid(s) && Settled(s) && s.graph == [] && s.free == []
    requires LoadEnds(s, b, r, cache.S()) && (r != Damaged ==> cache.Ok()) && FormatOk(Processed(b))
    ensures cache.Ok()
    ensures match Decode(b)
            case Malformed(e) => r == Failed(e)
            case Value(v) => r == Loaded(Terminal(v)) && cache.S() == s
            case Nodes(rs) => FormatOk(rs) && r == Loaded(Nonterminal(|rs| - 1)) && LoadedInto(cache, rs)
  {
    FormatLoads(s, Processed(b));
    hide Decode, Processed, FormatOk, LoadAll, Valid, Settled, GraphOk;
  }

  /**
   Loading what was saved gives a root that stands for the same tree. With that root as the one held
   reference, the reference counts are right exactly if no nonterminal of the saved BDD has two parents in it.
   */
  method SaveThenLoad(source: Cache, root: NodeId, target: Cache) returns (r: LoadResult, ghost order: seq<nat>)
    requires source.Ok() && IdOk(source.graph, root) && Encodable(source.graph, root)
    requires target.Ok() && target.graph == [] && target.free == [] && source != target
    modifies target
    ensures target.Ok() && r.Loaded? && IdOk(target.graph, r.id)
    ensures target.Meaning(r.id) == source.Meaning(root)
    ensures |target.graph| == |Reach(source.graph, root)|
    ensures PostOrder(source.graph, order) && FormatOk(Records(source.graph, order))
    ensures root.Nonterminal? ==>
              && LoadedInto(target, Records(source.graph, order))
              && (Counted(Holding(target, r.id)) <==> NoSharing(source.graph, root))
  {
    hide Valid, Settled, GraphOk, Distinct, PostOrder, Decode, Header, FormatOk, Records, EncodeRecs, Reach, Encodable,
         GraphOf, Unfold, Unshared, NoSharing, Counted, Holding, LoadedInto, LoadEnds, Available, Processed;
    ghost var g, s := source.graph, target.S();
    ValidDistinct(source.S());
    var b;
    b, order := Save(source, root);
    SavedDecodes(g, order, root);
    RecordsFormatOk(g, order);
    r := Load(b, target);
    GuaranteeLoads(s, b, r, target);
    LoadedRoot(g, order, root, target);
    if root.Nonterminal? {
      HoldingLoaded(g, order, root, target);
      SharingSaved(g, order, root);
    }
  }

  lemma {:induction false} HoldingLoaded(g: Graph, order: seq<nat>, root: NodeId, cache: Cache)
    requires GraphOk(g) && Distinct(g) && IdOk(g, root) && root.Nonterminal? && PostOrder(g, order)
    requires order != [] && order[|order| - 1] == root.index
    requires forall i :: i in order <==> i in Reach(g, root)
    requires FormatOk(Records(g, order)) && LoadedInto(cache, Records(g, order))
    ensures Counted(Holding(cache, Nonterminal(|order| - 1))) <==> Unshared(GraphOf(Records(g, order)))
  {
    hide PostOrder, FormatOk, Unshared, CountedBut, FreeOk, TableOk, GraphOk, Reach;
    LoadedCounts(g, order, root, Holding(cache, Nonterminal(|order| - 1)));
  }

  /** The state of a cache of which a caller holds one id. */
  ghost function Holding(cache: Cache, id: NodeId): State
    reads cache
  {
    cache.S().(handles := multiset{id})
  }

  lemma {:induction false} LoadedRoot(g: Graph, order: seq<nat>, root: NodeId, target: Cache)
    requires GraphOk(g) && Distinct(g) && IdOk(g, root) && PostOrder(g, order)
    requires |order| == |Reach(g, root)|
    requires root.Nonterminal? ==> order != [] && order[|order| - 1] == root.index
    requires target.Ok() && (root.Terminal? ==> target.graph == [])
    requires root.Nonterminal? ==> FormatOk(Records(g, order)) && LoadedInto(target, Records(g, order))
    ensures var id := if root.Terminal? then root else Nonterminal(|order| - 1);
            IdOk(target.graph, id) && target.Ok() && target.Meaning(id) == Unfold(g, root)
    ensures |target.graph| == |Reach(g, root)|
  {
    if root.Nonterminal? {
      LoadedMeaning(g, order, |order| - 1);
    } else {
      assert Reach(g, root) == {};
    }
  }

  // ----- the width of a variable

  predicate VarsBelow(t: Tree, m: nat) {
    t.Branch? ==> t.variable < m && VarsBelow(t.low, m) && VarsBelow(t.high, m)
  }

  /** No file makes a loader create a node for a variable above 255: such a BDD cannot be saved and loaded. */
  lemma {:induction false} OnlyByteVariables(b: seq<Octet>)
    requires Decode(b).Nodes? && FormatOk(Decode(b).recs) && GraphOk(GraphOf(Decode(b).recs))
    ensures forall k :: 0 <= k < |Decode(b).recs| ==>
              VarsBelow(Unfold(GraphOf(Decode(b).recs), Nonterminal(k)), 256)
  {
    var rs := Decode(b).recs;
    forall k | 0 <= k < |rs| ensures VarsBelow(Unfold(GraphOf(rs), Nonterminal(k)), 256) {
      forall i | 0 <= i < |rs| ensures rs[i].variable < 256 {
        RecAt(b[20..], |rs|, i);
      }
      hide Decode;
      TreeVariables(GraphOf(rs), Nonterminal(k), 256);
    }
  }

  lemma {:induction false} TreeVariables(g: Graph, id: NodeId, m: nat)
    requires GraphOk(g) && IdOk(g, id) && forall i :: 0 <= i < |g| && g[i].Live? ==> g[i].key.variable < m
    ensures VarsBelow(Unfold(g, id), m)
    decreases Above(g, id)
  {
    if id.Nonterminal? {
      AboveShrinks(g, id.index);
      LiveKeyOk(g, id.index);
      TreeVariables(g, g[id.index].key.low, m);
      TreeVariables(g, g[id.index].key.high, m);
    }
  }

  // ----- reference counts after a load

  /** Every reachable node but the root has a reachable parent. */
  lemma {:induction false} ReachParent(g: Graph, id: NodeId, i: nat) returns (p: nat)
    requires GraphOk(g) && IdOk(g, id) && i in Reach(g, id) && i != id.index
    ensures p in Reach(g, id) && p < |g| && g[p].Live? && Owns(g[p], i) > 0
    decreases Above(g, id)
  {
    AboveShrinks(g, id.index);
    LiveKeyOk(g, id.index);
    var k := g[id.index].key;
    if k.low == Nonterminal(i) || k.high == Nonterminal(i) {
      p := id.index;
    } else if i in Reach(g, k.low) {
      p := ReachParent(g, k.low, i);
    } else {
      p := ReachParent(g, k.high, i);
    }
  }

  /** In the loaded graph every node but the last has a parent, and the last has none. */
  lemma {:induction false} LoadedParents(g: Graph, order: seq<nat>, root: NodeId, k: nat)
    requires GraphOk(g) && Distinct(g) && IdOk(g, root) && root.Nonterminal? && PostOrder(g, order)
    requires order != [] && order[|order| - 1] == root.index && k < |order|
    requires forall i :: i in order <==> i in Reach(g, root)
    requires FormatOk(Records(g, order))
    ensures Edges(GraphOf(Records(g, order)), k) > 0 <==> k < |order| - 1
  {
    var rs := Records(g, order);
    var h := GraphOf(rs);
    EdgesPositive(h, k);
    if k < |order| - 1 {
      assert order[k] in order && order[k] != root.index;
      var p := ReachParent(g, root, order[k]);
      assert p in order;
      var j :| 0 <= j < |order| && order[j] == p;
      ParentPosition(g, order, j, k);
      assert Owns(h[j], k) > 0;
    } else {
      forall p | 0 <= p < |h| ensures Owns(h[p], k) == 0 {
        assert RefOk(rs, p, rs[p].low) && RefOk(rs, p, rs[p].high);
      }
    }
  }

  lemma {:induction false} ParentPosition(g: Graph, order: seq<nat>, j: nat, k: nat)
    requires GraphOk(g) && PostOrder(g, order) && j < |order| && k < |order|
    requires g[order[j]].Live? && Owns(g[order[j]], order[k]) > 0
    requires FormatOk(Records(g, order))
    ensures Owns(GraphOf(Records(g, order))[j], k) > 0
  {
    var key, c := g[order[j]].key, Nonterminal(order[k]);
    forall child | child == c && (child == key.low || child == key.high) ensures Ser(order[..j], child) == -1 - k {
      var q := Position(order[..j], order[k]);
      assert order[q] == order[k];
    }
  }

  /**
   A loaded BDD has every reference count at one. With the root as the one held reference, those counts
   are right exactly if no nonterminal has two parent edges.
   */
  lemma {:induction false} LoadedCounts(g: Graph, order: seq<nat>, root: NodeId, s: State)
    requires GraphOk(g) && Distinct(g) && IdOk(g, root) && root.Nonterminal? && PostOrder(g, order)
    requires order != [] && order[|order| - 1] == root.index
    requires forall i :: i in order <==> i in Reach(g, root)
    requires FormatOk(Records(g, order)) && s.graph == GraphOf(Records(g, order)) && |s.nodes| == |s.graph|
    requires forall k :: 0 <= k < |s.nodes| ==> s.nodes[k].refcount == 1
    requires s.handles == multiset{Nonterminal(|order| - 1)}
    ensures Counted(s) <==> Unshared(s.graph)
  {
    forall k | 0 <= k < |order| ensures Edges(s.graph, k) > 0 <==> k < |order| - 1 {
      LoadedParents(g, order, root, k);
    }
    hide GraphOf, FormatOk, PostOrder, Records, Edges, Reach, Counted;
    AllLive(Records(g, order));
    CountsOfOnes(s);
  }

  lemma {:induction false} AllLive(rs: seq<Rec>)
    requires FormatOk(rs)
    ensures forall k :: 0 <= k < |rs| ==> GraphOf(rs)[k].Live?
  {
  }

  /** At most one parent edge each. */
  predicate Unshared(g: Graph) {
    forall k :: 0 <= k < |g| ==> Edges(g, k) <= 1
  }

  /** Two nodes of the BDD at root have no nonterminal child in common. */
  ghost predicate NoSharing(g: Graph, root: NodeId)
    requires GraphOk(g) && IdOk(g, root)
  {
    forall p, q, i: nat | p in Reach(g, root) && q in Reach(g, root) && p != q && p < |g| && q < |g| ::
      Owns(g[p], i) == 0 || Owns(g[q], i) == 0
  }

  /** Nothing has two parent edges exactly if no two slots own it, when no slot owns it twice. */
  lemma {:induction false} EdgesOnce(g: Graph, c: nat)
    requires forall p :: 0 <= p < |g| ==> Owns(g[p], c) <= 1
    ensures Edges(g, c) <= 1 <==> forall p, q :: 0 <= p < q < |g| && Owns(g[p], c) > 0 ==> Owns(g[q], c) == 0
  {
    if g != [] {
      var n := |g| - 1;
      assert forall p :: 0 <= p < n ==> g[..n][p] == g[p];
      EdgesOnce(g[..n], c);
      EdgesPositive(g[..n], c);
    }
  }

  /** The loaded graph has the same parents and children as the saved one. */
  lemma {:induction false} OwnsSame(g: Graph, order: seq<nat>, j: nat, k: nat)
    requires GraphOk(g) && PostOrder(g, order) && j < |order| && k < |order| && FormatOk(Records(g, order))
    ensures Owns(GraphOf(Records(g, order))[j], k) == Owns(g[order[j]], order[k])
    ensures Owns(g[order[j]], order[k]) <= 1
  {
    hide FormatOk;
    LiveKeyOk(g, order[j]);
    var key := g[order[j]].key;
    SerOwns(order, j, k, key.low);
    SerOwns(order, j, k, key.high);
  }

  lemma {:induction false} SerOwns(order: seq<nat>, j: nat, k: nat, id: NodeId)
    requires j < |order| && k < |order| && Listed(order[..j], id)
    requires forall m, n :: 0 <= m < n < |order| ==> order[m] != order[n]
    ensures IdOf(Ser(order[..j], id)) == Nonterminal(k) <==> id == Nonterminal(order[k])
  {
    if id.Nonterminal? {
      var q := Position(order[..j], id.index);
      assert order[q] == id.index;
    }
  }

  /** Where a child of p, p, and q are in the order */
  lemma {:induction false} Places(g: Graph, order: seq<nat>, p: nat, q: nat, i: nat) returns (k: nat, a: nat, b: nat)
    requires PostOrder(g, order) && p in order && q in order && p < |g| && Owns(g[p], i) > 0
    ensures k < |order| && a < |order| && b < |order| && order[k] == i && order[a] == p && order[b] == q
  {
    a := Position(order, p);
    b := Position(order, q);
    assert Listed(order[..a], g[order[a]].key.low) && Listed(order[..a], g[order[a]].key.high);
    k := Position(order[..a], i);
  }

  /** Node order[j] of g has become node j of h. */
  predicate SameOwns(g: Graph, order: seq<nat>, h: Graph) {
    && |h| == |order|
    && forall j: nat, k: nat :: j < |order| && k < |order| && order[j] < |g| ==>
         Owns(h[j], k) == Owns(g[order[j]], order[k]) <= 1
  }

  lemma {:induction false} OwnsAllSame(g: Graph, order: seq<nat>)
    requires GraphOk(g) && PostOrder(g, order) && FormatOk(Records(g, order))
    ensures SameOwns(g, order, GraphOf(Records(g, order)))
  {
    forall j: nat, k: nat | j < |order| && k < |order|
      ensures Owns(GraphOf(Records(g, order))[j], k) == Owns(g[order[j]], order[k]) <= 1
    {
      OwnsSame(g, order, j, k);
    }
  }

  /** So what was saved tells whether the reference counts will be right. */
  lemma {:induction false} SharingSaved(g: Graph, order: seq<nat>, root: NodeId)
    requires GraphOk(g) && IdOk(g, root) && PostOrder(g, order) && FormatOk(Records(g, order))
    requires forall i :: i in order <==> i in Reach(g, root)
    ensures Unshared(GraphOf(Records(g, order))) <==> NoSharing(g, root)
  {
    hide FormatOk, Edges, Reach, Owns, Unshared, NoSharing, SameOwns, GraphOf;
    OwnsAllSame(g, order);
    var h := GraphOf(Records(g, order));
    if NoSharing(g, root) {
      Shared(g, order, root, h);
    }
    if Unshared(h) {
      forall p, q, i: nat | p in Reach(g, root) && q in Reach(g, root) && p != q && p < |g| && q < |g|
        ensures Owns(g[p], i) == 0 || Owns(g[q], i) == 0
      {
        if Owns(g[p], i) > 0 {
          var k, a, b := Places(g, order, p, q, i);
          OneOwner(g, order, h, k, a, b);
        }
      }
      NothingShared(g, root);
    }
  }

  lemma {:induction false} NothingShared(g: Graph, root: NodeId)
    requires GraphOk(g) && IdOk(g, root)
    requires forall p, q, i: nat | p in Reach(g, root) && q in Reach(g, root) && p != q && p < |g| && q < |g| ::
               Owns(g[p], i) == 0 || Owns(g[q], i) == 0
    ensures NoSharing(g, root)
  {
  }

  lemma {:induction false} OneOwner(g: Graph, order: seq<nat>, h: Graph, k: nat, a: nat, b: nat)
    requires |h| == |order| && SameOwns(g, order, h) && Unshared(h)
    requires k < |order| && a < |order| && b < |order| && a != b
    requires forall j :: 0 <= j < |order| ==> order[j] < |g|
    ensures Owns(g[order[a]], order[k]) == 0 || Owns(g[order[b]], order[k]) == 0
  {
    hide Edges, Owns, SameOwns;
    forall j: nat | j < |order| ensures Owns(h[j], k) == Owns(g[order[j]], order[k]) <= 1 {
      SameOwnsAt(g, order, h, j, k);
    }
    EdgesOnce(h, k);
    SameOwnsAt(g, order, h, a, k);
    SameOwnsAt(g, order, h, b, k);
  }

  lemma {:induction false} SameOwnsAt(g: Graph, order: seq<nat>, h: Graph, j: nat, k: nat)
    requires SameOwns(g, order, h) && j < |order| && k < |order| && order[j] < |g|
    ensures |h| == |order| && Owns(h[j], k) == Owns(g[order[j]], order[k]) <= 1
  {
  }

  lemma {:induction false} Shared(g: Graph, order: seq<nat>, root: NodeId, h: Graph)
    requires GraphOk(g) && IdOk(g, root) && |h| == |order| && SameOwns(g, order, h) && NoSharing(g, root)
    requires forall i :: i in order <==> i in Reach(g, root)
    requires forall j :: 0 <= j < |order| ==> order[j] < |g|
    requires forall j, k :: 0 <= j < k < |order| ==> order[j] != order[k]
    ensures Unshared(h)
  {
    hide Edges, Owns, Reach, SameOwns, NoSharing;
    forall k: nat | k < |order| ensures Edges(h, k) <= 1 {
      forall j: nat | j < |order| ensures Owns(h[j], k) == Owns(g[order[j]], order[k]) <= 1 {
        SameOwnsAt(g, order, h, j, k);
      }
      forall p, q | 0 <= p < q < |h| && Owns(h[p], k) > 0 ensures Owns(h[q], k) == 0 {
        assert order[p] in order && order[q] in order;
        NotBoth(g, root, order[p], order[q], order[k]);
      }
      EdgesOnce(h, k);
    }
  }

  lemma {:induction false} NotBoth(g: Graph, root: NodeId, p: nat, q: nat, i: nat)
    requires GraphOk(g) && IdOk(g, root) && NoSharing(g, root)
    requires p in Reach(g, root) && q in Reach(g, root) && p != q && p < |g| && q < |g|
    ensures Owns(g[p], i) == 0 || Owns(g[q], i) == 0
  {
  }

  /** A cache as a load leaves it: all live, all counts at one, the last node held, each other node with a parent. */
  predicate Ones(s: State) {
    && 0 < |s.nodes| == |s.graph|
    && (forall k :: 0 <= k < |s.graph| ==> s.graph[k].Live? && s.nodes[k].refcount == 1)
    && (forall k :: 0 <= k < |s.graph| ==> (Edges(s.graph, k) > 0 <==> k < |s.graph| - 1))
    && s.handles == multiset{Nonterminal(|s.graph| - 1)}
  }

  lemma {:induction false} CountsOfOnes(s: State)
    requires Ones(s)
    ensures Counted(s) <==> Unshared(s.graph)
  {
    forall k | 0 <= k < |s.graph| ensures CountOk(s, k) <==> Edges(s.graph, k) <= 1 {
      LoadedCount(s, k);
    }
    if Counted(s) {
      assert forall k :: 0 <= k < |s.graph| ==> CountOk(s, k);
    }
    if Unshared(s.graph) {
      forall id | id in s.handles ensures IdOk(s.graph, id) {
        assert id == Nonterminal(|s.graph| - 1);
      }
    }
  }

  /** Three nonterminals, the first of which is a child of both others. */
  const SHARED: seq<Rec> := [Rec(2, 0, 1), Rec(1, 0, -1), Rec(0, -1, -2)]

  /** Loading a file like that into a new cache gives the root 2, and a count of one for a node with two parents. */
  method LoadShared() returns (cache: Cache, r: LoadResult)
    ensures cache.Ok() && r == Loaded(Nonterminal(2)) && IdOk(cache.graph, r.id)
    ensures 0 < |cache.nodes| && cache.nodes[0].refcount == 1 && Edges(cache.graph, 0) == 2
    ensures !Counted(Holding(cache, Nonterminal(2)))
  {
    hide Valid, Settled, GraphOk, Decode, Header, EncodeRecs, FormatOk, LoadEnds, Counted, Holding, Edges, Available,
         Processed;
    cache := new Cache();
    ghost var s := cache.S();
    SharedIsWellFormed();
    r := Load(Header(3, false) + EncodeRecs(SHARED), cache);
    GuaranteeLoads(s, Header(3, false) + EncodeRecs(SHARED), r, cache);
    SharedChildMiscounted(cache);
  }

  /** A file like that leaves wrong reference counts in the cache it is loaded into. */
  lemma {:induction false} SharedChildMiscounted(cache: Cache)
    requires FormatOk(SHARED) && LoadedInto(cache, SHARED)
    ensures !Counted(Holding(cache, Nonterminal(2)))
    ensures |cache.nodes| == 3 && cache.nodes[0].refcount == 1 && Edges(cache.graph, 0) == 2
  {
    var g := cache.graph;
    assert g == [Live(KeyOf(SHARED[0])), Live(KeyOf(SHARED[1])), Live(KeyOf(SHARED[2]))];
    EdgesOfThree(g, 0);
    assert Owns(g[0], 0) == 0 && Owns(g[1], 0) == 1 && Owns(g[2], 0) == 1;
    hide Edges, Valid, GraphOf;
    var s := Holding(cache, Nonterminal(2));
    assert s.handles[Nonterminal(0)] == 0;
    assert !CountOk(s, 0);
  }

  lemma {:induction false} EdgesOfThree(g: Graph, c: nat)
    requires |g| == 3
    ensures Edges(g, c) == Owns(g[0], c) + Owns(g[1], c) + Owns(g[2], c)
  {
    var two, one := g[..2], g[..2][..1];
    assert one[..0] == [] && Edges([], c) == 0;
    assert Edges(one, c) == Owns(g[0], c);
    assert Edges(two, c) == Owns(g[0], c) + Owns(g[1], c);
  }

  lemma {:induction false} SharedIsWellFormed()
    ensures FormatOk(SHARED) && var b := Header(3, false) + EncodeRecs(SHARED);
            Decode(b) == Nodes(SHARED) && Processed(b) == SHARED
  {
    hide Decode, Header, EncodeRecs, Available;
    DecodeNodes(SHARED);
    NodesAvailable(SHARED);
    HeaderProcessed(SHARED);
  }

  lemma {:induction false} LoadedCount(s: State, k: nat)
    requires k < |s.nodes| == |s.graph| && s.graph[k].Live? && s.nodes[k].refcount == 1
    requires s.handles == multiset{Nonterminal(|s.graph| - 1)}
    requires Edges(s.graph, k) > 0 <==> k < |s.graph| - 1
    ensures CountOk(s, k) <==> Edges(s.graph, k) <= 1
  {
    hide Edges;
    assert s.handles[Nonterminal(k)] == if k == |s.graph| - 1 then 1 else 0;
  }

  // ----- ids as machine words

  /** The tagged word for a node id: twice the value or index, plus one for a terminal, in 32 bits. */
  function Raw(id: NodeId): (w: nat)
    ensures w < TWO_TO_THE_32
  {
    match id
    case Terminal(v) => (2 * v + 1) % TWO_TO_THE_32
    case Nonterminal(i) => 2 * i % TWO_TO_THE_32
  }

  function FromRaw(w: nat): NodeId {
    if w % 2 == 1 then Terminal(w / 2) else Nonterminal(w / 2)
  }

  /** A node id fits its word exactly if its value or index is below 2^31. */
  lemma {:induction false} RawRoundTrip(id: NodeId)
    ensures FromRaw(Raw(id)) == id <==> (if id.Terminal? then id.value else id.index) < TWO_TO_THE_31
  {
  }

  /** The word that Load returns on errors. */
  const LOAD_ERROR: nat := 0

  /**
   The error word is ambiguous: loading into an empty cache successfully returns it exactly if the file
   holds a single nonterminal.
   */
  lemma {:induction false} ErrorWordAmbiguous(b: seq<Octet>, id: NodeId)
    requires match Decode(b)
             case Malformed(_) => false
             case Value(v) => id == Terminal(v)
             case Nodes(rs) => id == Nonterminal(|rs| - 1) && |rs| <= TWO_TO_THE_31
    ensures Raw(id) == LOAD_ERROR <==> Decode(b).Nodes? && |Decode(b).recs| == 1
  {
    hide DecodeRecs, Read32, Read64, Read16;
  }

  /** For instance, a file with one nonterminal loads with the id that also reports errors. */
  lemma {:induction false} OneNonterminalLooksLikeError()
    ensures var b := Header(1, false) + EncodeRecs([Rec(0, 0, 1)]);
            Decode(b) == Nodes([Rec(0, 0, 1)]) && Raw(Nonterminal(0)) == LOAD_ERROR
  {
    hide Decode, Header, EncodeRecs;
    DecodeNodes([Rec(0, 0, 1)]);
  }
}

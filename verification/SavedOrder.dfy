/**
 The order in which a save emits the nonterminals of a BDD, the records it writes for them, and the
 graph that loading such records gives.
 */
module SavedOrder {
  import opened NodeGraph
  import opened FileFormat
  import opened Octets

  /** Where a node comes in an order without repetition. */
  function Position(order: seq<nat>, i: nat): (p: nat)
    requires i in order
    ensures p < |order| && order[p] == i
  {
    if order[|order| - 1] == i then |order| - 1 else Position(order[..|order| - 1], i)
  }

  /** The serialized id of a node: the value of a terminal, or -k for the k-th nonterminal of the order. */
  function Ser(order: seq<nat>, id: NodeId): int
    requires id.Nonterminal? ==> id.index in order
  {
    match id
    case Terminal(v) => v
    case Nonterminal(i) => -1 - Position(order, i)
  }

  predicate Listed(order: seq<nat>, id: NodeId) {
    id.Nonterminal? ==> id.index in order
  }

  /** Live nodes, each once, children before parents. */
  ghost predicate PostOrder(g: Graph, order: seq<nat>) {
    && (forall k :: 0 <= k < |order| ==>
          && IdOk(g, Nonterminal(order[k]))
          && Listed(order[..k], g[order[k]].key.low) && Listed(order[..k], g[order[k]].key.high))
    && (forall j, k :: 0 <= j < k < |order| ==> order[j] != order[k])
  }

  function RecOf(g: Graph, order: seq<nat>, i: nat): Rec
    requires IdOk(g, Nonterminal(i)) && Listed(order, g[i].key.low) && Listed(order, g[i].key.high)
  {
    Rec(g[i].key.variable, Ser(order, g[i].key.low), Ser(order, g[i].key.high))
  }

  /** The records of the nodes of an order; each refers only to records before it. */
  ghost function Records(g: Graph, order: seq<nat>): (rs: seq<Rec>)
    requires PostOrder(g, order)
    ensures |rs| == |order|
  {
    seq(|order|, k requires 0 <= k < |order| => RecOf(g, order[..k], order[k]))
  }

  /** Positions do not change when the order is extended by new nodes. */
  lemma {:induction false} PositionStable(order: seq<nat>, more: seq<nat>, i: nat)
    requires i in order && i !in more
    ensures Position(order + more, i) == Position(order, i)
  {
    if more == [] {
      assert order + more == order;
    } else {
      var n := |more| - 1;
      assert (order + more)[..|order| + n] == order + more[..n];
      PositionStable(order, more[..n], i);
    }
  }

  lemma {:induction false} SerStable(order: seq<nat>, longer: seq<nat>, id: NodeId)
    requires order <= longer && Listed(order, id)
    requires forall j, k :: 0 <= j < k < |longer| ==> longer[j] != longer[k]
    ensures Listed(longer, id) && Ser(longer, id) == Ser(order, id)
  {
    assert longer == order + longer[|order|..];
    if id.Nonterminal? {
      var p := Position(order, id.index);
      forall q | 0 <= q < |longer[|order|..]| ensures longer[|order|..][q] != id.index {
        assert longer[p] != longer[|order| + q];
      }
      PositionStable(order, longer[|order|..], id.index);
    }
  }

  // ----- loading

  /** What a serialized id means to a loader that has created the k-th record as node k - 1. */
  function IdOf(ser: int): NodeId {
    if ser >= 0 then Terminal(ser) else Nonterminal(-1 - ser)
  }

  function KeyOf(r: Rec): Key {
    Key(r.variable, IdOf(r.low), IdOf(r.high))
  }

  /**
   The format's guarantee about a reference of record k: a terminal, or an earlier record that tests a
   later variable.
   */
  predicate RefOk(rs: seq<Rec>, k: nat, ser: int)
    requires k < |rs|
  {
    ser < 0 ==> -1 - ser < k && rs[k].variable < rs[-1 - ser].variable
  }

  /** Records that describe an ordered and reduced BDD, children before parents. */
  predicate FormatOk(rs: seq<Rec>) {
    && (forall k :: 0 <= k < |rs| ==>
          RefOk(rs, k, rs[k].low) && RefOk(rs, k, rs[k].high) && rs[k].low != rs[k].high)
    && (forall j, k :: 0 <= j < k < |rs| ==> rs[j] != rs[k])
  }

  function GraphOf(rs: seq<Rec>): (g: Graph)
    requires FormatOk(rs)
    ensures |g| == |rs|
  {
    seq(|rs|, k requires 0 <= k < |rs| => Live(KeyOf(rs[k])))
  }

  /** The records of a reduced BDD satisfy the format's guarantee. */
  lemma {:induction false} RecordsFormatOk(g: Graph, order: seq<nat>)
    requires GraphOk(g) && Distinct(g) && PostOrder(g, order)
    ensures FormatOk(Records(g, order))
  {
    var rs := Records(g, order);
    forall k | 0 <= k < |rs|
      ensures RefOk(rs, k, rs[k].low) && RefOk(rs, k, rs[k].high) && rs[k].low != rs[k].high
    {
      LiveKeyOk(g, order[k]);
      SerRefOk(g, order, k, g[order[k]].key.low);
      SerRefOk(g, order, k, g[order[k]].key.high);
      SerInjective(order[..k], g[order[k]].key.low, g[order[k]].key.high);
    }
    forall j, k | 0 <= j < k < |rs| ensures rs[j] != rs[k] {
      RecordsDiffer(g, order, j, k);
    }
  }

  lemma {:induction false} SerRefOk(g: Graph, order: seq<nat>, k: nat, id: NodeId)
    requires GraphOk(g) && PostOrder(g, order) && k < |order|
    requires Listed(order[..k], id) && IdAtLeast(g, id, g[order[k]].key.variable + 1)
    ensures RefOk(Records(g, order), k, Ser(order[..k], id))
  {
  }

  lemma {:induction false} SerInjective(order: seq<nat>, x: NodeId, y: NodeId)
    requires Listed(order, x) && Listed(order, y)
    ensures Ser(order, x) == Ser(order, y) ==> x == y
  {
  }

  lemma {:induction false} RecordsDiffer(g: Graph, order: seq<nat>, j: nat, k: nat)
    requires GraphOk(g) && Distinct(g) && PostOrder(g, order) && j < k < |order|
    ensures Records(g, order)[j] != Records(g, order)[k]
  {
    var a, b := g[order[j]].key, g[order[k]].key;
    assert order[..j] <= order[..k];
    SerStable(order[..j], order[..k], a.low);
    SerStable(order[..j], order[..k], a.high);
    SerInjective(order[..k], a.low, b.low);
    SerInjective(order[..k], a.high, b.high);
    assert order[j] != order[k];
  }

  /** Loading the records of an order gives each node its meaning back. */
  lemma {:induction false} LoadedMeaning(g: Graph, order: seq<nat>, k: nat)
    requires GraphOk(g) && Distinct(g) && PostOrder(g, order) && k < |order|
    requires FormatOk(Records(g, order)) && GraphOk(GraphOf(Records(g, order)))
    ensures Unfold(GraphOf(Records(g, order)), Nonterminal(k)) == Unfold(g, Nonterminal(order[k]))
    decreases k, 1
  {
    var h, key := GraphOf(Records(g, order)), g[order[k]].key;
    LiveKeyOk(g, order[k]);
    LiveKeyOk(h, k);
    LoadedChild(g, order, k, key.low);
    LoadedChild(g, order, k, key.high);
  }

  lemma {:induction false} LoadedChild(g: Graph, order: seq<nat>, k: nat, c: NodeId)
    requires GraphOk(g) && Distinct(g) && PostOrder(g, order) && k < |order|
    requires FormatOk(Records(g, order)) && GraphOk(GraphOf(Records(g, order)))
    requires Listed(order[..k], c) && IdOk(g, c)
    ensures IdOk(GraphOf(Records(g, order)), IdOf(Ser(order[..k], c)))
    ensures Unfold(GraphOf(Records(g, order)), IdOf(Ser(order[..k], c))) == Unfold(g, c)
    decreases k, 0
  {
    if c.Nonterminal? {
      LoadedMeaning(g, order, Position(order[..k], c.index));
    }
  }

  // ----- growing an order

  lemma {:induction false} PostOrderAppend(g: Graph, order: seq<nat>, i: nat)
    requires PostOrder(g, order) && i !in order && IdOk(g, Nonterminal(i))
    requires Listed(order, g[i].key.low) && Listed(order, g[i].key.high)
    ensures PostOrder(g, order + [i])
    ensures Records(g, order + [i]) == Records(g, order) + [RecOf(g, order, i)]
  {
    var longer := order + [i];
    assert longer[..|order|] == order;
    forall k | 0 <= k < |order| ensures longer[..k] == order[..k] {}
  }

  /** An order contains everything reachable from its members. */
  lemma {:induction false} PostOrderClosed(g: Graph, order: seq<nat>, k: nat)
    requires GraphOk(g) && PostOrder(g, order) && k < |order|
    ensures forall i :: i in Reach(g, Nonterminal(order[k])) ==> i in order
    decreases k
  {
    var key := g[order[k]].key;
    LiveKeyOk(g, order[k]);
    if key.low.Nonterminal? {
      PostOrderClosed(g, order, Position(order[..k], key.low.index));
    }
    if key.high.Nonterminal? {
      PostOrderClosed(g, order, Position(order[..k], key.high.index));
    }
  }

  lemma {:induction false} DistinctCardinality(order: seq<nat>, s: set<nat>)
    requires forall i :: i in s <==> i in order
    requires forall j, k :: 0 <= j < k < |order| ==> order[j] != order[k]
    ensures |order| == |s|
  {
    if order != [] {
      var n := |order| - 1;
      forall i ensures i in s - {order[n]} <==> i in order[..n] {
        assert order == order[..n] + [order[n]];
      }
      DistinctCardinality(order[..n], s - {order[n]});
    }
  }

  // ----- a prefix of the records

  lemma {:induction false} FormatTake(rs: seq<Rec>, n: nat)
    requires FormatOk(rs) && n <= |rs|
    ensures FormatOk(rs[..n])
  {
    forall k | 0 <= k < n ensures RefOk(rs[..n], k, rs[k].low) && RefOk(rs[..n], k, rs[k].high) {
      assert RefOk(rs, k, rs[k].low) && RefOk(rs, k, rs[k].high);
    }
  }

  lemma {:induction false} FormatPrefix(rs: seq<Rec>, i: nat)
    requires FormatOk(rs) && i < |rs|
    ensures FormatOk(rs[..i]) && FormatOk(rs[..i + 1])
    ensures GraphOf(rs[..i + 1]) == GraphOf(rs[..i]) + [Live(KeyOf(rs[i]))]
  {
    FormatTake(rs, i);
    FormatTake(rs, i + 1);
    assert rs[..i + 1] == rs[..i] + [rs[i]];
    hide FormatOk;
  }

  lemma {:induction false} NextRefOk(rs: seq<Rec>, i: nat, ser: int)
    requires i < |rs| && FormatOk(rs[..i]) && RefOk(rs, i, ser)
    ensures IdAtLeast(GraphOf(rs[..i]), IdOf(ser), rs[i].variable + 1)
  {
    hide FormatOk;
    if ser < 0 {
      var j := -1 - ser;
      assert rs[..i][j] == rs[j];
      assert GraphOf(rs[..i])[j] == Live(KeyOf(rs[j]));
    }
  }

  /** The next record is a node that can be created and does not exist yet. */
  lemma {:induction false} NextKeyOk(rs: seq<Rec>, i: nat)
    requires FormatOk(rs) && i < |rs| && FormatOk(rs[..i])
    ensures KeyOk(GraphOf(rs[..i]), KeyOf(rs[i]))
    ensures forall k :: 0 <= k < i ==> GraphOf(rs[..i])[k].key != KeyOf(rs[i])
  {
    NextRefOk(rs, i, rs[i].low);
    NextRefOk(rs, i, rs[i].high);
    forall k | 0 <= k < i ensures GraphOf(rs[..i])[k].key != KeyOf(rs[i]) {
      assert rs[k] != rs[i] && rs[..i][k] == rs[k];
      assert GraphOf(rs[..i])[k].key == KeyOf(rs[k]);
    }
  }

  /** Records that a file can hold: variables below 256, terminals and references within a signed word. */
  ghost predicate Encodable(g: Graph, id: NodeId)
    requires GraphOk(g) && IdOk(g, id)
  {
    && |Reach(g, id)| < TWO_TO_THE_31
    && (id.Terminal? ==> id.value < TWO_TO_THE_31)
    && forall i :: i in Reach(g, id) && i < |g| && g[i].Live? ==>
         && g[i].key.variable < 256
         && (g[i].key.low.Terminal? ==> g[i].key.low.value < TWO_TO_THE_31)
         && (g[i].key.high.Terminal? ==> g[i].key.high.value < TWO_TO_THE_31)
  }

  lemma {:induction false} RecordsFit(g: Graph, order: seq<nat>, id: NodeId)
    requires GraphOk(g) && IdOk(g, id) && Encodable(g, id) && PostOrder(g, order)
    requires |order| == |Reach(g, id)| && forall i :: i in order ==> i in Reach(g, id)
    ensures forall k :: 0 <= k < |order| ==> RecFits(Records(g, order)[k])
  {
    forall k | 0 <= k < |order| ensures RecFits(Records(g, order)[k]) {
      assert order[k] in Reach(g, id);
    }
  }
}

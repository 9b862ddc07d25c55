/**
 Saving a BDD: a depth-first walk that writes each nonterminal after its children, once, whatever the
 sharing; and loading any file into any cache.
 */
module SaveLoad {
  import opened NodeGraph
  import opened CacheState
  import opened NodeCache
  import opened FileFormat
  import opened Octets
  import opened SavedOrder
  import opened LoadSteps
  import opened Reachable

  class Saver {
    const cache: Cache
    var stream: seq<Octet>
    var serializedIds: map<NodeId, int>
    var nextSerializedId: int

    ghost const header: seq<Octet>
    /** The nonterminals written so far. */
    ghost var order: seq<nat>
    /** The nonterminals whose children are being written. */
    ghost var open: set<nat>

    ghost predicate Ok() reads this, cache {
      && Valid(cache.S()) && GraphOk(cache.graph) && PostOrder(cache.graph, order)
      && nextSerializedId == -1 - |order|
      && IdsOk(serializedIds, order, open)
      && stream == header + EncodeRecs(Records(cache.graph, order))
    }

    /** Everything being written tests variables before those of id. */
    ghost predicate Deeper(id: NodeId) reads this, cache {
      forall o :: o in open ==>
        o < |cache.graph| && cache.graph[o].Live? && IdAtLeast(cache.graph, id, cache.graph[o].key.variable + 1)
    }

    constructor (cache: Cache, root: NodeId)
      requires Valid(cache.S()) && IdOk(cache.graph, root)
      ensures Ok() && order == [] && open == {} && this.cache == cache
      ensures header == Header(|Reach(cache.graph, root)|, root.Terminal?)
    {
      hide Valid, GraphOk, Reach;
      this.cache := cache;
      var nonterminalCount := ReachableCount(cache, root);
      var bytes := WriteHeader(nonterminalCount, root.Terminal?);
      header := bytes;
      stream := bytes;
      serializedIds, nextSerializedId := map[], -1;
      order, open := [], {};
      new;
      NothingWritten(cache.S(), header);
    }

    static method WriteHeader(nonterminalCount: nat, terminalRoot: bool) returns (stream: seq<Octet>)
      ensures stream == Header(nonterminalCount, terminalRoot)
    {
      hide U16, U32, U64;
      var setSize := 6 + 2 + 8 + 4 + nonterminalCount * (1 + 4 + 4);
      if terminalRoot {
        setSize := setSize + 4;
      }
      stream := MAGIC_NUMBER;
      stream := stream + U16(0x0001);
      stream := stream + U64(setSize);
      stream := stream + U32(nonterminalCount);
    }

    method WriteNonterminal(variable: nat, low: int, high: int)
      modifies this`stream
      ensures stream == old(stream) + EncodeRec(Rec(variable, low, high))
    {
      stream := stream + U8(variable);
      stream := stream + U32(low);
      stream := stream + U32(high);
    }

    /** Writes the nonterminals below and at id that are not written yet, and returns id's serialized id. */
    method VisitNode(id: NodeId) returns (dest: int)
      requires Ok() && IdOk(cache.graph, id) && Deeper(id)
      modifies this
      ensures Ok() && open == old(open) && old(order) <= order
      ensures Listed(order, id) && dest == Ser(order, id)
      ensures forall i :: i in order ==> i in old(order) || i in Reach(cache.graph, id)
      ensures id.Nonterminal? && !Listed(old(order), id) ==> order[|order| - 1] == id.index
      decreases Unfold(cache.graph, id), 1
    {
      hide Valid, GraphOk, PostOrder, Unfold, Reach, RecOf;
      if id in serializedIds {
        dest := serializedIds[id];
        return;
      }
      if id.Terminal? {
        serializedIds := serializedIds[id := 0];
        serializedIds := serializedIds[id := id.value];
        dest := id.value;
        return;
      }
      dest := VisitNonterminal(id);
    }

    /** Children first, then the nonterminal itself. */
    method VisitNonterminal(id: NodeId) returns (result: int)
      requires Ok() && IdOk(cache.graph, id) && Deeper(id) && id.Nonterminal? && id !in serializedIds
      modifies this
      ensures Ok() && open == old(open) && old(order) <= order
      ensures Listed(order, id) && result == Ser(order, id)
      ensures forall i :: i in order ==> i in old(order) || i in Reach(cache.graph, id)
      ensures order[|order| - 1] == id.index
      decreases Unfold(cache.graph, id), 0
    {
      hide Valid, GraphOk, PostOrder, IdsOk, Unfold, Reach, Position, Ser, RecOf;
      ghost var open0, key := open, cache.graph[id.index].key;
      Children(id);
      SlotContents(cache.S(), id.index);
      Open(id);
      var node := cache.nodes[id.index];
      var serializedLow := VisitNode(node.low);
      ghost var order1 := order;
      var serializedHigh := VisitNode(node.high);
      result := Close(id, serializedLow, serializedHigh, order1);
      assert open == open0;
    }

    /** The entry of a node is created before its children are visited. */
    method Open(id: NodeId)
      requires Ok() && id.Nonterminal? && id !in serializedIds
      modifies this`serializedIds, this`open
      ensures Ok() && open == old(open) + {id.index} && id.index !in old(open)
    {
      OpenOk(serializedIds, order, open, id.index);
      serializedIds := serializedIds[id := 0];
      open := open + {id.index};
    }

    /** Both children are written: the node gets the next serialized id and is written itself. */
    method Close(id: NodeId, low: int, high: int, ghost order1: seq<nat>) returns (result: int)
      requires Ok() && IdOk(cache.graph, id) && id.Nonterminal? && id.index in open
      requires var k := cache.graph[id.index].key;
               && order1 <= order && Listed(order1, k.low) && Listed(order, k.high)
               && low == Ser(order1, k.low) && high == Ser(order, k.high)
      modifies this
      ensures Ok() && open == old(open) - {id.index} && order == old(order) + [id.index]
      ensures Listed(order, id) && result == Ser(order, id)
    {
      hide Valid, GraphOk, PostOrder, IdsOk, Position, Ser, EncodeRecs, EncodeRec, Listed, Records, RecOf;
      CloseOk(cache.graph, serializedIds, order, open, order1, id.index);
      SlotContents(cache.S(), id.index);
      result := nextSerializedId;
      nextSerializedId := nextSerializedId - 1;
      serializedIds := serializedIds[id := result];
      WriteNonterminal(cache.nodes[id.index].variable, low, high);
      order := order + [id.index];
      open := open - {id.index};
    }

    lemma {:induction false} Children(id: NodeId)
      requires Ok() && IdOk(cache.graph, id) && Deeper(id) && id.Nonterminal?
      ensures var g, k := cache.graph, cache.graph[id.index].key;
              && IdOk(g, k.low) && IdOk(g, k.high)
              && Unfold(g, k.low) < Unfold(g, id) && Unfold(g, k.high) < Unfold(g, id)
              && Reach(g, id) == {id.index} + Reach(g, k.low) + Reach(g, k.high)
              && (forall o :: o in open + {id.index} ==>
                    && o < |g| && g[o].Live?
                    && IdAtLeast(g, k.low, g[o].key.variable + 1) && IdAtLeast(g, k.high, g[o].key.variable + 1))
      ensures id.index !in open
    {
      LiveKeyOk(cache.graph, id.index);
    }
  }

  lemma {:induction false} NothingWritten(s: State, header: seq<Octet>)
    requires Valid(s)
    ensures GraphOk(s.graph) && PostOrder(s.graph, []) && IdsOk(map[], [], {})
    ensures header == header + EncodeRecs(Records(s.graph, []))
  {
  }

  /** Entries are right, except those of nodes still open, which have none yet. */
  ghost predicate IdsOk(ids: map<NodeId, int>, order: seq<nat>, open: set<nat>) {
    && (forall v :: Terminal(v) in ids ==> ids[Terminal(v)] == v)
    && (forall i :: Nonterminal(i) in ids <==> i in order || i in open)
    && (forall i :: i in order ==> i !in open && ids[Nonterminal(i)] == -1 - Position(order, i))
  }

  lemma {:induction false} OpenOk(ids: map<NodeId, int>, order: seq<nat>, open: set<nat>, i: nat)
    requires IdsOk(ids, order, open) && Nonterminal(i) !in ids
    ensures IdsOk(ids[Nonterminal(i) := 0], order, open + {i})
    ensures i !in order && i !in open
  {
  }

  /** A node is written when both its children are listed. */
  lemma {:induction false} CloseOk(
    g: Graph, ids: map<NodeId, int>, order: seq<nat>, open: set<nat>, order1: seq<nat>, i: nat)
    requires IdsOk(ids, order, open) && i in open && PostOrder(g, order) && IdOk(g, Nonterminal(i))
    requires order1 <= order && Listed(order1, g[i].key.low) && Listed(order, g[i].key.high)
    ensures IdsOk(ids[Nonterminal(i) := -1 - |order|], order + [i], open - {i})
    ensures PostOrder(g, order + [i]) && Listed(order + [i], Nonterminal(i))
    ensures Ser(order + [i], Nonterminal(i)) == -1 - |order|
    ensures Listed(order, g[i].key.low) && Ser(order, g[i].key.low) == Ser(order1, g[i].key.low)
    ensures EncodeRecs(Records(g, order + [i])) == EncodeRecs(Records(g, order))
              + EncodeRec(Rec(g[i].key.variable, Ser(order1, g[i].key.low), Ser(order, g[i].key.high)))
  {
    hide IdsOk, PostOrder, EncodeRecs, Records, EncodeRec, Position;
    OpenNotListed(g, ids, order, open, i);
    SerStable(order1, order, g[i].key.low);
    PostOrderAppend(g, order, i);
    CloseIds(g, ids, order, open, i);
    CloseRecs(g, order, i);
  }

  lemma {:induction false} OpenNotListed(g: Graph, ids: map<NodeId, int>, order: seq<nat>, open: set<nat>, i: nat)
    requires IdsOk(ids, order, open) && i in open && PostOrder(g, order)
    ensures i !in order && forall j, k :: 0 <= j < k < |order| ==> order[j] != order[k]
  {
  }

  lemma {:induction false} CloseIds(g: Graph, ids: map<NodeId, int>, order: seq<nat>, open: set<nat>, i: nat)
    requires IdsOk(ids, order, open) && i in open
    ensures IdsOk(ids[Nonterminal(i) := -1 - |order|], order + [i], open - {i})
    ensures Ser(order + [i], Nonterminal(i)) == -1 - |order| && Listed(order + [i], Nonterminal(i))
  {
    forall j | j in order ensures j in order + [i] && Position(order + [i], j) == Position(order, j) {
      PositionStable(order, [i], j);
    }
  }

  lemma {:induction false} CloseRecs(g: Graph, order: seq<nat>, i: nat)
    requires PostOrder(g, order) && PostOrder(g, order + [i]) && IdOk(g, Nonterminal(i)) && i !in order
    requires Listed(order, g[i].key.low) && Listed(order, g[i].key.high)
    ensures EncodeRecs(Records(g, order + [i])) == EncodeRecs(Records(g, order))
              + EncodeRec(Rec(g[i].key.variable, Ser(order, g[i].key.low), Ser(order, g[i].key.high)))
  {
    PostOrderAppend(g, order, i);
    var rs := Records(g, order);
    assert (rs + [RecOf(g, order, i)])[..|rs|] == rs;
  }

  /**
   Saves a BDD. Exactly the nonterminals reachable from the root are written, each once, and the file
   is as long as its header says.
   */
  method Save(cache: Cache, root: NodeId) returns (stream: seq<Octet>, ghost order: seq<nat>)
    requires Valid(cache.S()) && GraphOk(cache.graph) && IdOk(cache.graph, root)
    ensures PostOrder(cache.graph, order) && |order| == |Reach(cache.graph, root)|
    ensures forall i :: i in order <==> i in Reach(cache.graph, root)
    ensures root.Nonterminal? ==> order != [] && order[|order| - 1] == root.index
    ensures stream == Header(|order|, root.Terminal?)
              + if root.Terminal? then U32(root.value) else EncodeRecs(Records(cache.graph, order))
    ensures |stream| == SetSize(|Reach(cache.graph, root)|, root.Terminal?)
  {
    hide Valid, GraphOk, PostOrder, IdsOk, Header, Reach, EncodeRecs, Records, SetSize;
    var saver := new Saver(cache, root);
    var last := saver.VisitNode(root);
    order := saver.order;
    stream := saver.stream;
    WrittenExactly(cache.graph, order, root);
    if root.Terminal? {
      stream := stream + U32(root.value);
    }
    StreamLength(cache.graph, order, root);
  }

  lemma {:induction false} WrittenExactly(g: Graph, order: seq<nat>, root: NodeId)
    requires GraphOk(g) && IdOk(g, root) && PostOrder(g, order) && Listed(order, root)
    requires forall i :: i in order ==> i in Reach(g, root)
    ensures |order| == |Reach(g, root)|
    ensures forall i :: i in order <==> i in Reach(g, root)
    ensures root.Terminal? ==> order == [] && EncodeRecs(Records(g, order)) == []
  {
    if root.Nonterminal? {
      PostOrderClosed(g, order, Position(order, root.index));
    } else if order != [] {
      assert order[0] in order;
    }
    DistinctCardinality(order, Reach(g, root));
  }

  lemma {:induction false} StreamLength(g: Graph, order: seq<nat>, root: NodeId)
    requires PostOrder(g, order) && (root.Terminal? ==> order == [])
    ensures SetSize(|order|, root.Terminal?)
         == |Header(|order|, root.Terminal?)|
            + if root.Terminal? then |U32(root.value)| else |EncodeRecs(Records(g, order))|
  {
  }

  // ----- loading

  /** Damaged: a node that is in use would be released, or a node would be created that breaks the order. */
  datatype LoadResult = Loaded(id: NodeId) | Failed(error: LoadError) | Damaged

  /** The records that a file has, as far as it goes. */
  function Available(b: seq<Octet>): seq<Rec> {
    if |b| < 20 then []
    else
      var count := Read32(b[16..20]);
      DecodeRecs(b[20..], if 20 + 9 * count <= |b| then count else (|b| - 20) / 9)
  }

  /** Those that a loader gets to. */
  function Processed(b: seq<Octet>): seq<Rec> {
    if |b| < 8 || b[..6] != MAGIC_NUMBER || Read16(b[6..8]) != 1 then [] else Available(b)
  }

  /** What a load of any file into a cache does. */
  ghost predicate LoadEnds(s: State, b: seq<Octet>, r: LoadResult, t: State)
    requires Valid(s) && Settled(s)
  {
    match LoadAll(s, Processed(b))
    case Damage => r == Damaged
    case Next(l) =>
      && t == l.s
      && match Decode(b)
         case Malformed(e) => r == Failed(e)
         case Value(v) => r == Loaded(Terminal(v)) && t == s
         case Nodes(rs) => |rs| == |l.ids| > 0 && rs == Processed(b) && r == Loaded(l.ids[|rs| - 1])
  }

  /** If no record damages the cache, a file is accepted, or refused with an error, by its bytes. */
  predicate Answers(b: seq<Octet>, r: LoadResult) {
    r != Damaged ==>
      && (r.Loaded? <==> IsAccepted(b))
      && (forall e :: r == Failed(e) <==> Reports(b, e))
      && (r.Loaded? && Count(b) == 0 ==>
            r.id.Terminal? && 2 * r.id.value + 1 == (2 * Read32(b[20..24]) + 1) % TWO_TO_THE_32)
  }

  lemma {:induction false} EndsAnswer(s: State, b: seq<Octet>, r: LoadResult, t: State)
    requires Valid(s) && Settled(s) && LoadEnds(s, b, r, t)
    ensures Answers(b, r)
  {
    hide Valid, Settled, Processed, LoadAll, Reports, IsAccepted;
    Verdict(b);
    if Decode(b).Value? {
      DoubledValue(Read32(b[20..24]));
    }
    hide Decode;
  }

  /** The tagged word of a terminal loses the highest bit of the value. */
  lemma {:induction false} DoubledValue(x: nat)
    requires x < TWO_TO_THE_32
    ensures 2 * (x % TWO_TO_THE_31) + 1 == (2 * x + 1) % TWO_TO_THE_32
  {
  }

  // ----- what the source does not look at

  method IsLive(cache: Cache, id: NodeId) returns (r: bool)
    requires cache.Ok()
    ensures r <==> IdOk(cache.graph, id)
  {
    if id.Terminal? {
      return true;
    }
    if id.index >= |cache.nodes| {
      return false;
    }
    var key := cache.nodes[id.index].Contents();
    r := key in cache.nodeCache && cache.nodeCache[key] == id;
  }

  method IsSpare(cache: Cache, id: NodeId) returns (r: bool)
    requires cache.Ok()
    ensures r <==> Spare(cache.S(), id)
  {
    hide Valid, Settled, GraphOk;
    r := IsLive(cache, id);
    if r && id.Nonterminal? {
      LiveIndex(cache.S(), id);
      r := cache.nodes[id.index].refcount > 1;
    }
  }

  lemma {:induction false} LiveIndex(s: State, id: NodeId)
    requires Valid(s) && IdOk(s.graph, id) && id.Nonterminal?
    ensures id.index < |s.nodes| && s.nodes[id.index].Contents() == s.graph[id.index].key
  {
  }

  method TestsAfter(cache: Cache, id: NodeId, variable: nat) returns (r: bool)
    requires cache.Ok()
    ensures r <==> IdAtLeast(cache.graph, id, variable + 1)
  {
    hide Valid, Settled, GraphOk;
    r := IsLive(cache, id);
    if r && id.Nonterminal? {
      LiveIndex(cache.S(), id);
      r := cache.nodes[id.index].variable > variable;
    }
  }

  /** Whether a node can be made without damage. */
  method IsSafe(cache: Cache, variable: nat, low: NodeId, high: NodeId) returns (r: bool)
    requires cache.Ok()
    ensures r <==> Safe(cache.S(), Key(variable, low, high))
  {
    hide Valid, Settled, GraphOk, Spare, IdAtLeast;
    if low == high {
      r := IsSpare(cache, low);
    } else if Key(variable, low, high) in cache.nodeCache {
      var lowSpare := IsSpare(cache, low);
      var highSpare := IsSpare(cache, high);
      r := lowSpare && highSpare;
    } else {
      var lowAfter := TestsAfter(cache, low, variable);
      var highAfter := TestsAfter(cache, high, variable);
      r := lowAfter && highAfter;
    }
  }

  // ----- records

  /** The node ids of the records loaded so far, by serialized id. */
  ghost predicate CacheIdsOk(cacheIds: map<int, NodeId>, ids: seq<NodeId>) {
    && (forall ser :: ser in cacheIds <==> 0 - |ids| <= ser < 0)
    && (forall ser :: ser in cacheIds ==> cacheIds[ser] == ids[-1 - ser])
  }

  /** Turns a pointer of a record into a node id. */
  method Resolve(cacheIds: map<int, NodeId>, ser: int, ghost ids: seq<NodeId>) returns (id: NodeId)
    requires CacheIdsOk(cacheIds, ids)
    ensures id == IdFor(ids, ser)
  {
    if ser >= 0 {
      id := Terminal(ser);
    } else if ser in cacheIds {
      id := cacheIds[ser];
    } else {
      id := Nonterminal(0);
    }
  }

  /** Reads one record and makes its node. */
  method LoadRecord(cache: Cache, b: seq<Octet>, i: nat, cacheIds: map<int, NodeId>, ghost l: Loading)
    returns (ok: bool, cacheIds': map<int, NodeId>, result: NodeId)
    requires cache.Ok() && l.s == cache.S() && |l.ids| == i && CacheIdsOk(cacheIds, l.ids)
    requires 20 + 9 * (i + 1) <= |b|
    modifies cache
    ensures match LoadOne(l, DecodeRec(b[20 + 9 * i..20 + 9 * (i + 1)]))
            case Damage => !ok
            case Next(m) =>
              ok && cache.Ok() && cache.S() == m.s && CacheIdsOk(cacheIds', m.ids) && result == m.ids[i]
  {
    hide Valid, Settled, GraphOk, Safe, Made, Read32, Signed32, CacheIdsOk, IdFor, DecodeRec, LoadOne, Fill, BumpId;
    var pos := 20 + 9 * i;
    var variable: nat := b[pos];
    var low := Signed32(Read32(b[pos + 1..pos + 5]));
    var high := Signed32(Read32(b[pos + 5..pos + 9]));
    RecordFields(b, i);
    OneStep(l, Rec(variable, low, high));
    var lowId := Resolve(cacheIds, low, l.ids);
    var highId := Resolve(cacheIds, high, l.ids);
    ok, result := LoadNode(cache, variable, lowId, highId);
    cacheIds' := cacheIds[-(i + 1) := result];
    CacheIdsNext(cacheIds, l.ids, result);
  }

  /** Makes a node, if that is safe. */
  method LoadNode(cache: Cache, variable: nat, lowId: NodeId, highId: NodeId) returns (ok: bool, result: NodeId)
    requires cache.Ok()
    modifies cache
    ensures cache.Ok() && (ok <==> old(Safe(cache.S(), Key(variable, lowId, highId))))
    ensures ok ==> (cache.S(), result) == old(Made(cache.S(), Key(variable, lowId, highId)))
  {
    hide Valid, Settled, GraphOk, Safe, Made, Sub, IdOk, Ref, CountedBut;
    result := lowId;
    ok := IsSafe(cache, variable, lowId, highId);
    if ok {
      result := cache.MakeNonterminal(variable, lowId, highId);
    }
  }

  lemma {:induction false} CacheIdsNext(cacheIds: map<int, NodeId>, ids: seq<NodeId>, id: NodeId)
    requires CacheIdsOk(cacheIds, ids)
    ensures CacheIdsOk(cacheIds[-(|ids| + 1) := id], ids + [id])
  {
  }

  lemma {:induction false} RecordFields(b: seq<Octet>, i: nat)
    requires 20 + 9 * (i + 1) <= |b|
    ensures var pos := 20 + 9 * i;
            DecodeRec(b[pos..20 + 9 * (i + 1)])
            == Rec(b[pos], Signed32(Read32(b[pos + 1..pos + 5])), Signed32(Read32(b[pos + 5..pos + 9])))
  {
    hide Read32, Signed32;
    var pos := 20 + 9 * i;
    Part(b, pos, 9, 1, 5);
    Part(b, pos, 9, 5, 9);
    assert b[pos..pos + 9][5..] == b[pos..pos + 9][5..9];
  }

  lemma {:induction false} Part(b: seq<Octet>, pos: nat, n: nat, i: nat, j: nat)
    requires i <= j <= n && pos + n <= |b|
    ensures b[pos..pos + n][i..j] == b[pos + i..pos + j]
  {
    var r := b[pos..pos + n];
    var x, y := r[i..j], b[pos + i..pos + j];
    forall k | 0 <= k < j - i ensures x[k] == y[k] {
      assert r[i + k] == b[pos + (i + k)];
    }
    assert x == y;
  }

  /**
   Loads a file, whatever it says, into any cache. As long as no record damages the cache, it is what the records
   make of it, and the result or the error is that of the file.
   */
  method Load(b: seq<Octet>, cache: Cache) returns (r: LoadResult)
    requires cache.Ok()
    modifies cache
    ensures LoadEnds(old(cache.S()), b, r, cache.S()) && (r != Damaged ==> cache.Ok())
    ensures Answers(b, r)
  {
    hide LoadEnds, Answers;
    if |b| < 6 {
      r := Failed(UnexpectedEof);
    } else if b[..6] != MAGIC_NUMBER {
      r := Failed(BadMagic);
    } else if |b| < 8 {
      r := Failed(ReadError);
    } else if Read16(b[6..8]) != 0x0001 {
      r := Failed(UnknownVersion);
    } else {
      r := LoadV1(b, cache);
      return;
    }
    NotProcessed(cache.S(), b, r);
    EndsAnswer(cache.S(), b, r, cache.S());
  }

  lemma {:induction false} NotProcessed(s: State, b: seq<Octet>, r: LoadResult)
    requires Valid(s) && Settled(s) && Processed(b) == []
    ensures Decode(b).Malformed? && r == Failed(Decode(b).error) ==> LoadEnds(s, b, r, s)
  {
  }

  method LoadV1(b: seq<Octet>, cache: Cache) returns (r: LoadResult)
    requires cache.Ok()
    requires |b| >= 8 && b[..6] == MAGIC_NUMBER && Read16(b[6..8]) == 1
    modifies cache
    ensures LoadEnds(old(cache.S()), b, r, cache.S()) && (r != Damaged ==> cache.Ok())
    ensures Answers(b, r)
  {
    hide Valid, Settled, GraphOk, DecodeRecs, Read32, Read64, Answers;
    if |b| < 16 + 4 { // the length, and the number of nonterminals
      r := Failed(ReadError);
    } else {
      var length := Read64(b[8..16]);
      var bytesRead := 0;
      var cap := (length - 6 - 2 - 8) % TWO_TO_THE_64;
      var nonterminalCount := Read32(b[16..20]);
      bytesRead := bytesRead + 4;
      if nonterminalCount == 0 {
        NoRecords(b);
        if |b| < 24 {
          r := Failed(ReadError);
        } else {
          var value := Read32(b[20..24]);
          bytesRead := bytesRead + 4;
          var err := VerifyCap(bytesRead, cap);
          r := if err.Fail? then Failed(err.error) else Loaded(Terminal(value % TWO_TO_THE_31));
        }
      } else {
        r := LoadNodes(b, cache, nonterminalCount);
        if r.Loaded? {
          bytesRead := bytesRead + 9 * nonterminalCount;
          var err := VerifyCap(bytesRead, cap);
          r := if err.Fail? then Failed(err.error) else r;
        }
      }
    }
    EndsAnswer(old(cache.S()), b, r, cache.S());
  }

  lemma {:induction false} NoRecords(b: seq<Octet>)
    requires |b| >= 20 && Read32(b[16..20]) == 0
    ensures Available(b) == []
  {
  }

  /** Reads the nonterminals. */
  method LoadNodes(b: seq<Octet>, cache: Cache, nonterminalCount: nat) returns (r: LoadResult)
    requires |b| >= 20 && nonterminalCount == Read32(b[16..20]) > 0 && cache.Ok()
    modifies cache
    ensures match LoadAll(old(cache.S()), Available(b))
            case Damage => r == Damaged
            case Next(l) =>
              && cache.Ok() && cache.S() == l.s
              && (|b| < 20 + 9 * nonterminalCount ==> r == Failed(ReadError))
              && (|b| >= 20 + 9 * nonterminalCount ==>
                    |l.ids| == nonterminalCount && r == Loaded(l.ids[nonterminalCount - 1]))
  {
    ghost var rs, s := Available(b), cache.S();
    AvailableLength(b);
    ghost var l := Loading(s, []);
    var cacheIds: map<int, NodeId> := map[];
    r := Failed(ReadError);
    assert LoadAll(s, rs[..0]) == Next(l);
    hide Valid, Settled, GraphOk, DecodeRecs, DecodeRec, Available, Read32, LoadOne, LoadAll, CacheIdsOk;
    assert CacheIdsOk(cacheIds, l.ids) by {
      NoIds();
    }
    for i := 0 to nonterminalCount
      invariant i <= |rs| && cache.Ok() && l.s == cache.S() && LoadAll(s, rs[..i]) == Next(l)
      invariant 20 + 9 * i <= |b| && |l.ids| == i && CacheIdsOk(cacheIds, l.ids)
      invariant i > 0 ==> r == Loaded(l.ids[i - 1])
    {
      if |b| < 20 + 9 * (i + 1) {
        assert rs[..i] == rs;
        return Failed(ReadError);
      }
      RecordAt(b, i);
      LoadAllNext(s, rs, i);
      var ok, result;
      ok, cacheIds, result := LoadRecord(cache, b, i, cacheIds, l);
      if !ok {
        DamageStays(s, rs, i + 1);
        return Damaged;
      }
      l := LoadAll(s, rs[..i + 1]).l;
      r := Loaded(result);
    }
    assert rs[..nonterminalCount] == rs;
  }

  lemma {:induction false} NoIds()
    ensures CacheIdsOk(map[], [])
  {
  }

  lemma {:induction false} AvailableLength(b: seq<Octet>)
    requires |b| >= 20
    ensures var count := Read32(b[16..20]);
            |Available(b)| == if 20 + 9 * count <= |b| then count else (|b| - 20) / 9
  {
  }

  lemma {:induction false} RecordAt(b: seq<Octet>, i: nat)
    requires |b| >= 20 + 9 * (i + 1) && i < Read32(b[16..20])
    ensures i < |Available(b)| && Available(b)[i] == DecodeRec(b[20 + 9 * i..20 + 9 * (i + 1)])
  {
    AvailableLength(b);
    RecAt(b[20..], |Available(b)|, i);
    assert b[20..][9 * i..9 * (i + 1)] == b[20 + 9 * i..20 + 9 * (i + 1)];
  }
}

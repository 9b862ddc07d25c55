/**
 IP sets from end to end: a set that is changed network by network, and listed by iteration, has exactly the
 addresses that the changes say.
 */
module IpSet {
  import opened DecisionTree
  import opened NodeGraph
  import opened CacheState
  import opened NodeCache
  import opened Paths
  import opened AddressBlocks
  import opened BddIterator
  import opened SetIterator
  import opened Summaries

  // ----- insertions keep a set iterable

  lemma {:induction false} IteVarsUpTo(k: nat, n: nat, a: Valuation, g: nat, h: Tree, m: nat)
    requires k <= n <= m + 1 && VarsUpTo(h, m)
    ensures VarsUpTo(Ite(k, n, a, true, g, h), m)
    decreases n - k, h
  {
    if k == n || h == Leaf(g) {
    } else if h.Branch? && h.variable < k {
      IteVarsUpTo(k, n, a, g, h.low, m);
      IteVarsUpTo(k, n, a, g, h.high, m);
    } else {
      var here := h.Branch? && h.variable == k;
      IteVarsUpTo(k + 1, n, a, g, if !here then h else if a(k) then h.high else h.low, m);
    }
  }

  lemma {:induction false} MoreVars(t: Tree, m: nat, n: nat)
    requires VarsUpTo(t, m) && m <= n
    ensures VarsUpTo(t, n)
  {
    if t.Branch? {
      MoreVars(t.low, m, n);
      MoreVars(t.high, m, n);
    }
  }

  /** Inserting a network of either version, no longer than its addresses, keeps the tree within its limits. */
  lemma {:induction false} InsertKeepsFits(n: nat, a: Valuation, g: nat, h: Tree)
    requires Canonical(h) && Fits(h) && 0 < n <= BitSize(a(0)) + 1
    ensures Fits(Ite(0, n, a, true, g, h))
  {
    if h != Leaf(g) {
      var here := h.Branch? && h.variable == 0;
      var low, high := if here then h.low else h, if here then h.high else h;
      if !here {
        MoreVars(h, IPV4_BIT_SIZE, IPV6_BIT_SIZE);
      }
      var go := if a(0) then high else low;
      IteVarsUpTo(1, n, a, g, go, BitSize(a(0)));
      IteCanonical(1, n, a, true, g, go, 1);
    }
  }

  // ----- what a set is

  /** The addresses that start like elem for prefix bits. */
  function NetworkOf(elem: Block, prefix: nat): Block
    requires prefix <= |elem.bits|
  {
    Block(elem.v4, elem.bits[..prefix])
  }

  lemma {:induction false} CoversIsCube(elem: Block, prefix: nat, a: Block)
    requires IsAddress(elem) && IsAddress(a) && prefix <= |elem.bits|
    ensures Covers(NetworkOf(elem, prefix), a)
            <==> InCube(AddressValuation(a), AddressValuation(elem), 0, prefix + 1)
  {
    var x, y := AddressValuation(a), AddressValuation(elem);
    if InCube(x, y, 0, prefix + 1) {
      assert x(0) == y(0);
      forall k | 0 <= k < prefix ensures a.bits[k] == elem.bits[k] {
        assert x(k + 1) == y(k + 1);
      }
      assert a.bits[..prefix] == elem.bits[..prefix];
    }
    if Covers(NetworkOf(elem, prefix), a) {
      forall j | 0 <= j < prefix + 1 ensures x(j) == y(j) {
        if j > 0 {
          assert a.bits[j - 1] == NetworkOf(elem, prefix).bits[j - 1];
        }
      }
    }
  }

  /** Two sets are the same BDD exactly if they have the same addresses. */
  lemma {:induction false} SameAddresses(t: Tree, u: Tree)
    requires Canonical(t) && Canonical(u) && Fits(t) && Fits(u)
    ensures t == u <==> forall a :: IsAddress(a) ==> Eval(t, AddressValuation(a)) == Eval(u, AddressValuation(a))
  {
    if forall a :: IsAddress(a) ==> Eval(t, AddressValuation(a)) == Eval(u, AddressValuation(a)) {
      forall x: Valuation ensures Eval(t, x) == Eval(u, x) {
        EvalByAddress(t, x);
        EvalByAddress(u, x);
        assert IsAddress(AddressOf(x));
      }
      CanonicalUnique(t, u);
    }
  }

  /** All addresses of a network are added or removed. */
  datatype Change = Change(elem: Block, prefix: nat, value: bool)

  predicate ChangeOk(c: Change) {
    IsAddress(c.elem) && c.prefix <= BitSize(c.elem.v4)
  }

  /** Whether an address is in the set after the changes: the last one that covers it says so. */
  predicate Member(changes: seq<Change>, a: Block)
    requires forall k :: 0 <= k < |changes| ==> ChangeOk(changes[k])
  {
    changes != [] &&
    var c := changes[|changes| - 1];
    assert ChangeOk(c);
    if Covers(NetworkOf(c.elem, c.prefix), a) then c.value else Member(changes[..|changes| - 1], a)
  }

  /** The set that a tree stands for. */
  ghost predicate In(t: Tree, a: Block) {
    Eval(t, AddressValuation(a)) == 1
  }

  /** The terminals that a tree leads to are 0 and 1. */
  ghost predicate ZeroOne(t: Tree) {
    forall x: Valuation :: Eval(t, x) <= 1
  }

  datatype Result = OutOfRange | Done(already: bool)

  class AddressSet {
    const cache: Cache
    const zero: FakeNode
    var root: NodeId

    ghost predicate Valid() reads this, cache, zero {
      && cache.Exact() && zero.value == 0 && IdOk(cache.graph, root) && cache.handles == Ref(root)
      && Fits(cache.Meaning(root)) && ZeroOne(cache.Meaning(root))
    }

    ghost predicate Has(a: Block) reads this, cache, zero
      requires Valid()
    {
      In(cache.Meaning(root), a)
    }

    constructor ()
      ensures Valid() && fresh(cache) && fresh(zero) && forall a :: IsAddress(a) ==> !Has(a)
    {
      root := Terminal(0);
      cache := new Cache();
      zero := new FakeNode(0, 0, _ => false, 0);
    }

    method Contains(elem: Block) returns (r: bool)
      requires Valid() && IsAddress(elem)
      ensures r == Has(elem)
    {
      hide Fits;
      var v := cache.Evaluate(root, AddressValuation(elem));
      r := v == 1;
    }

    /**
     Adds (value true) or removes the network of elem with a prefix length: exactly its addresses change, and the
     result says whether the set had them so already.
     */
    method ChangeNetwork(elem: Block, prefix: nat, value: bool) returns (r: Result)
      requires Valid() && IsAddress(elem)
      modifies this`root, cache, zero
      ensures Valid()
      ensures r.OutOfRange? <==> prefix > BitSize(elem.v4)
      ensures forall a :: IsAddress(a) ==>
                Has(a) == if prefix <= BitSize(elem.v4) && Covers(NetworkOf(elem, prefix), a)
                    then value else old(Has(a))
      ensures r.Done? ==> (r.already <==> forall a :: IsAddress(a) ==> Has(a) == old(Has(a)))
    {
      hide CacheState.Valid, Fits, Covers, In, ZeroOne, Ite, CountedBut, Canonical;
      if prefix > BitSize(elem.v4) {
        return OutOfRange;
      }
      ghost var t := Tree();
      var newBdd := InsertNetwork(elem, prefix, if value then 1 else 0);
      ghost var u := cache.Meaning(newBdd);
      var already := newBdd == root;
      Changed(t, u, elem, prefix, value);
      Replace(newBdd);
      r := Done(already);
    }

    ghost function Tree(): Tree reads this, cache, zero
      requires Valid()
    {
      cache.Meaning(root)
    }

    /** The BDD with the network inserted, beside the old one. */
    method InsertNetwork(elem: Block, prefix: nat, value: nat) returns (r: NodeId)
      requires Valid() && IsAddress(elem) && prefix <= BitSize(elem.v4)
      modifies cache, zero
      ensures cache.Exact() && zero.value == 0 && IdOk(cache.graph, root) && IdOk(cache.graph, r)
      ensures cache.handles == Ref(root) + Ref(r)
      ensures cache.Meaning(r) == Ite(0, prefix + 1, AddressValuation(elem), true, value, old(Tree()))
      ensures Fits(cache.Meaning(r)) && Canonical(old(Tree())) && Fits(old(Tree())) && Canonical(cache.Meaning(r))
      ensures r == root <==> cache.Meaning(r) == old(Tree())
    {
      ghost var g, t := cache.graph, Tree();
      RootCanonical(cache, root);
      InsertKeepsFits(prefix + 1, AddressValuation(elem), value, t);
      hide CacheState.Valid, Fits, Ite, CountedBut, Canonical, ZeroOne;
      r := cache.Insert(root, AddressValuation(elem), prefix + 1, value, zero);
      UnfoldStable(g, cache.graph, root);
      RootCanonical(cache, r);
      SameRoot(cache, root, r);
    }

    /** The old BDD is released, and the new one becomes the set. */
    method Replace(newBdd: NodeId)
      requires cache.Exact() && zero.value == 0 && IdOk(cache.graph, root) && IdOk(cache.graph, newBdd)
      requires cache.handles == Ref(root) + Ref(newBdd) && Fits(cache.Meaning(newBdd)) && ZeroOne(cache.Meaning(newBdd))
      modifies this`root, cache
      ensures Valid() && Tree() == old(cache.Meaning(newBdd))
    {
      hide CacheState.Valid, Fits, CountedBut, GraphOk, Settled, ZeroOne;
      ghost var s := cache.S();
      cache.Decref(root);
      root := newBdd;
      StillThere(s, cache.S(), newBdd);
    }
  }

  // ----- listing a set

  lemma {:induction false} CurrentFirst(it: Iteration)
    requires it.Ok() && !it.finished
    ensures it.cidrPrefix <= 8 * |it.addr.ip|
    ensures it.Remaining() != [] && it.Remaining()[0] == Network(it.addr, it.cidrPrefix)
  {
    assert it.expander.Remaining()[0] == it.expander.Current();
    assert BlocksOf(it.expander.Remaining())[0] == BlockOf(it.expander.Current());
  }

  /** All the networks or addresses that an iteration yields. */
  method ListBlocks(cache: Cache, id: NodeId, desired: bool, summarize: bool) returns (blocks: seq<Block>)
    requires cache.Ok() && IdOk(cache.graph, id)
    ensures blocks == AllBlocks(AllPaths(cache.Meaning(id)), if desired then 1 else 0, summarize)
  {
    hide AllBlocks, Iteration.Ok, Iteration.Remaining, Network, CacheState.Valid, Settled;
    var it := new Iteration(cache, id, desired, summarize);
    ghost var all := it.Remaining();
    blocks := [];
    while !it.finished
      invariant it.Ok() && fresh(it) && fresh(it.bdd) && fresh(it.bdd.assignment)
      invariant it.expander == null || fresh(it.expander)
      invariant blocks + it.Remaining() == all
      decreases |it.Remaining()|
    {
      CurrentFirst(it);
      blocks := blocks + [Network(it.addr, it.cidrPrefix)];
      it.Advance();
    }
    NoneLeft(it);
  }

  lemma {:induction false} NoneLeft(it: Iteration)
    requires it.Ok() && it.finished
    ensures it.Remaining() == []
  {
  }

  /** The blocks cover each address with the desired membership exactly once, and no other address. */
  ghost predicate Lists(blocks: seq<Block>, changes: seq<Change>, desired: bool)
    requires forall k :: 0 <= k < |changes| ==> ChangeOk(changes[k])
  {
    forall a :: IsAddress(a) ==> Count(blocks, a) == if Member(changes, a) == desired then 1 else 0
  }

  /** All the addresses of the block have the desired membership. */
  ghost predicate AllDesired(b: Block, changes: seq<Change>, desired: bool)
    requires forall k :: 0 <= k < |changes| ==> ChangeOk(changes[k])
  {
    forall a :: IsAddress(a) && Covers(b, a) ==> Member(changes, a) == desired
  }

  /** The blocks are the greatest networks of addresses with the desired membership, or they are addresses. */
  ghost predicate InForm(blocks: seq<Block>, changes: seq<Change>, desired: bool, summarize: bool)
    requires forall k :: 0 <= k < |changes| ==> ChangeOk(changes[k])
  {
    if summarize then
      forall b :: b in blocks <==>
        && |b.bits| <= BitSize(b.v4) && AllDesired(b, changes, desired)
        && (b.bits != [] ==> !AllDesired(Wider(b), changes, desired))
    else forall b :: b in blocks ==> IsAddress(b)
  }

  lemma {:induction false} ListsMembers(t: Tree, changes: seq<Change>, desired: bool, summarize: bool)
    requires Canonical(t) && Fits(t) && ZeroOne(t) && forall k :: 0 <= k < |changes| ==> ChangeOk(changes[k])
    requires forall a :: IsAddress(a) ==> In(t, a) == Member(changes, a)
    ensures var blocks := AllBlocks(AllPaths(t), if desired then 1 else 0, summarize);
            Lists(blocks, changes, desired) && InForm(blocks, changes, desired, summarize)
  {
    hide Member, Count, AllBlocks, Covers;
    var wanted := if desired then 1 else 0;
    var blocks := AllBlocks(AllPaths(t), wanted, summarize);
    forall a | IsAddress(a)
      ensures Count(blocks, a) == if Member(changes, a) == desired then 1 else 0
      ensures Eval(t, AddressValuation(a)) == wanted <==> Member(changes, a) == desired
    {
      BlocksExact(t, wanted, summarize, a);
      assert In(t, a) == Member(changes, a) && Eval(t, AddressValuation(a)) <= 1;
    }
    forall b ensures Uniform(t, wanted, b) <==> AllDesired(b, changes, desired) {
    }
    if summarize {
      GreatestDesired(t, changes, desired);
    } else {
      PlainAddresses(AllPaths(t), wanted);
    }
  }

  lemma {:induction false} GreatestDesired(t: Tree, changes: seq<Change>, desired: bool)
    requires Canonical(t) && Fits(t) && forall k :: 0 <= k < |changes| ==> ChangeOk(changes[k])
    requires forall b :: Uniform(t, if desired then 1 else 0, b) <==> AllDesired(b, changes, desired)
    ensures InForm(AllBlocks(AllPaths(t), if desired then 1 else 0, true), changes, desired, true)
  {
    hide AllBlocks, AllPaths, Fits, Canonical, Uniform, AllDesired;
    var wanted := if desired then 1 else 0;
    forall b ensures b in AllBlocks(AllPaths(t), wanted, true) <==>
        && |b.bits| <= BitSize(b.v4) && AllDesired(b, changes, desired)
        && (b.bits != [] ==> !AllDesired(Wider(b), changes, desired))
    {
      SummaryExact(t, wanted, b);
    }
  }

  /** Makes the changes, in order, to a new set. */
  method Build(changes: seq<Change>) returns (ips: AddressSet)
    requires forall k :: 0 <= k < |changes| ==> ChangeOk(changes[k])
    ensures ips.Valid() && fresh(ips) && fresh(ips.cache) && fresh(ips.zero)
    ensures forall a :: IsAddress(a) ==> ips.Has(a) == Member(changes, a)
  {
    hide CacheState.Valid, Fits, ZeroOne, CountedBut, Settled, Covers, In, AddressSet.Has;
    ips := new AddressSet();
    for i := 0 to |changes|
      invariant ips.Valid() && fresh(ips) && fresh(ips.cache) && fresh(ips.zero)
      invariant forall a :: IsAddress(a) ==> ips.Has(a) == Member(changes[..i], a)
    {
      assert ChangeOk(changes[i]);
      var r := ips.ChangeNetwork(changes[i].elem, changes[i].prefix, changes[i].value);
      forall a | IsAddress(a) ensures ips.Has(a) == Member(changes[..i + 1], a) {
        MemberNext(changes, i, a);
      }
    }
    assert changes[..|changes|] == changes;
  }

  /**
   From end to end: after any changes to a new set, a query answers by the last change that covers the address,
   and iteration lists exactly the addresses that are in the set, or exactly those that are not.
   */
  method ChangeThenList(changes: seq<Change>, probe: Block, desired: bool, summarize: bool)
    returns (found: bool, blocks: seq<Block>)
    requires (forall k :: 0 <= k < |changes| ==> ChangeOk(changes[k])) && IsAddress(probe)
    ensures found == Member(changes, probe)
    ensures Lists(blocks, changes, desired) && InForm(blocks, changes, desired, summarize)
  {
    hide CacheState.Valid, Fits, ZeroOne, CountedBut, Settled, AllBlocks, In, AddressSet.Has, Lists, InForm, Member;
    var ips := Build(changes);
    found := ips.Contains(probe);
    RootCanonical(ips.cache, ips.root);
    SetMembers(ips, changes);
    ListsMembers(ips.cache.Meaning(ips.root), changes, desired, summarize);
    blocks := ListBlocks(ips.cache, ips.root, desired, summarize);
  }

  lemma {:induction false} SetMembers(ips: AddressSet, changes: seq<Change>)
    requires ips.Valid() && forall k :: 0 <= k < |changes| ==> ChangeOk(changes[k])
    requires forall a :: IsAddress(a) ==> ips.Has(a) == Member(changes, a)
    ensures Fits(ips.cache.Meaning(ips.root)) && ZeroOne(ips.cache.Meaning(ips.root))
    ensures forall a :: IsAddress(a) ==> In(ips.cache.Meaning(ips.root), a) == Member(changes, a)
  {
    forall a | IsAddress(a) ensures In(ips.cache.Meaning(ips.root), a) == Member(changes, a) {
      assert ips.Has(a) == Member(changes, a);
    }
  }

  lemma {:induction false} MemberNext(changes: seq<Change>, i: nat, a: Block)
    requires i < |changes| && forall k :: 0 <= k < |changes| ==> ChangeOk(changes[k])
    ensures ChangeOk(changes[i])
    ensures var c := changes[i];
            Member(changes[..i + 1], a) == if Covers(NetworkOf(c.elem, c.prefix), a)
                then c.value else Member(changes[..i], a)
  {
    assert changes[..i + 1][..i] == changes[..i];
  }

  lemma {:induction false} RootCanonical(cache: Cache, id: NodeId)
    requires cache.Ok() && IdOk(cache.graph, id)
    ensures Canonical(cache.Meaning(id))
  {
    ValidDistinct(cache.S());
    UnfoldCanonical(cache.graph, id);
  }

  lemma {:induction false} SameRoot(cache: Cache, x: NodeId, y: NodeId)
    requires cache.Ok() && IdOk(cache.graph, x) && IdOk(cache.graph, y)
    ensures x == y <==> cache.Meaning(x) == cache.Meaning(y)
  {
    ValidDistinct(cache.S());
    if cache.Meaning(x) == cache.Meaning(y) {
      UnfoldInjective(cache.graph, x, y);
    }
  }

  lemma {:induction false} StillThere(s: State, t: State, id: NodeId)
    requires Settled(s) && GraphOk(s.graph) && OnlyFrees(s.graph, t.graph) && Valid(t) && Counted(t)
    requires Ref(id) <= t.handles
    ensures Settled(t) && GraphOk(t.graph) && IdOk(t.graph, id) && IdOk(s.graph, id)
    ensures Unfold(t.graph, id) == Unfold(s.graph, id)
  {
    HeldIsLive(t, id);
    UnfoldStable(t.graph, s.graph, id);
  }

  /** What an insertion means for the addresses of a set. */
  lemma {:induction false} Changed(t: Tree, u: Tree, elem: Block, prefix: nat, value: bool)
    requires IsAddress(elem) && prefix <= BitSize(elem.v4)
    requires u == Ite(0, prefix + 1, AddressValuation(elem), true, if value then 1 else 0, t)
    requires Canonical(t) && Canonical(u) && Fits(t) && Fits(u)
    requires ZeroOne(t)
    ensures ZeroOne(u)
    ensures forall a :: IsAddress(a) ==>
              (In(u, a) <==> if Covers(NetworkOf(elem, prefix), a) then value else In(t, a))
    ensures u == t <==> forall a :: IsAddress(a) ==> (In(u, a) <==> In(t, a))
  {
    hide Ite, Fits, Canonical, Covers, AddressValuation;
    var g := if value then 1 else 0;
    forall x: Valuation ensures Eval(u, x) <= 1 {
      IteMeaning(0, prefix + 1, AddressValuation(elem), g, t, x);
    }
    forall a | IsAddress(a)
      ensures In(u, a) <==> if Covers(NetworkOf(elem, prefix), a) then value else In(t, a)
    {
      IteMeaning(0, prefix + 1, AddressValuation(elem), g, t, AddressValuation(a));
      CoversIsCube(elem, prefix, a);
    }
    SameAddresses(t, u);
  }
}

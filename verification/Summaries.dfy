/**
 Listing a set as networks: the blocks are exactly the greatest ones that are in the set, so none of them could be
 shorter, and none is missing.
 */
module Summaries {
  import opened DecisionTree
  import opened Paths
  import opened Expansion
  import opened AddressBlocks

  // ----- addresses and valuations

  /** The address that a valuation speaks of. */
  function AddressOf(x: Valuation): (a: Block)
    ensures IsAddress(a)
  {
    Block(x(0), seq(BitSize(x(0)), k requires 0 <= k => x(k + 1)))
  }

  lemma {:induction false} EvalUpTo(t: Tree, m: nat, x: Valuation, y: Valuation)
    requires VarsUpTo(t, m) && forall v :: 0 <= v <= m ==> x(v) == y(v)
    ensures Eval(t, x) == Eval(t, y)
  {
    if t.Branch? {
      EvalUpTo(if x(t.variable) then t.high else t.low, m, x, y);
    }
  }

  /** A tree within the limits depends on the address only. */
  lemma {:induction false} EvalByAddress(t: Tree, x: Valuation)
    requires Fits(t)
    ensures Eval(t, x) == Eval(t, AddressValuation(AddressOf(x)))
  {
    var a := AddressOf(x);
    var y := AddressValuation(a);
    forall v | 0 <= v <= BitSize(a.v4) ensures x(v) == y(v) {
      assert v > 0 ==> a.bits[v - 1] == x(v);
    }
    if t.Branch? && t.variable == 0 {
      EvalUpTo(if x(0) then t.high else t.low, BitSize(x(0)), x, y);
    } else {
      EvalUpTo(t, IPV4_BIT_SIZE, x, y);
    }
  }

  // ----- the greatest blocks

  /** Every address of the block has the value. */
  ghost predicate Uniform(t: Tree, wanted: nat, b: Block) {
    forall a :: IsAddress(a) && Covers(b, a) ==> Eval(t, AddressValuation(a)) == wanted
  }

  /** The block of all addresses that start like b, but for its last bit */
  function Wider(b: Block): Block
    requires b.bits != []
  {
    Block(b.v4, b.bits[..|b.bits| - 1])
  }

  /** All addresses of the block have the value, and not all those of the block that is a bit shorter. */
  ghost predicate Greatest(t: Tree, wanted: nat, b: Block) {
    |b.bits| <= BitSize(b.v4) && Uniform(t, wanted, b) && (b.bits != [] ==> !Uniform(t, wanted, Wider(b)))
  }

  // ----- the last test of a path decides

  /** Flipping the last test of a path leads to another value, for some outcomes of later tests. */
  lemma {:induction false} LastTest(
    t: Tree, pre: map<nat, bool>, bound: nat, i: nat, v: nat, x: Valuation) returns (y: Valuation)
    requires Canonical(t) && RootAtLeast(t, bound) && Below(pre, bound) && i < |PathsFrom(t, pre)|
    requires var fixed := PathsFrom(t, pre)[i].fixed;
             && v in fixed && v !in pre && (forall u :: u in fixed ==> u <= v)
             && (forall u :: u in fixed ==> (x(u) == fixed[u] <==> u != v))
    ensures (forall u: nat :: u <= v ==> y(u) == x(u)) && Eval(t, y) != PathsFrom(t, pre)[i].value
    decreases t
  {
    var w := t.variable;
    var lows := PathsFrom(t.low, pre[w := false]);
    var high := i >= |lows|;
    var child, pre', k := if high then t.high else t.low, pre[w := high], if high then i - |lows| else i;
    PathsExtend(child, pre', w + 1, k);
    assert w in pre';
    if w == v {
      if child.Branch? {
        LaterTest(child, pre', k);
      }
      var other := if high then t.low else t.high;
      var z := Distinguish(other, child);
      y := (u: nat) => if u <= v then x(u) else z(u);
      EvalAgree(other, v + 1, y, z);
    } else {
      y := LastTest(child, pre', w + 1, k, v, x);
    }
  }

  lemma {:induction false} LaterTest(t: Tree, pre: map<nat, bool>, i: nat)
    requires Ordered(t) && t.Branch? && Below(pre, t.variable) && i < |PathsFrom(t, pre)|
    ensures t.variable in PathsFrom(t, pre)[i].fixed
  {
    var lows := PathsFrom(t.low, pre[t.variable := false]);
    if i < |lows| {
      PathsExtend(t.low, pre[t.variable := false], t.variable + 1, i);
      assert t.variable in pre[t.variable := false];
    } else {
      PathsExtend(t.high, pre[t.variable := true], t.variable + 1, i - |lows|);
      assert t.variable in pre[t.variable := true];
    }
  }

  lemma {:induction false} PathVars(t: Tree, pre: map<nat, bool>, m: nat, i: nat)
    requires VarsUpTo(t, m) && (forall u :: u in pre ==> u <= m) && i < |PathsFrom(t, pre)|
    ensures forall u :: u in PathsFrom(t, pre)[i].fixed ==> u <= m
  {
    if t.Branch? {
      var lows := PathsFrom(t.low, pre[t.variable := false]);
      if i < |lows| {
        PathVars(t.low, pre[t.variable := false], m, i);
      } else {
        PathVars(t.high, pre[t.variable := true], m, i - |lows|);
      }
    }
  }

  /** The variables of a path are those of the addresses that it stands for. */
  lemma {:induction false} PathFits(t: Tree, i: nat, v4: bool)
    requires Ordered(t) && Fits(t) && i < |AllPaths(t)|
    requires var fixed := AllPaths(t)[i].fixed; 0 in fixed ==> fixed[0] == v4
    ensures forall u :: u in AllPaths(t)[i].fixed ==> u <= BitSize(v4)
  {
    if t.Branch? && t.variable == 0 {
      var lows := PathsFrom(t.low, map[0 := false]);
      assert map[][0 := false] == map[0 := false] && map[][0 := true] == map[0 := true];
      if i < |lows| {
        PathsExtend(t.low, map[0 := false], 1, i);
        assert 0 in map[0 := false];
        PathVars(t.low, map[0 := false], IPV6_BIT_SIZE, i);
      } else {
        PathsExtend(t.high, map[0 := true], 1, i - |lows|);
        assert 0 in map[0 := true];
        PathVars(t.high, map[0 := true], IPV4_BIT_SIZE, i - |lows|);
      }
    } else {
      PathVars(t, map[], IPV4_BIT_SIZE, i);
    }
  }

  /** Block b comes from this path, for addresses of this version. */
  ghost predicate ComesFrom(b: Block, p: Path, v4: bool) {
    && (0 in p.fixed ==> p.fixed[0] == v4) && b.v4 == v4
    && |b.bits| == LastFixed(p.fixed[0 := v4], BitSize(v4))
    && (forall u :: u in p.fixed && 0 < u <= |b.bits| ==> b.bits[u - 1] == p.fixed[u])
  }

  lemma {:induction false} ExpansionFrom(p: Path, v4: bool, b: Block)
    requires b in Expansions(p.fixed, v4, true) && (0 in p.fixed ==> p.fixed[0] == v4)
    ensures ComesFrom(b, p, v4)
  {
    var f := p.fixed[0 := v4];
    var n := PrefixLength(f, v4, true) + 1;
    assert PrefixLength(f, v4, true) == LastFixed(f, BitSize(v4));
    var xs := Expanded(f, n);
    var k :| 0 <= k < |xs| && b == BlockOf(xs[k]);
    ExpandedMember(f, n, xs[k]);
    assert Completes(xs[k], f, n);
    assert 0 in f && xs[k][0] == v4;
    hide Expanded, LastFixed;
    forall u | u in p.fixed && 0 < u <= |b.bits| ensures b.bits[u - 1] == p.fixed[u] {
      assert u in f && xs[k][u] == f[u];
    }
  }

  lemma {:induction false} PathOf(ps: seq<Path>, wanted: nat, b: Block) returns (i: nat, v4: bool)
    requires b in AllBlocks(ps, wanted, true)
    ensures i < |ps| && ps[i].value == wanted && ComesFrom(b, ps[i], v4)
  {
    hide Expansions, ComesFrom;
    var p := ps[0];
    if b in PathBlocks(p, wanted, true) {
      i, v4 := 0, if 0 in p.fixed then p.fixed[0] else b in Expansions(p.fixed, true, true);
      ExpansionFrom(p, v4, b);
    } else {
      i, v4 := PathOf(ps[1..], wanted, b);
      i := i + 1;
    }
  }

  // ----- no block could be shorter

  /** The valuation of the block's addresses, but for the last bit of the block */
  function Flipped(b: Block): Valuation
    requires b.bits != []
  {
    (u: nat) => if u == 0 then b.v4 else u <= |b.bits| && (b.bits[u - 1] <==> u != |b.bits|)
  }

  /** The last bit of a listed block matters: it is tested last on the path that the block comes from. */
  lemma {:induction false} NotWider(t: Tree, wanted: nat, b: Block)
    requires Canonical(t) && Fits(t) && b in AllBlocks(AllPaths(t), wanted, true) && b.bits != []
    ensures !Uniform(t, wanted, Wider(b))
  {
    hide AllBlocks, PathsFrom, Fits, Reduced, Eval, LastFixed;
    var i, v4 := PathOf(AllPaths(t), wanted, b);
    PathFits(t, i, v4);
    var p, n := AllPaths(t)[i], |b.bits|;
    LastOfPath(p, v4, b);
    var y := LastTest(t, map[], 0, i, n, Flipped(b));
    EvalByAddress(t, y);
    FlippedAddress(b, y);
  }

  lemma {:induction false} LastOfPath(p: Path, v4: bool, b: Block)
    requires ComesFrom(b, p, v4) && b.bits != [] && forall u :: u in p.fixed ==> u <= BitSize(v4)
    ensures |b.bits| in p.fixed
    ensures forall u :: u in p.fixed ==> u <= |b.bits| && (Flipped(b)(u) == p.fixed[u] <==> u != |b.bits|)
  {
    var f := p.fixed[0 := v4];
    forall u | u in p.fixed
      ensures u <= |b.bits| && (Flipped(b)(u) == p.fixed[u] <==> u != |b.bits|)
    {
      assert u in f;
    }
  }

  /** Only the last bit of the block is different, so the address is in the wider block. */
  lemma {:induction false} FlippedAddress(b: Block, y: Valuation)
    requires b.bits != [] && |b.bits| <= BitSize(b.v4) && forall u: nat :: u <= |b.bits| ==> y(u) == Flipped(b)(u)
    ensures Covers(Wider(b), AddressOf(y))
  {
    var a, n := AddressOf(y), |b.bits|;
    assert y(0) == Flipped(b)(0);
    forall k | 0 <= k < n - 1 ensures a.bits[k] == b.bits[k] {
      assert y(k + 1) == Flipped(b)(k + 1);
    }
    assert Wider(b).bits == a.bits[..n - 1];
  }

  // ----- and the converse

  lemma {:induction false} Listed(bs: seq<Block>, a: Block)
    ensures Count(bs, a) > 0 <==> exists b :: b in bs && Covers(b, a)
  {
    if bs != [] {
      Listed(bs[1..], a);
      assert forall b :: b in bs <==> b == bs[0] || b in bs[1..];
    }
  }

  lemma {:induction false} ListedUniform(t: Tree, wanted: nat, summarize: bool, b: Block)
    requires Ordered(t) && Fits(t) && b in AllBlocks(AllPaths(t), wanted, summarize)
    ensures Uniform(t, wanted, b)
  {
    hide AllBlocks, AllPaths, Fits, Count, Covers, Eval;
    forall a | IsAddress(a) && Covers(b, a) ensures Eval(t, AddressValuation(a)) == wanted {
      BlocksExact(t, wanted, summarize, a);
      Listed(AllBlocks(AllPaths(t), wanted, summarize), a);
    }
  }

  /** The first address of a block */
  function FirstAddress(b: Block): (a: Block)
    requires |b.bits| <= BitSize(b.v4)
    ensures IsAddress(a) && Covers(b, a)
  {
    Block(b.v4, b.bits + seq(BitSize(b.v4) - |b.bits|, _ => false))
  }

  /** Of two blocks with an address in common, the longer one and the one a bit shorter are in the shorter. */
  lemma {:induction false} Nested(t: Tree, wanted: nat, b: Block, c: Block, a: Block)
    requires Covers(b, a) && Covers(c, a) && |b.bits| < |c.bits| && Uniform(t, wanted, b)
    ensures Uniform(t, wanted, Wider(c))
  {
    forall x | IsAddress(x) && Covers(Wider(c), x) ensures Eval(t, AddressValuation(x)) == wanted {
      assert b.bits == a.bits[..|b.bits|] && c.bits == a.bits[..|c.bits|];
      assert b.bits == Wider(c).bits[..|b.bits|];
      assert Covers(b, x);
    }
  }

  lemma {:induction false} ListedShort(t: Tree, wanted: nat, b: Block)
    requires b in AllBlocks(AllPaths(t), wanted, true)
    ensures |b.bits| <= BitSize(b.v4)
  {
    hide AllBlocks, AllPaths;
    var i, v4 := PathOf(AllPaths(t), wanted, b);
  }

  /**
   Listing networks is summarizing: a block is listed exactly if all its addresses have the wanted value and it is
   the greatest such block around them.
   */
  lemma {:induction false} SummaryExact(t: Tree, wanted: nat, b: Block)
    requires Canonical(t) && Fits(t)
    ensures b in AllBlocks(AllPaths(t), wanted, true) <==> Greatest(t, wanted, b)
  {
    hide AllBlocks, AllPaths, Fits, Reduced, Uniform, Covers, Count;
    var bs := AllBlocks(AllPaths(t), wanted, true);
    if b in bs {
      IsGreatest(t, wanted, b);
    }
    if Greatest(t, wanted, b) {
      var a := FirstAddress(b);
      assert Eval(t, AddressValuation(a)) == wanted by {
        UniformAt(t, wanted, b, a);
      }
      BlocksExact(t, wanted, true, a);
      Listed(bs, a);
      var c :| c in bs && Covers(c, a);
      IsGreatest(t, wanted, c);
      if |b.bits| < |c.bits| {
        Nested(t, wanted, b, c, a);
      } else if |c.bits| < |b.bits| {
        Nested(t, wanted, c, b, a);
      }
      SameLength(b, c, a);
    }
  }

  lemma {:induction false} IsGreatest(t: Tree, wanted: nat, b: Block)
    requires Canonical(t) && Fits(t) && b in AllBlocks(AllPaths(t), wanted, true)
    ensures Greatest(t, wanted, b)
  {
    hide AllBlocks, AllPaths, Fits, Uniform;
    ListedShort(t, wanted, b);
    ListedUniform(t, wanted, true, b);
    if b.bits != [] {
      NotWider(t, wanted, b);
    }
  }

  lemma {:induction false} UniformAt(t: Tree, wanted: nat, b: Block, a: Block)
    requires Uniform(t, wanted, b) && IsAddress(a) && Covers(b, a)
    ensures Eval(t, AddressValuation(a)) == wanted
  {
  }

  lemma {:induction false} SameLength(b: Block, c: Block, a: Block)
    requires Covers(b, a) && Covers(c, a)
    ensures |b.bits| == |c.bits| ==> b == c
  {
  }
}

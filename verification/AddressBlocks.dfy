/**
 The networks that iterating over an IP set yields, and the proof that they are exactly the addresses
 of the set.
 */
module AddressBlocks {
  import opened DecisionTree
  import opened Paths
  import opened Expansion

  const IPV4_BIT_SIZE: nat := 32
  const IPV6_BIT_SIZE: nat := 128

  /** An IPv4 (v4) or IPv6 block: all addresses that start with the given bits. */
  datatype Block = Block(v4: bool, bits: seq<bool>)

  function BitSize(v4: bool): nat {
    if v4 then IPV4_BIT_SIZE else IPV6_BIT_SIZE
  }

  /** A single address, as a full-length block. */
  predicate IsAddress(a: Block) {
    |a.bits| == BitSize(a.v4)
  }

  predicate Covers(b: Block, a: Block) {
    b.v4 == a.v4 && b.bits <= a.bits
  }

  /** The valuation of an address: variable 0 says IPv4, variable i + 1 is bit i. */
  function AddressValuation(a: Block): Valuation {
    (v: nat) => if v == 0 then a.v4 else v <= |a.bits| && a.bits[v - 1]
  }

  /** The highest fixed variable from start down to 1, or 0. */
  function LastFixed(fixed: map<nat, bool>, start: nat): (r: nat)
    ensures r <= start
    ensures forall v :: r < v <= start ==> v !in fixed
    ensures r != 0 ==> r in fixed
  {
    if start == 0 || start in fixed then start else LastFixed(fixed, start - 1)
  }

  /** Variable 0 and the others of an expanded assignment, as a block. */
  function BlockOf(x: seq<bool>): Block {
    if x == [] then Block(false, []) else Block(x[0], x[1..])
  }

  function BlocksOf(xs: seq<seq<bool>>): (bs: seq<Block>)
    ensures |bs| == |xs|
  {
    seq(|xs|, k requires 0 <= k < |xs| => BlockOf(xs[k]))
  }

  function PrefixLength(fixed: map<nat, bool>, v4: bool, summarize: bool): nat {
    if summarize then LastFixed(fixed, BitSize(v4)) else BitSize(v4)
  }

  /** The expansion of an assignment as blocks of one IP version. */
  function Expansions(fixed: map<nat, bool>, v4: bool, summarize: bool): seq<Block> {
    BlocksOf(Expanded(fixed[0 := v4], PrefixLength(fixed[0 := v4], v4, summarize) + 1))
  }

  lemma {:induction false} ExpandedLengths(fixed: map<nat, bool>, n: nat)
    ensures forall k :: 0 <= k < |Expanded(fixed, n)| ==> |Expanded(fixed, n)[k]| == n
  {
    ExpandedExact(fixed, n);
    forall k | 0 <= k < |Expanded(fixed, n)| ensures |Expanded(fixed, n)[k]| == n {
      assert Expanded(fixed, n)[k] in Expanded(fixed, n);
    }
  }

  /** A path that does not test variable 0 stands for IPv4 and IPv6 addresses, in that order. */
  function PathBlocks(p: Path, wanted: nat, summarize: bool): seq<Block> {
    if p.value != wanted then []
    else if 0 in p.fixed then Expansions(p.fixed, p.fixed[0], summarize)
    else Expansions(p.fixed, true, summarize) + Expansions(p.fixed, false, summarize)
  }

  function AllBlocks(ps: seq<Path>, wanted: nat, summarize: bool): seq<Block> {
    if ps == [] then [] else PathBlocks(ps[0], wanted, summarize) + AllBlocks(ps[1..], wanted, summarize)
  }

  lemma {:induction false} SkipPath(ps: seq<Path>, wanted: nat, summarize: bool)
    requires ps != [] && ps[0].value != wanted
    ensures AllBlocks(ps, wanted, summarize) == AllBlocks(ps[1..], wanted, summarize)
  {
  }

  lemma {:induction false} TakePath(ps: seq<Path>, wanted: nat, summarize: bool)
    requires ps != [] && ps[0].value == wanted
    ensures var fixed, rest := ps[0].fixed, AllBlocks(ps[1..], wanted, summarize);
            AllBlocks(ps, wanted, summarize)
            == if 0 in fixed then Expansions(fixed, fixed[0], summarize) + ([] + rest)
               else Expansions(fixed, true, summarize) + (Expansions(fixed, false, summarize) + rest)
  {
    hide Expansions;
  }

  // ----- counting the blocks that cover an address

  function Count(bs: seq<Block>, a: Block): nat {
    if bs == [] then 0 else (if Covers(bs[0], a) then 1 else 0) + Count(bs[1..], a)
  }

  lemma {:induction false} CountConcat(bs: seq<Block>, cs: seq<Block>, a: Block)
    ensures Count(bs + cs, a) == Count(bs, a) + Count(cs, a)
  {
    if bs == [] {
      assert bs + cs == cs;
    } else {
      assert (bs + cs)[1..] == bs[1..] + cs;
      CountConcat(bs[1..], cs, a);
    }
  }

  lemma {:induction false} CountNone(bs: seq<Block>, a: Block)
    requires forall k :: 0 <= k < |bs| ==> !Covers(bs[k], a)
    ensures Count(bs, a) == 0
  {
    if bs != [] {
      CountNone(bs[1..], a);
    }
  }

  lemma {:induction false} CountOne(bs: seq<Block>, a: Block, i: nat)
    requires i < |bs| && forall k :: 0 <= k < |bs| ==> (Covers(bs[k], a) <==> k == i)
    ensures Count(bs, a) == 1
  {
    assert bs == bs[..i] + ([bs[i]] + bs[i + 1..]);
    CountConcat(bs[..i], [bs[i]] + bs[i + 1..], a);
    CountNone(bs[..i], a);
    CountNone(bs[i + 1..], a);
    assert ([bs[i]] + bs[i + 1..])[1..] == bs[i + 1..];
  }

  lemma {:induction false} AllBlocksConcat(ps: seq<Path>, qs: seq<Path>, wanted: nat, summarize: bool)
    ensures AllBlocks(ps + qs, wanted, summarize) == AllBlocks(ps, wanted, summarize) + AllBlocks(qs, wanted, summarize)
  {
    if ps == [] {
      assert ps + qs == qs;
    } else {
      assert (ps + qs)[1..] == ps[1..] + qs;
      AllBlocksConcat(ps[1..], qs, wanted, summarize);
      hide PathBlocks;
    }
  }

  /** The first n variables of an address. */
  function Prefix(a: Block, n: nat): seq<bool>
    requires 0 < n <= |a.bits| + 1
  {
    [a.v4] + a.bits[..n - 1]
  }

  /** The one expansion that an address can be in. */
  lemma {:induction false} ExpansionCovers(x: seq<bool>, n: nat, a: Block)
    requires |x| == n && 0 < n <= |a.bits| + 1
    ensures Covers(BlockOf(x), a) <==> x == Prefix(a, n)
  {
    assert x == [x[0]] + x[1..];
  }

  lemma {:induction false} PrefixCompletes(fixed: map<nat, bool>, n: nat, a: Block)
    requires 0 < n <= |a.bits| + 1 && (forall v :: v in fixed ==> v < n)
    ensures Completes(Prefix(a, n), fixed, n) <==> Agrees(AddressValuation(a), fixed)
  {
    assert forall v: nat :: v < n ==> Prefix(a, n)[v] == AddressValuation(a)(v);
  }

  /** Of blocks without repetition, at most one covers an address: the one that is its prefix. */
  lemma {:induction false} BlocksCount(xs: seq<seq<bool>>, n: nat, a: Block)
    requires 0 < n <= |a.bits| + 1 && (forall k :: 0 <= k < |xs| ==> |xs[k]| == n)
    requires forall i, j :: 0 <= i < j < |xs| ==> xs[i] != xs[j]
    ensures Count(BlocksOf(xs), a) == if Prefix(a, n) in xs then 1 else 0
  {
    hide Count, Covers, Prefix, BlockOf;
    var bs, y := BlocksOf(xs), Prefix(a, n);
    forall k | 0 <= k < |xs| ensures Covers(bs[k], a) <==> xs[k] == y {
      ExpansionCovers(xs[k], n, a);
    }
    if y in xs {
      var i :| 0 <= i < |xs| && xs[i] == y;
      CountOne(bs, a, i);
    } else {
      CountNone(bs, a);
    }
  }

  lemma {:induction false} ExpandedDistinct(fixed: map<nat, bool>, n: nat)
    ensures forall i, j :: 0 <= i < j < |Expanded(fixed, n)| ==> Expanded(fixed, n)[i] != Expanded(fixed, n)[j]
  {
    ExpandedExact(fixed, n);
    forall i, j | 0 <= i < j < |Expanded(fixed, n)| ensures Expanded(fixed, n)[i] != Expanded(fixed, n)[j] {
      assert NumberLess(Expanded(fixed, n)[i], Expanded(fixed, n)[j]);
    }
  }

  /** Exactly one block of an expansion covers an address that agrees with the assignment; none any other. */
  lemma {:induction false} ExpansionsCount(fixed: map<nat, bool>, v4: bool, summarize: bool, a: Block)
    requires IsAddress(a) && forall v :: v in fixed ==> v <= BitSize(v4)
    ensures Count(Expansions(fixed, v4, summarize), a)
         == if Agrees(AddressValuation(a), fixed[0 := v4]) then 1 else 0
  {
    var f := fixed[0 := v4];
    var n := PrefixLength(f, v4, summarize) + 1;
    assert 0 in f && forall v :: v in f ==> v < n;
    if a.v4 == v4 {
      hide Count, Expanded, Agrees, Completes, AddressValuation;
      ExpandedLengths(f, n);
      ExpandedDistinct(f, n);
      BlocksCount(Expanded(f, n), n, a);
      ExpandedMember(f, n, Prefix(a, n));
      PrefixCompletes(f, n, a);
    } else {
      assert !Agrees(AddressValuation(a), f);
      hide Count, Expanded, Agrees;
      OtherVersion(f, n, a);
    }
  }

  lemma {:induction false} ExpandedMember(fixed: map<nat, bool>, n: nat, x: seq<bool>)
    ensures x in Expanded(fixed, n) <==> Completes(x, fixed, n)
  {
    ExpandedExact(fixed, n);
  }

  lemma {:induction false} OtherVersion(fixed: map<nat, bool>, n: nat, a: Block)
    requires 0 in fixed && fixed[0] != a.v4 && n > 0
    ensures Count(BlocksOf(Expanded(fixed, n)), a) == 0
  {
    var xs := Expanded(fixed, n);
    forall k | 0 <= k < |xs| ensures !Covers(BlocksOf(xs)[k], a) {
      ExpandedMember(fixed, n, xs[k]);
      assert xs[k] in xs;
    }
    CountNone(BlocksOf(xs), a);
  }

  predicate VarsUpTo(t: Tree, m: nat) {
    t.Branch? ==> t.variable <= m && VarsUpTo(t.low, m) && VarsUpTo(t.high, m)
  }

  /** The tree tests no more variables than the addresses it can stand for have bits. */
  predicate Fits(t: Tree) {
    if t.Branch? && t.variable == 0 then VarsUpTo(t.low, IPV6_BIT_SIZE) && VarsUpTo(t.high, IPV4_BIT_SIZE)
    else VarsUpTo(t, IPV4_BIT_SIZE)
  }

  /** The blocks of one path. */
  lemma {:induction false} LeafCount(pre: map<nat, bool>, v: nat, m: nat, wanted: nat, summarize: bool, a: Block)
    requires IsAddress(a) && (forall u :: u in pre ==> u <= m)
    requires m <= if 0 in pre && !pre[0] then IPV6_BIT_SIZE else IPV4_BIT_SIZE
    ensures Count(AllBlocks([Path(pre, v)], wanted, summarize), a)
         == if Agrees(AddressValuation(a), pre) && v == wanted then 1 else 0
  {
    var p := Path(pre, v);
    assert AllBlocks([p], wanted, summarize) == PathBlocks(p, wanted, summarize) + [];
    assert PathBlocks(p, wanted, summarize) + [] == PathBlocks(p, wanted, summarize);
    CountNone([], a);
    hide Expansions, AllBlocks, Count, Agrees;
    if v == wanted {
      if 0 in pre {
        ExpansionsCount(pre, pre[0], summarize, a);
        assert pre[0 := pre[0]] == pre;
      } else {
        ExpansionsCount(pre, true, summarize, a);
        ExpansionsCount(pre, false, summarize, a);
        CountConcat(Expansions(pre, true, summarize), Expansions(pre, false, summarize), a);
        AgreesWith(AddressValuation(a), pre, 0);
      }
    }
  }

  lemma {:induction false} AllBlocksCount(ps: seq<Path>, qs: seq<Path>, wanted: nat, summarize: bool, a: Block)
    ensures Count(AllBlocks(ps + qs, wanted, summarize), a)
         == Count(AllBlocks(ps, wanted, summarize), a) + Count(AllBlocks(qs, wanted, summarize), a)
  {
    AllBlocksConcat(ps, qs, wanted, summarize);
    CountConcat(AllBlocks(ps, wanted, summarize), AllBlocks(qs, wanted, summarize), a);
  }

  /** Below variable 0, and below a prefix of outcomes. */
  lemma {:induction false} PathsCount(t: Tree, pre: map<nat, bool>, m: nat, wanted: nat, summarize: bool, a: Block)
    requires IsAddress(a) && Ordered(t) && RootAtLeast(t, 1) && VarsUpTo(t, m)
    requires (forall v :: v in pre ==> v <= m) && (forall v :: v in pre ==> RootAtLeast(t, v + 1))
    requires m <= if 0 in pre && !pre[0] then IPV6_BIT_SIZE else IPV4_BIT_SIZE
    ensures Count(AllBlocks(PathsFrom(t, pre), wanted, summarize), a)
         == if Agrees(AddressValuation(a), pre) && Eval(t, AddressValuation(a)) == wanted then 1 else 0
  {
    hide AllBlocks, Count, Agrees, AddressValuation;
    match t
    case Leaf(v) =>
      LeafCount(pre, v, m, wanted, summarize, a);
    case Branch(v, low, high) =>
      var pl, ph := pre[v := false], pre[v := true];
      assert PathsFrom(t, pre) == PathsFrom(low, pl) + PathsFrom(high, ph);
      AllBlocksCount(PathsFrom(low, pl), PathsFrom(high, ph), wanted, summarize, a);
      PathsCount(low, pl, m, wanted, summarize, a);
      PathsCount(high, ph, m, wanted, summarize, a);
      AgreesWith(AddressValuation(a), pre, v);
  }

  lemma {:induction false} AgreesWith(x: Valuation, pre: map<nat, bool>, v: nat)
    requires v !in pre
    ensures Agrees(x, pre[v := true]) <==> Agrees(x, pre) && x(v)
    ensures Agrees(x, pre[v := false]) <==> Agrees(x, pre) && !x(v)
  {
    assert v in pre[v := true] && v in pre[v := false];
    assert forall u :: u in pre ==> u in pre[v := true] && u in pre[v := false];
  }

  /** The branch of one IP version. */
  lemma {:induction false} VersionCount(t: Tree, v4: bool, wanted: nat, summarize: bool, a: Block)
    requires IsAddress(a) && Ordered(t) && RootAtLeast(t, 1) && VarsUpTo(t, BitSize(v4))
    ensures Count(AllBlocks(PathsFrom(t, map[0 := v4]), wanted, summarize), a)
         == if a.v4 == v4 && Eval(t, AddressValuation(a)) == wanted then 1 else 0
  {
    var pre: map<nat, bool> := map[0 := v4];
    assert Agrees(AddressValuation(a), pre) <==> a.v4 == v4 by {
      assert 0 in pre && AddressValuation(a)(0) == a.v4;
    }
    hide AllBlocks, Count, PathsFrom, Agrees, AddressValuation, Eval;
    PathsCount(t, pre, BitSize(v4), wanted, summarize, a);
  }

  lemma {:induction false} VersionsCount(t: Tree, wanted: nat, summarize: bool, a: Block)
    requires Ordered(t) && Fits(t) && IsAddress(a) && t.Branch? && t.variable == 0
    ensures Count(AllBlocks(AllPaths(t), wanted, summarize), a)
         == if Eval(t, AddressValuation(a)) == wanted then 1 else 0
  {
    assert map[][0 := false] == map[0 := false] && map[][0 := true] == map[0 := true];
    assert AllPaths(t) == PathsFrom(t.low, map[0 := false]) + PathsFrom(t.high, map[0 := true]);
    assert AddressValuation(a)(0) == a.v4;
    hide AllBlocks, Count, PathsFrom, AddressValuation;
    AllBlocksCount(PathsFrom(t.low, map[0 := false]), PathsFrom(t.high, map[0 := true]), wanted, summarize, a);
    VersionCount(t.low, false, wanted, summarize, a);
    VersionCount(t.high, true, wanted, summarize, a);
  }

  /**
   Set iteration is exact: every address with the wanted value is in exactly one of the blocks, and no
   other address is in any.
   */
  lemma {:induction false} BlocksExact(t: Tree, wanted: nat, summarize: bool, a: Block)
    requires Ordered(t) && Fits(t) && IsAddress(a)
    ensures Count(AllBlocks(AllPaths(t), wanted, summarize), a)
         == if Eval(t, AddressValuation(a)) == wanted then 1 else 0
  {
    if t.Branch? && t.variable == 0 {
      VersionsCount(t, wanted, summarize, a);
    } else {
      hide AllBlocks, Count, PathsFrom;
      PathsCount(t, map[], IPV4_BIT_SIZE, wanted, summarize, a);
    }
  }

  lemma {:induction false} CountTwo(bs: seq<Block>, a: Block, i: nat, j: nat)
    requires i < j < |bs| && Covers(bs[i], a) && Covers(bs[j], a)
    ensures Count(bs, a) >= 2
  {
    if i > 0 {
      CountTwo(bs[1..], a, i - 1, j - 1);
    } else {
      CountPositive(bs[1..], a, j - 1);
    }
  }

  lemma {:induction false} CountPositive(bs: seq<Block>, a: Block, i: nat)
    requires i < |bs| && Covers(bs[i], a)
    ensures Count(bs, a) >= 1
  {
    if i > 0 {
      CountPositive(bs[1..], a, i - 1);
    }
  }

  /** The blocks are pairwise disjoint. */
  lemma {:induction false} BlocksDisjoint(t: Tree, wanted: nat, summarize: bool, i: nat, j: nat, a: Block)
    requires Ordered(t) && Fits(t) && IsAddress(a)
    requires i < j < |AllBlocks(AllPaths(t), wanted, summarize)|
    ensures !(Covers(AllBlocks(AllPaths(t), wanted, summarize)[i], a)
              && Covers(AllBlocks(AllPaths(t), wanted, summarize)[j], a))
  {
    BlocksExact(t, wanted, summarize, a);
    var bs := AllBlocks(AllPaths(t), wanted, summarize);
    if Covers(bs[i], a) && Covers(bs[j], a) {
      CountTwo(bs, a, i, j);
    }
  }

  /** In plain mode every block is a single address. */
  lemma {:induction false} PlainAddresses(ps: seq<Path>, wanted: nat)
    ensures forall k :: 0 <= k < |AllBlocks(ps, wanted, false)| ==> IsAddress(AllBlocks(ps, wanted, false)[k])
  {
    if ps != [] {
      PlainAddresses(ps[1..], wanted);
      var fixed := ps[0].fixed;
      forall v4: bool, k | 0 <= k < |Expansions(fixed, v4, false)|
        ensures IsAddress(Expansions(fixed, v4, false)[k])
      {
        var f, n := fixed[0 := v4], BitSize(v4) + 1;
        ExpandedLengths(f, n);
        ExpandedExact(f, n);
        assert Expanded(f, n)[k] in Expanded(f, n) && 0 in f;
      }
    }
  }
}

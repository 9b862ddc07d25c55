/**
 Iterating over the addresses, or the networks, of an IP set: the BDD iterator, the expansion of each
 of its assignments, and the two expansions of an assignment that leaves the IP version open.
 */
module SetIterator {
  import opened NodeGraph
  import opened CacheState
  import opened NodeCache
  import opened Paths
  import opened Bits
  import opened Octets
  import opened Assignments
  import opened BddIterator
  import opened Expansion
  import opened AddressBlocks

  datatype ExpansionState = Normal | MultipleIpv4 | MultipleIpv6

  datatype Address = Address(version: nat, ip: seq<Byte>)

  /** The block of a network address with a prefix length. */
  function Network(addr: Address, prefix: nat): Block
    requires prefix <= 8 * |addr.ip|
  {
    Block(addr.version == 4, BitsOf(addr.ip, prefix))
  }

  /** The highest non-EITHER variable from start down to 1. */
  method FindLastNonEitherBit(assignment: Assignment, start: nat) returns (i: nat)
    ensures i == LastFixed(Fixed(assignment.values), start)
  {
    i := start;
    while i >= 1
      invariant LastFixed(Fixed(assignment.values), i) == LastFixed(Fixed(assignment.values), start)
    {
      var value := assignment.Get(i);
      if value != Either {
        return;
      }
      i := i - 1;
    }
  }

  /** Copies bits from an expanded assignment to an address that is otherwise zero. */
  method CreateIpAddress(expander: Expander, prefix: nat) returns (addr: Address)
    requires expander.Ok() && expander.varCount == prefix + 1 && prefix <= IPV6_BIT_SIZE
    ensures |addr.ip| == 16 && Network(addr, prefix) == BlockOf(expander.Current())
    ensures addr.version == if expander.Current()[0] then 4 else 6
    ensures forall i :: prefix <= i < IPV6_BIT_SIZE ==> !BitsOf(addr.ip, IPV6_BIT_SIZE)[i]
  {
    hide BitGet, BitSet;
    var ip: seq<Byte> := seq(16, _ => 0);
    ZeroBits(ip, IPV6_BIT_SIZE);
    ReadBit(expander.values, 0, prefix + 1);
    var version := if BitGet(expander.values, 0) then 4 else 6;
    for i := 0 to prefix
      invariant |ip| == 16
      invariant forall j :: 0 <= j < IPV6_BIT_SIZE ==>
                  BitsOf(ip, IPV6_BIT_SIZE)[j] == (j < i && expander.Current()[j + 1])
    {
      ReadBit(expander.values, i + 1, prefix + 1);
      BitsOfSet(ip, i, BitGet(expander.values, i + 1), IPV6_BIT_SIZE);
      ip := BitSet(ip, i, BitGet(expander.values, i + 1));
    }
    addr := Address(version, ip);
    assert BitsOf(ip, prefix) == BitsOf(ip, IPV6_BIT_SIZE)[..prefix];
    assert BitsOf(ip, prefix) == expander.Current()[1..];
  }

  class Iteration {
    var addr: Address
    var cidrPrefix: nat
    var state: ExpansionState
    var expander: Expander?
    var finished: bool
    const bdd: Iterator
    const desired: nat
    const summarize: bool

    /** Variable 0 of the BDD iterator's assignment is overridden while an assignment is expanded twice. */
    ghost predicate BddOk()
      reads this`state, bdd, bdd.cache, bdd.assignment
    {
      && bdd.Placed()
      && (state == Normal ==> Fixed(bdd.assignment.values) == Pre(bdd.frames))
      && (state != Normal ==>
            && 0 !in Pre(bdd.frames)
            && Fixed(bdd.assignment.values) == Pre(bdd.frames)[0 := state == MultipleIpv4])
    }

    /** The blocks after those of the current expansion. */
    ghost function Rest(): seq<Block>
      reads this`state, bdd
    {
      (if state == MultipleIpv4 then Expansions(Pre(bdd.frames), false, summarize) else [])
      + (if bdd.Remaining() == [] then [] else AllBlocks(bdd.Remaining()[1..], desired, summarize))
    }

    /** An expansion is under way. */
    ghost predicate Expanding()
      reads this, bdd, bdd.cache, bdd.assignment, expander
    {
      && BddOk() && !bdd.finished
      && expander != null && expander.Ok() && expander.varCount == cidrPrefix + 1 <= IPV6_BIT_SIZE + 1
    }

    ghost predicate Ok()
      reads this, bdd, bdd.cache, bdd.assignment, expander
    {
      !finished ==>
        && Expanding() && !expander.finished
        && |addr.ip| == 16
        && Network(addr, cidrPrefix) == BlockOf(expander.Current())
    }

    ghost function ToCome(): seq<Block>
      reads this, bdd, bdd.cache, bdd.assignment, expander
      requires Expanding()
    {
      BlocksOf(expander.Remaining()) + Rest()
    }

    /** The blocks still to be yielded, the current one first. */
    ghost function Remaining(): seq<Block>
      reads this, bdd, bdd.cache, bdd.assignment, expander
      requires Ok()
    {
      if finished then [] else ToCome()
    }

    constructor (cache: Cache, id: NodeId, desired: bool, summarize: bool)
      requires Valid(cache.S()) && IdOk(cache.graph, id)
      ensures Ok() && this.summarize == summarize && this.desired == (if desired then 1 else 0)
      ensures Remaining() == AllBlocks(AllPaths(cache.Meaning(id)), this.desired, summarize)
      ensures fresh(bdd) && fresh(bdd.assignment) && (expander == null || fresh(expander))
    {
      finished, expander := false, null;
      addr, cidrPrefix, state := Address(0, []), 0, Normal;
      this.desired, this.summarize := if desired then 1 else 0, summarize;
      bdd := new Iterator(cache, id);
      new;
      ProcessAssignment();
    }

    /** Looks for the next assignment with the desired value, and starts expanding it. */
    method ProcessAssignment()
      requires bdd.Ok() && !finished
      modifies this, bdd, bdd.assignment
      ensures Ok() && (expander == null || fresh(expander))
      ensures Remaining() == AllBlocks(old(bdd.Remaining()), desired, summarize)
      decreases |bdd.Remaining()|, 2, 0
    {
      hide Expansions, PathBlocks, AllBlocks, BlocksOf, Fixed, Pre, After, Later, Iterator.OnStack, Along, BitsOf;
      ghost var rest := bdd.Remaining();
      while !bdd.finished
        invariant bdd.Ok() && !finished && |bdd.Remaining()| <= |rest|
        invariant AllBlocks(bdd.Remaining(), desired, summarize) == AllBlocks(rest, desired, summarize)
        decreases |bdd.Remaining()|
      {
        if bdd.value == desired {
          ProcessMatch();
          return;
        }
        SkipPath(bdd.Remaining(), desired, summarize);
        bdd.Advance();
      }
      NoBlocks(desired, summarize);
      expander := null;
      finished := true;
    }

    /** Starts expanding an assignment, as IPv4 first if it leaves the IP version open. */
    method ProcessMatch()
      requires bdd.Ok() && !bdd.finished && !finished && bdd.value == desired
      modifies this, bdd, bdd.assignment
      ensures Ok() && (expander == null || fresh(expander))
      ensures Remaining() == AllBlocks(old(bdd.Remaining()), desired, summarize)
      decreases |bdd.Remaining()|, 1, 5
    {
      hide Expansions, PathBlocks, AllBlocks, BlocksOf, Fixed, Pre, After, Later, Iterator.OnStack, Along, BitsOf,
           Iteration.Ok, Iteration.Remaining, Iterator.Remaining;
      MatchBlocks();
      var addressType := bdd.assignment.Get(0);
      if addressType == False {
        state := Normal;
        Expand(false);
      } else if addressType == True {
        state := Normal;
        Expand(true);
      } else {
        ExpandBoth();
      }
    }

    lemma {:induction false} MatchBlocks()
      requires bdd.Ok() && !bdd.finished && bdd.value == desired
      ensures bdd.Remaining() != [] && Fixed(bdd.assignment.values) == Pre(bdd.frames)
      ensures var fixed, rest := Pre(bdd.frames), AllBlocks(bdd.Remaining()[1..], desired, summarize);
              AllBlocks(bdd.Remaining(), desired, summarize)
              == if 0 in fixed then Expansions(fixed, fixed[0], summarize) + ([] + rest)
                 else Expansions(fixed, true, summarize) + (Expansions(fixed, false, summarize) + rest)
    {
      hide Expansions, AllBlocks, Fixed, Pre, After, Iterator.OnStack, Along;
      TakePath(bdd.Remaining(), desired, summarize);
    }

    /** An assignment that leaves the IP version open: variable 0 is set for the IPv4 expansion. */
    method ExpandBoth()
      requires bdd.Ok() && !bdd.finished && !finished && 0 !in Fixed(bdd.assignment.values)
      modifies this, bdd, bdd.assignment
      ensures Ok() && (expander == null || fresh(expander))
      ensures Remaining() == old(Expansions(Pre(bdd.frames), true, summarize)
                                 + (Expansions(Pre(bdd.frames), false, summarize)
                                    + AllBlocks(bdd.Remaining()[1..], desired, summarize)))
      decreases |bdd.Remaining()|, 1, 4
    {
      hide Expansions, PathBlocks, AllBlocks, BlocksOf, Fixed, Pre, After, Later, Iterator.OnStack, Along, BitsOf;
      state := MultipleIpv4;
      bdd.assignment.Set(0, True);
      Expand(true);
    }

    /** Expands the current assignment as addresses of one IP version (expand_ipv4 and expand_ipv6). */
    method Expand(v4: bool)
      requires BddOk() && !bdd.finished && !finished
      requires 0 in Fixed(bdd.assignment.values) && Fixed(bdd.assignment.values)[0] == v4
      modifies this, bdd, bdd.assignment
      ensures Ok() && (expander == null || fresh(expander))
      ensures Remaining() == old(Expansions(Pre(bdd.frames), v4, summarize) + Rest())
      decreases |bdd.Remaining()|, if state == MultipleIpv4 then 1 else 0, 3
    {
      hide *;
      StartExpansion(v4);
      ProcessExpandedAssignment();
    }

    /** The number of address bits to expand. */
    method LastBit(v4: bool) returns (lastBit: nat)
      ensures lastBit == PrefixLength(Fixed(bdd.assignment.values), v4, summarize)
    {
      if summarize {
        lastBit := FindLastNonEitherBit(bdd.assignment, BitSize(v4));
      } else {
        lastBit := BitSize(v4);
      }
    }

    method NewExpander(v4: bool)
      modifies this`expander, this`cidrPrefix
      ensures fresh(expander) && expander.Ok() && !expander.finished && expander.varCount == cidrPrefix + 1
      ensures cidrPrefix == PrefixLength(Fixed(bdd.assignment.values), v4, summarize)
      ensures expander.Remaining() == Expanded(Fixed(bdd.assignment.values), cidrPrefix + 1)
    {
      hide BlocksOf, Fixed, Later, Expanded, BitsOf, LastFixed, Increasing, InRange;
      var lastBit := LastBit(v4);
      expander := new Expander(bdd.assignment, lastBit + 1);
      cidrPrefix := lastBit;
    }

    method StartExpansion(v4: bool)
      requires BddOk() && !bdd.finished
      requires 0 in Fixed(bdd.assignment.values) && Fixed(bdd.assignment.values)[0] == v4
      modifies this`expander, this`cidrPrefix
      ensures Expanding() && fresh(expander)
      ensures ToCome() == old(Expansions(Pre(bdd.frames), v4, summarize) + Rest())
    {
      hide Expansions, AllBlocks, BlocksOf, Fixed, Pre, After, Later, Expanded, BitsOf, PrefixLength,
           Expander.Ok, Expander.Remaining, Iteration.BddOk, Iteration.Rest;
      OverriddenNow(v4);
      NewExpander(v4);
    }

    lemma {:induction false} OverriddenNow(v4: bool)
      requires BddOk() && 0 in Fixed(bdd.assignment.values) && Fixed(bdd.assignment.values)[0] == v4
      ensures var fixed := Fixed(bdd.assignment.values);
              && PrefixLength(fixed, v4, summarize) <= IPV6_BIT_SIZE
              && BlocksOf(Expanded(fixed, PrefixLength(fixed, v4, summarize) + 1))
                 == Expansions(Pre(bdd.frames), v4, summarize)
    {
      hide Fixed, Pre, Iterator.Placed, LastFixed, Expanded, BlocksOf, Expansions, PrefixLength;
      var pre, fixed := Pre(bdd.frames), Fixed(bdd.assignment.values);
      if state != Normal {
        assert pre[0 := state == MultipleIpv4][0] == (state == MultipleIpv4);
      }
      Overridden(pre, fixed, v4, summarize);
    }

    /** Takes the current expanded assignment as the next address, or goes on if there is none. */
    method ProcessExpandedAssignment()
      requires Expanding() && !finished
      modifies this, bdd, bdd.assignment
      ensures Ok() && (expander == null || expander == old(expander) || fresh(expander))
      ensures Remaining() == old(ToCome())
      decreases |bdd.Remaining()|, if state == MultipleIpv4 then 1 else 0, 2
    {
      hide Expansions, PathBlocks, AllBlocks, BlocksOf, Fixed, Pre, After, Later, Iterator.OnStack, Along, BitsOf;
      if expander.finished {
        NoMoreBlocks(Rest());
        expander := null;
        AdvanceAssignment();
      } else {
        addr := CreateIpAddress(expander, cidrPrefix);
      }
    }

    /** Goes on after an expansion: with the IPv6 expansion after the IPv4 one, or with the next assignment. */
    method AdvanceAssignment()
      requires BddOk() && !bdd.finished && !finished
      modifies this, bdd, bdd.assignment
      ensures Ok() && (expander == null || fresh(expander))
      ensures Remaining() == old(Rest())
      decreases |bdd.Remaining()|, if state == MultipleIpv4 then 1 else 0, 1
    {
      hide Expansions, PathBlocks, AllBlocks, BlocksOf, Fixed, Pre, After, Later, Iterator.OnStack, Along, BitsOf,
           Iteration.Ok, Iteration.Remaining;
      if state == Normal {
        bdd.Advance();
        ProcessAssignment();
      } else if state == MultipleIpv4 {
        state := MultipleIpv6;
        bdd.assignment.Set(0, False);
        Expand(false);
      } else {
        bdd.assignment.Set(0, Either);
        bdd.Advance();
        ProcessAssignment();
      }
    }

    /** Moves on to the next address or network. */
    method Advance()
      requires Ok()
      modifies this, bdd, bdd.assignment, expander
      ensures Ok() && (expander == null || expander == old(expander) || fresh(expander))
      ensures Remaining() == if old(finished) then [] else old(Remaining())[1..]
    {
      if finished {
        return;
      }
      hide *;
      NextExpansion();
      ProcessExpandedAssignment();
    }

    method NextExpansion()
      requires Ok() && !finished
      modifies expander
      ensures Expanding() && ToCome() == old(ToCome())[1..]
    {
      hide Expansions, AllBlocks, BlocksOf, BlockOf, Fixed, Pre, After, Later, Along, BitsOf, Network,
           Iteration.BddOk, Iteration.Rest, Expander.Ok;
      LaterBlocks(expander.Remaining(), Rest());
      expander.Advance();
    }
  }

  lemma {:induction false} LaterBlocks(xs: seq<seq<bool>>, rest: seq<Block>)
    requires xs != []
    ensures BlocksOf(xs[1..]) + rest == (BlocksOf(xs) + rest)[1..]
  {
    assert BlocksOf(xs)[1..] == BlocksOf(xs[1..]);
  }

  /** Expanding with variable 0 overridden. */
  lemma {:induction false} Overridden(pre: map<nat, bool>, fixed: map<nat, bool>, v4: bool, summarize: bool)
    requires 0 in fixed && fixed[0] == v4 && (pre == fixed || (0 !in pre && fixed == pre[0 := v4]))
    ensures BlocksOf(Expanded(fixed, PrefixLength(fixed, v4, summarize) + 1)) == Expansions(pre, v4, summarize)
    ensures PrefixLength(fixed, v4, summarize) <= IPV6_BIT_SIZE
  {
    assert pre[0 := v4] == fixed;
  }

  lemma {:induction false} NoBlocks(wanted: nat, summarize: bool)
    ensures AllBlocks([], wanted, summarize) == []
  {
  }

  lemma {:induction false} NoMoreBlocks(rest: seq<Block>)
    ensures BlocksOf([]) + rest == rest
  {
  }
}

/**
 The expansion of a partial assignment: every way to give values to its EITHER variables, counted in
 binary with the last EITHER variable as the lowest digit.
 */
module Expansion {
  import opened Bits
  import opened Octets
  import opened Assignments
  import opened PowersOfTwo

  predicate InRange(es: seq<nat>, n: nat) {
    forall k :: 0 <= k < |es| ==> es[k] < n
  }

  /** All ways to set the bits listed in es, the first of them being the most significant. */
  function Enum(es: seq<nat>, base: seq<bool>): seq<seq<bool>>
    requires InRange(es, |base|)
  {
    if es == [] then [base]
    else Enum(es[1..], base[es[0] := false]) + Enum(es[1..], base[es[0] := true])
  }

  predicate Increasing(es: seq<nat>) {
    forall i, j :: 0 <= i < j < |es| ==> es[i] < es[j]
  }

  /** a and b have the same length and agree outside es. */
  predicate SameOutside(a: seq<bool>, b: seq<bool>, es: seq<nat>) {
    |a| == |b| && forall v :: 0 <= v < |a| && v !in es ==> a[v] == b[v]
  }

  /** The enumeration overwrites the bits in es. */
  lemma {:induction false} EnumOutside(es: seq<nat>, a: seq<bool>, b: seq<bool>)
    requires SameOutside(a, b, es) && InRange(es, |a|)
    ensures Enum(es, a) == Enum(es, b)
  {
    if es == [] {
      assert a == b;
    } else {
      EnumOutside(es[1..], a[es[0] := false], b[es[0] := false]);
      EnumOutside(es[1..], a[es[0] := true], b[es[0] := true]);
    }
  }

  lemma {:induction false} EnumLength(es: seq<nat>, base: seq<bool>)
    requires InRange(es, |base|)
    ensures |Enum(es, base)| == Pow2(|es|)
  {
    if es != [] {
      EnumLength(es[1..], base[es[0] := false]);
      EnumLength(es[1..], base[es[0] := true]);
    }
  }

  /** Only completions are enumerated, and all of them. */
  lemma {:induction false} EnumExact(es: seq<nat>, base: seq<bool>, x: seq<bool>)
    requires InRange(es, |base|)
    requires Increasing(es)
    ensures x in Enum(es, base) <==> SameOutside(x, base, es)
  {
    if es == [] {
      assert SameOutside(x, base, es) ==> x == base;
    } else {
      EnumExact(es[1..], base[es[0] := false], x);
      EnumExact(es[1..], base[es[0] := true], x);
      assert forall v :: v in es <==> v == es[0] || v in es[1..];
      forall k | 0 <= k < |es| - 1 ensures es[1..][k] != es[0] {
        assert es[1..][k] == es[k + 1];
      }
      if SameOutside(x, base, es) {
        assert SameOutside(x, base[es[0] := x[es[0]]], es[1..]);
      }
    }
  }

  /** a comes before b as a binary number. */
  ghost predicate NumberLess(a: seq<bool>, b: seq<bool>) {
    |a| == |b| && exists k :: 0 <= k < |a| && a[..k] == b[..k] && !a[k] && b[k]
  }

  /** The enumeration counts upwards. */
  lemma {:induction false} EnumOrder(es: seq<nat>, base: seq<bool>, i: nat, j: nat)
    requires InRange(es, |base|)
    requires Increasing(es) && i < j < |Enum(es, base)|
    ensures NumberLess(Enum(es, base)[i], Enum(es, base)[j])
  {
    var e, rest := es[0], es[1..];
    var lows, highs := Enum(rest, base[e := false]), Enum(rest, base[e := true]);
    if j < |lows| {
      EnumOrder(rest, base[e := false], i, j);
    } else if |lows| <= i {
      EnumOrder(rest, base[e := true], i - |lows|, j - |lows|);
    } else {
      var a, b := lows[i], highs[j - |lows|];
      EnumExact(rest, base[e := false], a);
      EnumExact(rest, base[e := true], b);
      forall v | v in rest ensures v > e {
        var k :| 0 <= k < |rest| && rest[k] == v;
        assert es[k + 1] == v;
      }
      assert a[..e] == b[..e];
    }
  }

  /** What comes after bits in the enumeration, once the digits es[i..] have been passed. */
  function Later(bits: seq<bool>, es: seq<nat>, i: nat): seq<seq<bool>>
    requires InRange(es, |bits|)
    requires i <= |es|
  {
    if i == 0 then []
    else (if bits[es[i - 1]] then [] else Enum(es[i..], bits[es[i - 1] := true])) + Later(bits, es, i - 1)
  }

  lemma {:induction false} LaterOutside(a: seq<bool>, b: seq<bool>, es: seq<nat>, i: nat)
    requires i <= |es| && InRange(es, |a|)
    requires Increasing(es) && SameOutside(a, b, es[i..])
    ensures Later(a, es, i) == Later(b, es, i)
  {
    if i > 0 {
      assert es[i - 1..] == [es[i - 1]] + es[i..];
      assert es[i - 1] !in es[i..];
      EnumOutside(es[i..], a[es[i - 1] := true], b[es[i - 1] := true]);
      LaterOutside(a, b, es, i - 1);
    }
  }

  /** Starting with the digits es[i..] at zero, the enumeration of those digits comes first. */
  lemma {:induction false} LaterStart(bits: seq<bool>, es: seq<nat>, i: nat)
    requires i <= |es| && InRange(es, |bits|)
    requires forall k :: i <= k < |es| ==> !bits[es[k]]
    ensures [bits] + Later(bits, es, |es|) == Enum(es[i..], bits) + Later(bits, es, i)
    decreases |es| - i
  {
    hide Enum, Later;
    if i < |es| {
      var e, rest := es[i], es[i + 1..];
      var zeros, ones, later := Enum(rest, bits), Enum(rest, bits[e := true]), Later(bits, es, i);
      LaterStart(bits, es, i + 1);
      LaterDigit(bits, es, i);
      assert zeros + (ones + later) == (zeros + ones) + later;
    } else {
      EnumNone(bits);
      assert es[i..] == [];
    }
  }

  lemma {:induction false} EnumNone(bits: seq<bool>)
    ensures Enum([], bits) == [bits]
  {
  }

  /** A digit that is zero */
  lemma {:induction false} LaterDigit(bits: seq<bool>, es: seq<nat>, i: nat)
    requires i < |es| && InRange(es, |bits|) && !bits[es[i]]
    ensures Later(bits, es, i + 1) == Enum(es[i + 1..], bits[es[i] := true]) + Later(bits, es, i)
    ensures Enum(es[i..], bits) == Enum(es[i + 1..], bits) + Enum(es[i + 1..], bits[es[i] := true])
  {
    assert es[i..][1..] == es[i + 1..] && bits[es[i] := false] == bits;
  }

  /** The EITHER variables among the first n, in order. */
  function Eithers(fixed: map<nat, bool>, n: nat): (es: seq<nat>)
    ensures Increasing(es) && InRange(es, n)
    ensures forall v: nat :: v in es <==> v < n && v !in fixed
  {
    if n == 0 then []
    else if n - 1 in fixed then Eithers(fixed, n - 1)
    else Eithers(fixed, n - 1) + [n - 1]
  }

  /** The completion with all EITHER variables false. */
  function Least(fixed: map<nat, bool>, n: nat): seq<bool> {
    seq(n, v requires 0 <= v < n => v in fixed && fixed[v])
  }

  /** x gives values to the first n variables, respecting the fixed ones. */
  predicate Completes(x: seq<bool>, fixed: map<nat, bool>, n: nat) {
    |x| == n && forall v: nat :: v in fixed && v < n ==> x[v] == fixed[v]
  }

  function Expanded(fixed: map<nat, bool>, n: nat): seq<seq<bool>> {
    Enum(Eithers(fixed, n), Least(fixed, n))
  }

  /** The expansion is every completion, once, in binary-counter order: 2^k of them for k EITHERs. */
  lemma {:induction false} ExpandedExact(fixed: map<nat, bool>, n: nat)
    ensures forall x :: x in Expanded(fixed, n) <==> Completes(x, fixed, n)
    ensures forall i, j :: 0 <= i < j < |Expanded(fixed, n)| ==>
              NumberLess(Expanded(fixed, n)[i], Expanded(fixed, n)[j])
    ensures |Expanded(fixed, n)| == Pow2(|Eithers(fixed, n)|)
  {
    var es, base := Eithers(fixed, n), Least(fixed, n);
    forall x ensures x in Expanded(fixed, n) <==> Completes(x, fixed, n) {
      EnumExact(es, base, x);
    }
    forall i, j | 0 <= i < j < |Expanded(fixed, n)|
      ensures NumberLess(Expanded(fixed, n)[i], Expanded(fixed, n)[j])
    {
      EnumOrder(es, base, i, j);
    }
    EnumLength(es, base);
  }

  /** The bits of fixed variables below v have their values; all other bits are zero. */
  ghost predicate SetBelow(bits: seq<bool>, fixed: map<nat, bool>, v: int) {
    forall u :: 0 <= u < |bits| ==> bits[u] == (u < v && u in fixed && fixed[u])
  }

  lemma {:induction false} ReadFixed(values: seq<Tribool>, v: nat)
    ensures v in Fixed(values) <==> v < |values| && values[v] != Either
    ensures v in Fixed(values) ==> Fixed(values)[v] == (values[v] == True)
  {
  }

  lemma {:induction false} NothingSet(bits: seq<bool>, fixed: map<nat, bool>)
    requires SetBelow(bits, map[], 0)
    ensures SetBelow(bits, fixed, 0)
    ensures Eithers(fixed, 0) == []
  {
  }

  lemma {:induction false} SetNext(bits: seq<bool>, fixed: map<nat, bool>, v: nat, n: nat)
    requires v < n
    ensures Eithers(fixed, v + 1) == if v in fixed then Eithers(fixed, v) else Eithers(fixed, v) + [v]
    ensures SetBelow(bits, fixed, v) && v < |bits| ==>
              SetBelow(bits[v := v in fixed && fixed[v]], fixed, v + 1)
  {
  }

  lemma {:induction false} AllSet(bits: seq<bool>, values: seq<Tribool>, v: nat, n: nat)
    requires SetBelow(bits, Fixed(values), v) && |bits| == n && (v == |values| || v == n)
    ensures bits == Least(Fixed(values), n)
  {
  }

  /** With all EITHER digits zero, everything is still to come. */
  lemma {:induction false} ExpandedStart(fixed: map<nat, bool>, n: nat)
    ensures InRange(Eithers(fixed, n), |Least(fixed, n)|)
    ensures [Least(fixed, n)] + Later(Least(fixed, n), Eithers(fixed, n), |Eithers(fixed, n)|) == Expanded(fixed, n)
  {
    var es := Eithers(fixed, n);
    forall k | 0 <= k < |es| ensures !Least(fixed, n)[es[k]] {
      assert es[k] in es;
    }
    LaterStart(Least(fixed, n), es, 0);
    assert es[0..] == es;
    assert Later(Least(fixed, n), es, 0) == [];
  }

  lemma {:induction false} BitsOfLength(bytes: seq<Byte>, n: nat)
    requires n <= 8 * |bytes|
    ensures |BitsOf(bytes, n)| == n
  {
  }

  class Expander {
    var finished: bool
    var values: seq<Byte>
    var eithers: seq<nat>
    ghost const varCount: nat

    ghost predicate Ok() reads this {
      && varCount <= 8 * |values|
      && Increasing(eithers)
      && InRange(eithers, varCount)
    }

    ghost function Current(): seq<bool>
      reads this
      requires Ok()
    {
      BitsOf(values, varCount)
    }

    /** The expanded assignments still to be yielded, the current one first. */
    ghost function Remaining(): seq<seq<bool>>
      reads this
      requires Ok()
    {
      if finished then [] else [Current()] + Later(Current(), eithers, |eithers|)
    }

    constructor (assignment: Assignment, varCount: nat)
      ensures Ok() && !finished && this.varCount == varCount
      ensures Remaining() == Expanded(Fixed(assignment.values), varCount)
    {
      finished, this.varCount := false, varCount;
      values := seq(varCount / 8 + (if varCount % 8 != 0 then 1 else 0), _ => 0);
      eithers := [];
      new;
      hide BitGet, BitSet, BitsOf, SetBelow, Enum, Later, Least, Eithers, Fixed;
      ZeroBits(values, varCount);
      Initialize(assignment, varCount);
      ExpandedStart(Fixed(assignment.values), varCount);
    }

    method Initialize(assignment: Assignment, n: nat)
      requires n == varCount <= 8 * |values| && eithers == []
      requires SetBelow(BitsOf(values, n), map[], 0)
      modifies this`values, this`eithers
      ensures Ok()
      ensures eithers == Eithers(Fixed(assignment.values), n)
      ensures Current() == Least(Fixed(assignment.values), n)
    {
      hide BitGet, BitSet, BitsOf, SetBelow, Eithers, Least, Fixed, Increasing, InRange;
      var lastAssignment := |assignment.values|;
      if n < lastAssignment {
        lastAssignment := n;
      }
      ghost var fixed := Fixed(assignment.values);
      NothingSet(BitsOf(values, n), fixed);
      for v := 0 to lastAssignment
        invariant n <= 8 * |values|
        invariant eithers == Eithers(fixed, v)
        invariant SetBelow(BitsOf(values, n), fixed, v)
      {
        var curr := assignment.values[v];
        ReadFixed(assignment.values, v);
        BitsOfSet(values, v, curr == True, n);
        BitsOfLength(values, n);
        SetNext(BitsOf(values, n), fixed, v, n);
        if curr == Either {
          values := BitSet(values, v, false);
          eithers := eithers + [v];
        } else {
          values := BitSet(values, v, curr == True);
        }
      }
      BitsOfLength(values, n);
      AllSet(BitsOf(values, n), assignment.values, lastAssignment, n);
      for v := lastAssignment to n
        invariant eithers == Eithers(fixed, v)
        invariant n <= 8 * |values| && BitsOf(values, n) == Least(fixed, n)
      {
        ReadFixed(assignment.values, v);
        SetNext(Least(fixed, n), fixed, v, n);
        eithers := eithers + [v];
      }
    }

    method SetBit(v: nat, value: bool)
      requires Ok() && v < varCount
      modifies this`values
      ensures Ok() && Current() == old(Current())[v := value]
    {
      BitsOfSet(values, v, value, varCount);
      values := BitSet(values, v, value);
    }

    /** Counts one up: carries over the EITHER bits that are set, from the last one. */
    method Advance()
      requires Ok()
      modifies this`finished, this`values
      ensures Ok() && Remaining() == if old(finished) then [] else old(Remaining())[1..]
    {
      if finished {
        return;
      }
      assert Remaining()[1..] == Later(Current(), eithers, |eithers|);
      hide Later, Enum, BitsOf, Increasing, InRange;
      CountUp();
    }

    /** The loop of Advance. */
    method CountUp()
      requires Ok() && !finished
      modifies this`finished, this`values
      ensures Ok() && Remaining() == old(Later(Current(), eithers, |eithers|))
    {
      hide Later, Enum, BitGet, BitsOf, Carrying, Increasing, SameOutside;
      ghost var before := Current();
      var i := |eithers|;
      BitsOfLength(values, varCount);
      CarryStart(before, eithers);
      while i > 0
        invariant 0 <= i <= |eithers| && Ok() && !finished
        invariant |Current()| == varCount && Carrying(before, Current(), eithers, i)
      {
        var e := eithers[i - 1];
        ReadBit(values, e, varCount);
        CarryStep(before, Current(), eithers, i);
        if BitGet(values, e) {
          SetBit(e, false);
        } else {
          SetBit(e, true);
          return;
        }
        i := i - 1;
      }
      CarryEnd(before, Current(), eithers);
      finished := true;
    }
  }

  lemma {:induction false} CarryEnd(before: seq<bool>, now: seq<bool>, es: seq<nat>)
    requires Increasing(es) && InRange(es, |before|) && Carrying(before, now, es, 0)
    ensures Later(before, es, |es|) == []
  {
  }

  lemma {:induction false} ReadBit(bytes: seq<Byte>, v: nat, n: nat)
    requires v < n <= 8 * |bytes|
    ensures |BitsOf(bytes, n)| == n && BitsOf(bytes, n)[v] == BitGet(bytes, v)
  {
  }

  /** Counting up from `before`, the carry has reached digit i: the digits es[i..] were ones and are now zeros. */
  ghost predicate Carrying(before: seq<bool>, now: seq<bool>, es: seq<nat>, i: nat)
    requires Increasing(es) && InRange(es, |before|) && i <= |es|
  {
    && SameOutside(now, before, es[i..])
    && (forall k :: i <= k < |es| ==> !now[es[k]])
    && Later(before, es, |es|) == Later(before, es, i)
    && (i == 0 ==> Later(before, es, |es|) == [])
  }

  lemma {:induction false} CarryStart(before: seq<bool>, es: seq<nat>)
    requires Increasing(es) && InRange(es, |before|)
    ensures Carrying(before, before, es, |es|)
  {
  }

  lemma {:induction false} CarryStep(before: seq<bool>, now: seq<bool>, es: seq<nat>, i: nat)
    requires 0 < i <= |es| && Increasing(es) && InRange(es, |before|)
    requires |now| == |before| && Carrying(before, now, es, i)
    ensures var after := now[es[i - 1] := !now[es[i - 1]]];
            if now[es[i - 1]] then Carrying(before, after, es, i - 1)
            else Later(before, es, |es|) == [after] + Later(after, es, |es|)
  {
    hide Later, Enum;
    var e := es[i - 1];
    var after := now[e := !now[e]];
    LaterStep(before, es, i);
    assert es[i - 1..] == [e] + es[i..];
    assert e !in es[i..];
    assert now[e] == before[e];
    assert SameOutside(after, before, es[i - 1..]);
    if now[e] {
      NoLater(before, es);
    } else {
      NextNumber(before, after, es, i);
    }
  }

  lemma {:induction false} NoLater(bits: seq<bool>, es: seq<nat>)
    requires InRange(es, |bits|)
    ensures Later(bits, es, 0) == []
  {
  }

  lemma {:induction false} SameAbove(before: seq<bool>, after: seq<bool>, es: seq<nat>, i: nat)
    requires 0 < i <= |es| && InRange(es, |before|)
    requires SameOutside(after, before, es[i - 1..]) && after[es[i - 1]]
    ensures SameOutside(before[es[i - 1] := true], after, es[i..])
  {
    assert es[i - 1..] == [es[i - 1]] + es[i..];
  }

  lemma {:induction false} LaterStep(bits: seq<bool>, es: seq<nat>, i: nat)
    requires 0 < i <= |es| && InRange(es, |bits|)
    ensures Later(bits, es, i)
         == (if bits[es[i - 1]] then [] else Enum(es[i..], bits[es[i - 1] := true])) + Later(bits, es, i - 1)
    ensures bits[es[i - 1]] ==> Later(bits, es, i) == Later(bits, es, i - 1)
  {
  }

  /** The number after one whose digits es[i..] are all ones and whose digit es[i - 1] is zero. */
  lemma {:induction false} NextNumber(before: seq<bool>, after: seq<bool>, es: seq<nat>, i: nat)
    requires 0 < i <= |es| && Increasing(es) && InRange(es, |before|)
    requires SameOutside(after, before, es[i - 1..])
    requires !before[es[i - 1]] && after[es[i - 1]] && forall k :: i <= k < |es| ==> !after[es[k]]
    ensures Later(before, es, i) == [after] + Later(after, es, |es|)
  {
    hide Enum, Later;
    var e := es[i - 1];
    LaterStep(before, es, i);
    LaterStep(after, es, i);
    LaterStart(after, es, i);
    LaterOutside(before, after, es, i - 1);
    SameAbove(before, after, es, i);
    EnumOutside(es[i..], before[e := true], after);
  }

  lemma {:induction false} ZeroBits(bytes: seq<Byte>, n: nat)
    requires n <= 8 * |bytes| && forall i :: 0 <= i < |bytes| ==> bytes[i] == 0
    ensures SetBelow(BitsOf(bytes, n), map[], 0)
  {
  }
}

/** Bit arrays: bits numbered from 0 in big-endian order within bytes. */
module Bits {
  import opened Octets

  function OnMask(i: nat): Byte {
    0x80 >> (i % 8)
  }

  predicate ReadMask(b: Byte, mask: Byte) {
    b & mask != 0
  }

  function WriteMask(b: Byte, mask: Byte, value: bool): Byte {
    (b & !mask) | (if value then mask else 0)
  }

  predicate BitGet(bytes: seq<Byte>, i: nat)
    requires i / 8 < |bytes|
  {
    ReadMask(bytes[i / 8], OnMask(i))
  }

  function BitSet(bytes: seq<Byte>, i: nat, value: bool): seq<Byte>
    requires i / 8 < |bytes|
  {
    bytes[i / 8 := WriteMask(bytes[i / 8], OnMask(i), value)]
  }

  /** Writing under a mask is seen under that mask, */
  lemma {:induction false} MaskWrite(b: Byte, x: Byte, value: bool)
    requires x != 0
    ensures ReadMask(WriteMask(b, x, value), x) == value
  {
  }

  /** and not under a disjoint one. */
  lemma {:induction false} MaskApart(b: Byte, x: Byte, y: Byte, value: bool)
    requires x & y == 0
    ensures ReadMask(WriteMask(b, x, value), y) == ReadMask(b, y)
  {
    assert ((b & !x) | (if value then x else 0)) & y == b & y;
  }

  lemma {:induction false} MaskValue(i: nat)
    ensures OnMask(i) == [0x80, 0x40, 0x20, 0x10, 0x08, 0x04, 0x02, 0x01][i % 8]
  {
    var m := i % 8;
    if m == 0 {} else if m == 1 {} else if m == 2 {} else if m == 3 {}
    else if m == 4 {} else if m == 5 {} else if m == 6 {} else { assert m == 7; }
  }

  lemma {:induction false} MaskDisjoint(i: nat, j: nat)
    ensures OnMask(i) != 0
    ensures i % 8 != j % 8 ==> OnMask(i) & OnMask(j) == 0
  {
    MaskValue(i);
    MaskValue(j);
    hide OnMask;
  }

  lemma {:induction false} BitSetGet(bytes: seq<Byte>, i: nat, value: bool, j: nat)
    requires i / 8 < |bytes| && j / 8 < |bytes|
    ensures BitGet(BitSet(bytes, i, value), j) == if i == j then value else BitGet(bytes, j)
  {
    MaskDisjoint(i, j);
    MaskWrite(bytes[i / 8], OnMask(i), value);
    if i % 8 != j % 8 {
      MaskApart(bytes[i / 8], OnMask(i), OnMask(j), value);
    }
    hide OnMask, WriteMask, ReadMask;
    assert i == j <==> i / 8 == j / 8 && i % 8 == j % 8;
  }

  /** The first n bits. */
  function BitsOf(bytes: seq<Byte>, n: nat): seq<bool>
    requires n <= 8 * |bytes|
  {
    seq(n, i requires 0 <= i < n => BitGet(bytes, i))
  }

  lemma {:induction false} BitsOfSet(bytes: seq<Byte>, i: nat, value: bool, n: nat)
    requires i < n <= 8 * |bytes|
    ensures i / 8 < |bytes| == |BitSet(bytes, i, value)|
    ensures BitsOf(BitSet(bytes, i, value), n) == BitsOf(bytes, n)[i := value]
  {
    forall j: nat | j < n
      ensures BitsOf(BitSet(bytes, i, value), n)[j] == BitsOf(bytes, n)[i := value][j]
    {
      BitSetGet(bytes, i, value, j);
    }
  }
}

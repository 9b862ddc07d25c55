/** Sequences: concatenation, prefixes, and a sequence without one of its elements. */
module Sequences {
  /** The list without its i-th element. */
  function Remove<T>(list: seq<T>, i: nat): (r: seq<T>)
    requires i < |list|
    ensures |r| == |list| - 1
  {
    list[..i] + list[i + 1..]
  }

  /** The pieces one after the other. */
  function Flatten<T>(pieces: seq<seq<T>>): seq<T> {
    if pieces == [] then [] else Flatten(pieces[..|pieces| - 1]) + pieces[|pieces| - 1]
  }

  lemma {:induction false} FlattenAppend<T>(pieces: seq<seq<T>>, last: seq<T>)
    ensures Flatten(pieces + [last]) == Flatten(pieces) + last
  {
    assert (pieces + [last])[..|pieces|] == pieces;
  }

  lemma {:induction false} PrefixTail<T>(x: seq<T>, y: seq<T>)
    requires x <= y
    ensures x + y[|x|..] == y
  {
  }

  lemma {:induction false} AppendAssoc<T>(x: seq<T>, y: seq<T>, z: seq<T>)
    ensures (x + y) + z == x + (y + z)
  {
  }

  /** Cutting x off the front of both sides. */
  lemma {:induction false} CutFront<T>(b: seq<T>, tail: seq<T>, x: seq<T>, y: seq<T>)
    requires |x| <= |b| && b + tail == x + y
    ensures b[..|x|] == x && b == x + b[|x|..] && b[|x|..] + tail == y
  {
    var all := b + tail;
    assert b[..|x|] == all[..|x|] == x;
    assert b[|x|..] + tail == all[|x|..] == y;
  }

  /** A prefix that does not reach the end of x. */
  lemma {:induction false} PrefixPart<T>(b: seq<T>, tail: seq<T>, x: seq<T>, y: seq<T>)
    requires |b| < |x| && b + tail == x + y
    ensures b < x
  {
    assert b == (b + tail)[..|b|] == x[..|b|];
  }
}

/**
 The memory of objects. Its size is computed in an int, which is enough for 89478485 members. What happens for more
 depends on the order in which objects are reached: one may be refused memory, another may be given too little.
 */
module JsonMemory {
  import opened Octets
  import opened JsonSteps
  import opened JsonFirstPass
  import opened JsonMeasure

  // ----- sizes

  const MAX_MEMBERS: nat := 89478485

  /** The size of the entries is right. */
  predicate Small(v: Value) {
    v.kind == Object ==> v.length <= MAX_MEMBERS
  }

  predicate AllSmall(values: seq<Value>) {
    forall i :: 0 <= i < |values| ==> Small(values[i])
  }

  /** Memory that is too small is available. */
  predicate Overfull(v: Value) {
    !Refused(v) && SlotCount(v) < v.length
  }

  /** From 89478486 members on, the size has lost at least 2^32. */
  lemma {:induction false} ValuesSizeOf(length: nat)
    ensures length <= MAX_MEMBERS ==> ValuesSize(length) == ENTRY_SIZE * length
    ensures length > MAX_MEMBERS ==> ValuesSize(length) <= ENTRY_SIZE * length - TWO_TO_THE_32
  {
    var x := ENTRY_SIZE * length;
    if x < TWO_TO_THE_32 {
      assert x % TWO_TO_THE_32 == x;
    } else {
      assert x % TWO_TO_THE_32 <= x - TWO_TO_THE_32;
    }
  }

  lemma {:induction false} SlotCountExact(v: Value)
    ensures SlotCount(v) == v.length <==> Small(v)
    ensures SlotCount(v) <= v.length
    ensures Small(v) ==> !Refused(v) && !Overfull(v) && (v.kind == Object ==> ValuesSize(v.length) >= 0)
    ensures v.kind == Object && ValuesSize(v.length) < 0 ==> SlotCount(v) == 0
  {
    ValuesSizeOf(v.length);
    hide ValuesSize;
  }

  // ----- who comes first

  /** The children of value a up to value b, in the order in which values are created. */
  ghost function Kids(values: seq<Value>, a: int, b: int): set<int> {
    set c | 0 <= c < |values| && c <= b && values[c].parent == a
  }

  /** The first entry of object a that does not fit is reached before any object that is refused memory. */
  ghost predicate ReachedFirst(measured: seq<Value>, a: int)
    requires 0 <= a < |measured|
  {
    forall b :: 0 <= b < |measured| && Refused(measured[b]) ==> |Kids(measured, a, b)| > SlotCount(measured[a])
  }

  /** Some object is given too little memory, and is overrun before any object is refused memory. */
  ghost predicate Overruns(measured: seq<Value>) {
    exists a :: 0 <= a < |measured| && Overfull(measured[a]) && ReachedFirst(measured, a)
  }

  /** An object is refused memory before any other is overrun. */
  ghost predicate Refuses(measured: seq<Value>) {
    !Overruns(measured) && exists b :: 0 <= b < |measured| && Refused(measured[b])
  }

  /** What is not small is refused or overrun. */
  lemma {:induction false} OneOfThree(measured: seq<Value>)
    ensures AllSmall(measured) ==> !Overruns(measured) && !Refuses(measured)
    ensures AllSmall(measured) || Overruns(measured) || Refuses(measured)
  {
    forall i | 0 <= i < |measured|
      ensures Small(measured[i]) <==> !Refused(measured[i]) && !Overfull(measured[i])
    {
      SlotCountExact(measured[i]);
    }
    hide Refused, SlotCount;
    if i :| 0 <= i < |measured| && Overfull(measured[i]) {
      assert ReachedFirst(measured, i) || exists b :: 0 <= b < |measured| && Refused(measured[b]);
    }
  }
}

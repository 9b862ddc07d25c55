/**
 Partial variable assignments: a vector of three-valued entries, everything past its end being EITHER.
 */
module Assignments {
  datatype Tribool = False | True | Either

  function Tri(b: bool): Tribool { if b then True else False }

  /** The variables that an assignment vector fixes. */
  function Fixed(values: seq<Tribool>): map<nat, bool> {
    map v: nat | v < |values| && values[v] != Either :: values[v] == True
  }

  class Assignment {
    var values: seq<Tribool>

    constructor ()
      ensures values == []
      ensures Fixed(values) == map[]
    {
      values := [];
    }

    /** Whether two assignments fix the same variables in the same way. */
    method Equal(that: Assignment) returns (r: bool)
      ensures r <==> Fixed(values) == Fixed(that.values)
    {
      if this == that {
        return true;
      }
      var size1, size2 := |values|, |that.values|;
      var smaller := if size1 < size2 then size1 else size2;
      for i := 0 to smaller
        invariant forall j :: 0 <= j < i ==> values[j] == that.values[j]
      {
        if values[i] != that.values[i] {
          Differ(values, that.values, i);
          return false;
        }
      }
      for i := smaller to size1
        invariant forall j :: 0 <= j < smaller ==> values[j] == that.values[j]
        invariant forall j :: smaller <= j < i ==> values[j] == Either
      {
        if values[i] != Either {
          Differ(values, that.values, i);
          return false;
        }
      }
      for i := smaller to size2
        invariant forall j :: 0 <= j < smaller ==> values[j] == that.values[j]
        invariant forall j :: smaller <= j < size1 ==> values[j] == Either
        invariant forall j :: smaller <= j < i ==> that.values[j] == Either
      {
        if that.values[i] != Either {
          Differ(that.values, values, i);
          return false;
        }
      }
      assert Fixed(values) == Fixed(that.values);
      return true;
    }

    /** Sets the given variable and all higher ones to EITHER. */
    method Cut(v: nat)
      modifies this
      ensures Fixed(values) == map u | u in old(Fixed(values)) && u < v :: old(Fixed(values))[u]
    {
      if v < |values| {
        values := values[..v];
      }
    }

    function Get(v: nat): (r: Tribool)
      reads this
      ensures r == if v in Fixed(values) then Tri(Fixed(values)[v]) else Either
    {
      if v < |values| then values[v] else Either
    }

    method Set(v: nat, value: Tribool)
      modifies this
      ensures Fixed(values) == if value == Either then old(Fixed(values)) - {v}
                               else old(Fixed(values))[v := value == True]
    {
      if |values| <= v {
        var oldLen := |values|;
        var junk: Tribool := *;
        values := values + seq(v + 1 - oldLen, _ => junk);
        for i := oldLen to v
          invariant |values| == v + 1
          invariant forall j :: 0 <= j < oldLen ==> values[j] == old(values)[j]
          invariant forall j :: oldLen <= j < i ==> values[j] == Either
        {
          values := values[i := Either];
        }
      }
      values := values[v := value];
    }
  }

  lemma {:induction false} Differ(a: seq<Tribool>, b: seq<Tribool>, i: nat)
    requires i < |a| && a[i] != if i < |b| then b[i] else Either
    ensures Fixed(a) != Fixed(b)
  {
    assert i in Fixed(a) <==> a[i] != Either;
    assert i in Fixed(b) <==> i < |b| && b[i] != Either;
  }
}

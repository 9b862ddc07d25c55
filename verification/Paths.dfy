/**
 The root-to-terminal paths of a decision tree, low branches first: what a BDD iterator walks through.
 */
module Paths {
  import opened DecisionTree

  /** The variables tested on a path, with the outcomes, and the terminal reached. */
  datatype Path = Path(fixed: map<nat, bool>, value: nat)

  /** The paths of t, each prefixed by the outcomes in pre. */
  function PathsFrom(t: Tree, pre: map<nat, bool>): seq<Path> {
    match t
    case Leaf(v) => [Path(pre, v)]
    case Branch(v, low, high) => PathsFrom(low, pre[v := false]) + PathsFrom(high, pre[v := true])
  }

  function AllPaths(t: Tree): seq<Path> {
    PathsFrom(t, map[])
  }

  ghost predicate Agrees(x: Valuation, fixed: map<nat, bool>) {
    forall v :: v in fixed ==> x(v) == fixed[v]
  }

  /** All outcomes recorded so far are about variables below bound. */
  predicate Below(pre: map<nat, bool>, bound: nat) {
    forall v :: v in pre ==> v < bound
  }

  /** Every path extends the prefix, and only by variables from bound on. */
  lemma {:induction false} PathsExtend(t: Tree, pre: map<nat, bool>, bound: nat, i: nat)
    requires Ordered(t) && RootAtLeast(t, bound) && Below(pre, bound) && i < |PathsFrom(t, pre)|
    ensures pre.Keys <= PathsFrom(t, pre)[i].fixed.Keys
    ensures forall v :: v in pre ==> PathsFrom(t, pre)[i].fixed[v] == pre[v]
    ensures forall v :: v in PathsFrom(t, pre)[i].fixed && v !in pre ==> bound <= v
  {
    if t.Branch? {
      var lows := PathsFrom(t.low, pre[t.variable := false]);
      if i < |lows| {
        PathsExtend(t.low, pre[t.variable := false], t.variable + 1, i);
      } else {
        PathsExtend(t.high, pre[t.variable := true], t.variable + 1, i - |lows|);
      }
    }
  }

  /** The path that a valuation follows is in the list. */
  lemma {:induction false} Covered(t: Tree, pre: map<nat, bool>, bound: nat, x: Valuation) returns (i: nat)
    requires Ordered(t) && RootAtLeast(t, bound) && Below(pre, bound) && Agrees(x, pre)
    ensures i < |PathsFrom(t, pre)| && Agrees(x, PathsFrom(t, pre)[i].fixed)
  {
    if t.Leaf? {
      i := 0;
    } else if x(t.variable) {
      i := Covered(t.high, pre[t.variable := true], t.variable + 1, x);
      i := i + |PathsFrom(t.low, pre[t.variable := false])|;
    } else {
      i := Covered(t.low, pre[t.variable := false], t.variable + 1, x);
    }
  }

  /** The value of a path is the value of every valuation that agrees with it. */
  lemma {:induction false} PathValue(t: Tree, pre: map<nat, bool>, bound: nat, i: nat, x: Valuation)
    requires Ordered(t) && RootAtLeast(t, bound) && Below(pre, bound) && i < |PathsFrom(t, pre)|
    requires Agrees(x, PathsFrom(t, pre)[i].fixed)
    ensures Eval(t, x) == PathsFrom(t, pre)[i].value
  {
    if t.Branch? {
      var lows := PathsFrom(t.low, pre[t.variable := false]);
      if i < |lows| {
        PathsExtend(t.low, pre[t.variable := false], t.variable + 1, i);
        assert t.variable in pre[t.variable := false];
        PathValue(t.low, pre[t.variable := false], t.variable + 1, i, x);
      } else {
        PathsExtend(t.high, pre[t.variable := true], t.variable + 1, i - |lows|);
        assert t.variable in pre[t.variable := true];
        PathValue(t.high, pre[t.variable := true], t.variable + 1, i - |lows|, x);
      }
    }
  }

  /** p branches low where q branches high, after agreeing on everything both test before that. */
  ghost predicate LowBefore(p: map<nat, bool>, q: map<nat, bool>) {
    exists v :: LowBeforeAt(p, q, v)
  }

  ghost predicate LowBeforeAt(p: map<nat, bool>, q: map<nat, bool>, v: nat) {
    && v in p && v in q && !p[v] && q[v]
    && forall u :: u < v ==> ((u in p) <==> (u in q)) && (u in p ==> p[u] == q[u])
  }

  /** Low branches come first. */
  lemma {:induction false} PathOrder(t: Tree, pre: map<nat, bool>, bound: nat, i: nat, j: nat)
    requires Ordered(t) && RootAtLeast(t, bound) && Below(pre, bound)
    requires i < j < |PathsFrom(t, pre)|
    ensures LowBefore(PathsFrom(t, pre)[i].fixed, PathsFrom(t, pre)[j].fixed)
  {
    var v, pl, ph := t.variable, pre[t.variable := false], pre[t.variable := true];
    var lows := PathsFrom(t.low, pl);
    if j < |lows| {
      PathOrder(t.low, pl, v + 1, i, j);
    } else if |lows| <= i {
      PathOrder(t.high, ph, v + 1, i - |lows|, j - |lows|);
    } else {
      PathsExtend(t.low, pl, v + 1, i);
      PathsExtend(t.high, ph, v + 1, j - |lows|);
      var p, q := PathsFrom(t, pre)[i].fixed, PathsFrom(t, pre)[j].fixed;
      assert v in pl && v in ph;
      assert forall u :: u < v && u in p ==> u in pl && u in pre;
      assert forall u :: u < v && u in q ==> u in ph && u in pre;
      assert LowBeforeAt(p, q, v);
    }
  }

  /** The valuation follows the i-th of the paths. */
  ghost predicate Follows(x: Valuation, ps: seq<Path>, i: int) {
    0 <= i < |ps| && Agrees(x, ps[i].fixed)
  }

  ghost predicate OnSomePath(x: Valuation, ps: seq<Path>) {
    exists i :: Follows(x, ps, i)
  }

  /**
   The walk is a partition: every valuation agrees with exactly one path, whose value is its own, and
   the paths come low branch first.
   */
  lemma {:induction false} PathsPartition(t: Tree)
    requires Ordered(t)
    ensures forall x: Valuation :: OnSomePath(x, AllPaths(t))
    ensures forall x: Valuation, i :: Follows(x, AllPaths(t), i) ==> Eval(t, x) == AllPaths(t)[i].value
    ensures forall x: Valuation, i, j :: Follows(x, AllPaths(t), i) && Follows(x, AllPaths(t), j) ==> i == j
    ensures forall i, j :: 0 <= i < j < |AllPaths(t)| ==> LowBefore(AllPaths(t)[i].fixed, AllPaths(t)[j].fixed)
  {
    var ps := AllPaths(t);
    forall x: Valuation ensures OnSomePath(x, ps) {
      var i := Covered(t, map[], 0, x);
      assert Follows(x, ps, i);
    }
    forall x: Valuation, i | Follows(x, ps, i) ensures Eval(t, x) == ps[i].value {
      PathValue(t, map[], 0, i, x);
    }
    forall i, j | 0 <= i < j < |ps|
      ensures LowBefore(ps[i].fixed, ps[j].fixed)
      ensures forall x: Valuation :: !(Follows(x, ps, i) && Follows(x, ps, j))
    {
      PathOrder(t, map[], 0, i, j);
    }
  }
}

/**
 Binary decision trees: what a node of the shared graph in NodeCache.dfy stands for.

 The graph is proved equal, operation by operation, to functions on these trees; order, canonicity
 and the meaning of an insertion are proved here, once, by structural induction.
 */
module DecisionTree {
  datatype Tree = Leaf(value: nat) | Branch(variable: nat, low: Tree, high: Tree)

  /** A total valuation of the BDD variables. */
  type Valuation = nat -> bool

  function Eval(t: Tree, a: Valuation): nat {
    match t
    case Leaf(v) => v
    case Branch(v, low, high) => Eval(if a(v) then high else low, a)
  }

  predicate RootAtLeast(t: Tree, v: nat) {
    t.Branch? ==> v <= t.variable
  }

  /** Variables strictly increase along every path. */
  predicate Ordered(t: Tree) {
    t.Branch? ==>
      && RootAtLeast(t.low, t.variable + 1) && Ordered(t.low)
      && RootAtLeast(t.high, t.variable + 1) && Ordered(t.high)
  }

  /** No test whose outcome does not matter. */
  predicate Reduced(t: Tree) {
    t.Branch? ==> t.low != t.high && Reduced(t.low) && Reduced(t.high)
  }

  predicate Canonical(t: Tree) {
    Ordered(t) && Reduced(t)
  }

  ghost predicate SameFunction(t: Tree, u: Tree) {
    forall a: Valuation :: Eval(t, a) == Eval(u, a)
  }

  /** Evaluation does not look below the root variable. */
  lemma {:induction false} EvalAgree(t: Tree, v: nat, a: Valuation, b: Valuation)
    requires Ordered(t) && RootAtLeast(t, v)
    requires forall j :: v <= j ==> a(j) == b(j)
    ensures Eval(t, a) == Eval(t, b)
  {
    if t.Branch? {
      EvalAgree(if a(t.variable) then t.high else t.low, v, a, b);
    }
  }

  function With(a: Valuation, v: nat, b: bool): Valuation {
    (j: nat) => if j == v then b else a(j)
  }

  /** Two different canonical trees are told apart by some valuation. */
  lemma {:induction false} Distinguish(t: Tree, u: Tree) returns (a: Valuation)
    requires Canonical(t) && Canonical(u) && t != u
    ensures Eval(t, a) != Eval(u, a)
    decreases t, u
  {
    if t.Leaf? && u.Leaf? {
      a := _ => false;
    } else if t.Branch? && RootAtLeast(u, t.variable) {
      var same := u.Branch? && u.variable == t.variable;
      var side := t.low == (if same then u.low else u);
      var a' := Distinguish(if side then t.high else t.low,
                            if !same then u else if side then u.high else u.low);
      a := With(a', t.variable, side);
      EvalAgree(if side then t.high else t.low, t.variable + 1, a, a');
      EvalAgree(if !same then u else if side then u.high else u.low, t.variable + 1, a, a');
    } else {
      var side := t == u.low;
      var a' := Distinguish(t, if side then u.high else u.low);
      a := With(a', u.variable, side);
      EvalAgree(t, u.variable + 1, a, a');
      EvalAgree(if side then u.high else u.low, u.variable + 1, a, a');
    }
  }

  /** Canonicity: on ordered reduced trees, equality of structure is equality of functions. */
  lemma {:induction false} CanonicalUnique(t: Tree, u: Tree)
    requires Canonical(t) && Canonical(u)
    ensures t == u <==> SameFunction(t, u)
  {
    if t != u {
      var a := Distinguish(t, u);
    }
  }

  /** The reducing constructor. */
  function Mk(variable: nat, low: Tree, high: Tree): Tree {
    if low == high then low else Branch(variable, low, high)
  }

  /**
   If-then-else of a cube and a tree: the shape of ipset_apply_ite. The cube says that variables
   [k..n) take the values of a; accept is the value of the cube's one true terminal.
   */
  function Ite(k: nat, n: nat, a: Valuation, accept: bool, g: nat, h: Tree): Tree
    requires k <= n
    decreases n - k, h
  {
    if k == n then
      if accept then Leaf(g) else h
    else if h == Leaf(g) then
      h
    else if h.Branch? && h.variable < k then
      Mk(h.variable, Ite(k, n, a, accept, g, h.low), Ite(k, n, a, accept, g, h.high))
    else
      var here := h.Branch? && h.variable == k;
      var hLow := if here then h.low else h;
      var hHigh := if here then h.high else h;
      Mk(k, if a(k) then hLow else Ite(k + 1, n, a, accept, g, hLow),
         if a(k) then Ite(k + 1, n, a, accept, g, hHigh) else hHigh)
  }

  /** The branch of the cube that agrees with its variable k goes on; the other is the terminal 0. */
  function IteBranch(k: nat, n: nat, a: Valuation, accept: bool, g: nat, h: Tree, taken: bool): Tree
    requires k < n
  {
    if taken then Ite(k + 1, n, a, accept, g, h) else h
  }

  /** The step of Ite when the cube tests the current variable, on the two branches of h. */
  function IteStep(k: nat, n: nat, a: Valuation, accept: bool, g: nat, hLow: Tree, hHigh: Tree): Tree
    requires k < n
  {
    Mk(k, IteBranch(k, n, a, accept, g, hLow, !a(k)), IteBranch(k, n, a, accept, g, hHigh, a(k)))
  }

  /** The valuation x satisfies the cube. */
  ghost predicate InCube(x: Valuation, a: Valuation, k: nat, n: nat) {
    forall j :: k <= j < n ==> x(j) == a(j)
  }

  /** An insertion keeps a tree canonical and tests no variable above the cube or the old tree. */
  lemma {:induction false} IteCanonical(k: nat, n: nat, a: Valuation, accept: bool, g: nat, h: Tree, floor: nat)
    requires k <= n && Canonical(h)
    requires floor <= k && RootAtLeast(h, floor)
    ensures Canonical(Ite(k, n, a, accept, g, h))
    ensures RootAtLeast(Ite(k, n, a, accept, g, h), floor)
    decreases n - k, h
  {
    if k == n || h == Leaf(g) {
    } else if h.Branch? && h.variable < k {
      IteCanonical(k, n, a, accept, g, h.low, h.variable + 1);
      IteCanonical(k, n, a, accept, g, h.high, h.variable + 1);
    } else {
      var here := h.Branch? && h.variable == k;
      var go := if !here then h else if a(k) then h.high else h.low;
      IteCanonical(k + 1, n, a, accept, g, go, k + 1);
      assert Ite(k, n, a, accept, g, h)
          == Mk(k, if a(k) then if here then h.low else h else Ite(k + 1, n, a, accept, g, go),
                if a(k) then Ite(k + 1, n, a, accept, g, go) else if here then h.high else h);
      hide Ite;
    }
  }

  lemma {:induction false} IteOfZero(n: nat, a: Valuation, g: nat, h: Tree)
    ensures Ite(n, n, a, false, g, h) == h
  {
  }

  lemma {:induction false} IteBelow(k: nat, n: nat, a: Valuation, accept: bool, g: nat, h: Tree)
    requires k < n && h.Branch? && h.variable < k && Canonical(h)
    ensures Ite(k, n, a, accept, g, h)
         == Mk(h.variable, Ite(k, n, a, accept, g, h.low), Ite(k, n, a, accept, g, h.high))
    ensures RootAtLeast(Ite(k, n, a, accept, g, h.low), h.variable + 1)
    ensures RootAtLeast(Ite(k, n, a, accept, g, h.high), h.variable + 1)
  {
    IteCanonical(k, n, a, accept, g, h.low, h.variable + 1);
    IteCanonical(k, n, a, accept, g, h.high, h.variable + 1);
  }

  /** An insertion is if-then-else on meaning. */
  lemma {:induction false} IteMeaning(k: nat, n: nat, a: Valuation, g: nat, h: Tree, x: Valuation)
    requires k <= n
    ensures Eval(Ite(k, n, a, true, g, h), x) == if InCube(x, a, k, n) then g else Eval(h, x)
    decreases n - k, h
  {
    if k == n || h == Leaf(g) {
    } else if h.Branch? && h.variable < k {
      IteMeaning(k, n, a, g, if x(h.variable) then h.high else h.low, x);
    } else {
      var here := h.Branch? && h.variable == k;
      IteMeaning(k + 1, n, a, g, if !here then h else if a(k) then h.high else h.low, x);
      assert InCube(x, a, k, n) <==> x(k) == a(k) && InCube(x, a, k + 1, n);
    }
  }
}

/**
 Releasing a parsed tree without a stack: the loop goes up through the parent pointers, and its only record
 of progress are the lengths of arrays and objects, which it counts down.
 */
module JsonFree {
  import opened JsonSteps
  import opened JsonFirstPass
  import opened JsonTwoPasses

  /** What is given back to the allocator: the memory that a value points to, or the value itself. */
  datatype Block = Data(i: int) | Node(i: int)

  /** A value points to memory: a string always, an array or object unless it was empty when it was filled. */
  predicate HasData(v: Value) { v.kind == String || (IsContainer(v.kind) && v.slots != []) }

  /** Child c of value i is still to be entered: it is in a slot below the length. */
  ghost predicate Waiting(tree: seq<Value>, now: seq<Value>, c: int)
    requires |now| == |tree|
  {
    && 0 < c < |tree| && 0 <= tree[c].parent < c
    && exists k :: 0 <= k < now[tree[c].parent].length && SlotIs(tree, tree[c].parent, k, c)
  }

  predicate SlotIs(tree: seq<Value>, p: int, k: int, c: int)
    requires 0 <= p < |tree|
  {
    0 <= k < |tree[p].slots| && tree[p].slots[k] == c
  }

  /** Only lengths, and the parent of the root, differ from the tree at the beginning. */
  predicate SameTree(tree: seq<Value>, now: seq<Value>) {
    && |now| == |tree|
    && forall i :: 0 <= i < |tree| ==>
         && now[i].kind == tree[i].kind && now[i].slots == tree[i].slots && now[i].parent == tree[i].parent
         && now[i].length <= tree[i].length
  }

  /** c is in todo exactly if it waits in a slot of a value in todo or on the path. */
  ghost predicate TodoOk(tree: seq<Value>, now: seq<Value>, cur: int, todo: set<int>, c: int)
    requires |now| == |tree| && 0 < c < |tree|
  {
    c in todo <==> Waiting(tree, now, c) && (tree[c].parent in todo || OnPath(tree, cur, tree[c].parent))
  }

  /** The loop is at value cur, and todo are the values it has not entered: they have their full length. */
  ghost predicate Walking(tree: seq<Value>, now: seq<Value>, cur: int, todo: set<int>) {
    && SameTree(tree, now) && -1 <= cur < |tree|
    && (forall x :: x in todo ==> 0 < x < |tree| && now[x].length == tree[x].length && !OnPath(tree, cur, x))
    && (forall c :: 0 < c < |tree| ==> TodoOk(tree, now, cur, todo, c))
  }

  predicate BlockOk(tree: seq<Value>, b: Block) {
    0 <= b.i < |tree| && (b.Data? ==> HasData(tree[b.i]))
  }

  /** The blocks freed so far: those of the values that are neither in todo nor on the path, children before parents. */
  ghost predicate Released(tree: seq<Value>, cur: int, todo: set<int>, freed: seq<Block>) {
    && (forall j :: 0 <= j < |freed| ==> BlockOk(tree, freed[j]))
    && (forall x :: 0 <= x < |tree| ==> (Node(x) in freed <==> x !in todo && !OnPath(tree, cur, x)))
    && (forall x :: 0 <= x < |tree| && HasData(tree[x]) ==> (Data(x) in freed <==> Node(x) in freed))
    && (forall j, k :: 0 <= j < k < |freed| ==> freed[j] != freed[k])
    && (forall c :: 0 < c < |tree| && Node(tree[c].parent) in freed ==> Before(freed, Node(c), Node(tree[c].parent)))
  }

  /** x comes before every occurrence of y. */
  ghost predicate Before(freed: seq<Block>, x: Block, y: Block) {
    exists j :: 0 <= j < |freed| && freed[j] == x && forall k :: 0 <= k <= j ==> freed[k] != y
  }

  lemma {:induction false} BeforeMore(freed: seq<Block>, more: seq<Block>, x: Block, y: Block)
    requires Before(freed, x, y)
    ensures Before(freed + more, x, y)
  {
    var j :| 0 <= j < |freed| && freed[j] == x && forall k :: 0 <= k <= j ==> freed[k] != y;
    assert forall k :: 0 <= k <= j ==> (freed + more)[k] == freed[k];
  }

  // ----- the two kinds of steps

  lemma {:induction false} SlotChild(tree: seq<Value>, i: int, k: int)
    requires IsTree(tree) && 0 <= i < |tree| && IsContainer(tree[i].kind) && 0 <= k < tree[i].length
    ensures tree[i].length == |tree[i].slots| && i < tree[i].slots[k] < |tree| && tree[tree[i].slots[k]].parent == i
    ensures forall l :: 0 <= l < k ==> tree[i].slots[l] != tree[i].slots[k]
  {
    assert Injective(tree[i]);
    assert IsChild(tree, i, tree[i].slots[k]);
  }

  lemma {:induction false} ParentBefore(tree: seq<Value>, c: int)
    requires IsTree(tree) && 0 <= c < |tree|
    ensures if c == 0 then tree[c].parent == NONE else 0 <= tree[c].parent < c && IsContainer(tree[tree[c].parent].kind)
  {
    if c > 0 {
      assert Listed(tree, c);
      var k :| ChildAt(tree, c, k);
    }
  }

  lemma {:induction false} PathStep(tree: seq<Value>, cur: int)
    requires IsTree(tree) && 0 <= cur < |tree|
    ensures forall x :: OnPath(tree, cur, x) <==> x == cur || OnPath(tree, tree[cur].parent, x)
    ensures -1 <= tree[cur].parent < cur
  {
    ParentBefore(tree, cur);
  }

  lemma {:induction false} NotOnPath(tree: seq<Value>, cur: int, c: int)
    requires cur < c
    ensures !OnPath(tree, cur, c)
  {
    if OnPath(tree, cur, c) {
      PathBelow(tree, cur, c);
    }
  }

  /** Entering the last child that waits in cur. */
  lemma {:induction false} Descend(tree: seq<Value>, now: seq<Value>, cur: int, todo: set<int>) returns (c: int)
    requires IsTree(tree) && Walking(tree, now, cur, todo) && 0 <= cur && IsContainer(tree[cur].kind)
        && now[cur].length > 0
    ensures now[cur].length <= |tree[cur].slots| && c == tree[cur].slots[now[cur].length - 1]
    ensures c in todo && cur < c < |tree|
    ensures Walking(tree, now[cur := now[cur].(length := now[cur].length - 1)], c, todo - {c})
    ensures forall x :: OnPath(tree, c, x) <==> x == c || OnPath(tree, cur, x)
  {
    var n := now[cur].length - 1;
    var now' := now[cur := now[cur].(length := n)];
    SlotChild(tree, cur, n);
    c := tree[cur].slots[n];
    PathStep(tree, c);
    hide IsTree, OnPath;
    CurOnPath(tree, cur);
    assert SlotIs(tree, cur, n, c);
    assert TodoOk(tree, now, cur, todo, c);
    assert SameTree(tree, now');
    forall d | 0 < d < |tree| ensures TodoOk(tree, now', c, todo - {c}, d) {
      assert TodoOk(tree, now, cur, todo, d);
      DescendWaiting(tree, now, cur, d, n, c);
    }
  }

  lemma {:induction false} CurOnPath(tree: seq<Value>, cur: int)
    requires 0 <= cur < |tree|
    ensures OnPath(tree, cur, cur)
  {
  }

  lemma {:induction false} DescendWaiting(tree: seq<Value>, now: seq<Value>, cur: int, d: int, n: nat, c: int)
    requires |now| == |tree| && 0 <= cur < |tree| && n + 1 == now[cur].length && n < |tree[cur].slots|
    requires c == tree[cur].slots[n] && 0 < d < |tree|
    requires forall l :: 0 <= l < n ==> tree[cur].slots[l] != c
    requires 0 <= c < |tree| && tree[c].parent == cur
    ensures Waiting(tree, now[cur := now[cur].(length := n)], d) <==> Waiting(tree, now, d) && d != c
  {
    var now' := now[cur := now[cur].(length := n)];
    if Waiting(tree, now, d) && d != c {
      var k :| 0 <= k < now[tree[d].parent].length && SlotIs(tree, tree[d].parent, k, d);
      assert 0 <= k < now'[tree[d].parent].length && SlotIs(tree, tree[d].parent, k, d);
    }
    if Waiting(tree, now', d) {
      var k :| 0 <= k < now'[tree[d].parent].length && SlotIs(tree, tree[d].parent, k, d);
      assert 0 <= k < now[tree[d].parent].length && SlotIs(tree, tree[d].parent, k, d);
    }
  }

  /** Leaving cur, which has no children left. */
  lemma {:induction false} Ascend(tree: seq<Value>, now: seq<Value>, cur: int, todo: set<int>)
    requires IsTree(tree) && Walking(tree, now, cur, todo) && 0 <= cur
    requires IsContainer(tree[cur].kind) ==> now[cur].length == 0
    ensures Walking(tree, now, tree[cur].parent, todo)
    ensures forall c :: 0 < c < |tree| && tree[c].parent == cur ==> c !in todo && !OnPath(tree, cur, c)
    ensures forall x :: OnPath(tree, cur, x) <==> x == cur || OnPath(tree, tree[cur].parent, x)
    ensures -1 <= tree[cur].parent < cur && cur !in todo
  {
    PathStep(tree, cur);
    CurOnPath(tree, cur);
    forall c | 0 < c < |tree|
      ensures TodoOk(tree, now, tree[cur].parent, todo, c)
      ensures tree[c].parent == cur ==> c !in todo && !OnPath(tree, cur, c)
    {
      ParentBefore(tree, c);
      assert TodoOk(tree, now, cur, todo, c);
      assert tree[c].parent == cur ==> !Waiting(tree, now, c);
      NotOnPathChild(tree, cur, c);
    }
    hide IsTree, OnPath;
  }

  lemma {:induction false} NotOnPathChild(tree: seq<Value>, cur: int, c: int)
    ensures cur < c ==> !OnPath(tree, cur, c)
  {
    if cur < c {
      NotOnPath(tree, cur, c);
    }
  }

  /** Nothing waits when the root has been left. */
  lemma {:induction false} AllEntered(tree: seq<Value>, now: seq<Value>, todo: set<int>, x: int)
    requires IsTree(tree) && Walking(tree, now, NONE, todo) && 0 <= x < |tree|
    ensures x !in todo
    decreases x
  {
    if 0 < x {
      ParentBefore(tree, x);
      AllEntered(tree, now, todo, tree[x].parent);
      assert TodoOk(tree, now, NONE, todo, x);
      assert !OnPath(tree, NONE, tree[x].parent);
    }
  }

  // ----- the blocks

  lemma {:induction false} NothingReleased(tree: seq<Value>)
    requires IsTree(tree)
    ensures var todo := set x | 0 < x < |tree| && tree[x].parent != NONE;
            Walking(tree, tree, 0, todo) && Released(tree, 0, todo, [])
  {
    forall c | 0 < c < |tree| ensures tree[c].parent != NONE {
      ParentBefore(tree, c);
    }
    var todo := set x | 0 < x < |tree| && tree[x].parent != NONE;
    PathStep(tree, 0);
    forall c | 0 < c < |tree| ensures TodoOk(tree, tree, 0, todo, c) && !OnPath(tree, 0, c) {
      NotOnPath(tree, 0, c);
      ParentBefore(tree, c);
      ParentBefore(tree, tree[c].parent);
      assert Listed(tree, c);
      var k :| ChildAt(tree, c, k);
      assert SlotIs(tree, tree[c].parent, k, c);
      assert tree[c].parent == 0 ==> OnPath(tree, 0, 0);
    }
  }

  lemma {:induction false} DescendReleased(tree: seq<Value>, cur: int, c: int, todo: set<int>, freed: seq<Block>)
    requires Released(tree, cur, todo, freed) && c in todo
    requires forall x :: OnPath(tree, c, x) <==> x == c || OnPath(tree, cur, x)
    ensures Released(tree, c, todo - {c}, freed)
  {
    hide OnPath, Before;
  }

  function Own(tree: seq<Value>, i: int): seq<Block>
    requires 0 <= i < |tree|
  {
    (if HasData(tree[i]) then [Data(i)] else []) + [Node(i)]
  }

  lemma {:induction false} AscendReleased(tree: seq<Value>, cur: int, todo: set<int>, freed: seq<Block>)
    requires IsTree(tree) && 0 <= cur < |tree| && cur !in todo && Released(tree, cur, todo, freed)
    requires forall c :: 0 < c < |tree| && tree[c].parent == cur ==> c !in todo && !OnPath(tree, cur, c)
    requires forall x :: OnPath(tree, cur, x) <==> x == cur || OnPath(tree, tree[cur].parent, x)
    requires -1 <= tree[cur].parent < cur
    ensures Released(tree, tree[cur].parent, todo, freed + Own(tree, cur))
  {
    var p, more := tree[cur].parent, freed + Own(tree, cur);
    NotOnPath(tree, p, cur);
    assert Node(cur) !in freed;
    hide IsTree, OnPath;
    forall c | 0 < c < |tree| && Node(tree[c].parent) in more
      ensures Before(more, Node(c), Node(tree[c].parent))
    {
      if tree[c].parent == cur {
        BeforeNew(tree, cur, freed, Node(c));
      } else {
        assert Node(tree[c].parent) in freed;
        BeforeMore(freed, Own(tree, cur), Node(c), Node(tree[c].parent));
      }
    }
    hide Before;
    DistinctMore(tree, cur, freed);
    forall x | 0 <= x < |tree| ensures Node(x) in more <==> x !in todo && !OnPath(tree, p, x) {
      assert Node(x) in more <==> Node(x) in freed || x == cur;
    }
    forall x | 0 <= x < |tree| && HasData(tree[x]) ensures Data(x) in more <==> Node(x) in more {
      assert Data(x) in more <==> Data(x) in freed || x == cur;
    }
  }

  lemma {:induction false} BeforeNew(tree: seq<Value>, cur: int, freed: seq<Block>, x: Block)
    requires 0 <= cur < |tree| && x in freed && Node(cur) !in freed
    ensures Before(freed + Own(tree, cur), x, Node(cur))
  {
    var j :| 0 <= j < |freed| && freed[j] == x;
    assert forall k :: 0 <= k <= j ==> (freed + Own(tree, cur))[k] == freed[k];
  }

  lemma {:induction false} DistinctMore(tree: seq<Value>, cur: int, freed: seq<Block>)
    requires 0 <= cur < |tree| && Node(cur) !in freed && (HasData(tree[cur]) ==> Data(cur) !in freed)
    requires forall j, k :: 0 <= j < k < |freed| ==> freed[j] != freed[k]
    ensures var more := freed + Own(tree, cur); forall j, k :: 0 <= j < k < |more| ==> more[j] != more[k]
  {
  }

  /**
   Every value is freed exactly once, children before their parents, and so is exactly the memory of strings and of
   arrays and objects that are not empty. (The source passes a null pointer for the empty ones, which does nothing.)
   */
  ghost predicate AllFreedOnce(tree: seq<Value>, freed: seq<Block>) {
    && (forall x :: Node(x) in freed <==> 0 <= x < |tree|)
    && (forall x :: Data(x) in freed <==>
          && 0 <= x < |tree|
          && match tree[x].kind
             case String => true
             case Array => tree[x].length > 0
             case Object => tree[x].length > 0
             case _ => false)
    && (forall j, k :: 0 <= j < k < |freed| ==> freed[j] != freed[k])
    && (forall c :: 0 < c < |tree| ==> Before(freed, Node(c), Node(tree[c].parent)))
  }

  lemma {:induction false} AllReleased(tree: seq<Value>, now: seq<Value>, todo: set<int>, freed: seq<Block>)
    requires IsTree(tree) && Walking(tree, now, NONE, todo) && Released(tree, NONE, todo, freed)
    ensures AllFreedOnce(tree, freed)
  {
    forall x | 0 <= x < |tree| ensures x !in todo && !OnPath(tree, NONE, x) {
      AllEntered(tree, now, todo, x);
    }
    forall c | 0 < c < |tree| ensures Before(freed, Node(c), Node(tree[c].parent)) {
      ParentBefore(tree, c);
    }
    hide OnPath, Before, Waiting, Walking;
    forall b | b in freed ensures BlockOk(tree, b) {
    }
    forall x | 0 <= x < |tree| && IsContainer(tree[x].kind) ensures tree[x].slots != [] <==> tree[x].length > 0 {
      SlotsFull(tree, x);
    }
  }

  lemma {:induction false} SlotsFull(tree: seq<Value>, i: nat)
    requires IsTree(tree) && i < |tree| && IsContainer(tree[i].kind)
    ensures tree[i].slots != [] <==> tree[i].length > 0
  {
  }

  // ----- what the loop does to memory

  datatype Access = Use(b: Block) | Free(b: Block)

  /** No block is used, or released again, after it has been released. */
  predicate NoUseAfterFree(log: seq<Access>) {
    forall j, k :: 0 <= j < k < |log| && log[j].Free? ==> log[j].b != log[k].b
  }

  /** The blocks that the log releases, in order */
  function Frees(log: seq<Access>): seq<Block> {
    if log == [] then []
    else
      var last := log[|log| - 1];
      Frees(log[..|log| - 1]) + if last.Free? then [last.b] else []
  }

  lemma {:induction false} FreesMember(log: seq<Access>, b: Block)
    ensures b in Frees(log) <==> Free(b) in log
  {
    if log != [] {
      FreesMember(log[..|log| - 1], b);
      assert log == log[..|log| - 1] + [log[|log| - 1]];
    }
  }

  /** One more access, to a block that has not been released. */
  lemma {:induction false} LogOne(log: seq<Access>, a: Access)
    requires NoUseAfterFree(log) && a.b !in Frees(log)
    ensures NoUseAfterFree(log + [a])
    ensures Frees(log + [a]) == Frees(log) + if a.Free? then [a.b] else []
  {
    FreesMember(log, a.b);
    assert (log + [a])[..|log|] == log;
  }

  /** Value i has not been released, and neither has anything that it owns. */
  lemma {:induction false} NotReleased(tree: seq<Value>, cur: int, todo: set<int>, freed: seq<Block>)
    requires Released(tree, cur, todo, freed) && 0 <= cur < |tree|
    ensures Node(cur) !in freed && Data(cur) !in freed
  {
    CurOnPath(tree, cur);
    hide Before;
  }

  /** Releasing what value i owns, and then the value. */
  lemma {:induction false} LogOwn(log: seq<Access>, tree: seq<Value>, i: int) returns (log': seq<Access>)
    requires 0 <= i < |tree| && NoUseAfterFree(log) && Node(i) !in Frees(log) && Data(i) !in Frees(log)
    ensures NoUseAfterFree(log') && Frees(log') == Frees(log) + Own(tree, i)
    ensures log' == log + (if HasData(tree[i]) then [Free(Data(i))] else []) + [Free(Node(i))]
  {
    log' := log;
    if HasData(tree[i]) {
      LogOne(log', Free(Data(i)));
      log' := log' + [Free(Data(i))];
    }
    LogOne(log', Free(Node(i)));
    log' := log' + [Free(Node(i))];
  }

  // ----- the loop

  /** Besides the blocks that it releases, the method gives the log of all its accesses to blocks. */
  method FreeValue(values: array<Value>) returns (freed: seq<Block>, ghost log: seq<Access>)
    requires IsTree(values[..])
    modifies values
    ensures AllFreedOnce(old(values[..]), freed)
    ensures Frees(log) == freed && NoUseAfterFree(log)
    ensures forall i :: 0 <= i < |old(values[..])| ==> Use(Node(i)) in log
  {
    hide IsTree, Walking, Released, AllFreedOnce, OnPath, SameTree, HasData, NoUseAfterFree, Own, Frees;
    ghost var tree := values[..];
    NothingReleased(tree);
    ParentBefore(tree, 0);
    NotEmpty(tree);
    values[0] := values[0].(parent := NONE);
    assert values[..] == tree;
    freed := [];
    log := FirstUse();
    var value := 0;
    ghost var todo := set x | 0 < x < |tree| && tree[x].parent != NONE;
    while value != NONE
      invariant |tree| == values.Length && -1 <= value < |tree|
      invariant IsTree(tree) && Walking(tree, values[..], value, todo) && Released(tree, value, todo, freed)
      invariant Frees(log) == freed && NoUseAfterFree(log)
      invariant forall x :: Node(x) in freed ==> Use(Node(x)) in log
      decreases |todo|, value + 1
    {
      NotReleased(tree, value, todo, freed);
      LogOne(log, Use(Node(value)));
      log := log + [Use(Node(value))];
      var v := values[value];
      Alike(tree, values[..], value, todo);
      if IsContainer(v.kind) && v.length > 0 {
        LogOne(log, Use(Data(value)));
        log := log + [Use(Data(value))];
        ghost var c := Descend(tree, values[..], value, todo);
        DescendReleased(tree, value, c, todo, freed);
        ghost var now := values[..];
        values[value] := v.(length := v.length - 1);
        assert values[..] == now[value := v.(length := v.length - 1)];
        value := v.slots[v.length - 1];
        todo := todo - {c};
        continue;
      }
      Ascend(tree, values[..], value, todo);
      AscendReleased(tree, value, todo, freed);
      log := LogOwn(log, values[..], value);
      freed := freed + Own(values[..], value);
      OwnSame(tree, values[..], value);
      value := v.parent;
    }
    AllReleased(tree, values[..], todo, freed);
    AllNodes(tree, freed);
  }

  /** The parent of the root is written first. */
  lemma {:induction false} FirstUse() returns (log: seq<Access>)
    ensures log == [Use(Node(0))] && Frees(log) == [] && NoUseAfterFree(log)
  {
    log := [Use(Node(0))];
    assert log[..0] == [];
  }

  lemma {:induction false} OwnSame(tree: seq<Value>, now: seq<Value>, i: int)
    requires 0 <= i < |tree| == |now| && now[i].kind == tree[i].kind && now[i].slots == tree[i].slots
    ensures Own(now, i) == Own(tree, i)
    ensures forall x :: Node(x) in Own(tree, i) ==> x == i
  {
  }

  lemma {:induction false} AllNodes(tree: seq<Value>, freed: seq<Block>)
    requires AllFreedOnce(tree, freed)
    ensures forall i :: 0 <= i < |tree| ==> Node(i) in freed
  {
  }

  lemma {:induction false} NotEmpty(tree: seq<Value>)
    requires IsTree(tree)
    ensures |tree| > 0
  {
  }

  lemma {:induction false} Alike(tree: seq<Value>, now: seq<Value>, cur: int, todo: set<int>)
    requires Walking(tree, now, cur, todo) && 0 <= cur
    ensures |now| == |tree| && now[cur].kind == tree[cur].kind && now[cur].slots == tree[cur].slots
    ensures now[cur].parent == tree[cur].parent
  {
  }
}

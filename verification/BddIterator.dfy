/**
 The iterator over the assignments of a BDD: an explicit stack of the nonterminals above the current
 terminal, and an assignment vector updated in place.
 */
module BddIterator {
  import opened DecisionTree
  import opened NodeGraph
  import opened CacheState
  import opened NodeCache
  import opened Paths
  import opened Assignments

  /** A nonterminal on the way to the current terminal, and the branch taken there. */
  datatype Frame = Frame(tree: Tree, bit: bool)

  function Child(f: Frame): Tree
    requires f.tree.Branch?
  {
    if f.bit then f.tree.high else f.tree.low
  }

  /** The frames lead from root to end. */
  ghost predicate Along(root: Tree, frames: seq<Frame>, end: Tree) {
    if frames == [] then end == root
    else
      var top := frames[|frames| - 1];
      top.tree.Branch? && end == Child(top) && Along(root, frames[..|frames| - 1], top.tree)
  }

  /** The outcomes on the frames. */
  ghost function Pre(frames: seq<Frame>): map<nat, bool> {
    if frames == [] then map[]
    else
      var top := frames[|frames| - 1];
      if top.tree.Branch? then Pre(frames[..|frames| - 1])[top.tree.variable := top.bit] else map[]
  }

  /** The paths after the current one: the high branches not yet taken, from the top of the stack down. */
  ghost function After(frames: seq<Frame>): seq<Path> {
    if frames == [] then []
    else
      var n := |frames| - 1;
      var t := frames[n].tree;
      (if frames[n].bit || t.Leaf? then [] else PathsFrom(t.high, Pre(frames[..n])[t.variable := true]))
      + After(frames[..n])
  }

  /** Frames mention variables in increasing order, all below what is tested next. */
  lemma {:induction false} AlongOrdered(root: Tree, frames: seq<Frame>, end: Tree)
    requires Ordered(root) && Along(root, frames, end)
    ensures Ordered(end)
    ensures forall v :: v in Pre(frames) ==> RootAtLeast(end, v + 1)
  {
    if frames != [] {
      AlongOrdered(root, frames[..|frames| - 1], frames[|frames| - 1].tree);
    }
  }

  /** The stack holds the nodes of the frames. */
  ghost predicate Stacked(g: Graph, stack: seq<NodeId>, frames: seq<Frame>)
    requires GraphOk(g)
  {
    && |stack| == |frames|
    && forall k :: 0 <= k < |stack| ==>
         stack[k].Nonterminal? && IdOk(g, stack[k]) && Unfold(g, stack[k]) == frames[k].tree
  }

  /** Going down one branch. */
  lemma {:induction false} PushFrame(
    g: Graph, stack: seq<NodeId>, frames: seq<Frame>, root: Tree, id: NodeId, bit: bool)
    requires GraphOk(g) && Stacked(g, stack, frames) && id.Nonterminal? && IdOk(g, id)
    requires Along(root, frames, Unfold(g, id))
    ensures var k, frames' := g[id.index].key, frames + [Frame(Unfold(g, id), bit)];
            && IdOk(g, k.low) && IdOk(g, k.high) && Unfold(g, k.low) < Unfold(g, id)
            && Stacked(g, stack + [id], frames')
            && Along(root, frames', Unfold(g, if bit then k.high else k.low))
            && Pre(frames') == Pre(frames)[k.variable := bit]
            && After(frames')
               == (if bit then [] else PathsFrom(Unfold(g, k.high), Pre(frames)[k.variable := true])) + After(frames)
            && (bit || PathsFrom(Unfold(g, id), Pre(frames)) + After(frames)
                       == PathsFrom(Unfold(g, k.low), Pre(frames')) + After(frames'))
  {
    LiveKeyOk(g, id.index);
    var t := Unfold(g, id);
    var frames' := frames + [Frame(t, bit)];
    assert frames'[..|frames|] == frames;
    assert t == Branch(t.variable, Unfold(g, g[id.index].key.low), Unfold(g, g[id.index].key.high));
    hide GraphOk, Unfold;
    assert After(frames') == (if bit then [] else PathsFrom(t.high, Pre(frames)[t.variable := true])) + After(frames);
    assert PathsFrom(t, Pre(frames)) == PathsFrom(t.low, Pre(frames)[t.variable := false])
                                        + PathsFrom(t.high, Pre(frames)[t.variable := true]);
    hide After, PathsFrom;
  }

  /** What is known of the top of the stack, and what is left when it is popped. */
  lemma {:induction false} TopFrame(g: Graph, stack: seq<NodeId>, frames: seq<Frame>, root: Tree, end: Tree)
    requires GraphOk(g) && Stacked(g, stack, frames) && Along(root, frames, end) && Ordered(root) && stack != []
    ensures var n := |stack| - 1;
            var id, top, below := stack[n], frames[n], frames[..n];
            && id.Nonterminal? && IdOk(g, id) && Unfold(g, id) == top.tree
            && Stacked(g, stack[..n], below) && Along(root, below, top.tree)
            && var k := g[id.index].key;
               && IdOk(g, k.low) && IdOk(g, k.high)
               && k.variable in Pre(frames) && Pre(frames)[k.variable] == top.bit
               && Pre(below) == Pre(frames) - {k.variable}
               && Pre(below)[k.variable := true] == Pre(frames)[k.variable := true]
               && After(frames)
                  == (if top.bit
                      then [] else PathsFrom(Unfold(g, k.high), Pre(below)[k.variable := true])) + After(below)
  {
    var n := |stack| - 1;
    LiveKeyOk(g, stack[n].index);
    AlongOrdered(root, frames[..n], frames[n].tree);
  }

  lemma {:induction false} TerminalPath(g: Graph, id: NodeId, pre: map<nat, bool>)
    requires GraphOk(g) && id.Terminal?
    ensures Unfold(g, id) == Leaf(id.value)
    ensures PathsFrom(Leaf(id.value), pre) == [Path(pre, id.value)]
  {
  }

  class Iterator {
    var finished: bool
    const cache: Cache
    var stack: seq<NodeId>
    const assignment: Assignment
    var value: nat

    ghost const root: Tree
    ghost var frames: seq<Frame>

    /** The stack holds the nodes of the frames. */
    ghost predicate OnStack()
      reads this, cache
    {
      && GraphOk(cache.graph) && Valid(cache.S())
      && Ordered(root)
      && |stack| == |frames| && Stacked(cache.graph, stack, frames)
    }

    /** Besides, the assignment holds the outcomes of the frames. */
    ghost predicate OnPath()
      reads this, cache, assignment
    {
      OnStack() && Fixed(assignment.values) == Pre(frames)
    }

    /** The stack leads to the current terminal, or everything is done. */
    ghost predicate Placed()
      reads this, cache
    {
      && OnStack()
      && (!finished ==> Along(root, frames, Leaf(value)))
      && (finished ==> frames == [])
    }

    ghost predicate Ok()
      reads this, cache, assignment
    {
      Placed() && Fixed(assignment.values) == Pre(frames)
    }

    /** The paths still to be yielded, the current one first. */
    ghost function Remaining(): seq<Path>
      reads this
    {
      if finished then [] else [Path(Pre(frames), value)] + After(frames)
    }

    /** Pushes node and traces low edges down to a terminal. */
    method AddNode(node: NodeId)
      requires OnPath() && IdOk(cache.graph, node)
      requires Along(root, frames, Unfold(cache.graph, node)) && !finished
      modifies this`stack, this`value, this`frames, assignment
      ensures Ok() && !finished
      ensures Remaining() == PathsFrom(Unfold(cache.graph, node), old(Pre(frames))) + old(After(frames))
    {
      hide Valid, GraphOk, Unfold, Along, Pre, After, PathsFrom, Stacked, Fixed, Ordered;
      var id := node;
      ghost var g := cache.graph;
      ghost var rest := PathsFrom(Unfold(g, node), Pre(frames)) + After(frames);
      while id.Nonterminal?
        invariant OnPath() && IdOk(g, id) && Along(root, frames, Unfold(g, id))
        invariant rest == PathsFrom(Unfold(g, id), Pre(frames)) + After(frames)
        decreases Unfold(g, id)
      {
        SlotContents(cache.S(), id.index);
        var n := cache.nodes[id.index];
        PushFrame(g, stack, frames, root, id, false);
        stack, frames := stack + [id], frames + [Frame(Unfold(g, id), false)];
        assignment.Set(n.variable, False);
        id := n.low;
      }
      value := id.value;
      TerminalPath(g, id, Pre(frames));
    }

    constructor (cache: Cache, id: NodeId)
      requires Valid(cache.S()) && IdOk(cache.graph, id)
      ensures Ok() && this.cache == cache && root == cache.Meaning(id) && fresh(assignment)
      ensures Remaining() == AllPaths(root)
    {
      finished, this.cache, stack, value := false, cache, [], 0;
      assignment := new Assignment();
      root, frames := Unfold(cache.graph, id), [];
      new;
      AddNode(id);
    }

    /** The branch taken at the top of the stack. */
    method TopBranch(ghost end: Tree) returns (current: Tribool)
      requires OnPath() && Along(root, frames, end) && stack != []
      ensures current == Tri(frames[|frames| - 1].bit)
    {
      hide Valid, GraphOk, Unfold, Along, Pre, After, PathsFrom, Stacked, Fixed, Ordered;
      TopFrame(cache.graph, stack, frames, root, end);
      var lastId := stack[|stack| - 1];
      SlotContents(cache.S(), lastId.index);
      current := assignment.Get(cache.nodes[lastId.index].variable);
    }

    /** Both branches of the top node are done: its variable becomes indeterminate again. */
    method Pop(ghost end: Tree) returns (ghost end': Tree)
      requires OnPath() && Along(root, frames, end) && stack != [] && frames[|frames| - 1].bit
      modifies this`stack, this`frames, assignment
      ensures OnPath() && Along(root, frames, end') && After(frames) == old(After(frames))
      ensures |stack| == old(|stack|) - 1
    {
      hide Valid, GraphOk, Unfold, Along, Pre, After, PathsFrom, Stacked, Fixed, Ordered;
      TopFrame(cache.graph, stack, frames, root, end);
      var lastId := stack[|stack| - 1];
      SlotContents(cache.S(), lastId.index);
      stack := stack[..|stack| - 1];
      assignment.Set(cache.nodes[lastId.index].variable, Either);
      frames, end' := frames[..|frames| - 1], frames[|frames| - 1].tree;
    }

    /** The low branch of the top node is done: the high branch is next. */
    method TakeHigh(ghost end: Tree)
      requires OnPath() && Along(root, frames, end) && stack != [] && !frames[|frames| - 1].bit && !finished
      modifies this`stack, this`value, this`frames, assignment
      ensures Ok() && !finished && Remaining() == old(After(frames))
    {
      hide Valid, GraphOk, Unfold, Along, Pre, After, PathsFrom, Stacked, Fixed, Ordered;
      ghost var g := cache.graph;
      TopFrame(g, stack, frames, root, end);
      ghost var n := |stack| - 1;
      var lastId := stack[|stack| - 1];
      SlotContents(cache.S(), lastId.index);
      var last := cache.nodes[lastId.index];
      PushFrame(g, stack[..n], frames[..n], root, lastId, true);
      assert stack == stack[..n] + [lastId];
      ghost var frames' := frames[..n] + [Frame(frames[n].tree, true)];
      assert Stacked(g, stack, frames') && Along(root, frames', Unfold(g, last.high));
      assignment.Set(last.variable, True);
      frames := frames';
      AddNode(last.high);
    }

    /** Moves on to the next path: pops finished nodes, then takes the high branch of the first other one. */
    method Advance()
      requires Ok()
      modifies this`finished, this`stack, this`value, this`frames, assignment
      ensures Ok()
      ensures Remaining() == if old(finished) then [] else old(Remaining())[1..]
    {
      if finished {
        return;
      }
      hide Valid, GraphOk, Unfold, Along, Pre, PathsFrom, Stacked, Fixed, Ordered;
      Backtrack();
    }

    /** The loop of Advance. */
    method Backtrack()
      requires Ok() && !finished
      modifies this`finished, this`stack, this`value, this`frames, assignment
      ensures Ok() && Remaining() == old(After(frames))
    {
      ghost var rest, end := After(frames), Leaf(value);
      hide Valid, GraphOk, Unfold, Along, Pre, After, PathsFrom, Stacked, Fixed, Ordered;
      while |stack| > 0
        invariant OnPath() && !finished && Along(root, frames, end) && rest == After(frames)
        decreases |stack|
      {
        var current := TopBranch(end);
        if current == True {
          end := Pop(end);
        } else {
          TakeHigh(end);
          return;
        }
      }
      NothingAfter(frames);
      finished := true;
    }
  }

  lemma {:induction false} NothingAfter(frames: seq<Frame>)
    requires |frames| == 0
    ensures After(frames) == []
  {
  }
}

/** The two explicit-stack iterators of the set. */
module SetIterators {
  import opened Words
  import opened RedBlack
  import opened SetNodes
  import opened ObjectSet
  import RedBlackInsert

  function Values<V>(entries: seq<(Key, V)>): (r: seq<V>)
    ensures |r| == |entries|
  {
    seq(|entries|, i requires 0 <= i < |entries| => entries[i].1)
  }

  /** A frame of the traversal stack; the top is the last one. */
  datatype Frame<V> = Frame(node: SetNode<V>, visited: bool)

  /** A frame as a value: the subtree of its node, and the mark. */
  datatype Stage<V> = Stage(tree: Tree<V>, visited: bool)

  /** What one frame still has to yield: its node, if that was not visited, and then its right subtree. */
  function Own<V>(f: Stage<V>): seq<(Key, V)> {
    if f.visited || f.tree.Leaf? then [] else [(f.tree.key, f.tree.value)] + InOrder(f.tree.right)
  }

  /** What the traversal still has to yield, from the top of the stack. */
  function Pending<V>(stages: seq<Stage<V>>): seq<(Key, V)> {
    if stages == [] then [] else Own(stages[|stages| - 1]) + Pending(stages[..|stages| - 1])
  }

  lemma PendingPush<V>(stages: seq<Stage<V>>, f: Stage<V>)
    ensures Pending(stages + [f]) == Own(f) + Pending(stages)
  {
    assert (stages + [f])[..|stages|] == stages;
  }

  /** Going left past a node moves it from what is to be pushed to what was pushed. */
  lemma PendingDescend<V>(stages: seq<Stage<V>>, t: Tree<V>)
    requires t.Node?
    ensures InOrder(t.left) + Pending(stages + [Stage(t, false)]) == InOrder(t) + Pending(stages)
  {
    PendingPush(stages, Stage(t, false));
  }

  /** Visiting the top frame yields its node and leaves its right subtree to be pushed. */
  lemma PendingVisit<V>(rest: seq<Stage<V>>, t: Tree<V>)
    requires t.Node?
    ensures Pending(rest + [Stage(t, false)]) ==
      [(t.key, t.value)] + (InOrder(t.right) + Pending(rest + [Stage(t, true)]))
  {
    PendingPush(rest, Stage(t, false));
    PendingPush(rest, Stage(t, true));
  }

  class InorderIterator<V> {
    var stack: seq<Frame<V>>
    ghost var stages: seq<Stage<V>>
    ghost const nodes: set<SetNode<V>>
    /** The entries still to come. */
    ghost var pending: seq<(Key, V)>

    ghost predicate Staged(frames: seq<Frame<V>>, stages: seq<Stage<V>>)
      reads nodes
    {
      && |frames| == |stages|
      && forall i :: 0 <= i < |frames| ==>
        var n := frames[i].node;
        n in nodes && n.repr <= nodes && n.Valid() && stages[i] == Stage(n.tree, frames[i].visited)
    }

    /** Between two calls the top frame waits to be visited. */
    ghost predicate Valid()
      reads this, nodes
    {
      Staged(stack, stages) && (stack != [] ==> !stack[|stack| - 1].visited) && pending == Pending(stages)
    }

    lemma StagedPush(frames: seq<Frame<V>>, stages: seq<Stage<V>>, f: Frame<V>)
      requires Staged(frames, stages) && f.node in nodes && f.node.repr <= nodes && f.node.Valid()
      ensures Staged(frames + [f], stages + [Stage(f.node.tree, f.visited)])
    {
    }

    constructor (root: SetNode?<V>)
      requires ValidOrNull(root)
      ensures Valid() && pending == InOrder(TreeOf(root)) && nodes == ReprOf(root)
    {
      nodes := ReprOf(root);
      stack, stages := [], [];
      new;
      stack, stages := PushLeftmost(root, [], []);
      pending := Pending(stages);
    }

    /** Pushes frames down to the leftmost node of a subtree. */
    method PushLeftmost(from: SetNode?<V>, frames: seq<Frame<V>>, ghost before: seq<Stage<V>>)
      returns (r: seq<Frame<V>>, ghost after: seq<Stage<V>>)
      requires Staged(frames, before) && ValidOrNull(from) && ReprOf(from) <= nodes
      ensures Staged(r, after) && Pending(after) == InOrder(TreeOf(from)) + Pending(before)
      ensures if from == null then r == frames else r != [] && !r[|r| - 1].visited
    {
      hide Pending, InorderIterator.Staged;
      var node := from;
      r, after := frames, before;
      ghost var total := InOrder(TreeOf(from)) + Pending(before);
      while node != null
        invariant ValidOrNull(node) && ReprOf(node) <= nodes && Staged(r, after)
        invariant InOrder(TreeOf(node)) + Pending(after) == total
        invariant if from == null then node == null && r == frames else node == from || (r != [] && !r[|r| - 1].visited)
        decreases TreeOf(node)
      {
        ChildTree(node, Left);
        PendingDescend(after, node.tree);
        StagedPush(r, after, Frame(node, false));
        r, after := r + [Frame(node, false)], after + [Stage(node.tree, false)];
        node := node.left;
      }
    }

    /** Pops the frames that were visited. */
    method PopVisited(frames: seq<Frame<V>>, ghost before: seq<Stage<V>>)
      returns (r: seq<Frame<V>>, ghost after: seq<Stage<V>>)
      requires Staged(frames, before)
      ensures Staged(r, after) && Pending(after) == Pending(before)
      ensures r != [] ==> !r[|r| - 1].visited
    {
      r, after := frames, before;
      while r != [] && r[|r| - 1].visited
        invariant Staged(r, after) && Pending(after) == Pending(before)
      {
        assert Own(after[|after| - 1]) == [];
        r, after := r[..|r| - 1], after[..|after| - 1];
      }
    }

    lemma TopIsStaged()
      requires Valid() && stack != []
      ensures |stages| == |stack| && pending == Pending(stages)
      ensures var last := |stack| - 1; var node := stack[last].node;
        && Staged(stack[..last], stages[..last]) && stages == stages[..last] + [Stage(node.tree, false)]
        && node in nodes && node.repr <= nodes && node.Valid()
    {
    }

    /** Marks the top frame as visited. */
    method MarkTop() returns (node: SetNode<V>, frames: seq<Frame<V>>, ghost after: seq<Stage<V>>)
      requires Valid() && stack != []
      ensures node.Valid() && node.repr <= nodes && node.tree.Node? && node.tree.value == node.o
      ensures Staged(frames, after)
      ensures pending == [(node.key, node.o)] + (InOrder(node.tree.right) + Pending(after))
    {
      hide Pending, InorderIterator.Staged, InorderIterator.Valid, InOrder;
      TopIsStaged();
      node := stack[|stack| - 1].node;
      frames := stack[..|stack| - 1] + [Frame(node, true)];
      ghost var rest := stages[..|stages| - 1];
      after := rest + [Stage(node.tree, true)];
      ChildTree(node, Right);
      PendingVisit(rest, node.tree);
      StagedPush(stack[..|stack| - 1], rest, Frame(node, true));
    }

    /** The frames after the top one was visited: its right subtree pushed, visited frames popped. */
    method Advance() returns (node: SetNode<V>, frames: seq<Frame<V>>, ghost after: seq<Stage<V>>)
      requires Valid() && stack != []
      ensures Staged(frames, after) && (frames != [] ==> !frames[|frames| - 1].visited)
      ensures pending == [(node.key, node.o)] + Pending(after)
    {
      node, frames, after := MarkTop();
      ChildTree(node, Right);
      frames, after := PushLeftmost(node.right, frames, after);
      frames, after := PopVisited(frames, after);
    }

    /** Yields the object of the first pending entry, whose key is `key`, and leaves the others pending. */
    method Next() returns (result: Option<V>, ghost key: Key)
      requires Valid()
      modifies this
      ensures Valid()
      ensures result == None ==> old(pending) == [] == pending
      ensures result.Some? ==> old(pending) == [(key, result.value)] + pending
    {
      if stack == [] {
        return None, 0;
      }
      var node, frames;
      ghost var after;
      node, frames, after := Advance();
      result, key := Some(node.o), node.key;
      stack, stages, pending := frames, after, Pending(after);
    }
  }

  lemma ValuesGrow<V>(entries: seq<(Key, V)>, e: (Key, V))
    ensures Values(entries + [e]) == Values(entries) + [e.1]
  {
  }

  lemma Regroup<T>(done: seq<T>, e: T, rest: seq<T>)
    ensures done + ([e] + rest) == (done + [e]) + rest
  {
  }

  /** All objects of the set, each once, in strictly ascending order of their keys. */
  method InOrderObjects<V(==)>(s: ObjSet<V>) returns (all: seq<V>)
    requires s.Valid()
    ensures all == Values(InOrder(s.Tree())) && RedBlackInsert.Ascending(InOrder(s.Tree()))
  {
    RedBlackInsert.OrderedIsAscending(s.Tree());
    all := Traverse(s.root);
  }

  method Traverse<V>(root: SetNode?<V>) returns (all: seq<V>)
    requires ValidOrNull(root)
    ensures all == Values(InOrder(TreeOf(root)))
  {
    ghost var entries := InOrder(TreeOf(root));
    var it := new InorderIterator(root);
    ghost var done: seq<(Key, V)>, todo := [], it.pending;
    all := [];
    ghost var key;
    var next;
    next, key := it.Next();
    while next.Some?
      invariant it.Valid() && fresh(it) && all == Values(done)
      invariant entries == done + todo
      invariant todo == if next.Some? then [(key, next.value)] + it.pending else []
      decreases |todo|
    {
      ValuesGrow(done, (key, next.value));
      Regroup(done, (key, next.value), it.pending);
      done, todo := done + [(key, next.value)], it.pending;
      all := all + [next.value];
      next, key := it.Next();
    }
    assert entries == done;
  }

  // ----- The destroying iterator

  function PreOrder<V>(t: Tree<V>): seq<(Key, V)> {
    match t
    case Leaf => []
    case Node(_, l, k, v, r) => [(k, v)] + PreOrder(l) + PreOrder(r)
  }

  lemma {:induction false} PreOrderIsAPermutation<V>(t: Tree<V>)
    ensures multiset(PreOrder(t)) == multiset(InOrder(t))
  {
    if t.Node? {
      PreOrderIsAPermutation(t.left);
      PreOrderIsAPermutation(t.right);
    }
  }

  function Doomed<V>(trees: seq<Tree<V>>): seq<(Key, V)> {
    if trees == [] then [] else PreOrder(trees[|trees| - 1]) + Doomed(trees[..|trees| - 1])
  }

  lemma DoomedPush<V>(trees: seq<Tree<V>>, t: Tree<V>)
    ensures Doomed(trees + [t]) == PreOrder(t) + Doomed(trees)
  {
    assert (trees + [t])[..|trees|] == trees;
  }

  lemma DoomedVisit<V>(trees: seq<Tree<V>>)
    requires trees != [] && trees[|trees| - 1].Node?
    ensures var t, rest := trees[|trees| - 1], trees[..|trees| - 1];
      Doomed(trees) == [(t.key, t.value)] + (PreOrder(t.left) + (PreOrder(t.right) + Doomed(rest)))
  {
  }

  class DestroyingIterator<V> {
    var stack: seq<SetNode<V>>
    ghost var trees: seq<Tree<V>>
    ghost const nodes: set<SetNode<V>>

    ghost predicate Valid()
      reads this, nodes
    {
      && |stack| == |trees|
      && forall i :: 0 <= i < |stack| ==>
        stack[i] in nodes && stack[i].repr <= nodes && stack[i].Valid() && trees[i] == stack[i].tree
    }

    constructor (root: SetNode?<V>)
      requires ValidOrNull(root)
      ensures Valid() && Doomed(trees) == PreOrder(TreeOf(root)) && nodes == ReprOf(root)
    {
      nodes := ReprOf(root);
      stack, trees := [], [];
      new;
      Push(root);
    }

    method Push(n: SetNode?<V>)
      requires Valid() && ValidOrNull(n) && ReprOf(n) <= nodes
      modifies this
      ensures Valid() && Doomed(trees) == PreOrder(TreeOf(n)) + Doomed(old(trees))
    {
      if n != null {
        DoomedPush(trees, n.tree);
        stack, trees := stack + [n], trees + [n.tree];
      }
    }

    /** Yields the root of a subtree before its subtrees; its children are read before it is freed. */
    method Next() returns (result: Option<V>)
      requires Valid()
      modifies this
      ensures Valid()
      ensures old(Doomed(trees)) == [] ==> result == None && Doomed(trees) == []
      ensures old(Doomed(trees)) != [] ==>
        result == Some(old(Doomed(trees))[0].1) && Doomed(trees) == old(Doomed(trees))[1..]
    {
      if stack == [] {
        return None;
      }
      var node := stack[|stack| - 1];
      ChildTree(node, Left);
      ChildTree(node, Right);
      DoomedVisit(trees);
      result := Some(node.o);
      stack, trees := stack[..|stack| - 1], trees[..|trees| - 1];
      Push(node.right);
      Push(node.left);
    }
  }
}

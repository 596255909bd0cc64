/** The set of obl/set.c on linked nodes that are rewritten in place. Each method is proved against the
    function of RedBlack.dfy that it computes; what those functions promise is proved there. */
module SetNodes {
  import opened Words
  import opened RedBlack

  class SetNode<V> {
    var o: V
    var key: Key
    var color: Color
    var left: SetNode?<V>
    var right: SetNode?<V>

    /** The subtree this node stands for, and the nodes it is made of. */
    ghost var tree: Tree<V>
    ghost var repr: set<SetNode<V>>

    ghost predicate Valid()
      reads this, repr
      decreases repr
      ensures Valid() ==> this in repr
    {
      && this in repr
      && (left != null ==> left in repr && left.repr <= repr && this !in left.repr && left.Valid())
      && (right != null ==> right in repr && right.repr <= repr && this !in right.repr && right.Valid())
      && (left != null && right != null ==> left.repr !! right.repr)
      && tree == Node(color, TreeOf(left), key, o, TreeOf(right))
    }

    constructor (key: Key, o: V)
      ensures Valid() && repr == {this} && tree == Node(Red, Leaf, key, o, Leaf)
      ensures this.key == key && this.o == o
    {
      this.key, this.o, color := key, o, Red;
      left, right := null, null;
      tree, repr := Node(Red, Leaf, key, o, Leaf), {this};
    }

    function Child(d: Dir): SetNode?<V>
      reads this
    {
      match d
      case Left => left
      case Right => right
    }

    /** Stores a child and a colour, and lets the ghost fields follow. */
    method Attach(d: Dir, c: SetNode?<V>, color: Color)
      requires ValidOrNull(c) && ValidOrNull(Child(d.Opposite()))
      requires this !in ReprOf(c) && this !in ReprOf(Child(d.Opposite()))
      requires ReprOf(c) !! ReprOf(Child(d.Opposite()))
      modifies this`left, this`right, this`color, this`tree, this`repr
      ensures Valid() && this.color == color
      ensures left == (if d == Left then c else old(left))
      ensures right == (if d == Right then c else old(right))
      ensures repr == {this} + ReprOf(left) + ReprOf(right)
      ensures tree == Node(color, TreeOf(left), key, o, TreeOf(right))
    {
      match d {
        case Left => left := c;
        case Right => right := c;
      }
      this.color := color;
      repr := {this} + ReprOf(left) + ReprOf(right);
      tree := Node(color, TreeOf(left), key, o, TreeOf(right));
    }

    /** Colours a node of a sound subtree. */
    method SetColor(color: Color)
      requires Valid()
      modifies this`color, this`tree
      ensures Valid() && this.color == color && tree == Paint(old(tree), color)
    {
      this.color := color;
      tree := Paint(tree, color);
    }

    /** Makes the ghost tree follow the fields after the children changed below. */
    ghost method Refresh()
      requires this in repr && ReprOf(left) + ReprOf(right) <= repr && this !in ReprOf(left) + ReprOf(right)
      requires ReprOf(left) !! ReprOf(right) && ValidOrNull(left) && ValidOrNull(right)
      modifies this`tree
      ensures Valid() && tree == Node(color, TreeOf(left), key, o, TreeOf(right))
    {
      tree := Node(color, TreeOf(left), key, o, TreeOf(right));
    }
  }

  ghost function TreeOf<V>(n: SetNode?<V>): Tree<V>
    reads n
  {
    if n == null then Leaf else n.tree
  }

  ghost function ReprOf<V>(n: SetNode?<V>): set<SetNode<V>>
    reads n
  {
    if n == null then {} else n.repr
  }

  ghost predicate ValidOrNull<V>(n: SetNode?<V>)
    reads n, ReprOf(n)
  {
    n != null ==> n.Valid()
  }

  function IsRed<V>(n: SetNode?<V>): bool
    reads n
  {
    n != null && n.color == Red
  }

  /** A node's fields and its ghost tree say the same about a child. */
  lemma ChildTree<V>(n: SetNode<V>, d: Dir)
    requires n.Valid()
    ensures var c := n.Child(d);
      && n.tree.Node? && n.tree.color == n.color && n.tree.key == n.key && n.tree.value == n.o
      && n.tree.Child(d) == TreeOf(c) && ValidOrNull(c)
      && IsRed(c) == n.tree.Child(d).IsRed()
      && (c == null <==> n.tree.Child(d).Leaf?)
      && ReprOf(c) <= n.repr && n !in ReprOf(c) && ReprOf(c) !! ReprOf(n.Child(d.Opposite()))
  {
  }

  method RotateSingle<V>(n: SetNode<V>, d: Dir) returns (saved: SetNode<V>)
    requires n.Valid() && n.Child(d.Opposite()) != null
    modifies n, n.Child(d.Opposite())
    ensures saved == old(n.Child(d.Opposite())) && saved.Child(d) == n
    ensures saved.Valid() && saved.repr <= old(n.repr)
    ensures old(n.tree.Child(d.Opposite()).Node?) && saved.tree == RedBlack.RotateSingle(old(n.tree), d)
  {
    saved := n.Child(d.Opposite());
    assert saved.Valid();
    ghost var outer := saved.Child(d.Opposite());
    ghost var t, whole := n.tree, n.repr;
    n.Attach(d.Opposite(), saved.Child(d), Red);
    assert n.tree == Paint(WithChild(t, d.Opposite(), t.Child(d.Opposite()).Child(d)), Red);
    assert n.repr <= whole && saved !in n.repr && n.repr !! ReprOf(outer) && ValidOrNull(outer);
    saved.Attach(d, n, Black);
  }

  method RotateDouble<V>(n: SetNode<V>, d: Dir) returns (r: SetNode<V>)
    requires n.Valid() && n.Child(d.Opposite()) != null && n.Child(d.Opposite()).Child(d) != null
    modifies n, n.Child(d.Opposite()), n.Child(d.Opposite()).Child(d)
    ensures r == old(n.Child(d.Opposite()).Child(d)) && r.Child(d) == n
    ensures r.Valid() && r.repr <= old(n.repr)
    ensures old(n.tree.Child(d.Opposite()).Node? && n.tree.Child(d.Opposite()).Child(d).Node?)
    ensures r.tree == RedBlack.RotateDouble(old(n.tree), d)
  {
    var o := d.Opposite();
    var c := n.Child(o);
    assert c.Valid();
    ghost var t, kept := n.tree, n.Child(d);
    c := RotateSingle(c, o);
    assert ValidOrNull(kept) && n !in c.repr && c.repr !! ReprOf(kept);
    n.Attach(o, c, n.color);
    assert n.tree == WithChild(t, o, RedBlack.RotateSingle(t.Child(o), o));
    r := RotateSingle(n, d);
  }

  /** The object that gives way to `o` when it is inserted under `k`. */
  function Replaced<V(==)>(t: Tree<V>, k: Key, o: V): Option<V> {
    var present := Find(t, k);
    if present == Some(o) then None else present
  }

  lemma InsertStep<V>(t: Tree<V>, k: Key, o: V)
    ensures RedBlack.InsertR(t, k, o) ==
      if t.Leaf? then Node(Red, Leaf, k, o, Leaf)
      else if t.key == k then t.(value := o)
      else
        var d := if k > t.key then Right else Left;
        RedBlack.InsertRepair(WithChild(t, d, RedBlack.InsertR(t.Child(d), k, o)), d)
  {
  }

  /** The recursion of insertion. `freed` is the object that a replaced entry gives up. */
  method InsertR<V(==)>(n: SetNode?<V>, created: SetNode<V>) returns (r: SetNode<V>, freed: Option<V>)
    requires ValidOrNull(n) && created.Valid() && created !in ReprOf(n)
    requires created.repr == {created} && created.tree == Node(Red, Leaf, created.key, created.o, Leaf)
    modifies ReprOf(n), created
    ensures r.Valid() && r.repr <= old(ReprOf(n)) + {created}
    ensures r.tree == RedBlack.InsertR(old(TreeOf(n)), old(created.key), old(created.o))
    ensures freed == Replaced(old(TreeOf(n)), old(created.key), old(created.o))
    decreases TreeOf(n)
  {
    hide RedBlack.InsertRepair, RedBlack.InsertR;
    freed := None;
    ghost var whole := TreeOf(n);
    InsertStep(whole, created.key, created.o);
    if n == null {
      r := created;
    } else if created.key != n.key {
      var d := if created.key > n.key then Right else Left;
      ghost var k, o := created.key, created.o;
      ghost var t, kept := n.tree, n.Child(d.Opposite());
      ChildTree(n, d);
      ChildTree(n, d.Opposite());
      var c;
      c, freed := InsertR(n.Child(d), created);
      assert ValidOrNull(kept) && n !in c.repr && c.repr !! ReprOf(kept);
      n.Attach(d, c, n.color);
      assert n.tree == WithChild(t, d, RedBlack.InsertR(t.Child(d), k, o));
      r := InsertRepair(n, d);
    } else {
      if n.o != created.o {
        freed := Some(n.o);
      }
      n.o := created.o;
      n.Refresh();
      r := n;
    }
  }

  method InsertRepair<V>(n: SetNode<V>, d: Dir) returns (r: SetNode<V>)
    requires n.Valid()
    modifies n.repr
    ensures r.Valid() && r.repr <= old(n.repr)
    ensures r.tree == RedBlack.InsertRepair(old(n.tree), d)
  {
    r := n;
    var c := n.Child(d);
    ChildTree(n, d);
    ChildTree(n, d.Opposite());
    if IsRed(c) {
      ChildTree(c, d);
      ChildTree(c, d.Opposite());
      if IsRed(n.Child(d.Opposite())) {
        n.color := Red;
        n.left.SetColor(Black);
        n.right.SetColor(Black);
        n.Refresh();
      } else if IsRed(c.Child(d)) {
        r := RotateSingle(n, d.Opposite());
      } else if IsRed(c.Child(d.Opposite())) {
        r := RotateDouble(n, d.Opposite());
      }
    }
  }

  method PaintFamily<V>(q: SetNode<V>, color: Color)
    requires q.Valid() && q.left != null && q.right != null
    modifies q`color, q`tree, q.left`color, q.left`tree, q.right`color, q.right`tree
    ensures q.Valid()
    ensures var t := old(q.tree);
      t.Node? && q.tree == Node(color, Paint(t.left, Black), t.key, t.value, Paint(t.right, Black))
    ensures q.left.Valid() && q.right.Valid()
  {
    q.color := color;
    q.left.SetColor(Black);
    q.right.SetColor(Black);
    q.Refresh();
  }

  /** The rotations of removal that bring a red nephew up, with the colours set after them. */
  method RaiseNephew<V>(p: SetNode<V>, d: Dir, color: Color) returns (q: SetNode<V>)
    requires p.Valid() && HasRedNephew(p.tree, d)
    modifies p.repr
    ensures q.Valid() && q.repr <= old(p.repr) && q.Child(d) == p
    ensures q.tree == RedBlack.RaiseNephew(old(p.tree), d, color)
  {
    var s := p.Child(d.Opposite());
    ChildTree(p, d.Opposite());
    ChildTree(s, d);
    ChildTree(s, d.Opposite());
    if IsRed(s.Child(d.Opposite())) {
      q := RotateSingle(p, d);
      ChildTree(q, d.Opposite());
    } else {
      q := RotateDouble(p, d);
      ChildTree(q, d.Opposite());
    }
    PaintFamily(q, color);
  }

  /** The recolouring that passes a shortage on. */
  method Recolor<V>(p: SetNode<V>, d: Dir)
    requires p.Valid() && p.Child(d.Opposite()) != null
    modifies p`color, p`tree, p.Child(d.Opposite())`color, p.Child(d.Opposite())`tree
    ensures p.Valid() && old(p.tree.Node?)
    ensures var o := d.Opposite(); var t := old(p.tree);
      p.tree == Paint(WithChild(t, o, Paint(t.Child(o), Red)), Black)
  {
    ChildTree(p, d);
    ChildTree(p, d.Opposite());
    p.color := Black;
    p.Child(d.Opposite()).SetColor(Red);
    p.Refresh();
  }

  /** The second half of the repair, at the parent of the short subtree. */
  method RepairShort<V>(p: SetNode<V>, d: Dir, color: Color) returns (q: SetNode<V>, done: bool)
    requires p.Valid()
    modifies p.repr
    ensures q.Valid() && p.Valid() && q.repr <= old(p.repr) && p.repr <= old(p.repr)
    ensures old(p.tree.Node?) && (q.tree, done) == RedBlack.RepairShort(old(p.tree), d, color)
    ensures p.tree == if HasRedNephew(old(p.tree), d) then RedBlack.RepairShort(old(p.tree), d, color).0.Child(d) else q.tree
  {
    var s := p.Child(d.Opposite());
    q, done := p, false;
    ChildTree(p, d.Opposite());
    if s != null {
      ChildTree(s, Left);
      ChildTree(s, Right);
      if !IsRed(s.left) && !IsRed(s.right) {
        if IsRed(p) {
          done := true;
        }
        Recolor(p, d);
      } else {
        q := RaiseNephew(p, d, color);
        ChildTree(q, d);
        done := true;
      }
    }
  }

  /** After the red sibling `n` went up over `p`: the result of the repair at `p` is dropped, and `n` keeps the
      child it has. */
  method BalanceReduced<V>(n: SetNode<V>, p: SetNode<V>, d: Dir) returns (done: bool)
    requires n.Valid() && n.Child(d) == p
    modifies n.repr
    ensures n.Valid() && n.repr == old(n.repr) && old(n.tree.Node?) && old(n.tree.Child(d).Node?)
    ensures var (q, finished) := RedBlack.RepairShort(old(n.tree.Child(d)), d, old(n.tree.color));
      && done == finished
      && n.tree == WithChild(old(n.tree), d, if HasRedNephew(old(n.tree.Child(d)), d) then q.Child(d) else q)
  {
    ChildTree(n, d);
    ChildTree(n, d.Opposite());
    ghost var t, outer := n.tree, n.Child(d.Opposite());
    var q;
    q, done := RepairShort(p, d, n.color);
    assert ValidOrNull(outer) && TreeOf(outer) == t.Child(d.Opposite());
    n.Refresh();
  }

  /** The repair of removal, as written. */
  method RemoveBalance<V>(top: SetNode<V>, d: Dir) returns (n: SetNode<V>, done: bool)
    requires top.Valid()
    modifies top.repr
    ensures n.Valid() && n.repr <= old(top.repr)
    ensures old(top.tree.Node?) && (n.tree, done) == RedBlack.RemoveBalance(old(top.tree), d, false)
  {
    n := top;
    ChildTree(top, d.Opposite());
    if IsRed(n.Child(d.Opposite())) {
      n := RotateSingle(n, d);
      done := BalanceReduced(n, top, d);
    } else {
      n, done := RepairShort(top, d, n.color);
    }
  }

  /** The in-order predecessor below a node with a left child. */
  method FindHeir<V>(n: SetNode<V>) returns (heir: SetNode<V>)
    requires n.Valid() && n.left != null
    ensures n.tree.Node? && n.tree.left.Node?
    ensures heir.key == Heir(n.tree.left).key && heir.o == Heir(n.tree.left).value
  {
    heir := n.left;
    ChildTree(n, Left);
    while heir.right != null
      invariant heir.Valid() && heir.tree.Node? && Heir(heir.tree) == Heir(n.tree.left)
      decreases heir.tree
    {
      ChildTree(heir, Right);
      heir := heir.right;
    }
    ChildTree(heir, Right);
  }

  /** Takes the place of a node with at most one child. */
  method Unlink<V>(n: SetNode<V>) returns (saved: SetNode?<V>, done: bool)
    requires n.Valid() && (n.left == null || n.right == null)
    modifies n.repr
    ensures ValidOrNull(saved) && ReprOf(saved) <= old(n.repr)
    ensures (TreeOf(saved), done) == RedBlack.RemoveR(old(n.tree), old(n.key), false)
  {
    ChildTree(n, Left);
    ChildTree(n, Right);
    saved := if n.left == null then n.right else n.left;
    done := false;
    if n.color == Red {
      done := true;
    } else if IsRed(saved) {
      saved.SetColor(Black);
      done := true;
    }
  }

  /** Gives a node that holds the key its heir's data: until the heir is removed two nodes hold one key. */
  method TakeHeir<V>(n: SetNode<V>, key: Key) returns (target: Key)
    requires n.Valid() && n.tree.Node? && !RemovedHere(n.tree, key)
    modifies n`o, n`key, n`tree
    ensures n.Valid() && n.tree == Swapped(old(n.tree), key) && target == Target(old(n.tree), key)
  {
    target := key;
    if n.key == key {
      ChildTree(n, Left);
      var heir := FindHeir(n);
      n.o, n.key, target := heir.o, heir.key, heir.key;
      n.Refresh();
    }
  }

  /** Removes below a node and stores what comes back. */
  method RemoveBelow<V>(n: SetNode<V>, d: Dir, target: Key) returns (done: bool)
    requires n.Valid()
    modifies n.repr
    ensures n.Valid() && n.repr <= old(n.repr) && old(n.tree.Node?)
    ensures var (c, finished) := RedBlack.RemoveR(old(n.tree.Child(d)), target, false);
      n.tree == WithChild(old(n.tree), d, c) && done == finished
    decreases |InOrder(n.tree)|, 0
  {
    ChildTree(n, d);
    ChildTree(n, d.Opposite());
    ghost var t, other := n.tree, n.Child(d.Opposite());
    var c;
    c, done := RemoveR(n.Child(d), target);
    assert ValidOrNull(other) && TreeOf(other) == t.Child(d.Opposite());
    n.Attach(d, c, n.color);
  }

  /** The recursion of removal; `done` says that no black level is missing any more. */
  method RemoveR<V>(n: SetNode?<V>, key: Key) returns (r: SetNode?<V>, done: bool)
    requires ValidOrNull(n)
    modifies ReprOf(n)
    ensures ValidOrNull(r) && ReprOf(r) <= old(ReprOf(n))
    ensures (TreeOf(r), done) == RedBlack.RemoveR(old(TreeOf(n)), key, false)
    decreases |InOrder(TreeOf(n))|, 1
  {
    if n == null {
      r, done := n, true;
    } else if n.key == key && (n.left == null || n.right == null) {
      r, done := Unlink(n);
    } else {
      ChildTree(n, Left);
      ChildTree(n, Right);
      var target := TakeHeir(n, key);
      var d := if n.key < target then Right else Left;
      done := RemoveBelow(n, d, target);
      r := n;
      if !done {
        r, done := RemoveBalance(n, d);
      }
    }
  }

  /** The recursion of lookup. */
  method LookupR<V>(n: SetNode?<V>, key: Key) returns (found: SetNode?<V>)
    requires ValidOrNull(n)
    ensures (if found == null then None else Some(found.o)) == Find(TreeOf(n), key)
    ensures found != null ==> found.key == key
    decreases TreeOf(n)
  {
    if n == null || n.key == key {
      found := n;
    } else {
      found := LookupR(if key < n.key then n.left else n.right, key);
    }
  }
}

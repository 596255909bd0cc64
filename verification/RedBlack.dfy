/** The red-black set of obl/set.c as a value: the operations, step for step, on trees.
    The classes in SetNodes.dfy rewrite linked nodes in place and are proved against these functions. */
module RedBlack {
  import opened Words

  /** Keys are logical addresses. Below 2^32 the cast in the descent of removal changes nothing. */
  type Key = k: int | 0 <= k < 0x1_0000_0000

  datatype Color = Red | Black

  datatype Dir = Left | Right {
    function Opposite(): Dir {
      match this
      case Left => Right
      case Right => Left
    }
  }

  datatype Tree<+V> = Leaf | Node(color: Color, left: Tree<V>, key: Key, value: V, right: Tree<V>) {

    function Child(d: Dir): Tree<V>
      requires Node?
    {
      match d
      case Left => left
      case Right => right
    }

    predicate IsRed() {
      Node? && color == Red
    }

    predicate IsBlack() {
      !IsRed()
    }
  }

  function WithChild<V>(t: Tree<V>, d: Dir, c: Tree<V>): Tree<V>
    requires t.Node?
  {
    match d
    case Left => t.(left := c)
    case Right => t.(right := c)
  }

  function Paint<V>(t: Tree<V>, c: Color): Tree<V> {
    if t.Node? then t.(color := c) else t
  }

  // ----- Rotations

  /** The child opposite to `d` becomes the root, black; the old root goes down on side `d`, red. */
  function RotateSingle<V>(t: Tree<V>, d: Dir): Tree<V>
    requires t.Node? && t.Child(d.Opposite()).Node?
  {
    var saved := t.Child(d.Opposite());
    WithChild(Paint(saved, Black), d, Paint(WithChild(t, d.Opposite(), saved.Child(d)), Red))
  }

  function RotateDouble<V>(t: Tree<V>, d: Dir): Tree<V>
    requires t.Node? && t.Child(d.Opposite()).Node? && t.Child(d.Opposite()).Child(d).Node?
  {
    RotateSingle(WithChild(t, d.Opposite(), RotateSingle(t.Child(d.Opposite()), d.Opposite())), d)
  }

  // ----- Lookup

  function Find<V>(t: Tree<V>, k: Key): Option<V> {
    match t
    case Leaf => None
    case Node(_, l, key, v, r) =>
      if key == k then Some(v) else if k < key then Find(l, k) else Find(r, k)
  }

  // ----- Insertion

  /** What insertion does to a node after the subtree on side `d` came back. */
  function InsertRepair<V>(t: Tree<V>, d: Dir): Tree<V>
    requires t.Node?
  {
    var c := t.Child(d);
    if c.IsRed() then
      if t.Child(d.Opposite()).IsRed() then
        Node(Red, Paint(t.left, Black), t.key, t.value, Paint(t.right, Black))
      else if c.Child(d).IsRed() then RotateSingle(t, d.Opposite())
      else if c.Child(d.Opposite()).IsRed() then RotateDouble(t, d.Opposite())
      else t
    else t
  }

  function InsertR<V>(t: Tree<V>, k: Key, v: V): (r: Tree<V>)
    ensures r.Node?
  {
    match t
    case Leaf => Node(Red, Leaf, k, v, Leaf)
    case Node(_, _, key, _, _) =>
      if key == k then t.(value := v)
      else
        var d := if k > key then Right else Left;
        InsertRepair(WithChild(t, d, InsertR(t.Child(d), k, v)), d)
  }

  function Insert<V>(t: Tree<V>, k: Key, v: V): Tree<V> {
    Paint(InsertR(t, k, v), Black)
  }

  // ----- Removal

  /** The node that holds the greatest key: the in-order predecessor of the root when asked of its left subtree. */
  function Heir<V>(t: Tree<V>): (h: Tree<V>)
    requires t.Node?
    ensures h.Node? && h.right.Leaf?
  {
    if t.right.Leaf? then t else Heir(t.right)
  }

  /** The sibling of the subtree on side `d` has a red child. */
  predicate HasRedNephew<V>(p: Tree<V>, d: Dir)
    requires p.Node?
  {
    var s := p.Child(d.Opposite());
    s.Node? && (s.left.IsRed() || s.right.IsRed())
  }

  /** The two rotations that bring a red nephew up, with the colours set after them. */
  function RaiseNephew<V>(p: Tree<V>, d: Dir, c: Color): (q: Tree<V>)
    requires p.Node? && HasRedNephew(p, d)
    ensures q.Node? && q.Child(d).Node?
  {
    var s := p.Child(d.Opposite());
    var q := if s.Child(d.Opposite()).IsRed() then RotateSingle(p, d) else RotateDouble(p, d);
    Node(c, Paint(q.left, Black), q.key, q.value, Paint(q.right, Black))
  }

  /** The repair at the parent of a subtree that is one black level short. */
  function RepairShort<V>(p: Tree<V>, d: Dir, c: Color): (r: (Tree<V>, bool))
    requires p.Node?
    ensures r.0.Node?
  {
    var s := p.Child(d.Opposite());
    if s.Leaf? then (p, false)
    else if HasRedNephew(p, d) then (RaiseNephew(p, d, c), true)
    else (Paint(WithChild(p, d.Opposite(), Paint(s, Red)), Black), p.IsRed())
  }

  /** Repairs a node whose subtree on side `d` is one black level short. `relink` false is the code:
      after a red sibling was rotated up, a rotated subtree is not stored back below it, so the node
      keeps its old child, which now is only the `d` side of that subtree. `relink` true stores it,
      in the colour the child had. */
  function RemoveBalance<V>(t: Tree<V>, d: Dir, relink: bool): (Tree<V>, bool)
    requires t.Node?
  {
    if t.Child(d.Opposite()).IsRed() then
      var n := RotateSingle(t, d);
      var p := n.Child(d);
      var (q, done) := RepairShort(p, d, if relink then p.color else n.color);
      (WithChild(n, d, if !relink && HasRedNephew(p, d) then q.Child(d) else q), done)
    else RepairShort(t, d, t.color)
  }

  /** Whether the node itself is unlinked: it holds the key and has at most one child. */
  predicate RemovedHere<V>(t: Tree<V>, k: Key)
    requires t.Node?
  {
    t.key == k && (t.left.Leaf? || t.right.Leaf?)
  }

  /** The node as it is when removal descends: a node that holds the key has taken its heir's data, so that
      for a while two nodes hold one key. */
  function Swapped<V>(t: Tree<V>, k: Key): (r: Tree<V>)
    requires t.Node? && !RemovedHere(t, k)
    ensures r.Node? && r.left == t.left && r.right == t.right && r.color == t.color
  {
    if t.key == k then t.(key := Heir(t.left).key, value := Heir(t.left).value) else t
  }

  /** The key looked for below the node. */
  function Target<V>(t: Tree<V>, k: Key): Key
    requires t.Node? && !RemovedHere(t, k)
  {
    if t.key == k then Heir(t.left).key else k
  }

  function Descent<V>(t: Tree<V>, k: Key): Dir
    requires t.Node? && !RemovedHere(t, k)
  {
    if Swapped(t, k).key < Target(t, k) then Right else Left
  }

  /** Removal below a node; the flag says that no black level is missing any more. */
  function RemoveR<V>(t: Tree<V>, k: Key, relink: bool): (Tree<V>, bool) {
    if t.Leaf? then (t, true)
    else if RemovedHere(t, k) then
      var saved := if t.left.Leaf? then t.right else t.left;
      if t.IsRed() then (saved, true)
      else if saved.IsRed() then (Paint(saved, Black), true)
      else (saved, false)
    else
      var d := Descent(t, k);
      var (c, done) := RemoveR(t.Child(d), Target(t, k), relink);
      var n := WithChild(Swapped(t, k), d, c);
      if done then (n, true) else RemoveBalance(n, d, relink)
  }

  /** Removal as the code performs it. */
  function Remove<V>(t: Tree<V>, k: Key): Tree<V> {
    RemoveR(t, k, false).0
  }

  /** Removal with the rotated subtree stored back. */
  function RemoveRelinked<V>(t: Tree<V>, k: Key): Tree<V> {
    RemoveR(t, k, true).0
  }

  // ----- Contents and invariants

  function Keys<V>(t: Tree<V>): set<Key> {
    match t
    case Leaf => {}
    case Node(_, l, k, _, r) => Keys(l) + {k} + Keys(r)
  }

  /** The key-to-object map a tree stands for. */
  function Contents<V>(t: Tree<V>): (m: map<Key, V>)
    ensures m.Keys == Keys(t)
  {
    match t
    case Leaf => map[]
    case Node(_, l, k, v, r) => (Contents(l) + Contents(r))[k := v]
  }

  /** The entries in the order a traversal meets them. */
  function InOrder<V>(t: Tree<V>): seq<(Key, V)> {
    match t
    case Leaf => []
    case Node(_, l, k, v, r) => InOrder(l) + [(k, v)] + InOrder(r)
  }

  /** Strict key order over whole subtrees. */
  ghost predicate Ordered<V>(t: Tree<V>) {
    t.Node? ==>
      && Ordered(t.left) && Ordered(t.right)
      && (forall k <- Keys(t.left) :: k < t.key)
      && (forall k <- Keys(t.right) :: t.key < k)
  }

  ghost predicate NoRedRed<V>(t: Tree<V>) {
    t.Node? ==>
      && NoRedRed(t.left) && NoRedRed(t.right)
      && (t.color == Red ==> t.left.IsBlack() && t.right.IsBlack())
  }

  /** Black nodes on the leftmost path; the empty tree counts one. */
  function BlackHeight<V>(t: Tree<V>): (h: nat)
    ensures h >= 1
  {
    match t
    case Leaf => 1
    case Node(c, l, _, _, _) => BlackHeight(l) + if c == Black then 1 else 0
  }

  ghost predicate Balanced<V>(t: Tree<V>) {
    t.Node? ==>
      && Balanced(t.left) && Balanced(t.right)
      && BlackHeight(t.left) == BlackHeight(t.right)
  }

  /** A red-black subtree. */
  ghost predicate Sound<V>(t: Tree<V>) {
    Ordered(t) && NoRedRed(t) && Balanced(t)
  }

  /** A red-black tree: what every set is between two calls. */
  ghost predicate Valid<V>(t: Tree<V>) {
    Sound(t) && t.IsBlack()
  }
}

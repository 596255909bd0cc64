/** Removal: the shape survives as the code is written, the contents only off one branch. */
module RedBlackRemove {
  import opened RedBlack

  // ----- What a caller can read off the tree before the call

  /** Removing the key leaves the subtree one black level short: the unlinked node is black without a red
      child, and every repair on the way up is the recolouring that passes the shortage on. */
  predicate Shortens<V>(t: Tree<V>, k: Key) {
    t.Node? &&
    if RemovedHere(t, k) then
      t.IsBlack() && t.left.IsBlack() && t.right.IsBlack()
    else
      var s := t.Child(Descent(t, k).Opposite());
      && Shortens(t.Child(Descent(t, k)), Target(t, k))
      && t.IsBlack() && s.Node? && s.IsBlack() && s.left.IsBlack() && s.right.IsBlack()
  }

  /** The branch in which the code forgets a subtree: a shortage meets a red sibling whose near child has a
      red child. */
  predicate ForgetsAt<V>(t: Tree<V>, k: Key)
    requires t.Node? && !RemovedHere(t, k)
  {
    var d := Descent(t, k);
    var s := t.Child(d.Opposite());
    Shortens(t.Child(d), Target(t, k)) && s.IsRed() && s.Child(d).Node? &&
    (s.Child(d).left.IsRed() || s.Child(d).right.IsRed())
  }

  /** Removal takes that branch somewhere on its path. */
  predicate Forgets<V>(t: Tree<V>, k: Key) {
    t.Node? && !RemovedHere(t, k) &&
    (ForgetsAt(t, k) || Forgets(t.Child(Descent(t, k)), Target(t, k)))
  }

  /** The keys above the part of the near nephew that stays linked. */
  function Dropped<V>(near: Tree<V>, d: Dir): set<Key>
    requires near.Node?
  {
    var o := d.Opposite();
    {near.key} + Keys(near.Child(o)) +
    if near.Child(o).IsRed() || near.Child(d).Leaf? then {}
    else {near.Child(d).key} + Keys(near.Child(d).Child(o))
  }

  /** The keys forgotten at one node of the path. */
  function ForgottenAt<V>(t: Tree<V>, k: Key): set<Key>
    requires t.Node? && !RemovedHere(t, k)
  {
    var d := Descent(t, k);
    if ForgetsAt(t, k) then Dropped(t.Child(d.Opposite()).Child(d), d) else {}
  }

  /** The keys a removal forgets besides the one it was asked to remove. */
  function Forgotten<V>(t: Tree<V>, k: Key): set<Key> {
    if t.Leaf? || RemovedHere(t, k) then {}
    else Forgotten(t.Child(Descent(t, k)), Target(t, k)) + ForgottenAt(t, k)
  }

  // ----- Colours and heights

  lemma RaiseNephewColors<V>(p: Tree<V>, d: Dir, c: Color)
    requires p.Node? && p.Child(d.Opposite()).IsBlack() && p.Child(d.Opposite()).Node?
    requires p.Child(d.Opposite()).left.IsRed() || p.Child(d.Opposite()).right.IsRed()
    requires NoRedRed(p.left) && NoRedRed(p.right) && Balanced(p.left) && Balanced(p.right)
    requires BlackHeight(p.Child(d)) + 1 == BlackHeight(p.Child(d.Opposite()))
    ensures var q := RaiseNephew(p, d, c);
      && NoRedRed(q) && Balanced(q) && q.color == c
      && q.left.Node? && q.right.Node? && q.left.color == q.right.color == Black
      && BlackHeight(q.left) == BlackHeight(p.Child(d)) + 1
  {
    var s := p.Child(d.Opposite());
    assert Balanced(s.left) && Balanced(s.right) && NoRedRed(s.left) && NoRedRed(s.right);
    match d case Left => case Right =>
  }

  /** A subtree that came back one level short has a sibling, and so has the sibling's near child to be one. */
  lemma SiblingPresent<V>(t: Tree<V>, d: Dir)
    requires t.Node? && Balanced(t.Child(d.Opposite())) && NoRedRed(t.Child(d.Opposite()))
    requires BlackHeight(t.Child(d)) + 1 == BlackHeight(t.Child(d.Opposite()))
    ensures t.Child(d.Opposite()).Node?
    ensures t.Child(d.Opposite()).IsRed() ==>
      t.Child(d.Opposite()).Child(d).Node? && t.Child(d.Opposite()).Child(d).IsBlack()
  {
  }

  lemma BalanceBlackSibling<V>(t: Tree<V>, d: Dir, relink: bool)
    requires t.Node? && t.Child(d).IsBlack() && t.Child(d.Opposite()).IsBlack()
    requires NoRedRed(t.left) && NoRedRed(t.right) && Balanced(t.left) && Balanced(t.right)
    requires BlackHeight(t.Child(d)) + 1 == BlackHeight(t.Child(d.Opposite()))
    ensures var (r, done) := RemoveBalance(t, d, relink);
      var s := t.Child(d.Opposite());
      && NoRedRed(r) && Balanced(r)
      && (done <==> t.IsRed() || s.left.IsRed() || s.right.IsRed())
      && BlackHeight(r) + (if done then 0 else 1) == BlackHeight(s) + (if t.IsBlack() then 1 else 0)
      && (t.IsBlack() ==> r.IsBlack())
  {
    SiblingPresent(t, d);
    var s := t.Child(d.Opposite());
    if s.left.IsBlack() && s.right.IsBlack() {
      match d case Left => case Right =>
    } else {
      RaiseNephewColors(t, d, t.color);
    }
  }

  /** After the red sibling went up, its near child is the black sibling of the short subtree. */
  lemma ReduceColors<V>(t: Tree<V>, d: Dir)
    requires t.Node? && t.IsBlack() && t.Child(d).IsBlack() && t.Child(d.Opposite()).IsRed()
    requires NoRedRed(t.left) && NoRedRed(t.right) && Balanced(t.left) && Balanced(t.right)
    requires BlackHeight(t.Child(d)) + 1 == BlackHeight(t.Child(d.Opposite()))
    ensures var n := RotateSingle(t, d);
      var p, s, u := n.Child(d), n.Child(d).Child(d.Opposite()), n.Child(d.Opposite());
      && n.color == Black && p.Node? && p.color == Red && p.Child(d) == t.Child(d)
      && s == t.Child(d.Opposite()).Child(d) && s.Node? && s.IsBlack() && NoRedRed(s) && Balanced(s)
      && NoRedRed(u) && Balanced(u) && BlackHeight(u) == BlackHeight(s)
      && BlackHeight(s) == BlackHeight(t.Child(d.Opposite())) == BlackHeight(t.Child(d)) + 1
  {
    SiblingPresent(t, d);
    match d case Left => case Right =>
  }

  lemma Recolored<V>(p: Tree<V>, d: Dir)
    requires p.Node? && p.Child(d).IsBlack() && p.Child(d.Opposite()).Node?
    requires p.Child(d.Opposite()).left.IsBlack() && p.Child(d.Opposite()).right.IsBlack()
    requires NoRedRed(p.left) && NoRedRed(p.right) && Balanced(p.left) && Balanced(p.right)
    requires p.Child(d.Opposite()).IsBlack() && BlackHeight(p.Child(d)) + 1 == BlackHeight(p.Child(d.Opposite()))
    ensures var q := Paint(WithChild(p, d.Opposite(), Paint(p.Child(d.Opposite()), Red)), Black);
      NoRedRed(q) && Balanced(q) && BlackHeight(q) == BlackHeight(p.Child(d)) + 1
  {
    match d case Left => case Right =>
  }

  lemma BalanceRedSibling<V>(t: Tree<V>, d: Dir, relink: bool)
    requires t.Node? && t.IsBlack() && t.Child(d).IsBlack() && t.Child(d.Opposite()).IsRed()
    requires NoRedRed(t.left) && NoRedRed(t.right) && Balanced(t.left) && Balanced(t.right)
    requires BlackHeight(t.Child(d)) + 1 == BlackHeight(t.Child(d.Opposite()))
    ensures var (r, done) := RemoveBalance(t, d, relink);
      && NoRedRed(r) && Balanced(r) && done && r.IsBlack()
      && BlackHeight(r) == BlackHeight(t.Child(d.Opposite())) + 1
  {
    ReduceColors(t, d);
    var n := RotateSingle(t, d);
    var p := n.Child(d);
    var s := p.Child(d.Opposite());
    if s.left.IsBlack() && s.right.IsBlack() {
      Recolored(p, d);
    } else {
      RaiseNephewColors(p, d, if relink then p.color else n.color);
    }
    match d case Left => case Right =>
  }

  /** One removal, seen from any node of the path: the shape survives, linked or not, and the flag tells
      whether the subtree came back short, which only a black one does. */
  lemma {:induction false} RemoveRColors<V>(t: Tree<V>, k: Key, relink: bool)
    requires NoRedRed(t) && Balanced(t)
    ensures var (r, done) := RemoveR(t, k, relink);
      && NoRedRed(r) && Balanced(r)
      && (done <==> !Shortens(t, k))
      && (done ==> BlackHeight(r) == BlackHeight(t))
      && (!done ==> t.IsBlack() && BlackHeight(r) + 1 == BlackHeight(t))
      && (t.IsBlack() ==> r.IsBlack())
  {
    if t.Node? && !RemovedHere(t, k) {
      var d := Descent(t, k);
      RemoveRColors(t.Child(d), Target(t, k), relink);
      var (c, done) := RemoveR(t.Child(d), Target(t, k), relink);
      var n := WithChild(Swapped(t, k), d, c);
      StepColors(t, n, d, done, relink);
    }
  }

  /** A rebalanced node: under a red sibling the sibling comes up, black above two black children. Otherwise, with red
      nephews, the far one goes first: if it is red the sibling comes up, and else the near nephew does, in the colour
      that the node had, above two black children. Without them the sibling turns red below a black node. */
  ghost predicate Turned<V>(t: Tree<V>, r: Tree<V>, d: Dir)
    requires t.Node? && t.Child(d.Opposite()).Node?
  {
    var o := d.Opposite();
    var s := t.Child(o);
    r.Node? &&
    if s.IsRed() then
      r.IsBlack() && r.key == s.key && r.Child(o) == s.Child(o) && r.Child(d).IsBlack()
    else if s.left.IsBlack() && s.right.IsBlack() then
      r.IsBlack() && r.key == t.key && r.Child(o) == Paint(s, Red)
    else
      && r.color == t.color && r.left.Node? && r.right.Node? && r.left.IsBlack() && r.right.IsBlack()
      && (if s.Child(o).IsRed() then r.key == s.key && r.Child(d).Child(o) == s.Child(d)
          else s.Child(d).Node? && r.key == s.Child(d).key && r.Child(o).key == s.key && r.Child(o).Child(o) == s.Child(o))
  }

  lemma BalanceTurns<V>(t: Tree<V>, d: Dir)
    requires t.Node? && t.Child(d).IsBlack() && (t.Child(d.Opposite()).IsRed() ==> t.IsBlack())
    requires NoRedRed(t.left) && NoRedRed(t.right) && Balanced(t.left) && Balanced(t.right)
    requires BlackHeight(t.Child(d)) + 1 == BlackHeight(t.Child(d.Opposite()))
    ensures t.Child(d.Opposite()).Node? && Turned(t, RemoveBalance(t, d, false).0, d)
  {
    SiblingPresent(t, d);
    match d case Left => case Right =>
  }

  /** What removal makes of a node it does not unlink, told from the tree beforehand: nothing but the child on the path
      changes, unless that one is left short; then the node turns. */
  lemma RemoveRTurns<V>(t: Tree<V>, k: Key)
    requires NoRedRed(t) && Balanced(t) && t.Node? && !RemovedHere(t, k)
    ensures var d := Descent(t, k);
      var n := WithChild(Swapped(t, k), d, RemoveR(t.Child(d), Target(t, k), false).0);
      if Shortens(t.Child(d), Target(t, k)) then n.Child(d.Opposite()).Node? && Turned(n, RemoveR(t, k, false).0, d)
      else RemoveR(t, k, false).0 == n
  {
    var d := Descent(t, k);
    RemoveRColors(t.Child(d), Target(t, k), false);
    if Shortens(t.Child(d), Target(t, k)) {
      BalanceTurns(WithChild(Swapped(t, k), d, RemoveR(t.Child(d), Target(t, k), false).0), d);
    }
  }

  /** The tree gets one black level lower exactly if the shortage reaches its root. */
  lemma RemoveLowersIff<V>(t: Tree<V>, k: Key)
    requires Valid(t)
    ensures BlackHeight(Remove(t, k)) + (if Shortens(t, k) then 1 else 0) == BlackHeight(t)
  {
    RemoveRColors(t, k, false);
  }

  lemma StepColors<V>(t: Tree<V>, n: Tree<V>, d: Dir, done: bool, relink: bool)
    requires t.Node? && n.Node? && n.color == t.color && n.Child(d.Opposite()) == t.Child(d.Opposite())
    requires NoRedRed(t) && Balanced(t) && NoRedRed(n.Child(d)) && Balanced(n.Child(d))
    requires t.Child(d).IsBlack() ==> n.Child(d).IsBlack()
    requires done ==> BlackHeight(n.Child(d)) == BlackHeight(t.Child(d))
    requires !done ==> t.Child(d).IsBlack() && BlackHeight(n.Child(d)) + 1 == BlackHeight(t.Child(d))
    ensures var s := n.Child(d.Opposite());
      var (r, done') := if done then (n, true) else RemoveBalance(n, d, relink);
      && NoRedRed(r) && Balanced(r)
      && (!done ==> s.Node?)
      && (done' <==> done || !(n.IsBlack() && s.IsBlack() && s.left.IsBlack() && s.right.IsBlack()))
      && BlackHeight(r) + (if done' then 0 else 1) == BlackHeight(t)
      && (!done' ==> t.IsBlack())
      && (t.IsBlack() ==> r.IsBlack())
  {
    if !done {
      SiblingPresent(n, d);
      assert NoRedRed(n.left) && NoRedRed(n.right) && Balanced(n.left) && Balanced(n.right);
      if n.Child(d.Opposite()).IsRed() {
        BalanceRedSibling(n, d, relink);
      } else {
        BalanceBlackSibling(n, d, relink);
      }
    }
    match d case Left => case Right =>
  }
}

/** What a removal leaves in the set: the exact map as the code is written, and when it is the right one. */
module RedBlackContents {
  import opened RedBlack
  import opened RedBlackInsert
  import opened RedBlackRemove

  // ----- Cutting keys out below a node

  lemma MapCutLeft<K, V>(l: map<K, V>, r: map<K, V>, key: K, value: V, x: set<K>)
    requires key !in x && x !! r.Keys
    ensures (l - x + r)[key := value] == (l + r)[key := value] - x
  {
  }

  lemma MapCutRight<K, V>(l: map<K, V>, r: map<K, V>, key: K, value: V, x: set<K>)
    requires key !in x && x !! l.Keys
    ensures (l + (r - x))[key := value] == (l + r)[key := value] - x
  {
  }

  lemma KeysAfterCut<V>(t: Tree<V>, c: Tree<V>, x: set<Key>)
    requires Contents(c) == Contents(t) - x
    ensures Keys(c) == Keys(t) - x
  {
  }

  lemma CutBelow<V>(t: Tree<V>, d: Dir, c: Tree<V>, x: set<Key>)
    requires t.Node? && Ordered(t) && Ordered(c) && Contents(c) == Contents(t.Child(d)) - x
    requires t.key !in x && x !! Keys(t.Child(d.Opposite()))
    ensures Ordered(WithChild(t, d, c)) && Contents(WithChild(t, d, c)) == Contents(t) - x
  {
    KeysAfterCut(t.Child(d), c, x);
    match d
    case Left => MapCutLeft(Contents(t.left), Contents(t.right), t.key, t.value, x);
    case Right => MapCutRight(Contents(t.left), Contents(t.right), t.key, t.value, x);
  }

  /** Keeping one side of a tree cuts its root and the other side. */
  lemma KeepSide<V>(t: Tree<V>, d: Dir)
    requires t.Node? && Ordered(t)
    ensures Ordered(t.Child(d))
    ensures Contents(t.Child(d)) == Contents(t) - ({t.key} + Keys(t.Child(d.Opposite())))
  {
    assert Keys(t.left) !! Keys(t.right);
  }

  // ----- The heir

  lemma {:induction false} HeirIsGreatest<V>(t: Tree<V>)
    requires t.Node? && Ordered(t)
    ensures Heir(t).key in Contents(t) && Contents(t)[Heir(t).key] == Heir(t).value
    ensures forall k <- Keys(t) :: k <= Heir(t).key
  {
    if t.right.Node? {
      HeirIsGreatest(t.right);
      assert Heir(t).key in Keys(t.right);
    }
  }

  lemma MapHeir<K, V>(l: map<K, V>, r: map<K, V>, key: K, value: V, h: K, x: set<K>)
    requires h in l && h !in x && h != key && x <= l.Keys && x !! r.Keys && key !in l && key !in r && h !in r
    ensures (l - ({h} + x) + r)[h := l[h]] == (l + r)[key := value] - ({key} + x)
  {
  }

  /** Moving the heir's data up and removing it below takes out just the old key. */
  lemma SwapStep<V>(t: Tree<V>, c: Tree<V>, x: set<Key>)
    requires t.Node? && Ordered(t) && t.left.Node? && Ordered(c)
    requires var h := Heir(t.left).key; h !in x && x <= Keys(t.left) && Contents(c) == Contents(t.left) - ({h} + x)
    ensures var h := Heir(t.left);
      var n := t.(left := c, key := h.key, value := h.value);
      Ordered(n) && Contents(n) == Contents(t) - ({t.key} + x)
  {
    var h := Heir(t.left);
    HeirIsGreatest(t.left);
    KeysAfterCut(t.left, c, {h.key} + x);
    MapHeir(Contents(t.left), Contents(t.right), t.key, t.value, h.key, x);
  }

  // ----- Repairs and contents

  lemma RaiseNephewKeeps<V>(p: Tree<V>, d: Dir, c: Color)
    requires p.Node? && p.Child(d.Opposite()).Node?
    requires p.Child(d.Opposite()).left.IsRed() || p.Child(d.Opposite()).right.IsRed()
    ensures InOrder(RaiseNephew(p, d, c)) == InOrder(p)
  {
    if p.Child(d.Opposite()).Child(d.Opposite()).IsRed() {
      RotateSingleKeeps(p, d);
    } else {
      RotateDoubleKeeps(p, d);
    }
  }

  lemma WithChildKeeps<V>(t: Tree<V>, d: Dir, c: Tree<V>)
    requires t.Node? && InOrder(c) == InOrder(t.Child(d))
    ensures InOrder(WithChild(t, d, c)) == InOrder(t)
  {
  }

  /** Below a red sibling that went up, storing the repaired child back moves no entry. */
  lemma ReducedRelinkedKeeps<V>(t: Tree<V>, d: Dir)
    requires t.Node? && t.Child(d.Opposite()).IsRed()
    ensures InOrder(RemoveBalance(t, d, true).0) == InOrder(t)
  {
    RotateSingleKeeps(t, d);
    var n := RotateSingle(t, d);
    var p := n.Child(d);
    var s := p.Child(d.Opposite());
    if s.Node? {
      if s.left.IsBlack() && s.right.IsBlack() {
        WithChildKeeps(p, d.Opposite(), Paint(s, Red));
        WithChildKeeps(n, d, Paint(WithChild(p, d.Opposite(), Paint(s, Red)), Black));
      } else {
        RaiseNephewKeeps(p, d, p.color);
        WithChildKeeps(n, d, RaiseNephew(p, d, p.color));
      }
    }
  }

  /** Stored back, the rotated subtree moves no entry. */
  lemma BalanceRelinkedKeeps<V>(t: Tree<V>, d: Dir)
    requires t.Node?
    ensures InOrder(RemoveBalance(t, d, true).0) == InOrder(t)
  {
    var s := t.Child(d.Opposite());
    if s.IsRed() {
      ReducedRelinkedKeeps(t, d);
    } else if s.Node? {
      if s.left.IsRed() || s.right.IsRed() {
        RaiseNephewKeeps(t, d, t.color);
      } else {
        WithChildKeeps(t, d.Opposite(), Paint(s, Red));
      }
    }
  }

  /** The step in which the code and the intention part. */
  predicate Parts<V>(t: Tree<V>, d: Dir)
    requires t.Node?
  {
    var s := t.Child(d.Opposite());
    s.IsRed() && s.Child(d).Node? && (s.Child(d).left.IsRed() || s.Child(d).right.IsRed())
  }

  lemma DroppedIsAboveKept<V>(t: Tree<V>, d: Dir, c: Color)
    requires t.Node? && Parts(t, d)
    ensures var q := RaiseNephew(RotateSingle(t, d).Child(d), d, c);
      Dropped(t.Child(d.Opposite()).Child(d), d) == {q.key} + Keys(q.Child(d.Opposite()))
  {
    match d case Left => case Right =>
  }

  lemma KeepBelow<V>(t: Tree<V>, d: Dir)
    requires t.Node? && Ordered(t) && t.Child(d).Node?
    ensures var q := t.Child(d);
      var r := WithChild(t, d, q.Child(d));
      Ordered(r) && Contents(r) == Contents(t) - ({q.key} + Keys(q.Child(d.Opposite())))
  {
    var q := t.Child(d);
    KeepSide(q, d);
    assert {q.key} + Keys(q.Child(d.Opposite())) <= Keys(q);
    CutBelow(t, d, q.Child(d), {q.key} + Keys(q.Child(d.Opposite())));
  }

  /** The code's step is the intended one with the rotated subtree cut down to the side that stayed linked. */
  lemma BalanceUnlinked<V>(t: Tree<V>, d: Dir)
    requires t.Node? && Parts(t, d)
    ensures var linked := RemoveBalance(t, d, true).0;
      && linked.Node? && linked.Child(d).Node?
      && RemoveBalance(t, d, false).0 == WithChild(linked, d, linked.Child(d).Child(d))
      && Dropped(t.Child(d.Opposite()).Child(d), d) == {linked.Child(d).key} + Keys(linked.Child(d).Child(d.Opposite()))
  {
    var n := RotateSingle(t, d);
    DroppedIsAboveKept(t, d, n.Child(d).color);
    match d case Left => case Right =>
  }

  lemma BalanceKeepsContents<V>(t: Tree<V>, d: Dir, relink: bool)
    requires t.Node? && Ordered(t) && (relink || !Parts(t, d))
    ensures var r := RemoveBalance(t, d, relink).0;
      Ordered(r) && Contents(r) == Contents(t)
  {
    assert RemoveBalance(t, d, relink) == RemoveBalance(t, d, true);
    BalanceRelinkedKeeps(t, d);
    SameTraversal(t, RemoveBalance(t, d, true).0);
  }

  lemma BalanceForgets<V>(t: Tree<V>, d: Dir)
    requires t.Node? && Ordered(t) && Parts(t, d)
    ensures var r := RemoveBalance(t, d, false).0;
      Ordered(r) && Contents(r) == Contents(t) - Dropped(t.Child(d.Opposite()).Child(d), d)
  {
    BalanceRelinkedKeeps(t, d);
    SameTraversal(t, RemoveBalance(t, d, true).0);
    BalanceUnlinked(t, d);
    KeepBelow(RemoveBalance(t, d, true).0, d);
  }

  // ----- The whole removal

  lemma UnlinkContents<V>(t: Tree<V>, relink: bool)
    requires t.Node? && Ordered(t) && RemovedHere(t, t.key)
    ensures var r := RemoveR(t, t.key, relink).0;
      Ordered(r) && Contents(r) == Contents(t) - {t.key}
  {
    var d := if t.left.Leaf? then Right else Left;
    KeepSide(t, d);
    assert {t.key} + Keys(t.Child(d.Opposite())) == {t.key};
    var saved := t.Child(d);
    assert InOrder(Paint(saved, Black)) == InOrder(saved);
    SameTraversal(saved, Paint(saved, Black));
  }

  lemma StepContents<V>(t: Tree<V>, k: Key, c: Tree<V>, x: set<Key>)
    requires t.Node? && Ordered(t) && !RemovedHere(t, k) && Ordered(c)
    requires x <= Keys(t.Child(Descent(t, k))) && Target(t, k) !in x
    requires Contents(c) == Contents(t.Child(Descent(t, k))) - ({Target(t, k)} + x)
    ensures var n := WithChild(Swapped(t, k), Descent(t, k), c);
      Ordered(n) && Contents(n) == Contents(t) - ({k} + x)
    ensures k !in Keys(t.Child(Descent(t, k).Opposite())) && k !in x
  {
    if t.key == k {
      SwapStep(t, c, x);
    } else {
      assert x !! Keys(t.Child(Descent(t, k).Opposite()));
      CutBelow(t, Descent(t, k), c, {k} + x);
    }
  }

  /** The keys one call takes out of the map besides its own. */
  function Lost<V>(t: Tree<V>, k: Key, relink: bool): set<Key> {
    if relink then {} else Forgotten(t, k)
  }

  function LostAt<V>(t: Tree<V>, k: Key, relink: bool): set<Key>
    requires t.Node? && !RemovedHere(t, k)
  {
    if relink then {} else ForgottenAt(t, k)
  }

  lemma CutTwice<K, V>(m: map<K, V>, x: set<K>, y: set<K>)
    ensures m - x - y == m - (x + y)
  {
  }

  lemma LostAtIsNear<V>(t: Tree<V>, k: Key, relink: bool)
    requires t.Node? && !RemovedHere(t, k)
    ensures LostAt(t, k, relink) <= Keys(t.Child(Descent(t, k).Opposite()))
  {
    if !relink && ForgetsAt(t, k) {
      var d := Descent(t, k);
      var s := t.Child(d.Opposite());
      DroppedIsNear(s.Child(d), d);
      assert Keys(s.Child(d)) <= Keys(s);
    }
  }

  lemma DroppedIsNear<V>(near: Tree<V>, d: Dir)
    requires near.Node?
    ensures Dropped(near, d) <= Keys(near)
  {
    match d case Left => case Right =>
  }

  /** The repair after the removal below. */
  lemma RepairContents<V>(t: Tree<V>, n: Tree<V>, k: Key, relink: bool, done: bool)
    requires t.Node? && !RemovedHere(t, k) && n.Node? && Ordered(n)
    requires n.Child(Descent(t, k).Opposite()) == t.Child(Descent(t, k).Opposite())
    requires done <==> !Shortens(t.Child(Descent(t, k)), Target(t, k))
    ensures var r := if done then n else RemoveBalance(n, Descent(t, k), relink).0;
      Ordered(r) && Contents(r) == Contents(n) - LostAt(t, k, relink)
  {
    var d := Descent(t, k);
    assert ForgetsAt(t, k) == (!done && Parts(n, d));
    if !done && !relink && Parts(n, d) {
      BalanceForgets(n, d);
    } else {
      assert Contents(n) - {} == Contents(n);
      if !done {
        BalanceKeepsContents(n, d, relink);
      }
    }
  }

  lemma ComposeLosses<V>(m: map<Key, V>, n: map<Key, V>, r: map<Key, V>, k: Key, x: set<Key>, y: set<Key>)
    requires n == m - ({k} + x) && r == n - y
    ensures r == m - ({k} + (x + y))
  {
    CutTwice(m, {k} + x, y);
    assert ({k} + x) + y == {k} + (x + y);
  }

  /** One node of the path, given what the call below did. */
  lemma RemoveRStep<V>(t: Tree<V>, k: Key, relink: bool, x: set<Key>, c: Tree<V>, done: bool)
    requires t.Node? && Ordered(t) && !RemovedHere(t, k) && Ordered(c)
    requires (c, done) == RemoveR(t.Child(Descent(t, k)), Target(t, k), relink)
    requires x <= Keys(t.Child(Descent(t, k))) && Target(t, k) !in x
    requires Contents(c) == Contents(t.Child(Descent(t, k))) - ({Target(t, k)} + x)
    requires done <==> !Shortens(t.Child(Descent(t, k)), Target(t, k))
    ensures Ordered(RemoveR(t, k, relink).0)
    ensures Contents(RemoveR(t, k, relink).0) == Contents(t) - ({k} + (x + LostAt(t, k, relink)))
    ensures LostAt(t, k, relink) <= Keys(t) && k !in x && k !in LostAt(t, k, relink)
  {
    StepContents(t, k, c, x);
    var n := WithChild(Swapped(t, k), Descent(t, k), c);
    RepairContents(t, n, k, relink, done);
    LostAtIsNear(t, k, relink);
    ComposeLosses(Contents(t), Contents(n), Contents(RemoveR(t, k, relink).0), k, x, LostAt(t, k, relink));
  }

  lemma {:induction false} RemoveRContents<V>(t: Tree<V>, k: Key, relink: bool)
    requires Sound(t)
    ensures Ordered(RemoveR(t, k, relink).0)
    ensures Contents(RemoveR(t, k, relink).0) == Contents(t) - ({k} + Lost(t, k, relink))
    ensures Lost(t, k, relink) <= Keys(t) && k !in Lost(t, k, relink)
  {
    if t.Leaf? {
    } else if RemovedHere(t, k) {
      UnlinkContents(t, relink);
      assert {k} + {} == {k};
    } else {
      var below, x := t.Child(Descent(t, k)), Lost(t.Child(Descent(t, k)), Target(t, k), relink);
      RemoveRContents(below, Target(t, k), relink);
      RemoveRColors(below, Target(t, k), relink);
      var (c, done) := RemoveR(below, Target(t, k), relink);
      RemoveRStep(t, k, relink, x, c, done);
      assert Lost(t, k, relink) == x + LostAt(t, k, relink);
      assert x <= Keys(t);
    }
  }
}

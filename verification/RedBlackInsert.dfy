/** Insertion keeps every invariant and changes the map at one key. */
module RedBlackInsert {
  import opened Words
  import opened RedBlack

  // ----- Trees with the same traversal hold the same entries in the same order

  ghost predicate Ascending<V>(s: seq<(Key, V)>) {
    forall i, j :: 0 <= i < j < |s| ==> s[i].0 < s[j].0
  }

  ghost predicate Between<V>(l: seq<(Key, V)>, e: (Key, V), r: seq<(Key, V)>) {
    Ascending(l) && Ascending(r) && (forall x <- l :: x.0 < e.0) && (forall x <- r :: e.0 < x.0)
  }

  lemma AscendingJoin<V>(l: seq<(Key, V)>, e: (Key, V), r: seq<(Key, V)>)
    requires Between(l, e, r)
    ensures Ascending(l + [e] + r)
  {
    var s, n := l + [e] + r, |l|;
    forall i, j | 0 <= i < j < |s| ensures s[i].0 < s[j].0 {
      assert if i < n then s[i] in l else if i == n then s[i] == e else s[i] == r[i - n - 1];
      assert if j < n then s[j] == l[j] else if j == n then s[j] == e else s[j] in r;
      assert n < i ==> s[j] == r[j - n - 1];
    }
  }

  lemma AscendingParts<V>(l: seq<(Key, V)>, e: (Key, V), r: seq<(Key, V)>)
    requires Ascending(l + [e] + r)
    ensures Between(l, e, r)
  {
    var s, n := l + [e] + r, |l|;
    assert s[n] == e && s[..n] == l && s[n + 1..] == r;
    forall x | x in r ensures e.0 < x.0 {
      var i :| 0 <= i < |r| && r[i] == x;
      assert s[n + 1 + i] == x;
    }
    forall i, j | 0 <= i < j < |r| ensures r[i].0 < r[j].0 {
      assert r[i] == s[n + 1 + i] && r[j] == s[n + 1 + j];
    }
  }

  lemma {:induction false} KeysAreEntries<V>(t: Tree<V>)
    ensures forall e <- InOrder(t) :: e.0 in Keys(t)
    ensures forall k <- Keys(t) :: exists e <- InOrder(t) :: e.0 == k
  {
    if t.Node? {
      KeysAreEntries(t.left);
      KeysAreEntries(t.right);
      assert (t.key, t.value) in InOrder(t);
      assert forall e <- InOrder(t.left) :: e in InOrder(t);
      assert forall e <- InOrder(t.right) :: e in InOrder(t);
      forall e | e in InOrder(t) ensures e.0 in Keys(t) {
        assert e in InOrder(t.left) || e == (t.key, t.value) || e in InOrder(t.right);
      }
    }
  }

  /** The traversal of an ordered tree ascends strictly, and only of an ordered one. */
  lemma {:induction false} OrderedIsAscending<V>(t: Tree<V>)
    ensures Ordered(t) <==> Ascending(InOrder(t))
  {
    if t.Node? {
      OrderedIsAscending(t.left);
      OrderedIsAscending(t.right);
      KeysAreEntries(t.left);
      KeysAreEntries(t.right);
      var l, e, r := InOrder(t.left), (t.key, t.value), InOrder(t.right);
      if Ordered(t) {
        assert Between(l, e, r);
        AscendingJoin(l, e, r);
      }
      if Ascending(InOrder(t)) {
        AscendingParts(l, e, r);
      }
    }
  }

  lemma {:induction false} ContentsAreEntries<V>(t: Tree<V>)
    requires Ordered(t)
    ensures forall e <- InOrder(t) :: e.0 in Contents(t) && Contents(t)[e.0] == e.1
    ensures forall k <- Contents(t) :: (k, Contents(t)[k]) in InOrder(t)
  {
    if t.Node? {
      ContentsAreEntries(t.left);
      ContentsAreEntries(t.right);
      var m, l, r := Contents(t), Contents(t.left), Contents(t.right);
      forall k | k in m ensures (k, m[k]) in InOrder(t) {
        assert k == t.key || k in l || k in r;
        assert k in r && k != t.key ==> (k, r[k]) in InOrder(t.right);
        assert k in l && k != t.key && k !in r ==> (k, l[k]) in InOrder(t.left);
      }
    }
  }

  lemma SameEntries<V>(a: Tree<V>, b: Tree<V>)
    requires Ordered(a) && Ordered(b) && InOrder(a) == InOrder(b)
    ensures forall k <- Contents(a) :: k in Contents(b) && Contents(b)[k] == Contents(a)[k]
  {
    ContentsAreEntries(a);
    ContentsAreEntries(b);
    forall k | k in Contents(a) ensures k in Contents(b) && Contents(b)[k] == Contents(a)[k] {
      var e := (k, Contents(a)[k]);
      assert e in InOrder(b) && e.0 == k;
    }
  }

  lemma MapsAgree<K, V>(m: map<K, V>, n: map<K, V>)
    requires forall k <- m :: k in n && n[k] == m[k]
    requires forall k <- n :: k in m
    ensures m == n && m.Keys == n.Keys
  {
  }

  lemma SameTraversal<V>(a: Tree<V>, b: Tree<V>)
    requires Ordered(a) && InOrder(a) == InOrder(b)
    ensures Ordered(b) && Contents(b) == Contents(a) && Keys(b) == Keys(a)
  {
    OrderedIsAscending(a);
    OrderedIsAscending(b);
    SameEntries(a, b);
    SameEntries(b, a);
    MapsAgree(Contents(a), Contents(b));
  }

  // ----- Rotations and repairs do not move an entry

  lemma RotateSingleKeeps<V>(t: Tree<V>, d: Dir)
    requires t.Node? && t.Child(d.Opposite()).Node?
    ensures InOrder(RotateSingle(t, d)) == InOrder(t)
  {
    var c := t.Child(d.Opposite());
    var e, f := [(t.key, t.value)], [(c.key, c.value)];
    match d
    case Left =>
      assert InOrder(t.left) + e + (InOrder(c.left) + f + InOrder(c.right))
          == (InOrder(t.left) + e + InOrder(c.left)) + f + InOrder(c.right);
    case Right =>
      assert (InOrder(c.left) + f + InOrder(c.right)) + e + InOrder(t.right)
          == InOrder(c.left) + f + (InOrder(c.right) + e + InOrder(t.right));
  }

  lemma RotateDoubleKeeps<V>(t: Tree<V>, d: Dir)
    requires t.Node? && t.Child(d.Opposite()).Node? && t.Child(d.Opposite()).Child(d).Node?
    ensures InOrder(RotateDouble(t, d)) == InOrder(t)
  {
    var o := d.Opposite();
    RotateSingleKeeps(t.Child(o), o);
    RotateSingleKeeps(WithChild(t, o, RotateSingle(t.Child(o), o)), d);
  }

  lemma InsertRepairKeeps<V>(t: Tree<V>, d: Dir)
    requires t.Node?
    ensures InOrder(InsertRepair(t, d)) == InOrder(t)
  {
    if t.Child(d).IsRed() && t.Child(d.Opposite()).IsBlack() {
      if t.Child(d).Child(d).IsRed() {
        RotateSingleKeeps(t, d.Opposite());
      } else if t.Child(d).Child(d.Opposite()).IsRed() {
        RotateDoubleKeeps(t, d.Opposite());
      }
    }
  }

  // ----- Order and contents

  lemma MapPutLeft<K, V>(l: map<K, V>, r: map<K, V>, key: K, value: V, k: K, v: V)
    requires k != key && k !in r
    ensures (l[k := v] + r)[key := value] == (l + r)[key := value][k := v]
  {
  }

  lemma MapPutRight<K, V>(l: map<K, V>, r: map<K, V>, key: K, value: V, k: K, v: V)
    requires k != key
    ensures (l + r[k := v])[key := value] == (l + r)[key := value][k := v]
  {
  }

  lemma KeysAfterPut<V>(t: Tree<V>, c: Tree<V>, k: Key, v: V)
    requires Contents(c) == Contents(t)[k := v]
    ensures Keys(c) == Keys(t) + {k}
  {
  }

  lemma PutBelow<V>(t: Tree<V>, d: Dir, c: Tree<V>, k: Key, v: V)
    requires t.Node? && Ordered(t) && k != t.key && d == (if k > t.key then Right else Left)
    requires Ordered(c) && Contents(c) == Contents(t.Child(d))[k := v]
    ensures var n := WithChild(t, d, c);
      Ordered(n) && Contents(n) == Contents(t)[k := v]
  {
    KeysAfterPut(t.Child(d), c, k, v);
    match d
    case Left => MapPutLeft(Contents(t.left), Contents(t.right), t.key, t.value, k, v);
    case Right => MapPutRight(Contents(t.left), Contents(t.right), t.key, t.value, k, v);
  }

  lemma {:induction false} InsertRContents<V>(t: Tree<V>, k: Key, v: V)
    requires Ordered(t)
    ensures Ordered(InsertR(t, k, v)) && Contents(InsertR(t, k, v)) == Contents(t)[k := v]
  {
    if t.Leaf? {
      assert Contents(InsertR(t, k, v)) == map[k := v];
    } else if t.key != k {
      var d := if k > t.key then Right else Left;
      var c := InsertR(t.Child(d), k, v);
      InsertRContents(t.Child(d), k, v);
      PutBelow(t, d, c, k, v);
      InsertRepairKeeps(WithChild(t, d, c), d);
      SameTraversal(WithChild(t, d, c), InsertRepair(WithChild(t, d, c), d));
    }
  }

  // ----- Colours and heights

  /** What insertion may return in mid-recursion: only its root may be red with a red child, and just one. */
  ghost predicate Loose<V>(t: Tree<V>) {
    && t.Node? && Balanced(t)
    && NoRedRed(t.left) && NoRedRed(t.right)
    && (t.color == Red ==> t.left.IsBlack() || t.right.IsBlack())
  }

  lemma InsertRepairColors<V>(t: Tree<V>, d: Dir)
    requires t.Node? && Balanced(t) && NoRedRed(t.Child(d.Opposite())) && Loose(t.Child(d))
    requires t.color == Red ==> NoRedRed(t.Child(d)) && t.Child(d.Opposite()).IsBlack()
    ensures var r := InsertRepair(t, d);
      Loose(r) && BlackHeight(r) == BlackHeight(t) && (t.color == Black ==> NoRedRed(r))
  {
    var c := t.Child(d);
    if c.IsRed() && t.Child(d.Opposite()).IsBlack() && c.Child(d).IsBlack() && c.Child(d.Opposite()).IsRed() {
      var g := c.Child(d.Opposite());
      assert Balanced(g) && NoRedRed(g);
      match d case Left => case Right =>
    }
  }

  lemma {:induction false} InsertRColors<V>(t: Tree<V>, k: Key, v: V)
    requires NoRedRed(t) && Balanced(t)
    ensures var r := InsertR(t, k, v);
      Loose(r) && BlackHeight(r) == BlackHeight(t) && (t.IsBlack() ==> NoRedRed(r))
  {
    if t.Node? && t.key != k {
      var d := if k > t.key then Right else Left;
      InsertRColors(t.Child(d), k, v);
      InsertRepairColors(WithChild(t, d, InsertR(t.Child(d), k, v)), d);
    }
  }

  // ----- When colours change

  /** The side on which insertion goes on. */
  function Side<V>(t: Tree<V>, k: Key): Dir
    requires t.Node?
  {
    if k > t.key then Right else Left
  }

  /** A subtree that was not red comes back red: a new node does, and a node whose other child is red and whose
      child on the way is, or comes back so. */
  predicate Reddens<V>(t: Tree<V>, k: Key) {
    t.Node? ==>
      && t.IsBlack() && t.key != k && t.Child(Side(t, k).Opposite()).IsRed()
      && (t.Child(Side(t, k)).IsRed() || Reddens(t.Child(Side(t, k)), k))
  }

  /** A red node comes back with a red child. */
  predicate Clashes<V>(t: Tree<V>, k: Key) {
    t.IsRed() && t.key != k && Reddens(t.Child(Side(t, k)), k)
  }

  /** The colours of what the recursion returns, read off the tree beforehand: red above two black children where
      colours flip, black above two red ones after a rotation, and everywhere else as they were. */
  lemma {:induction false} InsertRFlips<V>(t: Tree<V>, k: Key, v: V)
    requires NoRedRed(t) && Balanced(t)
    ensures var r := InsertR(t, k, v);
      && (r.IsRed() <==> t.IsRed() || Reddens(t, k))
      && (Reddens(t, k) ==> r.left.IsBlack() && r.right.IsBlack())
      && (Clashes(t, k) <==> r.IsRed() && (r.left.IsRed() || r.right.IsRed()))
      && (t.Node? && t.key != k && !Reddens(t, k) ==>
            if t.IsBlack() && Clashes(t.Child(Side(t, k)), k) then r.left.IsRed() && r.right.IsRed()
            else r == WithChild(t, Side(t, k), InsertR(t.Child(Side(t, k)), k, v)))
  {
    if t.Node? && t.key != k {
      var d := Side(t, k);
      InsertRFlips(t.Child(d), k, v);
      InsertRColors(t.Child(d), k, v);
      match d case Left => case Right =>
    }
  }

  /** A node with two red children always passes its red on, also when the key was there. */
  lemma RedChildrenFlip<V>(t: Tree<V>, k: Key, v: V)
    requires NoRedRed(t) && Balanced(t) && t.Node? && k != t.key && t.left.IsRed() && t.right.IsRed()
    ensures var r := InsertR(t, k, v);
      r.IsRed() && r.left.Node? && r.left.IsBlack() && r.right.Node? && r.right.IsBlack()
  {
    InsertRFlips(t, k, v);
    InsertRColors(t, k, v);
  }

  /** The tree gets one black level higher exactly if its root comes back red. */
  lemma InsertGrowsIff<V>(t: Tree<V>, k: Key, v: V)
    requires Valid(t)
    ensures BlackHeight(Insert(t, k, v)) == BlackHeight(t) + 1 <==> Reddens(t, k)
    ensures BlackHeight(Insert(t, k, v)) == BlackHeight(t) <==> !Reddens(t, k)
  {
    InsertRFlips(t, k, v);
    InsertRColors(t, k, v);
  }

  /** Inserting into a set gives a set, and updates its map at exactly one key; that holds too when the key
      was present and colours are flipped on the way back. */
  lemma InsertCorrect<V>(t: Tree<V>, k: Key, v: V)
    requires Valid(t)
    ensures Valid(Insert(t, k, v)) && Contents(Insert(t, k, v)) == Contents(t)[k := v]
  {
    InsertRContents(t, k, v);
    InsertRColors(t, k, v);
  }

  /** Finding a key reads the map. */
  lemma {:induction false} FindReadsContents<V>(t: Tree<V>, k: Key)
    requires Ordered(t)
    ensures Find(t, k) == if k in Contents(t) then Some(Contents(t)[k]) else None
  {
    if t.Node? {
      FindReadsContents(t.left, k);
      FindReadsContents(t.right, k);
    }
  }
}

/** What a caller of the set gets: single calls, whole runs, the cost of a lookup, the built-in check. */
module RedBlackRuns {
  import opened Words
  import opened RedBlack
  import opened RedBlackInsert
  import opened RedBlackRemove
  import opened RedBlackContents

  lemma ValidIsOrdered<V>(t: Tree<V>)
    requires Valid(t)
    ensures Ordered(t)
  {
  }

  // ----- Removal, call by call

  /** Removal of any key from any set leaves a set, as the code is written and relinked. */
  lemma RemoveKeepsShape<V>(t: Tree<V>, k: Key)
    requires Valid(t)
    ensures Valid(Remove(t, k)) && Valid(RemoveRelinked(t, k))
  {
    RemoveRColors(t, k, false);
    RemoveRColors(t, k, true);
    RemoveRContents(t, k, false);
    RemoveRContents(t, k, true);
  }

  /** With the rotated subtree stored back, removal takes exactly its key out of the map. */
  lemma RemoveRelinkedCorrect<V>(t: Tree<V>, k: Key)
    requires Valid(t)
    ensures Valid(RemoveRelinked(t, k)) && Contents(RemoveRelinked(t, k)) == Contents(t) - {k}
  {
    RemoveKeepsShape(t, k);
    RemoveRContents(t, k, true);
    assert {k} + {} == {k};
  }

  lemma {:induction false} ForgetsSomething<V>(t: Tree<V>, k: Key)
    ensures Forgets(t, k) <==> Forgotten(t, k) != {}
  {
    if t.Node? && !RemovedHere(t, k) {
      ForgetsSomething(t.Child(Descent(t, k)), Target(t, k));
      var d := Descent(t, k);
      if ForgetsAt(t, k) {
        assert t.Child(d.Opposite()).Child(d).key in ForgottenAt(t, k);
      }
    }
  }

  /** As the code is written, the map loses its key and, with it, exactly the keys that can be read off the
      tree beforehand. */
  lemma RemoveLosesExactly<V>(t: Tree<V>, k: Key)
    requires Valid(t)
    ensures Contents(Remove(t, k)) == Contents(t) - ({k} + Forgotten(t, k))
    ensures Forgotten(t, k) <= Keys(t) && k !in Forgotten(t, k)
  {
    RemoveRContents(t, k, false);
  }

  /** Removal takes exactly its key out of the map if and only if it stays off the branch that does not store the
      rotated subtree. */
  lemma RemoveCorrectIff<V>(t: Tree<V>, k: Key)
    requires Valid(t)
    ensures Contents(Remove(t, k)) == Contents(t) - {k} <==> !Forgets(t, k)
  {
    RemoveLosesExactly(t, k);
    ForgetsSomething(t, k);
    if Forgets(t, k) {
      var x :| x in Forgotten(t, k);
      assert x in Contents(t) - {k} && x !in Contents(Remove(t, k));
    } else {
      assert {k} + {} == {k};
    }
  }

  /** A key that is not there changes nothing, not even the shape. */
  lemma {:induction false} RemoveAbsent<V>(t: Tree<V>, k: Key, relink: bool)
    requires k !in Keys(t)
    ensures RemoveR(t, k, relink) == (t, true)
  {
    if t.Node? {
      RemoveAbsent(t.Child(Descent(t, k)), k, relink);
      match Descent(t, k) case Left => case Right =>
    }
  }

  /** Six keys; removing the least one meets a red sibling whose near child has a red child. */
  const LOSSY: Tree<bool> :=
    Node(Black,
         Node(Black, Leaf, 1, true, Leaf), 2, true,
         Node(Red,
              Node(Black, Leaf, 3, true, Node(Red, Leaf, 4, true, Leaf)), 5, true,
              Node(Black, Leaf, 6, true, Leaf)))

  const LOSSY_THREE: Tree<bool> := Node(Black, Leaf, 3, true, Node(Red, Leaf, 4, true, Leaf))
  const LOSSY_SIX: Tree<bool> := Node(Black, Leaf, 6, true, Leaf)
  const LOSSY_FIVE: Tree<bool> := Node(Red, LOSSY_THREE, 5, true, LOSSY_SIX)

  lemma LossyIsValid()
    ensures Valid(LOSSY) && Keys(LOSSY) == {1, 2, 3, 4, 5, 6}
  {
    var one: Tree<bool>, four: Tree<bool> := Node(Black, Leaf, 1, true, Leaf), Node(Red, Leaf, 4, true, Leaf);
    assert Keys(one) == {1} && Keys(LOSSY_SIX) == {6} && Keys(four) == {4} && Keys(LOSSY_THREE) == {3, 4};
    assert Keys(LOSSY_FIVE) == {3, 4, 5, 6};
    assert Sound(one) && Sound(LOSSY_SIX) && Sound(four) && Sound(LOSSY_THREE) && Sound(LOSSY_FIVE);
  }

  /** The loss, on that set: keys 3 and 4 go with key 1. */
  lemma RemoveForgetsExample()
    ensures Keys(Remove(LOSSY, 1)) == {2, 5, 6}
    ensures Keys(RemoveRelinked(LOSSY, 1)) == {2, 3, 4, 5, 6}
  {
    var one: Tree<bool> := Node(Black, Leaf, 1, true, Leaf);
    assert RemoveR(one, 1, false) == RemoveR(one, 1, true) == (Leaf, false);
    assert Remove(LOSSY, 1) == Node(Black, Node(Black, Leaf, 2, true, Leaf), 5, true, LOSSY_SIX);
    assert RemoveRelinked(LOSSY, 1) ==
      Node(Black, Node(Red, Node(Black, Leaf, 2, true, Leaf), 3, true, Node(Black, Leaf, 4, true, Leaf)), 5, true,
           LOSSY_SIX);
  }

  // ----- Whole runs

  datatype Call<V> = Put(key: Key, value: V) | Drop(key: Key)

  function After<V>(calls: seq<Call<V>>, relink: bool): Tree<V> {
    if calls == [] then Leaf
    else
      var t := After(calls[..|calls| - 1], relink);
      match calls[|calls| - 1]
      case Put(k, v) => Insert(t, k, v)
      case Drop(k) => RemoveR(t, k, relink).0
  }

  lemma AfterOneMore<V>(calls: seq<Call<V>>, k: Key, v: V, relink: bool)
    ensures After(calls + [Put(k, v)], relink) == Insert(After(calls, relink), k, v)
  {
    assert (calls + [Put(k, v)])[..|calls|] == calls;
  }

  lemma FiveInserted()
    ensures Insert(Leaf, 1, true) == Node(Black, Leaf, 1, true, Leaf)
    ensures Insert(Node(Black, Leaf, 1, true, Leaf), 2, true) == Node(Black, Leaf, 1, true, Node(Red, Leaf, 2, true, Leaf))
    ensures Insert(Node(Black, Leaf, 1, true, Node(Red, Leaf, 2, true, Leaf)), 3, true) == LossyStart(Red, Node(Red, Leaf, 3, true, Leaf))
    ensures Insert(LossyStart(Red, Node(Red, Leaf, 3, true, Leaf)), 5, true)
      == LossyStart(Black, Node(Black, Leaf, 3, true, Node(Red, Leaf, 5, true, Leaf)))
    ensures Insert(LossyStart(Black, Node(Black, Leaf, 3, true, Node(Red, Leaf, 5, true, Leaf))), 6, true)
      == LossyStart(Black, Node(Black, Node(Red, Leaf, 3, true, Leaf), 5, true, Node(Red, Leaf, 6, true, Leaf)))
  {
  }

  function LossyStart(c: Color, right: Tree<bool>): Tree<bool> {
    Node(Black, Node(c, Leaf, 1, true, Leaf), 2, true, right)
  }

  lemma SixthInserted()
    ensures Insert(LossyStart(Black, Node(Black, Node(Red, Leaf, 3, true, Leaf), 5, true, Node(Red, Leaf, 6, true, Leaf))), 4, true) == LOSSY
  {
    var five := Node(Black, Node(Red, Leaf, 3, true, Leaf), 5, true, Node(Red, Leaf, 6, true, Leaf));
    assert InsertR(five, 4, true) == LOSSY_FIVE;
  }

  /** Six insertions lead there, so a seventh call of a program can lose two keys. */
  lemma LossyIsReached()
    ensures After([Put(1, true), Put(2, true), Put(3, true), Put(5, true), Put(6, true), Put(4, true)], false) == LOSSY
  {
    FiveInserted();
    SixthInserted();
    var c1: seq<Call<bool>> := [Put(1, true)];
    var c2, c3, c4 := c1 + [Put(2, true)], c1 + [Put(2, true)] + [Put(3, true)], c1 + [Put(2, true)] + [Put(3, true)] + [Put(5, true)];
    AfterOneMore([], 1, true, false);
    assert [] + [Put(1, true)] == c1;
    AfterOneMore(c1, 2, true, false);
    AfterOneMore(c2, 3, true, false);
    AfterOneMore(c3, 5, true, false);
    AfterOneMore(c4, 6, true, false);
    AfterOneMore(c4 + [Put(6, true)], 4, true, false);
    assert c4 + [Put(6, true)] + [Put(4, true)] == [Put(1, true), Put(2, true), Put(3, true), Put(5, true), Put(6, true), Put(4, true)];
  }

  const THREE: Tree<bool> := LossyStart(Red, Node(Red, Leaf, 3, true, Leaf))

  /** Inserting a key that is there, as marking an object twice does, can make the tree one level higher: of three
      keys the check answers 2, and 3 when the first is inserted again. */
  lemma AgainGrows()
    ensures After([Put(1, true), Put(2, true), Put(3, true)], false) == THREE && VerifyR(THREE) == 2
    ensures VerifyR(Insert(THREE, 1, true)) == 3 && Contents(Insert(THREE, 1, true)) == Contents(THREE)
  {
    FiveInserted();
    var c1: seq<Call<bool>> := [Put(1, true)];
    AfterOneMore([], 1, true, false);
    assert [] + [Put(1, true)] == c1;
    AfterOneMore(c1, 2, true, false);
    AfterOneMore(c1 + [Put(2, true)], 3, true, false);
    assert c1 + [Put(2, true)] + [Put(3, true)] == [Put(1, true), Put(2, true), Put(3, true)];
    assert VerifyR(THREE.left) == 1 && VerifyR(THREE.right) == 1;
    OneInsertedAgain();
    assert Contents(THREE)[1 := true] == Contents(THREE);
    InsertRContents(THREE, 1, true);
  }

  lemma OneInsertedAgain()
    ensures Ordered(THREE) && Contents(THREE) == map[1 := true, 2 := true, 3 := true]
    ensures VerifyR(Insert(THREE, 1, true)) == 3
  {
    var again := LossyStart(Black, Node(Black, Leaf, 3, true, Leaf));
    assert Insert(THREE, 1, true) == again;
    assert VerifyR(again.left) == 2 && VerifyR(again.right) == 2;
    assert Contents(THREE.left) == map[1 := true] && Contents(THREE.right) == map[3 := true];
    assert Keys(THREE.left) == {1} && Keys(THREE.right) == {3};
  }

  /** The check's answer rises by one exactly if colours flip up to the root, and falls by one exactly if a shortage
      reaches it. */
  lemma HeightChangesIff<V>(t: Tree<V>, k: Key, v: V)
    requires Valid(t)
    ensures VerifyR(Insert(t, k, v)) == VerifyR(t) + if Reddens(t, k) then 1 else 0
    ensures VerifyR(Remove(t, k)) + (if Shortens(t, k) then 1 else 0) == VerifyR(t)
  {
    hide RedBlack.Insert, RedBlack.Remove, VerifyR, Reddens, Shortens;
    InsertCorrect(t, k, v);
    InsertGrowsIff(t, k, v);
    RemoveKeepsShape(t, k);
    RemoveLowersIff(t, k);
    ValidAnswers(t);
    ValidAnswers(Insert(t, k, v));
    ValidAnswers(Remove(t, k));
  }

  lemma ValidAnswers<V>(t: Tree<V>)
    requires Valid(t)
    ensures VerifyR(t) == BlackHeight(t)
  {
    OrderedIsLocallyOrdered(t);
    VerifyAcceptsIff(t);
  }

  /** The same calls on a plain map. */
  function MapAfter<V>(calls: seq<Call<V>>): map<Key, V> {
    if calls == [] then map[]
    else
      var m := MapAfter(calls[..|calls| - 1]);
      match calls[|calls| - 1]
      case Put(k, v) => m[k := v]
      case Drop(k) => m - {k}
  }

  ghost predicate Within<K, V>(m: map<K, V>, n: map<K, V>) {
    forall k <- m :: k in n && n[k] == m[k]
  }

  /** One call on a set that holds no more than a map leaves a set that holds no more than the map after it. */
  lemma CallKeepsWithin<V>(t: Tree<V>, m: map<Key, V>, call: Call<V>)
    requires Valid(t) && Within(Contents(t), m)
    ensures call.Put? ==> Valid(Insert(t, call.key, call.value))
    ensures call.Put? ==> Within(Contents(Insert(t, call.key, call.value)), m[call.key := call.value])
    ensures call.Drop? ==> Valid(Remove(t, call.key)) && Within(Contents(Remove(t, call.key)), m - {call.key})
  {
    match call
    case Put(k, v) => InsertCorrect(t, k, v);
    case Drop(k) =>
      RemoveKeepsShape(t, k);
      RemoveLosesExactly(t, k);
  }

  /** Every call sequence leaves a red-black tree that holds no more than the map does. */
  lemma {:induction false} RunsAreSets<V>(calls: seq<Call<V>>)
    ensures Valid(After(calls, false)) && Within(Contents(After(calls, false)), MapAfter(calls))
  {
    if calls != [] {
      var before := calls[..|calls| - 1];
      RunsAreSets(before);
      CallKeepsWithin(After(before, false), MapAfter(before), calls[|calls| - 1]);
    }
  }

  /** With the rotated subtree stored back, every call sequence leaves exactly the map. */
  lemma {:induction false} RelinkedRunsAreMaps<V>(calls: seq<Call<V>>)
    ensures Valid(After(calls, true)) && Contents(After(calls, true)) == MapAfter(calls)
  {
    if calls != [] {
      var before := calls[..|calls| - 1];
      RelinkedRunsAreMaps(before);
      match calls[|calls| - 1]
      case Put(k, v) => InsertCorrect(After(before, true), k, v);
      case Drop(k) => RemoveRelinkedCorrect(After(before, true), k);
    }
  }

  /** One of the calls takes the branch that forgets a subtree. */
  ghost predicate SomeCallForgets<V>(calls: seq<Call<V>>) {
    exists n :: 0 <= n < |calls| && calls[n].Drop? && Forgets(After(calls[..n], false), calls[n].key)
  }

  ghost predicate MapThroughout<V>(calls: seq<Call<V>>) {
    forall n :: 0 <= n <= |calls| ==> Contents(After(calls[..n], false)) == MapAfter(calls[..n])
  }

  lemma NextCall<V>(calls: seq<Call<V>>, n: nat)
    requires n < |calls| && Contents(After(calls[..n], false)) == MapAfter(calls[..n])
    ensures Contents(After(calls[..n + 1], false)) == MapAfter(calls[..n + 1]) <==>
      !(calls[n].Drop? && Forgets(After(calls[..n], false), calls[n].key))
  {
    var next := calls[..n + 1];
    assert next[..n] == calls[..n] && next[n] == calls[n];
    RunsAreSets(calls[..n]);
    match calls[n]
    case Put(k, v) => InsertCorrect(After(calls[..n], false), k, v);
    case Drop(k) => RemoveCorrectIff(After(calls[..n], false), k);
  }

  lemma {:induction false} MapUpTo<V>(calls: seq<Call<V>>, n: nat)
    requires n <= |calls| && !SomeCallForgets(calls)
    ensures Contents(After(calls[..n], false)) == MapAfter(calls[..n])
  {
    if n > 0 {
      MapUpTo(calls, n - 1);
      NextCall(calls, n - 1);
    }
  }

  /** As written, the set is the map after every call of a run if and only if no call of the run takes the
      forgetting branch. */
  lemma RunsAreMapsIff<V>(calls: seq<Call<V>>)
    ensures MapThroughout(calls) <==> !SomeCallForgets(calls)
  {
    if MapThroughout(calls) && SomeCallForgets(calls) {
      var n :| 0 <= n < |calls| && calls[n].Drop? && Forgets(After(calls[..n], false), calls[n].key);
      NextCall(calls, n);
    }
    if !SomeCallForgets(calls) {
      forall n | 0 <= n <= |calls| ensures Contents(After(calls[..n], false)) == MapAfter(calls[..n]) {
        MapUpTo(calls, n);
      }
    }
  }

  // ----- The cost of a lookup

  function Pow2(n: nat): (p: nat)
    ensures p >= 1
  {
    if n == 0 then 1 else 2 * Pow2(n - 1)
  }

  lemma {:induction false} Pow2Sum(a: nat, b: nat)
    ensures Pow2(a + b) == Pow2(a) * Pow2(b)
  {
    if a > 0 {
      Pow2Sum(a - 1, b);
      assert a + b - 1 == (a - 1) + b;
      Doubled(Pow2(a - 1), Pow2(b));
    }
  }

  lemma Doubled(x: nat, y: nat)
    ensures (2 * x) * y == 2 * (x * y)
  {
  }

  lemma {:induction false} Pow2Monotone(a: nat, b: nat)
    requires a <= b
    ensures Pow2(a) <= Pow2(b)
  {
    if a < b {
      Pow2Monotone(a, b - 1);
    }
  }

  /** The nodes a lookup compares its key with. */
  function FindSteps<V>(t: Tree<V>, k: Key): nat {
    match t
    case Leaf => 0
    case Node(_, l, key, _, r) =>
      if key == k then 1 else 1 + if k < key then FindSteps(l, k) else FindSteps(r, k)
  }

  /** At least every second node of a path is black. */
  lemma {:induction false} StepsWithinHeight<V>(t: Tree<V>, k: Key)
    requires NoRedRed(t) && Balanced(t)
    ensures FindSteps(t, k) <= 2 * (BlackHeight(t) - 1) + if t.IsRed() then 1 else 0
  {
    if t.Node? {
      StepsWithinHeight(t.left, k);
      StepsWithinHeight(t.right, k);
    }
  }

  lemma {:induction false} SizeAboveHeight<V>(t: Tree<V>)
    requires Ordered(t) && Balanced(t)
    ensures |Keys(t)| + 1 >= Pow2(BlackHeight(t) - 1)
  {
    if t.Node? {
      SizeAboveHeight(t.left);
      SizeAboveHeight(t.right);
      assert Keys(t.left) !! Keys(t.right) && t.key !in Keys(t.left) + Keys(t.right);
      assert |Keys(t)| == |Keys(t.left)| + 1 + |Keys(t.right)|;
    }
  }

  lemma SquareMonotone(a: nat, b: nat)
    requires a <= b
    ensures a * a <= b * b
  {
  }

  lemma LookupCost<V>(t: Tree<V>, k: Key)
    requires Valid(t)
    ensures Pow2(FindSteps(t, k)) <= (|Keys(t)| + 1) * (|Keys(t)| + 1)
  {
    StepsWithinHeight(t, k);
    SizeAboveHeight(t);
    var h := BlackHeight(t) - 1;
    Pow2Monotone(FindSteps(t, k), h + h);
    Pow2Sum(h, h);
    SquareMonotone(Pow2(h), |Keys(t)| + 1);
  }

  /** In any set of n keys that calls have built, a lookup compares at most 2 log2(n + 1) keys. */
  lemma LookupIsLogarithmic<V>(calls: seq<Call<V>>, k: Key)
    ensures var t := After(calls, false);
      Pow2(FindSteps(t, k)) <= (|Contents(t)| + 1) * (|Contents(t)| + 1)
  {
    RunsAreSets(calls);
    LookupCost(After(calls, false), k);
    SizeOfMap(Contents(After(calls, false)));
  }

  lemma SizeOfMap<K, V>(m: map<K, V>)
    ensures |m| == |m.Keys|
  {
  }

  // ----- The built-in check

  /** The tree's own consistency check: 0, or the black height. */
  function VerifyR<V>(t: Tree<V>): nat {
    match t
    case Leaf => 1
    case Node(c, l, k, _, r) =>
      if c == Red && (l.IsRed() || r.IsRed()) then 0
      else if (l.Node? && l.key >= k) || (r.Node? && r.key <= k) then 0
      else
        var lh, rh := VerifyR(l), VerifyR(r);
        if lh != 0 && rh != 0 && lh != rh then 0
        else if lh != 0 && rh != 0 then (if c == Black then lh + 1 else lh)
        else 0
  }

  /** Order between a node and its two children only. */
  ghost predicate LocallyOrdered<V>(t: Tree<V>) {
    t.Node? ==>
      && LocallyOrdered(t.left) && LocallyOrdered(t.right)
      && (t.left.Node? ==> t.left.key < t.key)
      && (t.right.Node? ==> t.key < t.right.key)
  }

  /** The check accepts exactly the trees without a red pair, with equal black heights and with each node
      between its children, and then returns the black height. */
  lemma {:induction false} VerifyAcceptsIff<V>(t: Tree<V>)
    ensures VerifyR(t) != 0 <==> NoRedRed(t) && Balanced(t) && LocallyOrdered(t)
    ensures VerifyR(t) != 0 ==> VerifyR(t) == BlackHeight(t)
  {
    if t.Node? {
      VerifyAcceptsIff(t.left);
      VerifyAcceptsIff(t.right);
    }
  }

  lemma {:induction false} OrderedIsLocallyOrdered<V>(t: Tree<V>)
    requires Ordered(t)
    ensures LocallyOrdered(t)
  {
    if t.Node? {
      OrderedIsLocallyOrdered(t.left);
      OrderedIsLocallyOrdered(t.right);
      assert t.left.Node? ==> t.left.key in Keys(t.left);
      assert t.right.Node? ==> t.right.key in Keys(t.right);
    }
  }

  /** Whatever calls have built passes its own check. */
  lemma SetsPassTheirCheck<V>(calls: seq<Call<V>>)
    ensures VerifyR(After(calls, false)) == BlackHeight(After(calls, false)) != 0
  {
    RunsAreSets(calls);
    OrderedIsLocallyOrdered(After(calls, false));
    VerifyAcceptsIff(After(calls, false));
  }

  /** The converse fails: this tree passes, and a lookup misses a key that is in it. */
  lemma CheckMissesFarDisorder()
    ensures var t: Tree<bool> :=
        Node(Black, Node(Black, Leaf, 3, true, Node(Red, Leaf, 7, true, Leaf)), 5, true,
             Node(Black, Leaf, 8, true, Leaf));
      VerifyR(t) != 0 && !Ordered(t) && 7 in Keys(t) && Find(t, 7) == None
  {
    var seven: Tree<bool> := Node(Red, Leaf, 7, true, Leaf);
    var three := Node(Black, Leaf, 3, true, seven);
    assert 7 in Keys(seven) && 7 in Keys(three);
    assert VerifyR(seven) == 1 && VerifyR(three) == 2;
    assert VerifyR(Node(Black, Leaf, 8, true, Leaf)) == 2;
  }
}

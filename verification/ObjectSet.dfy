/** The set's public operations on linked nodes. */
module ObjectSet {
  import opened Words
  import opened RedBlack
  import opened SetNodes
  import RedBlackInsert
  import RedBlackRemove
  import RedBlackRuns

  class ObjSet<V(==)> {
    var root: SetNode?<V>

    ghost function Tree(): Tree<V>
      reads this, root
    {
      TreeOf(root)
    }

    ghost function Repr(): set<object>
      reads this, root
    {
      {this} + ReprOf(root)
    }

    ghost predicate Valid()
      reads this, root, ReprOf(root)
    {
      ValidOrNull(root) && RedBlack.Valid(Tree())
    }

    /** The map from keys to objects that the set is. */
    ghost function Model(): map<Key, V>
      reads this, root
    {
      Contents(Tree())
    }

    constructor ()
      ensures Valid() && Model() == map[] && fresh(Repr())
    {
      root := null;
    }

    /** `freed` is the object that the insertion deallocates: another one with the same key. */
    method Insert(key: Key, o: V) returns (freed: Option<V>)
      requires Valid()
      modifies Repr()
      ensures Valid() && fresh(Repr() - old(Repr()))
      ensures Model() == old(Model())[key := o]
      ensures BlackHeight(Tree()) == old(BlackHeight(Tree())) + if RedBlackInsert.Reddens(old(Tree()), key) then 1 else 0
      ensures freed == if key in old(Model()) && old(Model())[key] != o then Some(old(Model())[key]) else None
    {
      ghost var t := Tree();
      var created := new SetNode(key, o);
      hide RedBlack.Valid, Contents, RedBlack.InsertR;
      assert Ordered(t) by {
        RedBlackRuns.ValidIsOrdered(t);
      }
      RedBlackInsert.InsertCorrect(t, key, o);
      RedBlackInsert.InsertGrowsIff(t, key, o);
      RedBlackInsert.FindReadsContents(t, key);
      root, freed := SetNodes.InsertR(root, created);
      root.SetColor(Black);
    }

    method Lookup(key: Key) returns (o: Option<V>)
      requires Valid()
      ensures o == if key in Model() then Some(Model()[key]) else None
    {
      RedBlackInsert.FindReadsContents(Tree(), key);
      var n := LookupR(root, key);
      o := if n == null then None else Some(n.o);
    }

    /** The set keeps its shape, and its map loses the key together with what the code forgets. */
    method Remove(key: Key)
      requires Valid()
      modifies Repr()
      ensures Valid() && fresh(Repr() - old(Repr()))
      ensures Model() == old(Model()) - ({key} + RedBlackRemove.Forgotten(old(Tree()), key))
      ensures Model() == old(Model()) - {key} <==> !RedBlackRemove.Forgets(old(Tree()), key)
      ensures BlackHeight(Tree()) + (if RedBlackRemove.Shortens(old(Tree()), key) then 1 else 0) == old(BlackHeight(Tree()))
    {
      ghost var t := Tree();
      hide RedBlack.Valid, Contents, RedBlack.RemoveR, RedBlackRemove.Forgets, RedBlackRemove.Forgotten;
      RedBlackRuns.RemoveKeepsShape(t, key);
      RedBlackRemove.RemoveLowersIff(t, key);
      RedBlackRuns.RemoveLosesExactly(t, key);
      RedBlackRuns.RemoveCorrectIff(t, key);
      var done;
      root, done := SetNodes.RemoveR(root, key);
    }

    /** The built-in check; on a set it always answers with the black height. */
    method Verify() returns (height: nat)
      requires Valid()
      ensures height == BlackHeight(Tree()) != 0
    {
      RedBlackRuns.OrderedIsLocallyOrdered(Tree());
      RedBlackRuns.VerifyAcceptsIff(Tree());
      height := VerifyR(root);
    }
  }

  /** The recursion of the check. */
  method VerifyR<V>(n: SetNode?<V>) returns (height: nat)
    requires ValidOrNull(n)
    ensures height == RedBlackRuns.VerifyR(TreeOf(n))
    decreases TreeOf(n)
  {
    if n == null {
      return 1;
    }
    ChildTree(n, Left);
    ChildTree(n, Right);
    if n.color == Red && (SetNodes.IsRed(n.left) || SetNodes.IsRed(n.right)) {
      return 0;
    }
    if (n.left != null && n.left.key >= n.key) || (n.right != null && n.right.key <= n.key) {
      return 0;
    }
    var lh := VerifyR(n.left);
    var rh := VerifyR(n.right);
    if lh != 0 && rh != 0 && lh != rh {
      height := 0;
    } else if lh != 0 && rh != 0 {
      height := if n.color == Black then lh + 1 else lh;
    } else {
      height := 0;
    }
  }
}

/** The closure walk of obl/transaction.c: adopting every object that is not persisted and can be reached from the
    objects a transaction has changed. */
module Closure {
  import opened Words
  import opened AddressMap
  import opened Codec
  import opened RedBlack
  import opened Objects
  import opened World
  import opened WalkOrder
  import opened Changes
  import Store

  /** The objects below an object, in the order the list of obl/storage yields them: what was appended last
      comes first. */
  function Children(o: Obj): seq<Ref> {
    match o.storage
    case ShapeStorage(name, slotNames, current, _) => [current, slotNames, name, o.shape]
    case SlottedStorage(slots) => Reversed(slots) + [o.shape]
    case FixedStorage(contents) => Reversed(contents) + [o.shape]
    case MisreadStorage(name, slotNames, current, _) => [current, slotNames, name, o.shape]
    case _ => []
  }

  function Reversed(links: seq<Ref>): (r: seq<Ref>)
    ensures |r| == |links| && forall i | 0 <= i < |r| :: r[i] == links[|links| - 1 - i]
  {
    if links == [] then [] else [links[|links| - 1]] + Reversed(links[..|links| - 1])
  }

  /** Every reference of an object that can be written is among its children, or a constant. */
  lemma ChildrenSettle(w: World, r: Ref)
    requires r in w.memory && r in w.kinds && w.kinds[r].rank > 0 && WellFormed(w.kinds, w.memory[r], w.kinds[r])
    requires forall i | 0 <= i < |Children(w.memory[r])| :: !Unaddressed(w, Children(w.memory[r])[i])
    ensures Settled(w, r)
  {
    var o := w.memory[r];
    var links, children := o.storage.Links(), Children(o);
    match o.storage
    case ShapeStorage(name, slotNames, current, _) =>
      assert children[0] == current && children[1] == slotNames && children[2] == name && children[3] == o.shape;
    case SlottedStorage(_) =>
      assert children[|links|] == o.shape;
      forall i | 0 <= i < |links| ensures !Unaddressed(w, links[i]) {
        assert children[|links| - 1 - i] == links[i];
      }
    case FixedStorage(_) =>
      assert children[|links|] == o.shape;
      forall i | 0 <= i < |links| ensures !Unaddressed(w, links[i]) {
        assert children[|links| - 1 - i] == links[i];
      }
    case _ =>
  }

  lemma ChildrenLinked(w: World, r: Ref)
    requires Linked(w) && r in w.memory
    ensures forall i | 0 <= i < |Children(w.memory[r])| :: Children(w.memory[r])[i] in w.memory
  {
    var o := w.memory[r];
    assert LinksIn(w.memory, o);
    forall i | 0 <= i < |Children(o)| ensures Children(o)[i] in w.memory {
      assert Children(o)[i] == o.shape || Children(o)[i] in o.storage.Links();
    }
  }

  // ----- Bounds on what a walk can adopt

  /** The words to reserve for an object. */
  function SizeOf(m: Memory, o: Obj, corrected: bool): nat
    requires o.storage.Writable()
  {
    var v := ValueOf(m, o);
    WordSize(v) + if corrected && !Reservable(v) then 1 else 0
  }

  /** The size covers the words of every object that may be persisted. */
  lemma SizeCovers(w: World, r: Ref)
    requires r in w.memory && r in w.kinds && w.kinds[r].rank > 0 && WellFormed(w.kinds, w.memory[r], w.kinds[r])
    requires Served(w.kinds[r].form, w.corrected)
    ensures FormSize(w.kinds[r].form) <= SizeOf(w.memory, w.memory[r], w.corrected)
  {
    ReservationCoversIff(ValueOf(w.memory, w.memory[r]));
  }

  /** A set of objects that holds all a walk can adopt: with an object its children that have no address. Each of
      them can be persisted, at no more than `cost` words with the pages its address may need. */
  ghost predicate Fringe(w: World, fringe: set<Ref>, cost: nat) {
    forall x {:trigger Adoptee(w, fringe, cost, x)} | x in fringe && Unaddressed(w, x) :: Adoptee(w, fringe, cost, x)
  }

  ghost predicate Adoptee(w: World, fringe: set<Ref>, cost: nat, x: Ref)
    requires Unaddressed(w, x)
  {
    && Served(w.kinds[x].form, w.corrected) && IsIntact(w, x)
    && w.memory[x].storage.Writable() && SizeOf(w.memory, w.memory[x], w.corrected) + ASSIGN_WORDS <= cost
    && ChildrenWithin(w, fringe, x)
  }

  ghost predicate ChildrenWithin(w: World, fringe: set<Ref>, x: Ref)
    requires x in w.memory
  {
    forall c | c in Children(w.memory[x]) && Unaddressed(w, c) :: c in fringe
  }

  /** What is left to adopt. */
  function Remaining(w: World, fringe: set<Ref>): set<Ref> {
    set x | x in fringe && Unaddressed(w, x)
  }

  // ----- What a walk does

  /** The walk has adopted exactly `adopted`, each with a new address; the objects themselves, all other objects
      and what is stored are as before. */
  ghost predicate Walked(w: World, w': World, s: nat, fringe: set<Ref>, adopted: seq<Ref>) {
    && w'.kinds == w.kinds && w'.sessions == w.sessions && w'.corrected == w.corrected
    && w'.memory.Keys == w.memory.Keys && w'.layout.disk == w.layout.disk
    && (forall a | a in w.sorts :: a in w'.sorts && w'.sorts[a] == w.sorts[a])
    && (forall a | a in w.layout.extents :: a in w'.layout.extents && w'.layout.extents[a] == w.layout.extents[a])
    && (forall x | x in w.memory && x !in adopted :: w'.memory[x] == w.memory[x])
    && (forall x | x in adopted :: x in fringe && Unaddressed(w, x) && AdoptedBy(w, w', s, x))
    && (forall a | a in w'.sorts && a !in w.sorts :: a in Homes(w'.memory, adopted))
    && Distinct(w', adopted)
  }

  /** The logical addresses of several objects. */
  function Homes(m: Memory, xs: seq<Ref>): set<Word> {
    set x | x in xs :: LogicalOf(m, x)
  }

  /** No object occurs twice, nor does an address. */
  ghost predicate Distinct(w: World, adopted: seq<Ref>) {
    forall i, j {:trigger adopted[i], adopted[j]} | 0 <= i < j < |adopted| ::
      adopted[i] != adopted[j] && LogicalOf(w.memory, adopted[i]) != LogicalOf(w.memory, adopted[j])
  }

  ghost predicate AdoptedBy(w: World, w': World, s: nat, x: Ref) {
    && x in w.memory && x in w'.memory && w'.memory[x].session == Some(s)
    && w'.memory[x].shape == w.memory[x].shape && w'.memory[x].storage == w.memory[x].storage
    && w'.memory[x].logical in w'.sorts && w'.memory[x].logical !in w.sorts && w'.memory[x].logical != UNASSIGNED
    && (w.memory[x].session == None || w.memory[x].session == Some(s)) && IsIntact(w, x)
  }

  lemma WalkedSelf(w: World, s: nat, fringe: set<Ref>)
    ensures Walked(w, w, s, fringe, [])
  {
  }

  lemma DistinctThen(w: World, w1: World, w2: World, s: nat, fringe: set<Ref>, first: seq<Ref>, second: seq<Ref>)
    requires Walked(w, w1, s, fringe, first) && Walked(w1, w2, s, fringe, second)
    ensures Distinct(w2, second + first)
  {
    var all := second + first;
    forall i, j | 0 <= i < j < |all| ensures all[i] != all[j] && LogicalOf(w2.memory, all[i]) != LogicalOf(w2.memory, all[j]) {
      if j >= |second| {
        var x := all[j];
        assert x == first[j - |second|] && AdoptedBy(w, w1, s, x) && x !in second;
        if i >= |second| {
          assert all[i] == first[i - |second|] && all[i] in first && all[i] !in second;
        } else {
          assert all[i] == second[i] && AdoptedBy(w1, w2, s, all[i]);
        }
      }
    }
  }

  lemma WalkedThen(w: World, w1: World, w2: World, s: nat, fringe: set<Ref>, first: seq<Ref>, second: seq<Ref>)
    requires Walked(w, w1, s, fringe, first) && Walked(w1, w2, s, fringe, second)
    ensures Walked(w, w2, s, fringe, second + first)
  {
    var all := second + first;
    DistinctThen(w, w1, w2, s, fringe, first, second);
    forall a | a in w2.sorts && a !in w.sorts ensures a in Homes(w2.memory, all) {
      if a in w1.sorts {
        var x :| x in first && LogicalOf(w1.memory, x) == a;
        assert AdoptedBy(w, w1, s, x) && x !in second;
        assert LogicalOf(w2.memory, x) == a && x in all;
      } else {
        var x :| x in second && LogicalOf(w2.memory, x) == a;
        assert x in all;
      }
    }
    forall x | x in all ensures x in fringe && Unaddressed(w, x) && AdoptedBy(w, w2, s, x) {
      if x in first {
        assert AdoptedBy(w, w1, s, x);
      } else {
        assert AdoptedBy(w1, w2, s, x);
      }
    }
  }

  lemma RemainingShrinks(w: World, w': World, s: nat, fringe: set<Ref>, adopted: seq<Ref>)
    requires Walked(w, w', s, fringe, adopted)
    ensures |Remaining(w', fringe)| <= |Remaining(w, fringe)|
  {
    SubsetSize(Remaining(w', fringe), Remaining(w, fringe));
  }

  lemma {:induction false} SubsetSize<T>(a: set<T>, b: set<T>)
    requires a <= b
    ensures |a| <= |b|
  {
    if a != {} {
      var x :| x in a;
      SubsetSize(a - {x}, b - {x});
    }
  }

  // ----- One step of a walk

  lemma SizeStays(m: Memory, m': Memory, o: Obj, corrected: bool)
    requires o.storage.Writable()
    ensures SizeOf(m', o, corrected) == SizeOf(m, o, corrected)
  {
  }

  lemma FringeStays(w: World, w': World, s: nat, fringe: set<Ref>, cost: nat, adopted: seq<Ref>)
    requires Fringe(w, fringe, cost) && Walked(w, w', s, fringe, adopted)
    ensures Fringe(w', fringe, cost)
  {
    forall x | x in fringe && Unaddressed(w', x) ensures Adoptee(w', fringe, cost, x) {
      assert x !in adopted by {
        assert x in adopted ==> AdoptedBy(w, w', s, x);
      }
      assert Adoptee(w, fringe, cost, x);
      SizeStays(w.memory, w'.memory, w.memory[x], w.corrected);
      ChildrenStayWithin(w, w', s, fringe, adopted, x);
    }
  }

  lemma ChildrenStayWithin(w: World, w': World, s: nat, fringe: set<Ref>, adopted: seq<Ref>, x: Ref)
    requires Walked(w, w', s, fringe, adopted) && x in w.memory && ChildrenWithin(w, fringe, x)
    requires x in w'.memory && Children(w'.memory[x]) == Children(w.memory[x])
    ensures ChildrenWithin(w', fringe, x)
  {
    forall c | c in Children(w'.memory[x]) && Unaddressed(w', c) ensures c in fringe {
      assert c in adopted ==> AdoptedBy(w, w', s, c);
      assert Unaddressed(w, c);
    }
  }

  lemma AdoptedWalked(w: World, s: nat, r: Ref, a: Word, base: Word, size: nat, layout: Store.Layout, fringe: set<Ref>)
    requires Adoptable(w, s, r, a, base, size, layout) && r in fringe && a !in w.sorts
    ensures var w' := Adopted(w, s, r, a, base, layout);
      Walked(w, w', s, fringe, [r]) && |Remaining(w', fringe)| == |Remaining(w, fringe)| - 1 && !Unaddressed(w', r)
  {
    var w' := Adopted(w, s, r, a, base, layout);
    assert AdoptedBy(w, w', s, r);
    assert r in Remaining(w, fringe);
    assert Remaining(w', fringe) == Remaining(w, fringe) - {r};
  }

  /** An object that may be adopted gets its addresses from an allocator that has room. */
  lemma CanBeAdopted(w: World, stale: Stale, s: nat, r: Ref, fringe: set<Ref>, cost: nat)
    requires Held(w, stale) && Fringe(w, fringe, cost) && r in fringe && Unaddressed(w, r) && s < |w.sessions|
    ensures IsIntact(w, r)
    ensures r in w.memory && r in w.kinds && w.memory[r].storage.Writable() && w.memory[r].logical == UNASSIGNED
    ensures w.memory[r].physical == UNASSIGNED
    ensures Served(w.kinds[r].form, w.corrected) && ChildrenWithin(w, fringe, r)
    ensures FormSize(w.kinds[r].form) <= SizeOf(w.memory, w.memory[r], w.corrected)
    ensures SizeOf(w.memory, w.memory[r], w.corrected) + ASSIGN_WORDS <= cost
    ensures |Remaining(w, fringe)| >= 1
  {
    assert Adoptee(w, fringe, cost, r) && Placed(w, r) && WellFormed(w.kinds, w.memory[r], w.kinds[r]);
    assert r in Remaining(w, fringe);
    SizeCovers(w, r);
  }

  lemma AdoptionHolds(w: World, stale: Stale, s: nat, r: Ref, fringe: set<Ref>, cost: nat,
                      a: Word, base: Word, size: nat, layout: Store.Layout, w': World)
    requires Held(w, stale) && Fringe(w, fringe, cost) && r in fringe && Unaddressed(w, r) && s < |w.sessions|
    requires w.memory[r].session == None || w.memory[r].session == Some(s)
    requires w.memory[r].storage.Writable() && size == SizeOf(w.memory, w.memory[r], w.corrected)
    requires Store.NEXT_LOGICAL_ADDR in w.layout.extents && a < ADDRESS_LIMIT
    requires a !in w.layout.extents && a !in w.layout.disk && forall b | b in w.layout.extents :: b < a
    requires layout.extents == w.layout.extents[a := Store.Extent(base, size)] && layout.disk == w.layout.disk
    requires w' == w.(memory := w.memory[r := w.memory[r].(session := Some(s), logical := a, physical := base)],
                      sorts := w.sorts[a := w.kinds[r]], layout := layout)
    ensures Held(w', stale) && Fringe(w', fringe, cost) && Walked(w, w', s, fringe, [r])
    ensures |Remaining(w', fringe)| == |Remaining(w, fringe)| - 1 && !Unaddressed(w', r) && Store.NEXT_LOGICAL_ADDR in layout.extents
  {
    CanBeAdopted(w, stale, s, r, fringe, cost);
    assert a !in w.sorts;
    AdoptHolds(w, stale, s, r, a, base, size, layout);
    AdoptedWalked(w, s, r, a, base, size, layout, fringe);
    FringeStays(w, w', s, fringe, cost, [r]);
  }

  // ----- The recursion of a walk

  /** The walk gives the object addresses, or goes on to one of its children. */
  predicate NeedsAddress(m: Memory, o: Obj) {
    || o.session == None || o.logical == UNASSIGNED
    || exists c | c in Children(o) :: c in m && !IsFixedAddr(m[c].logical) && m[c].session == None
  }

  /** The walk may go to the object. */
  ghost predicate Visitable(w: World, s: nat, fringe: set<Ref>, r: Ref) {
    && r in w.memory && r in w.kinds && w.kinds[r].rank > 0 && IsIntact(w, r)
    && (w.memory[r].session == None || w.memory[r].session == Some(s))
    && (Unaddressed(w, r) ==> r in fringe) && ChildrenWithin(w, fringe, r)
  }

  /** No child is left without an address but those that have a session: the walk passes these by. */
  ghost predicate Visited(w: World, x: Ref) {
    x in w.memory && forall c | c in Children(w.memory[x]) && Unaddressed(w, c) :: Claimed(w, c)
  }

  ghost predicate AllVisited(w: World, xs: seq<Ref>) {
    forall x | x in xs :: Visited(w, x)
  }

  ghost predicate AllSettled(w: World, xs: seq<Ref>) {
    forall x | x in xs :: Settled(w, x)
  }

  /** What a walk from `r` adopts below it has no session before. */
  ghost predicate TakesTransients(w: World, r: Ref, adopted: seq<Ref>) {
    forall x | x in adopted :: x == r || Transient(w, x)
  }

  /** None of the objects has a child, other than `r`, that has a session and no address. */
  ghost predicate NothingSkipped(w: World, r: Ref, xs: seq<Ref>) {
    forall x, c {:trigger IsChild(w, x, c)} | x in xs && IsChild(w, x, c) && Claimed(w, c) :: c == r
  }

  predicate IsChild(w: World, x: Ref, c: Ref) {
    x in w.memory && c in Children(w.memory[x])
  }

  /** After a walk an object refers only to objects with addresses exactly if none of its children was skipped. */
  lemma SettledIff(w: World, stale: Stale, x: Ref)
    requires Held(w, stale) && Visited(w, x) && x in w.kinds && w.kinds[x].rank > 0 && IsIntact(w, x)
    ensures Settled(w, x) <==> forall c :: IsChild(w, x, c) ==> !Claimed(w, c)
  {
    var o := w.memory[x];
    var children := Children(o);
    assert WellFormed(w.kinds, o, w.kinds[x]);
    forall c | IsChild(w, x, c) ensures c == o.shape || c in o.storage.Links() {
      var i :| 0 <= i < |children| && children[i] == c;
    }
    if forall c :: IsChild(w, x, c) ==> !Claimed(w, c) {
      forall i | 0 <= i < |children| ensures !Unaddressed(w, children[i]) {
        assert IsChild(w, x, children[i]);
      }
      ChildrenSettle(w, x);
    }
  }

  /** The walk is at child `i` of `r`: those before it have addresses or a session, and all but `r` that it adopted
      was visited. */
  ghost predicate Visiting(w: World, fringe: set<Ref>, r: Ref, children: seq<Ref>, i: nat, adopted: seq<Ref>) {
    && r in w.memory && r in w.kinds && w.kinds[r].rank > 0 && IsIntact(w, r) && !Unaddressed(w, r)
    && children == Children(w.memory[r]) && ChildrenWithin(w, fringe, r)
    && (forall j | 0 <= j < i && j < |children| && Unaddressed(w, children[j]) :: Claimed(w, children[j]))
    && (forall x | x in adopted :: x == r || Visited(w, x))
  }

  lemma VisitBegins(w: World, stale: Stale, s: nat, fringe: set<Ref>, r: Ref)
    requires Held(w, stale) && Visitable(w, s, fringe, r)
    ensures r in w.memory && Walked(w, w, s, fringe, []) && TakesTransients(w, r, []) && TakesTransients(w, r, [r])
    ensures w.memory[r].session == None || w.memory[r].logical == UNASSIGNED ==>
      Unaddressed(w, r) && r in fringe && (w.memory[r].session == None || w.memory[r].session == Some(s))
    ensures !(w.memory[r].session == None || w.memory[r].logical == UNASSIGNED) ==>
      Visiting(w, fringe, r, Children(w.memory[r]), 0, [])
  {
    assert Placed(w, r);
  }

  lemma AdoptedVisits(w: World, w': World, s: nat, fringe: set<Ref>, r: Ref)
    requires Visitable(w, s, fringe, r) && Walked(w, w', s, fringe, [r]) && !Unaddressed(w', r)
    ensures r in w'.memory && Visiting(w', fringe, r, Children(w'.memory[r]), 0, [r])
  {
    assert AdoptedBy(w, w', s, r);
    ChildrenStayWithin(w, w', s, fringe, [r], r);
  }

  /** The walk goes on to a child that has neither a session nor an address, and to no other. */
  lemma ChildIsNext(w: World, stale: Stale, s: nat, fringe: set<Ref>, cost: nat, r: Ref, children: seq<Ref>, i: nat,
                    adopted: seq<Ref>)
    requires Held(w, stale) && Fringe(w, fringe, cost) && Visiting(w, fringe, r, children, i, adopted) && i < |children|
    ensures children[i] in w.memory
    ensures var next := !IsFixedAddr(w.memory[children[i]].logical) && w.memory[children[i]].session == None;
      && (next ==> Unaddressed(w, children[i]) && Visitable(w, s, fringe, children[i]) && Transient(w, children[i]))
      && (!next ==> Visiting(w, fringe, r, children, i + 1, adopted))
  {
    ChildrenLinked(w, r);
    var c := children[i];
    assert Placed(w, c) && c in Children(w.memory[r]);
    if Unaddressed(w, c) {
      assert Adoptee(w, fringe, cost, c);
    }
  }

  lemma StaysVisited(w: World, w': World, s: nat, fringe: set<Ref>, adopted: seq<Ref>, x: Ref)
    requires Walked(w, w', s, fringe, adopted) && Visited(w, x)
    ensures Visited(w', x)
  {
    assert x in adopted ==> AdoptedBy(w, w', s, x);
    forall c | c in Children(w'.memory[x]) && Unaddressed(w', c) ensures Claimed(w', c) {
      SkippedStays(w, w', s, fringe, adopted, c);
    }
  }

  lemma SkippedStays(w: World, w': World, s: nat, fringe: set<Ref>, adopted: seq<Ref>, c: Ref)
    requires Walked(w, w', s, fringe, adopted) && Unaddressed(w', c)
    ensures c !in adopted && Unaddressed(w, c) && (Claimed(w', c) <==> Claimed(w, c))
  {
    assert c in adopted ==> AdoptedBy(w, w', s, c);
  }

  /** The object's children before the next one stay as they are while another child is walked. */
  lemma VisitingStays(w1: World, w2: World, s: nat, fringe: set<Ref>, r: Ref, children: seq<Ref>, i: nat,
                      adopted: seq<Ref>, below: seq<Ref>)
    requires Walked(w1, w2, s, fringe, below) && AllVisited(w2, below)
    requires Visiting(w1, fringe, r, children, i, adopted) && i < |children| && !Unaddressed(w2, children[i])
    ensures Visiting(w2, fringe, r, children, i + 1, below + adopted)
  {
    assert r !in below by {
      assert r in below ==> Unaddressed(w1, r);
    }
    ChildrenStayWithin(w1, w2, s, fringe, below, r);
    forall x | x in below + adopted ensures x == r || Visited(w2, x) {
      if x in adopted && x != r {
        StaysVisited(w1, w2, s, fringe, below, x);
      }
    }
    forall j | 0 <= j < i + 1 && Unaddressed(w2, children[j]) ensures Claimed(w2, children[j]) {
      SkippedStays(w1, w2, s, fringe, below, children[j]);
    }
  }

  lemma StaysAddressed(w: World, w': World, s: nat, fringe: set<Ref>, adopted: seq<Ref>, x: Ref)
    requires Walked(w, w', s, fringe, adopted)
    ensures !Unaddressed(w, x) ==> !Unaddressed(w', x)
  {
    assert x in adopted ==> AdoptedBy(w, w', s, x);
  }

  lemma TransientBefore(w: World, w': World, s: nat, fringe: set<Ref>, adopted: seq<Ref>, x: Ref)
    requires Walked(w, w', s, fringe, adopted) && Transient(w', x)
    ensures Transient(w, x)
  {
    assert x in adopted ==> AdoptedBy(w, w', s, x);
  }

  lemma ChildVisited(w: World, w1: World, w2: World, s: nat, fringe: set<Ref>, r: Ref, children: seq<Ref>, i: nat,
                     adopted: seq<Ref>, below: seq<Ref>)
    requires Walked(w, w1, s, fringe, adopted) && Walked(w1, w2, s, fringe, below) && AllVisited(w2, below)
    requires Visiting(w1, fringe, r, children, i, adopted) && i < |children| && !Unaddressed(w2, children[i])
    requires TakesTransients(w, r, adopted) && TakesTransients(w1, children[i], below) && Transient(w1, children[i])
    ensures Walked(w, w2, s, fringe, below + adopted) && Visiting(w2, fringe, r, children, i + 1, below + adopted)
    ensures |Remaining(w2, fringe)| <= |Remaining(w1, fringe)| && TakesTransients(w, r, below + adopted)
  {
    hide Walked, Visiting, AllVisited, Transient;
    WalkedThen(w, w1, w2, s, fringe, adopted, below);
    RemainingShrinks(w1, w2, s, fringe, below);
    VisitingStays(w1, w2, s, fringe, r, children, i, adopted, below);
    forall x | x in below ensures Transient(w, x) {
      TransientBefore(w, w1, s, fringe, adopted, x);
    }
  }

  lemma VisitEnds(w: World, fringe: set<Ref>, r: Ref, children: seq<Ref>, adopted: seq<Ref>)
    requires Visiting(w, fringe, r, children, |children|, adopted)
    ensures AllVisited(w, adopted) && Visited(w, r) && !Unaddressed(w, r)
  {
    forall c | c in Children(w.memory[r]) && Unaddressed(w, c) ensures Claimed(w, c) {
      var j :| 0 <= j < |children| && children[j] == c;
    }
  }

  /** A child that has a session and no address is skipped by the walk, unless the walk began there. */
  lemma ClaimedIsSkipped(w: World, w': World, s: nat, fringe: set<Ref>, r: Ref, adopted: seq<Ref>, c: Ref)
    requires Walked(w, w', s, fringe, adopted) && TakesTransients(w, r, adopted) && !Unaddressed(w', r)
    ensures Claimed(w', c) <==> Claimed(w, c) && c != r
  {
    assert c in adopted ==> AdoptedBy(w, w', s, c);
  }

  lemma SameChildren(w: World, w': World, s: nat, fringe: set<Ref>, adopted: seq<Ref>, x: Ref, c: Ref)
    requires Walked(w, w', s, fringe, adopted)
    ensures IsChild(w', x, c) <==> IsChild(w, x, c)
  {
    assert x in adopted ==> AdoptedBy(w, w', s, x);
  }

  /** What may be written after a walk. */
  ghost predicate Writables(w: World, xs: seq<Ref>) {
    forall x | x in xs :: x in w.kinds && w.kinds[x].rank > 0 && IsIntact(w, x)
  }

  /** The walk leaves its root and all it adopted referring only to objects with addresses exactly if none of them
      has a child, other than the root, that had a session and no address beforehand. */
  lemma VisitSettlesIff(w: World, w': World, stale: Stale, s: nat, fringe: set<Ref>, r: Ref, adopted: seq<Ref>,
                        xs: seq<Ref>)
    requires Held(w', stale) && Walked(w, w', s, fringe, adopted) && TakesTransients(w, r, adopted)
    requires !Unaddressed(w', r) && AllVisited(w', xs) && Writables(w', xs)
    ensures AllSettled(w', xs) <==> NothingSkipped(w, r, xs)
  {
    hide Held, Walked, TakesTransients, Claimed, IsChild, Visited, Settled;
    forall x | x in xs ensures Settled(w', x) <==> forall c :: IsChild(w', x, c) ==> !Claimed(w', c) {
      SettledIff(w', stale, x);
    }
    forall x, c ensures IsChild(w', x, c) <==> IsChild(w, x, c) {
      SameChildren(w, w', s, fringe, adopted, x, c);
    }
    forall c ensures Claimed(w', c) <==> Claimed(w, c) && c != r {
      ClaimedIsSkipped(w, w', s, fringe, r, adopted, c);
    }
  }

  lemma WalkedWritables(w: World, w': World, s: nat, fringe: set<Ref>, r: Ref, adopted: seq<Ref>)
    requires Walked(w, w', s, fringe, adopted) && Visitable(w, s, fringe, r)
    ensures Writables(w', [r] + adopted)
  {
    forall x | x in [r] + adopted ensures x in w'.kinds && w'.kinds[x].rank > 0 && IsIntact(w', x) {
      assert x in adopted ==> AdoptedBy(w, w', s, x);
    }
  }

  /** What was visited needs no address. */
  lemma VisitedNeedsNone(w: World, stale: Stale, r: Ref)
    requires Held(w, stale) && Visited(w, r) && !Unaddressed(w, r) && r in w.kinds && w.kinds[r].rank > 0
    ensures !NeedsAddress(w.memory, w.memory[r])
  {
    assert Placed(w, r);
    forall c | c in Children(w.memory[r]) && c in w.memory && w.memory[c].session == None ensures IsFixedAddr(w.memory[c].logical) {
      assert Placed(w, c);
    }
  }

  lemma NothingWalked(w: World, w': World, s: nat, fringe: set<Ref>)
    requires Walked(w, w', s, fringe, [])
    ensures w'.memory == w.memory
  {
    assert forall x | x in w.memory :: x !in [] && w'.memory[x] == w.memory[x];
  }

  lemma NeedsBefore(w: World, w': World, s: nat, fringe: set<Ref>, adopted: seq<Ref>, r: Ref)
    requires Walked(w, w', s, fringe, adopted) && r in w'.memory && NeedsAddress(w'.memory, w'.memory[r])
    ensures r in w.memory && NeedsAddress(w.memory, w.memory[r])
  {
    if r in adopted {
      assert AdoptedBy(w, w', s, r);
    } else {
      forall c | c in Children(w'.memory[r]) && c in w'.memory && w'.memory[c].session == None ensures w.memory[c] == w'.memory[c] {
        assert c in adopted ==> AdoptedBy(w, w', s, c);
      }
    }
  }

  /** What a walk comes to. */
  lemma VisitSettles(w: World, w': World, stale: Stale, s: nat, fringe: set<Ref>, r: Ref, adopted: seq<Ref>)
    requires Held(w', stale) && Visitable(w, s, fringe, r) && Walked(w, w', s, fringe, adopted)
    requires TakesTransients(w, r, adopted) && AllVisited(w', adopted) && Visited(w', r) && !Unaddressed(w', r)
    ensures r in w.memory && (NeedsAddress(w.memory, w.memory[r]) ==> adopted != [])
    ensures AllSettled(w', [r] + adopted) <==> NothingSkipped(w, r, [r] + adopted)
  {
    hide Held, Walked, Visited, TakesTransients, NothingSkipped;
    WalkedWritables(w, w', s, fringe, r, adopted);
    assert r in [r] + adopted;
    VisitSettlesIff(w, w', stale, s, fringe, r, adopted, [r] + adopted);
    VisitedNeedsNone(w', stale, r);
    if adopted == [] {
      NothingWalked(w, w', s, fringe);
    }
  }

  lemma ChildNeedsAddress(w: World, r: Ref, c: Ref)
    requires r in w.memory && c in Children(w.memory[r]) && Transient(w, c) && !IsFixedAddr(w.memory[c].logical)
    ensures NeedsAddress(w.memory, w.memory[r])
  {
  }

  // ----- The order of a walk

  /** The list of children goes through the references from the last to the first, and then to the shape. */
  lemma ChildAt(o: Obj, i: nat)
    requires i < |Children(o)|
    ensures |Children(o)| == |o.storage.Links()| + 1
    ensures Children(o)[i] == if i < |o.storage.Links()| then o.storage.Links()[|o.storage.Links()| - 1 - i] else o.shape
  {
  }

  lemma ChildIsKin(o: Obj, i: nat)
    requires i < |Children(o)|
    ensures Kin(o, |o.storage.Links()| - (i + 1), Children(o)[i])
  {
    hide Children;
    ChildAt(o, i);
  }

  lemma KinIsChild(o: Obj, i: nat, c: Ref)
    requires i <= |Children(o)| && Children(o) != [] && Kin(o, |o.storage.Links()| - i, c)
    ensures exists k :: 0 <= k < i && Children(o)[k] == c
  {
    hide Children;
    var links := o.storage.Links();
    ChildAt(o, 0);
    if |links| - i < 0 && c == o.shape {
      ChildAt(o, |links|);
    } else {
      var k :| 0 <= k < |links| && |links| - i <= k && links[k] == c;
      ChildAt(o, |links| - 1 - k);
    }
  }

  lemma ChildCount(o: Obj)
    ensures |Children(o)| == |o.storage.Links()| + 1 || (|Children(o)| == 0 && |o.storage.Links()| == 0)
  {
  }

  /** What has no children in the list has no references, and a shape with an address. */
  lemma ShapeAddressed(w: World, stale: Stale, x: Ref)
    requires Held(w, stale) && x in w.memory && x in w.kinds && w.kinds[x].rank > 0 && IsIntact(w, x)
    ensures Children(w.memory[x]) == [] ==> w.memory[x].storage.Links() == [] && !Unaddressed(w, w.memory[x].shape)
  {
    assert WellFormed(w.kinds, w.memory[x], w.kinds[x]);
  }

  /** An object without an address that another refers to is among its children. */
  lemma RefersToChild(w: World, stale: Stale, x: Ref, c: Ref)
    requires Held(w, stale) && x in w.memory && x in w.kinds && w.kinds[x].rank > 0 && IsIntact(w, x)
    requires Unaddressed(w, c) && RefersTo(w.memory[x], c)
    ensures c in Children(w.memory[x])
  {
    hide Children, Held;
    var o := w.memory[x];
    ShapeAddressed(w, stale, x);
    var links := o.storage.Links();
    if Children(o) != [] {
      ChildAt(o, 0);
      if c in links {
        var k :| 0 <= k < |links| && links[k] == c;
        ChildAt(o, |links| - 1 - k);
      } else {
        ChildAt(o, |links|);
      }
    }
  }

  lemma AdoptedStays(w: World, w1: World, w2: World, s: nat, fringe: set<Ref>, adopted: seq<Ref>, below: seq<Ref>, x: Ref)
    requires Walked(w, w1, s, fringe, adopted) && Walked(w1, w2, s, fringe, below) && x in adopted
    ensures SameAt(w1.memory, w2.memory, x) && x !in below
  {
    assert AdoptedBy(w, w1, s, x);
    assert x in below ==> Unaddressed(w1, x);
  }

  lemma BelowIsTransient(w1: World, w2: World, s: nat, fringe: set<Ref>, c: Ref, below: seq<Ref>, y: Ref)
    requires Walked(w1, w2, s, fringe, below) && TakesTransients(w1, c, below) && Transient(w1, c) && y in below
    ensures Transient(w1, y) && Unaddressed(w1, y) && y in w2.memory
  {
    assert AdoptedBy(w1, w2, s, y);
  }

  /** What was visited refers to nothing that still can be adopted. */
  lemma VisitedRefersToNone(w1: World, stale: Stale, z: Ref, y: Ref)
    requires Held(w1, stale) && Visited(w1, z) && z in w1.kinds && w1.kinds[z].rank > 0 && IsIntact(w1, z)
    requires Transient(w1, y) && Unaddressed(w1, y)
    ensures !RefersTo(w1.memory[z], y)
  {
    hide Held;
    if RefersTo(w1.memory[z], y) {
      RefersToChild(w1, stale, z, y);
    }
  }

  lemma VisitedIsWhole(w: World, w1: World, s: nat, fringe: set<Ref>, r: Ref, children: seq<Ref>, i: nat,
                       adopted: seq<Ref>, z: Ref)
    requires Walked(w, w1, s, fringe, adopted) && Visiting(w1, fringe, r, children, i, adopted) && z in adopted && z != r
    ensures Visited(w1, z) && z in w1.kinds && w1.kinds[z].rank > 0 && IsIntact(w1, z)
  {
    assert AdoptedBy(w, w1, s, z);
  }

  lemma KinBeforeIsAdopted(w1: World, fringe: set<Ref>, r: Ref, children: seq<Ref>, i: nat, adopted: seq<Ref>, y: Ref)
    requires Visiting(w1, fringe, r, children, i, adopted) && i < |children| && Transient(w1, y) && Unaddressed(w1, y)
    ensures r in w1.memory && !Kin(w1.memory[r], |w1.memory[r].storage.Links()| - i, y)
  {
    if Kin(w1.memory[r], |w1.memory[r].storage.Links()| - i, y) {
      KinIsChild(w1.memory[r], i, y);
    }
  }

  lemma RootStays(w1: World, w2: World, s: nat, fringe: set<Ref>, r: Ref, children: seq<Ref>, i: nat, adopted: seq<Ref>,
                  below: seq<Ref>)
    requires Walked(w1, w2, s, fringe, below) && Visiting(w1, fringe, r, children, i, adopted)
    ensures SameAt(w1.memory, w2.memory, r) && r !in below && children == Children(w1.memory[r])
  {
    assert r in below ==> Unaddressed(w1, r);
  }

  /** What is adopted below a child was no child of what had been adopted before. */
  lemma ChildAdoptsMore(w: World, w1: World, stale: Stale, w2: World, s: nat, fringe: set<Ref>, r: Ref, children: seq<Ref>,
                        i: nat, adopted: seq<Ref>, below: seq<Ref>, first: nat)
    requires Held(w1, stale) && Walked(w, w1, s, fringe, adopted) && Walked(w1, w2, s, fringe, below)
    requires Visiting(w1, fringe, r, children, i, adopted) && i < |children| && Transient(w1, children[i])
    requires TakesTransients(w1, children[i], below)
    requires Numbered(w1.memory, adopted, first) && Numbered(w2.memory, below, first + |adopted|)
    ensures AdoptsMore(w1.memory, w2.memory, adopted, below, r, first + |adopted|)
  {
    hide Held, Numbered, Kin, Walked, Visiting, Visited, Transient, Unaddressed, TakesTransients, RefersTo;
    NumberedWindow(w1.memory, adopted, first);
    NumberedWindow(w2.memory, below, first + |adopted|);
    forall x | x in adopted ensures SameAt(w1.memory, w2.memory, x) {
      AdoptedStays(w, w1, w2, s, fringe, adopted, below, x);
    }
    forall y | y in below ensures y in w2.memory {
      BelowIsTransient(w1, w2, s, fringe, children[i], below, y);
    }
    forall z, y | z in adopted && z != r && y in below ensures z in w1.memory && !RefersTo(w1.memory[z], y) {
      VisitedIsWhole(w, w1, s, fringe, r, children, i, adopted, z);
      AdoptedStays(w, w1, w2, s, fringe, adopted, below, z);
      BelowIsTransient(w1, w2, s, fringe, children[i], below, y);
      VisitedRefersToNone(w1, stale, z, y);
    }
  }

  /** The walk goes on to a child: the addresses go on, and so does the order. */
  lemma ChildInOrder(w: World, w1: World, stale: Stale, w2: World, s: nat, fringe: set<Ref>, r: Ref, children: seq<Ref>,
                     i: nat, adopted: seq<Ref>, below: seq<Ref>, first: nat)
    requires Held(w1, stale) && Walked(w, w1, s, fringe, adopted) && Walked(w1, w2, s, fringe, below)
    requires Visiting(w1, fringe, r, children, i, adopted) && i < |children| && Transient(w1, children[i])
    requires TakesTransients(w1, children[i], below) && Unaddressed(w1, children[i]) && !Unaddressed(w2, children[i])
    requires r in w1.memory
    requires Numbered(w1.memory, adopted, first) && Numbered(w2.memory, below, first + |adopted|)
    requires WalkedInOrder(w1.memory, adopted, first, r, |w1.memory[r].storage.Links()| - i)
    requires WalkedInOrder(w2.memory, below, first + |adopted|, children[i], -1)
    ensures Numbered(w2.memory, below + adopted, first) && r in w2.memory
    ensures WalkedInOrder(w2.memory, below + adopted, first, r, |w2.memory[r].storage.Links()| - (i + 1))
  {
    hide Held, Numbered, Kin, WalkedInOrder, AdoptsMore, Walked, Visiting, Transient, TakesTransients;
    var j := |w1.memory[r].storage.Links()| - (i + 1);
    ChildAdoptsMore(w, w1, stale, w2, s, fringe, r, children, i, adopted, below, first);
    RootStays(w1, w2, s, fringe, r, children, i, adopted, below);
    ChildIsKin(w1.memory[r], i);
    ChildIsAdopted(w1, w2, s, fringe, below, children[i]);
    forall y | y in below ensures !Kin(w1.memory[r], j + 1, y) {
      BelowIsTransient(w1, w2, s, fringe, children[i], below, y);
      KinBeforeIsAdopted(w1, fringe, r, children, i, adopted, y);
    }
    forall x | x in adopted ensures LogicalOf(w2.memory, x) == LogicalOf(w1.memory, x) {
      WindowAt(w1.memory, w2.memory, adopted, below, r, first + |adopted|, x);
    }
    NumberedThen(w1.memory, w2.memory, adopted, below, first);
    WalkGoesOn(w1.memory, w2.memory, adopted, below, first, r, j, children[i]);
  }

  lemma ChildIsAdopted(w1: World, w2: World, s: nat, fringe: set<Ref>, below: seq<Ref>, c: Ref)
    requires Walked(w1, w2, s, fringe, below) && Unaddressed(w1, c) && !Unaddressed(w2, c)
    ensures c in below && c in w2.memory
  {
  }

  lemma WalkEnds(m: Memory, adopted: seq<Ref>, first: nat, r: Ref)
    requires r in m
    requires WalkedInOrder(m, adopted, first, r, |m[r].storage.Links()| - |Children(m[r])|)
    ensures WalkedInOrder(m, adopted, first, r, -1)
  {
    hide WalkedInOrder;
    ChildCount(m[r]);
    WalkSkips(m, adopted, first, r, |m[r].storage.Links()| - |Children(m[r])|, -1);
  }
}

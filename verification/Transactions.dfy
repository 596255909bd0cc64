/** Transactions (obl/transaction.c, obl/session.c): the closure walk, commit, abort, and the notice other sessions
    get. Each method that a program calls keeps what holds between calls. */
module Transactions {
  import opened Words
  import opened AddressMap
  import opened Codec
  import opened RedBlack
  import opened RedBlackInsert
  import opened SetIterators
  import opened Objects
  import opened WalkOrder
  import opened World
  import opened Allocation
  import opened Changes
  import opened Closure
  import opened Committing
  import opened Notice
  import opened ObjectBase
  import opened Reading
  import opened Renewal
  import Store
  import StoreRuns

  // ----- The closure walk

  /** Words and addresses suffice for all that is left to adopt. */
  ghost predicate Room(e: ObjectBase, fringe: set<Ref>, cost: nat)
    reads e, e.db
  {
    && e.db.nextPhysical + |Remaining(e.Now(), fringe)| * cost <= e.db.content.Length
    && e.db.nextLogical + |Remaining(e.Now(), fringe)| <= ADDRESS_LIMIT
  }

  ghost predicate Walkable(e: ObjectBase, fringe: set<Ref>, cost: nat, stale: Stale)
    reads e, e.db, e.db.content
  {
    && e.db.Valid() && Store.NEXT_LOGICAL_ADDR in e.db.layout.extents && Held(e.Now(), stale)
    && Fringe(e.Now(), fringe, cost) && Room(e, fringe, cost)
  }

  lemma WalkableParts(e: ObjectBase, fringe: set<Ref>, cost: nat, stale: Stale)
    requires Walkable(e, fringe, cost, stale)
    ensures e.db.Valid() && Store.NEXT_LOGICAL_ADDR in e.db.layout.extents && Held(e.Now(), stale) && Fringe(e.Now(), fringe, cost)
    ensures e.db.nextPhysical + |Remaining(e.Now(), fringe)| * cost <= e.db.content.Length
    ensures e.db.nextLogical + |Remaining(e.Now(), fringe)| <= ADDRESS_LIMIT
    ensures e.Now() == World(e.memory, e.kinds, e.sessions, e.db.layout, e.sorts, e.corrected)
  {
  }

  lemma WalkableFrom(e: ObjectBase, fringe: set<Ref>, cost: nat, stale: Stale)
    requires e.db.Valid() && Store.NEXT_LOGICAL_ADDR in e.db.layout.extents && Held(e.Now(), stale) && Fringe(e.Now(), fringe, cost)
    requires e.db.nextPhysical + |Remaining(e.Now(), fringe)| * cost <= e.db.content.Length
    requires e.db.nextLogical + |Remaining(e.Now(), fringe)| <= ADDRESS_LIMIT
    ensures Walkable(e, fringe, cost, stale)
  {
  }

  /** What is spent of words and addresses is no more than was set aside for the objects adopted. */
  predicate Spending(logical: nat, physical: nat, remaining: nat, logical': nat, physical': nat, remaining': nat,
                     cost: nat) {
    logical' + remaining' == logical + remaining && physical' + remaining' * cost <= physical + remaining * cost
  }

  lemma SpendingIs(logical: nat, physical: nat, remaining: nat, logical': nat, physical': nat, remaining': nat,
                   cost: nat)
    requires logical' + remaining' == logical + remaining
    requires physical' + remaining' * cost <= physical + remaining * cost
    ensures Spending(logical, physical, remaining, logical', physical', remaining', cost)
  {
  }

  lemma SpendingThen(l: nat, p: nat, r: nat, l1: nat, p1: nat, r1: nat, l2: nat, p2: nat, r2: nat, cost: nat)
    requires Spending(l, p, r, l1, p1, r1, cost) && Spending(l1, p1, r1, l2, p2, r2, cost)
    ensures Spending(l, p, r, l2, p2, r2, cost)
  {
  }

  lemma TimesLess(n: nat, c: nat)
    requires n > 0
    ensures (n - 1) * c + c == n * c
  {
  }

  /** Gives an object that is not persisted both addresses, and a session if it has none. */
  method Adopt(e: ObjectBase, s: nat, r: Ref, ghost fringe: set<Ref>, ghost cost: nat, ghost stale: Stale)
    requires Walkable(e, fringe, cost, stale) && s < |e.sessions| && r in fringe && Unaddressed(e.Now(), r)
    requires e.memory[r].session == None || e.memory[r].session == Some(s)
    modifies e`memory, e`sorts, e.db, e.db.content
    ensures Walkable(e, fringe, cost, stale) && Walked(old(e.Now()), e.Now(), s, fringe, [r])
    ensures |Remaining(e.Now(), fringe)| == |Remaining(old(e.Now()), fringe)| - 1 && !Unaddressed(e.Now(), r)
    ensures LogicalOf(e.memory, r) == old(e.db.nextLogical) && e.db.nextLogical == old(e.db.nextLogical) + 1
    ensures Spending(old(e.db.nextLogical), old(e.db.nextPhysical), |Remaining(old(e.Now()), fringe)|,
                     e.db.nextLogical, e.db.nextPhysical, |Remaining(e.Now(), fringe)|, cost)
  {
    hide *;
    ghost var w := e.Now();
    WalkableParts(e, fringe, cost, stale);
    CanBeAdopted(w, stale, s, r, fringe, cost);
    TimesLess(|Remaining(w, fringe)|, cost);
    var o := e.memory[r];
    var size := SizeOf(e.memory, o, e.corrected);
    var logical, physical := e.db.AssignAddresses(size);
    e.memory := e.memory[r := o.(session := Some(s), logical := logical, physical := physical)];
    e.sorts := e.sorts[logical := e.kinds[r]];
    NowIs(e);
    LogicalIs(e.memory, r);
    AdoptionHolds(w, stale, s, r, fringe, cost, logical, physical, size, e.db.layout, e.Now());
    WalkableFrom(e, fringe, cost, stale);
    SpendingIs(old(e.db.nextLogical), old(e.db.nextPhysical), |Remaining(w, fringe)|,
               e.db.nextLogical, e.db.nextPhysical, |Remaining(e.Now(), fringe)|, cost);
  }

  lemma LogicalIs(m: Memory, r: Ref)
    requires r in m
    ensures LogicalOf(m, r) == m[r].logical
  {
  }

  lemma NowIs(e: ObjectBase)
    ensures e.Now() == World(e.memory, e.kinds, e.sessions, e.db.layout, e.sorts, e.corrected)
  {
  }

  /** Adopts what is not persisted below `r`, and `r` itself if it is not. Objects that have a session end the walk,
      and adoption gives one, so it ends on cycles. A child that has a session and no address is passed by, and what
      refers to it is not settled. */
  method Visit(e: ObjectBase, s: nat, r: Ref, adopted: seq<Ref>, ghost fringe: set<Ref>, ghost cost: nat,
               ghost stale: Stale)
    returns (more: seq<Ref>, ghost gained: seq<Ref>)
    requires Walkable(e, fringe, cost, stale) && s < |e.sessions| && Visitable(e.Now(), s, fringe, r)
    modifies e`memory, e`sorts, e.db, e.db.content
    ensures Walkable(e, fringe, cost, stale) && Walked(old(e.Now()), e.Now(), s, fringe, gained)
    ensures more == gained + adopted && |e.sessions| == |old(e.sessions)|
    ensures AllVisited(e.Now(), gained) && Visited(e.Now(), r) && !Unaddressed(e.Now(), r)
    ensures TakesTransients(old(e.Now()), r, gained)
    ensures gained != [] <==> NeedsAddress(old(e.memory), old(e.memory)[r])
    ensures AllSettled(e.Now(), [r] + gained) <==> NothingSkipped(old(e.Now()), r, [r] + gained)
    ensures gained == [] ==> e.db.nextPhysical == old(e.db.nextPhysical)
    ensures Numbered(e.memory, gained, old(e.db.nextLogical)) && e.db.nextLogical == old(e.db.nextLogical) + |gained|
    ensures WalkedInOrder(e.memory, gained, old(e.db.nextLogical), r, -1)
    ensures Spending(old(e.db.nextLogical), old(e.db.nextPhysical), |Remaining(old(e.Now()), fringe)|,
                     e.db.nextLogical, e.db.nextPhysical, |Remaining(e.Now(), fringe)|, cost)
    decreases |Remaining(e.Now(), fringe)|, if e.memory[r].logical == UNASSIGNED then 0 else 1
  {
    hide *;
    ghost var w := e.Now();
    WalkableParts(e, fringe, cost, stale);
    VisitBegins(w, stale, s, fringe, r);
    more, gained := adopted, [];
    ghost var l, p, n := e.db.nextLogical, e.db.nextPhysical, |Remaining(w, fringe)|;
    SpendingIs(l, p, n, l, p, n, cost);
    WalkStarts(e.memory, l, r);
    if e.memory[r].session == None || e.memory[r].logical == UNASSIGNED {
      Adopt(e, s, r, fringe, cost, stale);
      more, gained := [r] + more, [r];
      AdoptedVisits(w, e.Now(), s, fringe, r);
      NoneNeeded(w.memory, w.memory[r]);
      NowIs(e);
      WalkStarts(e.memory, l, r);
    }
    WalkableParts(e, fringe, cost, stale);
    var children := Children(e.memory[r]);
    for i := 0 to |children|
      invariant Walkable(e, fringe, cost, stale) && Walked(w, e.Now(), s, fringe, gained) && more == gained + adopted
      invariant Visiting(e.Now(), fringe, r, children, i, gained) && TakesTransients(w, r, gained)
      invariant |e.sessions| == |old(e.sessions)| && (gained != [] ==> NeedsAddress(w.memory, w.memory[r]))
      invariant gained == [] ==> e.db.nextPhysical == old(e.db.nextPhysical)
      invariant Numbered(e.memory, gained, l) && e.db.nextLogical == l + |gained| && r in e.memory
      invariant WalkedInOrder(e.memory, gained, l, r, |e.memory[r].storage.Links()| - i)
      invariant Spending(l, p, n, e.db.nextLogical, e.db.nextPhysical, |Remaining(e.Now(), fringe)|, cost)
      invariant |Remaining(e.Now(), fringe)| + (if old(e.memory)[r].logical == UNASSIGNED then 1 else 0) <= |Remaining(w, fringe)|
    {
      ghost var w1 := e.Now();
      WalkableParts(e, fringe, cost, stale);
      ChildIsNext(w1, stale, s, fringe, cost, r, children, i, gained);
      if !IsFixedAddr(e.memory[children[i]].logical) && e.memory[children[i]].session == None {
        ghost var below;
        NoAddress(w1, children[i]);
        ChildNeeds(w, w1, s, fringe, r, children, i, gained);
        ghost var l1, p1, n1 := e.db.nextLogical, e.db.nextPhysical, |Remaining(w1, fringe)|;
        more, below := Visit(e, s, children[i], more, fringe, cost, stale);
        WalkableParts(e, fringe, cost, stale);
        ChildInOrder(w, w1, stale, e.Now(), s, fringe, r, children, i, gained, below, l);
        ChildVisited(w, w1, e.Now(), s, fringe, r, children, i, gained, below);
        gained := below + gained;
        SpendingThen(l, p, n, l1, p1, n1, e.db.nextLogical, e.db.nextPhysical, |Remaining(e.Now(), fringe)|, cost);
      } else {
        WalkSkips(e.memory, gained, l, r, |e.memory[r].storage.Links()| - i, |e.memory[r].storage.Links()| - (i + 1));
      }
    }
    WalkableParts(e, fringe, cost, stale);
    VisitingIs(e.Now(), fringe, r, children, gained);
    WalkEnds(e.memory, gained, l, r);
    VisitEnds(e.Now(), fringe, r, children, gained);
    VisitSettles(w, e.Now(), stale, s, fringe, r, gained);
  }

  lemma WalkStarts(m: Memory, first: nat, r: Ref)
    requires r in m
    ensures WalkedInOrder(m, [], first, r, |m[r].storage.Links()| - 0) && Numbered(m, [], first)
    ensures LogicalOf(m, r) == first ==> WalkedInOrder(m, [r], first, r, |m[r].storage.Links()| - 0) && Numbered(m, [r], first)
  {
    WalkBegins(m, first, r, |m[r].storage.Links()|);
  }

  lemma VisitingIs(w: World, fringe: set<Ref>, r: Ref, children: seq<Ref>, adopted: seq<Ref>)
    requires Visiting(w, fringe, r, children, |children|, adopted)
    ensures r in w.memory && children == Children(w.memory[r])
  {
  }

  lemma NoneNeeded(m: Memory, o: Obj)
    requires o.session == None || o.logical == UNASSIGNED
    ensures NeedsAddress(m, o)
  {
  }

  /** A child that has no session now had none when the walk began. */
  lemma ChildNeeds(w: World, w1: World, s: nat, fringe: set<Ref>, r: Ref, children: seq<Ref>, i: nat, adopted: seq<Ref>)
    requires Walked(w, w1, s, fringe, adopted) && Visiting(w1, fringe, r, children, i, adopted) && i < |children|
    requires Transient(w1, children[i]) && !IsFixedAddr(w1.memory[children[i]].logical)
    ensures r in w.memory && NeedsAddress(w.memory, w.memory[r])
  {
    var c := children[i];
    TransientBefore(w, w1, s, fringe, adopted, c);
    SameChildren(w, w1, s, fringe, adopted, r, c);
    assert c in adopted ==> AdoptedBy(w, w1, s, c);
    assert c in Children(w1.memory[r]);
    ChildNeedsAddress(w, r, c);
  }

  lemma NoAddress(w: World, r: Ref)
    requires Unaddressed(w, r)
    ensures r in w.memory && w.memory[r].logical == UNASSIGNED
  {
  }

  // ----- Refreshing

  lemma ReadyFrom(e: ObjectBase, stale: Stale)
    requires e.stubDepth > 0 && e.Fresh() && Held(e.Now(), stale) && AllStored(e.Now())
    ensures e.Ready(stale)
  {
  }

  lemma StillFresh(e: ObjectBase, m: Memory)
    requires (forall r | r in m :: r < e.nextRef) && e.memory.Keys == m.Keys
    ensures e.Fresh()
  {
  }

  /** Replaces an object's shape and storage by what the file has at its address, read as deep as configured. */
  method Refresh(e: ObjectBase, s: nat, r: Ref, ghost k: Key, ghost stale: Stale)
    requires e.db.Valid() && e.Ready(stale) && HoldsAt(e.Now(), s, k, r)
    modifies e`memory, e`nextRef, e`sessions, e`kinds
    ensures e.Ready(stale - {(s, k)}) && Renews(old(e.Now()), e.Now(), s, {r}) && |e.sessions| == |old(e.sessions)|
    ensures HoldsAt(e.Now(), s, k, r) && Current(e.Now(), r) && Untouched(old(e.Now()), e.Now(), s, RankAt(e.sorts, k))
    ensures IsDeep(e.Now(), r, e.stubDepth - 1) && FetchedBelow(old(e.Now()), e.Now(), s, k, e.stubDepth)
  {
    hide *;
    ghost var w := e.Now();
    e.ReadyParts(stale);
    CanRefresh(w, stale, s, k, r);
    var n := e.ReadObject(s, e.memory[r].physical, e.stubDepth, k, stale);
    e.ReadyParts(stale);
    ReadRefreshes(w, stale, e.Now(), s, k, r, n);
    RefreshReads(w, stale, e.Now(), s, k, r, n, e.stubDepth);
    ghost var m, w1 := e.memory, e.Now();
    e.memory := e.memory[r := e.memory[r].(shape := n.shape, storage := n.storage)];
    NowIs(e);
    UntouchedStill(w, w1, e.Now(), s, RankAt(e.sorts, k));
    StillFresh(e, m);
    ReadyFrom(e, stale - {(s, k)});
  }

  /** Refreshes an object that has no physical address: what is read is the header of the file, taken for a shape. */
  method Misread(e: ObjectBase, s: nat, r: Ref, ghost k: Key, ghost stale: Stale)
    requires e.db.Valid() && e.Ready(stale) && Hollow(e.Now(), s, k, r) && !e.corrected && e.stubDepth > 1
    modifies e`memory, e`nextRef, e`sessions, e`kinds
    ensures e.Ready(stale - {(s, k)}) && Renews(old(e.Now()), e.Now(), s, {r}) && |e.sessions| == |old(e.sessions)|
    ensures HeaderShaped(e.Now(), s, r) && IsMisread(e.Now(), r)
    ensures Untouched(old(e.Now()), e.Now(), s, HeaderRank(old(e.Now()), s))
    ensures UndoneSeen(old(e.Now()), e.Now(), s, k, e.stubDepth)
  {
    hide *;
    ghost var w := e.Now();
    e.ReadyParts(stale);
    HollowSession(w, s, k, r);
    var magic, page, allocator, names, format := e.db.ReadHeaderWords();
    var shape := e.Fault(s, magic, 3, stale);
    MagicIsNil(w, stale, e.Now(), s, shape);
    var name := e.Fault(s, page, e.stubDepth - 1, stale);
    ghost var w1 := e.Now();
    e.ReadyParts(stale);
    var slotNames := e.Fault(s, allocator, e.stubDepth - 1, stale);
    ghost var w2 := e.Now();
    e.ReadyParts(stale);
    var current := e.Fault(s, names, e.stubDepth - 1, stale);
    e.ReadyParts(stale);
    ZeroIsNil(w2, stale, e.Now(), s, e.stubDepth - 1, current);
    HeaderIsRead(w, stale, w1, w2, s, e.stubDepth - 1, name, slotNames);
    HeaderIsFound(w, stale, w1, w2, s, e.stubDepth - 1, name, slotNames);
    HeaderTouches(w, stale, w1, w2, s, e.stubDepth - 1, name, slotNames);
    MisreadRenews(w, stale, e.Now(), s, k, r, name, slotNames, current, format);
    ghost var m, w3 := e.memory, e.Now();
    e.memory := e.memory[r := e.memory[r].(shape := shape, storage := MisreadStorage(name, slotNames, current, format))];
    NowIs(e);
    assert w3 == w2;
    assert e.Now() == w2.(memory := w2.memory[r := w2.memory[r].(shape := NIL, storage := MisreadStorage(name, slotNames, NIL, UNASSIGNED))]);
    HeaderTaken(w, stale, w1, w2, e.Now(), s, k, r, e.stubDepth, name, slotNames);
    UntouchedStill(w, w3, e.Now(), s, HeaderRank(w, s));
    StillFresh(e, m);
    ReadyFrom(e, stale - {(s, k)});
  }

  lemma HeaderTaken(w: World, stale: Stale, w1: World, w2: World, w': World, s: nat, k: Key, r: Ref, depth: int,
                    name: Ref, slotNames: Ref)
    requires Held(w, stale) && Held(w2, stale) && Hollow(w, s, k, r) && !w.corrected && r in w2.memory
    requires Fetched(w, w1, s, Store.FIRST_PAGE, depth - 1) && Fetched(w1, w2, s, Store.ALLOCATOR_ADDR, depth - 1)
    requires Faulted(w, w1, s, Store.FIRST_PAGE, depth - 1, name)
    requires HeaderRead(w, w2, s, name, slotNames, NIL) && s < |w2.sessions|
    requires name == Found(w2, s, Store.FIRST_PAGE) && slotNames == Found(w2, s, Store.ALLOCATOR_ADDR)
    requires w' == w2.(memory := w2.memory[r := w2.memory[r].(shape := NIL, storage := MisreadStorage(name, slotNames, NIL, UNASSIGNED))])
    ensures HeaderShaped(w', s, r) && IsMisread(w', r) && UndoneSeen(w, w', s, k, depth)
  {
    hide Held, Contents, Fetched, NewlyRead, UndoneSeen, Hollow;
    if k == UNASSIGNED {
      ClaimedSeen(w, stale, w1, w2, w', s, r, depth);
    } else {
      MisreadSeen(w, stale, w1, w2, w', s, k, r, depth);
    }
  }

  lemma HollowSession(w: World, s: nat, k: Key, r: Ref)
    requires Hollow(w, s, k, r)
    ensures s < |w.sessions| && r in w.memory
  {
  }

  /** The magic word is no address. */
  lemma MagicIsNil(w: World, stale: Stale, w': World, s: nat, r: Ref)
    requires Held(w, stale) && Faulted(w, w', s, Store.MAGIC, 3, r)
    ensures r == NIL && w' == w
  {
    AddressHeld(w, stale, Store.MAGIC);
  }

  lemma ZeroIsNil(w: World, stale: Stale, w': World, s: nat, depth: int, r: Ref)
    requires Held(w, stale) && Faulted(w, w', s, UNASSIGNED, depth, r)
    ensures r == NIL && w' == w
  {
    AddressHeld(w, stale, UNASSIGNED);
  }

  /** What the refresh of an object did. */
  ghost predicate RefreshedOne(w: World, w': World, s: nat, k: Key, r: Ref, turned: set<Ref>, depth: int) {
    && Renews(w, w', s, turned) && UndoneSeen(w, w', s, k, depth)
    && if HoldsAt(w, s, k, r) then
         && turned == {r} && Current(w', r) && IsDeep(w', r, depth - 1) && HoldsAt(w', s, k, r)
         && Untouched(w, w', s, RankAt(w.sorts, k))
       else if w.corrected then turned == {} && w' == w
       else turned == {r} && HeaderShaped(w', s, r) && IsMisread(w', r) && Untouched(w, w', s, HeaderRank(w, s))
  }

  /** Refreshes one object, from its words if it has any. As written, one that has none is refreshed from the header. */
  method RefreshObject(e: ObjectBase, s: nat, r: Ref, ghost k: Key, ghost stale: Stale) returns (ghost turned: set<Ref>)
    requires e.db.Valid() && e.Ready(stale) && (HoldsAt(e.Now(), s, k, r) || Hollow(e.Now(), s, k, r))
    requires e.corrected || e.stubDepth > 1
    modifies e`memory, e`nextRef, e`sessions, e`kinds
    ensures e.Ready(stale - {(s, k)}) && |e.sessions| == |old(e.sessions)|
    ensures RefreshedOne(old(e.Now()), e.Now(), s, k, r, turned, e.stubDepth)
  {
    hide *;
    ghost var w := e.Now();
    e.ReadyParts(stale);
    PlaceTells(e, stale, s, k, r);
    turned := {r};
    if e.memory[r].physical != UNASSIGNED {
      Refresh(e, s, r, k, stale);
      RefreshSeen(w, stale, e.Now(), s, k, r, e.stubDepth);
      RefreshedIs(w, e.Now(), s, k, r, e.stubDepth);
    } else if e.corrected {
      turned := {};
      HollowSkipped(w, stale, s, k, r, e.stubDepth);
      ReadyFrom(e, stale - {(s, k)});
    } else {
      Misread(e, s, r, k, stale);
      NowIs(e);
      MisreadIs(w, e.Now(), s, k, r, e.stubDepth);
    }
  }

  lemma PlaceTells(e: ObjectBase, stale: Stale, s: nat, k: Key, r: Ref)
    requires e.db.Valid() && Held(e.Now(), stale) && (HoldsAt(e.Now(), s, k, r) || Hollow(e.Now(), s, k, r))
    ensures r in e.memory && s < |e.sessions|
    ensures e.memory[r].physical != UNASSIGNED <==> HoldsAt(e.Now(), s, k, r)
    ensures e.memory[r].physical == UNASSIGNED <==> Hollow(e.Now(), s, k, r)
  {
    hide e.db.Valid, Held;
    if HoldsAt(e.Now(), s, k, r) {
      CanRefresh(e.Now(), stale, s, k, r);
      e.db.PlaceIsAssigned(k);
    } else {
      HollowHeld(e.Now(), stale, s, k, r);
    }
  }

  lemma RefreshedIs(w: World, w': World, s: nat, k: Key, r: Ref, depth: int)
    requires HoldsAt(w, s, k, r) && Renews(w, w', s, {r}) && HoldsAt(w', s, k, r) && Current(w', r)
    requires Untouched(w, w', s, RankAt(w.sorts, k)) && IsDeep(w', r, depth - 1) && UndoneSeen(w, w', s, k, depth)
    ensures RefreshedOne(w, w', s, k, r, {r}, depth)
  {
  }

  lemma HollowSkipped(w: World, stale: Stale, s: nat, k: Key, r: Ref, depth: int)
    requires Held(w, stale) && Hollow(w, s, k, r) && w.corrected && !HoldsAt(w, s, k, r)
    ensures Held(w, stale - {(s, k)}) && RefreshedOne(w, w, s, k, r, {}, depth)
  {
    if k in Cache(w.sessions[s]) {
      EntryHeld(w, stale, s, k);
    }
    StaleDrops(w, stale, s, k);
    RenewsSelf(w, s);
    SkipSeen(w, s, k, depth);
  }

  lemma MisreadIs(w: World, w': World, s: nat, k: Key, r: Ref, depth: int)
    requires !HoldsAt(w, s, k, r) && !w.corrected && Renews(w, w', s, {r}) && HeaderShaped(w', s, r) && IsMisread(w', r)
    requires Untouched(w, w', s, HeaderRank(w, s)) && UndoneSeen(w, w', s, k, depth)
    ensures RefreshedOne(w, w', s, k, r, {r}, depth)
  {
  }

  /** Refreshes what a session has at one address, and nothing else. */
  method UpdateObject(e: ObjectBase, s: nat, k: Key, ghost stale: Stale) returns (ghost turned: set<Ref>)
    requires e.db.Valid() && e.Ready(stale) && s < |e.sessions| && (e.corrected || e.stubDepth > 1)
    modifies e`memory, e`nextRef, e`sessions, e`kinds
    ensures e.Ready(stale - {(s, k)}) && |e.sessions| == |old(e.sessions)| && Renews(old(e.Now()), e.Now(), s, turned)
    ensures turned <= EntryOf(old(e.Now()), s, k)
    ensures TurnedAt(old(e.Now()), e.Now(), s, k) && UpToDate(e.Now(), s, k) && StubGone(old(e.Now()), e.Now(), s, k)
    ensures TurnSeen(old(e.Now()), e.Now(), s, k, e.stubDepth) && TurnDeep(old(e.Now()), e.Now(), s, k, e.stubDepth)
    ensures (turned == {} && e.Now() == old(e.Now())) || exists r :: turned == {r} && Turned(e.Now(), r)
    ensures Calm(old(e.Now()), e.Now(), s, {k})
    ensures RootsWait(old(e.Now())) ==> RootsWait(e.Now())
  {
    hide *;
    ghost var w := e.Now();
    e.ReadyParts(stale);
    var mine := Find(e.sessions[s].readSet, k);
    FoundIs(w, stale, s, k);
    EntryOfIs(w, s, k);
    if mine.Some? {
      turned := RefreshObject(e, s, mine.value, k, stale);
      e.ReadyParts(stale - {(s, k)});
      ObjectTurned(w, stale, e.Now(), s, k, mine.value, turned, e.stubDepth);
    } else {
      turned := {};
      CalmSelf(w, s, {k});
      EntrySkipped(w, stale, s, k);
      NothingTurned(w, s, k, e.stubDepth);
      ReadyFrom(e, stale - {(s, k)});
    }
  }

  lemma EntryOfIs(w: World, s: nat, k: Key)
    requires s < |w.sessions|
    ensures EntryOf(w, s, k) == if k in Cache(w.sessions[s]) then {Cache(w.sessions[s])[k]} else {}
  {
  }

  lemma NothingTurned(w: World, s: nat, k: Key, depth: int)
    requires s < |w.sessions| && k !in Cache(w.sessions[s])
    ensures TurnSeen(w, w, s, k, depth) && TurnDeep(w, w, s, k, depth)
  {
  }

  lemma TurnTouches(w: World, stale: Stale, w': World, s: nat, k: Key, r: Ref, turned: set<Ref>, depth: int)
    requires Held(w, stale) && RefreshedOne(w, w', s, k, r, turned, depth) && s < |w.sessions|
    requires k in Cache(w.sessions[s]) && Cache(w.sessions[s])[k] == r
    ensures Calm(w, w', s, {k})
  {
    hide Held, Contents, Renews, HeaderRank;
    EntryHeld(w, stale, s, k);
    UntouchedSelf(w, s, 0);
    forall rank: nat | Quiet(w, s, {k}, rank) ensures Untouched(w, w', s, rank) {
      assert HeaderRank(w, s) <= rank && (IsIntact(w, r) ==> RankAt(w.sorts, k) <= rank);
      UntouchedThen(w, w, w', s, 0, if HoldsAt(w, s, k, r) then RankAt(w.sorts, k) else HeaderRank(w, s), rank);
    }
  }

  lemma ObjectTurned(w: World, stale: Stale, w': World, s: nat, k: Key, r: Ref, turned: set<Ref>, depth: int)
    requires Held(w, stale) && Held(w', stale - {(s, k)}) && RefreshedOne(w, w', s, k, r, turned, depth)
    requires s < |w.sessions|
    requires k in Cache(w.sessions[s]) && Cache(w.sessions[s])[k] == r && k in w.sorts && k != UNASSIGNED
    ensures Renews(w, w', s, turned) && TurnedAt(w, w', s, k) && UpToDate(w', s, k) && StubGone(w, w', s, k)
    ensures TurnSeen(w, w', s, k, depth) && TurnDeep(w, w', s, k, depth) && turned <= {r}
    ensures (turned == {} && w' == w) || exists r :: turned == {r} && Turned(w', r)
    ensures Calm(w, w', s, {k})
    ensures RootsWait(w) ==> RootsWait(w')
  {
    TurnTouches(w, stale, w', s, k, r, turned, depth);
    TurnIsSeen(w, w', s, k, r, turned, depth);
    hide Held, Renews, Calm, UpToDate, StubGone, TurnedAt, RootsWait, Current, TurnSeen, TurnDeep, UndoneSeen, HeaderShaped, IsDeep;
    EntryHeld(w, stale, s, k);
    if turned == {} {
      EntrySkipped(w, stale, s, k);
    } else {
      EntryTurned(w, stale, w', s, k, r);
      if RootsWait(w) {
        RootsRenew(w, stale, w', s, turned);
      }
    }
  }

  lemma TurnIsSeen(w: World, w': World, s: nat, k: Key, r: Ref, turned: set<Ref>, depth: int)
    requires RefreshedOne(w, w', s, k, r, turned, depth) && s < |w.sessions| && k != UNASSIGNED
    requires k in Cache(w.sessions[s]) && Cache(w.sessions[s])[k] == r
    ensures TurnSeen(w, w', s, k, depth) && TurnDeep(w, w', s, k, depth)
  {
    hide Contents, Seen, Turn;
  }

  /** Notifies a session of a commit: what it has at the changed addresses is brought up to date, in the order in which
      they come, and nothing else of it is touched but what reading adds. */
  method UpdateObjects(e: ObjectBase, s: nat, addresses: seq<Key>, ghost stale: Stale) returns (ghost renewed: set<Ref>)
    requires e.db.Valid() && e.Ready(stale) && s < |e.sessions| && (e.corrected || e.stubDepth > 1)
    modifies e`memory, e`nextRef, e`sessions, e`kinds
    ensures e.Ready(stale - Pairs(s, addresses)) && Renews(old(e.Now()), e.Now(), s, renewed)
    ensures OnlyNoticed(old(e.Now()), s, AddressSet(addresses), renewed)
    ensures |e.sessions| == |old(e.sessions)|
    ensures UpToDateTo(e.Now(), s, addresses, |addresses|)
    ensures StubsGoneTo(old(e.Now()), e.Now(), s, addresses, |addresses|)
    ensures TurnsSeen(old(e.Now()), e.Now(), s, addresses, e.stubDepth)
    ensures DeepTo(old(e.Now()), e.Now(), s, addresses, |addresses|, e.stubDepth)
    ensures Calm(old(e.Now()), e.Now(), s, AddressSet(addresses))
    ensures RootsWait(old(e.Now())) ==> RootsWait(e.Now())
  {
    hide *;
    ghost var w0 := e.Now();
    e.ReadyParts(stale);
    UpdateBegins(w0, stale, s, addresses);
    TurnsSeenNone(w0, s, addresses, e.stubDepth);
    CalmSelf(w0, s, AddressSet(addresses));
    renewed := {};
    for i := 0 to |addresses|
      invariant e.db.Valid() && e.Ready(stale - Pairs(s, addresses[..i])) && |e.sessions| == |old(e.sessions)|
      invariant Renews(w0, e.Now(), s, renewed) && UpToDateTo(e.Now(), s, addresses, i)
      invariant OnlyNoticed(w0, s, AddressSet(addresses), renewed)
      invariant StubsGoneTo(w0, e.Now(), s, addresses, i)
      invariant TurnsSeen(w0, e.Now(), s, addresses[..i], e.stubDepth) && DeepTo(w0, e.Now(), s, addresses, i, e.stubDepth)
      invariant Calm(w0, e.Now(), s, AddressSet(addresses))
      invariant RootsWait(w0) ==> RootsWait(e.Now())
    {
      ghost var w := e.Now();
      e.ReadyParts(stale - Pairs(s, addresses[..i]));
      ghost var turned := UpdateObject(e, s, addresses[i], stale - Pairs(s, addresses[..i]));
      AddressListed(addresses, i);
      CalmThen(w0, stale, w, stale - Pairs(s, addresses[..i]), e.Now(), s, renewed, AddressSet(addresses), addresses[i]);
      e.ReadyParts(stale - Pairs(s, addresses[..i]) - {(s, addresses[i])});
      TurnGoesOn(w0, stale, renewed, w, stale - Pairs(s, addresses[..i]), e.Now(), s, addresses, i, turned, e.stubDepth);
      UpdateGoesOn(w0, stale, renewed, w, e.Now(), stale, s, addresses, i, turned);
      renewed := renewed + turned;
      ReadyFrom(e, stale - Pairs(s, addresses[..i + 1]));
    }
    assert addresses[..|addresses|] == addresses;
  }

  lemma TurnGoesOn(w0: World, stale0: Stale, renewed: set<Ref>, w: World, stale: Stale, w': World, s: nat,
                   addresses: seq<Key>, i: nat, turned: set<Ref>, depth: int)
    requires Held(w0, stale0) && Held(w, stale) && Renews(w0, w, s, renewed) && Renews(w, w', s, turned) && i < |addresses|
    requires TurnsSeen(w0, w, s, addresses[..i], depth) && DeepTo(w0, w, s, addresses, i, depth)
    requires TurnSeen(w, w', s, addresses[i], depth) && TurnDeep(w, w', s, addresses[i], depth)
    requires OnlyNoticed(w0, s, AddressSet(addresses), renewed) && addresses[i] in AddressSet(addresses)
    requires turned <= EntryOf(w, s, addresses[i])
    ensures TurnsSeen(w0, w', s, addresses[..i + 1], depth) && DeepTo(w0, w', s, addresses, i + 1, depth)
    ensures OnlyNoticed(w0, s, AddressSet(addresses), renewed + turned)
  {
    hide Held, Contents, TurnsSeen, TurnSeen, TurnDeep, DeepTo, OnlyNoticed, EntryOf, AddressSet;
    TurnsSeenMore(w0, w, w', s, addresses, i, depth);
    DeepGoesOn(w0, stale0, renewed, w, stale, w', s, addresses, i, turned, depth);
    NoticedSince(w0, stale0, w, s, AddressSet(addresses), renewed, addresses[i], turned);
  }

  lemma AddressListed(addresses: seq<Key>, i: nat)
    requires i < |addresses|
    ensures addresses[i] in AddressSet(addresses)
  {
  }

  // ----- Abort

  lemma ValidParts(e: ObjectBase)
    requires e.Valid()
    ensures e.db.Valid() && e.Ready({}) && e.AllocatorStored() && RootsWait(e.Now()) && (e.corrected || e.stubDepth > 1)
  {
  }

  lemma ValidFrom(e: ObjectBase)
    requires e.db.Valid() && e.Ready({}) && e.AllocatorStored() && RootsWait(e.Now()) && (e.corrected || e.stubDepth > 1)
    ensures e.Valid()
  {
  }

  lemma NoneStale(stale: Stale, x: (nat, Key))
    requires stale == {}
    ensures stale - {x} == stale
  {
  }

  lemma RenewedAreEntries(w: World, s: nat, order: seq<(Key, Ref)>, renewed: set<Ref>)
    requires s < |w.sessions| && EntriesOf(w.sessions[s], order)
    requires forall r | r in renewed :: exists j :: 0 <= j < |order| && order[j].1 == r && (w.corrected ==> order[j].0 != UNASSIGNED)
    ensures forall r | r in renewed ::
      exists k :: k in Dirty(w.sessions[s]) && Dirty(w.sessions[s])[k] == r && (w.corrected ==> k != UNASSIGNED)
  {
    forall r | r in renewed
      ensures exists k :: k in Dirty(w.sessions[s]) && Dirty(w.sessions[s])[k] == r && (w.corrected ==> k != UNASSIGNED)
    {
      var j :| 0 <= j < |order| && order[j].1 == r && (w.corrected ==> order[j].0 != UNASSIGNED);
      assert Dirty(w.sessions[s])[order[j].0] == r;
    }
  }

  lemma OneRestored(w: World, w': World, s: nat, k: Key, r: Ref, turned: set<Ref>, depth: int)
    requires Held(w, {}) && RefreshedOne(w, w', s, k, r, turned, depth) && EntryAt(w, s, k, r)
    ensures Renews(w, w', s, turned) && Restored(w', k, r, depth) && turned <= {r}
    ensures turned != {} ==> (w.corrected ==> k != UNASSIGNED)
  {
    assert UNASSIGNED !in Cache(w.sessions[s]) by {
      SetsHeld(w, {}, s);
      NothingAtZero(w, s, Cache(w.sessions[s]));
    }
  }

  /** The first `i` objects of the transaction were refreshed, one after the other. */
  ghost predicate UndoneTo(w0: World, w: World, s: nat, order: seq<(Key, Ref)>, i: nat, depth: int) {
    && s < |w0.sessions| && s < |w.sessions| && i <= |order|
    && (PlainFile(w.layout.disk) ==>
          Seen(w, s, {}) == UndoAll(w.layout.disk, Seen(w0, s, {}), order[..i], depth, w.corrected))
  }

  lemma UndoneNone(w: World, s: nat, order: seq<(Key, Ref)>, depth: int)
    requires s < |w.sessions|
    ensures UndoneTo(w, w, s, order, 0, depth)
  {
  }

  lemma OneUndone(w0: World, w: World, w': World, s: nat, order: seq<(Key, Ref)>, i: nat, r: Ref, turned: set<Ref>,
                  depth: int)
    requires UndoneTo(w0, w, s, order, i, depth) && i < |order| && RefreshedOne(w, w', s, order[i].0, r, turned, depth)
    ensures UndoneTo(w0, w', s, order, i + 1, depth)
  {
    hide Seen, Undo, Kept, SameObject;
    assert order[..i + 1][..i] == order[..i] && order[..i + 1][i] == order[i];
  }

  lemma UndoneEnds(w0: World, w: World, w': World, s: nat, order: seq<(Key, Ref)>, depth: int)
    requires UndoneTo(w0, w, s, order, |order|, depth) && Held(w, {}) && w'.memory == w.memory && w'.layout == w.layout
    requires w'.corrected == w.corrected && s < |w'.sessions| && w'.sessions[s].readSet == w.sessions[s].readSet
    ensures UndoneTo(w0, w', s, order, |order|, depth)
  {
    hide Held, Seen, UndoAll;
    SeenAfter(w, {}, w', s, {});
  }

  /** Gives up a session's changes: every object it changed is what the file has again, read as deep as configured. One
      that was marked without an address stays as it is in corrected code; as written it is refreshed like the others,
      from the header. */
  method AbortTransaction(e: ObjectBase, s: nat) returns (ghost renewed: set<Ref>)
    requires e.Valid() && s < |e.sessions| && e.sessions[s].writeSet.Some?
    modifies e`memory, e`nextRef, e`sessions, e`kinds
    ensures e.Valid() && |e.sessions| == |old(e.sessions)| && e.sessions[s].writeSet == None
    ensures forall k | k in Dirty(old(e.sessions)[s]) ::
      EntryAt(e.Now(), s, k, Dirty(old(e.sessions)[s])[k]) && Restored(e.Now(), k, Dirty(old(e.sessions)[s])[k], e.stubDepth)
    ensures forall z | 0 <= z < |e.sessions| && z != s :: e.sessions[z] == old(e.sessions)[z]
    ensures forall r | r in old(e.memory) && r !in renewed :: r in e.memory && e.memory[r] == old(e.memory)[r]
    ensures forall r | r in renewed ::
      exists k :: k in Dirty(old(e.sessions)[s]) && Dirty(old(e.sessions)[s])[k] == r && (e.corrected ==> k != UNASSIGNED)
    ensures var order := PreOrder(old(e.sessions)[s].writeSet.value);
      UndoneTo(old(e.Now()), e.Now(), s, order, |order|, e.stubDepth)
  {
    hide *;
    ghost var w0 := e.Now();
    ValidParts(e);
    e.ReadyParts({});
    var order := PreOrder(e.sessions[s].writeSet.value);
    AbortBegins(w0, {}, s, order, e.stubDepth);
    UndoneNone(w0, s, order, e.stubDepth);
    renewed := {};
    for i := 0 to |order|
      invariant UndoneTo(w0, e.Now(), s, order, i, e.stubDepth)
      invariant e.db.Valid() && e.Ready({}) && e.AllocatorStored() && |e.sessions| == |old(e.sessions)|
      invariant Renews(w0, e.Now(), s, renewed) && RestoredTo(e.Now(), s, order, i, e.stubDepth)
      invariant forall r | r in renewed ::
        exists j :: 0 <= j < |order| && order[j].1 == r && (w0.corrected ==> order[j].0 != UNASSIGNED)
    {
      ghost var w := e.Now();
      e.ReadyParts({});
      RestoredAt(w, {}, s, order, i, e.stubDepth);
      ghost var turned := RefreshObject(e, s, order[i].1, order[i].0, {});
      NoneStale({}, (s, order[i].0));
      e.ReadyParts({});
      OneRestored(w, e.Now(), s, order[i].0, order[i].1, turned, e.stubDepth);
      OneUndone(w0, w, e.Now(), s, order, i, order[i].1, turned, e.stubDepth);
      RestoreGoesOn(w0, {}, renewed, w, e.Now(), s, order, i, turned, e.stubDepth);
      renewed := renewed + turned;
    }
    ghost var w1 := e.Now();
    e.ReadyParts({});
    RestoreEnds(w0, w1, {}, s, order, renewed, e.stubDepth);
    e.sessions := e.sessions[s := e.sessions[s].(writeSet := None)];
    NowIs(e);
    UndoneEnds(w0, w1, e.Now(), s, order, e.stubDepth);
    RootsAfterAbort(w0, {}, w1, e.Now(), s, renewed);
    StillFresh(e, e.memory);
    ReadyFrom(e, {});
    ValidFrom(e);
    RenewedAreEntries(w0, s, order, renewed);
  }

  // ----- Commit

  /** Some object needs an address, itself or for a child. */
  predicate AnyNeeds(m: Memory, entries: seq<(Key, Ref)>) {
    exists i :: 0 <= i < |entries| && entries[i].1 in m && NeedsAddress(m, m[entries[i].1])
  }

  /** The commit will give addresses: a marked object has none, or refers to one without a session. */
  ghost predicate Allocates(w: World, s: nat) {
    && s < |w.sessions|
    && exists k :: k in Dirty(w.sessions[s]) && Dirty(w.sessions[s])[k] in w.memory
                   && NeedsAddress(w.memory, w.memory[Dirty(w.sessions[s])[k]])
  }

  /** What a commit needs beforehand: a set of objects that holds whatever it will adopt, each of which can be
      persisted and belongs to no session, but for the one that was marked without an address; and room. */
  ghost predicate CanPersist(w: World, s: nat, fringe: set<Ref>, cost: nat, nextLogical: nat, nextPhysical: nat,
                             words: nat) {
    && s < |w.sessions| && w.sessions[s].writeSet.Some? && Fringe(w, fringe, cost) && ClaimsMarked(w, s, fringe)
    && (forall k | k in Dirty(w.sessions[s]) :: WithinChildren(w, fringe, Dirty(w.sessions[s])[k]))
    && nextPhysical + |Remaining(w, fringe)| * cost <= words
    && nextLogical + |Remaining(w, fringe)| <= ADDRESS_LIMIT
  }

  /** A commit that gives addresses also needs the session's counters. */
  ghost predicate CanCommit(w: World, s: nat, fringe: set<Ref>, cost: nat, nextLogical: nat, nextPhysical: nat,
                            words: nat) {
    && CanPersist(w, s, fringe, cost, nextLogical, nextPhysical, words)
    && (Allocates(w, s) ==> CanAllocate(w, s))
  }

  lemma AllocatesIff(w: World, s: nat, entries: seq<(Key, Ref)>)
    requires s < |w.sessions| && EntriesOf(w.sessions[s], entries)
    ensures AnyNeeds(w.memory, entries) <==> Allocates(w, s)
  {
    if Allocates(w, s) {
      var k :| k in Dirty(w.sessions[s]) && Dirty(w.sessions[s])[k] in w.memory
               && NeedsAddress(w.memory, w.memory[Dirty(w.sessions[s])[k]]);
      var i :| 0 <= i < |entries| && entries[i] == (k, Dirty(w.sessions[s])[k]);
    }
  }

  /** Adopts what the changed objects need: the scan over the write set as it is at the start. */
  method Scan(e: ObjectBase, s: nat, scan: seq<(Key, Ref)>, ghost fringe: set<Ref>,
              ghost cost: nat) returns (adopted: seq<Ref>)
    requires Walkable(e, fringe, cost, {}) && s < |e.sessions|
    requires ScannedTo(e.Now(), e.Now(), s, fringe, scan, 0, [])
    modifies e`memory, e`sorts, e.db, e.db.content
    ensures Walkable(e, fringe, cost, {}) && ScannedTo(old(e.Now()), e.Now(), s, fringe, scan, |scan|, adopted)
    ensures adopted != [] <==> AnyNeeds(old(e.memory), scan)
    ensures AllSettled(e.Now(), ObjectsOf(scan) + adopted) <==>
      NothingSkipped(old(e.Now()), FirstOf(scan), ObjectsOf(scan) + adopted)
    ensures adopted == [] ==> e.db.nextPhysical == old(e.db.nextPhysical)
    ensures e.db.nextLogical == old(e.db.nextLogical) + |adopted|
    ensures ScanOrder(e.memory, adopted, old(e.db.nextLogical), ObjectsOf(scan), |scan|)
    ensures Spending(old(e.db.nextLogical), old(e.db.nextPhysical), |Remaining(old(e.Now()), fringe)|,
                     e.db.nextLogical, e.db.nextPhysical, |Remaining(e.Now(), fringe)|, cost)
  {
    hide *;
    ghost var w0 := e.Now();
    NowIs(e);
    adopted := [];
    ghost var l, p, n := e.db.nextLogical, e.db.nextPhysical, |Remaining(w0, fringe)|;
    SpendingIs(l, p, n, l, p, n, cost);
    NoScanYet(e.memory, l, ObjectsOf(scan));
    OnlyFirstUnaddressed(w0, s, fringe, scan);
    for i := 0 to |scan|
      invariant e.db.nextLogical == l + |adopted| && ScanOrder(e.memory, adopted, l, ObjectsOf(scan), i)
      invariant Walkable(e, fringe, cost, {}) && |e.sessions| == |old(e.sessions)|
      invariant ScannedTo(w0, e.Now(), s, fringe, scan, i, adopted) && (adopted != [] ==> AnyNeeds(w0.memory, scan))
      invariant adopted == [] ==> e.db.nextPhysical == old(e.db.nextPhysical)
      invariant Spending(l, p, n, e.db.nextLogical, e.db.nextPhysical, |Remaining(e.Now(), fringe)|, cost)
    {
      WalkableParts(e, fringe, cost, {});
      ghost var w, below := e.Now(), [];
      NowIs(e);
      ScanIsNext(w0, w, s, fringe, scan, i, adopted);
      ghost var before := adopted;
      ghost var l1, p1, n1 := e.db.nextLogical, e.db.nextPhysical, |Remaining(w, fringe)|;
      adopted, below := Visit(e, s, scan[i].1, adopted, fringe, cost, {});
      if below != [] {
        OneNeeds(w0, w, s, fringe, scan, i, before);
      }
      NowIs(e);
      ScanInOrder(w0, w, {}, e.Now(), s, fringe, scan, i, before, below, l);
      ScanGoesOn(w0, w, e.Now(), s, fringe, scan, i, before, below);
      SpendingThen(l, p, n, l1, p1, n1, e.db.nextLogical, e.db.nextPhysical, |Remaining(e.Now(), fringe)|, cost);
    }
    WalkableParts(e, fringe, cost, {});
    ScanSettlesIff(w0, e.Now(), {}, s, fringe, scan, adopted);
    if adopted == [] {
      NoneNeeds(w0, e.Now(), s, fringe, scan);
    }
  }

  lemma OnlyFirstUnaddressed(w: World, s: nat, fringe: set<Ref>, scan: seq<(Key, Ref)>)
    requires ScannedTo(w, w, s, fringe, scan, 0, [])
    ensures forall j | 0 < j < |scan| :: !Unaddressed(w, scan[j].1)
  {
  }

  lemma OneNeeds(w0: World, w: World, s: nat, fringe: set<Ref>, scan: seq<(Key, Ref)>, i: nat, adopted: seq<Ref>)
    requires ScannedTo(w0, w, s, fringe, scan, i, adopted) && i < |scan| && scan[i].1 in w.memory
    requires NeedsAddress(w.memory, w.memory[scan[i].1])
    ensures AnyNeeds(w0.memory, scan)
  {
    NeedsBefore(w0, w, s, fringe, adopted, scan[i].1);
  }

  lemma NoneNeeds(w0: World, w: World, s: nat, fringe: set<Ref>, scan: seq<(Key, Ref)>)
    requires Held(w, {}) && ScannedTo(w0, w, s, fringe, scan, |scan|, [])
    ensures !AnyNeeds(w0.memory, scan)
  {
    NothingWalked(w0, w, s, fringe);
    forall i | 0 <= i < |scan| ensures scan[i].1 in w.memory && !NeedsAddress(w.memory, w.memory[scan[i].1]) {
      assert Visitable(w, s, fringe, scan[i].1);
      VisitedNeedsNone(w, {}, scan[i].1);
    }
  }

  /** Enters what was adopted in the write set and the read set. */
  method Enlist(e: ObjectBase, s: nat, adopted: seq<Ref>, ghost w0: World, ghost fringe: set<Ref>)
    requires Held(w0, {}) && Walked(w0, e.Now(), s, fringe, adopted) && Held(e.Now(), {})
    requires s < |e.sessions| && e.sessions[s].writeSet.Some?
    modifies e`sessions
    ensures Held(e.Now(), {}) && EnlistedTo(old(e.Now()), e.Now(), s, adopted, |adopted|)
    ensures |e.sessions| == |old(e.sessions)|
  {
    hide *;
    ghost var w1 := e.Now();
    NowIs(e);
    EnlistBegins(w1, s, adopted);
    for i := 0 to |adopted|
      invariant Held(e.Now(), {}) && EnlistedTo(w1, e.Now(), s, adopted, i) && |e.sessions| == |old(e.sessions)|
    {
      NowIs(e);
      EnlistGoesOn(w0, {}, w1, e.Now(), s, fringe, adopted, i);
      WithSessionIs(e.Now(), s, Enlisted(e.sessions[s], e.memory[adopted[i]].logical, adopted[i]));
      e.sessions := e.sessions[s := Enlisted(e.sessions[s], e.memory[adopted[i]].logical, adopted[i])];
      NowIs(e);
    }
  }

  /** The session's own copy of a counter takes the new value. */
  method SetCounter(e: ObjectBase, s: nat, k: Key, n: Int32, ghost stale: Stale)
    requires Held(e.Now(), stale) && HasCounters(e.Now(), s) && Store.IsCounter(k)
    modifies e`memory
    ensures SetIn(old(e.Now()), e.Now(), s, k, n)
  {
    hide *;
    NowIs(e);
    CounterSetIs(e.Now(), s, k, n);
    FoundIs(e.Now(), stale, s, k);
    var mine := Find(e.sessions[s].readSet, k);
    e.memory := e.memory[mine.value := e.memory[mine.value].(storage := IntegerStorage(n))];
    NowIs(e);
  }

  lemma CounterSetIs(w: World, s: nat, k: Key, n: Int32)
    requires HasCounters(w, s) && Store.IsCounter(k)
    ensures s < |w.sessions| && k in Cache(w.sessions[s]) && Cache(w.sessions[s])[k] in w.memory
    ensures var r := Cache(w.sessions[s])[k];
      SetIn(w, w.(memory := w.memory[r := w.memory[r].(storage := IntegerStorage(n))]), s, k, n)
  {
  }

  /** Writes every object of the transaction. */
  method WriteAll(e: ObjectBase, s: nat, changed: seq<(Key, Ref)>, ghost stale: Stale)
    requires e.db.Valid() && s < |e.sessions| && Held(e.Now(), stale) && ChangesOf(e.Now().sessions[s], changed)
    requires forall j, z: nat | 0 <= j < |changed| && z < |e.sessions| && z != s :: (z, changed[j].0) in stale
    requires forall k | k in Dirty(e.Now().sessions[s]) :: Settled(e.Now(), Dirty(e.Now().sessions[s])[k])
    modifies e.db`layout, e.db.content
    ensures e.db.Valid() && Held(e.Now(), stale) && WrittenTo(old(e.Now()), e.Now(), changed, |changed|)
  {
    hide *;
    ghost var w3 := e.Now();
    NowIs(e);
    ChangesAtHome(w3, stale, s, changed);
    NothingWritten(w3, s, changed);
    for i := 0 to |changed|
      invariant e.db.Valid() && Held(e.Now(), stale) && WrittenTo(w3, e.Now(), changed, i)
    {
      ghost var w := e.Now();
      NowIs(e);
      WriteIsNext(w3, w, stale, s, changed, i);
      var v := ValueOf(e.memory, e.memory[changed[i].1]);
      e.db.StoreObject(changed[i].0, e.memory[changed[i].1].physical, v);
      NowIs(e);
      WrittenIs(w, changed[i].0, v);
      WriteGoesOn(w3, w, changed, i, v);
    }
  }

  lemma NothingWritten(w: World, s: nat, changed: seq<(Key, Ref)>)
    requires s < |w.sessions| && ChangesOf(w.sessions[s], changed)
    ensures WrittenTo(w, w, changed, 0)
    ensures forall j, k | 0 <= j < |changed| && 0 <= k < |changed| && changed[j].0 == changed[k].0 :: changed[j].1 == changed[k].1
  {
  }

  /** Lets every other session bring what it has at the changed addresses up to date. */
  method NotifyOthers(e: ObjectBase, s: nat, ghost changed: seq<(Key, Ref)>, addresses: seq<Key>, ghost first: Stale)
    requires e.db.Valid() && e.Ready(first) && NotifiedTo(e.Now(), e.Now(), s, changed, addresses, 0)
    requires RootsWait(e.Now())
    requires StaleFrom(first, |e.sessions|, s, addresses, 0) && (e.corrected || e.stubDepth > 1)
    modifies e`memory, e`nextRef, e`sessions, e`kinds
    ensures e.Ready({}) && NotifiedTo(old(e.Now()), e.Now(), s, changed, addresses, |e.sessions|)
    ensures |e.sessions| == |old(e.sessions)| && Told(old(e.Now()), e.Now(), s) && RootsWait(e.Now())
    ensures CalmTo(old(e.Now()), e.Now(), s, AddressSet(addresses), |e.sessions|)
    ensures Spared(old(e.Now()), e.Now(), s, AddressSet(addresses), |e.sessions|)
    ensures ToldTo(old(e.Now()), e.Now(), s, addresses, e.stubDepth, |e.sessions|)
  {
    hide *;
    ghost var stale, w5 := first, e.Now();
    NowIs(e);
    e.ReadyParts(first);
    NotifiedSession(w5, w5, s, changed, addresses);
    ToldSelf(w5, s);
    NoneCalm(w5, s, AddressSet(addresses));
    NoneTold(w5, s, addresses, e.stubDepth);
    for z := 0 to |e.sessions|
      invariant e.db.Valid() && e.Ready(stale) && |e.sessions| == |old(e.sessions)|
      invariant Told(w5, e.Now(), s) && RootsWait(e.Now())
      invariant forall y | z <= y < |e.sessions| :: e.sessions[y] == old(e.sessions)[y]
      invariant NotifiedTo(w5, e.Now(), s, changed, addresses, z) && StaleFrom(stale, |e.sessions|, s, addresses, z)
      invariant CalmTo(w5, e.Now(), s, AddressSet(addresses), z)
      invariant Spared(w5, e.Now(), s, AddressSet(addresses), z) && ToldTo(w5, e.Now(), s, addresses, e.stubDepth, z)
    {
      StaleShrinks(stale, |e.sessions|, s, addresses, z);
      ghost var w, before := e.Now(), stale;
      NowIs(e);
      e.ReadyParts(stale);
      if z != s {
        ghost var renewed := UpdateObjects(e, z, addresses, stale);
        stale := stale - Pairs(z, addresses);
        e.ReadyParts(stale);
        NowIs(e);
        StubsGoneSince(w5, w, e.Now(), z, addresses);
        NotifyGoesOn(w5, w, before, e.Now(), stale, s, changed, addresses, z, renewed);
        SparedMore(w5, w, e.Now(), s, z, AddressSet(addresses), renewed);
        ToldSeenMore(w5, first, w, before, e.Now(), s, z, addresses, e.stubDepth, renewed);
        ToldMore(w5, first, w, e.Now(), s, z, renewed);
        OthersUntold(w, e.Now(), z, renewed);
        OneMoreCalm(w5, first, w, e.Now(), s, z, AddressSet(addresses), renewed);
      } else {
        NotifySkips(w5, w, s, changed, addresses);
        SelfCalm(w5, w, s, AddressSet(addresses));
        SelfTold(w5, w, s, addresses, e.stubDepth);
      }
    }
    StaleShrinks(stale, |e.sessions|, s, addresses, |e.sessions|);
  }

  lemma OthersUntold(w: World, w': World, z: nat, renewed: set<Ref>)
    requires Renews(w, w', z, renewed)
    ensures forall y | 0 <= y < |w.sessions| && y != z :: y < |w'.sessions| && w'.sessions[y] == w.sessions[y]
  {
  }

  /** The first `n` sessions but `s` were refreshed at these addresses, and no entry was touched but for that. */
  ghost predicate CalmTo(w5: World, w: World, s: nat, keys: set<Key>, n: nat) {
    forall y {:trigger Calm(w5, w, y, keys)} | 0 <= y < n && y != s :: Calm(w5, w, y, keys)
  }

  lemma NoneCalm(w: World, s: nat, keys: set<Key>)
    ensures CalmTo(w, w, s, keys, 0)
  {
  }

  lemma SelfCalm(w5: World, w: World, s: nat, keys: set<Key>)
    requires CalmTo(w5, w, s, keys, s)
    ensures CalmTo(w5, w, s, keys, s + 1)
  {
  }

  lemma OneMoreCalm(w5: World, stale: Stale, w: World, w': World, s: nat, z: nat, keys: set<Key>, renewed: set<Ref>)
    requires Held(w5, stale) && Told(w5, w, s) && Renews(w, w', z, renewed) && z < |w5.sessions| && z != s
    requires w.sessions[z] == w5.sessions[z] && CalmTo(w5, w, s, keys, z) && Calm(w, w', z, keys)
    ensures CalmTo(w5, w', s, keys, z + 1)
  {
    hide Held, Quiet, Untouched, Kept;
    forall y | 0 <= y < z + 1 && y != s ensures Calm(w5, w', y, keys) {
      forall rank: nat | Quiet(w5, y, keys, rank) ensures Untouched(w5, w', y, rank) {
        if y == z {
          QuietSince(w5, stale, w, s, z, keys, rank);
          UntouchedFrom(w5, w, w', z, rank);
        } else {
          assert Calm(w5, w, y, keys);
          UntouchedStill(w5, w, w', y, rank);
        }
      }
    }
  }

  lemma UntouchedFrom(w5: World, w: World, w': World, z: nat, rank: nat)
    requires Untouched(w, w', z, rank) && w.sorts == w5.sorts && z < |w5.sessions| == |w.sessions|
    requires w.sessions[z] == w5.sessions[z]
    ensures Untouched(w5, w', z, rank)
  {
  }

  lemma QuietSince(w5: World, stale: Stale, w: World, s: nat, z: nat, keys: set<Key>, rank: nat)
    requires Held(w5, stale) && Told(w5, w, s) && z < |w5.sessions| && z != s && w.sessions[z] == w5.sessions[z]
    requires Quiet(w5, z, keys, rank)
    ensures Quiet(w, z, keys, rank)
  {
    hide Held, RedBlack.Valid, Contents, Kept;
    var c := Cache(w5.sessions[z]);
    SetsHeld(w5, stale, z);
    forall k | k in c ensures SameObject(w5, w, c[k]) {
      assert IsEntry(w5, z, k, c[k]);
    }
  }

  lemma CommitStarts(e: ObjectBase, s: nat, fringe: set<Ref>, cost: nat)
    requires e.Valid() && CanPersist(e.Now(), s, fringe, cost, e.db.nextLogical, e.db.nextPhysical, e.db.content.Length)
    ensures Walkable(e, fringe, cost, {}) && Held(e.Now(), {}) && AllStored(e.Now()) && e.stubDepth > 0
    ensures RootsWait(e.Now())
    ensures s < |e.sessions| && e.sessions[s].writeSet.Some? && ClaimsMarked(e.Now(), s, fringe)
    ensures RootWithin(e.Now(), s, fringe) && Fringe(e.Now(), fringe, cost)
    ensures CountersAre(e.db.layout.disk, e.db.nextPhysical, e.db.nextLogical) && e.db.content.Length < 0x8000_0000
    ensures AllocatorIn(e.db.layout.disk)
    ensures forall r | r in e.memory :: r < e.nextRef
    ensures forall k | k in Dirty(e.Now().sessions[s]) :: WithinChildren(e.Now(), fringe, Dirty(e.Now().sessions[s])[k])
  {
  }

  lemma CountersFit(e: ObjectBase, fringe: set<Ref>, cost: nat, stale: Stale, p: nat, l: nat)
    requires Walkable(e, fringe, cost, stale) && e.db.content.Length < 0x8000_0000
    requires CountersAre(e.db.layout.disk, p, l)
    ensures e.db.nextPhysical < 0x8000_0000 && e.db.nextLogical < 0x8000_0000 && e.db.CountersHere()
  {
    hide Held, Store.Inv, Fringe;
    assert 0 <= |Remaining(e.Now(), fringe)| * cost;
  }

  /** What the file has of the allocator. */
  ghost predicate AllocatorIn(disk: map<nat, Codec.Value>) {
    Store.ALLOCATOR_ADDR in disk && disk[Store.ALLOCATOR_ADDR] == StoreRuns.ALLOCATOR_VALUE
  }

  lemma CountersStay(e: ObjectBase, before: map<nat, Codec.Value>, keys: set<Key>)
    requires CountersAre(before, e.db.nextPhysical, e.db.nextLogical) && e.db.content.Length < 0x8000_0000
    requires AllocatorIn(before)
    requires forall a | a in before && a !in keys :: a in e.db.layout.disk && e.db.layout.disk[a] == before[a]
    requires forall a | a in keys :: a > Store.NEXT_LOGICAL_ADDR
    ensures e.AllocatorStored()
  {
  }

  lemma UncountedHolds(w2: World, s: nat)
    requires Held(w2, {}) && s < |w2.sessions|
    ensures Held(w2, AllOthers(|w2.sessions|, s, CounterKeys([]))) && Counted(w2, w2, s)
  {
    HeldWeaken(w2, {}, AllOthers(|w2.sessions|, s, CounterKeys([])));
  }

  /** The counters in the file and in the session's copies. */
  method CountUp(e: ObjectBase, s: nat)
    requires e.db.Valid() && e.db.CountersHere() && e.db.nextPhysical < 0x8000_0000 && e.db.nextLogical < 0x8000_0000
    requires Held(e.Now(), {}) && HasCounters(e.Now(), s) && e.db.content.Length < 0x8000_0000
    modifies e`memory, e.db`layout, e.db.content
    ensures e.db.Valid() && s < |e.sessions| && Held(e.Now(), AllOthers(|e.sessions|, s, COUNTERS))
    ensures Counted(old(e.Now()), e.Now(), s) && CountersAre(e.db.layout.disk, e.db.nextPhysical, e.db.nextLogical)
    ensures HasCounters(e.Now(), s)
  {
    hide *;
    ghost var w2 := e.Now();
    NowIs(e);
    CountersKnown(e, s);
    BothAreCounters();
    var p: Int32, l: Int32 := e.db.nextPhysical, e.db.nextLogical;
    e.db.WriteCounters();
    NowIs(e);
    ghost var wl := e.Now();
    CountersReady(w2, wl, s, p, l);
    SetCounter(e, s, Store.NEXT_PHYSICAL_ADDR, p, AllCopies(|wl.sessions|));
    ghost var w' := e.Now();
    SetInHolds(wl, AllCopies(|wl.sessions|), w', s, Store.NEXT_PHYSICAL_ADDR, p);
    SetCounter(e, s, Store.NEXT_LOGICAL_ADDR, l, AllCopies(|wl.sessions|) - {(s, Store.NEXT_PHYSICAL_ADDR)});
    NowIs(e);
    CountersHold(w2, wl, w', e.Now(), s, p, l);
  }

  lemma CountersKnown(e: ObjectBase, s: nat)
    requires e.db.CountersHere() && HasCounters(e.Now(), s)
    ensures Store.NEXT_PHYSICAL_ADDR in e.db.layout.disk && Store.NEXT_LOGICAL_ADDR in e.db.layout.disk && s < |e.sessions|
  {
  }

  lemma CountersReady(w2: World, wl: World, s: nat, p: Int32, l: Int32)
    requires Held(w2, {}) && HasCounters(w2, s) && p >= 0 && l >= 0
    requires wl == w2.(layout := w2.layout.(disk := w2.layout.disk[Store.NEXT_PHYSICAL_ADDR := StoreRuns.CounterValue(p)]
                                                             [Store.NEXT_LOGICAL_ADDR := StoreRuns.CounterValue(l)]))
    ensures wl == CountersWritten(w2, p, l) && HasCounters(wl, s)
    ensures Held(wl, AllCopies(|wl.sessions|)) && CountersAre(wl.layout.disk, p, l)
    ensures Store.NEXT_PHYSICAL_ADDR in wl.layout.disk
    ensures wl.layout.disk[Store.NEXT_PHYSICAL_ADDR] == StoreRuns.CounterValue(p)
  {
    CountersInFile(w2, p, l);
  }

  lemma NoticesInOrder(w0: World, w1: World, w2: World, w3: World, stale: Stale, s: nat, fringe: set<Ref>,
                       scan: seq<(Key, Ref)>, adopted: seq<Ref>, entries: seq<(Key, Ref)>)
    requires RootsWait(w0) && s < |w0.sessions| && EntriesOf(w0.sessions[s], scan)
    requires ScannedTo(w0, w1, s, fringe, scan, |scan|, adopted) && EnlistedTo(w1, w2, s, adopted, |adopted|)
    requires Held(w2, {}) && Held(w3, stale) && w3.sessions == w2.sessions
    requires s < |w3.sessions| && w3.sessions[s].writeSet.Some? && entries == InOrder(w3.sessions[s].writeSet.value)
    requires ChangesOf(w3.sessions[s], AtHome(w3.memory, entries))
    ensures var changed := AtHome(w3.memory, entries);
      NoticeOrder(Notices(entries, changed, adopted), ChangedKeys(changed, adopted), RootHome(w0, w3, s))
  {
    hide Held, ScannedTo, EnlistedTo, RootsWait, Contents, Notices, NoticeOrder, ChangedKeys, ChangesOf, InOrder, RedBlack.Valid, AtTheirs, EntriesOf;
    SetsHeld(w3, stale, s);
    RootIsFirst(w0, w1, w2, s, fringe, scan, adopted);
    ChangesAtHome(w3, stale, s, AtHome(w3.memory, entries));
    WriteSetInOrder(w3, stale, s, entries);
    EntriesAtHome(w3, stale, s, entries);
    AllAtTheirs(w3.sessions[s], w3.memory, entries);
    NoticesAscend(entries, AtHome(w3.memory, entries), adopted);
    RootHomeFirst(w0, w3, s, entries);
  }

  lemma WriteSetInOrder(w: World, stale: Stale, s: nat, entries: seq<(Key, Ref)>)
    requires Held(w, stale) && s < |w.sessions| && w.sessions[s].writeSet.Some?
    requires entries == InOrder(w.sessions[s].writeSet.value)
    ensures Ascending(entries) && EntriesOf(w.sessions[s], entries)
    ensures UNASSIGNED in Dirty(w.sessions[s]) <==> entries != [] && entries[0].0 == UNASSIGNED
    ensures UNASSIGNED in Dirty(w.sessions[s]) ==> entries[0].1 == Dirty(w.sessions[s])[UNASSIGNED]
  {
    hide Held;
    SetsHeld(w, stale, s);
    OrderedIsAscending(w.sessions[s].writeSet.value);
    ZeroIsFirst(w.sessions[s].writeSet.value);
    TraversalIsEntries(w.sessions[s], entries);
  }

  lemma RootHomeFirst(w0: World, w3: World, s: nat, entries: seq<(Key, Ref)>)
    requires s < |w0.sessions| && s < |w3.sessions|
    requires UNASSIGNED in Dirty(w3.sessions[s]) <==> UNASSIGNED in Dirty(w0.sessions[s])
    requires UNASSIGNED in Dirty(w0.sessions[s]) ==> Dirty(w3.sessions[s])[UNASSIGNED] == Dirty(w0.sessions[s])[UNASSIGNED]
    requires UNASSIGNED in Dirty(w3.sessions[s]) <==> entries != [] && entries[0].0 == UNASSIGNED
    requires UNASSIGNED in Dirty(w3.sessions[s]) ==> entries[0].1 == Dirty(w3.sessions[s])[UNASSIGNED]
    ensures RootHome(w0, w3, s) == AddressesOf(AtHome(w3.memory, entries)[..RootCount(entries)])
  {
    hide Contents;
  }

  lemma AllAtTheirs(z: Session, m: Memory, entries: seq<(Key, Ref)>)
    requires Ascending(entries) && EntriesOf(z, entries) && ChangesOf(z, AtHome(m, entries))
    requires forall i | 0 <= i < |entries| && entries[i].0 != UNASSIGNED :: AtHome(m, entries)[i] == entries[i]
    requires forall i | 0 <= i < |entries| :: AtHome(m, entries)[i].0 > Store.NEXT_LOGICAL_ADDR
    ensures AtTheirs(entries, AtHome(m, entries))
  {
    hide Contents, Ascending;
    var changed := AtHome(m, entries);
    if entries != [] {
      var i :| 0 <= i < |entries| && entries[i] == (changed[0].0, Dirty(z)[changed[0].0]);
    }
  }

  lemma GatheredInOrder(w0: World, w1: World, w2: World, w3: World, w: World, s: nat, fringe: set<Ref>,
                        scan: seq<(Key, Ref)>, adopted: seq<Ref>, first: nat)
    requires Gathered(w0, w1, w2, w3, s, fringe, scan, adopted) && w.memory == w3.memory
    requires w0.sessions[s].writeSet.Some? && scan == InOrder(w0.sessions[s].writeSet.value)
    requires ScanOrder(w1.memory, adopted, first, ObjectsOf(scan), |scan|)
    ensures AdoptedInOrder(w0, w, s, adopted, first)
  {
    hide Held, ScanOrder, ScannedTo, EntriesOf, AllSettled, HasCounters, EnlistedTo, SameBut;
    EnlistedSame(w1, w2, s, adopted);
    PersistedInOrder(w0, w1, w2, w3, w, s, fringe, scan, adopted, first);
  }

  lemma RootHomeIs(w0: World, w3: World, w: World, s: nat)
    requires s < |w0.sessions| && w.memory == w3.memory
    ensures RootHome(w0, w, s) == RootHome(w0, w3, s)
  {
  }

  /** The world after the scan, after what it adopted was entered in the sets, and after the counters. */
  ghost predicate Gathered(w0: World, w1: World, w2: World, w3: World, s: nat, fringe: set<Ref>, scan: seq<(Key, Ref)>,
                           adopted: seq<Ref>) {
    && s < |w0.sessions| && EntriesOf(w0.sessions[s], scan) && ScannedTo(w0, w1, s, fringe, scan, |scan|, adopted)
    && AllSettled(w1, ObjectsOf(scan) + adopted) && (adopted != [] ==> HasCounters(w3, s))
    && EnlistedTo(w1, w2, s, adopted, |adopted|) && Counted(w2, w3, s) && (adopted == [] ==> w3 == w2)
    && Held(w1, {}) && Held(w2, {}) && Held(w3, AllOthers(|w3.sessions|, s, CounterKeys(adopted)))
  }

  /** Adopts, enlists and counts. */
  method Gather(e: ObjectBase, s: nat, ghost fringe: set<Ref>, ghost cost: nat)
    returns (adopted: seq<Ref>, ghost scan: seq<(Key, Ref)>, ghost w1: World, ghost w2: World)
    requires e.Valid() && CanPersist(e.Now(), s, fringe, cost, e.db.nextLogical, e.db.nextPhysical, e.db.content.Length)
    requires Allocates(e.Now(), s) ==> HasCounters(e.Now(), s)
    modifies e`memory, e`sorts, e`sessions, e.db, e.db.content
    ensures e.db.Valid() && Gathered(old(e.Now()), w1, w2, e.Now(), s, fringe, scan, adopted)
    ensures CountersAre(e.db.layout.disk, e.db.nextPhysical, e.db.nextLogical) && AllocatorIn(e.db.layout.disk)
    ensures adopted != [] <==> Allocates(old(e.Now()), s)
    ensures s < |old(e.sessions)| && old(e.sessions)[s].writeSet.Some? && scan == InOrder(old(e.sessions)[s].writeSet.value)
    ensures ScanOrder(w1.memory, adopted, old(e.db.nextLogical), ObjectsOf(scan), |scan|)
    ensures e.db.nextLogical == old(e.db.nextLogical) + |adopted|
    ensures Spending(old(e.db.nextLogical), old(e.db.nextPhysical), |Remaining(old(e.Now()), fringe)|,
                     e.db.nextLogical, e.db.nextPhysical, |Remaining(w1, fringe)|, cost)
  {
    hide *;
    ghost var w0 := e.Now();
    CommitStarts(e, s, fringe, cost);
    NowIs(e);
    var entries := InOrder(e.sessions[s].writeSet.value);
    scan := entries;
    ScanBegins(w0, {}, s, fringe, scan);
    AllocatesIff(w0, s, scan);
    adopted := Scan(e, s, entries, fringe, cost);
    w1 := e.Now();
    NowIs(e);
    WalkableParts(e, fringe, cost, {});
    ScannedWalked(w0, w1, s, fringe, scan, adopted);
    CountersFit(e, fringe, cost, {}, old(e.db.nextPhysical), old(e.db.nextLogical));
    Enlist(e, s, adopted, w0, fringe);
    w2 := e.Now();
    NowIs(e);
    EnlistedSame(w1, w2, s, adopted);
    GatheredSettles(w0, w1, s, fringe, cost, scan, adopted);
    if adopted != [] {
      HasCountersStill(w0, w1, w2, s, fringe, adopted);
      CountUp(e, s);
    } else {
      UncountedHolds(w2, s);
    }
    NowIs(e);
    AllocatorStays(w0, w1, w2, e.Now(), s);
    GatheredIs(w0, w1, w2, e.Now(), s, fringe, scan, adopted);
  }

  lemma AllocatorStays(w0: World, w1: World, w2: World, w3: World, s: nat)
    requires AllocatorIn(w0.layout.disk) && w1.layout.disk == w0.layout.disk && w2.layout == w1.layout && Counted(w2, w3, s)
    ensures AllocatorIn(w3.layout.disk)
  {
  }

  lemma GatheredSettles(w0: World, w1: World, s: nat, fringe: set<Ref>, cost: nat, scan: seq<(Key, Ref)>,
                        adopted: seq<Ref>)
    requires Held(w1, {}) && ScannedTo(w0, w1, s, fringe, scan, |scan|, adopted) && Fringe(w0, fringe, cost)
    requires ClaimsMarked(w0, s, fringe) && EntriesOf(w0.sessions[s], scan)
    requires forall k | k in Dirty(w0.sessions[s]) :: WithinChildren(w0, fringe, Dirty(w0.sessions[s])[k])
    requires UNASSIGNED in Dirty(w0.sessions[s]) ==> FirstOf(scan) == Dirty(w0.sessions[s])[UNASSIGNED]
    ensures AllSettled(w1, ObjectsOf(scan) + adopted)
  {
    MarkedSkipsNothing(w0, w1, s, fringe, cost, scan, adopted);
    ScanSettlesIff(w0, w1, {}, s, fringe, scan, adopted);
  }

  lemma GatheredIs(w0: World, w1: World, w2: World, w3: World, s: nat, fringe: set<Ref>, scan: seq<(Key, Ref)>,
                   adopted: seq<Ref>)
    requires s < |w0.sessions| && EntriesOf(w0.sessions[s], scan) && ScannedTo(w0, w1, s, fringe, scan, |scan|, adopted)
    requires EnlistedTo(w1, w2, s, adopted, |adopted|) && Counted(w2, w3, s) && (adopted == [] ==> w3 == w2)
    requires Held(w1, {}) && Held(w2, {}) && AllSettled(w1, ObjectsOf(scan) + adopted)
    requires Held(w3, AllOthers(|w3.sessions|, s, if adopted == [] then CounterKeys([]) else COUNTERS))
    requires (adopted != [] ==> HasCounters(w3, s))
    ensures Gathered(w0, w1, w2, w3, s, fringe, scan, adopted)
  {
    hide Held, EntriesOf, ScannedTo, EnlistedTo, Counted, AllSettled, HasCounters;
    assert CounterKeys(adopted) == if adopted == [] then CounterKeys([]) else COUNTERS;
  }

  lemma GatheredParts(w0: World, w1: World, w2: World, w3: World, s: nat, fringe: set<Ref>, scan: seq<(Key, Ref)>,
                      adopted: seq<Ref>)
    requires Gathered(w0, w1, w2, w3, s, fringe, scan, adopted)
    ensures s < |w0.sessions| && EntriesOf(w0.sessions[s], scan) && ScannedTo(w0, w1, s, fringe, scan, |scan|, adopted)
    ensures EnlistedTo(w1, w2, s, adopted, |adopted|) && Counted(w2, w3, s) && (adopted == [] ==> w3 == w2)
    ensures Held(w1, {}) && Held(w2, {}) && Held(w3, AllOthers(|w3.sessions|, s, CounterKeys(adopted)))
    ensures AllSettled(w1, ObjectsOf(scan) + adopted) && (adopted != [] ==> HasCounters(w3, s))
    ensures Walked(w0, w1, s, fringe, adopted) && w1.sessions == w0.sessions
    ensures w3.sessions == w2.sessions && w3.kinds == w0.kinds && w3.memory.Keys == w0.memory.Keys
    ensures |w3.sessions| == |w0.sessions| && s < |w3.sessions| && w3.sessions[s].writeSet.Some?
    ensures forall z | 0 <= z < |w0.sessions| && z != s :: w3.sessions[z] == w0.sessions[z]
    ensures adopted == [] ==> w3.sorts == w0.sorts
  {
    hide Held, Contents, Settled, AllSettled, HasCounters;
    ScannedWalked(w0, w1, s, fringe, scan, adopted);
    EnlistedSame(w1, w2, s, adopted);
    if adopted == [] {
      NoneNew(w0, w1, s, fringe);
    }
  }

  /** The part of a commit that works on the session and the file: adopts, enlists, writes, and ends the
      transaction. */
  method Persist(e: ObjectBase, s: nat, ghost fringe: set<Ref>, ghost cost: nat)
    returns (changed: seq<(Key, Ref)>, adopted: seq<Ref>, addresses: seq<Key>, ghost stale: Stale)
    requires e.Valid() && CanPersist(e.Now(), s, fringe, cost, e.db.nextLogical, e.db.nextPhysical, e.db.content.Length)
    requires Allocates(e.Now(), s) ==> HasCounters(e.Now(), s)
    modifies e, e.db, e.db.content
    ensures (adopted != [] <==> Allocates(old(e.Now()), s)) && (adopted != [] ==> HasCounters(e.Now(), s))
    ensures e.db.Valid() && e.Ready(stale) && e.AllocatorStored() && RootsWait(e.Now())
    ensures Persisted(old(e.Now()), e.Now(), s, fringe, changed, adopted) && OthersKept(old(e.Now()), e.Now(), s)
    ensures NotifiedTo(e.Now(), e.Now(), s, changed, addresses, 0) && StaleFrom(stale, |e.sessions|, s, addresses, 0)
    ensures forall k :: k in addresses <==> k in ChangedKeys(changed, adopted)
    ensures NoticeOrder(addresses, ChangedKeys(changed, adopted), RootHome(old(e.Now()), e.Now(), s))
    ensures |e.sessions| == |old(e.sessions)|
    ensures forall z | 0 <= z < |e.sessions| && z != s :: e.sessions[z] == old(e.sessions)[z]
    ensures adopted == [] ==> e.sorts == old(e.sorts)
    ensures AdoptedInOrder(old(e.Now()), e.Now(), s, adopted, old(e.db.nextLogical))
    ensures e.db.nextLogical == old(e.db.nextLogical) + |adopted|
    ensures e.db.nextLogical <= old(e.db.nextLogical) + |Remaining(old(e.Now()), fringe)|
    ensures e.db.nextPhysical <= old(e.db.nextPhysical) + |Remaining(old(e.Now()), fringe)| * cost
  {
    hide *;
    ghost var w0, scan, w1, w2 := e.Now(), [], e.Now(), e.Now();
    CommitStarts(e, s, fringe, cost);
    NowIs(e);
    adopted, scan, w1, w2 := Gather(e, s, fringe, cost);
    SpentAtMost(old(e.db.nextLogical), old(e.db.nextPhysical), |Remaining(w0, fringe)|,
                e.db.nextLogical, e.db.nextPhysical, |Remaining(w1, fringe)|, cost);
    ghost var w3 := e.Now();
    NowIs(e);
    GatheredParts(w0, w1, w2, w3, s, fringe, scan, adopted);
    var entries := InOrder(e.sessions[s].writeSet.value);
    changed := AtHome(e.memory, entries);
    addresses := Notices(entries, changed, adopted);
    WritingStarts(w0, w1, w2, w3, s, fringe, scan, adopted, entries);
    NoticesInOrder(w0, w1, w2, w3, AllOthers(|w3.sessions|, s, CounterKeys(adopted)), s, fringe, scan, adopted, entries);
    NoticesAre(addresses, ChangedKeys(changed, adopted), RootHome(w0, w3, s));
    StaleWhileWriting(w3, s, changed, adopted, addresses);
    stale := AllOthers(|e.sessions|, s, ChangedKeys(changed, adopted));
    WriteAll(e, s, changed, stale);
    ghost var w4 := e.Now();
    NowIs(e);
    WritingEnds(w0, w1, w2, w3, w4, s, fringe, adopted, changed, addresses, stale);
    ChangesStay(w2, w3, s, changed);
    PersistEnds(w0, w1, w2, w3, w4, s, fringe, scan, adopted, changed);
    WrittenSame(w3, w4, changed);
    if adopted != [] {
      CountersKept(w3, w4, s);
    }
    CountersStay(e, w3.layout.disk, KeysTo(changed, |changed|));
    e.sessions := e.sessions[s := e.sessions[s].(writeSet := None)];
    NowIs(e);
    PersistedStill(w0, w4, e.Now(), s, fringe, adopted, changed);
    RootHomeIs(w0, w3, e.Now(), s);
    GatheredInOrder(w0, w1, w2, w3, e.Now(), s, fringe, scan, adopted, old(e.db.nextLogical));
    RootsStillWait(w0, e.Now(), s, adopted);
    StillFresh(e, w0.memory);
    ReadyFrom(e, stale);
  }

  lemma SpentAtMost(logical: nat, physical: nat, remaining: nat, logical': nat, physical': nat, remaining': nat,
                    cost: nat)
    requires Spending(logical, physical, remaining, logical', physical', remaining', cost)
    ensures logical' <= logical + remaining && physical' <= physical + remaining * cost
  {
    assert 0 <= remaining' * cost;
  }

  lemma NoneNew(w0: World, w1: World, s: nat, fringe: set<Ref>)
    requires Walked(w0, w1, s, fringe, [])
    ensures w1.sorts == w0.sorts
  {
    forall a | a in w1.sorts ensures a in w0.sorts {
      assert a !in w0.sorts ==> a in Homes(w1.memory, []);
    }
  }

  lemma CountersKept(w3: World, w4: World, s: nat)
    requires HasCounters(w3, s) && w4 == w3.(layout := w4.layout)
    ensures s < |w4.sessions|
    ensures HasCounters(w4.(sessions := w4.sessions[s := w4.sessions[s].(writeSet := None)]), s)
  {
  }

  lemma ChangesStay(w2: World, w3: World, s: nat, changed: seq<(Key, Ref)>)
    requires s < |w3.sessions| && w3.sessions == w2.sessions && ChangesOf(w3.sessions[s], changed)
    ensures ChangesOf(w2.sessions[s], changed)
  {
  }

  lemma WrittenSame(w3: World, w4: World, changed: seq<(Key, Ref)>)
    requires WrittenTo(w3, w4, changed, |changed|)
    ensures w4 == w3.(layout := w4.layout)
    ensures forall a | a in w3.layout.disk && a !in KeysTo(changed, |changed|) ::
      a in w4.layout.disk && w4.layout.disk[a] == w3.layout.disk[a]
  {
  }

  /** Reads the session's copies of the counters, from which allocation then goes on. */
  method TakeCounters(e: ObjectBase, s: nat)
    requires e.Valid() && s < |e.sessions| && CanAllocate(e.Now(), s)
    modifies e`memory, e`nextRef, e`sessions, e`kinds, e.db`nextLogical, e.db`nextPhysical
    ensures e.Valid() && Extends(old(e.Now()), e.Now(), s) && HasCounters(e.Now(), s) && CanAllocate(e.Now(), s)
    ensures e.db.nextLogical == old(e.db.nextLogical) && e.db.nextPhysical == old(e.db.nextPhysical)
  {
    hide *;
    var logical, physical := LoadCounters(e, s);
    e.db.nextLogical, e.db.nextPhysical := logical, physical;
  }

  /** Reading brings in nothing that needs an address. */
  lemma UnaddressedStill(w: World, w': World, s: nat, x: Ref)
    requires Held(w, {}) && Held(w', {}) && Extends(w, w', s)
    ensures Unaddressed(w', x) <==> Unaddressed(w, x)
    ensures x in w.memory ==> x in w'.memory && w'.memory[x] == w.memory[x]
    ensures x in w.kinds ==> x in w'.kinds && w'.kinds[x] == w.kinds[x]
  {
    if x in w'.memory && x !in w.memory {
      assert ReadBy(w', s, x);
    }
  }

  lemma FringeStill(w: World, w': World, s: nat, fringe: set<Ref>, cost: nat)
    requires Held(w, {}) && Held(w', {}) && Extends(w, w', s) && Fringe(w, fringe, cost)
    ensures Fringe(w', fringe, cost) && Remaining(w', fringe) == Remaining(w, fringe)
  {
    hide Held, Extends, Served;
    forall x ensures Unaddressed(w', x) <==> Unaddressed(w, x) {
      UnaddressedStill(w, w', s, x);
    }
    forall x | x in fringe && Unaddressed(w', x) ensures Adoptee(w', fringe, cost, x) {
      UnaddressedStill(w, w', s, x);
      assert Adoptee(w, fringe, cost, x);
      SizeStays(w.memory, w'.memory, w.memory[x], w.corrected);
      SameMode(w, w', s);
    }
  }

  lemma SameMode(w: World, w': World, s: nat)
    requires Extends(w, w', s)
    ensures w'.corrected == w.corrected && |w'.sessions| == |w.sessions| && s < |w.sessions|
    ensures w'.sessions[s].writeSet == w.sessions[s].writeSet
  {
  }

  lemma AllocatesStill(w: World, w': World, s: nat)
    requires Held(w, {}) && Held(w', {}) && Extends(w, w', s)
    ensures Allocates(w', s) <==> Allocates(w, s)
  {
    hide Held, Contents, RedBlack.Valid, NewAreRead, NeedsAddress;
    SetsHeld(w, {}, s);
    HeldParts(w, {});
    var dirty := Dirty(w.sessions[s]);
    assert Dirty(w'.sessions[s]) == dirty;
    forall k | k in dirty
      ensures dirty[k] in w.memory && dirty[k] in w'.memory
      ensures NeedsAddress(w'.memory, w'.memory[dirty[k]]) <==> NeedsAddress(w.memory, w.memory[dirty[k]])
    {
      DirtyIsThere(w, {}, s, k);
      NeedsStill(w, w', dirty[k]);
    }
  }

  lemma DirtyIsThere(w: World, stale: Stale, s: nat, k: Key)
    requires Held(w, stale) && s < |w.sessions| && k in Dirty(w.sessions[s])
    ensures Dirty(w.sessions[s])[k] in w.memory
  {
    SetsHeld(w, stale, s);
  }

  lemma NeedsStill(w: World, w': World, x: Ref)
    requires Linked(w) && x in w.memory && forall y | y in w.memory :: y in w'.memory && w'.memory[y] == w.memory[y]
    ensures NeedsAddress(w'.memory, w'.memory[x]) <==> NeedsAddress(w.memory, w.memory[x])
  {
    ChildrenLinked(w, x);
    forall c | c in Children(w.memory[x]) ensures c in w.memory {
      var i :| 0 <= i < |Children(w.memory[x])| && Children(w.memory[x])[i] == c;
    }
  }

  lemma CanPersistStill(w: World, w': World, s: nat, fringe: set<Ref>, cost: nat, nextLogical: nat, nextPhysical: nat,
                        words: nat)
    requires Held(w, {}) && Held(w', {}) && Extends(w, w', s)
    requires CanPersist(w, s, fringe, cost, nextLogical, nextPhysical, words)
    ensures CanPersist(w', s, fringe, cost, nextLogical, nextPhysical, words)
    ensures Remaining(w', fringe) == Remaining(w, fringe) && (Allocates(w', s) <==> Allocates(w, s))
  {
    hide Held, Extends, Fringe, Allocates, Contents;
    SameMode(w, w', s);
    FringeStill(w, w', s, fringe, cost);
    AllocatesStill(w, w', s);
    assert Dirty(w'.sessions[s]) == Dirty(w.sessions[s]);
    forall x ensures Unaddressed(w', x) <==> Unaddressed(w, x)
      ensures x in w.memory ==> x in w'.memory && w'.memory[x] == w.memory[x]
    {
      UnaddressedStill(w, w', s, x);
    }
  }

  /** Makes a session's changes part of the file and tells the other sessions. If it has to give addresses, the session
      first reads its copies of the counters. */
  method CommitTransaction(e: ObjectBase, s: nat, ghost fringe: set<Ref>, ghost cost: nat)
    returns (changed: seq<(Key, Ref)>, adopted: seq<Ref>, ghost loaded: World, ghost notices: seq<Key>)
    requires e.Valid() && CanCommit(e.Now(), s, fringe, cost, e.db.nextLogical, e.db.nextPhysical, e.db.content.Length)
    modifies e, e.db, e.db.content
    ensures e.Valid() && Loaded(old(e.Now()), loaded, s)
    ensures Committed(loaded, e.Now(), s, fringe, changed, adopted)
    ensures (adopted != [] <==> Allocates(old(e.Now()), s)) && (adopted != [] ==> HasCounters(e.Now(), s))
    ensures adopted == [] ==> loaded == old(e.Now())
    ensures CanAllocate(old(e.Now()), s) ==> CanAllocate(e.Now(), s)
    ensures CalmTo(loaded.(sorts := e.sorts), e.Now(), s, ChangedKeys(changed, adopted), |e.sessions|)
    ensures NoticeOrder(notices, ChangedKeys(changed, adopted), RootHome(loaded, e.Now(), s))
    ensures ToldTo(loaded, e.Now(), s, notices, e.stubDepth, |e.sessions|)
    ensures AdoptedInOrder(loaded, e.Now(), s, adopted, old(e.db.nextLogical))
    ensures e.db.nextLogical == old(e.db.nextLogical) + |adopted|
    ensures e.db.nextLogical <= old(e.db.nextLogical) + |Remaining(old(e.Now()), fringe)|
    ensures e.db.nextPhysical <= old(e.db.nextPhysical) + |Remaining(old(e.Now()), fringe)| * cost
  {
    hide *;
    ghost var w0, stale := e.Now(), {};
    NowIs(e);
    CommitParts(e, s, fringe, cost);
    var entries := InOrder(e.sessions[s].writeSet.value);
    if AnyNeeds(e.memory, entries) {
      TakeCounters(e, s);
    }
    loaded := e.Now();
    NowIs(e);
    ValidParts(e);
    e.ReadyParts({});
    LoadedStarts(w0, loaded, s, fringe, cost, e.db.nextLogical, e.db.nextPhysical, e.db.content.Length);
    var addresses;
    changed, adopted, addresses, stale := Persist(e, s, fringe, cost);
    ghost var w5 := e.Now();
    NowIs(e);
    e.ReadyParts(stale);
    NotifyOthers(e, s, changed, addresses, stale);
    NowIs(e);
    ValidFrom(e);
    notices := addresses;
    CommitEnds(loaded, w5, e.Now(), s, fringe, adopted, changed, addresses);
    ToldSince(loaded, w5, e.Now(), s, addresses, e.stubDepth);
    ToldInOrder(loaded, w5, e.Now(), s, fringe, changed, adopted, old(e.db.nextLogical));
    RootStaysHome(loaded, w5, e.Now(), s, fringe, changed, adopted);
    CalmSince(loaded, w5, e.Now(), s, changed, adopted, addresses);
    if adopted != [] {
      CountersTold(w5, stale, e.Now(), s);
    }
    if CanAllocate(loaded, s) {
      AllocatesAgain(loaded, e.Now(), s, fringe, changed, adopted);
    }
  }

  lemma RootStaysHome(w0: World, w5: World, w: World, s: nat, fringe: set<Ref>, changed: seq<(Key, Ref)>,
                      adopted: seq<Ref>)
    requires Held(w0, {}) && RootsWait(w0) && Persisted(w0, w5, s, fringe, changed, adopted) && Told(w5, w, s)
    ensures RootHome(w0, w, s) == RootHome(w0, w5, s)
  {
    hide Held, Contents, CacheGrown, ChangedKeys, Kept;
    if UNASSIGNED in Dirty(w0.sessions[s]) {
      var r := Dirty(w0.sessions[s])[UNASSIGNED];
      SetsHeld(w0, {}, s);
      assert IsMine(w0, s, r);
      assert IsMine(w5, s, r);
    }
  }

  /** A commit loses none of its session's counters. */
  lemma AllocatesAgain(w0: World, w: World, s: nat, fringe: set<Ref>, changed: seq<(Key, Ref)>, adopted: seq<Ref>)
    requires Held(w0, {}) && Committed(w0, w, s, fringe, changed, adopted) && CanAllocate(w0, s)
    ensures CanAllocate(w, s)
  {
    hide Held, Contents, CommittedIn, NotifiedOf, Kept, RedBlack.Valid;
    var c, c' := Cache(w0.sessions[s]), Cache(w.sessions[s]);
    forall k | k in c && k <= Store.NEXT_LOGICAL_ADDR ensures IsMine(w0, s, c[k]) && w0.memory[c[k]].logical == k && w0.memory[c[k]].session == Some(s)
    {
      EntryHeld(w0, {}, s, k);
    }
    assert forall k | k in c' && k <= Store.NEXT_LOGICAL_ADDR :: k in c && c'[k] == c[k];
    forall k | Store.IsCounter(k) ensures !CounterLost(w, s, k) {
      assert !CounterLost(w0, s, k);
      if Store.ALLOCATOR_ADDR in c && SlotMisread(w, c[Store.ALLOCATOR_ADDR], SlotOf(k)) {
        AllocatorLinks(w0, s, c[Store.ALLOCATOR_ADDR], SlotOf(k));
      }
    }
  }

  /** The session's copy of the allocator refers to what the session may keep. */
  lemma AllocatorLinks(w: World, s: nat, r: Ref, i: nat)
    requires Held(w, {}) && s < |w.sessions| && r in w.memory && w.memory[r].logical == Store.ALLOCATOR_ADDR
    requires w.memory[r].session == Some(s) && w.memory[r].storage.SlottedStorage? && i < |w.memory[r].storage.slots|
    ensures IsOwn(w, s, w.memory[r].storage.slots[i]) && IsMine(w, s, w.memory[r].storage.slots[i])
  {
    assert IsCopy(w, r) && CopySound(w, r);
    var x := w.memory[r].storage.slots[i];
    assert x in w.memory[r].storage.Links() && IsOwn(w, s, x) && Placed(w, x);
  }

  /** The commit begins in a world to which the allocator and its counters may have been read. */
  ghost predicate Loaded(w: World, w': World, s: nat) {
    Held(w, {}) && Held(w', {}) && RootsWait(w') && Extends(w, w', s)
  }

  lemma CommitParts(e: ObjectBase, s: nat, fringe: set<Ref>, cost: nat)
    requires e.Valid() && CanCommit(e.Now(), s, fringe, cost, e.db.nextLogical, e.db.nextPhysical, e.db.content.Length)
    ensures s < |e.sessions| && e.sessions[s].writeSet.Some? && Held(e.Now(), {})
    ensures CanPersist(e.Now(), s, fringe, cost, e.db.nextLogical, e.db.nextPhysical, e.db.content.Length)
    ensures AnyNeeds(e.memory, InOrder(e.sessions[s].writeSet.value)) <==> Allocates(e.Now(), s)
    ensures Allocates(e.Now(), s) ==> CanAllocate(e.Now(), s)
    ensures Extends(e.Now(), e.Now(), s)
  {
    hide Held;
    e.ReadyParts({});
    SetsHeld(e.Now(), {}, s);
    TraversalIsEntries(e.Now().sessions[s], InOrder(e.sessions[s].writeSet.value));
    AllocatesIff(e.Now(), s, InOrder(e.sessions[s].writeSet.value));
    ExtendsSelf(e.Now(), s);
  }

  lemma LoadedStarts(w: World, w': World, s: nat, fringe: set<Ref>, cost: nat, nextLogical: nat, nextPhysical: nat,
                     words: nat)
    requires Held(w, {}) && Held(w', {}) && RootsWait(w') && Extends(w, w', s)
    requires CanPersist(w, s, fringe, cost, nextLogical, nextPhysical, words)
    ensures Loaded(w, w', s) && CanPersist(w', s, fringe, cost, nextLogical, nextPhysical, words)
    ensures Remaining(w', fringe) == Remaining(w, fringe) && (Allocates(w', s) <==> Allocates(w, s))
  {
    CanPersistStill(w, w', s, fringe, cost, nextLogical, nextPhysical, words);
  }

  lemma CountersTold(w5: World, stale: Stale, w: World, s: nat)
    requires HasCounters(w5, s) && Told(w5, w, s) && Held(w5, stale)
    ensures HasCounters(w, s)
  {
    hide Held, Contents, Kept;
    forall k | Store.IsCounter(k) ensures IsIntact(w, Cache(w5.sessions[s])[k]) {
      EntryHeld(w5, stale, s, k);
      assert SameObject(w5, w, Cache(w5.sessions[s])[k]);
    }
  }

  lemma CalmSince(w0: World, w5: World, w: World, s: nat, changed: seq<(Key, Ref)>, adopted: seq<Ref>,
                  addresses: seq<Key>)
    requires Held(w0, {}) && OthersKept(w0, w5, s) && |w5.sessions| == |w0.sessions| == |w.sessions|
    requires forall z | 0 <= z < |w0.sessions| && z != s :: w5.sessions[z] == w0.sessions[z]
    requires forall k :: k in addresses <==> k in ChangedKeys(changed, adopted)
    requires CalmTo(w5, w, s, AddressSet(addresses), |w.sessions|)
    ensures CalmTo(w0.(sorts := w5.sorts), w, s, ChangedKeys(changed, adopted), |w.sessions|)
  {
    hide Held, RedBlack.Valid, Contents, ChangedKeys, Quiet, Untouched;
    var keys, w0' := ChangedKeys(changed, adopted), w0.(sorts := w5.sorts);
    assert AddressSet(addresses) == keys;
    forall z | 0 <= z < |w.sessions| && z != s ensures Calm(w0', w, z, keys) {
      assert Calm(w5, w, z, keys);
      forall rank: nat | Quiet(w0', z, keys, rank) ensures Untouched(w0', w, z, rank) {
        QuietLater(w0, w5, s, z, keys, rank);
        UntouchedFrom(w0', w5, w, z, rank);
      }
    }
  }

  lemma QuietLater(w0: World, w5: World, s: nat, z: nat, keys: set<Key>, rank: nat)
    requires Held(w0, {}) && OthersKept(w0, w5, s) && z < |w0.sessions| == |w5.sessions| && z != s
    requires w5.sessions[z] == w0.sessions[z] && Quiet(w0.(sorts := w5.sorts), z, keys, rank)
    ensures Quiet(w5, z, keys, rank)
  {
    hide Held, RedBlack.Valid, Contents;
    SetsHeld(w0, {}, z);
    forall k | k in Cache(w0.sessions[z])
      ensures Cache(w0.sessions[z])[k] in w0.memory && !IsMine(w0, s, Cache(w0.sessions[z])[k])
    {
      assert IsEntry(w0, z, k, Cache(w0.sessions[z])[k]);
    }
  }
}

/** Programs on pairs: creating them, claiming and marking them, committing, and storing one in another, each with what
    it leaves. The runs are made of these. */
module Steps {
  import opened Words
  import opened AddressMap
  import opened RedBlack
  import opened Objects
  import opened World
  import opened Allocation
  import opened Changes
  import opened Closure
  import opened Committing
  import opened ObjectBase
  import opened Renewal
  import opened Mutation
  import opened Notice
  import opened Transactions
  import opened Programs
  import opened Roots
  import Database
  import FixedSpace
  import Store
  import StoreRuns

  // ----- A new file with two sessions, and new pairs

  /** All objects of these runs are pairs with the allocator's shape. */
  const PAIR_SORT := Sort(3, SlottedForm(2))

  /** The words set aside for each. */
  const COST: nat := 3 + ASSIGN_WORDS

  method OpenFile(file: array<Word>, corrected: bool) returns (e: ObjectBase)
    requires StoreRuns.Bootable(file[..]) && file.Length < 0x8000_0000
    modifies file
    ensures e.Valid() && fresh(e) && fresh(e.db) && e.db.content == file && e.corrected == corrected && e.stubDepth == 4
    ensures e.sessions == [Session(Leaf, None), Session(Leaf, None)] && e.memory == FixedSpace.FIXED_MEMORY
    ensures e.sorts == FIRST_SORTS && e.db.nextLogical == 4 && e.db.nextPhysical == StoreRuns.BOOT_WORDS
    ensures NIL in e.memory && NIL in e.kinds && e.kinds[NIL].rank <= PAIR_SORT.rank
  {
    hide *;
    var db := new Database.Database(file);
    e := new ObjectBase(db, 4, corrected);
    var s0 := CreateSession(e);
    var s1 := CreateSession(e);
    NilIsThere(e);
  }

  lemma NilIsThere(e: ObjectBase)
    requires e.Valid()
    ensures NIL in e.memory && NIL in e.kinds && e.kinds[NIL].rank <= PAIR_SORT.rank
  {
    ConstantHeld(e.Now(), {}, NIL_ADDR);
  }

  function NewPair(p: Ref, q: Ref): Obj {
    Obj(None, UNASSIGNED, UNASSIGNED, ALLOCATOR_SHAPE, SlottedStorage([p, q]))
  }

  method CreatePair(e: ObjectBase, p: Ref, q: Ref) returns (r: Ref)
    requires e.Valid() && p in e.memory && q in e.memory
    requires p in e.kinds && q in e.kinds && e.kinds[p].rank <= PAIR_SORT.rank && e.kinds[q].rank <= PAIR_SORT.rank
    modifies e`memory, e`nextRef, e`kinds
    ensures e.Valid() && r !in old(e.memory)
    ensures e.kinds == old(e.kinds)[r := PAIR_SORT] && e.memory == old(e.memory)[r := NewPair(p, q)]
    ensures e.kinds[r].rank <= PAIR_SORT.rank
  {
    ValidParts(e);
    e.ReadyParts({});
    PairCreatable(e.Now(), e.nextRef, p, q);
    hide *;
    r := CreateObject(e, ALLOCATOR_SHAPE, SlottedStorage([p, q]), PAIR_SORT);
    PairIs(e, r, p, q);
  }

  lemma PairIs(e: ObjectBase, r: Ref, p: Ref, q: Ref)
    ensures NewPair(p, q) == Obj(None, UNASSIGNED, UNASSIGNED, ALLOCATOR_SHAPE, SlottedStorage([p, q]))
  {
  }

  lemma PairCreatable(w: World, r: Ref, p: Ref, q: Ref)
    requires Held(w, {}) && r !in w.memory && p in w.memory && q in w.memory
    requires p in w.kinds && q in w.kinds && w.kinds[p].rank <= 3 && w.kinds[q].rank <= 3
    ensures Creatable(w, r, NewPair(p, q), PAIR_SORT)
  {
    ConstantHeld(w, {}, ALLOCATOR_SHAPE_ADDR);
  }

  /** A pair that has no address, and whose references that have none are in the fringe. */
  ghost predicate IsNew(w: World, fringe: set<Ref>, x: Ref) {
    && x in w.memory && x in w.kinds && w.kinds[x] == PAIR_SORT && w.memory[x].logical == UNASSIGNED
    && InPairs(w, fringe, x)
  }

  /** Its references that have no address are in the fringe. */
  ghost predicate InPairs(w: World, fringe: set<Ref>, x: Ref) {
    && x in w.memory && w.memory[x].shape == ALLOCATOR_SHAPE && w.memory[x].storage.SlottedStorage?
    && forall y | y in w.memory[x].storage.slots && Unaddressed(w, y) :: y in fringe
  }

  lemma PairChildren(w: World, fringe: set<Ref>, x: Ref)
    requires Held(w, {}) && InPairs(w, fringe, x)
    ensures WithinChildren(w, fringe, x)
  {
    hide Held;
    ConstantHeld(w, {}, ALLOCATOR_SHAPE_ADDR);
    var slots := w.memory[x].storage.slots;
    forall c | c in Children(w.memory[x]) && Unaddressed(w, c) ensures c in fringe {
      var i :| 0 <= i < |Children(w.memory[x])| && Children(w.memory[x])[i] == c;
      assert c == ALLOCATOR_SHAPE || c in slots;
    }
  }

  /** New pairs make a fringe. */
  lemma PairsFringe(w: World, fringe: set<Ref>)
    requires Held(w, {}) && forall x | x in fringe :: IsNew(w, fringe, x)
    ensures Fringe(w, fringe, COST) && Remaining(w, fringe) == fringe
  {
    forall x | x in fringe && Unaddressed(w, x) ensures Adoptee(w, fringe, COST, x) {
      PairChildren(w, fringe, x);
      assert WellFormed(w.kinds, w.memory[x], w.kinds[x]);
    }
  }

  // ----- Claiming objects and marking one

  /** The session set in several objects. */
  function Owned(m: Memory, s: nat, xs: seq<Ref>): Memory
    requires forall x | x in xs :: x in m
    ensures Owned(m, s, xs).Keys == m.Keys
  {
    if xs == [] then m
    else
      var before, x := Owned(m, s, xs[..|xs| - 1]), xs[|xs| - 1];
      before[x := before[x].(session := Some(s))]
  }

  lemma {:induction false} OwnedAt(m: Memory, s: nat, xs: seq<Ref>, x: Ref)
    requires x in m && forall x | x in xs :: x in m
    ensures Owned(m, s, xs)[x] == if x in xs then m[x].(session := Some(s)) else m[x]
  {
    if xs != [] {
      OwnedAt(m, s, xs[..|xs| - 1], x);
    }
  }

  /** The objects have the session, and a transaction is open. */
  ghost predicate Claimants(w0: World, w: World, s: nat, xs: seq<Ref>) {
    && s < |w0.sessions| && w0.sessions[s].writeSet == None && (forall x | x in xs :: x in w0.memory)
    && w == w0.(memory := Owned(w0.memory, s, xs), sessions := w0.sessions[s := w0.sessions[s].(writeSet := Some(Leaf))])
  }

  ghost predicate NoOwner(w: World, x: Ref) {
    x in w.memory && x in w.kinds && w.memory[x].session == None && w.kinds[x] == PAIR_SORT
  }

  method ClaimAll(e: ObjectBase, s: nat, xs: seq<Ref>)
    requires e.Valid() && s < |e.sessions| && e.sessions[s].writeSet == None
    requires forall i | 0 <= i < |xs| :: NoOwner(e.Now(), xs[i])
    requires forall i, j | 0 <= i < j < |xs| :: xs[i] != xs[j]
    modifies e`memory, e`sessions
    ensures e.Valid() && Claimants(old(e.Now()), e.Now(), s, xs)
  {
    hide *;
    ghost var w0 := e.Now();
    NowIs(e);
    NoneClaimed(w0, s, xs);
    for i := 0 to |xs|
      invariant e.Valid() && e.sessions == old(e.sessions) && (forall x | x in xs :: x in w0.memory)
      invariant forall x | x in xs[..i] :: x in w0.memory
      invariant e.memory == Owned(w0.memory, s, xs[..i])
    {
      NowIs(e);
      NextToClaim(w0, e.Now(), s, xs, i);
      ClaimObject(e, s, xs[i]);
    }
    assert xs[..|xs|] == xs;
    var begun := BeginTransaction(e, s);
    NowIs(e);
    AllClaimed(w0, e.Now(), s, xs);
  }

  lemma NoneClaimed(w: World, s: nat, xs: seq<Ref>)
    requires forall i | 0 <= i < |xs| :: NoOwner(w, xs[i])
    ensures (forall x | x in xs :: x in w.memory) && (forall x | x in xs[..0] :: x in w.memory)
    ensures Owned(w.memory, s, xs[..0]) == w.memory
  {
  }

  lemma NextToClaim(w0: World, w: World, s: nat, xs: seq<Ref>, i: nat)
    requires i < |xs| && (forall x | x in xs[..i] :: x in w0.memory) && w.memory == Owned(w0.memory, s, xs[..i])
    requires NoOwner(w0, xs[i]) && w.kinds == w0.kinds && forall i, j | 0 <= i < j < |xs| :: xs[i] != xs[j]
    ensures Transient(w, xs[i]) && Served(w.kinds[xs[i]].form, w.corrected) && xs[i] in w.memory
    ensures forall x | x in xs[..i + 1] :: x in w0.memory
    ensures Owned(w0.memory, s, xs[..i + 1]) == w.memory[xs[i] := w.memory[xs[i]].(session := Some(s))]
  {
    OwnedAt(w0.memory, s, xs[..i], xs[i]);
    assert xs[..i + 1][..i] == xs[..i];
  }

  lemma AllClaimed(w0: World, w: World, s: nat, xs: seq<Ref>)
    requires s < |w0.sessions| && w0.sessions[s].writeSet == None && forall x | x in xs :: x in w0.memory
    requires w == w0.(memory := Owned(w0.memory, s, xs), sessions := w0.sessions[s := w0.sessions[s].(writeSet := Some(Leaf))])
    ensures Claimants(w0, w, s, xs)
  {
  }

  // ----- Marking them, and the commit

  /** What the commit of claimed objects begins with: of these only the last may be adopted. */
  ghost predicate Persistable(w: World, s: nat, xs: seq<Ref>, fringe: set<Ref>) {
    && s < |w.sessions| && w.sessions[s].writeSet == None && xs != [] && xs[|xs| - 1] in fringe
    && (forall i | 0 <= i < |xs| :: NoOwner(w, xs[i]) && w.memory[xs[i]].logical == UNASSIGNED && IsIntact(w, xs[i]))
    && (forall i, j | 0 <= i < j < |xs| :: xs[i] != xs[j]) && (forall i | 0 <= i < |xs| - 1 :: xs[i] !in fringe)
    && (forall x | x in fringe :: IsNew(w, fringe, x) && w.memory[x].session == None)
    && CanAllocate(w, s)
  }

  lemma ClaimantsMarkable(w0: World, w: World, s: nat, xs: seq<Ref>, fringe: set<Ref>)
    requires Persistable(w0, s, xs, fringe) && Claimants(w0, w, s, xs)
    ensures AllMarkable(w, s, xs) && s < |w.sessions| && w.sessions[s].writeSet.Some? && Dirty(w.sessions[s]) == map[]
    ensures Cache(w.sessions[s]) == Cache(w0.sessions[s]) && forall x | x in xs :: x in w.memory
  {
    forall x | x in xs ensures Markable(w, s, x) {
      var i :| 0 <= i < |xs| && xs[i] == x;
      OwnedAt(w0.memory, s, xs, x);
    }
  }

  ghost predicate AreMarked(w: World, w': World, xs: seq<Ref>) {
    (forall x | x in xs :: x in w.memory) && w' == MarkedAll(w, xs)
  }

  method MarkAll(e: ObjectBase, s: nat, xs: seq<Ref>)
    requires e.Valid() && AllMarkable(e.Now(), s, xs) && s < |e.sessions| && e.sessions[s].writeSet.Some?
    modifies e`sessions
    ensures e.Valid() && AreMarked(old(e.Now()), e.Now(), xs)
  {
    hide *;
    ghost var w := e.Now();
    NowIs(e);
    ValidParts(e);
    e.ReadyParts({});
    NothingMarked(w, s, xs);
    for i := 0 to |xs|
      invariant e.Valid() && AreMarked(w, e.Now(), xs[..i])
    {
      NextToMark(w, e.Now(), s, xs, i);
      var freed := MarkDirty(e, xs[i]);
    }
    assert xs[..|xs|] == xs;
  }

  lemma NothingMarked(w: World, s: nat, xs: seq<Ref>)
    requires AllMarkable(w, s, xs)
    ensures (forall x | x in xs :: x in w.memory) && AreMarked(w, w, xs[..0])
  {
    forall x | x in xs ensures x in w.memory {
      assert Markable(w, s, x);
    }
  }

  lemma NextToMark(w: World, w': World, s: nat, xs: seq<Ref>, i: nat)
    requires Held(w, {}) && AllMarkable(w, s, xs) && s < |w.sessions| && w.sessions[s].writeSet.Some? && i < |xs|
    requires AreMarked(w, w', xs[..i])
    ensures MayMark(w', xs[i]) && AreMarked(w, MarkedDirty(w', xs[i]), xs[..i + 1])
  {
    hide Held, Contents, MarkedDirty;
    assert Markable(w, s, xs[i]);
    MarksAreListed(w, {}, s, xs[..i]);
    MarkableStill(w, MarkedAll(w, xs[..i]), s, xs[i]);
    assert xs[..i + 1][..i] == xs[..i];
  }

  /** The world in which the commit begins. */
  ghost predicate Chosen(w0: World, wb: World, w1: World, s: nat, xs: seq<Ref>, fringe: set<Ref>) {
    && Persistable(w0, s, xs, fringe) && Claimants(w0, wb, s, xs) && Held(wb, {}) && Held(w1, {})
    && AreMarked(wb, w1, xs)
  }

  /** The last of the objects alone is in the write set; all else is as it was but for the sessions of the claimed. */
  lemma MarkedIs(w0: World, wb: World, w1: World, s: nat, xs: seq<Ref>, fringe: set<Ref>)
    requires Chosen(w0, wb, w1, s, xs, fringe)
    ensures AllMarkable(wb, s, xs) && |w1.sessions| == |w0.sessions| && w1.sessions[s].writeSet.Some?
    ensures Dirty(w1.sessions[s]) == map[UNASSIGNED := xs[|xs| - 1]] && Cache(w1.sessions[s]) == Cache(w0.sessions[s])
    ensures w1.kinds == w0.kinds && w1.memory == wb.memory && w1.memory.Keys == w0.memory.Keys
    ensures forall x | x in w0.memory :: w1.memory[x] == if x in xs then w0.memory[x].(session := Some(s)) else w0.memory[x]
  {
    hide Held, Contents, MarkedDirty;
    ClaimantsMarkable(w0, wb, s, xs, fringe);
    MarksAreListed(wb, {}, s, xs);
    forall x | x in w0.memory ensures w1.memory[x] == if x in xs then w0.memory[x].(session := Some(s)) else w0.memory[x] {
      OwnedAt(w0.memory, s, xs, x);
    }
    forall x | x in xs ensures LogicalOf(wb.memory, x) == UNASSIGNED {
      var i :| 0 <= i < |xs| && xs[i] == x;
      OwnedAt(w0.memory, s, xs, x);
    }
    OneAddress(wb.memory, xs);
  }

  lemma {:induction false} OneAddress(m: Memory, xs: seq<Ref>)
    requires xs != [] && forall x | x in xs :: LogicalOf(m, x) == UNASSIGNED
    ensures Listed(m, xs) == map[UNASSIGNED := xs[|xs| - 1]]
  {
    if |xs| > 1 {
      OneAddress(m, xs[..|xs| - 1]);
    }
  }

  lemma OthersUnmarked(w0: World, wb: World, w1: World, s: nat, xs: seq<Ref>, fringe: set<Ref>)
    requires Chosen(w0, wb, w1, s, xs, fringe)
    ensures w1.layout == w0.layout && w1.sorts == w0.sorts && w1.corrected == w0.corrected
    ensures |w1.sessions| == |w0.sessions|
    ensures forall z | 0 <= z < |w0.sessions| && z != s :: w1.sessions[z] == w0.sessions[z]
  {
    ClaimantsMarkable(w0, wb, s, xs, fringe);
    MarksElsewhere(wb, s, xs);
  }

  lemma {:induction false} MarksElsewhere(w: World, s: nat, xs: seq<Ref>)
    requires forall x | x in xs :: x in w.memory && w.memory[x].session == Some(s)
    ensures var w' := MarkedAll(w, xs);
      && w' == w.(sessions := w'.sessions) && |w'.sessions| == |w.sessions|
      && forall z | 0 <= z < |w.sessions| && z != s :: w'.sessions[z] == w.sessions[z]
  {
    if xs != [] {
      MarksElsewhere(w, s, xs[..|xs| - 1]);
    }
  }

  lemma MarkedCanCommit(w0: World, wb: World, w1: World, s: nat, xs: seq<Ref>, fringe: set<Ref>, nextLogical: nat,
                        nextPhysical: nat, words: nat)
    requires Chosen(w0, wb, w1, s, xs, fringe)
    requires nextPhysical + |fringe| * COST <= words && nextLogical + |fringe| <= ADDRESS_LIMIT
    ensures CanCommit(w1, s, fringe, COST, nextLogical, nextPhysical, words) && Remaining(w1, fringe) == fringe
    ensures Allocates(w1, s) && CanAllocate(w1, s)
  {
    hide Held, Contents, Fringe, MarkedAll, WithinChildren, CanAllocate, Claimants, AreMarked;
    MarkedIs(w0, wb, w1, s, xs, fringe);
    MarkedCanAllocate(w0, wb, w1, s, xs, fringe);
    var root := xs[|xs| - 1];
    forall x | x in fringe ensures IsNew(w1, fringe, x) && (Claimed(w1, x) ==> x == root) {
      assert IsNew(w0, fringe, x);
      if x in xs {
        var i :| 0 <= i < |xs| && xs[i] == x;
      }
    }
    PairsFringe(w1, fringe);
    PairChildren(w1, fringe, root);
    assert Dirty(w1.sessions[s])[UNASSIGNED] == root && NeedsAddress(w1.memory, w1.memory[root]);
  }

  lemma MarkedCanAllocate(w0: World, wb: World, w1: World, s: nat, xs: seq<Ref>, fringe: set<Ref>)
    requires Chosen(w0, wb, w1, s, xs, fringe)
    ensures CanAllocate(w1, s)
  {
    hide Held, Contents, MarkedAll, CounterLost, IsNew, NoOwner, IsIntact;
    MarkedIs(w0, wb, w1, s, xs, fringe);
    forall k | Store.IsCounter(k) ensures !CounterLost(w1, s, k) {
      NotLostStill(w0, w1, s, k);
    }
  }

  /** What is not misread is not lost. */
  lemma NotLostStill(w: World, w': World, s: nat, k: Key)
    requires !CounterLost(w, s, k) && s < |w.sessions| == |w'.sessions| && Cache(w'.sessions[s]) == Cache(w.sessions[s])
    requires forall x | x in w'.memory :: x in w.memory && w'.memory[x].storage == w.memory[x].storage
    ensures !CounterLost(w', s, k)
  {
  }

  /** Claims several objects for a session, marks them one after the other, and commits. */
  method PersistRoots(e: ObjectBase, s: nat, xs: seq<Ref>, ghost fringe: set<Ref>)
    returns (changed: seq<(Key, Ref)>, adopted: seq<Ref>, ghost wb: World, ghost w1: World, ghost loaded: World,
             ghost notices: seq<Key>)
    requires e.Valid() && Persistable(e.Now(), s, xs, fringe)
    requires e.db.nextPhysical + |fringe| * COST <= e.db.content.Length && e.db.nextLogical + |fringe| <= ADDRESS_LIMIT
    modifies e, e.db, e.db.content
    ensures e.Valid() && Chosen(old(e.Now()), wb, w1, s, xs, fringe) && Loaded(w1, loaded, s)
    ensures Committed(loaded, e.Now(), s, fringe, changed, adopted) && adopted != [] && CanAllocate(e.Now(), s)
    ensures CalmTo(loaded.(sorts := e.sorts), e.Now(), s, ChangedKeys(changed, adopted), |e.sessions|)
    ensures AdoptedInOrder(loaded, e.Now(), s, adopted, old(e.db.nextLogical))
    ensures e.db.nextLogical <= old(e.db.nextLogical) + |fringe|
    ensures e.db.nextPhysical <= old(e.db.nextPhysical) + |fringe| * COST
  {
    hide *;
    ghost var w0 := e.Now();
    NowIs(e);
    PersistableParts(w0, s, xs, fringe);
    ClaimAll(e, s, xs);
    wb := e.Now();
    NowIs(e);
    ValidParts(e);
    e.ReadyParts({});
    ClaimantsMarkable(w0, wb, s, xs, fringe);
    MarkAll(e, s, xs);
    w1 := e.Now();
    NowIs(e);
    ValidParts(e);
    e.ReadyParts({});
    MarkedParts(w0, wb, w1, s, xs, fringe);
    MarkedCanCommit(w0, wb, w1, s, xs, fringe, e.db.nextLogical, e.db.nextPhysical, e.db.content.Length);
    changed, adopted, loaded, notices := CommitTransaction(e, s, fringe, COST);
  }

  lemma PersistableParts(w: World, s: nat, xs: seq<Ref>, fringe: set<Ref>)
    requires Persistable(w, s, xs, fringe)
    ensures s < |w.sessions| && w.sessions[s].writeSet == None
    ensures forall i | 0 <= i < |xs| :: NoOwner(w, xs[i])
    ensures forall i, j | 0 <= i < j < |xs| :: xs[i] != xs[j]
  {
  }

  lemma MarkedParts(w0: World, wb: World, w1: World, s: nat, xs: seq<Ref>, fringe: set<Ref>)
    requires Persistable(w0, s, xs, fringe) && Claimants(w0, wb, s, xs) && Held(wb, {}) && Held(w1, {})
    requires AreMarked(wb, w1, xs)
    ensures Chosen(w0, wb, w1, s, xs, fringe)
  {
  }

  // ----- What a commit has stored

  /** An object that got its address with the commit is stored, and has the state it had. */
  lemma AdoptedIsStored(w1: World, w2: World, s: nat, fringe: set<Ref>, changed: seq<(Key, Ref)>, adopted: seq<Ref>,
                        x: Ref)
    requires Committed(w1, w2, s, fringe, changed, adopted) && Held(w2, {}) && x in adopted
    requires IsMine(w1, s, x)
    ensures IsStored(w2, s, x) && w2.memory[x].logical > Store.NEXT_LOGICAL_ADDR && w2.memory[x].session == Some(s)
    ensures w2.memory[x].shape == w1.memory[x].shape
    ensures w2.memory[x].storage == w1.memory[x].storage || CounterOf(w1, w2, s, x)
    ensures w2.memory[x].logical in ChangedKeys(changed, adopted)
  {
    hide Held, Contents, NotifiedOf, Kept, CacheGrown;
    var k :| (k, x) in changed;
    var j :| 0 <= j < |changed| && changed[j] == (k, x);
    assert HoldsAt(w2, s, changed[j].0, changed[j].1);
    EntryHeld(w2, {}, s, k);
    assert changed[j].0 in KeysTo(changed, |changed|);
  }

  /** The state of an object of the session, or of no session, that is no counter is as the commit found it. */
  lemma MineIsKept(w1: World, w2: World, s: nat, fringe: set<Ref>, changed: seq<(Key, Ref)>, adopted: seq<Ref>, x: Ref)
    requires Committed(w1, w2, s, fringe, changed, adopted) && IsMine(w1, s, x) && x in w1.kinds
    requires !w1.memory[x].storage.IntegerStorage?
    ensures s < |w1.sessions| == |w2.sessions| && w2.sessions[s].writeSet == None
    ensures x in w2.memory && w2.memory[x].shape == w1.memory[x].shape && w2.memory[x].storage == w1.memory[x].storage
    ensures x in w2.kinds && w2.kinds[x] == w1.kinds[x]
    ensures x !in adopted ==> w2.memory[x] == w1.memory[x]
    ensures x in adopted ==> Unaddressed(w1, x)
  {
    hide Held, Contents, CacheGrown, NotifiedOf, Kept, CommittedIn, SameObject, HoldsAt;
  }

  /** Reading the counters leaves the objects and the write set alone. */
  lemma LoadedIs(w: World, w': World, s: nat)
    requires Loaded(w, w', s)
    ensures s < |w.sessions| == |w'.sessions| && w'.sessions[s].writeSet == w.sessions[s].writeSet
    ensures Dirty(w'.sessions[s]) == Dirty(w.sessions[s])
    ensures forall x | x in w.memory :: x in w'.memory && w'.memory[x] == w.memory[x]
    ensures forall x | x in w.kinds :: x in w'.kinds && w'.kinds[x] == w.kinds[x]
  {
    hide Held, Contents, Current, NewAreRead, Kept, RootsWait, RedBlack.Valid;
  }

  /** What a stored object refers to has an address: if it had none, the commit has given it one. */
  lemma ReferredIsAdopted(w1: World, w2: World, s: nat, fringe: set<Ref>, changed: seq<(Key, Ref)>, adopted: seq<Ref>,
                          r: Ref, x: Ref)
    requires Committed(w1, w2, s, fringe, changed, adopted) && Held(w2, {}) && IsStored(w2, s, r)
    requires x in w2.memory[r].storage.Links() && Unaddressed(w1, x) && IsMine(w1, s, x)
    ensures x in adopted
  {
    hide Contents, CacheGrown, NotifiedOf, Kept, RedBlack.Valid, CommittedIn;
    EntryHeld(w2, {}, s, w2.memory[r].logical);
    assert LinksIn(w2.memory, w2.memory[r]);
    if x !in adopted {
      CurrentAvoids(w2, r, x);
    }
  }

  /** A new object that a stored one refers to is stored by the same commit. */
  lemma ReferredIsStored(w1: World, w2: World, s: nat, fringe: set<Ref>, changed: seq<(Key, Ref)>, adopted: seq<Ref>,
                         r: Ref, x: Ref)
    requires Committed(w1, w2, s, fringe, changed, adopted) && Held(w2, {}) && IsStored(w2, s, r)
    requires x in w2.memory[r].storage.Links() && Unaddressed(w1, x) && IsMine(w1, s, x)
    ensures IsStored(w2, s, x)
  {
    ReferredIsAdopted(w1, w2, s, fringe, changed, adopted, r, x);
    AdoptedIsStored(w1, w2, s, fringe, changed, adopted, x);
  }

  /** What the session has stored and the commit does not change stays stored. */
  lemma StillStored(w1: World, w2: World, s: nat, fringe: set<Ref>, changed: seq<(Key, Ref)>, adopted: seq<Ref>, x: Ref)
    requires Committed(w1, w2, s, fringe, changed, adopted) && Consistent(w2) && s < |w1.sessions|
    requires x in w1.memory && w1.memory[x].session == Some(s) && w1.memory[x].logical > Store.NEXT_LOGICAL_ADDR
    requires HoldsAt(w1, s, w1.memory[x].logical, x)
    ensures IsStored(w2, s, x) && w2.memory[x] == w1.memory[x]
  {
    hide Held, Contents, NotifiedOf, Kept, CommittedIn, Current;
    assert IsMine(w1, s, x) && x !in adopted;
    assert HoldsAt(w2, s, w2.memory[x].logical, x);
    UnchangedIsCurrent(w2, s, w2.memory[x].logical, x);
  }

  /** A copy that another session has of a changed object follows it. */
  lemma CopyFollows(w1: World, w2: World, s: nat, z: nat, fringe: set<Ref>, changed: seq<(Key, Ref)>,
                    adopted: seq<Ref>, a: Key, copy: Ref)
    requires Committed(w1, w2, s, fringe, changed, adopted) && z < |w1.sessions| && z != s
    requires a in ChangedKeys(changed, adopted) && a != UNASSIGNED
    requires HoldsAt(w1, z, a, copy) && w1.memory[copy].session == Some(z) && w1.memory[copy].logical == a
    ensures HoldsAt(w2, z, a, copy) && Current(w2, copy)
  {
    hide Contents, OwnKept, CacheGrown, CommittedIn, ChangedKeys, Current;
    assert !IsMine(w1, s, copy);
    assert SameObject(w1, w2, copy);
    assert UpToDate(w2, z, a);
  }

  /** A session that had read nothing has read nothing still: there is nothing of its to refresh. */
  lemma NothingRead(w1: World, w2: World, s: nat, z: nat, keys: set<Key>)
    requires CalmTo(w1.(sorts := w2.sorts), w2, s, keys, |w2.sessions|) && Held(w2, {}) && z < |w2.sessions| && z != s
    requires z < |w1.sessions| && Cache(w1.sessions[z]) == map[]
    ensures Cache(w2.sessions[z]) == map[]
  {
    hide Held, Contents;
    assert Calm(w1.(sorts := w2.sorts), w2, z, keys) && Quiet(w1.(sorts := w2.sorts), z, keys, 0);
    forall k | k in Cache(w2.sessions[z]) ensures false {
      EntryHeld(w2, {}, z, k);
      AddressHeld(w2, {}, k);
    }
  }

  // ----- A stored pair, and the pair it refers to

  ghost predicate StoredPair(w: World, s: nat, r: Ref, p: Ref, q: Ref) {
    && IsStored(w, s, r) && r in w.kinds && w.kinds[r] == PAIR_SORT && w.memory[r].shape == ALLOCATOR_SHAPE
    && w.memory[r].storage == SlottedStorage([p, q]) && w.memory[r].session == Some(s)
    && w.memory[r].logical > Store.NEXT_LOGICAL_ADDR && w.memory[r].logical in w.sorts
    && w.sorts[w.memory[r].logical] == PAIR_SORT
  }

  lemma PairIsStored(w: World, s: nat, r: Ref, p: Ref, q: Ref)
    requires Held(w, {}) && IsStored(w, s, r) && r in w.kinds && w.kinds[r] == PAIR_SORT
    requires w.memory[r].shape == ALLOCATOR_SHAPE && w.memory[r].storage == SlottedStorage([p, q])
    requires w.memory[r].logical > Store.NEXT_LOGICAL_ADDR
    ensures StoredPair(w, s, r, p, q) && !Unaddressed(w, r)
  {
    EntryHeld(w, {}, s, w.memory[r].logical);
  }

  /** Session 0 has stored both, can store more, and is in no transaction. */
  ghost predicate Chained(w: World, root: Ref, child: Ref, p: Ref) {
    && |w.sessions| == 2 && w.sessions[0].writeSet == None && CanAllocate(w, 0) && root != child
    && StoredPair(w, 0, root, child, NIL) && StoredPair(w, 0, child, p, NIL)
  }

  ghost predicate HasNew(w: World, r: Ref, p: Ref, q: Ref) {
    r in w.memory && r in w.kinds && w.memory[r] == NewPair(p, q) && w.kinds[r] == PAIR_SORT
  }

  /** New pairs, and a session that has read nothing. */
  lemma ChainIsReady(w: World, root: Ref, child: Ref)
    requires Held(w, {}) && root != child && HasNew(w, child, NIL, NIL) && HasNew(w, root, child, NIL)
    requires |w.sessions| == 2 && w.sessions[0] == Session(Leaf, None)
    ensures Persistable(w, 0, [root], {root, child})
  {
    hide Held, IsNew, NoOwner, CounterLost;
    NewIsNew(w, {root, child}, child, NIL, NIL);
    NewIsNew(w, {root, child}, root, child, NIL);
    NothingLost(w, 0);
  }

  lemma NewIsNew(w: World, fringe: set<Ref>, x: Ref, p: Ref, q: Ref)
    requires Held(w, {}) && HasNew(w, x, p, q) && (p == NIL || p in fringe) && (q == NIL || q in fringe)
    ensures IsNew(w, fringe, x) && NoOwner(w, x) && IsIntact(w, x) && w.memory[x].logical == UNASSIGNED
    ensures w.memory[x].session == None
  {
    hide Held;
    ConstantHeld(w, {}, NIL_ADDR);
  }

  /** A session that has read nothing has lost nothing. */
  lemma NothingLost(w: World, s: nat)
    requires s < |w.sessions| && w.sessions[s] == Session(Leaf, None)
    ensures CanAllocate(w, s) && Cache(w.sessions[s]) == map[]
  {
  }

  lemma ChainIsStored(w0: World, wb: World, w1: World, w: World, w2: World, root: Ref, child: Ref,
                      changed: seq<(Key, Ref)>, adopted: seq<Ref>)
    requires Chosen(w0, wb, w1, 0, [root], {root, child}) && Loaded(w1, w, 0) && |w0.sessions| == 2
    requires Committed(w, w2, 0, {root, child}, changed, adopted) && Held(w2, {}) && CanAllocate(w2, 0)
    requires root != child && HasNew(w0, child, NIL, NIL) && HasNew(w0, root, child, NIL)
    ensures Chained(w2, root, child, NIL)
  {
    hide Held, Contents, Committed, Loaded, CounterLost, Chosen, IsStored, StoredPair;
    MarkedIs(w0, wb, w1, 0, [root], {root, child});
    LoadedIs(w1, w, 0);
    MineIsKept(w, w2, 0, {root, child}, changed, adopted, root);
    MineIsKept(w, w2, 0, {root, child}, changed, adopted, child);
    assert Dirty(w.sessions[0])[UNASSIGNED] == root;
    assert InSet(Dirty(w.sessions[0]), root);
    InSetIsStored(w, w2, 0, {root, child}, changed, adopted, root);
    assert IsMine(w, 0, root) && IsMine(w, 0, child);
    ReferredIsAdopted(w, w2, 0, {root, child}, changed, adopted, root, child);
    AdoptedIsStored(w, w2, 0, {root, child}, changed, adopted, child);
    PairIsStored(w2, 0, root, child, NIL);
    PairIsStored(w2, 0, child, NIL, NIL);
  }

  /** Session 0 creates two pairs, the first referring to the second, and persists them. What session 1 has is as it
      was when the commit began. */
  method StoreChain(e: ObjectBase)
    returns (root: Ref, child: Ref, ghost begun: World, changed: seq<(Key, Ref)>, adopted: seq<Ref>)
    requires e.Valid() && |e.sessions| == 2 && e.sessions[0] == Session(Leaf, None)
    requires e.db.nextPhysical + 2 * COST <= e.db.content.Length && e.db.nextLogical + 2 <= ADDRESS_LIMIT
    modifies e, e.db, e.db.content
    ensures e.Valid() && Chained(e.Now(), root, child, NIL) && adopted != [] && Held(begun, {}) && |e.sessions| == 2
    ensures Committed(begun, e.Now(), 0, {root, child}, changed, adopted)
    ensures |begun.sessions| == 2 && begun.sessions[1] == old(e.sessions)[1] && begun.corrected == e.corrected
    ensures forall x | x in old(e.memory) :: x in begun.memory && begun.memory[x] == old(e.memory)[x]
    ensures CalmTo(begun.(sorts := e.sorts), e.Now(), 0, ChangedKeys(changed, adopted), |e.sessions|)
    ensures e.db.nextLogical <= old(e.db.nextLogical) + 2 && e.db.nextPhysical <= old(e.db.nextPhysical) + 2 * COST
  {
    hide *;
    NilIsThere(e);
    child := CreatePair(e, NIL, NIL);
    root := CreatePair(e, child, NIL);
    ghost var w0 := e.Now();
    NowIs(e);
    ValidParts(e);
    e.ReadyParts({});
    TwoAreNew(w0, root, child);
    ChainIsReady(w0, root, child);
    TwoInFringe(root, child);
    ghost var wb, w1;
    ghost var notices;
    changed, adopted, wb, w1, begun, notices := PersistRoots(e, 0, [root], {root, child});
    ValidParts(e);
    e.ReadyParts({});
    ChainBegun(w0, wb, w1, begun, root, child);
    ChainIsStored(w0, wb, w1, begun, e.Now(), root, child, changed, adopted);
    NowIs(e);
    ChainSize(e.Now(), root, child);
  }

  lemma ChainSize(w: World, root: Ref, child: Ref)
    requires Chained(w, root, child, NIL)
    ensures |w.sessions| == 2
  {
  }

  lemma TwoAreNew(w: World, root: Ref, child: Ref)
    requires child in w.memory && child in w.kinds && w.memory[child] == NewPair(NIL, NIL) && w.kinds[child] == PAIR_SORT
    requires root in w.memory && root in w.kinds && w.memory[root] == NewPair(child, NIL) && w.kinds[root] == PAIR_SORT
    ensures HasNew(w, child, NIL, NIL) && HasNew(w, root, child, NIL)
  {
  }

  lemma TwoInFringe(x: Ref, y: Ref)
    requires x != y
    ensures |{x, y}| == 2 && |{x, y}| * COST == 2 * COST
  {
    assert {x, y} - {x} == {y};
  }

  lemma ChainBegun(w0: World, wb: World, w1: World, w: World, root: Ref, child: Ref)
    requires Chosen(w0, wb, w1, 0, [root], {root, child}) && Loaded(w1, w, 0) && |w0.sessions| == 2
    requires HasNew(w0, root, child, NIL)
    ensures |w.sessions| == 2 && w.sessions[1] == w0.sessions[1] && w.corrected == w0.corrected && Held(w, {})
    ensures forall x | x in w0.memory && x != root :: x in w.memory && w.memory[x] == w0.memory[x]
  {
    hide Held, Contents, Current, NewAreRead, Chosen;
    MarkedIs(w0, wb, w1, 0, [root], {root, child});
    OthersUnmarked(w0, wb, w1, 0, [root], {root, child});
  }

  // ----- Storing an object in a stored pair

  /** The pair's slot may take the object, which has an address or is a new pair, and the change may be committed. */
  ghost predicate PutOk(w: World, r: Ref, p: Ref, q: Ref, value: Ref, fringe: set<Ref>) {
    && |w.sessions| == 2 && w.sessions[0].writeSet == None && CanAllocate(w, 0)
    && StoredPair(w, 0, r, p, q) && !Unaddressed(w, p) && !Unaddressed(w, q) && value != r
    && value in w.memory && value in w.kinds && w.kinds[value].rank <= PAIR_SORT.rank
    && if fringe == {} then !Unaddressed(w, value)
       else fringe == {value} && IsNew(w, {}, value) && w.memory[value].session == None
  }

  /** The world with the object in the slot. */
  ghost predicate AfterPair(w: World, w1: World, r: Ref, p: Ref, q: Ref, value: Ref) {
    && Held(w1, {}) && r in w.memory && r in w1.memory && |w1.sessions| == |w.sessions| == 2
    && w1.memory == w.memory[r := w1.memory[r]] && w1.memory[r] == w.memory[r].(storage := SlottedStorage([p, q]))
    && w1.kinds == w.kinds && w1.layout == w.layout && w1.sorts == w.sorts && w1.corrected == w.corrected
    && w1.sessions[0].writeSet.Some? && Dirty(w1.sessions[0]) == map[w.memory[r].logical := r]
    && Cache(w1.sessions[0]) == Cache(w.sessions[0]) && w1.sessions[1] == w.sessions[1]
  }

  function Slots(p: Ref, q: Ref, index: nat, value: Ref): (slots: (Ref, Ref))
    ensures (slots.0 == p || slots.0 == value) && (slots.1 == q || slots.1 == value)
  {
    if index == 0 then (value, q) else (p, value)
  }

  lemma PutIsReady(w: World, r: Ref, p: Ref, q: Ref, index: nat, value: Ref, fringe: set<Ref>)
    requires Held(w, {}) && PutOk(w, r, p, q, value, fringe) && index < 2
    ensures MayPut(w, r, value) && HasSlot(w, r, index) && CommitsAtOnce(w, r) && w.memory[r].session == Some(0)
    ensures AfterPair(w, AfterPut(w, r, index, value), r, Slots(p, q, index, value).0, Slots(p, q, index, value).1, value)
  {
    hide Held, Contents, Insert, Current, CounterLost;
    EntryHeld(w, {}, 0, w.memory[r].logical);
    PutHolds(w, {}, r, index, value);
    PutIsIsolated(w, r, index, value);
    PutFrame(w, r, index, value);
    var slots := Slots(p, q, index, value);
    assert [p, q][index := value] == [slots.0, slots.1];
  }

  lemma PutFrame(w: World, r: Ref, index: nat, value: Ref)
    requires HasSlot(w, r, index) && w.memory[r].session == Some(0) && |w.sessions| == 2
    ensures var w1 := AfterPut(w, r, index, value);
      && w1 == w.(memory := w1.memory, sessions := w1.sessions) && |w1.sessions| == 2 && w1.sessions[0].writeSet.Some?
      && w1.memory == w.memory[r := w1.memory[r]]
  {
  }

  lemma PairCanCommit(w: World, w1: World, r: Ref, p: Ref, q: Ref, p': Ref, q': Ref, value: Ref, fringe: set<Ref>,
                      nextLogical: nat, nextPhysical: nat, words: nat)
    requires PutOk(w, r, p, q, value, fringe) && AfterPair(w, w1, r, p', q', value)
    requires (p' == p || p' == value) && (q' == q || q' == value)
    requires nextPhysical + |fringe| * COST <= words && nextLogical + |fringe| <= ADDRESS_LIMIT
    ensures CanCommit(w1, 0, fringe, COST, nextLogical, nextPhysical, words) && Remaining(w1, fringe) == fringe
    ensures CanAllocate(w1, 0)
  {
    hide Held, Contents, Current, CanAllocate, HoldsAt, InPairs, Fringe, WithinChildren;
    NewStays(w, w1, r, p, q, p', q', value, fringe);
    PairsFringe(w1, fringe);
    PairChildren(w1, fringe, r);
    PairCanAllocate(w, w1, r, p, q, p', q', value, fringe);
  }

  lemma PairCanAllocate(w: World, w1: World, r: Ref, p: Ref, q: Ref, p': Ref, q': Ref, value: Ref, fringe: set<Ref>)
    requires PutOk(w, r, p, q, value, fringe) && AfterPair(w, w1, r, p', q', value)
    ensures CanAllocate(w1, 0)
  {
    hide Held, Contents, Current, CounterLost, HoldsAt, IsNew, InPairs;
    forall k | Store.IsCounter(k) ensures !CounterLost(w1, 0, k) {
      PairLosesNothing(w, w1, r, k);
    }
  }

  lemma NewStays(w: World, w1: World, r: Ref, p: Ref, q: Ref, p': Ref, q': Ref, value: Ref, fringe: set<Ref>)
    requires PutOk(w, r, p, q, value, fringe) && AfterPair(w, w1, r, p', q', value)
    requires (p' == p || p' == value) && (q' == q || q' == value)
    ensures (forall x | x in fringe :: IsNew(w1, fringe, x) && !Claimed(w1, x)) && InPairs(w1, fringe, r)
  {
    hide Held, Contents, Current, CounterLost, HoldsAt;
  }

  lemma PairLosesNothing(w: World, w1: World, r: Ref, k: Key)
    requires !CounterLost(w, 0, k) && |w.sessions| == |w1.sessions| == 2 && r in w.memory && r in w1.memory
    requires Cache(w1.sessions[0]) == Cache(w.sessions[0]) && w1.memory == w.memory[r := w1.memory[r]]
    requires w1.memory[r].storage.SlottedStorage? && w.memory[r].storage.SlottedStorage?
    requires w.memory[r].logical > Store.NEXT_LOGICAL_ADDR && Held(w1, {}) && w1.memory[r].logical == w.memory[r].logical
    ensures !CounterLost(w1, 0, k)
  {
    if Store.ALLOCATOR_ADDR in Cache(w1.sessions[0]) {
      EntryHeld(w1, {}, 0, Store.ALLOCATOR_ADDR);
    }
  }

  /** Stores an object in a slot of a stored pair; the change is committed at once. */
  method PutInPair(e: ObjectBase, r: Ref, index: Word, value: Ref, ghost p: Ref, ghost q: Ref, ghost fringe: set<Ref>)
    returns (changed: seq<(Key, Ref)>, adopted: seq<Ref>, ghost w1: World, ghost begun: World)
    requires e.Valid() && PutOk(e.Now(), r, p, q, value, fringe) && index < 2
    requires e.db.nextPhysical + |fringe| * COST <= e.db.content.Length && e.db.nextLogical + |fringe| <= ADDRESS_LIMIT
    modifies e, e.db, e.db.content
    ensures e.Valid()
    ensures AfterPair(old(e.Now()), w1, r, Slots(p, q, index, value).0, Slots(p, q, index, value).1, value)
    ensures Loaded(w1, begun, 0) && Committed(begun, e.Now(), 0, fringe, changed, adopted) && CanAllocate(e.Now(), 0)
    ensures CalmTo(begun.(sorts := e.sorts), e.Now(), 0, ChangedKeys(changed, adopted), |e.sessions|)
    ensures Consistent(e.Now()) && (adopted == [] ==> begun == w1) && (fringe == {} ==> adopted == [])
    ensures e.db.nextLogical <= old(e.db.nextLogical) + |fringe|
  {
    hide *;
    ghost var w := e.Now();
    NowIs(e);
    ValidParts(e);
    e.ReadyParts({});
    PutIsReady(w, r, p, q, index, value, fringe);
    w1 := AfterPut(w, r, index, value);
    PairCanCommit(w, w1, r, p, q, Slots(p, q, index, value).0, Slots(p, q, index, value).1, value, fringe,
                  e.db.nextLogical, e.db.nextPhysical, e.db.content.Length);
    var ok;
    ghost var notices;
    ok, changed, adopted, begun, notices := SlottedAtPut(e, r, index, value, fringe, COST);
    ValidParts(e);
    e.ReadyParts({});
    ConsistentIs(e.Now());
    NoneAdopted(begun, e.Now(), 0, fringe, changed, adopted);
  }

  lemma ConsistentIs(w: World)
    requires Held(w, {}) && AllStored(w) && RootsWait(w)
    ensures Consistent(w)
  {
  }

  lemma NoneAdopted(w1: World, w2: World, s: nat, fringe: set<Ref>, changed: seq<(Key, Ref)>, adopted: seq<Ref>)
    requires Committed(w1, w2, s, fringe, changed, adopted)
    ensures fringe == {} ==> adopted == []
  {
    if adopted != [] {
      assert adopted[0] in adopted;
    }
  }

  /** The pair has the new slots, a new pair that it took is stored, and what else was stored is. */
  lemma PairIsChanged(w: World, w1: World, begun: World, w2: World, r: Ref, p: Ref, q: Ref, value: Ref,
                      fringe: set<Ref>, changed: seq<(Key, Ref)>, adopted: seq<Ref>)
    requires AfterPair(w, w1, r, p, q, value) && Loaded(w1, begun, 0) && Held(w2, {}) && Consistent(w2)
    requires Committed(begun, w2, 0, fringe, changed, adopted)
    requires r in w.kinds && w.kinds[r] == PAIR_SORT && w.memory[r].shape == ALLOCATOR_SHAPE
    requires w.memory[r].session == Some(0) && w.memory[r].logical > Store.NEXT_LOGICAL_ADDR
    ensures StoredPair(w2, 0, r, p, q) && w2.memory[r].logical == w.memory[r].logical
    ensures w2.memory[r].logical in ChangedKeys(changed, adopted)
  {
    hide Held, Contents, Committed, Loaded, IsStored, StoredPair, Consistent;
    LoadedIs(w1, begun, 0);
    assert Dirty(begun.sessions[0])[w.memory[r].logical] == r;
    assert InSet(Dirty(begun.sessions[0]), r) && IsMine(begun, 0, r);
    MineIsKept(begun, w2, 0, fringe, changed, adopted, r);
    InSetIsStored(begun, w2, 0, fringe, changed, adopted, r);
    PairIsStored(w2, 0, r, p, q);
  }

  /** Another stored pair stays as it is. */
  lemma PairStays(w: World, w1: World, begun: World, w2: World, r: Ref, p: Ref, q: Ref, value: Ref,
                  fringe: set<Ref>, changed: seq<(Key, Ref)>, adopted: seq<Ref>, x: Ref, p': Ref, q': Ref)
    requires AfterPair(w, w1, r, p, q, value) && Loaded(w1, begun, 0) && Consistent(w2)
    requires Committed(begun, w2, 0, fringe, changed, adopted) && x != r && StoredPair(w, 0, x, p', q')
    ensures StoredPair(w2, 0, x, p', q') && w2.memory[x] == w.memory[x]
  {
    hide Held, Contents, Current, CacheGrown, NotifiedOf, NewAreRead;
    StillStored(begun, w2, 0, fringe, changed, adopted, x);
    PairIsStored(w2, 0, x, p', q');
  }

  /** A new pair is stored with the pair that took it. */
  lemma TakenIsStored(w: World, w1: World, begun: World, w2: World, r: Ref, p: Ref, q: Ref, value: Ref,
                      changed: seq<(Key, Ref)>, adopted: seq<Ref>)
    requires AfterPair(w, w1, r, p, q, value) && Loaded(w1, begun, 0) && Held(w2, {}) && StoredPair(w2, 0, r, p, q)
    requires Committed(begun, w2, 0, {value}, changed, adopted) && HasNew(w, value, NIL, NIL) && value != r
    requires value == p || value == q
    ensures StoredPair(w2, 0, value, NIL, NIL)
  {
    hide Held, Contents, Committed, Loaded, HoldsAt, Current;
    LoadedIs(w1, begun, 0);
    assert IsMine(begun, 0, value);
    MineIsKept(begun, w2, 0, {value}, changed, adopted, value);
    assert value in w2.memory[r].storage.Links();
    ReferredIsAdopted(begun, w2, 0, {value}, changed, adopted, r, value);
    AdoptedIsStored(begun, w2, 0, {value}, changed, adopted, value);
    PairIsStored(w2, 0, value, NIL, NIL);
  }
}

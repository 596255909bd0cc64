/** Runs of the calls from an empty file: how first objects come to be stored and shared between sessions, and the
    inputs on which the code does not do what it is for. */
module Runs {
  import opened Words
  import opened AddressMap
  import opened RedBlack
  import opened RedBlackInsert
  import opened Objects
  import opened World
  import opened Allocation
  import opened Changes
  import opened Closure
  import opened Committing
  import opened Freeing
  import opened Notice
  import opened ObjectBase
  import opened Renewal
  import opened Transactions
  import opened WalkOrder
  import opened Programs
  import opened Roots
  import opened Steps
  import Store
  import StoreRuns

  // ----- A root shared between two sessions

  /** What is stored stays so when memory grows and the session is not concerned. */
  lemma ChainGrows(w: World, w': World, root: Ref, child: Ref, p: Ref)
    requires Held(w, {}) && Chained(w, root, child, p) && Grows(w, w') && w'.sorts == w.sorts
    requires w'.sessions[0] == w.sessions[0]
    ensures Chained(w', root, child, p)
  {
    hide Contents, RedBlack.Valid, Reserved, Typed, AllPlaced, AllFormed, ConstantsReady;
    CurrentGrows(w, w', root);
    CurrentGrows(w, w', child);
    forall k | Store.IsCounter(k) ensures !CounterLost(w', 0, k) {
      StillNotLost(w, w', 0, k);
    }
  }

  lemma StillNotLost(w: World, w': World, s: nat, k: Key)
    requires Held(w, {}) && !CounterLost(w, s, k) && s < |w.sessions| && s < |w'.sessions|
    requires w'.sessions[s] == w.sessions[s] && forall x | x in w.memory :: x in w'.memory && w'.memory[x] == w.memory[x]
    ensures !CounterLost(w', s, k)
  {
    hide Contents, RedBlack.Valid, Reserved, Typed, AllPlaced, AllFormed, ConstantsReady;
    SetsHeld(w, {}, s);
    var c := Cache(w.sessions[s]);
    forall a | a in c ensures c[a] in w.memory {
      assert IsEntry(w, s, a, c[a]);
    }
    if Store.ALLOCATOR_ADDR in c {
      var r := c[Store.ALLOCATOR_ADDR];
      assert LinksIn(w.memory, w.memory[r]);
      if w.memory[r].storage.SlottedStorage? && SlotOf(k) < |w.memory[r].storage.slots| {
        assert w.memory[r].storage.slots[SlotOf(k)] in w.memory[r].storage.Links();
      }
    }
  }

  /** What another session reads at the address is as the file has it, and what is stored stays so. */
  lemma CopyIsRead(w: World, w': World, root: Ref, child: Ref, p: Ref, depth: int, copy: Ref)
    requires Held(w, {}) && Held(w', {}) && Chained(w, root, child, p) && depth > 0
    requires Faulted(w, w', 1, w.memory[root].logical, depth, copy) && Cache(w.sessions[1]) == map[]
    ensures Chained(w', root, child, p) && HoldsAt(w', 1, w.memory[root].logical, copy) && Current(w', copy)
    ensures w'.memory[copy].session == Some(1) && w'.memory[copy].logical == w.memory[root].logical
    ensures copy !in w.memory
    ensures forall x | x in w.memory :: x in w'.memory && w'.memory[x] == w.memory[x]
    ensures forall x | x in w.kinds :: x in w'.kinds && w'.kinds[x] == w.kinds[x]
  {
    ChainGrows(w, w', root, child, p);
    CurrentEntry(w', 1, w.memory[root].logical);
  }

  lemma CurrentEntry(w: World, s: nat, k: Key)
    requires Held(w, {}) && s < |w.sessions| && k in Cache(w.sessions[s]) && Current(w, Cache(w.sessions[s])[k])
    ensures IsIntact(w, Cache(w.sessions[s])[k])
  {
    CurrentIsIntact(w, {}, s, k);
  }

  /** Two objects that are as the file has one address refer to the same addresses. */
  lemma SameSlots(w: World, x: Ref, y: Ref)
    requires Current(w, x) && Current(w, y) && w.memory[x].logical == w.memory[y].logical
    requires w.memory[x].storage.SlottedStorage?
    ensures w.memory[y].storage.SlottedStorage?
    ensures Addresses(w.memory, w.memory[y].storage.slots) == Addresses(w.memory, w.memory[x].storage.slots)
  {
  }

  lemma AddressedPairs(w: World, root: Ref, child: Ref, p: Ref)
    requires Held(w, {}) && Chained(w, root, child, p)
    ensures !Unaddressed(w, root) && !Unaddressed(w, child) && !Unaddressed(w, NIL) && NIL in w.memory
    ensures root in w.memory && child in w.memory && root in w.kinds && child in w.kinds && |w.sessions| == 2
    ensures w.memory[root].logical in w.sorts && w.memory[root].logical < ADDRESS_LIMIT
    ensures w.kinds[root].rank <= PAIR_SORT.rank && w.kinds[child].rank <= PAIR_SORT.rank
  {
    ConstantHeld(w, {}, NIL_ADDR);
    AddressHeld(w, {}, w.memory[root].logical);
  }

  lemma CopyStays(w: World, w1: World, begun: World, r: Ref, p: Ref, q: Ref, value: Ref, a: Key, copy: Ref)
    requires AfterPair(w, w1, r, p, q, value) && Loaded(w1, begun, 0) && HoldsAt(w, 1, a, copy) && copy != r
    ensures HoldsAt(begun, 1, a, copy) && begun.memory[copy] == w.memory[copy] && |begun.sessions| == 2
  {
  }

  lemma ShareEnds(w: World, w1: World, begun: World, w2: World, root: Ref, child: Ref, two: Ref, copy: Ref,
                  changed: seq<(Key, Ref)>, adopted: seq<Ref>)
    requires Held(w, {}) && Chained(w, root, child, NIL) && HasNew(w, two, NIL, NIL) && two != root
    requires AfterPair(w, w1, root, child, two, two) && Loaded(w1, begun, 0) && Consistent(w2)
    requires Committed(begun, w2, 0, {two}, changed, adopted) && w.memory[root].logical in w.sorts
    requires HoldsAt(w, 1, w.memory[root].logical, copy) && w.memory[copy].session == Some(1)
    requires w.memory[copy].logical == w.memory[root].logical
    ensures StoredPair(w2, 0, root, child, two) && StoredPair(w2, 0, child, NIL, NIL) && StoredPair(w2, 0, two, NIL, NIL)
    ensures HoldsAt(w2, 1, w2.memory[root].logical, copy) && Current(w2, copy) && w2.memory[copy].storage.SlottedStorage?
    ensures Addresses(w2.memory, w2.memory[copy].storage.slots) == [w2.memory[child].logical, w2.memory[two].logical]
  {
    hide Held, Contents, Current, Committed, Loaded, AllStored, RootsWait, HoldsAt;
    PairIsChanged(w, w1, begun, w2, root, child, two, two, {two}, changed, adopted);
    PairStays(w, w1, begun, w2, root, child, two, two, {two}, changed, adopted, child, NIL, NIL);
    TakenIsStored(w, w1, begun, w2, root, child, two, two, changed, adopted);
    CopyStays(w, w1, begun, root, child, two, two, w.memory[root].logical, copy);
    CopyFollows(begun, w2, 0, 1, {two}, changed, adopted, w.memory[root].logical, copy);
    HoldsEntry(w2, 1, w.memory[root].logical, copy);
    EntryHeld(w2, {}, 1, w.memory[root].logical);
    SameSlots(w2, root, copy);
  }

  lemma HoldsEntry(w: World, s: nat, k: Key, r: Ref)
    requires HoldsAt(w, s, k, r)
    ensures s < |w.sessions| && k in Cache(w.sessions[s]) && Cache(w.sessions[s])[k] == r
  {
  }

  lemma Spacious()
    ensures StoreRuns.BOOT_WORDS + 3 * COST <= 4000 && 4 + 3 <= ADDRESS_LIMIT
  {
  }

  lemma EmptyCache(w: World, s: nat)
    requires s < |w.sessions| && w.sessions[s] == Session(Leaf, None)
    ensures Cache(w.sessions[s]) == map[]
  {
  }

  lemma CreatedGrows(w: World, w': World, r: Ref, o: Obj)
    requires w'.memory == w.memory[r := o] && w'.kinds == w.kinds[r := PAIR_SORT] && r !in w.memory && Held(w, {})
    requires w'.layout == w.layout && w'.sessions == w.sessions
    ensures Grows(w, w')
  {
  }

  lemma CreatedIs(w: World, r: Ref, p: Ref, q: Ref)
    requires r in w.memory && r in w.kinds && w.memory[r] == NewPair(p, q) && w.kinds[r] == PAIR_SORT
    ensures HasNew(w, r, p, q)
  {
  }

  lemma StillNew(w: World, w': World, r: Ref, p: Ref, q: Ref)
    requires HasNew(w, r, p, q) && (forall x | x in w.memory :: x in w'.memory && w'.memory[x] == w.memory[x])
    requires forall x | x in w.kinds :: x in w'.kinds && w'.kinds[x] == w.kinds[x]
    ensures HasNew(w', r, p, q)
  {
  }

  lemma SlotsAre(p: Ref, q: Ref, value: Ref)
    ensures Slots(p, q, 0, value) == (value, q) && Slots(p, q, 1, value) == (p, value)
  {
  }

  lemma TwoMayBePut(w: World, root: Ref, child: Ref, two: Ref)
    requires Held(w, {}) && Chained(w, root, child, NIL) && HasNew(w, two, NIL, NIL)
    ensures PutOk(w, root, child, NIL, two, {two}) && two != root && |{two}| * COST == COST
  {
    hide Held, CounterLost;
    ConstantHeld(w, {}, NIL_ADDR);
    EntryHeld(w, {}, 0, w.memory[child].logical);
  }

  /** From an empty file: a root with a child is claimed, marked and committed; another session reads it; then a second
      child is stored in the root without an open transaction. All three are in the file, and the other session's
      copy of the root refers to what the root refers to now. */
  method ShareRoot(file: array<Word>, corrected: bool)
    returns (e: ObjectBase, root: Ref, child: Ref, two: Ref, copy: Ref)
    requires StoreRuns.Bootable(file[..]) && 4000 <= file.Length < 0x8000_0000
    modifies file
    ensures e.Valid() && e.corrected == corrected
    ensures StoredPair(e.Now(), 0, root, child, two) && StoredPair(e.Now(), 0, child, NIL, NIL)
    ensures StoredPair(e.Now(), 0, two, NIL, NIL)
    ensures HoldsAt(e.Now(), 1, e.memory[root].logical, copy) && Current(e.Now(), copy)
    ensures e.memory[copy].storage.SlottedStorage?
    ensures Addresses(e.memory, e.memory[copy].storage.slots) == [e.memory[child].logical, e.memory[two].logical]
  {
    hide *;
    e := OpenFile(file, corrected);
    Spacious();
    var changed, adopted;
    ghost var begun, w1;
    root, child, begun, changed, adopted := StoreChain(e);
    NowIs(e);
    ValidParts(e);
    e.ReadyParts({});
    EmptyCache(begun, 1);
    NothingRead(begun, e.Now(), 0, 1, ChangedKeys(changed, adopted));
    ghost var w := e.Now();
    NilIsThere(e);
    two := CreatePair(e, NIL, NIL);
    NowIs(e);
    ValidParts(e);
    e.ReadyParts({});
    CreatedGrows(w, e.Now(), two, NewPair(NIL, NIL));
    CreatedIs(e.Now(), two, NIL, NIL);
    ChainGrows(w, e.Now(), root, child, NIL);
    AddressedPairs(e.Now(), root, child, NIL);
    w := e.Now();
    copy := ObjectAt(e, 1, e.memory[root].logical);
    NowIs(e);
    ValidParts(e);
    e.ReadyParts({});
    CopyIsRead(w, e.Now(), root, child, NIL, e.stubDepth, copy);
    StillNew(w, e.Now(), two, NIL, NIL);
    w := e.Now();
    TwoMayBePut(w, root, child, two);
    SlotsAre(child, NIL, two);
    changed, adopted, w1, begun := PutInPair(e, root, 1, two, child, NIL, {two});
    ShareEnds(w, w1, begun, e.Now(), root, child, two, copy, changed, adopted);
    NowIs(e);
  }

  // ----- A stub at an address that another session changes

  /** Reading the first pair one reference deep leaves a stub for the second. */
  lemma StubIsLeft(w: World, w': World, root: Ref, child: Ref, copy: Ref)
    requires Held(w, {}) && Held(w', {}) && Chained(w, root, child, NIL) && Cache(w.sessions[1]) == map[]
    requires Faulted(w, w', 1, w.memory[root].logical, 1, copy)
    ensures Chained(w', root, child, NIL) && child in w.memory && w.memory[child].logical in Cache(w'.sessions[1])
    ensures w'.memory[child].logical == w.memory[child].logical
    ensures var stub := Cache(w'.sessions[1])[w.memory[child].logical];
      IsStub(w', stub) && w'.memory[stub].session == Some(1) && w'.memory[stub].logical == w.memory[child].logical
  {
    hide Held, Contents;
    CopyIsRead(w, w', root, child, NIL, 1, copy);
    CopyHasEntry(w', root, child, copy);
    EntryHeld(w', {}, 1, w.memory[child].logical);
  }

  lemma CopyHasEntry(w: World, root: Ref, child: Ref, copy: Ref)
    requires Held(w, {}) && Chained(w, root, child, NIL) && Current(w, copy)
    requires w.memory[copy].logical == w.memory[root].logical
    ensures IsFixedAddr(LogicalOf(w.memory, w.memory[copy].shape))
    ensures LinksEntered(w, 1, w.memory[copy]) ==> HasEntry(w, 1, w.memory[child].logical)
  {
    hide Held, HasEntry, CounterLost;
    ConstantHeld(w, {}, ALLOCATOR_SHAPE_ADDR);
    SameSlots(w, root, copy);
    var slots := w.memory[copy].storage.slots;
    assert Addresses(w.memory, [child, NIL])[0] == w.memory[child].logical;
    assert |slots| == 2 && LogicalOf(w.memory, slots[0]) == w.memory[child].logical;
    assert slots[0] in w.memory[copy].storage.Links();
  }

  lemma RootMayBePut(w: World, root: Ref, child: Ref)
    requires Held(w, {}) && Chained(w, root, child, NIL)
    ensures PutOk(w, child, NIL, NIL, root, {}) && forall none: set<Ref> | none == {} :: |none| * COST == 0
  {
    hide Held, CounterLost;
    AddressedPairs(w, root, child, NIL);
  }

  /** The second pair alone has changed. */
  lemma OnlyChild(w: World, w1: World, w2: World, child: Ref, p: Ref, q: Ref, value: Ref, changed: seq<(Key, Ref)>)
    requires AfterPair(w, w1, child, p, q, value) && Committed(w1, w2, 0, {}, changed, [])
    requires child in w2.memory && w2.memory[child].logical in ChangedKeys(changed, [])
    ensures ChangedKeys(changed, []) == {w.memory[child].logical}
  {
    hide Held, Contents, NotifiedOf, Kept, CacheGrown, OwnKept, CommittedIn;
    forall k | k in ChangedKeys(changed, []) ensures k == w.memory[child].logical {
      var j :| 0 <= j < |changed| && changed[j].0 == k;
      assert changed[j] in changed;
    }
  }

  /** A stub that is refreshed as the code is written, and stays what the session has, is misread. */
  lemma RefreshedStubIsMisread(w1: World, w2: World, s: nat, z: nat, fringe: set<Ref>, changed: seq<(Key, Ref)>,
                               adopted: seq<Ref>, k: Key, stub: Ref)
    requires Committed(w1, w2, s, fringe, changed, adopted) && Held(w2, {}) && !w2.corrected && z != s
    requires z < |w1.sessions| && z < |w2.sessions| && k in ChangedKeys(changed, adopted)
    requires k in Cache(w1.sessions[z]) && Cache(w1.sessions[z])[k] == stub && IsStub(w1, stub)
    requires k in Cache(w2.sessions[z]) && Cache(w2.sessions[z])[k] == stub && w1.memory[stub].session == Some(z)
    ensures IsMisread(w2, stub) && !Current(w2, stub)
  {
    hide Held, Contents, Current, CommittedIn, OwnKept, CacheGrown, ChangedKeys;
    assert !IsMine(w1, s, stub) && SameObject(w1, w2, stub) && StubGone(w1, w2, z, k);
    EntryHeld(w2, {}, z, k);
    MisreadIsNotCurrent(w2, {}, stub);
  }

  /** Refreshed from the header a stub of a high rank stays what the session has. */
  lemma StubIsUntouched(w1: World, w2: World, z: nat, k: Key, sorts: Sorts)
    requires z < |w1.sessions| && z < |w2.sessions| && k in Cache(w1.sessions[z]) && !IsIntact(w1, Cache(w1.sessions[z])[k])
    requires Calm(w1.(sorts := sorts), w2, z, {k}) && RankAt(sorts, k) > 2 && Store.FIRST_PAGE !in sorts
    ensures k in Cache(w2.sessions[z]) && Cache(w2.sessions[z])[k] == Cache(w1.sessions[z])[k]
  {
    hide Contents;
    assert Quiet(w1.(sorts := sorts), z, {k}, 2);
    assert Untouched(w1.(sorts := sorts), w2, z, 2);
  }

  lemma MisreadEnds(w: World, w1: World, w2: World, root: Ref, child: Ref, stub: Ref, changed: seq<(Key, Ref)>)
    requires Held(w, {}) && Chained(w, root, child, NIL) && AfterPair(w, w1, child, root, NIL, root) && Consistent(w2)
    requires Loaded(w1, w1, 0) && Committed(w1, w2, 0, {}, changed, []) && !w2.corrected && Store.FIRST_PAGE !in w2.sorts
    requires CalmTo(w1.(sorts := w2.sorts), w2, 0, ChangedKeys(changed, []), |w2.sessions|) && |w2.sessions| == 2
    requires w.memory[child].logical in Cache(w.sessions[1]) && Cache(w.sessions[1])[w.memory[child].logical] == stub
    requires IsStub(w, stub) && w.memory[stub].session == Some(1)
    ensures StoredPair(w2, 0, child, root, NIL) && w2.memory[child].logical == w.memory[child].logical
    ensures w.memory[child].logical in Cache(w2.sessions[1])
    ensures Cache(w2.sessions[1])[w.memory[child].logical] == stub && IsMisread(w2, stub) && !Current(w2, stub)
  {
    hide Held, Contents, Current, Committed, AllStored, RootsWait, Quiet, Untouched, HoldsAt, Calm;
    var b := w.memory[child].logical;
    PairIsChanged(w, w1, w1, w2, child, root, NIL, root, {}, changed, []);
    OnlyChild(w, w1, w2, child, root, NIL, root, changed);
    assert Calm(w1.(sorts := w2.sorts), w2, 1, {b});
    ConstantsAreOutside(w2, {}, b);
    StubIsUntouched(w1, w2, 1, b, w2.sorts);
    RefreshedStubIsMisread(w1, w2, 0, 1, {}, changed, [], b, stub);
  }

  /** Session 0 stores the first pair in the second, which closes a cycle. */
  method CloseCycle(e: ObjectBase, root: Ref, child: Ref)
    returns (changed: seq<(Key, Ref)>, ghost w1: World)
    requires e.Valid() && Chained(e.Now(), root, child, NIL)
    modifies e, e.db, e.db.content
    ensures e.Valid() && AfterPair(old(e.Now()), w1, child, root, NIL, root) && Loaded(w1, w1, 0)
    ensures Committed(w1, e.Now(), 0, {}, changed, []) && Consistent(e.Now())
    ensures CalmTo(w1.(sorts := e.sorts), e.Now(), 0, ChangedKeys(changed, []), |e.sessions|)
    ensures e.db.nextLogical <= old(e.db.nextLogical) && CanAllocate(e.Now(), 0) && |e.sessions| == 2
  {
    hide *;
    ghost var w := e.Now();
    ValidParts(e);
    e.ReadyParts({});
    RootMayBePut(w, root, child);
    SlotsAre(NIL, NIL, root);
    RoomLeft(e);
    var adopted;
    ghost var begun;
    changed, adopted, w1, begun := PutInPair(e, child, 0, root, NIL, NIL, {});
    NowIs(e);
    CommittedSize(w, w1, e.Now(), child, root, changed);
  }

  lemma RoomLeft(e: ObjectBase)
    requires e.Valid()
    ensures e.db.nextPhysical <= e.db.content.Length && e.db.nextLogical <= ADDRESS_LIMIT
  {
  }

  lemma CommittedSize(w: World, w1: World, w2: World, r: Ref, p: Ref, changed: seq<(Key, Ref)>)
    requires AfterPair(w, w1, r, p, NIL, p) && Committed(w1, w2, 0, {}, changed, [])
    ensures |w2.sessions| == 2
  {
  }

  /** From an empty file, with the code as written: one session stores two pairs, the first referring to the second;
      the other reads the first one reference deep, which leaves a stub for the second; then the first session
      changes the second. The other session is left with a shape at its address. */
  method MisreadStub(file: array<Word>)
    returns (e: ObjectBase, root: Ref, child: Ref, ghost before: World, ghost stub: Ref)
    requires StoreRuns.Bootable(file[..]) && 4000 <= file.Length < 0x8000_0000
    modifies file
    ensures e.Valid() && |e.sessions| == 2 == |before.sessions| && !e.corrected
    ensures StoredPair(e.Now(), 0, child, root, NIL)
    ensures var b := e.memory[child].logical;
      && b in Cache(before.sessions[1]) && Cache(before.sessions[1])[b] == stub && IsStub(before, stub)
      && b in Cache(e.sessions[1]) && Cache(e.sessions[1])[b] == stub && IsMisread(e.Now(), stub) && !Current(e.Now(), stub)
  {
    hide *;
    e := OpenFile(file, false);
    Spacious();
    var changed, adopted;
    ghost var begun, w1;
    root, child, begun, changed, adopted := StoreChain(e);
    NowIs(e);
    ValidParts(e);
    e.ReadyParts({});
    EmptyCache(begun, 1);
    NothingRead(begun, e.Now(), 0, 1, ChangedKeys(changed, adopted));
    AddressedPairs(e.Now(), root, child, NIL);
    ghost var w := e.Now();
    var copy := ObjectAtDepth(e, 1, e.memory[root].logical, 1);
    NowIs(e);
    ValidParts(e);
    e.ReadyParts({});
    before := e.Now();
    StubIsLeft(w, before, root, child, copy);
    AddressedPairs(before, root, child, NIL);
    stub := Cache(before.sessions[1])[w.memory[child].logical];
    changed, w1 := CloseCycle(e, root, child);
    NowIs(e);
    ConsistentParts(e.Now());
    FewAddresses(e);
    MisreadEnds(before, w1, e.Now(), root, child, stub, changed);
  }

  lemma ConsistentParts(w: World)
    requires Consistent(w)
    ensures Held(w, {}) && AllStored(w) && RootsWait(w)
  {
  }

  lemma FewAddresses(e: ObjectBase)
    requires e.Valid() && e.db.nextLogical <= 7
    ensures Store.FIRST_PAGE !in e.sorts
  {
  }

  // ----- A reference at a freed copy

  /** From an empty file: two pairs are stored, the second is made to refer to the first, and the other session reads
      the first. The second pair, as that session has it, refers to a freed copy of the first. */
  method ReadCycle(file: array<Word>, corrected: bool) returns (e: ObjectBase, root: Ref, ghost second: Ref, ghost freed: Ref)
    requires StoreRuns.Bootable(file[..]) && 4000 <= file.Length < 0x8000_0000
    modifies file
    ensures e.Valid() && HoldsAt(e.Now(), 1, LogicalOf(e.memory, root), root)
    ensures Refers(e.Now(), root, second) && Refers(e.Now(), second, freed)
    ensures freed != root && LogicalOf(e.memory, freed) == LogicalOf(e.memory, root) && Freed(e.Now(), freed)
  {
    hide *;
    e := OpenFile(file, corrected);
    Spacious();
    var child, changed, adopted;
    ghost var begun, w1;
    root, child, begun, changed, adopted := StoreChain(e);
    NowIs(e);
    ValidParts(e);
    e.ReadyParts({});
    EmptyCache(begun, 1);
    NothingRead(begun, e.Now(), 0, 1, ChangedKeys(changed, adopted));
    AddressedPairs(e.Now(), root, child, NIL);
    ghost var w := e.Now();
    changed, w1 := CloseCycle(e, root, child);
    NowIs(e);
    ConsistentParts(e.Now());
    CycleIsStored(w, w1, e.Now(), root, child, changed);
    var a := e.memory[root].logical;
    w := e.Now();
    root := ObjectAt(e, 1, a);
    NowIs(e);
    ValidParts(e);
    e.ReadyParts({});
    second, freed := CycleIsRead(w, e.Now(), a, w.memory[child].logical, e.stubDepth, root);
  }

  lemma CycleIsStored(w: World, w1: World, w2: World, root: Ref, child: Ref, changed: seq<(Key, Ref)>)
    requires Held(w, {}) && Chained(w, root, child, NIL) && AfterPair(w, w1, child, root, NIL, root) && Consistent(w2)
    requires Loaded(w1, w1, 0) && Committed(w1, w2, 0, {}, changed, []) && Cache(w.sessions[1]) == map[]
    requires CalmTo(w1.(sorts := w2.sorts), w2, 0, ChangedKeys(changed, []), |w2.sessions|) && |w2.sessions| == 2
    ensures root in w2.memory && child in w2.memory && Cache(w2.sessions[1]) == map[]
    ensures var a, b := w2.memory[root].logical, w2.memory[child].logical;
      Mutual(w2, a, b)
  {
    hide Held, Contents, Committed, AllStored, RootsWait, HoldsAt, CounterLost;
    PairIsChanged(w, w1, w1, w2, child, root, NIL, root, {}, changed, []);
    PairStays(w, w1, w1, w2, child, root, NIL, root, {}, changed, [], root, child, NIL);
    NothingRead(w1, w2, 0, 1, ChangedKeys(changed, []));
    StoredPoints(w2, root, child, NIL);
    StoredPoints(w2, child, root, NIL);
    if w2.memory[root].logical == w2.memory[child].logical {
      HoldsEntry(w2, 0, w2.memory[root].logical, root);
      HoldsEntry(w2, 0, w2.memory[root].logical, child);
    }
  }

  /** Two stored objects refer to each other. */
  ghost predicate Mutual(w: World, a: Word, b: Word) {
    && a in w.sorts && b in w.sorts && a != b && a in w.layout.disk && b in w.layout.disk
    && |References(w.layout.disk[a])| > 0 && References(w.layout.disk[a])[0] == b
    && |References(w.layout.disk[b])| > 0 && References(w.layout.disk[b])[0] == a
  }

  lemma StoredPoints(w: World, r: Ref, p: Ref, q: Ref)
    requires StoredPair(w, 0, r, p, q)
    ensures w.memory[r].logical in w.layout.disk
    ensures |References(w.layout.disk[w.memory[r].logical])| == 2
    ensures References(w.layout.disk[w.memory[r].logical])[0] == LogicalOf(w.memory, p)
  {
  }

  lemma CycleIsRead(w: World, w': World, a: Word, b: Word, depth: int, r: Ref) returns (y: Ref, z: Ref)
    requires Held(w, {}) && AllStored(w) && RootsWait(w) && Held(w', {}) && Faulted(w, w', 1, a, depth, r) && depth > 1
    requires Mutual(w, a, b) && |w.sessions| == 2 && Cache(w.sessions[1]) == map[]
    ensures HoldsAt(w', 1, a, r) && LogicalOf(w'.memory, r) == a
    ensures Refers(w', r, y) && Refers(w', y, z) && z != r && LogicalOf(w'.memory, z) == a && Freed(w', z)
  {
    hide Held, Contents, AllStored, RootsWait, Freed;
    CycleDangles(w, w', 1, a, b, 0, 0, depth, r);
    y := w'.memory[r].storage.Links()[0];
    z := w'.memory[y].storage.Links()[0];
    CurrentEntry(w', 1, a);
  }

  // ----- Two objects without addresses

  /** From an empty file: two pairs are claimed and marked in one transaction. The commit stores the second alone. */
  method TwoRoots(file: array<Word>, corrected: bool) returns (e: ObjectBase, x: Ref, y: Ref)
    requires StoreRuns.Bootable(file[..]) && 4000 <= file.Length < 0x8000_0000
    modifies file
    ensures e.Valid() && IsStored(e.Now(), 0, y) && !IsStored(e.Now(), 0, x) && LogicalOf(e.memory, x) == UNASSIGNED
  {
    hide *;
    e := OpenFile(file, corrected);
    Spacious();
    x := CreatePair(e, NIL, NIL);
    y := CreatePair(e, NIL, NIL);
    ghost var w0, wb, w1, begun := e.Now(), e.Now(), e.Now(), e.Now();
    NowIs(e);
    ValidParts(e);
    e.ReadyParts({});
    RootsAreReady(w0, x, y);
    var changed, adopted;
    ghost var notices;
    changed, adopted, wb, w1, begun, notices := PersistRoots(e, 0, [x, y], {y});
    ValidParts(e);
    e.ReadyParts({});
    SecondIsStored(w0, wb, w1, begun, e.Now(), x, y, changed, adopted);
    NowIs(e);
  }

  lemma RootsAreReady(w: World, x: Ref, y: Ref)
    requires Held(w, {}) && x != y && |w.sessions| == 2 && w.sessions[0] == Session(Leaf, None)
    requires x in w.memory && x in w.kinds && w.memory[x] == NewPair(NIL, NIL) && w.kinds[x] == PAIR_SORT
    requires y in w.memory && y in w.kinds && w.memory[y] == NewPair(NIL, NIL) && w.kinds[y] == PAIR_SORT
    ensures Persistable(w, 0, [x, y], {y}) && |{y}| * COST == COST
  {
    hide Held, IsNew, NoOwner, CounterLost;
    NewIsNew(w, {y}, x, NIL, NIL);
    NewIsNew(w, {y}, y, NIL, NIL);
    NothingLost(w, 0);
    assert [x, y][0] == x && [x, y][1] == y;
  }

  lemma SecondIsStored(w0: World, wb: World, w1: World, begun: World, w2: World, x: Ref, y: Ref,
                       changed: seq<(Key, Ref)>, adopted: seq<Ref>)
    requires Chosen(w0, wb, w1, 0, [x, y], {y}) && Loaded(w1, begun, 0) && Held(w2, {}) && x != y
    requires Committed(begun, w2, 0, {y}, changed, adopted)
    ensures IsStored(w2, 0, y) && !IsStored(w2, 0, x) && LogicalOf(w2.memory, x) == UNASSIGNED
  {
    hide Held, Contents, Committed, IsStored, MarkedAll, Claimants;
    MarkedIs(w0, wb, w1, 0, [x, y], {y});
    BothUnaddressed(w0, wb, w1, x, y);
    TwoRootsCollide(wb, 0, x, y, begun, w2, {y}, changed, adopted);
  }

  lemma BothUnaddressed(w0: World, wb: World, w1: World, x: Ref, y: Ref)
    requires Chosen(w0, wb, w1, 0, [x, y], {y})
    ensures Unaddressed(wb, x) && Unaddressed(wb, y) && AllMarkable(wb, 0, [x, y]) && Held(wb, {})
    ensures 0 < |wb.sessions| && wb.sessions[0].writeSet.Some? && Dirty(wb.sessions[0]) == map[]
    ensures (forall r | r in [x, y] :: r in wb.memory) && w1 == MarkedAll(wb, [x, y])
  {
    ClaimantsMarkable(w0, wb, 0, [x, y], {y});
    assert [x, y][0] == x && [x, y][1] == y;
    OwnedAt(w0.memory, 0, [x, y], x);
    OwnedAt(w0.memory, 0, [x, y], y);
  }

  // ----- Counters that a session loses

  /** The session has the allocator, and for its counters stubs; it has read nothing else. */
  ghost predicate HasStubs(w: World, s: nat) {
    && s < |w.sessions| && Live(w, s, Store.ALLOCATOR_ADDR)
    && (forall k | k in Cache(w.sessions[s]) :: k <= Store.NEXT_LOGICAL_ADDR)
    && forall k | Store.IsCounter(k) ::
         k in Cache(w.sessions[s]) && IsStub(w, Cache(w.sessions[s])[k]) && w.memory[Cache(w.sessions[s])[k]].session == Some(s)
  }

  /** Reading the allocator one reference deep leaves stubs for its counters. */
  lemma CountersAreStubs(w: World, w': World, r: Ref)
    requires Held(w, {}) && Held(w', {}) && Faulted(w, w', 1, Store.ALLOCATOR_ADDR, 1, r) && |w.sessions| == 2
    requires w.sorts == FIRST_SORTS && Cache(w.sessions[1]) == map[] && Store.ALLOCATOR_ADDR in w.layout.disk
    requires w.layout.disk[Store.ALLOCATOR_ADDR] == StoreRuns.ALLOCATOR_VALUE
    ensures HasStubs(w', 1)
  {
    hide Held, Contents;
    AllocatorFound(w, w', 1, 1, r);
    EntryHeld(w', {}, 1, Store.ALLOCATOR_ADDR);
    ConstantHeld(w', {}, ALLOCATOR_SHAPE_ADDR);
    forall k | k in Cache(w'.sessions[1]) ensures k <= Store.NEXT_LOGICAL_ADDR {
      EntryHeld(w', {}, 1, k);
    }
    forall k | Store.IsCounter(k)
      ensures k in Cache(w'.sessions[1]) && IsStub(w', Cache(w'.sessions[1])[k])
      ensures w'.memory[Cache(w'.sessions[1])[k]].session == Some(1)
    {
      var x := w'.memory[r].storage.slots[SlotOf(k)];
      assert x in w'.memory[r].storage.Links() && HasEntry(w', 1, LogicalOf(w'.memory, x));
      CounterSorts(w', {}, k);
      EntryHeld(w', {}, 1, k);
    }
  }

  /** A commit that gives addresses has the stubs refreshed from the header: the counters are lost. */
  lemma StubsLoseCounters(w1: World, w2: World, fringe: set<Ref>, changed: seq<(Key, Ref)>, adopted: seq<Ref>, k: Key)
    requires HasStubs(w1, 1) && |w1.sessions| == 2 && Held(w2, {}) && Committed(w1, w2, 0, fringe, changed, adopted)
    requires adopted != [] && !w2.corrected && Store.FIRST_PAGE !in w2.sorts && Store.IsCounter(k)
    requires CalmTo(w1.(sorts := w2.sorts), w2, 0, ChangedKeys(changed, adopted), |w2.sessions|) && |w2.sessions| == 2
    ensures HasMisread(w2, 1, k) && CounterLost(w2, 1, k)
  {
    hide Held, Contents, Committed;
    var keys, c := ChangedKeys(changed, adopted), Cache(w1.sessions[1]);
    assert HeaderSettled(w1.(sorts := w2.sorts), 1);
    OnlyCounters(w1, w2, fringe, changed, adopted);
    assert Quiet(w1.(sorts := w2.sorts), 1, keys, 0);
    assert Calm(w1.(sorts := w2.sorts), w2, 1, keys);
    assert Untouched(w1.(sorts := w2.sorts), w2, 1, 0);
    CounterSorts(w2, {}, k);
    AddressHeld(w2, {}, k);
    RefreshedStubIsMisread(w1, w2, 0, 1, fringe, changed, adopted, k, c[k]);
  }

  /** Of what changes the session has only the stubs for the counters. */
  lemma OnlyCounters(w1: World, w2: World, fringe: set<Ref>, changed: seq<(Key, Ref)>, adopted: seq<Ref>)
    requires HasStubs(w1, 1) && Committed(w1, w2, 0, fringe, changed, adopted)
    ensures forall k | k in ChangedKeys(changed, adopted) && k in Cache(w1.sessions[1]) ::
      Store.IsCounter(k) && !IsIntact(w1, Cache(w1.sessions[1])[k])
  {
    hide Contents, OwnKept, CacheGrown, CommittedIn, NotifiedOf, Kept;
    forall k | k in KeysTo(changed, |changed|) ensures k > Store.NEXT_LOGICAL_ADDR {
      var j :| 0 <= j < |changed| && changed[j].0 == k;
      assert changed[j] in changed;
    }
  }

  lemma StubsStill(w: World, w': World, s: nat)
    requires HasStubs(w, s) && |w'.sessions| == |w.sessions| && w'.sessions[s] == w.sessions[s] && Held(w, {})
    requires forall x | x in w.memory :: x in w'.memory && w'.memory[x] == w.memory[x]
    ensures HasStubs(w', s)
  {
    hide Held;
    EntryHeld(w, {}, s, Store.ALLOCATOR_ADDR);
  }

  /** From an empty file, with the code as written: a session reads the allocator one reference deep; another stores
      its first objects. Asked for an address the first session's allocator gives zero: it would write its next new
      object over the header. */
  method MisreadCounters(file: array<Word>) returns (e: ObjectBase, logical: int, physical: int, ghost before: World)
    requires StoreRuns.Bootable(file[..]) && 4000 <= file.Length < 0x8000_0000
    modifies file
    ensures e.Valid() && !e.corrected && CounterLost(before, 1, Store.NEXT_LOGICAL_ADDR)
    ensures Extends(before, e.Now(), 1) && CounterLost(before, 1, Store.NEXT_PHYSICAL_ADDR)
    ensures logical == 0 && physical == 0 && logical != e.db.nextLogical && physical != e.db.nextPhysical
  {
    hide *;
    e := OpenFile(file, false);
    Spacious();
    ghost var w := e.Now();
    NowIs(e);
    ValidParts(e);
    e.ReadyParts({});
    EmptyCache(w, 1);
    AllocatorAtFirst(e);
    var allocator := ObjectAtDepth(e, 1, Store.ALLOCATOR_ADDR, 1);
    ghost var w0 := e.Now();
    NowIs(e);
    ValidParts(e);
    e.ReadyParts({});
    CountersAreStubs(w, w0, allocator);
    FirstIsAsBefore(w, w0, allocator);
    var root, child, changed, adopted;
    ghost var begun;
    root, child, begun, changed, adopted := StoreChain(e);
    before := e.Now();
    NowIs(e);
    ValidParts(e);
    e.ReadyParts({});
    FewAddresses(e);
    StubsStill(w0, begun, 1);
    BothAreCounters();
    StubsLoseCounters(begun, before, {root, child}, changed, adopted, Store.NEXT_LOGICAL_ADDR);
    StubsLoseCounters(begun, before, {root, child}, changed, adopted, Store.NEXT_PHYSICAL_ADDR);
    logical := ReadCounter(e, 1, Store.NEXT_LOGICAL_ADDR);
    ghost var w3 := e.Now();
    CountersAt(e);
    NowIs(e);
    ExtendedSessions(before, w3, 1);
    LostStillThere(e, before);
    physical := ReadCounter(e, 1, Store.NEXT_PHYSICAL_ADDR);
    NowIs(e);
    ValidParts(e);
    e.ReadyParts({});
    ExtendsThen(before, {}, w3, e.Now(), 1);
    CountersAt(e);
  }

  lemma AllocatorAtFirst(e: ObjectBase)
    requires e.Valid() && e.sorts == FIRST_SORTS
    ensures Store.ALLOCATOR_ADDR in e.sorts && Store.ALLOCATOR_ADDR in e.db.layout.disk
    ensures e.db.layout.disk[Store.ALLOCATOR_ADDR] == StoreRuns.ALLOCATOR_VALUE
  {
  }

  lemma FirstIsAsBefore(w: World, w': World, r: Ref)
    requires Faulted(w, w', 1, Store.ALLOCATOR_ADDR, 1, r) && |w.sessions| == 2
    ensures |w'.sessions| == 2 && w'.sessions[0] == w.sessions[0]
  {
  }

  lemma LostStillThere(e: ObjectBase, w: World)
    requires e.Valid() && Held(w, {}) && Extends(w, e.Now(), 1) && CounterLost(w, 1, Store.NEXT_PHYSICAL_ADDR)
    ensures CounterLost(e.Now(), 1, Store.NEXT_PHYSICAL_ADDR) && Store.IsCounter(Store.NEXT_PHYSICAL_ADDR)
    ensures Held(e.Now(), {})
  {
    hide CounterLost;
    LostStays(w, e.Now(), 1, Store.NEXT_PHYSICAL_ADDR);
  }

  // ----- A child that the walk passes by

  /** From an empty file: a pair and the pair it refers to are both claimed, and the first is marked. The walk of the
      commit gives it addresses and passes the second by, so that it would be written with a reference to nothing. */
  method SkippedChild(file: array<Word>, corrected: bool) returns (e: ObjectBase, root: Ref, child: Ref)
    requires StoreRuns.Bootable(file[..]) && 4000 <= file.Length < 0x8000_0000
    modifies file
    ensures Held(e.Now(), {}) && root in e.memory && e.memory[root].logical != UNASSIGNED && Claimed(e.Now(), child)
    ensures e.memory[root].storage == SlottedStorage([child, NIL]) && !IsReadable(e.Now(), root)
    ensures References(ValueOf(e.memory, e.memory[root])) == [UNASSIGNED, NIL_ADDR]
  {
    hide *;
    e := OpenFile(file, corrected);
    Spacious();
    child := CreatePair(e, NIL, NIL);
    root := CreatePair(e, child, NIL);
    ghost var w0 := e.Now();
    NowIs(e);
    ValidParts(e);
    e.ReadyParts({});
    TwoAreNew(w0, root, child);
    BothAreNew(w0, root, child);
    ClaimAll(e, 0, [child, root]);
    ghost var w1 := e.Now();
    NowIs(e);
    ValidParts(e);
    e.ReadyParts({});
    WalkIsReady(e, w0, w1, root, child);
    var adopted;
    ghost var gained;
    adopted, gained := Visit(e, 0, root, [], {root, child}, COST, {});
    WalkableParts(e, {root, child}, COST, {});
    ChildIsSkipped(w0, w1, e.Now(), root, child, gained);
    NowIs(e);
  }

  lemma BothAreNew(w: World, root: Ref, child: Ref)
    requires HasNew(w, child, NIL, NIL) && HasNew(w, root, child, NIL)
    ensures forall i | 0 <= i < |[child, root]| :: NoOwner(w, [child, root][i])
  {
  }

  /** Both pairs claimed, and a transaction open. */
  ghost predicate BothClaimed(w: World, root: Ref, child: Ref) {
    && root in w.memory && child in w.memory && root in w.kinds && child in w.kinds && root != child
    && w.kinds[root] == PAIR_SORT && w.kinds[child] == PAIR_SORT
    && w.memory[root] == NewPair(child, NIL).(session := Some(0))
    && w.memory[child] == NewPair(NIL, NIL).(session := Some(0))
  }

  lemma WalkIsReady(e: ObjectBase, w0: World, w: World, root: Ref, child: Ref)
    requires e.Valid() && e.Now() == w && HasNew(w0, child, NIL, NIL) && HasNew(w0, root, child, NIL)
    requires Claimants(w0, w, 0, [child, root]) && root != child
    requires e.db.nextPhysical + 2 * COST <= e.db.content.Length && e.db.nextLogical + 2 <= ADDRESS_LIMIT
    ensures BothClaimed(w, root, child)
    ensures Walkable(e, {root, child}, COST, {}) && Visitable(w, 0, {root, child}, root) && 0 < |e.sessions|
  {
    hide e.db.Valid, Held, Fringe, Remaining;
    OwnedAt(w0.memory, 0, [child, root], root);
    OwnedAt(w0.memory, 0, [child, root], child);
    ClaimedWalk(w, root, child);
    TwoInFringe(root, child);
    AllocatorReserved(e);
  }

  lemma AllocatorReserved(e: ObjectBase)
    requires e.Valid()
    ensures Store.NEXT_LOGICAL_ADDR in e.db.layout.extents && Held(e.Now(), {}) && e.db.Valid()
  {
    e.ReadyParts({});
    BothAreCounters();
    CounterSorts(e.Now(), {}, Store.NEXT_LOGICAL_ADDR);
    AddressHeld(e.Now(), {}, Store.NEXT_LOGICAL_ADDR);
  }

  lemma ClaimedWalk(w: World, root: Ref, child: Ref)
    requires Held(w, {}) && BothClaimed(w, root, child)
    ensures Fringe(w, {root, child}, COST) && Remaining(w, {root, child}) == {root, child}
    ensures Visitable(w, 0, {root, child}, root)
  {
    hide Held, Fringe;
    ConstantHeld(w, {}, NIL_ADDR);
    PairsFringe(w, {root, child});
    PairChildren(w, {root, child}, root);
  }

  lemma ChildIsSkipped(w0: World, w1: World, w2: World, root: Ref, child: Ref, gained: seq<Ref>)
    requires BothClaimed(w1, root, child) && Held(w1, {}) && Held(w2, {})
    requires Walked(w1, w2, 0, {root, child}, gained) && TakesTransients(w1, root, gained) && !Unaddressed(w2, root)
    ensures root in w2.memory && w2.memory[root].logical != UNASSIGNED && Claimed(w2, child)
    ensures w2.memory[root].storage == SlottedStorage([child, NIL]) && !IsReadable(w2, root)
    ensures References(ValueOf(w2.memory, w2.memory[root])) == [UNASSIGNED, NIL_ADDR]
  {
    hide Held, Walked, TakesTransients, WellTyped;
    ClaimedIsSkipped(w1, w2, 0, {root, child}, root, gained, child);
    RootIsWalked(w1, w2, root, child, gained);
    ConstantHeld(w2, {}, NIL_ADDR);
    assert child in w2.memory[root].storage.Links();
    WrittenTypedIff(w2, {}, root);
    assert References(ValueOf(w2.memory, w2.memory[root])) == Addresses(w2.memory, [child, NIL]);
  }

  lemma RootIsWalked(w1: World, w2: World, root: Ref, child: Ref, gained: seq<Ref>)
    requires BothClaimed(w1, root, child) && Walked(w1, w2, 0, {root, child}, gained) && !Unaddressed(w2, root)
    ensures root in w2.memory && root in w2.kinds && w2.kinds[root] == PAIR_SORT && IsIntact(w2, root)
    ensures w2.memory[root].logical != UNASSIGNED && w2.memory[root].storage == SlottedStorage([child, NIL])
  {
    assert root in gained ==> AdoptedBy(w1, w2, 0, root);
  }

  // ----- Which of several new objects gets which address

  /** From an empty file: a new pair that refers to two new pairs is claimed, marked and committed. It gets the first
      address, the pair in its last slot the next, and that in its first slot the last; so it is stored. */
  method LastSlotFirst(file: array<Word>, corrected: bool) returns (e: ObjectBase, root: Ref, x: Ref, y: Ref)
    requires StoreRuns.Bootable(file[..]) && 4000 <= file.Length < 0x8000_0000
    modifies file
    ensures e.Valid() && StoredPair(e.Now(), 0, root, x, y)
    ensures e.memory[root].logical == 4 && LogicalOf(e.memory, y) == 5 && LogicalOf(e.memory, x) == 6
    ensures References(e.db.layout.disk[4]) == [6, 5]
  {
    hide *;
    e := OpenFile(file, corrected);
    Spacious();
    x := CreatePair(e, NIL, NIL);
    y := CreatePair(e, NIL, NIL);
    root := CreatePair(e, x, y);
    ghost var w0, wb, w1, begun := e.Now(), e.Now(), e.Now(), e.Now();
    NowIs(e);
    ValidParts(e);
    e.ReadyParts({});
    ThreeAreReady(w0, root, x, y);
    var changed, adopted;
    ghost var notices;
    changed, adopted, wb, w1, begun, notices := PersistRoots(e, 0, [root], {root, x, y});
    ValidParts(e);
    e.ReadyParts({});
    ThreeAreAdopted(w0, wb, w1, begun, e.Now(), root, x, y, changed, adopted);
    RootIsScanned(w0, wb, w1, begun, e.Now(), root, x, y, adopted);
    ThreeInOrder(e.memory, adopted, root, x, y);
    ReferencesInOrder(e.Now(), root, x, y);
    NowIs(e);
  }

  /** Two new pairs and one that refers to both. */
  ghost predicate Three(w: World, root: Ref, x: Ref, y: Ref) {
    && HasNew(w, x, NIL, NIL) && HasNew(w, y, NIL, NIL) && HasNew(w, root, x, y)
    && root != x && root != y && x != y
  }

  lemma ThreeAreReady(w: World, root: Ref, x: Ref, y: Ref)
    requires Held(w, {}) && |w.sessions| == 2 && w.sessions[0] == Session(Leaf, None) && root != x && root != y && x != y
    requires x in w.memory && x in w.kinds && w.memory[x] == NewPair(NIL, NIL) && w.kinds[x] == PAIR_SORT
    requires y in w.memory && y in w.kinds && w.memory[y] == NewPair(NIL, NIL) && w.kinds[y] == PAIR_SORT
    requires root in w.memory && root in w.kinds && w.memory[root] == NewPair(x, y) && w.kinds[root] == PAIR_SORT
    ensures Three(w, root, x, y)
    ensures Persistable(w, 0, [root], {root, x, y}) && |{root, x, y}| == 3 && |{root, x, y}| * COST == 3 * COST
  {
    hide Held, IsNew, NoOwner, CounterLost;
    var fringe := {root, x, y};
    NewIsNew(w, fringe, x, NIL, NIL);
    NewIsNew(w, fringe, y, NIL, NIL);
    NewIsNew(w, fringe, root, x, y);
    NothingLost(w, 0);
    TwoInFringe(x, y);
    assert fringe - {root} == {x, y};
  }

  /** A new pair as it is after a commit: its references are what they were. */
  ghost predicate PairIn(m: Memory, r: Ref, p: Ref, q: Ref) {
    r in m && m[r].shape == ALLOCATOR_SHAPE && m[r].storage == SlottedStorage([p, q])
  }

  lemma ThreeAreAdopted(w0: World, wb: World, w1: World, w: World, w2: World, root: Ref, x: Ref, y: Ref,
                        changed: seq<(Key, Ref)>, adopted: seq<Ref>)
    requires Chosen(w0, wb, w1, 0, [root], {root, x, y}) && Loaded(w1, w, 0) && |w0.sessions| == 2 && Held(w2, {})
    requires Committed(w, w2, 0, {root, x, y}, changed, adopted) && Three(w0, root, x, y)
    ensures StoredPair(w2, 0, root, x, y) && root in adopted && x in adopted && y in adopted
    ensures PairIn(w2.memory, root, x, y) && PairIn(w2.memory, x, NIL, NIL) && PairIn(w2.memory, y, NIL, NIL)
    ensures NIL !in adopted && ALLOCATOR_SHAPE !in adopted && forall z | z in adopted :: z in {root, x, y}
  {
    hide Held, Contents, Committed, Loaded, Chosen, IsStored, StoredPair, Three, Unaddressed, IsMine;
    var fringe := {root, x, y};
    ThreeAreKept(w0, wb, w1, w, w2, root, x, y, changed, adopted);
    InSetIsStored(w, w2, 0, fringe, changed, adopted, root);
    ReferredIsAdopted(w, w2, 0, fringe, changed, adopted, root, x);
    ReferredIsAdopted(w, w2, 0, fringe, changed, adopted, root, y);
    PairIsStored(w2, 0, root, x, y);
    OnlyFringe(w, w2, 0, fringe, changed, adopted);
    ConstantHeld(w2, {}, NIL_ADDR);
    ConstantHeld(w2, {}, ALLOCATOR_SHAPE_ADDR);
  }

  lemma ThreeAreKept(w0: World, wb: World, w1: World, w: World, w2: World, root: Ref, x: Ref, y: Ref,
                     changed: seq<(Key, Ref)>, adopted: seq<Ref>)
    requires Chosen(w0, wb, w1, 0, [root], {root, x, y}) && Loaded(w1, w, 0) && |w0.sessions| == 2
    requires Committed(w, w2, 0, {root, x, y}, changed, adopted) && Three(w0, root, x, y)
    ensures |w.sessions| == 2 && InSet(Dirty(w.sessions[0]), root)
    ensures PairIn(w2.memory, root, x, y) && PairIn(w2.memory, x, NIL, NIL) && PairIn(w2.memory, y, NIL, NIL)
    ensures |w2.sessions| == 2 && forall z | z in {root, x, y} :: z in w2.kinds && w2.kinds[z] == PAIR_SORT
    ensures Unaddressed(w, x) && IsMine(w, 0, x) && Unaddressed(w, y) && IsMine(w, 0, y)
    ensures root !in adopted ==> w2.memory[root].logical == UNASSIGNED
  {
    hide Held, Contents, Committed, Loaded, Chosen;
    var fringe := {root, x, y};
    MarkedIs(w0, wb, w1, 0, [root], fringe);
    LoadedIs(w1, w, 0);
    MineIsKept(w, w2, 0, fringe, changed, adopted, root);
    MineIsKept(w, w2, 0, fringe, changed, adopted, x);
    MineIsKept(w, w2, 0, fringe, changed, adopted, y);
    assert Dirty(w.sessions[0])[UNASSIGNED] == root;
  }

  lemma OnlyFringe(w1: World, w2: World, s: nat, fringe: set<Ref>, changed: seq<(Key, Ref)>, adopted: seq<Ref>)
    requires Committed(w1, w2, s, fringe, changed, adopted)
    ensures forall z | z in adopted :: z in fringe
  {
  }

  /** The scan began at the root alone. */
  lemma RootIsScanned(w0: World, wb: World, w1: World, w: World, w2: World, root: Ref, x: Ref, y: Ref, adopted: seq<Ref>)
    requires Chosen(w0, wb, w1, 0, [root], {root, x, y}) && Loaded(w1, w, 0) && |w0.sessions| == 2
    requires AdoptedInOrder(w, w2, 0, adopted, 4)
    ensures ScanOrder(w2.memory, adopted, 4, [root], 1)
  {
    hide Held, Contents, Loaded, Chosen, ScanOrder, InOrder;
    MarkedIs(w0, wb, w1, 0, [root], {root, x, y});
    LoadedIs(w1, w, 0);
    LoadedHeld(w1, w, 0);
    SetsHeld(w, {}, 0);
    var entries := InOrder(w.sessions[0].writeSet.value);
    TraversalIsEntries(w.sessions[0], entries);
    OrderedIsAscending(w.sessions[0].writeSet.value);
    OneEntry(w.sessions[0], entries, root);
  }

  lemma LoadedHeld(w: World, w': World, s: nat)
    requires Loaded(w, w', s)
    ensures Held(w', {})
  {
  }

  lemma OneEntry(z: Session, entries: seq<(Key, Ref)>, root: Ref)
    requires EntriesOf(z, entries) && Dirty(z) == map[UNASSIGNED := root] && Ascending(entries)
    ensures ObjectsOf(entries) == [root]
  {
    assert UNASSIGNED in Dirty(z);
    assert |entries| > 1 ==> entries[0].0 < entries[1].0;
  }

  lemma ThreeInOrder(m: Memory, adopted: seq<Ref>, root: Ref, x: Ref, y: Ref)
    requires ScanOrder(m, adopted, 4, [root], 1) && root in adopted && x in adopted && y in adopted
    requires PairIn(m, root, x, y) && PairIn(m, x, NIL, NIL) && PairIn(m, y, NIL, NIL)
    requires NIL !in adopted && ALLOCATOR_SHAPE !in adopted && forall z | z in adopted :: z in {root, x, y}
    requires root != x && root != y && x != y
    ensures LogicalOf(m, root) == 4 && LogicalOf(m, y) == 5 && LogicalOf(m, x) == 6
  {
    hide LaterFirst, Below;
    NumberedWindow(m, adopted, 4);
    AtMostThree(m, adopted, root, x, y);
    assert RootInOrder(m, adopted, 4, [root], 0);
    assert LogicalOf(m, root) < LogicalOf(m, x) && LogicalOf(m, root) < LogicalOf(m, y);
    LastFirst(m, adopted, root, x, y);
  }

  lemma OneIsTwice(m: Memory, a: Ref, b: Ref, c: Ref, d: Ref, root: Ref, x: Ref, y: Ref)
    requires a in {root, x, y} && b in {root, x, y} && c in {root, x, y} && d in {root, x, y}
    ensures !(LogicalOf(m, a) > LogicalOf(m, b) > LogicalOf(m, c) > LogicalOf(m, d))
  {
  }

  lemma AtMostThree(m: Memory, adopted: seq<Ref>, root: Ref, x: Ref, y: Ref)
    requires Numbered(m, adopted, 4) && forall z | z in adopted :: z in {root, x, y}
    ensures |adopted| <= 3 && forall i, j | 0 <= i < j < |adopted| :: LogicalOf(m, adopted[i]) > LogicalOf(m, adopted[j])
  {
    forall i | 0 <= i < |adopted| ensures adopted[i] in {root, x, y} {
      assert adopted[i] in adopted;
    }
    if |adopted| > 3 {
      OneIsTwice(m, adopted[0], adopted[1], adopted[2], adopted[3], root, x, y);
    }
  }

  lemma LastFirst(m: Memory, adopted: seq<Ref>, root: Ref, x: Ref, y: Ref)
    requires LaterFirst(m, adopted, LogicalOf(m, root) + 1, root, -1) && x in adopted && y in adopted && x != y
    requires PairIn(m, root, x, y) && PairIn(m, x, NIL, NIL) && PairIn(m, y, NIL, NIL)
    requires NIL !in adopted && ALLOCATOR_SHAPE !in adopted
    requires LogicalOf(m, root) < LogicalOf(m, x) && LogicalOf(m, root) < LogicalOf(m, y)
    ensures LogicalOf(m, y) < LogicalOf(m, x)
  {
    hide Below;
    var since := LogicalOf(m, root) + 1;
    ReferenceIsBelow(m, adopted, since, root, 1, y);
    if Below(m, adopted, since, root, 1, x) {
      NothingFarther(m, adopted, since, root, 1, x);
    }
  }

  lemma ReferencesInOrder(w: World, root: Ref, x: Ref, y: Ref)
    requires StoredPair(w, 0, root, x, y) && LogicalOf(w.memory, root) == 4
    requires LogicalOf(w.memory, y) == 5 && LogicalOf(w.memory, x) == 6
    ensures root in w.memory && w.memory[root].logical == 4 && 4 in w.layout.disk && References(w.layout.disk[4]) == [6, 5]
  {
    StoredPoints(w, root, x, y);
    assert Addresses(w.memory, [x, y]) == [6, 5];
  }
}

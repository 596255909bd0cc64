/** The phases of obl_commit_transaction, each as what it has done to the world so far. */
module Committing {
  import opened Words
  import opened Codec
  import opened RedBlack
  import opened RedBlackInsert
  import opened Objects
  import opened WalkOrder
  import opened World
  import opened Allocation
  import opened Changes
  import opened Closure
  import opened Notice
  import opened Reading
  import opened Renewal
  import Store
  import StoreRuns

  // ----- The scan

  /** The first `i` changed objects were scanned: they and all that was adopted were visited. Only the first may be
      without an address. */
  ghost predicate ScannedTo(w0: World, w: World, s: nat, fringe: set<Ref>, scan: seq<(Key, Ref)>, i: nat,
                            adopted: seq<Ref>) {
    && Walked(w0, w, s, fringe, adopted) && AllVisited(w, adopted) && TakesTransients(w0, FirstOf(scan), adopted)
    && (forall j | 0 <= j < i && j < |scan| :: Visited(w, scan[j].1) && !Unaddressed(w, scan[j].1))
    && (forall j | 0 <= j < |scan| :: Visitable(w, s, fringe, scan[j].1) && (j > 0 ==> !Unaddressed(w, scan[j].1)))
  }

  /** The object that is scanned first. */
  function FirstOf(scan: seq<(Key, Ref)>): Ref {
    if scan == [] then NIL else scan[0].1
  }

  /** An object that was marked without an address is in the fringe. */
  ghost predicate RootWithin(w: World, s: nat, fringe: set<Ref>) {
    s < |w.sessions| && (UNASSIGNED in Dirty(w.sessions[s]) ==> Dirty(w.sessions[s])[UNASSIGNED] in fringe)
  }

  /** Of the objects to be adopted only the one marked without an address has a session. */
  ghost predicate ClaimsMarked(w: World, s: nat, fringe: set<Ref>) {
    && RootWithin(w, s, fringe)
    && forall x | x in fringe && Claimed(w, x) ::
         UNASSIGNED in Dirty(w.sessions[s]) && Dirty(w.sessions[s])[UNASSIGNED] == x
  }

  /** Address zero comes first. */
  lemma ZeroIsFirst(t: Tree<Ref>)
    requires Ordered(t)
    ensures forall j | 0 < j < |InOrder(t)| :: InOrder(t)[j].0 > 0
    ensures UNASSIGNED in Contents(t) ==> InOrder(t) != [] && InOrder(t)[0] == (UNASSIGNED, Contents(t)[UNASSIGNED])
  {
    OrderedIsAscending(t);
    ContentsAreEntries(t);
    var order := InOrder(t);
    forall j | 0 < j < |order| ensures order[j].0 > 0 {
      assert order[0].0 < order[j].0;
    }
    if UNASSIGNED in Contents(t) {
      assert (UNASSIGNED, Contents(t)[UNASSIGNED]) in order;
    }
  }

  lemma ScanBegins(w: World, stale: Stale, s: nat, fringe: set<Ref>, scan: seq<(Key, Ref)>)
    requires Held(w, stale) && RootsWait(w) && s < |w.sessions| && w.sessions[s].writeSet.Some?
    requires scan == InOrder(w.sessions[s].writeSet.value) && RootWithin(w, s, fringe)
    requires forall k | k in Dirty(w.sessions[s]) :: WithinChildren(w, fringe, Dirty(w.sessions[s])[k])
    ensures EntriesOf(w.sessions[s], scan) && ScannedTo(w, w, s, fringe, scan, 0, [])
    ensures UNASSIGNED in Dirty(w.sessions[s]) ==> scan != [] && FirstOf(scan) == Dirty(w.sessions[s])[UNASSIGNED]
  {
    SetsHeld(w, stale, s);
    TraversalIsEntries(w.sessions[s], scan);
    WalkedSelf(w, s, fringe);
    ZeroIsFirst(w.sessions[s].writeSet.value);
    forall j | 0 <= j < |scan| ensures Visitable(w, s, fringe, scan[j].1) && (j > 0 ==> !Unaddressed(w, scan[j].1)) {
      DirtyIsVisitable(w, stale, s, fringe, scan[j].0);
    }
  }

  lemma DirtyIsVisitable(w: World, stale: Stale, s: nat, fringe: set<Ref>, k: Key)
    requires Held(w, stale) && RootsWait(w) && s < |w.sessions| && RootWithin(w, s, fringe)
    requires k in Dirty(w.sessions[s])
    requires WithinChildren(w, fringe, Dirty(w.sessions[s])[k])
    ensures Visitable(w, s, fringe, Dirty(w.sessions[s])[k])
    ensures k != UNASSIGNED ==> !Unaddressed(w, Dirty(w.sessions[s])[k])
  {
    SetsHeld(w, stale, s);
    if k != UNASSIGNED {
      EntryHeld(w, stale, s, k);
    }
  }

  ghost predicate WithinChildren(w: World, fringe: set<Ref>, r: Ref) {
    r in w.memory && ChildrenWithin(w, fringe, r)
  }

  lemma ScanIsNext(w0: World, w: World, s: nat, fringe: set<Ref>, scan: seq<(Key, Ref)>, i: nat, adopted: seq<Ref>)
    requires ScannedTo(w0, w, s, fringe, scan, i, adopted) && i < |scan|
    ensures Visitable(w, s, fringe, scan[i].1)
  {
  }

  lemma ScanGoesOn(w0: World, w: World, w': World, s: nat, fringe: set<Ref>, scan: seq<(Key, Ref)>, i: nat,
                   adopted: seq<Ref>, below: seq<Ref>)
    requires ScannedTo(w0, w, s, fringe, scan, i, adopted) && i < |scan|
    requires Walked(w, w', s, fringe, below) && AllVisited(w', below) && Visited(w', scan[i].1)
    requires !Unaddressed(w', scan[i].1) && TakesTransients(w, scan[i].1, below)
    ensures ScannedTo(w0, w', s, fringe, scan, i + 1, below + adopted)
  {
    hide Walked, Visitable, Visited, Transient, Unaddressed;
    WalkedThen(w0, w, w', s, fringe, adopted, below);
    forall x | x in below + adopted ensures Visited(w', x) && (x == FirstOf(scan) || Transient(w0, x)) {
      if x in below {
        WalkedUnaddressed(w, w', s, fringe, below, x);
        if x != FirstOf(scan) {
          TransientBefore(w0, w, s, fringe, adopted, x);
        }
      } else {
        StaysVisited(w, w', s, fringe, below, x);
      }
    }
    forall j | 0 <= j < i + 1 ensures Visited(w', scan[j].1) && !Unaddressed(w', scan[j].1) {
      if j < i {
        StaysVisited(w, w', s, fringe, below, scan[j].1);
        StaysAddressed(w, w', s, fringe, below, scan[j].1);
      }
    }
    forall j | 0 <= j < |scan| ensures Visitable(w', s, fringe, scan[j].1) && (j > 0 ==> !Unaddressed(w', scan[j].1)) {
      VisitableStays(w, w', s, fringe, below, scan[j].1);
    }
  }

  lemma WalkedUnaddressed(w: World, w': World, s: nat, fringe: set<Ref>, below: seq<Ref>, x: Ref)
    requires Walked(w, w', s, fringe, below) && x in below
    ensures Unaddressed(w, x) && x in fringe && x in w.kinds && w.kinds[x].rank > 0 && x in w'.memory && IsIntact(w', x)
  {
    assert AdoptedBy(w, w', s, x);
  }

  lemma VisitableStays(w: World, w': World, s: nat, fringe: set<Ref>, below: seq<Ref>, x: Ref)
    requires Walked(w, w', s, fringe, below) && Visitable(w, s, fringe, x)
    ensures Visitable(w', s, fringe, x) && (!Unaddressed(w, x) ==> !Unaddressed(w', x))
  {
    StaysAddressed(w, w', s, fringe, below, x);
    assert x in below ==> AdoptedBy(w, w', s, x);
    ChildrenStayWithin(w, w', s, fringe, below, x);
  }

  /** What a walk from the next object adopts is no child of those scanned before, nor of what they brought in. */
  lemma ScanLeavesRoots(w0: World, w: World, stale: Stale, w': World, s: nat, fringe: set<Ref>, scan: seq<(Key, Ref)>,
                        i: nat, adopted: seq<Ref>, below: seq<Ref>, k: nat)
    requires Held(w, stale) && ScannedTo(w0, w, s, fringe, scan, i, adopted) && k < i < |scan|
    requires Walked(w, w', s, fringe, below) && TakesTransients(w, scan[i].1, below)
    ensures SameAt(w.memory, w'.memory, scan[k].1) && scan[k].1 !in below
    ensures forall y | y in below :: !RefersTo(w.memory[scan[k].1], y)
  {
    hide Held, RefersTo;
    var z := scan[k].1;
    assert Visitable(w, s, fringe, z) && Visited(w, z) && !Unaddressed(w, scan[i].1);
    assert z in below ==> Unaddressed(w, z);
    forall y | y in below ensures !RefersTo(w.memory[z], y) {
      assert AdoptedBy(w, w', s, y) && Unaddressed(w, y);
      VisitedRefersToNone(w, stale, z, y);
    }
  }

  lemma ScannedIsVisited(w0: World, w: World, s: nat, fringe: set<Ref>, scan: seq<(Key, Ref)>, i: nat, adopted: seq<Ref>,
                         z: Ref)
    requires ScannedTo(w0, w, s, fringe, scan, i, adopted) && z in adopted
    ensures Walked(w0, w, s, fringe, adopted) && Visited(w, z) && z in w.kinds && w.kinds[z].rank > 0 && IsIntact(w, z)
  {
    assert AdoptedBy(w0, w, s, z);
  }

  /** But for the first object scanned all that is adopted had no session. */
  lemma BelowHasNoSession(w: World, s: nat, fringe: set<Ref>, scan: seq<(Key, Ref)>, w0: World, i: nat, adopted: seq<Ref>,
                          below: seq<Ref>, w': World, y: Ref)
    requires ScannedTo(w0, w, s, fringe, scan, i, adopted) && 0 < i < |scan|
    requires Walked(w, w', s, fringe, below) && TakesTransients(w, scan[i].1, below) && y in below
    ensures Transient(w, y) && Unaddressed(w, y)
  {
    assert Unaddressed(w, y) && !Unaddressed(w, scan[i].1);
  }

  lemma ScanAdoptsMore(w0: World, w: World, stale: Stale, w': World, s: nat, fringe: set<Ref>, scan: seq<(Key, Ref)>,
                       i: nat, adopted: seq<Ref>, below: seq<Ref>, first: nat)
    requires Held(w, stale) && ScannedTo(w0, w, s, fringe, scan, i, adopted) && i < |scan| && (i == 0 ==> adopted == [])
    requires Walked(w, w', s, fringe, below) && TakesTransients(w, scan[i].1, below)
    requires Numbered(w.memory, adopted, first) && Numbered(w'.memory, below, first + |adopted|)
    ensures AdoptsMore(w.memory, w'.memory, adopted, below, scan[i].1, first + |adopted|)
  {
    hide Held, Numbered, RefersTo, Walked, ScannedTo, Visited, Transient, Unaddressed, TakesTransients;
    NumberedWindow(w.memory, adopted, first);
    NumberedWindow(w'.memory, below, first + |adopted|);
    forall x | x in adopted ensures SameAt(w.memory, w'.memory, x) {
      ScannedIsVisited(w0, w, s, fringe, scan, i, adopted, x);
      AdoptedStays(w0, w, w', s, fringe, adopted, below, x);
    }
    forall y | y in below ensures y in w'.memory {
      WalkedUnaddressed(w, w', s, fringe, below, y);
    }
    forall z, y | z in adopted && z != scan[i].1 && y in below ensures z in w.memory && !RefersTo(w.memory[z], y) {
      WalkedUnaddressed(w, w', s, fringe, below, y);
      ScannedIsVisited(w0, w, s, fringe, scan, i, adopted, z);
      BelowHasNoSession(w, s, fringe, scan, w0, i, adopted, below, w', y);
      VisitedRefersToNone(w, stale, z, y);
    }
  }

  /** The scan goes on, and so does the order in which it gives addresses. */
  lemma ScanInOrder(w0: World, w: World, stale: Stale, w': World, s: nat, fringe: set<Ref>, scan: seq<(Key, Ref)>,
                    i: nat, adopted: seq<Ref>, below: seq<Ref>, first: nat)
    requires Held(w, stale) && ScannedTo(w0, w, s, fringe, scan, i, adopted) && i < |scan|
    requires forall j | 0 < j < |scan| :: !Unaddressed(w0, scan[j].1)
    requires Walked(w, w', s, fringe, below) && TakesTransients(w, scan[i].1, below)
    requires ScanOrder(w.memory, adopted, first, ObjectsOf(scan), i)
    requires Numbered(w'.memory, below, first + |adopted|)
    requires WalkedInOrder(w'.memory, below, first + |adopted|, scan[i].1, -1)
    ensures ScanOrder(w'.memory, below + adopted, first, ObjectsOf(scan), i + 1)
  {
    hide Held, WalkedInOrder, Numbered, AdoptsMore, RefersTo, FromFirst, RootInOrder, LaterFirst, ScannedTo, Walked;
    hide TakesTransients, ScanOrder;
    var roots := ObjectsOf(scan);
    NothingAdoptedYet(w.memory, adopted, first, roots, i);
    ScanAdoptsMore(w0, w, stale, w', s, fringe, scan, i, adopted, below, first);
    forall k | 0 <= k < i
      ensures SameAt(w.memory, w'.memory, roots[k]) && roots[k] !in below
      ensures forall y | y in below :: roots[k] in w.memory && !RefersTo(w.memory[roots[k]], y)
    {
      ScanLeavesRoots(w0, w, stale, w', s, fringe, scan, i, adopted, below, k);
    }
    RootIsNotAdopted(w0, w, s, fringe, scan, i, adopted);
    ScanGoesOnInOrder(w.memory, w'.memory, adopted, below, first, roots, i);
  }

  lemma NothingAdoptedYet(m: Memory, adopted: seq<Ref>, first: nat, roots: seq<Ref>, i: nat)
    requires ScanOrder(m, adopted, first, roots, i)
    ensures Numbered(m, adopted, first) && (i == 0 ==> adopted == [])
  {
    if adopted != [] {
      assert FromFirst(m, adopted, first, roots, i, adopted[0]);
    }
  }

  lemma RootIsNotAdopted(w0: World, w: World, s: nat, fringe: set<Ref>, scan: seq<(Key, Ref)>, i: nat, adopted: seq<Ref>)
    requires ScannedTo(w0, w, s, fringe, scan, i, adopted) && i < |scan| && (i == 0 ==> adopted == [])
    requires forall j | 0 < j < |scan| :: !Unaddressed(w0, scan[j].1)
    ensures scan[i].1 !in adopted
  {
    if i > 0 {
      assert !Unaddressed(w0, scan[i].1);
    }
  }

  /** The order in which the objects that a commit adopts get their addresses, from the next one on: the walks begin at
      the objects of the write set, in its order. */
  ghost predicate AdoptedInOrder(w0: World, w: World, s: nat, adopted: seq<Ref>, first: nat) {
    && s < |w0.sessions| && w0.sessions[s].writeSet.Some?
    && var roots := ObjectsOf(InOrder(w0.sessions[s].writeSet.value));
       ScanOrder(w.memory, adopted, first, roots, |roots|)
  }

  lemma CountedGraph(w2: World, w3: World, s: nat, xs: seq<Ref>)
    requires SameBut(w2, w3, s) && forall x | x in xs :: x in w2.memory
    ensures SameGraph(w2.memory, w3.memory, xs)
  {
    forall x | x in xs ensures x in w3.memory && w3.memory[x].logical == w2.memory[x].logical
      && w3.memory[x].shape == w2.memory[x].shape && w3.memory[x].storage.Links() == w2.memory[x].storage.Links()
    {
      assert w3.memory[x] == w2.memory[x] || CounterOf(w2, w3, s, x);
    }
  }

  lemma ScannedThere(w0: World, w1: World, s: nat, fringe: set<Ref>, scan: seq<(Key, Ref)>, adopted: seq<Ref>)
    requires ScannedTo(w0, w1, s, fringe, scan, |scan|, adopted)
    ensures forall x | x in adopted || x in ObjectsOf(scan) :: x in w1.memory
  {
    forall x | x in ObjectsOf(scan) ensures x in w1.memory {
      var j :| 0 <= j < |scan| && ObjectsOf(scan)[j] == x;
      assert Visitable(w1, s, fringe, scan[j].1);
    }
    forall x | x in adopted ensures x in w1.memory {
      assert AdoptedBy(w0, w1, s, x);
    }
  }

  lemma PersistedInOrder(w0: World, w1: World, w2: World, w3: World, w: World, s: nat, fringe: set<Ref>,
                         scan: seq<(Key, Ref)>, adopted: seq<Ref>, first: nat)
    requires ScannedTo(w0, w1, s, fringe, scan, |scan|, adopted) && w2.memory == w1.memory && SameBut(w2, w3, s)
    requires w.memory == w3.memory && s < |w0.sessions| && w0.sessions[s].writeSet.Some?
    requires scan == InOrder(w0.sessions[s].writeSet.value)
    requires ScanOrder(w1.memory, adopted, first, ObjectsOf(scan), |scan|)
    ensures AdoptedInOrder(w0, w, s, adopted, first)
  {
    hide ScannedTo, ScanOrder, SameGraph, SameBut;
    ScannedThere(w0, w1, s, fringe, scan, adopted);
    CountedThere(w2, w3, s, adopted, ObjectsOf(scan));
    ScanOrderLater(w1.memory, w.memory, adopted, first, ObjectsOf(scan), |scan|);
  }

  lemma CountedThere(w2: World, w3: World, s: nat, adopted: seq<Ref>, roots: seq<Ref>)
    requires SameBut(w2, w3, s) && forall x | x in adopted || x in roots :: x in w2.memory
    ensures SameGraph(w2.memory, w3.memory, adopted) && SameGraph(w2.memory, w3.memory, roots)
  {
    CountedGraph(w2, w3, s, adopted);
    CountedGraph(w2, w3, s, roots);
  }

  lemma ScannedAreMine(w: World, s: nat, roots: seq<Ref>)
    requires Held(w, {}) && s < |w.sessions| && w.sessions[s].writeSet.Some?
    requires roots == ObjectsOf(InOrder(w.sessions[s].writeSet.value))
    ensures forall x | x in roots :: IsMine(w, s, x)
  {
    hide Held, Contents;
    var scan := InOrder(w.sessions[s].writeSet.value);
    SetsHeld(w, {}, s);
    TraversalIsEntries(w.sessions[s], scan);
    forall x | x in roots ensures IsMine(w, s, x) {
      var j :| 0 <= j < |scan| && roots[j] == x;
      DirtyIsMine(w, {}, s, scan[j].0);
    }
  }

  lemma AdoptedAreMine(w0: World, w5: World, s: nat, fringe: set<Ref>, changed: seq<(Key, Ref)>, adopted: seq<Ref>)
    requires Held(w0, {}) && Persisted(w0, w5, s, fringe, changed, adopted)
    ensures forall x | x in adopted :: IsMine(w0, s, x)
  {
    hide Held, CacheGrown, ChangedKeys, Contents, OwnKept;
    forall x | x in adopted ensures IsMine(w0, s, x) {
      if IsRoot(w0, s, x) {
        DirtyIsMine(w0, {}, s, UNASSIGNED);
      }
    }
  }

  lemma ToldMine(w0: World, w5: World, w: World, s: nat, fringe: set<Ref>, changed: seq<(Key, Ref)>, adopted: seq<Ref>,
                 xs: seq<Ref>)
    requires Persisted(w0, w5, s, fringe, changed, adopted) && Told(w5, w, s)
    requires forall x | x in xs :: IsMine(w0, s, x)
    ensures SameGraph(w5.memory, w.memory, xs)
  {
    hide CacheGrown, ChangedKeys, Kept, KindsKept, Contents, SameObject;
    forall x | x in xs ensures x in w5.memory && x in w.memory && w.memory[x] == w5.memory[x] {
      assert IsMine(w0, s, x) && IsMine(w5, s, x);
    }
  }

  /** Telling the other sessions leaves the committing session's objects as they are. */
  lemma ToldInOrder(w0: World, w5: World, w: World, s: nat, fringe: set<Ref>, changed: seq<(Key, Ref)>,
                    adopted: seq<Ref>, first: nat)
    requires Held(w0, {}) && Persisted(w0, w5, s, fringe, changed, adopted) && Told(w5, w, s)
    requires AdoptedInOrder(w0, w5, s, adopted, first)
    ensures AdoptedInOrder(w0, w, s, adopted, first)
  {
    hide Held, ScanOrder, Persisted, Told, SameGraph;
    var roots := ObjectsOf(InOrder(w0.sessions[s].writeSet.value));
    ScannedAreMine(w0, s, roots);
    AdoptedAreMine(w0, w5, s, fringe, changed, adopted);
    ToldMine(w0, w5, w, s, fringe, changed, adopted, roots);
    ToldMine(w0, w5, w, s, fringe, changed, adopted, adopted);
    ScanOrderLater(w5.memory, w.memory, adopted, first, roots, |roots|);
  }

  lemma DirtyIsMine(w: World, stale: Stale, s: nat, k: Key)
    requires Held(w, stale) && s < |w.sessions| && k in Dirty(w.sessions[s])
    ensures IsMine(w, s, Dirty(w.sessions[s])[k])
  {
    SetsHeld(w, stale, s);
    if k != UNASSIGNED {
      EntryHeld(w, stale, s, k);
    }
  }

  // ----- What a commit will write

  function ObjectsOf(entries: seq<(Key, Ref)>): seq<Ref> {
    seq(|entries|, i requires 0 <= i < |entries| => entries[i].1)
  }

  /** What was marked and what was adopted refer only to objects with addresses exactly if none of them has a child
      that had a session and no address, other than the object that was marked so. */
  lemma ScanSettlesIff(w0: World, w: World, stale: Stale, s: nat, fringe: set<Ref>, scan: seq<(Key, Ref)>,
                       adopted: seq<Ref>)
    requires Held(w, stale) && ScannedTo(w0, w, s, fringe, scan, |scan|, adopted)
    ensures AllSettled(w, ObjectsOf(scan) + adopted) <==> NothingSkipped(w0, FirstOf(scan), ObjectsOf(scan) + adopted)
  {
    hide Held, Walked, Visited, Claimed, NothingSkipped, AllSettled;
    var xs := ObjectsOf(scan) + adopted;
    ConstantHeld(w, stale, NIL_ADDR);
    forall x | x in xs ensures Visited(w, x) && x in w.kinds && w.kinds[x].rank > 0 && IsIntact(w, x) {
      if x in adopted {
        WalkedUnaddressed(w0, w, s, fringe, adopted, x);
        KindsWalked(w0, w, s, fringe, adopted);
      } else {
        var j :| 0 <= j < |scan| && ObjectsOf(scan)[j] == x;
        assert Visitable(w, s, fringe, scan[j].1);
      }
    }
    VisitSettlesIff(w0, w, stale, s, fringe, FirstOf(scan), adopted, xs);
  }

  lemma KindsWalked(w: World, w': World, s: nat, fringe: set<Ref>, adopted: seq<Ref>)
    requires Walked(w, w', s, fringe, adopted)
    ensures w'.kinds == w.kinds
  {
  }

  /** If of all that may be adopted only the marked object has a session, none is skipped. */
  lemma MarkedSkipsNothing(w0: World, w: World, s: nat, fringe: set<Ref>, cost: nat, scan: seq<(Key, Ref)>,
                           adopted: seq<Ref>)
    requires ScannedTo(w0, w, s, fringe, scan, |scan|, adopted) && Fringe(w0, fringe, cost)
    requires ClaimsMarked(w0, s, fringe) && EntriesOf(w0.sessions[s], scan)
    requires forall k | k in Dirty(w0.sessions[s]) :: WithinChildren(w0, fringe, Dirty(w0.sessions[s])[k])
    requires UNASSIGNED in Dirty(w0.sessions[s]) ==> FirstOf(scan) == Dirty(w0.sessions[s])[UNASSIGNED]
    ensures NothingSkipped(w0, FirstOf(scan), ObjectsOf(scan) + adopted)
  {
    hide Contents, Walked;
    var xs := ObjectsOf(scan) + adopted;
    forall x, c | x in xs && IsChild(w0, x, c) && Claimed(w0, c) ensures c == FirstOf(scan) {
      if x in adopted {
        WalkedUnaddressed(w0, w, s, fringe, adopted, x);
        assert Adoptee(w0, fringe, cost, x);
      } else {
        var j :| 0 <= j < |scan| && ObjectsOf(scan)[j] == x;
        assert WithinChildren(w0, fringe, Dirty(w0.sessions[s])[scan[j].0]);
      }
      assert c in fringe;
    }
  }

  // ----- Adopted objects enter the sets

  /** Objects by their logical addresses. */
  function Listed(m: Memory, xs: seq<Ref>): Entries {
    if xs == [] then map[]
    else Listed(m, xs[..|xs| - 1])[LogicalOf(m, xs[|xs| - 1]) := xs[|xs| - 1]]
  }

  lemma {:induction false} ListedKeys(m: Memory, xs: seq<Ref>)
    ensures forall k | k in Listed(m, xs) :: Listed(m, xs)[k] in xs && LogicalOf(m, Listed(m, xs)[k]) == k
    ensures forall x | x in xs :: LogicalOf(m, x) in Listed(m, xs)
  {
    if xs != [] {
      ListedKeys(m, xs[..|xs| - 1]);
    }
  }

  lemma ListedAt(m: Memory, adopted: seq<Ref>, x: Ref, w1: World)
    requires Distinct(w1, adopted) && w1.memory == m && x in adopted
    ensures LogicalOf(m, x) in Listed(m, adopted) && Listed(m, adopted)[LogicalOf(m, x)] == x
  {
    ListedKeys(m, adopted);
    var y := Listed(m, adopted)[LogicalOf(m, x)];
    var i, j :| 0 <= i < |adopted| && 0 <= j < |adopted| && adopted[i] == x && adopted[j] == y;
  }

  /** The first `i` adopted objects are in both sets of the session. */
  ghost predicate EnlistedTo(w1: World, w: World, s: nat, adopted: seq<Ref>, i: nat) {
    && s < |w1.sessions| && |w.sessions| == |w1.sessions| && i <= |adopted|
    && w == WithSession(w1, s, w.sessions[s]) && w.sessions[s].writeSet.Some?
    && Cache(w.sessions[s]) == Cache(w1.sessions[s]) + Listed(w1.memory, adopted[..i])
    && Dirty(w.sessions[s]) == Dirty(w1.sessions[s]) + Listed(w1.memory, adopted[..i])
  }

  lemma EnlistBegins(w1: World, s: nat, adopted: seq<Ref>)
    requires s < |w1.sessions| && w1.sessions[s].writeSet.Some?
    ensures EnlistedTo(w1, w1, s, adopted, 0)
  {
  }

  /** The address of an adopted object is new to the read set. */
  lemma NotListed(w0: World, stale: Stale, w1: World, w: World, s: nat, fringe: set<Ref>, adopted: seq<Ref>, i: nat)
    requires Held(w0, stale) && Walked(w0, w1, s, fringe, adopted)
    requires EnlistedTo(w1, w, s, adopted, i) && i < |adopted|
    ensures adopted[i] in w.memory && w.memory[adopted[i]].logical !in Cache(w.sessions[s])
  {
    hide Held, Contents;
    var r := adopted[i];
    assert AdoptedBy(w0, w1, s, r);
    var k := w1.memory[r].logical;
    if k in Cache(w0.sessions[s]) {
      EntryHeld(w0, stale, s, k);
    }
    ListedKeys(w1.memory, adopted[..i]);
    forall j | 0 <= j < i ensures LogicalOf(w1.memory, adopted[..i][j]) != k {
      assert Distinct(w1, adopted) && adopted[..i][j] == adopted[j];
    }
  }

  lemma AdoptedIsEntry(w0: World, stale: Stale, w1: World, w: World, s: nat, fringe: set<Ref>, adopted: seq<Ref>,
                       r: Ref)
    requires Held(w0, stale) && Walked(w0, w1, s, fringe, adopted) && r in adopted
    requires w.memory == w1.memory && w.kinds == w1.kinds && w.sorts == w1.sorts
    ensures r in w.memory && IsEntry(w, s, w.memory[r].logical, r) && IsIntact(w, r) && w.memory[r].logical > Store.NEXT_LOGICAL_ADDR
  {
    assert AdoptedBy(w0, w1, s, r);
    AdoptedAddress(w0, w1, s, r);
  }

  /** No address of the allocator's objects is given again. */
  lemma AdoptedAddress(w0: World, w1: World, s: nat, r: Ref)
    requires Reserved(w0) && AdoptedBy(w0, w1, s, r)
    ensures w1.memory[r].logical > Store.NEXT_LOGICAL_ADDR
  {
    assert Store.ALLOCATOR_ADDR in FIRST_SORTS && Store.NEXT_PHYSICAL_ADDR in FIRST_SORTS && Store.NEXT_LOGICAL_ADDR in FIRST_SORTS;
  }

  lemma ListedOneMore(m: Memory, base: Entries, adopted: seq<Ref>, i: nat)
    requires i < |adopted|
    ensures base + Listed(m, adopted[..i + 1]) == (base + Listed(m, adopted[..i]))[LogicalOf(m, adopted[i]) := adopted[i]]
  {
    assert adopted[..i + 1][..i] == adopted[..i];
  }

  lemma EnlistGoesOn(w0: World, stale: Stale, w1: World, w: World, s: nat, fringe: set<Ref>, adopted: seq<Ref>, i: nat)
    requires Held(w0, stale) && Walked(w0, w1, s, fringe, adopted)
    requires Held(w, stale) && EnlistedTo(w1, w, s, adopted, i) && i < |adopted|
    ensures adopted[i] in w.memory && s < |w.sessions| && w.sessions[s].writeSet.Some?
    ensures var w' := WithSession(w, s, Enlisted(w.sessions[s], w.memory[adopted[i]].logical, adopted[i]));
      Held(w', stale) && EnlistedTo(w1, w', s, adopted, i + 1)
  {
    hide Held, Walked, Insert, Contents;
    var r := adopted[i];
    AdoptedIsEntry(w0, stale, w1, w, s, fringe, adopted, r);
    NotListed(w0, stale, w1, w, s, fringe, adopted, i);
    EnlistHolds(w, stale, s, w.memory[r].logical, r);
    ListedOneMore(w1.memory, Cache(w1.sessions[s]), adopted, i);
    ListedOneMore(w1.memory, Dirty(w1.sessions[s]), adopted, i);
  }

  /** All that the transaction will write is what the scan went through, and what it adopted. */
  lemma WritesAreVisited(w0: World, w1: World, w2: World, s: nat, fringe: set<Ref>, scan: seq<(Key, Ref)>,
                         adopted: seq<Ref>)
    requires s < |w0.sessions| && EntriesOf(w0.sessions[s], scan) && w1.sessions == w0.sessions
    requires EnlistedTo(w1, w2, s, adopted, |adopted|)
    ensures forall k | k in Dirty(w2.sessions[s]) :: Dirty(w2.sessions[s])[k] in ObjectsOf(scan) + adopted
  {
    assert adopted[..|adopted|] == adopted;
    ListedKeys(w1.memory, adopted);
    forall k | k in Dirty(w2.sessions[s]) ensures Dirty(w2.sessions[s])[k] in ObjectsOf(scan) + adopted {
      if k !in Listed(w1.memory, adopted) {
        var j :| 0 <= j < |scan| && scan[j] == (k, Dirty(w0.sessions[s])[k]);
        assert ObjectsOf(scan)[j] == Dirty(w2.sessions[s])[k];
      }
    }
  }

  /** Settled after the scan, it is settled when it is to be written. */
  lemma AllAreSettled(w0: World, w1: World, w2: World, s: nat, fringe: set<Ref>, scan: seq<(Key, Ref)>,
                      adopted: seq<Ref>)
    requires s < |w0.sessions| && EntriesOf(w0.sessions[s], scan) && w1.sessions == w0.sessions
    requires EnlistedTo(w1, w2, s, adopted, |adopted|) && AllSettled(w1, ObjectsOf(scan) + adopted)
    ensures forall k | k in Dirty(w2.sessions[s]) :: Settled(w2, Dirty(w2.sessions[s])[k])
  {
    WritesAreVisited(w0, w1, w2, s, fringe, scan, adopted);
    forall k | k in Dirty(w2.sessions[s]) ensures Settled(w2, Dirty(w2.sessions[s])[k]) {
      SettledAnyway(w1, w2, s, Dirty(w2.sessions[s])[k]);
    }
  }

  /** Written, the object is a value that can be read by its shape. */
  ghost predicate IsReadable(w: World, r: Ref) {
    && r in w.memory && r in w.kinds && w.memory[r].storage.Writable()
    && WellTyped(ValueOf(w.memory, w.memory[r]), w.kinds[r], w.sorts)
  }

  lemma ScannedIsReadableIff(w0: World, w1: World, w2: World, s: nat, fringe: set<Ref>, scan: seq<(Key, Ref)>,
                             adopted: seq<Ref>, r: Ref)
    requires Held(w2, {}) && ScannedTo(w0, w1, s, fringe, scan, |scan|, adopted) && r in ObjectsOf(scan) + adopted
    requires w2.memory == w1.memory && w2.kinds == w1.kinds
    ensures IsReadable(w2, r) <==> Settled(w1, r)
  {
    hide Held, Walked, WellTyped, ValueOf;
    if r in adopted {
      WalkedUnaddressed(w0, w1, s, fringe, adopted, r);
      KindsWalked(w0, w1, s, fringe, adopted);
    } else {
      var j :| 0 <= j < |scan| && ObjectsOf(scan)[j] == r;
      assert Visitable(w1, s, fringe, scan[j].1);
    }
    WrittenTypedIff(w2, {}, r);
  }

  /** What was marked and what was adopted is in the write set. */
  lemma ScannedIsDirty(w0: World, w1: World, w2: World, s: nat, fringe: set<Ref>, scan: seq<(Key, Ref)>,
                       adopted: seq<Ref>, r: Ref) returns (k: Key)
    requires Held(w0, {}) && s < |w0.sessions| && EntriesOf(w0.sessions[s], scan)
    requires ScannedTo(w0, w1, s, fringe, scan, |scan|, adopted) && EnlistedTo(w1, w2, s, adopted, |adopted|)
    requires r in ObjectsOf(scan) + adopted
    ensures k in Dirty(w2.sessions[s]) && Dirty(w2.sessions[s])[k] == r
  {
    hide Held, Contents, Walked, AllVisited;
    assert adopted[..|adopted|] == adopted;
    ScannedWalked(w0, w1, s, fringe, scan, adopted);
    if r in adopted {
      k := LogicalOf(w1.memory, r);
      DistinctlyAdopted(w0, w1, s, fringe, adopted);
      ListedAt(w1.memory, adopted, r, w1);
    } else {
      var j :| 0 <= j < |scan| && ObjectsOf(scan)[j] == r;
      k := scan[j].0;
      KeptDirty(w0, w1, s, fringe, adopted, k);
    }
  }

  lemma DistinctlyAdopted(w0: World, w1: World, s: nat, fringe: set<Ref>, adopted: seq<Ref>)
    requires Walked(w0, w1, s, fringe, adopted)
    ensures Distinct(w1, adopted)
  {
  }

  /** All that a commit is about to write can be read back exactly if no object it writes has a child that had a
      session and no address, other than the object that was marked so: such a child is written as the address zero. */
  lemma ReadableIff(w0: World, w1: World, w2: World, s: nat, fringe: set<Ref>, scan: seq<(Key, Ref)>, adopted: seq<Ref>)
    requires Held(w0, {}) && Held(w1, {}) && Held(w2, {}) && s < |w0.sessions| && EntriesOf(w0.sessions[s], scan)
    requires ScannedTo(w0, w1, s, fringe, scan, |scan|, adopted) && EnlistedTo(w1, w2, s, adopted, |adopted|)
    ensures (forall k | k in Dirty(w2.sessions[s]) :: IsReadable(w2, Dirty(w2.sessions[s])[k]))
      <==> NothingSkipped(w0, FirstOf(scan), ObjectsOf(scan) + adopted)
  {
    hide Held, Contents, Settled, IsReadable, NothingSkipped, ScannedTo, EntriesOf;
    var xs, dirty := ObjectsOf(scan) + adopted, Dirty(w2.sessions[s]);
    ScannedWalked(w0, w1, s, fringe, scan, adopted);
    ScanSettlesIff(w0, w1, {}, s, fringe, scan, adopted);
    WritesAreVisited(w0, w1, w2, s, fringe, scan, adopted);
    forall r | r in xs ensures (IsReadable(w2, r) <==> Settled(w1, r)) && exists k :: k in dirty && dirty[k] == r {
      ScannedIsReadableIff(w0, w1, w2, s, fringe, scan, adopted, r);
      var k := ScannedIsDirty(w0, w1, w2, s, fringe, scan, adopted, r);
    }
    if forall k | k in dirty :: IsReadable(w2, dirty[k]) {
      forall r | r in xs ensures Settled(w1, r) {
        var k :| k in dirty && dirty[k] == r;
        assert IsReadable(w2, dirty[k]);
      }
    }
  }

  /** Of the session's objects only its copies of the counters may differ. */
  ghost predicate SameBut(w: World, w': World, s: nat) {
    && w'.kinds == w.kinds && w'.memory.Keys == w.memory.Keys
    && forall x | x in w.memory :: w'.memory[x] == w.memory[x] || CounterOf(w, w', s, x)
  }

  ghost predicate CounterOf(w: World, w': World, s: nat, x: Ref) {
    && x in w.memory && x in w'.memory && w.memory[x].session == Some(s)
    && Store.IsCounter(w.memory[x].logical)
    && w'.memory[x].storage.IntegerStorage? && w.memory[x].storage.IntegerStorage?
    && w'.memory[x] == w.memory[x].(storage := w'.memory[x].storage)
  }

  lemma SettledAnyway(w: World, w': World, s: nat, r: Ref)
    requires Settled(w, r) && SameBut(w, w', s)
    ensures Settled(w', r)
  {
    forall x | !Unaddressed(w, x) ensures !Unaddressed(w', x) {
    }
  }

  // ----- The addresses of what is written

  /** The objects of a write set under the addresses they have got. One that was marked without an address comes
      twice. */
  function AtHome(m: Memory, entries: seq<(Key, Ref)>): (r: seq<(Key, Ref)>)
    ensures |r| == |entries|
  {
    seq(|entries|, i requires 0 <= i < |entries| => (LogicalOf(m, entries[i].1), entries[i].1))
  }

  /** All that the write set has, each at its address. */
  ghost predicate ChangesOf(z: Session, changed: seq<(Key, Ref)>) {
    && (forall i | 0 <= i < |changed| ::
          changed[i].0 != UNASSIGNED && changed[i].0 in Dirty(z) && Dirty(z)[changed[i].0] == changed[i].1)
    && (forall k | k in Dirty(z) && k != UNASSIGNED :: exists i :: 0 <= i < |changed| && changed[i] == (k, Dirty(z)[k]))
  }

  /** What was marked without an address was adopted. */
  lemma RootIsListed(w0: World, w1: World, w2: World, s: nat, fringe: set<Ref>, scan: seq<(Key, Ref)>,
                     adopted: seq<Ref>)
    requires RootsWait(w0) && s < |w0.sessions| && EntriesOf(w0.sessions[s], scan)
    requires ScannedTo(w0, w1, s, fringe, scan, |scan|, adopted) && EnlistedTo(w1, w2, s, adopted, |adopted|)
    requires UNASSIGNED in Dirty(w2.sessions[s])
    ensures UNASSIGNED in Dirty(w0.sessions[s])
    ensures Dirty(w2.sessions[s])[UNASSIGNED] == Dirty(w0.sessions[s])[UNASSIGNED]
    ensures var r := Dirty(w0.sessions[s])[UNASSIGNED]; var a := LogicalOf(w2.memory, r);
      r in adopted && a != UNASSIGNED && a in Dirty(w2.sessions[s]) && Dirty(w2.sessions[s])[a] == r
  {
    assert adopted[..|adopted|] == adopted;
    ListedKeys(w1.memory, adopted);
    forall x | x in adopted ensures LogicalOf(w1.memory, x) != UNASSIGNED {
      assert AdoptedBy(w0, w1, s, x);
    }
    var r := Dirty(w0.sessions[s])[UNASSIGNED];
    var j :| 0 <= j < |scan| && scan[j] == (UNASSIGNED, r);
    assert !Unaddressed(w1, scan[j].1) && Claimed(w0, r);
    assert r in adopted;
    ListedAt(w1.memory, adopted, r, w1);
  }

  lemma EntriesComeHome(w0: World, w1: World, w2: World, s: nat, fringe: set<Ref>, scan: seq<(Key, Ref)>,
                        adopted: seq<Ref>,
                        entries: seq<(Key, Ref)>)
    requires RootsWait(w0) && s < |w0.sessions| && EntriesOf(w0.sessions[s], scan) && Held(w2, {})
    requires ScannedTo(w0, w1, s, fringe, scan, |scan|, adopted) && EnlistedTo(w1, w2, s, adopted, |adopted|)
    requires EntriesOf(w2.sessions[s], entries)
    ensures ChangesOf(w2.sessions[s], AtHome(w2.memory, entries))
  {
    var changed, dirty := AtHome(w2.memory, entries), Dirty(w2.sessions[s]);
    SetsHeld(w2, {}, s);
    forall i | 0 <= i < |changed|
      ensures changed[i].0 != UNASSIGNED && changed[i].0 in dirty && dirty[changed[i].0] == changed[i].1
      ensures entries[i].0 != UNASSIGNED ==> changed[i] == entries[i]
    {
      if entries[i].0 == UNASSIGNED {
        RootIsListed(w0, w1, w2, s, fringe, scan, adopted);
      } else {
        EntryHeld(w2, {}, s, entries[i].0);
      }
    }
    forall k | k in dirty && k != UNASSIGNED ensures exists i :: 0 <= i < |changed| && changed[i] == (k, dirty[k]) {
      var i :| 0 <= i < |entries| && entries[i] == (k, dirty[k]);
      assert changed[i] == (k, dirty[k]);
    }
  }

  // ----- The counters

  /** The session's copy of a counter takes the value that was written. */
  function CounterSet(w: World, s: nat, k: Key, n: Int32): World
    requires s < |w.sessions| && k in Cache(w.sessions[s]) && Cache(w.sessions[s])[k] in w.memory
  {
    var r := Cache(w.sessions[s])[k];
    Refreshed(w, r, w.memory[r].(storage := IntegerStorage(n)))
  }

  /** The copy is an integer with the constant shape of integers. */
  lemma CopyIsInteger(w: World, stale: Stale, s: nat, k: Key, n: Int32)
    requires Held(w, stale) && s < |w.sessions| && Store.IsCounter(k)
    requires k in Cache(w.sessions[s]) && IsIntact(w, Cache(w.sessions[s])[k])
    ensures var r := Cache(w.sessions[s])[k]; var o := w.memory[r].(storage := IntegerStorage(n));
      && w.memory[r].storage.IntegerStorage? && FitsObject(w, r, o) && ValueOf(w.memory, o) == StoreRuns.CounterValue(n)
  {
    EntryHeld(w, stale, s, k);
    CounterSorts(w, stale, k);
    var r := Cache(w.sessions[s])[k];
    assert WellFormed(w.kinds, w.memory[r], w.kinds[r]) && LinksIn(w.memory, w.memory[r]);
    assert Placed(w, w.memory[r].shape);
  }

  lemma CounterSetHolds(w: World, stale: Stale, s: nat, k: Key, n: Int32)
    requires Held(w, stale) && HasCounters(w, s) && Store.IsCounter(k)
    requires k in w.layout.disk && w.layout.disk[k] == StoreRuns.CounterValue(n)
    ensures var w' := CounterSet(w, s, k, n);
      Held(w', stale - {(s, k)}) && SameBut(w, w', s) && w' == w.(memory := w'.memory) && HasCounters(w', s)
  {
    hide Held, Contents, WellFormed, RedBlack.Valid, FitsObject;
    EntryHeld(w, stale, s, k);
    var r := Cache(w.sessions[s])[k];
    CopyIsInteger(w, stale, s, k, n);
    RefreshHolds(w, stale, s, r, w.memory[r].(storage := IntegerStorage(n)));
    assert CounterOf(w, CounterSet(w, s, k, n), s, r);
  }

  /** Both counters, in the file and in the session. */
  ghost predicate Counted(w2: World, w3: World, s: nat) {
    && w3 == w2.(memory := w3.memory, layout := w3.layout) && SameBut(w2, w3, s)
    && w3.layout == w2.layout.(disk := w3.layout.disk) && w3.layout.disk.Keys == w2.layout.disk.Keys
    && forall a | a in w2.layout.disk && !Store.IsCounter(a) :: w3.layout.disk[a] == w2.layout.disk[a]
  }

  // ----- Writing

  /** Every other session's copies of the objects at these addresses. */
  function AllOthers(sessions: nat, s: nat, keys: set<Key>): Stale {
    set z: nat, k | 0 <= z < sessions && z != s && k in keys :: (z, k)
  }

  /** The first `i` objects were written: only they changed in the file. */
  ghost predicate WrittenTo(w2: World, w: World, entries: seq<(Key, Ref)>, i: nat) {
    && w == w2.(layout := w2.layout.(disk := w.layout.disk))
    && (forall j | 0 <= j < i && j < |entries| :: Current(w, entries[j].1))
    && (forall a | a !in KeysTo(entries, i) && a in w2.layout.disk :: a in w.layout.disk && w.layout.disk[a] == w2.layout.disk[a])
    && (forall a | a in KeysTo(entries, i) :: a in w.layout.disk)
  }

  lemma HeldWeaken(w: World, stale: Stale, stale': Stale)
    requires Held(w, stale) && stale <= stale'
    ensures Held(w, stale')
  {
    forall z | 0 <= z < |w.sessions| ensures SessionSound(w, z, stale') {
      assert SessionSound(w, z, stale);
      EntriesWeaken(w, z, Cache(w.sessions[z]), Dirty(w.sessions[z]), stale, stale');
    }
  }

  lemma EntriesWeaken(w: World, s: nat, cache: Entries, dirty: Entries, stale: Stale, stale': Stale)
    requires CurrentIn(w, s, cache, dirty, stale) && stale <= stale'
    ensures CurrentIn(w, s, cache, dirty, stale')
  {
  }

  lemma ChangesAtHome(w: World, stale: Stale, s: nat, changed: seq<(Key, Ref)>)
    requires Held(w, stale) && s < |w.sessions| && ChangesOf(w.sessions[s], changed)
    ensures forall j | 0 <= j < |changed| :: LogicalOf(w.memory, changed[j].1) == changed[j].0 && changed[j].0 > Store.NEXT_LOGICAL_ADDR
    ensures forall j | 0 <= j < |changed| :: HoldsAt(w, s, changed[j].0, changed[j].1)
  {
    SetsHeld(w, stale, s);
    forall j | 0 <= j < |changed|
      ensures LogicalOf(w.memory, changed[j].1) == changed[j].0 && changed[j].0 > Store.NEXT_LOGICAL_ADDR
      ensures HoldsAt(w, s, changed[j].0, changed[j].1)
    {
      EntryHeld(w, stale, s, changed[j].0);
    }
  }

  /** What is needed to write the next object. */
  lemma WriteIsNext(w2: World, w: World, stale: Stale, s: nat, changed: seq<(Key, Ref)>, i: nat)
    requires s < |w2.sessions| && ChangesOf(w2.sessions[s], changed) && WrittenTo(w2, w, changed, i) && i < |changed|
    requires forall k | k in Dirty(w2.sessions[s]) :: Settled(w2, Dirty(w2.sessions[s])[k])
    requires Held(w, stale) && forall z: nat | z < |w.sessions| && z != s :: (z, changed[i].0) in stale
    ensures var (k, r) := changed[i];
      && k in w.layout.extents && r in w.memory && w.memory[r].logical == k && w.memory[r].storage.Writable()
      && w.memory[r].physical == w.layout.extents[k].base && k > Store.NEXT_LOGICAL_ADDR
      && Footprint(ValueOf(w.memory, w.memory[r])) <= w.layout.extents[k].size && Encodable(ValueOf(w.memory, w.memory[r]))
      && Held(Written(w, k, ValueOf(w.memory, w.memory[r])), stale) && Current(Written(w, k, ValueOf(w.memory, w.memory[r])), r)
  {
    hide Held, Contents, Current, Written;
    var (k, r) := changed[i];
    assert k in Dirty(w2.sessions[s]) && Dirty(w2.sessions[s])[k] == r;
    SettledAnyway(w2, w, s, r);
    SetsHeld(w, stale, s);
    WriteHolds(w, stale, s, k);
    assert Outdated(stale, |w.sessions|, s, k) == stale;
  }

  lemma CurrentAfterWrite(w: World, k: nat, v: Value, x: Ref)
    requires Current(w, x) && w.memory[x].logical != k
    ensures Current(Written(w, k, v), x)
  {
  }

  lemma OneKeyMore(entries: seq<(Key, Ref)>, i: nat)
    requires i < |entries|
    ensures KeysTo(entries, i + 1) == KeysTo(entries, i) + {entries[i].0}
  {
  }

  lemma DiskGoesOn(disk2: map<nat, Value>, disk: map<nat, Value>, entries: seq<(Key, Ref)>, i: nat, v: Value)
    requires i < |entries|
    requires forall a | a !in KeysTo(entries, i) && a in disk2 :: a in disk && disk[a] == disk2[a]
    requires forall a | a in KeysTo(entries, i) :: a in disk
    ensures var disk' := disk[entries[i].0 := v];
      && (forall a | a !in KeysTo(entries, i + 1) && a in disk2 :: a in disk' && disk'[a] == disk2[a])
      && (forall a | a in KeysTo(entries, i + 1) :: a in disk')
  {
    OneKeyMore(entries, i);
  }

  lemma WriteGoesOn(w2: World, w: World, entries: seq<(Key, Ref)>, i: nat, v: Value)
    requires WrittenTo(w2, w, entries, i) && i < |entries|
    requires Current(Written(w, entries[i].0, v), entries[i].1)
    requires forall j | 0 <= j < |entries| :: LogicalOf(w2.memory, entries[j].1) == entries[j].0
    requires forall j, k | 0 <= j < |entries| && 0 <= k < |entries| && entries[j].0 == entries[k].0 :: entries[j].1 == entries[k].1
    ensures WrittenTo(w2, Written(w, entries[i].0, v), entries, i + 1)
  {
    hide Contents;
    var w', k := Written(w, entries[i].0, v), entries[i].0;
    forall j | 0 <= j < i ensures Current(w', entries[j].1) {
      assert Current(w, entries[j].1) && LogicalOf(w2.memory, entries[j].1) == entries[j].0;
      if entries[j].0 != k {
        CurrentAfterWrite(w, k, v, entries[j].1);
      }
    }
    DiskGoesOn(w2.layout.disk, w.layout.disk, entries, i, v);
  }

  /** Every address has its object stored: the old ones had, and the new ones are those of what was adopted. */
  lemma AllAreStored(w0: World, w1: World, w2: World, w: World, s: nat, fringe: set<Ref>, adopted: seq<Ref>,
                     changed: seq<(Key, Ref)>)
    requires AllStored(w0) && Walked(w0, w1, s, fringe, adopted) && EnlistedTo(w1, w2, s, adopted, |adopted|)
    requires ChangesOf(w2.sessions[s], changed) && w.sorts == w2.sorts
    requires forall a | a in w0.layout.disk :: a in w.layout.disk
    requires forall a | a in KeysTo(changed, |changed|) :: a in w.layout.disk
    ensures AllStored(w)
  {
    assert adopted[..|adopted|] == adopted;
    ListedKeys(w1.memory, adopted);
    forall a | a in w.sorts && a !in w0.sorts ensures a in w.layout.disk {
      assert a in Homes(w1.memory, adopted);
      var x :| x in adopted && LogicalOf(w1.memory, x) == a;
      assert AdoptedBy(w0, w1, s, x);
      assert a in Dirty(w2.sessions[s]);
      var j :| 0 <= j < |changed| && changed[j] == (a, Dirty(w2.sessions[s])[a]);
      assert a in KeysTo(changed, |changed|);
    }
  }

  // ----- Notifying the other sessions

  /** The committed objects are held by their session, and the first `z` sessions are up to date with them. */
  ghost predicate NotifiedTo(w5: World, w: World, s: nat, changed: seq<(Key, Ref)>, addresses: seq<Key>, z: nat) {
    && s < |w.sessions| && w.sessions[s].writeSet == None && CommittedIn(w, s, changed)
    && forall y | 0 <= y < z && y < |w.sessions| && y != s ::
         UpToDateTo(w, y, addresses, |addresses|) && StubsGoneTo(w5, w, y, addresses, |addresses|)
  }

  /** The session has each object at its address, as the file has it. */
  ghost predicate CommittedIn(w: World, s: nat, changed: seq<(Key, Ref)>) {
    forall j | 0 <= j < |changed| :: HoldsAt(w, s, changed[j].0, changed[j].1) && Current(w, changed[j].1)
  }

  ghost predicate StaleFrom(stale: Stale, sessions: nat, s: nat, addresses: seq<Key>, z: nat) {
    forall p | p in stale :: z <= p.0 < sessions && p.0 != s && p.1 in addresses
  }

  lemma NotifyBegins(w3: World, w: World, stale: Stale, s: nat, changed: seq<(Key, Ref)>, addresses: seq<Key>)
    requires s < |w3.sessions| && ChangesOf(w3.sessions[s], changed) && WrittenTo(w3, w, changed, |changed|)
    requires Held(w, stale) && AllStored(w) && StaleFrom(stale, |w.sessions|, s, addresses, 0)
    ensures s < |w.sessions|
    ensures var w' := WithSession(w, s, w.sessions[s].(writeSet := None));
      && w' == w.(sessions := w.sessions[s := w.sessions[s].(writeSet := None)])
      && Held(w', stale) && AllStored(w') && NotifiedTo(w', w', s, changed, addresses, 0)
  {
    var w' := WithSession(w, s, w.sessions[s].(writeSet := None));
    ChangesAtHome(w, stale, s, changed);
    forall k | k in Dirty(w.sessions[s]) && k != UNASSIGNED ensures Current(w, Dirty(w.sessions[s])[k]) {
      var j :| 0 <= j < |changed| && changed[j] == (k, Dirty(w3.sessions[s])[k]);
      assert Current(w, changed[j].1);
    }
    DropHolds(w, stale, s);
    forall j | 0 <= j < |changed| ensures HoldsAt(w', s, changed[j].0, changed[j].1) && Current(w', changed[j].1) {
      assert HoldsAt(w, s, changed[j].0, changed[j].1) && Current(w, changed[j].1);
    }
  }

  lemma UpToDateElsewhere(w: World, stale: Stale, w': World, stale': Stale, z: nat, renewed: set<Ref>, y: nat, k: Key)
    requires Held(w, stale) && Held(w', stale') && Renews(w, w', z, renewed) && y != z && UpToDate(w, y, k)
    ensures UpToDate(w', y, k)
  {
    if k in Cache(w'.sessions[y]) {
      SetsHeld(w, stale, y);
      var x := Cache(w.sessions[y])[k];
      assert IsEntry(w, y, k, x) && SameObject(w, w', x);
      if IsIntact(w, x) {
        RenewsCurrent(w, stale, w', z, renewed, x);
      } else if Current(w', x) {
        CurrentIsIntact(w', stale', y, k);
      }
    }
  }

  lemma StubGoneElsewhere(w5: World, w: World, stale: Stale, w': World, z: nat, renewed: set<Ref>, y: nat, k: Key)
    requires Held(w, stale) && Renews(w, w', z, renewed) && y != z && StubGone(w5, w, y, k)
    ensures StubGone(w5, w', y, k)
  {
    if k in Cache(w'.sessions[y]) {
      SetsHeld(w, stale, y);
      assert IsEntry(w, y, k, Cache(w.sessions[y])[k]) && SameObject(w, w', Cache(w.sessions[y])[k]);
    }
  }

  lemma HeldElsewhere(w: World, stale: Stale, w': World, s: nat, z: nat, renewed: set<Ref>, changed: seq<(Key, Ref)>)
    requires Held(w, stale) && Renews(w, w', z, renewed) && z != s && CommittedIn(w, s, changed)
    ensures CommittedIn(w', s, changed)
  {
    forall j | 0 <= j < |changed| ensures HoldsAt(w', s, changed[j].0, changed[j].1) && Current(w', changed[j].1) {
      assert HoldsAt(w, s, changed[j].0, changed[j].1) && Current(w, changed[j].1);
      EntryHeld(w, stale, s, changed[j].0);
      HoldsStill(w, stale, w', z, renewed, s, changed[j].0, changed[j].1);
      RenewsCurrent(w, stale, w', z, renewed, changed[j].1);
    }
  }

  lemma NotifyGoesOn(w5: World, w: World, stale: Stale, w': World, stale': Stale, s: nat, changed: seq<(Key, Ref)>,
                     addresses: seq<Key>, z: nat, renewed: set<Ref>)
    requires Held(w, stale) && Held(w', stale') && NotifiedTo(w5, w, s, changed, addresses, z)
    requires Renews(w, w', z, renewed) && z != s
    requires UpToDateTo(w', z, addresses, |addresses|) && StubsGoneTo(w5, w', z, addresses, |addresses|)
    ensures NotifiedTo(w5, w', s, changed, addresses, z + 1)
  {
    hide Held, UpToDate, StubGone, CommittedIn;
    HeldElsewhere(w, stale, w', s, z, renewed, changed);
    forall y | 0 <= y < z + 1 && y < |w'.sessions| && y != s
      ensures UpToDateTo(w', y, addresses, |addresses|) && StubsGoneTo(w5, w', y, addresses, |addresses|)
    {
      if y != z {
        assert UpToDateTo(w, y, addresses, |addresses|) && StubsGoneTo(w5, w, y, addresses, |addresses|);
        forall j | 0 <= j < |addresses| ensures UpToDate(w', y, addresses[j]) && StubGone(w5, w', y, addresses[j]) {
          UpToDateElsewhere(w, stale, w', stale', z, renewed, y, addresses[j]);
          StubGoneElsewhere(w5, w, stale, w', z, renewed, y, addresses[j]);
        }
      }
    }
  }

  /** Nothing about the session's read set has changed before its turn. */
  lemma StubsGoneSince(w5: World, w: World, w': World, s: nat, addresses: seq<Key>)
    requires s < |w5.sessions| == |w.sessions| && w.sessions[s].readSet == w5.sessions[s].readSet
    requires StubsGoneTo(w, w', s, addresses, |addresses|)
    ensures StubsGoneTo(w5, w', s, addresses, |addresses|)
  {
    forall j | 0 <= j < |addresses| ensures StubGone(w5, w', s, addresses[j]) {
      assert StubGone(w, w', s, addresses[j]);
    }
  }

  lemma StaleShrinks(stale: Stale, sessions: nat, s: nat, addresses: seq<Key>, z: nat)
    requires StaleFrom(stale, sessions, s, addresses, z)
    ensures StaleFrom(stale - Pairs(z, addresses), sessions, s, addresses, z + 1)
    ensures z == s ==> StaleFrom(stale, sessions, s, addresses, z + 1)
    ensures z >= sessions ==> stale == {}
  {
    forall p | p in stale && p.0 == z ensures p in Pairs(z, addresses) {
      var j :| 0 <= j < |addresses| && addresses[j] == p.1;
      assert p == (z, addresses[j]);
    }
  }

  lemma NotifiedSession(w5: World, w: World, s: nat, changed: seq<(Key, Ref)>, addresses: seq<Key>)
    requires NotifiedTo(w5, w, s, changed, addresses, 0)
    ensures s < |w.sessions|
  {
  }

  lemma NotifySkips(w5: World, w: World, s: nat, changed: seq<(Key, Ref)>, addresses: seq<Key>)
    requires NotifiedTo(w5, w, s, changed, addresses, s)
    ensures NotifiedTo(w5, w, s, changed, addresses, s + 1)
  {
  }

  // ----- The whole commit

  lemma ScannedWalked(w0: World, w: World, s: nat, fringe: set<Ref>, scan: seq<(Key, Ref)>, adopted: seq<Ref>)
    requires ScannedTo(w0, w, s, fringe, scan, |scan|, adopted)
    ensures Walked(w0, w, s, fringe, adopted) && w.sessions == w0.sessions && w.layout.disk == w0.layout.disk
    ensures w.memory.Keys == w0.memory.Keys && w.kinds == w0.kinds
  {
  }

  lemma EnlistedSame(w1: World, w2: World, s: nat, adopted: seq<Ref>)
    requires EnlistedTo(w1, w2, s, adopted, |adopted|)
    ensures w2.layout == w1.layout && w2.memory == w1.memory && w2.kinds == w1.kinds && w2.sorts == w1.sorts
    ensures s < |w2.sessions| && w2.sessions[s].writeSet.Some? && w2.corrected == w1.corrected
    ensures forall z | 0 <= z < |w1.sessions| && z != s :: w2.sessions[z] == w1.sessions[z]
  {
  }

  /** Every session's copies of both counters. */
  function AllCopies(sessions: nat): Stale {
    set z: nat, k | z < sessions && k in COUNTERS :: (z, k)
  }

  /** The file with the counters as they are now. */
  function CountersWritten(w: World, p: Int32, l: Int32): World {
    Written(Written(w, Store.NEXT_PHYSICAL_ADDR, StoreRuns.CounterValue(p)), Store.NEXT_LOGICAL_ADDR, StoreRuns.CounterValue(l))
  }

  lemma CountersInFile(w: World, p: Int32, l: Int32)
    requires Held(w, {})
    ensures Held(CountersWritten(w, p, l), AllCopies(|w.sessions|))
  {
    hide Held;
    var wp := Written(w, Store.NEXT_PHYSICAL_ADDR, StoreRuns.CounterValue(p));
    CounterTyped(w, {}, Store.NEXT_PHYSICAL_ADDR, p);
    CounterHolds(w, {}, Store.NEXT_PHYSICAL_ADDR, StoreRuns.CounterValue(p));
    var stale := {} + set z: nat | z < |w.sessions| :: (z, Store.NEXT_PHYSICAL_ADDR);
    CounterTyped(wp, stale, Store.NEXT_LOGICAL_ADDR, l);
    CounterHolds(wp, stale, Store.NEXT_LOGICAL_ADDR, StoreRuns.CounterValue(l));
    assert AllCopies(|w.sessions|) == stale + set z: nat | z < |wp.sessions| :: (z, Store.NEXT_LOGICAL_ADDR);
  }

  lemma CounterTyped(w: World, stale: Stale, k: Key, n: Int32)
    requires Held(w, stale) && Store.IsCounter(k)
    ensures k in w.sorts && WellTyped(StoreRuns.CounterValue(n), w.sorts[k], w.sorts)
  {
    CounterSorts(w, stale, k);
    assert References(StoreRuns.CounterValue(n)) == [];
  }

  /** The session's copy was set. */
  ghost predicate SetIn(w: World, w': World, s: nat, k: Key, n: Int32) {
    HasCounters(w, s) && Store.IsCounter(k) && w' == CounterSet(w, s, k, n)
  }

  lemma SetInHolds(w: World, stale: Stale, w': World, s: nat, k: Key, n: Int32)
    requires Held(w, stale) && SetIn(w, w', s, k, n) && k in w.layout.disk && w.layout.disk[k] == StoreRuns.CounterValue(n)
    ensures Held(w', stale - {(s, k)}) && SameBut(w, w', s) && w' == w.(memory := w'.memory) && HasCounters(w', s)
  {
    CounterSetHolds(w, stale, s, k, n);
  }

  /** The counters as the file has them. */
  ghost predicate CountersAre(disk: map<nat, Value>, nextPhysical: nat, nextLogical: nat) {
    && nextPhysical < 0x8000_0000 && nextLogical < 0x8000_0000
    && Store.NEXT_PHYSICAL_ADDR in disk && disk[Store.NEXT_PHYSICAL_ADDR] == StoreRuns.CounterValue(nextPhysical)
    && Store.NEXT_LOGICAL_ADDR in disk && disk[Store.NEXT_LOGICAL_ADDR] == StoreRuns.CounterValue(nextLogical)
  }

  /** The counters written and set in the session. */
  lemma CountersHold(w2: World, wl: World, w': World, w3: World, s: nat, p: Int32, l: Int32)
    requires Held(w2, {}) && wl == CountersWritten(w2, p, l) && p >= 0 && l >= 0
    requires Store.NEXT_PHYSICAL_ADDR in w2.layout.disk && Store.NEXT_LOGICAL_ADDR in w2.layout.disk
    requires SetIn(wl, w', s, Store.NEXT_PHYSICAL_ADDR, p) && SetIn(w', w3, s, Store.NEXT_LOGICAL_ADDR, l)
    ensures Held(w3, AllOthers(|w3.sessions|, s, COUNTERS)) && Counted(w2, w3, s)
    ensures CountersAre(w3.layout.disk, p, l) && HasCounters(w3, s)
  {
    hide Held, SetIn, SameBut, HasCounters;
    var stale := AllCopies(|wl.sessions|);
    CountersInFile(w2, p, l);
    SetInHolds(wl, stale, w', s, Store.NEXT_PHYSICAL_ADDR, p);
    SetInHolds(w', stale - {(s, Store.NEXT_PHYSICAL_ADDR)}, w3, s, Store.NEXT_LOGICAL_ADDR, l);
    SameButThen(wl, w', w3, s);
    SameButFile(w2, wl, w3, s);
    HeldWeaken(w3, stale - {(s, Store.NEXT_PHYSICAL_ADDR)} - {(s, Store.NEXT_LOGICAL_ADDR)},
               AllOthers(|w3.sessions|, s, COUNTERS));
    assert w3.layout.disk.Keys == w2.layout.disk.Keys;
  }

  lemma SameButFile(w: World, w1: World, w2: World, s: nat)
    requires SameBut(w1, w2, s) && w1.memory == w.memory && w1.kinds == w.kinds
    ensures SameBut(w, w2, s)
  {
    forall x | x in w.memory ensures w2.memory[x] == w.memory[x] || CounterOf(w, w2, s, x) {
      assert w2.memory[x] == w1.memory[x] || CounterOf(w1, w2, s, x);
    }
  }

  /** The session has its copies of the counters still when objects were adopted and entered. */
  lemma HasCountersStill(w0: World, w1: World, w2: World, s: nat, fringe: set<Ref>, adopted: seq<Ref>)
    requires Held(w0, {}) && HasCounters(w0, s) && Walked(w0, w1, s, fringe, adopted)
    requires EnlistedTo(w1, w2, s, adopted, |adopted|)
    ensures HasCounters(w2, s)
  {
    hide RedBlack.Valid, Contents, Listed, Typed, ConstantsReady, AllPlaced, AllFormed, Linked;
    assert adopted[..|adopted|] == adopted;
    ListedKeys(w1.memory, adopted);
    forall k | Store.IsCounter(k) ensures k in Cache(w2.sessions[s]) && IsIntact(w2, Cache(w2.sessions[s])[k]) {
      var listed := Listed(w1.memory, adopted);
      if k in listed {
        AdoptedAddress(w0, w1, s, listed[k]);
      } else {
        EntryHeld(w0, {}, s, k);
        var x := Cache(w0.sessions[s])[k];
        assert x in adopted ==> AdoptedBy(w0, w1, s, x);
      }
    }
  }

  lemma SameButThen(w: World, w1: World, w2: World, s: nat)
    requires SameBut(w, w1, s) && SameBut(w1, w2, s)
    ensures SameBut(w, w2, s)
  {
    forall x | x in w.memory ensures w2.memory[x] == w.memory[x] || CounterOf(w, w2, s, x) {
      assert w1.memory[x] == w.memory[x] || CounterOf(w, w1, s, x);
      assert w2.memory[x] == w1.memory[x] || CounterOf(w1, w2, s, x);
    }
  }

  /** Writing after the counters: every changed object is settled, and the file only gains. */
  lemma WritingStarts(w0: World, w1: World, w2: World, w3: World, s: nat, fringe: set<Ref>, scan: seq<(Key, Ref)>,
                      adopted: seq<Ref>, entries: seq<(Key, Ref)>)
    requires RootsWait(w0) && s < |w0.sessions| && EntriesOf(w0.sessions[s], scan)
    requires ScannedTo(w0, w1, s, fringe, scan, |scan|, adopted) && AllSettled(w1, ObjectsOf(scan) + adopted)
    requires EnlistedTo(w1, w2, s, adopted, |adopted|) && Held(w2, {}) && Counted(w2, w3, s)
    requires s < |w3.sessions| && w3.sessions[s].writeSet.Some? && entries == InOrder(w3.sessions[s].writeSet.value)
    ensures ChangesOf(w3.sessions[s], AtHome(w3.memory, entries))
    ensures forall k | k in Dirty(w3.sessions[s]) :: Settled(w3, Dirty(w3.sessions[s])[k])
  {
    hide Held, ScannedTo, EnlistedTo, AllSettled, Settled, Contents;
    ScannedWalked(w0, w1, s, fringe, scan, adopted);
    SetsHeld(w2, {}, s);
    TraversalIsEntries(w2.sessions[s], entries);
    EntriesComeHome(w0, w1, w2, s, fringe, scan, adopted, entries);
    AllAreSettled(w0, w1, w2, s, fringe, scan, adopted);
    HomesStay(w2, w3, s, entries);
    forall k | k in Dirty(w3.sessions[s]) ensures Settled(w3, Dirty(w3.sessions[s])[k]) {
      SettledAnyway(w2, w3, s, Dirty(w2.sessions[s])[k]);
    }
  }

  lemma HomesStay(w2: World, w3: World, s: nat, entries: seq<(Key, Ref)>)
    requires SameBut(w2, w3, s)
    ensures AtHome(w3.memory, entries) == AtHome(w2.memory, entries)
  {
    forall i | 0 <= i < |entries| ensures AtHome(w3.memory, entries)[i] == AtHome(w2.memory, entries)[i] {
    }
  }

  /** Which copies may be out of date while the objects are written. */
  lemma StaleWhileWriting(w3: World, s: nat, changed: seq<(Key, Ref)>, adopted: seq<Ref>, addresses: seq<Key>)
    requires Held(w3, AllOthers(|w3.sessions|, s, CounterKeys(adopted)))
    requires forall k | k in addresses :: k in ChangedKeys(changed, adopted)
    requires forall k | k in ChangedKeys(changed, adopted) :: k in addresses
    ensures var stale := AllOthers(|w3.sessions|, s, ChangedKeys(changed, adopted));
      && Held(w3, stale) && StaleFrom(stale, |w3.sessions|, s, addresses, 0)
      && forall j, z: nat | 0 <= j < |changed| && z < |w3.sessions| && z != s :: (z, changed[j].0) in stale
  {
    HeldWeaken(w3, AllOthers(|w3.sessions|, s, CounterKeys(adopted)),
               AllOthers(|w3.sessions|, s, ChangedKeys(changed, adopted)));
    forall j | 0 <= j < |changed| ensures changed[j].0 in ChangedKeys(changed, adopted) {
    }
  }

  /** Written, the objects of the transaction are all the file was lacking. */
  lemma WritingEnds(w0: World, w1: World, w2: World, w3: World, w4: World, s: nat, fringe: set<Ref>, adopted: seq<Ref>,
                    changed: seq<(Key, Ref)>, addresses: seq<Key>, stale: Stale)
    requires AllStored(w0) && Walked(w0, w1, s, fringe, adopted) && EnlistedTo(w1, w2, s, adopted, |adopted|)
    requires Counted(w2, w3, s) && Held(w3, stale) && ChangesOf(w3.sessions[s], changed) && s < |w3.sessions|
    requires WrittenTo(w3, w4, changed, |changed|) && Held(w4, stale)
    requires StaleFrom(stale, |w3.sessions|, s, addresses, 0)
    ensures s < |w4.sessions|
    ensures var w5 := w4.(sessions := w4.sessions[s := w4.sessions[s].(writeSet := None)]);
      && Held(w5, stale) && AllStored(w5) && NotifiedTo(w5, w5, s, changed, addresses, 0)
    ensures forall a | a in KeysTo(changed, |changed|) :: a > Store.NEXT_LOGICAL_ADDR
    ensures w4.memory == w3.memory && w4.sessions == w3.sessions
  {
    forall a | a in w0.layout.disk ensures a in w4.layout.disk {
      assert a in w3.layout.disk;
      assert a in KeysTo(changed, |changed|) || a in w4.layout.disk;
    }
    AllAreStored(w0, w1, w2, w4, s, fringe, adopted, changed);
    NotifyBegins(w3, w4, stale, s, changed, addresses);
    ChangesAtHome(w3, stale, s, changed);
  }

  /** An object of the session, or of none. */
  predicate IsMine(w: World, s: nat, x: Ref) {
    x in w.memory && (w.memory[x].session == None || w.memory[x].session == Some(s))
  }

  /** The session's objects are what they were, but for its copies of the counters; those adopted have got their
      session and addresses. */
  ghost predicate OwnKept(w0: World, w: World, s: nat, adopted: seq<Ref>) {
    forall x {:trigger IsMine(w0, s, x)} | IsMine(w0, s, x) ::
      && x in w.memory && w.memory[x].shape == w0.memory[x].shape
      && (w.memory[x].storage == w0.memory[x].storage || CounterOf(w0, w, s, x))
      && if x in adopted then w.memory[x].session == Some(s)
         else w.memory[x] == w0.memory[x] || CounterOf(w0, w, s, x)
  }

  ghost predicate OthersKept(w0: World, w: World, s: nat) {
    && w.memory.Keys == w0.memory.Keys && w.kinds == w0.kinds
    && forall x {:trigger IsMine(w0, s, x)} | x in w0.memory && !IsMine(w0, s, x) :: x in w.memory && w.memory[x] == w0.memory[x]
  }

  /** The read set has what it had, and of the change set what it had not. */
  ghost predicate CacheGrown(cache0: Entries, cache: Entries, changed: seq<(Key, Ref)>) {
    && (forall k | k in cache0 :: k in cache && cache[k] == cache0[k])
    && (forall k | k in cache && k !in cache0 :: (k, cache[k]) in changed)
  }

  /** The object was marked without an address. */
  ghost predicate IsRoot(w: World, s: nat, x: Ref) {
    s < |w.sessions| && UNASSIGNED in Dirty(w.sessions[s]) && Dirty(w.sessions[s])[UNASSIGNED] == x
  }

  /** The change set is what the transaction had changed and what was adopted, nothing else; the session's objects
      and the rest of the file are as they were, but for the allocator's counters. */
  ghost predicate Persisted(w0: World, w: World, s: nat, fringe: set<Ref>, changed: seq<(Key, Ref)>,
                            adopted: seq<Ref>) {
    && s < |w0.sessions| == |w.sessions|
    && (forall k | k in Dirty(w0.sessions[s]) ::
          exists a :: (a, Dirty(w0.sessions[s])[k]) in changed && (k != UNASSIGNED ==> a == k))
    && (forall x | x in adopted ::
          x in fringe && Unaddressed(w0, x) && (IsRoot(w0, s, x) || Transient(w0, x)) && exists k :: (k, x) in changed)
    && (forall c | c in changed :: c.1 in adopted || (c.0 in Dirty(w0.sessions[s]) && Dirty(w0.sessions[s])[c.0] == c.1))
    && (forall c | c in changed :: c.0 > Store.NEXT_LOGICAL_ADDR)
    && (forall i, j | 0 <= i < j < |adopted| :: adopted[i] != adopted[j])
    && OwnKept(w0, w, s, adopted) && CacheGrown(Cache(w0.sessions[s]), Cache(w.sessions[s]), changed)
    && (forall a | a in w0.layout.disk && a !in ChangedKeys(changed, adopted) ::
          a in w.layout.disk && w.layout.disk[a] == w0.layout.disk[a])
  }

  /** Objects keep their sorts. */
  ghost predicate KindsKept(w: World, w': World) {
    forall x | x in w.kinds :: x in w'.kinds && w'.kinds[x] == w.kinds[x]
  }

  /** What telling the other sessions leaves alone. */
  ghost predicate Told(w5: World, w: World, s: nat) {
    && s < |w5.sessions| == |w.sessions| && w.sessions[s] == w5.sessions[s] && w.layout == w5.layout && w.sorts == w5.sorts
    && w.corrected == w5.corrected && KindsKept(w5, w)
    && (forall x {:trigger IsMine(w5, s, x)} | IsMine(w5, s, x) :: x in w.memory && w.memory[x] == w5.memory[x])
    && (forall x {:trigger SameObject(w5, w, x)} | x in w5.memory :: SameObject(w5, w, x))
    && (forall z | 0 <= z < |w5.sessions| ::
          && w.sessions[z].writeSet == w5.sessions[z].writeSet
          && Kept(w5, Cache(w5.sessions[z]), Cache(w.sessions[z])))
  }

  /** What one of the first `n` sessions but `s` has at one of the addresses. */
  ghost predicate ToldOf(w: World, s: nat, keys: set<Key>, n: nat, x: Ref) {
    && x in w.memory && w.memory[x].session.Some? && w.memory[x].session.value < n && w.memory[x].session.value != s
    && IsNoticed(w, w.memory[x].session.value, keys, x)
  }

  /** All other objects are as they were. */
  ghost predicate Spared(w5: World, w: World, s: nat, keys: set<Key>, n: nat) {
    forall x {:trigger ToldOf(w5, s, keys, n, x)} | x in w5.memory && !ToldOf(w5, s, keys, n, x) ::
      x in w.memory && w.memory[x] == w5.memory[x]
  }

  /** The first `n` sessions but `s` did their refreshes in this order, each as deep as reading goes. */
  ghost predicate ToldTo(w5: World, w: World, s: nat, addresses: seq<Key>, depth: int, n: nat) {
    forall y | 0 <= y < n && y != s ::
      TurnsSeen(w5, w, y, addresses, depth) && DeepTo(w5, w, y, addresses, |addresses|, depth)
  }

  lemma NoneTold(w: World, s: nat, addresses: seq<Key>, depth: int)
    ensures Spared(w, w, s, AddressSet(addresses), 0) && ToldTo(w, w, s, addresses, depth, 0)
  {
  }

  lemma SelfTold(w5: World, w: World, s: nat, addresses: seq<Key>, depth: int)
    requires Spared(w5, w, s, AddressSet(addresses), s) && ToldTo(w5, w, s, addresses, depth, s)
    ensures Spared(w5, w, s, AddressSet(addresses), s + 1) && ToldTo(w5, w, s, addresses, depth, s + 1)
  {
    hide IsNoticed, AddressSet;
    forall x | x in w5.memory && !ToldOf(w5, s, AddressSet(addresses), s + 1, x)
      ensures x in w.memory && w.memory[x] == w5.memory[x]
    {
      assert !ToldOf(w5, s, AddressSet(addresses), s, x);
    }
  }

  lemma SparedMore(w5: World, w: World, w': World, s: nat, z: nat, keys: set<Key>, renewed: set<Ref>)
    requires Spared(w5, w, s, keys, z) && Renews(w, w', z, renewed) && OnlyNoticed(w, z, keys, renewed) && z != s
    requires z < |w5.sessions| && w.sessions[z] == w5.sessions[z]
    ensures Spared(w5, w', s, keys, z + 1)
  {
    hide Contents, Kept;
    forall x | x in w5.memory && !ToldOf(w5, s, keys, z + 1, x) ensures x in w'.memory && w'.memory[x] == w5.memory[x] {
      assert !ToldOf(w5, s, keys, z, x);
      assert SameObject(w, w', x);
    }
  }

  /** A session whose turn has not come sees what it saw. */
  lemma UntoldSeen(w5: World, stale: Stale, w: World, s: nat, keys: set<Key>, z: nat)
    requires Held(w5, stale) && Spared(w5, w, s, keys, z) && z < |w5.sessions| && z < |w.sessions|
    requires w.sessions[z] == w5.sessions[z]
    ensures Seen(w, z, {}) == Seen(w5, z, {})
    ensures forall k | k in Cache(w5.sessions[z]) :: IsIntact(w, Cache(w5.sessions[z])[k]) == IsIntact(w5, Cache(w5.sessions[z])[k])
  {
    hide Held, Contents, RedBlack.Valid, IsNoticed;
    SetsHeld(w5, stale, z);
    var c := Cache(w5.sessions[z]);
    forall k | k in c
      ensures IsStub(w, c[k]) == IsStub(w5, c[k]) && IsMisread(w, c[k]) == IsMisread(w5, c[k])
      ensures IsIntact(w, c[k]) == IsIntact(w5, c[k])
    {
      assert IsEntry(w5, z, k, c[k]) && !ToldOf(w5, s, keys, z, c[k]);
    }
    SeenStays(w5, w, z, {});
  }

  /** A session that was told sees what it saw, and its objects are as deep, while another is told. */
  lemma ToldStays(w5: World, stale5: Stale, w: World, stale: Stale, w': World, s: nat, z: nat, y: nat,
                  addresses: seq<Key>, depth: int, renewed: set<Ref>)
    requires Held(w5, stale5) && Held(w, stale) && Told(w5, w, s) && Renews(w, w', z, renewed) && y != z && y < |w.sessions|
    requires TurnsSeen(w5, w, y, addresses, depth) && DeepTo(w5, w, y, addresses, |addresses|, depth)
    ensures TurnsSeen(w5, w', y, addresses, depth) && DeepTo(w5, w', y, addresses, |addresses|, depth)
  {
    hide Held, Contents, RedBlack.Valid, IsDeep, Turns, Kept, KindsKept, IsMine, Seen;
    SetsHeld(w, stale, y);
    var c := Cache(w.sessions[y]);
    forall k | k in c
      ensures IsStub(w', c[k]) == IsStub(w, c[k]) && IsMisread(w', c[k]) == IsMisread(w, c[k])
      ensures IsIntact(w', c[k]) == IsIntact(w, c[k])
    {
      assert IsEntry(w, y, k, c[k]) && SameObject(w, w', c[k]);
    }
    SeenStays(w, w', y, {});
    SetsHeld(w5, stale5, y);
    var c5 := Cache(w5.sessions[y]);
    forall j | 0 <= j < |addresses| ensures TurnDeep(w5, w', y, addresses[j], depth) {
      var k := addresses[j];
      assert TurnDeep(w5, w, y, k, depth);
      if k in c5 && IsIntact(w5, c5[k]) {
        assert IsEntry(w5, y, k, c5[k]) && SameObject(w5, w, c5[k]);
        DeepStays(w, stale, w', z, renewed, c5[k], depth - 1);
      }
    }
  }

  lemma ToldSeenMore(w5: World, stale5: Stale, w: World, stale: Stale, w': World, s: nat, z: nat, addresses: seq<Key>,
                     depth: int, renewed: set<Ref>)
    requires Held(w5, stale5) && Held(w, stale) && Told(w5, w, s) && Renews(w, w', z, renewed) && z != s
    requires Spared(w5, w, s, AddressSet(addresses), z) && ToldTo(w5, w, s, addresses, depth, z)
    requires z < |w5.sessions| && w.sessions[z] == w5.sessions[z]
    requires TurnsSeen(w, w', z, addresses, depth) && DeepTo(w, w', z, addresses, |addresses|, depth)
    ensures ToldTo(w5, w', s, addresses, depth, z + 1)
  {
    hide Held, Contents, Renews, Spared, IsDeep, Turns, Seen, AddressSet;
    RenewsSession(w, w', z, renewed);
    UntoldSeen(w5, stale5, w, s, AddressSet(addresses), z);
    forall y | 0 <= y < z + 1 && y != s
      ensures TurnsSeen(w5, w', y, addresses, depth) && DeepTo(w5, w', y, addresses, |addresses|, depth)
    {
      if y == z {
        forall j | 0 <= j < |addresses| ensures TurnDeep(w5, w', y, addresses[j], depth) {
          assert TurnDeep(w, w', y, addresses[j], depth);
        }
      } else {
        ToldStays(w5, stale5, w, stale, w', s, z, y, addresses, depth, renewed);
      }
    }
  }

  // ----- The order of the notice

  /** The address that an object has got which was marked without one. */
  ghost function RootHome(w0: World, w: World, s: nat): seq<Key>
    requires s < |w0.sessions|
  {
    var dirty := Dirty(w0.sessions[s]);
    if UNASSIGNED in dirty then [LogicalOf(w.memory, dirty[UNASSIGNED])] else []
  }

  lemma EntriesAtHome(w: World, stale: Stale, s: nat, entries: seq<(Key, Ref)>)
    requires Held(w, stale) && s < |w.sessions| && EntriesOf(w.sessions[s], entries)
    ensures forall i | 0 <= i < |entries| && entries[i].0 != UNASSIGNED :: AtHome(w.memory, entries)[i] == entries[i]
  {
    hide Held, Contents;
    SetsHeld(w, stale, s);
    forall i | 0 <= i < |entries| && entries[i].0 != UNASSIGNED ensures AtHome(w.memory, entries)[i] == entries[i] {
      EntryHeld(w, stale, s, entries[i].0);
    }
  }

  /** The write set leads to the object that was marked without an address as long as the commit goes on. */
  lemma RootIsFirst(w0: World, w1: World, w2: World, s: nat, fringe: set<Ref>, scan: seq<(Key, Ref)>, adopted: seq<Ref>)
    requires RootsWait(w0) && s < |w0.sessions| && EntriesOf(w0.sessions[s], scan)
    requires ScannedTo(w0, w1, s, fringe, scan, |scan|, adopted) && EnlistedTo(w1, w2, s, adopted, |adopted|)
    ensures UNASSIGNED in Dirty(w2.sessions[s]) <==> UNASSIGNED in Dirty(w0.sessions[s])
    ensures UNASSIGNED in Dirty(w0.sessions[s]) ==> Dirty(w2.sessions[s])[UNASSIGNED] == Dirty(w0.sessions[s])[UNASSIGNED]
  {
    hide Contents, Walked;
    ScannedWalked(w0, w1, s, fringe, scan, adopted);
    assert adopted[..|adopted|] == adopted;
    if UNASSIGNED in Dirty(w2.sessions[s]) {
      RootIsListed(w0, w1, w2, s, fringe, scan, adopted);
    }
  }

  lemma ToldSelf(w: World, s: nat)
    requires s < |w.sessions|
    ensures Told(w, w, s)
  {
  }

  lemma KeptThen(w5: World, w: World, before: Entries, between: Entries, after: Entries)
    requires Kept(w5, before, between) && Kept(w, between, after)
    requires forall k | k in before :: SameObject(w5, w, before[k])
    requires forall x | x in w5.memory :: x in w.memory
    ensures Kept(w5, before, after)
  {
    forall k | k in before ensures k in after && (!IsStub(w5, before[k]) ==> after[k] == before[k]) {
      assert SameObject(w5, w, before[k]);
    }
  }

  lemma ToldMore(w5: World, stale: Stale, w: World, w': World, s: nat, z: nat, renewed: set<Ref>)
    requires Held(w5, stale) && Told(w5, w, s) && Renews(w, w', z, renewed) && z != s
    ensures Told(w5, w', s)
  {
    hide Held, RedBlack.Valid, Contents;
    SetsHeld(w5, stale, z);
    forall x | x in w5.memory ensures x in w.memory {
      assert SameObject(w5, w, x);
    }
    forall k | k in Cache(w5.sessions[z]) ensures SameObject(w5, w, Cache(w5.sessions[z])[k]) {
      assert IsEntry(w5, z, k, Cache(w5.sessions[z])[k]);
    }
    KeptThen(w5, w, Cache(w5.sessions[z]), Cache(w.sessions[z]), Cache(w'.sessions[z]));
    forall x | IsMine(w5, s, x) ensures x in w'.memory && w'.memory[x] == w5.memory[x] {
      assert SameObject(w, w', x);
    }
    forall x | x in w5.memory ensures SameObject(w5, w', x) {
      assert SameObject(w5, w, x) && SameObject(w, w', x);
    }
  }

  /** What a commit leaves: each object of the change set is in its session at its address and is what the file has
      there, and other sessions' whole copies are too; other sessions' objects stay where they were and their read
      sets keep them, and stubs that were refreshed as the code is written are none any more. */
  ghost predicate Committed(w0: World, w: World, s: nat, fringe: set<Ref>, changed: seq<(Key, Ref)>,
                            adopted: seq<Ref>) {
    && Persisted(w0, w, s, fringe, changed, adopted)
    && w.sessions[s].writeSet == None && CommittedIn(w, s, changed) && KindsKept(w0, w)
    && (forall x {:trigger SameObject(w0, w, x)} | x in w0.memory && !IsMine(w0, s, x) :: SameObject(w0, w, x))
    && OthersSpared(w0, w, s, ChangedKeys(changed, adopted))
    && (forall z | 0 <= z < |w.sessions| && z != s ::
          && w.sessions[z].writeSet == w0.sessions[z].writeSet && NotifiedOf(w0, w, z, ChangedKeys(changed, adopted))
          && Kept(w0, Cache(w0.sessions[z]), Cache(w.sessions[z])))
  }

  /** Of other sessions' objects only what they have at the changed addresses is touched; their uncommitted changes of
      other objects, and what they hold without an address, are as they were. */
  ghost predicate OthersSpared(w0: World, w: World, s: nat, keys: set<Key>) {
    forall x {:trigger ToldOf(w0, s, keys, |w0.sessions|, x)} |
      x in w0.memory && !IsMine(w0, s, x) && !ToldOf(w0, s, keys, |w0.sessions|, x) ::
      x in w.memory && w.memory[x] == w0.memory[x]
  }

  ghost predicate NotifiedOf(w0: World, w: World, z: nat, keys: set<Key>) {
    forall k | k in keys :: UpToDate(w, z, k) && StubGone(w0, w, z, k)
  }

  /** What was adopted is in the change set. */
  lemma AdoptedAreChanges(w0: World, w1: World, w2: World, s: nat, fringe: set<Ref>, adopted: seq<Ref>,
                          changed: seq<(Key, Ref)>)
    requires Walked(w0, w1, s, fringe, adopted) && EnlistedTo(w1, w2, s, adopted, |adopted|)
    requires ChangesOf(w2.sessions[s], changed)
    ensures forall x | x in adopted :: exists k :: (k, x) in changed
  {
    assert adopted[..|adopted|] == adopted;
    forall x | x in adopted ensures exists k :: (k, x) in changed {
      var k := LogicalOf(w1.memory, x);
      assert AdoptedBy(w0, w1, s, x);
      ListedAt(w1.memory, adopted, x, w1);
      assert Dirty(w2.sessions[s])[k] == x;
      assert (k, x) in changed;
    }
  }

  /** So is what was marked. */
  lemma MarkedAreChanges(w0: World, w1: World, w2: World, s: nat, fringe: set<Ref>, scan: seq<(Key, Ref)>,
                         adopted: seq<Ref>,
                         changed: seq<(Key, Ref)>, k: Key) returns (a: Key)
    requires Held(w0, {}) && RootsWait(w0) && s < |w0.sessions| && EntriesOf(w0.sessions[s], scan)
    requires ScannedTo(w0, w1, s, fringe, scan, |scan|, adopted) && EnlistedTo(w1, w2, s, adopted, |adopted|)
    requires ChangesOf(w2.sessions[s], changed) && k in Dirty(w0.sessions[s])
    ensures (a, Dirty(w0.sessions[s])[k]) in changed && (k != UNASSIGNED ==> a == k)
  {
    hide Held, Contents, AllSettled, Walked;
    assert adopted[..|adopted|] == adopted;
    var after := Dirty(w2.sessions[s]);
    ScannedWalked(w0, w1, s, fringe, scan, adopted);
    if k == UNASSIGNED {
      assert UNASSIGNED in after;
      RootIsListed(w0, w1, w2, s, fringe, scan, adopted);
      a := LogicalOf(w2.memory, after[k]);
    } else {
      KeptDirty(w0, w1, s, fringe, adopted, k);
      a := k;
    }
    var i :| 0 <= i < |changed| && changed[i] == (a, after[a]);
  }

  /** Nothing else is. */
  lemma ChangesAreMarkedOrAdopted(w0: World, w1: World, w2: World, s: nat, adopted: seq<Ref>, changed: seq<(Key, Ref)>)
    requires s < |w0.sessions| && w1.sessions == w0.sessions && EnlistedTo(w1, w2, s, adopted, |adopted|)
    requires ChangesOf(w2.sessions[s], changed)
    ensures forall c | c in changed :: c.1 in adopted || (c.0 in Dirty(w0.sessions[s]) && Dirty(w0.sessions[s])[c.0] == c.1)
  {
    hide Contents;
    assert adopted[..|adopted|] == adopted;
    ListedKeys(w1.memory, adopted);
  }

  lemma ChangeSet(w0: World, w1: World, w2: World, s: nat, fringe: set<Ref>, scan: seq<(Key, Ref)>, adopted: seq<Ref>,
                  changed: seq<(Key, Ref)>)
    requires Held(w0, {}) && RootsWait(w0) && s < |w0.sessions| && EntriesOf(w0.sessions[s], scan)
    requires ScannedTo(w0, w1, s, fringe, scan, |scan|, adopted) && EnlistedTo(w1, w2, s, adopted, |adopted|)
    requires ChangesOf(w2.sessions[s], changed)
    ensures forall k | k in Dirty(w0.sessions[s]) ::
      exists a :: (a, Dirty(w0.sessions[s])[k]) in changed && (k != UNASSIGNED ==> a == k)
    ensures forall x | x in adopted :: exists k :: (k, x) in changed
    ensures forall c | c in changed :: c.1 in adopted || (c.0 in Dirty(w0.sessions[s]) && Dirty(w0.sessions[s])[c.0] == c.1)
  {
    hide Held, Contents, Walked, ScannedTo, EnlistedTo, EntriesOf, ChangesOf, RootsWait;
    ScannedWalked(w0, w1, s, fringe, scan, adopted);
    ChangesAreMarkedOrAdopted(w0, w1, w2, s, adopted, changed);
    AdoptedAreChanges(w0, w1, w2, s, fringe, adopted, changed);
    forall k | k in Dirty(w0.sessions[s])
      ensures exists a :: (a, Dirty(w0.sessions[s])[k]) in changed && (k != UNASSIGNED ==> a == k)
    {
      var a := MarkedAreChanges(w0, w1, w2, s, fringe, scan, adopted, changed, k);
    }
  }

  /** Adopted objects come under addresses that the write set does not have. */
  lemma KeptDirty(w0: World, w1: World, s: nat, fringe: set<Ref>, adopted: seq<Ref>, k: Key)
    requires Held(w0, {}) && Walked(w0, w1, s, fringe, adopted) && s < |w0.sessions|
    requires k in Dirty(w0.sessions[s])
    ensures k !in Listed(w1.memory, adopted)
  {
    ListedKeys(w1.memory, adopted);
    SetsHeld(w0, {}, s);
    var listed := Listed(w1.memory, adopted);
    assert k in listed ==> AdoptedBy(w0, w1, s, listed[k]);
    if k != UNASSIGNED {
      EntryHeld(w0, {}, s, k);
    }
  }

  lemma CacheGrows(w0: World, w1: World, w2: World, s: nat, fringe: set<Ref>, adopted: seq<Ref>,
                   changed: seq<(Key, Ref)>)
    requires Walked(w0, w1, s, fringe, adopted) && EnlistedTo(w1, w2, s, adopted, |adopted|) && s < |w0.sessions|
    requires Held(w0, {}) && Reserved(w1) && ChangesOf(w2.sessions[s], changed)
    ensures CacheGrown(Cache(w0.sessions[s]), Cache(w2.sessions[s]), changed)
  {
    assert adopted[..|adopted|] == adopted;
    ListedKeys(w1.memory, adopted);
    var before, after, listed := Cache(w0.sessions[s]), Cache(w2.sessions[s]), Listed(w1.memory, adopted);
    forall k | k in before ensures k !in listed {
      EntryHeld(w0, {}, s, k);
      assert k in listed ==> AdoptedBy(w0, w1, s, listed[k]);
    }
    forall k | k in after && k !in before ensures (k, after[k]) in changed {
      assert AdoptedBy(w0, w1, s, listed[k]);
      assert Dirty(w2.sessions[s])[k] == after[k];
    }
  }

  lemma OwnIsKept(w0: World, w1: World, w2: World, w3: World, s: nat, fringe: set<Ref>, adopted: seq<Ref>)
    requires Walked(w0, w1, s, fringe, adopted) && Reserved(w0)
    requires w2.memory == w1.memory && w2.kinds == w1.kinds && SameBut(w2, w3, s)
    ensures OwnKept(w0, w3, s, adopted) && OthersKept(w0, w3, s)
  {
    forall x | x in adopted ensures w3.memory[x] == w1.memory[x] && IsMine(w0, s, x) && w1.memory[x].session == Some(s) {
      assert AdoptedBy(w0, w1, s, x);
      AdoptedAddress(w0, w1, s, x);
    }
    forall x | x in w0.memory && x !in adopted ensures w3.memory[x] == w0.memory[x] || CounterOf(w0, w3, s, x) {
      assert w3.memory[x] == w2.memory[x] || CounterOf(w2, w3, s, x);
    }
  }

  /** From the phases to the result; `w4` is the world after writing. */
  lemma PersistEnds(w0: World, w1: World, w2: World, w3: World, w4: World, s: nat, fringe: set<Ref>,
                    scan: seq<(Key, Ref)>,
                    adopted: seq<Ref>, changed: seq<(Key, Ref)>)
    requires Held(w0, {}) && RootsWait(w0) && Held(w1, {}) && s < |w0.sessions| && EntriesOf(w0.sessions[s], scan)
    requires ScannedTo(w0, w1, s, fringe, scan, |scan|, adopted) && EnlistedTo(w1, w2, s, adopted, |adopted|)
    requires Counted(w2, w3, s) && ChangesOf(w2.sessions[s], changed) && (adopted == [] ==> w3 == w2)
    requires WrittenTo(w3, w4, changed, |changed|) && w1.sessions == w0.sessions
    requires forall a | a in KeysTo(changed, |changed|) :: a > Store.NEXT_LOGICAL_ADDR
    ensures Persisted(w0, w4, s, fringe, changed, adopted) && OthersKept(w0, w4, s)
  {
    hide Held, EntriesOf, ChangesOf, Contents, ScannedTo, OwnKept, OthersKept, CacheGrown, RootsWait, SameBut, ChangedKeys;
    hide IsRoot, Transient, Unaddressed, IsMine;
    ScannedWalked(w0, w1, s, fringe, scan, adopted);
    ChangeSet(w0, w1, w2, s, fringe, scan, adopted, changed);
    HeldIsReserved(w0, {});
    HeldIsReserved(w1, {});
    CacheGrows(w0, w1, w2, s, fringe, adopted, changed);
    OwnIsKept(w0, w1, w2, w3, s, fringe, adopted);
    KeptAnyway(w0, w3, w4, s, adopted);
    DiskIsKept(w1, w2, w3, w4, s, changed, adopted);
    forall c | c in changed ensures c.0 > Store.NEXT_LOGICAL_ADDR {
      assert c.0 in KeysTo(changed, |changed|);
    }
    forall x | x in adopted ensures x in fringe && Unaddressed(w0, x) && (IsRoot(w0, s, x) || Transient(w0, x)) {
      RootOrTransient(w0, w1, s, fringe, scan, adopted, x);
    }
    assert Distinct(w1, adopted);
  }

  lemma RootOrTransient(w0: World, w1: World, s: nat, fringe: set<Ref>, scan: seq<(Key, Ref)>, adopted: seq<Ref>, x: Ref)
    requires Held(w0, {}) && s < |w0.sessions| && EntriesOf(w0.sessions[s], scan) && x in adopted
    requires ScannedTo(w0, w1, s, fringe, scan, |scan|, adopted)
    ensures x in fringe && Unaddressed(w0, x) && (IsRoot(w0, s, x) || Transient(w0, x))
  {
    hide Held, Contents;
    WalkedUnaddressed(w0, w1, s, fringe, adopted, x);
    if !Transient(w0, x) {
      assert x == FirstOf(scan);
      if scan == [] {
        ConstantHeld(w0, {}, NIL_ADDR);
      } else if scan[0].0 != UNASSIGNED {
        SetsHeld(w0, {}, s);
        EntryHeld(w0, {}, s, scan[0].0);
      }
    }
  }

  lemma KeptAnyway(w0: World, w3: World, w4: World, s: nat, adopted: seq<Ref>)
    requires OwnKept(w0, w3, s, adopted) && OthersKept(w0, w3, s) && w4.memory == w3.memory && w4.kinds == w3.kinds
    ensures OwnKept(w0, w4, s, adopted) && OthersKept(w0, w4, s)
  {
    forall x | CounterOf(w0, w3, s, x) ensures CounterOf(w0, w4, s, x) {
    }
  }

  lemma DiskIsKept(w1: World, w2: World, w3: World, w4: World, s: nat, changed: seq<(Key, Ref)>, adopted: seq<Ref>)
    requires Counted(w2, w3, s) && (adopted == [] ==> w3 == w2) && WrittenTo(w3, w4, changed, |changed|)
    requires w2.layout == w1.layout
    ensures forall a | a in w1.layout.disk && a !in ChangedKeys(changed, adopted) ::
      a in w4.layout.disk && w4.layout.disk[a] == w1.layout.disk[a]
  {
    forall a | a in w1.layout.disk && a !in ChangedKeys(changed, adopted)
      ensures a in w4.layout.disk && w4.layout.disk[a] == w1.layout.disk[a]
    {
      assert a in w3.layout.disk && w3.layout.disk[a] == w1.layout.disk[a];
    }
  }

  lemma HeldIsReserved(w: World, stale: Stale)
    requires Held(w, stale)
    ensures Reserved(w)
  {
  }

  lemma PersistedStill(w0: World, w4: World, w5: World, s: nat, fringe: set<Ref>, adopted: seq<Ref>,
                       changed: seq<(Key, Ref)>)
    requires Persisted(w0, w4, s, fringe, changed, adopted) && OthersKept(w0, w4, s)
    requires w5.layout == w4.layout && w5.memory == w4.memory && w5.kinds == w4.kinds
    requires w5.sessions == w4.sessions[s := w4.sessions[s].(writeSet := None)]
    ensures Persisted(w0, w5, s, fringe, changed, adopted) && OthersKept(w0, w5, s)
  {
    hide Contents, CacheGrown, ChangedKeys;
    assert Cache(w5.sessions[s]) == Cache(w4.sessions[s]);
  }

  /** Other sessions' objects that were marked without an address wait on. */
  lemma RootsStillWait(w0: World, w5: World, s: nat, adopted: seq<Ref>)
    requires Held(w0, {}) && RootsWait(w0) && OthersKept(w0, w5, s) && s < |w0.sessions| == |w5.sessions|
    requires w5.kinds == w0.kinds && w5.sessions[s].writeSet == None
    requires forall z | 0 <= z < |w0.sessions| && z != s :: w5.sessions[z] == w0.sessions[z]
    ensures RootsWait(w5)
  {
    forall z | 0 <= z < |w5.sessions| && UNASSIGNED in Dirty(w5.sessions[z])
      ensures Claimed(w5, Dirty(w5.sessions[z])[UNASSIGNED]) && IsIntact(w5, Dirty(w5.sessions[z])[UNASSIGNED])
    {
      SetsHeld(w0, {}, z);
      assert !IsMine(w0, s, Dirty(w0.sessions[z])[UNASSIGNED]);
    }
  }

  lemma OwnStillKept(w0: World, w5: World, w: World, s: nat, adopted: seq<Ref>)
    requires OwnKept(w0, w5, s, adopted) && OthersKept(w0, w5, s) && Told(w5, w, s)
    ensures OwnKept(w0, w, s, adopted) && KindsKept(w0, w)
    ensures forall x {:trigger SameObject(w0, w, x)} | x in w0.memory && !IsMine(w0, s, x) :: SameObject(w0, w, x)
  {
    forall x | IsMine(w0, s, x) ensures IsMine(w5, s, x) && x in w.memory && w.memory[x] == w5.memory[x] {
      assert IsMine(w5, s, x);
    }
    forall x | x in w0.memory && !IsMine(w0, s, x) ensures SameObject(w0, w, x) {
      assert SameObject(w5, w, x);
    }
  }

  lemma KeptSince(w0: World, w5: World, w: World, s: nat, z: nat)
    requires Held(w0, {}) && OthersKept(w0, w5, s) && z < |w0.sessions| && z < |w5.sessions| && z < |w.sessions|
    requires z != s
    requires w5.sessions[z] == w0.sessions[z] && Kept(w5, Cache(w5.sessions[z]), Cache(w.sessions[z]))
    ensures Kept(w0, Cache(w0.sessions[z]), Cache(w.sessions[z]))
  {
    hide Held, RedBlack.Valid, Contents;
    SetsHeld(w0, {}, z);
    forall k | k in Cache(w0.sessions[z]) ensures IsStub(w5, Cache(w0.sessions[z])[k]) == IsStub(w0, Cache(w0.sessions[z])[k]) {
      assert IsEntry(w0, z, k, Cache(w0.sessions[z])[k]);
      assert !IsMine(w0, s, Cache(w0.sessions[z])[k]);
    }
  }

  lemma SparedSince(w0: World, w5: World, w: World, s: nat, keys: set<Key>)
    requires OthersKept(w0, w5, s) && |w5.sessions| == |w0.sessions| && Spared(w5, w, s, keys, |w0.sessions|)
    requires forall z | 0 <= z < |w0.sessions| && z != s :: w5.sessions[z] == w0.sessions[z]
    ensures OthersSpared(w0, w, s, keys)
  {
    hide Contents;
    forall x | x in w0.memory && !IsMine(w0, s, x) && !ToldOf(w0, s, keys, |w0.sessions|, x)
      ensures x in w.memory && w.memory[x] == w0.memory[x]
    {
      assert !ToldOf(w5, s, keys, |w0.sessions|, x);
    }
  }

  /** What the sessions saw before the commit is what they saw when they were told. */
  lemma ToldSince(w0: World, w5: World, w: World, s: nat, addresses: seq<Key>, depth: int)
    requires Held(w0, {}) && OthersKept(w0, w5, s) && |w5.sessions| == |w0.sessions|
    requires ToldTo(w5, w, s, addresses, depth, |w0.sessions|)
    requires forall z | 0 <= z < |w0.sessions| && z != s :: w5.sessions[z] == w0.sessions[z]
    ensures ToldTo(w0, w, s, addresses, depth, |w0.sessions|)
  {
    hide Held, Contents, Seen, Turns, IsDeep, RedBlack.Valid;
    forall y | 0 <= y < |w0.sessions| && y != s
      ensures TurnsSeen(w0, w, y, addresses, depth) && DeepTo(w0, w, y, addresses, |addresses|, depth)
    {
      assert TurnsSeen(w5, w, y, addresses, depth) && DeepTo(w5, w, y, addresses, |addresses|, depth);
      SetsHeld(w0, {}, y);
      var c := Cache(w0.sessions[y]);
      forall k | k in c
        ensures IsStub(w5, c[k]) == IsStub(w0, c[k]) && IsMisread(w5, c[k]) == IsMisread(w0, c[k])
        ensures IsIntact(w5, c[k]) == IsIntact(w0, c[k])
      {
        assert IsEntry(w0, y, k, c[k]) && !IsMine(w0, s, c[k]);
      }
      SeenStays(w0, w5, y, {});
      forall j | 0 <= j < |addresses| ensures TurnDeep(w0, w, y, addresses[j], depth) {
        assert TurnDeep(w5, w, y, addresses[j], depth);
      }
    }
  }

  lemma CommitEnds(w0: World, w5: World, w: World, s: nat, fringe: set<Ref>, adopted: seq<Ref>,
                   changed: seq<(Key, Ref)>,
                   addresses: seq<Key>)
    requires Persisted(w0, w5, s, fringe, changed, adopted) && OthersKept(w0, w5, s) && Told(w5, w, s)
    requires Spared(w5, w, s, AddressSet(addresses), |w5.sessions|)
    requires forall k | k in addresses :: k in ChangedKeys(changed, adopted)
    requires NotifiedTo(w5, w, s, changed, addresses, |w.sessions|) && Held(w0, {})
    requires forall k | k in ChangedKeys(changed, adopted) :: k in addresses
    requires forall z | 0 <= z < |w0.sessions| && z != s :: w5.sessions[z] == w0.sessions[z]
    ensures Committed(w0, w, s, fringe, changed, adopted)
  {
    hide Held, CommittedIn, UpToDate, CacheGrown, Contents, OwnKept, OthersKept, ChangedKeys, Kept, Spared, OthersSpared;
    OwnStillKept(w0, w5, w, s, adopted);
    assert AddressSet(addresses) == ChangedKeys(changed, adopted);
    SparedSince(w0, w5, w, s, ChangedKeys(changed, adopted));
    forall z | 0 <= z < |w.sessions| && z != s ensures Kept(w0, Cache(w0.sessions[z]), Cache(w.sessions[z])) {
      KeptSince(w0, w5, w, s, z);
    }
    forall z | 0 <= z < |w.sessions| && z != s ensures NotifiedOf(w0, w, z, ChangedKeys(changed, adopted)) {
      assert UpToDateTo(w, z, addresses, |addresses|) && StubsGoneTo(w5, w, z, addresses, |addresses|);
      forall k | k in ChangedKeys(changed, adopted) ensures UpToDate(w, z, k) && StubGone(w0, w, z, k) {
        var j :| 0 <= j < |addresses| && addresses[j] == k;
        assert StubGone(w5, w, z, k);
      }
    }
  }
}

/** Bringing cached objects up to date: what abort does to the objects of its transaction and commit to the copies
    of other sessions (obl/session.c). */
module Renewal {
  import opened Words
  import opened RedBlack
  import opened RedBlackInsert
  import opened Objects
  import opened World
  import opened Reading
  import opened Changes
  import opened SetIterators
  import Store

  /** Objects of session `s` among `renewed` have new shapes and storage, its read set has grown, and all else is
      as it was. */
  ghost predicate Renews(w: World, w': World, s: nat, renewed: set<Ref>) {
    && w'.layout == w.layout && w'.sorts == w.sorts && w'.corrected == w.corrected
    && s < |w.sessions| == |w'.sessions| && w'.sessions[s].writeSet == w.sessions[s].writeSet
    && (forall z | 0 <= z < |w.sessions| && z != s :: w'.sessions[z] == w.sessions[z])
    && Kept(w, Cache(w.sessions[s]), Cache(w'.sessions[s]))
    && (forall x | x in w.kinds :: x in w'.kinds && w'.kinds[x] == w.kinds[x])
    && forall x {:trigger SameObject(w, w', x)} | x in w.memory ::
         SameObject(w, w', x) && (x !in renewed || w.memory[x].session != Some(s) ==> w'.memory[x] == w.memory[x])
  }

  /** The object has its places; it may have been misread, but what was no whole object is none now. */
  ghost predicate SameObject(w: World, w': World, x: Ref) {
    && x in w.memory && x in w'.memory && w'.memory[x].session == w.memory[x].session
    && w'.memory[x].logical == w.memory[x].logical && w'.memory[x].physical == w.memory[x].physical
    && (IsStub(w', x) ==> IsStub(w, x)) && (IsIntact(w', x) ==> IsIntact(w, x))
    && (w.memory[x].logical != UNASSIGNED && IsIntact(w, x) ==> IsIntact(w', x))
  }

  lemma RenewsSelf(w: World, s: nat)
    requires s < |w.sessions|
    ensures Renews(w, w, s, {})
  {
  }

  lemma RenewsThen(w: World, stale: Stale, w1: World, w2: World, s: nat, first: set<Ref>, second: set<Ref>)
    requires Held(w, stale) && Renews(w, w1, s, first) && Renews(w1, w2, s, second)
    ensures Renews(w, w2, s, first + second)
  {
    hide Held, Contents, RedBlack.Valid, IsStub, IsIntact, Kept;
    forall x | x in w.memory ensures
      SameObject(w, w2, x) && (x !in first + second || w.memory[x].session != Some(s) ==> w2.memory[x] == w.memory[x])
    {
      assert SameObject(w, w1, x) && SameObject(w1, w2, x);
    }
    EntriesThen(w, stale, w1, w2, s, first, second);
  }

  lemma EntriesThen(w: World, stale: Stale, w1: World, w2: World, s: nat, first: set<Ref>, second: set<Ref>)
    requires Held(w, stale) && Renews(w, w1, s, first) && Renews(w1, w2, s, second)
    ensures Kept(w, Cache(w.sessions[s]), Cache(w2.sessions[s]))
  {
    hide Held, Contents, RedBlack.Valid;
    SetsHeld(w, stale, s);
    var c := Cache(w.sessions[s]);
    forall k | k in c ensures k in Cache(w2.sessions[s]) && (!IsStub(w, c[k]) ==> Cache(w2.sessions[s])[k] == c[k]) {
      assert IsEntry(w, s, k, c[k]) && SameObject(w, w1, c[k]);
    }
    forall x | x in w.memory ensures x in w1.memory {
      assert SameObject(w, w1, x);
    }
  }

  /** An object that is not renewed stays as the file has it. */
  lemma RenewsCurrent(w: World, stale: Stale, w': World, s: nat, renewed: set<Ref>, x: Ref)
    requires Held(w, stale) && Renews(w, w', s, renewed) && Current(w, x)
    requires x !in renewed || w.memory[x].session != Some(s)
    ensures Current(w', x)
  {
    assert LinksIn(w.memory, w.memory[x]) && SameObject(w, w', x);
    forall y | y in w.memory ensures LogicalOf(w'.memory, y) == LogicalOf(w.memory, y) {
      assert SameObject(w, w', y);
    }
    ValueStays(w.memory, w'.memory, w.memory[x]);
  }

  lemma RootsRenew(w: World, stale: Stale, w': World, s: nat, renewed: set<Ref>)
    requires Held(w, stale) && RootsWait(w) && Renews(w, w', s, renewed)
    requires forall x | x in renewed && x in w.memory :: w.memory[x].logical != UNASSIGNED
    ensures RootsWait(w')
  {
    forall z | 0 <= z < |w'.sessions| && UNASSIGNED in Dirty(w'.sessions[z])
      ensures Claimed(w', Dirty(w'.sessions[z])[UNASSIGNED]) && IsIntact(w', Dirty(w'.sessions[z])[UNASSIGNED])
    {
      assert Dirty(w.sessions[z]) == Dirty(w'.sessions[z]);
      assert SameObject(w, w', Dirty(w.sessions[z])[UNASSIGNED]);
    }
  }

  /** What a session holds for good at an address. */
  ghost predicate HoldsAt(w: World, s: nat, k: Key, r: Ref) {
    s < |w.sessions| && k in Cache(w.sessions[s]) && Cache(w.sessions[s])[k] == r && IsIntact(w, r)
  }

  lemma HoldsStill(w: World, stale: Stale, w': World, s: nat, renewed: set<Ref>, z: nat, k: Key, r: Ref)
    requires Held(w, stale) && Renews(w, w', s, renewed) && HoldsAt(w, z, k, r)
    ensures HoldsAt(w', z, k, r)
  {
    SetsHeld(w, stale, z);
    assert IsEntry(w, z, k, r) && SameObject(w, w', r);
  }

  // ----- One object

  /** What the object refers to was read. */
  ghost predicate IsDeep(w: World, r: Ref, depth: int) {
    r in w.memory && Resolved(w, w.memory[r].storage.Links(), depth)
  }

  lemma DeepStays(w: World, stale: Stale, w': World, s: nat, renewed: set<Ref>, r: Ref, depth: int)
    requires Held(w, stale) && Renews(w, w', s, renewed) && IsDeep(w, r, depth)
    requires r !in renewed || w.memory[r].session != Some(s)
    ensures IsDeep(w', r, depth)
  {
    assert SameObject(w, w', r) && LinksIn(w.memory, w.memory[r]);
    forall x | x in w.memory[r].storage.Links() ensures IsStub(w', x) ==> IsStub(w, x) {
      assert SameObject(w, w', x);
    }
  }

  lemma CanRefresh(w: World, stale: Stale, s: nat, k: Key, r: Ref)
    requires Held(w, stale) && HoldsAt(w, s, k, r)
    ensures s < |w.sessions| && r in w.memory && w.memory[r].logical == k && k in w.sorts && k in w.layout.extents
    ensures k > 0
    ensures w.memory[r].physical == w.layout.extents[k].base && w.memory[r].session == Some(s)
  {
    EntryHeld(w, stale, s, k);
  }

  lemma ReadRefreshes(w: World, stale: Stale, w1: World, s: nat, k: Key, r: Ref, o: Obj)
    requires Held(w, stale) && HoldsAt(w, s, k, r) && ReadAt(w, w1, s, k, o) && Held(w1, stale)
    ensures r in w1.memory
    ensures var w' := w1.(memory := w1.memory[r := w1.memory[r].(shape := o.shape, storage := o.storage)]);
      && Held(w', stale - {(s, k)}) && Renews(w, w', s, {r}) && HoldsAt(w', s, k, r) && Current(w', r)
  {
    EntryHeld(w, stale, s, k);
    RefreshedFrom(w, stale, w1, s, k, r, o);
    RefreshHolds(w1, stale, s, r, o);
    RefreshRenews(w, w1, s, r, o);
  }

  lemma RefreshedFrom(w: World, stale: Stale, w1: World, s: nat, k: Key, r: Ref, o: Obj)
    requires Held(w, stale) && HoldsAt(w, s, k, r) && ReadAt(w, w1, s, k, o)
    ensures r in w.memory && r in w1.memory && w1.memory[r] == w.memory[r] && w1.memory[r].logical == k
    ensures FitsObject(w1, r, o)
    ensures HoldsAt(w1, s, k, r)
  {
    EntryHeld(w, stale, s, k);
  }

  /** The refreshed object is as deep as it was read, and its references were. */
  lemma RefreshReads(w: World, stale: Stale, w1: World, s: nat, k: Key, r: Ref, o: Obj, depth: int)
    requires Held(w, stale) && HoldsAt(w, s, k, r) && ReadAt(w, w1, s, k, o) && Held(w1, stale)
    requires Resolved(w1, o.storage.Links(), depth - 1) && FetchedBelow(w, w1, s, k, depth)
    ensures r in w1.memory
    ensures var w' := w1.(memory := w1.memory[r := w1.memory[r].(shape := o.shape, storage := o.storage)]);
      IsDeep(w', r, depth - 1) && FetchedBelow(w, w', s, k, depth)
  {
    hide Held, Contents, Seen, PlainBelow, FetchAll, LinksTaken, LinksEntered, LinksOwn, NewAreRead, Kept;
    CanRefresh(w, stale, s, k, r);
    RefreshedFrom(w, stale, w1, s, k, r, o);
    var w' := w1.(memory := w1.memory[r := w1.memory[r].(shape := o.shape, storage := o.storage)]);
    forall x | x in w1.memory
      ensures IsStub(w', x) == IsStub(w1, x) && IsMisread(w', x) == IsMisread(w1, x) && IsIntact(w', x) == IsIntact(w1, x)
    {
    }
    forall but: set<Ref> ensures Seen(w', s, but) == Seen(w1, s, but) {
      SeenAfter(w1, stale, w', s, but);
    }
  }

  lemma SeenAfter(w: World, stale: Stale, w': World, s: nat, but: set<Ref>)
    requires Held(w, stale) && s < |w.sessions| && s < |w'.sessions| && w'.sessions[s].readSet == w.sessions[s].readSet
    requires forall x | x in w.memory ::
      && x in w'.memory && IsStub(w', x) == IsStub(w, x)
      && IsMisread(w', x) == IsMisread(w, x) && IsIntact(w', x) == IsIntact(w, x)
    ensures Seen(w', s, but) == Seen(w, s, but)
  {
    hide Held, Contents, IsStub, IsMisread, IsIntact;
    SetsHeld(w, stale, s);
    forall k | k in Cache(w.sessions[s]) ensures Cache(w.sessions[s])[k] in w.memory {
      assert IsEntry(w, s, k, Cache(w.sessions[s])[k]);
    }
    SeenStays(w, w', s, but);
  }

  lemma RefreshRenews(w: World, w1: World, s: nat, r: Ref, o: Obj)
    requires Extends(w, w1, s) && r in w1.memory && r in w.memory && w.memory[r].session == Some(s)
    requires FitsObject(w1, r, o)
    ensures Renews(w, Refreshed(w1, r, o), s, {r})
  {
    var w' := Refreshed(w1, r, o);
    forall x | x in w.memory ensures SameObject(w, w', x) && (x != r ==> w'.memory[x] == w.memory[x]) {
    }
  }

  // ----- One object that has no physical address

  /** A stub or an object misread before, at its address, or an object that is only claimed. */
  ghost predicate Hollow(w: World, s: nat, k: Key, r: Ref) {
    && s < |w.sessions| && r in w.memory && r in w.kinds && w.kinds[r].rank > 0 && w.memory[r].session == Some(s)
    && w.memory[r].logical == k
    && if k == UNASSIGNED then !IsStub(w, r)
       else k in Cache(w.sessions[s]) && Cache(w.sessions[s])[k] == r && !IsIntact(w, r)
  }

  lemma HollowHeld(w: World, stale: Stale, s: nat, k: Key, r: Ref)
    requires Held(w, stale) && Hollow(w, s, k, r)
    ensures w.memory[r].physical == UNASSIGNED && Served(w.kinds[r].form, w.corrected)
    ensures k == UNASSIGNED || k in w.sorts
  {
    assert Placed(w, r);
    if k != UNASSIGNED {
      EntryHeld(w, stale, s, k);
    }
  }

  /** The header's references as the session sees them, in the order in which they are read. */
  ghost predicate HeaderRead(w: World, w1: World, s: nat, name: Ref, slotNames: Ref, current: Ref) {
    && Extends(w, w1, s) && name in w1.memory && slotNames in w1.memory && current in w1.memory
    && w1.memory[slotNames].logical == Store.ALLOCATOR_ADDR
  }

  /** What the session has at an address, or nil. */
  function Found(w: World, s: nat, a: Word): Ref
    requires s < |w.sessions|
  {
    if a in Cache(w.sessions[s]) then Cache(w.sessions[s])[a] else NIL
  }

  /** The object was made from the header's words: its name is what the session has at the second, its slot names are
      the allocator, the other two words are zero. */
  ghost predicate HeaderShaped(w: World, s: nat, r: Ref) {
    && s < |w.sessions| && r in w.memory && w.memory[r].shape == NIL
    && w.memory[r].storage == MisreadStorage(Found(w, s, Store.FIRST_PAGE), Found(w, s, Store.ALLOCATOR_ADDR), NIL, UNASSIGNED)
  }

  lemma HeaderIsFound(w: World, stale: Stale, w1: World, w2: World, s: nat, depth: int, name: Ref, slotNames: Ref)
    requires Held(w, stale) && Held(w1, stale) && Held(w2, stale) && depth > 0
    requires Faulted(w, w1, s, Store.FIRST_PAGE, depth, name)
    requires Faulted(w1, w2, s, Store.ALLOCATOR_ADDR, depth, slotNames)
    ensures s < |w2.sessions|
    ensures name == Found(w2, s, Store.FIRST_PAGE) && slotNames == Found(w2, s, Store.ALLOCATOR_ADDR)
  {
    hide Held, Contents, LinksEntered, NewAreRead;
    AddressHeld(w, stale, Store.FIRST_PAGE);
    FirstSorts(w1, stale);
    if Store.FIRST_PAGE in Cache(w2.sessions[s]) {
      EntryHeld(w2, stale, s, Store.FIRST_PAGE);
    }
  }

  /** Of the header's references the session has all that leads anywhere: reading them brings in nothing. */
  ghost predicate HeaderSettled(w: World, s: nat) {
    Store.FIRST_PAGE !in w.sorts && Live(w, s, Store.ALLOCATOR_ADDR)
  }

  /** The rank up to which reading the header's references may touch entries. */
  ghost function HeaderRank(w: World, s: nat): nat {
    if HeaderSettled(w, s) then 0
    else if RankAt(w.sorts, Store.FIRST_PAGE) > 2 then RankAt(w.sorts, Store.FIRST_PAGE)
    else 2
  }

  lemma HeaderIsRead(w: World, stale: Stale, w1: World, w2: World, s: nat, depth: int, name: Ref, slotNames: Ref)
    requires Held(w, stale) && Held(w1, stale)
    requires Faulted(w, w1, s, Store.FIRST_PAGE, depth, name)
    requires Faulted(w1, w2, s, Store.ALLOCATOR_ADDR, depth, slotNames)
    ensures HeaderRead(w, w2, s, name, slotNames, NIL)
  {
    hide Held, NewlyRead, LinksEntered;
    ExtendsThen(w, stale, w1, w2, s);
    AddressHeld(w, stale, Store.FIRST_PAGE);
    FirstSorts(w, stale);
    ConstantHeld(w, stale, NIL_ADDR);
  }

  lemma FirstSorts(w: World, stale: Stale)
    requires Held(w, stale)
    ensures Store.ALLOCATOR_ADDR in w.sorts && RankAt(w.sorts, Store.ALLOCATOR_ADDR) == 2
  {
    assert w.sorts[Store.ALLOCATOR_ADDR] == FIRST_SORTS[Store.ALLOCATOR_ADDR];
  }

  lemma HeaderTouches(w: World, stale: Stale, w1: World, w2: World, s: nat, depth: int, name: Ref, slotNames: Ref)
    requires Held(w, stale)
    requires Faulted(w, w1, s, Store.FIRST_PAGE, depth, name)
    requires Faulted(w1, w2, s, Store.ALLOCATOR_ADDR, depth, slotNames)
    requires Untouched(w, w1, s, RankAt(w.sorts, Store.FIRST_PAGE))
    requires Untouched(w1, w2, s, RankAt(w.sorts, Store.ALLOCATOR_ADDR))
    ensures Untouched(w, w2, s, HeaderRank(w, s))
  {
    hide Held, Contents, NewlyRead, LinksEntered, NewAreRead;
    FirstSorts(w, stale);
    if HeaderSettled(w, s) {
      UntouchedSelf(w, s, 0);
    } else {
      UntouchedThen(w, w1, w2, s, RankAt(w.sorts, Store.FIRST_PAGE), 2, HeaderRank(w, s));
    }
  }

  /** Later more of what the header refers to is there, not less. */
  lemma HeaderRankFalls(w0: World, stale: Stale, w: World, s: nat, renewed: set<Ref>, rank: nat)
    requires Held(w0, stale) && Renews(w0, w, s, renewed) && Untouched(w0, w, s, rank) && HeaderRank(w0, s) <= rank
    ensures HeaderRank(w, s) <= rank
  {
    hide Held, Contents, RedBlack.Valid, SameObject;
    FirstSorts(w0, stale);
    if rank < 2 {
      SetsHeld(w0, stale, s);
      var c := Cache(w0.sessions[s]);
      assert IsEntry(w0, s, Store.ALLOCATOR_ADDR, c[Store.ALLOCATOR_ADDR]);
      assert SameObject(w0, w, c[Store.ALLOCATOR_ADDR]);
      StubsStay(w0, w, c[Store.ALLOCATOR_ADDR]);
    }
  }

  lemma StubsStay(w: World, w': World, x: Ref)
    requires SameObject(w, w', x)
    ensures IsStub(w', x) ==> IsStub(w, x)
  {
  }

  /** Before it is misread an entry may have been replaced by an object that reading the header brought in. */
  lemma ReplacedIsCurrent(w: World, stale: Stale, w1: World, s: nat, k: Key, r: Ref)
    requires Held(w, stale) && Held(w1, stale) && Hollow(w, s, k, r) && Extends(w, w1, s)
    ensures var cache := Cache(w1.sessions[s]);
      k in cache && cache[k] != r && IsIntact(w1, cache[k]) ==> Current(w1, cache[k])
  {
    var cache := Cache(w1.sessions[s]);
    if k in cache {
      EntryHeld(w1, stale, s, k);
      assert cache[k] !in w.memory ==> ReadBy(w1, s, cache[k]);
    }
  }

  lemma MisreadRenews(w: World, stale: Stale, w1: World, s: nat, k: Key, r: Ref,
                      name: Ref, slotNames: Ref, current: Ref, format: Word)
    requires Held(w, stale) && Held(w1, stale) && Hollow(w, s, k, r) && !w.corrected
    requires HeaderRead(w, w1, s, name, slotNames, current)
    ensures r in w1.memory
    ensures var w' := w1.(memory := w1.memory[r := w1.memory[r].(shape := NIL, storage := MisreadStorage(name, slotNames, current, format))]);
      && Held(w', stale - {(s, k)}) && Renews(w, w', s, {r}) && IsMisread(w', r)
  {
    hide WellFormed, Contents, RedBlack.Valid;
    HollowHeld(w, stale, s, k, r);
    ConstantHeld(w1, stale, NIL_ADDR);
    ReplacedIsCurrent(w, stale, w1, s, k, r);
    MisreadHolds(w1, stale, s, r, name, slotNames, current, format);
    MisreadIsRenewal(w, stale, w1, s, r, Misread(w1, r, name, slotNames, current, format));
  }

  lemma MisreadIsRenewal(w: World, stale: Stale, w1: World, s: nat, r: Ref, w': World)
    requires Held(w, stale) && Extends(w, w1, s) && r in w.memory && w.memory[r].session == Some(s)
    requires w.memory[r].logical == UNASSIGNED || !IsIntact(w, r)
    requires w' == w1.(memory := w'.memory) && r in w'.memory && IsMisread(w', r) && w'.memory.Keys == w1.memory.Keys
    requires w'.memory[r].session == w.memory[r].session && w'.memory[r].logical == w.memory[r].logical
    requires w'.memory[r].physical == w.memory[r].physical
    requires forall x | x in w1.memory && x != r :: w'.memory[x] == w1.memory[x]
    ensures Renews(w, w', s, {r})
  {
    forall x | x in w.memory ensures SameObject(w, w', x) && (x != r ==> w'.memory[x] == w.memory[x]) {
    }
  }

  /** What refreshing an object did to the read set. */
  ghost predicate UndoneSeen(w: World, w': World, s: nat, k: Key, depth: int) {
    && s < |w.sessions| && s < |w'.sessions|
    && (PlainFile(w.layout.disk) ==>
          Seen(w', s, {}) == Undo(w.layout.disk, Seen(w, s, {}), k, depth, w.corrected))
  }

  lemma RefreshSeen(w: World, stale: Stale, w': World, s: nat, k: Key, r: Ref, depth: int)
    requires Held(w, stale) && HoldsAt(w, s, k, r) && FetchedBelow(w, w', s, k, depth)
    ensures UndoneSeen(w, w', s, k, depth)
  {
    hide Held, Contents, FetchAll;
    CanRefresh(w, stale, s, k, r);
    if PlainFile(w.layout.disk) {
      PlainFileIsPlain(w.layout.disk, k, depth);
      assert k in Seen(w, s, {}).whole;
      assert Seen(w', s, {}) == FetchAll(w.layout.disk, Seen(w, s, {}), References(w.layout.disk[k]), depth - 1);
    }
  }

  lemma SkipSeen(w: World, s: nat, k: Key, depth: int)
    requires s < |w.sessions|
    requires k in Cache(w.sessions[s]) ==> !IsIntact(w, Cache(w.sessions[s])[k]) && w.corrected
    requires k == UNASSIGNED ==> w.corrected
    ensures UndoneSeen(w, w, s, k, depth)
  {
    assert k !in Seen(w, s, {}).whole;
  }

  /** What the read set is when the header's references were read, whatever stubs are not counted. */
  lemma HeaderSeen(w: World, w1: World, w2: World, s: nat, depth: int, but: set<Ref>)
    requires Fetched(w, w1, s, Store.FIRST_PAGE, depth - 1) && Fetched(w1, w2, s, Store.ALLOCATOR_ADDR, depth - 1)
    requires Extends(w, w1, s) && PlainFile(w.layout.disk) && but <= w.memory.Keys
    ensures Seen(w2, s, but) == FetchHeader(w.layout.disk, Seen(w, s, but), depth)
  {
    hide Seen, Contents, Fetch;
    PlainFileIsPlain(w.layout.disk, Store.FIRST_PAGE, depth - 1);
    PlainFileIsPlain(w.layout.disk, Store.ALLOCATOR_ADDR, depth - 1);
    assert but <= w1.memory.Keys && w1.layout == w.layout;
    assert Seen(w1, s, but) == Fetch(w.layout.disk, Seen(w, s, but), Store.FIRST_PAGE, depth - 1);
    assert Seen(w2, s, but) == Fetch(w.layout.disk, Seen(w1, s, but), Store.ALLOCATOR_ADDR, depth - 1);
  }

  /** Its entry is still there, or an object that was read has come in its place. */
  lemma HollowAfter(w: World, stale: Stale, w2: World, s: nat, k: Key, r: Ref)
    requires Held(w, stale) && Held(w2, stale) && Hollow(w, s, k, r) && k != UNASSIGNED && Extends(w, w2, s)
    ensures var c2 := Cache(w2.sessions[s]);
      && k in c2 && (forall x | x in c2 :: c2[x] in w2.memory && (c2[x] == r ==> x == k))
      && (c2[k] != r ==> IsStub(w, r) && (IsStub(w2, c2[k]) || IsIntact(w2, c2[k])))
  {
    hide Held, Contents, LinksTaken;
    var c2 := Cache(w2.sessions[s]);
    SetsHeld(w2, stale, s);
    forall x | x in c2 ensures c2[x] in w2.memory && (c2[x] == r ==> x == k) {
      assert IsEntry(w2, s, x, c2[x]);
    }
    if c2[k] != r {
      assert ReadBy(w2, s, c2[k]);
      EntryHeld(w2, stale, s, k);
      if Current(w2, c2[k]) {
        CurrentIsIntact(w2, stale, s, k);
      }
    }
  }

  lemma HollowSeen(w: World, stale: Stale, s: nat, k: Key, r: Ref)
    requires Held(w, stale) && Hollow(w, s, k, r) && k != UNASSIGNED
    ensures var v := Seen(w, s, {});
      && k !in v.whole && k in v.misread + v.stubs && Seen(w, s, {r}) == v.(stubs := v.stubs - {k})
  {
    hide Held, Contents;
    SetsHeld(w, stale, s);
    var c := Cache(w.sessions[s]);
    forall x | x in c ensures c[x] == r ==> x == k {
      assert IsEntry(w, s, x, c[x]);
    }
  }

  lemma MisreadTaken(w2: World, w': World, s: nat, k: Key, r: Ref)
    requires s < |w2.sessions| && w' == w2.(memory := w'.memory) && r in w2.memory && !IsIntact(w2, r) && IsMisread(w', r)
    requires w'.memory.Keys == w2.memory.Keys && forall x | x in w2.memory && x != r :: w'.memory[x] == w2.memory[x]
    requires k in Cache(w2.sessions[s]) && Cache(w2.sessions[s])[k] == r
    requires var c2 := Cache(w2.sessions[s]); forall x | x in c2 :: c2[x] in w2.memory && (c2[x] == r ==> x == k)
    ensures var v2 := Seen(w2, s, {r}); k !in v2.whole + v2.stubs && Seen(w', s, {}) == v2.(misread := v2.misread + {k})
  {
    hide Contents;
  }

  lemma MisreadReplaced(w2: World, w': World, s: nat, k: Key, r: Ref)
    requires s < |w2.sessions| && w' == w2.(memory := w'.memory)
    requires w'.memory.Keys == w2.memory.Keys && forall x | x in w2.memory && x != r :: w'.memory[x] == w2.memory[x]
    requires k in Cache(w2.sessions[s]) && Cache(w2.sessions[s])[k] != r
    requires IsStub(w2, Cache(w2.sessions[s])[k]) || IsIntact(w2, Cache(w2.sessions[s])[k])
    requires var c2 := Cache(w2.sessions[s]); forall x | x in c2 :: c2[x] in w2.memory && (c2[x] == r ==> x == k)
    ensures var v2 := Seen(w2, s, {r}); k in v2.whole + v2.stubs && Seen(w', s, {}) == v2
  {
    hide Contents;
  }

  lemma MisreadSeen(w: World, stale: Stale, w1: World, w2: World, w': World, s: nat, k: Key, r: Ref, depth: int)
    requires Held(w, stale) && Held(w2, stale) && Hollow(w, s, k, r) && !w.corrected && k != UNASSIGNED
    requires Fetched(w, w1, s, Store.FIRST_PAGE, depth - 1) && Fetched(w1, w2, s, Store.ALLOCATOR_ADDR, depth - 1)
    requires Extends(w, w1, s) && Extends(w, w2, s)
    requires w' == w2.(memory := w'.memory) && w'.memory.Keys == w2.memory.Keys && IsMisread(w', r)
    requires forall x | x in w2.memory && x != r :: w'.memory[x] == w2.memory[x]
    ensures UndoneSeen(w, w', s, k, depth)
  {
    hide Held, Contents, FetchHeader, NewAreRead, Kept, Seen, Fetched, LinksTaken;
    if PlainFile(w.layout.disk) {
      HeaderSeen(w, w1, w2, s, depth, {r});
      HollowAfter(w, stale, w2, s, k, r);
      HollowSeen(w, stale, s, k, r);
      if Cache(w2.sessions[s])[k] == r {
        MisreadTaken(w2, w', s, k, r);
      } else {
        MisreadReplaced(w2, w', s, k, r);
      }
    }
  }

  lemma UnenteredSeen(w2: World, stale: Stale, w': World, s: nat, r: Ref)
    requires Held(w2, stale) && s < |w2.sessions| && w' == w2.(memory := w'.memory) && w'.memory.Keys == w2.memory.Keys
    requires forall x | x in w2.memory && x != r :: w'.memory[x] == w2.memory[x]
    requires r in w2.memory && w2.memory[r].logical == UNASSIGNED
    ensures Seen(w', s, {}) == Seen(w2, s, {})
  {
    hide Held, Contents;
    SetsHeld(w2, stale, s);
    HeldParts(w2, stale);
    var c2 := Cache(w2.sessions[s]);
    forall x | x in c2 ensures c2[x] in w2.memory && c2[x] != r {
      assert IsEntry(w2, s, x, c2[x]);
    }
  }

  /** An object that is only claimed is no entry: what is seen is what reading the header brings. */
  lemma ClaimedSeen(w: World, stale: Stale, w1: World, w2: World, w': World, s: nat, r: Ref, depth: int)
    requires Held(w, stale) && Held(w2, stale) && Hollow(w, s, UNASSIGNED, r) && !w.corrected
    requires Fetched(w, w1, s, Store.FIRST_PAGE, depth - 1) && Fetched(w1, w2, s, Store.ALLOCATOR_ADDR, depth - 1)
    requires Extends(w, w1, s) && Extends(w, w2, s)
    requires w' == w2.(memory := w'.memory) && w'.memory.Keys == w2.memory.Keys && IsMisread(w', r)
    requires forall x | x in w2.memory && x != r :: w'.memory[x] == w2.memory[x]
    ensures UndoneSeen(w, w', s, UNASSIGNED, depth)
  {
    hide Held, FetchHeader, Seen, Fetched, NewAreRead, Kept;
    if PlainFile(w.layout.disk) {
      HeaderSeen(w, w1, w2, s, depth, {});
      UnenteredSeen(w2, stale, w', s, r);
    }
  }

  // ----- Several objects

  /** What the session has at the address is what the file has, unless it is a stub or was misread. */
  ghost predicate UpToDate(w: World, s: nat, k: Key) {
    s < |w.sessions| &&
    (k in Cache(w.sessions[s]) ==> (Current(w, Cache(w.sessions[s])[k]) <==> IsIntact(w, Cache(w.sessions[s])[k])))
  }

  /** A stub that was refreshed as the code is written is none any more, if it still is what the session has. */
  ghost predicate StubGone(w0: World, w: World, s: nat, k: Key) {
    && s < |w0.sessions| == |w.sessions|
    && var c0, c := Cache(w0.sessions[s]), Cache(w.sessions[s]);
       !w.corrected && k in c0 && k in c && c[k] == c0[k] ==> !IsStub(w, c[k])
  }

  /** The object was refreshed, from its words or from the header. */
  ghost predicate Turned(w: World, r: Ref) {
    Current(w, r) || IsMisread(w, r)
  }

  lemma CurrentIsIntact(w: World, stale: Stale, s: nat, k: Key)
    requires Held(w, stale) && s < |w.sessions| && k in Cache(w.sessions[s]) && Current(w, Cache(w.sessions[s])[k])
    ensures IsIntact(w, Cache(w.sessions[s])[k])
  {
    EntryHeld(w, stale, s, k);
    if IsMisread(w, Cache(w.sessions[s])[k]) {
      MisreadIsNotCurrent(w, stale, Cache(w.sessions[s])[k]);
    }
  }

  lemma UpToDateStays(w: World, stale: Stale, w': World, stale': Stale, s: nat, r: Ref, k: Key)
    requires Held(w, stale) && Held(w', stale') && Renews(w, w', s, {r}) && Turned(w', r)
    requires UpToDate(w, s, k) && (s, k) !in stale'
    ensures UpToDate(w', s, k)
  {
    hide Held, WellFormed, Contents;
    if k in Cache(w'.sessions[s]) {
      var y := Cache(w'.sessions[s])[k];
      if Current(w', y) {
        CurrentIsIntact(w', stale', s, k);
      } else if IsIntact(w', y) {
        EntryStays(w, stale, w', stale', s, r, k);
      }
    }
  }

  lemma EntryStays(w: World, stale: Stale, w': World, stale': Stale, s: nat, r: Ref, k: Key)
    requires Held(w, stale) && Held(w', stale') && Renews(w, w', s, {r}) && Turned(w', r)
    requires UpToDate(w, s, k) && (s, k) !in stale' && k in Cache(w'.sessions[s])
    requires IsIntact(w', Cache(w'.sessions[s])[k])
    ensures Current(w', Cache(w'.sessions[s])[k])
  {
    hide Held, Contents, RedBlack.Valid, Current;
    var y := Cache(w'.sessions[s])[k];
    EntryHeld(w', stale', s, k);
    SetsHeld(w, stale, s);
    if y in w.memory {
      assert SameObject(w, w', y);
      if y != r {
        RenewsCurrent(w, stale, w', s, {r}, y);
      }
    } else {
      SessionHeld(w', stale', s);
      assert k !in Dirty(w'.sessions[s]) by {
        assert Dirty(w'.sessions[s]) == Dirty(w.sessions[s]);
        assert k in Cache(w.sessions[s]) ==> IsEntry(w, s, k, Cache(w.sessions[s])[k]);
      }
    }
  }

  /** What a session does not have, or has no whole object for, need not be as the file has it. */
  lemma StaleDrops(w: World, stale: Stale, s: nat, k: Key)
    requires Held(w, stale) && s < |w.sessions|
    requires k in Cache(w.sessions[s]) ==> !IsIntact(w, Cache(w.sessions[s])[k])
    ensures Held(w, stale - {(s, k)}) && UpToDate(w, s, k)
  {
    forall z | 0 <= z < |w.sessions| ensures SessionSound(w, z, stale - {(s, k)}) {
      assert SessionSound(w, z, stale);
      EntriesNotStale(w, z, Cache(w.sessions[z]), Dirty(w.sessions[z]), stale, s, k);
    }
    if k in Cache(w.sessions[s]) && Current(w, Cache(w.sessions[s])[k]) {
      CurrentIsIntact(w, stale, s, k);
    }
  }

  lemma EntriesNotStale(w: World, z: nat, cache: Entries, dirty: Entries, stale: Stale, s: nat, k: Key)
    requires CurrentIn(w, z, cache, dirty, stale) && (z == s && k in cache ==> !IsIntact(w, cache[k]))
    ensures CurrentIn(w, z, cache, dirty, stale - {(s, k)})
  {
    forall a | a in cache && a !in dirty && (z, a) !in stale - {(s, k)} && IsIntact(w, cache[a]) ensures Current(w, cache[a]) {
      assert (z, a) !in stale;
    }
  }

  /** The pairs of a session with several addresses. */
  function Pairs(s: nat, addresses: seq<Key>): Stale {
    set i | 0 <= i < |addresses| :: (s, addresses[i])
  }

  function AddressSet(addresses: seq<Key>): set<Key> {
    set k | k in addresses
  }

  lemma OnePairMore(stale: Stale, s: nat, addresses: seq<Key>, i: nat)
    requires i < |addresses|
    ensures stale - Pairs(s, addresses[..i + 1]) == stale - Pairs(s, addresses[..i]) - {(s, addresses[i])}
    ensures forall j | 0 <= j <= i :: (s, addresses[j]) !in stale - Pairs(s, addresses[..i + 1])
  {
    var before, after := addresses[..i], addresses[..i + 1];
    forall p | p in Pairs(s, after) ensures p in Pairs(s, before) || p == (s, addresses[i]) {
      var j :| 0 <= j < |after| && p == (s, after[j]);
      assert j < i ==> before[j] == after[j];
    }
    forall p | p in Pairs(s, before) ensures p in Pairs(s, after) {
      var j :| 0 <= j < |before| && p == (s, before[j]);
      assert after[j] == before[j];
    }
    forall j | 0 <= j <= i ensures (s, addresses[j]) in Pairs(s, after) {
      assert after[j] == addresses[j];
    }
  }

  // ----- The turn of one address, and the loop over several

  /** What refreshing the entry at an address does to it: it is what the file has afterwards exactly if it was a
      whole object before. Anything else stays as it is in corrected code, and as written becomes what the header
      reads as. */
  ghost predicate TurnedAt(w: World, w': World, s: nat, k: Key) {
    && s < |w.sessions|
    && (k in Cache(w.sessions[s]) ==>
          var r := Cache(w.sessions[s])[k];
          && (Current(w', r) <==> IsIntact(w, r))
          && (!w.corrected && !IsIntact(w, r) ==> IsMisread(w', r)))
  }

  /** The refresh of one address as the read set shows it. */
  ghost predicate TurnSeen(w: World, w': World, s: nat, k: Key, depth: int) {
    && s < |w.sessions| && s < |w'.sessions|
    && (PlainFile(w'.layout.disk) ==>
          Seen(w', s, {}) == Turn(w'.layout.disk, Seen(w, s, {}), k, depth, w'.corrected))
  }

  /** The refreshes of several addresses, one after the other. */
  ghost predicate TurnsSeen(w: World, w': World, s: nat, addresses: seq<Key>, depth: int) {
    && s < |w.sessions| && s < |w'.sessions|
    && (PlainFile(w'.layout.disk) ==>
          Seen(w', s, {}) == Turns(w'.layout.disk, Seen(w, s, {}), addresses, depth, w'.corrected))
  }

  /** A whole object at the address was read as deep as reading goes. */
  ghost predicate TurnDeep(w: World, w': World, s: nat, k: Key, depth: int) {
    s < |w.sessions| &&
    (k in Cache(w.sessions[s]) && IsIntact(w, Cache(w.sessions[s])[k]) ==> IsDeep(w', Cache(w.sessions[s])[k], depth - 1))
  }

  ghost predicate DeepTo(w: World, w': World, s: nat, addresses: seq<Key>, i: nat, depth: int) {
    forall j | 0 <= j < i && j < |addresses| :: TurnDeep(w, w', s, addresses[j], depth)
  }

  /** The object is what the session has at one of the addresses. */
  ghost predicate IsNoticed(w: World, s: nat, keys: set<Key>, r: Ref) {
    && s < |w.sessions| && r in w.memory && w.memory[r].session == Some(s) && w.memory[r].logical in keys
    && w.memory[r].logical in Cache(w.sessions[s]) && Cache(w.sessions[s])[w.memory[r].logical] == r
  }

  /** Nothing else was refreshed. */
  ghost predicate OnlyNoticed(w: World, s: nat, keys: set<Key>, renewed: set<Ref>) {
    forall r | r in renewed && r in w.memory :: IsNoticed(w, s, keys, r)
  }

  /** What is at the address. */
  function EntryOf(w: World, s: nat, k: Key): set<Ref>
    requires s < |w.sessions|
  {
    if k in Cache(w.sessions[s]) then {Cache(w.sessions[s])[k]} else {}
  }

  lemma NoticedSince(w0: World, stale: Stale, w: World, s: nat, keys: set<Key>, renewed: set<Ref>, k: Key, turned: set<Ref>)
    requires Held(w0, stale) && Renews(w0, w, s, renewed) && OnlyNoticed(w0, s, keys, renewed) && k in keys
    requires turned <= EntryOf(w, s, k)
    ensures OnlyNoticed(w0, s, keys, renewed + turned)
  {
    hide Held, Contents, SameObject;
    SetsHeld(w0, stale, s);
    forall r | r in turned && r in w0.memory ensures IsNoticed(w0, s, keys, r) {
      assert IsEntry(w0, s, k, Cache(w0.sessions[s])[k]);
    }
  }

  lemma TurnsSeenMore(w0: World, w: World, w': World, s: nat, addresses: seq<Key>, i: nat, depth: int)
    requires i < |addresses| && TurnsSeen(w0, w, s, addresses[..i], depth) && TurnSeen(w, w', s, addresses[i], depth)
    requires w'.layout == w.layout && w'.corrected == w.corrected
    ensures TurnsSeen(w0, w', s, addresses[..i + 1], depth)
  {
    hide Seen, Turn;
    assert addresses[..i + 1][..i] == addresses[..i] && addresses[..i + 1][i] == addresses[i];
  }

  lemma TurnsSeenNone(w: World, s: nat, addresses: seq<Key>, depth: int)
    requires s < |w.sessions|
    ensures TurnsSeen(w, w, s, addresses[..0], depth) && DeepTo(w, w, s, addresses, 0, depth)
    ensures OnlyNoticed(w, s, AddressSet(addresses), {})
  {
  }

  lemma DeepGoesOn(w0: World, stale0: Stale, renewed: set<Ref>, w: World, stale: Stale, w': World, s: nat,
                   addresses: seq<Key>, i: nat, turned: set<Ref>, depth: int)
    requires Held(w0, stale0) && Held(w, stale) && Renews(w0, w, s, renewed) && Renews(w, w', s, turned) && i < |addresses|
    requires DeepTo(w0, w, s, addresses, i, depth) && TurnDeep(w, w', s, addresses[i], depth)
    requires turned <= EntryOf(w, s, addresses[i])
    ensures DeepTo(w0, w', s, addresses, i + 1, depth)
  {
    hide Held, Contents, IsDeep;
    SetsHeld(w0, stale0, s);
    var c0, c := Cache(w0.sessions[s]), Cache(w.sessions[s]);
    forall j | 0 <= j < i + 1 ensures TurnDeep(w0, w', s, addresses[j], depth) {
      var k := addresses[j];
      if k in c0 && IsIntact(w0, c0[k]) {
        EntryHeld(w0, stale0, s, k);
        assert SameObject(w0, w, c0[k]);
        assert c[k] == c0[k] && IsIntact(w, c[k]);
        if j < i {
          assert TurnDeep(w0, w, s, k, depth);
          if c0[k] in turned {
            EntryHeld(w, stale, s, addresses[i]);
          } else {
            DeepStays(w, stale, w', s, turned, c0[k], depth - 1);
          }
        }
      }
    }
  }

  /** The first `i` addresses are up to date. */
  ghost predicate UpToDateTo(w: World, s: nat, addresses: seq<Key>, i: nat) {
    forall j | 0 <= j < i && j < |addresses| :: UpToDate(w, s, addresses[j])
  }

  ghost predicate StubsGoneTo(w0: World, w: World, s: nat, addresses: seq<Key>, i: nat) {
    forall j | 0 <= j < i && j < |addresses| :: StubGone(w0, w, s, addresses[j])
  }

  /** Refreshing what the session has at these addresses touches no entry of a higher rank: it has no whole object
      of a higher rank there, nor does reading the header lead higher, if anything is to be refreshed at all. */
  ghost predicate Quiet(w: World, s: nat, addresses: set<Key>, rank: nat) {
    && s < |w.sessions| && (rank > 0 ==> HeaderRank(w, s) <= rank)
    && forall k | k in addresses && k in Cache(w.sessions[s]) ::
         HeaderRank(w, s) <= rank && (IsIntact(w, Cache(w.sessions[s])[k]) ==> RankAt(w.sorts, k) <= rank)
  }

  /** Refreshes at these addresses have touched no more than they may. */
  ghost predicate Calm(w: World, w': World, s: nat, addresses: set<Key>) {
    forall rank: nat {:trigger Quiet(w, s, addresses, rank)} {:trigger Untouched(w, w', s, rank)} ::
      Quiet(w, s, addresses, rank) ==> Untouched(w, w', s, rank)
  }

  lemma CalmSelf(w: World, s: nat, addresses: set<Key>)
    ensures Calm(w, w, s, addresses)
  {
    forall rank: nat | Quiet(w, s, addresses, rank) ensures Untouched(w, w, s, rank) {
      UntouchedSelf(w, s, rank);
    }
  }

  lemma QuietStays(w0: World, stale: Stale, w: World, stale': Stale, s: nat, renewed: set<Ref>, addresses: set<Key>,
                   rank: nat)
    requires Held(w0, stale) && Held(w, stale') && Renews(w0, w, s, renewed) && Untouched(w0, w, s, rank) && Quiet(w0, s, addresses, rank)
    ensures Quiet(w, s, addresses, rank)
  {
    hide Held, Contents, RedBlack.Valid, HeaderRank;
    SetsHeld(w0, stale, s);
    if HeaderRank(w0, s) <= rank {
      HeaderRankFalls(w0, stale, w, s, renewed, rank);
    }
    var c0, c := Cache(w0.sessions[s]), Cache(w.sessions[s]);
    forall k | k in addresses && k in c
      ensures HeaderRank(w, s) <= rank && (IsIntact(w, c[k]) ==> RankAt(w.sorts, k) <= rank)
    {
      if RankAt(w.sorts, k) > rank {
        assert k in c0 && c0[k] == c[k] && IsEntry(w0, s, k, c0[k]) && SameObject(w0, w, c0[k]);
      } else if rank == 0 {
        EntryHeld(w, stale', s, k);
        AddressHeld(w, stale', k);
      }
    }
  }

  /** One more of the addresses. */
  lemma CalmThen(w0: World, stale0: Stale, w: World, stale: Stale, w': World, s: nat, renewed: set<Ref>,
                 addresses: set<Key>, k: Key)
    requires Held(w0, stale0) && Held(w, stale) && Renews(w0, w, s, renewed) && k in addresses
    requires Calm(w0, w, s, addresses) && Calm(w, w', s, {k})
    ensures Calm(w0, w', s, addresses)
  {
    hide Held, Renews, Quiet, Untouched;
    RenewsSession(w0, w, s, renewed);
    forall rank: nat | Quiet(w0, s, addresses, rank) ensures Untouched(w0, w', s, rank) {
      QuietStays(w0, stale0, w, stale, s, renewed, addresses, rank);
      FewerQuiet(w, s, addresses, k, rank);
      UntouchedThen(w0, w, w', s, rank, rank, rank);
    }
  }

  lemma FewerQuiet(w: World, s: nat, addresses: set<Key>, k: Key, rank: nat)
    requires Quiet(w, s, addresses, rank) && k in addresses
    ensures Quiet(w, s, {k}, rank)
  {
  }

  lemma StubStaysGone(w0: World, w: World, w': World, s: nat, r: set<Ref>, renewed: set<Ref>, k: Key)
    requires Renews(w0, w, s, renewed) && Renews(w, w', s, r) && EntriesIn(w0, s, Cache(w0.sessions[s]))
    requires StubGone(w0, w, s, k) || StubGone(w, w', s, k)
    ensures StubGone(w0, w', s, k)
  {
    var c0, c, c' := Cache(w0.sessions[s]), Cache(w.sessions[s]), Cache(w'.sessions[s]);
    if k in c0 && k in c' && c'[k] == c0[k] {
      assert IsEntry(w0, s, k, c0[k]) && SameObject(w0, w, c0[k]) && SameObject(w, w', c0[k]);
    }
  }

  /** One more address has had its turn. */
  lemma UpdateGoesOn(w0: World, stale0: Stale, renewed: set<Ref>, w: World, w': World, stale: Stale, s: nat,
                     addresses: seq<Key>, i: nat, turned: set<Ref>)
    requires Held(w0, stale0) && Renews(w0, w, s, renewed)
    requires i < |addresses| && Held(w, stale - Pairs(s, addresses[..i])) && UpToDateTo(w, s, addresses, i)
    requires StubsGoneTo(w0, w, s, addresses, i) && StubGone(w, w', s, addresses[i])
    requires Held(w', stale - Pairs(s, addresses[..i]) - {(s, addresses[i])}) && UpToDate(w', s, addresses[i])
    requires Renews(w, w', s, turned) && ((turned == {} && w' == w) || exists r :: turned == {r} && Turned(w', r))
    ensures Renews(w0, w', s, renewed + turned)
    ensures Held(w', stale - Pairs(s, addresses[..i + 1])) && UpToDateTo(w', s, addresses, i + 1)
    ensures StubsGoneTo(w0, w', s, addresses, i + 1)
  {
    hide Held, Renews, UpToDate, StubGone, Turned;
    RenewsThen(w0, stale0, w, w', s, renewed, turned);
    OnePairMore(stale, s, addresses, i);
    RenewsSession(w0, w, s, renewed);
    SetsHeld(w0, stale0, s);
    forall j | 0 <= j < i ensures UpToDate(w', s, addresses[j]) {
      if turned != {} {
        var r :| turned == {r} && Turned(w', r);
        UpToDateStays(w, stale - Pairs(s, addresses[..i]), w', stale - Pairs(s, addresses[..i + 1]), s, r,
                      addresses[j]);
      }
    }
    forall j | 0 <= j < i + 1 ensures StubGone(w0, w', s, addresses[j]) {
      StubStaysGone(w0, w, w', s, turned, renewed, addresses[j]);
    }
  }

  lemma RenewsSession(w: World, w': World, s: nat, renewed: set<Ref>)
    requires Renews(w, w', s, renewed)
    ensures s < |w.sessions| == |w'.sessions| && w'.sorts == w.sorts
  {
  }

  lemma UpdateBegins(w: World, stale: Stale, s: nat, addresses: seq<Key>)
    requires Held(w, stale) && s < |w.sessions|
    ensures Renews(w, w, s, {}) && Pairs(s, addresses[..0]) == {} && stale - Pairs(s, addresses[..0]) == stale
    ensures UpToDateTo(w, s, addresses, 0) && StubsGoneTo(w, w, s, addresses, 0)
  {
    RenewsSelf(w, s);
  }

  /** Looking up what a session has at an address. */
  lemma FoundIs(w: World, stale: Stale, s: nat, k: Key)
    requires Held(w, stale) && s < |w.sessions|
    ensures var found := Find(w.sessions[s].readSet, k);
      && (found.Some? <==> k in Cache(w.sessions[s]))
      && (found.Some? ==>
            && found.value == Cache(w.sessions[s])[k] && found.value in w.memory
            && w.memory[found.value].logical == k && k in w.sorts && k != UNASSIGNED
            && (HoldsAt(w, s, k, found.value) || Hollow(w, s, k, found.value)))
  {
    SetsHeld(w, stale, s);
    FindReadsContents(w.sessions[s].readSet, k);
    if k in Cache(w.sessions[s]) {
      EntryHeld(w, stale, s, k);
    }
  }

  /** What a refresh of the entry found at an address comes to. */
  lemma EntryTurned(w: World, stale: Stale, w': World, s: nat, k: Key, r: Ref)
    requires Held(w, stale) && Held(w', stale - {(s, k)}) && Renews(w, w', s, {r}) && k in w.sorts
    requires s < |w.sessions| && k in Cache(w.sessions[s]) && Cache(w.sessions[s])[k] == r
    requires if IsIntact(w, r) then Current(w', r) else IsMisread(w', r)
    ensures TurnedAt(w, w', s, k) && UpToDate(w', s, k) && StubGone(w, w', s, k) && Turned(w', r)
  {
    EntryHeld(w, stale, s, k);
    assert SameObject(w, w', r);
    if IsMisread(w', r) {
      MisreadIsNotCurrent(w', stale - {(s, k)}, r);
    }
    if k in Cache(w'.sessions[s]) {
      var y := Cache(w'.sessions[s])[k];
      if y != r && IsIntact(w', y) {
        NewEntryIsCurrent(w, stale, w', s, k, y);
      }
      if Current(w', y) {
        CurrentIsIntact(w', stale - {(s, k)}, s, k);
      }
    }
  }

  lemma NewEntryIsCurrent(w: World, stale: Stale, w': World, s: nat, k: Key, y: Ref)
    requires Held(w, stale) && Held(w', stale - {(s, k)}) && s < |w.sessions| == |w'.sessions|
    requires w'.sessions[s].writeSet == w.sessions[s].writeSet && (forall x | x in w.memory :: x in w'.memory)
    requires k in Cache(w'.sessions[s]) && Cache(w'.sessions[s])[k] == y && y !in w.memory && IsIntact(w', y)
    ensures Current(w', y)
  {
    EntryHeld(w', stale - {(s, k)}, s, k);
    SetsHeld(w, stale, s);
    assert Dirty(w'.sessions[s]) == Dirty(w.sessions[s]);
    assert k in Cache(w.sessions[s]) ==> IsEntry(w, s, k, Cache(w.sessions[s])[k]);
    SetsHeld(w', stale - {(s, k)}, s);
    assert SessionSound(w', s, stale - {(s, k)});
  }

  lemma EntrySkipped(w: World, stale: Stale, s: nat, k: Key)
    requires Held(w, stale) && s < |w.sessions|
    requires k in Cache(w.sessions[s]) ==> !IsIntact(w, Cache(w.sessions[s])[k]) && w.corrected
    ensures Held(w, stale - {(s, k)}) && TurnedAt(w, w, s, k) && UpToDate(w, s, k) && StubGone(w, w, s, k)
    ensures Renews(w, w, s, {})
  {
    StaleDrops(w, stale, s, k);
    RenewsSelf(w, s);
  }

  // ----- Restoring the objects of a transaction

  /** The entries of a session's transaction. */
  ghost predicate EntriesOf(z: Session, entries: seq<(Key, Ref)>) {
    && (forall i | 0 <= i < |entries| :: entries[i].0 in Dirty(z) && Dirty(z)[entries[i].0] == entries[i].1)
    && (forall k | k in Dirty(z) :: exists i :: 0 <= i < |entries| && entries[i] == (k, Dirty(z)[k]))
  }

  lemma TraversalIsEntries(z: Session, entries: seq<(Key, Ref)>)
    requires z.writeSet.Some? && Ordered(z.writeSet.value) && multiset(entries) == multiset(InOrder(z.writeSet.value))
    ensures EntriesOf(z, entries)
  {
    var t := z.writeSet.value;
    ContentsAreEntries(t);
    forall e ensures e in entries <==> e in InOrder(t) {
      assert e in multiset(entries) <==> e in multiset(InOrder(t));
    }
    forall k | k in Dirty(z) ensures exists i :: 0 <= i < |entries| && entries[i] == (k, Dirty(z)[k]) {
      assert (k, Dirty(z)[k]) in InOrder(t);
      assert (k, Dirty(z)[k]) in entries;
    }
  }

  /** An entry of a transaction: what the session has at the address, or at address zero an object it has claimed. */
  ghost predicate EntryAt(w: World, s: nat, k: Key, r: Ref) {
    if k == UNASSIGNED then Hollow(w, s, k, r) else HoldsAt(w, s, k, r)
  }

  /** The object of a transaction after it was refreshed, as deep as reading goes. */
  ghost predicate Restored(w: World, k: Key, r: Ref, depth: int) {
    if k == UNASSIGNED then !w.corrected ==> IsMisread(w, r) else Current(w, r) && IsDeep(w, r, depth - 1)
  }

  /** The first `i` objects of the transaction are refreshed; all are where they were. */
  ghost predicate RestoredTo(w: World, s: nat, entries: seq<(Key, Ref)>, i: nat, depth: int) {
    && (forall j | 0 <= j < |entries| :: EntryAt(w, s, entries[j].0, entries[j].1))
    && (forall j | 0 <= j < i && j < |entries| :: Restored(w, entries[j].0, entries[j].1, depth))
  }

  lemma RestoreBegins(w: World, stale: Stale, s: nat, entries: seq<(Key, Ref)>, depth: int)
    requires Held(w, stale) && s < |w.sessions| && EntriesOf(w.sessions[s], entries) && RootsWait(w)
    ensures RestoredTo(w, s, entries, 0, depth)
  {
    SetsHeld(w, stale, s);
  }

  lemma EntryRemains(w: World, stale: Stale, w': World, s: nat, renewed: set<Ref>, z: nat, k: Key, r: Ref)
    requires Held(w, stale) && Renews(w, w', s, renewed) && EntryAt(w, z, k, r)
    ensures EntryAt(w', z, k, r)
  {
    if k == UNASSIGNED {
      assert SameObject(w, w', r);
    } else {
      HoldsStill(w, stale, w', s, renewed, z, k, r);
    }
  }

  lemma RestoredRemains(w: World, stale: Stale, w': World, s: nat, renewed: set<Ref>, z: nat, k: Key, r: Ref, depth: int)
    requires Held(w, stale) && Renews(w, w', s, renewed) && EntryAt(w, z, k, r) && Restored(w, k, r, depth)
    requires r !in renewed || w.memory[r].session != Some(s)
    ensures Restored(w', k, r, depth)
  {
    if k == UNASSIGNED {
      assert SameObject(w, w', r);
    } else {
      RenewsCurrent(w, stale, w', s, renewed, r);
      DeepStays(w, stale, w', s, renewed, r, depth - 1);
    }
  }

  lemma RestoreGoesOn(w0: World, stale: Stale, renewed: set<Ref>, w: World, w': World, s: nat, entries: seq<(Key, Ref)>,
                      i: nat, turned: set<Ref>, depth: int)
    requires Held(w0, stale) && Renews(w0, w, s, renewed) && Held(w, stale)
    requires i < |entries| && RestoredTo(w, s, entries, i, depth) && turned <= {entries[i].1}
    requires Renews(w, w', s, turned) && Restored(w', entries[i].0, entries[i].1, depth)
    requires forall j | 0 <= j < i && entries[j].1 == entries[i].1 :: entries[j].0 == entries[i].0
    ensures Renews(w0, w', s, renewed + turned) && RestoredTo(w', s, entries, i + 1, depth)
  {
    hide Held, Renews, EntryAt, Restored;
    RenewsThen(w0, stale, w, w', s, renewed, turned);
    forall j | 0 <= j < |entries| ensures EntryAt(w', s, entries[j].0, entries[j].1) {
      EntryRemains(w, stale, w', s, turned, s, entries[j].0, entries[j].1);
    }
    forall j | 0 <= j < i ensures Restored(w', entries[j].0, entries[j].1, depth) {
      if entries[j].1 != entries[i].1 {
        EntryIsThere(w, s, entries[j].0, entries[j].1);
        RestoredRemains(w, stale, w', s, turned, s, entries[j].0, entries[j].1, depth);
      }
    }
  }

  lemma EntryIsThere(w: World, s: nat, k: Key, r: Ref)
    requires EntryAt(w, s, k, r)
    ensures r in w.memory && s < |w.sessions|
  {
  }

  /** Entries of a transaction lie at their objects' addresses. */
  lemma EntriesApart(w: World, stale: Stale, s: nat, entries: seq<(Key, Ref)>, depth: int)
    requires Held(w, stale) && RestoredTo(w, s, entries, 0, depth)
    ensures forall j | 0 <= j < |entries| :: LogicalOf(w.memory, entries[j].1) == entries[j].0
    ensures forall i, j | 0 <= i < |entries| && 0 <= j < |entries| && entries[i].1 == entries[j].1 :: entries[i].0 == entries[j].0
  {
    forall j | 0 <= j < |entries| ensures LogicalOf(w.memory, entries[j].1) == entries[j].0 {
      assert EntryAt(w, s, entries[j].0, entries[j].1);
      if entries[j].0 != UNASSIGNED {
        EntryHeld(w, stale, s, entries[j].0);
      }
    }
  }

  /** The changes of a transaction given up: what was changed is what the file has; an object that had no address
      is left alone in corrected code, and as written is what the header reads as. */
  lemma RestoreEnds(w0: World, w: World, stale: Stale, s: nat, entries: seq<(Key, Ref)>, renewed: set<Ref>, depth: int)
    requires s < |w0.sessions| && EntriesOf(w0.sessions[s], entries) && Renews(w0, w, s, renewed)
    requires Held(w, stale) && AllStored(w) && RestoredTo(w, s, entries, |entries|, depth)
    ensures s < |w.sessions|
    ensures var w' := WithSession(w, s, w.sessions[s].(writeSet := None));
      && w' == w.(sessions := w.sessions[s := w.sessions[s].(writeSet := None)])
      && Held(w', stale) && AllStored(w')
      && (forall k | k in Dirty(w0.sessions[s]) ::
            EntryAt(w', s, k, Dirty(w0.sessions[s])[k]) && Restored(w', k, Dirty(w0.sessions[s])[k], depth))
      && (forall z | 0 <= z < |w0.sessions| && z != s :: w'.sessions[z] == w0.sessions[z])
      && (forall x | x in w0.memory && x !in renewed :: x in w'.memory && w'.memory[x] == w0.memory[x])
  {
    var w' := WithSession(w, s, w.sessions[s].(writeSet := None));
    assert Dirty(w.sessions[s]) == Dirty(w0.sessions[s]);
    forall k | k in Dirty(w0.sessions[s]) ensures
      EntryAt(w', s, k, Dirty(w0.sessions[s])[k]) && Restored(w, k, Dirty(w0.sessions[s])[k], depth)
      && Restored(w', k, Dirty(w0.sessions[s])[k], depth)
    {
      var i :| 0 <= i < |entries| && entries[i] == (k, Dirty(w0.sessions[s])[k]);
      assert EntryAt(w, s, entries[i].0, entries[i].1) && Restored(w, entries[i].0, entries[i].1, depth);
    }
    forall x | x in w0.memory && x !in renewed ensures x in w'.memory && w'.memory[x] == w0.memory[x] {
      assert SameObject(w0, w, x);
    }
    DropHolds(w, stale, s);
  }

  lemma RootsAfterAbort(w0: World, stale: Stale, w: World, w': World, s: nat, renewed: set<Ref>)
    requires Held(w0, stale) && RootsWait(w0) && Renews(w0, w, s, renewed) && w'.memory == w.memory
    requires w'.kinds == w.kinds
    requires w'.sessions == w.sessions[s := w.sessions[s].(writeSet := None)]
    ensures RootsWait(w')
  {
    forall z | 0 <= z < |w'.sessions| && UNASSIGNED in Dirty(w'.sessions[z])
      ensures Claimed(w', Dirty(w'.sessions[z])[UNASSIGNED]) && IsIntact(w', Dirty(w'.sessions[z])[UNASSIGNED])
    {
      SetsHeld(w0, stale, z);
      assert Dirty(w0.sessions[z]) == Dirty(w'.sessions[z]);
      assert SameObject(w0, w, Dirty(w0.sessions[z])[UNASSIGNED]);
    }
  }

  lemma AbortBegins(w: World, stale: Stale, s: nat, order: seq<(Key, Ref)>, depth: int)
    requires Held(w, stale) && s < |w.sessions| && w.sessions[s].writeSet.Some? && RootsWait(w)
    requires order == PreOrder(w.sessions[s].writeSet.value)
    ensures EntriesOf(w.sessions[s], order) && Renews(w, w, s, {}) && RestoredTo(w, s, order, 0, depth)
    ensures forall i, j | 0 <= i < |order| && 0 <= j < |order| && order[i].1 == order[j].1 :: order[i].0 == order[j].0
  {
    SetsHeld(w, stale, s);
    PreOrderIsAPermutation(w.sessions[s].writeSet.value);
    TraversalIsEntries(w.sessions[s], order);
    RestoreBegins(w, stale, s, order, depth);
    EntriesApart(w, stale, s, order, depth);
    RenewsSelf(w, s);
  }

  lemma RestoredAt(w: World, stale: Stale, s: nat, entries: seq<(Key, Ref)>, i: nat, depth: int)
    requires Held(w, stale) && i < |entries| && RestoredTo(w, s, entries, i, depth)
    ensures EntryAt(w, s, entries[i].0, entries[i].1) && entries[i].1 in w.memory && s < |w.sessions|
    ensures HoldsAt(w, s, entries[i].0, entries[i].1) || Hollow(w, s, entries[i].0, entries[i].1)
  {
    assert EntryAt(w, s, entries[i].0, entries[i].1);
  }
}

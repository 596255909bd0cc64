/** How the steps of a transaction change the world (obl/transaction.c, obl/session.c): each lemma says that one
    step keeps what holds. */
module Changes {
  import opened Words
  import opened AddressMap
  import opened Codec
  import opened RedBlack
  import opened RedBlackInsert
  import opened Objects
  import opened World
  import opened Store

  /** One object's record replaced. */
  function Replaced(w: World, r: Ref, o: Obj): World {
    w.(memory := w.memory[r := o])
  }

  /** The objects keep their addresses and sessions, and those that are whole stay so. */
  ghost predicate SamePlaces(w: World, w': World) {
    && w'.layout == w.layout && w'.sorts == w.sorts && w'.kinds == w.kinds && w'.sessions == w.sessions
    && w'.corrected == w.corrected && w'.memory.Keys == w.memory.Keys
    && forall x | x in w.memory ::
         && w'.memory[x].session == w.memory[x].session && w'.memory[x].logical == w.memory[x].logical
         && w'.memory[x].physical == w.memory[x].physical
         && IsStub(w', x) == IsStub(w, x) && IsIntact(w', x) == IsIntact(w, x)
  }

  lemma CurrentKept(w: World, w': World, x: Ref)
    requires Linked(w) && Current(w, x) && w'.layout.disk == w.layout.disk
    requires x in w'.memory && w'.memory[x] == w.memory[x]
    requires forall y | y in w.memory :: LogicalOf(w'.memory, y) == LogicalOf(w.memory, y)
    ensures Current(w', x)
  {
    assert LinksIn(w.memory, w.memory[x]);
    ValueStays(w.memory, w'.memory, w.memory[x]);
  }

  // ----- Refreshing an object

  /** The object with what was read in place of its shape and storage. */
  function Refreshed(w: World, r: Ref, o: Obj): World
    requires r in w.memory
  {
    Replaced(w, r, w.memory[r].(shape := o.shape, storage := o.storage))
  }

  /** The record `o` fits the object `r`. */
  ghost predicate FitsObject(w: World, r: Ref, o: Obj) {
    && r in w.memory && r in w.kinds && w.kinds[r].rank > 0 && IsIntact(w, r)
    && LinksIn(w.memory, o) && WellFormed(w.kinds, o, w.kinds[r]) && o.storage.Writable()
  }

  lemma SamePlacesPlaced(w: World, w': World)
    requires SamePlaces(w, w') && w.kinds.Keys == w.memory.Keys && AllPlaced(w)
    requires forall x | x in w.memory && !IsIntact(w, x) :: w'.memory[x] == w.memory[x]
    ensures AllPlaced(w')
  {
    forall x | x in w'.memory ensures Placed(w', x) {
      assert Placed(w, x);
    }
  }

  lemma SamePlacesConstants(w: World, w': World)
    requires SamePlaces(w, w') && ConstantsReady(w) && Linked(w)
    requires forall x | x in w.memory && x in w.kinds && w.kinds[x].rank == 0 :: w'.memory[x] == w.memory[x]
    ensures ConstantsReady(w')
  {
    forall a: Word, x | IsFixedAddr(a) && x in w.memory[Constant(a)].storage.Links() ensures !IsStub(w', x) {
      assert LinksIn(w.memory, w.memory[Constant(a)]);
      assert !IsStub(w, x);
    }
  }

  lemma RefreshedPlaces(w: World, r: Ref, o: Obj)
    requires FitsObject(w, r, o)
    ensures SamePlaces(w, Refreshed(w, r, o))
  {
  }

  lemma RefreshedLinked(w: World, r: Ref, o: Obj)
    requires Linked(w) && FitsObject(w, r, o)
    ensures Linked(Refreshed(w, r, o))
  {
    var w' := Refreshed(w, r, o);
    forall x | x in w'.memory ensures LinksIn(w'.memory, w'.memory[x]) {
      assert LinksIn(w.memory, w.memory[x]);
    }
  }

  lemma RefreshedFormed(w: World, r: Ref, o: Obj)
    requires w.kinds.Keys == w.memory.Keys && AllFormed(w) && FitsObject(w, r, o)
    ensures AllFormed(Refreshed(w, r, o))
  {
    var w' := Refreshed(w, r, o);
    SameStorageFormed(w.kinds, o, w'.memory[r], w.kinds[r]);
  }

  lemma SameStorageFormed(kinds: Kinds, o: Obj, o': Obj, k: Sort)
    requires WellFormed(kinds, o, k) && o'.shape == o.shape && o'.storage == o.storage
    ensures WellFormed(kinds, o', k)
  {
  }

  /** The entries of a session when some object, at most the one at `a`, was rewritten. */
  lemma EntriesRefreshed(w: World, w': World, s: nat, cache: Entries, dirty: Entries, stale: Stale, stale': Stale,
                         r: Ref)
    requires SamePlaces(w, w') && Linked(w)
    requires EntriesIn(w, s, cache) && DirtyIn(w, s, cache, dirty) && CurrentIn(w, s, cache, dirty, stale)
    requires forall x | x in w.memory && x != r :: w'.memory[x] == w.memory[x]
    requires forall k | k in cache && k !in dirty && (s, k) !in stale' && (cache[k] == r || (s, k) in stale) :: Current(w', cache[k])
    ensures EntriesIn(w', s, cache) && DirtyIn(w', s, cache, dirty) && CurrentIn(w', s, cache, dirty, stale')
  {
    forall k | k in cache ensures IsEntry(w', s, k, cache[k]) {
      assert IsEntry(w, s, k, cache[k]);
    }
    forall k | k in cache && k !in dirty && (s, k) !in stale' && IsIntact(w', cache[k]) ensures Current(w', cache[k]) {
      if cache[k] != r && (s, k) !in stale {
        assert IsEntry(w, s, k, cache[k]);
        assert Current(w, cache[k]);
        CurrentKept(w, w', cache[k]);
      }
    }
  }

  lemma RefreshedIsCurrent(w: World, r: Ref, o: Obj)
    requires FitsObject(w, r, o) && w.memory[r].logical in w.layout.disk
    requires ValueOf(w.memory, o) == w.layout.disk[w.memory[r].logical]
    ensures Current(Refreshed(w, r, o), r)
  {
    var w' := Refreshed(w, r, o);
    ValueStays(w.memory, w'.memory, o);
    assert Addresses(w'.memory, o.storage.Links()) == Addresses(w'.memory, w'.memory[r].storage.Links());
  }

  lemma CopiesRefreshed(w: World, r: Ref, o: Obj)
    requires CopiesSound(w) && FitsObject(w, r, o)
    requires w.memory[r].logical == ALLOCATOR_ADDR && w.memory[r].session.Some? ==> LinksOwn(w, w.memory[r].session.value, o)
    ensures CopiesSound(Refreshed(w, r, o))
  {
    hide Contents, WellFormed;
    var w' := Refreshed(w, r, o);
    forall z: nat, x | IsOwn(w, z, x) ensures IsOwn(w', z, x) {
    }
    forall x | IsCopy(w', x) ensures CopySound(w', x) {
      assert IsCopy(w, x) && CopySound(w, x);
    }
  }

  /** Refreshing brings a session's object up to date, and disturbs no other. */
  lemma RefreshHolds(w: World, stale: Stale, s: nat, r: Ref, o: Obj)
    requires Held(w, stale) && FitsObject(w, r, o) && w.memory[r].logical in w.layout.disk && s < |w.sessions|
    requires ValueOf(w.memory, o) == w.layout.disk[w.memory[r].logical]
    requires w.memory[r].logical in Cache(w.sessions[s]) && Cache(w.sessions[s])[w.memory[r].logical] == r
    requires w.memory[r].session == Some(s) && (w.memory[r].logical == ALLOCATOR_ADDR ==> LinksOwn(w, s, o))
    ensures var w' := Refreshed(w, r, o);
      SamePlaces(w, w') && Current(w', r) && Held(w', stale - {(s, w.memory[r].logical)})
  {
    hide WellFormed, Contents, RedBlack.Valid, Current;
    var w', k := Refreshed(w, r, o), w.memory[r].logical;
    RefreshedPlaces(w, r, o);
    SamePlacesPlaced(w, w');
    SamePlacesConstants(w, w');
    RefreshedLinked(w, r, o);
    RefreshedFormed(w, r, o);
    RefreshedIsCurrent(w, r, o);
    CopiesRefreshed(w, r, o);
    forall z | 0 <= z < |w'.sessions| ensures SessionSound(w', z, stale - {(s, k)}) {
      assert SessionSound(w, z, stale);
      EntriesRefreshed(w, w', z, Cache(w.sessions[z]), Dirty(w.sessions[z]), stale, stale - {(s, k)}, r);
    }
  }

  // ----- Misreading an object

  /** The object taken from the header of the file. */
  function Misread(w: World, r: Ref, name: Ref, slotNames: Ref, current: Ref, format: Word): World
    requires r in w.memory
  {
    Replaced(w, r, w.memory[r].(shape := NIL, storage := MisreadStorage(name, slotNames, current, format)))
  }

  /** A stub, an object misread before, or one that has no address yet. */
  ghost predicate CanMisread(w: World, s: nat, r: Ref, name: Ref, slotNames: Ref, current: Ref) {
    && !w.corrected && r in w.memory && r in w.kinds && w.kinds[r].rank > 0 && Served(w.kinds[r].form, false)
    && w.memory[r].session == Some(s) && w.memory[r].physical == UNASSIGNED
    && (w.memory[r].logical == UNASSIGNED || !IsIntact(w, r))
    && name in w.memory && slotNames in w.memory && current in w.memory && NIL in w.memory
    && w.memory[slotNames].logical == ALLOCATOR_ADDR
  }

  lemma MisreadObjects(w: World, s: nat, r: Ref, name: Ref, slotNames: Ref, current: Ref, format: Word)
    requires Linked(w) && AllPlaced(w) && AllFormed(w) && CanMisread(w, s, r, name, slotNames, current)
    ensures var w' := Misread(w, r, name, slotNames, current, format);
      Linked(w') && AllPlaced(w') && AllFormed(w')
  {
    var w' := Misread(w, r, name, slotNames, current, format);
    forall x | x in w'.memory ensures Placed(w', x) && LinksIn(w'.memory, w'.memory[x]) {
      assert Placed(w, x) && LinksIn(w.memory, w.memory[x]);
    }
  }

  lemma MisreadConstants(w: World, s: nat, r: Ref, name: Ref, slotNames: Ref, current: Ref, format: Word)
    requires ConstantsReady(w) && Linked(w) && CanMisread(w, s, r, name, slotNames, current)
    ensures ConstantsReady(Misread(w, r, name, slotNames, current, format))
  {
    var w' := Misread(w, r, name, slotNames, current, format);
    forall a: Word, x | IsFixedAddr(a) && x in w.memory[Constant(a)].storage.Links() ensures !IsStub(w', x) {
      assert LinksIn(w.memory, w.memory[Constant(a)]) && !IsStub(w, x);
    }
  }

  lemma EntriesMisread(w: World, w': World, s: nat, cache: Entries, dirty: Entries, stale': Stale, r: Ref)
    requires EntriesIn(w, s, cache) && DirtyIn(w, s, cache, dirty) && Linked(w)
    requires r in w.memory && w'.kinds == w.kinds && w'.layout == w.layout && w'.sorts == w.sorts
    requires w'.memory.Keys == w.memory.Keys
    requires forall x | x in w.memory && x != r :: w'.memory[x] == w.memory[x]
    requires w'.memory[r].logical == w.memory[r].logical && w'.memory[r].session == w.memory[r].session
    requires IsMisread(w', r) && (w.memory[r].logical == UNASSIGNED || !IsIntact(w, r)) && UNASSIGNED !in w.sorts
    requires forall a | a in cache && a !in dirty && (s, a) !in stale' && cache[a] != r && IsIntact(w, cache[a]) :: Current(w, cache[a])
    ensures EntriesIn(w', s, cache) && DirtyIn(w', s, cache, dirty) && CurrentIn(w', s, cache, dirty, stale')
  {
    forall a | a in cache ensures IsEntry(w', s, a, cache[a]) {
      assert IsEntry(w, s, a, cache[a]);
    }
    forall a | a in cache && a !in dirty && (s, a) !in stale' && IsIntact(w', cache[a]) ensures Current(w', cache[a]) {
      assert cache[a] != r;
      assert Current(w, cache[a]);
      CurrentKept(w, w', cache[a]);
    }
    forall a | a in dirty && a != UNASSIGNED ensures IsIntact(w', dirty[a]) {
      assert IsEntry(w, s, a, cache[a]);
    }
  }

  /** Misreading an object keeps what holds: it is no longer held to be as the file has it. */
  lemma MisreadHolds(w: World, stale: Stale, s: nat, r: Ref, name: Ref, slotNames: Ref, current: Ref, format: Word)
    requires Held(w, stale) && CanMisread(w, s, r, name, slotNames, current) && s < |w.sessions|
    requires var k := w.memory[r].logical; var cache := Cache(w.sessions[s]);
      k in cache && cache[k] != r && IsIntact(w, cache[k]) ==> Current(w, cache[k])
    ensures var w' := Misread(w, r, name, slotNames, current, format);
      Held(w', stale - {(s, w.memory[r].logical)}) && IsMisread(w', r)
  {
    hide WellFormed, Contents, RedBlack.Valid, Current, ConstantsReady, AllPlaced, AllFormed;
    var w', k := Misread(w, r, name, slotNames, current, format), w.memory[r].logical;
    MisreadObjects(w, s, r, name, slotNames, current, format);
    MisreadConstants(w, s, r, name, slotNames, current, format);
    CopiesStay(w, w');
    forall z | 0 <= z < |w'.sessions| ensures SessionSound(w', z, stale - {(s, k)}) {
      assert SessionSound(w, z, stale);
      var cache := Cache(w.sessions[z]);
      forall a | a in cache && a !in Dirty(w.sessions[z]) && (z, a) !in stale - {(s, k)} && cache[a] != r && IsIntact(w, cache[a])
        ensures Current(w, cache[a])
      {
        assert (z, a) in stale ==> (z, a) == (s, k);
      }
      EntriesMisread(w, w', z, cache, Dirty(w.sessions[z]), stale - {(s, k)}, r);
    }
  }

  /** What was misread is not what the file has: no object there has the allocator for its slot names. */
  lemma MisreadIsNotCurrent(w: World, stale: Stale, r: Ref)
    requires Held(w, stale) && IsMisread(w, r) && w.memory[r].logical in w.sorts
    ensures !Current(w, r)
  {
    var a := w.memory[r].logical;
    assert Placed(w, r);
    assert a in w.layout.disk ==> WellTyped(w.layout.disk[a], w.sorts[a], w.sorts);
    assert w.sorts[ALLOCATOR_ADDR] == FIRST_SORTS[ALLOCATOR_ADDR];
  }

  // ----- Claiming an object

  function WithOwner(w: World, s: nat, r: Ref): World
    requires r in w.memory
  {
    Replaced(w, r, w.memory[r].(session := Some(s)))
  }

  lemma EntriesClaimed(w: World, w': World, s: nat, cache: Entries, dirty: Entries, stale: Stale, r: Ref)
    requires EntriesIn(w, s, cache) && DirtyIn(w, s, cache, dirty) && CurrentIn(w, s, cache, dirty, stale) && Linked(w)
    requires r in w.memory && w.memory[r].session == None && !IsStub(w', r)
    requires w'.kinds == w.kinds && w'.layout == w.layout && w'.sorts == w.sorts && w'.memory.Keys == w.memory.Keys
    requires forall x | x in w.memory && x != r :: w'.memory[x] == w.memory[x]
    requires w'.memory[r].logical == w.memory[r].logical
    ensures EntriesIn(w', s, cache) && DirtyIn(w', s, cache, dirty) && CurrentIn(w', s, cache, dirty, stale)
  {
    forall a | a in cache ensures IsEntry(w', s, a, cache[a]) {
      assert IsEntry(w, s, a, cache[a]);
    }
    forall a | a in cache && a !in dirty && (s, a) !in stale && IsIntact(w', cache[a]) ensures Current(w', cache[a]) {
      assert IsEntry(w, s, a, cache[a]);
      assert Current(w, cache[a]);
      CurrentKept(w, w', cache[a]);
    }
    forall a | a in dirty && a != UNASSIGNED ensures IsIntact(w', dirty[a]) {
      assert IsEntry(w, s, a, cache[a]);
    }
  }

  lemma ClaimedPlaces(w: World, s: nat, r: Ref)
    requires Linked(w) && AllPlaced(w) && Transient(w, r) && s < |w.sessions| && Served(w.kinds[r].form, w.corrected)
    ensures var w' := WithOwner(w, s, r);
      Linked(w') && AllPlaced(w') && Claimed(w', r) && IsIntact(w, r)
  {
    var w' := WithOwner(w, s, r);
    assert Placed(w, r);
    forall x | x in w'.memory ensures Placed(w', x) && LinksIn(w'.memory, w'.memory[x]) {
      assert Placed(w, x) && LinksIn(w.memory, w.memory[x]);
    }
  }

  lemma ClaimedObjects(w: World, s: nat, r: Ref)
    requires ConstantsReady(w) && Linked(w) && AllFormed(w) && Transient(w, r) && IsIntact(w, r)
    ensures ConstantsReady(WithOwner(w, s, r)) && AllFormed(WithOwner(w, s, r))
  {
    var w' := WithOwner(w, s, r);
    forall a: Word, x | IsFixedAddr(a) && x in w.memory[Constant(a)].storage.Links() ensures !IsStub(w', x) {
      assert LinksIn(w.memory, w.memory[Constant(a)]) && !IsStub(w, x);
    }
    assert WellFormed(w.kinds, w.memory[r], w.kinds[r]);
    SameStorageFormed(w.kinds, w.memory[r], w'.memory[r], w.kinds[r]);
  }

  /** A program may set the session of an object that has none. */
  lemma ClaimHolds(w: World, stale: Stale, s: nat, r: Ref)
    requires Held(w, stale) && Transient(w, r) && s < |w.sessions| && Served(w.kinds[r].form, w.corrected)
    ensures Held(WithOwner(w, s, r), stale) && Claimed(WithOwner(w, s, r), r) && IsIntact(w, r)
  {
    hide ConstantsReady, AllPlaced, AllFormed, WellFormed, Contents, RedBlack.Valid, Current;
    ClaimedPlaces(w, s, r);
    ClaimedObjects(w, s, r);
    var w' := WithOwner(w, s, r);
    CopiesStay(w, w');
    forall z | 0 <= z < |w'.sessions| ensures SessionSound(w', z, stale) {
      assert SessionSound(w, z, stale);
      EntriesClaimed(w, w', z, Cache(w.sessions[z]), Dirty(w.sessions[z]), stale, r);
    }
  }

  // ----- Adopting an object

  /** The object has a session, two addresses, and a sort at its logical one. */
  function Adopted(w: World, s: nat, r: Ref, a: Word, base: Word, layout: Layout): World
    requires r in w.memory && r in w.kinds
  {
    w.(memory := w.memory[r := w.memory[r].(session := Some(s), logical := a, physical := base)],
       sorts := w.sorts[a := w.kinds[r]], layout := layout)
  }

  ghost predicate Adoptable(w: World, s: nat, r: Ref, a: Word, base: Word, size: nat, layout: Layout) {
    && s < |w.sessions| && Unaddressed(w, r) && IsIntact(w, r) && (w.memory[r].session == None || w.memory[r].session == Some(s))
    && Served(w.kinds[r].form, w.corrected) && FormSize(w.kinds[r].form) <= size
    && NEXT_LOGICAL_ADDR < a < ADDRESS_LIMIT && a !in w.layout.extents && a !in w.layout.disk
    && layout.extents == w.layout.extents[a := Extent(base, size)] && layout.disk == w.layout.disk
  }

  lemma AdoptedFile(w: World, s: nat, r: Ref, a: Word, base: Word, size: nat, layout: Layout)
    requires Reserved(w) && Typed(w) && Adoptable(w, s, r, a, base, size, layout)
    ensures Reserved(Adopted(w, s, r, a, base, layout)) && Typed(Adopted(w, s, r, a, base, layout))
  {
    var w' := Adopted(w, s, r, a, base, layout);
    forall b | b in w'.sorts && b in w'.layout.disk ensures WellTyped(w'.layout.disk[b], w'.sorts[b], w'.sorts) {
      TypedGrows(w.layout.disk[b], w.sorts[b], w.sorts, w'.sorts);
    }
  }

  lemma TypedGrows(v: Value, t: Sort, sorts: Sorts, sorts': Sorts)
    requires WellTyped(v, t, sorts) && forall a | a in sorts :: a in sorts' && sorts'[a] == sorts[a]
    ensures WellTyped(v, t, sorts')
  {
  }

  lemma AdoptedPlaced(w: World, s: nat, r: Ref, a: Word, base: Word, size: nat, layout: Layout)
    requires Reserved(w) && Linked(w) && AllPlaced(w) && Adoptable(w, s, r, a, base, size, layout)
    ensures Linked(Adopted(w, s, r, a, base, layout)) && AllPlaced(Adopted(w, s, r, a, base, layout))
  {
    var w' := Adopted(w, s, r, a, base, layout);
    forall x | x in w'.memory ensures Placed(w', x) && LinksIn(w'.memory, w'.memory[x]) {
      assert Placed(w, x) && LinksIn(w.memory, w.memory[x]);
    }
  }

  lemma AdoptedFormed(w: World, s: nat, r: Ref, a: Word, base: Word, size: nat, layout: Layout)
    requires w.kinds.Keys == w.memory.Keys && AllFormed(w) && AllPlaced(w) && Adoptable(w, s, r, a, base, size, layout)
    ensures AllFormed(Adopted(w, s, r, a, base, layout))
  {
    assert Placed(w, r) && WellFormed(w.kinds, w.memory[r], w.kinds[r]);
    SameStorageFormed(w.kinds, w.memory[r], Adopted(w, s, r, a, base, layout).memory[r], w.kinds[r]);
  }

  lemma AdoptedConstants(w: World, s: nat, r: Ref, a: Word, base: Word, size: nat, layout: Layout)
    requires ConstantsReady(w) && Linked(w) && Adoptable(w, s, r, a, base, size, layout)
    ensures ConstantsReady(Adopted(w, s, r, a, base, layout))
  {
    var w' := Adopted(w, s, r, a, base, layout);
    forall b: Word, x | IsFixedAddr(b) && x in w.memory[Constant(b)].storage.Links() ensures !IsStub(w', x) {
      assert LinksIn(w.memory, w.memory[Constant(b)]) && !IsStub(w, x);
    }
  }

  /** What is as it is stored refers to no object that has no address yet. */
  lemma CurrentAvoids(w: World, x: Ref, r: Ref)
    requires Reserved(w) && Typed(w) && Current(w, x) && w.memory[x].logical in w.sorts
    requires Unaddressed(w, r) && ConstantsReady(w)
    requires x in w.kinds && WellFormed(w.kinds, w.memory[x], w.kinds[x])
    ensures w.memory[x].shape != r && r !in w.memory[x].storage.Links()
  {
    var v, links := w.layout.disk[w.memory[x].logical], w.memory[x].storage.Links();
    assert WellTyped(v, w.sorts[w.memory[x].logical], w.sorts);
    assert SortAt(w.sorts, UNASSIGNED) == None;
    assert Constant(NIL_ADDR) == NIL;
    forall i | 0 <= i < |links| ensures links[i] != r {
      assert References(v)[i] == LogicalOf(w.memory, links[i]);
    }
  }

  lemma CurrentAdopted(w: World, w': World, x: Ref, r: Ref)
    requires Reserved(w) && Typed(w) && Current(w, x) && w.memory[x].logical in w.sorts && Linked(w)
    requires Unaddressed(w, r) && x != r && w'.layout.disk == w.layout.disk && ConstantsReady(w)
    requires x in w.kinds && WellFormed(w.kinds, w.memory[x], w.kinds[x])
    requires forall y | y in w.memory && y != r :: y in w'.memory && w'.memory[y] == w.memory[y]
    ensures Current(w', x)
  {
    CurrentAvoids(w, x, r);
    assert LinksIn(w.memory, w.memory[x]);
    ValueStays(w.memory, w'.memory, w.memory[x]);
  }

  lemma EntriesAdopted(w: World, w': World, s: nat, cache: Entries, dirty: Entries, stale: Stale, r: Ref)
    requires Reserved(w) && Typed(w) && Linked(w) && AllPlaced(w) && AllFormed(w) && ConstantsReady(w)
    requires Unaddressed(w, r) && w'.layout.disk == w.layout.disk && forall a | a in w.sorts :: a in w'.sorts
    requires r in w'.memory && !IsStub(w', r)
    requires (w.memory[r].session.Some? ==> w'.memory[r].session == w.memory[r].session)
    requires EntriesIn(w, s, cache) && DirtyIn(w, s, cache, dirty) && CurrentIn(w, s, cache, dirty, stale)
    requires w'.kinds == w.kinds && forall y | y in w.memory && y != r :: y in w'.memory && w'.memory[y] == w.memory[y]
    ensures EntriesIn(w', s, cache) && DirtyIn(w', s, cache, dirty) && CurrentIn(w', s, cache, dirty, stale)
  {
    forall k | k in cache ensures IsEntry(w', s, k, cache[k]) && cache[k] != r {
      assert IsEntry(w, s, k, cache[k]);
    }
    forall k | k in cache && k !in dirty && (s, k) !in stale && IsIntact(w', cache[k]) ensures Current(w', cache[k]) {
      assert IsEntry(w, s, k, cache[k]) && Placed(w, cache[k]);
      assert Current(w, cache[k]) && WellFormed(w.kinds, w.memory[cache[k]], w.kinds[cache[k]]);
      CurrentAdopted(w, w', cache[k], r);
    }
  }

  lemma AdoptHolds(w: World, stale: Stale, s: nat, r: Ref, a: Word, base: Word, size: nat, layout: Layout)
    requires Held(w, stale) && Adoptable(w, s, r, a, base, size, layout)
    ensures Held(Adopted(w, s, r, a, base, layout), stale)
  {
    var w' := Adopted(w, s, r, a, base, layout);
    AdoptedFile(w, s, r, a, base, size, layout);
    AdoptedConstants(w, s, r, a, base, size, layout);
    AdoptedPlaced(w, s, r, a, base, size, layout);
    AdoptedFormed(w, s, r, a, base, size, layout);
    CopiesStay(w, w');
    forall z | 0 <= z < |w'.sessions| ensures SessionSound(w', z, stale) {
      assert SessionSound(w, z, stale);
      EntriesAdopted(w, w', z, Cache(w.sessions[z]), Dirty(w.sessions[z]), stale, r);
    }
  }

  // ----- The sets of a session

  function WithSession(w: World, s: nat, z: Session): World
    requires s < |w.sessions|
  {
    w.(sessions := w.sessions[s := z])
  }

  lemma WithSessionIs(w: World, s: nat, z: Session)
    requires s < |w.sessions|
    ensures WithSession(w, s, z) == w.(sessions := w.sessions[s := z])
  {
  }

  lemma EntriesElsewhere(w: World, w': World, s: nat, cache: Entries, dirty: Entries, stale: Stale)
    requires w'.memory == w.memory && w'.kinds == w.kinds && w'.layout == w.layout && w'.sorts == w.sorts
    requires EntriesIn(w, s, cache) && DirtyIn(w, s, cache, dirty) && CurrentIn(w, s, cache, dirty, stale)
    ensures EntriesIn(w', s, cache) && DirtyIn(w', s, cache, dirty) && CurrentIn(w', s, cache, dirty, stale)
  {
    forall k | k in cache ensures IsEntry(w', s, k, cache[k]) {
      assert IsEntry(w, s, k, cache[k]);
    }
    forall k | k in cache && k !in dirty && (s, k) !in stale && IsIntact(w', cache[k]) ensures Current(w', cache[k]) {
      assert Current(w, cache[k]);
    }
  }

  /** Only the sets of one session change. */
  lemma SessionHolds(w: World, stale: Stale, s: nat, z: Session)
    requires Held(w, stale) && s < |w.sessions| && TreesSound(z)
    requires EntriesIn(w, s, Cache(z)) && DirtyIn(w, s, Cache(z), Dirty(z))
    requires CurrentIn(w, s, Cache(z), Dirty(z), stale) && SameCopies(Cache(w.sessions[s]), Cache(z))
    ensures Held(WithSession(w, s, z), stale)
  {
    var w' := WithSession(w, s, z);
    CopiesStay(w, w');
    assert AllPlaced(w') by {
      forall x | x in w'.memory ensures Placed(w', x) {
        assert Placed(w, x);
      }
    }
    assert ConstantsReady(w') by {
      ConstantsStay(w, w');
    }
    forall y | 0 <= y < |w'.sessions| ensures SessionSound(w', y, stale) {
      assert SessionSound(w, y, stale);
      EntriesElsewhere(w, w', y, Cache(w'.sessions[y]), Dirty(w'.sessions[y]), stale);
    }
  }

  /** An object of the session counts as changed. */
  function Marked(z: Session, k: Key, r: Ref): Session
    requires z.writeSet.Some?
  {
    z.(writeSet := Some(Insert(z.writeSet.value, k, r)))
  }

  /** An object that was adopted enters both sets. */
  function Enlisted(z: Session, k: Key, r: Ref): Session
    requires z.writeSet.Some?
  {
    Marked(z, k, r).(readSet := Insert(z.readSet, k, r))
  }

  lemma DirtyAdded(w: World, s: nat, cache: Entries, dirty: Entries, stale: Stale, k: Key, r: Ref)
    requires EntriesIn(w, s, cache) && DirtyIn(w, s, cache, dirty) && CurrentIn(w, s, cache, dirty, stale)
    requires IsEntry(w, s, k, r) && IsIntact(w, r) && k > NEXT_LOGICAL_ADDR && (k in cache ==> cache[k] == r)
    ensures EntriesIn(w, s, cache[k := r]) && DirtyIn(w, s, cache[k := r], dirty[k := r])
    ensures CurrentIn(w, s, cache[k := r], dirty[k := r], stale)
  {
    var cache' := cache[k := r];
    forall x | x in cache' ensures IsEntry(w, s, x, cache'[x]) {
      assert x != k ==> IsEntry(w, s, x, cache[x]);
    }
    forall x | x in cache' && x !in dirty[k := r] && (s, x) !in stale && IsIntact(w, cache'[x]) ensures Current(w, cache'[x]) {
      assert Current(w, cache[x]);
    }
  }

  lemma Readded<K, V>(m: map<K, V>, k: K)
    requires k in m
    ensures m[k := m[k]] == m
  {
  }

  /** The session may count the object as changed: it has no address yet, or is what the session has at its address,
      and is none of the allocator's. */
  ghost predicate Markable(w: World, s: nat, r: Ref) {
    && s < |w.sessions| && r in w.memory && r in w.kinds && w.kinds[r].rank > 0 && IsIntact(w, r)
    && w.memory[r].session == Some(s)
    && (w.memory[r].logical == UNASSIGNED ||
        (w.memory[r].logical > NEXT_LOGICAL_ADDR && w.memory[r].logical in Cache(w.sessions[s]) && Cache(w.sessions[s])[w.memory[r].logical] == r))
  }

  lemma MarkHolds(w: World, stale: Stale, s: nat, r: Ref)
    requires Held(w, stale) && Markable(w, s, r) && w.sessions[s].writeSet.Some?
    ensures var k := w.memory[r].logical; var z := Marked(w.sessions[s], k, r);
      && Held(WithSession(w, s, z), stale) && Cache(z) == Cache(w.sessions[s]) && Dirty(z) == Dirty(w.sessions[s])[k := r]
  {
    var z, k := w.sessions[s], w.memory[r].logical;
    assert SessionSound(w, s, stale);
    InsertCorrect(z.writeSet.value, k, r);
    if k == UNASSIGNED {
      NothingAtZero(w, s, Cache(z));
      RootAdded(w, s, Cache(z), Dirty(z), stale, r);
    } else {
      assert IsEntry(w, s, k, r);
      DirtyAdded(w, s, Cache(z), Dirty(z), stale, k, r);
      Readded(Cache(z), k);
    }
    SessionHolds(w, stale, s, Marked(z, k, r));
  }

  lemma NothingAtZero(w: World, s: nat, cache: Entries)
    requires Reserved(w) && EntriesIn(w, s, cache)
    ensures UNASSIGNED !in cache
  {
    assert UNASSIGNED in cache ==> IsEntry(w, s, UNASSIGNED, cache[UNASSIGNED]);
  }

  lemma RootAdded(w: World, s: nat, cache: Entries, dirty: Entries, stale: Stale, r: Ref)
    requires EntriesIn(w, s, cache) && DirtyIn(w, s, cache, dirty) && CurrentIn(w, s, cache, dirty, stale)
    requires r in w.memory && r in w.kinds && w.kinds[r].rank > 0 && IsIntact(w, r) && w.memory[r].session == Some(s)
    requires UNASSIGNED !in cache
    ensures DirtyIn(w, s, cache, dirty[UNASSIGNED := r]) && CurrentIn(w, s, cache, dirty[UNASSIGNED := r], stale)
  {
  }

  lemma EnlistHolds(w: World, stale: Stale, s: nat, k: Key, r: Ref)
    requires Held(w, stale) && s < |w.sessions| && w.sessions[s].writeSet.Some?
    requires IsEntry(w, s, k, r) && IsIntact(w, r) && k > NEXT_LOGICAL_ADDR
    requires (k in Cache(w.sessions[s]) ==> Cache(w.sessions[s])[k] == r)
    ensures var z := Enlisted(w.sessions[s], k, r);
      && Held(WithSession(w, s, z), stale)
      && Cache(z) == Cache(w.sessions[s])[k := r] && Dirty(z) == Dirty(w.sessions[s])[k := r]
  {
    hide Held, Insert, Contents, RedBlack.Valid, EntriesIn, DirtyIn, CurrentIn;
    var z := w.sessions[s];
    SessionHeld(w, stale, s);
    InsertCorrect(z.writeSet.value, k, r);
    InsertCorrect(z.readSet, k, r);
    DirtyAdded(w, s, Cache(z), Dirty(z), stale, k, r);
    SessionHolds(w, stale, s, Enlisted(z, k, r));
  }

  lemma BeginHolds(w: World, stale: Stale, s: nat)
    requires Held(w, stale) && s < |w.sessions| && w.sessions[s].writeSet == None
    ensures var z := w.sessions[s].(writeSet := Some(Leaf));
      Held(WithSession(w, s, z), stale) && Cache(z) == Cache(w.sessions[s]) && Dirty(z) == map[]
  {
    SetsHeld(w, stale, s);
    assert SessionSound(w, s, stale);
    var z := w.sessions[s].(writeSet := Some(Leaf));
    assert Dirty(z) == Dirty(w.sessions[s]);
    SessionHolds(w, stale, s, z);
  }

  /** A transaction whose objects all are as the file has them can be dropped. */
  lemma DropHolds(w: World, stale: Stale, s: nat)
    requires Held(w, stale) && s < |w.sessions|
    requires forall k | k in Dirty(w.sessions[s]) && k != UNASSIGNED :: Current(w, Dirty(w.sessions[s])[k])
    ensures Held(WithSession(w, s, w.sessions[s].(writeSet := None)), stale)
  {
    SetsHeld(w, stale, s);
    assert SessionSound(w, s, stale);
    var z := w.sessions[s].(writeSet := None);
    NothingAtZero(w, s, Cache(z));
    var cache, dirty := Cache(w.sessions[s]), Dirty(w.sessions[s]);
    forall k | k in cache && (s, k) !in stale && IsIntact(w, cache[k]) ensures Current(w, cache[k]) {
      assert k in dirty ==> Current(w, dirty[k]) && cache[k] == dirty[k];
    }
    assert Cache(z) == cache;
    SessionHolds(w, stale, s, z);
  }

  // ----- Changing an object in a transaction

  /** The record of an object may change while every session that has it counts it as changed. */
  lemma RewriteHolds(w: World, stale: Stale, r: Ref, o: Obj)
    requires Held(w, stale) && FitsObject(w, r, o) && w.memory[r].logical != ALLOCATOR_ADDR
    requires forall z, k | 0 <= z < |w.sessions| && k in Cache(w.sessions[z]) && Cache(w.sessions[z])[k] == r :: k in Dirty(w.sessions[z])
    ensures SamePlaces(w, Refreshed(w, r, o)) && Held(Refreshed(w, r, o), stale)
  {
    var w' := Refreshed(w, r, o);
    RefreshedPlaces(w, r, o);
    SamePlacesPlaced(w, w');
    SamePlacesConstants(w, w');
    RefreshedLinked(w, r, o);
    RefreshedFormed(w, r, o);
    CopiesRefreshed(w, r, o);
    forall z | 0 <= z < |w'.sessions| ensures SessionSound(w', z, stale) {
      assert SessionSound(w, z, stale);
      EntriesRefreshed(w, w', z, Cache(w.sessions[z]), Dirty(w.sessions[z]), stale, stale, r);
    }
  }

  // ----- Writing an object

  /** All that the object refers to has an address. */
  ghost predicate Settled(w: World, r: Ref) {
    && r in w.memory && !Unaddressed(w, w.memory[r].shape)
    && forall x | x in w.memory[r].storage.Links() :: !Unaddressed(w, x)
  }

  lemma PlacedKnown(w: World, r: Ref)
    requires ConstantsReady(w) && Reserved(w) && w.kinds.Keys == w.memory.Keys && AllPlaced(w) && r in w.memory
    requires !Unaddressed(w, r)
    ensures Known(w.memory, w.kinds, w.sorts, r) && (w.memory[r].logical == NIL_ADDR <==> r == NIL)
  {
    assert Placed(w, r);
    if IsFixedAddr(w.memory[r].logical) {
      assert w.kinds[r].rank == 0;
    }
    assert Constant(NIL_ADDR) == NIL;
  }

  lemma PlacedOrUnaddressed(w: World, stale: Stale, r: Ref)
    requires Held(w, stale) && r in w.memory
    ensures Known(w.memory, w.kinds, w.sorts, r) <==> !Unaddressed(w, r)
    ensures Unaddressed(w, r) ==> LogicalOf(w.memory, r) == UNASSIGNED
    ensures LogicalOf(w.memory, r) == NIL_ADDR <==> r == NIL
  {
    assert Constant(NIL_ADDR) == NIL;
    if !Unaddressed(w, r) {
      PlacedKnown(w, r);
    } else {
      ConstantHeld(w, stale, NIL_ADDR);
    }
  }

  /** What is written can be read by its shape exactly if all it refers to has an address. */
  lemma WrittenTypedIff(w: World, stale: Stale, r: Ref)
    requires Held(w, stale) && r in w.memory && r in w.kinds && w.kinds[r].rank > 0 && IsIntact(w, r)
    ensures w.memory[r].storage.Writable()
    ensures WellTyped(ValueOf(w.memory, w.memory[r]), w.kinds[r], w.sorts) <==> Settled(w, r)
  {
    hide WellTyped, ValueOf;
    var o := w.memory[r];
    assert LinksIn(w.memory, o) && WellFormed(w.kinds, o, w.kinds[r]);
    forall x | x == o.shape || x in o.storage.Links()
      ensures x in w.memory && (Known(w.memory, w.kinds, w.sorts, x) <==> !Unaddressed(w, x))
      ensures Unaddressed(w, x) ==> LogicalOf(w.memory, x) == UNASSIGNED
      ensures LogicalOf(w.memory, x) == NIL_ADDR <==> x == NIL
    {
      PlacedOrUnaddressed(w, stale, x);
    }
    WrittenIsTyped(w.memory, w.kinds, w.sorts, o, w.kinds[r]);
  }

  /** A reference to an object without an address is written as the address zero. */
  lemma SkippedIsZero(w: World, r: Ref, i: nat)
    requires r in w.memory && w.memory[r].storage.Writable() && i < |w.memory[r].storage.Links()|
    requires Unaddressed(w, w.memory[r].storage.Links()[i])
    ensures i < |References(ValueOf(w.memory, w.memory[r]))|
    ensures References(ValueOf(w.memory, w.memory[r]))[i] == UNASSIGNED
  {
    var links := w.memory[r].storage.Links();
    assert References(ValueOf(w.memory, w.memory[r])) == Addresses(w.memory, links);
  }

  /** The file with a value written at an address. */
  function Written(w: World, k: nat, v: Value): World {
    w.(layout := w.layout.(disk := w.layout.disk[k := v]))
  }

  lemma WrittenIs(w: World, k: nat, v: Value)
    ensures Written(w, k, v) == w.(layout := w.layout.(disk := w.layout.disk[k := v]))
  {
  }

  /** Every other session's copy of the object at `k` is out of date. */
  function Outdated(stale: Stale, sessions: nat, s: nat, k: Key): Stale {
    stale + set z: nat | z < sessions && z != s :: (z, k)
  }

  lemma EntriesWritten(w: World, s: nat, cache: Entries, dirty: Entries, stale: Stale, stale': Stale, a: Key, v: Value)
    requires EntriesIn(w, s, cache) && DirtyIn(w, s, cache, dirty) && CurrentIn(w, s, cache, dirty, stale)
    requires a in dirty || (s, a) in stale'
    requires forall k | (s, k) in stale :: (s, k) in stale'
    ensures var w' := Written(w, a, v);
      EntriesIn(w', s, cache) && DirtyIn(w', s, cache, dirty) && CurrentIn(w', s, cache, dirty, stale')
  {
    var w' := Written(w, a, v);
    forall k | k in cache ensures IsEntry(w', s, k, cache[k]) {
      assert IsEntry(w, s, k, cache[k]);
    }
    forall k | k in cache && k !in dirty && (s, k) !in stale' && IsIntact(w', cache[k]) ensures Current(w', cache[k]) {
      assert IsEntry(w, s, k, cache[k]);
      assert Current(w, cache[k]);
    }
  }

  lemma WrittenHeld(w: World, k: nat, v: Value)
    requires Reserved(w) && Typed(w) && ConstantsReady(w) && Linked(w) && AllPlaced(w) && AllFormed(w) && CopiesSound(w)
    requires k in w.sorts ==> WellTyped(v, w.sorts[k], w.sorts)
    ensures var w' := Written(w, k, v);
      Reserved(w') && Typed(w') && ConstantsReady(w') && Linked(w') && AllPlaced(w') && AllFormed(w') && CopiesSound(w')
  {
    var w' := Written(w, k, v);
    CopiesStay(w, w');
    ConstantsWritten(w, k, v);
    forall x | x in w'.memory ensures Placed(w', x) {
      assert Placed(w, x);
    }
  }

  lemma ConstantsWritten(w: World, k: nat, v: Value)
    requires ConstantsReady(w)
    ensures ConstantsReady(Written(w, k, v))
  {
    var w' := Written(w, k, v);
    forall a: Word, x | IsFixedAddr(a) && x in w.memory[Constant(a)].storage.Links() ensures !IsStub(w', x) {
      assert !IsStub(w, x);
    }
  }

  lemma TypedSize(v: Value, t: Sort, sorts: Sorts)
    requires WellTyped(v, t, sorts)
    ensures Footprint(v) == FormSize(t.form) && Encodable(v)
  {
    FitsSize(v, t.form);
  }

  /** Writing a changed object makes it what the file has, and other sessions' copies of it out of date. */
  lemma WriteHolds(w: World, stale: Stale, s: nat, k: Key)
    requires Held(w, stale) && s < |w.sessions| && k in Dirty(w.sessions[s]) && k != UNASSIGNED
    requires Settled(w, Dirty(w.sessions[s])[k])
    ensures var r := Dirty(w.sessions[s])[k];
      && k in w.sorts && k in w.layout.extents
      && IsEntry(w, s, k, r) && IsIntact(w, r) && w.memory[r].storage.Writable() && w.memory[r].physical == w.layout.extents[k].base
      && Footprint(ValueOf(w.memory, w.memory[r])) <= w.layout.extents[k].size && Encodable(ValueOf(w.memory, w.memory[r]))
      && var w' := Written(w, k, ValueOf(w.memory, w.memory[r]));
         Held(w', Outdated(stale, |w.sessions|, s, k)) && Current(w', r)
  {
    hide Contents, RedBlack.Valid, WellTyped, WellFormed, AllPlaced, AllFormed, ConstantsReady, SessionsSound;
    var r := Dirty(w.sessions[s])[k];
    SetsHeld(w, stale, s);
    EntryHeld(w, stale, s, k);
    WrittenTypedIff(w, stale, r);
    TypedSize(ValueOf(w.memory, w.memory[r]), w.kinds[r], w.sorts);
    WrittenSessions(w, stale, s, k, ValueOf(w.memory, w.memory[r]));
    WrittenHeld(w, k, ValueOf(w.memory, w.memory[r]));
  }

  lemma WrittenSessions(w: World, stale: Stale, s: nat, k: Key, v: Value)
    requires SessionsSound(w, stale) && s < |w.sessions| && k in Dirty(w.sessions[s])
    ensures SessionsSound(Written(w, k, v), Outdated(stale, |w.sessions|, s, k))
  {
    var w', stale' := Written(w, k, v), Outdated(stale, |w.sessions|, s, k);
    forall z | 0 <= z < |w'.sessions| ensures SessionSound(w', z, stale') {
      assert SessionSound(w, z, stale);
      EntriesWritten(w, z, Cache(w.sessions[z]), Dirty(w.sessions[z]), stale, stale', k, v);
    }
  }

  /** Writing a counter makes every session's copy of it out of date. */
  lemma CounterHolds(w: World, stale: Stale, k: nat, v: Value)
    requires Held(w, stale) && k in w.sorts && WellTyped(v, w.sorts[k], w.sorts)
    ensures Held(Written(w, k, v), stale + set z: nat | z < |w.sessions| :: (z, k))
  {
    var w', stale' := Written(w, k, v), stale + set z: nat | z < |w.sessions| :: (z, k);
    WrittenHeld(w, k, v);
    forall z | 0 <= z < |w'.sessions| ensures SessionSound(w', z, stale') {
      assert SessionSound(w, z, stale);
      EntriesWritten(w, z, Cache(w.sessions[z]), Dirty(w.sessions[z]), stale, stale', k, v);
    }
  }
}

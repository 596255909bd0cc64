/** Everything in memory beside the file: objects, sessions, and what has to agree between them. */
module World {
  import opened Words
  import opened AddressMap
  import opened Codec
  import opened RedBlack
  import opened RedBlackInsert
  import opened Objects
  import opened Store

  /** `kinds` are the sorts of the objects in memory, `sorts` those of the addresses in use. With `corrected`,
      collections can be read, every object's size covers its words, and an object without a physical address is not
      refreshed; the code as written does none of this. */
  datatype World = World(memory: Memory, kinds: Kinds, sessions: seq<Session>, layout: Layout, sorts: Sorts, corrected: bool)

  // ----- The file

  predicate Served(f: Form, corrected: bool) {
    !f.OtherForm? && (corrected || !(f.FixedForm? || f == StringForm(0)))
  }

  /** The allocator and its two counters. */
  const FIRST_SORTS: Sorts :=
    map[ALLOCATOR_ADDR := Sort(2, SlottedForm(2)), NEXT_PHYSICAL_ADDR := Sort(1, IntegerForm), NEXT_LOGICAL_ADDR := Sort(1, IntegerForm)]

  /** Words are reserved for every address that has a sort, and for no other. */
  ghost predicate Reserved(w: World) {
    && (forall a | a in w.sorts ::
          && 0 < a < ADDRESS_LIMIT && a in w.layout.extents && w.sorts[a].rank > 0
          && Served(w.sorts[a].form, w.corrected) && FormSize(w.sorts[a].form) <= w.layout.extents[a].size)
    && (forall a | a in w.layout.extents :: a in w.sorts)
    && (forall a | a in FIRST_SORTS :: a in w.sorts && w.sorts[a] == FIRST_SORTS[a])
  }

  /** What is stored is as its sort says. */
  ghost predicate Typed(w: World) {
    forall a | a in w.sorts && a in w.layout.disk :: WellTyped(w.layout.disk[a], w.sorts[a], w.sorts)
  }

  ghost predicate AllStored(w: World) {
    forall a | a in w.sorts :: a in w.layout.disk
  }

  // ----- Objects

  ghost predicate ConstantsReady(w: World) {
    forall a: Word | IsFixedAddr(a) ::
      Constant(a) in w.memory && Constant(a) in w.kinds
      && w.memory[Constant(a)].logical == a && w.kinds[Constant(a)] == Sort(0, ConstantForm(a))
      && forall x | x in w.memory[Constant(a)].storage.Links() :: !IsStub(w, x)
  }

  /** What is in memory refers only to what is in memory. */
  ghost predicate Linked(w: World) {
    && w.kinds.Keys == w.memory.Keys
    && forall r {:trigger LinksIn(w.memory, w.memory[r])} | r in w.memory :: LinksIn(w.memory, w.memory[r])
  }

  ghost predicate LinksIn(m: Memory, o: Obj) {
    o.shape in m && forall x | x in o.storage.Links() :: x in m
  }

  /** The object is none of the constants and has no address yet. */
  predicate Unaddressed(w: World, r: Ref) {
    r in w.memory && r in w.kinds && w.kinds[r].rank > 0 && w.memory[r].logical == UNASSIGNED
  }

  /** It belongs to no session either. */
  predicate Transient(w: World, r: Ref) {
    r in w.memory && r in w.kinds && w.kinds[r].rank > 0 && w.memory[r].session == None
  }

  /** A program has set its session, as is the way to persist a first object. */
  predicate Claimed(w: World, r: Ref) {
    Unaddressed(w, r) && w.memory[r].session.Some?
  }

  predicate IsStub(w: World, r: Ref) {
    r in w.memory && w.memory[r].storage.StubStorage?
  }

  /** The object was refreshed from the header of the file, as it had no physical address. */
  predicate IsMisread(w: World, r: Ref) {
    r in w.memory && w.memory[r].storage.MisreadStorage?
  }

  predicate IsIntact(w: World, r: Ref) {
    r in w.memory && w.memory[r].storage.Intact()
  }

  /** What was made of it: a shape whose slot names are the allocator. */
  ghost predicate Misshapen(w: World, r: Ref)
    requires r in w.memory && r in w.kinds && w.memory[r].storage.MisreadStorage?
  {
    && !w.corrected && Served(w.kinds[r].form, false) && w.memory[r].physical == UNASSIGNED && w.memory[r].shape == NIL
    && LogicalOf(w.memory, w.memory[r].storage.slotNames) == ALLOCATOR_ADDR
  }

  ghost predicate Placed(w: World, r: Ref)
    requires r in w.memory && r in w.kinds
  {
    var o := w.memory[r];
    && (o.storage.MisreadStorage? ==> Misshapen(w, r))
    && if w.kinds[r].rank == 0 then
         o.session == None && IsFixedAddr(o.logical) && r == Constant(o.logical) && o.storage.Intact()
       else if o.logical == UNASSIGNED then
         && o.physical == UNASSIGNED && !o.storage.StubStorage?
         && match o.session
            case None => o.storage.Intact()
            case Some(s) => s < |w.sessions| && Served(w.kinds[r].form, w.corrected)
       else
         && o.session.Some? && o.session.value < |w.sessions|
         && o.logical in w.sorts && o.logical in w.layout.extents && w.kinds[r] == w.sorts[o.logical]
         && if o.storage.Intact() then o.physical == w.layout.extents[o.logical].base
            else
              && o.physical == UNASSIGNED
              && (o.storage.StubStorage? ==> o.storage.address == o.logical && o.shape == Constant(STUB_SHAPE_ADDR))
  }

  ghost predicate AllPlaced(w: World)
    requires w.kinds.Keys == w.memory.Keys
  {
    forall r {:trigger Placed(w, r)} | r in w.memory :: Placed(w, r)
  }

  ghost predicate AllFormed(w: World)
    requires w.kinds.Keys == w.memory.Keys
  {
    forall r {:trigger WellFormed(w.kinds, w.memory[r], w.kinds[r])} | r in w.memory && w.memory[r].storage.Intact() ::
      WellFormed(w.kinds, w.memory[r], w.kinds[r])
  }

  // ----- Sessions

  type Entries = map<Key, Ref>

  function Cache(z: Session): Entries {
    Contents(z.readSet)
  }

  /** What the open transaction has changed. */
  function Dirty(z: Session): Entries {
    if z.writeSet.Some? then Contents(z.writeSet.value) else map[]
  }

  /** The object is what the file holds at its address. */
  ghost predicate Current(w: World, r: Ref) {
    && r in w.memory && w.memory[r].storage.Writable()
    && w.memory[r].logical in w.layout.disk && ValueOf(w.memory, w.memory[r]) == w.layout.disk[w.memory[r].logical]
  }

  ghost predicate IsEntry(w: World, s: nat, k: Key, r: Ref) {
    && r in w.memory && r in w.kinds && w.memory[r].session == Some(s) && w.memory[r].logical == k && w.kinds[r].rank > 0
    && k in w.sorts
  }

  ghost predicate EntriesIn(w: World, s: nat, cache: Entries) {
    forall k {:trigger IsEntry(w, s, k, cache[k])} | k in cache :: IsEntry(w, s, k, cache[k])
  }

  /** Address zero leads to an object that had no address when it was marked. */
  ghost predicate DirtyIn(w: World, s: nat, cache: Entries, dirty: Entries) {
    forall k | k in dirty ::
      if k == UNASSIGNED then
        && dirty[k] in w.memory && dirty[k] in w.kinds && !IsStub(w, dirty[k])
        && w.memory[dirty[k]].session == Some(s) && w.kinds[dirty[k]].rank > 0
      else k > NEXT_LOGICAL_ADDR && k in cache && cache[k] == dirty[k] && IsIntact(w, dirty[k])
  }

  ghost predicate TreesSound(z: Session) {
    RedBlack.Valid(z.readSet) && (z.writeSet.Some? ==> RedBlack.Valid(z.writeSet.value))
  }

  /** The read set leads each address to an object of the session at that address; the write set is a part of it
      that holds no stubs, but for one object that may be yet without an address. */
  ghost predicate Cached(w: World, s: nat)
    requires s < |w.sessions|
  {
    var z := w.sessions[s];
    TreesSound(z) && EntriesIn(w, s, Cache(z)) && DirtyIn(w, s, Cache(z), Dirty(z))
  }

  /** Pairs of a session and an address whose copy is yet to be brought up to date. */
  type Stale = set<(nat, Key)>

  ghost predicate CurrentIn(w: World, s: nat, cache: Entries, dirty: Entries, stale: Stale) {
    forall k {:trigger Current(w, cache[k])} | k in cache && k !in dirty && (s, k) !in stale && IsIntact(w, cache[k]) ::
      Current(w, cache[k])
  }

  /** What a session has read and not changed is what the file holds. */
  ghost predicate Coherent(w: World, s: nat, stale: Stale)
    requires s < |w.sessions|
  {
    CurrentIn(w, s, Cache(w.sessions[s]), Dirty(w.sessions[s]), stale)
  }

  ghost predicate SessionSound(w: World, s: nat, stale: Stale)
    requires s < |w.sessions|
  {
    Cached(w, s) && Coherent(w, s, stale)
  }

  ghost predicate SessionsSound(w: World, stale: Stale) {
    forall s | 0 <= s < |w.sessions| :: SessionSound(w, s, stale)
  }

  /** A whole copy that a session has of the allocator or of one of its counters. */
  predicate IsCopy(w: World, x: Ref) {
    && IsIntact(w, x) && 0 < w.memory[x].logical <= NEXT_LOGICAL_ADDR
    && w.memory[x].session.Some? && w.memory[x].session.value < |w.sessions|
  }

  /** Of a counter it is the one in the read set: a copy is never replaced. Of the allocator it refers to objects of
      its session. */
  ghost predicate CopySound(w: World, x: Ref)
    requires IsCopy(w, x)
  {
    var s, k := w.memory[x].session.value, w.memory[x].logical;
    if k == ALLOCATOR_ADDR then LinksOwn(w, s, w.memory[x])
    else k in Cache(w.sessions[s]) && Cache(w.sessions[s])[k] == x
  }

  ghost predicate CopiesSound(w: World) {
    forall x {:trigger IsCopy(w, x)} | IsCopy(w, x) :: CopySound(w, x)
  }

  /** What holds of memory and file even while a transaction is being committed. */
  ghost predicate Held(w: World, stale: Stale) {
    && Reserved(w) && Typed(w) && ConstantsReady(w) && Linked(w) && AllPlaced(w) && AllFormed(w)
    && SessionsSound(w, stale) && CopiesSound(w)
  }

  /** The object was a copy, at the same address and with the same references. */
  predicate SameCopy(w: World, w': World, x: Ref) {
    && IsCopy(w, x) && IsCopy(w', x)
    && w'.memory[x].session == w.memory[x].session && w'.memory[x].logical == w.memory[x].logical
    && (w.memory[x].logical == ALLOCATOR_ADDR ==>
          w'.memory[x].shape == w.memory[x].shape && w'.memory[x].storage == w.memory[x].storage)
  }

  /** The counters have their entries still. */
  predicate SameCopies(before: Entries, after: Entries) {
    forall k | IsCounter(k) && k in before :: k in after && after[k] == before[k]
  }

  /** The copies there are were there, the read sets still have them, and objects stay with their sessions. */
  lemma CopiesStay(w: World, w': World)
    requires CopiesSound(w) && |w'.sessions| >= |w.sessions|
    requires forall x | IsCopy(w', x) :: SameCopy(w, w', x)
    requires forall z | 0 <= z < |w.sessions| :: SameCopies(Cache(w.sessions[z]), Cache(w'.sessions[z]))
    requires forall z: nat, x {:trigger IsOwn(w', z, x)} {:trigger IsOwn(w, z, x)} :: IsOwn(w, z, x) ==> IsOwn(w', z, x)
    ensures CopiesSound(w')
  {
    hide Contents;
    forall x | IsCopy(w', x) ensures CopySound(w', x) {
      assert SameCopy(w, w', x) && CopySound(w, x);
    }
  }

  /** What was marked without an address still has none: only a commit gives addresses. */
  ghost predicate RootsWait(w: World) {
    forall s | 0 <= s < |w.sessions| && UNASSIGNED in Dirty(w.sessions[s]) ::
      Claimed(w, Dirty(w.sessions[s])[UNASSIGNED]) && IsIntact(w, Dirty(w.sessions[s])[UNASSIGNED])
  }

  /** What holds between two calls. */
  ghost predicate Consistent(w: World) {
    Held(w, {}) && AllStored(w) && RootsWait(w)
  }

  // ----- Reading: objects are added, and one read set changes

  /** Entries stay, but for stubs that are replaced, and all others are new objects. */
  ghost predicate Kept(w: World, before: Entries, after: Entries) {
    && (forall k | k in before :: k in after && (!IsStub(w, before[k]) ==> after[k] == before[k]))
    && (forall k | k in after :: after[k] !in w.memory || (k in before && before[k] == after[k]))
  }

  /** A constant or an object of the session. */
  ghost predicate IsOwn(w: World, s: nat, r: Ref) {
    r in w.memory && (IsFixedAddr(w.memory[r].logical) || w.memory[r].session == Some(s))
  }

  ghost predicate LinksOwn(w: World, s: nat, o: Obj) {
    IsOwn(w, s, o.shape) && forall x | x in o.storage.Links() :: IsOwn(w, s, x)
  }

  /** An object that the session has read, or a stub, that refers to nothing of other sessions. */
  ghost predicate ReadBy(w: World, s: nat, x: Ref) {
    && x in w.memory && w.memory[x].session == Some(s) && w.memory[x].logical in w.sorts && LinksOwn(w, s, w.memory[x])
    && (IsStub(w, x) || Current(w, x))
  }

  /** A reference that is read leads to a constant, to what the session has at the address if that is more than a
      stub, and otherwise to a new object. */
  ghost predicate TakenUp(w: World, s: nat, m: Memory, x: Ref) {
    && x in m
    && (IsFixedAddr(m[x].logical) ||
        if Live(w, s, m[x].logical) then x == Cache(w.sessions[s])[m[x].logical] else x !in w.memory)
  }

  ghost predicate LinksTaken(w: World, s: nat, m: Memory, o: Obj) {
    TakenUp(w, s, m, o.shape) && forall x | x in o.storage.Links() :: TakenUp(w, s, m, x)
  }

  ghost predicate NewAreRead(w: World, w': World, s: nat) {
    forall x {:trigger ReadBy(w', s, x)} | x in w'.memory && x !in w.memory ::
      ReadBy(w', s, x) && LinksTaken(w, s, w'.memory, w'.memory[x])
  }

  /** Nothing but the read set of `s` changed, what was in memory is there unchanged, and what is new was read. */
  ghost predicate Extends(w: World, w': World, s: nat) {
    && w'.sorts == w.sorts && w'.corrected == w.corrected && s < |w.sessions| == |w'.sessions|
    && (forall z | 0 <= z < |w.sessions| && z != s :: w'.sessions[z] == w.sessions[z])
    && w'.sessions[s].writeSet == w.sessions[s].writeSet
    && Grows(w, w') && NewAreRead(w, w', s)
    && Kept(w, Cache(w.sessions[s]), Cache(w'.sessions[s]))
  }

  lemma ReadStays(w: World, w': World, s: nat, x: Ref)
    requires ReadBy(w, s, x) && Linked(w) && Grows(w, w') && w'.sorts == w.sorts
    ensures ReadBy(w', s, x)
  {
    if !IsStub(w, x) {
      CurrentGrows(w, w', x);
    }
  }

  /** What reading finds later it has found, or not yet found, earlier. */
  lemma TakenBefore(w: World, w1: World, s: nat, m: Memory, x: Ref)
    requires Extends(w, w1, s) && EntriesIn(w, s, Cache(w.sessions[s])) && TakenUp(w1, s, m, x)
    ensures TakenUp(w, s, m, x)
  {
    var a, c := m[x].logical, Cache(w.sessions[s]);
    if a in c {
      assert IsEntry(w, s, a, c[a]);
    }
  }

  lemma LinksTakenBefore(w: World, w1: World, s: nat, m: Memory, o: Obj)
    requires Extends(w, w1, s) && EntriesIn(w, s, Cache(w.sessions[s])) && LinksTaken(w1, s, m, o)
    ensures LinksTaken(w, s, m, o)
  {
    TakenBefore(w, w1, s, m, o.shape);
    forall x | x in o.storage.Links() ensures TakenUp(w, s, m, x) {
      TakenBefore(w, w1, s, m, x);
    }
  }

  lemma TakenLater(w: World, s: nat, m: Memory, m': Memory, o: Obj)
    requires LinksTaken(w, s, m, o) && forall x | x in m :: x in m' && m'[x] == m[x]
    ensures LinksTaken(w, s, m', o)
  {
  }

  lemma NewThen(w: World, w1: World, w2: World, s: nat)
    requires Extends(w, w1, s) && Extends(w1, w2, s) && EntriesIn(w, s, Cache(w.sessions[s])) && Linked(w1)
    ensures NewAreRead(w, w2, s)
  {
    hide Contents, Current, Kept, LinksTaken, LinksOwn;
    forall x | x in w2.memory && x !in w.memory ensures ReadBy(w2, s, x) && LinksTaken(w, s, w2.memory, w2.memory[x]) {
      if x in w1.memory {
        assert ReadBy(w1, s, x);
        ReadStays(w1, w2, s, x);
        TakenLater(w, s, w1.memory, w2.memory, w1.memory[x]);
      } else {
        assert ReadBy(w2, s, x);
        LinksTakenBefore(w, w1, s, w2.memory, w2.memory[x]);
      }
    }
  }

  lemma ExtendsTransitive(w: World, w1: World, w2: World, s: nat)
    requires Extends(w, w1, s) && Extends(w1, w2, s) && EntriesIn(w, s, Cache(w.sessions[s])) && Linked(w1)
    ensures Extends(w, w2, s)
  {
    hide NewAreRead, Contents;
    NewThen(w, w1, w2, s);
    forall k | k in Cache(w.sessions[s])
      ensures k in Cache(w2.sessions[s])
      ensures !IsStub(w, Cache(w.sessions[s])[k]) ==> Cache(w2.sessions[s])[k] == Cache(w.sessions[s])[k]
    {
      assert IsEntry(w, s, k, Cache(w.sessions[s])[k]);
    }
  }

  /** A new object under a new handle. */
  function Added(w: World, r: Ref, o: Obj, k: Sort): World {
    w.(memory := w.memory[r := o], kinds := w.kinds[r := k])
  }

  /** An object entered in a session's read set. */
  function Entered(w: World, s: nat, r: Ref, o: Obj, k: Sort): World
    requires s < |w.sessions|
  {
    var z := w.sessions[s];
    Added(w, r, o, k).(sessions := w.sessions[s := z.(readSet := Insert(z.readSet, o.logical, r))])
  }

  /** What it takes to enter an object. */
  ghost predicate Enterable(w: World, s: nat, r: Ref, o: Obj, k: Sort) {
    && s < |w.sessions| && r !in w.memory && k.rank > 0 && o.session == Some(s)
    && o.logical in w.sorts && k == w.sorts[o.logical] && o.logical in w.layout.extents
    && (if o.storage.StubStorage? then
          o.physical == UNASSIGNED && o.storage.address == o.logical && o.shape == Constant(STUB_SHAPE_ADDR)
        else o.physical == w.layout.extents[o.logical].base && WellFormed(w.kinds, o, k))
    && LinksIn(w.memory, o) && LinksOwn(w, s, o)
  }

  lemma ConstantsStay(w: World, w': World)
    requires ConstantsReady(w) && Linked(w) && Grows(w, w')
    ensures ConstantsReady(w')
  {
    forall a: Word, x | IsFixedAddr(a) && x in w.memory[Constant(a)].storage.Links() ensures !IsStub(w', x) {
      assert LinksIn(w.memory, w.memory[Constant(a)]) && !IsStub(w, x);
    }
  }

  lemma PlacedGrows(w: World, w': World, x: Ref)
    requires x in w.memory && x in w.kinds && Placed(w, x) && Linked(w)
    requires Grows(w, w') && w'.sorts == w.sorts && w'.corrected == w.corrected
    ensures Placed(w', x)
  {
    assert LinksIn(w.memory, w.memory[x]);
  }

  lemma EnteredPlaced(w: World, s: nat, r: Ref, o: Obj, k: Sort)
    requires Reserved(w) && Linked(w) && AllPlaced(w) && Enterable(w, s, r, o, k)
    ensures Linked(Entered(w, s, r, o, k)) && AllPlaced(Entered(w, s, r, o, k))
  {
    var w' := Entered(w, s, r, o, k);
    forall x | x in w'.memory ensures Placed(w', x) && LinksIn(w'.memory, w'.memory[x]) {
      if x != r {
        assert Placed(w, x) && LinksIn(w.memory, w.memory[x]);
        PlacedGrows(w, w', x);
      }
    }
  }

  lemma EnteredFormed(w: World, s: nat, r: Ref, o: Obj, k: Sort)
    requires Linked(w) && AllFormed(w) && Enterable(w, s, r, o, k)
    ensures AllFormed(Entered(w, s, r, o, k))
  {
    var w' := Entered(w, s, r, o, k);
    forall x | x in w'.memory && w'.memory[x].storage.Intact()
      ensures WellFormed(w'.kinds, w'.memory[x], w'.kinds[x])
    {
      if x == r {
        FormedGrows(w.kinds, w'.kinds, o, k);
      } else {
        assert WellFormed(w.kinds, w.memory[x], w.kinds[x]);
        FormedGrows(w.kinds, w'.kinds, w.memory[x], w.kinds[x]);
      }
    }
  }

  lemma FormedGrows(kinds: Kinds, kinds': Kinds, o: Obj, k: Sort)
    requires WellFormed(kinds, o, k) && forall r | r in kinds :: r in kinds' && kinds'[r] == kinds[r]
    ensures WellFormed(kinds', o, k)
  {
  }

  lemma CurrentGrows(w: World, w': World, r: Ref)
    requires Current(w, r) && Linked(w) && w'.layout == w.layout
    requires forall x | x in w.memory :: x in w'.memory && w'.memory[x] == w.memory[x]
    ensures Current(w', r)
  {
    assert LinksIn(w.memory, w.memory[r]);
    ValueStays(w.memory, w'.memory, w.memory[r]);
  }

  /** Memory grows, the file stays. */
  ghost predicate Grows(w: World, w': World) {
    && w'.layout == w.layout && |w'.sessions| == |w.sessions|
    && (forall x | x in w.memory :: x in w'.memory && w'.memory[x] == w.memory[x])
    && (forall x | x in w.kinds :: x in w'.kinds && w'.kinds[x] == w.kinds[x])
  }

  lemma EntriesGrow(w: World, w': World, s: nat, cache: Entries, dirty: Entries, stale: Stale)
    requires Grows(w, w') && Linked(w) && w'.sorts == w.sorts
    requires EntriesIn(w, s, cache) && DirtyIn(w, s, cache, dirty) && CurrentIn(w, s, cache, dirty, stale)
    ensures EntriesIn(w', s, cache) && DirtyIn(w', s, cache, dirty) && CurrentIn(w', s, cache, dirty, stale)
  {
    forall k | k in cache ensures IsEntry(w', s, k, cache[k]) {
      assert IsEntry(w, s, k, cache[k]);
    }
    forall k | k in cache && k !in dirty && (s, k) !in stale && IsIntact(w', cache[k]) ensures Current(w', cache[k]) {
      assert IsEntry(w, s, k, cache[k]);
      assert Current(w, cache[k]);
      CurrentGrows(w, w', cache[k]);
    }
  }

  lemma EntryAdded(w: World, s: nat, cache: Entries, dirty: Entries, stale: Stale, a: Key, r: Ref)
    requires EntriesIn(w, s, cache) && DirtyIn(w, s, cache, dirty) && CurrentIn(w, s, cache, dirty, stale)
    requires IsEntry(w, s, a, r) && a !in dirty && (IsIntact(w, r) ==> Current(w, r))
    ensures EntriesIn(w, s, cache[a := r]) && DirtyIn(w, s, cache[a := r], dirty)
    ensures CurrentIn(w, s, cache[a := r], dirty, stale)
  {
    var cache' := cache[a := r];
    forall k | k in cache' ensures IsEntry(w, s, k, cache'[k]) {
      assert k != a ==> IsEntry(w, s, k, cache[k]);
    }
    forall k | k in cache' && k !in dirty && (s, k) !in stale && IsIntact(w, cache'[k]) ensures Current(w, cache'[k]) {
      assert k != a ==> Current(w, cache[k]);
    }
  }

  lemma SessionGrows(w: World, w': World, s: nat, stale: Stale)
    requires Grows(w, w') && Linked(w) && w'.sorts == w.sorts && s < |w.sessions| && w'.sessions[s] == w.sessions[s]
    requires SessionSound(w, s, stale)
    ensures SessionSound(w', s, stale)
  {
    EntriesGrow(w, w', s, Cache(w.sessions[s]), Dirty(w.sessions[s]), stale);
  }

  lemma SessionEntered(w: World, s: nat, r: Ref, o: Obj, k: Sort, stale: Stale)
    requires s < |w.sessions| && Linked(w) && SessionSound(w, s, stale) && Enterable(w, s, r, o, k)
    requires o.logical !in Dirty(w.sessions[s]) && (!o.storage.StubStorage? ==> Current(Added(w, r, o, k), r))
    ensures SessionSound(Entered(w, s, r, o, k), s, stale)
    ensures Cache(Entered(w, s, r, o, k).sessions[s]) == Cache(w.sessions[s])[o.logical := r]
  {
    var w', z := Entered(w, s, r, o, k), w.sessions[s];
    InsertCorrect(z.readSet, o.logical, r);
    EntriesGrow(w, w', s, Cache(z), Dirty(z), stale);
    EntryAdded(w', s, Cache(z), Dirty(z), stale, o.logical, r);
  }

  /** No whole copy of a counter gives way. */
  predicate SparesCopies(w: World, s: nat, a: Word) {
    s < |w.sessions| && (IsCounter(a) && a in Cache(w.sessions[s]) ==> !IsIntact(w, Cache(w.sessions[s])[a]))
  }

  lemma CopyEntered(w: World, s: nat, r: Ref, o: Obj, k: Sort)
    requires CopiesSound(w) && Enterable(w, s, r, o, k) && SparesCopies(w, s, o.logical)
    requires Cache(Entered(w, s, r, o, k).sessions[s]) == Cache(w.sessions[s])[o.logical := r]
    ensures CopiesSound(Entered(w, s, r, o, k))
  {
    hide Contents, Insert, WellFormed;
    var w' := Entered(w, s, r, o, k);
    forall z: nat, x | IsOwn(w, z, x) ensures IsOwn(w', z, x) {
    }
    forall x | IsCopy(w', x) ensures CopySound(w', x) {
      if x == r {
        assert w'.memory[x] == o;
      } else {
        assert IsCopy(w, x) && CopySound(w, x);
      }
    }
  }

  /** Entering an object that was just read, or a stub, at an address the transaction has not changed. */
  lemma EnteredHolds(w: World, s: nat, r: Ref, o: Obj, k: Sort, stale: Stale)
    requires Held(w, stale) && Enterable(w, s, r, o, k) && SparesCopies(w, s, o.logical)
    requires o.logical !in Dirty(w.sessions[s])
    requires !o.storage.StubStorage? ==> Current(Added(w, r, o, k), r)
    ensures Held(Entered(w, s, r, o, k), stale)
    ensures Cache(Entered(w, s, r, o, k).sessions[s]) == Cache(w.sessions[s])[o.logical := r]
  {
    var w' := Entered(w, s, r, o, k);
    ConstantsStay(w, w');
    EnteredPlaced(w, s, r, o, k);
    EnteredFormed(w, s, r, o, k);
    SessionEntered(w, s, r, o, k, stale);
    CopyEntered(w, s, r, o, k);
    forall z | 0 <= z < |w'.sessions| ensures SessionSound(w', z, stale) {
      if z != s {
        SessionGrows(w, w', z, stale);
      }
    }
  }

  // ----- What holds of one object

  lemma ConstantHeld(w: World, stale: Stale, a: Word)
    requires Held(w, stale) && IsFixedAddr(a)
    ensures a !in w.sorts && Known(w.memory, w.kinds, w.sorts, Constant(a))
    ensures w.memory[Constant(a)].logical == a && IsIntact(w, Constant(a)) && w.memory[Constant(a)].session == None
  {
    assert Placed(w, Constant(a));
  }

  lemma EntryHeld(w: World, stale: Stale, s: nat, k: Key)
    requires Held(w, stale) && s < |w.sessions| && k in Cache(w.sessions[s])
    ensures var r := Cache(w.sessions[s])[k];
      && IsEntry(w, s, k, r) && k in w.sorts && k in w.layout.extents && Known(w.memory, w.kinds, w.sorts, r)
      && (IsStub(w, r) ==> w.memory[r].storage == StubStorage(k))
      && (!IsIntact(w, r) ==> k !in Dirty(w.sessions[s]) && w.memory[r].physical == UNASSIGNED)
      && k > 0
      && (IsIntact(w, r) ==> w.memory[r].physical == w.layout.extents[k].base)
  {
    assert SessionSound(w, s, stale);
    assert IsEntry(w, s, k, Cache(w.sessions[s])[k]);
    assert Placed(w, Cache(w.sessions[s])[k]);
  }

  lemma SessionHeld(w: World, stale: Stale, s: nat)
    requires Held(w, stale) && s < |w.sessions|
    ensures SessionSound(w, s, stale)
  {
  }

  lemma SetsHeld(w: World, stale: Stale, s: nat)
    requires Held(w, stale) && s < |w.sessions|
    ensures TreesSound(w.sessions[s]) && EntriesIn(w, s, Cache(w.sessions[s]))
    ensures DirtyIn(w, s, Cache(w.sessions[s]), Dirty(w.sessions[s]))
  {
    assert SessionSound(w, s, stale);
  }

  lemma AddressHeld(w: World, stale: Stale, a: nat)
    requires Held(w, stale)
    ensures a in w.sorts ==> 0 < a < ADDRESS_LIMIT && a in w.layout.extents && w.sorts[a].rank > 0 && KindOfForm(w.sorts[a].form).Some?
    ensures a in w.sorts && a in w.layout.disk ==> WellTyped(w.layout.disk[a], w.sorts[a], w.sorts)
    ensures a in w.layout.extents ==> a in w.sorts
    ensures a < 0x1_0000_0000 ==> (SortAt(w.sorts, a).Some? <==> IsFixedAddr(a) || a in w.sorts)
  {
  }

  lemma ExtendsThen(w: World, stale: Stale, w1: World, w2: World, s: nat)
    requires Held(w, stale) && Held(w1, stale) && Extends(w, w1, s) && Extends(w1, w2, s)
    ensures Extends(w, w2, s)
  {
    SetsHeld(w, stale, s);
    ExtendsTransitive(w, w1, w2, s);
  }

  lemma ExtendsSelf(w: World, s: nat)
    requires s < |w.sessions|
    ensures Extends(w, w, s)
  {
  }

  lemma RootsExtend(w: World, stale: Stale, w': World, s: nat)
    requires Held(w, stale) && RootsWait(w) && Extends(w, w', s)
    ensures RootsWait(w')
  {
    forall z | 0 <= z < |w'.sessions| && UNASSIGNED in Dirty(w'.sessions[z])
      ensures Claimed(w', Dirty(w'.sessions[z])[UNASSIGNED]) && IsIntact(w', Dirty(w'.sessions[z])[UNASSIGNED])
    {
      assert Dirty(w.sessions[z]) == Dirty(w'.sessions[z]);
    }
  }

  lemma ExtendsKnown(w: World, w': World, s: nat, r: Ref)
    requires Extends(w, w', s) && Known(w.memory, w.kinds, w.sorts, r)
    ensures Known(w'.memory, w'.kinds, w'.sorts, r) && w'.memory[r] == w.memory[r] && w'.kinds[r] == w.kinds[r]
  {
  }

  ghost function RankAt(sorts: Sorts, a: Word): nat {
    if SortAt(sorts, a).Some? then SortAt(sorts, a).value.rank else 0
  }

  ghost predicate Within(sorts: Sorts, addresses: seq<Word>, rank: nat) {
    forall i | 0 <= i < |addresses| :: SortAt(sorts, addresses[i]).Some? && RankAt(sorts, addresses[i]) <= rank
  }

  lemma LeadsAt(sorts: Sorts, addresses: seq<Word>, rank: nat, i: nat)
    requires Within(sorts, addresses, rank) && i < |addresses|
    ensures SortAt(sorts, addresses[i]).Some? && RankAt(sorts, addresses[i]) <= rank
  {
  }

  lemma ValueHeld(w: World, stale: Stale, a: nat)
    requires Held(w, stale) && AllStored(w) && a in w.sorts
    ensures a in w.layout.disk && a in w.layout.extents
    ensures var v := w.layout.disk[a];
      && Within(w.sorts, References(v), w.sorts[a].rank)
      && SortAt(w.sorts, ShapeWord(v)).Some? && RankAt(w.sorts, ShapeWord(v)) < w.sorts[a].rank
      && KindOfForm(w.sorts[a].form) == Some(KindOf(v))
    ensures RankAt(w.sorts, a) == w.sorts[a].rank
  {
    FitsSize(w.layout.disk[a], w.sorts[a].form);
  }

  /** An object that was read, given its address and session. */
  function Addressed(o: Obj, a: Word, s: nat): Obj {
    o.(logical := a, session := Some(s))
  }

  lemma ReadCanEnter(w: World, s: nat, r: Ref, o: Obj, a: Word)
    requires a in w.sorts && a in w.layout.extents && a in w.layout.disk && w.sorts[a].rank > 0
    requires LinksIn(w.memory, o) && LinksOwn(w, s, o) && WellFormed(w.kinds, o, w.sorts[a])
    requires ValueOf(w.memory, o) == w.layout.disk[a]
    requires s < |w.sessions| && r !in w.memory && o.physical == w.layout.extents[a].base
    ensures Enterable(w, s, r, Addressed(o, a, s), w.sorts[a])
    ensures Current(Added(w, r, Addressed(o, a, s), w.sorts[a]), r)
  {
    var w' := Added(w, r, Addressed(o, a, s), w.sorts[a]);
    ValueStays(w.memory, w'.memory, o);
    ValueStays(w.memory, w'.memory, Addressed(o, a, s));
    assert Addresses(w'.memory, o.storage.Links()) == Addresses(w'.memory, Addressed(o, a, s).storage.Links());
  }

  // ----- What reading brings about

  /** The session sees the address as `r`: the constant, the object it had, or one it has now, in its read set and
      no stub if it was to be read. An unmapped address is seen as nil. */
  ghost predicate Faulted(w: World, w': World, s: nat, a: Word, depth: int, r: Ref) {
    && Extends(w, w', s) && IsOwn(w', s, r)
    && (if SortAt(w.sorts, a).Some? then Known(w'.memory, w'.kinds, w'.sorts, r) && w'.memory[r].logical == a else r == NIL)
    && (IsFixedAddr(a) ==> r == Constant(a)) && (a !in w.sorts ==> w' == w)
    && (a in w.sorts ==>
          && a in w'.layout.extents && r in w'.memory && w'.memory[r].session == Some(s)
          && a in Cache(w'.sessions[s]) && Cache(w'.sessions[s])[a] == r
          && (IsStub(w', r) ==> w'.memory[r].storage == StubStorage(a))
          && (IsIntact(w', r) ==> w'.memory[r].physical == w'.layout.extents[a].base)
          && if Live(w, s, a) then r == Cache(w.sessions[s])[a] && w' == w
             else NewlyRead(w, w', r, depth) && LinksEntered(w', s, w'.memory[r]))
  }

  /** Within the depth, a new object that is as the file has it, its references read one less deep; past the depth
      a new stub, and nothing else is new. Nothing refers to it yet. */
  ghost predicate NewlyRead(w: World, w': World, r: Ref, depth: int) {
    && r !in w.memory && r in w'.memory && (forall x | x in w'.memory :: !Refers(w', x, r))
    && if depth > 0 then
         && !IsStub(w', r) && Current(w', r) && Resolved(w', w'.memory[r].storage.Links(), depth - 1)
         && (depth == 1 && IsFixedAddr(LogicalOf(w'.memory, w'.memory[r].shape)) ==>
               forall x | x in w'.memory && x !in w.memory :: x == r || IsStub(w', x))
       else IsStub(w', r) && forall x | x in w'.memory :: x == r || x in w.memory
  }

  predicate Refers(w: World, x: Ref, r: Ref) {
    x in w.memory && (w.memory[x].shape == r || r in w.memory[x].storage.Links())
  }

  /** None is a stub, if they were to be read. */
  ghost predicate Resolved(w: World, links: seq<Ref>, depth: int) {
    depth > 0 ==> forall x | x in links :: !IsStub(w, x)
  }

  /** Read one reference deep by a constant shape, all it has brought in are stubs. */
  ghost predicate Shallow(w: World, w': World, o: Obj, depth: int) {
    depth == 1 && IsFixedAddr(LogicalOf(w'.memory, o.shape)) ==> forall x | x in w'.memory && x !in w.memory :: IsStub(w', x)
  }

  /** The session has an object at the address, not only a stub. */
  ghost predicate Live(w: World, s: nat, a: Word) {
    s < |w.sessions| && a in Cache(w.sessions[s]) && !IsStub(w, Cache(w.sessions[s])[a])
  }

  lemma ConstantFaulted(w: World, stale: Stale, s: nat, a: Word, depth: int)
    requires Held(w, stale) && s < |w.sessions| && IsFixedAddr(a)
    ensures Faulted(w, w, s, a, depth, Constant(a))
  {
    ConstantHeld(w, stale, a);
    if a in Cache(w.sessions[s]) {
      EntryHeld(w, stale, s, a);
    }
  }

  lemma LiveFaulted(w: World, stale: Stale, s: nat, a: Word, depth: int)
    requires Held(w, stale) && Live(w, s, a)
    ensures Faulted(w, w, s, a, depth, Cache(w.sessions[s])[a])
  {
    EntryHeld(w, stale, s, a);
  }

  lemma UnmappedFaulted(w: World, stale: Stale, s: nat, a: Word, depth: int)
    requires Held(w, stale) && s < |w.sessions| && a !in w.sorts && !IsFixedAddr(a)
    ensures Faulted(w, w, s, a, depth, NIL)
  {
    ConstantHeld(w, stale, NIL_ADDR);
    if a in Cache(w.sessions[s]) {
      EntryHeld(w, stale, s, a);
    }
  }

  lemma EnteredExtends(w: World, w1: World, s: nat, r: Ref, o: Obj, k: Sort)
    requires Extends(w, w1, s) && r !in w1.memory && EntriesIn(w, s, Cache(w.sessions[s])) && Linked(w1)
    requires ReadBy(Entered(w1, s, r, o, k), s, r) && LinksTaken(w, s, w1.memory, o)
    requires !Live(w, s, o.logical)
    requires Cache(Entered(w1, s, r, o, k).sessions[s]) == Cache(w1.sessions[s])[o.logical := r]
    ensures Extends(w, Entered(w1, s, r, o, k), s)
  {
    hide Contents, Insert, Current, NewAreRead;
    var c, w' := Cache(w.sessions[s]), Entered(w1, s, r, o, k);
    NewEntered(w, w1, s, r, o, k);
    forall k | k in c && !IsStub(w, c[k]) ensures k != o.logical {
    }
  }

  lemma NewEntered(w: World, w1: World, s: nat, r: Ref, o: Obj, k: Sort)
    requires Extends(w, w1, s) && r !in w1.memory && Linked(w1)
    requires ReadBy(Entered(w1, s, r, o, k), s, r) && LinksTaken(w, s, w1.memory, o)
    ensures NewAreRead(w, Entered(w1, s, r, o, k), s)
  {
    hide Contents, Insert, Current, Kept, LinksTaken, LinksOwn;
    var w' := Entered(w1, s, r, o, k);
    forall x | x in w'.memory && x !in w.memory ensures ReadBy(w', s, x) && LinksTaken(w, s, w'.memory, w'.memory[x]) {
      if x != r {
        assert ReadBy(w1, s, x);
        ReadStays(w1, w', s, x);
      }
      TakenLater(w, s, w1.memory, w'.memory, w'.memory[x]);
    }
  }

  /** What entering must find: a stub and nothing read for it, or an object that was read deep enough. */
  ghost predicate ReadDeep(w: World, w1: World, s: nat, r: Ref, o: Obj, k: Sort, depth: int) {
    && LinksTaken(w, s, w1.memory, o)
    && if o.storage.StubStorage? then depth <= 0 && w1 == w
    else depth > 0 && Current(Added(w1, r, o, k), r) && Resolved(w1, o.storage.Links(), depth - 1) && Shallow(w, w1, o, depth)
  }

  lemma DeepEnough(w: World, w1: World, s: nat, r: Ref, o: Obj, k: Sort, depth: int)
    requires o.storage.StubStorage? ==> depth <= 0 && w1 == w
    requires !o.storage.StubStorage? ==> depth > 0 && Current(Added(w1, r, o, k), r) && Resolved(w1, o.storage.Links(), depth - 1)
    requires !o.storage.StubStorage? ==> Shallow(w, w1, o, depth)
    requires LinksTaken(w, s, w1.memory, o)
    ensures ReadDeep(w, w1, s, r, o, k, depth)
  {
  }

  lemma EnteredNew(w: World, w1: World, s: nat, r: Ref, o: Obj, k: Sort, depth: int)
    requires s < |w1.sessions| && r !in w1.memory && Linked(w1) && LinksIn(w1.memory, o)
    requires ReadDeep(w, w1, s, r, o, k, depth)
    requires forall x | x in w.memory :: x in w1.memory
    ensures NewlyRead(w, Entered(w1, s, r, o, k), r, depth)
  {
    var w', w2 := Entered(w1, s, r, o, k), Added(w1, r, o, k);
    assert w'.memory == w2.memory && w'.layout == w2.layout;
    forall x | x in o.storage.Links() ensures IsStub(w', x) == IsStub(w1, x) {
    }
    forall x | x in w'.memory ensures !Refers(w', x, r) {
      assert x != r ==> LinksIn(w1.memory, w1.memory[x]);
    }
    assert LogicalOf(w'.memory, o.shape) == LogicalOf(w1.memory, o.shape);
    assert depth > 0 ==> Current(w2, r);
    assert depth > 0 ==> Current(w', r);
  }

  lemma EnteredLinks(w1: World, s: nat, r: Ref, o: Obj, k: Sort)
    requires LinksEntered(w1, s, o) && s < |w1.sessions| && LinksIn(w1.memory, o) && r !in w1.memory
    requires Cache(Entered(w1, s, r, o, k).sessions[s]) == Cache(w1.sessions[s])[o.logical := r]
    ensures LinksEntered(Entered(w1, s, r, o, k), s, o)
  {
    forall x | x in o.storage.Links() ensures HasEntry(Entered(w1, s, r, o, k), s, LogicalOf(Entered(w1, s, r, o, k).memory, x)) {
      assert HasEntry(w1, s, LogicalOf(w1.memory, x));
    }
  }

  lemma HeldParts(w: World, stale: Stale)
    requires Held(w, stale)
    ensures Reserved(w) && Linked(w)
  {
  }

  lemma EnteredIsRead(w: World, w1: World, s: nat, r: Ref, o: Obj, k: Sort, depth: int)
    requires Enterable(w1, s, r, o, k) && ReadDeep(w, w1, s, r, o, k, depth)
    ensures ReadBy(Entered(w1, s, r, o, k), s, r) && LinksTaken(w, s, w1.memory, o)
  {
    var w', w2 := Entered(w1, s, r, o, k), Added(w1, r, o, k);
    assert w'.memory == w2.memory && w'.layout == w2.layout;
    forall x | IsOwn(w1, s, x) ensures IsOwn(w', s, x) {
    }
  }

  lemma EnteredFaulted(w: World, stale: Stale, w1: World, s: nat, r: Ref, o: Obj, depth: int)
    requires Held(w, stale) && Extends(w, w1, s) && !Live(w, s, o.logical) && o.logical in w.sorts
    requires Held(w1, stale) && Enterable(w1, s, r, o, w.sorts[o.logical])
    requires ReadDeep(w, w1, s, r, o, w.sorts[o.logical], depth) && LinksEntered(w1, s, o)
    requires Cache(Entered(w1, s, r, o, w.sorts[o.logical]).sessions[s]) == Cache(w1.sessions[s])[o.logical := r]
    ensures Faulted(w, Entered(w1, s, r, o, w.sorts[o.logical]), s, o.logical, depth, r)
  {
    hide Held, Insert, Contents, WellFormed, RedBlack.Valid, ReadDeep, NewlyRead, Current, LinksTaken, ReadBy, LinksOwn, LinksEntered;
    EnteredLinks(w1, s, r, o, w.sorts[o.logical]);
    HeldParts(w1, stale);
    EnteredIsRead(w, w1, s, r, o, w.sorts[o.logical], depth);
    SetsHeld(w, stale, s);
    AddressHeld(w, stale, o.logical);
    EnteredExtends(w, w1, s, r, o, w.sorts[o.logical]);
    EnteredNew(w, w1, s, r, o, w.sorts[o.logical], depth);
  }

  /** The record read at an address: not yet addressed, and with the value that is stored there. */
  ghost predicate ReadAt(w: World, w': World, s: nat, a: Word, o: Obj) {
    && Extends(w, w', s) && a in w.sorts && a in w.layout.extents && a in w.layout.disk
    && o.session == None && o.logical == UNASSIGNED && o.physical == w.layout.extents[a].base
    && LinksIn(w'.memory, o) && LinksOwn(w', s, o) && WellFormed(w'.kinds, o, w.sorts[a]) && o.storage.Writable()
    && ValueOf(w'.memory, o) == w.layout.disk[a] && LinksTaken(w, s, w'.memory, o) && LinksEntered(w', s, o)
  }

  lemma ReadEnters(w: World, stale: Stale, w1: World, s: nat, r: Ref, a: Word, o: Obj)
    requires Held(w, stale) && ReadAt(w, w1, s, a, o) && r !in w1.memory && !Live(w, s, a)
    ensures Enterable(w1, s, r, Addressed(o, a, s), w.sorts[a]) && a !in Dirty(w1.sessions[s])
    ensures Addressed(o, a, s).logical == a && !Addressed(o, a, s).storage.StubStorage? && Extends(w, w1, s)
    ensures Current(Added(w1, r, Addressed(o, a, s), w.sorts[a]), r)
    ensures Addressed(o, a, s).storage == o.storage && LinksTaken(w, s, w1.memory, Addressed(o, a, s))
    ensures LinksEntered(w1, s, Addressed(o, a, s))
  {
    AddressHeld(w, stale, a);
    ReadCanEnter(w1, s, r, o, a);
    NotDirty(w, stale, s, a);
  }

  lemma NotDirty(w: World, stale: Stale, s: nat, a: Word)
    requires Held(w, stale) && s < |w.sessions| && !Live(w, s, a) && a != UNASSIGNED
    ensures a !in Dirty(w.sessions[s])
  {
    SetsHeld(w, stale, s);
  }

  lemma StubEnters(w: World, stale: Stale, s: nat, r: Ref, a: Word)
    requires Held(w, stale) && a in w.sorts && s < |w.sessions| && r !in w.memory && !Live(w, s, a)
    ensures Enterable(w, s, r, Obj(Some(s), a, UNASSIGNED, Constant(STUB_SHAPE_ADDR), StubStorage(a)), w.sorts[a])
    ensures a !in Dirty(w.sessions[s])
    ensures LinksTaken(w, s, w.memory, Obj(Some(s), a, UNASSIGNED, Constant(STUB_SHAPE_ADDR), StubStorage(a)))
    ensures LinksEntered(w, s, Obj(Some(s), a, UNASSIGNED, Constant(STUB_SHAPE_ADDR), StubStorage(a)))
  {
    NotDirty(w, stale, s, a);
    ConstantHeld(w, stale, STUB_SHAPE_ADDR);
  }

  lemma CopiesSpared(w: World, s: nat, a: Word)
    requires s < |w.sessions| && !Live(w, s, a)
    ensures SparesCopies(w, s, a)
  {
  }

  lemma CounterSorts(w: World, stale: Stale, a: nat)
    requires Held(w, stale) && IsCounter(a)
    ensures a in w.sorts && w.sorts[a] == Sort(1, IntegerForm)
  {
    assert w.sorts[a] == FIRST_SORTS[a];
  }

  /** Reading an integer reads nothing else. */
  lemma IntegerValueHeld(w: World, stale: Stale, a: nat)
    requires Held(w, stale) && AllStored(w) && a in w.sorts && w.sorts[a].form == IntegerForm
    ensures a in w.layout.disk && IsFixedAddr(ShapeWord(w.layout.disk[a])) && References(w.layout.disk[a]) == []
    ensures ShapeWord(w.layout.disk[a]) !in w.sorts
  {
    assert WellTyped(w.layout.disk[a], w.sorts[a], w.sorts);
    ConstantHeld(w, stale, ShapeWord(w.layout.disk[a]));
  }

  lemma LiveIff(w: World, stale: Stale, s: nat, a: Word)
    requires Held(w, stale) && s < |w.sessions|
    ensures var found := Find(w.sessions[s].readSet, a);
      && (found.Some? ==> found.value in w.memory)
      && (Live(w, s, a) <==> found.Some? && !w.memory[found.value].storage.StubStorage?)
      && (Live(w, s, a) ==> found.value == Cache(w.sessions[s])[a])
  {
    SetsHeld(w, stale, s);
    FindReadsContents(w.sessions[s].readSet, a);
    if a in Cache(w.sessions[s]) {
      EntryHeld(w, stale, s, a);
    }
  }

  /** The object is a shape whose instances are of the sort `k`. */
  ghost predicate Describes(w: World, shape: Ref, k: Sort) {
    && shape in w.memory && shape in w.kinds && IsIntact(w, shape) && w.kinds[shape].rank < k.rank && KindOfForm(k.form).Some?
    && if shape == NIL then k.form.ShapeForm? else !k.form.ShapeForm? && w.kinds[shape].form == ShapeForm(KindOfForm(k.form))
  }

  /** As written no collection can be stored, so no shape of slotted objects can, and every shape that stored
      objects have is a constant. */
  lemma HeadersAreConstant(w: World, a: nat)
    requires Reserved(w) && Typed(w) && AllStored(w) && !w.corrected && a in w.sorts
    ensures IsFixedAddr(ShapeWord(w.layout.disk[a]))
  {
    var header := ShapeWord(w.layout.disk[a]);
    assert WellTyped(w.layout.disk[a], w.sorts[a], w.sorts);
    assert header in w.sorts ==> WellTyped(w.layout.disk[header], w.sorts[header], w.sorts);
  }

  lemma MisreadAreNoCollections(w: World, stale: Stale, r: Ref)
    requires Held(w, stale) && r in w.memory && w.kinds[r].form.FixedForm? && !IsStub(w, r)
    ensures IsIntact(w, r) && w.memory[r].storage.FixedStorage?
    ensures |w.memory[r].storage.contents| == w.kinds[r].form.length
  {
    assert Placed(w, r);
    assert WellFormed(w.kinds, w.memory[r], w.kinds[r]);
  }

  /** A shape that stored objects have is taken for what it is. */
  lemma ShapeIsIntact(w: World, stale: Stale, w1: World, s: nat, a: Word, shape: Ref)
    requires Held(w, stale) && AllStored(w) && a in w.sorts && Held(w1, stale)
    requires Faulted(w, w1, s, ShapeWord(w.layout.disk[a]), 3, shape)
    ensures shape in w1.memory && IsIntact(w1, shape)
  {
    hide WellTyped;
    var header := ShapeWord(w.layout.disk[a]);
    ValueHeld(w, stale, a);
    AddressHeld(w, stale, header);
    if IsFixedAddr(header) {
      ConstantHeld(w1, stale, header);
    } else {
      if !w.corrected {
        HeadersAreConstant(w, a);
      }
      assert Placed(w1, shape);
    }
  }

  lemma ShapeDescribes(w: World, stale: Stale, w1: World, s: nat, a: Word, shape: Ref)
    requires Held(w, stale) && AllStored(w) && a in w.sorts && Held(w1, stale)
    requires Faulted(w, w1, s, ShapeWord(w.layout.disk[a]), 3, shape)
    ensures Describes(w1, shape, w.sorts[a])
  {
    hide Held, Kept, NewAreRead, Grows, NewlyRead, Resolved, References;
    AddressHeld(w, stale, a);
    ShapeIsIntact(w, stale, w1, s, a, shape);
    ConstantHeld(w1, stale, NIL_ADDR);
    assert Known(w1.memory, w1.kinds, w1.sorts, shape);
  }

  /** The storage format of the shape tells the kind of its instances. */
  lemma FormatDescribes(w: World, stale: Stale, shape: Ref, k: Sort)
    requires Held(w, stale) && Describes(w, shape, k) && shape != NIL
    ensures w.memory[shape].storage.ShapeStorage?
    ensures w.memory[shape].storage.format == FormatCode(KindOfForm(k.form).value)
  {
    assert WellFormed(w.kinds, w.memory[shape], w.kinds[shape]);
  }

  /** The slot names of a shape: a collection of the right length, or a stub for one. */
  lemma SlotNames(w: World, stale: Stale, shape: Ref, k: Sort)
    requires Held(w, stale) && Describes(w, shape, k) && k.form.SlottedForm?
    ensures shape in w.memory && shape in w.kinds && w.memory[shape].storage.ShapeStorage?
    ensures var names := w.memory[shape].storage.slotNames;
      && names in w.memory
      && if w.memory[names].storage.StubStorage? then
           var a := w.memory[names].storage.address;
           && a in w.sorts && RankAt(w.sorts, a) < k.rank && SortAt(w.sorts, a).Some?
           && w.sorts[a].form.FixedForm? && w.sorts[a].form.length == k.form.slots
         else w.memory[names].storage.FixedStorage? && |w.memory[names].storage.contents| == k.form.slots
  {
    var o := w.memory[shape];
    assert WellFormed(w.kinds, o, w.kinds[shape]) && Placed(w, shape) && LinksIn(w.memory, o);
    var names := o.storage.slotNames;
    assert o.storage.Links()[1] in o.storage.Links();
    assert Placed(w, names);
    if !w.memory[names].storage.StubStorage? {
      MisreadAreNoCollections(w, stale, names);
    }
  }

  lemma CollectionRead(w: World, w': World, stale: Stale, s: nat, a: Word, depth: int, r: Ref)
    requires Faulted(w, w', s, a, depth, r) && Held(w', stale) && depth > 0 && a in w.sorts
    requires w.sorts[a].form.FixedForm?
    ensures Extends(w, w', s) && r in w'.memory && w'.memory[r].storage.FixedStorage?
    ensures |w'.memory[r].storage.contents| == w.sorts[a].form.length
  {
    assert Placed(w', r);
    MisreadAreNoCollections(w', stale, r);
  }

  /** The objects are known, lie at the addresses, and are no other session's. */
  ghost predicate AllKnown(w: World, s: nat, links: seq<Ref>, addresses: seq<Word>) {
    && |links| == |addresses|
    && forall i | 0 <= i < |links| ::
         && IsOwn(w, s, links[i]) && Known(w.memory, w.kinds, w.sorts, links[i]) && w.memory[links[i]].logical == addresses[i]
         && HasEntry(w, s, addresses[i])
  }

  /** The session's read set has something at the address, if that is in use. */
  ghost predicate HasEntry(w: World, s: nat, a: Word) {
    a in w.sorts ==> s < |w.sessions| && a in Cache(w.sessions[s])
  }

  ghost predicate LinksEntered(w: World, s: nat, o: Obj) {
    forall x | x in o.storage.Links() :: HasEntry(w, s, LogicalOf(w.memory, x))
  }

  /** References read to a depth; past it nothing but stubs is new. */
  ghost predicate ReadTo(w0: World, w: World, s: nat, links: seq<Ref>, depth: int) {
    && Resolved(w, links, depth) && (forall x | x in links :: TakenUp(w0, s, w.memory, x))
    && (depth <= 0 ==> forall x | x in w.memory && x !in w0.memory :: IsStub(w, x))
  }

  lemma ReadIsResolved(w0: World, w: World, s: nat, links: seq<Ref>, depth: int)
    requires ReadTo(w0, w, s, links, depth)
    ensures Resolved(w, links, depth) && forall x | x in links :: TakenUp(w0, s, w.memory, x)
  {
  }

  lemma ReadIsShallow(w: World, stale: Stale, w1: World, w2: World, w3: World, s: nat, v: Value, shape: Ref,
                      links: seq<Ref>,
                      depth: int, o: Obj)
    requires Faulted(w, w1, s, ShapeWord(v), 3, shape) && (IsFixedAddr(ShapeWord(v)) ==> w2 == w1)
    requires Held(w, stale) && Extends(w2, w3, s) && Extends(w1, w2, s) && ReadTo(w2, w3, s, links, depth - 1)
    requires SortAt(w.sorts, ShapeWord(v)).Some? && o.shape == shape && o.storage.Links() == links
    requires forall x | x in links :: x in w3.memory
    ensures Shallow(w, w3, o, depth)
  {
    hide Held;
    AddressHeld(w, stale, ShapeWord(v));
    assert LogicalOf(w3.memory, shape) == ShapeWord(v);
  }

  lemma ShallowAddressed(w: World, w1: World, o: Obj, depth: int, a: Word, s: nat)
    requires Shallow(w, w1, o, depth)
    ensures Shallow(w, w1, Addressed(o, a, s), depth)
  {
  }

  lemma AllTakenBefore(w: World, stale: Stale, w1: World, s: nat, m: Memory, links: seq<Ref>)
    requires Held(w, stale) && Extends(w, w1, s) && forall x | x in links :: TakenUp(w1, s, m, x)
    ensures forall x | x in links :: TakenUp(w, s, m, x)
  {
    SetsHeld(w, stale, s);
    forall x | x in links ensures TakenUp(w, s, m, x) {
      TakenBefore(w, w1, s, m, x);
    }
  }

  lemma FaultedTaken(w: World, stale: Stale, w': World, s: nat, a: Word, depth: int, r: Ref)
    requires Held(w, stale) && Faulted(w, w', s, a, depth, r) && SortAt(w.sorts, a).Some?
    ensures TakenUp(w, s, w'.memory, r)
  {
    hide Held;
    AddressHeld(w, stale, a);
  }

  lemma KnownThere(w: World, s: nat, links: seq<Ref>, addresses: seq<Word>)
    requires AllKnown(w, s, links, addresses)
    ensures forall x | x in links :: x in w.memory
  {
  }

  /** The slot names of a constant shape are there. */
  lemma ConstantNames(w: World, stale: Stale, shape: Ref, k: Sort)
    requires Held(w, stale) && Describes(w, shape, k) && k.form.SlottedForm? && w.kinds[shape].rank == 0
    ensures shape in w.memory && w.memory[shape].storage.ShapeStorage?
    ensures var names := w.memory[shape].storage.slotNames; names in w.memory && !w.memory[names].storage.StubStorage?
  {
    SlotNames(w, stale, shape, k);
    assert Placed(w, shape);
    assert w.memory[shape].storage.Links()[1] in w.memory[shape].storage.Links();
  }

  lemma ConstantHeader(w: World, stale: Stale, w1: World, s: nat, a: Word, shape: Ref)
    requires Held(w, stale) && Held(w1, stale) && Faulted(w, w1, s, a, 3, shape) && IsFixedAddr(a)
    ensures shape in w1.kinds && w1.kinds[shape].rank == 0
  {
    ConstantHeld(w1, stale, a);
  }

  lemma ConstantRead(w: World, stale: Stale, w1: World, s: nat, a: Word, r: Ref)
    requires Held(w, stale) && Faulted(w, w1, s, a, 3, r) && IsFixedAddr(a)
    ensures w1 == w
  {
    ConstantHeld(w, stale, a);
  }

  // ----- Which entries reading touches

  /** No entry at an address of higher rank comes, goes or changes. */
  ghost predicate Untouched(w: World, w': World, s: nat, rank: nat) {
    && s < |w.sessions| == |w'.sessions|
    && var before, after := Cache(w.sessions[s]), Cache(w'.sessions[s]);
       forall k | RankAt(w.sorts, k) > rank :: (k in before <==> k in after) && (k in before ==> after[k] == before[k])
  }

  lemma UntouchedSelf(w: World, s: nat, rank: nat)
    requires s < |w.sessions|
    ensures Untouched(w, w, s, rank)
  {
  }

  lemma UntouchedThen(w: World, w1: World, w2: World, s: nat, first: nat, second: nat, rank: nat)
    requires Untouched(w, w1, s, first) && Untouched(w1, w2, s, second) && w1.sorts == w.sorts
    requires first <= rank && second <= rank
    ensures Untouched(w, w2, s, rank)
  {
    forall k | RankAt(w.sorts, k) > rank ensures RankAt(w1.sorts, k) > second && RankAt(w.sorts, k) > first {
    }
  }

  /** Only the read set of the session matters. */
  lemma UntouchedStill(w: World, w1: World, w2: World, s: nat, rank: nat)
    requires Untouched(w, w1, s, rank) && |w2.sessions| == |w1.sessions|
    requires w2.sessions[s].readSet == w1.sessions[s].readSet
    ensures Untouched(w, w2, s, rank)
  {
  }

  lemma UntouchedEntered(w: World, w1: World, s: nat, r: Ref, o: Obj, k: Sort)
    requires Untouched(w, w1, s, RankAt(w.sorts, o.logical)) && s < |w1.sessions|
    requires Cache(Entered(w1, s, r, o, k).sessions[s]) == Cache(w1.sessions[s])[o.logical := r]
    ensures Untouched(w, Entered(w1, s, r, o, k), s, RankAt(w.sorts, o.logical))
  {
  }

  lemma NoneKnown(w: World, s: nat, addresses: seq<Word>, depth: int)
    ensures AllKnown(w, s, [], addresses[..0]) && ReadTo(w, w, s, [], depth)
  {
  }

  lemma OneMoreRead(w: World, w1: World, w2: World, stale: Stale, s: nat, links: seq<Ref>, a: Word, depth: int, r: Ref)
    requires ReadTo(w, w1, s, links, depth) && Held(w, stale) && Held(w1, stale) && Faulted(w1, w2, s, a, depth, r)
    requires SortAt(w1.sorts, a).Some? && Extends(w, w1, s)
    ensures ReadTo(w, w2, s, links + [r], depth)
  {
    hide Held, NewAreRead, LinksEntered, Contents;
    FaultedTaken(w1, stale, w2, s, a, depth, r);
    SetsHeld(w, stale, s);
    TakenBefore(w, w1, s, w2.memory, r);
    AddressHeld(w1, stale, a);
    if IsFixedAddr(a) {
      ConstantHeld(w1, stale, a);
    }
    if depth <= 0 {
      forall x | x in w2.memory && x !in w.memory ensures IsStub(w2, x) {
        assert x in w1.memory ==> IsStub(w1, x);
      }
    }
  }

  lemma OneMoreKnown(w: World, stale: Stale, w1: World, w2: World, s: nat, links: seq<Ref>, addresses: seq<Word>,
                     depth: int, r: Ref)
    requires Held(w, stale) && Extends(w, w1, s) && |links| < |addresses|
    requires AllKnown(w1, s, links, addresses[..|links|])
    requires Faulted(w1, w2, s, addresses[|links|], depth, r) && SortAt(w.sorts, addresses[|links|]).Some?
    requires ReadTo(w, w1, s, links, depth) && Held(w1, stale)
    ensures Extends(w, w2, s) && AllKnown(w2, s, links + [r], addresses[..|links| + 1])
    ensures ReadTo(w, w2, s, links + [r], depth)
  {
    hide Held, NewlyRead, LinksEntered, Current, Contents;
    ExtendsThen(w, stale, w1, w2, s);
    OneMoreRead(w, w1, w2, stale, s, links, addresses[|links|], depth, r);
    KnownStay(w1, w2, s, links, addresses[..|links|]);
    forall i | 0 <= i < |links| ensures addresses[..|links|][i] == addresses[i] {
    }
  }

  lemma KnownStay(w1: World, w2: World, s: nat, links: seq<Ref>, addresses: seq<Word>)
    requires Extends(w1, w2, s) && AllKnown(w1, s, links, addresses)
    ensures AllKnown(w2, s, links, addresses)
  {
    forall i | 0 <= i < |links|
      ensures IsOwn(w2, s, links[i]) && Known(w2.memory, w2.kinds, w2.sorts, links[i])
      ensures w2.memory[links[i]].logical == addresses[i] && HasEntry(w2, s, addresses[i])
    {
      ExtendsKnown(w1, w2, s, links[i]);
    }
  }

  lemma AllTaken(w: World, stale: Stale, w1: World, w2: World, s: nat, header: Word, shape: Ref, links: seq<Ref>, o: Obj)
    requires Held(w, stale) && Faulted(w, w1, s, header, 3, shape) && SortAt(w.sorts, header).Some? && Extends(w1, w2, s)
    requires o.shape == shape && o.storage.Links() == links && forall x | x in links :: TakenUp(w1, s, w2.memory, x)
    ensures LinksTaken(w, s, w2.memory, o)
  {
    hide Held, NewlyRead, LinksEntered, NewAreRead, Contents;
    FaultedTaken(w, stale, w1, s, header, 3, shape);
    AllTakenBefore(w, stale, w1, s, w2.memory, links);
  }

  lemma LinksAreOwn(w1: World, w2: World, s: nat, shape: Ref, links: seq<Ref>, addresses: seq<Word>, o: Obj)
    requires IsOwn(w1, s, shape) && Extends(w1, w2, s) && AllKnown(w2, s, links, addresses)
    requires o.shape == shape && o.storage.Links() == links
    ensures LinksOwn(w2, s, o) && LinksEntered(w2, s, o)
  {
  }

  /** What reading the shape and the references of a value comes to. */
  lemma Assembled(w: World, stale: Stale, w1: World, w2: World, s: nat, a: Word, v: Value, base: Word, shape: Ref,
                  links: seq<Ref>, o: Obj)
    requires a in w.sorts && a in w.layout.extents && a in w.layout.disk && v == w.layout.disk[a]
    requires |links| == |References(v)|
    requires base == w.layout.extents[a].base && o == Obj(None, UNASSIGNED, base, shape, StorageFrom(v, links))
    requires Held(w, stale) && Held(w1, stale) && Held(w2, stale)
    requires Faulted(w, w1, s, ShapeWord(v), 3, shape) && Extends(w1, w2, s)
    requires AllKnown(w2, s, links, References(v)) && forall x | x in links :: TakenUp(w1, s, w2.memory, x)
    ensures ReadAt(w, w2, s, a, o) && o.storage.Links() == links
  {
    hide Held, WellFormed, WellTyped, NewlyRead, Resolved, KindOfForm;
    ExtendsThen(w, stale, w1, w2, s);
    AddressHeld(w, stale, a);
    ConstantHeld(w2, stale, NIL_ADDR);
    ExtendsKnown(w1, w2, s, shape);
    ReadIsWritten(w2.memory, w2.kinds, w2.sorts, v, w.sorts[a], o, links);
    assert o.storage.Links() == links;
    LinksAreOwn(w1, w2, s, shape, links, References(v), o);
    AllTaken(w, stale, w1, w2, s, ShapeWord(v), shape, links, o);
  }
}

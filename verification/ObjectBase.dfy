/** A database with its sessions and the objects they have in memory: the read-set cache and the depth-limited
    reading of obl/session.c and obl/storage/object.c. */
module ObjectBase {
  import opened Words
  import opened Codec
  import opened RedBlack
  import opened Objects
  import opened World
  import opened Reading
  import Store
  import StoreRuns
  import Database
  import FixedSpace

  class ObjectBase {
    const db: Database.Database
    /** How many references deep an object is read. */
    const stubDepth: nat
    const corrected: bool

    var memory: Memory
    var nextRef: Ref
    var sessions: seq<Session>

    ghost var kinds: Kinds
    ghost var sorts: Sorts

    ghost function Now(): World
      reads this, db`layout
    {
      World(memory, kinds, sessions, db.layout, sorts, corrected)
    }

    ghost predicate AllocatorStored()
      reads db
    {
      && Store.ALLOCATOR_ADDR in db.layout.disk && db.layout.disk[Store.ALLOCATOR_ADDR] == StoreRuns.ALLOCATOR_VALUE
      && db.content.Length < 0x8000_0000 && db.nextPhysical < 0x8000_0000 && db.nextLogical < 0x8000_0000
      && Store.NEXT_PHYSICAL_ADDR in db.layout.disk && Store.NEXT_LOGICAL_ADDR in db.layout.disk
      && db.layout.disk[Store.NEXT_PHYSICAL_ADDR] == StoreRuns.CounterValue(db.nextPhysical)
      && db.layout.disk[Store.NEXT_LOGICAL_ADDR] == StoreRuns.CounterValue(db.nextLogical)
    }

    /** Unused handles are the next ones. */
    predicate Fresh()
      reads this`memory, this`nextRef
    {
      forall r | r in memory :: r < nextRef
    }

    ghost predicate Ready(stale: Stale)
      reads this, db`layout
    {
      stubDepth > 0 && Fresh() && Held(Now(), stale) && AllStored(Now())
    }

    lemma ReadyParts(stale: Stale)
      requires Ready(stale)
      ensures stubDepth > 0 && nextRef !in memory && (forall r | r in memory :: r < nextRef) && Held(Now(), stale)
      ensures AllStored(Now())
      ensures Now() == World(memory, kinds, sessions, db.layout, sorts, corrected)
    {
    }

    /** What holds between two calls. As written the references of the file's header must be read, not stubbed. */
    ghost predicate Valid()
      reads this, db, db.content
    {
      db.Valid() && Ready({}) && AllocatorStored() && RootsWait(Now()) && (corrected || stubDepth > 1)
    }

    /** A database that was just bootstrapped. */
    constructor (db: Database.Database, stubDepth: nat, corrected: bool)
      requires db.Valid() && db.layout == StoreRuns.BOOT_LAYOUT && stubDepth > if corrected then 0 else 1
      requires db.nextPhysical == StoreRuns.BOOT_WORDS && db.nextLogical == 4 && db.content.Length < 0x8000_0000
      ensures Valid() && this.db == db && this.stubDepth == stubDepth && this.corrected == corrected && sessions == []
      ensures memory == FixedSpace.FIXED_MEMORY && kinds == FixedSpace.FIXED_KINDS && sorts == FIRST_SORTS
    {
      hide *;
      this.db, this.stubDepth, this.corrected := db, stubDepth, corrected;
      memory, nextRef, sessions := FixedSpace.FIXED_MEMORY, FixedSpace.FIRST_FREE, [];
      kinds, sorts := FixedSpace.FIXED_KINDS, FIRST_SORTS;
      new;
      FixedSpace.FixedSpaceHolds(corrected);
      Opened();
    }

    lemma Opened()
      requires db.Valid() && stubDepth > (if corrected then 0 else 1) && db.content.Length < 0x8000_0000
      requires db.layout == StoreRuns.BOOT_LAYOUT && db.nextPhysical == StoreRuns.BOOT_WORDS && db.nextLogical == 4
      requires memory == FixedSpace.FIXED_MEMORY && nextRef == FixedSpace.FIRST_FREE && sessions == []
      requires kinds == FixedSpace.FIXED_KINDS && sorts == FIRST_SORTS
      requires Consistent(World(FixedSpace.FIXED_MEMORY, FixedSpace.FIXED_KINDS, [], StoreRuns.BOOT_LAYOUT, FIRST_SORTS, corrected))
      ensures Valid()
    {
      hide Held, AllStored, Store.Inv;
    }

    // ----- Reading

    method CreateStub(s: nat, address: Word) returns (o: Obj)
      ensures o == Obj(Some(s), address, UNASSIGNED, Constant(STUB_SHAPE_ADDR), StubStorage(address))
    {
      o := Obj(Some(s), address, UNASSIGNED, Constant(STUB_SHAPE_ADDR), StubStorage(address));
    }

    /** Enters an object under a new handle in memory and under its address in the read set. */
    method Enter(s: nat, o: Obj, ghost stale: Stale) returns (r: Ref)
      requires Ready(stale) && o.logical in sorts && Enterable(Now(), s, nextRef, o, sorts[o.logical])
      requires o.logical !in Dirty(sessions[s]) && SparesCopies(Now(), s, o.logical)
      requires !o.storage.StubStorage? ==> Current(Added(Now(), nextRef, o, sorts[o.logical]), nextRef)
      modifies this`memory, this`nextRef, this`sessions, this`kinds
      ensures Ready(stale) && |sessions| == |old(sessions)| && r == old(nextRef)
      ensures Now() == Entered(old(Now()), s, r, o, sorts[o.logical])
      ensures Cache(Now().sessions[s]) == old(Cache(Now().sessions[s]))[o.logical := r]
    {
      hide Held, Current, RedBlack.Insert, RedBlack.Contents;
      EnteredHolds(Now(), s, nextRef, o, sorts[o.logical], stale);
      r := nextRef;
      memory, kinds := memory[r := o], kinds[r := sorts[o.logical]];
      nextRef := r + 1;
      sessions := sessions[s := sessions[s].(readSet := Insert(sessions[s].readSet, o.logical, r))];
    }

    /** The object at an address as a session sees it: a constant, what the read set holds, or what is read
        `depth` references deep; past the depth a stub that carries the address. */
    method Fault(s: nat, address: Word, depth: int, ghost stale: Stale) returns (r: Ref)
      requires db.Valid() && Ready(stale) && s < |sessions|
      requires (SortAt(sorts, address).Some? || depth > 0)
      modifies this`memory, this`nextRef, this`sessions, this`kinds
      ensures Ready(stale) && |sessions| == |old(sessions)| && Faulted(old(Now()), Now(), s, address, depth, r)
      ensures Untouched(old(Now()), Now(), s, RankAt(sorts, address))
      ensures Fetched(old(Now()), Now(), s, address, depth)
      decreases RankAt(sorts, address), if depth < 0 then 0 else depth, 2
    {
      hide *;
      ghost var w := Now();
      ReadyParts(stale);
      ExtendsSelf(w, s);
      UntouchedSelf(w, s, RankAt(sorts, address));
      AddressHeld(w, stale, address);
      if IsFixedAddr(address) {
        ConstantFaulted(w, stale, s, address, depth);
        NothingFetched(w, stale, s, address, depth);
        return Constant(address);
      }
      var found := Find(sessions[s].readSet, address);
      LiveIff(w, stale, s, address);
      if found.Some? && !memory[found.value].storage.StubStorage? {
        LiveFaulted(w, stale, s, address, depth);
        NothingFetched(w, stale, s, address, depth);
        return found.value;
      }
      var o;
      if depth > 0 {
        var physical := db.Locate(address);
        if physical == UNASSIGNED {
          UnmappedFaulted(w, stale, s, address, depth);
          UnmappedUnstored(address);
          NothingFetched(w, stale, s, address, depth);
          return NIL;
        }
        o := ReadObject(s, physical, depth, address, stale);
        ReadyParts(stale);
        ReadEnters(w, stale, Now(), s, nextRef, address, o);
        CopiesStillSpared(w, stale, Now(), s, address);
        ShallowAddressed(w, Now(), o, depth, address, s);
        o := Addressed(o, address, s);
      } else {
        StubEnters(w, stale, s, nextRef, address);
        CopiesSpared(w, s, address);
        o := CreateStub(s, address);
      }
      ghost var w1 := Now();
      DeepEnough(w, w1, s, nextRef, o, sorts[address], depth);
      r := Enter(s, o, stale);
      UntouchedEntered(w, w1, s, r, o, sorts[address]);
      EnteredFaulted(w, stale, w1, s, r, o, depth);
      FetchedEntered(w, stale, w1, s, r, o, depth);
    }

    lemma UnmappedUnstored(a: nat)
      requires db.Valid() && a !in db.layout.extents
      ensures a !in Now().layout.disk
    {
    }

    lemma CopiesStillSpared(w: World, stale: Stale, w1: World, s: nat, a: Word)
      requires Held(w, stale) && s < |w.sessions| && s < |w1.sessions| && !Live(w, s, a) && a in w.sorts
      requires w.sorts[a].form == IntegerForm ==> w1 == w
      ensures SparesCopies(w1, s, a)
    {
      hide Held;
      if Store.IsCounter(a) {
        CounterSorts(w, stale, a);
      }
    }

    /** Reads the object at `base`: its shape three references deep, itself `depth` deep. */
    method ReadObject(s: nat, base: Word, depth: int, ghost a: Word, ghost stale: Stale) returns (o: Obj)
      requires db.Valid() && Ready(stale) && s < |sessions| && depth > 0
      requires a in sorts && a in db.layout.extents && base == db.layout.extents[a].base
      modifies this`memory, this`nextRef, this`sessions, this`kinds
      ensures Ready(stale) && |sessions| == |old(sessions)| && ReadAt(old(Now()), Now(), s, a, o)
      ensures Resolved(Now(), o.storage.Links(), depth - 1) && Shallow(old(Now()), Now(), o, depth)
      ensures Untouched(old(Now()), Now(), s, RankAt(sorts, a)) && FetchedBelow(old(Now()), Now(), s, a, depth)
      ensures sorts[a].form == IntegerForm ==> Now() == old(Now())
      decreases RankAt(sorts, a), if depth < 0 then 0 else depth, 1
    {
      hide *;
      ghost var w := Now();
      ReadyParts(stale);
      ValueHeld(w, stale, a);
      if sorts[a].form == IntegerForm {
        IntegerValueHeld(w, stale, a);
      }
      var header := db.ReadHeader(base, a);
      var shape := Fault(s, header, 3, stale);
      ghost var w1 := Now();
      ReadyParts(stale);
      ShapeDescribes(w, stale, w1, s, a, shape);
      if IsFixedAddr(header) {
        ConstantHeader(w, stale, w1, s, header, shape);
        ConstantRead(w, stale, w1, s, header, shape);
      }
      var kind := KindOfInstances(s, shape, sorts[a], stale);
      ghost var w2 := Now();
      ReadyParts(stale);
      var v := db.ReadStored(base, kind, a);
      var links := ReadLinks(s, References(v), depth, sorts[a].rank, stale);
      o := Obj(None, UNASSIGNED, base, shape, StorageFrom(v, links));
      ReadIsResolved(w2, Now(), s, links, depth - 1);
      ReadyParts(stale);
      AllTakenBefore(w1, stale, w2, s, Now().memory, links);
      UntouchedThen(w, w1, w2, s, RankAt(sorts, header), sorts[a].rank, sorts[a].rank);
      UntouchedThen(w, w2, Now(), s, sorts[a].rank, sorts[a].rank, sorts[a].rank);
      KnownThere(Now(), s, links, References(v));
      ExtendsThen(w1, stale, w2, Now(), s);
      Assembled(w, stale, w1, Now(), s, a, v, base, shape, links, o);
      ReadIsShallow(w, stale, w1, w2, Now(), s, v, shape, links, depth, o);
      FetchedBelowIs(w, w2, Now(), s, a, v, depth);
    }

    /** How the instances of a shape are stored. */
    method KindOfInstances(s: nat, shape: Ref, ghost k: Sort, ghost stale: Stale) returns (kind: Kind)
      requires db.Valid() && Ready(stale) && s < |sessions| && Describes(Now(), shape, k)
      modifies this`memory, this`nextRef, this`sessions, this`kinds
      ensures Ready(stale) && |sessions| == |old(sessions)| && Extends(old(Now()), Now(), s)
      ensures Some(kind) == KindOfForm(k.form) && Untouched(old(Now()), Now(), s, k.rank)
      ensures old(kinds)[shape].rank == 0 ==> Now() == old(Now())
      decreases k.rank, 0, 1
    {
      hide Held, Extends;
      ReadyParts(stale);
      ExtendsSelf(Now(), s);
      UntouchedSelf(Now(), s, k.rank);
      if shape == NIL {
        return ShapeKind;
      }
      FormatDescribes(Now(), stale, shape, k);
      var format := memory[shape].storage.format;
      if format == 1 {
        var n := SlotCount(s, shape, k, stale);
        kind := SlottedKind(n);
      } else {
        kind := if format == 2 then FixedKind else if format == 5 then IntegerKind else StringKind;
      }
    }

    /** The number of slot names of a shape. */
    method SlotCount(s: nat, shape: Ref, ghost k: Sort, ghost stale: Stale) returns (n: nat)
      requires db.Valid() && Ready(stale) && s < |sessions| && Describes(Now(), shape, k) && k.form.SlottedForm?
      modifies this`memory, this`nextRef, this`sessions, this`kinds
      ensures Ready(stale) && |sessions| == |old(sessions)| && Extends(old(Now()), Now(), s) && n == k.form.slots
      ensures Untouched(old(Now()), Now(), s, k.rank) && (old(kinds)[shape].rank == 0 ==> Now() == old(Now()))
      decreases k.rank, 0, 0
    {
      hide *;
      ReadyParts(stale);
      SlotNames(Now(), stale, shape, k);
      var names := memory[shape].storage.slotNames;
      ghost var w := Now();
      ExtendsSelf(w, s);
      UntouchedSelf(w, s, k.rank);
      if w.kinds[shape].rank == 0 {
        ConstantNames(w, stale, shape, k);
      }
      if memory[names].storage.StubStorage? {
        var address := memory[names].storage.address;
        names := Fault(s, address, stubDepth, stale);
        ReadyParts(stale);
        CollectionRead(w, Now(), stale, s, address, stubDepth, names);
        UntouchedThen(w, w, Now(), s, k.rank, RankAt(w.sorts, address), k.rank);
      }
      n := |memory[names].storage.contents|;
    }

    /** The objects at several addresses, read one reference less deep. */
    method ReadLinks(s: nat, addresses: seq<Word>, depth: int, ghost rank: nat,
                     ghost stale: Stale) returns (links: seq<Ref>)
      requires db.Valid() && Ready(stale) && s < |sessions| && depth > 0 && Within(sorts, addresses, rank)
      modifies this`memory, this`nextRef, this`sessions, this`kinds
      ensures Ready(stale) && |sessions| == |old(sessions)| && Extends(old(Now()), Now(), s)
      ensures AllKnown(Now(), s, links, addresses) && |links| == |addresses|
      ensures ReadTo(old(Now()), Now(), s, links, depth - 1) && Untouched(old(Now()), Now(), s, rank)
      ensures FetchedAll(old(Now()), Now(), s, addresses, depth - 1)
      ensures addresses == [] ==> Now() == old(Now())
      decreases rank, if depth < 0 then 0 else depth, 0
    {
      hide *;
      ghost var w := Now();
      ReadyParts(stale);
      ExtendsSelf(w, s);
      NoneKnown(w, s, addresses, depth - 1);
      FetchedNone(w, s, addresses, depth - 1);
      UntouchedSelf(w, s, rank);
      links := [];
      for i := 0 to |addresses|
        invariant db.Valid() && Ready(stale) && Extends(old(Now()), Now(), s)
        invariant AllKnown(Now(), s, links, addresses[..i])
        invariant |links| == i && |sessions| == |old(sessions)| && sorts == old(sorts)
        invariant ReadTo(w, Now(), s, links, depth - 1) && Untouched(w, Now(), s, rank) && (i == 0 ==> Now() == w)
        invariant FetchedAll(w, Now(), s, addresses[..i], depth - 1)
      {
        ghost var w1 := Now();
        ReadyParts(stale);
        LeadsAt(sorts, addresses, rank, i);
        var r := Fault(s, addresses[i], depth - 1, stale);
        OneMoreKnown(w, stale, w1, Now(), s, links, addresses, depth - 1, r);
        UntouchedThen(w, w1, Now(), s, rank, RankAt(sorts, addresses[i]), rank);
        FetchedMore(w, w1, Now(), s, addresses, i, depth - 1);
        links := links + [r];
      }
      assert addresses[..|addresses|] == addresses;
    }
  }
}

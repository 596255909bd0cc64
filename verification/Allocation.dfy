/** Where addresses come from (obl/allocator.c): every session takes them from its own copies of the allocator and its
    two counters. The copies of all sessions agree with the counters of the database, so that no address is given
    twice, unless one of them was refreshed from the header of the file. */
module Allocation {
  import opened Words
  import opened Codec
  import opened RedBlack
  import opened Objects
  import opened World
  import opened Changes
  import opened ObjectBase
  import opened Renewal
  import Store
  import StoreRuns

  const ALLOCATOR_SHAPE: Ref := Constant(ALLOCATOR_SHAPE_ADDR)

  /** The allocator's slot for a counter. */
  function SlotOf(k: Key): nat {
    if k == Store.NEXT_LOGICAL_ADDR then 0 else 1
  }

  /** The database's counter. */
  function CounterAt(e: ObjectBase, k: Key): nat
    reads e.db
  {
    if k == Store.NEXT_LOGICAL_ADDR then e.db.nextLogical else e.db.nextPhysical
  }

  // ----- What a session's copies are

  /** The session has the object at the address, and it is as in the file. */
  ghost predicate HasCurrent(w: World, s: nat, k: Key) {
    s < |w.sessions| && k in Cache(w.sessions[s]) && HoldsAt(w, s, k, Cache(w.sessions[s])[k])
    && Current(w, Cache(w.sessions[s])[k])
  }

  /** Programs do not change the allocator's objects: what a session has of them is as in the file, or no whole
      object. */
  lemma CopyIsCurrent(w: World, s: nat, k: Key)
    requires Held(w, {}) && 0 < k <= Store.NEXT_LOGICAL_ADDR && s < |w.sessions| && k in Cache(w.sessions[s])
    requires IsIntact(w, Cache(w.sessions[s])[k])
    ensures HasCurrent(w, s, k)
  {
    SetsHeld(w, {}, s);
    assert SessionSound(w, s, {});
    assert Current(w, Cache(w.sessions[s])[k]);
  }

  /** What the file has of the allocator and of one counter. */
  ghost predicate CounterIn(w: World, k: Key, n: Int32) {
    && Store.IsCounter(k) && Store.ALLOCATOR_ADDR in w.layout.disk && k in w.layout.disk
    && w.layout.disk[Store.ALLOCATOR_ADDR] == StoreRuns.ALLOCATOR_VALUE && w.layout.disk[k] == StoreRuns.CounterValue(n)
  }

  /** A whole copy of a counter has the database's count. */
  lemma CopyCounts(w: World, s: nat, k: Key, n: Int32)
    requires Held(w, {}) && CounterIn(w, k, n) && s < |w.sessions| && k in Cache(w.sessions[s])
    requires IsIntact(w, Cache(w.sessions[s])[k])
    ensures w.memory[Cache(w.sessions[s])[k]].storage == IntegerStorage(n)
  {
    CopyIsCurrent(w, s, k);
    EntryHeld(w, {}, s, k);
  }

  /** A whole copy of the allocator has its shape, and refers to objects of its session at the counters' addresses. */
  ghost predicate IsAllocator(w: World, s: nat, o: Obj) {
    && o.shape == ALLOCATOR_SHAPE && o.storage.SlottedStorage? && |o.storage.slots| == 2
    && forall k | Store.IsCounter(k) ::
         var x := o.storage.slots[SlotOf(k)]; x in w.memory && w.memory[x].session == Some(s) && w.memory[x].logical == k
  }

  lemma AllocatorIsWhole(w: World, s: nat)
    requires Held(w, {}) && s < |w.sessions| && Store.ALLOCATOR_ADDR in Cache(w.sessions[s])
    requires Store.ALLOCATOR_ADDR in w.layout.disk
    requires w.layout.disk[Store.ALLOCATOR_ADDR] == StoreRuns.ALLOCATOR_VALUE
    requires IsIntact(w, Cache(w.sessions[s])[Store.ALLOCATOR_ADDR])
    ensures Cache(w.sessions[s])[Store.ALLOCATOR_ADDR] in w.memory
    ensures IsAllocator(w, s, w.memory[Cache(w.sessions[s])[Store.ALLOCATOR_ADDR]])
  {
    var r := Cache(w.sessions[s])[Store.ALLOCATOR_ADDR];
    EntryHeld(w, {}, s, Store.ALLOCATOR_ADDR);
    CopyIsCurrent(w, s, Store.ALLOCATOR_ADDR);
    assert IsCopy(w, r) && CopySound(w, r);
    AllocatorFits(w, s, w.memory[r]);
  }

  lemma AllocatorFits(w: World, s: nat, o: Obj)
    requires Held(w, {}) && o.storage.Writable() && ValueOf(w.memory, o) == StoreRuns.ALLOCATOR_VALUE && LinksOwn(w, s, o)
    ensures IsAllocator(w, s, o)
  {
    var links := o.storage.Links();
    assert Addresses(w.memory, links) == [Store.NEXT_LOGICAL_ADDR, Store.NEXT_PHYSICAL_ADDR];
    assert LogicalOf(w.memory, o.shape) == ALLOCATOR_SHAPE_ADDR;
    PlacedOrUnaddressed(w, {}, o.shape);
    assert Placed(w, o.shape);
    assert Addresses(w.memory, links)[0] == LogicalOf(w.memory, links[0]);
    assert Addresses(w.memory, links)[1] == LogicalOf(w.memory, links[1]);
    assert links[0] in links && links[1] in links;
  }

  // ----- Copies that were refreshed from the header

  ghost predicate HasMisread(w: World, s: nat, k: Key) {
    s < |w.sessions| && k in Cache(w.sessions[s]) && IsMisread(w, Cache(w.sessions[s])[k])
  }

  ghost predicate SlotMisread(w: World, r: Ref, i: nat) {
    && r in w.memory && w.memory[r].storage.SlottedStorage? && i < |w.memory[r].storage.slots|
    && IsMisread(w, w.memory[r].storage.slots[i])
  }

  /** The session can no longer use a counter: its copy of the allocator, its copy of the counter, or the object that
      the one refers to for the other was refreshed from the header. */
  ghost predicate CounterLost(w: World, s: nat, k: Key) {
    || HasMisread(w, s, Store.ALLOCATOR_ADDR) || HasMisread(w, s, k)
    || (s < |w.sessions| && Store.ALLOCATOR_ADDR in Cache(w.sessions[s])
        && SlotMisread(w, Cache(w.sessions[s])[Store.ALLOCATOR_ADDR], SlotOf(k)))
  }

  /** The session can give addresses. */
  ghost predicate CanAllocate(w: World, s: nat) {
    s < |w.sessions| && forall k | Store.IsCounter(k) :: !CounterLost(w, s, k)
  }

  lemma NewIsNotMisread(w: World, w': World, s: nat, x: Ref)
    requires Held(w', {}) && Extends(w, w', s) && x in w'.memory && x !in w.memory
    ensures !IsMisread(w', x)
  {
    assert ReadBy(w', s, x);
    if IsMisread(w', x) {
      MisreadIsNotCurrent(w', {}, x);
    }
  }

  lemma MisreadEntryStays(w: World, w': World, s: nat, k: Key)
    requires Held(w, {}) && Held(w', {}) && Extends(w, w', s)
    ensures HasMisread(w', s, k) <==> HasMisread(w, s, k)
  {
    hide Held, Contents, RedBlack.Valid, NewAreRead;
    SetsHeld(w, {}, s);
    var c, c' := Cache(w.sessions[s]), Cache(w'.sessions[s]);
    if k in c {
      assert IsEntry(w, s, k, c[k]);
    }
    if k in c' && c'[k] !in w.memory && IsMisread(w', c'[k]) {
      NewIsNotMisread(w, w', s, c'[k]);
    }
  }

  /** A copy of the allocator that was just read refers to what the session had for the counter, or to a new object. */
  lemma NewSlot(w: World, w': World, s: nat, k: Key)
    requires Held(w, {}) && Held(w', {}) && Extends(w, w', s) && Store.IsCounter(k)
    requires Store.ALLOCATOR_ADDR in Cache(w'.sessions[s]) && Cache(w'.sessions[s])[Store.ALLOCATOR_ADDR] !in w.memory
    requires Cache(w'.sessions[s])[Store.ALLOCATOR_ADDR] in w'.memory
    requires IsAllocator(w', s, w'.memory[Cache(w'.sessions[s])[Store.ALLOCATOR_ADDR]])
    ensures SlotMisread(w', Cache(w'.sessions[s])[Store.ALLOCATOR_ADDR], SlotOf(k)) ==> HasMisread(w, s, k)
  {
    hide Held, Contents, RedBlack.Valid;
    var r := Cache(w'.sessions[s])[Store.ALLOCATOR_ADDR];
    var x := w'.memory[r].storage.slots[SlotOf(k)];
    assert ReadBy(w', s, r) && x in w'.memory[r].storage.Links() && TakenUp(w, s, w'.memory, x);
    if x !in w.memory {
      if IsMisread(w', x) {
        NewIsNotMisread(w, w', s, x);
      }
    }
  }

  /** Reading neither loses a counter nor finds one again. */
  lemma LostStays(w: World, w': World, s: nat, k: Key)
    requires Held(w, {}) && Held(w', {}) && Extends(w, w', s) && Store.IsCounter(k)
    requires Store.ALLOCATOR_ADDR in w'.layout.disk
    requires w'.layout.disk[Store.ALLOCATOR_ADDR] == StoreRuns.ALLOCATOR_VALUE
    ensures CounterLost(w', s, k) <==> CounterLost(w, s, k)
  {
    hide Held, Contents, RedBlack.Valid, NewAreRead, HasMisread, IsAllocator;
    MisreadEntryStays(w, w', s, k);
    MisreadEntryStays(w, w', s, Store.ALLOCATOR_ADDR);
    var c, c' := Cache(w.sessions[s]), Cache(w'.sessions[s]);
    SetsHeld(w, {}, s);
    if Store.ALLOCATOR_ADDR in c {
      EntryHeld(w, {}, s, Store.ALLOCATOR_ADDR);
      SlotStays(w, w', s, c[Store.ALLOCATOR_ADDR], SlotOf(k));
    }
    if Store.ALLOCATOR_ADDR in c' && c'[Store.ALLOCATOR_ADDR] !in w.memory {
      EntryHeld(w', {}, s, Store.ALLOCATOR_ADDR);
      if IsIntact(w', c'[Store.ALLOCATOR_ADDR]) {
        AllocatorIsWhole(w', s);
        NewSlot(w, w', s, k);
      }
    }
  }

  lemma SlotStays(w: World, w': World, s: nat, r: Ref, i: nat)
    requires Held(w, {}) && Extends(w, w', s) && r in w.memory
    ensures SlotMisread(w', r, i) <==> SlotMisread(w, r, i)
  {
    assert LinksIn(w.memory, w.memory[r]);
    if w.memory[r].storage.SlottedStorage? && i < |w.memory[r].storage.slots| {
      assert w.memory[r].storage.slots[i] in w.memory[r].storage.Links();
    }
  }

  // ----- Reading a counter

  /** The value of an integer; of anything else zero, with an error report (obl_integer_value). */
  function NumberOf(m: Memory, r: Ref): int {
    if r in m && m[r].storage.IntegerStorage? then m[r].storage.number else 0
  }

  /** What is known of a count read in world `w`. */
  ghost predicate Counts(w0: World, w: World, s: nat, k: Key, n: Int32, count: int) {
    && count == (if CounterLost(w0, s, k) then 0 else n)
    && (!CounterLost(w0, s, k) ==> HasCurrent(w, s, k))
  }

  lemma AllocatorFound(w: World, w': World, s: nat, depth: int, r: Ref)
    requires Held(w, {}) && Held(w', {}) && Faulted(w, w', s, Store.ALLOCATOR_ADDR, depth, r) && depth > 0
    requires Store.ALLOCATOR_ADDR in w'.layout.disk
    requires w'.layout.disk[Store.ALLOCATOR_ADDR] == StoreRuns.ALLOCATOR_VALUE
    ensures Extends(w, w', s) && r in w'.memory
    ensures Store.ALLOCATOR_ADDR in Cache(w'.sessions[s]) && Cache(w'.sessions[s])[Store.ALLOCATOR_ADDR] == r
    ensures if w'.memory[r].shape == ALLOCATOR_SHAPE then
              IsIntact(w', r) && IsAllocator(w', s, w'.memory[r])
            else HasMisread(w, s, Store.ALLOCATOR_ADDR)
  {
    hide Held, Contents, RedBlack.Valid, NewAreRead, LinksEntered, Current;
    FirstSorts(w, {});
    EntryHeld(w', {}, s, Store.ALLOCATOR_ADDR);
    MisreadEntryStays(w, w', s, Store.ALLOCATOR_ADDR);
    if IsMisread(w', r) {
      MisreadHasNoShape(w', r);
    } else {
      AllocatorIsWhole(w', s);
    }
  }

  lemma MisreadHasNoShape(w: World, r: Ref)
    requires Held(w, {}) && IsMisread(w, r)
    ensures w.memory[r].shape == NIL && NIL != ALLOCATOR_SHAPE
  {
    assert Placed(w, r);
  }

  /** The allocator's slot holds the counter, or a stub for it. */
  lemma SlotFound(w: World, s: nat, k: Key, n: Int32)
    requires Held(w, {}) && Store.IsCounter(k) && CounterIn(w, k, n)
    requires s < |w.sessions| && Store.ALLOCATOR_ADDR in Cache(w.sessions[s])
    requires Cache(w.sessions[s])[Store.ALLOCATOR_ADDR] in w.memory
    requires IsIntact(w, Cache(w.sessions[s])[Store.ALLOCATOR_ADDR])
    requires IsAllocator(w, s, w.memory[Cache(w.sessions[s])[Store.ALLOCATOR_ADDR]])
    ensures var x := w.memory[Cache(w.sessions[s])[Store.ALLOCATOR_ADDR]].storage.slots[SlotOf(k)];
      && x in w.memory
      && if w.memory[x].storage.StubStorage? then
           w.memory[x].storage.address == k && (CounterLost(w, s, k) <==> HasMisread(w, s, k))
         else Counts(w, w, s, k, n, NumberOf(w.memory, x))
  {
    hide Contents, RedBlack.Valid, Current, CounterIn;
    var r := Cache(w.sessions[s])[Store.ALLOCATOR_ADDR];
    var x := w.memory[r].storage.slots[SlotOf(k)];
    assert Placed(w, x) && w.memory[x].session == Some(s);
    CounterSorts(w, {}, k);
    if IsIntact(w, x) {
      assert IsCopy(w, x) && CopySound(w, x);
      CopyCounts(w, s, k, n);
      CopyIsCurrent(w, s, k);
    }
  }

  /** A stub leads to what the session has, or else to what is in the file. */
  lemma StubFound(w: World, w': World, s: nat, k: Key, n: Int32, depth: int, r: Ref)
    requires Held(w, {}) && Held(w', {}) && CounterIn(w, k, n) && w'.layout == w.layout && depth > 0
    requires Faulted(w, w', s, k, depth, r) && (CounterLost(w, s, k) <==> HasMisread(w, s, k))
    ensures Counts(w, w', s, k, n, NumberOf(w'.memory, r))
  {
    hide Held, Contents, RedBlack.Valid, NewAreRead, LinksEntered, Current, CounterLost;
    CounterSorts(w, {}, k);
    EntryHeld(w', {}, s, k);
    MisreadEntryStays(w, w', s, k);
    if !IsMisread(w', r) {
      CopyCounts(w', s, k, n);
      CopyIsCurrent(w', s, k);
    }
  }

  lemma ValidCounter(e: ObjectBase, k: Key)
    requires e.Valid() && Store.IsCounter(k)
    ensures 0 < CounterAt(e, k) < 0x8000_0000 && CounterIn(e.Now(), k, CounterAt(e, k)) && Held(e.Now(), {})
    ensures e.stubDepth > 0 && SortAt(e.sorts, k).Some?
  {
    e.ReadyParts({});
    CounterSorts(e.Now(), {}, k);
  }

  lemma ValidStays(e: ObjectBase, w: World, s: nat)
    requires e.db.Valid() && e.Ready({}) && e.AllocatorStored() && (e.corrected || e.stubDepth > 1)
    requires Held(w, {}) && RootsWait(w) && Extends(w, e.Now(), s)
    ensures e.Valid()
  {
    RootsExtend(w, {}, e.Now(), s);
  }

  lemma ValidWaits(e: ObjectBase)
    requires e.Valid()
    ensures e.db.Valid() && e.Ready({}) && e.AllocatorStored() && RootsWait(e.Now()) && (e.corrected || e.stubDepth > 1)
    ensures SortAt(e.sorts, Store.ALLOCATOR_ADDR).Some?
  {
    e.ReadyParts({});
    FirstSorts(e.Now(), {});
  }

  lemma SameFile(w: World, w': World, s: nat, k: Key, n: Int32)
    requires Extends(w, w', s) && CounterIn(w, k, n)
    ensures CounterIn(w', k, n) && w'.layout == w.layout && |w'.sessions| == |w.sessions|
    ensures Store.ALLOCATOR_ADDR in w'.layout.disk
    ensures w'.layout.disk[Store.ALLOCATOR_ADDR] == StoreRuns.ALLOCATOR_VALUE
  {
  }

  /** What the session's allocator has for a counter, read as obl_allocate_logical and obl_allocate_physical do. It is
      the database's counter exactly if the session has not lost it; otherwise it is zero. */
  method ReadCounter(e: ObjectBase, s: nat, k: Key) returns (count: int)
    requires e.Valid() && s < |e.sessions| && Store.IsCounter(k)
    modifies e`memory, e`nextRef, e`sessions, e`kinds
    ensures e.Valid() && Extends(old(e.Now()), e.Now(), s)
    ensures count == if CounterLost(old(e.Now()), s, k) then 0 else CounterAt(e, k)
    ensures count == CounterAt(e, k) <==> !CounterLost(old(e.Now()), s, k)
    ensures !CounterLost(old(e.Now()), s, k) ==> HasCurrent(e.Now(), s, k)
  {
    hide *;
    ghost var w := e.Now();
    ValidWaits(e);
    ValidCounter(e, k);
    ghost var n := CounterAt(e, k);
    var allocator := e.Fault(s, Store.ALLOCATOR_ADDR, e.stubDepth, {});
    ghost var w1 := e.Now();
    e.ReadyParts({});
    FaultExtends(w, w1, s, Store.ALLOCATOR_ADDR, e.stubDepth, allocator);
    SameFile(w, w1, s, k, n);
    ValidStays(e, w, s);
    AllocatorFound(w, w1, s, e.stubDepth, allocator);
    LostStays(w, w1, s, k);
    if e.memory[allocator].shape != ALLOCATOR_SHAPE {
      LostHere(w, s, k);
      return 0;
    }
    SlotFound(w1, s, k, n);
    AllocatorParts(w1, s, e.memory[allocator], k);
    var counter := e.memory[allocator].storage.slots[SlotOf(k)];
    if e.memory[counter].storage.StubStorage? {
      counter := e.Fault(s, e.memory[counter].storage.address, e.stubDepth, {});
      e.ReadyParts({});
      FaultExtends(w1, e.Now(), s, k, e.stubDepth, counter);
      SameFile(w1, e.Now(), s, k, n);
      StubFound(w1, e.Now(), s, k, n, e.stubDepth, counter);
      ExtendsThen(w, {}, w1, e.Now(), s);
      ValidStays(e, w, s);
    }
    count := NumberOf(e.memory, counter);
    CountIs(w1, e.Now(), s, k, n, count);
  }

  lemma FaultExtends(w: World, w': World, s: nat, a: Word, depth: int, r: Ref)
    requires Faulted(w, w', s, a, depth, r)
    ensures Extends(w, w', s)
  {
  }

  lemma LostHere(w: World, s: nat, k: Key)
    requires HasMisread(w, s, Store.ALLOCATOR_ADDR)
    ensures CounterLost(w, s, k)
  {
  }

  lemma AllocatorParts(w: World, s: nat, o: Obj, k: Key)
    requires IsAllocator(w, s, o) && Store.IsCounter(k)
    ensures o.storage.SlottedStorage? && SlotOf(k) < |o.storage.slots| && o.storage.slots[SlotOf(k)] in w.memory
  {
  }

  lemma CountIs(w0: World, w: World, s: nat, k: Key, n: Int32, count: int)
    requires Counts(w0, w, s, k, n, count)
    ensures count == (if CounterLost(w0, s, k) then 0 else n) && (!CounterLost(w0, s, k) ==> HasCurrent(w, s, k))
  {
  }

  /** Both counters, as the first allocation of a commit needs them. */
  method LoadCounters(e: ObjectBase, s: nat) returns (logical: int, physical: int)
    requires e.Valid() && s < |e.sessions| && CanAllocate(e.Now(), s)
    modifies e`memory, e`nextRef, e`sessions, e`kinds
    ensures e.Valid() && Extends(old(e.Now()), e.Now(), s) && CanAllocate(e.Now(), s)
    ensures logical == e.db.nextLogical && physical == e.db.nextPhysical && HasCounters(e.Now(), s)
  {
    hide *;
    ghost var w := e.Now();
    BothAreCounters();
    NoneLost(w, s);
    ValidWaits(e);
    e.ReadyParts({});
    ValidCounter(e, Store.NEXT_LOGICAL_ADDR);
    logical := ReadCounter(e, s, Store.NEXT_LOGICAL_ADDR);
    ghost var w1 := e.Now();
    ValidWaits(e);
    e.ReadyParts({});
    ValidCounter(e, Store.NEXT_PHYSICAL_ADDR);
    ExtendedSessions(w, w1, s);
    AllocatesStillThere(w, w1, s, Store.NEXT_PHYSICAL_ADDR, CounterAt(e, Store.NEXT_PHYSICAL_ADDR));
    NoneLost(w1, s);
    physical := ReadCounter(e, s, Store.NEXT_PHYSICAL_ADDR);
    ValidWaits(e);
    ValidCounter(e, Store.NEXT_PHYSICAL_ADDR);
    AllocatesStillThere(w1, e.Now(), s, Store.NEXT_PHYSICAL_ADDR, CounterAt(e, Store.NEXT_PHYSICAL_ADDR));
    ExtendsThen(w, {}, w1, e.Now(), s);
    CurrentStays(w1, e.Now(), s, Store.NEXT_LOGICAL_ADDR);
    CountersAt(e);
    HasBoth(e.Now(), s);
  }

  lemma NoneLost(w: World, s: nat)
    requires CanAllocate(w, s)
    ensures !CounterLost(w, s, Store.NEXT_LOGICAL_ADDR) && !CounterLost(w, s, Store.NEXT_PHYSICAL_ADDR)
  {
  }

  lemma AllocatesStillThere(w: World, w': World, s: nat, k: Key, n: Int32)
    requires Held(w, {}) && Held(w', {}) && Extends(w, w', s) && CounterIn(w', k, n) && CanAllocate(w, s)
    ensures CanAllocate(w', s)
  {
    hide Held, CounterLost, NewAreRead;
    forall j | Store.IsCounter(j) ensures !CounterLost(w', s, j) {
      LostStays(w, w', s, j);
    }
  }

  /** The session has whole copies of both counters. */
  ghost predicate HasCounters(w: World, s: nat) {
    s < |w.sessions| && forall k | Store.IsCounter(k) :: k in Cache(w.sessions[s]) && IsIntact(w, Cache(w.sessions[s])[k])
  }

  lemma BothAreCounters()
    ensures Store.IsCounter(Store.NEXT_LOGICAL_ADDR) && Store.IsCounter(Store.NEXT_PHYSICAL_ADDR)
  {
  }

  lemma CountersAt(e: ObjectBase)
    ensures CounterAt(e, Store.NEXT_LOGICAL_ADDR) == e.db.nextLogical
    ensures CounterAt(e, Store.NEXT_PHYSICAL_ADDR) == e.db.nextPhysical
  {
  }

  lemma ExtendedSessions(w: World, w': World, s: nat)
    requires Extends(w, w', s)
    ensures |w'.sessions| == |w.sessions| && w'.layout == w.layout
  {
  }

  lemma CurrentStays(w: World, w': World, s: nat, k: Key)
    requires Held(w, {}) && Extends(w, w', s) && HasCurrent(w, s, k)
    ensures HasCurrent(w', s, k)
  {
    CurrentGrows(w, w', Cache(w.sessions[s])[k]);
  }

  lemma HasBoth(w: World, s: nat)
    requires HasCurrent(w, s, Store.NEXT_LOGICAL_ADDR) && HasCurrent(w, s, Store.NEXT_PHYSICAL_ADDR)
    ensures HasCounters(w, s)
  {
  }

  // ----- What a lost counter leads to

  /** An object that gets the addresses zero, as a session that has lost its counters gives it, is written over the
      header: what is left is no database any more. */
  lemma HeaderOverwritten(e: ObjectBase, v: Value, t: Sort, words: seq<Word>, st: Store.State, ly: Store.Layout)
    requires e.Valid() && WellTyped(v, t, e.sorts) && Encodable(v) && Footprint(v) <= |words|
    requires st.w == Write(words, UNASSIGNED, v)
    ensures !Store.Inv(st, ly)
  {
    hide e.Valid, Store.Inv;
    ValidWaits(e);
    e.ReadyParts({});
    AddressHeld(e.Now(), {}, ShapeWord(v));
    HeaderWord(words, v);
    HeadedBy(st, ly);
  }

  lemma HeaderWord(words: seq<Word>, v: Value)
    requires Encodable(v) && Footprint(v) <= |words|
    ensures |Write(words, UNASSIGNED, v)| > 0 && Write(words, UNASSIGNED, v)[0] == ShapeWord(v)
  {
    WriteStores(words, UNASSIGNED, v);
  }

  lemma HeadedBy(st: Store.State, ly: Store.Layout)
    ensures Store.Inv(st, ly) ==> |st.w| > 0 && st.w[0] == Store.MAGIC
  {
  }
}

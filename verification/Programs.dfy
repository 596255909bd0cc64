/** The calls a program makes. Each keeps what holds between calls, so every run of them does. */
module Programs {
  import opened Words
  import opened Codec
  import opened RedBlack
  import opened RedBlackInsert
  import opened Objects
  import opened World
  import opened Allocation
  import opened Changes
  import opened Closure
  import opened Committing
  import opened ObjectBase
  import opened Renewal
  import opened Mutation
  import opened Notice
  import opened Reading
  import opened Transactions

  lemma StoredStill(w: World, w': World)
    requires AllStored(w) && w'.sorts == w.sorts && w'.layout == w.layout
    ensures AllStored(w')
  {
  }

  /** A new session (obl_create_session). */
  method CreateSession(e: ObjectBase) returns (s: nat)
    requires e.Valid()
    modifies e`sessions
    ensures e.Valid() && s == |old(e.sessions)| && e.sessions == old(e.sessions) + [Session(Leaf, None)]
  {
    hide *;
    ghost var w := e.Now();
    ValidParts(e);
    e.ReadyParts({});
    JoinHolds(w, {});
    s := |e.sessions|;
    e.sessions := e.sessions + [Session(Leaf, None)];
    NowIs(e);
    JoinedIs(w);
    StoredStill(w, e.Now());
    RootsJoin(w, {}, e.Now());
    StillFresh(e, e.memory);
    ReadyFrom(e, {});
    ValidFrom(e);
  }

  lemma RootsJoin(w: World, stale: Stale, w': World)
    requires Held(w, stale) && RootsWait(w) && w' == Joined(w)
    ensures RootsWait(w')
  {
    RootsGrow(w, stale, w');
  }

  lemma JoinedIs(w: World)
    ensures Joined(w) == w.(sessions := w.sessions + [Session(Leaf, None)])
  {
  }

  lemma AddedIs(w: World, r: Ref, o: Obj, k: Sort)
    ensures Added(w, r, o, k) == w.(memory := w.memory[r := o], kinds := w.kinds[r := k])
  {
  }

  /** A new object that no session has (the creation functions of obl/storage). */
  method CreateObject(e: ObjectBase, shape: Ref, storage: Storage, ghost k: Sort) returns (r: Ref)
    requires e.Valid() && Creatable(e.Now(), e.nextRef, Obj(None, UNASSIGNED, UNASSIGNED, shape, storage), k)
    modifies e`memory, e`nextRef, e`kinds
    ensures e.Valid() && r !in old(e.memory)
    ensures e.memory == old(e.memory)[r := Obj(None, UNASSIGNED, UNASSIGNED, shape, storage)]
    ensures e.kinds == old(e.kinds)[r := k]
  {
    hide *;
    ghost var w := e.Now();
    ValidParts(e);
    e.ReadyParts({});
    r := e.nextRef;
    var o := Obj(None, UNASSIGNED, UNASSIGNED, shape, storage);
    CreateHolds(w, {}, r, o, k);
    AddedIs(w, r, o, k);
    e.memory, e.kinds := e.memory[r := o], e.kinds[r := k];
    e.nextRef := r + 1;
    NowIs(e);
    StoredStill(w, e.Now());
    RootsAdd(w, {}, r, o, k);
    FreshAfter(e, w.memory, r);
    ReadyFrom(e, {});
    ValidFrom(e);
  }

  lemma RootsAdd(w: World, stale: Stale, r: Ref, o: Obj, k: Sort)
    requires Held(w, stale) && RootsWait(w) && Creatable(w, r, o, k)
    ensures RootsWait(Added(w, r, o, k))
  {
    RootsGrow(w, stale, Added(w, r, o, k));
  }

  lemma FreshAfter(e: ObjectBase, m: Memory, r: Ref)
    requires (forall x | x in m :: x < r) && e.nextRef == r + 1 && e.memory.Keys == m.Keys + {r}
    ensures e.Fresh()
  {
  }

  /** The object at an address as a session sees it, read `depth` references deep. Past the depth an address that
      leads nowhere would get a stub. */
  method ObjectAtDepth(e: ObjectBase, s: nat, address: Word, depth: int) returns (r: Ref)
    requires e.Valid() && s < |e.sessions| && (depth > 0 || IsFixedAddr(address) || address in e.sorts)
    modifies e`memory, e`nextRef, e`sessions, e`kinds
    ensures e.Valid() && Faulted(old(e.Now()), e.Now(), s, address, depth, r) && Fetched(old(e.Now()), e.Now(), s, address, depth)
    ensures Untouched(old(e.Now()), e.Now(), s, RankAt(e.sorts, address))
  {
    hide *;
    ghost var w := e.Now();
    ValidParts(e);
    e.ReadyParts({});
    AddressHeld(w, {}, address);
    r := e.Fault(s, address, depth, {});
    FaultedExtends(w, e.Now(), s, address, depth, r);
    RootsExtend(w, {}, e.Now(), s);
    ValidFrom(e);
  }

  lemma FaultedExtends(w: World, w': World, s: nat, a: Word, depth: int, r: Ref)
    requires Faulted(w, w', s, a, depth, r)
    ensures Extends(w, w', s)
  {
  }

  /** The object at an address as a session sees it (obl_at_address). */
  method ObjectAt(e: ObjectBase, s: nat, address: Word) returns (r: Ref)
    requires e.Valid() && s < |e.sessions|
    modifies e`memory, e`nextRef, e`sessions, e`kinds
    ensures e.Valid() && Faulted(old(e.Now()), e.Now(), s, address, e.stubDepth, r)
    ensures Fetched(old(e.Now()), e.Now(), s, address, e.stubDepth)
    ensures Untouched(old(e.Now()), e.Now(), s, RankAt(e.sorts, address))
  {
    r := ObjectAtDepth(e, s, address, e.stubDepth);
  }

  /** Asked again, a session gives the same object: what the first request left is what the second finds. */
  lemma AskedAgain(w: World, w1: World, w2: World, s: nat, a: Word, depth: int, depth': int, r: Ref, r': Ref)
    requires Faulted(w, w1, s, a, depth, r) && depth > 0 && a in w.sorts
    requires Faulted(w1, w2, s, a, depth', r')
    ensures r' == r && w2 == w1
  {
  }

  /** Begins a transaction, unless there is one. */
  method BeginTransaction(e: ObjectBase, s: nat) returns (begun: bool)
    requires e.Valid() && s < |e.sessions|
    modifies e`sessions
    ensures e.Valid() && begun == (old(e.sessions)[s].writeSet == None)
    ensures e.sessions == if begun then old(e.sessions)[s := old(e.sessions)[s].(writeSet := Some(Leaf))] else old(e.sessions)
  {
    hide *;
    ghost var w := e.Now();
    ValidParts(e);
    e.ReadyParts({});
    begun := e.sessions[s].writeSet == None;
    if begun {
      BeginHolds(w, {}, s);
      WithSessionIs(w, s, e.sessions[s].(writeSet := Some(Leaf)));
      e.sessions := e.sessions[s := e.sessions[s].(writeSet := Some(Leaf))];
      NowIs(e);
      StoredStill(w, e.Now());
      RootsBegin(w, {}, s);
      StillFresh(e, e.memory);
      ReadyFrom(e, {});
      ValidFrom(e);
    }
  }

  lemma RootsBegin(w: World, stale: Stale, s: nat)
    requires Held(w, stale) && RootsWait(w) && s < |w.sessions|
    ensures RootsWait(WithSession(w, s, w.sessions[s].(writeSet := Some(Leaf))))
  {
    RootsGrow(w, stale, WithSession(w, s, w.sessions[s].(writeSet := Some(Leaf))));
  }

  /** Sets the session of an object that has none, as the code's own tests do to persist a first object. */
  method ClaimObject(e: ObjectBase, s: nat, r: Ref)
    requires e.Valid() && s < |e.sessions| && Transient(e.Now(), r) && Served(e.kinds[r].form, e.corrected)
    modifies e`memory
    ensures e.Valid() && e.memory == old(e.memory)[r := old(e.memory)[r].(session := Some(s))]
  {
    hide *;
    ghost var w := e.Now();
    ValidParts(e);
    e.ReadyParts({});
    TransientIs(w, r);
    ClaimHolds(w, {}, s, r);
    OwnerIs(w, s, r);
    RootsClaim(w, {}, s, r);
    ghost var m := e.memory;
    e.memory := e.memory[r := e.memory[r].(session := Some(s))];
    NowIs(e);
    StoredStill(w, e.Now());
    StillFresh(e, m);
    ReadyFrom(e, {});
    ValidFrom(e);
  }

  lemma TransientIs(w: World, r: Ref)
    requires Transient(w, r)
    ensures r in w.memory && r in w.kinds
  {
  }

  lemma OwnerIs(w: World, s: nat, r: Ref)
    requires r in w.memory
    ensures WithOwner(w, s, r) == w.(memory := w.memory[r := w.memory[r].(session := Some(s))])
  {
  }

  lemma RootsClaim(w: World, stale: Stale, s: nat, r: Ref)
    requires Held(w, stale) && RootsWait(w) && Transient(w, r)
    ensures RootsWait(WithOwner(w, s, r))
  {
    forall z | 0 <= z < |w.sessions| && UNASSIGNED in Dirty(w.sessions[z])
      ensures Dirty(w.sessions[z])[UNASSIGNED] in w.memory && Dirty(w.sessions[z])[UNASSIGNED] != r
    {
      SetsHeld(w, stale, z);
    }
  }

  /** Counts an object as changed in its session's open transaction (obl_mark_dirty). The object that was entered at
      the same address before is deallocated by the set. */
  method MarkDirty(e: ObjectBase, r: Ref) returns (freed: Option<Ref>)
    requires e.Valid() && MayMark(e.Now(), r)
    modifies e`sessions
    ensures e.Valid() && e.Now() == MarkedDirty(old(e.Now()), r)
    ensures freed == Evicted(old(e.Now()), r)
  {
    hide *;
    ghost var w := e.Now();
    ValidParts(e);
    e.ReadyParts({});
    MarkDirtyHolds(w, {}, r);
    RootsMarked(w, {}, r);
    MarkIs(w, {}, r);
    freed := None;
    var session, k := e.memory[r].session, e.memory[r].logical;
    if session.Some? && e.sessions[session.value].writeSet.Some? {
      var z := e.sessions[session.value];
      var before := Find(z.writeSet.value, k);
      freed := if before.Some? && before.value != r then before else None;
      e.sessions := e.sessions[session.value := Marked(z, k, r)];
    }
    NowIs(e);
    StoredStill(w, e.Now());
    StillFresh(e, e.memory);
    ReadyFrom(e, {});
    ValidFrom(e);
  }

  /** The object that gives way to `r` in the write set. */
  ghost function Evicted(w: World, r: Ref): Option<Ref>
    requires r in w.memory
  {
    match w.memory[r].session
    case None => None
    case Some(s) =>
      var k := w.memory[r].logical;
      if s < |w.sessions| && k in Dirty(w.sessions[s]) && Dirty(w.sessions[s])[k] != r then Some(Dirty(w.sessions[s])[k]) else None
  }

  lemma MarkIs(w: World, stale: Stale, r: Ref)
    requires Held(w, stale) && MayMark(w, r)
    ensures r in w.memory
    ensures match w.memory[r].session
      case None => MarkedDirty(w, r) == w && Evicted(w, r) == None
      case Some(s) =>
        && s < |w.sessions|
        && var k, z := w.memory[r].logical, w.sessions[s];
           if z.writeSet.Some? then
             && MarkedDirty(w, r) == w.(sessions := w.sessions[s := Marked(z, k, r)])
             && var before := Find(z.writeSet.value, k);
                Evicted(w, r) == if before.Some? && before.value != r then before else None
           else MarkedDirty(w, r) == w && Evicted(w, r) == None
  {
    if w.memory[r].session.Some? {
      var s := w.memory[r].session.value;
      SetsHeld(w, stale, s);
      if w.sessions[s].writeSet.Some? {
        FindReadsContents(w.sessions[s].writeSet.value, w.memory[r].logical);
      }
    }
  }

  lemma PutIs(w: World, r: Ref, index: nat, value: Ref)
    requires HasSlot(w, r, index)
    ensures r in w.memory && w.memory[r].storage.SlottedStorage? && index < |w.memory[r].storage.slots|
    ensures AfterPut(w, r, index, value) ==
      w.(memory := w.memory[r := w.memory[r].(storage := SlottedStorage(w.memory[r].storage.slots[index := value]))],
         sessions := Touched(w, r).sessions)
  {
  }

  /** Stores an object in a slot within the open transaction, or in an object that is not persisted. */
  method PutSlot(e: ObjectBase, r: Ref, index: nat, value: Ref)
    requires e.Valid() && MayPut(e.Now(), r, value) && HasSlot(e.Now(), r, index)
    modifies e`memory, e`sessions
    ensures e.Valid() && e.Now() == AfterPut(old(e.Now()), r, index, value)
  {
    hide *;
    ghost var w := e.Now();
    ValidParts(e);
    e.ReadyParts({});
    PutHolds(w, {}, r, index, value);
    RootsPut(w, {}, r, index, value);
    PutIs(w, r, index, value);
    var o := e.memory[r];
    TouchedIs(w, r, value);
    if o.session.Some? {
      var s := o.session.value;
      e.sessions := e.sessions[s := Marked(Begun(e.sessions[s]), o.logical, r)];
    }
    ghost var m := e.memory;
    e.memory := e.memory[r := o.(storage := SlottedStorage(o.storage.slots[index := value]))];
    NowIs(e);
    StoredStill(w, e.Now());
    StillFresh(e, m);
    ReadyFrom(e, {});
    ValidFrom(e);
  }

  lemma TouchedIs(w: World, r: Ref, value: Ref)
    requires MayPut(w, r, value)
    ensures r in w.memory
    ensures match w.memory[r].session
      case None => Touched(w, r) == w
      case Some(s) =>
        && s < |w.sessions| && Begun(w.sessions[s]).writeSet.Some?
        && Touched(w, r).sessions == w.sessions[s := Marked(Begun(w.sessions[s]), w.memory[r].logical, r)]
  {
  }

  /** The call is followed by a commit: the object is persisted and its session was in no transaction. */
  predicate CommitsAtOnce(w: World, r: Ref) {
    r in w.memory && w.memory[r].session.Some? && w.memory[r].session.value < |w.sessions|
    && w.sessions[w.memory[r].session.value].writeSet == None
  }

  /** Stores an object in a slot. Without an open transaction the change is committed at once. */
  method SlottedAtPut(e: ObjectBase, r: Ref, index: Word, value: Ref, ghost fringe: set<Ref>, ghost cost: nat)
    returns (ok: bool, changed: seq<(Key, Ref)>, adopted: seq<Ref>, ghost loaded: World, ghost notices: seq<Key>)
    requires e.Valid() && MayPut(e.Now(), r, value)
    requires HasSlot(e.Now(), r, index) && CommitsAtOnce(e.Now(), r) ==>
      CanCommit(AfterPut(e.Now(), r, index, value), e.memory[r].session.value, fringe, cost,
                e.db.nextLogical, e.db.nextPhysical, e.db.content.Length)
    modifies e, e.db, e.db.content
    ensures e.Valid() && ok == HasSlot(old(e.Now()), r, index)
    ensures !ok ==> e.Now() == old(e.Now()) && e.db.content[..] == old(e.db.content[..])
    ensures ok && !CommitsAtOnce(old(e.Now()), r) ==>
      e.Now() == AfterPut(old(e.Now()), r, index, value) && e.db.content[..] == old(e.db.content[..])
    ensures ok && CommitsAtOnce(old(e.Now()), r) ==>
      var w, s := AfterPut(old(e.Now()), r, index, value), old(e.memory)[r].session.value;
      && Loaded(w, loaded, s) && Committed(loaded, e.Now(), s, fringe, changed, adopted)
      && (adopted != [] <==> Allocates(w, s)) && (adopted == [] ==> loaded == w)
      && (CanAllocate(w, s) ==> CanAllocate(e.Now(), s))
      && CalmTo(loaded.(sorts := e.sorts), e.Now(), s, ChangedKeys(changed, adopted), |e.sessions|)
      && NoticeOrder(notices, ChangedKeys(changed, adopted), RootHome(loaded, e.Now(), s))
      && ToldTo(loaded, e.Now(), s, notices, e.stubDepth, |e.sessions|)
      && AdoptedInOrder(loaded, e.Now(), s, adopted, old(e.db.nextLogical))
      && e.db.nextLogical == old(e.db.nextLogical) + |adopted|
      && e.db.nextLogical <= old(e.db.nextLogical) + |Remaining(w, fringe)|
      && e.db.nextPhysical <= old(e.db.nextPhysical) + |Remaining(w, fringe)| * cost
  {
    hide *;
    ghost var w := e.Now();
    NowIs(e);
    SlotIff(w, r, index, value);
    changed, adopted, loaded, notices := [], [], w, [];
    ok := e.memory[r].storage.SlottedStorage? && 0 <= index < |e.memory[r].storage.slots|;
    if ok {
      var session := e.memory[r].session;
      var created := session.Some? && e.sessions[session.value].writeSet == None;
      PutSlot(e, r, index, value);
      NowIs(e);
      if created {
        changed, adopted, loaded, notices := CommitTransaction(e, session.value, fringe, cost);
      }
    }
  }

  lemma SlotIff(w: World, r: Ref, index: int, value: Ref)
    requires MayPut(w, r, value)
    ensures r in w.memory
    ensures HasSlot(w, r, index) <==> w.memory[r].storage.SlottedStorage? && 0 <= index < |w.memory[r].storage.slots|
    ensures w.memory[r].session.Some? ==> w.memory[r].session.value < |w.sessions|
    ensures CommitsAtOnce(w, r) <==> w.memory[r].session.Some? && w.sessions[w.memory[r].session.value].writeSet == None
  {
  }

  // ----- What holds between calls, seen from outside

  /** What the file has of an object: its address leads to the object's words, and they read as the object is. */
  lemma CurrentIsInFile(e: ObjectBase, s: nat, k: Key, r: Ref)
    requires e.Valid() && HoldsAt(e.Now(), s, k, r) && Current(e.Now(), r)
    ensures r in e.memory && e.memory[r].storage.Writable()
    ensures e.db.Value().At(k) == e.memory[r].physical
    ensures Stored(e.db.content[..], e.memory[r].physical, ValueOf(e.memory, e.memory[r]))
  {
    EntryHeld(e.Now(), {}, s, k);
  }

  /** What a session has and did not change in its transaction is what the file has. */
  lemma UnchangedIsCurrent(w: World, s: nat, k: Key, r: Ref)
    requires Consistent(w) && HoldsAt(w, s, k, r) && k !in Dirty(w.sessions[s])
    ensures Current(w, r)
  {
    assert SessionSound(w, s, {});
    assert Current(w, Cache(w.sessions[s])[k]);
  }

  /** Every reference in the file leads to a constant or to an object in the file. */
  lemma FileIsClosed(w: World, a: nat, i: nat)
    requires Consistent(w) && a in w.sorts && i < |References(w.layout.disk[a])|
    ensures var b := References(w.layout.disk[a])[i]; IsFixedAddr(b) || b in w.layout.disk
    ensures var b := ShapeWord(w.layout.disk[a]); IsFixedAddr(b) || b in w.layout.disk
  {
    assert WellTyped(w.layout.disk[a], w.sorts[a], w.sorts);
  }

  // ----- What other sessions see of a commit

  /** As written all that is stored has a constant for its shape, so the laws of how deep objects are read hold of every
      session. */
  lemma StoredIsPlain(e: ObjectBase)
    requires e.Valid() && !e.corrected
    ensures PlainFile(e.db.layout.disk)
  {
    forall a | a in e.db.layout.disk ensures IsFixedAddr(ShapeWord(e.db.layout.disk[a])) {
      assert a in e.sorts;
      HeadersAreConstant(e.Now(), a);
    }
  }

  /** A commit leaves alone what other sessions have at other addresses, whether they have changed it or not, and what
      has no address. */
  lemma OthersAreLeftAlone(w0: World, w: World, s: nat, fringe: set<Ref>, changed: seq<(Key, Ref)>, adopted: seq<Ref>,
                           x: Ref)
    requires Held(w0, {}) && Committed(w0, w, s, fringe, changed, adopted)
    requires x in w0.memory && w0.memory[x].session.Some? && w0.memory[x].session.value != s
    requires w0.memory[x].logical == UNASSIGNED || w0.memory[x].logical !in ChangedKeys(changed, adopted)
    ensures x in w.memory && w.memory[x] == w0.memory[x]
  {
    hide Held, Contents, OwnKept, CommittedIn, NotifiedOf, CacheGrown, Kept, SameObject;
    assert UNASSIGNED !in ChangedKeys(changed, adopted);
    assert !IsMine(w0, s, x) && !ToldOf(w0, s, ChangedKeys(changed, adopted), |w0.sessions|, x);
  }

  /** A stub is whole in the end if a whole object refers to it whose turn comes before its own. */
  lemma StubIsResolved(w0: World, w: World, z: nat, notices: seq<Key>, i: nat, depth: int, b: Key)
    requires TurnsSeen(w0, w, z, notices, depth) && PlainFile(w.layout.disk) && depth > 1 && i < |notices|
    requires notices[i] in Cache(w0.sessions[z]) && IsIntact(w0, Cache(w0.sessions[z])[notices[i]]) && b !in notices[..i]
    requires b in Cache(w0.sessions[z]) ==> !IsMisread(w0, Cache(w0.sessions[z])[b])
    requires notices[i] in w.layout.disk && Mapped(w.layout.disk, b) && b in References(w.layout.disk[notices[i]])
    ensures z < |w.sessions| && b in Cache(w.sessions[z]) && IsIntact(w, Cache(w.sessions[z])[b])
  {
    hide Contents, Turns, References;
    var v := Seen(w0, z, {});
    assert v.whole !! v.misread && notices[i] in v.whole && b !in v.misread;
    StubsAreResolved(w.layout.disk, v, notices, i, b, depth, w.corrected);
    assert b in Seen(w, z, {}).whole;
  }

  /** A stub at a changed address gives way to a whole object, which is what the file has, if the session has a whole
      object at a smaller changed address that refers to it as committed: the notice comes to that one first. */
  lemma StubIsReplaced(w0: World, w: World, s: nat, z: nat, fringe: set<Ref>, changed: seq<(Key, Ref)>,
                       adopted: seq<Ref>, notices: seq<Key>, depth: int, k: Key, b: Key)
    requires Held(w0, {}) && Committed(w0, w, s, fringe, changed, adopted) && z < |w0.sessions| && z != s && depth > 1
    requires NoticeOrder(notices, ChangedKeys(changed, adopted), RootHome(w0, w, s))
    requires ToldTo(w0, w, s, notices, depth, |w0.sessions|) && PlainFile(w.layout.disk)
    requires k in ChangedKeys(changed, adopted) && b in ChangedKeys(changed, adopted) && k < b && b !in RootHome(w0, w, s)
    requires k in Cache(w0.sessions[z]) && IsIntact(w0, Cache(w0.sessions[z])[k])
    requires b in Cache(w0.sessions[z]) ==> !IsMisread(w0, Cache(w0.sessions[z])[b])
    requires Mapped(w.layout.disk, k) && Mapped(w.layout.disk, b) && b in References(w.layout.disk[k])
    ensures b in Cache(w.sessions[z]) && Current(w, Cache(w.sessions[z])[b])
  {
    hide Held, Contents, ChangedKeys, OwnKept, CacheGrown, CommittedIn, Kept, SameObject, OthersSpared, Seen, References;
    hide TurnsSeen, NoticeOrder;
    var i := NoticedBefore(notices, ChangedKeys(changed, adopted), RootHome(w0, w, s), k, b);
    assert TurnsSeen(w0, w, z, notices, depth);
    StubIsResolved(w0, w, z, notices, i, depth, b);
    assert NotifiedOf(w0, w, z, ChangedKeys(changed, adopted)) && UpToDate(w, z, b);
  }
}

/** What a program does to objects between commits (obl/storage/slotted.c and the creation functions of obl/storage). */
module Mutation {
  import opened Words
  import opened RedBlack
  import opened Objects
  import opened World
  import opened Changes

  // ----- New objects and sessions

  /** The record of an object nobody has stored. */
  ghost predicate Creatable(w: World, r: Ref, o: Obj, k: Sort) {
    && r !in w.memory && k.rank > 0 && LinksIn(w.memory, o) && WellFormed(w.kinds, o, k)
    && o.session == None && o.logical == UNASSIGNED && o.physical == UNASSIGNED
  }

  lemma CreatedObjects(w: World, r: Ref, o: Obj, k: Sort)
    requires Linked(w) && AllPlaced(w) && Creatable(w, r, o, k)
    ensures Linked(Added(w, r, o, k)) && AllPlaced(Added(w, r, o, k))
  {
    hide WellFormed;
    var w' := Added(w, r, o, k);
    CreatedPlaced(w, r, o, k);
    hide Placed;
    forall x | x in w'.memory ensures Placed(w', x) && LinksIn(w'.memory, w'.memory[x]) {
      if x != r {
        assert Placed(w, x) && LinksIn(w.memory, w.memory[x]);
        PlacedGrows(w, w', x);
      }
    }
  }

  lemma CreatedPlaced(w: World, r: Ref, o: Obj, k: Sort)
    requires Creatable(w, r, o, k)
    ensures Placed(Added(w, r, o, k), r)
  {
  }

  lemma CreatedFormed(w: World, r: Ref, o: Obj, k: Sort)
    requires Linked(w) && AllFormed(w) && Creatable(w, r, o, k)
    ensures AllFormed(Added(w, r, o, k))
  {
    var w' := Added(w, r, o, k);
    forall x | x in w'.memory && w'.memory[x].storage.Intact() ensures WellFormed(w'.kinds, w'.memory[x], w'.kinds[x]) {
      if x == r {
        FormedGrows(w.kinds, w'.kinds, o, k);
      } else {
        assert WellFormed(w.kinds, w.memory[x], w.kinds[x]);
        FormedGrows(w.kinds, w'.kinds, w.memory[x], w.kinds[x]);
      }
    }
  }

  lemma CreateHolds(w: World, stale: Stale, r: Ref, o: Obj, k: Sort)
    requires Held(w, stale) && Creatable(w, r, o, k)
    ensures Held(Added(w, r, o, k), stale)
  {
    var w' := Added(w, r, o, k);
    ConstantsStay(w, w');
    CreatedObjects(w, r, o, k);
    CreatedFormed(w, r, o, k);
    CopiesStay(w, w');
    forall s | 0 <= s < |w'.sessions| ensures SessionSound(w', s, stale) {
      SessionGrows(w, w', s, stale);
    }
  }

  function Joined(w: World): World {
    w.(sessions := w.sessions + [Session(Leaf, None)])
  }

  lemma JoinHolds(w: World, stale: Stale)
    requires Held(w, stale)
    ensures Held(Joined(w), stale)
  {
    var w' := Joined(w);
    assert AllPlaced(w') by {
      forall x | x in w'.memory ensures Placed(w', x) {
        assert Placed(w, x);
      }
    }
    forall x | IsCopy(w', x) ensures IsCopy(w, x) {
      assert Placed(w, x);
    }
    CopiesStay(w, w');
    assert ConstantsReady(w') by {
      forall a: Word, x | IsFixedAddr(a) && x in w.memory[Constant(a)].storage.Links() ensures !IsStub(w', x) {
        assert !IsStub(w, x);
      }
    }
    forall s | 0 <= s < |w'.sessions| ensures SessionSound(w', s, stale) {
      if s < |w.sessions| {
        assert SessionSound(w, s, stale);
        EntriesElsewhere(w, w', s, Cache(w.sessions[s]), Dirty(w.sessions[s]), stale);
      }
    }
  }

  // ----- Writing a slot

  /** The session in a transaction, which is begun if there is none. */
  function Begun(z: Session): Session {
    if z.writeSet.Some? then z else z.(writeSet := Some(Leaf))
  }

  /** The object counts as changed, if it has a session. */
  function Touched(w: World, r: Ref): World
    requires r in w.memory
  {
    match w.memory[r].session
    case None => w
    case Some(s) =>
      if s < |w.sessions| then WithSession(w, s, Marked(Begun(w.sessions[s]), w.memory[r].logical, r)) else w
  }

  /** What obl_mark_dirty does: without a session or without a transaction nothing, and none is begun. */
  function MarkedDirty(w: World, r: Ref): World
    requires r in w.memory
  {
    match w.memory[r].session
    case None => w
    case Some(s) =>
      if s < |w.sessions| && w.sessions[s].writeSet.Some? then
        WithSession(w, s, Marked(w.sessions[s], w.memory[r].logical, r))
      else w
  }

  /** The program may mark the object. */
  ghost predicate MayMark(w: World, r: Ref) {
    r in w.memory && (w.memory[r].session.Some? ==> Markable(w, w.memory[r].session.value, r))
  }

  lemma MarkDirtyHolds(w: World, stale: Stale, r: Ref)
    requires Held(w, stale) && MayMark(w, r)
    ensures Held(MarkedDirty(w, r), stale)
  {
    if w.memory[r].session.Some? && w.sessions[w.memory[r].session.value].writeSet.Some? {
      MarkHolds(w, stale, w.memory[r].session.value, r);
    }
  }

  /** What waits for an address still does when sessions come, sets are begun, and objects are added. */
  lemma RootsGrow(w: World, stale: Stale, w': World)
    requires Held(w, stale) && RootsWait(w) && |w'.sessions| >= |w.sessions|
    requires forall x | x in w.memory :: x in w'.memory && w'.memory[x] == w.memory[x]
    requires forall x | x in w.kinds :: x in w'.kinds && w'.kinds[x] == w.kinds[x]
    requires forall z | 0 <= z < |w'.sessions| ::
      UNASSIGNED !in Dirty(w'.sessions[z]) || (z < |w.sessions| && Dirty(w'.sessions[z]) == Dirty(w.sessions[z]))
    ensures RootsWait(w')
  {
    forall z | 0 <= z < |w.sessions| && UNASSIGNED in Dirty(w.sessions[z])
      ensures Dirty(w.sessions[z])[UNASSIGNED] in w.memory
    {
      SetsHeld(w, stale, z);
    }
  }

  lemma RootsMarked(w: World, stale: Stale, r: Ref)
    requires Held(w, stale) && RootsWait(w) && MayMark(w, r)
    ensures RootsWait(MarkedDirty(w, r))
  {
    var w' := MarkedDirty(w, r);
    if w.memory[r].session.Some? && w.sessions[w.memory[r].session.value].writeSet.Some? {
      var s := w.memory[r].session.value;
      MarkHolds(w, stale, s, r);
      forall z | 0 <= z < |w'.sessions| && UNASSIGNED in Dirty(w'.sessions[z])
        ensures Claimed(w', Dirty(w'.sessions[z])[UNASSIGNED]) && IsIntact(w', Dirty(w'.sessions[z])[UNASSIGNED])
      {
        SetsHeld(w, stale, z);
      }
    }
  }

  ghost predicate HasSlot(w: World, r: Ref, index: int) {
    r in w.memory && w.memory[r].storage.SlottedStorage? && 0 <= index < |w.memory[r].storage.slots|
  }

  function AfterPut(w: World, r: Ref, index: nat, value: Ref): World
    requires HasSlot(w, r, index)
  {
    var w1 := Touched(w, r);
    Refreshed(w1, r, w.memory[r].(storage := SlottedStorage(w.memory[r].storage.slots[index := value])))
  }

  /** The program may store `value` in the object: it keeps to ranks, and the object's session may count it as
      changed. */
  ghost predicate MayPut(w: World, r: Ref, value: Ref) {
    && r in w.memory && r in w.kinds && value in w.memory && value in w.kinds
    && 0 < w.kinds[r].rank && w.kinds[value].rank <= w.kinds[r].rank && IsIntact(w, r)
    && (w.memory[r].session.Some? ==> Markable(w, w.memory[r].session.value, r))
  }

  lemma BeginOrStayHolds(w: World, stale: Stale, s: nat)
    requires Held(w, stale) && s < |w.sessions|
    ensures Held(WithSession(w, s, Begun(w.sessions[s])), stale) && Cache(Begun(w.sessions[s])) == Cache(w.sessions[s])
    ensures Dirty(Begun(w.sessions[s])) == Dirty(w.sessions[s])
  {
    if w.sessions[s].writeSet == None {
      BeginHolds(w, stale, s);
    } else {
      assert WithSession(w, s, Begun(w.sessions[s])) == w;
    }
  }

  lemma TouchHolds(w: World, stale: Stale, r: Ref, value: Ref)
    requires Held(w, stale) && MayPut(w, r, value)
    ensures Held(Touched(w, r), stale) && Touched(w, r).memory == w.memory && Touched(w, r).kinds == w.kinds
    ensures forall z, k | 0 <= z < |Touched(w, r).sessions| && k in Cache(Touched(w, r).sessions[z])
      && Cache(Touched(w, r).sessions[z])[k] == r :: k in Dirty(Touched(w, r).sessions[z])
  {
    hide Held, Contents, Insert;
    match w.memory[r].session
    case None =>
      forall z, k | 0 <= z < |w.sessions| && k in Cache(w.sessions[z]) ensures Cache(w.sessions[z])[k] != r {
        EntryHeld(w, stale, z, k);
      }
    case Some(s) =>
      var k0 := w.memory[r].logical;
      BeginOrStayHolds(w, stale, s);
      var w1 := WithSession(w, s, Begun(w.sessions[s]));
      MarkHolds(w1, stale, s, r);
      var w2 := Touched(w, r);
      assert w2 == WithSession(w1, s, Marked(w1.sessions[s], k0, r));
      forall z, k | 0 <= z < |w2.sessions| && k in Cache(w2.sessions[z]) && Cache(w2.sessions[z])[k] == r
        ensures k in Dirty(w2.sessions[z])
      {
        EntryHeld(w2, stale, z, k);
      }
  }

  lemma PutFits(w: World, r: Ref, index: nat, value: Ref)
    requires Linked(w) && AllFormed(w) && MayPut(w, r, value) && HasSlot(w, r, index)
    ensures FitsObject(w, r, w.memory[r].(storage := SlottedStorage(w.memory[r].storage.slots[index := value])))
  {
    var o := w.memory[r];
    var slots := o.storage.slots[index := value];
    assert WellFormed(w.kinds, o, w.kinds[r]) && LinksIn(w.memory, o);
    forall x | x in slots ensures x in w.memory && x in w.kinds && w.kinds[x].rank <= w.kinds[r].rank {
      assert x == value || x in o.storage.Links();
    }
  }

  /** Writing a slot keeps what holds, and changes this object and its session's write set only. */
  lemma PutHolds(w: World, stale: Stale, r: Ref, index: nat, value: Ref)
    requires Held(w, stale) && MayPut(w, r, value) && HasSlot(w, r, index)
    ensures Held(AfterPut(w, r, index, value), stale)
  {
    TouchHolds(w, stale, r, value);
    var w1 := Touched(w, r);
    PutFits(w, r, index, value);
    var o := w.memory[r].(storage := SlottedStorage(w.memory[r].storage.slots[index := value]));
    assert FitsObject(w1, r, o) && Placed(w, r);
    RewriteHolds(w1, stale, r, o);
  }

  lemma RootsPut(w: World, stale: Stale, r: Ref, index: nat, value: Ref)
    requires Held(w, stale) && RootsWait(w) && MayPut(w, r, value) && HasSlot(w, r, index)
    ensures RootsWait(AfterPut(w, r, index, value))
  {
    hide Held, Contents, Insert, RedBlack.Valid;
    var w1, w' := Touched(w, r), AfterPut(w, r, index, value);
    RootsTouched(w, stale, r, value);
    assert w'.sessions == w1.sessions;
    forall z | 0 <= z < |w'.sessions| && UNASSIGNED in Dirty(w'.sessions[z])
      ensures Claimed(w', Dirty(w'.sessions[z])[UNASSIGNED]) && IsIntact(w', Dirty(w'.sessions[z])[UNASSIGNED])
    {
      assert Claimed(w1, Dirty(w1.sessions[z])[UNASSIGNED]);
    }
  }

  lemma RootsTouched(w: World, stale: Stale, r: Ref, value: Ref)
    requires Held(w, stale) && RootsWait(w) && MayPut(w, r, value)
    ensures RootsWait(Touched(w, r)) && Touched(w, r).memory == w.memory
  {
    if w.memory[r].session.Some? {
      var s := w.memory[r].session.value;
      BeginOrStayHolds(w, stale, s);
      var w1 := WithSession(w, s, Begun(w.sessions[s]));
      RootsGrow(w, stale, w1);
      RootsMarked(w1, stale, r);
      assert Touched(w, r) == MarkedDirty(w1, r);
    }
  }

  /** The slot holds the value, and the change is isolated: the file, other objects and other sessions see nothing of
      it, and no other address of the session counts as changed. */
  lemma PutIsIsolated(w: World, r: Ref, index: nat, value: Ref)
    requires Held(w, {}) && MayPut(w, r, value) && HasSlot(w, r, index)
    ensures var w' := AfterPut(w, r, index, value);
      && w'.layout == w.layout && r in w'.memory
      && w'.memory[r] == w.memory[r].(storage := SlottedStorage(w.memory[r].storage.slots[index := value]))
      && (forall x | x in w.memory && x != r :: x in w'.memory && w'.memory[x] == w.memory[x])
      && (forall z | 0 <= z < |w.sessions| && w.memory[r].session != Some(z) :: w'.sessions[z] == w.sessions[z])
      && (forall s | w.memory[r].session == Some(s) && s < |w.sessions| ::
            && Cache(w'.sessions[s]) == Cache(w.sessions[s])
            && Dirty(w'.sessions[s]) == Dirty(w.sessions[s])[w.memory[r].logical := r])
  {
    hide Held, Contents, Insert;
    if w.memory[r].session.Some? {
      var s := w.memory[r].session.value;
      BeginOrStayHolds(w, {}, s);
      MarkHolds(WithSession(w, s, Begun(w.sessions[s])), {}, s, r);
    }
  }
}

/** What reading frees. A set deallocates the object that a new one replaces at its key (obl/set.c:454-462), and a
    read set gets a new object for a stub, or for an address that reading the object itself came back to. The world
    keeps such objects; here it is said which they are and what still refers to them. */
module Freeing {
  import opened Words
  import opened Codec
  import opened RedBlack
  import opened Objects
  import opened World
  import opened Changes

  /** The object has an address at which its session has another by now. */
  ghost predicate Freed(w: World, x: Ref) {
    && x in w.memory && w.memory[x].session.Some? && w.memory[x].session.value < |w.sessions|
    && w.memory[x].logical in w.sorts
    && var cache := Cache(w.sessions[w.memory[x].session.value]);
       !(w.memory[x].logical in cache && cache[w.memory[x].logical] == x)
  }

  /** Something that is not freed refers to a freed object. */
  ghost predicate Dangles(w: World, x: Ref) {
    Freed(w, x) && exists y :: y in w.memory && !Freed(w, y) && Refers(w, y, x)
  }

  /** Entering an object frees exactly what the session had at its address. */
  lemma EnteringFrees(w: World, stale: Stale, s: nat, r: Ref, o: Obj, k: Sort)
    requires Held(w, stale) && Enterable(w, s, r, o, k)
    requires Cache(Entered(w, s, r, o, k).sessions[s]) == Cache(w.sessions[s])[o.logical := r]
    ensures var w', cache := Entered(w, s, r, o, k), Cache(w.sessions[s]);
      && !Freed(w', r)
      && forall x | x in w.memory :: Freed(w', x) <==> Freed(w, x) || (o.logical in cache && cache[o.logical] == x)
  {
    hide Held, Contents, RedBlack.Valid, WellFormed;
    SetsHeld(w, stale, s);
    var cache := Cache(w.sessions[s]);
    forall x | x in w.memory && o.logical in cache && cache[o.logical] == x ensures IsEntry(w, s, o.logical, x) {
    }
  }

  /** A request frees nothing that was there but stubs of its session, and of these the one at its own address;
      what was freed stays so. */
  lemma FaultFrees(w: World, stale: Stale, w': World, s: nat, a: Word, depth: int, r: Ref, x: Ref)
    requires Held(w, stale) && Faulted(w, w', s, a, depth, r) && x in w.memory
    ensures Freed(w, x) ==> Freed(w', x)
    ensures Freed(w', x) ==> Freed(w, x) || (IsStub(w, x) && w.memory[x].session == Some(s))
    ensures a in w.sorts && a in Cache(w.sessions[s]) && Cache(w.sessions[s])[a] == x && IsStub(w, x) ==> Freed(w', x)
    ensures a in w.sorts ==> !Freed(w', r)
  {
    hide Held, Contents, RedBlack.Valid, Current, LinksTaken, Resolved, Shallow;
    SetsHeld(w, stale, s);
    if a in w.sorts && a in Cache(w.sessions[s]) {
      EntryHeld(w, stale, s, a);
    }
  }

  /** A stub that is read is left dangling exactly if something that is not freed refers to it: nothing that was
      read takes it up. */
  lemma ResolvingDanglesIff(w: World, stale: Stale, w': World, s: nat, a: Word, depth: int, r: Ref, x: Ref)
    requires Held(w, stale) && Faulted(w, w', s, a, depth, r) && a in w.sorts
    requires a in Cache(w.sessions[s]) && Cache(w.sessions[s])[a] == x && IsStub(w, x)
    ensures Dangles(w', x) <==> exists y :: y in w.memory && !Freed(w, y) && Refers(w, y, x)
  {
    hide Held, Contents, RedBlack.Valid, Current, Resolved, Shallow, Freed;
    SetsHeld(w, stale, s);
    assert IsEntry(w, s, a, x);
    FaultFrees(w, stale, w', s, a, depth, r, x);
    forall y | y in w.memory && Refers(w, y, x) ensures Freed(w', y) <==> Freed(w, y) {
      FaultFrees(w, stale, w', s, a, depth, r, y);
      StubsReferToConstants(w, stale, y, x);
    }
    forall y | y in w'.memory && Refers(w', y, x) ensures y in w.memory {
      if y !in w.memory {
        assert ReadBy(w', s, y) && LinksTaken(w, s, w'.memory, w'.memory[y]) && TakenUp(w, s, w'.memory, x);
        AddressHeld(w, stale, a);
        ConstantsAreOutside(w, stale, a);
      }
    }
    if exists y :: y in w.memory && !Freed(w, y) && Refers(w, y, x) {
      var y :| y in w.memory && !Freed(w, y) && Refers(w, y, x);
      assert Refers(w', y, x) && !Freed(w', y);
    }
    if Dangles(w', x) {
      var y :| y in w'.memory && !Freed(w', y) && Refers(w', y, x);
      assert y in w.memory && !Freed(w, y) && Refers(w, y, x);
    }
  }

  /** Stubs refer to their constant shape only. */
  lemma StubsReferToConstants(w: World, stale: Stale, y: Ref, x: Ref)
    requires Held(w, stale) && y in w.memory && Refers(w, y, x) && IsStub(w, x)
    ensures !IsStub(w, y)
  {
    ConstantHeld(w, stale, STUB_SHAPE_ADDR);
    assert Placed(w, y) && Placed(w, x);
  }

  lemma ConstantsAreOutside(w: World, stale: Stale, a: Word)
    requires Held(w, stale) && a in w.sorts
    ensures !IsFixedAddr(a)
  {
    if IsFixedAddr(a) {
      ConstantHeld(w, stale, a);
    }
  }

  /** After an address was read, whatever refers to the session's object there refers to a freed one: the new object
      is known to its caller and its read set only. */
  lemma ReadIsUnreferred(w: World, w': World, s: nat, a: Word, depth: int, r: Ref, y: Ref, z: Ref)
    requires Faulted(w, w', s, a, depth, r) && a in w.sorts && !Live(w, s, a)
    requires Refers(w', y, z) && z in w'.memory && w'.memory[z].session == Some(s) && w'.memory[z].logical == a
    ensures z != r && Freed(w', z)
  {
  }

  /** The file has the address among the references of the object, or as its shape. */
  ghost predicate PointsAt(w: World, y: Ref, a: Word) {
    && y in w.memory && w.memory[y].logical in w.layout.disk
    && var v := w.layout.disk[w.memory[y].logical]; a == ShapeWord(v) || a in References(v)
  }

  /** A whole object that reading the address has brought in. */
  predicate BroughtIn(w: World, w': World, y: Ref) {
    y in w'.memory && y !in w.memory && !IsStub(w', y)
  }

  /** Reading an address leaves an object that it brought in referring to a freed copy of the very object it read
      exactly if one of those objects points back at the address in the file. */
  lemma ReadingDanglesIff(w: World, w': World, s: nat, a: Word, depth: int, r: Ref, y: Ref)
    requires Held(w, {}) && Held(w', {}) && Faulted(w, w', s, a, depth, r) && a in w.sorts && !Live(w, s, a)
    requires BroughtIn(w, w', y)
    ensures PointsAt(w', y, a) <==>
      exists z :: Refers(w', y, z) && z in w'.memory && w'.memory[z].logical == a && z !in w.memory && Freed(w', z)
  {
    hide Held, Contents, RedBlack.Valid, Freed, NewlyRead, LinksEntered, TakenUp;
    HeldParts(w', {});
    ConstantsAreOutside(w, {}, a);
    assert ReadBy(w', s, y) && LinksTaken(w, s, w'.memory, w'.memory[y]);
    PointsIff(w', y, a);
    forall z | Refers(w', y, z) && z in w'.memory && w'.memory[z].logical == a ensures z !in w.memory && Freed(w', z) {
      assert TakenUp(w, s, w'.memory, z);
      OwnAddressed(w', s, y, z, a);
      NotLiveIsNew(w, s, w'.memory, z, a);
      ReadIsUnreferred(w, w', s, a, depth, r, y, z);
    }
  }

  lemma NotLiveIsNew(w: World, s: nat, m: Memory, z: Ref, a: Word)
    requires TakenUp(w, s, m, z) && m[z].logical == a && !IsFixedAddr(a) && !Live(w, s, a)
    ensures z !in w.memory
  {
  }

  lemma OwnAddressed(w: World, s: nat, y: Ref, z: Ref, a: Word)
    requires ReadBy(w, s, y) && Refers(w, y, z) && z in w.memory && w.memory[z].logical == a && !IsFixedAddr(a)
    ensures w.memory[z].session == Some(s)
  {
  }

  /** An object as the file has it points where its references lie. */
  lemma PointsIff(w: World, y: Ref, a: Word)
    requires Held(w, {}) && Current(w, y) && y in w.kinds && w.memory[y].logical in w.sorts && !IsFixedAddr(a)
    ensures PointsAt(w, y, a) <==> exists z :: Refers(w, y, z) && z in w.memory && w.memory[z].logical == a
  {
    if IsMisread(w, y) {
      MisreadIsNotCurrent(w, {}, y);
    }
    assert WellFormed(w.kinds, w.memory[y], w.kinds[y]) && LinksIn(w.memory, w.memory[y]);
    ConstantHeld(w, {}, NIL_ADDR);
    WrittenPoints(w.memory, w.memory[y], a);
  }

  lemma WrittenPoints(m: Memory, o: Obj, a: Word)
    requires o.storage.Writable() && LinksIn(m, o)
    requires o.storage.ShapeStorage? ==> LogicalOf(m, o.shape) == NIL_ADDR
    requires !o.storage.MisreadStorage?
    ensures var v := ValueOf(m, o);
      a == ShapeWord(v) || a in References(v) <==>
      exists z :: (o.shape == z || z in o.storage.Links()) && z in m && m[z].logical == a
  {
    var v, links := ValueOf(m, o), o.storage.Links();
    assert References(v) == if links == [] then [] else Addresses(m, links);
    assert ShapeWord(v) == LogicalOf(m, o.shape);
    if a in References(v) {
      var i :| 0 <= i < |References(v)| && References(v)[i] == a;
      assert links[i] in links;
    }
    forall z | z in links && m[z].logical == a ensures a in References(v) {
      var i :| 0 <= i < |links| && links[i] == z;
      assert References(v)[i] == a;
    }
  }

  /** Two stored objects that refer to each other: reading one leaves the other's reference at a freed copy of it. */
  lemma CycleDangles(w: World, w': World, s: nat, a: Word, b: Word, i: nat, j: nat, depth: int, r: Ref)
    requires Consistent(w) && Held(w', {}) && Faulted(w, w', s, a, depth, r) && depth > 1
    requires a in w.sorts && b in w.sorts && a != b && !Live(w, s, a) && !Live(w, s, b)
    requires i < |References(w.layout.disk[a])| && References(w.layout.disk[a])[i] == b
    requires j < |References(w.layout.disk[b])| && References(w.layout.disk[b])[j] == a
    ensures r in w'.memory && i < |w'.memory[r].storage.Links()|
    ensures var y := w'.memory[r].storage.Links()[i];
      && y in w'.memory && w'.memory[y].logical == b && j < |w'.memory[y].storage.Links()|
      && var z := w'.memory[y].storage.Links()[j];
         z in w'.memory && w'.memory[z].logical == a && z !in w.memory && z != r && Freed(w', z)
  {
    hide Held, Contents, RedBlack.Valid, WellTyped, Freed, Faulted, LinksOwn, Live, NewAreRead, Kept;
    ConstantsAreOutside(w, {}, a);
    ConstantsAreOutside(w, {}, b);
    HeldParts(w', {});
    NewlyReadAt(w, w', s, a, depth, r);
    var y := LinkOf(w, w', s, r, i, b);
    assert y in w'.memory[r].storage.Links();
    var z := LinkOf(w, w', s, y, j, a);
    assert Refers(w', y, z);
    ReadIsUnreferred(w, w', s, a, depth, r, y, z);
  }

  lemma NewlyReadAt(w: World, w': World, s: nat, a: Word, depth: int, r: Ref)
    requires Faulted(w, w', s, a, depth, r) && a in w.sorts && !Live(w, s, a) && depth > 1
    ensures Extends(w, w', s) && BroughtIn(w, w', r) && w'.memory[r].logical == a
    ensures forall x | x in w'.memory[r].storage.Links() :: !IsStub(w', x)
  {
    assert r !in w.memory && ReadBy(w', s, r);
  }

  /** The reference of an object that was brought in, by its place in the file; it was brought in too. */
  lemma LinkOf(w: World, w': World, s: nat, x: Ref, i: nat, b: Word) returns (y: Ref)
    requires Extends(w, w', s) && Linked(w') && BroughtIn(w, w', x) && !IsFixedAddr(b) && !Live(w, s, b)
    requires w'.memory[x].logical in w'.layout.disk
    requires i < |References(w'.layout.disk[w'.memory[x].logical])|
    requires References(w'.layout.disk[w'.memory[x].logical])[i] == b
    ensures i < |w'.memory[x].storage.Links()| && y == w'.memory[x].storage.Links()[i] && Refers(w', x, y)
    ensures y in w'.memory && y !in w.memory && w'.memory[y].logical == b && w'.memory[y].session == Some(s)
    ensures w'.layout == w.layout && w'.sorts == w.sorts
  {
    assert ReadBy(w', s, x) && LinksIn(w'.memory, w'.memory[x]) && LinksTaken(w, s, w'.memory, w'.memory[x]);
    var links := w'.memory[x].storage.Links();
    assert References(ValueOf(w'.memory, w'.memory[x]))[i] == LogicalOf(w'.memory, links[i]);
    y := links[i];
    assert y in links && TakenUp(w, s, w'.memory, y) && ReadBy(w', s, y);
  }
}

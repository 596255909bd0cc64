/** The object store as a value: the words, the address of the map's root, the allocator's two counters, and what
    they stand for, a map from logical addresses to object values. */
module Store {
  import opened Words
  import opened AddressMap
  import opened AddressMapProofs
  import opened Codec

  datatype State = State(w: seq<Word>, root: Word, nextLogical: nat, nextPhysical: nat) {
    function Map(): MapState {
      MapState(w, root, nextPhysical)
    }

    function At(a: nat): Word {
      Lookup(w, root, a)
    }
  }

  /** The words reserved for one object. */
  datatype Extent = Extent(base: nat, size: nat)

  /** What the words stand for. `disk` holds the objects that were written; an address in `extents` only was
      reserved for an object that is yet to be written. */
  datatype Layout = Layout(pages: Pages, height: nat, extents: map<nat, Extent>, disk: map<nat, Value>)

  /** The header of the file: the magic word and the four root words. */
  const ROOT_WORDS := 5

  ghost predicate Disjoint(a: int, m: nat, b: int, n: nat) {
    a + m <= b || b + n <= a
  }

  ghost predicate ExtentsApart(st: State, ly: Layout) {
    && (forall a | a in ly.extents :: ROOT_WORDS <= ly.extents[a].base && ly.extents[a].base + ly.extents[a].size <= st.nextPhysical)
    && (forall p | p in ly.pages :: ROOT_WORDS <= ly.pages[p])
    && (forall a, b {:trigger Disjoint(ly.extents[a].base, ly.extents[a].size, ly.extents[b].base, ly.extents[b].size)}
          | a in ly.extents && b in ly.extents && a != b ::
          Disjoint(ly.extents[a].base, ly.extents[a].size, ly.extents[b].base, ly.extents[b].size))
    && (forall a, p {:trigger Disjoint(ly.extents[a].base, ly.extents[a].size, ly.pages[p], PAGE_SIZE)}
          | a in ly.extents && p in ly.pages ::
          Disjoint(ly.extents[a].base, ly.extents[a].size, ly.pages[p], PAGE_SIZE))
  }

  /** The map leads every address to the words reserved for it, and nowhere when there are none. */
  ghost predicate Mapped(st: State, ly: Layout) {
    && 0 < st.nextLogical <= ADDRESS_LIMIT
    && (forall a | a in ly.extents :: 0 < a < st.nextLogical && ly.extents[a].base > 0)
    && (forall a: nat :: st.At(a) == if a in ly.extents then ly.extents[a].base else UNASSIGNED)
  }

  /** Every object that was written lies in its words. */
  ghost predicate Readable(st: State, ly: Layout) {
    forall a | a in ly.disk ::
      && a in ly.extents && Footprint(ly.disk[a]) <= ly.extents[a].size
      && Stored(st.w, ly.extents[a].base, ly.disk[a])
  }

  /** The word that marks a database, and the addresses of the allocator and of its two counters. */
  const MAGIC: Word := 0x6F62_6C00
  const ALLOCATOR_ADDR: Word := 1
  const NEXT_PHYSICAL_ADDR: Word := 2
  const NEXT_LOGICAL_ADDR: Word := 3

  predicate IsCounter(a: int) {
    a == NEXT_PHYSICAL_ADDR || a == NEXT_LOGICAL_ADDR
  }

  /** Where the bootstrap puts the first page of the address map. */
  const FIRST_PAGE := 12

  /** The header is as the bootstrap wrote it: it names the page that was the root then, and the allocator. */
  ghost predicate Headed(st: State, ly: Layout) {
    && |st.w| >= ROOT_WORDS && Page(0, 0) in ly.pages && ly.pages[Page(0, 0)] == st.w[1]
    && st.w[0] == MAGIC && st.w[1] == FIRST_PAGE && st.w[2] == ALLOCATOR_ADDR && st.w[3] == UNASSIGNED && st.w[4] == UNASSIGNED
  }

  /** Header, pages and objects lie apart in used space, and the words stand for `ly`. */
  ghost predicate Inv(st: State, ly: Layout) {
    && |st.w| <= 0x1_0000_0000 && ROOT_WORDS <= st.nextPhysical && Headed(st, ly)
    && MapInv(st.Map(), ly.pages, ly.height)
    && ExtentsApart(st, ly) && Mapped(st, ly) && Readable(st, ly)
  }

  // ----- Assigning addresses to an object

  predicate CanAdopt(st: State, size: nat) {
    && st.nextLogical < ADDRESS_LIMIT
    && st.nextPhysical + size + ASSIGN_WORDS <= |st.w| <= 0x1_0000_0000
    && IsPage(st.w, st.root) && st.w[st.root + 1] <= 2
  }

  /** The next logical address, the next `size` words, and the entry in the map. */
  function Adopt(st: State, size: nat): (r: State)
    requires CanAdopt(st, size)
    ensures |r.w| == |st.w| && r.nextLogical == st.nextLogical + 1
  {
    var m := Assign(MapState(st.w, st.root, st.nextPhysical + size), st.nextLogical, st.nextPhysical);
    State(m.w, m.root, st.nextLogical + 1, m.next)
  }

  lemma MapInvLater(m: MapState, pages: Pages, height: nat, next: nat)
    requires MapInv(m, pages, height) && m.next <= next <= |m.w|
    ensures MapInv(MapState(m.w, m.root, next), pages, height)
  {
  }

  /** The words of an extent belong to no page. */
  lemma ExtentOutside(st: State, ly: Layout, a: nat, x: int)
    requires Inv(st, ly) && a in ly.extents && ly.extents[a].base <= x < ly.extents[a].base + ly.extents[a].size
    ensures Outside(ly.pages, x)
  {
    forall p | p in ly.pages ensures x < ly.pages[p] || ly.pages[p] + PAGE_SIZE <= x {
      assert Disjoint(ly.extents[a].base, ly.extents[a].size, ly.pages[p], PAGE_SIZE);
    }
  }

  /** Extents stay apart when the pages grow into new space and a new extent lies between. */
  lemma ApartAfterAdopt(st: State, ly: Layout, size: nat, st': State, pages': Pages, height': nat)
    requires Inv(st, ly) && st'.nextPhysical >= st.nextPhysical + size
    requires Grows(ly.pages, pages', st.nextPhysical + size, st'.nextPhysical)
    ensures ExtentsApart(st', Layout(pages', height', ly.extents[st.nextLogical := Extent(st.nextPhysical, size)], ly.disk))
  {
    var ly' := Layout(pages', height', ly.extents[st.nextLogical := Extent(st.nextPhysical, size)], ly.disk);
    forall a, b | a in ly'.extents && b in ly'.extents && a != b
      ensures Disjoint(ly'.extents[a].base, ly'.extents[a].size, ly'.extents[b].base, ly'.extents[b].size)
    {
      if a != st.nextLogical && b != st.nextLogical {
        assert Disjoint(ly.extents[a].base, ly.extents[a].size, ly.extents[b].base, ly.extents[b].size);
      }
    }
    forall a, p | a in ly'.extents && p in ly'.pages
      ensures Disjoint(ly'.extents[a].base, ly'.extents[a].size, ly'.pages[p], PAGE_SIZE)
    {
      if a != st.nextLogical && p in ly.pages {
        assert Disjoint(ly.extents[a].base, ly.extents[a].size, ly.pages[p], PAGE_SIZE);
      } else if p in ly.pages {
        assert ly.pages[p] + PAGE_SIZE <= st.nextPhysical;
      }
    }
  }

  lemma ReadableAfterAdopt(st: State, ly: Layout, size: nat, w': seq<Word>, to: nat)
    requires Inv(st, ly) && |w'| == |st.w|
    requires Spares(st.w, w', ly.pages, st.nextPhysical + size, to)
    ensures forall a | a in ly.disk :: Stored(w', ly.extents[a].base, ly.disk[a])
  {
    forall a | a in ly.disk ensures Stored(w', ly.extents[a].base, ly.disk[a]) {
      forall x | ly.extents[a].base <= x < ly.extents[a].base + Footprint(ly.disk[a]) ensures w'[x] == st.w[x] {
        ExtentOutside(st, ly, a, x);
      }
      StoredFrame(st.w, w', ly.extents[a].base, ly.disk[a]);
    }
  }

  lemma MappedAfterAdopt(st: State, ly: Layout, size: nat, st': State, ly': Layout)
    requires Inv(st, ly) && st.nextLogical < ADDRESS_LIMIT && st'.nextLogical == st.nextLogical + 1
    requires ly'.extents == ly.extents[st.nextLogical := Extent(st.nextPhysical, size)]
    requires forall a: nat :: st'.At(a) == if a == st.nextLogical then st.nextPhysical else st.At(a)
    ensures Mapped(st', ly')
  {
  }

  lemma HeaderOutside(st: State, ly: Layout)
    requires Inv(st, ly)
    ensures Outside(ly.pages, 0) && Outside(ly.pages, 1) && Outside(ly.pages, 2) && Outside(ly.pages, 3)
    ensures Outside(ly.pages, 4)
  {
  }

  /** From the map after the assignment to the store after adoption. */
  lemma AfterAssign(st: State, ly: Layout, size: nat, m: MapState, pages': Pages, height': nat)
    requires Inv(st, ly) && st.nextLogical < ADDRESS_LIMIT
    requires |m.w| == |st.w| && MapInv(m, pages', height')
    requires st.nextPhysical + size <= m.next && Grows(ly.pages, pages', st.nextPhysical + size, m.next)
    requires Spares(st.w, m.w, ly.pages, st.nextPhysical + size, m.next)
    requires forall a: nat :: Lookup(m.w, m.root, a) == if a == st.nextLogical then st.nextPhysical else Lookup(st.w, st.root, a)
    ensures Inv(State(m.w, m.root, st.nextLogical + 1, m.next),
                Layout(pages', height', ly.extents[st.nextLogical := Extent(st.nextPhysical, size)], ly.disk))
  {
    var st' := State(m.w, m.root, st.nextLogical + 1, m.next);
    var ly' := Layout(pages', height', ly.extents[st.nextLogical := Extent(st.nextPhysical, size)], ly.disk);
    HeaderOutside(st, ly);
    ApartAfterAdopt(st, ly, size, st', pages', height');
    ReadableAfterAdopt(st, ly, size, st'.w, st'.nextPhysical);
    MappedAfterAdopt(st, ly, size, st', ly');
  }

  lemma AddressIsNew(st: State, ly: Layout)
    requires Inv(st, ly)
    ensures st.nextLogical !in ly.extents && st.nextLogical !in ly.disk
    ensures forall a | a in ly.extents :: a < st.nextLogical
    ensures 0 < st.nextPhysical <= |st.w| <= 0x1_0000_0000
  {
  }

  lemma CanAdoptHere(st: State, ly: Layout, size: nat)
    requires Inv(st, ly) && st.nextLogical < ADDRESS_LIMIT && st.nextPhysical + size + ASSIGN_WORDS <= |st.w|
    ensures CanAdopt(st, size)
  {
  }

  lemma AssignedMap(before: MapState, pages: Pages, height: nat, k: nat, v: Word) returns (m: MapState, pages': Pages,
                    height': nat)
    requires MapInv(before, pages, height) && 0 < before.next && k < ADDRESS_LIMIT
    requires before.next + ASSIGN_WORDS <= |before.w| <= 0x1_0000_0000
    ensures Assignable(before, k) && m == Assign(before, k, v)
    ensures |m.w| == |before.w| && MapInv(m, pages', height')
    ensures before.next <= m.next <= before.next + ASSIGN_WORDS && Grows(pages, pages', before.next, m.next)
    ensures Spares(before.w, m.w, pages, before.next, m.next)
    ensures forall a: nat :: Lookup(m.w, m.root, a) == if a == k then v else Lookup(before.w, before.root, a)
  {
    pages' := AssignCorrect(before, pages, height, k, v);
    m := Assign(before, k, v);
    height' := Max(height, RequiredHeight(k));
  }

  /** The map that adoption leaves. */
  lemma AdoptedMap(st: State, pages: Pages, height: nat, size: nat) returns (m: MapState, pages': Pages, height': nat)
    requires MapInv(st.Map(), pages, height) && CanAdopt(st, size)
    ensures Adopt(st, size) == State(m.w, m.root, st.nextLogical + 1, m.next)
    ensures |m.w| == |st.w| && MapInv(m, pages', height')
    ensures st.nextPhysical + size <= m.next <= st.nextPhysical + size + ASSIGN_WORDS
    ensures Grows(pages, pages', st.nextPhysical + size, m.next)
    ensures Spares(st.w, m.w, pages, st.nextPhysical + size, m.next)
    ensures forall a: nat :: Lookup(m.w, m.root, a) == if a == st.nextLogical then st.nextPhysical else Lookup(st.w, st.root, a)
  {
    hide MapInv, Grows, Spares, Lookup, Assign;
    var before := MapState(st.w, st.root, st.nextPhysical + size);
    RootHeld(st.Map(), pages, height);
    MapInvLater(st.Map(), pages, height, st.nextPhysical + size);
    m, pages', height' := AssignedMap(before, pages, height, st.nextLogical, st.nextPhysical);
  }

  /** Adoption reserves words for a new address and disturbs nothing that is stored. */
  lemma AdoptKeeps(st: State, ly: Layout, size: nat) returns (ly': Layout)
    requires Inv(st, ly) && st.nextLogical < ADDRESS_LIMIT && st.nextPhysical + size + ASSIGN_WORDS <= |st.w|
    ensures CanAdopt(st, size)
    ensures Inv(Adopt(st, size), ly')
    ensures ly'.extents == ly.extents[st.nextLogical := Extent(st.nextPhysical, size)] && ly'.disk == ly.disk
    ensures Adopt(st, size).nextPhysical <= st.nextPhysical + size + ASSIGN_WORDS
  {
    CanAdoptHere(st, ly, size);
    var m, pages', height' := AdoptedMap(st, ly.pages, ly.height, size);
    AfterAssign(st, ly, size, m, pages', height');
    ly' := Layout(pages', height', ly.extents[st.nextLogical := Extent(st.nextPhysical, size)], ly.disk);
  }

  // ----- Writing an object

  /** Writing into an object's own words changes nothing else that is stored. */
  lemma WriteKeepsOthers(st: State, ly: Layout, a: nat, v: Value, w': seq<Word>)
    requires Inv(st, ly) && a in ly.extents && Footprint(v) <= ly.extents[a].size
    requires Confined(st.w, w', ly.extents[a].base, ly.extents[a].base + Footprint(v))
    ensures forall p, x | p in ly.pages && ly.pages[p] <= x < ly.pages[p] + PAGE_SIZE :: w'[x] == st.w[x]
    ensures forall b | b in ly.disk && b != a :: Stored(w', ly.extents[b].base, ly.disk[b])
  {
    forall p, x | p in ly.pages && ly.pages[p] <= x < ly.pages[p] + PAGE_SIZE ensures w'[x] == st.w[x] {
      assert Disjoint(ly.extents[a].base, ly.extents[a].size, ly.pages[p], PAGE_SIZE);
    }
    forall b | b in ly.disk && b != a ensures Stored(w', ly.extents[b].base, ly.disk[b]) {
      assert Disjoint(ly.extents[a].base, ly.extents[a].size, ly.extents[b].base, ly.extents[b].size);
      StoredFrame(st.w, w', ly.extents[b].base, ly.disk[b]);
    }
  }

  lemma MapInvSamePages(m: MapState, w': seq<Word>, pages: Pages, height: nat)
    requires MapInv(m, pages, height) && |w'| == |m.w|
    requires forall p, x | p in pages && pages[p] <= x < pages[p] + PAGE_SIZE :: w'[x] == m.w[x]
    ensures MapInv(MapState(w', m.root, m.next), pages, height)
  {
    assert AllPages(w', pages);
    forall p, i | p in pages && p.height > 0 && 0 <= i < 256
      ensures Slot(w', pages[p], i) == if p.Child(i) in pages then pages[p.Child(i)] else UNASSIGNED
    {
      assert Slot(w', pages[p], i) == Slot(m.w, pages[p], i);
    }
  }

  lemma {:induction false} WalkSamePages(w: seq<Word>, w': seq<Word>, pages: Pages, h: nat, j: nat)
    requires AllPages(w, pages) && Linked(w, pages) && |w'| == |w| && Over(j, h) in pages
    requires forall p, x | p in pages && pages[p] <= x < pages[p] + PAGE_SIZE :: w'[x] == w[x]
    ensures Walk(w', pages[Over(j, h)], h, j) == Walk(w, pages[Over(j, h)], h, j)
    decreases h
  {
    ShrDigit(j, h);
    var b, i := pages[Over(j, h)], Digit(j, h);
    assert Slot(w', b, i) == Slot(w, b, i);
    if h > 0 && Slot(w, b, i) != UNASSIGNED {
      WalkSamePages(w, w', pages, h - 1, j);
    }
  }

  lemma LookupSamePages(m: MapState, w': seq<Word>, pages: Pages, height: nat, j: nat)
    requires MapInv(m, pages, height) && |w'| == |m.w|
    requires forall p, x | p in pages && pages[p] <= x < pages[p] + PAGE_SIZE :: w'[x] == m.w[x]
    ensures Lookup(w', m.root, j) == Lookup(m.w, m.root, j)
  {
    MapInvSamePages(m, w', pages, height);
    LookupIsWalk(m, pages, height, j);
    LookupIsWalk(MapState(w', m.root, m.next), pages, height, j);
    if Shr(j, height + 1) == 0 {
      WalkSamePages(m.w, w', pages, height, j);
    }
  }

  /** Writing an object into its reserved words updates the abstract map at its address only. */
  lemma WriteUpdates(st: State, ly: Layout, a: nat, v: Value)
    requires Inv(st, ly) && a in ly.extents && Footprint(v) <= ly.extents[a].size && Encodable(v)
    ensures st.At(a) == ly.extents[a].base && st.At(a) + Footprint(v) <= |st.w|
    ensures Inv(st.(w := Write(st.w, st.At(a), v)), ly.(disk := ly.disk[a := v]))
  {
    hide Write, Stored, Linked, Rooted;
    var w' := Write(st.w, ly.extents[a].base, v);
    WriteStores(st.w, ly.extents[a].base, v);
    WriteKeepsOthers(st, ly, a, v, w');
    MapInvSamePages(st.Map(), w', ly.pages, ly.height);
    WrittenMapped(st, ly, w', v, a);
  }

  lemma WrittenMapped(st: State, ly: Layout, w': seq<Word>, v: Value, a: nat)
    requires Inv(st, ly) && |w'| == |st.w|
    requires forall p, x | p in ly.pages && ly.pages[p] <= x < ly.pages[p] + PAGE_SIZE :: w'[x] == st.w[x]
    ensures Mapped(st.(w := w'), ly.(disk := ly.disk[a := v]))
  {
    forall b: nat ensures st.(w := w').At(b) == st.At(b) {
      LookupSamePages(st.Map(), w', ly.pages, ly.height, b);
    }
  }

  /** Reading an address gives the value the store stands for. */
  lemma ReadsBack(st: State, ly: Layout, a: nat)
    requires Inv(st, ly) && a in ly.disk
    ensures Stored(st.w, st.At(a), ly.disk[a])
    ensures forall v | Stored(st.w, st.At(a), v) && KindOf(v) == KindOf(ly.disk[a]) :: v == ly.disk[a]
  {
    forall v | Stored(st.w, st.At(a), v) && KindOf(v) == KindOf(ly.disk[a]) ensures v == ly.disk[a] {
      StoredOnce(st.w, st.At(a), v, ly.disk[a]);
    }
  }
}

/** The store from its bootstrap on: every run of adoptions and writes is a run of a plain map. */
module StoreRuns {
  import opened Words
  import opened AddressMap
  import opened AddressMapProofs
  import opened Codec
  import opened Store

  // ----- The bootstrap

  /** The words a new store occupies: header, allocator, counters, one leaf page. */
  const BOOT_WORDS := 270

  const ALLOCATOR_VALUE := SlottedValue(ALLOCATOR_SHAPE_ADDR, [NEXT_LOGICAL_ADDR, NEXT_PHYSICAL_ADDR])

  function CounterValue(n: Int32): Value {
    IntegerValue(INTEGER_SHAPE_ADDR, n)
  }

  /** The bootstrap of an empty file, write by write. */
  function BootWords(w: seq<Word>): (r: seq<Word>)
    requires |w| >= BOOT_WORDS
    ensures |r| == |w|
  {
    var w1 := PutWords(w, 1, [FIRST_PAGE, ALLOCATOR_ADDR, UNASSIGNED, UNASSIGNED]);
    var w2 := Write(w1, 5, ALLOCATOR_VALUE);
    var w3 := Write(w2, 8, CounterValue(BOOT_WORDS));
    var w4 := Write(w3, 10, CounterValue(4));
    CreatePage(w4, FIRST_PAGE, 0)
  }

  predicate Bootable(w: seq<Word>) {
    BOOT_WORDS + ASSIGN_WORDS <= |w| <= 0x1_0000_0000
  }

  function Booted(w: seq<Word>): (r: State)
    requires Bootable(w)
  {
    State(FirstEntries(BootWords(w))[0 := MAGIC], FIRST_PAGE, 4, BOOT_WORDS)
  }

  /** The first three entries of the map, in the leaf at 12. */
  function FirstEntries(w: seq<Word>): (r: seq<Word>)
    requires |w| >= BOOT_WORDS
    ensures |r| == |w|
  {
    w[14 + ALLOCATOR_ADDR := 5][14 + NEXT_PHYSICAL_ADDR := 8][14 + NEXT_LOGICAL_ADDR := 10]
  }

  lemma LeafMap(s: seq<Word>)
    requires |s| >= BOOT_WORDS && IsPage(s, FIRST_PAGE) && s[13] == 0
    ensures MapInv(MapState(s, FIRST_PAGE, BOOT_WORDS), BOOT_LAYOUT.pages, 0)
  {
  }

  /** The three assignments of the bootstrap are those writes into the only leaf. */
  lemma BootAssigns(w: seq<Word>)
    requires Bootable(w)
    ensures var m := MapState(BootWords(w), FIRST_PAGE, BOOT_WORDS);
      && Assignable(m, ALLOCATOR_ADDR) && Assignable(Assign(m, ALLOCATOR_ADDR, 5), NEXT_PHYSICAL_ADDR)
      && Assignable(Assign(Assign(m, ALLOCATOR_ADDR, 5), NEXT_PHYSICAL_ADDR, 8), NEXT_LOGICAL_ADDR)
      && var m' := Assign(Assign(Assign(m, ALLOCATOR_ADDR, 5), NEXT_PHYSICAL_ADDR, 8), NEXT_LOGICAL_ADDR, 10);
         Booted(w) == State(m'.w[0 := MAGIC], m'.root, 4, m'.next)
  {
    var m := MapState(BootWords(w), FIRST_PAGE, BOOT_WORDS);
    LeafAssign(m, ALLOCATOR_ADDR, 5);
    LeafAssign(Assign(m, ALLOCATOR_ADDR, 5), NEXT_PHYSICAL_ADDR, 8);
    LeafAssign(Assign(Assign(m, ALLOCATOR_ADDR, 5), NEXT_PHYSICAL_ADDR, 8), NEXT_LOGICAL_ADDR, 10);
  }

  lemma LeafAssign(m: MapState, k: nat, v: Word)
    requires Assignable(m, k) && k < 256 && m.w[m.root + 1] == 0
    ensures Assign(m, k, v) == MapState(m.w[m.root + 2 + k := v], m.root, m.next)
  {
    assert RequiredHeight(k) == 0 && Digit(k, 0) == k;
  }

  const BOOT_EXTENTS: map<nat, Extent> :=
    map[ALLOCATOR_ADDR := Extent(5, 3), NEXT_PHYSICAL_ADDR := Extent(8, 2), NEXT_LOGICAL_ADDR := Extent(10, 2)]

  const BOOT_DISK: map<nat, Value> :=
    map[ALLOCATOR_ADDR := ALLOCATOR_VALUE, NEXT_PHYSICAL_ADDR := CounterValue(BOOT_WORDS), NEXT_LOGICAL_ADDR := CounterValue(4)]

  const BOOT_LAYOUT := Layout(map[Page(0, 0) := FIRST_PAGE], 0, BOOT_EXTENTS, BOOT_DISK)

  /** What a bootstrapped file holds, word by word. */
  ghost predicate BootImage(s: seq<Word>) {
    && |s| >= BOOT_WORDS && s[0] == MAGIC && s[1] == FIRST_PAGE && s[2] == ALLOCATOR_ADDR && s[3] == UNASSIGNED && s[4] == UNASSIGNED
    && s[5] == ALLOCATOR_SHAPE_ADDR && s[6] == NEXT_LOGICAL_ADDR && s[7] == NEXT_PHYSICAL_ADDR
    && s[8] == INTEGER_SHAPE_ADDR && s[9] == BOOT_WORDS && s[10] == INTEGER_SHAPE_ADDR && s[11] == 4
    && s[12] == ADDRTREEPAGE_SHAPE_ADDR && s[13] == 0
    && forall i | 0 <= i < 256 ::
      Slot(s, FIRST_PAGE, i) == if i == 1 then 5 else if i == 2 then 8 else if i == 3 then 10 else UNASSIGNED
  }

  lemma BootedWords(w: seq<Word>)
    requires Bootable(w)
    ensures |Booted(w).w| == |w| && BootImage(Booted(w).w)
  {
  }

  lemma ImageMap(s: seq<Word>)
    requires BootImage(s)
    ensures MapInv(MapState(s, FIRST_PAGE, BOOT_WORDS), BOOT_LAYOUT.pages, 0)
    ensures forall a: nat :: Lookup(s, FIRST_PAGE, a) == if a in BOOT_EXTENTS then BOOT_EXTENTS[a].base else UNASSIGNED
  {
    forall a: nat ensures Lookup(s, FIRST_PAGE, a) == if a in BOOT_EXTENTS then BOOT_EXTENTS[a].base else UNASSIGNED {
      if Shr(a, 1) == 0 {
        assert Digit(a, 0) == a;
        assert Slot(s, FIRST_PAGE, a) == Lookup(s, FIRST_PAGE, a);
      }
    }
  }

  lemma ImageObjects(s: seq<Word>)
    requires BootImage(s)
    ensures forall a | a in BOOT_DISK ::
      a in BOOT_EXTENTS && Footprint(BOOT_DISK[a]) <= BOOT_EXTENTS[a].size && Stored(s, BOOT_EXTENTS[a].base, BOOT_DISK[a])
  {
    assert Stored(s, 5, ALLOCATOR_VALUE);
    assert Stored(s, 8, CounterValue(BOOT_WORDS));
    assert Stored(s, 10, CounterValue(4));
  }

  lemma ImageApart(st: State)
    requires st.nextPhysical == BOOT_WORDS
    ensures ExtentsApart(st, BOOT_LAYOUT)
  {
    forall a, b | a in BOOT_EXTENTS && b in BOOT_EXTENTS && a != b
      ensures Disjoint(BOOT_EXTENTS[a].base, BOOT_EXTENTS[a].size, BOOT_EXTENTS[b].base, BOOT_EXTENTS[b].size)
    {
    }
  }

  lemma ImageMapped(st: State)
    requires BootImage(st.w) && st == State(st.w, FIRST_PAGE, 4, BOOT_WORDS)
    ensures Mapped(st, BOOT_LAYOUT)
  {
    ImageMap(st.w);
  }

  lemma ImageReadable(st: State)
    requires BootImage(st.w)
    ensures Readable(st, BOOT_LAYOUT)
  {
    ImageObjects(st.w);
  }

  lemma ImageStands(st: State)
    requires BootImage(st.w) && |st.w| <= 0x1_0000_0000 && st == State(st.w, FIRST_PAGE, 4, BOOT_WORDS)
    ensures Inv(st, BOOT_LAYOUT)
  {
    ImageMap(st.w);
    ImageApart(st);
    ImageMapped(st);
    ImageReadable(st);
  }

  /** A new store satisfies the invariant and holds the allocator and its counters. */
  lemma BootedStands(w: seq<Word>)
    requires Bootable(w)
    ensures Inv(Booted(w), BOOT_LAYOUT)
  {
    BootedWords(w);
    ImageStands(Booted(w));
  }

  // ----- Runs

  /** One change of the store: an object gets its addresses, or an object is written. */
  datatype Step = Reserve(size: nat) | Put(address: nat, value: Value)

  /** What a caller needs to know of the store: the words reserved by address, and the objects. */
  datatype Model = Model(next: nat, reserved: map<nat, nat>, objects: map<nat, Value>)

  const BOOT_MODEL :=
    Model(4, map[ALLOCATOR_ADDR := 3, NEXT_PHYSICAL_ADDR := 2, NEXT_LOGICAL_ADDR := 2], BOOT_DISK)

  /** A reservation needs room; an object is written where enough words were reserved for it. */
  predicate Allowed(st: State, m: Model, s: Step) {
    match s
    case Reserve(size) => st.nextLogical < ADDRESS_LIMIT && st.nextPhysical + size + ASSIGN_WORDS <= |st.w|
    case Put(a, v) => a in m.reserved && Footprint(v) <= m.reserved[a] && Encodable(v)
  }

  function ModelStep(m: Model, s: Step): Model {
    match s
    case Reserve(size) => Model(m.next + 1, m.reserved[m.next := size], m.objects)
    case Put(a, v) => m.(objects := m.objects[a := v])
  }

  function StateStep(st: State, s: Step): State {
    match s
    case Reserve(size) => if CanAdopt(st, size) then Adopt(st, size) else st
    case Put(a, v) =>
      if st.At(a) + Footprint(v) <= |st.w| && Encodable(v) then st.(w := Write(st.w, st.At(a), v)) else st
  }

  function RunModel(steps: seq<Step>): Model {
    if steps == [] then BOOT_MODEL else ModelStep(RunModel(steps[..|steps| - 1]), steps[|steps| - 1])
  }

  function RunState(w: seq<Word>, steps: seq<Step>): State
    requires Bootable(w)
  {
    if steps == [] then Booted(w) else StateStep(RunState(w, steps[..|steps| - 1]), steps[|steps| - 1])
  }

  ghost predicate AllAllowed(w: seq<Word>, steps: seq<Step>)
    requires Bootable(w)
  {
    steps != [] ==>
      var before := steps[..|steps| - 1];
      AllAllowed(w, before) && Allowed(RunState(w, before), RunModel(before), steps[|steps| - 1])
  }

  /** The store's words stand for the model. */
  ghost predicate Represents(st: State, ly: Layout, m: Model) {
    && Inv(st, ly) && m.next == st.nextLogical && m.objects == ly.disk
    && m.reserved.Keys == ly.extents.Keys && (forall a | a in ly.extents :: ly.extents[a].size == m.reserved[a])
  }

  lemma StepRepresents(st: State, ly: Layout, m: Model, s: Step) returns (ly': Layout)
    requires Represents(st, ly, m) && Allowed(st, m, s)
    ensures Represents(StateStep(st, s), ly', ModelStep(m, s))
  {
    hide Inv, Adopt, Write, Stored;
    match s
    case Reserve(size) =>
      ly' := AdoptKeeps(st, ly, size);
    case Put(a, v) =>
      WriteUpdates(st, ly, a, v);
      WriteStores(st.w, st.At(a), v);
      ly' := ly.(disk := ly.disk[a := v]);
  }

  /** After every run of allowed steps from a bootstrap, the words stand for what the same run makes of a map. */
  lemma {:induction false} RunRepresents(w: seq<Word>, steps: seq<Step>) returns (ly: Layout)
    requires Bootable(w) && AllAllowed(w, steps)
    ensures Represents(RunState(w, steps), ly, RunModel(steps))
  {
    hide Inv, StateStep, ModelStep;
    if steps == [] {
      BootedStands(w);
      BootedWords(w);
      ly := BOOT_LAYOUT;
    } else {
      var before := steps[..|steps| - 1];
      var ly0 := RunRepresents(w, before);
      ly := StepRepresents(RunState(w, before), ly0, RunModel(before), steps[|steps| - 1]);
    }
  }

  /** Every object of the model lies where the map leads its address. */
  lemma StoreHoldsObjects(w: seq<Word>, steps: seq<Step>, a: nat)
    requires Bootable(w) && AllAllowed(w, steps)
    ensures var st, m := RunState(w, steps), RunModel(steps);
      a in m.objects ==> Stored(st.w, st.At(a), m.objects[a])
  {
    var ly := RunRepresents(w, steps);
    if a in ly.disk {
      ReadsBack(RunState(w, steps), ly, a);
    }
  }

  /** What is read through the map is what the model has and nothing else; an address leads somewhere exactly if
      the model has reserved it. */
  lemma StoreRefinesMap(w: seq<Word>, steps: seq<Step>, a: nat)
    requires Bootable(w) && AllAllowed(w, steps)
    ensures var st, m := RunState(w, steps), RunModel(steps);
      && (a in m.reserved <==> st.At(a) != UNASSIGNED)
      && (a in m.objects ==> forall v | Stored(st.w, st.At(a), v) && KindOf(v) == KindOf(m.objects[a]) :: v == m.objects[a])
  {
    var ly := RunRepresents(w, steps);
    if a in ly.disk {
      ReadsBack(RunState(w, steps), ly, a);
    }
  }

  // ----- Refreshing a stub

  /** A stub has no physical address, so refreshing it reads from word 0 on. What the code finds there in every
      database: the magic word, which leads to no object and so counts as no shape, and after it what then is taken
      for a shape, with the place of the first page as the address of its name and the allocator as its slot names. */
  lemma StubRefreshMisreads(w: seq<Word>, steps: seq<Step>)
    requires Bootable(w) && AllAllowed(w, steps)
    ensures var st := RunState(w, steps);
      && |st.w| >= 5 && !IsFixedAddr(st.w[0]) && st.At(st.w[0]) == UNASSIGNED
      && [st.w[1], st.w[2], st.w[3], st.w[4]] == [FIRST_PAGE, ALLOCATOR_ADDR, UNASSIGNED, FORMAT_OF_SHAPES]
  {
    var ly := RunRepresents(w, steps);
    var st := RunState(w, steps);
    assert MAGIC !in ly.extents && st.At(MAGIC) == UNASSIGNED;
  }

  /** The storage format word of shapes. */
  const FORMAT_OF_SHAPES: Word := 0

  // ----- Reopening the file

  /** The store as it is found when the file is opened again: the root is read from the header. */
  function Reopened(st: State): State
    requires |st.w| > 1
  {
    st.(root := st.w[1])
  }

  /** The header is written at the bootstrap only, so a root that has grown is lost with the session that grew it:
      after reopening, an address is found where it was exactly if it is below 256 or was never mapped. */
  lemma ReopenFindsIff(st: State, ly: Layout, m: Model, a: nat)
    requires Represents(st, ly, m)
    ensures Reopened(st).At(a) == st.At(a) <==> a < 256 || a !in m.reserved
    ensures a >= 256 ==> Reopened(st).At(a) == UNASSIGNED
  {
    var h := ly.height;
    LookupIsWalk(st.Map(), ly.pages, h, a);
    if a < 256 {
      ShrSmall(a, h);
      WalkDown(st.Map(), ly.pages, h, a, h);
    } else {
      assert Shr(a, 1) != 0;
      assert Reopened(st).At(a) == UNASSIGNED;
    }
  }

  lemma {:induction false} ShrSmall(a: nat, h: nat)
    requires a < 256
    ensures Shr(a, h + 1) == 0 && Digit(a, h + 1) == 0
  {
    if h > 0 {
      ShrSmall(a, h - 1);
    }
  }

  /** The walk of a small address comes down to the first page. */
  lemma {:induction false} WalkDown(m: MapState, pages: Pages, height: nat, a: nat, h: nat)
    requires MapInv(m, pages, height) && a < 256 && Page(h, 0) in pages && Page(0, 0) in pages
    ensures Walk(m.w, pages[Page(h, 0)], h, a) == Walk(m.w, pages[Page(0, 0)], 0, a)
    decreases h
  {
    if h > 0 {
      ShrSmall(a, h - 1);
      LowerPage(pages, m.root, height, h - 1);
      assert Slot(m.w, pages[Page(h, 0)], 0) == pages[Page(h, 0).Child(0)];
      WalkDown(m, pages, height, a, h - 1);
    }
  }

  /** Every page on the way from the root to the first page is there. */
  lemma {:induction false} LowerPage(pages: Pages, root: int, height: nat, h: nat)
    requires Rooted(pages, root, height) && Page(0, 0) in pages && h <= height
    ensures Page(h, 0) in pages
    decreases h
  {
    if h > 0 {
      LowerPage(pages, root, height, h - 1);
      assert Page(h - 1, 0).Parent() == Page(h, 0);
    }
  }

  /** Reservations for several objects of two words. */
  function Reserves(n: nat): (steps: seq<Step>)
    ensures |steps| == n
  {
    seq(n, i requires 0 <= i < n => Reserve(2))
  }

  lemma ReservesGrow(n: nat)
    requires n > 0
    ensures Reserves(n)[..n - 1] == Reserves(n - 1) && Reserves(n)[n - 1] == Reserve(2)
  {
  }

  /** The words that many reservations may take. */
  function WordsFor(n: nat): nat {
    BOOT_WORDS + n * (2 + ASSIGN_WORDS)
  }

  lemma WordsForMore(n: nat)
    requires n > 0
    ensures WordsFor(n) == WordsFor(n - 1) + 2 + ASSIGN_WORDS
  {
  }

  /** They may be made from a bootstrap on while there is room, and give the addresses from 4 on. */
  lemma {:induction false} ReservesRun(w: seq<Word>, n: nat)
    requires Bootable(w) && WordsFor(n) <= |w| && 4 + n <= ADDRESS_LIMIT
    ensures AllAllowed(w, Reserves(n))
    ensures var st := RunState(w, Reserves(n));
      |st.w| == |w| && st.nextLogical == 4 + n && st.nextPhysical <= WordsFor(n)
    ensures RunModel(Reserves(n)).next == 4 + n && forall k | 4 <= k < 4 + n :: k in RunModel(Reserves(n)).reserved
    decreases n
  {
    hide Adopt, Inv, WordsFor, StateStep, Allowed;
    if n == 0 {
      NoReserves(w);
    } else {
      WordsForMore(n);
      ReservesRun(w, n - 1);
      ReservesGrow(n);
      var st := RunState(w, Reserves(n - 1));
      var ly := RunRepresents(w, Reserves(n - 1));
      OneReserve(st, ly, RunModel(Reserves(n - 1)));
    }
  }

  lemma OneReserve(st: State, ly: Layout, m: Model)
    requires Represents(st, ly, m) && st.nextLogical < ADDRESS_LIMIT && st.nextPhysical + 2 + ASSIGN_WORDS <= |st.w|
    ensures Allowed(st, m, Reserve(2))
    ensures var st' := StateStep(st, Reserve(2));
      && |st'.w| == |st.w| && st'.nextLogical == st.nextLogical + 1 && st'.nextPhysical <= st.nextPhysical + 2 + ASSIGN_WORDS
  {
    hide Adopt, Inv;
    var ly' := AdoptKeeps(st, ly, 2);
  }

  lemma NoReserves(w: seq<Word>)
    requires Bootable(w)
    ensures Reserves(0) == [] && AllAllowed(w, []) && WordsFor(0) == BOOT_WORDS && RunModel([]).next == 4
    ensures |RunState(w, []).w| == |w| && RunState(w, []).nextLogical == 4 && RunState(w, []).nextPhysical == BOOT_WORDS
  {
    BootedWords(w);
  }

  /** A store whose file loses an address: after 253 reservations address 256 leads to its object, and leads nowhere
      once the file was opened again. */
  lemma ReopenLoses(w: seq<Word>)
    requires Bootable(w) && WordsFor(253) <= |w|
    ensures AllAllowed(w, Reserves(253)) && |RunState(w, Reserves(253)).w| == |w|
    ensures var st := RunState(w, Reserves(253)); st.At(256) != UNASSIGNED && Reopened(st).At(256) == UNASSIGNED
  {
    ReservesRun(w, 253);
    var st, m := RunState(w, Reserves(253)), RunModel(Reserves(253));
    var ly := RunRepresents(w, Reserves(253));
    StoreRefinesMap(w, Reserves(253), 256);
    ReopenFindsIff(st, ly, m, 256);
  }
}

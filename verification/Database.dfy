/** The database of obl/database.c on one array of words: the address map, the allocator and the object formats
    write it in place. Each method is proved against the function on values that says what it computes. */
module Database {
  import opened Words
  import opened AddressMap
  import opened AddressMapProofs
  import opened Codec
  import opened Store
  import StoreRuns

  class Database {
    const content: array<Word>
    /** The base of the map's root page. */
    var root: Word
    /** Set when the root moved; nothing but the bootstrap writes the header. */
    var rootDirty: bool
    /** The allocator's counters. */
    var nextLogical: nat
    var nextPhysical: nat

    /** What the words stand for. */
    ghost var layout: Layout

    ghost function Value(): State
      reads this, content
    {
      State(content[..], root, nextLogical, nextPhysical)
    }

    ghost predicate Valid()
      reads this, content
    {
      Inv(Value(), layout)
    }

    // ----- Lookup

    method IsTreepage(base: int) returns (ok: bool)
      requires 0 <= base && base + PAGE_SIZE <= content.Length
      ensures ok == IsPage(content[..], base)
    {
      ok := content[base] == ADDRTREEPAGE_SHAPE_ADDR;
    }

    /** The recursion of lookup; each page says its own height. */
    method LookupIn(base: int, logical: nat, ghost height: nat) returns (physical: Word)
      requires MapInv(Value().Map(), layout.pages, layout.height)
      requires Over(logical, height) in layout.pages && layout.pages[Over(logical, height)] == base
      ensures physical == Walk(content[..], base, height, logical)
      decreases height
    {
      var ok := IsTreepage(base);
      if !ok {
        return UNASSIGNED;
      }
      var h := content[base + 1];
      var index := Digit(logical, h);
      var value := content[base + 2 + index];
      assert value == Slot(content[..], base, index);
      if h == 0 || value == UNASSIGNED {
        physical := value;
      } else {
        ShrDigit(logical, height);
        physical := LookupIn(value, logical, height - 1);
      }
    }

    method AddressLookup(logical: nat) returns (physical: Word)
      requires MapInv(Value().Map(), layout.pages, layout.height)
      ensures physical == Value().At(logical)
    {
      LookupIsWalk(Value().Map(), layout.pages, layout.height, logical);
      var ok := IsTreepage(root);
      if !ok {
        return UNASSIGNED;
      }
      var height: int := content[root + 1];
      if Shr(logical, height + 1) != 0 {
        return UNASSIGNED;
      }
      physical := LookupIn(root, logical, height);
    }

    // ----- Allocation

    method AllocateLogical() returns (logical: nat)
      modifies this`nextLogical
      ensures logical == old(nextLogical) && nextLogical == logical + 1
    {
      logical := nextLogical;
      nextLogical := logical + 1;
    }

    method AllocatePhysical(size: nat) returns (physical: nat)
      modifies this`nextPhysical
      ensures physical == old(nextPhysical) && nextPhysical == physical + size
    {
      physical := nextPhysical;
      nextPhysical := physical + size;
    }

    // ----- Assignment

    /** Writes an empty page of the map. */
    method WriteTreepage(base: nat, height: Word)
      requires base + PAGE_SIZE <= content.Length
      modifies content
      ensures content[..] == CreatePage(old(content[..]), base, height)
    {
      content[base] := ADDRTREEPAGE_SHAPE_ADDR;
      content[base + 1] := height;
      for i := 0 to CHUNK_SIZE
        invariant content[base] == ADDRTREEPAGE_SHAPE_ADDR && content[base + 1] == height
        invariant forall x | 0 <= x < content.Length && !(base <= x < base + PAGE_SIZE) :: content[x] == old(content[x])
        invariant forall x | base + 2 <= x < base + 2 + i :: content[x] == UNASSIGNED
      {
        content[base + 2 + i] := UNASSIGNED;
      }
    }

    method CreateTreepage(height: Word) returns (base: nat)
      requires nextPhysical + PAGE_SIZE <= content.Length
      modifies this`nextPhysical, content
      ensures base == old(nextPhysical) && nextPhysical == base + PAGE_SIZE
      ensures content[..] == CreatePage(old(content[..]), base, height)
    {
      base := AllocatePhysical(PAGE_SIZE);
      WriteTreepage(base, height);
    }

    /** The page behind slot `index` of a branch, created if it is missing. */
    method EnsureChild(base: int, index: nat, h: Word, ghost key: nat, ghost pages: Pages, ghost top: nat)
      returns (next: Word, ghost pages1: Pages)
      requires MapInv(Value().Map(), pages, top) && 0 < h <= 2 && 0 < nextPhysical && index == Digit(key, h)
      requires Over(key, h) in pages && pages[Over(key, h)] == base
      requires nextPhysical + PAGE_SIZE * h <= content.Length <= 0x1_0000_0000
      modifies this`nextPhysical, content
      ensures MapInv(Value().Map(), pages1, top) && 0 < nextPhysical <= old(nextPhysical) + PAGE_SIZE
      ensures Over(key, h - 1) in pages1 && pages1[Over(key, h - 1)] == next
      ensures var w, slot := old(content[..]), base + 2 + index;
        if w[slot] == UNASSIGNED then
          next == old(nextPhysical) && nextPhysical == next + PAGE_SIZE && content[..] == LinkedPage(w, next, h - 1, slot)
        else
          next == w[slot] && nextPhysical == old(nextPhysical) && content[..] == w
    {
      hide MapInv, CreatePage, Over, Digit;
      ghost var m := Value().Map();
      PageHeld(m, pages, top, h, key);
      next := content[base + 2 + index];
      pages1 := pages;
      if next == UNASSIGNED {
        ghost var m1;
        m1, pages1 := ChildCreated(m, pages, top, h, key);
        next := CreateTreepage(h - 1);
        content[base + 2 + index] := next;
        assert content[..] == m1.w;
      }
    }

    /** The recursion of assignment. */
    method AssignIn(base: int, key: nat, value: Word, ghost pages: Pages, ghost top: nat, ghost height: nat)
      requires MapInv(Value().Map(), pages, top) && height <= 2 && 0 < nextPhysical
      requires Over(key, height) in pages && pages[Over(key, height)] == base
      requires nextPhysical + PAGE_SIZE * height <= content.Length <= 0x1_0000_0000
      modifies this`nextPhysical, content
      ensures (content[..], nextPhysical) == AddressMap.AssignIn(old(content[..]), old(nextPhysical), base, height, key, value)
      decreases height
    {
      hide MapInv, AddressMap.AssignIn, Over, Digit;
      ghost var m := Value().Map();
      PageHeld(m, pages, top, height, key);
      var ok := IsTreepage(base);
      if !ok {
        return;
      }
      var h := content[base + 1];
      var index := Digit(key, h);
      if h == 0 {
        AssignInLeaf(m, pages, top, key, value);
        content[base + 2 + index] := value;
        assert content[..] == m.w[base + 2 + index := value];
      } else {
        AssignInLevel(m, pages, top, height, key, value);
        var next;
        ghost var pages1;
        next, pages1 := EnsureChild(base, index, h, key, pages, top);
        AssignIn(next, key, value, pages1, top, height - 1);
      }
    }

    /** How high the tree must be for an address. */
    method FindRequiredHeight(logical: nat) returns (required: nat)
      ensures required == RequiredHeight(logical)
    {
      var copied: nat := logical / 256;
      required := 0;
      while copied != 0
        invariant RequiredHeight(logical) == if copied == 0 then required else required + 1 + RequiredHeight(copied)
      {
        required := required + 1;
        copied := copied / 256;
      }
    }

    /** Stacks pages on the root until the tree is `required` high. */
    method GrowRoot(height: nat, required: nat) returns (top: Word)
      requires height < required <= 2 && nextPhysical + PAGE_SIZE * (required - height) <= content.Length <= 0x1_0000_0000
      modifies this`nextPhysical, content
      ensures MapState(content[..], top, nextPhysical) == Grow(old(Value().Map()), height, required)
      ensures top >= old(nextPhysical)
    {
      top := root;
      var h := height + 1;
      while h <= required
        invariant height < h <= required + 1 && nextPhysical >= old(nextPhysical)
        invariant h > height + 1 ==> top >= old(nextPhysical)
        invariant nextPhysical + PAGE_SIZE * (required + 1 - h) <= content.Length
        invariant Grow(MapState(content[..], top, nextPhysical), h - 1, required) == Grow(old(Value().Map()), height, required)
      {
        ghost var m := MapState(content[..], top, nextPhysical);
        var page := CreateTreepage(h);
        content[page + 2] := top;
        top := page;
        assert MapState(content[..], top, nextPhysical) == Stack(m, h);
        h := h + 1;
      }
    }

    /** Leads `logical` to `physical`. */
    method AddressAssign(logical: nat, physical: Word)
      requires MapInv(Value().Map(), layout.pages, layout.height) && 0 < nextPhysical
      requires logical < ADDRESS_LIMIT && nextPhysical + ASSIGN_WORDS <= content.Length <= 0x1_0000_0000
      modifies this`root, this`rootDirty, this`nextPhysical, content
      ensures old(Assignable(Value().Map(), logical))
      ensures Value().Map() == Assign(old(Value().Map()), logical, physical)
      ensures rootDirty == (old(rootDirty) || root != old(root))
    {
      hide MapInv, AddressMap.AssignIn, Walk, Digit;
      RootHeld(Value().Map(), layout.pages, layout.height);
      AssignGrown(Value().Map(), layout.pages, layout.height, logical, physical);
      var required := FindRequiredHeight(logical);
      var base := root;
      var ok := IsTreepage(base);
      if !ok {
        return;
      }
      var height := content[base + 1];
      ghost var top := Max(height, required);
      ghost var pages := GrowCorrect(Value().Map(), layout.pages, layout.height, top);
      if height < required {
        base := GrowRoot(height, required);
        root := base;
        rootDirty := true;
      }
      RequiredHeightIsLeast(logical, top);
      LookupIsWalk(Value().Map(), pages, top, logical);
      AssignIn(base, logical, physical, pages, top, top);
    }

    /** Allocates both addresses and enters them in the map. */
    method EnterAddresses(size: nat) returns (logical: nat, physical: nat)
      requires MapInv(Value().Map(), layout.pages, layout.height) && CanAdopt(Value(), size)
      modifies this`root, this`rootDirty, this`nextLogical, this`nextPhysical, content
      ensures Value() == Adopt(old(Value()), size)
      ensures logical == old(nextLogical) && physical == old(nextPhysical)
    {
      hide MapInv, Assign;
      RootHeld(Value().Map(), layout.pages, layout.height);
      MapInvLater(Value().Map(), layout.pages, layout.height, nextPhysical + size);
      logical := AllocateLogical();
      physical := AllocatePhysical(size);
      AddressAssign(logical, physical);
    }

    /** Gives an object of `size` words its two addresses: nothing that is stored is disturbed. */
    method AssignAddresses(size: nat) returns (logical: nat, physical: nat)
      requires Valid() && nextLogical < ADDRESS_LIMIT && nextPhysical + size + ASSIGN_WORDS <= content.Length
      modifies this, content
      ensures Valid() && old(CanAdopt(Value(), size)) && Value() == Adopt(old(Value()), size)
      ensures logical == old(nextLogical) && physical == old(nextPhysical)
      ensures logical < 0x1_0000_0000 && 0 < physical < 0x1_0000_0000
      ensures logical !in old(layout.extents) && logical !in old(layout.disk)
      ensures forall a | a in old(layout.extents) :: a < logical
      ensures nextLogical == logical + 1 && nextPhysical <= old(nextPhysical) + size + ASSIGN_WORDS
      ensures layout.extents == old(layout.extents)[logical := Extent(physical, size)]
      ensures layout.disk == old(layout.disk)
    {
      AddressIsNew(Value(), layout);
      ghost var ly := AdoptKeeps(Value(), layout, size);
      logical, physical := EnterAddresses(size);
      layout := ly;
    }

    // ----- Object formats

    /** Replaces a run of words. */
    method WriteWords(at: nat, words: seq<Word>)
      requires at + |words| <= content.Length
      modifies content
      ensures content[..] == PutWords(old(content[..]), at, words)
    {
      for i := 0 to |words|
        invariant forall x | 0 <= x < content.Length ::
          content[x] == if at <= x < at + i then words[x - at] else old(content[x])
      {
        content[at + i] := words[i];
      }
    }

    /** Writes the units of a string two to a word. */
    method WriteUnits(b: nat, units: seq<Unit>)
      requires b + (|units| + 1) / 2 <= content.Length
      modifies content
      ensures content[..] == PutUnits(old(content[..]), b, units, |units|)
    {
      ghost var w := content[..];
      for i := 0 to |units|
        invariant content[..] == PutUnits(w, b, units, i)
      {
        ghost var before := content[..];
        content[b + i / 2] := WithUnit(content[b + i / 2], i % 2 == 0, units[i]);
        assert content[..] == PutUnit(before, b, i, units[i]);
      }
    }

    /** Writes an object by the dispatch on its storage. */
    method WriteObject(base: nat, v: Codec.Value)
      requires base + Footprint(v) <= content.Length && Encodable(v)
      modifies content
      ensures content[..] == Write(old(content[..]), base, v)
    {
      match v
      case ShapeValue(name, slotNames, current, format) =>
        WriteWords(base, [NIL_ADDR, name, slotNames, current, format]);
      case SlottedValue(shape, slots) => WriteWords(base, [shape] + slots);
      case IntegerValue(shape, number) => WriteWords(base, [shape, ToWord(number)]);
      case StringValue(shape, units) =>
        WriteWords(base, [shape, |units|]);
        WriteUnits(base + 2, units);
      case FixedValue(shape, elements) => WriteWords(base, [shape, |elements|] + elements);
    }

    /** Writes an object into the words reserved for it: the abstract map changes at its address only. */
    method StoreObject(ghost a: nat, base: nat, v: Codec.Value)
      requires Valid() && a in layout.extents && layout.extents[a].base == base
      requires Footprint(v) <= layout.extents[a].size && Encodable(v)
      modifies this`layout, content
      ensures Valid() && Value() == old(Value()).(w := Write(old(content[..]), base, v))
      ensures layout == old(layout).(disk := old(layout.disk)[a := v])
    {
      hide Inv, Write, Lookup;
      WriteUpdates(Value(), layout, a, v);
      WriteObject(base, v);
      layout := layout.(disk := layout.disk[a := v]);
    }

    /** A run of words. */
    method ReadWords(at: nat, n: nat) returns (words: seq<Word>)
      requires at + n <= content.Length
      ensures |words| == n && forall i | 0 <= i < n :: words[i] == content[at + i]
    {
      words := [];
      for i := 0 to n
        invariant |words| == i && forall j | 0 <= j < i :: words[j] == content[at + j]
      {
        words := words + [content[at + i]];
      }
    }

    method ReadUnits(b: nat, n: nat) returns (units: seq<Unit>)
      requires b + (n + 1) / 2 <= content.Length
      ensures |units| == n && forall i | 0 <= i < n :: units[i] == UnitAt(content[..], b, i)
    {
      units := [];
      for i := 0 to n
        invariant |units| == i && forall j | 0 <= j < i :: units[j] == UnitAt(content[..], b, j)
      {
        var x := content[b + i / 2];
        units := units + [if i % 2 == 0 then x / 0x1_0000 else x % 0x1_0000];
      }
    }

    /** Reads an object of a known kind: whatever is stored there is what comes back. */
    method ReadObject(base: nat, kind: Kind, ghost v: Codec.Value) returns (r: Codec.Value)
      requires Stored(content[..], base, v) && KindOf(v) == kind
      ensures r == v
    {
      match kind
      case ShapeKind =>
        r := ShapeValue(content[base + 1], content[base + 2], content[base + 3], content[base + 4]);
      case SlottedKind(count) =>
        var slots := ReadWords(base + 1, count);
        r := SlottedValue(content[base], slots);
        StoredOnce(content[..], base, r, v);
      case IntegerKind => r := IntegerValue(content[base], FromWord(content[base + 1]));
      case StringKind =>
        var units := ReadUnits(base + 2, content[base + 1]);
        r := StringValue(content[base], units);
        StoredOnce(content[..], base, r, v);
      case FixedKind =>
        var elements := ReadWords(base + 2, content[base + 1]);
        r := FixedValue(content[base], elements);
        StoredOnce(content[..], base, r, v);
    }

    // ----- What the words stand for

    /** Where the object at an address lies. */
    method Locate(a: nat) returns (physical: Word)
      requires Valid()
      ensures physical == if a in layout.extents then layout.extents[a].base else UNASSIGNED
      ensures physical != UNASSIGNED <==> a in layout.extents
    {
      physical := AddressLookup(a);
    }

    method ReadHeader(base: nat, ghost a: nat) returns (header: Word)
      requires Valid() && a in layout.disk && a in layout.extents && base == layout.extents[a].base
      ensures header == ShapeWord(layout.disk[a])
    {
      header := content[base];
    }

    method ReadStored(base: nat, kind: Kind, ghost a: nat) returns (v: Codec.Value)
      requires Valid() && a in layout.disk && a in layout.extents && base == layout.extents[a].base
      requires KindOf(layout.disk[a]) == kind
      ensures v == layout.disk[a]
    {
      v := ReadObject(base, kind, layout.disk[a]);
    }

    /** The words an object would have that lies at address zero: what the header has there. */
    method ReadHeaderWords() returns (magic: Word, page: Word, allocator: Word, names: Word, shapes: Word)
      requires Valid()
      ensures magic == MAGIC && page == FIRST_PAGE && allocator == ALLOCATOR_ADDR && names == UNASSIGNED
      ensures shapes == UNASSIGNED
    {
      magic, page, allocator, names, shapes := content[0], content[1], content[2], content[3], content[4];
    }

    /** Words are never reserved at address zero. */
    lemma PlaceIsAssigned(a: nat)
      requires Valid() && a in layout.extents
      ensures layout.extents[a].base != UNASSIGNED
    {
    }

    ghost predicate CountersHere()
      reads this
    {
      && NEXT_PHYSICAL_ADDR in layout.disk && layout.disk[NEXT_PHYSICAL_ADDR].IntegerValue?
      && NEXT_LOGICAL_ADDR in layout.disk && layout.disk[NEXT_LOGICAL_ADDR].IntegerValue?
    }

    /** Writes the allocator's counters, which any allocation has changed. */
    method WriteCounters()
      requires Valid() && CountersHere() && nextPhysical < 0x8000_0000 && nextLogical < 0x8000_0000
      modifies this`layout, content
      ensures nextPhysical < 0x8000_0000 && nextLogical < 0x8000_0000
      ensures layout == old(layout).(disk := old(layout.disk)[NEXT_PHYSICAL_ADDR := StoreRuns.CounterValue(nextPhysical)]
                                                             [NEXT_LOGICAL_ADDR := StoreRuns.CounterValue(nextLogical)])
      ensures Valid()
    {
      hide Inv;
      StoreCounter(NEXT_PHYSICAL_ADDR, nextPhysical);
      StoreCounter(NEXT_LOGICAL_ADDR, nextLogical);
    }

    method StoreCounter(address: nat, n: Int32)
      requires Valid() && address in layout.disk && layout.disk[address].IntegerValue?
      modifies this`layout, content
      ensures Valid() && layout == old(layout).(disk := old(layout.disk)[address := StoreRuns.CounterValue(n)])
    {
      var base := Locate(address);
      StoreObject(address, base, StoreRuns.CounterValue(n));
    }

    // ----- Bootstrap

    /** A new database on an empty file. */
    constructor (file: array<Word>)
      requires StoreRuns.Bootable(file[..])
      modifies file
      ensures content == file && Valid()
      ensures Value() == StoreRuns.Booted(old(file[..])) && layout == StoreRuns.BOOT_LAYOUT
      ensures nextLogical == 4 && nextPhysical == StoreRuns.BOOT_WORDS
    {
      content := file;
      root, rootDirty := FIRST_PAGE, false;
      nextLogical, nextPhysical := 4, StoreRuns.BOOT_WORDS;
      layout := StoreRuns.BOOT_LAYOUT;
      new;
      hide Inv, Write, PutWords, CreatePage;
      ghost var w := content[..];
      WriteWords(1, [FIRST_PAGE, ALLOCATOR_ADDR, UNASSIGNED, UNASSIGNED]);
      WriteObject(5, StoreRuns.ALLOCATOR_VALUE);
      WriteObject(8, StoreRuns.CounterValue(StoreRuns.BOOT_WORDS));
      WriteObject(10, StoreRuns.CounterValue(4));
      WriteTreepage(FIRST_PAGE, 0);
      assert content[..] == StoreRuns.BootWords(w);
      AssignFirst();
      content[0] := MAGIC;
      assert content[..] == StoreRuns.Booted(w).w;
      StoreRuns.BootedStands(w);
    }

    /** The bootstrap's entries for the allocator and its counters. */
    method AssignFirst()
      requires root == FIRST_PAGE && nextPhysical == StoreRuns.BOOT_WORDS && layout == StoreRuns.BOOT_LAYOUT
      requires StoreRuns.Bootable(content[..]) && IsPage(content[..], FIRST_PAGE) && content[13] == 0
      modifies this`root, this`rootDirty, this`nextPhysical, content
      ensures root == FIRST_PAGE && nextPhysical == StoreRuns.BOOT_WORDS && rootDirty == old(rootDirty)
      ensures content[..] == StoreRuns.FirstEntries(old(content[..]))
    {
      AssignLeaf(ALLOCATOR_ADDR, 5);
      AssignLeaf(NEXT_PHYSICAL_ADDR, 8);
      AssignLeaf(NEXT_LOGICAL_ADDR, 10);
    }

    /** While the only page is a leaf, an assignment writes one word. */
    method AssignLeaf(logical: nat, physical: Word)
      requires root == FIRST_PAGE && nextPhysical == StoreRuns.BOOT_WORDS && layout == StoreRuns.BOOT_LAYOUT
      requires StoreRuns.Bootable(content[..]) && IsPage(content[..], FIRST_PAGE) && content[13] == 0
      requires logical < 256
      modifies this`root, this`rootDirty, this`nextPhysical, content
      ensures root == FIRST_PAGE && nextPhysical == StoreRuns.BOOT_WORDS && rootDirty == old(rootDirty)
      ensures content[..] == old(content[..])[14 + logical := physical]
    {
      StoreRuns.LeafMap(content[..]);
      StoreRuns.LeafAssign(Value().Map(), logical, physical);
      AddressAssign(logical, physical);
    }
  }
}

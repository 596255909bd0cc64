/** The constant objects of _initialize_fixed_space in obl/database.c, and the world of a new database. */
module FixedSpace {
  import opened Words
  import opened Codec
  import opened RedBlack
  import opened Objects
  import opened World
  import StoreRuns

  /** Beyond the constants: the name that stands for all their names, and their collections of slot names. */
  const NAME: Ref := 15
  const NO_SLOTS: Ref := 16
  const ALLOCATOR_SLOTS: Ref := 17
  const FIRST_FREE: Ref := 18

  function ConstantFormat(a: Word): Word {
    if a == INTEGER_SHAPE_ADDR then 5
    else if INTEGER_SHAPE_ADDR < a < STRING_SHAPE_ADDR then a - INTEGER_SHAPE_ADDR + 5
    else if a == STRING_SHAPE_ADDR then 9
    else if a == FIXED_SHAPE_ADDR then 2
    else if a == FIXED_SHAPE_ADDR + 1 then 3
    else if a == ADDRTREEPAGE_SHAPE_ADDR then 4
    else if a == ALLOCATOR_SHAPE_ADDR then 1
    else if a == ALLOCATOR_SHAPE_ADDR + 1 then 11
    else if a == ALLOCATOR_SHAPE_ADDR + 2 then 10
    else 12
  }

  function ConstantObject(a: Word): Obj
    requires IsFixedAddr(a)
  {
    if a == NIL_ADDR then Obj(None, a, UNASSIGNED, Constant(ALLOCATOR_SHAPE_ADDR + 1), OtherStorage)
    else if a <= NIL_ADDR + 2 then Obj(None, a, UNASSIGNED, Constant(ALLOCATOR_SHAPE_ADDR + 2), OtherStorage)
    else
      var slots := if a == ALLOCATOR_SHAPE_ADDR then ALLOCATOR_SLOTS else NO_SLOTS;
      Obj(None, a, UNASSIGNED, NIL, ShapeStorage(NAME, slots, NIL, ConstantFormat(a)))
  }

  function Loose(shape: Word, storage: Storage): Obj
    requires IsFixedAddr(shape)
  {
    Obj(None, UNASSIGNED, UNASSIGNED, Constant(shape), storage)
  }

  function ObjectAt(r: Ref): Obj {
    if r < NAME then ConstantObject(FIXED_ADDR_MIN + r)
    else if r == NAME then Loose(STRING_SHAPE_ADDR, StringStorage([]))
    else if r == NO_SLOTS then Loose(FIXED_SHAPE_ADDR, FixedStorage([]))
    else Loose(FIXED_SHAPE_ADDR, FixedStorage([NAME, NAME]))
  }

  function SortOf(r: Ref): Sort {
    if r < NAME then Sort(0, ConstantForm(FIXED_ADDR_MIN + r))
    else if r == NAME then Sort(1, StringForm(0))
    else if r == NO_SLOTS then Sort(2, FixedForm(0))
    else Sort(2, FixedForm(2))
  }

  const FIXED_MEMORY: Memory := map r: Ref | r < FIRST_FREE :: ObjectAt(r)

  const FIXED_KINDS: Kinds := map r: Ref | r < FIRST_FREE :: SortOf(r)

  lemma ObjectHolds(w: World, r: Ref)
    requires w.memory == FIXED_MEMORY && w.kinds == FIXED_KINDS && r < FIRST_FREE
    ensures LinksIn(w.memory, w.memory[r]) && Placed(w, r) && WellFormed(w.kinds, w.memory[r], w.kinds[r])
  {
    if r >= ALLOCATOR_SLOTS {
      assert w.memory[r] == Loose(FIXED_SHAPE_ADDR, FixedStorage([NAME, NAME]));
    }
  }

  lemma ConstantHolds(w: World, a: Word)
    requires w.memory == FIXED_MEMORY && w.kinds == FIXED_KINDS && IsFixedAddr(a)
    ensures Constant(a) in w.memory && Constant(a) in w.kinds
    ensures w.memory[Constant(a)].logical == a && w.kinds[Constant(a)] == Sort(0, ConstantForm(a))
    ensures forall x | x in w.memory[Constant(a)].storage.Links() :: !IsStub(w, x)
  {
    assert w.memory[Constant(a)] == ConstantObject(a);
  }

  lemma ConstantsHold(w: World)
    requires w.memory == FIXED_MEMORY && w.kinds == FIXED_KINDS
    ensures ConstantsReady(w)
  {
    forall a: Word | IsFixedAddr(a)
      ensures Constant(a) in w.memory && Constant(a) in w.kinds
      ensures w.memory[Constant(a)].logical == a && w.kinds[Constant(a)] == Sort(0, ConstantForm(a))
      ensures forall x | x in w.memory[Constant(a)].storage.Links() :: !IsStub(w, x)
    {
      ConstantHolds(w, a);
    }
  }

  lemma ObjectsHold(w: World)
    requires w.memory == FIXED_MEMORY && w.kinds == FIXED_KINDS
    ensures Linked(w) && AllPlaced(w) && AllFormed(w)
  {
    forall r | r in w.memory ensures LinksIn(w.memory, w.memory[r]) && Placed(w, r) && WellFormed(w.kinds, w.memory[r], w.kinds[r]) {
      ObjectHolds(w, r);
    }
  }

  lemma CounterIsTyped(n: Int32, sorts: Sorts)
    ensures WellTyped(StoreRuns.CounterValue(n), Sort(1, IntegerForm), sorts)
  {
    assert References(StoreRuns.CounterValue(n)) == [];
  }

  lemma AllocatorIsTyped()
    ensures WellTyped(StoreRuns.ALLOCATOR_VALUE, Sort(2, SlottedForm(2)), FIRST_SORTS)
  {
    assert References(StoreRuns.ALLOCATOR_VALUE) == [3, 2];
  }

  lemma FirstWordsReserved(w: World)
    requires w.layout == StoreRuns.BOOT_LAYOUT && w.sorts == FIRST_SORTS
    ensures Reserved(w)
  {
    assert w.layout.extents.Keys == {1, 2, 3} == w.sorts.Keys;
  }

  /** The allocator's own objects are as the bootstrap left them. */
  lemma FirstObjectsHold(w: World)
    requires w.layout == StoreRuns.BOOT_LAYOUT && w.sorts == FIRST_SORTS
    ensures Typed(w) && AllStored(w)
  {
    hide WellTyped;
    AllocatorIsTyped();
    CounterIsTyped(StoreRuns.BOOT_WORDS, FIRST_SORTS);
    CounterIsTyped(4, FIRST_SORTS);
    assert w.layout.disk.Keys == {1, 2, 3} == w.sorts.Keys;
  }

  /** A new database holds its constants and nothing else. */
  lemma FixedSpaceHolds(corrected: bool)
    ensures Consistent(World(FIXED_MEMORY, FIXED_KINDS, [], StoreRuns.BOOT_LAYOUT, FIRST_SORTS, corrected))
  {
    var w := World(FIXED_MEMORY, FIXED_KINDS, [], StoreRuns.BOOT_LAYOUT, FIRST_SORTS, corrected);
    hide Reserved, Typed, ConstantsReady, AllPlaced, AllFormed, LinksIn;
    FirstWordsReserved(w);
    FirstObjectsHold(w);
    ConstantsHold(w);
    ObjectsHold(w);
  }
}

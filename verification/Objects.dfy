/** Objects in memory and the sessions that hold them (obl/storage/object.h, obl/session.h), and the sorts that
    programs keep to: every object has one from its creation on. */
module Objects {
  import opened Words
  import opened Codec
  import opened RedBlack

  /** How an object is stored. `makes` is the storage a shape gives its instances, None for storage that
      cannot be read back from the file. */
  datatype Form =
    | ShapeForm(makes: Option<Kind>)
    | SlottedForm(slots: nat)
    | FixedForm(length: Word)
    | IntegerForm
    | StringForm(length: Word)
    | OtherForm

  /** An object refers to objects of at most its own rank, and its shape has a lower one. Addresses of constant
      objects have rank zero. Ordinary objects above shapes, shapes above their names' collections and these
      above strings is one such ranking. */
  datatype Sort = Sort(rank: nat, form: Form)

  type Sorts = map<nat, Sort>

  function KindOfForm(f: Form): Option<Kind> {
    match f
    case ShapeForm(_) => Some(ShapeKind)
    case SlottedForm(n) => Some(SlottedKind(n))
    case FixedForm(_) => Some(FixedKind)
    case IntegerForm => Some(IntegerKind)
    case StringForm(_) => Some(StringKind)
    case OtherForm => None
  }

  /** The storage format word of a shape (obl/storage/storagetypes.h). */
  function FormatCode(k: Kind): Word {
    match k
    case ShapeKind => 0
    case SlottedKind(_) => 1
    case FixedKind => 2
    case IntegerKind => 5
    case StringKind => 9
  }

  /** The words that an object of this form occupies when written. */
  function FormSize(f: Form): nat {
    match f
    case ShapeForm(_) => 5
    case SlottedForm(n) => 1 + n
    case FixedForm(n) => 2 + n
    case IntegerForm => 2
    case StringForm(n) => 2 + (n + 1) / 2
    case OtherForm => 0
  }

  /** The sorts of the constant objects that stored objects have as shapes. */
  function ConstantForm(a: Word): Form {
    if a == INTEGER_SHAPE_ADDR then ShapeForm(Some(IntegerKind))
    else if a == STRING_SHAPE_ADDR then ShapeForm(Some(StringKind))
    else if a == FIXED_SHAPE_ADDR then ShapeForm(Some(FixedKind))
    else if a == ALLOCATOR_SHAPE_ADDR then ShapeForm(Some(SlottedKind(2)))
    else if a <= NIL_ADDR + 2 then OtherForm
    else ShapeForm(None)
  }

  function SortAt(sorts: Sorts, a: Word): Option<Sort> {
    if IsFixedAddr(a) then Some(Sort(0, ConstantForm(a)))
    else if a in sorts then Some(sorts[a])
    else None
  }

  // ----- Sorts of stored values

  predicate Fits(v: Value, f: Form) {
    match v
    case ShapeValue(_, _, _, format) =>
      f.ShapeForm? && (f.makes.Some? ==> format == FormatCode(f.makes.value))
    case SlottedValue(_, slots) => f == SlottedForm(|slots|)
    case FixedValue(_, elements) => f.FixedForm? && f.length == |elements|
    case IntegerValue(_, _) => f == IntegerForm
    case StringValue(_, units) => f.StringForm? && f.length == |units|
  }

  /** The addresses a value holds besides its shape's. */
  function References(v: Value): seq<Word> {
    match v
    case ShapeValue(name, slotNames, current, _) => [name, slotNames, current]
    case SlottedValue(_, slots) => slots
    case FixedValue(_, elements) => elements
    case _ => []
  }

  ghost predicate WellTyped(v: Value, t: Sort, sorts: Sorts) {
    && Fits(v, t.form)
    && (var shape := SortAt(sorts, ShapeWord(v));
        shape.Some? && shape.value.rank < t.rank &&
        (!v.ShapeValue? ==> ShapeWord(v) != NIL_ADDR && shape.value.form == ShapeForm(KindOfForm(t.form))))
    && (v.IntegerValue? || v.StringValue? ==> IsFixedAddr(ShapeWord(v)))
    && (forall i | 0 <= i < |References(v)| ::
          var r := SortAt(sorts, References(v)[i]); r.Some? && r.value.rank <= t.rank)
    && (v.ShapeValue? ==>
          var names := SortAt(sorts, v.slotNames);
          && (IsFixedAddr(v.slotNames) || (names.Some? && names.value.form.FixedForm?))
          && (t.form.makes.Some? && t.form.makes.value.SlottedKind? ==>
                names.Some? && names.value.form.FixedForm? && names.value.form.length == t.form.makes.value.slots))
  }

  lemma FitsSize(v: Value, f: Form)
    requires Fits(v, f)
    ensures Footprint(v) == FormSize(f) && Encodable(v) && Some(KindOf(v)) == KindOfForm(f)
  {
  }

  // ----- Objects

  /** An object in memory is known by a handle, which stands for its pointer. The first fifteen are the constants
      of fixed space, in the order of their addresses. */
  type Ref = nat

  const NIL: Ref := 0

  function Constant(a: Word): Ref
    requires IsFixedAddr(a)
  {
    a - FIXED_ADDR_MIN
  }

  /** What an object holds. A shape that was taken from the header of the file in place of an object is told from
      others (obl/session.c:68-88 on an object without a physical address). */
  datatype Storage =
    | ShapeStorage(name: Ref, slotNames: Ref, current: Ref, format: Word)
    | SlottedStorage(slots: seq<Ref>)
    | FixedStorage(contents: seq<Ref>)
    | IntegerStorage(number: Int32)
    | StringStorage(units: seq<Unit>)
    | StubStorage(address: Word)
    | MisreadStorage(name: Ref, slotNames: Ref, current: Ref, format: Word)
    | OtherStorage
  {
    function Links(): seq<Ref> {
      match this
      case ShapeStorage(name, slotNames, current, _) => [name, slotNames, current]
      case SlottedStorage(slots) => slots
      case FixedStorage(contents) => contents
      case MisreadStorage(name, slotNames, current, _) => [name, slotNames, current]
      case _ => []
    }

    predicate Writable() {
      !StubStorage? && !OtherStorage?
    }

    predicate Intact() {
      !StubStorage? && !MisreadStorage?
    }
  }

  /** An object that is not persisted has no addresses, and no session unless a program has claimed it for one. */
  datatype Obj = Obj(session: Option<nat>, logical: Word, physical: Word, shape: Ref, storage: Storage)

  /** A session's objects by logical address, and those its transaction has changed. */
  datatype Session = Session(readSet: Tree<Ref>, writeSet: Option<Tree<Ref>>)

  type Memory = map<Ref, Obj>

  function LogicalOf(m: Memory, r: Ref): Word {
    if r in m then m[r].logical else UNASSIGNED
  }

  function Addresses(m: Memory, links: seq<Ref>): (a: seq<Word>)
    ensures |a| == |links|
  {
    seq(|links|, i requires 0 <= i < |links| => LogicalOf(m, links[i]))
  }

  /** What writing the object stores: its references as logical addresses. */
  function ValueOf(m: Memory, o: Obj): Value
    requires o.storage.Writable()
  {
    var shape, links := LogicalOf(m, o.shape), Addresses(m, o.storage.Links());
    match o.storage
    case ShapeStorage(_, _, _, format) => ShapeValue(links[0], links[1], links[2], format)
    case SlottedStorage(_) => SlottedValue(shape, links)
    case FixedStorage(_) => FixedValue(shape, links)
    case IntegerStorage(number) => IntegerValue(shape, number)
    case StringStorage(units) => StringValue(shape, units)
    case MisreadStorage(_, _, _, format) => ShapeValue(links[0], links[1], links[2], format)
  }

  /** The value depends on the addresses of what the object refers to, and on no more of memory. */
  lemma ValueStays(m: Memory, m': Memory, o: Obj)
    requires o.storage.Writable() && LogicalOf(m', o.shape) == LogicalOf(m, o.shape)
    requires forall x | x in o.storage.Links() :: LogicalOf(m', x) == LogicalOf(m, x)
    ensures ValueOf(m', o) == ValueOf(m, o)
  {
    var links := o.storage.Links();
    forall i | 0 <= i < |links| ensures Addresses(m', links)[i] == Addresses(m, links)[i] {
      assert links[i] in links;
    }
    assert Addresses(m', links) == Addresses(m, links);
  }

  // ----- Sorts of objects

  type Kinds = map<Ref, Sort>

  ghost predicate StorageFits(kinds: Kinds, s: Storage, f: Form) {
    match s
    case ShapeStorage(_, slotNames, _, format) =>
      && f.ShapeForm? && (f.makes.Some? ==> format == FormatCode(f.makes.value))
      && slotNames in kinds && (kinds[slotNames].rank == 0 || kinds[slotNames].form.FixedForm?)
      && (f.makes.Some? && f.makes.value.SlottedKind? ==>
            kinds[slotNames].form.FixedForm? && kinds[slotNames].form.length == f.makes.value.slots)
    case SlottedStorage(slots) => f == SlottedForm(|slots|)
    case FixedStorage(contents) => f.FixedForm? && f.length == |contents|
    case IntegerStorage(_) => f == IntegerForm
    case StringStorage(units) => f.StringForm? && f.length == |units|
    case StubStorage(_) => false
    case MisreadStorage(_, _, _, _) => false
    case OtherStorage => f == OtherForm
  }

  /** The object's references stay within its rank. */
  ghost predicate Ranked(kinds: Kinds, o: Obj, k: Sort) {
    && o.shape in kinds && kinds[o.shape].rank < k.rank
    && forall x | x in o.storage.Links() :: x in kinds && kinds[x].rank <= k.rank
  }

  /** The object is as its sort says. Only shapes have nil as their shape; integers and strings, which the closure
      walk takes to have no children, have constants. */
  ghost predicate WellFormed(kinds: Kinds, o: Obj, k: Sort) {
    && StorageFits(kinds, o.storage, k.form)
    && (o.storage.ShapeStorage? ==> o.shape == NIL)
    && (k.rank > 0 ==>
          && o.storage.Writable() && Ranked(kinds, o, k)
          && (!o.storage.ShapeStorage? ==> o.shape != NIL && kinds[o.shape].form == ShapeForm(KindOfForm(k.form)))
          && (o.storage.IntegerStorage? || o.storage.StringStorage? ==> kinds[o.shape].rank == 0))
  }

  /** The object has an address that its sort is recorded under. */
  ghost predicate Known(m: Memory, kinds: Kinds, sorts: Sorts, r: Ref) {
    r in m && r in kinds && SortAt(sorts, m[r].logical) == Some(kinds[r])
  }

  /** Written, a well-formed object is a well-typed value exactly if all it refers to has an address by then: what
      has none is written as the address zero, which leads nowhere. */
  lemma WrittenIsTyped(m: Memory, kinds: Kinds, sorts: Sorts, o: Obj, k: Sort)
    requires WellFormed(kinds, o, k) && k.rank > 0
    requires forall x | x == o.shape || x in o.storage.Links() :: Known(m, kinds, sorts, x) || LogicalOf(m, x) == UNASSIGNED
    requires LogicalOf(m, o.shape) == NIL_ADDR <==> o.shape == NIL
    requires UNASSIGNED !in sorts && forall a | a in sorts :: sorts[a].rank > 0
    ensures WellTyped(ValueOf(m, o), k, sorts) <==>
      Known(m, kinds, sorts, o.shape) && forall x | x in o.storage.Links() :: Known(m, kinds, sorts, x)
  {
    var v, links := ValueOf(m, o), o.storage.Links();
    assert References(v) == if o.storage.Links() == [] then [] else Addresses(m, links);
    if forall x | x in links :: Known(m, kinds, sorts, x) {
      forall i | 0 <= i < |References(v)|
        ensures var r := SortAt(sorts, References(v)[i]); r.Some? && r.value.rank <= k.rank
      {
        assert links[i] in links;
      }
      if o.storage.ShapeStorage? {
        assert links[1] in links;
      }
    } else {
      var i :| 0 <= i < |links| && !Known(m, kinds, sorts, links[i]);
      assert SortAt(sorts, References(v)[i]) == None;
    }
  }

  /** The storage of a value whose references were resolved. */
  function StorageFrom(v: Value, links: seq<Ref>): Storage
    requires |links| == |References(v)|
  {
    match v
    case ShapeValue(_, _, _, format) => ShapeStorage(links[0], links[1], links[2], format)
    case SlottedValue(_, _) => SlottedStorage(links)
    case FixedValue(_, _) => FixedStorage(links)
    case IntegerValue(_, number) => IntegerStorage(number)
    case StringValue(_, units) => StringStorage(units)
  }

  /** Reading is the inverse of writing: an object put together from a value has that value. */
  lemma ReadIsWritten(m: Memory, kinds: Kinds, sorts: Sorts, v: Value, k: Sort, o: Obj, links: seq<Ref>)
    requires WellTyped(v, k, sorts) && k.rank > 0 && |links| == |References(v)| && o.storage == StorageFrom(v, links)
    requires Known(m, kinds, sorts, o.shape) && m[o.shape].logical == ShapeWord(v)
    requires o.shape == NIL <==> ShapeWord(v) == NIL_ADDR
    requires forall i | 0 <= i < |links| :: Known(m, kinds, sorts, links[i]) && m[links[i]].logical == References(v)[i]
    ensures WellFormed(kinds, o, k) && ValueOf(m, o) == v
    ensures o.shape in m && forall x | x in o.storage.Links() :: x in m
  {
    assert o.storage.Links() == links;
    assert Addresses(m, links) == References(v);
  }
}

/** How objects lie in the words: obl/storage and the sizes of obl/storage/object.c. A value is an object with
    its references as logical addresses. */
module Codec {
  import opened Words

  type Int32 = i: int | -0x8000_0000 <= i < 0x8000_0000

  datatype Value =
    | ShapeValue(name: Word, slotNames: Word, current: Word, format: Word)
    | SlottedValue(shape: Word, slots: seq<Word>)
    | IntegerValue(shape: Word, number: Int32)
    | StringValue(shape: Word, units: seq<Unit>)
    | FixedValue(shape: Word, elements: seq<Word>)

  /** What the shape of an object says about its storage. */
  datatype Kind = ShapeKind | SlottedKind(slots: nat) | IntegerKind | StringKind | FixedKind

  function KindOf(v: Value): Kind {
    match v
    case ShapeValue(_, _, _, _) => ShapeKind
    case SlottedValue(_, slots) => SlottedKind(|slots|)
    case IntegerValue(_, _) => IntegerKind
    case StringValue(_, _) => StringKind
    case FixedValue(_, _) => FixedKind
  }

  /** The header word. The shape of a shape is nil. */
  function ShapeWord(v: Value): Word {
    if v.ShapeValue? then NIL_ADDR else v.shape
  }

  /** Two's complement. */
  function ToWord(i: Int32): Word {
    if i < 0 then i + 0x1_0000_0000 else i
  }

  function FromWord(w: Word): Int32 {
    if w < 0x8000_0000 then w else w - 0x1_0000_0000
  }

  // ----- Sizes

  /** The words reserved for an object. */
  function WordSize(v: Value): nat {
    match v
    case ShapeValue(_, _, _, _) => 5
    case SlottedValue(_, slots) => 1 + |slots|
    case IntegerValue(_, _) => 2
    case StringValue(_, units) => 1 + |units| * 2
    case FixedValue(_, elements) => 1 + |elements|
  }

  /** The words that writing an object touches. */
  function Footprint(v: Value): nat {
    match v
    case ShapeValue(_, _, _, _) => 5
    case SlottedValue(_, slots) => 1 + |slots|
    case IntegerValue(_, _) => 2
    case StringValue(_, units) => 2 + (|units| + 1) / 2
    case FixedValue(_, elements) => 2 + |elements|
  }

  /** An object can be reserved before it is written just when it is neither a collection nor the empty string. */
  predicate Reservable(v: Value) {
    !v.FixedValue? && !(v.StringValue? && v.units == [])
  }

  /** The reservation covers the writing exactly for those objects; the others run one word over. */
  lemma ReservationCoversIff(v: Value)
    ensures Footprint(v) <= WordSize(v) <==> Reservable(v)
    ensures !Reservable(v) ==> Footprint(v) == WordSize(v) + 1
  {
  }

  // ----- Two units to a word

  /** Unit `i` counted from word `b`: the high half of a word comes first. */
  function UnitAt(w: seq<Word>, b: nat, i: nat): Unit
    requires b + i / 2 < |w|
  {
    if i % 2 == 0 then w[b + i / 2] / 0x1_0000 else w[b + i / 2] % 0x1_0000
  }

  function WithUnit(x: Word, high: bool, u: Unit): Word {
    if high then u * 0x1_0000 + x % 0x1_0000 else x / 0x1_0000 * 0x1_0000 + u
  }

  function PutUnit(w: seq<Word>, b: nat, i: nat, u: Unit): (r: seq<Word>)
    requires b + i / 2 < |w|
    ensures |r| == |w|
  {
    w[b + i / 2 := WithUnit(w[b + i / 2], i % 2 == 0, u)]
  }

  lemma WithUnitHalves(x: Word, high: bool, u: Unit)
    ensures var y := WithUnit(x, high, u);
      y / 0x1_0000 == (if high then u else x / 0x1_0000) && y % 0x1_0000 == (if high then x % 0x1_0000 else u)
  {
  }

  /** Writing one unit changes that unit only. */
  lemma PutUnitAt(w: seq<Word>, b: nat, i: nat, u: Unit, j: nat)
    requires b + i / 2 < |w| && b + j / 2 < |w|
    ensures UnitAt(PutUnit(w, b, i, u), b, j) == if j == i then u else UnitAt(w, b, j)
  {
    WithUnitHalves(w[b + i / 2], i % 2 == 0, u);
    if i / 2 == j / 2 {
      assert j == i || j % 2 != i % 2;
    }
  }

  /** The first `n` units written in turn. */
  function PutUnits(w: seq<Word>, b: nat, units: seq<Unit>, n: nat): (r: seq<Word>)
    requires n <= |units| && b + (|units| + 1) / 2 <= |w|
    ensures |r| == |w|
  {
    if n == 0 then w else PutUnit(PutUnits(w, b, units, n - 1), b, n - 1, units[n - 1])
  }

  lemma {:induction false} PutUnitsAt(w: seq<Word>, b: nat, units: seq<Unit>, n: nat, j: nat)
    requires n <= |units| && b + (|units| + 1) / 2 <= |w| && b + j / 2 < |w|
    ensures UnitAt(PutUnits(w, b, units, n), b, j) == if j < n then units[j] else UnitAt(w, b, j)
  {
    if n > 0 {
      PutUnitsAt(w, b, units, n - 1, j);
      PutUnitAt(PutUnits(w, b, units, n - 1), b, n - 1, units[n - 1], j);
    }
  }

  lemma {:induction false} PutUnitsConfined(w: seq<Word>, b: nat, units: seq<Unit>, n: nat)
    requires n <= |units| && b + (|units| + 1) / 2 <= |w|
    ensures Confined(w, PutUnits(w, b, units, n), b, b + (|units| + 1) / 2)
  {
    if n > 0 {
      PutUnitsConfined(w, b, units, n - 1);
    }
  }

  // ----- Writing

  /** The words of a run, replaced. */
  function PutWords(w: seq<Word>, at: nat, words: seq<Word>): (r: seq<Word>)
    requires at + |words| <= |w|
    ensures |r| == |w|
  {
    seq(|w|, i requires 0 <= i < |w| => if at <= i < at + |words| then words[i - at] else w[i])
  }

  /** The values whose lengths a word can say. */
  predicate Encodable(v: Value) {
    (v.StringValue? ==> |v.units| < 0x1_0000_0000) && (v.FixedValue? ==> |v.elements| < 0x1_0000_0000)
  }

  function Write(w: seq<Word>, base: nat, v: Value): (r: seq<Word>)
    requires base + Footprint(v) <= |w| && Encodable(v)
    ensures |r| == |w|
  {
    match v
    case ShapeValue(name, slotNames, current, format) =>
      PutWords(w, base, [NIL_ADDR, name, slotNames, current, format])
    case SlottedValue(shape, slots) => PutWords(w, base, [shape] + slots)
    case IntegerValue(shape, number) => PutWords(w, base, [shape, ToWord(number)])
    case StringValue(shape, units) => PutUnits(PutWords(w, base, [shape, |units|]), base + 2, units, |units|)
    case FixedValue(shape, elements) => PutWords(w, base, [shape, |elements|] + elements)
  }

  // ----- What a reader finds

  /** Reading an object of this kind at `base` gives `v`. */
  ghost predicate Stored(w: seq<Word>, base: nat, v: Value) {
    base + Footprint(v) <= |w| && w[base] == ShapeWord(v) &&
    match v
    case ShapeValue(name, slotNames, current, format) =>
      w[base + 1] == name && w[base + 2] == slotNames && w[base + 3] == current && w[base + 4] == format
    case SlottedValue(_, slots) => forall i | 0 <= i < |slots| :: w[base + 1 + i] == slots[i]
    case IntegerValue(_, number) => FromWord(w[base + 1]) == number
    case StringValue(_, units) => w[base + 1] == |units| && forall i | 0 <= i < |units| :: UnitAt(w, base + 2, i) == units[i]
    case FixedValue(_, elements) => w[base + 1] == |elements| && forall i | 0 <= i < |elements| :: w[base + 2 + i] == elements[i]
  }

  lemma WriteString(w: seq<Word>, base: nat, v: Value)
    requires base + Footprint(v) <= |w| && Encodable(v) && v.StringValue?
    ensures Stored(Write(w, base, v), base, v)
    ensures Confined(w, Write(w, base, v), base, base + Footprint(v))
  {
    var w1 := PutWords(w, base, [v.shape, |v.units|]);
    var w' := PutUnits(w1, base + 2, v.units, |v.units|);
    PutUnitsConfined(w1, base + 2, v.units, |v.units|);
    assert w'[base] == w1[base] && w'[base + 1] == w1[base + 1];
    forall i | 0 <= i < |v.units| ensures UnitAt(w', base + 2, i) == v.units[i] {
      PutUnitsAt(w1, base + 2, v.units, |v.units|, i);
    }
  }

  lemma PutWordsAt(w: seq<Word>, at: nat, words: seq<Word>)
    requires at + |words| <= |w|
    ensures forall i | 0 <= i < |words| :: PutWords(w, at, words)[at + i] == words[i]
    ensures |words| > 0 ==> PutWords(w, at, words)[at] == words[0]
    ensures Confined(w, PutWords(w, at, words), at, at + |words|)
  {
  }

  /** The round trip: what was written is what is read, and nothing outside the object's words changed. */
  lemma WriteStores(w: seq<Word>, base: nat, v: Value)
    requires base + Footprint(v) <= |w| && Encodable(v)
    ensures Stored(Write(w, base, v), base, v)
    ensures Confined(w, Write(w, base, v), base, base + Footprint(v))
  {
    hide PutWords, PutUnits, Confined;
    match v
    case ShapeValue(name, slotNames, current, format) =>
      var words := [NIL_ADDR, name, slotNames, current, format];
      PutWordsAt(w, base, words);
      assert words[1] == name && words[2] == slotNames && words[3] == current && words[4] == format;
    case SlottedValue(shape, slots) =>
      PutWordsAt(w, base, [shape] + slots);
      assert forall i | 0 <= i < |slots| :: slots[i] == ([shape] + slots)[1 + i];
    case IntegerValue(shape, number) =>
      PutWordsAt(w, base, [shape, ToWord(number)]);
      assert [shape, ToWord(number)][1] == ToWord(number);
    case StringValue(_, _) => WriteString(w, base, v);
    case FixedValue(shape, elements) =>
      var words := [shape, |elements|] + elements;
      PutWordsAt(w, base, words);
      assert words[1] == |elements| && forall i | 0 <= i < |elements| :: elements[i] == words[2 + i];
  }

  /** A string of odd length leaves the half of its last word that it does not use as it was. */
  lemma OddStringKeepsLastHalf(w: seq<Word>, base: nat, v: Value)
    requires base + Footprint(v) <= |w| && Encodable(v) && v.StringValue? && |v.units| % 2 == 1
    ensures UnitAt(Write(w, base, v), base + 2, |v.units|) == UnitAt(w, base + 2, |v.units|)
  {
    PutUnitsAt(PutWords(w, base, [v.shape, |v.units|]), base + 2, v.units, |v.units|, |v.units|);
  }

  /** The words and the kind determine the value. */
  lemma StoredOnce(w: seq<Word>, base: nat, u: Value, v: Value)
    requires Stored(w, base, u) && Stored(w, base, v) && KindOf(u) == KindOf(v)
    ensures u == v
  {
    match u
    case ShapeValue(_, _, _, _) =>
    case SlottedValue(_, slots) =>
      assert forall i | 0 <= i < |slots| :: slots[i] == w[base + 1 + i] == v.slots[i];
    case IntegerValue(_, _) =>
    case StringValue(_, units) =>
      assert forall i | 0 <= i < |units| :: units[i] == UnitAt(w, base + 2, i) == v.units[i];
    case FixedValue(_, elements) =>
      assert forall i | 0 <= i < |elements| :: elements[i] == w[base + 2 + i] == v.elements[i];
  }

  /** A value stays readable while its words stay. */
  lemma StoredFrame(w: seq<Word>, w': seq<Word>, base: nat, v: Value)
    requires Stored(w, base, v) && |w'| == |w|
    requires forall x | base <= x < base + Footprint(v) :: w'[x] == w[x]
    ensures Stored(w', base, v)
  {
    match v
    case StringValue(_, units) =>
      forall i | 0 <= i < |units| ensures UnitAt(w', base + 2, i) == units[i] {
        assert UnitAt(w, base + 2, i) == units[i];
      }
    case _ =>
  }
}

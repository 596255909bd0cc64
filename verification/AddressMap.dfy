/** The logical-to-physical address map of obl/addressmap.c: a radix tree with 256-way pages that lie in the
    one array of words that also holds the objects. Here the array is a value; Database.dfy writes it in place. */
module AddressMap {
  import opened Words

  // ----- Digits

  /** The address without its `h` lowest base-256 digits. */
  function Shr(k: nat, h: nat): nat {
    if h == 0 then k else Shr(k, h - 1) / 256
  }

  /** The index an address takes in a page of height `h`. */
  function Digit(k: nat, h: nat): (d: nat)
    ensures d < 256
  {
    Shr(k, h) % 256
  }

  /** The loop that finds how high the tree must be for an address. */
  function RequiredHeight(k: nat): nat {
    if k / 256 == 0 then 0 else 1 + RequiredHeight(k / 256)
  }

  lemma {:induction false} ShrOfQuotient(k: nat, h: nat)
    ensures Shr(k, h + 1) == Shr(k / 256, h)
  {
    if h > 0 {
      ShrOfQuotient(k, h - 1);
    }
  }

  /** The required height is the least H with k < 256^(H+1). */
  lemma {:induction false} RequiredHeightIsLeast(k: nat, h: nat)
    ensures Shr(k, h + 1) == 0 <==> RequiredHeight(k) <= h
  {
    ShrOfQuotient(k, h);
    if h > 0 {
      if k / 256 > 0 {
        RequiredHeightIsLeast(k / 256, h - 1);
      } else {
        ShrOfZero(h);
      }
    }
  }

  lemma {:induction false} ShrOfZero(h: nat)
    ensures Shr(0, h) == 0
  {
    if h > 0 {
      ShrOfZero(h - 1);
    }
  }

  /** Two addresses in range of a height that take the same index at every level are equal. */
  lemma {:induction false} DigitsDetermineAddress(j: nat, k: nat, h: nat)
    requires Shr(j, h) == Shr(k, h)
    requires forall g :: 0 <= g < h ==> Digit(j, g) == Digit(k, g)
    ensures j == k
  {
    if h > 0 {
      assert Digit(j, h - 1) == Digit(k, h - 1);
      DigitsDetermineAddress(j, k, h - 1);
    }
  }

  // ----- Lookup

  /** A page starts with the shape word of pages; anything else is refused as corruption. */
  predicate IsPage(w: seq<Word>, b: int) {
    0 <= b && b + PAGE_SIZE <= |w| && w[b] == ADDRTREEPAGE_SHAPE_ADDR
  }

  /** Entry `i` of the page at `b`. */
  function Slot(w: seq<Word>, b: int, i: int): Word
    requires 0 <= b && b + PAGE_SIZE <= |w| && 0 <= i < 256
  {
    w[b + 2 + i]
  }

  /** The lookup below a page of height `h`. */
  function Walk(w: seq<Word>, b: int, h: nat, k: nat): Word
    decreases h
  {
    if !IsPage(w, b) then UNASSIGNED
    else
      var v := Slot(w, b, Digit(k, h));
      if h == 0 || v == UNASSIGNED then v else Walk(w, v, h - 1, k)
  }

  function Lookup(w: seq<Word>, root: int, k: nat): Word {
    if !IsPage(w, root) then UNASSIGNED
    else
      var height: int := w[root + 1];
      if Shr(k, height + 1) != 0 then UNASSIGNED else Walk(w, root, height, k)
  }

  // ----- Assignment

  /** A fresh page of the given height at `base`. */
  function CreatePage(w: seq<Word>, base: nat, height: Word): (r: seq<Word>)
    requires base + PAGE_SIZE <= |w|
    ensures |r| == |w|
  {
    seq(|w|, i requires 0 <= i < |w| =>
      if i == base then ADDRTREEPAGE_SHAPE_ADDR
      else if i == base + 1 then height
      else if base + 2 <= i < base + PAGE_SIZE then UNASSIGNED
      else w[i])
  }

  /** A fresh page whose address is written into slot `slot` of the array. */
  function LinkedPage(w: seq<Word>, base: Word, height: Word, slot: nat): (r: seq<Word>)
    requires base + PAGE_SIZE <= |w| && slot < |w|
    ensures |r| == |w|
  {
    CreatePage(w, base, height)[slot := base]
  }

  /** Assignment below a page of height `h`; the number is the allocator's next free word. */
  function AssignIn(w: seq<Word>, next: nat, b: int, h: nat, k: nat, v: Word): (r: (seq<Word>, nat))
    requires next + PAGE_SIZE * h <= |w| <= 0x1_0000_0000 && h <= 3
    ensures |r.0| == |w|
    decreases h
  {
    if !IsPage(w, b) then (w, next)
    else
      var slot := b + 2 + Digit(k, h);
      if h == 0 then (w[slot := v], next)
      else if w[slot] == UNASSIGNED then
        AssignIn(LinkedPage(w, next, h - 1, slot), next + PAGE_SIZE, next, h - 1, k, v)
      else AssignIn(w, next, w[slot], h - 1, k, v)
  }

  /** The words, the root page and the next free word. */
  datatype MapState = MapState(w: seq<Word>, root: Word, next: nat)

  /** A page of height `height` on top, with the old root behind its slot 0. */
  function Stack(st: MapState, height: Word): (r: MapState)
    requires st.next + PAGE_SIZE <= |st.w| <= 0x1_0000_0000
    ensures |r.w| == |st.w| && r.next == st.next + PAGE_SIZE
  {
    MapState(CreatePage(st.w, st.next, height)[st.next + 2 := st.root], st.next, st.next + PAGE_SIZE)
  }

  function Grow(st: MapState, height: Word, required: nat): (r: MapState)
    requires height <= required <= 3
    requires st.next + PAGE_SIZE * (required - height) <= |st.w| <= 0x1_0000_0000
    ensures |r.w| == |st.w| && r.next == st.next + PAGE_SIZE * (required - height)
    decreases required - height
  {
    if height == required then st else Grow(Stack(st, height + 1), height + 1, required)
  }

  /** Four pages are the most that one assignment can create. */
  const ASSIGN_WORDS := 1032

  /** The addresses a tree of at most three levels covers; a fourth level is beyond what the code can shift. */
  const ADDRESS_LIMIT: int := 0x100_0000

  function Max(a: nat, b: nat): nat {
    if a < b then b else a
  }

  predicate Assignable(st: MapState, k: nat) {
    && k < ADDRESS_LIMIT && st.next + ASSIGN_WORDS <= |st.w| <= 0x1_0000_0000
    && IsPage(st.w, st.root) && st.w[st.root + 1] <= 2
  }

  lemma RequiredHeightInRange(k: nat)
    requires k < ADDRESS_LIMIT
    ensures RequiredHeight(k) <= 2
  {
    RequiredHeightIsLeast(k, 2);
    assert Shr(k, 1) == k / 256 && Shr(k, 2) == Shr(k, 1) / 256 && Shr(k, 3) == Shr(k, 2) / 256;
  }

  function Assign(st: MapState, k: nat, v: Word): (r: MapState)
    requires Assignable(st, k)
    ensures |r.w| == |st.w|
  {
    RequiredHeightInRange(k);
    var height, required := st.w[st.root + 1], RequiredHeight(k);
    var grown := if height < required then Grow(st, height, required) else st;
    var (w, next) := AssignIn(grown.w, grown.next, grown.root, Max(height, required), k, v);
    MapState(w, grown.root, next)
  }
}

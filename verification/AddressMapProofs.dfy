/** What assignment does to lookup, and the page structure every assignment keeps. */
module AddressMapProofs {
  import opened Words
  import opened AddressMap

  /** A page of height h covers the addresses whose digits above its own are `prefix`. */
  datatype Page = Page(height: nat, prefix: nat) {
    /** The page behind slot `i`. */
    function Child(i: nat): Page
      requires height > 0
    {
      Page(height - 1, prefix * 256 + i)
    }

    function Parent(): Page {
      Page(height + 1, prefix / 256)
    }
  }

  /** The page that covers `k` at a height. */
  function Over(k: nat, h: nat): Page {
    Page(h, Shr(k, h + 1))
  }

  /** Where each page of the map lies. */
  type Pages = map<Page, int>

  /** The word is no part of a page. */
  ghost predicate Outside(pages: Pages, x: int) {
    forall p | p in pages :: x < pages[p] || pages[p] + PAGE_SIZE <= x
  }

  ghost predicate AllPages(w: seq<Word>, pages: Pages) {
    forall p | p in pages :: IsPage(w, pages[p])
  }

  ghost predicate Apart(b: int, c: int) {
    b + PAGE_SIZE <= c || c + PAGE_SIZE <= b
  }

  /** Pages lie apart, in used space, each with its height in its second word. */
  ghost predicate Located(w: seq<Word>, pages: Pages, next: nat) {
    && next <= |w| && AllPages(w, pages)
    && (forall p | p in pages :: 0 < pages[p] && pages[p] + PAGE_SIZE <= next && w[pages[p] + 1] == p.height)
    && (forall p, q {:trigger Apart(pages[p], pages[q])} | p in pages && q in pages && p != q ::
          Apart(pages[p], pages[q]))
  }

  /** A slot of a branch holds the base of the one page that covers its addresses, or nothing when there is
      none: links fall by one level each, and no page is linked twice. */
  ghost predicate Linked(w: seq<Word>, pages: Pages)
    requires AllPages(w, pages)
  {
    forall p, i | p in pages && p.height > 0 && 0 <= i < 256 ::
      Slot(w, pages[p], i) == if p.Child(i) in pages then pages[p.Child(i)] else UNASSIGNED
  }

  /** Every page but the root hangs below another. */
  ghost predicate Rooted(pages: Pages, root: int, height: nat) {
    && height <= 2 && Page(height, 0) in pages && pages[Page(height, 0)] == root
    && (forall p | p in pages :: p == Page(height, 0) || p.height < height)
    && (forall p {:trigger p.Parent()} | p in pages && p.height < height :: p.Parent() in pages)
  }

  /** The structure of the map. */
  ghost predicate MapInv(st: MapState, pages: Pages, height: nat) {
    Located(st.w, pages, st.next) && Linked(st.w, pages) && Rooted(pages, st.root, height)
  }

  // ----- Frames

  /** Every changed slot of a page is one that the address `k` takes, no higher than `top`. */
  ghost predicate OnPath(w: seq<Word>, w': seq<Word>, pages: Pages, k: nat, top: nat)
    requires |w'| == |w| && AllPages(w, pages)
  {
    && (forall p | p in pages :: w'[pages[p]] == w[pages[p]] && w'[pages[p] + 1] == w[pages[p] + 1])
    && (forall p, i | p in pages && 0 <= i < 256 && Slot(w', pages[p], i) != Slot(w, pages[p], i) ::
          p.height <= top && Shr(k, p.height) == p.prefix * 256 + i)
  }

  /** Outside of pages, only words in [from, to) change. */
  ghost predicate Spares(w: seq<Word>, w': seq<Word>, pages: Pages, from: int, to: int)
    requires |w'| == |w|
  {
    forall x {:trigger Outside(pages, x)} | 0 <= x < |w| && Outside(pages, x) && !(from <= x < to) :: w'[x] == w[x]
  }

  lemma ShrDigit(k: nat, h: nat)
    ensures Shr(k, h) == Shr(k, h + 1) * 256 + Digit(k, h)
    ensures h > 0 ==> Over(k, h).Child(Digit(k, h)) == Over(k, h - 1)
  {
  }

  /** An address that leaves the changed path sees no change. */
  lemma {:induction false} WalkFrame(w: seq<Word>, w': seq<Word>, pages: Pages, top: nat, h: nat, j: nat, k: nat)
    requires AllPages(w, pages) && Linked(w, pages) && |w'| == |w| && OnPath(w, w', pages, k, top)
    requires Over(j, h) in pages && Shr(j, h) != Shr(k, h)
    ensures Walk(w', pages[Over(j, h)], h, j) == Walk(w, pages[Over(j, h)], h, j)
    decreases h
  {
    ShrDigit(j, h);
    var b, i := pages[Over(j, h)], Digit(j, h);
    assert Slot(w', b, i) == Slot(w, b, i);
    if h > 0 && Slot(w, b, i) != UNASSIGNED {
      WalkFrame(w, w', pages, top, h - 1, j, k);
    }
  }

  // ----- A new page

  /** Everything a fresh page does to the words: `slot` now holds its base, and nothing else in use changed. */
  ghost predicate Extended(w: seq<Word>, w': seq<Word>, base: nat, height: nat, slot: nat) {
    && |w'| == |w| && slot < base && base + PAGE_SIZE <= |w|
    && w'[slot] == base && w'[base] == ADDRTREEPAGE_SHAPE_ADDR && w'[base + 1] == height
    && (forall j | 0 <= j < 256 :: Slot(w', base, j) == UNASSIGNED)
    && (forall x | 0 <= x < |w| && x != slot && !(base <= x < base + PAGE_SIZE) :: w'[x] == w[x])
  }

  lemma LinkedPageExtends(w: seq<Word>, base: Word, height: Word, slot: nat)
    requires slot < base && base + PAGE_SIZE <= |w|
    ensures Extended(w, LinkedPage(w, base, height, slot), base, height, slot)
  {
  }

  /** The slots of the other entries, and all headers, are as before. */
  lemma ExtendedSlots(w: seq<Word>, w': seq<Word>, pages: Pages, base: nat, height: nat, p: Page, i: nat)
    requires Located(w, pages, base) && p in pages && i < 256
    requires Extended(w, w', base, height, pages[p] + 2 + i)
    ensures AllPages(w', pages) && Slot(w', pages[p], i) == base
    ensures forall q | q in pages :: w'[pages[q]] == w[pages[q]] && w'[pages[q] + 1] == w[pages[q] + 1]
    ensures forall q, j | q in pages && 0 <= j < 256 && (q != p || j != i) :: Slot(w', pages[q], j) == Slot(w, pages[q], j)
    ensures Spares(w, w', pages, base, base + PAGE_SIZE)
  {
    var slot := pages[p] + 2 + i;
    forall q | q in pages ensures w'[pages[q]] == w[pages[q]] && w'[pages[q] + 1] == w[pages[q] + 1] {
      assert q == p || Apart(pages[q], pages[p]);
    }
    forall q, j | q in pages && 0 <= j < 256 && (q != p || j != i)
      ensures Slot(w', pages[q], j) == Slot(w, pages[q], j)
    {
      assert q == p || Apart(pages[q], pages[p]);
    }
    forall x | 0 <= x < |w| && Outside(pages, x) && !(base <= x < base + PAGE_SIZE) ensures w'[x] == w[x] {
      assert x != slot;
    }
  }

  lemma ChildInjective(p: Page, i: nat, q: Page, j: nat)
    requires p.height > 0 && q.height > 0 && i < 256 && j < 256
    ensures p.Child(i) == q.Child(j) <==> p == q && i == j
    ensures p.Child(i).Parent() == p
  {
  }

  lemma ExtendedLinks(w: seq<Word>, w': seq<Word>, pages: Pages, base: nat, p: Page, i: nat)
    requires Located(w, pages, base) && Linked(w, pages) && p in pages && i < 256 && p.height > 0
    requires p.Child(i) !in pages
    requires Extended(w, w', base, p.height - 1, pages[p] + 2 + i)
    requires forall q | q in pages && q.height < p.height :: q.Parent() in pages
    ensures var pages' := pages[p.Child(i) := base];
      AllPages(w', pages') && Linked(w', pages')
  {
    var pages' := pages[p.Child(i) := base];
    ExtendedSlots(w, w', pages, base, p.height - 1, p, i);
    forall q, j | q in pages' && q.height > 0 && 0 <= j < 256
      ensures Slot(w', pages'[q], j) == if q.Child(j) in pages' then pages'[q.Child(j)] else UNASSIGNED
    {
      ChildInjective(p, i, q, j);
      if q == p.Child(i) {
        assert q.Child(j).Parent() == q;
      } else if q == p && j == i {
      } else {
        assert Slot(w', pages[q], j) == Slot(w, pages[q], j);
      }
    }
  }

  lemma ExtendedLocated(w: seq<Word>, w': seq<Word>, pages: Pages, base: nat, p: Page, i: nat)
    requires Located(w, pages, base) && p in pages && i < 256 && p.height > 0 && p.Child(i) !in pages && 0 < base
    requires Extended(w, w', base, p.height - 1, pages[p] + 2 + i)
    ensures Located(w', pages[p.Child(i) := base], base + PAGE_SIZE)
  {
    ExtendedSlots(w, w', pages, base, p.height - 1, p, i);
  }

  /** A fresh page, linked from the slot that is to lead to it, keeps the structure. */
  lemma LinkedPageKeeps(st: MapState, pages: Pages, height: nat, p: Page, i: nat, w: seq<Word>)
    requires MapInv(st, pages, height) && 0 < st.next
    requires p in pages && p.height > 0 && i < 256 && p.Child(i) !in pages
    requires Extended(st.w, w, st.next, p.height - 1, pages[p] + 2 + i)
    ensures MapInv(MapState(w, st.root, st.next + PAGE_SIZE), pages[p.Child(i) := st.next], height)
  {
    ExtendedLocated(st.w, w, pages, st.next, p, i);
    ExtendedLinks(st.w, w, pages, st.next, p, i);
    ChildInjective(p, i, p, i);
  }

  // ----- Assignment below a page

  /** The pages stay where they are, and new ones lie in [from, to). */
  ghost predicate Grows(pages: Pages, pages': Pages, from: int, to: int) {
    && (forall p | p in pages :: p in pages' && pages'[p] == pages[p])
    && (forall p | p in pages' && p !in pages :: from <= pages'[p] && pages'[p] + PAGE_SIZE <= to)
  }

  /** What an assignment below the page over `k` at height `h` leaves. */
  ghost predicate AssignedIn(st: MapState, pages: Pages, height: nat, h: nat, k: nat, v: Word,
                             w': seq<Word>, next': nat, pages': Pages) {
    && MapInv(st, pages, height) && Over(k, h) in pages && |w'| == |st.w|
    && MapInv(MapState(w', st.root, next'), pages', height)
    && st.next <= next' && Grows(pages, pages', st.next, next')
    && OnPath(st.w, w', pages, k, h) && Spares(st.w, w', pages, st.next, next')
    && Redirected(st.w, w', pages[Over(k, h)], h, k, v)
  }

  /** Below the page at `b`, `k` leads to `v` and every other address leads where it did. */
  ghost predicate Redirected(w: seq<Word>, w': seq<Word>, b: int, h: nat, k: nat, v: Word) {
    && Walk(w', b, h, k) == v
    && forall j: nat | j != k && Over(j, h) == Over(k, h) :: Walk(w', b, h, j) == Walk(w, b, h, j)
  }

  /** Entering the child `c` of the branch at `b` changes no walk of the addresses below it. */
  ghost predicate Entered(w: seq<Word>, b: int, w1: seq<Word>, c: int, h: nat, k: nat)
    requires h > 0
  {
    forall j: nat | Over(j, h - 1) == Over(k, h - 1) :: Walk(w1, c, h - 1, j) == Walk(w, b, h, j)
  }

  lemma LeafWritten(st: MapState, pages: Pages, height: nat, k: nat, v: Word)
    requires MapInv(st, pages, height) && Over(k, 0) in pages
    ensures AssignedIn(st, pages, height, 0, k, v, st.w[pages[Over(k, 0)] + 2 + Digit(k, 0) := v], st.next, pages)
  {
    var b, i := pages[Over(k, 0)], Digit(k, 0);
    var w' := st.w[b + 2 + i := v];
    ShrDigit(k, 0);
    forall p | p in pages ensures w'[pages[p]] == st.w[pages[p]] && w'[pages[p] + 1] == st.w[pages[p] + 1] {
      assert p == Over(k, 0) || Apart(pages[p], b);
    }
    assert AllPages(w', pages);
    forall p, j | p in pages && 0 <= j < 256 && (p != Over(k, 0) || j != i)
      ensures Slot(w', pages[p], j) == Slot(st.w, pages[p], j)
    {
      assert p == Over(k, 0) || Apart(pages[p], b);
    }
    assert OnPath(st.w, w', pages, k, 0);
    assert Slot(w', b, i) == v;
    forall j: nat | j != k && Over(j, 0) == Over(k, 0) ensures Walk(w', b, 0, j) == Walk(st.w, b, 0, j) {
      WalkFrame(st.w, w', pages, 0, 0, j, k);
    }
  }

  lemma OnPathCompose(w: seq<Word>, w1: seq<Word>, w': seq<Word>, pages: Pages, pages1: Pages, k: nat, h: nat)
    requires |w1| == |w| == |w'| && AllPages(w, pages) && AllPages(w1, pages1) && h > 0
    requires forall p | p in pages :: p in pages1 && pages1[p] == pages[p]
    requires OnPath(w, w1, pages, k, h) && OnPath(w1, w', pages1, k, h - 1)
    ensures OnPath(w, w', pages, k, h)
  {
    forall p, i | p in pages && 0 <= i < 256 && Slot(w', pages[p], i) != Slot(w, pages[p], i)
      ensures p.height <= h && Shr(k, p.height) == p.prefix * 256 + i
    {
      assert p in pages1 && pages1[p] == pages[p];
      assert Slot(w1, pages[p], i) != Slot(w, pages[p], i) || Slot(w', pages1[p], i) != Slot(w1, pages1[p], i);
    }
  }

  lemma SparesCompose(w: seq<Word>, w1: seq<Word>, w': seq<Word>, pages: Pages, pages1: Pages, a: nat, b: nat, c: nat)
    requires |w1| == |w| == |w'| && a <= b <= c && Grows(pages, pages1, a, b)
    requires Spares(w, w1, pages, a, b) && Spares(w1, w', pages1, b, c)
    ensures Spares(w, w', pages, a, c)
  {
    forall x | 0 <= x < |w| && Outside(pages, x) && !(a <= x < c) ensures w'[x] == w[x] {
      forall p | p in pages1 ensures x < pages1[p] || pages1[p] + PAGE_SIZE <= x {
        assert p in pages ==> pages1[p] == pages[p];
      }
      assert Outside(pages1, x);
    }
  }

  /** The two walks of an address through the branch over `k`. */
  lemma WalkBranch(w: seq<Word>, pages: Pages, h: nat, j: nat, k: nat)
    requires AllPages(w, pages) && Linked(w, pages) && h > 0 && Over(k, h) in pages && Over(j, h - 1) == Over(k, h - 1)
    requires forall p | p in pages :: pages[p] > 0
    ensures Over(j, h) == Over(k, h)
    ensures Walk(w, pages[Over(k, h)], h, j) ==
      if Over(k, h - 1) in pages then Walk(w, pages[Over(k, h - 1)], h - 1, j) else UNASSIGNED
  {
    ShrDigit(j, h);
    ShrDigit(k, h);
    assert Slot(w, pages[Over(k, h)], Digit(j, h)) ==
      if Over(k, h - 1) in pages then pages[Over(k, h - 1)] else UNASSIGNED;
  }

  /** What the child's walks say about the branch's. */
  lemma AscendWalks(w: seq<Word>, w1: seq<Word>, w': seq<Word>, pages: Pages, pages1: Pages, pages': Pages, h: nat,
                    k: nat, v: Word)
    requires AllPages(w, pages) && Linked(w, pages) && |w'| == |w| && h > 0
    requires AllPages(w', pages') && Linked(w', pages') && forall p | p in pages' :: pages'[p] > 0
    requires Over(k, h) in pages && forall p | p in pages :: p in pages' && pages'[p] == pages[p]
    requires Over(k, h - 1) in pages1 && Over(k, h - 1) in pages' && pages'[Over(k, h - 1)] == pages1[Over(k, h - 1)]
    requires OnPath(w, w', pages, k, h)
    requires Redirected(w1, w', pages1[Over(k, h - 1)], h - 1, k, v)
    requires Entered(w, pages[Over(k, h)], w1, pages1[Over(k, h - 1)], h, k)
    ensures Redirected(w, w', pages[Over(k, h)], h, k, v)
  {
    WalkBranch(w', pages', h, k, k);
    forall j: nat | j != k && Over(j, h) == Over(k, h)
      ensures Walk(w', pages[Over(k, h)], h, j) == Walk(w, pages[Over(k, h)], h, j)
    {
      if Shr(j, h) == Shr(k, h) {
        assert Over(j, h - 1) == Over(k, h - 1);
        WalkBranch(w', pages', h, j, k);
      } else {
        WalkFrame(w, w', pages, h, h, j, k);
      }
    }
  }

  lemma GrowsCompose(pages: Pages, pages1: Pages, pages': Pages, a: nat, b: nat, c: nat)
    requires a <= b <= c && Grows(pages, pages1, a, b) && Grows(pages1, pages', b, c)
    ensures Grows(pages, pages', a, c)
  {
  }

  /** From the assignment below the child to the assignment below the branch. */
  lemma Ascend(st: MapState, pages: Pages, height: nat, h: nat, k: nat, v: Word,
               st1: MapState, pages1: Pages, w': seq<Word>, next': nat, pages': Pages)
    requires MapInv(st, pages, height) && h > 0 && Over(k, h) in pages && st1.root == st.root
    requires |st1.w| == |st.w| && st.next <= st1.next && Grows(pages, pages1, st.next, st1.next)
    requires OnPath(st.w, st1.w, pages, k, h) && Spares(st.w, st1.w, pages, st.next, st1.next)
    requires AssignedIn(st1, pages1, height, h - 1, k, v, w', next', pages')
    requires Entered(st.w, pages[Over(k, h)], st1.w, pages1[Over(k, h - 1)], h, k)
    ensures AssignedIn(st, pages, height, h, k, v, w', next', pages')
  {
    GrowsCompose(pages, pages1, pages', st.next, st1.next, next');
    OnPathCompose(st.w, st1.w, w', pages, pages1, k, h);
    SparesCompose(st.w, st1.w, w', pages, pages1, st.next, st1.next, next');
    AscendWalks(st.w, st1.w, w', pages, pages1, pages', h, k, v);
  }

  /** A page without entries maps nothing. */
  lemma WalkEmpty(w: seq<Word>, b: int, h: nat, j: nat)
    requires IsPage(w, b) && forall i | 0 <= i < 256 :: Slot(w, b, i) == UNASSIGNED
    ensures Walk(w, b, h, j) == UNASSIGNED
  {
  }

  /** The step of an assignment that creates the missing child of a branch. */
  lemma ChildCreated(st: MapState, pages: Pages, height: nat, h: nat, k: nat) returns (st1: MapState, pages1: Pages)
    requires MapInv(st, pages, height) && 0 < h <= 3 && Over(k, h) in pages && Over(k, h - 1) !in pages
    requires 0 < st.next && st.next + PAGE_SIZE <= |st.w| <= 0x1_0000_0000
    ensures st1 == MapState(LinkedPage(st.w, st.next, h - 1, pages[Over(k, h)] + 2 + Digit(k, h)), st.root, st.next + PAGE_SIZE)
    ensures pages1 == pages[Over(k, h - 1) := st.next]
    ensures MapInv(st1, pages1, height) && Grows(pages, pages1, st.next, st1.next)
    ensures OnPath(st.w, st1.w, pages, k, h) && Spares(st.w, st1.w, pages, st.next, st1.next)
    ensures Entered(st.w, pages[Over(k, h)], st1.w, pages1[Over(k, h - 1)], h, k)
  {
    ShrDigit(k, h);
    var p, i := Over(k, h), Digit(k, h);
    st1 := MapState(LinkedPage(st.w, st.next, h - 1, pages[p] + 2 + i), st.root, st.next + PAGE_SIZE);
    pages1 := pages[p.Child(i) := st.next];
    LinkedPageExtends(st.w, st.next, h - 1, pages[p] + 2 + i);
    LinkedPageKeeps(st, pages, height, p, i, st1.w);
    ExtendedSlots(st.w, st1.w, pages, st.next, h - 1, p, i);
    forall j: nat | Over(j, h - 1) == Over(k, h - 1)
      ensures Walk(st1.w, pages1[Over(k, h - 1)], h - 1, j) == Walk(st.w, pages[Over(k, h)], h, j)
    {
      WalkEmpty(st1.w, st.next, h - 1, j);
      WalkBranch(st.w, pages, h, j, k);
    }
  }

  /** One level of the recursion. */
  lemma AssignInLevel(st: MapState, pages: Pages, height: nat, h: nat, k: nat, v: Word)
    requires MapInv(st, pages, height) && Over(k, h) in pages && 0 < h <= 2
    requires 0 < st.next && st.next + PAGE_SIZE * h <= |st.w| <= 0x1_0000_0000
    ensures AssignIn(st.w, st.next, pages[Over(k, h)], h, k, v) ==
      if Over(k, h - 1) in pages then AssignIn(st.w, st.next, pages[Over(k, h - 1)], h - 1, k, v)
      else AssignIn(LinkedPage(st.w, st.next, h - 1, pages[Over(k, h)] + 2 + Digit(k, h)), st.next + PAGE_SIZE, st.next, h - 1, k, v)
  {
    ShrDigit(k, h);
    assert Slot(st.w, pages[Over(k, h)], Digit(k, h)) ==
      if Over(k, h - 1) in pages then pages[Over(k, h - 1)] else UNASSIGNED;
  }

  /** What a page of the map holds, as far as the way of one address goes. */
  lemma PageHeld(st: MapState, pages: Pages, top: nat, h: nat, k: nat)
    requires MapInv(st, pages, top) && Over(k, h) in pages
    ensures var b := pages[Over(k, h)];
      && IsPage(st.w, b) && st.w[b + 1] == h && 0 < b && b + PAGE_SIZE <= st.next <= |st.w|
      && (h > 0 ==> st.w[b + 2 + Digit(k, h)] == if Over(k, h - 1) in pages then pages[Over(k, h - 1)] else UNASSIGNED)
      && (h > 0 && Over(k, h - 1) in pages ==> pages[Over(k, h - 1)] > 0)
  {
    ShrDigit(k, h);
    if h > 0 {
      var child := Over(k, h).Child(Digit(k, h));
      assert Slot(st.w, pages[Over(k, h)], Digit(k, h)) == if child in pages then pages[child] else UNASSIGNED;
    }
  }

  lemma AssignInLeaf(st: MapState, pages: Pages, top: nat, k: nat, v: Word)
    requires MapInv(st, pages, top) && Over(k, 0) in pages && st.next <= |st.w| <= 0x1_0000_0000
    ensures pages[Over(k, 0)] + 2 + Digit(k, 0) < |st.w| && pages[Over(k, 0)] >= 0
    ensures AssignIn(st.w, st.next, pages[Over(k, 0)], 0, k, v) ==
      (st.w[pages[Over(k, 0)] + 2 + Digit(k, 0) := v], st.next)
  {
  }

  lemma ChildPresent(st: MapState, pages: Pages, height: nat, h: nat, k: nat)
    requires MapInv(st, pages, height) && 0 < h && Over(k, h) in pages && Over(k, h - 1) in pages
    ensures Grows(pages, pages, st.next, st.next)
    ensures OnPath(st.w, st.w, pages, k, h) && Spares(st.w, st.w, pages, st.next, st.next)
    ensures Entered(st.w, pages[Over(k, h)], st.w, pages[Over(k, h - 1)], h, k)
  {
    forall j: nat | Over(j, h - 1) == Over(k, h - 1)
      ensures Walk(st.w, pages[Over(k, h - 1)], h - 1, j) == Walk(st.w, pages[Over(k, h)], h, j)
    {
      WalkBranch(st.w, pages, h, j, k);
    }
  }

  /** The recursive call of assignment, seen from the branch. */
  lemma AssignBelow(st: MapState, pages: Pages, height: nat, h: nat, k: nat, v: Word,
                    st1: MapState, pages1: Pages, pages': Pages)
    requires MapInv(st, pages, height) && 0 < h <= 2 && Over(k, h) in pages && st1.root == st.root
    requires |st1.w| == |st.w| && st.next <= st1.next && Grows(pages, pages1, st.next, st1.next)
    requires OnPath(st.w, st1.w, pages, k, h) && Spares(st.w, st1.w, pages, st.next, st1.next)
    requires Over(k, h - 1) in pages1 && Entered(st.w, pages[Over(k, h)], st1.w, pages1[Over(k, h - 1)], h, k)
    requires st1.next + PAGE_SIZE * (h - 1) <= |st1.w| <= 0x1_0000_0000
    requires var (w', next') := AssignIn(st1.w, st1.next, pages1[Over(k, h - 1)], h - 1, k, v);
      AssignedIn(st1, pages1, height, h - 1, k, v, w', next', pages')
    ensures var (w', next') := AssignIn(st1.w, st1.next, pages1[Over(k, h - 1)], h - 1, k, v);
      AssignedIn(st, pages, height, h, k, v, w', next', pages')
  {
    var r := AssignIn(st1.w, st1.next, pages1[Over(k, h - 1)], h - 1, k, v);
    Ascend(st, pages, height, h, k, v, st1, pages1, r.0, r.1, pages');
  }

  /** The state in which assignment goes on below a branch, the child created if it was missing. */
  lemma ChildReady(st: MapState, pages: Pages, height: nat, h: nat, k: nat, v: Word) returns (st1: MapState,
                   pages1: Pages)
    requires MapInv(st, pages, height) && Over(k, h) in pages && 0 < h <= 2
    requires 0 < st.next && st.next + PAGE_SIZE * h <= |st.w| <= 0x1_0000_0000
    ensures MapInv(st1, pages1, height) && Over(k, h - 1) in pages1 && st1.root == st.root
    ensures |st1.w| == |st.w| && st.next <= st1.next <= st.next + PAGE_SIZE && Grows(pages, pages1, st.next, st1.next)
    ensures OnPath(st.w, st1.w, pages, k, h) && Spares(st.w, st1.w, pages, st.next, st1.next)
    ensures Entered(st.w, pages[Over(k, h)], st1.w, pages1[Over(k, h - 1)], h, k)
    ensures AssignIn(st.w, st.next, pages[Over(k, h)], h, k, v) ==
      AssignIn(st1.w, st1.next, pages1[Over(k, h - 1)], h - 1, k, v)
  {
    hide AssignIn, Linked, Located, Rooted, Walk, LinkedPage, Outside;
    AssignInLevel(st, pages, height, h, k, v);
    if Over(k, h - 1) in pages {
      ChildPresent(st, pages, height, h, k);
      st1, pages1 := st, pages;
    } else {
      st1, pages1 := ChildCreated(st, pages, height, h, k);
    }
  }

  lemma {:induction false} AssignInCorrect(st: MapState, pages: Pages, height: nat, h: nat, k: nat, v: Word)
    returns (pages': Pages)
    requires MapInv(st, pages, height) && Over(k, h) in pages && h <= 2
    requires 0 < st.next && st.next + PAGE_SIZE * h <= |st.w| <= 0x1_0000_0000
    ensures var (w', next') := AssignIn(st.w, st.next, pages[Over(k, h)], h, k, v);
      AssignedIn(st, pages, height, h, k, v, w', next', pages') && next' <= st.next + PAGE_SIZE * h
    decreases h
  {
    hide MapInv, AssignedIn, AssignIn, Entered, OnPath, Spares, Grows, Walk;
    if h == 0 {
      AssignInLeaf(st, pages, height, k, v);
      LeafWritten(st, pages, height, k, v);
      pages' := pages;
    } else {
      var st1, pages1 := ChildReady(st, pages, height, h, k, v);
      pages' := AssignInCorrect(st1, pages1, height, h - 1, k, v);
      AssignBelow(st, pages, height, h, k, v, st1, pages1, pages');
    }
  }

  // ----- Growing the root

  lemma {:induction false} WalkConfined(w: seq<Word>, w': seq<Word>, pages: Pages, next: nat, to: int, h: nat, j: nat)
    requires Located(w, pages, next) && Linked(w, pages) && Confined(w, w', next, to) && Over(j, h) in pages
    ensures Walk(w', pages[Over(j, h)], h, j) == Walk(w, pages[Over(j, h)], h, j)
    decreases h
  {
    ShrDigit(j, h);
    var b, i := pages[Over(j, h)], Digit(j, h);
    assert Slot(w', b, i) == Slot(w, b, i);
    if h > 0 && Slot(w, b, i) != UNASSIGNED {
      WalkConfined(w, w', pages, next, to, h - 1, j);
    }
  }

  lemma RootHeld(st: MapState, pages: Pages, height: nat)
    requires MapInv(st, pages, height)
    ensures 0 < st.root && IsPage(st.w, st.root) && st.w[st.root + 1] == height && height <= 2 && st.root + PAGE_SIZE <= st.next
  {
  }

  lemma LookupIsWalk(st: MapState, pages: Pages, height: nat, j: nat)
    requires MapInv(st, pages, height)
    ensures Lookup(st.w, st.root, j) == if Shr(j, height + 1) != 0 then UNASSIGNED else Walk(st.w, st.root, height, j)
    ensures Shr(j, height + 1) == 0 ==> Over(j, height) in pages && pages[Over(j, height)] == st.root
  {
  }

  lemma StackLinks(st: MapState, pages: Pages, height: nat, w: seq<Word>)
    requires MapInv(st, pages, height) && 0 < st.next && st.next + PAGE_SIZE <= |w| <= 0x1_0000_0000
    requires Confined(st.w, w, st.next, st.next + PAGE_SIZE) && IsPage(w, st.next)
    requires forall i | 0 <= i < 256 :: Slot(w, st.next, i) == if i == 0 then st.root else UNASSIGNED
    ensures var pages' := pages[Page(height + 1, 0) := st.next]; AllPages(w, pages') && Linked(w, pages')
  {
    var pages' := pages[Page(height + 1, 0) := st.next];
    forall p, i | p in pages' && p.height > 0 && 0 <= i < 256
      ensures Slot(w, pages'[p], i) == if p.Child(i) in pages' then pages'[p.Child(i)] else UNASSIGNED
    {
      if p != Page(height + 1, 0) {
        assert Slot(w, pages[p], i) == Slot(st.w, pages[p], i);
      }
    }
  }

  lemma StackLocated(st: MapState, pages: Pages, height: nat, w: seq<Word>)
    requires MapInv(st, pages, height) && 0 < st.next && st.next + PAGE_SIZE <= |w|
    requires Confined(st.w, w, st.next, st.next + PAGE_SIZE) && IsPage(w, st.next) && w[st.next + 1] == height + 1
    ensures Located(w, pages[Page(height + 1, 0) := st.next], st.next + PAGE_SIZE)
  {
  }

  /** One more level on top keeps the structure. */
  lemma StackKeeps(st: MapState, pages: Pages, height: nat)
    requires MapInv(st, pages, height) && height < 2 && 0 < st.next
    requires st.next + PAGE_SIZE <= |st.w| <= 0x1_0000_0000
    ensures MapInv(Stack(st, height + 1), pages[Page(height + 1, 0) := st.next], height + 1)
    ensures Grows(pages, pages[Page(height + 1, 0) := st.next], st.next, st.next + PAGE_SIZE)
    ensures Confined(st.w, Stack(st, height + 1).w, st.next, st.next + PAGE_SIZE)
  {
    hide Linked, Located, Walk;
    var w := Stack(st, height + 1).w;
    StackLinks(st, pages, height, w);
    StackLocated(st, pages, height, w);
  }

  /** One more level on top is invisible to every lookup, of addresses the old root refused as well. */
  lemma StackInvisible(st: MapState, pages: Pages, height: nat, j: nat)
    requires MapInv(st, pages, height) && height < 2 && 0 < st.next
    requires st.next + PAGE_SIZE <= |st.w| <= 0x1_0000_0000
    ensures var st' := Stack(st, height + 1); Lookup(st'.w, st'.root, j) == Lookup(st.w, st.root, j)
  {
    hide Located, Linked, Rooted, Grows;
    var st' := Stack(st, height + 1);
    StackKeeps(st, pages, height);
    var pages' := pages[Page(height + 1, 0) := st.next];
    RootHeld(st, pages, height);
    RootHeld(st', pages', height + 1);
    LookupIsWalk(st, pages, height, j);
    LookupIsWalk(st', pages', height + 1, j);
    if Shr(j, height + 2) == 0 {
      ShrDigit(j, height + 1);
      assert Slot(st'.w, st.next, Digit(j, height + 1)) == if Digit(j, height + 1) == 0 then st.root else UNASSIGNED;
      if Shr(j, height + 1) == 0 {
        WalkConfined(st.w, st'.w, pages, st.next, st.next + PAGE_SIZE, height, j);
      }
    }
  }

  lemma {:induction false} GrowCorrect(st: MapState, pages: Pages, height: nat, required: nat) returns (pages': Pages)
    requires MapInv(st, pages, height) && height <= required <= 2 && 0 < st.next
    requires st.next + PAGE_SIZE * (required - height) <= |st.w| <= 0x1_0000_0000
    ensures MapInv(Grow(st, height, required), pages', required)
    ensures Grows(pages, pages', st.next, Grow(st, height, required).next)
    ensures Confined(st.w, Grow(st, height, required).w, st.next, Grow(st, height, required).next)
    ensures forall j: nat :: var st' := Grow(st, height, required); Lookup(st'.w, st'.root, j) == Lookup(st.w, st.root, j)
    decreases required - height
  {
    pages' := pages;
    if height < required {
      StackKeeps(st, pages, height);
      forall j: nat ensures var st' := Stack(st, height + 1); Lookup(st'.w, st'.root, j) == Lookup(st.w, st.root, j) {
        StackInvisible(st, pages, height, j);
      }
      pages' := GrowCorrect(Stack(st, height + 1), pages[Page(height + 1, 0) := st.next], height + 1, required);
    }
  }

  // ----- The whole assignment

  lemma ConfinedSpares(w: seq<Word>, w1: seq<Word>, w': seq<Word>, pages: Pages, pages1: Pages, a: nat, b: nat, c: nat)
    requires a <= b <= c && Confined(w, w1, a, b) && |w'| == |w| && Grows(pages, pages1, a, b)
    requires Spares(w1, w', pages1, b, c)
    ensures Spares(w, w', pages, a, c)
  {
    SparesCompose(w, w1, w', pages, pages1, a, b, c);
  }

  /** From the walks below the root to lookups. */
  lemma RedirectedLookups(st: MapState, pages: Pages, height: nat, k: nat, v: Word, w': seq<Word>, next': nat,
                          pages': Pages)
    requires AssignedIn(st, pages, height, height, k, v, w', next', pages') && Shr(k, height + 1) == 0
    ensures forall j: nat :: Lookup(w', st.root, j) == if j == k then v else Lookup(st.w, st.root, j)
  {
    forall j: nat ensures Lookup(w', st.root, j) == if j == k then v else Lookup(st.w, st.root, j) {
      LookupIsWalk(st, pages, height, j);
      LookupIsWalk(MapState(w', st.root, next'), pages', height, j);
      assert Shr(j, height + 1) == 0 ==> Over(j, height) == Over(k, height);
    }
  }

  lemma AssignGrown(st: MapState, pages: Pages, height: nat, k: nat, v: Word)
    requires MapInv(st, pages, height) && k < ADDRESS_LIMIT && st.next + ASSIGN_WORDS <= |st.w| <= 0x1_0000_0000
    ensures Assignable(st, k) && RequiredHeight(k) <= 2
    ensures var top := Max(height, RequiredHeight(k));
      var st1 := Grow(st, height, top);
      var (w, next) := AssignIn(st1.w, st1.next, st1.root, top, k, v);
      Assign(st, k, v) == MapState(w, st1.root, next)
  {
    RequiredHeightInRange(k);
  }

  /** After assigning `v` to `k`, `k` leads to `v` and every other address leads where it did. The structure is
      kept, and no word outside the pages and the newly allocated space has changed. */
  lemma AssignCorrect(st: MapState, pages: Pages, height: nat, k: nat, v: Word) returns (pages': Pages)
    requires MapInv(st, pages, height) && 0 < st.next && k < ADDRESS_LIMIT
    requires st.next + ASSIGN_WORDS <= |st.w| <= 0x1_0000_0000
    ensures Assignable(st, k)
    ensures var st' := Assign(st, k, v);
      && MapInv(st', pages', Max(height, RequiredHeight(k)))
      && st.next <= st'.next <= st.next + ASSIGN_WORDS && Grows(pages, pages', st.next, st'.next)
      && Spares(st.w, st'.w, pages, st.next, st'.next)
      && forall j: nat :: Lookup(st'.w, st'.root, j) == if j == k then v else Lookup(st.w, st.root, j)
  {
    AssignGrown(st, pages, height, k, v);
    var top := Max(height, RequiredHeight(k));
    var pages1 := GrowCorrect(st, pages, height, top);
    var st1 := Grow(st, height, top);
    RequiredHeightIsLeast(k, top);
    LookupIsWalk(st1, pages1, top, k);
    pages' := AssignInCorrect(st1, pages1, top, top, k, v);
    AssignedGrown(st, pages, top, k, v, st1, pages1, pages');
  }

  lemma AssignedGrown(st: MapState, pages: Pages, height: nat, k: nat, v: Word, st1: MapState, pages1: Pages,
                      pages': Pages)
    requires |st1.w| == |st.w| && st.next <= st1.next && Grows(pages, pages1, st.next, st1.next)
    requires Confined(st.w, st1.w, st.next, st1.next)
    requires forall j: nat :: Lookup(st1.w, st1.root, j) == Lookup(st.w, st.root, j)
    requires height <= 2 && st1.next + PAGE_SIZE * height <= |st1.w| <= 0x1_0000_0000 && Shr(k, height + 1) == 0
    requires var (w', next') := AssignIn(st1.w, st1.next, st1.root, height, k, v);
      AssignedIn(st1, pages1, height, height, k, v, w', next', pages')
    ensures var (w', next') := AssignIn(st1.w, st1.next, st1.root, height, k, v);
      && st1.next <= next' && Grows(pages, pages', st.next, next') && Spares(st.w, w', pages, st.next, next')
      && MapInv(MapState(w', st1.root, next'), pages', height)
      && forall j: nat :: Lookup(w', st1.root, j) == if j == k then v else Lookup(st.w, st.root, j)
  {
    var r := AssignIn(st1.w, st1.next, st1.root, height, k, v);
    RedirectedLookups(st1, pages1, height, k, v, r.0, r.1, pages');
    GrowsCompose(pages, pages1, pages', st.next, st1.next, r.1);
    ConfinedSpares(st.w, st1.w, r.0, pages, pages1, st.next, st1.next, r.1);
  }
}

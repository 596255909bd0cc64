/** First objects: a program claims an object for a session and marks it; the commit gives it its addresses. The
    write set holds such objects under address zero, so it has room for one of them (obl/set.c:454-462). */
module Roots {
  import opened Words
  import opened RedBlack
  import opened Objects
  import opened World
  import opened Changes
  import opened Committing
  import opened Renewal
  import opened Mutation
  import opened Notice
  import opened Transactions
  import Store

  /** Several objects marked one after the other. */
  ghost function MarkedAll(w: World, marks: seq<Ref>): (w': World)
    requires forall r | r in marks :: r in w.memory
    ensures w'.memory == w.memory
  {
    if marks == [] then w else MarkedDirty(MarkedAll(w, marks[..|marks| - 1]), marks[|marks| - 1])
  }

  ghost predicate AllMarkable(w: World, s: nat, marks: seq<Ref>) {
    forall r | r in marks :: Markable(w, s, r)
  }

  lemma OneMark(w: World, stale: Stale, s: nat, r: Ref)
    requires Held(w, stale) && Markable(w, s, r) && w.sessions[s].writeSet.Some?
    ensures var w' := MarkedDirty(w, r);
      && Held(w', stale) && w'.memory == w.memory && w'.kinds == w.kinds
      && |w'.sessions| == |w.sessions| && w'.sessions[s].writeSet.Some?
      && Cache(w'.sessions[s]) == Cache(w.sessions[s]) && Dirty(w'.sessions[s]) == Dirty(w.sessions[s])[w.memory[r].logical := r]
  {
    MarkHolds(w, stale, s, r);
  }

  lemma MarkableStill(w: World, w': World, s: nat, r: Ref)
    requires Markable(w, s, r) && w'.memory == w.memory && w'.kinds == w.kinds && s < |w'.sessions|
    requires Cache(w'.sessions[s]) == Cache(w.sessions[s])
    ensures Markable(w', s, r)
  {
  }

  lemma MarkablesThere(w: World, s: nat, marks: seq<Ref>)
    requires AllMarkable(w, s, marks)
    ensures forall r | r in marks :: r in w.memory
  {
    forall r | r in marks ensures r in w.memory {
      assert Markable(w, s, r);
    }
  }

  /** The write set after several marks: each object under its address, of those without one the last. */
  lemma {:induction false} MarksAreListed(w: World, stale: Stale, s: nat, marks: seq<Ref>)
    requires Held(w, stale) && s < |w.sessions| && w.sessions[s].writeSet.Some? && AllMarkable(w, s, marks)
    ensures var w' := MarkedAll(w, marks);
      && Held(w', stale) && |w'.sessions| == |w.sessions| && w'.sessions[s].writeSet.Some? && w'.kinds == w.kinds
      && Cache(w'.sessions[s]) == Cache(w.sessions[s])
      && Dirty(w'.sessions[s]) == Dirty(w.sessions[s]) + Listed(w.memory, marks)
  {
    hide Held, Contents, MarkedDirty, Claimed, Markable;
    MarkablesThere(w, s, marks);
    if marks == [] {
      assert Listed(w.memory, marks) == map[];
    } else {
      var before, r := marks[..|marks| - 1], marks[|marks| - 1];
      MarksAreListed(w, stale, s, before);
      var w1 := MarkedAll(w, before);
      MarkableStill(w, w1, s, r);
      OneMark(w1, stale, s, r);
      assert Listed(w.memory, marks) == Listed(w.memory, before)[LogicalOf(w.memory, r) := r];
    }
  }

  /** At most one of the objects has no address. */
  predicate OneRoot(w: World, marks: seq<Ref>) {
    forall x, y | x in marks && y in marks && Unaddressed(w, x) && Unaddressed(w, y) :: x == y
  }

  predicate InSet(dirty: Entries, r: Ref) {
    exists k :: k in dirty && dirty[k] == r
  }

  /** An object is in the write set only at its own address. */
  lemma InSetAtHome(m: Memory, marks: seq<Ref>, r: Ref)
    requires r in marks
    ensures LogicalOf(m, r) in Listed(m, marks) && Listed(m, marks)[LogicalOf(m, r)] in marks
    ensures LogicalOf(m, Listed(m, marks)[LogicalOf(m, r)]) == LogicalOf(m, r)
    ensures InSet(Listed(m, marks), r) <==> Listed(m, marks)[LogicalOf(m, r)] == r
  {
    ListedKeys(m, marks);
  }

  /** Objects of a session at one address are one. */
  lemma SameHome(w: World, s: nat, x: Ref, y: Ref)
    requires Markable(w, s, x) && Markable(w, s, y) && LogicalOf(w.memory, x) == LogicalOf(w.memory, y) && x != y
    ensures Unaddressed(w, x) && Unaddressed(w, y)
  {
  }

  /** A transaction keeps every object it marked exactly if at most one of them has no address. */
  lemma MarksKeptIff(w: World, stale: Stale, s: nat, marks: seq<Ref>)
    requires Held(w, stale) && s < |w.sessions| && w.sessions[s].writeSet.Some? && Dirty(w.sessions[s]) == map[]
    requires AllMarkable(w, s, marks)
    ensures s < |MarkedAll(w, marks).sessions|
    ensures (forall r | r in marks :: InSet(Dirty(MarkedAll(w, marks).sessions[s]), r)) <==> OneRoot(w, marks)
  {
    hide Held, Contents, Listed, InSet;
    MarksAreListed(w, stale, s, marks);
    var listed := Listed(w.memory, marks);
    assert Dirty(MarkedAll(w, marks).sessions[s]) == listed;
    forall r | r in marks
      ensures LogicalOf(w.memory, r) in listed && (InSet(listed, r) <==> listed[LogicalOf(w.memory, r)] == r)
      ensures OneRoot(w, marks) ==> listed[LogicalOf(w.memory, r)] == r
    {
      InSetAtHome(w.memory, marks, r);
      var x := listed[LogicalOf(w.memory, r)];
      assert Markable(w, s, r) && Markable(w, s, x);
      if x != r {
        SameHome(w, s, r, x);
      }
    }
    if !OneRoot(w, marks) {
      var x, y :| x in marks && y in marks && Unaddressed(w, x) && Unaddressed(w, y) && x != y;
      assert listed[LogicalOf(w.memory, x)] != x || listed[LogicalOf(w.memory, y)] != y;
    }
  }

  /** The session has the object at an address, and the file has it there. */
  ghost predicate IsStored(w: World, s: nat, r: Ref) {
    r in w.memory && HoldsAt(w, s, w.memory[r].logical, r) && Current(w, r)
  }

  /** What the write set had is stored by the commit. */
  lemma InSetIsStored(w1: World, w2: World, s: nat, fringe: set<Ref>, changed: seq<(Key, Ref)>, adopted: seq<Ref>,
                      r: Ref)
    requires Committed(w1, w2, s, fringe, changed, adopted) && Held(w2, {}) && s < |w1.sessions|
    requires InSet(Dirty(w1.sessions[s]), r)
    ensures IsStored(w2, s, r) && w2.memory[r].logical > Store.NEXT_LOGICAL_ADDR && w2.memory[r].session == Some(s)
    ensures w2.memory[r].logical in ChangedKeys(changed, adopted)
  {
    hide Held, Contents;
    var k :| k in Dirty(w1.sessions[s]) && Dirty(w1.sessions[s])[k] == r;
    var a :| (a, r) in changed;
    var j :| 0 <= j < |changed| && changed[j] == (a, r);
    assert HoldsAt(w2, s, changed[j].0, changed[j].1);
    EntryHeld(w2, {}, s, a);
    assert changed[j].0 in KeysTo(changed, |changed|);
  }

  /** A claimed object that the write set does not have stays without an address. */
  lemma OutOfSetIsLost(w1: World, w2: World, s: nat, fringe: set<Ref>, changed: seq<(Key, Ref)>, adopted: seq<Ref>,
                       r: Ref)
    requires Committed(w1, w2, s, fringe, changed, adopted) && Held(w2, {}) && s < |w1.sessions|
    requires Claimed(w1, r) && w1.memory[r].session == Some(s) && !InSet(Dirty(w1.sessions[s]), r)
    ensures r in w2.memory && w2.memory[r] == w1.memory[r] && !IsStored(w2, s, r)
  {
    hide Contents, RedBlack.Valid;
    assert IsMine(w1, s, r);
    assert !IsRoot(w1, s, r) && r !in adopted;
    if HoldsAt(w2, s, UNASSIGNED, r) {
      EntryHeld(w2, {}, s, UNASSIGNED);
    }
  }

  /** A commit stores every object its transaction marked exactly if at most one of them had no address. */
  lemma CommitStoresIff(w: World, s: nat, marks: seq<Ref>, w1: World, w2: World, fringe: set<Ref>,
                        changed: seq<(Key, Ref)>, adopted: seq<Ref>)
    requires Held(w, {}) && s < |w.sessions| && w.sessions[s].writeSet.Some? && Dirty(w.sessions[s]) == map[]
    requires AllMarkable(w, s, marks) && Loaded(MarkedAll(w, marks), w1, s)
    requires Committed(w1, w2, s, fringe, changed, adopted) && Held(w2, {})
    ensures (forall r | r in marks :: IsStored(w2, s, r)) <==> OneRoot(w, marks)
  {
    hide Held, Contents, Committed, IsStored, NewAreRead;
    MarksAreListed(w, {}, s, marks);
    MarksKeptIff(w, {}, s, marks);
    forall r | r in marks ensures IsStored(w2, s, r) <==> InSet(Dirty(w1.sessions[s]), r) {
      if InSet(Dirty(w1.sessions[s]), r) {
        InSetIsStored(w1, w2, s, fringe, changed, adopted, r);
      } else {
        AddressedIsInSet(w, s, marks, r);
        OutOfSetIsLost(w1, w2, s, fringe, changed, adopted, r);
      }
    }
  }

  lemma AddressedIsInSet(w: World, s: nat, marks: seq<Ref>, r: Ref)
    requires Held(w, {}) && s < |w.sessions| && w.sessions[s].writeSet.Some? && Dirty(w.sessions[s]) == map[]
    requires AllMarkable(w, s, marks) && r in marks
    requires s < |MarkedAll(w, marks).sessions| && !InSet(Dirty(MarkedAll(w, marks).sessions[s]), r)
    ensures Claimed(MarkedAll(w, marks), r) && w.memory[r].session == Some(s)
  {
    hide Held, Contents;
    MarksAreListed(w, {}, s, marks);
    ListedKeys(w.memory, marks);
    assert Markable(w, s, r);
    var k := LogicalOf(w.memory, r);
    var x := Listed(w.memory, marks)[k];
    assert Markable(w, s, x);
  }

  /** The second of two such marks takes the place of the first. */
  lemma TwoMarks(w: World, s: nat, x: Ref, y: Ref)
    requires Held(w, {}) && s < |w.sessions| && w.sessions[s].writeSet.Some? && Dirty(w.sessions[s]) == map[]
    requires AllMarkable(w, s, [x, y]) && Unaddressed(w, x) && Unaddressed(w, y)
    ensures s < |MarkedAll(w, [x]).sessions| && Dirty(MarkedAll(w, [x]).sessions[s]) == map[UNASSIGNED := x]
    ensures var w' := MarkedAll(w, [x, y]);
      && |w'.sessions| == |w.sessions| && w'.sessions[s].writeSet.Some? && w'.memory == w.memory
      && w'.kinds == w.kinds && Dirty(w'.sessions[s]) == map[UNASSIGNED := y]
  {
    hide Held, Contents, MarkedDirty;
    MarksAreListed(w, {}, s, [x]);
    MarksAreListed(w, {}, s, [x, y]);
    assert [x, y][..1] == [x] && [x][..0] == [];
    assert Listed(w.memory, [x]) == map[UNASSIGNED := x];
    assert Listed(w.memory, [x, y]) == map[UNASSIGNED := y];
  }

  /** Two objects without addresses in one transaction: the second mark takes the place of the first, which the set
      deallocates, and the commit stores the second only. */
  lemma TwoRootsCollide(w: World, s: nat, x: Ref, y: Ref, w1: World, w2: World, fringe: set<Ref>,
                        changed: seq<(Key, Ref)>, adopted: seq<Ref>)
    requires Held(w, {}) && s < |w.sessions| && w.sessions[s].writeSet.Some? && Dirty(w.sessions[s]) == map[]
    requires AllMarkable(w, s, [x, y]) && Unaddressed(w, x) && Unaddressed(w, y) && x != y
    requires Loaded(MarkedAll(w, [x, y]), w1, s)
    requires Committed(w1, w2, s, fringe, changed, adopted) && Held(w2, {})
    ensures s < |MarkedAll(w, [x]).sessions| && Dirty(MarkedAll(w, [x]).sessions[s]) == map[UNASSIGNED := x]
    ensures s < |MarkedAll(w, [x, y]).sessions| && Dirty(MarkedAll(w, [x, y]).sessions[s]) == map[UNASSIGNED := y]
    ensures IsStored(w2, s, y) && !IsStored(w2, s, x) && x in w2.memory && w2.memory[x].logical == UNASSIGNED
  {
    hide Held, Contents, Committed, IsStored, NewAreRead, MarkedAll, Kept, Current;
    TwoMarks(w, s, x, y);
    assert Markable(w, s, x) && Dirty(w1.sessions[s])[UNASSIGNED] == y;
    InSetIsStored(w1, w2, s, fringe, changed, adopted, y);
    OutOfSetIsLost(w1, w2, s, fringe, changed, adopted, x);
  }
}

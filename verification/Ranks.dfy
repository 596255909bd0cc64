/** When reading an object ends. Reading restarts the depth at three for every shape it meets, so the depth alone
    does not bound it: reading without the cache ends everywhere exactly if no address leads back to itself through
    at most two references and a shape. Ranks, as the sorts of Objects.dfy have them, exclude that; shapes that are
    put together as obl_create_cshape does have such ranks. */
module Ranks {
  import opened Words
  import opened Codec
  import opened Objects
  import opened World
  import ObjectBase

  type Disk = map<nat, Value>

  predicate IsText(v: Value) {
    v.StringValue? || v.IntegerValue?
  }

  /** A collection of strings, as the slot names of a shape are. */
  predicate IsNameList(disk: Disk, v: Value) {
    v.FixedValue? && IsFixedAddr(v.shape)
    && forall i | 0 <= i < |v.elements| :: IsFixedAddr(v.elements[i]) || (v.elements[i] in disk && IsText(disk[v.elements[i]]))
  }

  /** Leaves, collections of leaves, shapes, and all else. */
  function Tier(disk: Disk, a: Word): nat {
    if IsFixedAddr(a) || a !in disk then 0
    else if IsText(disk[a]) then 1
    else if IsNameList(disk, disk[a]) then 2
    else if disk[a].ShapeValue? then 3
    else 4
  }

  /** Objects have shapes for shapes; a shape's name is a string, its slot names a collection of strings, its
      current shape a shape; each may be a constant. Integers and strings have constant shapes. */
  ghost predicate ShapesFormed(disk: Disk) {
    forall a | a in disk ::
      && (IsText(disk[a]) ==> IsFixedAddr(ShapeWord(disk[a])))
      && (IsFixedAddr(ShapeWord(disk[a])) || (ShapeWord(disk[a]) in disk && disk[ShapeWord(disk[a])].ShapeValue?))
      && (disk[a].ShapeValue? ==>
            var v := disk[a];
            && (IsFixedAddr(v.name) || (v.name in disk && IsText(disk[v.name])))
            && (IsFixedAddr(v.slotNames) || (v.slotNames in disk && IsNameList(disk, disk[v.slotNames])))
            && (IsFixedAddr(v.current) || (v.current in disk && disk[v.current].ShapeValue?)))
  }

  /** On such a file the tiers are ranks: an object's shape is of a lower tier, all else it refers to of none
      higher. Nothing is asked of objects that are no shapes: they may be cyclic. */
  lemma TiersAreRanks(disk: Disk, a: Word, i: nat)
    requires ShapesFormed(disk) && a in disk && !IsFixedAddr(a)
    ensures Tier(disk, ShapeWord(disk[a])) < Tier(disk, a)
    ensures i < |References(disk[a])| ==> Tier(disk, References(disk[a])[i]) <= Tier(disk, a)
  {
    var v := disk[a];
    if v.ShapeValue? {
      assert References(v) == [v.name, v.slotNames, v.current];
    }
  }

  // ----- Reading without the cache

  predicate IsMapped(disk: Disk, a: Word) {
    !IsFixedAddr(a) && a in disk
  }

  /** Reading the object at an address ends within `fuel` nested reads: constants and unmapped addresses are not
      read, nor is anything past the depth; an object's shape is read three references deep, its references one less
      deep than itself. */
  predicate Ends(disk: Disk, a: Word, depth: int, fuel: nat)
    decreases fuel
  {
    !IsMapped(disk, a) || depth <= 0 ||
    (fuel > 0 && Ends(disk, ShapeWord(disk[a]), 3, fuel - 1)
     && forall i | 0 <= i < |References(disk[a])| :: Ends(disk, References(disk[a])[i], depth - 1, fuel - 1))
  }

  ghost predicate Finishes(disk: Disk, a: Word, depth: int) {
    exists fuel: nat :: Ends(disk, a, depth, fuel)
  }

  lemma {:induction false} EndsLater(disk: Disk, a: Word, depth: int, fuel: nat, more: nat)
    requires Ends(disk, a, depth, fuel) && fuel <= more
    ensures Ends(disk, a, depth, more)
    decreases fuel
  {
    if IsMapped(disk, a) && depth > 0 {
      EndsLater(disk, ShapeWord(disk[a]), 3, fuel - 1, more - 1);
      forall i | 0 <= i < |References(disk[a])| ensures Ends(disk, References(disk[a])[i], depth - 1, more - 1) {
        EndsLater(disk, References(disk[a])[i], depth - 1, fuel - 1, more - 1);
      }
    }
  }

  // ----- Loops through shapes

  predicate Refers(disk: Disk, a: Word, b: Word) {
    IsMapped(disk, a) && b in References(disk[a])
  }

  /** The second address is at most `n` references from the first. */
  ghost predicate Near(disk: Disk, a: Word, x: Word, n: nat)
    decreases n
  {
    x == a || (n > 0 && exists y: Word :: Near(disk, a, y, n - 1) && Refers(disk, y, x))
  }

  /** Reading the address to the depth reads the shape: that of the object there, or of one within the depth. */
  ghost predicate LeadsWithin(disk: Disk, a: Word, depth: nat, g: Word)
    requires depth > 0
  {
    exists x: Word :: Near(disk, a, x, depth - 1) && IsMapped(disk, x) && ShapeWord(disk[x]) == g
  }

  /** Shapes are read three references deep. */
  ghost predicate Leads(disk: Disk, h: Word, g: Word) {
    LeadsWithin(disk, h, 3, g)
  }

  ghost predicate IsPath(disk: Disk, p: seq<Word>) {
    forall i | 0 <= i < |p| - 1 :: Leads(disk, p[i], p[i + 1])
  }

  ghost predicate IsLoop(disk: Disk, p: seq<Word>) {
    |p| > 1 && p[0] == p[|p| - 1] && IsPath(disk, p)
  }

  ghost predicate LeadsBack(disk: Disk, h: Word) {
    exists p :: IsLoop(disk, p) && p[0] == h
  }

  /** A path that ends where it has been. */
  ghost predicate IsTrap(disk: Disk, p: seq<Word>) {
    |p| > 1 && IsPath(disk, p) && p[|p| - 1] in p[..|p| - 1]
  }

  /** From the shape a loop can be reached. */
  ghost predicate Trapped(disk: Disk, g: Word) {
    exists p :: IsTrap(disk, p) && p[0] == g
  }

  /** What is `n` references away is read with the fuel that is left there, and so is its shape. */
  lemma {:induction false} ShapeIsRead(disk: Disk, a: Word, x: Word, n: nat, depth: int, fuel: nat)
    requires Ends(disk, a, depth, fuel) && Near(disk, a, x, n) && n < depth && IsMapped(disk, x)
    ensures exists left: nat, d: int :: left <= fuel && d >= depth - n && Ends(disk, x, d, left)
    decreases n
  {
    if x == a {
      assert Ends(disk, x, depth, fuel);
    } else {
      var y: Word :| Near(disk, a, y, n - 1) && Refers(disk, y, x);
      ShapeIsRead(disk, a, y, n - 1, depth, fuel);
      var left: nat, d: int :| left <= fuel && d >= depth - (n - 1) && Ends(disk, y, d, left);
      var i :| 0 <= i < |References(disk[y])| && References(disk[y])[i] == x;
      assert Ends(disk, References(disk[y])[i], d - 1, left - 1);
    }
  }

  /** A read that ends reads every shape it leads to, with less fuel. */
  lemma LeadsToLess(disk: Disk, a: Word, depth: nat, g: Word, fuel: nat)
    requires depth > 0 && Ends(disk, a, depth, fuel) && LeadsWithin(disk, a, depth, g)
    ensures fuel > 0 && Ends(disk, g, 3, fuel - 1)
  {
    hide Near, References;
    var x: Word :| Near(disk, a, x, depth - 1) && IsMapped(disk, x) && ShapeWord(disk[x]) == g;
    ShapeIsRead(disk, a, x, depth - 1, depth, fuel);
    var left: nat, d: int :| left <= fuel && d >= 1 && Ends(disk, x, d, left);
    EndsLater(disk, g, 3, left - 1, fuel - 1);
  }

  /** Nothing on a loop is ever read to the end. */
  lemma {:induction false} LoopsNeverEnd(disk: Disk, p: seq<Word>, i: nat, fuel: nat)
    requires IsLoop(disk, p) && i < |p| - 1
    ensures !Ends(disk, p[i], 3, fuel)
    decreases fuel
  {
    if Ends(disk, p[i], 3, fuel) {
      LeadsToLess(disk, p[i], 3, p[i + 1], fuel);
      LoopsNeverEnd(disk, p, if i + 1 < |p| - 1 then i + 1 else 0, fuel - 1);
    }
  }

  /** The path from where it comes back to is a loop. */
  lemma TrapHasLoop(disk: Disk, p: seq<Word>) returns (i: nat)
    requires IsTrap(disk, p)
    ensures i < |p| - 1 && IsLoop(disk, p[i..]) && p[i..][0] == p[i]
  {
    i :| 0 <= i < |p| - 1 && p[i] == p[|p| - 1];
    var q := p[i..];
    forall j | 0 <= j < |q| - 1 ensures Leads(disk, q[j], q[j + 1]) {
      assert q[j] == p[i + j] && q[j + 1] == p[i + j + 1];
    }
  }

  /** Nor is what leads to a loop. */
  lemma {:induction false} PathEnds(disk: Disk, p: seq<Word>, i: nat, fuel: nat)
    requires IsPath(disk, p) && i < |p| && Ends(disk, p[0], 3, fuel)
    ensures i <= fuel && Ends(disk, p[i], 3, fuel - i)
  {
    if i > 0 {
      PathEnds(disk, p, i - 1, fuel);
      assert Leads(disk, p[i - 1], p[i]);
      LeadsToLess(disk, p[i - 1], 3, p[i], fuel - (i - 1));
    }
  }

  lemma TrappedNeverEnds(disk: Disk, g: Word, fuel: nat)
    requires Trapped(disk, g)
    ensures !Ends(disk, g, 3, fuel)
  {
    var p :| IsTrap(disk, p) && p[0] == g;
    if Ends(disk, g, 3, fuel) {
      var i := TrapHasLoop(disk, p);
      PathEnds(disk, p, i, fuel);
      LoopsNeverEnd(disk, p[i..], 0, fuel - i);
    }
  }

  function SetOf(p: seq<Word>): set<nat> {
    set a | a in p
  }

  lemma PathLonger(disk: Disk, p: seq<Word>, g: Word)
    requires p != [] && IsPath(disk, p) && Leads(disk, p[|p| - 1], g)
    ensures IsPath(disk, p + [g])
  {
  }

  /** From where no loop can be reached the read of a shape ends: no shape can come back on the way to it. */
  lemma {:induction false} ShapeEnds(disk: Disk, p: seq<Word>, h: Word) returns (fuel: nat)
    requires IsPath(disk, p + [h]) && SetOf(p) <= disk.Keys && !Trapped(disk, (p + [h])[0])
    ensures Ends(disk, h, 3, fuel)
    decreases disk.Keys - SetOf(p), 0
  {
    if !IsMapped(disk, h) {
      fuel := 0;
    } else {
      var q := p + [h];
      assert q[..|q| - 1] == p;
      if h in p {
        assert IsTrap(disk, q);
        assert false;
      }
      assert SetOf(q) == SetOf(p) + {h};
      fuel := NearEnds(disk, q, h, 3);
    }
  }

  /** So does the read of what is near the last shape of a path. */
  lemma {:induction false} NearEnds(disk: Disk, p: seq<Word>, x: Word, d: nat) returns (fuel: nat)
    requires p != [] && IsPath(disk, p) && SetOf(p) <= disk.Keys && d <= 3 && !Trapped(disk, p[0])
    requires (d > 0 ==> Near(disk, p[|p| - 1], x, 3 - d))
    ensures Ends(disk, x, d, fuel)
    decreases disk.Keys - SetOf(p), d + 1
  {
    hide IsPath, Trapped;
    fuel := 0;
    if IsMapped(disk, x) && d > 0 {
      var h, g := p[|p| - 1], ShapeWord(disk[x]);
      NearFarther(disk, h, x, 3 - d, 2);
      assert Leads(disk, h, g);
      PathLonger(disk, p, g);
      fuel := ShapeEnds(disk, p, g);
      var refs := References(disk[x]);
      for i := 0 to |refs|
        invariant Ends(disk, g, 3, fuel) && forall j | 0 <= j < i :: Ends(disk, refs[j], d - 1, fuel)
      {
        assert Refers(disk, x, refs[i]);
        var more := NearEnds(disk, p, refs[i], d - 1);
        fuel := EndsTogether(disk, g, refs, d - 1, i, fuel, more);
      }
      fuel := fuel + 1;
    }
  }

  lemma {:induction false} NearFarther(disk: Disk, a: Word, x: Word, n: nat, m: nat)
    requires Near(disk, a, x, n) && n <= m
    ensures Near(disk, a, x, m)
    decreases n
  {
    if x != a {
      var y: Word :| Near(disk, a, y, n - 1) && Refers(disk, y, x);
      NearFarther(disk, a, y, n - 1, m - 1);
    }
  }

  /** One reference in front. */
  lemma {:induction false} NearBefore(disk: Disk, a: Word, b: Word, x: Word, n: nat)
    requires Refers(disk, a, b) && Near(disk, b, x, n)
    ensures Near(disk, a, x, n + 1)
    decreases n
  {
    if x == b {
      assert Near(disk, a, a, n);
    } else {
      var y: Word :| Near(disk, b, y, n - 1) && Refers(disk, y, x);
      NearBefore(disk, a, b, y, n - 1);
    }
  }

  lemma EndsTogether(disk: Disk, g: Word, refs: seq<Word>, depth: int, i: nat, fuel: nat, more: nat) returns (both: nat)
    requires i < |refs| && Ends(disk, g, 3, fuel) && (forall j | 0 <= j < i :: Ends(disk, refs[j], depth, fuel))
    requires Ends(disk, refs[i], depth, more)
    ensures Ends(disk, g, 3, both) && forall j | 0 <= j <= i :: Ends(disk, refs[j], depth, both)
  {
    both := if fuel < more then more else fuel;
    EndsLater(disk, g, 3, fuel, both);
    forall j | 0 <= j <= i ensures Ends(disk, refs[j], depth, both) {
      EndsLater(disk, refs[j], depth, if j < i then fuel else more, both);
    }
  }

  /** No shape that is read for the address leads to a loop. */
  ghost predicate Free(disk: Disk, a: Word, depth: int) {
    depth > 0 && IsMapped(disk, a) ==> forall g: Word :: LeadsWithin(disk, a, depth, g) ==> !Trapped(disk, g)
  }

  lemma FreeBelow(disk: Disk, a: Word, depth: int, b: Word)
    requires Free(disk, a, depth) && depth > 0 && Refers(disk, a, b)
    ensures Free(disk, b, depth - 1)
  {
    if depth > 1 && IsMapped(disk, b) {
      forall g: Word | LeadsWithin(disk, b, depth - 1, g) ensures !Trapped(disk, g) {
        var x: Word :| Near(disk, b, x, depth - 2) && IsMapped(disk, x) && ShapeWord(disk[x]) == g;
        NearBefore(disk, a, b, x, depth - 2);
        assert LeadsWithin(disk, a, depth, g);
      }
    }
  }

  /** The read of any object ends if its shapes' do. */
  lemma {:induction false} FreeEnds(disk: Disk, a: Word, depth: int) returns (fuel: nat)
    requires Free(disk, a, depth)
    ensures Ends(disk, a, depth, fuel)
    decreases if depth < 0 then 0 else depth
  {
    fuel := 0;
    if IsMapped(disk, a) && depth > 0 {
      var g, refs := ShapeWord(disk[a]), References(disk[a]);
      NearFarther(disk, a, a, 0, depth - 1);
      assert LeadsWithin(disk, a, depth, g);
      fuel := ShapeEnds(disk, [], g);
      for i := 0 to |refs|
        invariant Ends(disk, g, 3, fuel) && forall j | 0 <= j < i :: Ends(disk, refs[j], depth - 1, fuel)
      {
        assert Refers(disk, a, refs[i]);
        FreeBelow(disk, a, depth, refs[i]);
        var more := FreeEnds(disk, refs[i], depth - 1);
        fuel := EndsTogether(disk, g, refs, depth - 1, i, fuel, more);
      }
      fuel := fuel + 1;
    }
  }

  /** Reading an address to a depth ends exactly if none of the shapes it reads leads to a loop. */
  lemma AddressEndsIff(disk: Disk, a: Word, depth: int)
    ensures Finishes(disk, a, depth) <==> Free(disk, a, depth)
  {
    if Free(disk, a, depth) {
      var fuel := FreeEnds(disk, a, depth);
    } else {
      var g: Word :| LeadsWithin(disk, a, depth, g) && Trapped(disk, g);
      forall fuel: nat ensures !Ends(disk, a, depth, fuel) {
        if Ends(disk, a, depth, fuel) {
          LeadsToLess(disk, a, depth, g, fuel);
          TrappedNeverEnds(disk, g, fuel - 1);
        }
      }
    }
  }

  /** Reading ends for every address and depth exactly if no address leads back to itself through at most two
      references and a shape, any number of times. */
  lemma ReadingEndsIff(disk: Disk)
    ensures (forall a: Word, depth: int :: Finishes(disk, a, depth)) <==> forall h: Word :: !LeadsBack(disk, h)
  {
    if forall h: Word :: !LeadsBack(disk, h) {
      forall a: Word, depth: int ensures Finishes(disk, a, depth) {
        forall g: Word ensures !Trapped(disk, g) {
          if Trapped(disk, g) {
            var p :| IsTrap(disk, p) && p[0] == g;
            var i := TrapHasLoop(disk, p);
            assert LeadsBack(disk, p[i]);
          }
        }
        AddressEndsIff(disk, a, depth);
      }
    } else {
      var h: Word :| LeadsBack(disk, h);
      var p :| IsLoop(disk, p) && p[0] == h;
      forall fuel: nat ensures !Ends(disk, h, 3, fuel) {
        LoopsNeverEnd(disk, p, 0, fuel);
      }
      assert !Finishes(disk, h, 3);
    }
  }

  // ----- What ranks are good for

  /** Each shape has a lower rank than its instances, and no reference leads higher. */
  ghost predicate HasRanks(disk: Disk, rank: Word -> nat) {
    forall a: Word | IsMapped(disk, a) ::
      rank(ShapeWord(disk[a])) < rank(a) && forall b | b in References(disk[a]) :: rank(b) <= rank(a)
  }

  lemma {:induction false} NearIsLower(disk: Disk, rank: Word -> nat, h: Word, x: Word, n: nat)
    requires HasRanks(disk, rank) && Near(disk, h, x, n)
    ensures rank(x) <= rank(h)
    decreases n
  {
    if x != h {
      var y: Word :| Near(disk, h, y, n - 1) && Refers(disk, y, x);
      NearIsLower(disk, rank, h, y, n - 1);
    }
  }

  lemma {:induction false} PathDescends(disk: Disk, rank: Word -> nat, p: seq<Word>, i: nat)
    requires HasRanks(disk, rank) && IsPath(disk, p) && 0 < i < |p|
    ensures rank(p[i]) < rank(p[0])
  {
    var h, g := p[i - 1], p[i];
    assert Leads(disk, h, g);
    var x: Word :| Near(disk, h, x, 2) && IsMapped(disk, x) && ShapeWord(disk[x]) == g;
    NearIsLower(disk, rank, h, x, 2);
    if i > 1 {
      PathDescends(disk, rank, p, i - 1);
    }
  }

  /** With ranks reading ends. */
  lemma RanksEnd(disk: Disk, rank: Word -> nat, a: Word, depth: int)
    requires HasRanks(disk, rank)
    ensures Finishes(disk, a, depth)
  {
    forall h: Word ensures !LeadsBack(disk, h) {
      if LeadsBack(disk, h) {
        var p :| IsLoop(disk, p) && p[0] == h;
        PathDescends(disk, rank, p, |p| - 1);
      }
    }
    ReadingEndsIff(disk);
  }

  /** Reading ends on every file whose shapes are built as the library builds them. */
  lemma FormedShapesEnd(disk: Disk, a: Word, depth: int)
    requires ShapesFormed(disk)
    ensures Finishes(disk, a, depth)
  {
    var rank := (b: Word) => Tier(disk, b);
    forall b: Word | IsMapped(disk, b)
      ensures rank(ShapeWord(disk[b])) < rank(b) && forall c | c in References(disk[b]) :: rank(c) <= rank(b)
    {
      forall c | c in References(disk[b]) ensures Tier(disk, c) <= Tier(disk, b) {
        var i :| 0 <= i < |References(disk[b])| && References(disk[b])[i] == c;
        TiersAreRanks(disk, b, i);
      }
      TiersAreRanks(disk, b, 0);
    }
    RanksEnd(disk, rank, a, depth);
  }

  /** And on every file that calls have brought about. */
  lemma SortedFilesEnd(e: ObjectBase.ObjectBase, a: Word, depth: int)
    requires e.Valid()
    ensures Finishes(e.db.layout.disk, a, depth)
  {
    var w := e.Now();
    var rank := (b: Word) => RankAt(w.sorts, b);
    forall b: Word | IsMapped(w.layout.disk, b)
      ensures rank(ShapeWord(w.layout.disk[b])) < rank(b)
      ensures forall c | c in References(w.layout.disk[b]) :: rank(c) <= rank(b)
    {
      StoredIsSorted(e, b);
    }
    RanksEnd(w.layout.disk, rank, a, depth);
  }

  lemma StoredIsSorted(e: ObjectBase.ObjectBase, b: Word)
    requires e.Valid() && IsMapped(e.db.layout.disk, b)
    ensures RankAt(e.sorts, ShapeWord(e.db.layout.disk[b])) < RankAt(e.sorts, b)
    ensures forall c | c in References(e.db.layout.disk[b]) :: RankAt(e.sorts, c) <= RankAt(e.sorts, b)
  {
    var v := e.db.layout.disk[b];
    assert b in e.db.layout.extents;
    e.ReadyParts({});
    ValueHeld(e.Now(), {}, b);
    forall c | c in References(v) ensures RankAt(e.sorts, c) <= RankAt(e.sorts, b) {
      var i :| 0 <= i < |References(v)| && References(v)[i] == c;
      LeadsAt(e.sorts, References(v), e.sorts[b].rank, i);
    }
  }

  // ----- Shapes of their own instances

  /** A shape whose name is an instance of that very shape leads back to itself: reading either never ends, with any
      amount of fuel, and no ranks can be given. */
  lemma OwnInstanceNeverEnds(disk: Disk, shape: Word, instance: Word, depth: int, fuel: nat)
    requires IsMapped(disk, shape) && IsMapped(disk, instance) && depth > 0
    requires instance in References(disk[shape]) && ShapeWord(disk[instance]) == shape
    ensures LeadsBack(disk, shape) && !Ends(disk, shape, 3, fuel) && !Ends(disk, instance, depth, fuel)
    ensures forall rank: Word -> nat :: !HasRanks(disk, rank)
  {
    var p := [shape, shape];
    assert Refers(disk, shape, instance) && Near(disk, shape, shape, 1);
    assert Near(disk, shape, instance, 2);
    assert Leads(disk, shape, shape);
    assert IsLoop(disk, p) && p[0] == shape;
    LoopsNeverEnd(disk, p, 0, fuel);
    if fuel > 0 {
      LoopsNeverEnd(disk, p, 0, fuel - 1);
    }
    forall rank: Word -> nat ensures !HasRanks(disk, rank) {
      if HasRanks(disk, rank) {
        PathDescends(disk, rank, p, 1);
      }
    }
  }
}

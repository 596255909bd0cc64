/** Which of several new objects gets which address: the closure walk of obl/transaction.c goes through the references of
    an object from the last to the first and ends with its shape, and all that can be reached from one of them through
    new objects comes before the next. Told on objects, their references and their addresses alone. */
module WalkOrder {
  import opened Objects

  /** The addresses are consecutive; what was adopted last is listed first. */
  predicate Numbered(m: Memory, adopted: seq<Ref>, first: nat) {
    forall i | 0 <= i < |adopted| :: LogicalOf(m, adopted[i]) == first + (|adopted| - 1 - i)
  }

  predicate RefersTo(o: Obj, c: Ref) {
    c == o.shape || c in o.storage.Links()
  }

  /** The object refers to `c` from its reference `j` on; its shape comes before the references. */
  predicate Kin(o: Obj, j: int, c: Ref) {
    || (j < 0 && c == o.shape)
    || exists k :: 0 <= k < |o.storage.Links()| && j <= k && o.storage.Links()[k] == c
  }

  /** Adopted objects with addresses from `since` on, each of which refers to the next. */
  predicate IsTrail(m: Memory, adopted: seq<Ref>, since: int, q: seq<Ref>) {
    && q != [] && (forall i | 0 <= i < |q| :: q[i] in adopted && q[i] in m && LogicalOf(m, q[i]) >= since)
    && forall i | 0 <= i < |q| - 1 :: RefersTo(m[q[i]], q[i + 1])
  }

  /** Through such objects `x` is reached from a reference of `p`, from its reference `j` on. */
  ghost predicate Below(m: Memory, adopted: seq<Ref>, since: int, p: Ref, j: int, x: Ref) {
    p in m && exists q :: IsTrail(m, adopted, since, q) && Kin(m[p], j, q[0]) && q[|q| - 1] == x
  }

  /** What is reached from the references of `p` from some one on has smaller addresses than what is not. */
  ghost predicate LaterFirst(m: Memory, adopted: seq<Ref>, since: int, p: Ref, j0: int) {
    forall j, y, x {:trigger Below(m, adopted, since, p, j, y), Below(m, adopted, since, p, j, x)} |
      j0 <= j && x in adopted && LogicalOf(m, x) >= since
      && Below(m, adopted, since, p, j, y) && !Below(m, adopted, since, p, j, x) ::
      LogicalOf(m, y) < LogicalOf(m, x)
  }

  /** The first address that the walk can give below `r`, which takes the first itself if it has none. */
  function After(m: Memory, adopted: seq<Ref>, first: int, r: Ref): int {
    if r in adopted then first + 1 else first
  }

  /** All that was adopted but `r` is reached from it, from its reference `j` on. */
  ghost predicate AllBelow(m: Memory, adopted: seq<Ref>, since: int, r: Ref, j: int) {
    forall x | x in adopted && x != r :: Below(m, adopted, since, r, j, x)
  }

  /** Each adopted object but `r` has its references in order. */
  ghost predicate EachInOrder(m: Memory, adopted: seq<Ref>, r: Ref) {
    forall p | p in adopted && p != r :: LaterFirst(m, adopted, LogicalOf(m, p) + 1, p, -1)
  }

  /** The order in which a walk from `r` has given addresses, from `first` on. */
  ghost predicate WalkedInOrder(m: Memory, adopted: seq<Ref>, first: int, r: Ref, j: int) {
    && (r in adopted ==> LogicalOf(m, r) == first) && EachInOrder(m, adopted, r)
    && LaterFirst(m, adopted, After(m, adopted, first, r), r, j)
    && AllBelow(m, adopted, After(m, adopted, first, r), r, j)
  }

  // ----- What stays when more is adopted

  predicate SameAt(m: Memory, m': Memory, x: Ref) {
    && x in m && x in m' && m'[x].logical == m[x].logical
    && m'[x].shape == m[x].shape && m'[x].storage == m[x].storage
  }

  /** More was adopted, under higher addresses; what was adopted before is as it was, and refers to none of it, but for
      `r`. */
  ghost predicate AdoptsMore(m: Memory, m': Memory, adopted: seq<Ref>, below: seq<Ref>, r: Ref, next: int) {
    && (forall x | x in adopted :: SameAt(m, m', x) && LogicalOf(m, x) < next)
    && (forall x | x in below :: x in m' && LogicalOf(m', x) >= next)
    && forall z, y | z in adopted && z != r && y in below :: z in m && !RefersTo(m[z], y)
  }

  lemma NumberedThen(m: Memory, m': Memory, adopted: seq<Ref>, below: seq<Ref>, first: nat)
    requires Numbered(m, adopted, first) && Numbered(m', below, first + |adopted|)
    requires forall x | x in adopted :: LogicalOf(m', x) == LogicalOf(m, x)
    ensures Numbered(m', below + adopted, first)
  {
    var all := below + adopted;
    forall i | 0 <= i < |all| ensures LogicalOf(m', all[i]) == first + (|all| - 1 - i) {
      if i >= |below| {
        assert all[i] == adopted[i - |below|];
      }
    }
  }

  lemma NumberedWindow(m: Memory, adopted: seq<Ref>, first: nat)
    requires Numbered(m, adopted, first)
    ensures forall x | x in adopted :: first <= LogicalOf(m, x) < first + |adopted|
  {
  }

  lemma {:induction false} TrailStays(m: Memory, m': Memory, adopted: seq<Ref>, below: seq<Ref>, r: Ref, next: int,
                                      since: int, q: seq<Ref>)
    requires AdoptsMore(m, m', adopted, below, r, next) && IsTrail(m', below + adopted, since, q) && q[0] !in below
    requires r in adopted ==> LogicalOf(m, r) < since
    ensures IsTrail(m, adopted, since, q)
  {
    if |q| > 1 {
      var last := |q| - 1;
      TrailStays(m, m', adopted, below, r, next, since, q[..last]);
      assert q[last - 1] == q[..last][last - 1];
      assert q[last] !in below && SameAt(m, m', q[last]);
      forall i | 0 <= i < |q| ensures q[i] in adopted && q[i] in m && LogicalOf(m, q[i]) >= since {
        assert i < last ==> q[i] == q[..last][i];
      }
      forall i | 0 <= i < |q| - 1 ensures RefersTo(m[q[i]], q[i + 1]) {
        assert SameAt(m, m', q[i]);
      }
    } else {
      assert SameAt(m, m', q[0]);
    }
  }

  lemma TrailGrows(m: Memory, m': Memory, adopted: seq<Ref>, below: seq<Ref>, r: Ref, next: int, since: int, q: seq<Ref>)
    requires AdoptsMore(m, m', adopted, below, r, next) && IsTrail(m, adopted, since, q)
    ensures IsTrail(m', below + adopted, since, q)
  {
    forall i | 0 <= i < |q| ensures SameAt(m, m', q[i]) {
    }
  }

  lemma BelowStays(m: Memory, m': Memory, adopted: seq<Ref>, below: seq<Ref>, r: Ref, next: int, since: int, p: Ref,
                   j: int, x: Ref)
    requires AdoptsMore(m, m', adopted, below, r, next) && SameAt(m, m', p)
    requires (forall y | y in below :: !Kin(m[p], j, y)) && (r in adopted ==> LogicalOf(m, r) < since)
    ensures Below(m', below + adopted, since, p, j, x) <==> Below(m, adopted, since, p, j, x)
  {
    hide AdoptsMore;
    if Below(m, adopted, since, p, j, x) {
      var q :| IsTrail(m, adopted, since, q) && Kin(m[p], j, q[0]) && q[|q| - 1] == x;
      TrailGrows(m, m', adopted, below, r, next, since, q);
    }
    if Below(m', below + adopted, since, p, j, x) {
      var q :| IsTrail(m', below + adopted, since, q) && Kin(m'[p], j, q[0]) && q[|q| - 1] == x;
      TrailStays(m, m', adopted, below, r, next, since, q);
    }
  }

  lemma BelowMoves(m: Memory, adopted: seq<Ref>, since: int, p: Ref, j: int, j': int, x: Ref)
    requires Below(m, adopted, since, p, j, x) && j' <= j
    ensures Below(m, adopted, since, p, j', x)
  {
    var q :| IsTrail(m, adopted, since, q) && Kin(m[p], j, q[0]) && q[|q| - 1] == x;
    assert Kin(m[p], j', q[0]);
  }

  lemma BelowIsAdopted(m: Memory, adopted: seq<Ref>, since: int, p: Ref, j: int, x: Ref)
    requires Below(m, adopted, since, p, j, x)
    ensures x in adopted && LogicalOf(m, x) >= since
  {
  }

  /** The order below an object that refers to nothing that is new stays. */
  lemma LaterFirstStays(m: Memory, m': Memory, adopted: seq<Ref>, below: seq<Ref>, r: Ref, next: int, since: int, p: Ref,
                        j0: int)
    requires AdoptsMore(m, m', adopted, below, r, next) && SameAt(m, m', p) && LaterFirst(m, adopted, since, p, j0)
    requires (forall y | y in below :: !Kin(m[p], j0, y)) && (r in adopted ==> LogicalOf(m, r) < since)
    ensures LaterFirst(m', below + adopted, since, p, j0)
  {
    hide AdoptsMore, Below;
    var all := below + adopted;
    forall j, y, x | j0 <= j && x in all && LogicalOf(m', x) >= since
      && Below(m', all, since, p, j, y) && !Below(m', all, since, p, j, x)
      ensures LogicalOf(m', y) < LogicalOf(m', x)
    {
      forall b | b in below ensures !Kin(m[p], j, b) {
      }
      BelowStays(m, m', adopted, below, r, next, since, p, j, y);
      BelowStays(m, m', adopted, below, r, next, since, p, j, x);
      BelowIsAdopted(m, adopted, since, p, j, y);
      WindowAt(m, m', adopted, below, r, next, y);
      WindowAt(m, m', adopted, below, r, next, x);
    }
  }

  lemma WindowAt(m: Memory, m': Memory, adopted: seq<Ref>, below: seq<Ref>, r: Ref, next: int, x: Ref)
    requires AdoptsMore(m, m', adopted, below, r, next)
    ensures x in adopted ==> LogicalOf(m', x) == LogicalOf(m, x) < next
    ensures x in below ==> LogicalOf(m', x) >= next
  {
    assert x in adopted ==> SameAt(m, m', x);
  }

  /** The order below an object adopted last is seen from what was adopted with it. */
  lemma BelowWindow(m: Memory, adopted: seq<Ref>, below: seq<Ref>, next: int, since: int, p: Ref, j: int, x: Ref)
    requires next <= since && forall y | y in adopted :: LogicalOf(m, y) < next
    ensures Below(m, below + adopted, since, p, j, x) <==> Below(m, below, since, p, j, x)
  {
    if Below(m, below, since, p, j, x) {
      var q :| IsTrail(m, below, since, q) && Kin(m[p], j, q[0]) && q[|q| - 1] == x;
      assert IsTrail(m, below + adopted, since, q);
    }
    if Below(m, below + adopted, since, p, j, x) {
      var q :| IsTrail(m, below + adopted, since, q) && Kin(m[p], j, q[0]) && q[|q| - 1] == x;
      assert IsTrail(m, below, since, q);
    }
  }

  lemma LaterFirstWindow(m: Memory, adopted: seq<Ref>, below: seq<Ref>, next: int, since: int, p: Ref, j0: int)
    requires next <= since && (forall y | y in adopted :: LogicalOf(m, y) < next) && LaterFirst(m, below, since, p, j0)
    ensures LaterFirst(m, below + adopted, since, p, j0)
  {
    hide Below;
    var all := below + adopted;
    forall j, y, x | j0 <= j && x in all && LogicalOf(m, x) >= since
      && Below(m, all, since, p, j, y) && !Below(m, all, since, p, j, x)
      ensures LogicalOf(m, y) < LogicalOf(m, x)
    {
      BelowWindow(m, adopted, below, next, since, p, j, y);
      BelowWindow(m, adopted, below, next, since, p, j, x);
      assert x in below;
    }
  }

  lemma EachStaysInOrder(m: Memory, m': Memory, adopted: seq<Ref>, below: seq<Ref>, r: Ref, c: Ref, next: int, first: int)
    requires AdoptsMore(m, m', adopted, below, r, next) && EachInOrder(m, adopted, r)
    requires forall p | p in below :: LaterFirst(m', below, LogicalOf(m', p) + 1, p, -1)
    requires r in adopted ==> LogicalOf(m, r) == first
    requires forall p | p in adopted && p != r :: LogicalOf(m, p) >= first
    ensures EachInOrder(m', below + adopted, r)
  {
    hide LaterFirst;
    forall p | p in below + adopted && p != r ensures LaterFirst(m', below + adopted, LogicalOf(m', p) + 1, p, -1) {
      WindowAt(m, m', adopted, below, r, next, p);
      if p in below {
        forall y | y in adopted ensures LogicalOf(m', y) < next {
          WindowAt(m, m', adopted, below, r, next, y);
        }
        LaterFirstWindow(m', adopted, below, next, LogicalOf(m', p) + 1, p, -1);
      } else {
        assert SameAt(m, m', p);
        forall y | y in below ensures !Kin(m[p], -1, y) {
          assert !RefersTo(m[p], y);
        }
        LaterFirstStays(m, m', adopted, below, r, next, LogicalOf(m, p) + 1, p, -1);
      }
    }
  }

  // ----- The walk goes on to a child of `r`

  lemma TrailFrom(m: Memory, adopted: seq<Ref>, below: seq<Ref>, since: int, next: int, c: Ref, q: seq<Ref>)
    requires c in m && c in below && LogicalOf(m, c) == next && since <= next
    requires IsTrail(m, below, next + 1, q) && Kin(m[c], -1, q[0])
    ensures IsTrail(m, below + adopted, since, [c] + q) && ([c] + q)[|q|] == q[|q| - 1] && ([c] + q)[0] == c
  {
    hide RefersTo, Kin;
    KinIsReferred(m[c], -1, q[0]);
    var p := [c] + q;
    forall i | 0 <= i < |p| - 1 ensures RefersTo(m[p[i]], p[i + 1]) {
      assert i > 0 ==> p[i] == q[i - 1] && p[i + 1] == q[i];
    }
  }

  /** Of a walk from `c` all is reached, `c` itself first. */
  lemma BelowChild(m: Memory, adopted: seq<Ref>, below: seq<Ref>, since: int, next: int, r: Ref, j: int, c: Ref, x: Ref)
    requires r in m && c in m && Kin(m[r], j, c) && c in below && LogicalOf(m, c) == next && since <= next
    requires x in below && (x == c || Below(m, below, next + 1, c, -1, x))
    ensures Below(m, below + adopted, since, r, j, x)
  {
    hide RefersTo, Kin;
    var all := below + adopted;
    if x == c {
      assert IsTrail(m, all, since, [c]);
    } else {
      var q :| IsTrail(m, below, next + 1, q) && Kin(m[c], -1, q[0]) && q[|q| - 1] == x;
      TrailFrom(m, adopted, below, since, next, c, q);
    }
  }

  lemma BelowGrows(m: Memory, m': Memory, adopted: seq<Ref>, below: seq<Ref>, r: Ref, next: int, since: int, p: Ref,
                   j: int, x: Ref)
    requires AdoptsMore(m, m', adopted, below, r, next) && SameAt(m, m', p) && Below(m, adopted, since, p, j, x)
    ensures Below(m', below + adopted, since, p, j, x)
  {
    var q :| IsTrail(m, adopted, since, q) && Kin(m[p], j, q[0]) && q[|q| - 1] == x;
    TrailGrows(m, m', adopted, below, r, next, since, q);
  }

  /** The law for one more reference is no more than that all was reached. */
  lemma LaterFirstOneMore(m: Memory, adopted: seq<Ref>, since: int, r: Ref, j: int)
    requires LaterFirst(m, adopted, since, r, j + 1) && AllBelow(m, adopted, since, r, j)
    requires r in adopted ==> LogicalOf(m, r) < since
    ensures LaterFirst(m, adopted, since, r, j)
  {
    hide Below;
  }

  /** The walk from `r` goes on to its child `c`, the reference `j` or the shape. */
  lemma WalkGoesOn(m: Memory, m': Memory, adopted: seq<Ref>, below: seq<Ref>, first: nat, r: Ref, j: int, c: Ref)
    requires WalkedInOrder(m, adopted, first, r, j + 1) && WalkedInOrder(m', below, first + |adopted|, c, -1)
    requires AdoptsMore(m, m', adopted, below, r, first + |adopted|) && Numbered(m, adopted, first)
    requires SameAt(m, m', r) && Kin(m[r], j, c) && c in below && c in m' && r !in below
    requires forall y | y in below :: !Kin(m[r], j + 1, y)
    ensures WalkedInOrder(m', below + adopted, first, r, j)
  {
    hide Below, LaterFirst, Kin, AdoptsMore;
    var all, since, next := below + adopted, After(m, adopted, first, r), first + |adopted|;
    NumberedWindow(m, adopted, first);
    WindowAt(m, m', adopted, below, r, next, r);
    forall p | p in below ensures LaterFirst(m', below, LogicalOf(m', p) + 1, p, -1) {
    }
    EachStaysInOrder(m, m', adopted, below, r, c, next, first);
    LaterFirstStays(m, m', adopted, below, r, next, since, r, j + 1);
    forall x | x in all && x != r ensures Below(m', all, since, r, j, x) {
      if x in below {
        KinStays(m, m', r, j, c);
        BelowChild(m', adopted, below, since, next, r, j, c, x);
      } else {
        BelowGrows(m, m', adopted, below, r, next, since, r, j + 1, x);
        BelowMoves(m', all, since, r, j + 1, j, x);
      }
    }
    LaterFirstOneMore(m', all, since, r, j);
  }

  lemma KinStays(m: Memory, m': Memory, r: Ref, j: int, c: Ref)
    requires SameAt(m, m', r) && Kin(m[r], j, c)
    ensures Kin(m'[r], j, c)
  {
  }

  /** A child that is passed by changes nothing. */
  lemma WalkSkips(m: Memory, adopted: seq<Ref>, first: nat, r: Ref, j: int, j': int)
    requires WalkedInOrder(m, adopted, first, r, j) && j - 1 <= j' <= j
    ensures WalkedInOrder(m, adopted, first, r, j')
  {
    hide Below, LaterFirst;
    var since := After(m, adopted, first, r);
    forall x | x in adopted && x != r ensures Below(m, adopted, since, r, j', x) {
      BelowMoves(m, adopted, since, r, j, j', x);
    }
    if j' < j {
      LaterFirstOneMore(m, adopted, since, r, j');
    }
  }

  /** A walk that has not gone anywhere yet. */
  lemma WalkBegins(m: Memory, first: nat, r: Ref, j: int)
    requires r in m && j == |m[r].storage.Links()|
    ensures WalkedInOrder(m, [], first, r, j)
    ensures LogicalOf(m, r) == first ==> WalkedInOrder(m, [r], first, r, j) && Numbered(m, [r], first)
  {
  }

  /** Below an object that the walk began at: it has the smallest address if it was adopted itself, and of two of its
      references that were adopted the later one has the smaller address, unless the earlier one is also reached from
      the references from the later one on. */
  lemma LaterReferenceFirst(m: Memory, adopted: seq<Ref>, first: nat, r: Ref, i: nat, j: nat)
    requires r in m && WalkedInOrder(m, adopted, first, r, -1) && Numbered(m, adopted, first)
    ensures r in adopted ==> LogicalOf(m, r) == first && forall x | x in adopted && x != r :: LogicalOf(m, x) > first
    ensures i < j < |m[r].storage.Links()| ==>
      var x, y := m[r].storage.Links()[i], m[r].storage.Links()[j];
      x in adopted && y in adopted && x != r && y != r && !Below(m, adopted, After(m, adopted, first, r), r, j, x) ==>
        LogicalOf(m, y) < LogicalOf(m, x)
  {
    hide Below;
    NumberedWindow(m, adopted, first);
    var since := After(m, adopted, first, r);
    forall x | x in adopted && x != r ensures LogicalOf(m, x) >= since {
      assert Below(m, adopted, since, r, -1, x);
      BelowIsAdopted(m, adopted, since, r, -1, x);
    }
    if i < j < |m[r].storage.Links()| {
      var y := m[r].storage.Links()[j];
      if y in adopted && y != r {
        AdoptedIsThere(m, adopted, since, r, -1, y);
        ReferenceIsBelow(m, adopted, since, r, j, y);
      }
    }
  }

  lemma AdoptedIsThere(m: Memory, adopted: seq<Ref>, since: int, p: Ref, j: int, x: Ref)
    requires Below(m, adopted, since, p, j, x)
    ensures x in m
  {
  }

  lemma ReferenceIsBelow(m: Memory, adopted: seq<Ref>, since: int, p: Ref, j: nat, y: Ref)
    requires p in m && j < |m[p].storage.Links()| && m[p].storage.Links()[j] == y
    requires y in adopted && y in m && LogicalOf(m, y) >= since
    ensures Below(m, adopted, since, p, j, y)
  {
    assert IsTrail(m, adopted, since, [y]) && Kin(m[p], j, [y][0]);
  }

  lemma TrailGoesOn(m: Memory, adopted: seq<Ref>, since: int, q: seq<Ref>)
    requires IsTrail(m, adopted, since, q)
    ensures |q| > 1 ==> q[1] in adopted && RefersTo(m[q[0]], q[1])
  {
  }

  /** If what is referred to from there on refers to nothing that was adopted, nothing else is reached. */
  lemma NothingFarther(m: Memory, adopted: seq<Ref>, since: int, p: Ref, j: nat, x: Ref)
    requires p in m && Below(m, adopted, since, p, j, x)
    requires forall c | c in m && c in adopted && Kin(m[p], j, c) :: forall z | z in adopted :: !RefersTo(m[c], z)
    ensures Kin(m[p], j, x)
  {
    var q :| IsTrail(m, adopted, since, q) && Kin(m[p], j, q[0]) && q[|q| - 1] == x;
    TrailGoesOn(m, adopted, since, q);
  }

  // ----- Several walks, one after the other

  /** The object is one of the first `n` from which the walks began, or is reached from one. */
  ghost predicate FromFirst(m: Memory, adopted: seq<Ref>, since: int, roots: seq<Ref>, n: nat, x: Ref) {
    exists k :: 0 <= k < n && k < |roots| && (x == roots[k] || Below(m, adopted, since, roots[k], -1, x))
  }

  /** What the walk from an object has adopted below it has higher addresses than all before, and is in order. */
  ghost predicate RootInOrder(m: Memory, adopted: seq<Ref>, first: int, roots: seq<Ref>, i: nat)
    requires i < |roots|
  {
    exists since: int :: since <= first + |adopted| && LaterFirst(m, adopted, since, roots[i], -1)
      && forall x | x in adopted :: LogicalOf(m, x) < since <==> x == roots[i] || FromFirst(m, adopted, first, roots, i, x)
  }

  /** The order in which the walks from several objects give addresses, from `first` on: objects reached from the first
      of them come first, and below each adopted object those reached from its later references. */
  ghost predicate ScanOrder(m: Memory, adopted: seq<Ref>, first: nat, roots: seq<Ref>, n: nat) {
    && n <= |roots| && Numbered(m, adopted, first)
    && (forall p | p in adopted :: LaterFirst(m, adopted, LogicalOf(m, p) + 1, p, -1))
    && (forall i | 0 <= i < n :: RootInOrder(m, adopted, first, roots, i))
    && forall x | x in adopted :: FromFirst(m, adopted, first, roots, n, x)
  }

  /** Nothing that is adopted now is one of the earlier objects, or referred to by one. */
  ghost predicate LeavesRoots(m: Memory, m': Memory, below: seq<Ref>, roots: seq<Ref>, n: nat) {
    forall k | 0 <= k < n && k < |roots| ::
      SameAt(m, m', roots[k]) && roots[k] !in below && forall y | y in below :: !RefersTo(m[roots[k]], y)
  }

  lemma NoScanYet(m: Memory, first: nat, roots: seq<Ref>)
    ensures ScanOrder(m, [], first, roots, 0)
  {
  }

  lemma KinIsReferred(o: Obj, j: int, c: Ref)
    requires Kin(o, j, c)
    ensures RefersTo(o, c)
  {
  }

  lemma BelowWidens(m: Memory, adopted: seq<Ref>, below: seq<Ref>, since: int, since': int, p: Ref, j: int, x: Ref)
    requires Below(m, below, since, p, j, x) && since' <= since
    ensures Below(m, below + adopted, since', p, j, x)
  {
    var q :| IsTrail(m, below, since, q) && Kin(m[p], j, q[0]) && q[|q| - 1] == x;
    assert IsTrail(m, below + adopted, since', q);
  }

  lemma RootBelowStays(m: Memory, m': Memory, adopted: seq<Ref>, below: seq<Ref>, c: Ref, next: int, since: int,
                       roots: seq<Ref>, n: nat, k: nat, x: Ref)
    requires AdoptsMore(m, m', adopted, below, c, next) && c !in adopted && LeavesRoots(m, m', below, roots, n)
    requires k < n && k < |roots|
    ensures Below(m', below + adopted, since, roots[k], -1, x) <==> Below(m, adopted, since, roots[k], -1, x)
  {
    hide Below, AdoptsMore, RefersTo;
    forall y | y in below ensures !Kin(m[roots[k]], -1, y) {
      if Kin(m[roots[k]], -1, y) {
        KinIsReferred(m[roots[k]], -1, y);
      }
    }
    BelowStays(m, m', adopted, below, c, next, since, roots[k], -1, x);
  }

  lemma FromFirstStays(m: Memory, m': Memory, adopted: seq<Ref>, below: seq<Ref>, c: Ref, next: int, since: int,
                       roots: seq<Ref>, n: nat, x: Ref)
    requires AdoptsMore(m, m', adopted, below, c, next) && c !in adopted && LeavesRoots(m, m', below, roots, n)
    ensures FromFirst(m', below + adopted, since, roots, n, x) <==> FromFirst(m, adopted, since, roots, n, x)
    ensures FromFirst(m', below + adopted, since, roots, n, x) ==> x !in below
  {
    hide Below, AdoptsMore, SameAt, RefersTo;
    forall k | 0 <= k < n && k < |roots|
      ensures Below(m', below + adopted, since, roots[k], -1, x) <==> Below(m, adopted, since, roots[k], -1, x)
      ensures Below(m, adopted, since, roots[k], -1, x) ==> x !in below
    {
      RootBelowStays(m, m', adopted, below, c, next, since, roots, n, k, x);
      if Below(m, adopted, since, roots[k], -1, x) {
        BelowIsAdopted(m, adopted, since, roots[k], -1, x);
        WindowAt(m, m', adopted, below, c, next, x);
      }
    }
  }

  lemma FewerLeft(m: Memory, m': Memory, below: seq<Ref>, roots: seq<Ref>, n: nat, i: nat)
    requires LeavesRoots(m, m', below, roots, n) && i <= n
    ensures LeavesRoots(m, m', below, roots, i)
  {
  }

  lemma RootStaysInOrder(m: Memory, m': Memory, adopted: seq<Ref>, below: seq<Ref>, c: Ref, first: nat,
                         roots: seq<Ref>, n: nat, i: nat)
    requires AdoptsMore(m, m', adopted, below, c, first + |adopted|) && c !in adopted && LeavesRoots(m, m', below, roots, n)
    requires i < n <= |roots| && RootInOrder(m, adopted, first, roots, i)
    ensures RootInOrder(m', below + adopted, first, roots, i)
  {
    hide AdoptsMore, FromFirst, LaterFirst, LeavesRoots;
    var all, next := below + adopted, first + |adopted|;
    var since: int :| since <= next && LaterFirst(m, adopted, since, roots[i], -1)
      && forall x | x in adopted :: LogicalOf(m, x) < since <==> x == roots[i] || FromFirst(m, adopted, first, roots, i, x);
    RootLeft(m, m', below, roots, n, i);
    LaterFirstStays(m, m', adopted, below, c, next, since, roots[i], -1);
    FewerLeft(m, m', below, roots, n, i);
    forall x | x in all
      ensures LogicalOf(m', x) < since <==> x == roots[i] || FromFirst(m', all, first, roots, i, x)
    {
      FromFirstStays(m, m', adopted, below, c, next, first, roots, i, x);
      WindowAt(m, m', adopted, below, c, next, x);
    }
  }

  lemma RootLeft(m: Memory, m': Memory, below: seq<Ref>, roots: seq<Ref>, n: nat, i: nat)
    requires LeavesRoots(m, m', below, roots, n) && i < n <= |roots|
    ensures SameAt(m, m', roots[i]) && roots[i] !in below && forall y | y in below :: !Kin(m[roots[i]], -1, y)
  {
    forall y | y in below ensures !Kin(m[roots[i]], -1, y) {
      if Kin(m[roots[i]], -1, y) {
        KinIsReferred(m[roots[i]], -1, y);
      }
    }
  }

  lemma NewRootInOrder(m: Memory, m': Memory, adopted: seq<Ref>, below: seq<Ref>, first: nat, roots: seq<Ref>, i: nat)
    requires i < |roots| && roots[i] !in adopted && LeavesRoots(m, m', below, roots, i)
    requires AdoptsMore(m, m', adopted, below, roots[i], first + |adopted|) && Numbered(m', below, first + |adopted|)
    requires WalkedInOrder(m', below, first + |adopted|, roots[i], -1)
    requires forall x | x in adopted :: FromFirst(m, adopted, first, roots, i, x)
    ensures RootInOrder(m', below + adopted, first, roots, i)
  {
    hide AdoptsMore, FromFirst, LaterFirst, LeavesRoots, Below;
    var all, next, c := below + adopted, first + |adopted|, roots[i];
    var since := After(m', below, next, c);
    NumberedWindow(m', below, next);
    forall y | y in adopted ensures LogicalOf(m', y) < next {
      WindowAt(m, m', adopted, below, c, next, y);
    }
    LaterFirstWindow(m', adopted, below, next, since, c, -1);
    forall x | x in all
      ensures LogicalOf(m', x) < since <==> x == c || FromFirst(m', all, first, roots, i, x)
    {
      FromFirstStays(m, m', adopted, below, c, next, first, roots, i, x);
      WindowAt(m, m', adopted, below, c, next, x);
      if x in below && x != c {
        BelowIsAdopted(m', below, since, c, -1, x);
      }
    }
  }

  /** The walk from the next object. */
  lemma ScanGoesOnInOrder(m: Memory, m': Memory, adopted: seq<Ref>, below: seq<Ref>, first: nat, roots: seq<Ref>, i: nat)
    requires ScanOrder(m, adopted, first, roots, i) && i < |roots| && roots[i] !in adopted
    requires WalkedInOrder(m', below, first + |adopted|, roots[i], -1) && Numbered(m', below, first + |adopted|)
    requires AdoptsMore(m, m', adopted, below, roots[i], first + |adopted|) && LeavesRoots(m, m', below, roots, i)
    ensures ScanOrder(m', below + adopted, first, roots, i + 1)
  {
    hide AdoptsMore, FromFirst, LaterFirst, LeavesRoots, Below, Numbered, RootInOrder;
    var all, next, c := below + adopted, first + |adopted|, roots[i];
    NumberedWindow(m, adopted, first);
    forall x | x in adopted ensures LogicalOf(m', x) == LogicalOf(m, x) {
      WindowAt(m, m', adopted, below, c, next, x);
    }
    NumberedThen(m, m', adopted, below, first);
    EachStaysInOrder(m, m', adopted, below, c, c, next, first);
    if c in below {
      LaterFirstWindow(m', adopted, below, next, next + 1, c, -1);
    }
    forall k | 0 <= k < i ensures RootInOrder(m', all, first, roots, k) {
      RootStaysInOrder(m, m', adopted, below, c, first, roots, i, k);
    }
    NewRootInOrder(m, m', adopted, below, first, roots, i);
    forall x | x in all ensures FromFirst(m', all, first, roots, i + 1, x) {
      if x in adopted {
        FromFirstStays(m, m', adopted, below, c, next, first, roots, i, x);
        FromMore(m', all, first, roots, i, x);
      } else {
        FromRoot(m', adopted, below, first, next, roots, i, x);
      }
    }
  }

  lemma FromMore(m: Memory, adopted: seq<Ref>, since: int, roots: seq<Ref>, n: nat, x: Ref)
    requires FromFirst(m, adopted, since, roots, n, x)
    ensures FromFirst(m, adopted, since, roots, n + 1, x)
  {
    hide Below;
  }

  lemma FromRoot(m: Memory, adopted: seq<Ref>, below: seq<Ref>, first: nat, next: int, roots: seq<Ref>, i: nat, x: Ref)
    requires i < |roots| && first <= next && x in below && AllBelow(m, below, After(m, below, next, roots[i]), roots[i], -1)
    ensures FromFirst(m, below + adopted, first, roots, i + 1, x)
  {
    hide Below;
    if x != roots[i] {
      BelowWidens(m, adopted, below, After(m, below, next, roots[i]), first, roots[i], -1, x);
    }
  }

  // ----- The order as it is seen later

  /** The objects refer to what they did, and are where they were. */
  ghost predicate SameGraph(m: Memory, m': Memory, xs: seq<Ref>) {
    forall x | x in xs :: x in m && x in m' && m'[x].logical == m[x].logical
      && m'[x].shape == m[x].shape && m'[x].storage.Links() == m[x].storage.Links()
  }

  lemma TrailLater(m: Memory, m': Memory, adopted: seq<Ref>, since: int, q: seq<Ref>)
    requires SameGraph(m, m', adopted) && IsTrail(m, adopted, since, q)
    ensures IsTrail(m', adopted, since, q)
  {
    forall i | 0 <= i < |q| ensures q[i] in m' && LogicalOf(m', q[i]) >= since {
      assert q[i] in adopted;
    }
    forall i | 0 <= i < |q| - 1 ensures RefersTo(m'[q[i]], q[i + 1]) {
      assert q[i] in adopted && RefersTo(m[q[i]], q[i + 1]);
    }
  }

  lemma SameBack(m: Memory, m': Memory, xs: seq<Ref>)
    requires SameGraph(m, m', xs)
    ensures SameGraph(m', m, xs)
  {
  }

  lemma BelowForth(m: Memory, m': Memory, adopted: seq<Ref>, since: int, p: Ref, j: int, x: Ref)
    requires SameGraph(m, m', adopted) && SameGraph(m, m', [p]) && Below(m, adopted, since, p, j, x)
    ensures Below(m', adopted, since, p, j, x)
  {
    hide SameGraph, RefersTo;
    SamePlace(m, m', p, j);
    var q :| IsTrail(m, adopted, since, q) && Kin(m[p], j, q[0]) && q[|q| - 1] == x;
    TrailLater(m, m', adopted, since, q);
  }

  lemma SamePlace(m: Memory, m': Memory, p: Ref, j: int)
    requires SameGraph(m, m', [p])
    ensures p in m && p in m' && forall c :: Kin(m'[p], j, c) <==> Kin(m[p], j, c)
  {
    assert p in [p];
  }

  lemma BelowLater(m: Memory, m': Memory, adopted: seq<Ref>, since: int, p: Ref, j: int, x: Ref)
    requires SameGraph(m, m', adopted) && SameGraph(m, m', [p])
    ensures Below(m', adopted, since, p, j, x) <==> Below(m, adopted, since, p, j, x)
  {
    hide SameGraph, Below;
    SameBack(m, m', adopted);
    SameBack(m, m', [p]);
    if Below(m, adopted, since, p, j, x) {
      BelowForth(m, m', adopted, since, p, j, x);
    }
    if Below(m', adopted, since, p, j, x) {
      BelowForth(m', m, adopted, since, p, j, x);
    }
  }

  lemma LaterFirstLater(m: Memory, m': Memory, adopted: seq<Ref>, since: int, p: Ref, j0: int)
    requires SameGraph(m, m', adopted) && SameGraph(m, m', [p]) && LaterFirst(m, adopted, since, p, j0)
    ensures LaterFirst(m', adopted, since, p, j0)
  {
    hide Below;
    forall j, y, x | j0 <= j && x in adopted && LogicalOf(m', x) >= since
      && Below(m', adopted, since, p, j, y) && !Below(m', adopted, since, p, j, x)
      ensures LogicalOf(m', y) < LogicalOf(m', x)
    {
      BelowLater(m, m', adopted, since, p, j, y);
      BelowLater(m, m', adopted, since, p, j, x);
      BelowIsAdopted(m, adopted, since, p, j, y);
    }
  }

  lemma FromFirstLater(m: Memory, m': Memory, adopted: seq<Ref>, since: int, roots: seq<Ref>, n: nat, x: Ref)
    requires SameGraph(m, m', adopted) && SameGraph(m, m', roots)
    ensures FromFirst(m', adopted, since, roots, n, x) <==> FromFirst(m, adopted, since, roots, n, x)
  {
    hide Below;
    forall k | 0 <= k < n && k < |roots|
      ensures Below(m', adopted, since, roots[k], -1, x) <==> Below(m, adopted, since, roots[k], -1, x)
    {
      BelowLater(m, m', adopted, since, roots[k], -1, x);
    }
  }

  lemma RootLater(m: Memory, m': Memory, adopted: seq<Ref>, first: int, roots: seq<Ref>, i: nat)
    requires SameGraph(m, m', adopted) && SameGraph(m, m', roots) && i < |roots| && RootInOrder(m, adopted, first, roots, i)
    ensures RootInOrder(m', adopted, first, roots, i)
  {
    hide FromFirst, LaterFirst;
    var since: int :| since <= first + |adopted| && LaterFirst(m, adopted, since, roots[i], -1)
      && forall x | x in adopted :: LogicalOf(m, x) < since <==> x == roots[i] || FromFirst(m, adopted, first, roots, i, x);
    LaterFirstLater(m, m', adopted, since, roots[i], -1);
    forall x | x in adopted
      ensures LogicalOf(m', x) < since <==> x == roots[i] || FromFirst(m', adopted, first, roots, i, x)
    {
      FromFirstLater(m, m', adopted, first, roots, i, x);
    }
  }

  lemma ScanOrderLater(m: Memory, m': Memory, adopted: seq<Ref>, first: nat, roots: seq<Ref>, n: nat)
    requires SameGraph(m, m', adopted) && SameGraph(m, m', roots) && ScanOrder(m, adopted, first, roots, n)
    ensures ScanOrder(m', adopted, first, roots, n)
  {
    hide FromFirst, LaterFirst, RootInOrder;
    forall p | p in adopted ensures LaterFirst(m', adopted, LogicalOf(m', p) + 1, p, -1) {
      LaterFirstLater(m, m', adopted, LogicalOf(m, p) + 1, p, -1);
    }
    forall i | 0 <= i < n ensures RootInOrder(m', adopted, first, roots, i) {
      RootLater(m, m', adopted, first, roots, i);
    }
    forall x | x in adopted ensures FromFirst(m', adopted, first, roots, n, x) {
      FromFirstLater(m, m', adopted, first, roots, n, x);
    }
  }
}

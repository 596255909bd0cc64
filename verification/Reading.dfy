/** How deep objects are read (obl/session.c, obl/storage/slotted.c), told on the file alone: which addresses a read set
    has whole objects at afterwards, and at which it has stubs. */
module Reading {
  import opened Words
  import opened Codec
  import opened RedBlack
  import opened Objects
  import opened World
  import Store

  type File = map<nat, Value>

  /** The addresses at which a session has whole objects, objects that were misread, and stubs. */
  datatype View = View(whole: set<Word>, misread: set<Word>, stubs: set<Word>)

  predicate Mapped(file: File, a: Word) {
    a in file && !IsFixedAddr(a)
  }

  /** An object comes in place of what was at its address. */
  function Arrived(v: View, a: Word): View {
    View(v.whole + {a}, v.misread - {a}, v.stubs - {a})
  }

  /** A request for an address: its references are read one less deep before it is entered itself; past the depth a
      stub is. What is more than a stub stays as it is. */
  function Fetch(file: File, v: View, a: Word, depth: int): View
    decreases if depth < 0 then 0 else depth, 0
  {
    if !Mapped(file, a) || a in v.whole + v.misread then v
    else if depth <= 0 then v.(stubs := v.stubs + {a})
    else Arrived(FetchAll(file, v, References(file[a]), depth - 1), a)
  }

  function FetchAll(file: File, v: View, addresses: seq<Word>, depth: int): View
    decreases if depth < 0 then 0 else depth, 1 + |addresses|
  {
    if addresses == [] then v
    else
      var last := |addresses| - 1;
      Fetch(file, FetchAll(file, v, addresses[..last], depth), addresses[last], depth)
  }

  // ----- Routes in the file

  /** Each address leads to the next by a reference. */
  predicate IsRoute(file: File, p: seq<Word>) {
    && p != [] && (forall i | 0 <= i < |p| :: Mapped(file, p[i]))
    && forall i | 0 <= i < |p| - 1 :: p[i + 1] in References(file[p[i]])
  }

  predicate Leads(file: File, p: seq<Word>, a: Word, x: Word) {
    IsRoute(file, p) && p[0] == a && p[|p| - 1] == x
  }

  /** Each address that is at most `n` references away from `a` is so on one route. */
  ghost predicate OneRoute(file: File, a: Word, n: nat) {
    forall p, q {:trigger IsRoute(file, p), IsRoute(file, q)} |
      IsRoute(file, p) && IsRoute(file, q) && p[0] == a == q[0] && |p| <= n + 1 && |q| <= n + 1
      && p[|p| - 1] == q[|q| - 1] :: p == q
  }

  /** The addresses fewer than `n` references away. */
  function Nearer(file: File, a: Word, n: nat): set<Word>
    decreases n, 0
  {
    if !Mapped(file, a) || n == 0 then {}
    else {a} + NearerAll(file, References(file[a]), n - 1)
  }

  function NearerAll(file: File, addresses: seq<Word>, n: nat): set<Word>
    decreases n, 1 + |addresses|
  {
    if addresses == [] then {}
    else NearerAll(file, addresses[..|addresses| - 1], n) + Nearer(file, addresses[|addresses| - 1], n)
  }

  /** The addresses `n` references away. */
  function AtEdge(file: File, a: Word, n: nat): set<Word>
    decreases n, 0
  {
    if !Mapped(file, a) then {}
    else if n == 0 then {a}
    else AtEdgeAll(file, References(file[a]), n - 1)
  }

  function AtEdgeAll(file: File, addresses: seq<Word>, n: nat): set<Word>
    decreases n, 1 + |addresses|
  {
    if addresses == [] then {}
    else AtEdgeAll(file, addresses[..|addresses| - 1], n) + AtEdge(file, addresses[|addresses| - 1], n)
  }

  lemma {:induction false} NearerAllIs(file: File, addresses: seq<Word>, n: nat, x: Word)
    ensures x in NearerAll(file, addresses, n) <==> exists i :: 0 <= i < |addresses| && x in Nearer(file, addresses[i], n)
    ensures x in AtEdgeAll(file, addresses, n) <==> exists i :: 0 <= i < |addresses| && x in AtEdge(file, addresses[i], n)
  {
    if addresses != [] {
      var last := |addresses| - 1;
      NearerAllIs(file, addresses[..last], n, x);
      forall i | 0 <= i < last ensures addresses[..last][i] == addresses[i] {
      }
    }
  }

  lemma RouteLonger(file: File, a: Word, p: seq<Word>)
    requires Mapped(file, a) && IsRoute(file, p) && p[0] in References(file[a])
    ensures IsRoute(file, [a] + p) && ([a] + p)[0] == a && ([a] + p)[|p|] == p[|p| - 1]
  {
  }

  lemma RouteShorter(file: File, p: seq<Word>)
    requires IsRoute(file, p) && |p| > 1
    ensures IsRoute(file, p[1..]) && p[1] in References(file[p[0]]) && p[1..][|p| - 2] == p[|p| - 1]
  {
  }

  /** What is near is so by a route. */
  lemma {:induction false} NearerByRoute(file: File, a: Word, n: nat, x: Word) returns (p: seq<Word>)
    requires x in Nearer(file, a, n)
    ensures Leads(file, p, a, x) && |p| <= n
    decreases n
  {
    if x == a {
      p := [a];
    } else {
      var refs := References(file[a]);
      NearerAllIs(file, refs, n - 1, x);
      var i :| 0 <= i < |refs| && x in Nearer(file, refs[i], n - 1);
      p := NearerByRoute(file, refs[i], n - 1, x);
      RouteLonger(file, a, p);
      p := [a] + p;
    }
  }

  lemma {:induction false} EdgeByRoute(file: File, a: Word, n: nat, x: Word) returns (p: seq<Word>)
    requires x in AtEdge(file, a, n)
    ensures Leads(file, p, a, x) && |p| == n + 1
    decreases n
  {
    if n == 0 {
      p := [a];
    } else {
      var refs := References(file[a]);
      NearerAllIs(file, refs, n - 1, x);
      var i :| 0 <= i < |refs| && x in AtEdge(file, refs[i], n - 1);
      p := EdgeByRoute(file, refs[i], n - 1, x);
      RouteLonger(file, a, p);
      p := [a] + p;
    }
  }

  lemma {:induction false} RouteIsNear(file: File, a: Word, n: nat, x: Word, p: seq<Word>)
    requires Leads(file, p, a, x) && |p| <= n + 1
    ensures |p| <= n ==> x in Nearer(file, a, n)
    ensures |p| == n + 1 ==> x in AtEdge(file, a, n)
    decreases n
  {
    if |p| > 1 {
      RouteShorter(file, p);
      var refs := References(file[a]);
      RouteIsNear(file, p[1], n - 1, x, p[1..]);
      var i :| 0 <= i < |refs| && refs[i] == p[1];
      NearerAllIs(file, refs, n - 1, x);
    }
  }

  lemma NearerIff(file: File, a: Word, n: nat, x: Word)
    ensures x in Nearer(file, a, n) <==> exists p :: Leads(file, p, a, x) && |p| <= n
    ensures x in AtEdge(file, a, n) <==> exists p :: Leads(file, p, a, x) && |p| == n + 1
  {
    if x in Nearer(file, a, n) {
      var p := NearerByRoute(file, a, n, x);
    }
    if x in AtEdge(file, a, n) {
      var p := EdgeByRoute(file, a, n, x);
    }
    forall p | Leads(file, p, a, x) && |p| <= n + 1
      ensures if |p| <= n then x in Nearer(file, a, n) else x in AtEdge(file, a, n)
    {
      RouteIsNear(file, a, n, x, p);
    }
  }

  // ----- What one route means for the references of an address

  lemma RouteBelow(file: File, a: Word, n: nat, i: nat)
    requires Mapped(file, a) && n > 0 && OneRoute(file, a, n) && i < |References(file[a])|
    ensures OneRoute(file, References(file[a])[i], n - 1)
  {
    var b := References(file[a])[i];
    forall p, q | IsRoute(file, p) && IsRoute(file, q) && p[0] == b == q[0] && |p| <= n && |q| <= n && p[|p| - 1] == q[|q| - 1]
      ensures p == q
    {
      RouteLonger(file, a, p);
      RouteLonger(file, a, q);
      assert [a] + p == [a] + q;
      assert p == ([a] + p)[1..] && q == ([a] + q)[1..];
    }
  }

  function Reach(file: File, a: Word, n: nat): set<Word> {
    Nearer(file, a, n) + AtEdge(file, a, n)
  }

  lemma ReachByRoute(file: File, a: Word, n: nat, x: Word) returns (p: seq<Word>)
    requires x in Reach(file, a, n)
    ensures Leads(file, p, a, x) && |p| <= n + 1
  {
    if x in Nearer(file, a, n) {
      p := NearerByRoute(file, a, n, x);
    } else {
      p := EdgeByRoute(file, a, n, x);
    }
  }

  lemma ReachesMeet(file: File, a: Word, n: nat, i: nat, j: nat, x: Word)
    requires Mapped(file, a) && n > 0 && OneRoute(file, a, n)
    requires i < |References(file[a])| && j < |References(file[a])|
    requires x in Reach(file, References(file[a])[i], n - 1) && x in Reach(file, References(file[a])[j], n - 1)
    ensures References(file[a])[i] == References(file[a])[j]
  {
    var refs := References(file[a]);
    var p := ReachByRoute(file, refs[i], n - 1, x);
    var q := ReachByRoute(file, refs[j], n - 1, x);
    RouteLonger(file, a, p);
    RouteLonger(file, a, q);
    assert [a] + p == [a] + q;
    assert ([a] + p)[1] == ([a] + q)[1];
  }

  /** No reference leads back. */
  lemma NoneLeadsBack(file: File, a: Word, n: nat, i: nat)
    requires Mapped(file, a) && n > 0 && OneRoute(file, a, n) && i < |References(file[a])|
    ensures a !in Reach(file, References(file[a])[i], n - 1)
  {
    if a in Reach(file, References(file[a])[i], n - 1) {
      var p := ReachByRoute(file, References(file[a])[i], n - 1, a);
      RouteLonger(file, a, p);
      assert IsRoute(file, [a]) && |[a]| != |[a] + p|;
    }
  }

  // ----- The depth law

  /** What a request does where each address is reached once, and nothing but stubs was there. */
  ghost predicate FetchedFresh(v: View, v': View, near: set<Word>, edge: set<Word>) {
    && v'.whole == v.whole + near && v'.misread == v.misread
    && v'.stubs == (v.stubs - near) + (edge - v.whole - v.misread)
  }

  lemma {:induction false} FetchIsFresh(file: File, v: View, a: Word, n: nat)
    requires OneRoute(file, a, n) && (v.whole + v.misread) !! Nearer(file, a, n)
    ensures FetchedFresh(v, Fetch(file, v, a, n), Nearer(file, a, n), AtEdge(file, a, n))
    decreases n, 0
  {
    if Mapped(file, a) && n > 0 {
      var refs := References(file[a]);
      FetchAllIsFresh(file, v, a, n, |refs|);
      assert refs[..|refs|] == refs;
      NearerAllIs(file, refs, n - 1, a);
      forall i | 0 <= i < |refs| ensures a !in Reach(file, refs[i], n - 1) {
        NoneLeadsBack(file, a, n, i);
      }
    }
  }

  lemma {:induction false} FetchAllIsFresh(file: File, v: View, a: Word, n: nat, m: nat)
    requires Mapped(file, a) && n > 0 && OneRoute(file, a, n) && m <= |References(file[a])|
    requires (v.whole + v.misread) !! Nearer(file, a, n)
    ensures var some := References(file[a])[..m];
      FetchedFresh(v, FetchAll(file, v, some, n - 1), NearerAll(file, some, n - 1), AtEdgeAll(file, some, n - 1))
    decreases n - 1, 1 + m
  {
    var refs := References(file[a]);
    if m > 0 {
      var b, before := refs[m - 1], refs[..m - 1];
      assert refs[..m][..m - 1] == before;
      FetchAllIsFresh(file, v, a, n, m - 1);
      var v1 := FetchAll(file, v, before, n - 1);
      if b in before {
        Again(file, v, before, b, n - 1);
      } else {
        RouteBelow(file, a, n, m - 1);
        ApartFromBefore(file, a, n, m);
        NearerWithin(file, a, n, m - 1);
        FetchIsFresh(file, v1, b, n - 1);
      }
    }
  }

  lemma NearerWithin(file: File, a: Word, n: nat, i: nat)
    requires Mapped(file, a) && n > 0 && i < |References(file[a])|
    ensures Nearer(file, References(file[a])[i], n - 1) <= Nearer(file, a, n)
  {
    var refs := References(file[a]);
    forall x | x in Nearer(file, refs[i], n - 1) ensures x in Nearer(file, a, n) {
      NearerAllIs(file, refs, n - 1, x);
    }
  }

  lemma ApartFromBefore(file: File, a: Word, n: nat, m: nat)
    requires Mapped(file, a) && n > 0 && OneRoute(file, a, n) && 0 < m <= |References(file[a])|
    requires References(file[a])[m - 1] !in References(file[a])[..m - 1]
    ensures var before, b := References(file[a])[..m - 1], References(file[a])[m - 1];
      Reach(file, b, n - 1) !! NearerAll(file, before, n - 1) + AtEdgeAll(file, before, n - 1)
  {
    var refs := References(file[a]);
    var before, b := refs[..m - 1], refs[m - 1];
    var d := n - 1;
    forall x: Word | x in Reach(file, b, d)
      ensures x !in NearerAll(file, before, d) && x !in AtEdgeAll(file, before, d)
    {
      NearerAllIs(file, before, d, x);
      forall i | 0 <= i < |before| ensures x !in Reach(file, before[i], d) {
        if x in Reach(file, before[i], d) {
          assert before[i] == refs[i];
          ReachesMeet(file, a, n, i, m - 1, x);
        }
      }
    }
  }

  /** A second reference to the same address changes nothing. */
  lemma Again(file: File, v: View, before: seq<Word>, b: Word, n: nat)
    requires b in before
    requires FetchedFresh(v, FetchAll(file, v, before, n), NearerAll(file, before, n), AtEdgeAll(file, before, n))
    ensures Fetch(file, FetchAll(file, v, before, n), b, n) == FetchAll(file, v, before, n)
    ensures Nearer(file, b, n) <= NearerAll(file, before, n) && AtEdge(file, b, n) <= AtEdgeAll(file, before, n)
  {
    var i :| 0 <= i < |before| && before[i] == b;
    forall x: Word
      ensures x in Nearer(file, b, n) ==> x in NearerAll(file, before, n)
      ensures x in AtEdge(file, b, n) ==> x in AtEdgeAll(file, before, n)
    {
      NearerAllIs(file, before, n, x);
    }
    var v1 := FetchAll(file, v, before, n);
    if Mapped(file, b) && n == 0 && b !in v1.whole + v1.misread {
      assert v1.stubs + {b} == v1.stubs;
    }
  }

  /** A session that has read nothing, asked for an address from which each address within the depth is on one route of
      references: it then has whole objects at exactly those fewer references away than the depth, stubs at exactly
      those as many away, and nothing farther. A route of as many references has one address more. */
  lemma DepthLaw(file: File, a: Word, depth: nat, x: Word)
    requires OneRoute(file, a, depth)
    ensures var v := Fetch(file, View({}, {}, {}), a, depth);
      && (x in v.whole <==> exists p :: Leads(file, p, a, x) && |p| <= depth)
      && (x in v.stubs <==> exists p :: Leads(file, p, a, x) && |p| == depth + 1)
      && v.misread == {}
  {
    FetchIsFresh(file, View({}, {}, {}), a, depth);
    NearerIff(file, a, depth, x);
  }

  /** Whatever the routes, and whatever the session had before: nothing comes in that is farther away than the depth,
      only what is as far becomes a stub, and what was more than a stub stays. */
  lemma {:induction false} DepthBounds(file: File, v: View, a: Word, depth: nat)
    requires v.whole !! v.misread
    ensures var v' := Fetch(file, v, a, depth);
      && v'.whole !! v'.misread && v.whole <= v'.whole <= v.whole + Nearer(file, a, depth) && v'.misread == v.misread
      && v'.stubs <= v.stubs + AtEdge(file, a, depth) && v.stubs <= v'.stubs + v'.whole
      && (Mapped(file, a) && depth > 0 ==> a in v'.whole + v'.misread)
      && (Mapped(file, a) ==> a in v'.whole + v'.misread + v'.stubs)
    decreases depth, 0
  {
    if Mapped(file, a) && depth > 0 && a !in v.whole + v.misread {
      DepthBoundsAll(file, v, References(file[a]), depth - 1);
    }
  }

  lemma {:induction false} DepthBoundsAll(file: File, v: View, addresses: seq<Word>, depth: nat)
    requires v.whole !! v.misread
    ensures var v' := FetchAll(file, v, addresses, depth);
      && v'.whole !! v'.misread && v.whole <= v'.whole <= v.whole + NearerAll(file, addresses, depth) && v'.misread == v.misread
      && v'.stubs <= v.stubs + AtEdgeAll(file, addresses, depth) && v.stubs <= v'.stubs + v'.whole
    decreases depth, 1 + |addresses|
  {
    if addresses != [] {
      var last := |addresses| - 1;
      DepthBoundsAll(file, v, addresses[..last], depth);
      DepthBounds(file, FetchAll(file, v, addresses[..last], depth), addresses[last], depth);
    }
  }

  // ----- Refreshing

  /** Reading the references of the file's header. */
  function FetchHeader(file: File, v: View, depth: int): View {
    Fetch(file, Fetch(file, v, Store.FIRST_PAGE, depth - 1), Store.ALLOCATOR_ADDR, depth - 1)
  }

  /** A refresh of what the read set has at an address: the references of a whole object are read. As written anything
      else is refreshed from the header; it is misread then, unless reading the header has put another in its place. */
  function Turn(file: File, v: View, k: Word, depth: int, corrected: bool): View {
    if k in v.whole then
      if k in file then FetchAll(file, v, References(file[k]), depth - 1) else v
    else if corrected || k !in v.misread + v.stubs then v
    else
      var v' := FetchHeader(file, v.(stubs := v.stubs - {k}), depth);
      if k in v'.whole + v'.stubs then v' else v'.(misread := v'.misread + {k})
  }

  /** The refreshes that a session does when it is told of these addresses. */
  function Turns(file: File, v: View, addresses: seq<Word>, depth: int, corrected: bool): View {
    if addresses == [] then v
    else
      var last := |addresses| - 1;
      Turn(file, Turns(file, v, addresses[..last], depth, corrected), addresses[last], depth, corrected)
  }

  /** The refreshes of an abort: under address zero is an object that is in no read set. */
  function Undo(file: File, v: View, k: Word, depth: int, corrected: bool): View {
    if k != UNASSIGNED then Turn(file, v, k, depth, corrected)
    else if corrected then v
    else FetchHeader(file, v, depth)
  }

  function UndoAll(file: File, v: View, entries: seq<(Key, Ref)>, depth: int, corrected: bool): View {
    if entries == [] then v
    else
      var last := |entries| - 1;
      Undo(file, UndoAll(file, v, entries[..last], depth, corrected), entries[last].0, depth, corrected)
  }

  /** What only reading can do: what is more than a stub stays. */
  ghost predicate Gains(v: View, v': View) {
    v.whole <= v'.whole && v'.whole !! v'.misread && v'.misread == v.misread
  }

  lemma {:induction false} FetchGains(file: File, v: View, a: Word, depth: int)
    requires v.whole !! v.misread
    ensures Gains(v, Fetch(file, v, a, depth))
    ensures Mapped(file, a) && depth > 0 ==> a in Fetch(file, v, a, depth).whole + v.misread
    decreases if depth < 0 then 0 else depth, 0
  {
    if Mapped(file, a) && depth > 0 && a !in v.whole + v.misread {
      FetchAllGains(file, v, References(file[a]), depth - 1);
    }
  }

  lemma {:induction false} FetchAllGains(file: File, v: View, addresses: seq<Word>, depth: int)
    requires v.whole !! v.misread
    ensures var v' := FetchAll(file, v, addresses, depth);
      && Gains(v, v')
      && (depth > 0 ==> forall a | a in addresses && Mapped(file, a) :: a in v'.whole + v.misread)
    decreases if depth < 0 then 0 else depth, 1 + |addresses|
  {
    if addresses != [] {
      var last := |addresses| - 1;
      FetchAllGains(file, v, addresses[..last], depth);
      FetchGains(file, FetchAll(file, v, addresses[..last], depth), addresses[last], depth);
    }
  }

  lemma TurnGains(file: File, v: View, k: Word, depth: int, corrected: bool)
    requires v.whole !! v.misread
    ensures var v' := Turn(file, v, k, depth, corrected);
      && v.whole <= v'.whole && v'.whole !! v'.misread && v.misread <= v'.misread <= v.misread + {k}
      && (k in v.whole ==> v'.misread == v.misread)
  {
    var v1 := v.(stubs := v.stubs - {k});
    FetchGains(file, v1, Store.FIRST_PAGE, depth - 1);
    FetchGains(file, Fetch(file, v1, Store.FIRST_PAGE, depth - 1), Store.ALLOCATOR_ADDR, depth - 1);
    if k in file {
      FetchAllGains(file, v, References(file[k]), depth - 1);
    }
  }

  lemma {:induction false} TurnsGain(file: File, v: View, addresses: seq<Word>, depth: int, corrected: bool)
    requires v.whole !! v.misread
    ensures var v' := Turns(file, v, addresses, depth, corrected);
      && v.whole <= v'.whole && v'.whole !! v'.misread
      && v.misread <= v'.misread && forall k | k in v'.misread :: k in v.misread || k in addresses
  {
    if addresses != [] {
      var last := |addresses| - 1;
      TurnsGain(file, v, addresses[..last], depth, corrected);
      TurnGains(file, Turns(file, v, addresses[..last], depth, corrected), addresses[last], depth, corrected);
    }
  }

  lemma {:induction false} TurnsLater(file: File, v: View, addresses: seq<Word>, i: nat, depth: int, corrected: bool)
    requires v.whole !! v.misread && i <= |addresses|
    ensures Turns(file, v, addresses[..i], depth, corrected).whole <= Turns(file, v, addresses, depth, corrected).whole
    ensures Turns(file, v, addresses[..i], depth, corrected).misread <= Turns(file, v, addresses, depth, corrected).misread
    decreases |addresses| - i
  {
    if i < |addresses| {
      assert addresses[..i + 1][..i] == addresses[..i];
      TurnsGain(file, v, addresses[..i], depth, corrected);
      TurnGains(file, Turns(file, v, addresses[..i], depth, corrected), addresses[i], depth, corrected);
      TurnsLater(file, v, addresses, i + 1, depth, corrected);
    } else {
      assert addresses[..i] == addresses;
    }
  }

  /** A stub is replaced by a whole object, and so is up to date in the end, if a whole object refers to it whose turn
      comes before its own. */
  lemma StubsAreResolved(file: File, v: View, addresses: seq<Word>, i: nat, k: Word, depth: int, corrected: bool)
    requires v.whole !! v.misread && i < |addresses| && depth > 1 && addresses[i] in v.whole && Mapped(file, k)
    requires addresses[i] in file && k in References(file[addresses[i]])
    requires k !in v.misread && k !in addresses[..i]
    ensures k in Turns(file, v, addresses, depth, corrected).whole
  {
    var before := Turns(file, v, addresses[..i], depth, corrected);
    TurnsGain(file, v, addresses[..i], depth, corrected);
    FetchAllGains(file, before, References(file[addresses[i]]), depth - 1);
    assert addresses[..i + 1][..i] == addresses[..i];
    TurnsLater(file, v, addresses, i + 1, depth, corrected);
  }

  /** As written a stub whose turn comes first is misread, for good, unless the header leads to it. */
  lemma StubsAreMisread(file: File, v: View, addresses: seq<Word>, j: nat, depth: int)
    requires v.whole !! v.misread && j < |addresses|
    requires var v1 := Turns(file, v, addresses[..j], depth, false); var k := addresses[j];
      && k in v1.stubs && k !in v1.whole
      && var v2 := FetchHeader(file, v1.(stubs := v1.stubs - {k}), depth); k !in v2.whole + v2.stubs
    ensures addresses[j] in Turns(file, v, addresses, depth, false).misread
  {
    assert addresses[..j + 1][..j] == addresses[..j];
    TurnsLater(file, v, addresses, j + 1, depth, false);
  }

  // ----- Sessions

  /** What a session has at each address, but for these stubs. */
  function Seen(w: World, s: nat, but: set<Ref>): View
    requires s < |w.sessions|
  {
    var c := Cache(w.sessions[s]);
    View(set k: Word | k in c && IsIntact(w, c[k]), set k: Word | k in c && IsMisread(w, c[k]),
         set k: Word | k in c && IsStub(w, c[k]) && c[k] !in but)
  }

  /** What is read within the depth has constants for shapes, which are read without touching the read set. As written
      that is so of all that is stored. */
  predicate Plain(file: File, a: Word, depth: int)
    decreases if depth < 0 then 0 else depth, 0
  {
    Mapped(file, a) && depth > 0 ==> PlainBelow(file, a, depth)
  }

  predicate PlainBelow(file: File, a: Word, depth: int)
    decreases if depth < 1 then 0 else depth - 1, 2
  {
    a in file && IsFixedAddr(ShapeWord(file[a])) && AllPlain(file, References(file[a]), depth - 1)
  }

  predicate AllPlain(file: File, addresses: seq<Word>, depth: int)
    decreases if depth < 0 then 0 else depth, 1
  {
    forall i | 0 <= i < |addresses| :: Plain(file, addresses[i], depth)
  }

  /** The read set has become what a request makes of it, and what it makes of it is known also when stubs that were
      there before are not counted: so a stub that was replaced is told from one that was not. */
  ghost predicate Fetched(w: World, w': World, s: nat, a: Word, depth: int) {
    && s < |w.sessions| == |w'.sessions|
    && (Plain(w.layout.disk, a, depth) ==>
          forall but {:trigger Seen(w, s, but)} {:trigger Seen(w', s, but)} | but <= w.memory.Keys ::
            Seen(w', s, but) == Fetch(w.layout.disk, Seen(w, s, but), a, depth))
  }

  ghost predicate FetchedAll(w: World, w': World, s: nat, addresses: seq<Word>, depth: int) {
    && s < |w.sessions| == |w'.sessions|
    && (AllPlain(w.layout.disk, addresses, depth) ==>
          forall but {:trigger Seen(w, s, but)} {:trigger Seen(w', s, but)} | but <= w.memory.Keys ::
            Seen(w', s, but) == FetchAll(w.layout.disk, Seen(w, s, but), addresses, depth))
  }

  /** The references of the value at an address were read. */
  ghost predicate FetchedBelow(w: World, w': World, s: nat, a: Word, depth: int) {
    && s < |w.sessions| == |w'.sessions| && a in w.layout.disk
    && (PlainBelow(w.layout.disk, a, depth) ==>
          forall but {:trigger Seen(w, s, but)} {:trigger Seen(w', s, but)} | but <= w.memory.Keys ::
            Seen(w', s, but) == FetchAll(w.layout.disk, Seen(w, s, but), References(w.layout.disk[a]), depth - 1))
  }

  lemma FetchedNone(w: World, s: nat, addresses: seq<Word>, depth: int)
    requires s < |w.sessions|
    ensures FetchedAll(w, w, s, addresses[..0], depth)
  {
  }

  lemma FetchedMore(w: World, w1: World, w2: World, s: nat, addresses: seq<Word>, i: nat, depth: int)
    requires i < |addresses| && FetchedAll(w, w1, s, addresses[..i], depth) && Fetched(w1, w2, s, addresses[i], depth)
    requires Extends(w, w1, s)
    ensures FetchedAll(w, w2, s, addresses[..i + 1], depth)
  {
    hide Seen, Plain, Contents;
    assert w.memory.Keys <= w1.memory.Keys && w1.layout == w.layout;
    var file, more := w.layout.disk, addresses[..i + 1];
    if AllPlain(file, more, depth) {
      forall j | 0 <= j < i ensures Plain(file, addresses[..i][j], depth) {
        assert addresses[..i][j] == more[j];
      }
      assert more[i] == addresses[i] && more[..i] == addresses[..i];
      forall but: set<Ref> | but <= w.memory.Keys ensures Seen(w2, s, but) == FetchAll(file, Seen(w, s, but), more, depth) {
        assert Seen(w1, s, but) == FetchAll(file, Seen(w, s, but), addresses[..i], depth);
      }
    }
  }

  /** A constant, what is not in the file, and what the session has as more than a stub, are not read. */
  lemma FetchedHere(w: World, s: nat, a: Word, depth: int)
    requires s < |w.sessions| && (IsFixedAddr(a) || a !in w.layout.disk || Live(w, s, a))
    requires a in Cache(w.sessions[s]) ==> Cache(w.sessions[s])[a] in w.memory
    ensures Fetched(w, w, s, a, depth)
  {
  }

  lemma NothingFetched(w: World, stale: Stale, s: nat, a: Word, depth: int)
    requires Held(w, stale) && s < |w.sessions| && (IsFixedAddr(a) || a !in w.layout.disk || Live(w, s, a))
    ensures Fetched(w, w, s, a, depth)
  {
    if a in Cache(w.sessions[s]) {
      EntryHeld(w, stale, s, a);
    }
    FetchedHere(w, s, a, depth);
  }

  lemma SeenEntered(w: World, s: nat, r: Ref, o: Obj, k: Sort, but: set<Ref>)
    requires s < |w.sessions| && r !in w.memory && EntriesIn(w, s, Cache(w.sessions[s])) && but <= w.memory.Keys
    requires Cache(Entered(w, s, r, o, k).sessions[s]) == Cache(w.sessions[s])[o.logical := r]
    requires !o.storage.MisreadStorage?
    ensures var v := Seen(w, s, but); var a := o.logical;
      Seen(Entered(w, s, r, o, k), s, but) ==
        if o.storage.StubStorage? then View(v.whole - {a}, v.misread - {a}, v.stubs + {a}) else Arrived(v, a)
  {
    hide Contents, Insert, IsIntact, IsMisread, IsStub;
    var w', c := Entered(w, s, r, o, k), Cache(w.sessions[s]);
    forall x | x in c
      ensures IsIntact(w', c[x]) == IsIntact(w, c[x]) && IsMisread(w', c[x]) == IsMisread(w, c[x])
      ensures IsStub(w', c[x]) == IsStub(w, c[x])
    {
      assert IsEntry(w, s, x, c[x]);
      SameClass(w, w', c[x]);
    }
    ClassOf(w', r, o);
  }

  lemma SameClass(w: World, w': World, x: Ref)
    requires x in w.memory && x in w'.memory && w'.memory[x].storage == w.memory[x].storage
    ensures IsIntact(w', x) == IsIntact(w, x) && IsMisread(w', x) == IsMisread(w, x) && IsStub(w', x) == IsStub(w, x)
  {
  }

  lemma ClassOf(w: World, x: Ref, o: Obj)
    requires x in w.memory && w.memory[x].storage == o.storage
    ensures IsIntact(w, x) == o.storage.Intact() && IsMisread(w, x) == o.storage.MisreadStorage?
    ensures IsStub(w, x) == o.storage.StubStorage?
  {
  }

  lemma FetchedEntered(w: World, stale: Stale, w1: World, s: nat, r: Ref, o: Obj, depth: int)
    requires Held(w, stale) && AllStored(w) && Held(w1, stale) && s < |w.sessions| == |w1.sessions|
    requires o.logical in w.sorts && !Live(w, s, o.logical) && !IsFixedAddr(o.logical) && Extends(w, w1, s)
    requires Enterable(w1, s, r, o, w.sorts[o.logical])
    requires Cache(Entered(w1, s, r, o, w.sorts[o.logical]).sessions[s]) == Cache(w1.sessions[s])[o.logical := r]
    requires if o.storage.StubStorage? then w1 == w && depth <= 0
      else depth > 0 && FetchedBelow(w, w1, s, o.logical, depth)
    ensures Fetched(w, Entered(w1, s, r, o, w.sorts[o.logical]), s, o.logical, depth)
  {
    hide Held, Contents, Insert, FetchAll, AllPlain, LinksIn, LinksOwn, Seen;
    SetsHeld(w1, stale, s);
    assert w.memory.Keys <= w1.memory.Keys;
    var w', a := Entered(w1, s, r, o, w.sorts[o.logical]), o.logical;
    forall but: set<Ref> | but <= w.memory.Keys && Plain(w.layout.disk, a, depth)
      ensures Seen(w', s, but) == Fetch(w.layout.disk, Seen(w, s, but), a, depth)
    {
      SeenEntered(w1, s, r, o, w.sorts[a], but);
      NotLiveUnseen(w, s, a, but);
    }
  }

  lemma NotLiveUnseen(w: World, s: nat, a: Word, but: set<Ref>)
    requires s < |w.sessions| && !Live(w, s, a)
    ensures a !in Seen(w, s, but).whole + Seen(w, s, but).misread
  {
  }

  lemma FetchedBelowIs(w: World, w2: World, w3: World, s: nat, a: Word, v: Value, depth: int)
    requires a in w.layout.disk && v == w.layout.disk[a] && |w.sessions| == |w2.sessions| && w2.layout == w.layout
    requires s < |w.sessions|
    requires (IsFixedAddr(ShapeWord(v)) ==> w2 == w) && FetchedAll(w2, w3, s, References(v), depth - 1)
    ensures FetchedBelow(w, w3, s, a, depth)
  {
    hide Seen, FetchAll, AllPlain;
  }

  /** All that is stored has a constant for its shape. */
  predicate PlainFile(file: File) {
    forall a | a in file :: IsFixedAddr(ShapeWord(file[a]))
  }

  lemma {:induction false} PlainFileIsPlain(file: File, a: Word, depth: int)
    requires PlainFile(file)
    ensures Plain(file, a, depth) && (a in file ==> PlainBelow(file, a, depth))
    decreases if depth < 0 then 0 else depth, if depth > 0 then 1 else 0
  {
    if a in file {
      forall i | 0 <= i < |References(file[a])| ensures Plain(file, References(file[a])[i], depth - 1) {
        if depth > 0 {
          PlainFileIsPlain(file, References(file[a])[i], depth - 1);
        }
      }
    }
  }

  lemma SeenStays(w: World, w': World, s: nat, but: set<Ref>)
    requires s < |w.sessions| && s < |w'.sessions| && w'.sessions[s].readSet == w.sessions[s].readSet
    requires forall k | k in Cache(w.sessions[s]) ::
      var x := Cache(w.sessions[s])[k];
      && IsStub(w', x) == IsStub(w, x) && IsMisread(w', x) == IsMisread(w, x) && IsIntact(w', x) == IsIntact(w, x)
    ensures Seen(w', s, but) == Seen(w, s, but)
  {
    hide Contents, IsStub, IsMisread, IsIntact;
    assert Cache(w'.sessions[s]) == Cache(w.sessions[s]);
  }

  /** A session that had read nothing and is asked for an address has whole objects at exactly those addresses that are
      fewer references away than the depth, and stubs at exactly those that are as many away. */
  lemma ReachedIff(w: World, w': World, s: nat, a: Word, depth: nat, x: Word)
    requires Fetched(w, w', s, a, depth) && Plain(w.layout.disk, a, depth) && OneRoute(w.layout.disk, a, depth)
    requires Cache(w.sessions[s]) == map[] && EntriesIn(w', s, Cache(w'.sessions[s]))
    ensures var c := Cache(w'.sessions[s]);
      && (x in c && IsIntact(w', c[x]) <==> exists p :: Leads(w.layout.disk, p, a, x) && |p| <= depth)
      && (x in c && IsStub(w', c[x]) <==> exists p :: Leads(w.layout.disk, p, a, x) && |p| == depth + 1)
      && (x in c ==> exists p :: Leads(w.layout.disk, p, a, x) && |p| <= depth + 1)
  {
    hide Contents, Leads;
    assert Seen(w, s, {}) == View({}, {}, {});
    DepthLaw(w.layout.disk, a, depth, x);
    assert Seen(w', s, {}) == Fetch(w.layout.disk, View({}, {}, {}), a, depth);
    var c := Cache(w'.sessions[s]);
    if x in c {
      assert IsEntry(w', s, x, c[x]);
      assert x !in Seen(w', s, {}).misread;
    }
  }

  /** Without one route the first counts, also if it is the longer one: 4 leads to 5 and to 6, and 5 to 6. Asked for 4 a
      session reads 6 below 5, one reference less deep, and leaves a stub at 7, which is two references away from 4. */
  lemma FirstRouteCounts(file: File)
    requires file.Keys == {4, 5, 6, 7} && References(file[4]) == [5, 6] && References(file[5]) == [6]
    requires References(file[6]) == [7] && References(file[7]) == []
    ensures Fetch(file, View({}, {}, {}), 4, 3) == View({4, 5, 6}, {}, {7})
    ensures Leads(file, [4, 6, 7], 4, 7)
  {
    var v := View({}, {}, {});
    assert FetchAll(file, v, [], 0) == v && FetchAll(file, v, [7], 0) == View({}, {}, {7}) by {
      assert [7][..0] == [];
    }
    assert Fetch(file, v, 6, 1) == View({6}, {}, {7});
    assert FetchAll(file, v, [6], 1) == View({6}, {}, {7}) by {
      assert [6][..0] == [] && FetchAll(file, v, [], 1) == v;
    }
    assert Fetch(file, v, 5, 2) == View({5, 6}, {}, {7});
    assert FetchAll(file, v, [5, 6], 2) == View({5, 6}, {}, {7}) by {
      assert [5, 6][..1] == [5] && [5][..0] == [] && FetchAll(file, v, [], 2) == v;
    }
  }
}

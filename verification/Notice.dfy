/** Which addresses a commit tells the other sessions of, and in which order (obl/transaction.c, obl/session.c): the
    in-order traversal of its write set. */
module Notice {
  import opened Words
  import opened RedBlack
  import opened RedBlackInsert
  import opened Objects
  import Store

  type Listing = seq<(Key, Ref)>

  function KeysTo(entries: Listing, i: nat): set<Key> {
    set j | 0 <= j < i && j < |entries| :: entries[j].0
  }

  const COUNTERS: set<Key> := {Store.NEXT_PHYSICAL_ADDR, Store.NEXT_LOGICAL_ADDR}

  function CounterKeys(adopted: seq<Ref>): set<Key> {
    if adopted == [] then {} else COUNTERS
  }

  /** The addresses that a commit has written: what changed, and with any allocation the counters. */
  function ChangedKeys(changed: Listing, adopted: seq<Ref>): set<Key> {
    KeysTo(changed, |changed|) + CounterKeys(adopted)
  }

  function AddressesOf(entries: Listing): (r: seq<Key>)
    ensures |r| == |entries| && forall i | 0 <= i < |r| :: r[i] == entries[i].0
  {
    seq(|entries|, i requires 0 <= i < |entries| => entries[i].0)
  }

  /** One of the entries is under address zero: the first. */
  function RootCount(entries: Listing): (n: nat)
    ensures n <= |entries|
  {
    if entries != [] && entries[0].0 == UNASSIGNED then 1 else 0
  }

  /** The addresses of a change set as the other sessions learn of them: the counters are in the write set too once
      anything was allocated, behind an object that is entered under address zero. */
  function Notices(entries: Listing, changed: Listing, adopted: seq<Ref>): seq<Key>
    requires |entries| == |changed|
  {
    var counters: seq<Key> := if adopted == [] then [] else [Store.NEXT_PHYSICAL_ADDR, Store.NEXT_LOGICAL_ADDR];
    AddressesOf(changed[..RootCount(entries)]) + (counters + AddressesOf(changed[RootCount(entries)..]))
  }

  /** The addresses ascend strictly after what comes first, and are these. */
  ghost predicate NoticeOrder(notices: seq<Key>, keys: set<Key>, first: seq<Key>) {
    && first <= notices && (forall k | k in first :: k in keys)
    && (forall i, j | |first| <= i < j < |notices| :: notices[i] < notices[j])
    && forall k :: k in keys <==> k in notices[|first|..]
  }

  lemma NoticesAre(notices: seq<Key>, keys: set<Key>, first: seq<Key>)
    requires NoticeOrder(notices, keys, first)
    ensures forall k :: k in notices <==> k in keys
  {
    assert notices == first + notices[|first|..];
  }

  lemma AddressIn(entries: Listing, k: Key)
    ensures k in AddressesOf(entries) <==> exists i :: 0 <= i < |entries| && entries[i].0 == k
  {
    if k in AddressesOf(entries) {
      var i :| 0 <= i < |entries| && AddressesOf(entries)[i] == k;
      assert entries[i].0 == k;
    }
    forall i | 0 <= i < |entries| && entries[i].0 == k ensures k in AddressesOf(entries) {
      assert AddressesOf(entries)[i] == k;
    }
  }

  /** Of two addresses the smaller is told of first, unless the other is what comes before all. */
  lemma NoticedBefore(notices: seq<Key>, keys: set<Key>, first: seq<Key>, k: Key, b: Key) returns (i: nat)
    requires NoticeOrder(notices, keys, first) && k in keys && k < b && b !in first
    ensures i < |notices| && notices[i] == k && b !in notices[..i]
  {
    i :| |first| <= i < |notices| && notices[i] == k;
  }

  /** Entries of the write set in their order, each at its address, one of them perhaps also under zero. */
  ghost predicate AtTheirs(entries: Listing, changed: Listing) {
    && |entries| == |changed| && Ascending(entries)
    && (forall i | 0 <= i < |entries| && entries[i].0 != UNASSIGNED :: changed[i] == entries[i])
    && (forall i | 0 <= i < |changed| :: changed[i].0 > Store.NEXT_LOGICAL_ADDR)
    && (entries != [] ==> exists i :: 0 <= i < |entries| && entries[i].0 == changed[0].0)
  }

  lemma AscendsAt(entries: Listing, i: nat, j: nat)
    requires Ascending(entries) && i < j < |entries|
    ensures entries[i].0 < entries[j].0
  {
  }

  /** Address zero can only come first. */
  lemma HomeAt(entries: Listing, changed: Listing, i: nat)
    requires AtTheirs(entries, changed) && RootCount(entries) <= i < |entries|
    ensures changed[i] == entries[i] && changed[i].0 > Store.NEXT_LOGICAL_ADDR
  {
    if i > 0 {
      AscendsAt(entries, 0, i);
    }
  }

  function RestOf(entries: Listing, changed: Listing): (rest: seq<Key>)
    requires |entries| == |changed|
    ensures |rest| == |changed| - RootCount(entries)
    ensures forall i | 0 <= i < |rest| :: rest[i] == changed[RootCount(entries) + i].0
  {
    AddressesOf(changed[RootCount(entries)..])
  }

  lemma RestAscends(entries: Listing, changed: Listing, i: nat, j: nat)
    requires AtTheirs(entries, changed) && i < j < |changed| - RootCount(entries)
    ensures Store.NEXT_LOGICAL_ADDR < RestOf(entries, changed)[i] < RestOf(entries, changed)[j]
  {
    hide AtTheirs, RestOf;
    SameLength(entries, changed);
    var n := RootCount(entries);
    HomeAt(entries, changed, n + i);
    HomeAt(entries, changed, n + j);
    AscendsAt(entries, n + i, n + j);
  }

  lemma SameLength(entries: Listing, changed: Listing)
    requires AtTheirs(entries, changed)
    ensures |entries| == |changed| && Ascending(entries)
  {
  }

  /** Every address is in the rest: also that of the object that was entered under zero. */
  lemma RestHasAll(entries: Listing, changed: Listing, j: nat)
    requires AtTheirs(entries, changed) && j < |changed|
    ensures changed[j].0 in RestOf(entries, changed)
  {
    var n, rest := RootCount(entries), RestOf(entries, changed);
    if j >= n {
      assert rest[j - n] == changed[j].0;
    } else {
      var i :| 0 <= i < |entries| && entries[i].0 == changed[0].0;
      assert i >= n && changed[i] == entries[i] && rest[i - n] == changed[i].0;
    }
  }

  lemma KeysAre(entries: Listing, changed: Listing, k: Key)
    requires AtTheirs(entries, changed)
    ensures k in KeysTo(changed, |changed|) <==> k in RestOf(entries, changed)
  {
    hide AtTheirs;
    SameLength(entries, changed);
    if k in KeysTo(changed, |changed|) {
      var j :| 0 <= j < |changed| && changed[j].0 == k;
      RestHasAll(entries, changed, j);
    }
    if k in RestOf(entries, changed) {
      var i :| 0 <= i < |RestOf(entries, changed)| && RestOf(entries, changed)[i] == k;
    }
  }

  lemma TailAscends(entries: Listing, changed: Listing, counters: seq<Key>)
    requires AtTheirs(entries, changed)
    requires counters == [] || counters == [Store.NEXT_PHYSICAL_ADDR, Store.NEXT_LOGICAL_ADDR]
    ensures |entries| == |changed|
    ensures var tail := counters + RestOf(entries, changed); forall i, j | 0 <= i < j < |tail| :: tail[i] < tail[j]
  {
    hide AtTheirs, RestOf;
    SameLength(entries, changed);
    var rest := RestOf(entries, changed);
    var tail, n := counters + rest, |counters|;
    forall i, j | 0 <= i < j < |tail| ensures tail[i] < tail[j] {
      if n <= i {
        RestAscends(entries, changed, i - n, j - n);
      } else if n <= j {
        HomeAt(entries, changed, RootCount(entries) + (j - n));
      }
    }
  }

  lemma KeyIs(entries: Listing, changed: Listing, adopted: seq<Ref>, counters: seq<Key>, k: Key)
    requires AtTheirs(entries, changed)
    requires counters == if adopted == [] then [] else [Store.NEXT_PHYSICAL_ADDR, Store.NEXT_LOGICAL_ADDR]
    ensures |entries| == |changed|
    ensures k in ChangedKeys(changed, adopted) <==> k in counters + RestOf(entries, changed)
  {
    hide AtTheirs, RestOf;
    SameLength(entries, changed);
    KeysAre(entries, changed, k);
    assert k in counters <==> k in CounterKeys(adopted);
  }

  lemma InKeys(changed: Listing, adopted: seq<Ref>, k: Key)
    requires exists i :: 0 <= i < |changed| && changed[i].0 == k
    ensures k in ChangedKeys(changed, adopted)
  {
  }

  lemma OrderFrom(first: seq<Key>, tail: seq<Key>, keys: set<Key>)
    requires forall i, j | 0 <= i < j < |tail| :: tail[i] < tail[j]
    requires (forall k :: k in keys <==> k in tail) && forall k | k in first :: k in keys
    ensures NoticeOrder(first + tail, keys, first)
  {
    var all := first + tail;
    assert all[|first|..] == tail;
    forall i, j | |first| <= i < j < |all| ensures all[i] < all[j] {
      assert all[i] == tail[i - |first|] && all[j] == tail[j - |first|];
    }
  }

  lemma NoticesSplit(entries: Listing, changed: Listing, adopted: seq<Ref>, counters: seq<Key>)
    requires |entries| == |changed|
    requires counters == if adopted == [] then [] else [Store.NEXT_PHYSICAL_ADDR, Store.NEXT_LOGICAL_ADDR]
    ensures Notices(entries, changed, adopted) == AddressesOf(changed[..RootCount(entries)]) + (counters + RestOf(entries, changed))
  {
  }

  /** The notice goes first to the object that had no address when it was marked, and then up through the addresses. */
  lemma NoticesAscend(entries: Listing, changed: Listing, adopted: seq<Ref>)
    requires AtTheirs(entries, changed)
    ensures NoticeOrder(Notices(entries, changed, adopted), ChangedKeys(changed, adopted), AddressesOf(changed[..RootCount(entries)]))
  {
    hide AtTheirs, AddressesOf, RestOf, Ascending, NoticeOrder, ChangedKeys;
    SameLength(entries, changed);
    var counters: seq<Key> := if adopted == [] then [] else [Store.NEXT_PHYSICAL_ADDR, Store.NEXT_LOGICAL_ADDR];
    var first, rest := AddressesOf(changed[..RootCount(entries)]), RestOf(entries, changed);
    NoticesSplit(entries, changed, adopted, counters);
    TailAscends(entries, changed, counters);
    forall k ensures k in ChangedKeys(changed, adopted) <==> k in counters + rest {
      KeyIs(entries, changed, adopted, counters, k);
    }
    forall k | k in first ensures k in ChangedKeys(changed, adopted) {
      AddressIn(changed[..RootCount(entries)], k);
      InKeys(changed, adopted, k);
    }
    OrderFrom(first, counters + rest, ChangedKeys(changed, adopted));
  }
}

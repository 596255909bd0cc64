# ObjectLite, verified

ObjectLite keeps a graph of objects in one file of 32-bit words. An address map, a radix tree of pages in that same
file, leads each object's logical address to the words it occupies. Sessions cache objects by logical address in
red-black sets; transactions collect changed objects in another such set, and a commit gives addresses to everything
new that the changed objects reach, writes all of it, and refreshes the other sessions' copies.

The project models these parts and proves that the whole stands for a map from logical addresses to object values.

| part | files |
|---|---|
| the red-black set as a value, and what insertion, removal, runs of calls and the built-in check do | `RedBlack`, `RedBlackInsert`, `RedBlackRemove`, `RedBlackContents`, `RedBlackRuns` |
| the same set on linked nodes rewritten in place, and its two iterators | `SetNodes`, `ObjectSet`, `SetIterators` |
| the address map on a sequence of words | `AddressMap`, `AddressMapProofs` |
| object formats | `Codec` |
| the store: header, pages and objects in one sequence of words; bootstrap, runs, reopening | `Store`, `StoreRuns` |
| the store in place on one array | `Database` |
| objects and sessions in memory, and the invariant that ties them to the file | `Objects`, `World`, `FixedSpace`, `Ranks` |
| reading objects to a depth, with the read-set cache; how deep that is, told on the file alone | `ObjectBase`, `Reading` |
| the steps of transactions, each as a change of the world that keeps the invariant | `Changes`, `Closure`, `Renewal`, `Committing`, `Mutation` |
| the order in which a walk gives addresses, and that in which a commit tells of them | `WalkOrder`, `Notice` |
| where addresses come from: each session's copies of the allocator and its counters | `Allocation` |
| closure walk, commit, abort, notification, and the calls of a program | `Transactions`, `Programs` |
| objects marked before they have addresses; what reading frees; runs from an empty file | `Roots`, `Freeing`, `Steps`, `Runs` |

`Words` holds constants and small types.

## What the code does that its documentation does not say

These are facts about the code; the model keeps them, and the lemmas named here say exactly when they matter.

- Removal can lose keys. After a red sibling was rotated up (`obl/set.c:543-546`) and a nephew rotation follows, the
  rotated subtree is not stored below the node (`obl/set.c:556-574`). The tree stays a red-black tree;
  `RedBlackRuns.RemoveLosesExactly` names the lost keys, `RedBlackRuns.RemoveCorrectIff` says when none is lost,
  `RedBlackRuns.LossyIsReached` and `RedBlackRuns.RemoveForgetsExample` give six insertions and a removal that lose
  two keys, and `RedBlackRuns.RelinkedRunsAreMaps` proves the repaired step right over every run.
- Inserting a key that is there already can change colours all the way up, since a node whose children are both red is
  painted over on the way back whatever came back (`obl/set.c:438-442`): 1, 2, 3 and 1 again leave the set of 1, 2 and 3
  with one black level more (`RedBlackRuns.AgainGrows`). `RedBlackRuns.HeightChangesIff` says when a call changes what
  the check answers.
- `obl_set_verify` is documented to return 1 for a valid set (`obl/set.h:194`); it returns the black height, and it misses
  disorder between nodes that are not parent and child (`RedBlackRuns.CheckMissesFarDisorder`).
- A root of the address map that has grown is never written to the header (`obl/addressmap.c:118-120`), so after the
  file is opened again exactly the addresses below 256 are found where they were (`StoreRuns.ReopenFindsIff`); 253
  reservations from a bootstrap make a file that loses one (`StoreRuns.ReopenLoses`).
- A collection writes one word more than is reserved for it, and so does the empty string
  (`Codec.ReservationCoversIff`); collections also cannot be read back (`obl/storage/object.c:83`).
- Refreshing an object that has no physical address reads the header of the file, from word 0 on, and takes it for a
  shape (`obl/session.c:68-88`). That happens to every stub at an address that another session has changed
  (`obl/session.c:213-217`), and on abort to an object that was marked before it had an address. What a session has at
  a changed address is what the file has after its turn exactly if it was a whole object before
  (`Transactions.UpdateObject`); `Runs.MisreadStub` is a run that leaves a session with such a shape.
- The write set enters an object without an address under address zero, so a second one takes the place of the first,
  which the set deallocates (`obl/set.c:454-462`). A commit stores every object its transaction marked exactly if at
  most one of them had no address (`Roots.CommitStoresIff`); with two, the first is lost (`Roots.TwoRootsCollide`,
  and from an empty file `Runs.TwoRoots`).
- A session takes new addresses from its own copies of the allocator's counters (`obl/allocator.c:22-53`). Whole copies
  agree with the counters in the file in every session (`Allocation.CopyCounts`), so no address is given twice. But
  when a commit gives addresses, the stubs that other sessions have for the counters are refreshed like all others,
  from the header. What a session's allocator reads is the database's counter exactly if none of the copies it goes
  through was refreshed so, and else zero (`Allocation.ReadCounter`); `Runs.MisreadCounters` is a run to that. The next
  new object of such a session gets the address zero twice and is written over the header, which leaves no database
  (`Allocation.HeaderOverwritten`).
- An object is read as deep as the first route of references to it allows, not the shortest: an address that was
  reached below another is not read again (`Reading.FirstRouteCounts`). Where each address has one route, what is whole,
  what is a stub and what is not there is settled by the number of references (`Reading.DepthLaw`).
- A commit tells the other sessions of the addresses it has written in ascending order, but first of the object that was
  marked without an address. A stub at such an address is replaced by a whole object, and so ends as committed, if the
  session has a whole object at a smaller one that refers to it (`Programs.StubIsReplaced`); if its own turn comes while
  it is a stub, it is taken from the header for good, unless the header leads to it (`Reading.StubsAreMisread`).
- New objects get addresses in the order of the walk: an object, then what its last reference leads to, and its shape
  last of all (`WalkOrder.LaterReferenceFirst`, and from an empty file `Runs.LastSlotFirst`).
- The closure walk passes by a child that has a session, also if it has no address (`obl/transaction.c:260-263`). What
  refers to it is then written with the address zero (`Changes.SkippedIsZero`), which reads as nil. All that a commit
  writes can be read back exactly if no object it writes has such a child, other than the object that was marked
  without an address (`Committing.ReadableIff`); `Runs.SkippedChild` claims two objects, one referring to the other.
- A read set deallocates the stub or the copy that a newly read object replaces, while other objects may still refer to
  it. Reading a stub leaves it dangling exactly if something that is not freed refers to it
  (`Freeing.ResolvingDanglesIff`); what reading an address brings in refers to a freed copy of the object read exactly
  if it points back at the address in the file (`Freeing.ReadingDanglesIff`). Two objects that refer to each other are
  an input (`Freeing.CycleDangles`, and from an empty file `Runs.ReadCycle`); a commit that writes the second then takes
  the address from the freed copy.
- The closure walk does not look at the shapes of integers and strings (`obl/storage/object.c:129-143`). They are
  constants in every object the library creates, and the sorts of `Objects` require it.
- Reading restarts at depth three for every shape (`obl/storage/object.c:248`), so the depth does not bound it. Without
  the cache it ends for an address exactly if no shape it reads leads to a loop (`Ranks.AddressEndsIff`), and everywhere
  exactly if no address leads back to itself through at most two references and a shape (`Ranks.ReadingEndsIff`). Files
  with shapes as the library builds them have no such loop (`Ranks.FormedShapesEnd`); a shape that is named by its own
  instance is one (`Ranks.OwnInstanceNeverEnds`).
- Committing overwrites an uncommitted change of the same object in another session (`obl/session.c:204-220`); the
  object stays in that session's write set with the committed value.

`World.corrected` tells the code as written from code in which collections can be read, sizes cover what is written,
and a refresh leaves an object without a physical address alone. Every theorem holds for both. As written no collection
can be persisted and so no shape that has slot names of its own: what programs can store then are integers, strings
that are not empty, objects with the allocator's constant shape, and shapes without slot names.

## How to read the theorems

`Store.Inv` is the invariant of the file, `World.Held` that of memory and file, `ObjectBase.Valid` both together; every
method of `Programs`, `Transactions.CommitTransaction` and `Transactions.AbortTransaction` requires and ensures it, and
the constructors establish it. An object's *sort* is its storage, for a shape the storage of its instances, and a rank
that its shape's is below and its references' do not exceed. A *fringe* is any set of new objects, closed under their
new children, that bounds what a commit may adopt; its preconditions are that these objects can be stored and that the
file has room for them. *Stale* pairs are copies a commit has yet to refresh. An object is *claimed* when a program has set its
session before it has an address, which is the only way to store a first object (`obl/test/test_session.c:133-145`);
`Runs.ShareRoot` goes from an empty file to a stored root with its children and a second session that follows it. A
commit that gives addresses first reads the allocator and its counters; its contract speaks of the world after that.

How deep objects are read is told by `Reading.Fetch` on the file and on a *view*: the addresses at which a session has
whole objects, stubs, and objects taken from the header. `ObjectBase.Fault` ties each request to it where what is read
within the depth has constants for shapes, and `Programs.StoredIsPlain` says that as written all that is stored has.
What a commit gives addresses to is listed with the last adopted first.

The world keeps objects that the code has freed: where a contract speaks of an object that a session has at an address,
that object is not freed, and where it speaks of the references of an object, those may be (`Freeing`).

## Model

| member | source | states |
|---|---|---|
| RedBlackInsert.InsertCorrect | obl/set.c:233-244 | Insertion into any valid tree gives a valid tree whose map is the old one with the key updated |
| RedBlackInsert.InsertRContents | obl/set.c:428-467 | The recursion updates the map at exactly one key and keeps strict order, through every repair on the way back |
| RedBlackInsert.InsertRColors | obl/set.c:428-467 | The black height is kept; red above red can only be at the root of the subtree, with one child, and not if the root was black |
| RedBlackInsert.InsertRFlips | obl/set.c:428-467 | The colours that come back are read off the tree beforehand: red above two black children exactly where colours flip, black above two red ones exactly where a rotation follows, and everywhere else the node as it was with the new subtree |
| RedBlackInsert.RedChildrenFlip | obl/set.c:438-442 | A node with two red children comes back red with two black ones, whether or not the key was there |
| RedBlackInsert.InsertGrowsIff | obl/set.c:233-244 | Insertion raises the black height by one exactly if the flips reach the root, and else keeps it |
| RedBlackInsert.InsertRepairKeeps | obl/set.c:444-464 | Colour flips and both rotations keep the in-order sequence |
| RedBlackInsert.FindReadsContents | obl/set.c:469-479 | Lookup reads the map |
| RedBlackInsert.SameTraversal | obl/set.c:694-715 | Trees with the same in-order sequence have the same order and map, the reason rotations are safe |
| RedBlackRemove.SiblingPresent | obl/set.c:548 | The sibling of a subtree that is one black level short is never missing |
| RedBlackRemove.RemoveRColors | obl/set.c:481-534 | Removal as written and relinked keeps colours and black heights; it is not done exactly when the whole way down was black with black siblings and nephews, and then the result is one level short |
| RedBlackRemove.RemoveRTurns | obl/set.c:523-581 | Told from the tree beforehand: a node keeps all but the child on the path, unless that one is left short; then the red sibling, or the sibling of a red far nephew, or else a red near nephew comes up, in these colours, or the sibling turns red |
| RedBlackRemove.RemoveLowersIff | obl/set.c:260-266 | Removal lowers the black height by one exactly if the whole way down was black with black siblings and nephews, and else keeps it |
| RedBlackRemove.BalanceRedSibling | obl/set.c:536-581 | The red-sibling reduction with any second step restores the black height in both forms |
| RedBlackContents.HeirIsGreatest | obl/set.c:499-512 | The heir is the greatest key of the left subtree, so the swap keeps order around the duplicate |
| RedBlackContents.RemoveRContents | obl/set.c:481-534 | Removal keeps strict order and takes the key, and what the code forgets, out of the map |
| RedBlackContents.BalanceRelinkedKeeps | obl/set.c:536-581 | Rebalancing with the subtree linked back keeps the in-order sequence |
| RedBlackContents.BalanceUnlinked | obl/set.c:556-574 | Rebalancing as written is rebalancing with the link, but for the rotated subtree being replaced by its own near side |
| RedBlackContents.BalanceForgets | obl/set.c:556-574 | Rebalancing as written keeps order and loses exactly the root and the far side of the rotated subtree |
| RedBlackRuns.RemoveKeepsShape | obl/set.c:260-266 | Removal of any key from a valid tree gives a valid tree, as written and relinked |
| RedBlackRuns.RemoveRelinkedCorrect | obl/set.c:260-266 | With the subtree linked back, removal takes exactly its key out of the map |
| RedBlackRuns.RemoveLosesExactly | obl/set.c:556-574 | As written, the map loses the key and exactly the keys that can be read off the tree beforehand |
| RedBlackRuns.RemoveCorrectIff | obl/set.c:556-574 | As written, removal is right if and only if it stays off the branch that does not link the subtree back |
| RedBlackRuns.RemoveAbsent | obl/set.c:481-534 | Removing an absent key changes nothing, not even the shape |
| RedBlackRuns.RemoveForgetsExample | obl/set.c:556-574 | On one tree of six keys, removal of one loses two others |
| RedBlackRuns.LossyIsValid | obl/set.c:556-574 | That tree is a red-black tree |
| RedBlackRuns.LossyIsReached | obl/set.c:233-244 | Six insertions build that tree |
| RedBlackRuns.RunsAreSets | obl/set.c:233-266 | After every run of insertions and removals the tree is valid and holds no more than the map would |
| RedBlackRuns.RelinkedRunsAreMaps | obl/set.c:233-266 | With the subtree linked back, every run is a run of a map |
| RedBlackRuns.RunsAreMapsIff | obl/set.c:233-266 | As written, a run follows a map at every step if and only if no removal takes the losing branch |
| RedBlackRuns.LookupCost | obl/set.c:469-479 | In any valid tree of n keys a lookup compares at most 2 log2(n + 1) keys |
| RedBlackRuns.LookupIsLogarithmic | obl/set.c:469-479 | The bound for every tree that calls have built |
| RedBlackRuns.VerifyAcceptsIff | obl/set.c:364-409 | The check accepts exactly trees without red above red, balanced, and ordered between parents and children, and returns their black height |
| RedBlackRuns.SetsPassTheirCheck | obl/set.c:223-226 | Every tree that calls have built passes its check |
| RedBlackRuns.HeightChangesIff | obl/set.c:223-244 | What the check answers rises by one with an insertion exactly if the flips reach the root, and falls by one with a removal exactly if a shortage does |
| RedBlackRuns.AgainGrows | obl/set.c:438-442 | After 1, 2 and 3 were inserted the check answers 2, and 3 once 1 was inserted again; the map is the same |
| RedBlackRuns.CheckMissesFarDisorder | obl/set.c:364-409 | A disordered tree that passes the check |
| SetNodes.RotateSingle | obl/set.c:694-706 | The rotation in place is the rotation of the tree |
| SetNodes.RotateDouble | obl/set.c:708-715 | The double rotation in place is that of the tree |
| SetNodes.InsertR | obl/set.c:428-467 | The recursion on nodes is the recursion on trees, and gives up the object it replaces |
| SetNodes.RemoveBalance | obl/set.c:536-581 | Rebalancing on nodes is the rebalancing of the tree, as written |
| SetNodes.RemoveR | obl/set.c:481-534 | Removal on nodes is the removal of the tree, with the same flag |
| SetNodes.LookupR | obl/set.c:469-479 | The node found is the one the tree has |
| ObjectSet.ObjSet.Insert | obl/set.c:233-244 | The set's map is updated at the key; the object replaced is given up; the black height rises exactly if the flips reach the root |
| ObjectSet.ObjSet.Lookup | obl/set.c:246-252 | The object at the key, if any |
| ObjectSet.ObjSet.Remove | obl/set.c:260-266 | The map loses the key and what the code forgets, and is exact if and only if nothing is forgotten; the black height falls exactly if a shortage reaches the root |
| ObjectSet.ObjSet.Verify | obl/set.c:223-226 | The check answers with the black height, never zero |
| SetIterators.InorderIterator.Next | obl/set.c:583-635 | Each step yields the first pending entry and leaves the others pending; what is pending is read off the stack |
| SetIterators.InOrderObjects | obl/set.c:268-295 | The iterator yields every object once, in strictly ascending key order |
| SetIterators.DestroyingIterator.Next | obl/set.c:637-692 | Each step yields the next node in preorder, its children read before it is given up |
| SetIterators.PreOrderIsAPermutation | obl/set.c:637-692 | Preorder yields every entry once |
| AddressMap.RequiredHeightIsLeast | obl/addressmap.c:90-94 | The height loop finds the least height whose tree covers the address |
| AddressMap.DigitsDetermineAddress | obl/addressmap.c:198-205 | Addresses in range that take the same index path are equal |
| AddressMapProofs.AssignInCorrect | obl/addressmap.c:153-181 | Below a page, assignment leads the key to the value and every other address where it led; pages stay apart |
| AddressMapProofs.ChildCreated | obl/addressmap.c:207-226 | A page created on demand keeps the structure and changes no lookup |
| AddressMapProofs.GrowCorrect | obl/addressmap.c:101-121 | Growing the root keeps the structure and changes no lookup, also of addresses formerly out of range |
| AddressMapProofs.AssignCorrect | obl/addressmap.c:83-124 | Assignment changes the lookup of one address, keeps the page tree, and touches only pages and newly allocated words |
| AddressMapProofs.LookupIsWalk | obl/addressmap.c:63-81 | Lookup is the walk from the root, and nothing outside its range |
| Codec.ReservationCoversIff | obl/storage/object.c:168-201 | The words reserved cover the words written for all but collections and the empty string, which run one word over |
| Codec.WriteStores | obl/storage/object.c:274-296 | What is written is what a reader finds, for every kind of object, and nothing outside the object's words changes |
| Codec.PutUnitsAt | obl/storage/string.c:217-236 | The loop over units puts each in its half word, for even and odd lengths |
| Codec.OddStringKeepsLastHalf | obl/storage/string.c:217-236 | A string of odd length leaves the unused half of its last word alone |
| Codec.StoredOnce | obl/storage/object.c:239-268 | Words and kind determine the value read |
| Store.AdoptKeeps | obl/database.c:304-338 | Reserving words and an address for a new object disturbs nothing stored and keeps header, pages and objects apart |
| Store.WriteUpdates | obl/database.c:340-358 | Writing an object in its words updates the stored map at its address only |
| Store.ReadsBack | obl/storage/object.c:239-268 | The address map leads to words that read as the stored value and as no other of its kind |
| StoreRuns.BootAssigns | obl/database.c:663-670 | The three assignments of the bootstrap write three words of the first leaf |
| StoreRuns.BootedStands | obl/database.c:602-687 | The bootstrapped file satisfies the store invariant |
| StoreRuns.RunRepresents | obl/database.c:304-358 | After every run of reservations and writes from a bootstrap, the words stand for the same run on a map |
| StoreRuns.StoreHoldsObjects | obl/database.c:340-358 | After every such run, each object of that map lies where the address map leads its address |
| StoreRuns.StoreRefinesMap | obl/database.c:304-358 | What is read through the address map is what that map has and nothing else; an address leads somewhere exactly if it was reserved |
| StoreRuns.StubRefreshMisreads | obl/session.c:204-220 | In every reachable file word 0 leads to no object, and the words after it read as one and the same shape |
| StoreRuns.ReopenFindsIff | obl/database.c:689-697 | After reopening, an address is found where it was exactly if it is below 256 or was never mapped |
| StoreRuns.ReopenLoses | obl/addressmap.c:118-120 | After 253 reservations from a bootstrap address 256 leads to its words, and to nothing once the file was reopened |
| Database.Database.AddressLookup | obl/addressmap.c:63-81 | The recursion over the array returns the map's lookup |
| Database.Database.FindRequiredHeight | obl/addressmap.c:90-94 | The loop computes the required height |
| Database.Database.CreateTreepage | obl/addressmap.c:207-226 | A page with its header and empty slots in new words, nothing else changed |
| Database.Database.GrowRoot | obl/addressmap.c:101-115 | The loop stacks pages as the function on words does |
| Database.Database.AddressAssign | obl/addressmap.c:83-124 | The method on the array is assignment on words; the root counts as dirty if it moved |
| Database.Database.AssignAddresses | obl/database.c:304-338 | An object gets the next addresses, and the store invariant holds with its words reserved |
| Database.Database.WriteObject | obl/storage/object.c:274-296 | The dispatch writes what the function on words does, string units two to a word |
| Database.Database.StoreObject | obl/database.c:340-358 | The stored map changes at the object's address only |
| Database.Database.ReadObject | obl/storage/object.c:239-268 | Whatever is stored there is what comes back |
| Database.Database.WriteCounters | obl/allocator.c:22-53 | The counters are stored as they are |
| Database.Database.ReadHeaderWords | obl/database.c:602-687 | What an object at address zero would have for its words, in every database |
| Database.Database.constructor | obl/database.c:602-687 | The bootstrap, write by write, leaves a store with exactly the allocator and its counters |
| Objects.ReadIsWritten | obl/storage/slotted.c:142-178 | An object put together from a value, with references resolved, has that value again |
| Objects.WrittenIsTyped | obl/storage/object.c:274-296 | A well-formed object is written as a value that can be read by its shape exactly if all it refers to has an address by then |
| Ranks.TiersAreRanks | obl/storage/shape.c:48-94 | Files whose shapes are built as the library builds them have the ranks that reading needs, however cyclic their objects are |
| Ranks.AddressEndsIff | obl/storage/object.c:239-268 | Uncached reading of an address to a depth ends exactly if no shape that it reads, its own or one within the depth, leads to a loop |
| Ranks.ReadingEndsIff | obl/storage/object.c:239-268 | Uncached reading ends for every address and depth exactly if no address leads back to itself through at most two references and a shape |
| Ranks.LoopsNeverEnd | obl/storage/object.c:239-268 | Nothing on such a loop is read to the end with any number of nested reads |
| Ranks.FormedShapesEnd | obl/storage/shape.c:48-94 | Reading ends on every file whose shapes are built as the library builds them, however cyclic its objects are |
| Ranks.SortedFilesEnd | obl/session.c:161-202 | Reading ends on every file that calls have brought about |
| Ranks.OwnInstanceNeverEnds | obl/storage/object.c:239-268 | A shape that refers to its own instance: reading either never ends, and no ranks can be given |
| FixedSpace.FixedSpaceHolds | obl/database.c:370-461 | The constant objects satisfy the invariant |
| ObjectBase.ObjectBase.Fault | obl/session.c:161-202 | Reading ends on cyclic files; the result is the constant, the cached object unchanged, or, within the depth, a new object in the read set under its own address that is as the file has it, past the depth a new stub that carries exactly the address; an unmapped address is nil; all other objects and sessions are as before; what is new is a stub or as the file has it, and refers to constants, to what the session had in its read set unless that was a stub, and to new objects, nothing else; no entry at an address of higher rank is touched; the read set has become what the function on the file makes of it, level by level, and of its stubs the same ones are left |
| ObjectBase.ObjectBase.ReadObject | obl/storage/object.c:239-268 | The record read has the value stored at its address; its references are constants or records of the session at those addresses, none a stub if the depth allows another level, and each address has an entry; each reference was requested in turn, one level less deep |
| ObjectBase.ObjectBase.ReadLinks | obl/storage/slotted.c:142-162 | Each reference is requested in turn, one level less deep, and the read set is what that makes of it on the file; past the depth nothing but stubs is added to memory |
| Reading.DepthLaw | obl/session.c:161-202 | Of a session that has read nothing, where each address within the depth of one asked for is on one route of references: afterwards it has whole objects exactly at the addresses fewer references away than the depth, and stubs exactly at those as many away |
| Reading.ReachedIff | obl/session.c:161-202 | The same of the objects in a session's read set after a request, and that it has nothing farther away |
| Reading.DepthBounds | obl/session.c:161-202 | Whatever the routes and whatever was there before: nothing farther away than the depth comes in, only what is as far becomes a stub, what was whole stays, and what was asked for is there |
| Reading.FirstRouteCounts | obl/storage/slotted.c:142-162 | Four objects, one reached on two routes: it is read as deep as the longer one leaves, which comes first |
| Reading.NearerIff | obl/storage/slotted.c:142-162 | What the recursion over references collects at a distance is what a route of that length leads to |
| Reading.StubsAreResolved | obl/session.c:204-220 | In a series of refreshes a stub is replaced by a whole object if a whole object refers to it whose turn comes first |
| Reading.StubsAreMisread | obl/session.c:204-220 | As written a stub whose turn comes while it is one is misread in the end, unless reading the header leads to it |
| ObjectBase.ObjectBase.SlotCount | obl/storage/shape.c:118-127 | The count of slot names, a stub resolved first, is the number of slots of every instance |
| ObjectBase.ObjectBase.constructor | obl/database.c:98-172 | A new database with its constants and without sessions satisfies the invariant |
| World.EnteredHolds | obl/session.c:186-201 | Entering a read object or a stub keeps all agreements between memory, sessions and file, also when reading it brought in another copy |
| World.Assembled | obl/storage/object.c:239-268 | Shape and references read one after another still fit together at the end |
| World.SlotNames | obl/storage/shape.c:107-127 | A shape's slot names are a collection of the right length or a stub for one of lower rank |
| World.HeadersAreConstant | obl/storage/object.c:78-92 | As the code is written every stored object has a constant for its shape |
| Freeing.EnteringFrees | obl/set.c:454-462 | Entering an object frees exactly what the session had at its address |
| Freeing.FaultFrees | obl/session.c:161-202 | A request frees nothing that was there but stubs of its session, and the stub at its own address; what was freed stays so |
| Freeing.ResolvingDanglesIff | obl/storage/stub.c:46-55 | A stub that is read is left dangling exactly if something that is not freed refers to it |
| Freeing.ReadIsUnreferred | obl/session.c:186-201 | After an address was read, whatever refers to the session's object there refers to a freed one |
| Freeing.ReadingDanglesIff | obl/session.c:186-201 | An object that reading an address has brought in refers to a freed copy of the object read exactly if the file has the address among its references or as its shape |
| Freeing.CycleDangles | obl/session.c:161-202 | Of two stored objects that refer to each other, reading one leaves the other's reference at a freed copy of it |
| Closure.ChildrenSettle | obl/storage/object.c:321-324 | The children lists cover every reference an object writes |
| Closure.SettledIff | obl/transaction.c:252-269 | An object that was visited refers only to objects with addresses exactly if no child of it has a session and no address |
| Closure.SizeCovers | obl/storage/object.c:168-201 | The size reserved at adoption covers the words written |
| Closure.AdoptionHolds | obl/database.c:304-338 | Adopting an object keeps the invariant: what is stored refers to no object without an address |
| Closure.WalkedThen | obl/transaction.c:231-270 | Two walks in sequence adopt the concatenation, still without duplicates in objects or addresses |
| Closure.ChildVisited | obl/transaction.c:252-269 | After a child was visited, what was visited before it has no child without an address but those that have a session |
| Closure.VisitSettlesIff | obl/transaction.c:260-263 | What a walk visits is settled exactly if none of it has a child, other than the root, that had a session and no address beforehand |
| WalkOrder.LaterReferenceFirst | obl/transaction.c:231-270 | The object at which a walk begins gets the first address if it needs one, and of two of its references that got addresses the later one has the smaller, unless the earlier one is also reached from there through what was adopted |
| WalkOrder.WalkGoesOn | obl/transaction.c:254-269 | Going on to the next child keeps the order: below the walk's object and below each adopted one, what is reached from later references has smaller addresses than what is not |
| WalkOrder.ScanGoesOnInOrder | obl/transaction.c:110-118 | One more walk keeps the order of the walks: what the first objects of the write set lead to has smaller addresses than what only later ones lead to |
| Closure.ChildInOrder | obl/storage/object.c:298-308 | The list of children, appended to at its head, goes through the references from the last to the first and then to the shape, and the walk of a child extends the order so far |
| Transactions.Adopt | obl/database.c:304-338 | The object, claimed or not, has the session and two new addresses; nothing else changes |
| Transactions.Visit | obl/transaction.c:231-270 | The walk ends on cyclic graphs, adopts only objects of the fringe, each once with a new address: those without a session, and the root also if it was only claimed. It adopts anything exactly if the root or a child needs an address. Afterwards the root and all it adopted refer only to objects with addresses exactly if none of them has a child, other than the root, that had a session and no address. The addresses are the next ones, one by one, and what later references lead to comes before what only earlier ones do, with the shape at the end |
| Changes.CurrentAvoids | obl/transaction.c:231-270 | An object that is as stored refers to no object without an address |
| Changes.AdoptHolds | obl/database.c:304-338 | Giving an object addresses keeps every session's copies as the file has them |
| Changes.WrittenTypedIff | obl/storage/object.c:274-296 | A whole object is written as a value that its shape can read exactly if all it refers to has an address |
| Changes.SkippedIsZero | obl/storage/slotted.c:164-178 | A reference to an object without an address is written as the address zero |
| Changes.WriteHolds | obl/transaction.c:135-139 | Writing a changed object fits its words and makes it what the file has, and exactly the other sessions' copies out of date |
| Changes.RefreshHolds | obl/session.c:68-88 | Refreshing an object brings it up to date and disturbs no other |
| Changes.MisreadHolds | obl/session.c:68-88 | Refreshing an object without a physical address from the header disturbs no other |
| Changes.MisreadIsNotCurrent | obl/session.c:204-220 | What was read from the header is what the file has at no address |
| Changes.ClaimHolds | obl/test/test_session.c:133-138 | Setting the session of an object that has none keeps the invariant |
| Allocation.CopyCounts | obl/allocator.c:22-53 | In every session a whole copy of a counter has the count that the file has |
| Allocation.ReadCounter | obl/allocator.c:22-67 | What a session's allocator reads, through its slot and a stub there, is the database's counter exactly if neither its copy of the allocator, nor that of the counter, nor the object in the slot was refreshed from the header; otherwise it is zero |
| Allocation.LostStays | obl/allocator.c:55-67 | Reading neither loses a counter nor finds one again |
| Allocation.LoadCounters | obl/allocator.c:22-53 | A session that has not lost its counters reads both as the database has them, and has whole copies of them |
| Allocation.HeaderOverwritten | obl/storage/object.c:274-296 | What is left when any typed value was written at word zero is no database |
| Transactions.TakeCounters | obl/allocator.c:22-53 | Allocation goes on from what the session's copies say, which is where the database's counters are |
| Transactions.AllocatesAgain | obl/transaction.c:93-180 | A commit loses none of its session's counters |
| Committing.NotListed | obl/transaction.c:124-131 | Adopted objects come to the sets under addresses new to them |
| Committing.AllAreSettled | obl/transaction.c:110-118 | What was settled after the scan is settled when it is written |
| Committing.ReadableIff | obl/transaction.c:260-263 | All that a commit is about to write can be read back exactly if no object it writes has a child that had a session and no address, other than the object marked so |
| Committing.AllAreStored | obl/transaction.c:135-139 | After writing, every address in use has its object stored |
| Committing.NotifyGoesOn | obl/transaction.c:158-168 | Refreshing one session leaves the committed objects and the sessions done before it as they are |
| Committing.SparedSince | obl/session.c:204-220 | Of what other sessions have only what lies at the changed addresses may differ after the notice, shape, storage and all |
| Committing.ToldSince | obl/transaction.c:158-168 | Each other session saw, when its turn came, what it saw before the commit, and sees at the end what its refreshes made of that |
| Notice.NoticesAscend | obl/session.c:204-220 | The addresses come in strictly ascending order after the one of the object that was marked without an address, and are the changed ones and no others |
| Transactions.Scan | obl/transaction.c:110-118 | The scan goes over the write set as it is at the start, an object without an address first; it adopts something exactly if a marked object needs an address, itself or for a child, and settles everything exactly if nothing was skipped; the addresses are the next ones in the order of the walks |
| Transactions.Enlist | obl/transaction.c:124-131 | Adopted objects enter both sets, each under its address |
| Transactions.CountUp | obl/allocator.c:22-53 | The counters are in the file, and the session's copies of them have the new values |
| Transactions.WriteAll | obl/transaction.c:135-139 | Every object of the write set is what the file has; other addresses are as they were |
| Transactions.Persist | obl/transaction.c:93-151 | Up to the end of the transaction: the change set is what was marked, also without an address, and what was adopted, which had no session but for the object marked so; the session's objects keep their state, its read set gains exactly what was adopted, the rest of the file but the counters is as before, and no more words and addresses are spent than were set aside. The addresses to be told of ascend strictly after that of the object marked without one, and the new addresses are the next ones in the order of the walks |
| Transactions.NotifyOthers | obl/transaction.c:153-168 | What every other session has at a changed address is the committed value exactly if it is a whole object; as written no stub that was refreshed stays one; the committing session's objects, all that have no session and the file are untouched; of what other sessions have nothing but the objects at these addresses differs, and each session's refreshes were done in this order, each as deep as configured |
| Transactions.CommitTransaction | obl/transaction.c:93-180 | A commit gives addresses exactly if a marked object has none or refers to one without a session, and only then reads the counters. After it each object marked or adopted is in its session under its address and is what the file has, other sessions' whole copies are too, their objects keep their places and their read sets their objects, the session's objects have the state they had, all other stored objects but the counters are as before, the session can give addresses still, and the transaction is over. What other sessions have elsewhere, changed or not, and what has no address is as it was; the sessions were told in ascending order of the addresses, and each sees what refreshes in that order make of what it saw; the new addresses are the next ones in the order of the walks |
| Transactions.Refresh | obl/session.c:68-88 | The object has the stored value, read as deep as configured: its references are none of them stubs if that leaves another level, and the read set is what requesting them makes of it; only it and the read set changed |
| Transactions.Misread | obl/session.c:68-88 | An object without a physical address becomes a shape: its name is what the session has at the address in word 1, nil if that is unmapped, its slot names what it has for the allocator, its current shape nil and its format zero; the read set is what requesting these makes of it; only it and the read set changed |
| Transactions.RefreshObject | obl/session.c:68-88 | An object with words of its own has the stored value as deep as configured; one without becomes a shape as written, and stays in corrected code; the read set is as the function on the file says |
| Transactions.UpdateObject | obl/session.c:213-217 | What a session has at an address is what the file has after its turn exactly if it was a whole object before; as written anything else becomes a shape. It refreshes nothing but the object it finds there, as deep as configured |
| Transactions.UpdateObjects | obl/session.c:204-220 | After the turns of all changed addresses what the session has there, also what it had changed itself, is the committed value exactly if it is a whole object. It refreshes nothing but what the session had at one of them, each whole one as deep as configured, and the read set is what these turns, in this order, make of it |
| Transactions.AbortTransaction | obl/transaction.c:182-205 | The file is untouched, every object of the write set that had an address is what the file has, all others are as they were, and there is no transaction; an object without an address stays as it is in corrected code and becomes a shape as written. What was restored was read as deep as configured, and the read set is what the refreshes in preorder of the write set make of it |
| Renewal.RestoreEnds | obl/transaction.c:182-205 | A write set whose objects are all as the file has them can be dropped |
| Renewal.UpToDateStays | obl/session.c:204-220 | Refreshing one object, and what is read for it, leaves the others up to date |
| Mutation.PutHolds | obl/storage/slotted.c:99-128 | Storing in a slot keeps the invariant |
| Mutation.PutIsIsolated | obl/storage/slotted.c:99-128 | The slot holds the value; neither the file nor another object or session sees the change; exactly this address counts as changed |
| Mutation.CreateHolds | obl/storage/slotted.c:19-62 | A new object that no session has keeps the invariant |
| Programs.CreateSession | obl/session.c:19-46 | A session with an empty read set and no transaction |
| Programs.CreateObject | obl/storage/object.c:326-339 | A new object without session and addresses |
| Programs.ObjectAt | obl/session.c:55-66 | The object at any address, read as deep as configured, and the read set is what that depth makes of it on the file |
| Programs.ObjectAtDepth | obl/session.c:62-66 | The object at an address, read to a given depth, and the read set is what that depth makes of it on the file |
| Programs.ClaimObject | obl/test/test_session.c:133-138 | The object has the session; nothing else changes |
| Programs.MarkDirty | obl/transaction.c:74-91 | With a session and an open transaction the object is in its write set under its address, zero if it has none, and the object that was there before is freed; otherwise nothing happens |
| Programs.AskedAgain | obl/session.c:173-178 | A second request for a mapped address gives the same object and changes nothing |
| Programs.BeginTransaction | obl/transaction.c:207-229 | A transaction with an empty write set, or a refusal if there is one |
| Programs.PutSlot | obl/storage/slotted.c:122-125 | The object counts as changed before its slot changes |
| Programs.SlottedAtPut | obl/storage/slotted.c:99-128 | A wrong storage or index changes nothing; in a transaction no word of the file changes; without one the change is committed at once, with all that a commit states |
| Programs.CurrentIsInFile | obl/session.c:68-88 | An object that is as the file has it: its address leads to its words, and they read as the object is |
| Programs.UnchangedIsCurrent | obl/session.c:161-202 | What a session has and did not change is what the file has |
| Programs.FileIsClosed | obl/transaction.c:231-270 | Every reference in the file leads to a constant or to an object in the file |
| Programs.StoredIsPlain | obl/storage/object.c:78-92 | As written everything in the file has a constant for its shape, between any two calls |
| Programs.OthersAreLeftAlone | obl/session.c:204-220 | A commit leaves every object of another session as it was, also one with uncommitted changes, that has no address or one the commit has not written |
| Programs.StubIsReplaced | obl/session.c:204-220 | After a commit a session has the committed object, whole, where it had a stub, if it had a whole object at a smaller changed address that as committed refers to it |
| Roots.MarksKeptIff | obl/set.c:454-462 | A transaction keeps every object it marked exactly if at most one of them has no address |
| Roots.CommitStoresIff | obl/transaction.c:93-180 | A commit stores every object its transaction marked exactly if at most one of them had no address |
| Roots.TwoRootsCollide | obl/set.c:454-462 | Of two objects without addresses the second takes the place of the first, and only the second is stored |
| Steps.ReferredIsStored | obl/transaction.c:231-270 | What a stored object refers to and had no address before the commit is stored with it |
| Runs.ShareRoot | obl/test/test_session.c:182-226 | From an empty file a claimed root and its child are stored, a second session reads the root, and its copy follows when a new object is stored in the root without a transaction |
| Runs.MisreadStub | obl/session.c:204-220 | From an empty file, as written: a session that has a stub for an object that another session changes is left with a shape there that is not what the file has |
| Runs.MisreadCounters | obl/allocator.c:22-53 | From an empty file, as written: a session that has stubs for the counters when another stores its first objects reads zero for both, and neither is the database's counter |
| Runs.SkippedChild | obl/transaction.c:260-263 | From an empty file: a claimed child of a claimed root is passed by, and the root would be written with the address zero in its place, which its shape does not allow |
| Runs.TwoRoots | obl/set.c:454-462 | From an empty file: of two objects claimed and marked in one transaction the commit stores the second alone |
| Runs.ReadCycle | obl/session.c:161-202 | From an empty file: of two stored objects that refer to each other, the second as another session reads it refers to a freed copy of the first |
| Runs.LastSlotFirst | obl/transaction.c:231-270 | From an empty file: a new root with two new objects in its slots is stored at address 4, that in the last slot at 5, that in the first at 6, and the file has 6 and 5 for the root's slots |

## Left out

- Database.Database.AssignAddresses: the two tests for an address that is assigned already are not repeated; an object gets both addresses together.
- Transactions.Adopt: takes an object that may be persisted; as written that excludes collections and empty strings, whose words would overrun.
- Transactions.CountUp: while a commit gives addresses the counters advance in the database's fields, from where the session's copies stood, and reach the copies at the end.
- Transactions.Scan: the counters, which enter the write set when the first address is allocated, are entered after it.
- Transactions.CommitTransaction: room, objects that may be persisted, no claimed object in reach but the one that was marked so, and, if addresses are given, counters that are not lost, are preconditions; without the last two what is left is no database, or a file with references to nothing. The allocator is read before the scan, not at the first address.
- Transactions.Persist: the same.
- Roots.TwoRootsCollide: the second object does not refer to the first.
- ObjectBase.ObjectBase.constructor: as written, a stub depth of one is excluded, with which the header's words would be stubbed.
- ObjectBase.ObjectBase.Fault: does not go on reading when a shape header is corrupt or a collection cannot be read; the invariant excludes both. Past the depth it is asked for addresses in use only.
- Reading.ReachedIff: speaks of objects with constant shapes, which all stored ones are as the code is written (`Programs.StoredIsPlain`); shapes that are stored themselves are read three references deep first, and so add to the read set. So do the contracts on how deep `Fault`, `Refresh` and the notices read.
- Programs.CreateObject: stands for the creation functions of all storage kinds, whose own checks are not repeated.
- Programs.PutSlot: keeps to ranks, and writes no object that its session no longer has at its address, which the code has freed, and none of the allocator's.
- Programs.SlottedAtPut: the same.
- Programs.ClaimObject: claims only what can be persisted.
- Programs.ObjectAtDepth: past the depth it is asked for addresses in use only, as others would get stubs that lead nowhere.
- Programs.MarkDirty: marks no object that was misread or freed, and none of the allocator's.
- FixedSpace.FixedSpaceHolds: one empty string stands for all names of the constants and their slots.
- SetIterators.DestroyingIterator.Next: the freeing of nodes is not modelled.
- Objects and sessions are records in tables of one class, known by handles, instead of linked structures; what shares a pointer shares a handle. Their sets are values of the tree that `SetNodes` refines in place.
- What the code does with objects it has freed: the model keeps them as they were, and `Freeing` says which they are.
- `obl_integer_set` and `obl_fixed_at_put`: the same steps as writing a slot.
- Destroying sessions and objects, and removal from the session list.
- Growing the file and the content array: room is a precondition instead. Opening, closing, mapping, logging and printing.
- Semaphores and interleaving: each call is one step.
- Addresses from 2^24 on in the address map, counters from 2^31 on, and sets keyed by heap addresses.
- Chunks, characters, floats, doubles and booleans as stored objects, ICU conversion, `obl_string_value`, names of the constants, lookup of slots by name, and shape migration.
- The name and shape map words of the header, which nothing uses.

# Verified model of etdb's index, spatial queries and allocator structures

etdb is an in-memory database. Its keys live in a double-array trie, its spatial command
family is built on that trie with geohashes, and it ships jemalloc 3.6.0 as its allocator.
This project models the algorithms under these in Dafny, in the form they have in C, and
proves what they are for. `dafny verify dfyconfig.toml` checks all of it.

## What is modelled

* **The trie** (`Bits` to `Runs`). Class `Tries.Trie` has the three arrays and the three
  ring heads of the original and overwrites them step by step. Free slots are threaded
  through the node array as negative links, blocks move between an Open, a Closed and a Full
  ring, and a label that collides moves a whole family of siblings. Ghost state names the
  path of each slot; `Valid()` ties every slot, link, chain byte and ring to it. On top
  stands a finite map from byte strings to values, and every operation is proved against it,
  for single calls and for whole runs.
* **Geohash and spatial index** (`Geohash`, `Neighbors`, `Spatial`), the longest match of the
  key-value family (`KeyValue`), and the two families in one slot (`Heads`, `Families`): a slot
  is a map of records and a map of points that do not disturb each other. Coordinates are reals,
  which is exact for the midpoints involved. The two trie entries of each id are proved to
  stay in step, and the rectangle query is compared with a linear scan.
* **jemalloc.** `RedBlack`, `RbNodes`, `RbSteps`, `RbPrune`, `RbTree`: the left-leaning
  red-black tree with its path array. `RunMap`, `Arena`: the page map of arena chunks and
  its counters. `Cuckoo`: the hash table. `Extents`: the free-extent trees of the chunk
  pool. `Bitmaps`: the hierarchical bitmap. `Contexts`: the profile-context protocol, as a
  state machine whose steps are the critical sections of the locks. `Strays`: what failed
  insertions into its two kinds of hash table do to it. `Fates`: what dooms, removes and releases
  a context, and what its counts add up to.
* **The page cache** (`Lru`).

`Basics` holds what several of these share.

The main theorems are `Runs.Replay`, `Tries.Trie.Resolve`, `Tries.Trie.Erase`,
`Spatial.SpatialIndex.Rect`, `Contexts.RunSafe`, `Strays.RunIff`, `Contexts.LostStays`,
`Fates.MergeDooms`, `Fates.DestroyedAfterFailure`, `Fates.TotalRun`, `Families.Slot.KvMatchLongest`,
`RbTree.RbTree.Insert` and `Remove`, `Arenas.Arena.RunDalloc` and `RunAllocLarge`, `Arenas.StaysSuspect`,
`Cuckoo.Table.Insert`, `Extents.Pool.Recycle` and `Record`,
`Bitmaps.Bitmap.SetFirstUnset`, `Neighbors.OppositeUndoes` and `Lru.Replay`.

## Where the code does less than it seems to promise

* Erasing the only key with its first label while the root has children under all 255
  labels writes through a stale ring head and destroys the base of the root
  (`Tries.Trie.Erase` says exactly when, `Runs.LoseTheRoot` does it).
* A rectangle query whose cover commits no character searches with the full precision and a
  prefix of NUL bytes. It reports nothing; every rectangle that touches the equator or the prime
  meridian is of this kind (`Spatial.SpatialIndex.Rect` says exactly when the response is that
  of a scan, `Spatial.MissThePoint` is a run that misses a point).
* When the cuckoo table cannot grow at all, a failed insertion keeps the new item and loses one
  that was stored (`Cuckoo.Table.Insert`; `Cuckoo.LoseAnItem` does it). It fails only if the
  allocator refuses a size before there is one that the items cannot jam (`Cuckoo.Spacious`), never with a
  free cell in one of the two buckets nor where evictions go in no circle of full buckets, and
  must fail if it cannot grow and no item of the full bucket has another place.
* The profile contexts live in such tables, and the code frees a context or counter whose insertion
  failed. So a failed insertion that keeps the new entry leaves an entry that leads to freed memory,
  and drops the entry of a context or counter that is still in use. `Strays.LossIff` and
  `Strays.RunIff` say that exactly these steps break the invariant of the protocol;
  `Strays.FreedContextFound` and `Strays.FreedCounterUsed` are runs that use what was freed.
  `Contexts.RunSafe`, `LimboCovers`, `LostStays` and `DestroyAsserts` are about the runs without such
  a step. It cannot happen with room in one of the two buckets of the new entry, or with memory for
  each size up to one that the items cannot jam (`Strays.InsertContext`, `Strays.InsertCounter`).
* A lookup of a known profile context that runs out of memory never takes its increment of
  `nlimbo` back, so that the context stays for the rest of the run (`Contexts.LostStays`;
  `Contexts.LostHappens` is such a run, `Contexts.UnusedIff` the exact condition of the
  destroyer). With `opt_prof_accum` the destroyer's assertions on accumulated counts are wrong
  (`Contexts.AssertFails`).
* Without memory for a second node the space behind a recycled chunk is lost, exactly if space
  remains on both sides of it; the chunk itself is lost too if the system does not take it and there
  is no node for it either (`Extents.Pool.Recycle`, `Extents.LoseSpace`).
* Storing a record under a key that has one never frees the old one (`Families.Slot.KvSet`).
* A page whose read fails is cached all the same, with the contents of the page it displaced, and
  served so until it is displaced itself (`Lru.Replay`, `Lru.ServeStale`).

## Model

| member | source | states |
|---|---|---|
| Tries.Trie.constructor | src/store/etdb_trie.c:77-108 | a new trie satisfies the whole invariant and stands for the empty map |
| Tries.Trie.Update | src/store/etdb_trie.c:449-467 | for every key but the empty one the map gains exactly key := value and the old value (0 if there was none) comes back; the empty key answers -1 and changes nothing; the trie invariant survives |
| Tries.Trie.ExactMatchSearch | src/store/etdb_trie.c:510-521 | the value of the map, or NO_VALUE if the key is absent (or its stored value is the reserved NO_PATH) |
| Tries.Trie.MatchLongestSearch | src/store/etdb_trie.c:523-568 | value and byte length of the longest stored non-empty prefix of the query, else NO_PATH and an untouched length |
| Tries.Trie.Erase | src/store/etdb_trie.c:693-705 | the removed value, or -1 with nothing changed for an absent or reserved one; the invariant survives if and only if the erase is not one that empties a first label while all 255 are in use, and then exactly this key left the map |
| Tries.Trie.EraseImpl | src/store/etdb_trie.c:673-691 | the upward climb removes the key and nothing else and ends in a valid trie; in the one bad case it overwrites the base of the root |
| Tries.Trie.BreaksIff | src/store/etdb_trie.c:274-303 | the bad case of the climb is visible in the map alone: every first label in use, the key the only one with its own |
| Tries.Trie.FullIff | src/store/etdb_trie.c:77-108 | block 0 has no free slot exactly when the root has a child under every label but 0 |
| Runs.Replay | src/store/etdb_trie.c:449-705 | for every sequence of updates, erases and lookups without such an erase, each answer is that of a finite map and the final trie stands for the final map |
| Runs.Perform | src/store/etdb_trie.c:449-705 | one operation does to the trie what it does to the map, and answers the same |
| Runs.FullHouse | src/store/etdb_trie.c:274-303 | with all 255 one-byte keys stored, erasing any of them is such an erase |
| Runs.LoseTheRoot | src/store/etdb_trie.c:693-705 | the same as a concrete run from the empty trie: afterwards the invariant is false |
| Tries.Trie.CommonPrefixPathSearch | src/store/etdb_trie.c:652-671 | the output lists every stored strict extension of the prefix whose suffix has no NUL byte, each once, with its true suffix and value; the result is 1 if the prefix itself is stored, 0 if it is an inner node |
| Tries.Trie.CommonPrefixPathDfs | src/store/etdb_trie.c:616-650 | the same for the keys below any node, behind the bytes on the stack |
| Tries.Trie.ChildKeys | src/store/etdb_trie.c:616-650 | the part of the enumeration that starts with one child label |
| Listing.EnumeratesUnion | src/store/etdb_trie.c:616-650 | enumerations for disjoint sets of first bytes, one after the other, enumerate the union, still without repetition |
| Listing.DeeperListed | src/store/etdb_trie.c:616-650 | the keys going on with a byte are the key that ends there and those below it |
| Listing.AllHeads | src/store/etdb_trie.c:616-650 | every suffix starts with a byte whose first label is in the child chain |
| Tries.Trie.NumKeys | src/store/etdb_trie.c:723-732 | the number of slots equal to their parent's base is the number of keys in the map |
| Climbing.KeySlot | src/store/etdb_trie.c:723-732 | a slot passes that test exactly when it is a value slot |
| Tries.Trie.Find | src/store/etdb_trie.c:469-508 | the walk along the escaped bytes ends at the node of the extended path if that path exists, and otherwise reports NO_PATH; on the way it never follows a foreign check link |
| Tries.Trie.Hop | src/store/etdb_trie.c:469-508 | one label down exactly when the child exists |
| Views.StepExact | src/store/etdb_trie.c:58-74 | slot base xor label has check n if and only if the tree has that child, and then it is that child's slot |
| Keys.ReadEncode | src/store/etdb_trie.c:430-447 | reading an escaped key gives the key back, and no escaped key ends inside an escape |
| Keys.EncodeInjective | src/store/etdb_trie.c:430-447 | the byte escape (NUL to "%0", "%" to "%%") is injective |
| Keys.EncodeRead | src/store/etdb_trie.c:430-447 | whatever path reads as a key, or as a key with an open escape, is its escape |
| Keys.NoValueInEscape | src/store/etdb_trie.c:523-568 | no value sits in the middle of an escape, so the longest match is never cut there |
| Keys.LongestNext | src/store/etdb_trie.c:523-568 | how one more byte of the query changes the longest stored prefix |
| Keys.PathEnds | src/store/etdb_trie.c:523-568 | once the way down is missing no longer prefix is stored |
| Tries.Trie.UpdateEntry | src/store/etdb_trie.c:430-447 | one byte of a key becomes one or two labels; the map is the same afterwards |
| Tries.Trie.Follow | src/store/etdb_trie.c:415-428 | the child of the node under the label, created if need be: the tree gains exactly this path, every other path keeps its value and its labels, and the node itself is found again even if it was moved |
| Tries.Trie.Resolve | src/store/etdb_trie.c:356-413 | relocation is invisible: whichever family moves, also when it contains the node being extended, exactly one path is added, all paths and values stay, and the slot returned is that of the new path under the possibly moved node |
| Tries.Trie.MoveOne | src/store/etdb_trie.c:383-411 | one turn of the relocation loop keeps the moving tree, the runway of claimed slots and the allocator consistent |
| Tries.Trie.CarryChild | src/store/etdb_trie.c:387-399 | a child takes its new slot with base and chain, and all of its own children follow with their check |
| Relocating.MoveChild | src/store/etdb_trie.c:383-399 | the tree after that is the old one with the slot renamed, and is well formed |
| Relocating.GrandchildSlots | src/store/etdb_trie.c:373-399 | the slots whose parent is the moved node are exactly those of its chain, so redirecting the chain redirects all of them |
| Views.RelabelView | src/store/etdb_trie.c:383-399 | renaming a slot changes no path, value or chain |
| Tries.Trie.ReuseSlot | src/store/etdb_trie.c:400-411 | the slot left behind becomes the new child of the other node |
| Resolving.CarryTest | src/store/etdb_trie.c:387-399 | "base positive and not a terminal" says exactly that the moving child has children |
| Resolving.Conflict | src/store/etdb_trie.c:356-372 | the wanted slot belongs to a child of another node, and neither node is the root |
| Resolving.FollowQuest | src/store/etdb_trie.c:387-399 | when the very node that wants the new child is moved, it is followed to its new slot |
| Tries.Trie.ChooseFamily | src/store/etdb_trie.c:356-372 | the family to move and its labels in chain order, with the new label included when that family is the one that grows |
| Tries.Trie.Consult | src/store/etdb_trie.c:328-336 | non-zero if and only if the first chain is shorter |
| Tries.Trie.SetChild | src/store/etdb_trie.c:338-354 | the list of a chain, with the new label first but after label 0 |
| Tries.Trie.PushSibling | src/store/etdb_trie.c:305-316 | the child and sibling bytes written; label 0 stays first |
| Adding.AddOwnChain | src/store/etdb_trie.c:305-316 | after it the chain spells the old labels and the new one, each once |
| Tries.Trie.PopSibling | src/store/etdb_trie.c:318-326 | the pointer that led to the label now leads past it |
| Erasings.PopChain | src/store/etdb_trie.c:318-326 | after it the chain spells the other labels, in order |
| Climbing.ClimbedAll | src/store/etdb_trie.c:673-691 | the climb reaches a child of the root exactly when the key had its first label to itself |
| Climbing.KeyBelow | src/store/etdb_trie.c:673-691 | below every node there is a key, so no dead branch is left behind |
| Tries.Trie.PopEmptyNode | src/store/etdb_trie.c:244-272 | the slot asked for, or with a negative base a free slot outside block 0, leaves the free slots; all used slots keep their contents, the new one has the given parent; ring heads, counts and block states stay consistent |
| Tries.Trie.PushEmptyNode | src/store/etdb_trie.c:274-303 | the slot rejoins the free ring of its own block and the block its right list, nothing else changes; in a full block 0 the write through the stale ring head lands in the base of the root |
| FreeSlots.TakeSlot | src/store/etdb_trie.c:244-272 | taking a slot keeps every free ring doubly linked, inside its block and of the counted length |
| FreeSlots.GiveSlot | src/store/etdb_trie.c:274-303 | so does returning one |
| FreeSlots.AddPage | src/store/etdb_trie.c:157-185 | so does threading a fresh page of 256 slots |
| Tries.Trie.AddBlock | src/store/etdb_trie.c:157-185 | one more block, capacity doubled if need be; every slot below the old size keeps its contents and its freedom |
| Tries.Trie.Reallocate | src/store/etdb_trie.c:3-56 | capacity doubles and nothing below it changes |
| Tries.Trie.FindPlace | src/store/etdb_trie.c:197-208 | always a free slot outside block 0 |
| Tries.Trie.FindPlaceInterval | src/store/etdb_trie.c:210-242 | always a slot under which all the labels are free, outside block 0; blocks that failed moved to their right list |
| Tries.Trie.TransferBlock | src/store/etdb_trie.c:187-192 | the block leaves the ring it is on and heads the other; all others stay in order |
| Tries.Trie.PopBlock | src/store/etdb_trie.c:127-139 | the ring without this block |
| Tries.Trie.PushBlock | src/store/etdb_trie.c:141-155 | the ring with this block in front |
| Alloc.OnlyRing | src/store/etdb_trie.c:252-262 | a block other than 0 is on exactly the ring its free count and trial call for |
| Alloc.EmptyTest | src/store/etdb_trie.c:187-192 | the test that transfer makes says exactly that the target ring is empty; block 0 makes it work for the Full ring |
| Alloc.BlockMoved | src/store/etdb_trie.c:252-262 | the block state machine after a count or trial changed |
| Alloc.RoomForMore | src/store/etdb_trie.c:274-303 | a block that gets a slot back has fewer than 256 free ones |
| Bits.XorSameBlock | src/store/etdb_trie.c:58-74 | xor with a byte stays inside the 256-slot block |
| Views.BlockZero | src/store/etdb_trie.c:77-108 | block 0 holds the root and the children of the root, and nothing else |
| Geohash.Encode | src/etdb_geo_hash.c:69-114 | for every point on earth the buffer receives the code of the point at that place and nothing else changes; off earth nothing changes; precisions outside 1 to 12 count as 6 |
| Geohash.CodePrefix | src/etdb_geo_hash.c:69-114 | shorter codes are prefixes of longer ones |
| Geohash.PointInside | src/etdb_geo_hash.c:87-111 | the cell of a point's bits holds the point |
| Geohash.DecodeEncode | src/etdb_geo_hash.c:116-160 | the characters of a point's code read back as its bits, so the decoded box holds the point |
| Geohash.Decode | src/etdb_geo_hash.c:116-160 | the box of the bits that the characters stand for, with its centre; zeros for no code |
| Geohash.BitsOfCode | src/etdb_geo_hash.c:87-111 | reading back the characters of any bit string gives the bit string |
| Geohash.BitsOfInjective | src/etdb_geo_hash.c:9-10 | different codes of one length denote different bit strings |
| Geohash.CellGrid | src/etdb_geo_hash.c:87-111 | cells are the squares of a regular grid: column and row give the box |
| Geohash.DimensionsForPrecision | src/etdb_geo_hash.c:178-198 | for every precision the exact sides of every cell of that precision; zeros for precision 0 and below |
| Geohash.IndexForChar | src/etdb_geo_hash.c:33-46 | the first place of the character, or -1 if it is nowhere |
| Geohash.GetMaxCover | src/etdb_geo_hash.c:200-246 | the code written is that of the low corner, as long as no halving line of it touches the rectangle and no longer; with no character committed the precision is left as it was |
| Geohash.UncutShares | src/etdb_geo_hash.c:220-245 | without such a line all points of the rectangle share these bits |
| Geohash.CutDiffers | src/etdb_geo_hash.c:220-245 | with one, opposite corners get different codes or the line runs along an upper edge, so the cover could not be longer |
| Neighbors.GetNeighbor | src/etdb_geo_hash.c:48-67 | for any code length, away from the world border, the code of the cell one step away; the rest of the buffer is untouched |
| Neighbors.Carry | src/etdb_geo_hash.c:58-66 | the border tables say exactly when the step carries to the code before the last character |
| Neighbors.TableEntry | src/etdb_geo_hash.c:16-28 | each neighbour table holds a character at the place of the character it leads to |
| Neighbors.Lookup | src/etdb_geo_hash.c:63-64 | looking a character up in a table finds the one a step away, wrapping around |
| Neighbors.EdgeIsOutermost | src/etdb_geo_hash.c:30-31 | all characters are border characters exactly in the outermost row or column, where nothing lies beyond |
| Neighbors.OppositeUndoes | src/etdb_geo_hash.c:48-67 | the opposite step is always possible and leads back to this code only, for any length |
| Neighbors.NeighborBox | src/etdb_geo_hash.c:48-67 | the box moves by exactly its own height or width |
| Neighbors.CoordInjective | src/etdb_geo_hash.c:48-67 | a code is determined by its length and its column and row |
| Neighbors.AllNeighbors | src/etdb_geo_hash.c:162-176 | the eight buffers hold the codes at the eight offsets |
| Spatial.SpatialIndex.constructor | src/etdb_database.c:340-343 | an empty index |
| Spatial.SpatialIndex.Set | src/etdb_database.c:344-414 | for every point on earth the index maps the id to it, whether the id is new, moved or moved within its cell; otherwise -1 and no change; only entries of this id differ in the trie |
| Spatial.SpatialIndex.Get | src/etdb_database.c:416-429 | the stored point and the nine-character code of it, or -1 |
| Spatial.SpatialIndex.Del | src/etdb_database.c:431-449 | the id is gone, with both of its entries; -1 for an unknown id |
| Spatial.SpatialIndex.Rect | src/etdb_database.c:451-498 | the response names exactly the findable ids whose points are in the rectangle, each once and with the address stored under it; it is that of a linear scan if and only if every point of the scan is findable, and always if the cover commits a character and no id is empty or has a NUL byte; -1 if a corner is off earth |
| Spatial.AnswersScan | src/etdb_database.c:467-495 | a response with the findable ids answers the scan if and only if all of the scan is findable |
| Geohash.UncutIff | src/etdb_geo_hash.c:220-245 | whether the cover commits so many bits is told by the two corners: equal codes, and no line along an upper edge |
| Spatial.MiddleFindsNothing | src/etdb_geo_hash.c:229-237 | a rectangle that touches the equator or the prime meridian reports nothing, whatever it holds |
| Spatial.MissThePoint | src/etdb_database.c:451-498 | a run: one point is stored, a square of two degrees around it and the origin is queried, and the response is empty |
| Spatial.SpatialIndex.KeepInside | src/etdb_database.c:480-495 | the filter loop keeps the entries whose stored point is inside, cut down to the id |
| Spatial.OneIdChanged | src/etdb_database.c:344-449 | a change to the two entries of one id that leaves them in step leaves the whole index in step and changes the point of that id only |
| Spatial.NeverHarms | src/etdb_database.c:340-343 | an index never uses all first labels, so its erases are never the harmful kind |
| Spatial.RectAnswers | src/etdb_database.c:475-495 | an exact enumeration of the extensions of the cover, filtered, is the answer |
| KeyValue.MatchLongest | src/etdb_database.c:71-85 | on any trie: value and length of the longest entry under the head byte that is a prefix of the query, the empty key included; -1 exactly if there is none |
| KeyValue.LongestRecord | src/etdb_database.c:71-85 | what the longest match over the shared trie says about the family behind its head byte |
| Families.KeysApart | src/etdb_database.c:22-23 | no key of a record is an entry of the spatial index |
| Families.PointsOnly | src/etdb_database.c:344-449 | a change to the entries of a point leaves all records of the slot as they were |
| Families.RecordsOnly | src/etdb_database.c:25-69 | a change to the entry of a record leaves the spatial index in step and all its points as they were |
| Families.Slot.KvSet | src/etdb_database.c:25-43 | of the two maps of a slot, that of records gains key := value and that of points stays; a record stored there before stays allocated |
| Families.Slot.KvGet | src/etdb_database.c:45-57 | the record of the map, -1 exactly if there is none |
| Families.Slot.KvDel | src/etdb_database.c:59-69 | the map of records loses exactly this key, that of points stays; -1 exactly if there was none |
| Families.Slot.KvMatchLongest | src/etdb_database.c:71-85 | the longest prefix of the query in the map of records, whatever points the slot holds; -1 exactly if there is none |
| Families.Slot.SpSet | src/etdb_database.c:344-414 | setting a point changes the map of points as ever and leaves that of records |
| Families.Slot.SpDel | src/etdb_database.c:431-449 | so does deleting one |
| Families.Slot.constructor | src/etdb_database.c:1-20 | both maps are empty |
| Contexts.RunSafe | deps/jemalloc-3.6.0/src/prof.c:420-647 | in every run, however the threads interleave at the locks, in which no insertion into the table of contexts or into a thread cache fails and keeps the new entry, the invariant holds and no step goes through a context that was freed |
| Contexts.StepSafe | deps/jemalloc-3.6.0/src/prof.c:420-873 | each single step of lookup, link, merge, destroy, sampling, freeing and dumping, and each failed insertion that drops its own entry, touches allocated contexts only and keeps the invariant |
| Strays.LossIff | deps/jemalloc-3.6.0/src/prof.c:516-647 | a step that is possible in a sound state goes through allocated contexts only, and leaves a sound state if and only if it is not a failed insertion that keeps the new entry and drops another one |
| Strays.RunIff | deps/jemalloc-3.6.0/src/prof.c:420-873 | so a run is sound up to a point if and only if it has no such step before it |
| Strays.EntryLeft | deps/jemalloc-3.6.0/src/prof.c:531-551 | after such an insertion the table leads to the freed context: every later search for its backtrace goes through it; the context whose entry was dropped is still allocated and no longer found |
| Strays.CounterLeft | deps/jemalloc-3.6.0/src/prof.c:606-634 | after such an insertion into the thread cache the cache leads to the freed counter and the thread may count with it; the counter that was dropped is still on the list of its context and no longer found |
| Strays.InsertContext | deps/jemalloc-3.6.0/src/prof.c:516-569 | the lookup of a new backtrace with the table of contexts as a cuckoo table: with a free cell in one of the two buckets of the backtrace it is the ordinary search step; it fails only if some larger size was refused and the items may jam every smaller one, and then it is the failing step, and a dangling entry is left unless the table grew before |
| Strays.InsertCounter | deps/jemalloc-3.6.0/src/prof.c:571-647 | the same for the counter that a lookup puts into the cache of its thread |
| Strays.FreedContextFound | deps/jemalloc-3.6.0/src/prof.c:516-569 | a run of ten steps from the empty state: four backtraces, a failed insertion of the fifth, and a search for it that goes through the context freed by the failure |
| Strays.FreedCounterUsed | deps/jemalloc-3.6.0/src/prof.c:571-647 | a run of thirteen steps: a thread counts with a counter that the failed insertion freed, in a context that was destroyed since |
| Contexts.NoDangling | deps/jemalloc-3.6.0/src/prof.c:516-647 | the context that a possible step reaches is allocated |
| Contexts.NobodyElse | deps/jemalloc-3.6.0/src/prof.c:436-476 | if the destroyer finds nlimbo 1, no counters and no current objects, then nobody else holds the context in limbo, no live object and no thread cache refers to it, and its current bytes are 0 |
| Contexts.NothingRefers | deps/jemalloc-3.6.0/src/prof.c:436-476 | when the memory is released nothing but the destroyer refers to the context |
| Contexts.LimboCovers | deps/jemalloc-3.6.0/src/prof.c:420-514 | at every point of every such run nlimbo is at least the number of those who hold the context in limbo |
| Contexts.LostStays | deps/jemalloc-3.6.0/src/prof.c:571-647 | in every such run a context that lost an increment to a failed lookup is there at every later point, with no fewer lost |
| Contexts.LostHappens | deps/jemalloc-3.6.0/src/prof.c:571-647 | a run of five steps after which nobody holds or uses the context, and one increment is lost |
| Contexts.UnusedIff | deps/jemalloc-3.6.0/src/prof.c:436-476 | the test of the destroyer succeeds if and only if no thread has a counter for the context, no object refers to it, nobody else holds it in limbo and no increment was lost |
| Contexts.LostStep | deps/jemalloc-3.6.0/src/prof.c:420-873 | no step but such a failed insertion takes a lost increment back or frees its context |
| Contexts.DestroyAsserts | deps/jemalloc-3.6.0/src/prof.c:436-476 | without opt_prof_accum the assertions of the destroyer on accumulated counts hold in every such run |
| Contexts.AssertFails | deps/jemalloc-3.6.0/src/prof.c:436-476 | with opt_prof_accum they need not: a run of eight steps after which a context with accumulated objects is about to be destroyed |
| Contexts.SearchRefs | deps/jemalloc-3.6.0/src/prof.c:516-569 | looking a backtrace up, known or new, keeps every reference in order; what happens when memory runs out is in the two failing insertions |
| Contexts.MergeRefs | deps/jemalloc-3.6.0/src/prof.c:478-514 | so does merging a counter out of a context |
| Contexts.DestroyRefs | deps/jemalloc-3.6.0/src/prof.c:436-476 | so does taking a context out of the table |
| Contexts.DumpPrepRefs | deps/jemalloc-3.6.0/src/prof.c:775-832 | so does putting all contexts on the dump list |
| Contexts.DumpDoneRefs | deps/jemalloc-3.6.0/src/prof.c:858-873 | so does taking one off |
| Contexts.MergeLimbo | deps/jemalloc-3.6.0/src/prof.c:478-514 | nlimbo still counts the holders when a merge may leave its caller as destroyer |
| Fates.MergeDooms | deps/jemalloc-3.6.0/src/prof.c:478-514 | a merge dooms its context if and only if samples are not accumulated and afterwards no thread has a counter for it, no object refers to it, nobody else holds it in limbo and no increment was lost |
| Fates.GiveUpDooms | deps/jemalloc-3.6.0/src/prof.c:571-647 | a lookup that fails dooms the context if and only if it had made it, and otherwise loses an increment |
| Fates.DestroyEnds | deps/jemalloc-3.6.0/src/prof.c:436-476 | an attempt to destroy takes the context out of the table if and only if nothing needs it, and else changes neither the table nor who is there |
| Fates.DoomFrom | deps/jemalloc-3.6.0/src/prof.c:420-647 | over every such run: whoever is to destroy a context was told so by a failed lookup that had made it, or, without accumulation, by a merge of his counter for it |
| Fates.LookFrom | deps/jemalloc-3.6.0/src/prof.c:516-569 | over every such run: a lookup that is marked as new did make its context, for a backtrace nobody knew |
| Fates.DestroyedAfterFailure | deps/jemalloc-3.6.0/src/prof.c:436-514 | over every such run with accumulation: before an attempt to destroy a context its thread made it by a search, and gave that lookup up |
| Fates.SearchFinds | deps/jemalloc-3.6.0/src/prof.c:516-569 | a lookup finds the context that the table has for the backtrace, marked as new if and only if it was made just now |
| Fates.ComeAndGo | deps/jemalloc-3.6.0/src/prof.c:420-569 | a context appears by a search for an unknown backtrace only, and disappears by its release only |
| Contexts.DestroyLimbo | deps/jemalloc-3.6.0/src/prof.c:436-476 | and when a destroyer gives up |
| Contexts.MergeBalance | deps/jemalloc-3.6.0/src/prof.c:478-514 | merged and thread counts of a context still add up to its live objects |
| Contexts.SampleBalance | deps/jemalloc-3.6.0/include/jemalloc/internal/prof.h:452-495 | so they do after an object was sampled |
| Contexts.EndFreeBalance | deps/jemalloc-3.6.0/include/jemalloc/internal/prof.h:572-609 | and after one was freed |
| Contexts.FallBackBalance | deps/jemalloc-3.6.0/include/jemalloc/internal/prof.h:572-609 | also when the freeing thread had to look its counter up |
| Fates.TotalStep | deps/jemalloc-3.6.0/src/prof.c:420-647 | what a context and its threads have counted, accumulated counts included, changes by the samples and ends of this step only |
| Fates.TotalRun | deps/jemalloc-3.6.0/src/prof.c:420-647 | so over every such run it is exactly the samples and ends since the context was made |
| RbTree.RbTree.constructor | deps/jemalloc-3.6.0/include/jemalloc/internal/rb.h:308-311 | an empty tree |
| RbTree.RbTree.Insert | deps/jemalloc-3.6.0/include/jemalloc/internal/rb.h:448-515 | the in-order contents change by exactly the given node; search order, equal black heights, no red right child and no two reds in a row survive; nodes outside the tree are untouched |
| RbTree.RbTree.Remove | deps/jemalloc-3.6.0/include/jemalloc/internal/rb.h:516-853 | the in-order contents lose exactly the given node, and the same survives |
| RbTree.RbTree.InsertUp | deps/jemalloc-3.6.0/include/jemalloc/internal/rb.h:469-511 | one turn of the unwinding in memory is one step of the tree function |
| RedBlack.InsertStepGrown | deps/jemalloc-3.6.0/include/jemalloc/internal/rb.h:469-511 | a step of the unwinding after an insertion leaves a subtree of the same black height that is good but for its root |
| RedBlack.InsertStepOrder | deps/jemalloc-3.6.0/include/jemalloc/internal/rb.h:469-511 | and keeps the order of the nodes |
| RbTree.RbTree.RemoveUp | deps/jemalloc-3.6.0/include/jemalloc/internal/rb.h:611-849 | one turn of the unwinding of a removal in memory, with all its rotations, is one step of the tree function |
| RedBlack.RemoveLeftLow | deps/jemalloc-3.6.0/include/jemalloc/internal/rb.h:616-712 | a subtree one black node too low on the left is repaired, or made a subtree too low |
| RedBlack.RemoveRightLow | deps/jemalloc-3.6.0/include/jemalloc/internal/rb.h:713-848 | likewise on the right, in all cases of sibling and nephew colours |
| RedBlack.RemoveLeftOrder | deps/jemalloc-3.6.0/include/jemalloc/internal/rb.h:616-712 | the order of the nodes stays |
| RedBlack.RemoveRightOrder | deps/jemalloc-3.6.0/include/jemalloc/internal/rb.h:713-848 | the order of the nodes stays |
| RbTree.RbTree.Exchange | deps/jemalloc-3.6.0/include/jemalloc/internal/rb.h:547-577 | node and successor change places and colours; the way down and the contents without the node are as they should be |
| RedBlack.HeightBound | deps/jemalloc-3.6.0/include/jemalloc/internal/rb.h:448-853 | height at most twice the black height (and one for a red root), and at least 2 to the black height nodes |
| RedBlack.PathFits | deps/jemalloc-3.6.0/include/jemalloc/internal/rb.h:453-453 | so the fixed path array is long enough for every tree below 2 to the 63 nodes |
| RedBlack.PlugGood | deps/jemalloc-3.6.0/include/jemalloc/internal/rb.h:448-853 | a subtree can be exchanged for one of the same black height that is no redder |
| RbNodes.RepRotateLeft | deps/jemalloc-3.6.0/include/jemalloc/internal/rb.h:139-144 | a rotation in memory is the rotation of the tree, and touches two nodes |
| RbNodes.RepRotateRight | deps/jemalloc-3.6.0/include/jemalloc/internal/rb.h:146-151 | likewise |
| RbTree.RbTree.Search | deps/jemalloc-3.6.0/include/jemalloc/internal/rb.h:386-403 | a node of the tree with the key, or nil if there is none |
| RbTree.RbTree.NSearch | deps/jemalloc-3.6.0/include/jemalloc/internal/rb.h:404-425 | the first node in order whose key is not below, or nil |
| RbTree.RbTree.PSearch | deps/jemalloc-3.6.0/include/jemalloc/internal/rb.h:426-447 | the last node in order whose key is not above, or nil |
| RbTree.RbTree.Next | deps/jemalloc-3.6.0/include/jemalloc/internal/rb.h:330-357 | the node right after it in order, or nil for the last |
| Arenas.Arena.constructor | deps/jemalloc-3.6.0/src/arena.c:2299-2351 | an arena without chunks is consistent |
| Arenas.Arena.AvailInsert | deps/jemalloc-3.6.0/src/arena.c:213-244 | a run enters the tree of available runs: all counters of chunk and arena equal the counts over the tiling again, and the assertion that there are more runs than adjacencies holds |
| Arenas.Arena.AvailRemove | deps/jemalloc-3.6.0/src/arena.c:246-278 | the same for a run that leaves it |
| Arenas.Arena.CountJoints | deps/jemalloc-3.6.0/src/arena.c:174-203 | how many of the neighbours asked for are marked free |
| RunMap.PredFree | deps/jemalloc-3.6.0/src/arena.c:174-187 | asking the entry before a run tells whether a free run lies there |
| RunMap.SuccFree | deps/jemalloc-3.6.0/src/arena.c:189-203 | asking the entry behind a run likewise |
| RunMap.FewerAdjacent | deps/jemalloc-3.6.0/src/arena.c:231-231 | there are fewer adjacencies than available runs, or none of either |
| RunMap.KindCounts | deps/jemalloc-3.6.0/src/arena.c:213-278 | how the four counts of any tiling change with one run between its neighbours |
| RunMap.SoundRetile | deps/jemalloc-3.6.0/src/arena.c:369-461 | runs that are not available may be cut, joined and renamed without touching the counters of the chunk |
| Arenas.Arena.RunSplitRemove | deps/jemalloc-3.6.0/src/arena.c:369-408 | the front pages of an available run are taken and the rest stays available with the same dirty flag |
| Arenas.Arena.RunSplitLarge | deps/jemalloc-3.6.0/src/arena.c:410-468 | the same, with the front marked as a large run; if zeros are wanted, exactly those of its pages are filled that may hold anything else |
| Arenas.SplitSuspects | deps/jemalloc-3.6.0/src/arena.c:423-448 | whether a page of the run may hold anything but zeros is told by the dirty flag and its own entry |
| Arenas.Arena.RunSplitSmall | deps/jemalloc-3.6.0/src/arena.c:477-521 | the same, with the front marked as a small run |
| Arenas.Arena.MarkSmall | deps/jemalloc-3.6.0/src/arena.c:499-514 | every entry of a small run holds its distance from the first page |
| Arenas.Arena.RunCoalesce | deps/jemalloc-3.6.0/src/arena.c:1091-1157 | the run joins the available neighbours of its own dirtiness on both sides, and no others |
| Arenas.CoalescedRun | deps/jemalloc-3.6.0/src/arena.c:1091-1157 | after that its neighbours, where available, have the other dirty flag |
| Arenas.NextEntry | deps/jemalloc-3.6.0/src/arena.c:1099-1103 | the test on the entry behind the run says exactly that there is a run to join, and gives its size |
| Arenas.PrevEntry | deps/jemalloc-3.6.0/src/arena.c:1124-1131 | likewise for the entry before it |
| Arenas.Arena.RunDalloc | deps/jemalloc-3.6.0/src/arena.c:1159-1233 | exactly this run leaves those in use; its pages are in one available run with the right dirty flag; a chunk that is all one free run becomes the spare, and an old spare is given back; pages that may hold anything but zeros stay so, and those of a dirty free are |
| Arenas.StaysSuspect | deps/jemalloc-3.6.0/src/arena.c:369-1298 | a page that may hold anything but zeros, by its unzeroed bit or its run being dirty, is never taken for one of zeros by any of these operations |
| Arenas.DirtyFreed | deps/jemalloc-3.6.0/src/arena.c:1159-1233 | the pages of a run freed as dirty lie in a dirty run, also where the chunk becomes the spare |
| Arenas.HeldFreed | deps/jemalloc-3.6.0/src/arena.c:1159-1233 | freeing takes just this run from those in use, whatever was joined |
| Arenas.FreedCovers | deps/jemalloc-3.6.0/src/arena.c:1159-1233 | the freed pages lie in an available run with the dirty flag of the free |
| Arenas.FreedOthers | deps/jemalloc-3.6.0/src/arena.c:1159-1233 | available pages of the other dirtiness are left alone |
| Arenas.Arena.RunTrimHead | deps/jemalloc-3.6.0/src/arena.c:1235-1265 | a large run loses its head pages: among the runs in use it is replaced by its tail |
| Arenas.Arena.RunTrimTail | deps/jemalloc-3.6.0/src/arena.c:1267-1298 | a large run loses its tail pages: among the runs in use it is replaced by its head |
| Arenas.Trimmed | deps/jemalloc-3.6.0/src/arena.c:1235-1298 | either part of a cut run can be freed while the other stays in use |
| Arenas.Arena.DallocBinRun | deps/jemalloc-3.6.0/src/arena.c:1799-1848 | a small run is freed; if it was clean, the touched pages end up dirty and the others clean; touched pages lie in a dirty run in any case |
| Arenas.Arena.ChunkDealloc | deps/jemalloc-3.6.0/src/arena.c:630-660 | the chunk becomes the spare and its run leaves the tree |
| Arenas.Arena.ChunkInitHard | deps/jemalloc-3.6.0/src/arena.c:545-608 | a new chunk is one maximal clean run; unless it comes zeroed, every page may hold anything |
| Arenas.Arena.ChunkAlloc | deps/jemalloc-3.6.0/src/arena.c:610-628 | the spare or a new chunk, all of it one available run; the runs in use are the same |
| Arenas.Arena.BestFit | deps/jemalloc-3.6.0/src/arena.c:662-683 | the lowest best fit among all available runs that are large enough, or none if there is no such run |
| Arenas.Arena.RunAllocLarge | deps/jemalloc-3.6.0/src/arena.c:685-715 | the front of the lowest best fit is taken, by size, then chunk address, then page; only if no available run fits it is that of the spare or a new chunk; one more large run of the wanted size is in use, at a place where none was, and that is all that changed; it fails only if no available run fits and no chunk is to be had; if zeros are wanted, every page that may hold anything else is filled |
| Arenas.OnlyFit | deps/jemalloc-3.6.0/src/arena.c:610-715 | where nothing fits, the run of the additional chunk is the lowest best fit |
| Arenas.Arena.RunAllocSmall | deps/jemalloc-3.6.0/src/arena.c:740-771 | the same choice for a small run of a bin, without zeros |
| Arenas.HeldTaken | deps/jemalloc-3.6.0/src/arena.c:369-521 | taking the front of an available run adds just that run to those in use |
| Arenas.HeldTwice | deps/jemalloc-3.6.0/src/arena.c:369-521 | it was not in use before |
| Arenas.PageHasRun | deps/jemalloc-3.6.0/include/jemalloc/internal/arena.h:79-139 | every page of a chunk belongs to exactly one run |
| Arenas.HeldDisjoint | deps/jemalloc-3.6.0/src/arena.c:369-521 | two runs in use never share a page, and lie inside the chunk |
| RunMap.WordParts | deps/jemalloc-3.6.0/include/jemalloc/internal/arena.h:535-613 | every accessor reads back its own part of the map word |
| RunMap.UnallocatedWord | deps/jemalloc-3.6.0/include/jemalloc/internal/arena.h:622-632 | the ors of the setter write the word of exactly this entry |
| RunMap.UnallocatedSizeWord | deps/jemalloc-3.6.0/include/jemalloc/internal/arena.h:634-644 | mask and or replace the size and nothing else |
| RunMap.LargeWord | deps/jemalloc-3.6.0/include/jemalloc/internal/arena.h:646-659 | mask and ors write the word of a large entry and keep the unzeroed bit |
| RunMap.SmallWord | deps/jemalloc-3.6.0/include/jemalloc/internal/arena.h:674-688 | mask and ors write the word of a small entry and keep the unzeroed bit |
| RunMap.TilesSplice | deps/jemalloc-3.6.0/src/arena.c:369-461 | replacing runs by others over the same pages keeps the tiling |
| Cuckoo.Table.constructor | deps/jemalloc-3.6.0/src/ckh.c:347-400 | an empty table with the smallest power of two of cells that the wanted load asks for |
| Cuckoo.Table.Insert | deps/jemalloc-3.6.0/src/ckh.c:454-476 | done: the map gains exactly the item, as always with a free cell in one of its two buckets, and whenever the way from full bucket to full bucket that evictions can take from the second bucket goes in no circle, whatever the random choices; failed: some larger size was refused by the allocator, and the items may jam the present table and every smaller one above it; then exactly the item carried last is missing, and unless the table grew before, the new item is in and that one was stored; the table takes the first size that the items do not jam |
| Cuckoo.LoseAnItem | deps/jemalloc-3.6.0/src/ckh.c:454-476 | a run with one bucket for any hash function: four insertions, and a fifth that keeps the new item and loses one of the four |
| Cuckoo.GrowsInstead | deps/jemalloc-3.6.0/src/ckh.c:245-298 | with memory for two buckets the same five insertions, for keys that spread out, double the table and lose nothing |
| Cuckoo.OneBucket | deps/jemalloc-3.6.0/src/ckh.c:193-216 | in a table of one bucket there is room exactly below four items, and no item has another place |
| Cuckoo.Table.Remove | deps/jemalloc-3.6.0/src/ckh.c:478-507 | missing exactly if absent; otherwise the map loses exactly this key, whether or not the table can shrink; it shrinks only if it is less than a quarter full, and then unless half the size is refused or the items may jam it |
| Cuckoo.Table.Search | deps/jemalloc-3.6.0/src/ckh.c:509-526 | the value of the map, missing exactly if absent |
| Cuckoo.Table.ISearch | deps/jemalloc-3.6.0/src/ckh.c:70-89 | the cell of the key, found in one of its two buckets if it is anywhere |
| Cuckoo.Table.BucketSearch | deps/jemalloc-3.6.0/src/ckh.c:52-65 | a cell of the bucket with the key, or none has it |
| Cuckoo.Table.TryBucketInsert | deps/jemalloc-3.6.0/src/ckh.c:91-115 | the item takes a free cell, or the bucket is full and nothing changes |
| Cuckoo.Table.EvictRelocInsert | deps/jemalloc-3.6.0/src/ckh.c:123-191 | for any hash functions and random choices the table and the carried item together are the old items and the new one, at every turn; done only if all are in; failed: evictions from the bucket can go in a circle of full buckets, the new item is in and the carried one was stored before; if all items of the bucket are at home in it alone, it fails |
| Cuckoo.Lower | deps/jemalloc-3.6.0/src/ckh.c:134-190 | one eviction leads to a bucket with room, or to a full one of lower rank, and leaves all buckets of that rank and below as they were |
| Cuckoo.Table.Evict | deps/jemalloc-3.6.0/src/ckh.c:134-160 | one turn swaps the carried item with one of its bucket and leads to the other bucket of that one |
| Cuckoo.Table.TryInsert | deps/jemalloc-3.6.0/src/ckh.c:193-216 | one attempt with both buckets; failed: both are full, evictions from the second can go in a circle, the new item is in and one that was stored is carried |
| Cuckoo.Table.Rebuild | deps/jemalloc-3.6.0/src/ckh.c:222-243 | all items of the old table are in the new one, or the count is as before and the items may jam a table of this size |
| Cuckoo.Table.Grow | deps/jemalloc-3.6.0/src/ckh.c:245-298 | the map is the same; failed: the old table is back, cell by cell, some larger size was refused and the items may jam all smaller ones above; done: the table has the first size that they do not jam |
| Cuckoo.Spacious | deps/jemalloc-3.6.0/src/ckh.c:193-243 | no table jams in which every key has a bucket that can hold all keys that may lie in it |
| Cuckoo.Table.Shrink | deps/jemalloc-3.6.0/src/ckh.c:300-345 | the map is the same; failed: the old table is back, cell by cell, and half the size was refused or the items may jam it; done: the table is half as large |
| Cuckoo.Table.Iter | deps/jemalloc-3.6.0/src/ckh.c:434-452 | the next used cell, skipping free ones only |
| Cuckoo.CountsCells | deps/jemalloc-3.6.0/src/ckh.c:425-432 | the number of items is the number of used cells |
| Extents.Pool.Recycle | deps/jemalloc-3.6.0/src/chunk.c:44-136 | aligned, inside the free bytes, and taken from the start of the best fit; exactly its bytes leave the free ones; it is said to be zeroed if and only if all its bytes were marked so; it succeeds if and only if some extent is large enough and there is a node for the second of two remaining pieces; failing for that node it takes from the free bytes exactly those behind the result up to the end of the extent, and those of the result too unless they are recorded again with a node of their own; failing otherwise it changes nothing; both trees stay the same set of disjoint extents that do not touch |
| Extents.Pool.Carve | deps/jemalloc-3.6.0/src/chunk.c:84-122 | what is left before and behind the result is free again with its mark; it fails exactly if both remain and there is no second node, and then all from the result on is out of the trees |
| Extents.Pool.FromExtent | deps/jemalloc-3.6.0/src/chunk.c:76-136 | the whole branch from the alignment to either return, for one extent: taken, or carved without a node and the result given back |
| Extents.Pool.GiveBack | deps/jemalloc-3.6.0/src/chunk.c:300-334 | giving the result back: unmapped, or recorded if a node can be had; no extent follows it, so it is leaked exactly without a node |
| Extents.LoseSpace | deps/jemalloc-3.6.0/src/chunk.c:44-136 | a run: of sixteen free megabytes an allocation of eight that fails leaves twelve or four, as the result is recorded again or not |
| Extents.Maximal | deps/jemalloc-3.6.0/src/chunk.c:212-298 | the bytes right before and behind a free extent are not free |
| Extents.OneStretch | deps/jemalloc-3.6.0/src/chunk.c:212-298 | one stretch of free bytes is one extent |
| Extents.Pool.constructor | deps/jemalloc-3.6.0/src/chunk.c:336-365 | nothing is free |
| Extents.Pool.BestFit | deps/jemalloc-3.6.0/src/chunk.c:64-75 | the smallest extent that is large enough, and of those the first |
| Extents.AlwaysFits | deps/jemalloc-3.6.0/src/chunk.c:64-80 | an extent of size + alignment - chunk size always contains an aligned block of the size |
| Extents.LeadFits | deps/jemalloc-3.6.0/src/chunk.c:76-80 | rounding up to the alignment passes over less than that |
| Extents.Pool.Record | deps/jemalloc-3.6.0/src/chunk.c:212-298 | exactly the bytes of the freed chunk become free, joined with the extents on both sides; it is leaked exactly if no node could be had and no extent follows; an extent is then marked as zeroed if and only if all its bytes were, or came so with the chunk |
| Extents.Pool.RecordForward | deps/jemalloc-3.6.0/src/chunk.c:233-265 | the first half: joined with the extent behind it, or entered with its own node, and marked as zeroed if and only if all of it is known to be |
| Extents.Pool.RecordBackward | deps/jemalloc-3.6.0/src/chunk.c:267-286 | the second half: joined with the extent before it, so that no two extents touch, and marked by the same rule |
| Extents.MarksGrown | deps/jemalloc-3.6.0/src/chunk.c:236-246 | a chunk that joins the extent behind it: the mark of the whole says that all of it is known to be zero |
| Extents.ZeroSpan | deps/jemalloc-3.6.0/src/chunk.c:212-298 | all bytes of an extent are marked or none |
| Extents.GrowDown | deps/jemalloc-3.6.0/src/chunk.c:236-246 | growing a node downwards leaves its place by address |
| Extents.JoinBack | deps/jemalloc-3.6.0/src/chunk.c:267-286 | the two become one and the free bytes are the same |
| Extents.PutOrder | deps/jemalloc-3.6.0/src/extent.c:6-35 | inserting by either comparison keeps the order |
| Extents.DropOrder | deps/jemalloc-3.6.0/src/extent.c:6-35 | removing keeps the order |
| Bitmaps.InfoInit | deps/jemalloc-3.6.0/src/bitmap.c:19-45 | the level layout for any number of bits: each level has a group for every word below, up to the first level of one group |
| Bitmaps.InitWords | deps/jemalloc-3.6.0/src/bitmap.c:63-90 | after the trailing bits are masked every summary is right and nothing is set |
| Bitmaps.Trim | deps/jemalloc-3.6.0/src/bitmap.c:76-89 | the shift leaves exactly the bits that the level has |
| Bitmaps.Bitmap.constructor | deps/jemalloc-3.6.0/src/bitmap.c:63-90 | an empty set |
| Bitmaps.Bitmap.Full | deps/jemalloc-3.6.0/include/jemalloc/internal/bitmap.h:67-74 | true if and only if every bit is set |
| Bitmaps.Bitmap.Get | deps/jemalloc-3.6.0/include/jemalloc/internal/bitmap.h:76-86 | whether the bit is set |
| Bitmaps.Bitmap.Set | deps/jemalloc-3.6.0/include/jemalloc/internal/bitmap.h:88-119 | the set gains exactly this bit; all summaries are right again |
| Bitmaps.Bitmap.Unset | deps/jemalloc-3.6.0/include/jemalloc/internal/bitmap.h:144-179 | the set loses exactly this bit; all summaries are right again |
| Bitmaps.Bitmap.SetFirstUnset | deps/jemalloc-3.6.0/include/jemalloc/internal/bitmap.h:122-142 | the least bit that was not set, which is set then |
| Bitmaps.RootSums | deps/jemalloc-3.6.0/include/jemalloc/internal/bitmap.h:67-74 | a level has a bit left if and only if the bottom has, for any number of levels |
| Bitmaps.FirstBelow | deps/jemalloc-3.6.0/include/jemalloc/internal/bitmap.h:122-142 | the first bit of the first group that has one is the first of the level below |
| Bitmaps.SummedUp | deps/jemalloc-3.6.0/include/jemalloc/internal/bitmap.h:104-118 | after a flip the only summary that can be wrong is the one above, and only if the group changed between empty and not |
| Bitmaps.Flipped | deps/jemalloc-3.6.0/include/jemalloc/internal/bitmap.h:97-102 | flipping a bit changes that bit only, at any level |
| Lru.Cache.constructor | src/store/etdb_lru.c:3-21 | an empty cache with a third as many hash heads |
| Lru.Cache.Fetch | src/store/etdb_lru.c:29-68 | a cached page as it was served before; else what is read, or after a failed read in a full cache the contents of the page that had to go; all other pages as before; contents true to the file stay so exactly if the answer is; the cached pages are the old ones with this one in front, without the last if there was no room; each is once on the ring and once on its chain |
| Lru.Cache.Load | src/store/etdb_lru.c:44-66 | a page that is not cached gets a new node, or that of the page used longest ago; a failed read leaves its buffer |
| Lru.Cache.Lookup | src/store/etdb_lru.c:32-38 | the node of the page, or the page is not cached |
| Lru.Cache.FreeNode | src/store/etdb_lru.c:44-55 | a node on no queue: a new one while there is room, else that of the page used longest ago |
| Lru.Cache.Hit | src/store/etdb_lru.c:38-42 | the page moves to the front |
| Lru.Cache.LinkIn | src/store/etdb_lru.c:64-65 | the node enters both queues in front |
| Lru.Replay | src/store/etdb_lru.c:29-68 | for every sequence of fetches, whichever reads fail, the cache holds the most recently fetched distinct pages, and each answer is the last one for the page while it is cached, else what was read, else the last answer for the page that had to go; if no read fails each fetch delivers the page of the file |
| Lru.ServeStale | src/store/etdb_lru.c:29-68 | in a full cache a failed read is answered with the page used longest ago, and so is the next fetch although the file can be read again |
| Lru.FetchedRecent | src/store/etdb_lru.c:29-68 | a fetch on the most recently fetched pages leaves the most recently fetched pages |

## Left out

- Records: arrays of C structs are one sequence per field (`node.base`, `node.check`); a sequence is a field that methods reassign, so aliasing of buffers shows only where Dafny arrays are used (geohash buffers).
- Word widths: indices, counts, sizes and page numbers are unbounded integers, except where the code itself tests for wrap-around (`Extents.Pool.Recycle`) or for the size of the address space (`Cuckoo.Table.Grow`).
- Tries.Trie.Reallocate: reallocation always succeeds, as the callers in the original assume.
- Tries.Trie.FindPlaceInterval: the `reject` counters only cut the search short, so they hold arbitrary numbers in the model and nothing is claimed about them.
- Tries.Trie.CommonPrefixPathSearch: when no path leads to the prefix the original returns an uninitialised variable, and the contract leaves the result open; the stack and pool that carry the output are a sequence here, and stored values must differ from NO_PATH and NO_VALUE, which the database guarantees by storing addresses.
- Tries.Trie.ExactMatchSearch: the two reserved values can be stored but read as absent; the contract says so.
- `etdb_trie_common_prefix_search`, `etdb_trie_total_size`, `etdb_trie_nonzero_size` and `etdb_trie_destory`: easier relatives of what is modelled.
- Neighbors.GetNeighbor: a code all of whose characters are border characters makes the original read before its buffer, so being off the world border is a precondition; so is that the code consists of geohash letters.
- Geohash.Encode: doubles are reals, so rounding of the caller's coordinates is outside; `Geohash.DimensionsForPrecision` halves exactly for any precision.
- Spatial.SpatialIndex.Set: starts from parsed numbers; text to number conversion, the reply queue and failing allocations are outside, and a new record gets an unused positive address as a parameter.
- Families.Slot: hash, set and list families are outside (their head bytes are in `Heads`), and so is isolation between hash or set names; so are knn search, saving and loading of the database.
- Contexts.StepSafe: the hash tables are maps, and which entry a failed insertion drops is open as far as `Cuckoo.Table.Insert` leaves it open; hashing of backtraces, the list of evicted counters and the bound on it, and the contents of the dump file are outside, as is signed overflow of counts; thread exit is a sequence of merges; runs past the first dangling entry only go as far as `Strays` takes them.
- RbTree.RbTree.Insert: nodes are numbers and links arrays of numbers, keys do not change while a node is in a tree, and they are distinct as `rb_gen` requires; `first`, `last`, `prev` and the iterators are mirror images or applications of what is modelled.
- Arenas.Arena.RunDalloc: stops before the purging of dirty pages; `arena_maybe_purge` and what follows from it are not part of this model.
- Arenas.Arena.RunSplitLarge: page contents themselves are outside; which pages may hold anything but zeros is tracked, from chunk allocation on, under the condition that pages in use are freed as dirty if they were written to. Junk filling is outside.
- Arenas.Arena.BestFit: the tree of available runs is a set searched for its least element, since the tree is proved in `RbTree`; that a run's size entry may not change while it is in the tree shows only in the order of the steps.
- Arenas.Arena.FindRun: nothing happens between dropping and taking the arena lock, so the second search finds what the first did.
- Arenas.Arena.DropRun: the bin of a small run is read from the map instead of the run header; regions inside a run, bins, growth in place of large runs and the promoted class index are not part of this model.
- Cuckoo.Table.constructor: the first allocation succeeds; without memory the original only reports that.
- Cuckoo.Table.EvictRelocInsert: that the random eviction loop ends is true only with probability, so every loop has a number of steps as parameter and reports when they are used up, which takes a way of that many evictions. Which sizes the allocator grants is a parameter of each operation, which asks for each size at most once. Keys are compared by content.
- Extents.Pool.Recycle: one thread at a time; the two trees are sequences in their order (`RbTree` proves the tree), node allocation, whether the system takes a chunk back and whether purging left it zeroed are parameters, and writing zeros to the result is outside.
- Bitmaps.Bitmap.Set: a word is a sequence of bits, least significant first, and 64 bits wide.
- Lru.Cache.Fetch: the file does not change; a read delivers a whole page or nothing, and a failed seek counts as a failed read; what a new buffer holds before the first read is open. `etdb_lru_alloc_entry` does not look whether the page is cached already and is not part of this model. Capacity below 3 leaves no hash head and is a precondition.
- `src/store/etdb_store.c`, sockets, the event loop, configuration, the wire protocol, the command tables, jemalloc's thread caches, size classes, purging, statistics, control interface and system calls.

# A model of a Nostr client library

The files here model the parts of a TypeScript library for the Nostr protocol that have the most state, and prove
what those parts promise. `dafny verify dfyconfig.toml` checks all of it.

## Parts

- **Set reconciliation (NIP-77, "Appendix: Negentropy Protocol V1").** `NegTypes`, `NegCodec`, `NegStorage`,
  `NegProtocol` and `NegSession` model items, the wire form, the accumulator, the sealed vector, one side of a session
  and the session loop. `NegTiling`, `NegExact`, `NegRounds` and `NegWire` prove that a session over bytes ends soon and
  with the exact difference; `NegFrames` says what a frame limit does to that. Timestamps are integers and SHA-256 is a
  function. Two sides are `Honest` when both vectors are sealed, an id has one timestamp, timestamps lie in 0 to 2^53-2,
  and no message fills the frame of its sender (`Roomy`). Of the hash it is assumed that no two strings hashed for one
  interval collide in the 16 bytes that are sent (`NegExact.NoCollision`), and of the sums that as many ids of one
  interval with the same sum modulo 2^256 are the same ids (`NegExact.SumsTell`), which needs no assumption when each
  side lacks one id of the other at most. A responder that has nothing to send answers with the bare version byte, as
  the relay in src/testing/relay-core.ts does.
- **Event stores.** `Events`, `Filters`, `Ordered`, `Deletion`, `Storage`, `Listing` and `Items` say what a store is and
  what its operations mean, and `PutResults` what a put answers; `StorageInvariants`, `StorageSteps`, `Watermarks`,
  `ConvergenceFacts` and `Convergence` prove what every run keeps and when the order of arrival does not matter.
  `Indexes`, `Tombs` and `MemoryIndex` are the in-memory index with its maps; `Merge` and `IdbQuery` the IndexedDB
  queries; `SqlCompile`, `SqlRows`, `SqlStore` and `SqlLockstep` the SQL store and its simulation of the index.
- **Reactive views.** `ReactiveSpec`, `Reactive` and `ReactiveRuns`: cached watches, their invalidation, pins, recency
  and eviction, and who is called.
- **Filters as keys.** `Fingerprints`: the canonical form of filters and the text that live REQs and cached watches are
  found under.
- **Subscriptions.** `RegistrySpec`, `RegistryRuns`, `RegistryTotals`, `RegistryFacts`, `RegistryReach`, `RegistryWire`,
  `SubscriptionRegistry` and `Resume`: one-shot and coalesced REQs of a relay, their replay, whom messages reach, and
  what the relay at the other end serves.
- **Routing.** `Routing`, `RouteTable`, `RouteRuns`, `RouteReach` and `Gossip`: filters split over relays, and the table
  behind it.
- **Padding (NIP-44).** `Padding`.

`Results`, `Sequences`, `Arithmetic` and `Octets` are shared helpers. A class is specified by a function on values, and
the properties are proved of the values; `Contents()`, `Now()` and `AsSide()` give the value of an object.

## Where the code falls short of what it seems to promise

- The stored events depend on the order of arrival exactly when a place is contested (`Convergence.ConvergesExactly`):
  the author deletes the newest version by id while the deletion of somebody else, or an older version, keeps the place
  open. `Convergence.OrderMatters` is such a set.
- A filter with an empty author list and p tags matches nothing, but its routed parts match
  (`Routing.RouteKeepsMeaning`, `Routing.EmptyAuthorsWiden`).
- The routing table forgets the pubkey used least recently, and then an older list of it is accepted
  (`RouteRuns.OlderListTakesOver`). That cannot happen exactly when there are no more pubkeys than the cap
  (`RouteRuns.RemembersExactly`), nor to a pubkey since whose last use fewer others than the cap were used
  (`RouteTable.RecentKept`). A list with a time before 0 is never accepted.
- A one-shot REQ opened with an aborted signal stays listed although it is closed, and its REQ is sent after its CLOSE
  (`RegistryTotals.ListedOpenSteps`, `RegistryTotals.AbortedOnce`, `RegistryTotals.LeavesOneBehind`).
- A caller who opens a REQ under the id of a REQ that is still open makes the maps of a registry disagree
  (`RegistryTotals.RepeatedIdDisagrees`). That happens exactly when an open REQ is listed under the id
  (`RegistryRuns.OpenExclusiveExactly`, `RegistryRuns.StartExactly`); the id of a closed one may be used again.
- When the authentication for a REQ ends after that REQ was closed, what took over its id meanwhile is dropped
  (`RegistryTotals.LateRetryForgets`, `RegistryTotals.LateRetryEnds`). An open REQ gets out of reach by that exactly when
  it is a one-shot REQ (`RegistryRuns.AuthRetryExactly`). A CLOSED message drops what is listed under its own id, which
  does no such harm (src/relay/relay.ts:638-646, `RegistryRuns.DropExactly`).
- A side whose answer does not fit into a frame sends, for all that is left from its last bound on, the fingerprint of
  its items past the range it could not answer. A session of an empty side against one with too many items ends with
  nothing to fetch (`NegFrames.FrameLoses`), and is exact if and only if the ids fit (`NegFrames.EmptyExactly`). Any
  session is exact if no message of it is cut short (`NegSession.RunNegSession`).
- An IndexedDB scan with an open end misses events before 0 or after 2^53-1 (`IdbQuery.MissesExactly`,
  `IdbQuery.MissesAnOldEvent`).
- A sealed vector stays sealed when sealing fails on a duplicate (`NegentropyStorageVector.Seal`).
- `unpad` does not look at the padding bytes (`Padding.UnpadExactly`).

## Model

| member | source | states |
|---|---|---|
| NegSession.RunNegSession | src/nips/nip77.ts:580-606 | A session over byte messages, between two honest sides whose messages fit their frames, returns exactly the ids only we hold and exactly the ids only the peer holds; it never runs into the round limit |
| NegSession.UnlimitedRoomy | src/nips/nip77.ts:513-518 | Without frame limits every message fits |
| NegFrames.EmptyExactly | src/nips/nip77.ts:444-450 | An empty side that opens finds out in one round exactly what the other side holds if and only if the id list of that one fits its frame |
| NegFrames.FrameLoses | src/nips/nip77.ts:444-450 | If its ids do not fit, the session ends after one round with nothing to fetch, although everything is missing: the fingerprint sent instead is that of no items at all |
| NegRounds.SessionExact | src/nips/nip77.ts:347-461 | After at most `MaxRounds` rounds nothing is left to send, and `have` is local minus remote, `need` remote minus local, for any two stores between which equal fingerprints tell equal ids |
| NegRounds.RoundsFew | src/nips/nip77.ts:580-606 | With fewer than 2^53 items on a side, 14 rounds are enough; the limit of 1024 is never met |
| NegRounds.RoundWithin | src/nips/nip77.ts:347-511 | One round divides the items that any open fingerprint range covers, on both sides, by 16, and below the id list threshold leaves no fingerprint |
| NegRounds.SplitShrinks | src/nips/nip77.ts:467-511 | The ranges of a split cover at most a sixteenth (rounded up) of the own items each, and none is a fingerprint below 32 items |
| NegRounds.RoundsEnd | src/nips/nip77.ts:347-461 | Once a side is down to id lists the next round is the last |
| NegExact.StepKeeps | src/nips/nip77.ts:370-441 | Answering one range, whatever its mode, keeps the invariant: each difference before the end of the range is reported or covered by a range that is not a skip |
| NegExact.AnswerInFlight | src/nips/nip77.ts:347-461 | A message in flight that covers all unreported differences is answered by one that does |
| NegExact.InitiateInFlight | src/nips/nip77.ts:339-345 | The opening message covers every difference |
| NegExact.NothingInFlight | src/nips/nip77.ts:347-461 | With no range in flight the report is exact |
| NegExact.EqualDigests | src/nips/nip77.ts:380-395 | An interval whose fingerprints agree holds the same items on both sides |
| NegExact.Separates | src/nips/nip77.ts:277-284 | Equal fingerprints of an interval come from equal ids, if no two strings hashed for one interval collide in 16 bytes, and as many ids with the same sum modulo 2^256 are the same ids |
| NegExact.FewDifferencesTell | src/nips/nip77.ts:158-176 | The sums do tell ids apart whenever each side lacks one id of the other at most |
| NegStorage.SummaryTells | src/nips/nip77.ts:158-176 | What is hashed for a list of ids tells their sum modulo 2^256 and their number, and nothing else |
| NegStorage.ValueTells | src/nips/nip77.ts:158-168 | An id is the number it spells, below 2^256 |
| NegStorage.LittleEndian | src/nips/nip77.ts:158-168 | The byte at place i of an id counts 256^i |
| NegStorage.OneDiffers | src/nips/nip77.ts:158-168 | Lists that differ in one id have different sums, even modulo 2^256 |
| NegExact.MatchIdsExact | src/nips/nip77.ts:397-436 | Matching an id list reports exactly the ids that one of the two lists holds and the other does not |
| NegExact.LastRangeCovers | src/nips/nip77.ts:347-461 | A message that covers everything keeps covering what comes before its last range |
| NegTiling.SplitTiles | src/nips/nip77.ts:467-511 | What is sent for an interval tiles exactly that interval, without a skip, and ends at its upper bound |
| NegTiling.IdsTile | src/nips/nip77.ts:467-483 | Ids sent as one range tile their interval |
| NegTiling.BucketBoundCuts | src/nips/nip77.ts:489-511 | Searching for the bound of a bucket finds the index the bucket was cut at, and bounds rise |
| NegTiling.MinimalBoundSeparates | src/nips/nip77.ts:564-576 | A minimal bound lies above the first and not above the second of two neighbours |
| NegTiling.MinimalBoundShortest | src/nips/nip77.ts:564-576 | No separating bound with the same timestamp has a shorter id |
| NegTiling.TilesRise | src/nips/nip77.ts:467-511 | Tiles only rise, and cover nothing outside their interval |
| NegProtocol.CutsTile | src/nips/nip77.ts:484-511 | The 16 buckets of a range partition it, each is non-empty, and sizes differ by at most one |
| NegTypes.LessTotal | src/nips/nip77.ts:178-207 | The order of items is total and strict |
| NegTypes.CompareItemsMethod | src/nips/nip77.ts:178-207 | The comparison loop decides that order |
| NegTypes.CutSeparates | src/nips/nip77.ts:255-275 | In a sorted vector the cut separates the items below a bound from the others |
| NegTypes.CutFromCut | src/nips/nip77.ts:255-275 | Searching from the cut of a lower bound finds the cut itself, so the index ranges of both sides stay aligned |
| NegStorage.NegentropyStorageVector.FindLowerBound | src/nips/nip77.ts:255-275 | The binary search finds the first item not below the bound; out-of-range arguments and unsealed vectors give the errors of the source |
| NegStorage.NegentropyStorageVector.Seal | src/nips/nip77.ts:224-237 | Sealing sorts, keeps the items, refuses duplicates, and leaves the vector sealed even then |
| NegStorage.NegentropyStorageVector.Insert | src/nips/nip77.ts:213-222 | Inserting appends, and fails on a sealed vector or an id that is not 32 bytes |
| NegStorage.NegentropyStorageVector.FingerprintRange | src/nips/nip77.ts:277-284 | The fingerprint of an index range is that of the ids it lists: `NegStorage.SummaryTells` says what is hashed |
| NegStorage.Accumulator.Add | src/nips/nip77.ts:158-168 | The carry loop over eight little-endian words is addition modulo 2^256 |
| NegStorage.Accumulator.Fingerprint | src/nips/nip77.ts:170-175 | The fingerprint hashes the sum and the number of ids |
| NegStorage.FingerprintOrderFree | src/nips/nip77.ts:151-176 | A fingerprint depends on which ids are listed, not on their order |
| NegCodec.VarIntRoundTrip | src/nips/nip77.ts:114-145 | Every integer from 0 to 2^53-1 is read back from its bytes, whatever follows them |
| NegCodec.VarIntSpells | src/nips/nip77.ts:129-145 | A varint spells its number in base 128 without a leading zero, and its last byte alone has no high bit |
| NegCodec.PayloadBytes | src/nips/nip77.ts:347-441 | The byte of the mode, and what follows it |
| NegCodec.RangeBytes | src/nips/nip77.ts:520-562 | A range on the wire: 0 for infinity or one more than the time since the last bound, the prefix of the id, the payload |
| NegCodec.EncodeVarIntMethod | src/nips/nip77.ts:129-145 | The digit loop writes the varint |
| NegCodec.DecodeVarIntMethod | src/nips/nip77.ts:114-127 | The reading loop reads it, with the errors of the source |
| NegCodec.BoundRoundTrip | src/nips/nip77.ts:520-562 | A bound is read back exactly with the timestamp state mirrored, infinity included |
| NegCodec.RangeRoundTrip | src/nips/nip77.ts:347-461 | A range of any mode is read back exactly, and the bytes behind it are left |
| NegCodec.MessageRoundTrip | src/nips/nip77.ts:520-562 | A sequence of ranges with rising bounds is read back, and the delta state of both sides agrees behind it |
| NegCodec.BodyRoundTrip | src/nips/nip77.ts:347-461 | A whole message body decodes to the ranges that were sent |
| NegCodec.EncodedBuf.Extend | src/nips/nip77.ts:79-90 | Appending keeps the contents, also when the buffer moves to a larger array |
| NegCodec.EncodedBuf.ReadN | src/nips/nip77.ts:104-111 | Reading takes the first bytes off, or fails and takes nothing |
| NegCodec.DecodeBoundMethod | src/nips/nip77.ts:532-539 | Reading a bound against the timestamp state |
| NegCodec.EncodeBoundMethod | src/nips/nip77.ts:556-562 | Writing a bound against the timestamp state |
| NegWire.ReconcileAnswers | src/nips/nip77.ts:347-461 | For the bytes of an honest message `reconcile` does not fail and returns the bytes of the answer to its ranges |
| NegWire.BodyAnswers | src/nips/nip77.ts:347-461 | After the bytes of some ranges `reconcile` is where answering those ranges leads |
| NegWire.InitiateOpens | src/nips/nip77.ts:339-345 | The opening packet carries the opening message |
| NegSession.Negentropy.Reconcile | src/nips/nip77.ts:347-461 | The byte loop, with its pending skip, both modes and the frame limit, computes the value function of a reconciliation, errors included |
| NegSession.Negentropy.Initiate | src/nips/nip77.ts:339-345 | Opening marks the initiator and writes the split of the whole store |
| NegSession.Negentropy.SplitRange | src/nips/nip77.ts:467-511 | The bucket loop writes the ranges of a split, or fails as the source does |
| NegSession.Negentropy.MatchAgainst | src/nips/nip77.ts:397-436 | The two loops over an id list report its differences |
| NegSession.Negentropy.Create | src/nips/nip77.ts:331-337 | A frame limit between 1 and 4095 is refused |
| NegSession.BucketHere | src/nips/nip77.ts:489-511 | The bucket at place i takes the items the running index has reached |
| NegSession.SessionShort | src/nips/nip77.ts:580-606 | A session that still has something to send is in one of its first rounds |
| Events.AddressRoundTrip | src/core/tag.ts:106-135 | A formatted coordinate is parsed back, so coordinates of distinct addresses differ |
| Events.ParseExactly | src/core/tag.ts:106-129 | What is read as a coordinate: up to five decimal digits of a kind up to 65535, a pubkey of 64 hex digits in any case, and whatever comes after the second colon |
| Events.AddressExactly | src/core/tag.ts:84-152 | Kinds 0, 3 and 10000 to 19999 live at an empty identifier, kinds 30000 to 39999 at the value of their first d tag that has one, or else at an empty one, all under the lower-case pubkey; nothing else has an address |
| Events.SamePlaceIs | src/core/tag.ts:140-152 | So two events share an address exactly when kind and author agree and, for addressable ones, the first d value |
| Events.StringLessMeans | src/core/event.ts:143-151 | Of two ids the one with the lower character at the first difference, or the proper prefix, comes first |
| Events.BeforeTotal | src/core/event.ts:143-192 | Newest first, lower id first, is one strict total order, and it is the order of replaceable winners |
| Events.BeforeTransitive | src/core/event.ts:143-151 | It is transitive |
| Filters.MatchFilter | src/core/filter.ts:18-62 | The checks with their early returns decide the meaning of a filter |
| Fingerprints.CanonicalMatches | src/core/filter.ts:109-135 | The canonical form of a filter matches exactly what the filter matches |
| Fingerprints.CanonicalExactly | src/core/filter.ts:109-135 | Two filters have one canonical form exactly when they differ only in the order of lists and the case of hex values |
| Fingerprints.FingerprintExactly | src/core/filter.ts:142-150 | Two lists of filters have one fingerprint exactly when their canonical filters are the same with the same repeats, if the text of a canonical filter begins no other |
| Fingerprints.JoinReads | src/core/filter.ts:146-150 | Sorted parts can be read back from their join |
| Fingerprints.SameCanonicalMatch | src/core/filter.ts:142-150 | Lists of the same canonical filters match the same events |
| Fingerprints.FingerprintFaithful | src/core/filter.ts:142-150 | So a fingerprint decides what its filters match |
| Ordered.TrimWellFormed | src/core/collections.ts:2-14 | Trimming keeps the keys distinct and in step with the values, and changes nothing within the cap |
| Ordered.DeleteWellFormed | src/core/collections.ts:17-20 | Deleting keeps them so |
| Tombs.TrimOldest | src/core/collections.ts:2-14 | The loop drops exactly the oldest keys beyond the cap, and says which |
| Tombs.PlanDeletion | src/storage/deletion.ts:23-71 | The loops over the tags build the deletion plan |
| Tombs.DeletionState.AbsorbPlan | src/storage/deletion.ts:104-122 | Absorbing a plan changes the three collections as specified |
| Tombs.CoordinateRemovalsLoop | src/storage/deletion.ts:124-136 | The ids that a coordinate deletion reaches |
| Tombs.DecidePut | src/storage/put.ts:50-85 | What the branches decide is the decision function, whose meaning is stated by `StorageSteps.ErasingEvents`, `StorageSteps.Inserting` and `SqlStore.PartialDecides` |
| Deletion.NamedIdsAre | src/storage/deletion.ts:23-71 | A deletion names the lower-case id of each well-formed e tag |
| Deletion.NamedAddressesAre | src/storage/deletion.ts:23-71 | It names the addresses of its a tags that belong to its own author, and no other |
| Deletion.RemovalsAre | src/storage/deletion.ts:40-60 | It removes the named stored events of its author that are no deletions |
| Deletion.BuryAllAt | src/storage/deletion.ts:104-122 | Buried ids lose their pending entries, everything else stays |
| Deletion.AwaitAllAt | src/storage/deletion.ts:104-122 | Unknown ids are awaited for the author of the deletion unless they are buried |
| Deletion.CloseAllAt | src/storage/deletion.ts:104-122 | A coordinate is closed up to the latest deletion time |
| StorageSteps.ErasingEvents | src/storage/put.ts:87-121 | A fresh deletion takes away exactly the stored events it erases, and is stored itself |
| StorageSteps.ErasingIds | src/storage/put.ts:87-121 | It buries exactly the ids of what it erases |
| StorageSteps.ErasingPending | src/storage/put.ts:87-121 | Whose deletion is awaited for an id afterwards |
| StorageSteps.ErasingCoordinates | src/storage/put.ts:87-121 | It closes the addresses it names up to its own time |
| StorageSteps.RemovedAreErased | src/storage/deletion.ts:124-136 | The ids that a plan and its coordinates remove are those of the events that the deletion erases |
| StorageSteps.Inserting | src/storage/put.ts:71-85 | An accepted event takes its address over from the event that held it, and from a watermark |
| PutResults.PutMeans | src/storage/put.ts:50-85 | When a put is answered as accepted, replaced, deleted, duplicate, ephemeral, rejected or invalid, by the stored events, buried ids and marks before it; each answer exactly then |
| PutResults.PutStores | src/storage/put.ts:87-121 | What is stored afterwards, by the answer: an accepted event joins, one that replaces takes the place over, a deletion joins and takes away what it erases, all others change nothing |
| PutResults.ErasesMeans | src/storage/deletion.ts:23-71 | What a deletion erases, by its tags: events of its author that an e tag names in any case, and events no newer than it in the place that an a tag with the pubkey of its author spells; never deletions |
| PutResults.RemovedForGood | src/storage/memory-index.ts:186-204 | A put of an event that was removed is answered as one of a duplicate, and not stored, while no tombstone is forgotten |
| StorageSteps.PutKeeps | src/storage/memory-index.ts:63-98 | A put keeps the winners in step with the events, no stored event covered, and all caps |
| StorageSteps.RemoveKeeps | src/storage/memory-index.ts:186-204 | So does removing by id |
| StorageSteps.EvictKeeps | src/storage/memory-index.ts:206-224 | So does evicting |
| StorageSteps.EveryRun | src/storage/memory-index.ts:63-267 | In every run of put, remove, evict and clear each address has one stored event at most, no two marks carry one id and none stands beside a live address, no stored event is covered by a tombstone, and no cap is passed; the map from ids back to marks is part of `MemoryIndex.Valid` |
| StorageInvariants.TrimCoversLess | src/storage/memory-index.ts:507-517 | Forgetting tombstones never covers an event that was not covered |
| StorageInvariants.UprootAllIs | src/storage/put.ts:100-112 | Removing for a coordinate is removing and burying |
| Watermarks.FrontierAdvances | src/storage/memory-index.ts:206-224 | Over any run of puts that are no deletions and evictions that trim no watermark, the live or evicted frontier of an address never moves back |
| Watermarks.PutFrontier | src/storage/put.ts:71-83 | A put moves the frontier of an address forwards or not at all |
| Watermarks.EvictFrontier | src/storage/memory-index.ts:479-505 | With room for its mark an eviction leaves the frontier where it is |
| Convergence.ConvergesExactly | src/storage/put.ts:50-121 | Without caps, evictions and removals: every order of putting a finite set of events, repeats included, leaves the same stored events if and only if no place is contested |
| Convergence.HoldsWhatBelongs | src/storage/put.ts:50-121 | Then the store holds exactly the declared set: all deletions, undeleted regular events, and per address the winner above its deletion time |
| Convergence.ContestedDiverges | src/storage/deletion.ts:85-102 | A contested place, whose newest version its author deleted by id while another contender stays open, is empty after one order and taken after another |
| Convergence.OrderMatters | src/storage/put.ts:50-121 | Two relay lists of one author and a deletion of the newer by id are a contested set, whose order matters |
| Convergence.PlainSetsConverge | src/storage/deletion.ts:85-102 | No place is contested when nobody deletes their own address versions by id and each id is named by the deletions of one pubkey |
| Convergence.NewestHeld | src/storage/put.ts:50-121 | Without deletions a store holds, in whatever order they came, exactly the newest event of each place, with the lower id first among those of one time |
| Convergence.DifferentHeld | src/core/tag.ts:84-152 | Two addressable events of one author and kind with different first d values are both held, in either order |
| Convergence.TopExists | src/core/event.ts:184-192 | Every place with a contender has a newest one |
| Convergence.TopStays | src/storage/put.ts:71-85 | The newest contender, not deleted by its author, stays once it came |
| Convergence.DeletedStaysAway | src/storage/deletion.ts:85-102 | What its author deleted stays away, in every order, unless somebody else named its id as well |
| Convergence.AuthorLast | src/storage/put.ts:50-121 | The order that empties a contested place |
| Convergence.AuthorFirst | src/storage/put.ts:50-121 | The order that fills it |
| MemoryIndex.MemoryIndex.Put | src/storage/memory-index.ts:63-98 | The object after a put is the value store after a put, all six maps mirroring the events |
| MemoryIndex.MemoryIndex.InsertEvent | src/storage/memory-index.ts:289-307 | Filing an event under its keys |
| MemoryIndex.MemoryIndex.RemoveEvent | src/storage/memory-index.ts:309-334 | Taking an event out of every map it is filed in, and its mark with it |
| MemoryIndex.MemoryIndex.Remove | src/storage/memory-index.ts:186-204 | Removing by id, with tombstones; the count is that of the distinct stored ids |
| MemoryIndex.MemoryIndex.Evict | src/storage/memory-index.ts:206-224 | Evicting by id, with watermarks; the count is that of the distinct stored ids |
| MemoryIndex.MemoryIndex.SetWatermark | src/storage/memory-index.ts:479-487 | A new mark replaces the one of its address, and the oldest go beyond the cap |
| MemoryIndex.MemoryIndex.TrimTombstones | src/storage/memory-index.ts:507-517 | The three tombstone collections are trimmed |
| MemoryIndex.MemoryIndex.Clear | src/storage/memory-index.ts:267-283 | Clearing leaves a new store |
| MemoryIndex.MemoryIndex.Get | src/storage/memory-index.ts:109-116 | A stored event is found under its id, in any case of letters |
| MemoryIndex.MemoryIndex.GetByAddress | src/storage/memory-index.ts:118-133 | The one stored event of an address is found, if there is one |
| MemoryIndex.MemoryIndex.MatchedEvents | src/storage/memory-index.ts:336-352 | What one filter selects through the maps is the newest-first list of all matching events, up to its limit |
| MemoryIndex.MemoryIndex.Query | src/storage/memory-index.ts:135-149 | A query is a plain scan of the stored events: match, sort and limit per filter, then merge without repeats |
| MemoryIndex.MemoryIndex.Count | src/storage/memory-index.ts:151-159 | Counting is the length of that answer |
| MemoryIndex.MemoryIndex.EachCandidate | src/storage/memory-index.ts:383-477 | Whichever map is chosen, every matching event is visited, and each once |
| MemoryIndex.MemoryIndex.NegentropyItems | src/storage/memory-index.ts:161-184 | Cut to the newest if there is a limit, then sorted, the items are those that `Items.OfferedAre` describes |
| MemoryIndex.MemoryIndex.IsDeleted | src/storage/memory-index.ts:231-250 | An id or address shows as deleted when the id is buried, or the address is closed and no event stored there is past its deletion |
| MemoryIndex.DeletedIsGone | src/storage/memory-index.ts:226-250 | As nothing stored is covered, a buried id is not stored, and a closed address shows as deleted exactly as long as it is empty |
| MemoryIndex.AllVisible | src/storage/memory-index.ts:336-352 | As nothing stored is covered, the tombstone check of a query hides nothing |
| MemoryIndex.EveryRunScans | src/storage/memory-index.ts:336-352 | In every run, a query is answered from all that is stored |
| Indexes.InsertMirrors | src/core/collections.ts:22-29 | Filing keeps a set map an exact mirror of the events |
| Indexes.RemoveMirrors | src/core/collections.ts:32-41 | So does unfiling, which drops emptied sets |
| Indexes.EpKeysAre | src/storage/memory-index.ts:520-547 | An e or p constraint is met exactly by the events filed under one of its values |
| Listing.OneListing | src/core/event.ts:157-164 | A set of events has one newest-first list |
| Listing.SortLists | src/core/event.ts:157-164 | Sorting distinct events gives it |
| Listing.LimitedPart | src/storage/sqlite.ts:634-659 | An event within the limit of a set is within the limit of every part that holds it |
| Listing.LimitedMerge | src/storage/sqlite.ts:634-659 | Limiting the union of limited parts is limiting the whole |
| Listing.UpToLimit | src/storage/idb-query.ts:316-397 | Stopping at the limit is limiting |
| Listing.AnswerMeans | src/storage/memory-index.ts:336-352 | One filter is answered by the matching events that have fewer than `limit` matching ones ahead of them: newer ones, or of one time with a lower id |
| Listing.QueryMeans | src/storage/memory-index.ts:135-149 | A query is answered by all events that one of its filters selects, each once, newest first and of one time the lower id first |
| Merge.KWayMerge | src/storage/idb-query.ts:131-307 | For cursors that each descend in time, with ties in any order, duplicates across cursors, and every interleaving of their callbacks: the events taken are the prefix, up to the stop, of the deduplicated accepted union, newest first; a run in which no request fails does not fail, and after a failing request they are a prefix of that |
| Merge.Merge.Pump | src/storage/idb-query.ts:131-307 | The pump moves on only when nothing is outstanding, and keeps the invariant of the merge |
| Merge.Merge.EmitDrain | src/storage/idb-query.ts:131-307 | A batch is given out newest first, without what was given out before |
| Merge.Merge.CursorSuccess | src/storage/idb-query.ts:131-307 | A cursor that advanced, to a row or past its end |
| Merge.Merge.ReadSuccess | src/storage/idb-query.ts:131-307 | The event behind a tag row was read |
| Merge.HeadsFirst | src/storage/idb-query.ts:131-307 | With nothing outstanding, no event is newer than the newest head |
| Merge.DrainedAll | src/storage/idb-query.ts:131-307 | With nothing outstanding, a batch holds all events of its time |
| IdbQuery.ScanFilter | src/storage/idb-query.ts:316-397 | Whichever cursors the plan opens, and however they answer, the result is the limited newest-first list of the accepted events within reach; an open-ended filter with `since` above the largest safe integer or `until` below 0 is refused; nothing else fails unless a request does |
| IdbQuery.Plan | src/storage/idb-query.ts:316-397 | At most 64 cursors are opened, and together they cover the filter |
| IdbQuery.PlanFinds | src/storage/idb-query.ts:316-397 | Their rows are every acceptable event within reach and nothing that is not stored |
| IdbQuery.FindsAll | src/storage/idb-query.ts:19-32 | For times from 0 to 2^53-1 everything accepted is within reach |
| IdbQuery.MissesExactly | src/storage/idb-query.ts:19-32 | Otherwise an accepted event is missed exactly when the filter leaves open the end at which it lies too far out |
| IdbQuery.MissesAnOldEvent | src/storage/idb-query.ts:19-32 | An event at time -1 is missed by a filter without `since` |
| IdbQuery.ScanIds | src/storage/idb-query.ts:102-128 | Getting ids one by one, then sorting and limiting, is the same list; nothing is handed out when a request fails |
| IdbQuery.EpTagPrefixes | src/storage/idb-query.ts:46-58 | The e and p constraints, value by value |
| SqlCompile.CompileFilter | src/storage/sqlite.ts:175-262 | The union of the plans selects exactly the rows that match, as far as the tables tell; every list binds at most 500 values; no plan means no match |
| SqlCompile.Chunks | src/storage/sqlite.ts:150-156 | Chunks hold at most 500 values and all of them |
| SqlCompile.Product | src/storage/sqlite.ts:240-262 | A row satisfies a plan of the product exactly when it satisfies a variant of each field |
| SqlCompile.TagInIs | src/storage/sqlite.ts:215-240 | The tags table answers a single-letter tag constraint |
| SqlCompile.NothingDeferred | src/storage/sqlite.ts:175-262 | Without multi-letter tags the tables tell all |
| SqlRows.PlanRows | src/storage/sqlite.ts:634-659 | Per-plan limit, then merge, dedupe and slice, is one global sort and limit |
| SqlRows.FilterRows | src/storage/sqlite.ts:600-632 | What one filter selects from the tables is what it selects by a plain scan, deferred tags included |
| SqlStore.PartialDecides | src/storage/put.ts:50-85 | The policy decides the same on a lookup that agrees only on what the event names |
| SqlStore.SqliteEventStore.BuildLookup | src/storage/sqlite.ts:339-413 | The partial lookup agrees with the memory index on all of that |
| SqlStore.SqliteEventStore.Put | src/storage/sqlite.ts:306-313 | A put on the tables simulates a put on the memory index, with the same result |
| SqlStore.SqliteEventStore.PersistPlan | src/storage/sqlite.ts:454-485 | The tombstone rows follow the plan |
| SqlStore.SqliteEventStore.InsertRow | src/storage/sqlite.ts:495-521 | No constraint of the tables is violated, and tag rows match the tags |
| SqlStore.SqliteEventStore.Remove | src/storage/sqlite.ts:710-727 | Removing simulates the removal of the index, with the same count |
| SqlStore.SqliteEventStore.Query | src/storage/sqlite.ts:545-566 | A query is answered as the index answers it |
| SqlStore.SqliteEventStore.Count | src/storage/sqlite.ts:568-584 | A count as well |
| SqlStore.SqliteEventStore.NegentropyItems | src/storage/sqlite.ts:586-593 | The items offered from the tables are those that a plain scan selects, in the order of reconciliation |
| SqlStore.OneRowPerAddress | src/storage/sqlite.ts:71-112 | No address is held by two rows |
| SqlLockstep.Lockstep | src/storage/sqlite.ts:306-743 | From empty, every run of put, remove, clear, get, query, count and offering items for reconciliation gives the same replies on the tables and on an uncapped memory index |
| SqlLockstep.Ask | src/storage/sqlite.ts:306-743 | Each single call does, and keeps the simulation |
| Reactive.ReactiveEventStore.GetSnapshot | src/store/reactive.ts:128-139 | In every reachable state a snapshot equals a fresh computation on the index, and its reference changes exactly when its elements do |
| Reactive.ReactiveEventStore.Add | src/store/reactive.ts:256-272 | Adding puts into the index, then evicts the least recently used events that are neither pinned nor the one just added; then the size is within the cap or all the others are pinned. Every subscribed watch that shows something else now waits to be notified |
| Reactive.ReactiveEventStore.Hydrate | src/store/reactive.ts:293-300 | Hydrating puts all events, oldest first, and evicts once; every subscribed watch that shows something else now waits to be notified |
| Reactive.ReactiveEventStore.EvictIfNeeded | src/store/reactive.ts:638-662 | Exactly the chosen ids are evicted, and no pinned or protected one |
| Reactive.ReactiveEventStore.Remove | src/store/reactive.ts:302-304 | Removing by id keeps watches, pins and recency in step, and notifies likewise |
| Reactive.ReactiveEventStore.Clear | src/store/reactive.ts:306-312 | So does clearing, after which every registered watch that asks about anything waits to be notified |
| Reactive.ReactiveEventStore.Get | src/store/reactive.ts:314-320 | A read makes the event the one used last |
| Reactive.ReactiveEventStore.GetByAddress | src/store/reactive.ts:326-332 | So does a read by address |
| Reactive.ReactiveEventStore.Query | src/store/reactive.ts:334-342 | A query is a scan, and touches its events from the oldest to the newest |
| Reactive.ReactiveEventStore.WatchFor | src/store/reactive.ts:356-400 | A watch is cached under its id, its address or the fingerprint of its filters, or made with a snapshot that is current |
| ReactiveSpec.SameKeyShows | src/store/reactive.ts:383-400 | A cached watch for other filters of the same fingerprint shows the same in every state |
| ReactiveSpec.CanonicalQuery | src/core/filter.ts:142-150 | Lists of the same canonical filters have the same answer, limits included |
| Reactive.ReactiveEventStore.Subscribe | src/store/reactive.ts:105-126 | Subscribing registers and pins the watch, and does not lose writes it missed |
| Reactive.ReactiveEventStore.Unsubscribe | src/store/reactive.ts:105-126 | The last subscriber leaves the watch to be unregistered |
| Reactive.ReactiveEventStore.RunUnregister | src/store/reactive.ts:211-242 | The deferred step unregisters, unpins and uncaches it unless it was subscribed again |
| Reactive.ReactiveEventStore.Repin | src/store/reactive.ts:211-242 | A registered watch pins what it now shows |
| Reactive.ReactiveEventStore.InvalidateByEvent | src/store/reactive.ts:514-572 | Marked dirty and put among those to notify, with a flush scheduled, are exactly the registered watches that the event touches, or whose id or address it asks to delete; nothing that waited is lost |
| Reactive.ReactiveEventStore.Flush | src/store/reactive.ts:602-619 | A flush calls exactly the subscribers of the watches that wait |
| ReactiveRuns.RunAndFlush | src/store/reactive.ts:500-619 | Over any run of calls and the flush after it: whoever was subscribed to a watch from the start and stayed is called if a read of the watch would return something else than at the start |
| ReactiveRuns.Do | src/store/reactive.ts:256-400 | Each single call keeps the store in order, all watches with the subscribers that did not leave, and whoever waits; and whoever is shown something else waits after it |
| Reactive.AlertedAfter | src/store/reactive.ts:500-572 | Writes whose callbacks name all that changed make every subscribed watch wait that shows something else |
| Reactive.AllFiled | src/store/reactive.ts:574-600 | The maps that clearing goes through hold exactly the registered watches that ask about anything |
| Reactive.ShownArePinned | src/store/reactive.ts:211-242 | What a registered watch shows is pinned, and so is spared by eviction |
| Reactive.CoherentAfter | src/store/reactive.ts:500-572 | Writes whose callbacks name all that changed leave every subscribed watch that is not dirty, and every watch of the current version, fresh |
| Reactive.PinsWith | src/store/reactive.ts:621-636 | A pin count is the number of occurrences across registered snapshots |
| ReactiveSpec.Untouched | src/store/reactive.ts:514-572 | What a watch shows does not change unless an event that touches it comes or goes |
| ReactiveSpec.PutChangesAll | src/store/reactive.ts:500-512 | Every event that a put adds or takes away has a callback |
| ReactiveSpec.RemovalChangesAll | src/store/reactive.ts:500-512 | So has every event that a removal or eviction takes away |
| ReactiveSpec.PutIds | src/store/reactive.ts:482-512 | The callbacks of a put account for the ids stored after it |
| ReactiveSpec.ChosenAre | src/store/reactive.ts:638-662 | The evicted ids are the least recently used of those that may go, as many as are too many, or all |
| ReactiveSpec.UsedInOrder | src/store/reactive.ts:482-485 | An id that was used stands before another in the order of use only if that one was used later |
| Items.OldestFirstSorts | src/core/event.ts:166-178 | The order of reconciliation and hydration: the same events, by time and then by id |
| Items.OldestFirstMeans | src/core/event.ts:166-178 | Older events come first, and of one time none before one with a lower id |
| Items.OneOrder | src/core/event.ts:166-178 | Distinct events have one such order |
| Items.OfferedAre | src/storage/memory-index.ts:161-184 | The items offered for reconciliation rise strictly and are those of the newest matching events, up to the limit of the filter |
| ReactiveSpec.FormattedKey | src/store/reactive.ts:366-381 | The key that a replaceable watch is filed under is the one that writes look for |
| RegistryTotals.EveryRun | src/relay/subscription-registry.ts:29-309 | In every run of allowed calls: the three maps agree, a fingerprint leads to a registered group of that fingerprint, no registered group is without attachments, nothing open is out of reach, an id is closed on the wire no more often than REQs under it ended, each subscriber is told of its end exactly when it ended and once, and hears of matching events only |
| RegistryTotals.StepExactly | src/relay/subscription-registry.ts:29-309 | A call keeps the maps, the groups and the reach in order if and only if it does not open a REQ under the id of an open one, nor drop a REQ whose id an open one-shot REQ has taken over |
| RegistryTotals.StepFine | src/relay/subscription-registry.ts:29-309 | Every single allowed call keeps all of that, totals included |
| RegistryTotals.ClosedOncePerId | src/relay/subscription-registry.ts:280-309 | An id that only one REQ ever had is closed on the wire once at most, and not while that REQ is open |
| RegistryRuns.LastHandleCloses | src/relay/subscription-registry.ts:280-309 | Closing the last handle on an open socket sends one CLOSE and takes the group off all maps; closing another sends nothing and leaves the group |
| RegistryTotals.LastCloseCounts | src/relay/subscription-registry.ts:280-309 | It adds one CLOSE of that id, the only one if no other REQ had the id |
| RegistryTotals.ListedOpenSteps | src/relay/subscription-registry.ts:188-207 | Every listed REQ is open, unless a one-shot REQ is opened with a signal already aborted: if and only if that happens a closed REQ becomes listed |
| RegistryTotals.AbortedOnce | src/relay/subscription-registry.ts:188-207 | With an aborted signal on an open socket the CLOSE is sent, then the REQ, and the closed REQ stays listed |
| RegistryTotals.LeavesOneBehind | src/relay/subscription-registry.ts:188-207 | The first REQ of a fresh registry can be left behind so |
| RegistryTotals.RepeatedIdDisagrees | src/relay/subscription-registry.ts:200-233 | A one-shot REQ under the id of a live one makes the two maps of ids disagree |
| RegistryRuns.OpenExclusiveExactly | src/relay/subscription-registry.ts:188-207 | Opening a one-shot REQ keeps the registry in order if and only if no open REQ is listed under its id |
| RegistryRuns.StartExactly | src/relay/subscription-registry.ts:214-233 | So does opening a live REQ with a wire of its own |
| RegistryRuns.OpenLiveExactly | src/relay/subscription-registry.ts:209-267 | A live REQ that joins a wire keeps it in order under any id, and one that does not if and only if no open REQ is listed under its id |
| RegistryRuns.DropExactly | src/relay/subscription-registry.ts:107-115 | Dropping a REQ keeps it in order if and only if no other open one-shot REQ is listed under its id |
| RegistryRuns.AuthRetryExactly | src/relay/subscription-registry.ts:121-135 | So does the end of an authentication, whatever it came to |
| RegistryTotals.LateRetryForgets | src/relay/subscription-registry.ts:121-135 | An authentication that ends after its REQ was closed, and its id reused by a one-shot REQ, takes that one off the list while it is open |
| RegistryTotals.LateRetryEnds | src/relay/subscription-registry.ts:107-135 | If a live REQ has reused the id, all its handles are closed |
| RegistryRuns.RetiredSound | src/relay/subscription-registry.ts:269-309 | The end of a group keeps the maps in step |
| RegistryRuns.CloseAllSound | src/relay/subscription-registry.ts:173-186 | After closeAll nothing is open, listed or attached |
| RegistryTotals.CloseAllTally | src/relay/subscription-registry.ts:173-186 | Each open subscriber is told once |
| RegistryTotals.SameMeaning | src/relay/subscription-registry.ts:209-267 | An attachment asks for what its wire asks for, as equal fingerprints mean the same (`Fingerprints.FingerprintFaithful`) |
| RegistryTotals.DeliveriesFit | src/relay/subscription-registry.ts:311-346 | An event is delivered only to handlers whose own filters match it |
| RegistryReach.EoseTold | src/relay/subscription-registry.ts:92-171 | In every run: once a REQ was sent, at first, after a reconnect or after an authentication, its EOSE is told once to everyone under its id who is open when it comes in, unless an EOSE of the id came in before or the timer of the subscriber went off |
| RegistryReach.EoseReaches | src/relay/subscription-registry.ts:92-104 | An EOSE is told once to everyone open under its id who waits for it, and to nobody else |
| RegistryReach.EoseSettles | src/relay/subscription-registry.ts:92-104 | Right after it nobody under the id waits for another one |
| RegistryReach.NoLateJoin | src/relay/subscription-registry.ts:209-218 | And no live REQ can join the wire of the id then |
| RegistryReach.ReplaySends | src/relay/subscription-registry.ts:150-171 | After a reconnect the open listed REQs are sent again in the order of the list, each once with its filters bound by its watermark, until the socket takes no more; nothing else is sent and nobody is told anything |
| RegistryReach.ReplayAwaits | src/relay/subscription-registry.ts:150-171 | Everything under the id of a REQ that is sent again waits for an EOSE, and may be authenticated for once more; nothing else about it changes |
| RegistryReach.RetryAwaits | src/relay/subscription-registry.ts:121-148 | Everything under the id of a REQ that is sent again after an authentication waits for an EOSE; nothing else about it changes |
| RegistryReach.AskedAwaits | src/relay/subscription-registry.ts:92-267 | Whenever a REQ is sent, everything under its id waits for its EOSE |
| RegistryReach.EventReaches | src/relay/subscription-registry.ts:64-90 | An event is announced once to everyone open under its id, and given once to those who lack it if the REQ lets it through: accepted, matching, and not at the watermark; nobody else hears of it |
| RegistryReach.EventNoted | src/relay/subscription-registry.ts:311-346 | Those who are given an event note it at their watermark, and the wire that brought it does; nobody else changes |
| RegistryReach.OneRetry | src/relay/subscription.ts:172-183 | In every run a reconnect lies between any two retries of one REQ after an authentication was demanded |
| RegistryWire.ServesOpen | src/relay/subscription-registry.ts:29-309 | In every run, from the start or from a reconnect that got through: the ids that the relay serves, after what it was sent and what it closed itself, are exactly those of the open REQs, for as long as the socket stays open and no one-shot REQ comes with an aborted signal |
| RegistryWire.StepServes | src/relay/subscription-registry.ts:29-309 | Each single call keeps the two agreed |
| RegistryWire.OpenOffline | src/relay/subscription-registry.ts:188-267 | On a closed socket nothing is sent, and a reconnect is asked for exactly when a REQ is made and reconnects are on |
| SubscriptionRegistries.SubscriptionRegistry.OpenExclusive | src/relay/subscription-registry.ts:188-207 | The object after opening a one-shot REQ, under any id, and when it is in order then |
| SubscriptionRegistries.SubscriptionRegistry.OpenLive | src/relay/subscription-registry.ts:209-267 | The object after opening a live REQ, joined to a wire of its fingerprint or with one of its own, under any id, and when it is in order then |
| SubscriptionRegistries.SubscriptionRegistry.CloseSub | src/relay/subscription.ts:122-130 | The object after a close, through its detach and the end of the group |
| SubscriptionRegistries.SubscriptionRegistry.EndLiveGroup | src/relay/subscription-registry.ts:290-309 | The end of a group, handle by handle |
| SubscriptionRegistries.SubscriptionRegistry.DetachLive | src/relay/subscription-registry.ts:280-288 | A handle leaves its group, and the last one ends it |
| SubscriptionRegistries.SubscriptionRegistry.MarkEose | src/relay/subscription.ts:152-165 | An EOSE is told once, and closes a one-shot REQ |
| SubscriptionRegistries.SubscriptionRegistry.HandleEose | src/relay/subscription-registry.ts:92-104 | An EOSE of a wire reaches the open handles that still wait |
| SubscriptionRegistries.SubscriptionRegistry.HandleEvent | src/relay/subscription-registry.ts:64-90 | An event reaches exactly the open recipients that lack it, if it is not at the watermark, matches, and is accepted |
| SubscriptionRegistries.SubscriptionRegistry.DropSub | src/relay/subscription-registry.ts:107-115 | The end of what is kept under the id of a REQ that the relay closed, without a CLOSE |
| SubscriptionRegistries.SubscriptionRegistry.BeginAuthRetry | src/relay/subscription.ts:172-179 | The first retry wins, and later calls change nothing |
| SubscriptionRegistries.SubscriptionRegistry.AuthRetry | src/relay/subscription-registry.ts:121-135 | After authentication the REQ is sent again, or dropped when that failed, the REQ was closed, the socket is closed, or the message does not get out |
| SubscriptionRegistries.SubscriptionRegistry.ReplayAll | src/relay/subscription-registry.ts:150-171 | The object after replayAll, whose meaning is stated by `RegistryReach.ReplaySends` and `RegistryReach.ReplayAwaits`; the result says whether the socket took everything |
| SubscriptionRegistries.SubscriptionRegistry.CloseAll | src/relay/subscription-registry.ts:173-186 | The object after closeAll |
| SubscriptionRegistries.SubscriptionRegistry.NoteVerified | src/relay/subscription.ts:214-225 | The watermark step, whose meaning over all deliveries is stated by `Resume.MarkExact` |
| SubscriptionRegistries.SubscriptionRegistry.ReplayFilters | src/relay/subscription.ts:231-240 | The filters with the watermark as their lower bound |
| Resume.MarkExact | src/relay/subscription.ts:208-225 | The watermark is the highest clamped stamp of all deliveries, and its ids are those delivered with that stamp |
| Resume.ReplayAsks | src/relay/subscription.ts:227-240 | The filters sent again match exactly the matching events from the watermark on |
| Resume.NothingLost | src/relay/subscription.ts:198-240 | A matching event is not asked for again only if a later one was delivered, is dropped as known only if its id was, and the bound is never ahead of every clock |
| Routing.RouteKeepsMeaning | src/gossip/gossip.ts:237-318 | The per-relay filters and the remainder match exactly what the filter matches, for every table, if and only if the filter does not combine an empty author list with p tags in an otherwise satisfiable filter |
| Routing.EmptyAuthorsWiden | src/gossip/gossip.ts:249-252 | A filter with no authors listed and one p tag matches nothing, and its parts match an event |
| Routing.RouteLosesNothing | src/gossip/gossip.ts:237-318 | What the filter matches is always matched by a part |
| Routing.RouteMeans | src/gossip/gossip.ts:237-318 | The parts match what the filter without its empty author list matches |
| Routing.SplitPlaces | src/gossip/gossip.ts:279-318 | A pubkey is in the filter of a relay exactly when the relay is on its list, and in the remainder exactly when it has no route in that direction |
| RouteReach.AuthorsRouted | src/gossip/gossip.ts:237-318 | In every run of lists and lookups a filter for authors goes to a url exactly if an item of that normal form, not marked for reading and within the cut, is on the list in force of one of them, with exactly those authors of whom that is so; what is left are the authors without any such item, or the whole filter |
| RouteReach.TagsRouted | src/gossip/gossip.ts:237-318 | A filter for p tags alone goes likewise by the items not marked for writing, without its empty list of authors |
| RouteReach.BothRouted | src/gossip/gossip.ts:254-277 | A filter for both goes whole to every url that is on the list of any of the pubkeys in either direction, and is left whole if some pubkey has none |
| RouteReach.CollectedOnList | src/gossip/gossip.ts:134-149 | A url is kept in a direction exactly if an item of it is not marked for the other one, and fewer other urls than the cap come before it |
| RouteReach.NewestInForce | src/gossip/gossip.ts:111-132 | As long as a pubkey is not evicted its list in force is one that came in, and none wins over it |
| RouteReach.DmOffered | src/gossip/gossip.ts:163-198 | The delivery relays kept are the first of the list in force, up to the cap, in normal form, each once and without empty texts |
| Routing.OpenMatches | src/core/filter.ts:18-62 | Some event matches a filter exactly when no list of it is empty and its time window is not |
| RouteTable.LatestInForce | src/gossip/gossip.ts:111-132 | Of lists taken in by the guards alone, without a table that forgets, the one in force is among them and none wins over it |
| RouteTable.IngestOrderFree | src/gossip/gossip.ts:111-132 | So without a table that forgets their order does not matter |
| RouteRuns.SlotFollows | src/gossip/gossip.ts:89-198 | In every run of lists and lookups on the table, as long as a pubkey is not evicted, its list in force is the one that the guards alone lead to |
| RouteRuns.LatestKept | src/gossip/gossip.ts:89-198 | So it is among the lists that came in and none wins over it; there is none only if all bear a time before 0 |
| RouteRuns.ArrivalOrderFree | src/gossip/gossip.ts:89-198 | And two such runs with the same lists of a pubkey end with the same one in force |
| RouteRuns.RelaysAreListed | src/gossip/gossip.ts:134-198 | In every run, evictions included, the relays kept for a pubkey are those of its list in force, normalized, deduplicated and cut off |
| RouteRuns.FewKept | src/gossip/gossip.ts:329-333 | With no more pubkeys than the cap none is ever evicted |
| RouteRuns.RemembersExactly | src/gossip/gossip.ts:111-198 | For every set of pubkeys: in all runs about them each list is accepted or refused as if nobody had been evicted, if and only if there are no more of them than the cap |
| RouteRuns.OlderListTakesOver | src/gossip/gossip.ts:111-161 | With a cap of one, an older list of a pubkey takes over once another pubkey was ingested |
| RouteTable.RecentKept | src/gossip/gossip.ts:320-333 | A pubkey just used keeps its routes through any uses of fewer other pubkeys than the cap |
| Gossips.Gossip.RouteFilter | src/gossip/gossip.ts:237-277 | The loops compute the routing, and change only the order of use; `RouteReach.AuthorsRouted`, `RouteReach.TagsRouted` and `RouteReach.BothRouted` tell where it leads |
| Gossips.Gossip.BreakAuthors | src/gossip/gossip.ts:279-318 | The split loop computes the split, whose relays `RouteReach.AuthorsRouted` and `RouteReach.TagsRouted` tell from the lists |
| Gossips.Gossip.SetRoutes | src/gossip/gossip.ts:111-161 | A relay list is accepted or refused, normalized, deduplicated and cut off |
| Gossips.Gossip.SetDmRoutes | src/gossip/gossip.ts:163-198 | So is a list of delivery relays |
| Gossips.Gossip.Lookup | src/gossip/gossip.ts:320-327 | A lookup refreshes the order of use and nothing else |
| Gossips.Gossip.Store | src/gossip/gossip.ts:329-333 | A write goes to the newest end, and the oldest go beyond the cap |
| Padding.PadRoundTrip | src/nips/nip44.ts:92-131 | `unpad` gives back every plaintext of 1 to 2^32-1 bytes from its padding, in both prefix forms, and no other length can be padded |
| Padding.UnpadExactly | src/nips/nip44.ts:106-131 | `unpad` gives a plaintext back exactly when prefix, plaintext and total length agree, whatever the padding bytes are |
| Padding.PaddedFits | src/nips/nip44.ts:62-72 | The padded length is not below the length, at least 32, and not above the next power of two |
| Padding.PaddedShort | src/nips/nip44.ts:62-72 | Up to 256 bytes the padded length is the least multiple of 32 that is not below the length |
| Padding.PaddedLong | src/nips/nip44.ts:62-72 | Above 2^k and up to 2^(k+1) bytes, for k from 8, it is the least multiple of 2^(k-2) that is not below the length |
| Padding.PaddedVectors | src/nips/nip44.ts:62-72 | The padded lengths of the published test vectors, such as 64 for 33 bytes, 128 for 100 and 1024 for 900 |
| Padding.PadLayout | src/nips/nip44.ts:92-104 | The prefix is the length as two bytes, or two zero bytes and the length as four, most significant first; then come the plaintext and zero bytes up to the padded length |
| Padding.PaddedMonotone | src/nips/nip44.ts:62-72 | It is monotone |
| Padding.PaddedIdempotent | src/nips/nip44.ts:62-72 | It is idempotent |
| Padding.PaddedLeast | src/nips/nip44.ts:62-72 | It is the least padded length not below the length |
| Padding.PaddedOverhead | src/nips/nip44.ts:62-72 | Above 256 bytes it adds less than a quarter |
| Padding.PadBytes | src/nips/nip44.ts:92-104 | The buffers are put together as specified, which `Padding.PadLayout` spells out |
| Padding.WriteU16BE | src/nips/nip44.ts:74-81 | Two bytes, most significant first, for 1 to 65535 |
| Padding.WriteU32BE | src/nips/nip44.ts:83-90 | Four bytes for 65536 to 2^32-1 |

## Left out

- Frame truncation in NIP-77: for which other sessions with a message cut short the result is still exact is not said.
- NegSession.RunNegSession: the transport is a call of the responder; dropped or late messages are not modelled.
- NegSession.Negentropy.Reconcile: messages are bytes here and hexadecimal text in the source.
- NegSession.Negentropy.Initiate: the same.
- NegStorage.NegentropyStorageVector.Insert: an id is given as bytes, not as hexadecimal text.
- Sums of timestamps beyond 2^53, which only a dishonest peer can cause, are exact here and rounded in the source.
- The built-in sort is a stand-in insertion sort with the same result; the built-in order of string units stands for the
  order of ids.
- `toLowerCase` acts on the letters A to Z.
- Coordinates are values with three fields inside the stores; `Events.AddressRoundTrip` says why that loses nothing.
- Signatures, hashes and event validation are a predicate on events.
- Tombs.DecidePut: the shortcut for events already marked as verified is not modelled.
- The outbox bounds and `putMany` of the stores, which add maps or loops beside those modelled; `isDeleted` is modelled
  for the memory index only, as the SQL store has none, and `negentropyItems` for these two stores but not for the
  IndexedDB one.
- MemoryIndex.MemoryIndex.NegentropyItems: events are collected and sorted, and their ids and times are read off last.
- MemoryIndex.MemoryIndex.Put: the callbacks are not calls from within the index; `Reactive` runs them, as
  `ReactiveSpec.PutChanges` lists them, after the index has changed. Outbox bounds are left out.
- MemoryIndex.MemoryIndex.InsertEvent: without its callback, as above.
- MemoryIndex.MemoryIndex.RemoveEvent: without its callback, as above.
- MemoryIndex.MemoryIndex.Clear: without the outbox bounds.
- Handlers and callbacks do not call back into the store or the registry.
- Watches and subscriptions are values under handles inside one object, not objects of their own, so that aliasing is not
  modelled.
- Reactive.ReactiveEventStore.GetSnapshot: events are compared by value where the source compares references, and a new
  stamp of a watch stands for a new reference.
- Reactive.ReactiveEventStore.Add: the relays an event was seen on are not recorded.
- Reactive.ReactiveEventStore.Flush: as subscribers do not write, one pass over the marked watches is the whole loop; the
  order of the calls is not modelled.
- SqlStore.SqliteEventStore.BuildLookup: each lookup is one SELECT, not one for each chunk of 500.
- The SQL engine, transactions and migrations: tables are maps and sets, a SELECT is a method with the meaning of its
  clauses.
- IndexedDB itself: a cursor is a list of rows in an order its index allows, and requests answer in any order.
- Limits are natural numbers or absent; negative and fractional ones are not modelled.
- The JSON text of a canonical filter is a parameter; all that is asked of it is that the text of one begins that of no
  other (`Fingerprints.PrefixFree`), as holds of texts that end with their own closing brace. The `search` text of a
  filter, which no local match looks at, is not modelled.
- RegistryTotals.EveryRun: calls that would break the registry, which are exactly those that `RegistryTotals.StepExactly`
  names, are not part of a run: opening under the id of a REQ that is still open, and dropping a closed REQ whose id an
  open one-shot REQ has taken over.
- A send that fails although the socket says it is open is modelled for the replays after a reconnect and after an
  authentication only.
- URL normalization is a function that may fail; the parsing of list events is not modelled, and neither is clearing the
  table in the middle of a run.
- Gossips.Gossip.RouteFilter: per-relay filters are a map, without the order in which relays were met.
- Gossips.Gossip.BreakAuthors: the same.
- Padding.Padded: the binary logarithm is exact, while the floating-point one of the source may round up from about 2^48
  on, far above the largest plaintext; text and its UTF-8 bytes are not told apart.
- Encryption, connection handling, loaders, signers, list parsers, builders and the client facade.

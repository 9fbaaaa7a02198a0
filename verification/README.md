# A verified model of shard-common

shard-common is the Go library that the nodes of a sharded transaction multicast network share:
an in-memory TTL cache, self-delimiting object codecs with a stream reader, bundle coalescing
(BRC-142), the shard manifest protocol (BRC-139, BRC-148) and two-tier transaction claims. This
project models those five parts in Dafny and proves what they guarantee: invariants of every
reachable state, refinement of simple reference behaviour, round trips, conservation, optimality,
and safety and progress over whole runs.

`dafny verify dfyconfig.toml` checks everything.

Each part has a specification on values (functions) and, where the source changes state or loops,
classes and methods proved equal to that specification. The laws are lemmas about the
specification, so they hold of the methods too. Every lemma carries `{:induction false}`: no proof
relies on automatic induction.

| files | part |
|---|---|
| `CacheSpec`, `CacheInvariant`, `CachePut`, `CacheRuns`, `CacheItems` | one cache shard as a value, its invariant, runs of the 64-shard backend, and the size of its queues |
| `CacheQueue`, `CacheShard`, `CacheBackend` | the array-backed queue, the mutable shard, the backend |
| `ObjSize`, `TxStandard`, `ObjWalk`, `StreamReader` | object sizes, Extended Format, the walking loops, the stream reader |
| `Frames`, `SubtreeLoops`, `WrapStrip` | frame and subtree payload codecs, multicast wrap and strip |
| `Sharding`, `BundleCodec`, `Packing`, `Coalescing`, `CoalescerObject` | shard derivation, bundle codec, greedy packing, the coalescer |
| `Domains`, `ManifestCodec`, `ManifestLaws`, `ManifestLoops` | object planes and the manifest codec |
| `Registry`, `RegistryRuns` | registry entries, and runs of received manifests and sweeps |
| `Evaluator`, `EvaluatorTally`, `EvaluatorObject`, `EvaluatorRuns` | one evaluation pass, its object, and runs of passes |
| `LocalSet`, `Claims` | the local TxID set and the claim protocol |

## Modelling choices

- SHA-256, CRC32C and XXH64 are function parameters. Clocks are parameters of each operation; a run
  of the cache has a non-decreasing clock, and a Get is judged by the clock as read after the lock.
- Where candidates tie, the evaluator takes whichever its map iteration meets first. A pass takes its
  choices as an input restricted to leading candidates; the object's pass returns the choices it made.
- Integers are unbounded except where width matters: lengths, counts, offsets and checks that wrap at
  16, 32 or 64 bits do so here, and a deadline that would overflow means "never expires".
- The cache's unlimited expiry budget (`math.MaxInt`) is a budget above the number of items. Slice
  growth by `append` is doubling.
- Where the source would stop with a run-time panic the model has an outcome for it: `RuntimePanic` for
  a subtree payload whose declared counts make it allocate out of range, `Panicked` for a stream reader
  whose bound makes it ask for a buffer of negative length. `Stalled` is a stream reader that, at the
  bound -4096, reads into an empty buffer over and over until the source fails.
- Sorting by a library call is insertion into an ordered list. Lists that the source builds from map
  keys and then sorts, and field-name strings, are sets and a datatype of fields.
- The comment on `varInt` (`objfmt/tx.go:30-32`) can be read as refusing over-wide encodings; the code
  accepts them and so does the model. The comment on `PilotGroups` speaks of quorum; the code does
  not gate it and neither does the model.

## Results that are not what the source suggests

Each has a lemma with a concrete input and a lemma with the exact condition.

- The subtree payload decoder multiplies its declared counts in 64-bit arithmetic before it checks
  them, so some counts pass the length check by wrapping around and then stop the program. The 32-byte
  payload of `WrappedCountPanics` declares 2^59 hashes. `SubtreePanicsExactly` says which payloads do
  this, in terms of the two counts and the length; `LeastSlip` gives the smallest such count and a whole
  range that passes whatever the length; `HonestCountsNeverPanic` gives the bounds below which it cannot
  happen. For `StripBytes` of a subtree frame this means the same (`StripPanicsExactly`,
  `WrappedCountStopsStrip`), but never for a frame that wrapping an object produced (`WrapStripSubtree`:
  it is delivered back or refused).
- Wrap and strip do not undo each other on every object. For a block, a subtree and a BEEF object they
  do exactly below a length limit (`WrapStripBlock`, `WrapStripSubtree`, `WrapStripBEEF`); `LongBlockLost`,
  `LongSubtreeLost` and `LongBEEFLost` are objects that do not come back.
- A bundle with carried TxIDs can outgrow its 32-bit section length; it then does not decode
  (`BundleCodec.RoundTrip`, `LargestBundleLost`).
- A group index has 16 bits on the wire while the shard engine takes any width. Re-bucketing keeps
  transactions inside their group up to width 16 and at no wider one (`RebucketRefines`,
  `RebucketTooWide`, `SixteenBitsExactly`). The widths the planes allow end at 15.
- The local TxID set does not always evict its oldest key: a stale key presented again occupies two
  slots and can be forgotten early (`StaleKeyForgotten`). `FifoExactly` says when it is a queue, and
  `FifoWithoutStaleHits` what a caller can see beforehand: nothing goes wrong until some call finds its
  key present but expired, the test at `txidset/local.go:86-92`.
- `Snapshot` is documented as listing currently valid entries. It lists what no sweep has removed: right
  after a sweep that is the same (`SweptIsValid`), otherwise an expired manifest still counts
  (`UnsweptStaysHeld`, `HeldExactly`).

## Model

| member | source | states |
|---|---|---|
| `CacheInvariant.EmptyInv` | cache/memory/memory.go:103-145 | the empty shard satisfies the shard invariant: counts match contents, queue TTLs distinct, TTL queues sorted by deadline, forever queue in write order, every entry has a current queue item |
| `CacheInvariant.ExpireQueueInv` | cache/memory/memory.go:368-374 | expiring one queue keeps the invariant and removes only expired entries |
| `CacheInvariant.ExpireComplete` | cache/memory/memory.go:357-364 | an expiry pass that ends with budget left leaves no expired entry in the shard |
| `CacheInvariant.ExpirerHoldInv` | cache/memory/memory.go:510-522 | a bounded hold of the expirer removes only expired entries; a hold that asks for another has taken a whole batch off the queues; the hold that reports no more work leaves no expired entry and no empty queue |
| `CacheInvariant.EvictOrder` | cache/memory/memory.go:379-396 | a successful eviction removes exactly one entry: one of minimal deadline, or the least recently written forever entry when no TTL entry is left; it fails only on an empty shard |
| `CachePut.RoomInOrder` | cache/memory/memory.go:335-353 | making room removes entries only in removal order; no live entry goes while an expired one stays |
| `CachePut.CompactInv` | cache/memory/memory.go:425-444 | compaction keeps the invariant and all entries, and leaves only current items queued |
| `CachePut.WriteInv` | cache/memory/memory.go:289-317 | a write keeps the invariant, binds the key, and drops nothing but expired entries |
| `CachePut.PutInv` | cache/memory/memory.go:272-318 | put as a whole keeps the invariant, binds the key to the value and deadline, keeps every other entry unchanged or loses it only if it has expired or leaves before every entry kept, loses only expired entries where the caps leave room, and makes a value that never expires the last to leave |
| `CachePut.RemoveInv` | cache/memory/memory.go:232-241 | deleting a key keeps the invariant, every other entry and every queue, and leaves no current item of the key |
| `CachePut.PutCaps` | cache/memory/memory.go:272-292 | every write leaves the shard within its key cap and its byte cap unless one value accounts for all bytes, also when making room evicts the key being rewritten |
| `CacheRuns.ReachableStates` | cache/memory/memory.go:196-241 | the invariant and both caps hold in every state any interleaving of Set, SetNX, Get, Del and expirer holds reaches |
| `CacheRuns.RefinesPlainMap` | cache/memory/memory.go:196-318 | without caps every run answers exactly as a map from key to value and deadline that is never swept |
| `CacheRuns.HitsAreTrue` | cache/memory/memory.go:196-229 | under any caps every hit is the last acknowledged write of its key, still alive, and every refused create names such a write |
| `CacheItems.PutItems` | cache/memory/memory.go:272-318 | where no pair of key and deadline is queued twice and the write's pair is not queued, the write leaves at most 2 * entries + 1024 items, and again no pair queued twice |
| `CacheItems.QueuesStaySmall` | cache/memory/memory.go:425-430 | that bound holds after every write of every run in which no write queues a pair that is queued at the time |
| `CacheQueue.Queue.Push` | cache/memory/memory.go:464 | appends to the queued items |
| `CacheQueue.Queue.Pop` | cache/memory/memory.go:469-476 | pops in FIFO order; over the queue's life its own compaction moves no more items than were popped |
| `CacheQueue.Queue.Compact` | cache/memory/memory.go:481-491 | keeps the queued items while moving them to the front or to a smaller array |
| `CacheQueue.Queue.Keep` | cache/memory/memory.go:434-444 | filters the queue in place down to its current items, in order |
| `CacheShard.Shard.Pop` | cache/memory/memory.go:400-407 | the mutable shard takes one queue's head as the specification does |
| `CacheShard.Shard.ExpireQueue` | cache/memory/memory.go:368-374 | the loop computes the specification's expiry of one queue within its budget |
| `CacheShard.Shard.Expire` | cache/memory/memory.go:357-364 | the loop over the queues computes the specification's expiry pass |
| `CacheShard.Shard.DropStale` | cache/memory/memory.go:410-415 | drops exactly the stale heads of a queue |
| `CacheShard.Shard.Evict` | cache/memory/memory.go:379-396 | the scan over the queues evicts what the specification evicts |
| `CacheShard.Shard.MakeRoom` | cache/memory/memory.go:335-342 | the terminating loop frees a key slot as specified |
| `CacheShard.Shard.MakeRoomBytes` | cache/memory/memory.go:346-353 | the terminating loop frees bytes as specified |
| `CacheShard.Shard.Compact` | cache/memory/memory.go:425-430 | filters every queue and recounts the items |
| `CacheShard.Shard.QueueFor` | cache/memory/memory.go:322-331 | finds the queue of a TTL, or opens one |
| `CacheShard.Shard.Put` | cache/memory/memory.go:272-318 | the mutable put equals the specification's put under the caps |
| `CacheShard.Shard.DropEmptyQueues` | cache/memory/memory.go:448-457 | forgets exactly the TTL queues without items |
| `CacheShard.Shard.ExpirerHold` | cache/memory/memory.go:510-522 | one lock hold of the expirer equals the specification's, including whether to continue |
| `CacheBackend.ShardFor` | cache/memory/memory.go:185-193 | the FNV loop picks the specification's shard |
| `CacheBackend.Backend.Set` | cache/memory/memory.go:210-217 | takes the specification's Set step on the key's shard and no other |
| `CacheBackend.Backend.SetNX` | cache/memory/memory.go:196-207 | takes the SetNX step and reports whether it created the key |
| `CacheBackend.Backend.Get` | cache/memory/memory.go:220-229 | answers the Get step, judged by the clock read after the lookup |
| `CacheBackend.Backend.Del` | cache/memory/memory.go:232-241 | takes the Del step |
| `CacheBackend.Backend.ExpireHold` | cache/memory/memory.go:510-522 | takes one expirer hold on one shard, with the effect and the progress just stated |
| `CacheBackend.Backend.ExpireShard` | cache/memory/memory.go:513-521 | the holds on one shard come to an end, remove only what has expired and leave no expired entry and no empty queue there; no other shard changes |
| `CacheBackend.Backend.ExpireAll` | cache/memory/memory.go:510-523 | the pass ends; it has removed only expired entries and left, in every shard, no entry that had expired when it began and no empty queue |
| `CacheBackend.Backend.constructor` | cache/memory/memory.go:163-183 | a new backend is fresh, with the caps divided over the shards |
| `ObjSize.SizeIgnoresSuffix` | objfmt/objfmt.go:136-153 | for every class a size found is positive, lies in the buffer, and no suffix changes it |
| `ObjSize.MalformedIsFinal` | objfmt/objfmt.go:136-153 | malformed bytes stay malformed whatever follows |
| `ObjSize.StrictPrefixIsShort` | objfmt/objfmt.go:136-153 | every strict prefix of an object asks for more bytes: each class is a prefix code |
| `ObjSize.SizeOfObjectAlone` | objfmt/objfmt.go:136-153 | the size depends on the object's own bytes alone |
| `ObjSize.Registered` | objfmt/objfmt.go:136-153 | exactly the unknown class is reported as not registered |
| `ObjSize.TxSizeStands` | objfmt/tx.go:83-169 | a transaction's size, or its malformedness, is decided for good by the bytes seen |
| `ObjSize.BlockSizeStands` | objfmt/block.go:27-62 | the same for blocks |
| `ObjSize.SubtreeSizeStands` | objfmt/subtree.go:24-37 | the same for subtrees |
| `ObjSize.BEEFObjectStands` | objfmt/beef.go:302-318 | the same for deliverable BEEF objects |
| `ObjSize.BEEFRecordSizeStands` | objfmt/beef.go:165-213 | the same for BEEF records |
| `TxStandard.TxSizeCut` | objfmt/tx.go:83-169 | cut to the size found, a transaction is accepted whole |
| `TxStandard.StrippedIsWhole` | objfmt/tx.go:175-216 | the standard serialization of an Extended Format transaction is one whole standard transaction |
| `TxStandard.ToStandardIsStandard` | objfmt/tx.go:175-216 | ToStandard's output parses as one whole standard transaction and ToStandard leaves it alone |
| `TxStandard.Erasure` | objfmt/tx.go:175-216 | whatever extras a standard transaction is given, if TxSize accepts the Extended Format result then ToStandard returns the standard bytes |
| `ObjWalk.TransactionSize` | objfmt/tx.go:83-169 | the loops compute the specification's size |
| `ObjWalk.Step` | objfmt/tx.go:196-212 | a re-walk step without bounds checks stays in bounds and finds the input's two ends |
| `ObjWalk.Spans` | objfmt/tx.go:244-275 | the spans written concatenate to the kept bytes |
| `ObjWalk.ToStandard` | objfmt/tx.go:175-216 | the loop equals the specification, every index in bounds |
| `ObjWalk.TxID` | objfmt/tx.go:233-278 | the streamed hash is the double SHA-256 of exactly ToStandard's output |
| `ObjWalk.RecordSize` | objfmt/beef.go:165-213 | the topic loop computes the record size |
| `StreamReader.Reader.constructor` | objfmt/reader.go:28-30 | a new reader has the default bound, nothing pending and the whole stream ahead |
| `StreamReader.Reader.SetMaxObject` | objfmt/reader.go:33 | changes the bound to any integer and nothing else |
| `StreamReader.Reader.MakeRoom` | objfmt/reader.go:58-77 | compaction and growth keep the pending bytes; the buffer is replaced exactly when fewer than 4096 bytes are free, by one of twice the length within the bound; at least 4096 bytes are then free unless a negative bound was ever set, and the length never exceeds the largest bound set plus 4096; it fails exactly where the source would panic: too little room and a bound below -4096 |
| `StreamReader.Reader.Fill` | objfmt/reader.go:58-80 | makes at most one read, which extends the pending window and keeps the unread stream, and reports a failure exactly when that read failed |
| `StreamReader.Reader.AtEnd` | objfmt/reader.go:82-94 | at the end of the stream: end of stream on an empty window, truncation or the codec's error on a window without a whole object, and otherwise another cut |
| `StreamReader.Reader.Cut` | objfmt/reader.go:41-56 | cuts an object from the window only when the whole stream starts with it, and never reports a failure or the end of the stream |
| `StreamReader.Reader.More` | objfmt/reader.go:58-97 | one read for an undecided window keeps the unread stream and either answers as that stream does or makes progress |
| `StreamReader.Reader.Next` | objfmt/reader.go:39-98 | answers as the whole remaining stream does, however it is delivered; reports a source failure exactly when its last read failed, reading nothing after a failed read; panics exactly when the bound is below -4096, nothing is pending and the buffer is shorter than 4096 bytes; in that state at the bound -4096 it reports the failure or end of the source, or stalls |
| `StreamReader.ChunkingIndependence` | objfmt/reader.go:39-98 | over a source that never fails, on any concatenation of whole objects and a tail, successive calls return exactly those objects, then end of stream, or truncation when the tail is not empty |
| `StreamReader.FailuresLoseNothing` | objfmt/reader.go:39-98 | over any source, the answers that are not source failures are those same ones in the same order: a failing read loses and repeats nothing |
| `StreamReader.ReadStream` | objfmt/reader.go:28-98 | opening a reader on a source and calling Next any number of times returns exactly those answers |
| `Frames.EncodeParses` | frame/frame.go:294-381 | an encoded frame parses back to itself, its payload cut where the 32-bit length wraps |
| `Frames.SubtreeRoundTrip` | frame/subtree_data_payload.go:46-141 | decoding an encoded subtree payload with any suffix returns what its message type carries |
| `Frames.SubtreePanicsExactly` | frame/subtree_data_payload.go:65-86 | a payload stops the program exactly when its node count, or with fitting nodes its conflict count, is too large for any buffer and its 64-bit product is negative or fits |
| `Frames.LeastSlip` | frame/subtree_data_payload.go:65-68 | the smallest node counts that pass the length check by wrapping, and a range of counts that always do |
| `Frames.HonestCountsNeverPanic` | frame/subtree_data_payload.go:65-86 | no panic while both sections' ends are 64-bit integers |
| `Frames.WrappedCountPanics` | frame/subtree_data_payload.go:65-70 | a 32-byte payload that stops the program |
| `SubtreeLoops.EncodePayload` | frame/subtree_data_payload.go:103-141 | the write loops produce the specified payload |
| `SubtreeLoops.DecodePayload` | frame/subtree_data_payload.go:46-98 | the read loops return the specified payload or error |
| `SubtreeLoops.StripFrame` | objfmt/strip.go:57-74 | the loop rebuilds the push frame of a subtree |
| `WrapStrip.TxSizeBound` | objfmt/tx.go:61-70 | the walk's 32-bit limits keep every transaction below 2^32 bytes |
| `WrapStrip.WrapStripTx` | objfmt/strip.go:35-52 | for a transaction stripping always undoes wrapping |
| `WrapStrip.WrapStripBlock` | objfmt/strip.go:80-90 | for a block it does exactly when the body is shorter than 2^32 bytes |
| `WrapStrip.WrapStripSubtree` | objfmt/subtree.go:45-79 | for a subtree it does exactly when its payload is shorter than 2^32 bytes, and otherwise stripping is refused |
| `WrapStrip.StripPanicsExactly` | objfmt/strip.go:57-74 | stripping a subtree frame stops the program exactly when the frame decodes and its payload's counts slip |
| `WrapStrip.WrappedCountStopsStrip` | objfmt/strip.go:57-74 | a subtree frame whose stripping stops the program |
| `WrapStrip.LongBlockLost` | objfmt/block.go:71-92 | a block that stripping does not give back |
| `WrapStrip.LongSubtreeLost` | objfmt/subtree.go:45-79 | a subtree whose frame is refused |
| `WrapStrip.LongBEEFLost` | objfmt/beef.go:370-397 | a BEEF object that comes back empty |
| `WrapStrip.WrapStripBEEF` | objfmt/beef.go:370-397 | for a BEEF object it does exactly below 2^32 bytes |
| `Sharding.TopBits` | shard/shard.go:94-97 | the group index is the top bits of the key's prefix, below 2^bits |
| `Sharding.WideningSplits` | shard/shard.go:94-97 | the index at a wider width, shifted back, is the index at the narrower one |
| `Sharding.SixteenBitsExactly` | bundle/coalesce.go:61 | sixteen bits of the wider index determine the narrower one for every key exactly while the wider width is at most 16 |
| `Sharding.SpanCovers` | shard/plane.go:54-59 | a plane fits in the slots its width implies |
| `BundleCodec.RoundTrip` | bundle/bundle.go:129-225 | decoding an encoded bundle with any suffix returns it as far as the wire carries it exactly when its member section is below 2^32 bytes, and fails otherwise |
| `BundleCodec.SectionFits` | bundle/bundle.go:107-117 | without carried TxIDs the section always fits |
| `BundleCodec.LargestBundleLost` | bundle/bundle.go:129-166 | the largest bundle with carried TxIDs is encoded and does not decode |
| `BundleCodec.Reencode` | bundle/bundle.go:170-225 | every accepted datagram re-encodes to itself apart from the protocol-version and reserved bytes |
| `Packing.TakeIsLongest` | bundle/coalesce.go:85-94 | a bundle takes the longest prefix that fits |
| `Packing.PackIsLegal` | bundle/coalesce.go:74-99 | packing keeps every member once and in order in bundles that fit |
| `Packing.PackIsOptimal` | bundle/coalesce.go:74-99 | no order-preserving split within the limits uses fewer bundles |
| `Coalescing.CoalescePacks` | bundle/coalesce.go:53-101 | on every flow Coalesce emits exactly the greedy, optimal packing of the flow's frames |
| `Coalescing.CoalesceWell` | bundle/coalesce.go:76-98 | every bundle is stamped with its flow and encodes to at most maxBytes unless it holds one member |
| `Coalescing.CoalesceConserves` | bundle/coalesce.go:53-101 | every frame's transaction is emitted exactly once |
| `Coalescing.FlowNumbering` | bundle/coalesce.go:95-97 | over any run of Coalesce and Rebucket calls the k-th bundle of a flow has sequence number k |
| `Coalescing.RebucketConserves` | bundle/coalesce.go:116-156 | Rebucket keeps every TxID and transaction exactly once under the same subtree |
| `Coalescing.RebucketRefines` | bundle/coalesce.go:154-156 | at a width no narrower, up to 16, every output group, shifted back, is the bundle's group |
| `Coalescing.RebucketTooWide` | bundle/coalesce.go:154-156 | at every width over 16 a bundle leaves its group |
| `CoalescerObject.MemberSectionLen` | bundle/bundle.go:107-117 | the loop computes the section length |
| `CoalescerObject.EncodeBundle` | bundle/bundle.go:129-166 | the write loop produces the specified datagram or error |
| `CoalescerObject.DecodeBundle` | bundle/bundle.go:170-225 | the read loop returns the specified bundle or error |
| `CoalescerObject.DecoalesceBundle` | bundle/coalesce.go:116-135 | the loop rebuilds the frames, hashing where TxIDs are not carried |
| `CoalescerObject.Coalescer.Fill` | bundle/coalesce.go:85-94 | the inner loop takes the specified number of members |
| `CoalescerObject.Coalescer.CoalesceFrames` | bundle/coalesce.go:53-101 | the object's bundles and new sequence numbers are the specification's |
| `CoalescerObject.Coalescer.RebucketBundle` | bundle/coalesce.go:154-156 | the object's re-bucketing is the specification's |
| `Domains.PlanesApart` | frame/shard_manifest.go:307-378 | in every accepted section the planes' active index ranges are pairwise disjoint and below the control range, so no two planes map keys to one index |
| `Domains.ValidateDomains` | frame/shard_manifest.go:307-378 | the slot-reserving loops accept exactly the valid sections |
| `ManifestLaws.RoundTrip` | frame/shard_manifest.go:385-772 | every manifest the encoder accepts is returned by decoding its output, whatever bytes follow |
| `ManifestLaws.DecodedIsAccepted` | frame/shard_manifest.go:571-772 | every manifest the decoder accepts is accepted by the encoder, and the scanned extent is its size |
| `ManifestLaws.DecodeEncodeDecode` | frame/shard_manifest.go:385-772 | re-encoding a decoded manifest and decoding it again is the identity |
| `ManifestLoops.SizeOf` | frame/shard_manifest.go:279-302 | the loop computes the size |
| `ManifestLoops.EncodeManifest` | frame/shard_manifest.go:385-561 | the checks and write loops give the specified error or datagram |
| `ManifestLoops.FindExtent` | frame/shard_manifest.go:598-672 | the pre-scan finds the specified extent or error |
| `ManifestLoops.DecodeManifest` | frame/shard_manifest.go:571-772 | the read loops give the specified manifest or error |
| `Registry.ExpandedInPlane` | manifest/registry.go:239-277 | a manifest's groups are exactly the declared indices inside its own plane, in list or bitmap form |
| `Registry.Expand` | manifest/registry.go:239-277 | the loops compute those groups |
| `Registry.SnapshotDistinct` | manifest/registry.go:184-198 | entries of a snapshot come from distinct announcers |
| `RegistryRuns.RegistryObject.Upsert` | manifest/registry.go:114-164 | the object's entries remain those that the run of calls, with this one added, accounts for (see HeldExactly), and no other announcer's entry changes |
| `RegistryRuns.RegistryObject.Evict` | manifest/registry.go:169-179 | the same, with a sweep added |
| `RegistryRuns.RegistryObject.Snapshot` | manifest/registry.go:184-198 | lists every entry the run of calls accounts for once, in announcer order |
| `RegistryRuns.HeldExactly` | manifest/registry.go:114-179 | after any run an announcer has an entry exactly when its latest manifest is no shutdown and no later sweep came at or after that manifest's epoch plus lifetime (receipt plus lifetime without epoch), and the entry is that manifest's, of which there is one |
| `RegistryRuns.SweptIsValid` | manifest/registry.go:166-179 | right after a sweep the registry holds exactly the announcers whose latest manifest is no shutdown and unexpired |
| `RegistryRuns.UnsweptStaysHeld` | manifest/registry.go:181-198 | without a sweep an expired manifest is still held |
| `RegistryRuns.SnapshotBackers` | manifest/registry.go:184-198 | the authoritative entries of a width in a snapshot are those of the announcers whose standing manifest declares it |
| `EvaluatorTally.Best` | manifest/evaluator.go:400-443 | whatever the iteration order, returns a candidate of maximal tally exactly when one has quorum |
| `EvaluatorTally.ManyMeansDisagree` | manifest/evaluator.go:445-448 | more than one tallied candidate means exactly that two announcers disagree |
| `EvaluatorTally.AnyOther` | manifest/evaluator.go:450-466 | reports exactly whether some announcer differs from the pin |
| `EvaluatorTally.TallyTop` | manifest/evaluator.go:165-208 | one pass over the snapshot tallies the authoritative ballots, pilot groups and all sources |
| `EvaluatorTally.TallyPlanes` | manifest/domains.go:51-86 | tallies every announced object plane and never the transaction plane |
| `EvaluatorTally.SuccessorHash` | manifest/evaluator.go:343-357 | the fold computes the 64-bit timer hash |
| `EvaluatorObject.Instance.Consult` | manifest/evaluator.go:312-323 | reports whether a timer has run its window and starts a missing one |
| `EvaluatorObject.Instance.AdoptBits` | manifest/evaluator.go:210-244 | the width rule, with pin, timer, quorum flag and divergence |
| `EvaluatorObject.Instance.AdoptMode` | manifest/evaluator.go:246-268 | the addressing-mode rule |
| `EvaluatorObject.Instance.AdoptSuccessor` | manifest/evaluator.go:270-299 | the successor rule, clearing view and timers when there is no quorum |
| `EvaluatorObject.PlaneLocal` | manifest/domains.go:111-176 | a plane's outcome depends on its own view, timers and choices alone, so the iteration order over planes does not matter |
| `EvaluatorObject.Instance.EvaluatePlane` | manifest/domains.go:111-176 | one plane's rules give the specified view and timers |
| `EvaluatorObject.Instance.EvaluateDomains` | manifest/domains.go:50-177 | the loop, in any order, evaluates every announced, pinned or adopted plane |
| `EvaluatorObject.Instance.Evaluate` | manifest/evaluator.go:158-305 | a pass leaves exactly the specified state and reports exactly the specified view, for choices that lead |
| `EvaluatorObject.Instance.constructor` | manifest/evaluator.go:128-136 | starts empty, with quorum 2 when none is given |
| `EvaluatorRuns.TimersGrounded` | manifest/evaluator.go:312-323 | in every run each timer was started by a pass that consulted it, at that pass's time, and its field has not been cleared since |
| `EvaluatorRuns.CallMeaning` | manifest/evaluator.go:217-296 | a timer is consulted only for a candidate that leads with quorum in the same pass |
| `EvaluatorRuns.BitsSafety` | manifest/evaluator.go:210-244 | over every run the width changes only to one that leads with quorum now and led with quorum a full window earlier; otherwise it is retained and reported |
| `EvaluatorRuns.BitsLiveness` | manifest/evaluator.go:217-233 | the converse: on an unpinned instance whose clock never steps back, a width that alone leads with quorum in every pass is adopted and reported by the first pass a full window after the first, and from then on |
| `EvaluatorRuns.WidthNeedsQuorum` | manifest/evaluator.go:158-244 | over registry snapshots that means a quorum of distinct authoritative announcers, as many as for any other width, now and a window ago |
| `EvaluatorRuns.WidthNeedsManifests` | manifest/registry.go:114-198 | registry and evaluator together: the width changes only when a quorum of announcers whose latest manifests stand in the registry declare it now, and a quorum whose latest manifests stood a window ago declared it then |
| `EvaluatorRuns.TallyCountsAnnouncers` | manifest/registry.go:184-198 | over a snapshot a width's tally is the number of distinct authoritative announcers of it |
| `EvaluatorRuns.ModeSafety` | manifest/evaluator.go:246-268 | the same for the addressing mode, and the mode reported is the kept one or the pin |
| `EvaluatorRuns.ModeLiveness` | manifest/evaluator.go:252-262 | the same converse for the addressing mode |
| `EvaluatorRuns.SuccessorSafety` | manifest/evaluator.go:270-299 | a pass without successor quorum clears the view and all its timers; a view is installed only for a leader within one bit of the pass's width, a full window after its timer started, with successor quorum in every pass since |
| `EvaluatorRuns.PlaneBitsSafety` | manifest/domains.go:116-130 | the width rule's guarantee on every unpinned object plane |
| `EvaluatorRuns.PlaneSuccessorSafety` | manifest/domains.go:139-162 | a plane's view is cleared only when it is announced and nobody announces a successor; it is installed only for a leader within one bit, a full window after its timer started, with no such clearing in between |
| `EvaluatorRuns.OnlyVotersCount` | manifest/evaluator.go:172-180 | two runs that differ only in non-authoritative entries agree on all state and on all that is reported but the source set |
| `LocalSet.HoldsExactly` | txidset/local.go:76-105 | in every run the set holds exactly the keys none of whose ring slots was reused since their last insertion |
| `LocalSet.Bounded` | txidset/local.go:76-105 | the map never outgrows the ring, nor the ring its capacity |
| `LocalSet.HitsAreReal` | txidset/local.go:86-93 | only keys really presented before, and not expired, are reported as seen |
| `LocalSet.FifoExactly` | txidset/local.go:95-103 | throughout a run the set's entries are the last inserted keys exactly when every key inserted again while its slot is in the ring is inserted once more as that slot is reused |
| `LocalSet.FifoWithoutStaleHits` | txidset/local.go:86-93 | until some call finds its key present but expired the set is such a queue |
| `LocalSet.FifoWithoutExpiry` | txidset/local.go:76-105 | without expiry the set is always such a queue |
| `LocalSet.StaleKeyForgotten` | txidset/local.go:86-103 | with expiry a concrete run forgets a live key after one other insertion into a set of capacity two |
| `LocalSet.LocalShard.SeenAndAdd` | txidset/local.go:76-105 | the object with its ring array computes the specification's step and answer |
| `LocalSet.LocalShard.constructor` | txidset/local.go:45-62 | a new shard is empty |
| `Claims.PresentLearns` | txidset/local.go:67-74 | the striped tier learns only the presented key and reports only keys it knows |
| `Claims.KeyInjective` | txidset/txidset.go:215 | distinct pairs of prefix and txid never share a backend key |
| `Claims.NewWorldIdle` | txidset/txidset.go:132-185 | new stores of any capacities and lifetimes over a backend without the key know nothing of the transaction |
| `Claims.AtMostOneWinner` | txidset/txidset.go:200-233 | whatever the interleaving, failures and marks, two claims of one transaction both told they are first are a whole key lifetime apart; with keys that never expire there is at most one |
| `Claims.ExactlyOneWinner` | txidset/txidset.go:200-233 | over fresh stores, without failures or marks of the transaction and within the key's lifetime, never more than one claim has won and exactly one has once all started claims are decided |

## Left out

- Redis and Aerospike backends, netjoin, tracing, logging, host information, flag parsing and bootstrap: input/output and thin wrappers.
- The other fixed-layout frame codecs (fragment, anchor, group announce, tee) and proof of work: straight-line byte copies that would only add easy members.
- BEEF record header encoding and decoding; only the record's size is modelled.
- "Exactly one current item per key": a pair of key and deadline that recurs can make an old item current again, so the invariant says at least one, and the bound on the number of items has a no-recurrence hypothesis.
- Continuous quorum for the width and the addressing mode: those timers are not reset when quorum is lost, so the laws speak of the two ends of the window.
- CacheBackend.Backend.ExpireAll: no other operation runs between its holds; runs that interleave single holds with other operations are those of `CacheRuns`.
- Disjointness of successor widths: the validator checks them only against the control range.
- Sharing of memory between decoded objects and the buffer they came from: bytes are values outside the reader and the cache queue.
- The copy of the quorum flags into the retained view (`manifest/evaluator.go:227`), which nothing reads.
- Recorder callbacks, statistics counters and context timeouts.
- Claims in local-only mode (no backend), and the bound of the mark queue: whether a mark is queued is an input.
- Claim and Mark are steps of a state machine over stores and a backend, so that they interleave; they are not methods on a store object. The 64 stripes of the local tier are values there, and one stripe is the object `LocalShard`.

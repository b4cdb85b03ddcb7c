# A verified model of TinyLeveldb

TinyLeveldb is a small storage engine in the style of LevelDB. This project models its hard parts in Dafny
and proves what they are for:

- **Checksums** (`gf2`, `crc32c_tables`, `crc32c`, `crc32c_division`, `octets`, `block_trailer`): the
  interleaved four-strand CRC-32C equals the plain one on every input and alignment, and the plain one is the
  polynomial remainder of section 12.1 of RFC 3720. The 1280 table literals are tied to the polynomial.
- **Cache** (`lru_model`, `lru_order`, `handle_table`, `lru_cache`, `sharded_cache`, `sharded_lru_cache`): the
  reference-counted LRU cache over two intrusive circular lists and a resizing chained hash table refines
  a state machine (`LruModel.State`), about which the facts on whole runs are proved. Sixteen such objects
  with separate heaps make up the sharded cache.
- **Blocks** (`options`, `bytes`, `digits`, `coding`, `block`): prefix-compressed blocks with restart points; builder and
  iterator undo each other and `Seek` agrees with a linear search.
- **Filters** (`bloom`, `filter_block`): Bloom filters over an arbitrary hash, and the filter block with
  its call protocol.
- **Tables** (`writable_file`, `sstable`, `table_builder`, `table_lookup`): the table builder over the
  buffered writer; a finished file answers lookups exactly as the entries added, from its bytes alone.
- **Work queue** (`work_queue`): the background thread protocol as interleaved atomic steps.
- **Skip list** (`skip_list`): multi-level linked lists on the heap refining a map.

Objects that the source updates in place are classes whose methods are proved against specification
functions; the facts about those functions are lemmas. Values of type `byte` are 0 to 255, `Word` is a
`uint32_t`; other sizes and offsets are unbounded, and conversions are written out: to 32 or 64 bits where
bytes are written or an offset is kept in a word, to `int` where a slice is read by its `size()`
(`Bytes.SliceSize`). Bodies start with `hide` where a proof does not need a definition.

## Findings

What the code, repaired as listed below, does not do, and exactly when it does:

- A lookup can return an entry older than the latest insert under its name: with capacity 0 an insert
  leaves the table alone, so an old entry that a client still holds is found again
  (`LruModel.InsertWithoutCapacityKeepsOld`). `LruModel.InsertReplacesExactly` gives the exact condition for
  one insert and `LruModel.LookupIsLatest` for whole runs; `LruModel.LookupFindsExactly` says what a lookup finds
  after any run.
- `restart_index` of the block iterator is behind by one on the first entry of a group, the first group aside,
  when that entry is reached by `Next` from the group before or by the scan of `Seek`. `SeekToLast` sets it right;
  `SeekToFirst` leaves it where it was. `Blocks.RestartIndexExact` gives the exact condition for one step,
  `Blocks.BlockIter.Seek` for a search. Nothing reads it.
- A sharded cache built with a capacity of 2^64 - 15 or more caches nothing: the sum at db/tableCache.h:317 overflows
  (`ShardedCaches.PerShardExactly`, `ShardedCaches.InsertFound`).
- The iterator's offsets are 32 bits wide and wrap around in larger blocks: `Blocks.OffsetWraps` is a block that
  is misread although every stored length fits, `Blocks.BlockRoundTrip` the exact condition.
- Two callers of `Schedule` can both start a thread (`WorkQueues.TwoThreads`); how many start is
  `WorkQueues.ThreadsStarted`, and at most one does exactly when `WorkQueues.OneThreadExactly` says. The queue is
  safe with any number.
- An item that itself calls `Schedule` waits for the mutex its own thread holds, for ever, and stops the queue
  (`WorkQueues.StuckRun`, `WorkQueues.SchedulingNeverReturns`). The queue drains exactly when there is no such item
  (`WorkQueues.Drains`).
- A failing `write` is not noticed, its test being on an unsigned number: the loop goes on one byte earlier, and
  after a failure at offset 0 it ends with `OK` (`WritableFiles.FailuresUnnoticed`). `WritableFiles.WrittenExactly`
  says when all data of a length are written as they are; some may be by accident (`WritableFiles.FailuresCancel`).
- `slice::size()` is an int: from 2^31 bytes on it is negative or too small. A file, a filter, a cache entry and a
  memtable entry get the first `size()` bytes (`WritableFiles.AppendedExactly`, `SSTables.StoredWhole`,
  `ShardedCaches.KeyStepFind`, `SkipLists.EncodeRoundTrip`, each with its exact condition); `SSTables.BlockCut` is a
  block of which 20 bytes are stored. A negative size is undefined wherever it is used.
- The checksum after a block covers a byte that nothing has set (`BlockTrailers.BlockTrailer`).
- Inserting a key that the skip list already holds changes nothing: the old value stays.

## Departures from the code

Each is noted beside the member concerned. The clear intent is modelled where the code as written reads
unset memory, does not compile or cannot be undone:

- db/block.h:30,111: `counter` starts at 0. db/block.h:43-47,63-68,83,87: exactly four bytes are appended for each
  number (as written, bytes up to the first NUL are: `Blocks.AppendAsWrittenCollides`). db/block.h:119:
  `restarts` is the offset of the restart array. db/block.h:119,231: `size`, never set, is the length of the block.
  db/block.h:165: `right` is at least 0. db/block.h:169: the scan stops at the end. db/block.h:179: an entry's own
  length is added, once. db/block.h:192: the suffix starts at `ptr`.
- db/tableCache.h:87-88: each bucket has an allocated dummy head, which lines 73-76 and 90-98 follow.
  db/tableCache.h:97: `next_hash`, not `next`.
- db/SSTable.h:36-40: `pending_index_entry` starts false. db/SSTable.h:53,120,122,128: handles and
  strings are allocated. db/env.h:199: `has_buffer_size` starts at 0. db/env.h:344: the semaphore starts at 0.
- db/skipList.h:13: `forward` has as many slots as the node has levels. db/skipList.h:69,100,128: the tests are on the node
  found: different key, same key, same key. db/skipList.h:77: `level` is the top index in use.
  db/skipList.h:105: the value is decoded from the node found.

## Model

| member | source | states |
|---|---|---|
| `Gf2.BitStepsXor` | db/crc32c.cpp:293-300 | any number of register shifts is linear over GF(2), which is what lets the four strands run apart |
| `Crc32cTables.ByteExtensionMeaning` | db/crc32c.cpp:20-63 | each of the 256 literals of kByteExtensionTable, indexed by c, is c shifted 8 times through the register of polynomial 0x82f63b78 |
| `Crc32cTables.StrideExtension3Meaning` | db/crc32c.cpp:200-243 | each literal of kStrideExtensionTable3 is its index shifted 128 times: sixteen bytes on |
| `Crc32cTables.StrideExtension2Meaning` | db/crc32c.cpp:155-198 | each literal of kStrideExtensionTable2 is its index, as second byte of a word, shifted 128 times |
| `Crc32cTables.StrideExtension1Meaning` | db/crc32c.cpp:110-153 | each literal of kStrideExtensionTable1 is its index, as third byte of a word, shifted 128 times |
| `Crc32cTables.StrideExtension0Meaning` | db/crc32c.cpp:65-108 | each literal of kStrideExtensionTable0 is its index, as top byte of a word, shifted 128 times |
| `Crc32c.Step1IsByteStep` | db/crc32c.cpp:287-291 | STEP1 with its table is the bit-by-bit addition of one byte |
| `Crc32c.Step4IsStride` | db/crc32c.cpp:294-300 | STEP4 moves a strand sixteen bytes on and adds the next word |
| `Crc32c.Step4WIsWordStep` | db/crc32c.cpp:313-320 | STEP4W runs the register over a loaded word |
| `Crc32c.UpdateWord` | db/crc32c.cpp:249-251 | four bytes added one at a time equal the little-endian word ReadUint32LE loads, added at once |
| `Crc32c.FoldStep16` | db/crc32c.cpp:303-310 | what the four strands stand for, taken through STEP16, is what sixteen single bytes do to one register |
| `Crc32c.FoldRotate` | db/crc32c.cpp:350-358 | one STEP4(0) and the rotation of the strands do what four single bytes do to one register |
| `Crc32c.Extend` | db/crc32c.cpp:276-377 | for every crc, byte string and start address, the aligned head, the 16-byte loop, the rotating 4-byte loop, the folding and the tail return the byte-at-a-time CRC-32C |
| `Crc32c.Streaming` | db/crc32c.h:14-20 | extending by A and then by B is extending by A ++ B, so the CRC of a stream can be kept incrementally, also through Mask and Unmask |
| `Crc32c.MaskBijective` | db/crc32c.h:24-38 | Unmask undoes Mask and Mask undoes Unmask, on all 32-bit values |
| `Crc32c.MaskRotates` | db/crc32c.h:24-38 | before 0xa282ead8 is added, Mask makes the upper 17 bits and the lower 15 change places |
| `BlockTrailers.LoadsDecoded` | db/crc32c.cpp:249-251 | ReadUint32LE loads the word that coding::DecodeFixed32 gives for the same four bytes |
| `Crc32cDivision.UpdateIsSerial` | db/crc32c.cpp:287-291 | the byte-at-a-time register is the bit-at-a-time one, low bit of each byte first |
| `Crc32cDivision.SerialIsRemainder` | db/crc32c.cpp:276-377 | the bit-at-a-time register holds a schoolbook polynomial remainder over GF(2) |
| `Crc32cDivision.ValueIsRemainder` | db/crc32c.h:19-20 | Value is the complemented remainder, by the generator polynomial of section 12.1 of RFC 3720, of the message with its first 32 bits complemented and 32 zeros appended |
| `Crc32cDivision.BurstDetected` | db/crc32c.h:19-20 | equally long buffers that differ only within some 32 consecutive bits have different Values |
| `Crc32cDivision.FourByteBurstDetected` | db/crc32c.cpp:287-291 | the same for a difference within four consecutive bytes |
| `LruModel.InitInv` | db/tableCache.h:162-168 | the empty cache satisfies the invariant: lru_ holds exactly the cached entries with one reference, in_use_ exactly those with more, no entry is on a list twice, the table holds exactly the cached entries under their names, each count is the client handles plus one if cached, usage_ is the sum of the cached charges, lru_ is in order of last release |
| `LruModel.LookupInv` | db/tableCache.h:217-224 | Lookup keeps the invariant |
| `LruModel.ReleaseInv` | db/tableCache.h:226-229 | Release of a held handle keeps the invariant |
| `LruModel.EraseInv` | db/tableCache.h:283-286 | Erase keeps the invariant, whether or not a client holds the entry |
| `LruModel.AdmitInv` | db/tableCache.h:237-257 | adding an entry, in place of another or not, cached or not, keeps the invariant |
| `LruModel.AdmitEffect` | db/tableCache.h:237-257 | a new entry takes its name from whatever had it, which leaves the cache, and nothing else changes; with no capacity nothing in the cache changes |
| `LruModel.LookupEffect` | db/tableCache.h:217-224 | a client gets one more handle on what the name stands for; table, cached entries and capacity stay (for the order of idle entries see LruOrder.StepOrder) |
| `LruModel.ReleaseEffect` | db/tableCache.h:226-229 | a client has one handle less; table and cached entries stay |
| `LruModel.EraseEffect` | db/tableCache.h:283-286 | exactly what the name stands for leaves table and cache; clients keep their handles |
| `LruModel.InsertInv` | db/tableCache.h:231-268 | Insert with its eviction keeps the invariant |
| `LruModel.EvictPrefix` | db/tableCache.h:258-265 | eviction frees a prefix of lru_ and nothing else, each entry only while usage_ > capacity_, and ends with usage_ <= capacity_ or lru_ empty |
| `LruModel.PruneAll` | db/tableCache.h:288-298 | Prune frees every idle entry, oldest release first, and nothing else |
| `LruModel.RunInv` | db/tableCache.h:147-158 | every state reached by any sequence of operations satisfies the invariant |
| `LruModel.FreedExactly` | db/tableCache.h:190-202 | an entry's deleter has run if and only if no client holds it and the cache does not keep it |
| `LruModel.DeleterAtMostOnce` | db/tableCache.h:190-202 | over any run the deleter runs at most once for each entry, exactly for those given up, and the log is never rewritten |
| `LruOrder.StepOrder` | db/tableCache.h:182-298 | no operation but Release puts an entry into lru_, Release puts it last, and entries idle before and after any operation keep their order |
| `LruOrder.OrderOfRelease` | db/tableCache.h:190-229 | over any run: of two idle entries, one stands nearer to eviction if and only if the Release that last left it idle came earlier in the run |
| `LruOrder.StepCapacity` | db/tableCache.h:217-298 | SetCapacity alone changes the capacity |
| `LruModel.HeldUntilReleased` | db/tableCache.h:217-281 | an entry held by a client is not freed, whatever is inserted, erased or pruned, until that client releases it |
| `LruModel.LookupIsLatest` | db/tableCache.h:217-257 | over any run, counting every insert: at every point each name stands for nothing or its real latest insert, not erased since, if and only if each insert of the run met the condition of InsertReplacesExactly in its state |
| `LruModel.LookupIsLatestCached` | db/tableCache.h:217-257 | over any run at all, a name stands for nothing or for its latest insert made with caching on and not erased since, never an entry replaced or erased |
| `LruModel.InsertReplacesExactly` | db/tableCache.h:248-265 | after any insert the name stands for the new entry or nothing if and only if the capacity is positive, or the name was unused, or its old entry was idle and eviction gets as far as it; it stands for the new entry if and only if the capacity is positive |
| `LruModel.EvictSpares` | db/tableCache.h:258-265 | what a name stands for survives eviction if and only if it is not idle, or the entries released before it make enough room |
| `LruModel.StepBindings` | db/tableCache.h:217-298 | the table after any operation, binding by binding: h under n is bound by an insert with positive capacity, or was bound before and is not erased, replaced, or idle and reached by eviction or Prune |
| `LruModel.LookupFindsExactly` | db/tableCache.h:217-298 | over any run: Lookup finds h under n if and only if some insert of the run made with positive capacity bound it, or it was bound at the start, and nothing since has erased it, replaced it, or reached it while idle |
| `LruModel.InsertWithoutCapacityKeepsOld` | db/tableCache.h:248-257 | a run where it does not: SetCapacity(0) while a client holds the old entry, then an insert under the same name |
| `HandleTables.LinkedRemove` | db/tableCache.h:54-63 | unlinking one node leaves every chain well formed, that one shorter |
| `HandleTables.LinkedInsert` | db/tableCache.h:39-43 | linking a node in leaves every chain well formed, ending where it ended |
| `HandleTables.MaskIsSlot` | db/tableCache.h:73 | hash & (length_ - 1), bit by bit, is the remainder by length_, for every power of two |
| `HandleTables.HandleTable.constructor` | db/tableCache.h:32 | an empty map, with four buckets |
| `HandleTables.HandleTable.FindPointer` | db/tableCache.h:72-80 | the node before the entry with this hash and key, or the last of its chain, in the bucket hash & (length_ - 1) |
| `HandleTables.HandleTable.Lookup` | db/tableCache.h:35-37 | what the map says |
| `HandleTables.HandleTable.Insert` | db/tableCache.h:39-52 | the map with this entry under its name, the entry replaced or null returned; the buckets stay unless there are now more entries than buckets, and then their number is the least power of two from 4 on that is enough |
| `HandleTables.HandleTable.Remove` | db/tableCache.h:54-63 | the map without the name, the entry removed or null returned |
| `HandleTables.HandleTable.Resize` | db/tableCache.h:82-106 | the same map in the least power-of-two number of buckets from 4 on that is at least the number of entries |
| `HandleTables.HandleTable.Rehash` | db/tableCache.h:87-105 | every node is moved once, count == elems_, and the map is unchanged |
| `LruCaches.LRUCache.constructor` | db/tableCache.h:162-168 | both circular lists empty and linked to themselves, the state machine's initial state |
| `LruCaches.LRUCache.LRU_Remove` | db/tableCache.h:204-207 | exactly two links change |
| `LruCaches.LRUCache.LRU_Append` | db/tableCache.h:209-215 | exactly four links change |
| `LruCaches.RingRemove` | db/tableCache.h:204-207 | those two link changes take one entry out of a circular list and leave it well formed |
| `LruCaches.RingAppend` | db/tableCache.h:209-215 | those four link changes put an entry at the newest end of a circular list |
| `LruCaches.LRUCache.Ref` | db/tableCache.h:182-188 | the linked lists, counts and flags follow the state machine's Ref |
| `LruCaches.LRUCache.Unref` | db/tableCache.h:190-202 | the same for Unref, freeing included |
| `LruCaches.LRUCache.FinishErase` | db/tableCache.h:272-281 | the same for FinishErase; returns whether there was an entry |
| `LruCaches.LRUCache.Lookup` | db/tableCache.h:217-224 | the same for Lookup; returns the entry the table names, or null |
| `LruCaches.LRUCache.Release` | db/tableCache.h:226-229 | the same for Release |
| `LruCaches.LRUCache.SetCapacity` | db/tableCache.h:116 | only the capacity changes |
| `LruCaches.LRUCache.Admit` | db/tableCache.h:237-257 | a fresh entry with one handle for the client and the first key.size() bytes of the key, entered as the state machine says |
| `LruCaches.LRUCache.Insert` | db/tableCache.h:231-268 | the same for Insert, eviction loop included; returns a fresh entry |
| `LruCaches.LRUCache.Erase` | db/tableCache.h:283-286 | the same for Erase |
| `LruCaches.LRUCache.Prune` | db/tableCache.h:288-298 | the same for Prune, loop included |
| `LruCaches.LRUCache.TotalCharge` | db/tableCache.h:126-129 | usage_ is the sum of the charges of the entries on the two lists |
| `ShardedCaches.TargetLegal` | db/tableCache.h:328-339 | every operation goes to one shard, and a Release to the shard that gave the handle out |
| `ShardedCaches.ShardMeaning` | db/tableCache.h:313 | shard i takes the hashes from i * 2^28 on, 2^28 of them: the top four bits |
| `ShardedCaches.HashesKey` | db/tableCache.h:309-311 | a key is hashed by its first size() bytes, all of it below 2^31 |
| `ShardedCaches.KeyStepGood` | db/tableCache.h:313-339 | every operation keeps each entry in the shard its key's hash names, and no handle in two shards |
| `ShardedCaches.OneHome` | db/tableCache.h:313-351 | over any run a key is only ever in shard hash >> 28, under its own hash |
| `ShardedCaches.KeyStepFind` | db/tableCache.h:323-339 | the shards act as one partial map, exactly: after an operation a key finds h if and only if the operation inserts h under a key whose size() bytes are this key, into a shard with some capacity, or it found h before and is not erased, replaced, or idle and reached by eviction or Prune in its shard |
| `ShardedCaches.TotalChargeIsSum` | db/tableCache.h:352-358 | TotalCharge is the sum over all cached entries of all shards |
| `ShardedCaches.TotalChargeBound` | db/tableCache.h:316-321 | while no shard exceeds its share, the total stays below capacity + 16 |
| `ShardedCaches.PerShardExactly` | db/tableCache.h:317 | sixteen shares are at least the capacity and less than 16 more, if and only if the sum at line 317 does not overflow; a share is positive if and only if the capacity is and the sum does not overflow |
| `ShardedCaches.InsertFound` | db/tableCache.h:316-331 | after any run on a cache built with a capacity, an insert of a key below 2^31 bytes is found right after it, if and only if the capacity is positive and below 2^64 - 15 |
| `ShardedLRUCaches.ShardedLRUCache.constructor` | db/tableCache.h:316-321 | sixteen empty caches that share nothing, each with the share of the capacity that PerShardExactly pins |
| `ShardedLRUCaches.ShardedLRUCache.Insert` | db/tableCache.h:323-327 | one step of the sharded map; the other fifteen objects are untouched |
| `ShardedLRUCaches.ShardedLRUCache.Lookup` | db/tableCache.h:328-331 | one step of the sharded map, returning what it says |
| `ShardedLRUCaches.ShardedLRUCache.Release` | db/tableCache.h:332-335 | one step of the sharded map, at the shard that handed the entry out |
| `ShardedLRUCaches.ShardedLRUCache.Erase` | db/tableCache.h:336-339 | one step of the sharded map |
| `ShardedLRUCaches.ShardedLRUCache.Prune` | db/tableCache.h:347-351 | every shard pruned |
| `ShardedLRUCaches.ShardedLRUCache.TotalCharge` | db/tableCache.h:352-358 | the sum over all cached entries |
| `Coding.Fixed32RoundTrip` | db/coding.h:8-42 | DecodeFixed32 after EncodeFixed32 is the value modulo 2^32 |
| `Coding.Fixed64RoundTrip` | db/coding.h:18-68 | DecodeFixed64 after EncodeFixed64 is the value modulo 2^64 |
| `Coding.FixedSeqAt` | db/filter_block.cpp:38-42 | word i of an array of fixed32 is where a reader looks for it |
| `Coding.Fixed32Bytes` | db/coding.h:8-16 | byte i of a fixed32 is v / 256^i % 256 |
| `Coding.Fixed64Bytes` | db/coding.h:18-30 | byte i of a fixed64 is v / 256^i % 256 |
| `Coding.DecodedWord` | db/coding.h:35-43 | what DecodeFixed32 gives is v if and only if byte i is v / 256^i % 256 |
| `Coding.LessMeaning` | db/block.h:158-171 | a key is less if and only if the two agree up to a place where it ends and the other does not, or has the smaller byte |
| `Coding.LessTotal` | db/block.h:158-158 | the order of keys is total: exactly one of less, equal, greater |
| `Blocks.BlockRoundTrip` | db/block.h:34-202 | for every sequence of entries, sorted or not, a forward scan of the finished bytes with 32-bit offsets visits exactly these entries where they are stored, if and only if there are none, or every stored length fits in 32 bits and the last entry starts before the 32-bit end of the entries; so always when the entries take less than 4GB |
| `Blocks.OffsetWraps` | db/block.h:225-228 | a block whose lengths all fit and which the scan nevertheless misreads: current and the end of the entries wrap around, and the second call of Next finds another entry inside the first |
| `Blocks.ParseAt` | db/block.h:36-71 | entry i is stored with the longest prefix it shares with its predecessor left out, nothing left out for every twentieth, and is read back from its offset |
| `Blocks.EntryLayout` | db/block.h:36-71 | the bytes of entry i, of any size: little-endian lengths of the shared part, the rest of the key and the value, then these two |
| `Blocks.SharedPrefixIs` | db/block.h:51-58 | what is left out of a key is the longest common prefix, or as much of it as the 32-bit bound allows |
| `Blocks.RestartAt` | db/block.h:36-37 | there is one restart for every twenty entries, and restart r is the offset of entry 20 * r |
| `Blocks.RestartWord` | db/block.h:79-90 | the restart array is read back from the finished bytes, word by word |
| `Blocks.BlockLayout` | db/block.h:79-90 | the last word of the finished bytes is the number of restarts |
| `Blocks.TrailerLayout` | db/block.h:79-90 | the bytes after the entries, of any size: each restart and then their number, little-endian |
| `Blocks.AppendAsWrittenCollides` | db/block.h:41-49 | appending buf up to its first NUL, as the code does, writes two different entries as the same bytes |
| `Blocks.BlockBuilder.SharedLength` | db/block.h:51-58 | the loop finds the longest common prefix of two keys not both of 4GB or more; beyond that its 32-bit bound wraps |
| `Blocks.BlockBuilder.Add` | db/block.h:34-77 | one more entry in the block's format |
| `Blocks.BlockBuilder.Finish` | db/block.h:79-90 | returns the finished block of exactly the entries added |
| `Blocks.BlockBuilder.CurrentSizeEstimate` | db/block.h:91-95 | exactly the length Finish would return |
| `Blocks.BlockBuilder.Reset` | db/block.h:96-102 | an empty builder |
| `Blocks.BlockBuilder.Empty` | db/block.h:103-105 | true if and only if nothing was added |
| `Blocks.BlockIter.constructor` | db/block.h:118-122 | stands on the first entry |
| `Blocks.BlockIter.ParseNext` | db/block.h:181-202 | yields the entry at the current offset, or nothing at the end |
| `Blocks.BlockIter.Next` | db/block.h:177-180 | moves from each entry to the next, and stays at the end |
| `Blocks.BlockIter.SeekToFirst` | db/block.h:132-135 | stands on the first entry |
| `Blocks.BlockIter.SeekToLast` | db/block.h:136-144 | stands on the last entry, restart_index naming its group |
| `Blocks.BlockIter.SearchRestarts` | db/block.h:147-165 | binary search: restart keys left of left are below the target, right of right are not; every entry before the restart found is below the target |
| `Blocks.BlockIter.Seek` | db/block.h:145-176 | for sorted keys stops on the first key >= target, as a linear search would, or at the end if there is none; restart_index then names its group if and only if it is the first entry of all or not the first of its group; terminates for any keys |
| `Blocks.RestartIndexExact` | db/block.h:194-201 | restart_index names the group of the entry just parsed if and only if it did before, or lagged behind and the entry does not start a group |
| `Blooms.WithBitBits` | db/bloom.h:42 | setting a bit sets that bit and no other |
| `Blooms.BitWeight` | db/bloom.h:42-68 | bit i of a byte weighs 2^i |
| `Blooms.DeltaRotates` | db/bloom.h:39-65 | delta is the hash rotated right by 17: its bit i is bit (i + 17) % 32 of the hash |
| `Blooms.ProbeMeaning` | db/bloom.h:40-69 | probe j falls on (h + j * delta) % 2^32 % bits |
| `Blooms.ProbedMeaning` | db/bloom.h:35-45 | building a filter sets the bits at the first k such positions of each key and no others |
| `Blooms.HashesKey` | db/bloom.h:5-7 | a key is hashed by its first size() bytes, all of it below 2^31 |
| `Blooms.BloomFilterPolicy.constructor` | db/bloom.h:11-16 | 0.69 probes per bit and key, rounded down, and between 1 and 30; usable exactly when the number of bits per key is not negative |
| `Blooms.BloomFilterPolicy.CreateFilter` | db/bloom.h:20-46 | appends a filter whose set bits are exactly the probes of the keys, of the stated size, and leaves what was there |
| `Blooms.BloomFilterPolicy.FilterBits` | db/bloom.h:22-29 | the number of bits is the least multiple of 8 that is at least 64 and at least keys times bits per key |
| `Blooms.BloomFilterPolicy.AddProbes` | db/bloom.h:38-44 | sets exactly the bits one key probes |
| `Blooms.BloomFilterPolicy.KeyMayMatch` | db/bloom.h:48-72 | for any byte string: whether every probe hits in its first size() bytes, short strings and reserved encodings included |
| `Blooms.FilterMatches` | db/bloom.h:20-72 | a filter accepts a key if and only if each of its probes is a probe of some inserted key; so it accepts every inserted key |
| `Blooms.MatchesMeaning` | db/bloom.h:48-72 | asking a filter tests the bits at as many positions of the key as its last byte says |
| `Blooms.MatchesOutside` | db/bloom.h:50-62 | shorter than two bytes nothing matches; with more than 30 probes everything does |
| `FilterBlocks.Unflatten` | db/filter_block.cpp:25-66 | start_ cuts keys_ back into the keys that were added |
| `FilterBlocks.FilterBlockBuilder.StartBlock` | db/filter_block.cpp:17-23 | generates filters up to the block's 2KB range: the pending keys in the first, the rest empty; the source's assertion is its precondition |
| `FilterBlocks.FilterBlockBuilder.AddKey` | db/filter_block.cpp:25-29 | one more pending key, its first size() bytes |
| `FilterBlocks.FilterBlockBuilder.GenerateFilter` | db/filter_block.cpp:51-75 | one more filter, for exactly the pending keys |
| `FilterBlocks.FilterBlockBuilder.Finish` | db/filter_block.cpp:31-49 | the bytes of a filter block for the groups so far and the pending keys |
| `FilterBlocks.FinishedWords` | db/filter_block.cpp:77-95 | a reader finds the offset array, its entries and the base where the builder put them, below 4GB |
| `FilterBlocks.RangeBase` | db/filter_block.cpp:91 | shifted by base_lg_ == 11, an offset is the number of its 2KB range |
| `FilterBlocks.RangeIs` | db/filter_block.cpp:91 | shifting by any base_lg_ divides by that power of two |
| `FilterBlocks.FilterFound` | db/filter_block.cpp:90-104 | the bytes between two offsets are the filter of that group, and answer for it |
| `FilterBlocks.FilterBlockReader.constructor` | db/filter_block.cpp:77-88 | for any bytes whose size() is not negative: the base, the place of the offset array and its length as the last five bytes say, nothing where they cannot be right; whatever is read later is in bounds; for a finished block below 2GB, the layout is recovered |
| `FilterBlocks.FilterBlockReader.KeyMayMatch` | db/filter_block.cpp:90-104 | for any bytes, what the words found there lead to, and true where they lead nowhere; on a finished block below 2GB exactly: true past the end, false for an empty range, else whether each probe of the key is a probe of some key of that range |
| `FilterBlocks.FilterBlockReader.DecidesOutside` | db/filter_block.cpp:92-103 | for any bytes: past the last filter everything matches, in a filter that ends where it starts nothing does, and where the two words cannot be right everything does |
| `FilterBlocks.AfterGroups` | db/filter_block.cpp:17-75 | after any legal run of calls, group i holds exactly the keys added for offsets in the i-th 2KB |
| `FilterBlocks.ProtocolHolds` | db/filter_block.cpp:19 | with offsets that never decrease the assertion in StartBlock never fails |
| `FilterBlocks.FinalGroupsAt` | db/filter_block.cpp:31-49 | the finished block covers, range by range, exactly the keys added for that range |
| `FilterBlocks.KeysForExactly` | db/filter_block.cpp:17-29 | the keys of a range are those added at offsets in it |
| `FilterBlocks.AddedKeysAccepted` | db/filter_block.h:17-18 | no false negatives: every key added after StartBlock(off) and before the next StartBlock is accepted at off |
| `FilterBlocks.EmptyRangeRejected` | db/filter_block.cpp:98-101 | an offset whose 2KB got no keys while a later range did matches nothing |
| `FilterBlocks.EmptyRangeExactly` | db/filter_block.cpp:92-103 | at an offset whose range got no keys everything matches if and only if no block was started beyond that range |
| `FilterBlocks.Play` | db/filter_block.h:17-39 | a builder put through any legal run of calls and finished writes the filter block for exactly the keys of each range |
| `FilterBlocks.PlayAndRead` | db/filter_block.h:17-53 | a reader on that block, below 2GB, finds every key added after StartBlock(off) and before the next StartBlock at off, and nothing at an offset whose range got no keys while a later one did |
| `WritableFiles.WritableFile.Append` | db/env.h:111-124 | exactly what Appended says of the buffer, the file and the writes to come, whatever they do; while none fails the logical file grows by the first data.size() bytes |
| `WritableFiles.AppendedExactly` | db/env.h:111-124 | while no write fails, appending adds the first |data| modulo 2^32 bytes, wherever size() and the sum with the buffered bytes are not negative; that is all of the data if and only if it is shorter than 2^31 bytes |
| `WritableFiles.AppendedWhere` | db/env.h:112-123 | what fits below 1024 bytes stays in the buffer, what does not sends the buffer to the file, and more than 1024 bytes at once follow it there |
| `WritableFiles.WritableFile.FlushBuffer` | db/env.h:125-134 | exactly what Flushed says, whatever the writes do; while none fails everything buffered is written and the logical file is unchanged |
| `WritableFiles.WritableFile.WriteToFile` | db/env.h:135-151 | the loop, failing writes and the int bound included, puts exactly the bytes of Written into the file and always returns OK |
| `WritableFiles.WrittenExactly` | db/env.h:135-151 | for every length and every way the calls of write(2) can go: all data of that length are written as they are if and only if the length is below 2^31 and none of the calls made failed |
| `WritableFiles.WrittenOften` | db/env.h:135-151 | for given data, in runs with at most one failure or none at offset 0: the file gets the data if and only if no call failed; each failure past offset 0 adds one byte too many |
| `WritableFiles.FailuresUnnoticed` | db/env.h:139 | a failing first write loses everything and OK is returned; a failing second write makes a byte appear twice |
| `WritableFiles.FailuresCancel` | db/env.h:137-149 | three failures that leave the first byte twice and nothing else, so that two equal bytes are written right by accident |
| `BlockTrailers.TrailerDetects` | db/SSTable.h:103-107 | blocks of one length that differ within four consecutive bytes only get different trailers, whatever the byte of line 105 is, as long as it is the same |
| `BlockTrailers.TrailerReads` | db/SSTable.h:103-107 | the trailer decoded and unmasked is the checksum of the stored bytes and that byte |
| `SSTables.HandleRoundTrip` | db/SSTable.h:20-27 | DecodeFrom undoes EncodeTo for 64-bit offsets and sizes |
| `SSTables.HandleLayout` | db/SSTable.h:20-23 | an encoded handle is the offset and then the size, byte i of each weighing 256^i |
| `SSTables.StreamAt` | db/SSTable.h:93-112 | handles tile the file from 0, each offset being the last one plus its size plus 4, and the bytes at each handle are what was stored of that block |
| `SSTables.TrailerAt` | db/SSTable.h:103-107 | the four bytes after them are the masked checksum of them and one more byte |
| `SSTables.StoredWhole` | db/SSTable.h:97-101 | the whole finished block is stored if and only if it is shorter than 2^31 bytes; otherwise its first |block| modulo 2^32 bytes, size() not being negative |
| `SSTables.BlockCut` | db/SSTable.h:97-112 | one entry with a key of one byte and a value of 2^32 - 1 makes a block of which 20 bytes are stored |
| `SSTables.FilterCallsLegal` | db/SSTable.h:56-91 | the calls the table builder makes on its filter builder obey the protocol, StartBlock at each block's own offset |
| `TableBuilders.FilterAfterBlock` | db/SSTable.h:86-89 | StartBlock after each flush is legal and leaves the filter builder where the run says |
| `TableBuilders.FewPendingKeys` | db/SSTable.h:70-89 | no more keys come together between two filters than the blocks starting within 2KB can hold, so their number fits the int of db/filter_block.cpp:70 |
| `TableBuilders.CloseIndex` | db/SSTable.h:64-69 | the pending index entry is the last block's last key with its handle |
| `TableBuilders.TableBuilder.constructor` | db/SSTable.h:56-60 | an empty table with its filter builder started at 0 |
| `TableBuilders.TableBuilder.Add` | db/SSTable.h:61-79 | appends one entry, for any key and block whose size() is not negative; the block is flushed exactly when it reaches 1000 bytes; a pending index entry implies an empty data block, and all blocks, index, filter and file agree |
| `TableBuilders.TableBuilder.BlocksInPlace` | db/SSTable.h:51-115 | in every reachable state: pending_index_entry implies an empty data block; handles tile the file from 0 to offset; the written and buffered bytes at each handle are what was stored of that block, the whole of it if and only if it is shorter than 2^31 bytes; index entries are last keys with handles |
| `TableBuilders.TableBuilder.AddIndexEntry` | db/SSTable.h:64-69 | the index is complete again |
| `TableBuilders.TableBuilder.Flush` | db/SSTable.h:81-91 | the data block, if not empty, becomes the last block of the file, and its index entry is pending |
| `TableBuilders.TableBuilder.Seal` | db/SSTable.h:103-106 | the trailer is the masked checksum of the stored bytes and of one byte that nothing has set, computed by Crc32c.Extend |
| `TableBuilders.TableBuilder.WriteBlock` | db/SSTable.h:93-115 | the file grows by the first size() bytes of the finished block and their trailer; the handle says where and how many |
| `TableBuilders.TableBuilder.Finish` | db/SSTable.h:117-131 | the file is data blocks, index block, each with its trailer, and footer for exactly the entries added, each block as StoredWhole says; for no entries, sixteen bytes |
| `TableLookups.PartsSorted` | db/SSTable.h:61-131 | for strictly increasing keys the index and every block are sorted, as Seek needs |
| `TableLookups.OnlyBlock` | db/SSTable.h:67-74 | the first index entry with key >= target names the only block that can hold the target, and the first key >= target there is the only place |
| `TableLookups.TableLookup` | db/SSTable.h:61-131 | seeking in the index and then in the block finds a key with a value if and only if that pair was added |
| `TableLookups.FileLayout` | db/SSTable.h:117-131 | footer, index block and data blocks are where their handles say in the finished file |
| `TableLookups.FileAnswers` | db/SSTable.h:61-131 | the same from the bytes of the finished file alone, each block read from end to end: footer, index block, data block; for blocks below 2GB |
| `TableLookups.SeekBlock` | db/block.h:118-176 | an iterator on the bytes at a handle, after Seek, holds the first entry with key >= target if there is one |
| `TableLookups.Get` | db/SSTable.h:61-131 | BlockIter.Seek in the index block and then in the block named there gives a value if and only if that pair was added; for blocks below 2GB |
| `TableLookups.TableKeysAccepted` | db/SSTable.h:70-89 | every key of the data block at an offset is accepted at that offset by the filter block its filter builder would finish |
| `WorkQueues.StepInv` | db/env.h:316-341 | every step of every caller and thread keeps the invariant |
| `WorkQueues.AllRuns` | db/env.h:316-341 | for any number of callers and threads and any interleaving: front() and pop() never meet an empty queue; queue length == semaphore + woken threads yet to pop + a push yet to be posted; finished ++ running ++ queued == pushed, in order; at most one item runs |
| `WorkQueues.ScheduledExactly` | db/env.h:330-334 | in every run what has been pushed and what is on the way to be pushed are exactly the items scheduled: none lost, none twice, none changed |
| `WorkQueues.CallerMoves` | db/env.h:330-341 | inside Schedule a caller can always move, but for one at a mutex that is taken |
| `WorkQueues.ThreadMoves` | db/env.h:316-325 | a thread can always move, but for one at a semaphore that is 0, at a mutex that is taken, or in an item whose call has not returned |
| `WorkQueues.RunningBlocksPush` | db/env.h:320-323 | while any item runs nobody can push |
| `WorkQueues.SchedulingNeverReturns` | db/env.h:320-334 | once an item that calls Schedule runs, in every continuation it never returns, its call gets no further than the mutex, the mutex stays taken, and nothing more is pushed, taken or finished |
| `WorkQueues.StuckRun` | db/env.h:316-341 | a run that gets there: one caller, one item that schedules another |
| `WorkQueues.SomethingMoves` | db/env.h:316-341 | in every reachable state in which no item waits for itself, something other than a new call can happen, unless all callers are done, all threads wait and everything pushed has finished |
| `WorkQueues.SomeThreadMoves` | db/env.h:316-341 | no other deadlock and no lost wakeup: once no caller is inside Schedule, some thread can move until all items have run, unless an item waits for itself |
| `WorkQueues.Drains` | db/env.h:316-341 | from any reachable state every run without new calls is bounded, and one that leaves nothing but new calls has finished everything pushed, in order, if and only if no item queued, running or about to be pushed calls Schedule |
| `WorkQueues.TwoThreads` | db/env.h:336-340 | an interleaving in which the unlocked check launches two threads |
| `WorkQueues.ThreadsStarted` | db/env.h:336-340 | in every run, the threads started and about to be started are exactly as many as the reads of the flag before it is first set |
| `WorkQueues.OneThreadExactly` | db/env.h:336-340 | at most one thread ever starts if and only if no second caller reads the flag before the first sets it |
| `SkipLists.EncodeRoundTrip` | db/memtable.h:39-61 | DecodeKey and DecodeEntry get back sequence number, type and the first size() bytes of key and value, which are all of both if and only if both are shorter than 2^31 bytes |
| `SkipLists.EncodeLayout` | db/memtable.h:43-58 | where key and value lie in an entry, and the bytes of its sizes and of its tag by their weight |
| `SkipLists.LinkedInserted` | db/skipList.h:81-84 | splicing a node in on the levels below its height leaves every level linked node to next node that tall |
| `SkipLists.LinkedRemoved` | db/skipList.h:129-134 | leading those levels past a node does too |
| `SkipLists.PredSplits` | db/skipList.h:60-67 | the last node below the key on level 0 splits the list into keys below and not below |
| `SkipLists.LinksFollowLevel` | db/skipList.h:144-154 | following the links of level i from the head visits exactly the nodes with more than i levels, in order |
| `SkipLists.LevelOfLevel` | db/skipList.h:80-84 | each level is a sub-list of the level below |
| `SkipLists.SkipList.Levels` | db/skipList.h:50-142 | level 0 is the strictly sorted list of the keys present, level i + 1 a sub-list of level i, nothing lies above level |
| `SkipLists.SkipList.TopLevelUsed` | db/skipList.h:138-140 | above level 0 the top level is never empty |
| `SkipLists.SkipList.constructor` | db/skipList.h:36-40 | an empty list whose head has maxLevel links |
| `SkipLists.SkipList.Along` | db/skipList.h:61-63 | the last node on the level whose key is below the key sought |
| `SkipLists.SkipList.search` | db/skipList.h:90-110 | succeeds exactly for the keys present, with their value |
| `SkipLists.SkipList.insert` | db/skipList.h:55-86 | adds the entry under its key, as one node of the height the draws give between the nodes with smaller and larger keys; with a key already present the list stays as it is |
| `SkipLists.SkipList.remove` | db/skipList.h:115-142 | takes out the node with the key if present, and no other |
| `SkipLists.SkipList.Splice` | db/skipList.h:81-84 | after the loop every level links each node to the next one that tall, the new node included |
| `SkipLists.SkipList.Bypass` | db/skipList.h:129-134 | the loop changes exactly the links that led to the victim |
| `SkipLists.SkipList.Lower` | db/skipList.h:138-140 | level is the top level in use again |
| `SkipLists.SkipList.RandomLevel` | db/skipList.h:23-29 | one level, and one more for each draw below the probability before the first that is not, up to maxLevel |

## Left out

- TableBuilders.TableBuilder.constructor: takes a file no write to which fails; what failing writes do to a file is `WritableFiles.Appended`.
- WritableFiles.WritableFile.Append: nothing is said for a negative size, nor where env.h:112 overflows, both undefined. A run of writes that never ends is not modelled: after those listed each accepts all it is offered.
- `SequentialFile`, `RandomAccessFile`, the `env` file functions, `Fsync` and MANIFEST handling: wrappers over the operating system.
- db/arena.h, db/iterator.h, db/status.h, main.cpp, and db/memtable.h but for its encoding of entries: easy facts, or semantics the code does not settle.
- `Hash`: an arbitrary function from byte strings to 32-bit words; nothing depends on which. False-positive rates are not modelled.
- Values, deleters and memory of cache entries: an entry is its key, hash and charge; freeing is a log of deleter calls. Destructors of the cache and the table, and `NewId`, are not modelled.
- Widths in the cache: `length_`, `elems_`, `refs` and `usage_` are unbounded; 32-bit wrap-around of these is not modelled.
- Keys and values are whole byte strings; db/SSTable.h:74 and db/skipList.h:93,100 cut them at the first NUL.
- The filter block is never written to the file by the table builder; the model finishes it separately.
- The signedness of `char` and a shift by 64 or more, undefined, when the filter reader takes the base of a block not written by the builder: the byte is taken as 0 to 255, and such a shift gives 0.
- Blooms.BloomFilterPolicy.constructor: says nothing from -2 bits per key down, where the conversion of the product at db/bloom.h:13 is undefined.
- Blooms.BloomFilterPolicy.CreateFilter: says nothing for -1 bits per key, where the size wraps around to 0 bits or to more than there is memory, nor for 2^31 keys or more, whose number is passed as an int.
- `bits_per_key * 0.69` is exact arithmetic on reals; below the cap of 30 no product but 0 comes closer than 0.01 to a whole number, so binary rounding makes no difference.
- Functions of items: an item is the `Schedule` calls its function makes; that the function returns once these have is taken for granted. Locking a `std::mutex` that the thread already holds, undefined in C++, is waiting for it.
- Memory ordering: the unlocked reads and writes of `is_background_thread_started` are atomic steps. `sem_wait` returns only by taking a count; interruption by a signal, which the code does not check for, is not modelled.
- `Status` results of the table builder, which are always OK here.
- The random draws of the skip list are an input; their distribution is not modelled. Atomic loads of `forward` and concurrent readers are not.
- FilterBlocks.FilterBlockReader.KeyMayMatch: tied to the keys only for blocks below 2GB, all that size() shows whole.
- TableLookups.FileAnswers: stated for blocks that are stored whole, below 2GB, and files below 2^64 bytes, what the handles can hold.

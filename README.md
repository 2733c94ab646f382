# memento core, modelled in Dafny

memento is a Rust library of crash-consistent objects for persistent memory. This project models
the sequential core of seven of its source files, each in a module of its own:

- `TaggedPtr` (`tagged_ptr.dfy`, `src/pepoch/atomic.rs`): the 64-bit tagged persistent pointer.
  From the most significant bit down it holds an aux bit, a descriptor bit, a 9-bit thread id, an
  11-bit high tag, the pool offset, and a low tag in the alignment bits of the offset. The module
  covers the composers and `decompose_tag`, and `PAtomic` as a class over one word with `load`,
  `store`, `swap`, `compare_exchange`, `fetch_and/or/xor` and `fetch_update`.
- `EpochInternal` (`epoch_internal.dfy`, `crossbeam-epoch/src/internal.rs`): the fixed-capacity
  `Bag` of deferred functions over an array, the expiry rule of sealed bags, and a participant's
  `Local` record. `Local` covers the guard, handle and pin counters, the local bag, its
  de-duplication and packing into bags (`dedup_as_bags`), and the sorted set of locations to
  persist (`push_persist`).
- `SizeClasses` (`size_class.dfy`, `ext/ralloc/src/SizeClass.hpp`): the 235 rows of the
  allocator's `SIZE_CLASSES` table, the block size each row denotes, and the `SizeClass` lookups.
- `Clobber` (`clobber.dfy`, the skiplist runtime `clobber.c`): the per-transaction log buffer
  with its cursor `pertx_counter`, the pointer and parameter records, `tx_open`/`tx_commit`, and
  the pool's single root object.
- `Combining` (`combining.dfy`, `src/ds/comb.rs`): the combining lock word (a 55-bit state
  pointer above a 9-bit thread id), a combining pass over a state record, and `apply_op` with its
  recovery decisions.
- `RecoverableTicketLock` (`ticket_lock.dfy`, `src/old/ticket_lock.rs`): the membership state
  machine of `lock`, `unlock`, and the snapshot-and-skip logic of `recover`.
- `PCas` (`pcas.dfy`, `evaluation/cas/src/pcas.rs`): the persistent CAS with a dirty flag in the
  low tag, and the multi-word CAS (`pmwcas_inner`) with its RDCSS and PMWCAS flags in the high
  tag, its status finalisation and its final install.

Everything runs one thread at a time. Where the source spins until another thread acts, the model
returns an outcome that says so (`Blocked`, `Waiting`, `RecoveryBlocked`, `Helping`). Flushes to
persistent memory (`persist_obj`, `sfence`, `pmemobj_*`) are no-ops. Words are `bv64`. Counters
are unbounded naturals unless the source wraps them, in which case the wrap is written out.

## Model

| member | source | states |
|---|---|---|
| TaggedPtr.StrongestFailureOrdering | src/pepoch/atomic.rs:34-40 | never yields Release or AcqRel; SeqCst maps to SeqCst, Acquire and AcqRel to Acquire, Relaxed and Release to Relaxed, each as an if-and-only-if |
| TaggedPtr.LeftFieldLayout | src/pepoch/atomic.rs:118-140 | the aux, descriptor, thread-id and high-tag masks are the left bits at consecutive positions from the most significant bit, pairwise disjoint, and together cover the top 22 bits |
| TaggedPtr.LowBits | src/pepoch/atomic.rs:150-152 | the low-bit mask of an alignment below 2^43 stays clear of the four left fields, and has bit 0 set exactly when the alignment is above 1 |
| TaggedPtr.CutAsHighTagLen | src/pepoch/atomic.rs:144-146 | the result fits in 11 bits and agrees with the input on its low 11 bits |
| TaggedPtr.FromPtrUntagged | src/pepoch/atomic.rs:156-158 | an offset with no bit in the four left fields (`offset & LEFT_BITS == 0`) that passes the alignment check (`offset & low == 0`) becomes a word whose fields are all zero except the offset, which is the offset given |
| TaggedPtr.TagReadsBack | src/pepoch/atomic.rs:164-166 | after `compose_tag` the low tag reads back as the tag cut to the low-bit mask |
| TaggedPtr.TidReadsBack | src/pepoch/atomic.rs:169-171 | after `compose_tid` the thread id reads back as the value cut to 9 bits |
| TaggedPtr.HighTagReadsBack | src/pepoch/atomic.rs:174-176 | after `compose_high_tag` the high tag reads back as the value cut to 11 bits |
| TaggedPtr.DescBitReadsBack | src/pepoch/atomic.rs:180-182 | after `compose_desc_bit` the descriptor bit reads back as bit 0 of the value |
| TaggedPtr.AuxBitReadsBack | src/pepoch/atomic.rs:186-188 | after `compose_aux_bit` the aux bit reads back as bit 0 of the value |
| TaggedPtr.ComposeTagFields | src/pepoch/atomic.rs:164-166 | `decompose_tag` of `compose_tag(d, t)` is that of `d` with only the low tag replaced by `t` cut to the mask |
| TaggedPtr.ComposeTidFields | src/pepoch/atomic.rs:169-171 | `decompose_tag` of `compose_tid(t, d)` is that of `d` with only the thread id replaced by `t` cut to 9 bits |
| TaggedPtr.ComposeHighTagFields | src/pepoch/atomic.rs:174-176 | `decompose_tag` of `compose_high_tag(h, d)` is that of `d` with only the high tag replaced by `h` cut to 11 bits |
| TaggedPtr.ComposeDescBitFields | src/pepoch/atomic.rs:180-182 | `decompose_tag` of `compose_desc_bit(b, d)` is that of `d` with only the descriptor bit replaced |
| TaggedPtr.ComposeAuxBitFields | src/pepoch/atomic.rs:186-188 | `decompose_tag` of `compose_aux_bit(b, d)` is that of `d` with only the aux bit replaced |
| TaggedPtr.DecomposeTagPartitions | src/pepoch/atomic.rs:193-202 | the six fields partition the word: composing them back gives the word itself |
| TaggedPtr.UntaggedFields | src/pepoch/atomic.rs:193-202 | a word with no bits in the left fields or the low tag decomposes into its offset alone |
| TaggedPtr.WithTagKeepsNull | src/pepoch/atomic.rs:1853-1855 | `with_tag` keeps the pointer, so `is_null`, which compares offsets only, is unchanged |
| TaggedPtr.NullIsUntagged | src/pepoch/atomic.rs:1575-1581 | the null word has the null pointer's offset and every tag zero |
| TaggedPtr.SharedCmp | src/pepoch/atomic.rs:1912-1929 | `PShared` equality and ordering are those of the raw word, tags included |
| TaggedPtr.TagsDistinguishShared | src/pepoch/atomic.rs:1912-1915 | two words with the same pointer and different low tags are different `PShared` values |
| TaggedPtr.FetchAndIsWithTag | src/pepoch/atomic.rs:927-929 | the word `fetch_and` stores is the old word with its tag replaced by tag AND `val` |
| TaggedPtr.FetchOrIsWithTag | src/pepoch/atomic.rs:954-956 | the word `fetch_or` stores is the old word with its tag replaced by tag OR `val` |
| TaggedPtr.FetchXorIsWithTag | src/pepoch/atomic.rs:982-984 | the word `fetch_xor` stores is the old word with its tag replaced by tag XOR `val` |
| TaggedPtr.FetchAndTag | src/pepoch/atomic.rs:927-929 | the new tag is the old tag AND `val` |
| TaggedPtr.FetchOrTag | src/pepoch/atomic.rs:954-956 | the new tag is the old tag OR `val` cut to the mask |
| TaggedPtr.FetchXorTag | src/pepoch/atomic.rs:982-984 | the new tag is the old tag XOR `val` cut to the mask |
| TaggedPtr.FetchOpsDocExamples | src/pepoch/atomic.rs:924-925 | the documented examples on an `i32` pointer: 3 AND 2 is 2, 1 OR 2 is 3, 1 XOR 3 is 2 |
| TaggedPtr.FetchUpdateAsWritten | src/pepoch/atomic.rs:741-759 | as written: `Ok` exactly when `func` gives `Some`, and then it carries the new word; otherwise `Err` with the word found |
| TaggedPtr.FetchUpdateDocumented | src/pepoch/atomic.rs:698 | as documented: `Ok` exactly when `func` gives `Some`, and both results carry the previous word |
| TaggedPtr.FetchUpdateDiffersFromDoc | src/pepoch/atomic.rs:741-759 | whenever `func` changes the word, the code's result differs from the documented one |
| TaggedPtr.FetchUpdateReturnsNewNotPrevious | src/pepoch/atomic.rs:741-759 | incrementing a null word: the code returns `Ok(1)` where the documentation promises `Ok(0)` |
| TaggedPtr.PAtomic.FromWord | src/pepoch/atomic.rs:430-435 | the atomic holds the given word |
| TaggedPtr.PAtomic.Null | src/pepoch/atomic.rs:448-454 | a new null atomic is null and has tag 0 |
| TaggedPtr.PAtomic.Load | src/pepoch/atomic.rs:476-478 | returns the stored word and changes nothing |
| TaggedPtr.PAtomic.Store | src/pepoch/atomic.rs:530-532 | the atomic then holds the new word |
| TaggedPtr.PAtomic.Swap | src/pepoch/atomic.rs:555-557 | returns the previous word and installs the new one |
| TaggedPtr.PAtomic.CompareExchange | src/pepoch/atomic.rs:594-615 | succeeds exactly when the whole word, tags included, equals `current`; then the new word is stored and returned, otherwise the word is unchanged and the value found comes back with `new` |
| TaggedPtr.PAtomic.FetchAnd | src/pepoch/atomic.rs:927-929 | returns the previous word and stores it with its tag ANDed with `val` |
| TaggedPtr.PAtomic.FetchOr | src/pepoch/atomic.rs:954-956 | returns the previous word and stores it with its tag ORed with `val` |
| TaggedPtr.PAtomic.FetchXor | src/pepoch/atomic.rs:982-984 | returns the previous word and stores it with its tag XORed with `val` |
| TaggedPtr.PAtomic.FetchUpdate | src/pepoch/atomic.rs:741-759 | corrected: returns the documented result, the previous word, and stores `func`'s value when it gives one |
| EpochInternal.Bag.constructor | crossbeam-persistency/crossbeam-epoch/src/internal.rs:76-78 | a new bag has `MAX_OBJECTS` slots and is empty |
| EpochInternal.Bag.IsEmpty | crossbeam-persistency/crossbeam-epoch/src/internal.rs:81-83 | true exactly when the bag holds no deferred function |
| EpochInternal.Bag.TryPush | crossbeam-persistency/crossbeam-epoch/src/internal.rs:93-101 | succeeds exactly when fewer than 40 slots are used, and then appends the item; otherwise hands the item back with the bag unchanged |
| EpochInternal.ExpiryIsMonotone | crossbeam-persistency/crossbeam-epoch/src/internal.rs:206-210 | a bag sealed in the current epoch or the one before is not expired, and an expired bag stays expired as the global epoch grows |
| EpochInternal.Dedup | crossbeam-persistency/crossbeam-epoch/src/internal.rs:683-688 | de-duplication never lengthens the vector, keeps it empty exactly when it was, and keeps its first entry |
| EpochInternal.DedupLeavesNoAdjacentDuplicates | crossbeam-persistency/crossbeam-epoch/src/internal.rs:683-688 | afterwards no two neighbours have equal `Some` keys |
| EpochInternal.DedupKeepsOnlyInputs | crossbeam-persistency/crossbeam-epoch/src/internal.rs:683-688 | every entry kept comes from the input |
| EpochInternal.DedupKeepsUnkeyed | crossbeam-persistency/crossbeam-epoch/src/internal.rs:683-688 | entries with a `None` key are never merged: all of them survive, in order |
| EpochInternal.DedupFixesDistinct | crossbeam-persistency/crossbeam-epoch/src/internal.rs:683-688 | a vector without adjacent duplicates is left as it is |
| EpochInternal.DedupIdempotent | crossbeam-persistency/crossbeam-epoch/src/internal.rs:683-688 | de-duplicating twice is de-duplicating once |
| EpochInternal.PackIntoBags | crossbeam-persistency/crossbeam-epoch/src/internal.rs:690-702 | no bag is empty or holds more than 40 items, all but the last are full, and the bags hold the items popped from the back of the vector, in that order |
| EpochInternal.PushOrSeal | crossbeam-persistency/crossbeam-epoch/src/internal.rs:692-699 | one packing step: the item goes into the current bag, or a full bag is sealed into the list and the item starts a fresh one; no item is lost or reordered |
| EpochInternal.Local.Register | crossbeam-persistency/crossbeam-epoch/src/internal.rs:380-403 | a new participant is unpinned, with one handle, no guard, no pins and empty bags |
| EpochInternal.Local.ResetCount | crossbeam-persistency/crossbeam-epoch/src/internal.rs:436-441 | one handle, no guard, one pin, not repinning; the participant is unpinned |
| EpochInternal.Local.Defer | crossbeam-persistency/crossbeam-epoch/src/internal.rs:470-473 | appends the deferred function to the local bag |
| EpochInternal.Local.DedupAsBags | crossbeam-persistency/crossbeam-epoch/src/internal.rs:681-705 | drains the local bag; the bags are well filled and hold the de-duplicated entries in reverse order |
| EpochInternal.Local.Pin | crossbeam-persistency/crossbeam-epoch/src/internal.rs:486-542 | one more guard; only the first pins the participant at the global epoch and bumps the wrapping pin counter; a collection is due exactly on the first guard when the old pin count is a multiple of 128 |
| EpochInternal.Local.Unpin | crossbeam-persistency/crossbeam-epoch/src/internal.rs:546-574 | one guard fewer; the last guard resets the epoch and hands a bag of 40 or more entries to the global queue, de-duplicated and packed; a participant with no handle left is then finalized, and everything its bag held reaches the global queue once; with guards left nothing else changes |
| EpochInternal.Local.Repin | crossbeam-persistency/crossbeam-epoch/src/internal.rs:578-615 | with exactly one guard and a stale epoch, moves to the global epoch and hands a full bag to the global queue; otherwise changes nothing; the repinning flag ends cleared |
| EpochInternal.Local.AcquireHandle | crossbeam-persistency/crossbeam-epoch/src/internal.rs:619-625 | one more handle |
| EpochInternal.Local.ReleaseHandle | crossbeam-persistency/crossbeam-epoch/src/internal.rs:629-638 | one handle fewer, with the guard count, thread id, persist list and repinning flag unchanged; finalizes exactly when the participant is unpinned and this was its last handle, and then the whole local bag goes to the global queue, the epoch is reset and the pin count moves on by one modulo 2^64; otherwise the bag, epoch and pin count are unchanged |
| EpochInternal.Local.Finalize | crossbeam-persistency/crossbeam-epoch/src/internal.rs:642-678 | pins once (bumping the pin counter), hands the whole local bag to the global queue, and leaves the participant unpinned with no handle and removed from the list |
| EpochInternal.Local.PushPersist | crossbeam-persistency/crossbeam-epoch/src/internal.rs:708-716 | keeps the locations strictly sorted by pointer; a pointer already present changes nothing, a new one is added exactly once |
| EpochInternal.SearchByPtr | crossbeam-persistency/crossbeam-epoch/src/internal.rs:713 | `Ok(i)` exactly when the pointer is present, at index `i`; otherwise `Err(pos)` with every entry before `pos` below it and every entry from `pos` on above it |
| EpochInternal.InsertKeepsSorted | crossbeam-persistency/crossbeam-epoch/src/internal.rs:713-715 | inserting at the position the search gives keeps the vector strictly sorted |
| SizeClasses.Row | ext/ralloc/src/SizeClass.hpp:70-364 | row `i` of the table has index `i` and the shape of its group |
| SizeClasses.Rows0FollowShape | ext/ralloc/src/SizeClass.hpp:72-96 | rows 0 to 19 follow the table's shape |
| SizeClasses.Rows20FollowShape | ext/ralloc/src/SizeClass.hpp:97-121 | rows 20 to 39 follow the table's shape |
| SizeClasses.Rows40FollowShape | ext/ralloc/src/SizeClass.hpp:122-146 | rows 40 to 59 follow the table's shape |
| SizeClasses.Rows60FollowShape | ext/ralloc/src/SizeClass.hpp:147-171 | rows 60 to 79 follow the table's shape |
| SizeClasses.Rows80FollowShape | ext/ralloc/src/SizeClass.hpp:172-196 | rows 80 to 99 follow the table's shape |
| SizeClasses.Rows100FollowShape | ext/ralloc/src/SizeClass.hpp:197-221 | rows 100 to 119 follow the table's shape |
| SizeClasses.Rows120FollowShape | ext/ralloc/src/SizeClass.hpp:222-246 | rows 120 to 139 follow the table's shape |
| SizeClasses.Rows140FollowShape | ext/ralloc/src/SizeClass.hpp:247-271 | rows 140 to 159 follow the table's shape |
| SizeClasses.Rows160FollowShape | ext/ralloc/src/SizeClass.hpp:272-296 | rows 160 to 179 follow the table's shape |
| SizeClasses.Rows180FollowShape | ext/ralloc/src/SizeClass.hpp:297-321 | rows 180 to 199 follow the table's shape |
| SizeClasses.Rows200FollowShape | ext/ralloc/src/SizeClass.hpp:322-346 | rows 200 to 219 follow the table's shape |
| SizeClasses.Rows220FollowShape | ext/ralloc/src/SizeClass.hpp:347-364 | rows 220 to 234 follow the table's shape |
| SizeClasses.TableBlockSize | ext/ralloc/src/SizeClass.hpp:69-364 | the block size of every row, `(1 << lg_grp) + (ndelta << lg_delta)`, is the one its shape gives |
| SizeClasses.GroupBlockSize | ext/ralloc/src/SizeClass.hpp:69 | from row 4 on a block size is `(4 + ndelta) * 2^lg_delta` |
| SizeClasses.FirstClassesStepByEight | ext/ralloc/src/SizeClass.hpp:72-75 | the first four classes are 8, 16, 24 and 32 bytes |
| SizeClasses.GroupEndsAtPowerOfTwo | ext/ralloc/src/SizeClass.hpp:77-364 | every group of four ends exactly at `2^(lg_grp + 1)` |
| SizeClasses.ShapeNext | ext/ralloc/src/SizeClass.hpp:77-364 | within a group `ndelta` steps up by one; after the fourth row the next group starts with `lg_grp` and `lg_delta` one larger |
| SizeClasses.BlockSizeIncreasing | ext/ralloc/src/SizeClass.hpp:72-364 | block size is strictly increasing in the class index |
| SizeClasses.LeastClass | ext/ralloc/src/SizeClass.hpp:57-60 | the reference meaning of a lookup: a class that holds the size, with every earlier class too small |
| SizeClasses.LeastClassIsLeast | ext/ralloc/src/SizeClass.hpp:57-60 | a class holds the size exactly when it is at or after the least class |
| SizeClasses.LeastClassMonotone | ext/ralloc/src/SizeClass.hpp:57-60 | a larger request never maps to a smaller class |
| SizeClasses.GetBlockNum | ext/ralloc/src/SizeClass.hpp:42-51 | the cached block count is the number of whole blocks that fit in the superblock |
| SizeClasses.GetSizeclass | ext/ralloc/src/SizeClass.hpp:60 | for a size up to `MAX_SZ`, the class index is below `MAX_SZ_IDX` |
| SizeClasses.GetSizeclassByIdx | ext/ralloc/src/SizeClass.hpp:61-62 | for an index below `MAX_SZ_IDX`, the class satisfies the `SizeClassData` invariant |
| SizeClasses.LeastFitLookup | ext/ralloc/src/SizeClass.hpp:56-60 | under a least-fit lookup table, `get_sizeclass` is monotone and picks a class that holds the request |
| Clobber.LeBytesRoundTrip | evaluation/performance/queue/src/clobber-nvm/apps/skiplist/wrap/clobber.c:55-56 | copying the first `n` bytes of a value and reading them back gives the value modulo `256^n` |
| Clobber.OverwriteReadsBack | evaluation/performance/queue/src/clobber-nvm/apps/skiplist/wrap/clobber.c:53-56 | after a copy the destination range holds the data and every other byte is unchanged |
| Clobber.Memcpy | evaluation/performance/queue/src/clobber-nvm/apps/skiplist/wrap/clobber.c:53-56 | `memcpy` overwrites exactly the destination range with the source |
| Clobber.PtrRecordReadsBack | evaluation/performance/queue/src/clobber-nvm/apps/skiplist/wrap/clobber.c:53-58 | a pointer record is `size + 1` bytes, starts with `'$'` and carries the offset cut to `size` bytes |
| Clobber.ParaRecordReadsBack | evaluation/performance/queue/src/clobber-nvm/apps/skiplist/wrap/clobber.c:66-69 | a parameter record carries its length modulo 2^32 and then the parameter unchanged |
| Clobber.RecordsKeepHeader | evaluation/performance/queue/src/clobber-nvm/apps/skiplist/wrap/clobber.c:22 | records go at the cursor, never below 2, so they never touch the validity flag or the function index |
| Clobber.OverwriteTwice | evaluation/performance/queue/src/clobber-nvm/apps/skiplist/wrap/clobber.c:53-56 | two adjacent copies are one copy of the concatenation, so a record is written as one unit |
| Clobber.Runtime.constructor | evaluation/performance/queue/src/clobber-nvm/apps/skiplist/wrap/clobber.c:20-22 | at program start there is no pool and no root, and the cursor is at 2 |
| Clobber.Runtime.InitRuntime | evaluation/performance/queue/src/clobber-nvm/apps/skiplist/wrap/clobber.c:88-101 | the pool, never null, is opened and returned; an existing pool's root, never at address 0, becomes the recovered root, otherwise the root is untouched |
| Clobber.Runtime.AddFuncIndex | evaluation/performance/queue/src/clobber-nvm/apps/skiplist/wrap/clobber.c:34-37 | writes the index into byte 1 of the log and nowhere else |
| Clobber.Runtime.NvmPtrRecord | evaluation/performance/queue/src/clobber-nvm/apps/skiplist/wrap/clobber.c:49-60 | for the root changes nothing; otherwise writes `'$'` and the first `size` bytes of the pool offset at the cursor, and moves the cursor past them |
| Clobber.Runtime.PtrParaRecord | evaluation/performance/queue/src/clobber-nvm/apps/skiplist/wrap/clobber.c:64-70 | writes the length's low four bytes and the parameter at the cursor, and moves the cursor past them |
| Clobber.Runtime.TxOpen | evaluation/performance/queue/src/clobber-nvm/apps/skiplist/wrap/clobber.c:108-116 | sets the validity flag in the volatile buffer and copies the buffer's first `pertx_counter` bytes into the log, whose flag is then set |
| Clobber.Runtime.TxCommit | evaluation/performance/queue/src/clobber-nvm/apps/skiplist/wrap/clobber.c:118-126 | clears the validity flag of the log, changes no other byte, and rewinds the cursor to 2 |
| Clobber.Runtime.PmemAlloc | evaluation/performance/queue/src/clobber-nvm/apps/skiplist/wrap/clobber.c:141-154 | the first root-sized request without a root installs and returns the pool's root; every other request is served by the allocator and leaves the root alone |
| Clobber.Runtime.CasRoot | evaluation/performance/queue/src/clobber-nvm/apps/skiplist/wrap/clobber.c:148 | the swap succeeds exactly when there is no root yet, and only then sets it |
| Clobber.Runtime.PersistentSkiplistCreate | evaluation/performance/queue/src/clobber-nvm/apps/skiplist/wrap/clobber.c:168-175 | returns the recovered root when there is one, and otherwise the newly created list |
| Combining.AuxBitsLayout | src/ds/comb.rs:338-340 | the aux field is the top 55 bits, the complement of the 9-bit thread id |
| Combining.ComposeAuxBit | src/ds/comb.rs:343-345 | the pointer shifted into the top 55 bits, above the low 9 bits of `data` |
| Combining.DecomposeAuxBit | src/ds/comb.rs:348-353 | the word's top 55 bits shifted down, and its low 9 bits |
| Combining.DecomposeCompose | src/ds/comb.rs:343-353 | decomposing a composed word gives the pointer modulo 2^55 and the thread id modulo 2^9 |
| Combining.ComposeDecompose | src/ds/comb.rs:343-353 | every lock word is the composition of its two fields |
| Combining.CombiningLock.constructor | src/ds/comb.rs:356-359 | a new lock is released with a null pointer |
| Combining.CombiningLock.Peek | src/ds/comb.rs:395-397 | returns the pointer and the thread id, which compose back to the word |
| Combining.CombiningLock.TryLock | src/ds/comb.rs:369-390 | the owner gets `Ok` with no change; with another holder `Err` with the word's fields and no change; on a released lock `Ok`, and the lock then holds a null pointer and the caller's id |
| Combining.CombiningLock.Unlock | src/ds/comb.rs:411-414 | the lock is released and carries the committed state's address |
| Combining.ReleasedHasNoOwner | src/ds/comb.rs:399-414 | after `unlock` no thread id but 0 is the owner |
| Combining.LockedHasOneOwner | src/ds/comb.rs:381-404 | a lock taken by one id belongs to that id and refuses every other one |
| Combining.StateRec.constructor | src/ds/comb.rs:56-62 | a new state record has every return value and every deactivate number 0 |
| Combining.StateRec.CopyFrom | src/ds/comb.rs:72-80 | the record becomes a copy of the other one |
| Combining.RoundDeactivate | src/ds/comb.rs:245-258 | after a round each thread in `1..=n` has its deactivate number set to its activate number exactly when it was pending; other entries keep theirs |
| Combining.RoundKeepsUnserved | src/ds/comb.rs:245-258 | a round leaves the return value of a thread it did not serve as it was |
| Combining.RoundServesNone | src/ds/comb.rs:245-262 | a round serves nobody exactly when no thread is pending, and then changes nothing |
| Combining.RoundLeavesNonePending | src/ds/comb.rs:245-258 | after a round no thread in `1..=n` is pending |
| Combining.PassIsOneRound | src/ds/comb.rs:242-263 | with requests fixed during the pass, the pass equals its first round |
| Combining.PassServesEveryRequest | src/ds/comb.rs:242-263 | after a pass every thread in `1..=n` has been served up to its activate number, and the others are untouched |
| Combining.ServeRound | src/ds/comb.rs:243-258 | one round over the record's arrays does what the round specification says, and counts the requests served |
| Combining.PerformRequests | src/ds/comb.rs:242-263 | the rounds over the record do what the pass specification says |
| Combining.CombStruct.constructor | src/ds/comb.rs:131-145 | the structure holds the lock, the requests and the state it is given |
| Combining.CombThreadState.constructor | src/ds/comb.rs:91-96 | the thread state starts at index 0 over its two records |
| Combining.DoCombine | src/ds/comb.rs:215-289 | the spare record becomes the committed state after a full pass over the requests; the index flips; the lock is released with the record's address; the result is the thread's return value there; the next spare record is never the committed one |
| Combining.DoNonCombine | src/ds/comb.rs:292-324 | waits exactly while the lock is held, reporting the holder; once it is free the request is performed exactly when its activate number is at most the one the committed state served, and the answer is that state's return value |
| Combining.NonCombinerSeesItsRequest | src/ds/comb.rs:245-257 | after the combiner's pass, a waiting thread finds its request served |
| Combining.RecoverDecisions | src/ds/comb.rs:170-188 | a recovering thread resubmits exactly when its request is unserved and not superseded, reads the committed value exactly when that state served this request and it holds no lock, and otherwise returns its backup; so a request already served is never run twice and one posted but unserved is never lost |
| Combining.RecoveryCheck | src/ds/comb.rs:170-188 | returns nothing exactly when the decision is to resubmit, the backup when it is to peek, and the committed return value when it is to read it |
| Combining.Submit | src/ds/comb.rs:190-204 | posts the request; blocks exactly when another thread holds the lock, and then nothing else changes; otherwise combines: the new committed state is one combining pass over the old one and all posted requests, the thread's spare record index flips, the lock is released carrying the new state's address, and the request is served |
| Combining.ApplyOp | src/ds/comb.rs:153-205 | a recovering thread whose request needs no new submission returns the recovered value without posting, with the lock and state unchanged; otherwise the request is posted with its activate number, the call blocks exactly when another thread holds the lock, and when it combines the committed state is one pass over the old state and all posted requests, the spare index flips, the lock is released with the new state's address, and the request is served |
| Combining.ChkActivate | src/ds/comb.rs:166-167 | without a checkpoint the activate number is above the thread's last posted one |
| RecoverableTicketLock.Membership.constructor | src/old/ticket_lock.rs:43-50 | a new membership has no ticket and is Ready |
| RecoverableTicketLock.Lock.constructor | src/old/ticket_lock.rs:67-72 | a new client has no membership and is not registered |
| RecoverableTicketLock.Lock.Reset | src/old/ticket_lock.rs:108-117 | puts an existing membership back in Ready and leaves its ticket |
| RecoverableTicketLock.InsertSorted | src/old/ticket_lock.rs:286 | inserting into an ascending sequence keeps it ascending and adds exactly the one element |
| RecoverableTicketLock.SortedVec | src/old/ticket_lock.rs:258-286 | the drained heap is ascending and a permutation of the snapshot |
| RecoverableTicketLock.InRange | src/old/ticket_lock.rs:272-274 | a ticket is kept exactly when it lies in `[start, end)` |
| RecoverableTicketLock.LostAsWritten | src/old/ticket_lock.rs:287-291 | as written: the sorted snapshot after its prefix `start, start + 1, ...`; its first element, if any, breaks that run |
| RecoverableTicketLock.LostCandidatesAsWritten | src/old/ticket_lock.rs:286-291 | as written: every candidate is a ticket some member holds |
| RecoverableTicketLock.MissingTickets | src/old/ticket_lock.rs:253-326 | corrected: a ticket is a candidate exactly when it lies in the range and no member holds it, and the candidates ascend strictly |
| RecoverableTicketLock.AsWrittenNeverSkipsLostTicket | src/old/ticket_lock.rs:286-291 | no ticket the as-written recovery would let `curr` skip is a lost one |
| RecoverableTicketLock.RecoverAsWrittenSkipsHeldTicket | src/old/ticket_lock.rs:286-305 | members hold 5, 6 and 8 with `next` at 9: as written the candidate is the held 8, while the lost ticket is 7 |
| RecoverableTicketLock.RecoverAsWrittenMissesTrailingTicket | src/old/ticket_lock.rs:286-295 | members hold 5 and 6 with `next` at 8: as written there is no candidate, while ticket 7 is lost |
| RecoverableTicketLock.SkipOutcomeMovesPastLost | src/old/ticket_lock.rs:293-325 | `curr` moves by at most one, and exactly when it is a candidate; when it stays, either a larger candidate is waited for or every candidate is below it |
| RecoverableTicketLock.TicketLock.constructor | src/old/ticket_lock.rs:171-178 | both counters start at 1 and there are no members |
| RecoverableTicketLock.TicketLock.TakeSnapshot | src/old/ticket_lock.rs:258-284 | waits exactly when some member is drawing a ticket; otherwise collects the members' tickets in `[start, end)` |
| RecoverableTicketLock.TicketLock.SkipLost | src/old/ticket_lock.rs:293-325 | walks the candidates as the skip specification says |
| RecoverableTicketLock.TicketLock.Recover | src/old/ticket_lock.rs:253-326 | corrected: unless blocked, `curr` moves past itself exactly when it is below `next` and no member holds it; blocking leaves `curr` unchanged, and recovery blocks exactly when a member is drawing a ticket, or `curr` is held and some ticket between it and `next` is held by no member |
| RecoverableTicketLock.TicketLock.LockOp | src/old/ticket_lock.rs:188-251 | corrected: registers the client once; a new client, or one in Ready, draws `next` and bumps it; a drawn ticket is resumed unchanged; a client in Recovering, or in Trying without a ticket, recovers the lock and then draws `next`, `curr` moving by at most one, or is blocked in Recovering with `curr` and `next` unchanged; the lock is held exactly when `curr` has reached the ticket |
| RecoverableTicketLock.TicketLock.Unlock | src/old/ticket_lock.rs:328-335 | `curr` moves past the ticket only while it equals the ticket |
| RecoverableTicketLock.UnlockIdempotent | src/old/ticket_lock.rs:328-335 | unlock moves `curr` by at most one, exactly on the holder's turn, never below the ticket, and a repeated unlock is a no-op |
| PCas.FlagsAndStatuses | evaluation/cas/src/pcas.rs:64-66 | the three flags are distinct bits, no status has the dirty bit, and a status with the dirty bit added cleans back to itself |
| PCas.Persist | evaluation/cas/src/pcas.rs:93-102 | clears the low tag exactly when the word still equals the value given, and otherwise leaves it |
| PCas.PcasRead | evaluation/cas/src/pcas.rs:68-74 | returns the word with tag 0; a dirty word is stored clean |
| PCas.PersistentCas | evaluation/cas/src/pcas.rs:76-91 | succeeds exactly when the word, once cleaned, equals the expected one, and then stores the new value tagged dirty; otherwise leaves the cleaned word |
| PCas.ReadCleans | evaluation/cas/src/pcas.rs:68-74 | after a read the stored word is not dirty, a second read changes nothing, and both reads return the same value |
| PCas.PersistentCasThenRead | evaluation/cas/src/pcas.rs:76-91 | a successful CAS leaves a dirty word, and the next read stores and returns the clean new value |
| PCas.PcasAsWrittenOp | evaluation/cas/src/pcas.rs:56-62 | as written: `pcas` succeeds exactly when the loaded word, dirty tag included, equals the cleaned word |
| PCas.PcasAsWrittenFailsAfterSuccess | evaluation/cas/src/pcas.rs:56-62 | as written, a `pcas` right after a successful one fails |
| PCas.Pcas | evaluation/cas/src/pcas.rs:56-62 | corrected: expects the value `pcas_read` returns, and so succeeds exactly when the word read back equals the word with its low tag cleared, storing the thread id tagged dirty; on failure the word is left as `pcas_read` leaves it |
| PCas.PcasFailsOnForeignTag | evaluation/cas/src/pcas.rs:68-91 | a low tag other than the dirty flag survives `pcas_read`: 0x102 on a node aligned to 8 is left as it is and differs from its cleared word, so `pcas` fails on it |
| PCas.PcasSucceedsOnDirtyOrClean | evaluation/cas/src/pcas.rs:68-91 | a word whose only tag is the dirty flag cleans to the value `pcas_read` returns |
| PCas.FlaggedReadsBack | evaluation/cas/src/pcas.rs:230 | a pointer flagged in the high tag keeps its offset and reads back its flags |
| PCas.FlaggedInjective | evaluation/cas/src/pcas.rs:261 | two flagged pointers are equal exactly when offsets and flags are |
| PCas.FlaggedNotPlain | evaluation/cas/src/pcas.rs:207 | a pointer with a flag is never a plain value |
| PCas.ClearHighDirtyFlagged | evaluation/cas/src/pcas.rs:211-212 | clearing the high-tag dirty flag of a flagged pointer keeps its other flags |
| PCas.PersistHigh | evaluation/cas/src/pcas.rs:93-102 | corrected persist for high-tag words: clears the high-tag dirty flag exactly when the word still equals the value given |
| PCas.PersistHighCleans | evaluation/cas/src/pcas.rs:93-102 | the corrected persist leaves a flagged word without the dirty flag |
| PCas.PersistAsWrittenKeepsHighDirty | evaluation/cas/src/pcas.rs:93-102 | as written, persisting a descriptor flagged PMWCAS and dirty in the high tag leaves it dirty |
| PCas.AtomicUsize.constructor | evaluation/cas/src/pcas.rs:125 | the status starts at the value given |
| PCas.AtomicUsize.Load | evaluation/cas/src/pcas.rs:325 | returns the status |
| PCas.AtomicUsize.Store | evaluation/cas/src/pcas.rs:250 | the status then holds the value given |
| PCas.AtomicUsize.CompareExchange | evaluation/cas/src/pcas.rs:238-243 | std semantics: on success stores the new value and returns `Ok` of the previous one; otherwise `Err` of the value found, unchanged |
| PCas.PMwCasDescriptor.constructor | evaluation/cas/src/pcas.rs:122-135 | a new descriptor is UNDECIDED with the words given |
| PCas.CompleteInstallAsWrittenLeavesRdcss | evaluation/cas/src/pcas.rs:288-289 | as written, with the pool mapped at 0x1000_0000, the RDCSS pointer to an entry at offset 0x40 stays in the target, where the corrected step installs the descriptor |
| PCas.CompleteInstall | evaluation/cas/src/pcas.rs:322-335 | corrected: the RDCSS pointer to this entry becomes the dirty descriptor while undecided, and the expected value once decided; any other word is unchanged |
| PCas.InstallMwcasDescriptor | evaluation/cas/src/pcas.rs:283-320 | corrected: returns the word found; a target holding the expected value gets the descriptor, or the expected value back once decided; any other word is unchanged; RDCSS in the word found is reported |
| PCas.InstallPhase | evaluation/cas/src/pcas.rs:198-223 | corrected: visits targets in order while each holds its expected value; it succeeds exactly when all do; it stops at the first that does not, and helps exactly when that one holds another descriptor; targets after it are unchanged |
| PCas.PersistTargets | evaluation/cas/src/pcas.rs:225-234 | corrected: every target holding the dirty descriptor holds it persisted afterwards; the others are unchanged |
| PCas.FinalizedStatusAsWrittenNeverSucceeds | evaluation/cas/src/pcas.rs:236-251 | as written, finalising an undecided status with SUCCEEDED stores `SUCCEEDED | DIRTY` and takes UNDECIDED as the outcome; corrected, it stores and takes SUCCEEDED |
| PCas.FinalizeStatusAsWritten | evaluation/cas/src/pcas.rs:236-251 | as written: after a successful exchange the decision taken is the status replaced, UNDECIDED, and the status stored keeps its dirty bit |
| PCas.FinalizedStatusSettles | evaluation/cas/src/pcas.rs:236-251 | corrected: the status stored and the decision agree and are clean; an undecided descriptor takes this phase's outcome, a decided one keeps its own; finalising again changes nothing |
| PCas.FinalizeStatus | evaluation/cas/src/pcas.rs:236-251 | corrected: an undecided status becomes the decision, clean; a decided status stays and is returned |
| PCas.FinalWordCases | evaluation/cas/src/pcas.rs:253-278 | corrected: a target holding the descriptor, dirty or persisted, ends with the final value; a plain target is unchanged |
| PCas.FinalWordAsWrittenLeavesDirty | evaluation/cas/src/pcas.rs:263-277 | as written, the final value is left with the dirty flag in its high tag |
| PCas.LeftoverDirtyFailsNextInstall | evaluation/cas/src/pcas.rs:207 | a final value left dirty never equals an expected plain value, so the next multi-word CAS on it fails |
| PCas.InstallFinalWord | evaluation/cas/src/pcas.rs:260-277 | corrected: a target holding the descriptor, dirty or persisted, ends with the final value; a plain target is unchanged |
| PCas.InstallFinalValues | evaluation/cas/src/pcas.rs:253-278 | corrected: every target holding the descriptor gets its new value if the status is SUCCEEDED and its old value otherwise; plain targets keep theirs |
| PCas.PmwcasInner | evaluation/cas/src/pcas.rs:196-281 | corrected: an undecided descriptor over plain targets completes atomically: it succeeds exactly when every target holds its expected value, then every target holds its new value, otherwise none changes; the status ends SUCCEEDED or FAILED, clean |

## Left out

- Concurrency and memory orderings. Every operation runs alone, so a compare-exchange finds the
  value just read. Waits that another thread would end are reported as outcomes: the combining
  lock (`Blocked`, `Waiting`), a recovering ticket thread (`RecoveryBlocked`, blocked recovery),
  and PMwCAS helping (`Helping`).
- Flushes and fences (`persist_obj`, `persist` of a range, `sfence`, `pmemobj_drain`,
  `pmemobj_memcpy_persist`) are no-ops or plain copies. The transaction calls of libpmemobj are
  left out.
- TaggedPtr: `impl_left_bits!` is not part of this model. Its masks are built from the
  `POS_*`/`NR_*` constants at lines 123-139 of `src/pepoch/atomic.rs` (an 11-bit high tag). The
  layouts the comments there draw disagree with those constants: the one at line 137 draws 14
  high-tag bits, and the aux-bit one at line 119 has 66 binary digits. `PPtr::null()` is a parameter. The pointee
  type enters only as its low-bit mask `low`. `compare_exchange_weak` behaves like
  `compare_exchange` when nothing runs beside it. `load_consume`, conversions between `POwned`,
  `PShared` and `PPtr`, `Pointable`, and `Debug`/`Pointer` formatting are left out.
- TaggedPtr.PAtomic.FetchUpdate: models the documented result, not the code (see Findings).
- EpochInternal: the `Epoch` type is not part of this model. Epochs are integers, and
  `is_expired` takes the plain difference rather than `wrapping_sub`. `Global` (`push_bag`,
  `collect`, `try_advance`), `Local::find`, `flush`, the participant list and running deferred
  functions in `Bag::drop` are left out. Bags handed to the global queue are returned to the
  caller instead, as the list `dedup_as_bags` builds: the source pushes them by `bags.pop()`
  (lines 555-557), so the global queue receives them from the back of that list.
- EpochInternal.Local.Pin: `guard_count.checked_add(1).unwrap()` panics on overflow, which is a
  precondition here. The global epoch is a parameter, and the collection it may trigger is
  returned as a flag.
- EpochInternal.Local.ReleaseHandle: `debug_assert!(handle_count >= 1)` at line 632 panics in a
  debug build, and `handle_count - 1` at line 633 wraps in a release build, when no handle is
  held; the model requires a held handle instead of modelling either.
- EpochInternal.Local.Unpin: the locations in `persists` are persisted by no-op flushes, so the
  set is unchanged.
- SizeClasses: `SizeClass.cpp` and `pm_config.hpp` are not part of this model. The class and
  lookup arrays, `MAX_SZ`, `MAX_SZ_IDX` and the page size are parameters. Only their invariant
  is assumed, plus, in `LeastFitLookup`, that the lookup picks the least fitting class. The
  `psz`, `bin`, `pgs` and `lg_delta_lookup` columns are recorded but not interpreted. The
  `uint32_t` widths of `SizeClassData` are not modelled.
- Clobber: `my_context()` is the one thread's `funcPtr` and `v_Buffer`. `to_absolute_ptr` is not
  part of this model, so pointers arrive absolute. Memory is little-endian. `on_nvmm_write`,
  `on_RAW_write`, `on_nvmm_read`, `finalize_runtime`, `pmem_tx_alloc`, `pmem_free`, `get_pop_addr`,
  `get_root_addr` and `PersistentSkiplistDestroy` do no modelled work and are left out. Pool
  creation and `pmemobj_root` are parameters (`poolAddr`, `existingRoot`, `rootAddr`, `txBlock`).
- Clobber.Runtime.InitRuntime: `assert(pop != NULL)` at line 98 aborts when neither opening nor
  creating the pool succeeds; the model requires a non-null pool address instead of modelling
  the abort, and takes the root `pmemobj_root` returns for an open pool to be a non-null object.
- Clobber.Runtime.NvmPtrRecord: `memcpy` at line 56 copies `size` bytes out of the 8-byte
  `offset`, and lines 53 and 56 write past the cursor without checking the log buffer's
  capacity. Both overruns are undefined behaviour, so the model requires `size` to be at most 8
  and the record to fit in the buffer.
- Clobber.Runtime.PmemAlloc: allocation failure is not modelled. `assert(OID_IS_NULL(oid) == 0)`
  at line 152 aborts when `pmemobj_tx_alloc` fails; the model takes the allocated block as the
  parameter `txBlock`.
- Clobber.Runtime.PersistentSkiplistCreate: `listCreate` is not part of this model; the list it
  builds is a parameter.
- Combining: `NR_THREADS` is a parameter. The state's data word is a natural number. The
  sequential function `sfunc` is a pure function of the data word and the argument. The
  optional `final_func` and `after_func` hooks are not called. The memento's
  `chk_activate`/`peek_retval` become the parameters `checkpoint` and `peeked`, and
  `backup_retval` is not modelled. The `Collectable` filters are left out.
- Combining.DoNonCombine: the record at the released lock's pointer is a parameter, `latest`,
  since addresses are not dereferenced.
- RecoverableTicketLock: tickets never overflow, as the source states at line 163, so
  `wrapping_add` is plain addition. The member list is a sequence. Registration is an insert at
  the front. The snapshot's restart on a concurrent list change cannot happen and is left out.
  The `Memento` wrappers (`run`, `set_recovery`, `Unlock::run`) and `id` are left out.
- RecoverableTicketLock.TicketLock.LockOp: the final spin until `curr` reaches the ticket is the
  `WaitsForTurn` outcome. Its Recovering branch calls the corrected `Recover` of Findings row 2,
  not `recover` as lines 286-305 write it. With `curr` at 7, ticket 7 lost, a member holding 8
  and `next` at 9, the source takes 8 as the lost ticket and spins for ever at line 302; the
  model skips 7, moves `curr` to 8 and lets the client draw `next`.
- RecoverableTicketLock.TicketLock.Unlock: `assert!(ticket <= curr)` at line 330 panics when a
  ticket above `curr` is unlocked; the model makes `ticket <= curr` a precondition instead of
  modelling the panic.
- PCas: the benchmark harness (`TestPMwCas`, `run`, `test_nops`) is left out. So is `pmwcas`
  (lines 176-193): it fills a descriptor it never uses and then does what `pcas` does. The
  descriptor's `count` field is left out, and its fixed array of four words is a sequence. The
  node alignment is the parameter `low`. `PoolHandle` dereferences become the target atomics
  and descriptor objects themselves. Offsets and values carry no high tag.
- PCas.PmwcasInner: states the result only for an undecided descriptor over targets holding
  plain values. When a target holds another operation's descriptor it returns `Helping`
  instead of helping and retrying, since helping is concurrent work. It is built on the
  corrected `FinalizeStatus`, `PersistHigh`, `InstallFinalWord` and `CompleteInstall` (Findings
  rows 4 to 6), so it states what the operation evidently intends, not what lines 196-281 do.
  The `ok_or!` macro (from the `etrace` crate, not part of this model) is read as "the `Ok`
  value, or the error" only in the as-written `PCas.FinalizeStatusAsWritten`.
- PCas.PmwcasInner: the source shown never calls `pmwcas_inner` except from itself (line 216):
  `TestPMwCas::run` calls `pcas` (line 170), `pmwcas` (lines 176-193) does not call it, and line
  195 is a TODO for doing so. The defects of Findings rows 4 to 6 are therefore latent.

## Findings

| source | as written | input that shows it | evidently intended | confidence | as-written member | corrected member |
|---|---|---|---|---|---|---|
| src/pepoch/atomic.rs:741-759 | `fetch_update` returns the `Ok` of its compare-exchange, which carries the new word | `func` increments a null word: the code returns `Ok(1)` | `Ok(previous_value)`, as the doc comment at line 698 says: `Ok(0)` | not executed | TaggedPtr.FetchUpdateAsWritten, TaggedPtr.FetchUpdateReturnsNewNotPrevious | TaggedPtr.FetchUpdateDocumented, TaggedPtr.PAtomic.FetchUpdate |
| src/old/ticket_lock.rs:286-291 | `recover` takes the first snapshot ticket after the run `start, start + 1, ...` as the lost one, which is a held ticket; a gap after the last held ticket is never found | members hold 5, 6, 8 and `next` is 9: the candidate is 8 while 7 is lost, so `curr` never reaches 8; members hold 5, 6 and `next` is 8: no candidate, 7 is never skipped | skip the numbers in `[curr, next)` that no member holds | not executed | RecoverableTicketLock.LostCandidatesAsWritten, RecoverableTicketLock.RecoverAsWrittenSkipsHeldTicket | RecoverableTicketLock.MissingTickets, RecoverableTicketLock.TicketLock.Recover |
| evaluation/cas/src/pcas.rs:56-62 | `pcas` hands `persistent_cas` the loaded word, dirty tag included, while `persistent_cas` first cleans the word | two `pcas` in a row on a node aligned to 2 or more: the first stores a dirty word, and the second expects it dirty but finds it cleaned, so it fails | expect the value `pcas_read` returns | not executed | PCas.PcasAsWrittenOp, PCas.PcasAsWrittenFailsAfterSuccess | PCas.Pcas, PCas.PcasSucceedsOnDirtyOrClean |
| evaluation/cas/src/pcas.rs:237-246 | the status finalisation takes the `Ok` value of std's `compare_exchange`, which is the previous status, UNDECIDED | phase 1 succeeds: the outcome is UNDECIDED, the status stays `SUCCEEDED | DIRTY`, the old values are installed, and `false` is returned | take the status just stored, `st | DIRTY`, and clean it | not executed | PCas.FinalizeStatusAsWritten, PCas.FinalizedStatusAsWrittenNeverSucceeds | PCas.FinalizeStatus, PCas.FinalizedStatusSettles |
| evaluation/cas/src/pcas.rs:93-102, 263-277 | `persist` clears only the low tag, so the final value written with DIRTY in its high tag keeps it; the comparison at line 274 never matches after a successful swap | any completed multi-word CAS: each target holds its final value with the high-tag dirty flag, and the next multi-word CAS on it fails | clear the high-tag dirty flag, leaving the plain final value | not executed | PCas.FinalWordAsWrittenLeavesDirty, PCas.PersistAsWrittenKeepsHighDirty, PCas.LeftoverDirtyFailsNextInstall | PCas.PersistHigh, PCas.InstallFinalWord, PCas.FinalWordCases |
| evaluation/cas/src/pcas.rs:328 | `complete_install` expects an RDCSS pointer to the entry's virtual address, while `install_mwcas_descriptor` (line 288-289) stored its pool offset | an entry at offset 0x40 in a pool mapped at 0x1000_0000: the RDCSS pointer stays in the target | expect the entry's pool offset | not executed | PCas.CompleteInstallAsWrittenLeavesRdcss | PCas.CompleteInstall |

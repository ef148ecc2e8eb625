# The compat QXL protocol engine, modelled in Dafny

This project models the protocol engine of the legacy ("compat") QXL paravirtual display driver
(`src/compat/`). The driver turns the X server's 2D drawing into commands for a virtual graphics
device. The device and the driver share memory:

- **Commands.** The driver allocates records (drawables, cursor commands, cursor shapes, images
  and their data chunks) in a shared pool. It pushes the physical addresses of the commands onto
  a command ring or a cursor ring.
- **Releases.** When the device is done with a batch of commands, it hands 64-bit release ids back
  on a release ring. The driver's collector decodes each id and frees the records.
- **Image cache.** Images uploaded from the framebuffer are de-duplicated through a 4096-bucket
  hash table with reference counts.

The model has one Dafny module per part of the engine:

- `Protocol` (`protocol.dfy`): the packed records and release ids of `compat-qxl.h`, and the
  physical/virtual address translation.
- `Rings` (`ring.dfy`): the rings, as bounded FIFOs. `Memory` (`pool.dfy`): the allocator, as a
  pool of disjoint live blocks.
- `ImageTable` (`image_table.dfy`): the hash chains as value functions, and `hash_and_copy`.
- `QxlScreen` (`screen.dfy`): the class `Screen`, which stands for `compat_qxl_screen_t`. It also
  holds the heap invariant that ties the pool, the image table and the records the device still
  holds.
- `ImageCache` (`image_cache.dfy`): lookup, removal, `compat_qxl_image_destroy` and
  `compat_qxl_drop_image_cache`.
- `Collector` (`collector.dfy`): `garbage_collect`, the `timespec` split of
  `compat_qxl_usleep`, and the retry loop of `compat_qxl_allocnf`.
- `ImageUpload` (`image_upload.dfy`): `insert_image_info` and `compat_qxl_image_create`.
- `Commands` (`commands.dfy`): the drawable builders and `compat_qxl_switch_mode`.
- `CursorCommands` (`cursor.dfy`): the cursor state machine.
- `Modes` (`modes.dfy`): the mode search and check, the mode timings, the virtual-size choice
  and the ROM/RAM signature check.

Shared memory is a typed heap: `Pool.blocks` maps each live block's virtual address to its size
and the record it holds. The allocator is an oracle `answer(calls)`. Its offer is taken only when
it is aligned, inside the pool and disjoint from the live blocks.

`Screen.inFlight` is the set of records pushed to the device and not yet released. The device
peer is the release ring's contents, which can be anything. Every method that may allocate
promises `Collected`: it never frees a cached image, a record the device still holds, or a record
the caller keeps. The invariant `HeapOk` survives every operation:

- every cached image is live and sits in the bucket of its id;
- every image owns its own data chunk;
- every in-flight record is a live drawable or cursor command.

Beside `HeapOk` the model keeps the reference counts of the image cache exact. `RefsOk` says:

- every COPY drawable in the pool names a live image as its source;
- the `ref_count` of every cached node is the number of live COPY drawables that name its image,
  plus the references `compat_qxl_image_create` has handed out and no drawable holds yet (the
  multiset `held`);
- an image that no node holds has at most one such reference, so one destroy frees it;
- every in-flight drawable of type COPY carries the copy arm of its union.

`Counted` is `RefsOk` with nothing held. A new screen and a mode switch establish it. Every
method that allocates or collects keeps it (it is part of `Collected`). `compat_qxl_image_create`
ends with its result held once, and the COPY drawable of `submit_copy` takes that reference
over. On the release side, the collector keeps `Counted`, and it frees a COPY drawable's image
exactly when that drawable was the image's last referrer.

Each drawable and cursor command starts with a release cell whose `next` field the device
rewrites to chain released records. The driver never writes `next`. The model therefore takes
`next` as part of the record's state before the release, with any value (see
`Commands.FillReleased` and `CursorCommands.CursorSetReleased`). The collector follows it as
written. A record whose `next` is its own id makes the walk read freed memory; the model raises
`fault` there (`Collector.SelfReferenceFaults`).

Side effects on the outside world are a log `Screen.events`. It records `outb` port writes,
the out-of-memory message, `nanosleep` and `exit`.

## Model

| member | source | states |
|---|---|---|
| Protocol.RamMapping.Phys | src/compat/compat-qxl.h:532-536 | the physical address is the virtual address plus `ram_physical - ram`, modulo 2^64 |
| Protocol.RamMapping.Virt | src/compat/compat-qxl.h:538-542 | the virtual address is the physical address plus `ram - ram_physical`, modulo 2^64 |
| Protocol.VirtOfPhys | src/compat/compat-qxl.h:532-542 | `virtual_address` undoes `physical_address` for every address |
| Protocol.PhysOfVirt | src/compat/compat-qxl.h:532-542 | `physical_address` undoes `virtual_address` for every address |
| Protocol.PhysInjective | src/compat/compat-qxl.h:532-536 | two records never share a physical address |
| Protocol.PointerRoundTrip | src/compat/compat-qxl.h:544-554 | on a 64-bit machine `u64_to_pointer` and `pointer_to_u64` undo each other in both directions |
| Protocol.CDiv | src/compat/compat-qxl_driver.c:94-95 | C division truncates toward zero: the remainder is smaller than the divisor in magnitude, and it is zero or has the dividend's sign, for either sign of the divisor |
| Protocol.ReleaseTag | src/compat/compat-qxl_driver.c:55-63 | the tag is the id's two low bits, at most 3 |
| Protocol.ReleaseRecord | src/compat/compat-qxl_driver.c:57 | the id with its tag cleared is 4-aligned and at most 3 below the id |
| Protocol.CursorReleaseId | src/compat/compat-qxl_cursor.c:48 | a cursor command's id is odd: its address, or its address plus one |
| Protocol.CursorIdDecodes | src/compat/compat-qxl_cursor.c:48 | for an aligned cursor command, the collector reads tag 1 and recovers the command's address |
| Protocol.DrawableIdDecodes | src/compat/compat-qxl_driver.c:370 | for an aligned drawable, the collector reads tag 0 and recovers the drawable's address |
| Protocol.ToInt16 | src/compat/compat-qxl_cursor.c:59-64 | a store into an `int16_t` field keeps the value modulo 2^16, and keeps it exactly when it is in range |
| Protocol.ToInt32 | src/compat/compat-qxl_driver.c:1173-1174 | a store into an `int` field keeps the value modulo 2^32, and keeps it exactly when it is in range |
| Protocol.ToU32 | src/compat/compat-qxl_driver.c:458-459 | `uint32_t` arithmetic keeps the value modulo 2^32, and keeps it exactly when it is in range |
| Rings.Ring.constructor | src/compat/compat-qxl.h:568-571 | a new ring is empty, with the capacity and notify port it was created with |
| Rings.Ring.Push | src/compat/compat-qxl.h:572-573 | pushing onto a ring that is not full appends the element at the tail |
| Rings.Ring.Pop | src/compat/compat-qxl.h:574-575 | popping an empty ring yields nothing; otherwise it yields the head and removes it |
| Memory.Pool.constructor | src/compat/compat-qxl.h:598-599 | a new pool has no live blocks |
| Memory.Pool.Alloc | src/compat/compat-qxl.h:602-603 | succeeds exactly when the allocator's answer is an aligned, in-range block disjoint from the live ones; that block is new and becomes live, and nothing else changes |
| Memory.Pool.Free | src/compat/compat-qxl.h:604-605 | removes exactly the freed block |
| Memory.Pool.FreeAll | src/compat/compat-qxl.h:606 | leaves no live block |
| ImageTable.Bucket | src/compat/compat-qxl_image.c:47 | the bucket is the hash modulo 4096 |
| ImageTable.LookupChain | src/compat/compat-qxl_image.c:51-65 | the index of the first node in the chain whose image has the id, width and height; none exactly when no node matches |
| ImageTable.FirstIndex | src/compat/compat-qxl_image.c:89-90 | the first node of the chain that holds the image; none exactly when no node holds it |
| ImageTable.UnlinkAt | src/compat/compat-qxl_image.c:84-96 | unlinking removes exactly the first node holding the image and keeps the rest of the chain in order; the chain is unchanged when no node holds it |
| ImageTable.UnlinkMissing | src/compat/compat-qxl_image.c:84-96 | unlinking an image no node holds leaves the chain unchanged |
| ImageTable.UnlinkFound | src/compat/compat-qxl_image.c:84-96 | unlinking an image first held at index `k` removes exactly index `k` |
| ImageTable.UnlinkUndoesInsert | src/compat/compat-qxl_image.c:70-96 | removing a node just linked at the head gives back the chain it was linked into |
| ImageTable.LookupFindsOwnNode | src/compat/compat-qxl_image.c:42-68 | in a well-formed chain, looking up a node's own key finds that very node |
| ImageTable.ChainOkRemove | src/compat/compat-qxl_image.c:84-96 | removing a node keeps the chain well formed |
| ImageTable.ChainOkRecount | src/compat/compat-qxl_image.c:119 | changing a node's count to a positive one keeps the chain well formed |
| ImageTable.ChainOkInsert | src/compat/compat-qxl_image.c:70-82 | linking a well-formed node whose key is missing at the head keeps the chain well formed |
| ImageTable.ChainOkFrame | src/compat/compat-qxl_image.c:42-68 | a chain stays well formed while the records of its images stay the same |
| ImageTable.TableOkFrame | src/compat/compat-qxl_image.c:16-17 | the table stays well formed while the records of its images stay the same |
| ImageTable.Rows | src/compat/compat-qxl_image.c:27-37 | there are `height` rows |
| ImageTable.RowAt | src/compat/compat-qxl_image.c:27-37 | row `i` is the `width*bytes_per_pixel` bytes at `offset + i*stride` |
| ImageTable.FlattenAt | src/compat/compat-qxl_image.c:33-34 | byte `j` of row `i` lands at `i*n + j` of the copy |
| ImageTable.FlattenLength | src/compat/compat-qxl_image.c:33-34 | the copy of `h` rows of `n` bytes has `h*n` bytes |
| ImageTable.CopiedByteAt | src/compat/compat-qxl_image.c:27-37 | byte `i*n + j` of the copy is source byte `offset + i*stride + j` |
| ImageTable.RowsStep | src/compat/compat-qxl_image.c:27-37 | one turn of the row loop extends the hash chain and the copy by the next row |
| ImageTable.HashRows | src/compat/compat-qxl_image.c:19-40 | the loop's hash is the row hash folded over the rows in order, each seeded with the previous result; the copy is the rows back to back when asked for and empty otherwise |
| ImageTable.HashAndCopy | src/compat/compat-qxl_image.c:19-40 | the same, for rows of `width*bytes_per_pixel` bytes |
| QxlScreen.SurvivesRefl | src/compat/compat-qxl_driver.c:41-87 | a step that changes nothing frees nothing it may not |
| QxlScreen.SurvivesTrans | src/compat/compat-qxl_driver.c:41-87 | two steps that each keep cached images and records in flight do so together |
| QxlScreen.KeptSurvives | src/compat/compat-qxl_driver.c:41-87 | a record that is neither cached, nor in flight, nor owned by an image outlives a collection unchanged |
| QxlScreen.MissPersists | src/compat/compat-qxl_image.c:42-68 | a key missing from a bucket stays missing while the bucket only loses nodes and its images keep their keys |
| QxlScreen.StorePlainKeepsHeapOk | src/compat/compat-qxl_driver.c:370-386 | writing a drawable or cursor record into a block keeps the heap invariant |
| QxlScreen.StorePlain | src/compat/compat-qxl_driver.c:370-386 | writing such a record changes that one block and keeps the screen valid |
| QxlScreen.RefsOkUpdate | src/compat/compat-qxl_driver.c:370-386 | overwriting a block with a record that is no image and names none keeps the counts exact, as does taking records out of flight |
| QxlScreen.RefsOkPush | src/compat/compat-qxl_driver.c:331-355 | pushing a ready record keeps the counts exact |
| QxlScreen.RefsOkEmpty | src/compat/compat-qxl_driver.c:321-325 | an empty pool with every bucket empty has exact counts |
| QxlScreen.Screen.constructor | src/compat/compat-qxl_driver.c:1008-1021 | a fresh screen has an empty pool, three empty rings of capacity 32, 32 and 8 that notify `io_base + NOTIFY_CMD`, `io_base + NOTIFY_CURSOR` and nothing, an empty image table, nothing in flight, and exact (empty) reference counts |
| ImageCache.LookupImageInfo | src/compat/compat-qxl_image.c:42-68 | the index of the first node in bucket `hash % 4096` whose image has id `hash` and the width and height; none exactly when no node there matches |
| ImageCache.LookupFindsCachedImage | src/compat/compat-qxl_image.c:42-68 | every cached image sits in the bucket of its id, and looking up its key finds its own node |
| ImageCache.CachedImageUnique | src/compat/compat-qxl_image.c:70-82 | no image is cached by two nodes |
| ImageCache.MissedImageNotCached | src/compat/compat-qxl_image.c:229-233 | when the lookup does not lead to the image itself, the image is not in the table |
| ImageCache.RemoveKeepsTableOk | src/compat/compat-qxl_image.c:244-248 | removing a node and then freeing its image and chunk keeps the table well formed |
| ImageCache.FreeImageKeepsChunks | src/compat/compat-qxl_image.c:227-248 | an image's chunk is a separate live chunk, and freeing both keeps every other image's chunk and every in-flight record |
| ImageCache.RemoveImageInfo | src/compat/compat-qxl_image.c:84-96 | the table changes only in bucket `id % 4096`, where the node holding the image is unlinked |
| ImageCache.DestroyKeepsHeapOk | src/compat/compat-qxl_image.c:220-249 | destroying an image keeps the heap invariant, frees nothing in flight or cached, and frees only images and chunks |
| ImageCache.DestroyMissed | src/compat/compat-qxl_image.c:246-248 | an image the lookup does not lead to is freed at once, together with its chunk |
| ImageCache.DestroyRecount | src/compat/compat-qxl_image.c:235-238 | while the decremented count is not zero, only the count changes |
| ImageCache.DestroyRemove | src/compat/compat-qxl_image.c:244-248 | at count zero the node is unlinked and the chunk and image are freed, and nothing else |
| ImageCache.FirstIndexIsNode | src/compat/compat-qxl_image.c:84-96 | in a well-formed table the first node holding a cached image is that image's node |
| ImageCache.FreeUncached | src/compat/compat-qxl_image.c:247-248 | frees exactly the image and its chunk, keeping the screen valid |
| ImageCache.FreeUncachedKeepsHeapOk | src/compat/compat-qxl_image.c:247-248 | freeing an uncached image and its chunk keeps the heap invariant |
| ImageCache.ReleaseReference | src/compat/compat-qxl_image.c:235-238 | decrements exactly the one count |
| ImageCache.RemoveNode | src/compat/compat-qxl_image.c:244 | unlinks exactly the node, and the image is no longer cached |
| ImageCache.RemoveKeepsHeapOk | src/compat/compat-qxl_image.c:244 | unlinking a node keeps the heap invariant and leaves the image uncached |
| ImageCache.RemovedNodeGone | src/compat/compat-qxl_image.c:84-96 | once its node is removed, an image is no longer in the table |
| ImageCache.Destroyed | src/compat/compat-qxl_image.c:220-249 | the state after `compat_qxl_image_destroy`, keeping the table at 4096 buckets; what each branch does is stated by `DestroyMissed`, `DestroyRecount` and `DestroyRemove`, and that it keeps the heap invariant by `DestroyKeepsHeapOk` |
| ImageCache.ImageDestroy | src/compat/compat-qxl_image.c:220-249 | the new pool and table are `Destroyed`: decrement a cached image's count, and at zero (or for an image the lookup does not lead to) unlink it and free chunk and image |
| ImageCache.NotCachedFrame | src/compat/compat-qxl_image.c:247-248 | freeing an uncached image and a non-image keeps the table well formed |
| ImageCache.DropImageCache | src/compat/compat-qxl_image.c:251-255 | every one of the 4096 buckets is empty |
| Collector.Release | src/compat/compat-qxl_driver.c:57-82 | releasing one id frees the record it names, which was in flight and is a drawable or cursor command, and reports the `next` id held in that record's release cell |
| Collector.Walk | src/compat/compat-qxl_driver.c:49-83 | the state after one batch of the release chain, keeping the table at 4096 buckets; `WalkKeepsMemOk` states that it is a collection keeping the heap invariant and the exact counts, and `SelfReferenceFaults` what a self-linked cell does |
| Collector.Collect | src/compat/compat-qxl_driver.c:47-84 | the state after every popped batch, keeping the table at 4096 buckets; `CollectKeepsMemOk` states that it is a collection keeping the heap invariant and the exact counts |
| Collector.ReleaseKeepsMemOk | src/compat/compat-qxl_driver.c:57-82 | releasing one record keeps the heap invariant and the exact counts, and frees nothing the collector may not |
| Collector.ReleaseSucceeds | src/compat/compat-qxl_driver.c:72-82 | with exact counts, releasing an in-flight drawable never faults: a COPY drawable's source is still a live image |
| Collector.ReleaseKeepsCounted | src/compat/compat-qxl_driver.c:57-82 | releasing one record keeps the reference counts exact |
| Collector.ReleaseFreesAtLastReference | src/compat/compat-qxl_image.c:235-248 | releasing a COPY drawable frees its image exactly when the drawable is the image's only referrer |
| Collector.ReleaseCopyKeepsCounted | src/compat/compat-qxl_driver.c:72-82 | destroying a COPY drawable's source and freeing the drawable keeps the counts exact; the image goes exactly when the drawable was its only referrer |
| Collector.RecountRelease | src/compat/compat-qxl_image.c:235-238 | decrementing a cached node whose image still has other referrers keeps the counts exact |
| Collector.RecountCounts | src/compat/compat-qxl_image.c:235-238 | after the decrement every node counts exactly the referrers left |
| Collector.RecountUncached | src/compat/compat-qxl_image.c:235-238 | after the decrement, uncached images still have at most one referrer |
| Collector.UnlinkLast | src/compat/compat-qxl_image.c:240-248 | removing the node of an image whose last referrer goes, and freeing image and chunk, keeps the counts exact |
| Collector.UnlinkedEntries | src/compat/compat-qxl_image.c:84-96 | after `remove_image_info` no node holds the image, the other nodes still count exactly, and every other cached image stays cached |
| Collector.UnlinkedCounts | src/compat/compat-qxl_image.c:84-96 | after removing one node, every other node names another image and still counts exactly |
| Collector.UnlinkedKeeps | src/compat/compat-qxl_image.c:84-96 | removing one node keeps every other cached image cached |
| Collector.FreeLastReference | src/compat/compat-qxl_image.c:247-248 | freeing an image, its chunk and its only referrer keeps the counts exact |
| Collector.ReferrersKept | src/compat/compat-qxl_driver.c:72-82 | freeing blocks that name no image other than `x` leaves every other image's referrers unchanged |
| Collector.AddedBlockCounted | src/compat/compat-qxl_driver.c:366 | a new block that is no image and names none keeps the counts exact |
| Collector.WrittenBlockCounted | src/compat/compat-qxl_driver.c:442-450 | writing such a block and pushing it keeps the counts exact |
| Collector.SelfReferenceFaults | src/compat/compat-qxl_driver.c:49-82 | a record whose release cell names its own id makes the walk fault after freeing it once |
| Collector.FreeOther | src/compat/compat-qxl_driver.c:70-82 | freeing a cursor shape or an in-flight record keeps the table and every image's chunk |
| Collector.InFlightShrinks | src/compat/compat-qxl_driver.c:80-82 | once the released record is freed, the heap invariant holds with the record out of flight |
| Collector.WalkKeepsMemOk | src/compat/compat-qxl_driver.c:49-83 | walking a batch keeps the heap invariant and frees nothing the collector may not |
| Collector.CollectedTrans | src/compat/compat-qxl_driver.c:47-84 | two collections in a row are a collection |
| Collector.CollectKeepsMemOk | src/compat/compat-qxl_driver.c:47-84 | collecting any sequence of ids keeps the heap invariant and frees nothing the collector may not |
| Collector.ReleaseNode | src/compat/compat-qxl_driver.c:57-82 | succeeds exactly when `Release` does, with its result; otherwise nothing changes |
| Collector.ReleaseCursorCmd | src/compat/compat-qxl_driver.c:65-71 | a cursor command is released as `Release` says: a SET frees its shape, then the command is freed |
| Collector.ReleaseDrawable | src/compat/compat-qxl_driver.c:72-82 | a drawable is released as `Release` says: a COPY destroys its source image, then the drawable is freed |
| Collector.DestroySource | src/compat/compat-qxl_driver.c:72-78 | a COPY whose source is a live image destroys it as `Destroyed` says; anything else changes nothing |
| Collector.FreeUnowned | src/compat/compat-qxl_driver.c:67-70 | removes exactly the cursor shape |
| Collector.FreeReleased | src/compat/compat-qxl_driver.c:82 | removes exactly the released record, from the pool and from flight |
| Collector.WalkBatch | src/compat/compat-qxl_driver.c:49-83 | the loop over a batch ends in the state `Walk` gives |
| Collector.GarbageCollect | src/compat/compat-qxl_driver.c:41-87 | the new state is `Collect` over the release ring's contents, the ring is empty, nothing the collector may not free is freed, and the result is always false |
| Collector.UsleepSplit | src/compat/compat-qxl_driver.c:94-95 | seconds and nanoseconds add up to the microseconds asked for, and the nanoseconds are below one second, both with the argument's sign |
| Collector.OomRound | src/compat/compat-qxl_driver.c:138-149 | one failed allocation logs five events in order: the update area, the UPDATE_AREA port write, the numbered message, the NOTIFY_OOM port write, and a sleep of 0 s and 10^7 ns (10 ms) |
| Collector.OomRounds | src/compat/compat-qxl_driver.c:130-150 | `n` failures log five events each |
| Collector.OomRoundAt | src/compat/compat-qxl_driver.c:138-149 | failure `i` sets the update area to top 0, left 0, bottom 1280, right 800, writes UPDATE_AREA, logs message number `nth + i`, writes NOTIFY_OOM and sleeps 10 ms, in that order |
| Collector.AllocNf | src/compat/compat-qxl_driver.c:121-165 | collects once, then either returns a new raw block of the size asked for that is not in flight, after `k < 1000` failures, or exits after exactly 1000 failures; each failure costs one allocator call and one logged round |
| Collector.AllocBlock | src/compat/compat-qxl_driver.c:121-165 | a raw block of the size asked for, with memory otherwise as a collection left it, or the driver has exited |
| Collector.AllocAttempt | src/compat/compat-qxl_driver.c:130-161 | one turn of the retry loop either ends `allocnf` as it promises or counts one more failure below 1000 |
| Collector.RetryStart | src/compat/compat-qxl_driver.c:128 | after the first collection, no attempt has failed yet |
| Collector.RetryStep | src/compat/compat-qxl_driver.c:138-161 | one more failure extends the log by one round, and the 1000th leaves the whole promised log |
| Collector.RetrySucceeds | src/compat/compat-qxl_driver.c:130 | an allocation that succeeds during the retries meets the promise of `allocnf` |
| Collector.ReportExit | src/compat/compat-qxl_driver.c:157-160 | the error message, then `exit (1)`, are the last events, and nothing else changes |
| Collector.RetryGivesUp | src/compat/compat-qxl_driver.c:151-161 | 1000 failures, then the out-of-memory message and `exit (1)`, meet the promise of `allocnf` |
| Collector.TryAlloc | src/compat/compat-qxl_driver.c:130-149 | either a new raw block with nothing else changed, or a reported failure after a collection |
| Collector.Recover | src/compat/compat-qxl_driver.c:138-151 | reports the failure, then collects, and never reports progress |
| Collector.ReportOom | src/compat/compat-qxl_driver.c:138-149 | sets the update area, numbers the message, and logs one round |
| Collector.AllocRaw | src/compat/compat-qxl_driver.c:130 | one allocator call: a new raw block or no change |
| Collector.AddRawKeepsHeapOk | src/compat/compat-qxl_driver.c:130 | a new raw block keeps the heap invariant |
| ImageUpload.ChunkSize | src/compat/compat-qxl_image.c:161-162 | the chunk allocation is the header plus exactly `height` whole rows of `dest_stride` bytes |
| ImageUpload.NewChunk | src/compat/compat-qxl_image.c:164-170 | the chunk holds the copied bytes, links to no other chunk, and its `data_size` is the byte count whenever that fits in 32 bits |
| ImageUpload.NewImage | src/compat/compat-qxl_image.c:175-196 | the new descriptor has id 0 and no flags, so its key is (0, width, height); the bitmap is width by height without palette, its data is the chunk's physical address, and its stride is the row length when that fits in 32 bits |
| ImageUpload.PixelOffset | src/compat/compat-qxl_image.c:106 | the offset `y*stride + x*bpp` lies on row `y` at byte column `x*bpp` whenever that column is inside the row |
| ImageUpload.RowOfOffset | src/compat/compat-qxl_image.c:106 | an offset `row*stride + col` with `col < stride` divides back into that row and column |
| ImageUpload.NewImageNamesChunk | src/compat/compat-qxl_image.c:173-196 | the new image's data is its chunk's physical address; width and height are as given; the format is 16-bit exactly when `bytes_per_pixel` is 2, and 32-bit otherwise |
| ImageUpload.Linked | src/compat/compat-qxl_image.c:70-82 | the table with a new node at the head of the hash's bucket, still 4096 buckets; `InsertKeepsHeapOk` states that the lookup then finds it and the invariant holds, and `RefsOkLinked` that its count of 1 is exact |
| ImageUpload.MissSurvives | src/compat/compat-qxl_image.c:148-203 | a key missed before allocating stays missed after the collections the allocations run |
| ImageUpload.StoreChunkKeepsHeapOk | src/compat/compat-qxl_image.c:164-170 | writing the chunk keeps the heap invariant, and no image owns it yet |
| ImageUpload.StoreImageKeepsHeapOk | src/compat/compat-qxl_image.c:173-196 | writing an image over an unowned chunk keeps the heap invariant, and the image is not cached |
| ImageUpload.InsertKeepsHeapOk | src/compat/compat-qxl_image.c:202-214 | caching the image keeps the heap invariant, and looking up its key then finds it first |
| ImageUpload.ReuseThenDestroy | src/compat/compat-qxl_image.c:119 | a reuse followed by a destroy gives back the pool and table before the reuse |
| ImageUpload.CreateThenDestroy | src/compat/compat-qxl_image.c:202-249 | destroying a just-cached image unlinks it and frees exactly the image and its chunk |
| ImageUpload.UncachedDestroy | src/compat/compat-qxl_image.c:247-248 | destroying an uncached image frees exactly it and its chunk |
| ImageUpload.CollectedWithout | src/compat/compat-qxl_image.c:162-173 | a collection, exact counts included, stays one when a block that is neither an image nor a COPY drawable is set aside |
| ImageUpload.StoreChunk | src/compat/compat-qxl_image.c:164-170 | writes the chunk into its block and changes nothing else |
| ImageUpload.StoreImage | src/compat/compat-qxl_image.c:173-196 | writes the image into its block and changes nothing else |
| ImageUpload.InsertImageInfo | src/compat/compat-qxl_image.c:202-214 | when the node is allocated, the image gets id `hash` and the cache flag, its node heads bucket `hash % 4096`, and lookup finds it first; otherwise nothing changes |
| ImageUpload.ReuseImage | src/compat/compat-qxl_image.c:111-147 | a hit increments that node's count by exactly one and returns its image, which has the width and height asked for |
| ImageUpload.BuildChunk | src/compat/compat-qxl_image.c:159-170 | a new chunk of `height*width*bpp` bytes holding the rows back to back, not owned by any image; or an exit |
| ImageUpload.BuildDescriptor | src/compat/compat-qxl_image.c:172-196 | a new uncached image describing the chunk, with the chunk untouched; or an exit |
| ImageUpload.StagedFrom | src/compat/compat-qxl_image.c:159-196 | a chunk built and then an image over it give the staged state |
| ImageUpload.BuiltFrom | src/compat/compat-qxl_image.c:202-216 | the staged state, then linking or not, gives the built state |
| ImageUpload.Stage | src/compat/compat-qxl_image.c:148-196 | on a miss, a new chunk and a new image over it, or an exit |
| ImageUpload.Publish | src/compat/compat-qxl_image.c:202-216 | the staged image is cached when the node is allocated, and is returned either way |
| ImageUpload.BuildImage | src/compat/compat-qxl_image.c:148-217 | on a miss, a new image over a new chunk holding the rows, cached exactly when the node is allocated; or an exit |
| ImageUpload.Recounted | src/compat/compat-qxl_image.c:119 | only the one node's count changes, by exactly one |
| ImageUpload.CreateForHash | src/compat/compat-qxl_image.c:110-217 | a hit reuses the cached image and allocates nothing; a miss builds and caches a new image, or exits; from exact counts, the result is held once more |
| ImageUpload.ImageCreate | src/compat/compat-qxl_image.c:98-218 | the hash is the row hash over the rectangle at `y*stride + x*bpp`; a hit bumps the count and returns the cached image with nothing allocated; a miss returns a new image of the rows, or exits; from exact counts, the result is held once more |
| ImageUpload.BuiltKeeps | src/compat/compat-qxl_image.c:148-217 | building an image keeps every record the caller holds |
| ImageUpload.BuiltShowsRows | src/compat/compat-qxl_image.c:148-216 | a newly built image shows its rows: its chunk holds them, and a cached one is also keyed by their hash |
| ImageUpload.ImageOfRowsFrame | src/compat/compat-qxl_driver.c:478-490 | writing a block that is neither an image nor a chunk keeps what an image shows |
| ImageUpload.RefsOkRecount | src/compat/compat-qxl_image.c:119 | bumping a cached node's count hands out one more held reference to its image, with the counts exact |
| ImageUpload.RecountHandsOut | src/compat/compat-qxl_image.c:119 | as above, under exact counts |
| ImageUpload.RecountedCounts | src/compat/compat-qxl_image.c:119 | one more count on a node, matched by one more held reference to its image, keeps every node's count equal to its referrers plus its held references |
| ImageUpload.RecountedKeeps | src/compat/compat-qxl_image.c:119 | bumping a count removes no image from the table |
| ImageUpload.AddedImageUnnamed | src/compat/compat-qxl_image.c:148-196 | a new image and its chunk change nobody's referrers, and the new image has none |
| ImageUpload.RefsOkLinked | src/compat/compat-qxl_image.c:202-209 | a new image linked at the head of its chain with count 1 is exactly the one held reference |
| ImageUpload.RefsOkUncached | src/compat/compat-qxl_image.c:202-216 | a new image left out of the cache is held once and has no referrer |
| ImageUpload.RefsOkBuilt | src/compat/compat-qxl_image.c:148-217 | building a new image from exact counts gives exact counts with the new image held once |
| Commands.NewDrawable | src/compat/compat-qxl_driver.c:370-386 | the header `make_drawable` writes: the type, the bounding box and the clock, opaque, unclipped, no body yet, and for an aligned drawable a release id that the collector decodes as tag 0 and the drawable's own address |
| Commands.FillBody | src/compat/compat-qxl_driver.c:442-448 | a solid brush of the colour, PUT, and no mask |
| Commands.CopyBody | src/compat/compat-qxl_driver.c:478-490 | the given source image and area, PUT, no scaling, and no mask |
| Commands.Translated | src/compat/compat-qxl_driver.c:455-461 | the rectangle moves to the origin and keeps its width and height |
| Commands.TranslateIdempotent | src/compat/compat-qxl_driver.c:455-461 | translating twice is translating once |
| Commands.TranslateRect | src/compat/compat-qxl_driver.c:455-461 | the in-place translation gives `Translated` |
| Commands.PushDrawable | src/compat/compat-qxl_driver.c:331-355 | outside VGA mode exactly one DRAW command with the drawable's physical address is appended; in VGA mode the ring is unchanged |
| Commands.MakeDrawable | src/compat/compat-qxl_driver.c:357-391 | a new drawable of the type, with the bounding box and the ROM's clock, whose release id is its own address, not in flight, with the counts kept exact; or an exit |
| Commands.SetBody | src/compat/compat-qxl_driver.c:442-448 | writes the drawable's body and changes nothing else |
| Commands.FinishDrawable | src/compat/compat-qxl_driver.c:442-450 | writes the body, then pushes as `push_drawable` does |
| Commands.PushedCollected | src/compat/compat-qxl_driver.c:366-450 | building and pushing a drawable is a collection apart from the drawable itself |
| Commands.SubmitFill | src/compat/compat-qxl_driver.c:431-453 | a FILL drawable of the colour is pushed outside VGA mode, and is in flight exactly then, with the counts kept exact; or an exit |
| Commands.CopySource | src/compat/compat-qxl_driver.c:478-482 | the image is `compat_qxl_image_create`'s for the framebuffer rows of `rect`: on a hit the cached node's image for the rows' hash, on a miss an image built from those rows (or an exit); it shows those rows, the drawable being built is kept, and the image is held once |
| Commands.CopyWritten | src/compat/compat-qxl_driver.c:478-490 | writing the copy body naming an image that shows the rows yields the drawable `submit_copy` promises |
| Commands.WriteCopy | src/compat/compat-qxl_driver.c:478-492 | the copy body names the image and the translated area, the drawable is pushed as `push_drawable` does, and the held reference passes to the drawable with the counts exact |
| Commands.CopyDrawable | src/compat/compat-qxl_driver.c:476-492 | the COPY drawable names, by physical address, an image that shows the framebuffer rows of `rect` (keyed by their hash, or holding them in its chunk), and the translated area; it takes over the held reference and is pushed as `push_drawable` does; or an exit |
| Commands.SubmitCopy | src/compat/compat-qxl_driver.c:463-493 | an empty rectangle changes nothing; otherwise the pushed COPY drawable's source shows the framebuffer rows of `rect`, with the counts kept exact, or the driver exits |
| Commands.NamedReferrers | src/compat/compat-qxl_driver.c:478-482 | writing a COPY of image `x` into a fresh drawable adds exactly that drawable to `x`'s referrers |
| Commands.RefsOkNameImage | src/compat/compat-qxl_driver.c:478-482 | the drawable turns one held reference to `x` into a referrer, with the counts exact |
| Commands.NamedDrawableCounted | src/compat/compat-qxl_driver.c:476-492 | writing and pushing the COPY drawable turns counts exact with `x` held into counts exact with nothing held |
| Commands.FillReleased | src/compat/compat-qxl_driver.c:57-82 | releasing a FILL drawable's own id frees exactly the drawable |
| Commands.BytesPerPixel | src/compat/compat-qxl_driver.c:301 | the fewest whole bytes that hold the bits per pixel |
| Commands.SwitchMode | src/compat/compat-qxl_driver.c:282-329 | RESET then SET_MODE with the mode's id; bytes per pixel recomputed; the pool emptied, nothing in flight, every bucket empty, and the counts exact |
| CursorCommands.NewCursorCmd | src/compat/compat-qxl_cursor.c:42-51 | a cursor command whose release id the collector decodes as tag 1 and the command's own address when it is aligned; the fields left unwritten are 0 |
| CursorCommands.Position | src/compat/compat-qxl_cursor.c:63-64 | the position plus the hotspot stored in 16 bits: equal to the sum modulo 2^16, and exactly the sum when it is in range |
| CursorCommands.CursorBytes | src/compat/compat-qxl_cursor.c:86 | a cursor of at most 64 by 64 pixels takes at most 16384 bytes |
| CursorCommands.NewCursor | src/compat/compat-qxl_cursor.c:92-109 | both data sizes are the pixel bytes' length, and the chunk is alone |
| CursorCommands.PushCursor | src/compat/compat-qxl_cursor.c:27-40 | outside VGA mode exactly one CURSOR command with the command's physical address is appended; in VGA mode the ring is unchanged |
| CursorCommands.AllocCursorCmd | src/compat/compat-qxl_cursor.c:42-51 | a new cursor command whose release id decodes as tag 1 and its own address; the counts stay exact; or an exit |
| CursorCommands.FinishCursorCmd | src/compat/compat-qxl_cursor.c:62-66 | writes the command, then pushes it as `push_cursor` does; the counts stay exact |
| CursorCommands.SetCursorPosition | src/compat/compat-qxl_cursor.c:53-67 | stores the position as 16-bit values and pushes a MOVE to position plus hotspot; the counts stay exact |
| CursorCommands.ShowCursor | src/compat/compat-qxl_cursor.c:162-172 | pushes a MOVE to the current position plus hotspot, and the position is unchanged; the counts stay exact |
| CursorCommands.HideCursor | src/compat/compat-qxl_cursor.c:151-160 | pushes exactly one HIDE command; the counts stay exact |
| CursorCommands.MakeCursorShape | src/compat/compat-qxl_cursor.c:89-109 | a new cursor shape holding the first `w*h*4` bytes of the image, with the command being built kept; the counts stay exact; or an exit |
| CursorCommands.LoadShape | src/compat/compat-qxl_cursor.c:89-133 | the hotspot is updated first; the SET command names the new shape's physical address at position plus the new hotspot, visible, and is pushed; the counts stay exact |
| CursorCommands.LoadCursorArgb | src/compat/compat-qxl_cursor.c:80-134 | allocates the command, then the shape, then loads and pushes the SET; the counts stay exact; or an exit |
| CursorCommands.UseHwCursor | src/compat/compat-qxl_cursor.c:136-143 | bitmap cursors are never drawn by the device |
| CursorCommands.UseHwCursorArgb | src/compat/compat-qxl_cursor.c:145-149 | ARGB cursors always are |
| CursorCommands.CursorSetReleased | src/compat/compat-qxl_driver.c:62-82 | releasing a SET command's id frees the shape and the command, and nothing else |
| CursorCommands.CursorMoveReleased | src/compat/compat-qxl_driver.c:62-82 | releasing a MOVE or HIDE command's id frees the command only |
| Modes.CheckDevice | src/compat/compat-qxl_driver.c:1131-1178 | accepts exactly when both signatures are right; then it records the ROM's draw-area offset and size as `int`, and video RAM as the size in whole KiB |
| Modes.FindNativeFrom | src/compat/compat-qxl_driver.c:1188-1211 | the first index from `i` whose resolution and bits match and whose depth fits; -1 exactly when none does |
| Modes.FindNativeMode | src/compat/compat-qxl_driver.c:1180-1212 | the first native index in the ROM's list; -1 exactly when there is none |
| Modes.ValidMode | src/compat/compat-qxl_driver.c:1214-1235 | MODE_MEM exactly when the screen's bytes exceed the draw area; MODE_NOMODE exactly when it fits and no mode is native; otherwise MODE_OK with the first native index |
| Modes.RoundUp8 | src/compat/compat-qxl_driver.c:1251-1253 | the smallest multiple of 8 not below the value |
| Modes.ModeTimings | src/compat/compat-qxl_driver.c:1250-1258 | the mode keeps the size asked for, its horizontal sync start, sync end and total are multiples of 8, and its vertical sync runs from 1 to 4 lines below the picture |
| Modes.TimingsOrdered | src/compat/compat-qxl_driver.c:1250-1258 | the mode keeps the size asked for; horizontal display, sync start, sync end and total are in order, and the last three are multiples of 8; vertical sync starts and ends after the display, and the total is not below it |
| Modes.RoundUp8Monotone | src/compat/compat-qxl_driver.c:1251-1253 | rounding up keeps order |
| Modes.VSyncFitsIff | src/compat/compat-qxl_driver.c:1255-1257 | vertical sync ends inside the total exactly when the height is at least 115 |
| Modes.AddMode | src/compat/compat-qxl_driver.c:1237-1263 | the size is present afterwards; the list only grows, and by one mode exactly when the size was missing |
| Modes.AddModeIdempotent | src/compat/compat-qxl_driver.c:1241-1244 | adding a size twice is adding it once |
| Modes.AddModeDistinct | src/compat/compat-qxl_driver.c:1241-1244 | adding keeps the monitor's sizes distinct |
| Modes.AddAll | src/compat/compat-qxl_driver.c:1330-1339 | the monitor's list is kept at the front and grows by at most one mode per ROM mode |
| Modes.AddAllAdds | src/compat/compat-qxl_driver.c:1330-1339 | the monitor's list only grows, every upright ROM mode's size is present, and distinct sizes stay distinct |
| Modes.MaxOf | src/compat/compat-qxl_driver.c:1335-1338 | no upright mode exceeds the maximum |
| Modes.MaxOfIsMax | src/compat/compat-qxl_driver.c:1335-1338 | the maximum bounds every upright mode and is one of them, or 0 when there is none |
| Modes.AddDriverModes | src/compat/compat-qxl_driver.c:1330-1339 | the loop adds the upright modes and ends with their widest width and tallest height |
| Modes.MulU32 | src/compat/compat-qxl_driver.c:1345 | an `unsigned int` product is exact when it fits in 32 bits |
| Modes.VirtualSize | src/compat/compat-qxl_driver.c:1341-1352 | a configured size is kept; otherwise the width is `max_x` and the height is `max_y` or a number of lines that fits in the draw area at the `unsigned int` row length |
| Modes.VirtualWidthWidest | src/compat/compat-qxl_driver.c:1341-1352 | with no configured size, the virtual width is the widest landscape mode's width: no such mode is wider, and it is one of theirs (or 0 when there is none) |
| Modes.VirtualHeightFits | src/compat/compat-qxl_driver.c:1341-1352 | with no configured size, the height is at most the tallest mode's, a screen of the widest width and that height fits in the draw area, and one more line would not fit unless the height is the tallest |
| Modes.VirtualHeightUnwrapped | src/compat/compat-qxl_driver.c:1345-1349 | without 32-bit wrap-around the height is `draw_area_size / (max_x*bytes)` when the largest screen does not fit, and `max_y` otherwise |

## Left out

- The bodies of `compat_qxl_ring_*`, `compat_qxl_mem_*`, `compat_qxl_alloc` and `compat_qxl_free` are not part of this model. Only their declarations in `compat-qxl.h` are used. A ring is a bounded FIFO. The pool is a set of disjoint live blocks, and whether an allocation succeeds is an oracle.
- `compat_hashlittle` is not part of this model. It is the parameter `RowHash`, which is folded over the rows.
- Pointers are 64 bits wide, and records are 4-aligned, as the release-id tag requires.
- The per-pixel comparison loop after a cache hit (`compat-qxl_image.c:121-144`) changes nothing: both of its exits return the cached image. The model omits it.
- The `image_info_t` node that `insert_image_info` mallocs is not modelled as memory. Whether the malloc succeeds is the `nodeAllocated` parameter. Nodes that `compat_qxl_drop_image_cache` forgets without freeing are not tracked.
- The destination stride is the row length (`width*bytes_per_pixel`), as in both calls. `hash_and_copy`'s general `dest_stride` is not modelled.
- `ImageUpload.InsertImageInfo` requires that the key was missed, as on its only call site.
- `ImageCache.ImageDestroy` looks up the image by its id truncated to 32 bits, as `lookup_image_info` takes an `unsigned int`.
- Reference counts are unbounded: `ref_count` overflow is not modelled.
- The integer-overflow FIXME on the chunk size (`compat-qxl_image.c:161`) is not modelled. The size is the exact product.
- Release ids that name no live record, or a record of the wrong kind, are undefined behaviour in the driver. The model stops the batch and sets `protocolError` instead.
- Memory ordering between the driver and the device is not modelled, and neither is any concurrency between them. The device peer is the release ring's contents.
- `compat_qxl_mem_dump_stats` on running out of memory is left out. The `fprintf` message and `exit (1)` are the events `OutOfMemory` and `Exit(1)`.
- Port writes (`outb`), `nanosleep` and the `ErrorF` message are events in `Screen.events`. The interruption retry of `nanosleep` (`compat-qxl_driver.c:97-99`) is not modelled.
- Code under `#if 0` is left out.
- X server glue is not part of this model: damage tracking, `undamage_box`, the GC and pixmap wrappers, `ModifyPixmapHeader`, PCI mapping, option parsing, `xf86ValidateModes` and the rest of `compat_qxl_pre_init` and `compat_qxl_screen_init`.
- The mode names, flags, type and clock ranges of monitor modes are not modelled. A monitor mode is its `Timings`.
- `Commands.MakeDrawable` always gets a bounding box. Every caller passes one, so the `rect == NULL` case is not modelled.
- Fields of a command that the source leaves unwritten are 0 in the model (for example a HIDE command's position).
- `CursorCommands.LoadCursorArgb` requires cursors of at most 64 by 64 pixels, the bound `compat_qxl_cursor_init` registers (`compat-qxl_cursor.c:183`).
- Pushes require a ring that is not full. Waiting on a full ring is part of the ring implementation, which is not part of this model.
- In VGA mode a drawable or cursor command is built but not pushed. The model keeps it in the pool, outside flight, as the source leaks it.
- `Commands.SwitchMode` covers only the branch with a pool. The `!m` check is dead: a pointer plus an index is never null. The log message is not modelled. As in the source, the rings are left as they are.
- `Modes.ValidMode` computes `HDisplay*VDisplay*(bpp/8)` exactly. `int` overflow of that product is not modelled.
- `Modes.CheckDevice` takes the RAM header as a value. The ROM-relative mapping of the header is not modelled, and neither are the informational log lines.
- `Modes.TimingsOrdered` assumes no 32-bit overflow of `width*130` and `height*1035`, which holds for every mode size the device reports.
- `Modes.VirtualHeightFits` assumes the products `max_x*max_y*bytes` and `max_x*bytes` do not wrap around 32 bits. `Modes.VirtualSize` itself models the wrap-around.

# SharedObject in Dafny

A model of `SharedObject`, a Python wrapper that shares a mutable container (list,
deque, set, dict, defaultdict, OrderedDict) between processes through named
shared-memory segments. Every process holds a handle. A handle keeps:

- the container's **control block**, a fixed-layout segment holding:
  - the published log position;
  - the snapshot counter;
  - the nested flag;
  - the name of the current snapshot segment;
  - the kind descriptor;
- the container's **operation log**, a segment of `size` bytes holding
  length-prefixed records;
- its own cursor and snapshot counter;
- a local **mirror** of the container.

Handles work as follows:

- **Reading methods** first *pull*: load a newer snapshot if the counter moved, then
  replay the log from the handle's cursor to the published position.
- **Mutating methods** pull, apply the method to the mirror, then append the method
  record to the log.
- **Snapshot compaction**: when a record no longer fits, the handle dumps a snapshot
  of the whole mirror into a fresh segment, names it in the control block, bumps the
  counter, resets the position to 0 and unlinks the previous snapshot.
- **Nested containers**: a nested container turns a container argument into a new
  shared child container, records the child's name in a shared *register* (a set
  container) and logs a handle on it.
- **Unlinking** removes a container's segments, its snapshot and, for a nested
  container, every registered child and the register itself.

The model is organised by module:

| module | what it holds |
|---|---|
| `Basics` | `Option`, `Result`, `Outcome` and the error taxonomy |
| `Values` | values, container kinds and the mirror |
| `LittleEndian` | 4-byte little-endian fields and slice assignment (`Splice`) |
| `Codec` | a self-delimiting byte codec that stands in for pickle, with proved round trips |
| `Containers` | what each Python container method does to a mirror (`ApplyOp`) and what each reading method answers (`Eval`) |
| `ControlBlock` | the control-block layout: field readers and writers, the descriptor, the snapshot name |
| `OpLog` | log frames, records and the snapshot format |
| `Protocol` | the published state as a function of the shared bytes (`Published`); the handle's view; the pull (`Catch`); the two writer moves (`AppendChan`, `DumpChan`) |
| `Replication` | the protocol properties: records read back, pulls reach the published state, the writer keeps every reader consistent |
| `SharedMemory` | the OS namespace as a class `Memory` of named segments; control blocks and logs are arrays written in place |
| `Ownership` | which control block published which snapshot, and why a dump by one container leaves every other container's snapshot in place |
| `Nesting` | promotion of the `item` argument, and `copy` |
| `Bulk` | `extend`, `extendleft` and `update`, and the population `__init__` performs with them |
| `SharedObjects` | the handle class `SharedObject`, with `create`, `attach`, pull, write, dump, the bulk loops, the reading methods, `close` and `unlink` |

The handle is a class. Its cursor, counter, mirror and closed/unlinked flags are
fields the methods update. The control block and the log are `array<byte>` shared
with every other handle on the same container. Each method is proved against the
protocol functions:
- a successful pull leaves the handle at `Catch` of the channel it started from;
- an append moves the channel to `AppendChan`;
- a dump moves the channel to `DumpChan`.

The lemmas in `Replication` then show what these promise:
- a consistent handle that mutates publishes exactly the operation it applied and ends
  synced;
- every reader that was consistent before reaches the writer's state by pulling.

## Model

| member | source | states |
|---|---|---|
| LittleEndian.FromLe4Le4 | SharedObject.py:424-429 | a 4-byte little-endian field written with `to_bytes(4, 'little')` reads back as the same number |
| LittleEndian.Le4FromLe4 | SharedObject.py:382-386 | a 4-byte field read as a number and written back gives the same bytes |
| LittleEndian.Le4Injective | SharedObject.py:429 | two positions are written as the same four bytes exactly when they are equal |
| LittleEndian.LeBytesRoundTrip | SharedObject.py:101 | k little-endian bytes of a number below 256^k read back as that number |
| LittleEndian.Splice | SharedObject.py:426 | slice assignment keeps the buffer's length and puts the assigned bytes exactly at the slice |
| LittleEndian.SpliceOutside | SharedObject.py:426 | slice assignment leaves every byte outside the slice as it was |
| Codec.ValueRoundTrip | SharedObject.py:414 | every value decodes from its encoding followed by any bytes, consuming exactly its own bytes |
| Codec.MirrorRoundTrip | SharedObject.py:438 | every container decodes from its encoding, consuming exactly its bytes (what `dumps(self.data)` must give back) |
| Codec.KindRoundTrip | SharedObject.py:96 | every kind descriptor, including a deque's maxlen and a defaultdict's factory, decodes from its encoding |
| Codec.OpRoundTrip | SharedObject.py:414 | every logged operation decodes from its record, consuming exactly its bytes |
| Codec.DecodeEncodeOp | SharedObject.py:388 | `loads` of a logged record gives back the method and arguments that were logged |
| Codec.DecodeEncodeMirror | SharedObject.py:403 | `loads` of a snapshot payload gives back the dumped container |
| Codec.DecodeEncodeKind | SharedObject.py:112 | `loads` of the descriptor gives back the kind the creator wrote |
| ControlBlock.RPos | SharedObject.py:73 | the published position is a 4-byte field, below 2^32 |
| ControlBlock.RCount | SharedObject.py:74 | the snapshot counter is a 4-byte field, below 2^32 |
| ControlBlock.EffectiveNested | SharedObject.py:104-105 | a set is never nested; any other kind is nested exactly when requested |
| ControlBlock.NestedFlagAgrees | SharedObject.py:104-114 | the flag an attaching handle reads back is the nesting the creator took effect with, and never set for a set |
| ControlBlock.PadName | SharedObject.py:451 | `ljust(255)` gives a 255-byte field that starts with the name |
| ControlBlock.StripPadName | SharedObject.py:436 | the padded snapshot name strips back to exactly the name |
| ControlBlock.StripZeros | SharedObject.py:460 | a never-written name field reads as the empty name, so no previous snapshot is unlinked |
| ControlBlock.SetSnapNameReads | SharedObject.py:451 | a written snapshot name is what the next reader strips out of the field |
| ControlBlock.WriteDescriptorAsWritten | SharedObject.py:98-102 | the descriptor write as written fails with DescriptorTooLarge exactly when `265 + len` exceeds the segment, and any other failure is a ValueError |
| ControlBlock.DescGuardTooWeak | SharedObject.py:98 | a 266-byte control segment passes the guard for a 1-byte descriptor and then fails with ValueError |
| ControlBlock.DescFitsStricter | SharedObject.py:98 | the corrected guard implies the written one, and rejects the descriptors the written one lets through to a ValueError |
| ControlBlock.WriteDescriptor | SharedObject.py:98-102 | the corrected write succeeds exactly when the length field and the bytes fit the descriptor view, and otherwise fails with DescriptorTooLarge; bytes before 265 are untouched |
| ControlBlock.DescriptorBytesRoundTrip | SharedObject.py:111-112 | the bytes an attaching handle reads from the descriptor are the bytes the creator wrote |
| ControlBlock.DescriptorRoundTrip | SharedObject.py:96-112 | the kind an attaching handle reconstructs is the kind the creator described |
| ControlBlock.SetRPosFields | SharedObject.py:429 | publishing a position sets it and leaves the counter, flag, snapshot name and descriptor as they were |
| ControlBlock.SetRCountFields | SharedObject.py:455 | publishing a counter sets it and leaves the other fields as they were |
| ControlBlock.SetSnapNameFields | SharedObject.py:451 | writing the snapshot name leaves the position, counter, flag and descriptor as they were |
| ControlBlock.PublishSnapshotFields | SharedObject.py:451-458 | after the three control writes of a dump, the block names the snapshot, holds the new counter and position 0, and keeps flag and descriptor |
| ControlBlock.CreatedControlFields | SharedObject.py:87-108 | a fresh control block publishes position 0, counter 0, no snapshot name, describes its kind and carries the effective nested flag |
| OpLog.Frame | SharedObject.py:424 | a record is the 4-byte length followed by exactly the payload |
| OpLog.Frames | SharedObject.py:385-390 | a non-empty range that splits into frames lies inside the log and holds at least one frame |
| OpLog.DecodeOps | SharedObject.py:388 | decoding payloads gives one operation per payload |
| OpLog.SnapshotBytes | SharedObject.py:441-447 | a snapshot segment holds 4 + the payload length bytes |
| Replication.FrameHeader | SharedObject.py:386-388 | the length read at a record's start is the payload's length, and the payload read after it is the payload written |
| Replication.FrameAt | SharedObject.py:385-390 | a record written at p reads back alone as its payload |
| Replication.FramesSplit | SharedObject.py:385-390 | reading records up to an end passes through every record boundary a shorter read reaches |
| Replication.FramesAgree | SharedObject.py:385-390 | reading records looks only at the bytes before the published position |
| Replication.DecodeOpsAppend | SharedObject.py:388 | decoding two runs of payloads one after the other decodes their concatenation |
| Replication.RecordsSplit | SharedObject.py:385-390 | the records up to an end are those up to any boundary followed by those after it |
| Replication.RecordsAgree | SharedObject.py:385-390 | the records up to a position depend only on the log bytes before it |
| Replication.SnapshotRoundTrip | SharedObject.py:402-403 | loading a dumped snapshot gives back the dumped container |
| Replication.CatchUp | SharedObject.py:376-391 | a consistent handle that pulls ends at the published position and counter, holding the published state |
| Replication.ResumeDone | SharedObject.py:385 | replay from the published position replays nothing |
| Replication.ResumeShort | SharedObject.py:386 | the model's replay fails when the next length field does not lie wholly before the published position (the source reads on past it; see Left out) |
| Replication.ResumeOverrun | SharedObject.py:386-388 | the model's replay fails when the next record runs past the published position (the source reads on past it; see Left out) |
| Replication.ResumeUndecodable | SharedObject.py:388 | replay fails when the next record does not decode |
| Replication.RecordsNext | SharedObject.py:385-390 | the records from a position are the record there followed by the records from the next one, and none when the rest does not read |
| Replication.ResumeNext | SharedObject.py:386-391 | replay applies the record at the cursor, then replays from the next record; it fails when that method raises |
| Replication.SyncedIsFixed | SharedObject.py:379-382 | a synced handle is consistent and pulling leaves it as it is |
| Replication.AdvanceTransitive | SharedObject.py:411-465 | two forward moves of the channel make one forward move |
| Replication.AdvanceKeepsConsistent | SharedObject.py:411-465 | whatever forward move the writer makes, every reader that was consistent stays consistent |
| Replication.AppendKeepsBase | SharedObject.py:426-429 | an append publishes the new end and leaves the counter and the snapshot base alone |
| Replication.SameBase | SharedObject.py:393-405 | the base depends only on the counter, the descriptor and the snapshot |
| Replication.AppendRecords | SharedObject.py:424-429 | after an append, the log reads as the old records followed by the new one, and the old bytes are unchanged |
| Replication.SpliceParses | SharedObject.py:426 | writing a decodable frame at the end of the records adds exactly its operation |
| Replication.AppendPublishes | SharedObject.py:411-429 | an append moves the channel forward and publishes the logged operation applied to the old published state |
| Replication.PublishedStep | SharedObject.py:385-391 | a channel with the same base whose records gained one operation publishes that operation applied |
| Replication.DumpFields | SharedObject.py:446-458 | a dump bumps the counter, resets the position, names the new snapshot, keeps the descriptor and holds the snapshot bytes |
| Replication.DumpPublishes | SharedObject.py:431-458 | a dump moves the channel forward and publishes exactly the dumped container |
| Replication.PublishedAtZero | SharedObject.py:457-458 | with the position at 0 the published state is the base |
| Replication.DumpBase | SharedObject.py:441-458 | after a dump the base is the dumped container |
| Replication.SnapshotBase | SharedObject.py:393-405 | once a snapshot was published, the base is what its segment decodes to |
| Replication.CatchReachesCursor | SharedObject.py:376-391 | a successful pull reaches at least the published counter and position |
| Replication.CatchAtCursor | SharedObject.py:379-382 | a handle at the published counter and position has nothing to pull |
| Replication.CatchIdempotent | SharedObject.py:376-391 | pulling twice is pulling once |
| Replication.CatchSynced | SharedObject.py:376-391 | a consistent handle that pulls successfully ends synced |
| Replication.AppendSynced | SharedObject.py:411-429 | a synced writer that appends the operation it applied stays synced with its new mirror, and the channel moves forward |
| Replication.DumpSynced | SharedObject.py:431-458 | a writer that dumps its mirror ends synced with it at position 0 and the next counter |
| Replication.MutationPublishes | SharedObject.py:20-48 | one mutation by a consistent writer (pull, apply, then append or dump) moves the channel forward, ends synced and publishes exactly the applied state |
| Replication.ReaderSeesWriter | SharedObject.py:376-391 | a reader consistent before the writer moved pulls to exactly the writer's view |
| Replication.CreatedSynced | SharedObject.py:131 | a fresh container publishes its empty kind, and the new handle is synced at position 0, counter 0 |
| Replication.FeedStep | SharedObject.py:219-222 | one more mutation of a bulk loop keeps the writer synced and extends the operations it applied |
| Replication.AttachCatches | SharedObject.py:131-139 | an attaching handle's first pull succeeds exactly when the channel publishes a state, and then holds it |
| Protocol.AppendChan | SharedObject.py:424-429 | an append keeps the log's length and the control block's layout |
| Protocol.DumpChan | SharedObject.py:441-458 | a dump leaves the log bytes as they were |
| Protocol.GetItemDesyncs | SharedObject.py:153-155 | reading a missing defaultdict key, as Python evaluates it, leaves a synced handle out of step with the published state |
| Protocol.DifferenceUpdateDesyncs | SharedObject.py:43-44 | a `difference_update` that, as Python runs it, discards some elements and then raises TypeError writes no record and leaves a synced handle out of step with the published state |
| Containers.NormIndex | SharedObject.py:153-165 | a negative index counts from the end; an index is accepted exactly when `-n <= i < n` |
| Containers.SortIntsCorrect | SharedObject.py:248-251 | `sort` yields an ascending permutation of the items |
| Containers.Put | SharedObject.py:158-160 | `d[key] = v` on an existing key keeps the number of entries; on a new key it appends exactly that entry at the end |
| Containers.PutOverwrites | SharedObject.py:158-160 | `d[key] = v` on an existing key keeps the keys and their order, binds the key to `v` and leaves every other entry as it was |
| Containers.ApplyAllCons | SharedObject.py:385-390 | replaying records that start with one record is applying it, then replaying the rest; a failing first record fails the replay |
| Values.HashablePyEq | SharedObject.py:168-169 | on a hashable value (a set element or a key) Python's `==` is sameness, so set membership and key lookup compare values as they are |
| Containers.FindFrom | SharedObject.py:225-226 | the first position in the range holding an item `==` to `x` (Python's `==`), with none `==` to it before; none when no item in the range is |
| Containers.CountOf | SharedObject.py:216-217 | `count` is at most the length and is 0 exactly when no item is `==` to the argument |
| Containers.OrderAndMaxlenIgnored | SharedObject.py:184-185 | two dicts holding the same entries in another order are `==`, and so are two deques that differ only in maxlen |
| Containers.ScansUsePyEq | SharedObject.py:240-241 | `remove(x)` on a list or deque takes out a front item `==` to `x`, `x in` answers True and `count(x)` is at least 1, whatever the item's key order or maxlen |
| Containers.Clamp | SharedObject.py:225-232 | the position `list.insert` and the bounds of `list.index` take: in `[0, n]`, a position in range kept, a negative one counted from the end, one still outside moved to the nearer end |
| Containers.ApplyOp | SharedObject.py:157-373 | every mutating method that succeeds keeps the container's kind; `clear` empties it; `setdefault` returns None |
| Containers.SetPopAsWritten | SharedObject.py:233-236 | `pop()` on a set as a replica runs it: it fails exactly on an argument or an empty set, otherwise it returns an element of the set and, for a set without repeats, leaves exactly the others; which element is the replica's own choice |
| Containers.SetPopDiverges | SharedObject.py:389 | two replicas holding {'a', 'b'} whose iteration orders differ replay the same `pop` record into different sets |
| Containers.SetPopIsRemove | SharedObject.py:233-236 | the model's set `pop` returns the first element in the order every replica shares, and replaying it is exactly `remove` of that element |
| Containers.SetArgumentIsAbsent | SharedObject.py:337-338 | a set passed to a set's `discard`, `remove` or `in` is looked up as a frozenset, which no set holds: `discard` leaves the set as it was, `remove` raises KeyError, `in` answers False; a set with an unhashable element raises TypeError in all three |
| Containers.DiscardEach | SharedObject.py:332-333 | the loop over one argument of `difference_update` fails exactly when some element is unhashable, and has by then discarded the elements before the first unhashable one; when it runs through, it has discarded them all |
| Containers.DifferenceUpdateStep | SharedObject.py:332-333 | an argument whose elements are all hashable can be discarded first and the rest applied to what is left; one with an unhashable element makes the whole call fail with TypeError |
| Containers.DifferenceUpdateAsWritten | SharedObject.py:332-333 | `difference_update`, argument by argument and element by element as Python runs it: it succeeds exactly when the atomic model succeeds, with the same set; it fails only with TypeError, and never adds an element |
| Containers.DifferenceUpdatePartial | SharedObject.py:332-333 | `{1, 2}.difference_update([1, []])` raises TypeError with 1 already discarded, where the atomic model fails leaving `{1, 2}` |
| Containers.ApplyAllSnoc | SharedObject.py:385-391 | replaying a log extended by one record is replaying the log, then the record |
| Containers.ApplyAllAppend | SharedObject.py:385-391 | replaying two logs back to back is replaying their concatenation |
| Containers.Eval | SharedObject.py:153-373 | `len` is the length; `in` on a list or deque answers whether some item is `==` to the argument (Python's `==`, `PyEq`), on a mapping whether it is a key; `in` on a set answers membership, and False for a set argument (`SetArgumentIsAbsent`); `get` of a missing key answers the default |
| Containers.GetItemAsWritten | SharedObject.py:153-155 | `self.data[key]` answers what `Eval` answers, and changes the mirror exactly for a missing key of a defaultdict with a factory, appending that entry |
| Nesting.Slot | SharedObject.py:25-29 | the `item` argument exists exactly for the methods with an `item` parameter that was passed |
| Nesting.SlotAsWritten | SharedObject.py:28-29 | reading `item` from the positional arguments raises IndexError on `setdefault(key)` |
| Nesting.SlotAsWrittenAgrees | SharedObject.py:25-29 | the as-written lookup fails exactly on `setdefault` without an item and agrees with `Slot` elsewhere |
| Nesting.SetDefaultIndexError | SharedObject.py:307-310 | `setdefault(key)` on a nested handle raises IndexError though it has nothing to promote |
| Nesting.WithItem | SharedObject.py:40-41 | replacing the item puts exactly the new value in the item slot |
| Nesting.WithItemOnly | SharedObject.py:40-41 | replacing the item by itself changes nothing, replacing it twice keeps the last, and different items give different operations |
| Nesting.PromotedLogsHandle | SharedObject.py:31-41 | a promoted operation carries a handle, never the inline container it was given |
| Nesting.PlainAppliesAsGiven | SharedObject.py:24 | a handle that is not nested applies exactly the operations it was given |
| Nesting.Detach | SharedObject.py:206 | a copied item is never a handle; a non-handle item is kept; a handle becomes the child's copy, or its error when the child's own `copy` fails |
| Nesting.DetachAll | SharedObject.py:206-207 | the comprehension succeeds exactly when every item copies, giving one copy per item; otherwise it fails with the error of the first item that does not copy |
| Nesting.DetachEntries | SharedObject.py:209-210 | the same for the entries of a mapping, keeping the keys |
| Nesting.CopyAsWritten | SharedObject.py:202-213 | `copy` as written returns the container itself unless it is a non-empty nested one |
| Nesting.Copy | SharedObject.py:202-213 | the corrected `copy` fails exactly on a non-empty nested set (with AttributeError; no handle reaches it, since a set is never nested) or holds a child whose copy fails |
| Nesting.CopyChildFails | SharedObject.py:206-207 | a nested list holding a child whose own `copy` fails (a non-empty nested deque, say) fails with the first such child's error, as written and as corrected |
| Nesting.CopyIsDetached | SharedObject.py:202-213 | a copy has the same kind and length; a nested copy holds no handle, each handle replaced by the child's copy; a plain copy is the container |
| Nesting.CopyDequeTypeError | SharedObject.py:211 | the written copy raises TypeError on every non-empty nested deque or defaultdict whose children copy, where the corrected one succeeds |
| Nesting.CopyAgrees | SharedObject.py:202-213 | on every other container the written and the corrected copy agree |
| Bulk.Iterate | SharedObject.py:221 | `for item in other` visits one element per item, or per key of a mapping |
| Bulk.BulkOps | SharedObject.py:219-222 | a bulk method makes one mutation per element, in order |
| Bulk.PromotedNext | SharedObject.py:221-222 | the operations applied for the first i elements, extended by element i's, match the first i + 1 |
| Bulk.PopulateMode | SharedObject.py:133-137 | `__init__` populates a list or deque with `extend` and a mapping with `update` by key |
| Bulk.PopulatePrefix | SharedObject.py:133-137 | populating a well-formed value one element at a time rebuilds its first i elements |
| Bulk.PopulateStep | SharedObject.py:133-137 | one population step adds exactly the next element |
| Bulk.PopulateRebuilds | SharedObject.py:133-137 | populating the empty container of a well-formed value's kind rebuilds the value |
| Bulk.FlatAppliesAsGiven | SharedObject.py:24-41 | a nested handle given the bulk operations of a value that holds no container promotes nothing and applies exactly those operations |
| Ownership.RepublishedNames | SharedObject.py:441-461 | after a dump the new snapshot name is bound, and every other name but the previous snapshot's stays |
| Ownership.PublishOwned | SharedObject.py:451-461 | after a dump the publisher's control block names a live snapshot that it published |
| Ownership.PublishEvolves | SharedObject.py:460-461 | a dump moves only its publisher's snapshots: the one it unlinks was its own and the new name was free |
| Ownership.OwnedKept | SharedObject.py:460-461 | a control block that did not dump keeps its snapshot bookkeeping |
| Ownership.DumpBookkeeping | SharedObject.py:441-461 | a dump keeps both the publisher's and the register's bookkeeping and moves the namespace only for the publisher |
| SharedMemory.PsmName | SharedObject.py:441 | an anonymous segment name is `psm_` and 8 hex digits, a valid 12-byte name |
| SharedMemory.WriteBytes | SharedObject.py:426 | slice assignment on a segment makes its contents `Splice` of the old contents |
| SharedMemory.Memory.constructor | SharedObject.py:70 | the model's namespace, in which `SharedMemory(create=True, ...)` allocates, starts empty |
| SharedMemory.Memory.Create | SharedObject.py:70-82 | creating a segment fails on size 0 or a taken name; otherwise a fresh zero-filled segment is bound to the name and nothing else changes |
| SharedMemory.Memory.FreeName | SharedObject.py:441 | the allocator finds an unused valid name, or reports exhaustion when all 2^32 are taken |
| SharedMemory.Memory.CreateSnapshot | SharedObject.py:441-449 | a snapshot with the given content is bound to a name no segment had, recorded as published by its control block |
| SharedMemory.Memory.Unlink | SharedObject.py:536-545 | unlinking removes exactly the name and reports whether it was there |
| SharedMemory.Memory.Open | SharedObject.py:70-81 | attaching succeeds exactly on a live segment of that name, giving its array; otherwise NotFound |
| SharedMemory.ExtendsEvolves | SharedObject.py:70-81 | a namespace that only grew moved for nobody |
| SharedMemory.CreationEvolves | SharedObject.py:32-39 | creating a child, then publishing through the register, moves the namespace only for the register |
| SharedMemory.EvolvesTransitive | SharedObject.py:221-222 | moves of the namespace compose, their actors joined |
| SharedObjects.Retire | SharedObject.py:460-461 | the previous snapshot is unlinked unless there was none or the new one reused its name |
| SharedObjects.WritePublish | SharedObject.py:451-458 | the control writes of a dump, in the source's order, give `PublishSnapshot` |
| SharedObjects.PublishSegment | SharedObject.py:436-461 | on success: a new snapshot holding the framed payload under a fresh name, the control block naming it with the next counter and position 0, the previous snapshot unlinked; on failure nothing changes |
| SharedObjects.DumpSegment | SharedObject.py:436-461 | a dump keeps the publisher's and the register's bookkeeping and moves the namespace only for the publisher |
| SharedObjects.DumpMirror | SharedObject.py:436-461 | a successful dump of the mirror moves the channel to `DumpChan` of the channel before |
| SharedObjects.AppendRecord | SharedObject.py:424-429 | writing the frame and then the new position moves the channel to `AppendChan` of the channel before, leaving the snapshot bookkeeping alone |
| SharedObjects.AppendChannel | SharedObject.py:424-429 | the control block with the moved position and the log with the written frame make up `AppendChan` |
| SharedObjects.DumpChannel | SharedObject.py:441-458 | the control block and snapshot a dump leaves make up `DumpChan` |
| SharedObjects.BaseIsLoadable | SharedObject.py:393-405 | once a snapshot was published, the base is what `_load_full_object` loads |
| SharedObjects.SnapKept | SharedObject.py:460-461 | a control block that did not act keeps its bookkeeping and the snapshot it publishes |
| SharedObjects.ChanKept | SharedObject.py:460-461 | a container whose control block did not act keeps its whole channel, control block, log and snapshot, while the namespace moves |
| SharedObjects.CreateSegments | SharedObject.py:70-82 | the control segment (named or anonymous) and `<name>_memory`, fresh and distinct, zero-filled control of the requested size, log of `size` bytes |
| SharedObjects.WriteHeader | SharedObject.py:101-108 | the creator's writes leave position 0, counter 0, no snapshot name, the kind's descriptor and the effective flag |
| SharedObjects.AllocateControl | SharedObject.py:70-108 | creation fails on size 0, a taken name or a descriptor that does not fit; otherwise both segments exist and the control block is freshly created for the kind |
| SharedObjects.SharedObject.Init | SharedObject.py:66-68 | a new handle starts at position 0, counter 0, empty mirror, not closed |
| SharedObjects.SharedObject.LoadFull | SharedObject.py:393-409 | an unforced load without a newer counter fails with NoNewSnapshot; otherwise the handle holds the named snapshot at position 0 and the published counter |
| SharedObjects.SharedObject.ReplayTo | SharedObject.py:382-391 | the replay loop succeeds exactly when `Resume` does, ending at the end position holding `Resume`'s mirror |
| SharedObjects.SharedObject.Pull | SharedObject.py:376-391 | a closed handle fails; otherwise the pull succeeds exactly when `Catch` does and leaves the handle at `Catch`'s view, synced if it was consistent |
| SharedObjects.SharedObject.WriteChanges | SharedObject.py:411-429 | a fitting record is appended (`AppendChan`); otherwise the mirror is dumped (`DumpChan`); a writer synced before applying the operation ends synced, the channel moved forward |
| SharedObjects.SharedObject.AppendChanges | SharedObject.py:424-429 | the append moves the channel to `AppendChan` and the handle's position to the new end |
| SharedObjects.SharedObject.DumpChanges | SharedObject.py:420-422 | the dump branch publishes the mirror and leaves a synced writer synced, its mirror unchanged |
| SharedObjects.SharedObject.Mutate | SharedObject.py:9-48 | a mutating method on a consistent handle publishes exactly the (promoted) operation applied to the previously published state, returns its result and ends synced; a register consistent before is consistent after |
| SharedObjects.SharedObject.Prepare | SharedObject.py:12-41 | pull then promotion leave the channel alone and a consistent handle synced; a register consistent before is consistent after |
| SharedObjects.SharedObject.PromoteItem | SharedObject.py:24-41 | a nested handle promotes a container item; any other operation is applied as given; the handle is untouched; a register consistent before is consistent after |
| SharedObjects.SharedObject.Promote | SharedObject.py:31-41 | a promoted operation carries, in the item slot, a handle on a container whose name was free before and now binds its segments, which publishes a state (the item itself when it is well-formed and a set or holds no container); a register consistent when the promotion starts is still consistent when it pulls, then publishes its set with the child's name added and ends synced; the handle's own channel is untouched and the namespace moves only through the register |
| SharedObjects.SharedObject.Spawn | SharedObject.py:32-39 | the child's name was free and now binds its control and log segments; the child publishes a state, the item itself when it is well-formed and a set or holds no container; a register consistent on entry is still consistent when it pulls, then publishes its set with the child's name added and ends synced; the namespace moves only through the register |
| SharedObjects.SharedObject.Adopt | SharedObject.py:39 | `before` and `view` are the register's channel and local state on entry; the name added to the register is the child's own name, and adding it leaves the child bound to its segments and publishing what its handle holds; a register consistent on entry publishes the set it published on entry with the name added and ends synced; the namespace moves only through the register |
| SharedObjects.SharedObject.Child | SharedObject.py:32-38 | the nested child is created under a fresh name bound to fresh segments and publishes what its handle holds: the item itself when it is well-formed and a set or holds no container; a register consistent on entry is still consistent |
| SharedObjects.SharedObject.Enlist | SharedObject.py:39 | the register adds the child's name as `Record` does, against its channel and local state on entry; a register consistent then publishes the set with the name added and ends synced |
| SharedObjects.ChildKept | SharedObject.py:39 | registering the child leaves the child's name bound to its segments and its channel as it was |
| SharedObjects.SharedObject.Record | SharedObject.py:39 | adding the child's name to the register publishes the set with the name added and leaves the register synced |
| SharedObjects.SharedObject.Feed | SharedObject.py:219-222 | the bulk loop applies one operation per element, in order, promoted on a nested handle; a synced handle publishes them all and ends synced; a register consistent before is consistent after |
| SharedObjects.SharedObject.FeedNext | SharedObject.py:221-222 | one turn of the bulk loop keeps the loop invariant and a consistent register consistent |
| SharedObjects.SharedObject.Extend | SharedObject.py:219-222 | `extend` and `extendleft` publish every element, in order, on top of the published state; a register consistent before is consistent after |
| SharedObjects.SharedObject.Update | SharedObject.py:293-300 | `update` sets every entry of a mapping argument, or adds every element otherwise, on top of the published state; a register consistent before is consistent after |
| SharedObjects.SharedObject.Allocate | SharedObject.py:56-129 | creation up to population: segments, control block and (for a nested container without one) a new register; the handle is empty and nothing is published; a given register's channel is untouched |
| SharedObjects.SharedObject.NewRegister | SharedObject.py:123-125 | the register is a fresh empty set container named `<name>_register` |
| SharedObjects.SharedObject.CreateFrom | SharedObject.py:56-137 | a created handle is synced; its name was free and now binds its fresh control and log segments, so attaching by that name finds them; a well-formed value that is non-nested or holds no container is held exactly; a register consistent before is consistent after |
| SharedObjects.SharedObject.Create | SharedObject.py:59-64 | no value gives MissingValue and an unsupported value gives UnsupportedKind, with the namespace unchanged; a zero control size gives InvalidSize, a taken name AlreadyExists, a descriptor that does not fit an error; otherwise a synced handle of the value's kind and nesting, in the given register, whose free name now binds its fresh segments, holding the value itself when it is well-formed and non-nested or holds no container |
| SharedObjects.SharedObject.Fill | SharedObject.py:133-137 | population leaves the handle synced, holding a well-formed value as given when it is non-nested or holds no container; a register consistent before is consistent after |
| SharedObjects.SharedObject.Populate | SharedObject.py:133-137 | population applies the bulk operations of the value in order, promoted on a nested handle, from the empty container; a well-formed value that is non-nested or holds no container is rebuilt exactly; a register consistent before is consistent after |
| SharedObjects.SharedObject.Commit | SharedObject.py:43-44 | applying the operation, then `_write_changes`, publishes exactly the operation applied to the published state; the register's channel is untouched; an operation that fails returns its error and changes neither the handle's mirror nor the channel |
| SharedObjects.SharedObject.Dump | SharedObject.py:431-465 | `dump_full_object` pulls, then publishes the pulled mirror (`DumpChan`) at the next counter and position 0 |
| SharedObjects.SharedObject.Redump | SharedObject.py:420-421 | a dump from a handle with nothing to pull keeps its mirror and takes the next counter |
| SharedObjects.SharedObject.WriteSnapshot | SharedObject.py:436-458 | the snapshot of the mirror is published and the local counter and position follow |
| SharedObjects.SharedObject.Bind | SharedObject.py:70-112 | attaching fails with NotFound when a segment is missing and Corrupt when the control block cannot be read; otherwise it gives both arrays and the kind |
| SharedObjects.SharedObject.Connect | SharedObject.py:131-139 | the attached handle's pull succeeds exactly when the channel publishes a state, and the handle is then synced |
| SharedObjects.SharedObject.AttachRegister | SharedObject.py:127 | the attached register is not nested, has no register and is synced |
| SharedObjects.SharedObject.Attach | SharedObject.py:56-139 | attaching fails with NotFound or Corrupt as `Bind` does; on success the handle has the stored kind and flag, the given or attached register, and is synced; a non-nested attach succeeds exactly when the channel publishes a state |
| SharedObjects.SharedObject.Reopen | SharedObject.py:528 | the attach inside the unlinking steps, with its segments |
| SharedObjects.SharedObject.Query | SharedObject.py:153-373 | a reading method on a closed handle fails; after a successful pull it answers `Eval` of the mirror, which for a consistent handle is the published state |
| SharedObjects.SharedObject.CopyOut | SharedObject.py:202-213 | `copy` answers the corrected `Copy` of the published state |
| SharedObjects.SharedObject.Close | SharedObject.py:467-474 | `close` returns True and the handle is closed, also when it was already closed |
| SharedObjects.SharedObject.UnlinkByName | SharedObject.py:536-545 | the name is removed and the result says whether it was there |
| SharedObjects.SharedObject.UnlinkObjectByName | SharedObject.py:525-534 | a missing container gives NotFound and a failure unlinks nothing; on success exactly the control, log and (once published) snapshot names are removed |
| SharedObjects.SharedObject.UnlinkNamed | SharedObject.py:528-530 | after a successful unlink the container's control and log names are gone, and the namespace only shrinks |
| SharedObjects.SharedObject.Size | SharedObject.py:171-173 | `len` on a closed handle fails, and so does one whose pull fails; otherwise the handle is at `Catch` of its channel and the answer is that mirror's length, the published one's for a consistent handle |
| SharedObjects.SharedObject.UnlinkChildren | SharedObject.py:520-521 | when the loop finishes, every name it was given is a string whose control and log segments are gone; the namespace only shrinks |
| SharedObjects.SharedObject.UnlinkRegistered | SharedObject.py:517-523 | the register is pulled to `Catch` of its channel (the published set when it was consistent), every child in that set has lost its names, the register is closed and its own names are gone |
| SharedObjects.OtherSnapKept | SharedObject.py:529-533 | unlinking one container's segments and snapshot leaves the snapshot of every other control block in place |
| SharedObjects.SharedObject.Unlink | SharedObject.py:504-523 | `unlink` twice unlinks once and leaves the register alone; the container's names, and for a nested one its register's and every registered child's, are gone, the children being the register's pulled set; for a valid handle that set is `Catch` of the register's channel; the namespace only shrinks |

## Left out

- Pickle is replaced by the byte codec in `Codec`. Pickle's own formats are not modelled. The codec has the one property the protocol relies on: a round trip that consumes exactly the encoding.
- The `serializer` parameter of `__init__` is not modelled; the codec is the only serializer.
- Arbitrary Python values are not modelled. Values are None, bools, integers, byte strings, tuples, containers and handles.
- A defaultdict's factory is modelled as the value it produces, not as an arbitrary callable.
- `sort(key=...)` is left out. `sort` is modelled over integers only, with `reverse`.
- Floating point and user classes are left out.
- Equality and hashing of handles are by name. The source compares a nested handle by its contents through `__eq__`. `PyEq` otherwise follows Python's `==` for containers: order-free for sets and dicts, maxlen ignored, the dict kinds alike, OrderedDicts in order.
- `__hash__` is not modelled; it always raises for a mutable container.
- `__repr__`, `__str__` and `__iter__` are not modelled; iteration order is `Bulk.Iterate`.
- `__reduce__` is not modelled. Passing a handle to another process becomes attaching by name.
- `__del__`, `gc.collect` and `_del_remotes` are not modelled: garbage collection and finalizers are outside the model.
- Concurrency is not modelled. Writers are assumed to take turns, as the source also assumes; interleaved writes from several processes are outside the model.
- OS page-size rounding of segment sizes is not modelled; a segment has exactly the requested size.
- The mapping of a segment by a process is not modelled. Attaching returns the shared array itself.
- `SharedObjects.SharedObject.Close` does not cascade to the children held in the mirror. In the model a mirror holds child names, not child handle objects, so there is no child handle to close.
- `SharedObjects.SharedObject.Attach` does not establish the snapshot bookkeeping (`Valid`) for the new handle; who published an existing snapshot is not recoverable from the bytes. The mutating methods are specified for handles that hold it: those made by `Create`, and registers.
- `SharedObjects.SharedObject.Attach` refuses three things as Corrupt:
  - a log of 2^32 bytes or more, whose positions cannot be written in 4 bytes;
  - a control segment and log bound to the same array;
  - a register whose flag says it is nested.
- `SharedObject(obj, create=False, ...)` (attach, then populate an existing container) is not modelled.
- Keyword arguments are not modelled. Every operation is given positionally, so `write_changes_dec` never misses an `item` passed by keyword.
- `SharedObjects.SharedObject.Allocate`: when the log segment cannot be created after the control segment was, the control segment is left in the namespace, as in the source. The model does not state that it leaked.
- `SharedObjects.SharedObject.NewRegister` does not populate the new register. Populating an empty set only pulls, which changes nothing on a fresh channel.
- `SharedObjects.SharedObject.Feed` does not itself promise HandleClosed on a closed handle. `Extend` and `Update` pull first and promise it.
- `SharedObjects.SharedObject.Query` does not describe the local state after a failed pull. A replay that fails part-way has already applied some records, as in the source.
- `SharedObjects.SharedObject.Mutate` does not describe the local mirror after a failed publish. It states the published outcome only on success.
- `SharedObjects.SharedObject.CreateFrom` states that the handle holds the given value itself only for a well-formed value that is non-nested or holds no container. For a nested value holding containers, `Populate` states the promoted operations it applied.
- `SharedObjects.SharedObject.Child`, `SharedObjects.SharedObject.Spawn` and `SharedObjects.SharedObject.Promote` state what the child publishes only for a well-formed item that is a set or holds no container (`Hosts`). An item holding containers is published with those containers replaced by handles on grandchildren; only `Populate` states that, as the promoted operations it applied, and it is not carried to the child's published state.
- `SharedObjects.SharedObject.Unlink` states that the children it unlinks are `Catch` of the register's channel only for a handle that holds its bookkeeping (`Valid`) and whose name binds its own segments; otherwise the container's own unlinks could, as far as the model knows, remove the register's snapshot before the register is pulled. `UnlinkRegistered` states it unconditionally for the register's channel at the time of its pull.
- `SharedObjects.SharedObject.Unlink` states that the control and log names of the container, its register and its children are gone. It does not state this for their snapshots; `UnlinkObjectByName` states it for one container.
- `SharedObjects.PublishSegment` refuses a counter or a snapshot length that does not fit 4 bytes before writing anything. The source raises OverflowError part-way through the dump. The model also refuses payloads within 4 bytes of 2^32, which the source would accept.
- `Protocol.Resume` fails when the published position falls inside a record (`ResumeShort`, `ResumeOverrun`). The source's loop at SharedObject.py:385-390 reads the length and the record from the log without comparing them with the published position, applies the record and leaves its own cursor past the published one. No writer in the model produces such a log, so the pulls of consistent handles are unaffected.
- `SharedMemory.Memory.FreeName` takes the first free name of the form `psm_` plus 8 hex digits and reports StorageExhausted when all 2^32 are taken. The source's `SharedMemory(create=True)` draws random names and retries without end; the random choice is outside the model, and an exhausted namespace is an outcome the source never reaches.
- `SharedObjects.AllocateControl` refuses a log of 2^32 bytes or more with Overflow. The source creates such a log and fails only at SharedObject.py:429, once a published position no longer fits 4 bytes. The model keeps every log below 2^32 bytes so that every position can be published.
- `SharedObjects.SharedObject.Allocate` inherits that Overflow refusal from `AllocateControl`.
- `Containers.KeyIndex`, `Containers.FindFrom`, `Containers.CountOf` and `Containers.NormIndex` compare and index without Python's `True == 1` and `False == 0`. In the model a bool is never equal to an int and is not an index: `d[True]` on `{1: 'a'}` gives KeyError, `lst[True]` gives TypeError, and `[1, True].count(1)` is 1, where Python finds the entry, indexes element 1 and counts 2.
- The check `length + 4 > full_dump_memory.size` at SharedObject.py:443 is not modelled: segments have exactly their requested size, so it never triggers.
- `apply_changes` as a public method is `Pull`.
- `SharedObjects.SharedObject.CreateFrom` and `SharedObjects.SharedObject.Create` state that the new name binds the handle's segments, but not that the control block still decodes to the handle's kind once population is over. `Allocate` states the descriptor it writes, and no later write of the model touches the descriptor bytes (`SetRPosFields`, `PublishSnapshotFields`). That fact is not carried through the population loop.
- `SharedObjects.SharedObject.Spawn` and `SharedObjects.SharedObject.Promote` state the register's outcome against its channel and local state at the moment it pulls, given as ghost outputs, and that a register consistent on entry is consistent then. They do not state the set it publishes in terms of its state on entry: populating the child may itself have added the names of grandchildren before that.
- `Containers.ApplySet`: a set's `pop` removes the first element in the order every replica shares (the order of the items). The source's replicas each pop in their own hash order, which can differ from process to process; the replication lemmas hold for set `pop` under the model's shared order only. See "## Findings" and `SetPopAsWritten`.
- `Containers.ApplyOp` inherits that shared order for set `pop`: what it states of a set `pop` holds for the model's deterministic pop, not for a replica's own hash-order pop.
- `Containers.Elements` iterates a string one byte at a time, which is Python's iteration for one-byte characters only. A handle given as an argument is not iterated: a pure function cannot reach the child's published state, so set operations and `update` with a handle argument fail with TypeError, where the source iterates the child through `__iter__` (SharedObject.py:176).

## Findings

| source | as written | input that shows it | evidently intended | confidence | as-written member | corrected member |
|---|---|---|---|---|---|---|
| SharedObject.py:98 | the descriptor guard `265 + len(d) > size` ignores the 4-byte length field and the fixed end of the descriptor view at byte 1000 | `control_shm_size == 265 + len(d)`; the model's instance is a 266-byte control segment and a 1-byte descriptor (`DescGuardTooWeak`). The guard passes and the slice assignment then raises ValueError | raise DescriptorTooLarge whenever `265 + 4 + len(d)` exceeds `min(size, 1000)` | not executed; high | ControlBlock.WriteDescriptorAsWritten | ControlBlock.WriteDescriptor |
| SharedObject.py:211 | `self._obj_type(tmp)` where `_obj_type` is `partial(deque, (), maxlen)` or `partial(defaultdict, factory, {})` | `copy()` of a non-empty nested deque or defaultdict (`CopyDequeTypeError`): `deque((), maxlen, tmp)` takes one argument too many and raises TypeError | a container of the same kind holding the children's copies | not executed; high | Nesting.CopyAsWritten | Nesting.Copy |
| SharedObject.py:29 | `item = args[item_index]` reads `item` from the positional arguments | `setdefault(key)` on a nested dict handle (`SetDefaultIndexError`): `args` has one element and `args[1]` raises IndexError | an absent `item` takes its default, and there is nothing to promote | not executed; high | Nesting.SlotAsWritten | Nesting.Slot |
| SharedObject.py:233-236 | `pop()` on a set is logged with no argument, and each process replays it at SharedObject.py:389 with its own `set.pop()`, which removes the first element of that process's own hash table | a writer and a reader holding {'a', 'b'} whose string hashes order the set differently (`SetPopDiverges`): the writer's pop removes one element, the reader's replay removes the other, and the replicas differ with a single writer | every replica removes the element the writer's pop returned, as a logged `remove(x)` would (`SetPopIsRemove`) | not executed; medium | Containers.SetPopAsWritten | Containers.ApplySet |
| SharedObject.py:332-333 | `self.data.difference_update(*args)` discards the elements one at a time and raises TypeError at the first argument that cannot be iterated or the first unhashable element, after the discards before it; the error leaves `write_changes_dec` before `_write_changes` (SharedObject.py:44), so no record is written | `{1, 2}.difference_update([1, []])` on a synced handle (`DifferenceUpdatePartial`, `DifferenceUpdateDesyncs`): the handle's mirror becomes `{2}` while the published state stays `{1, 2}`, and later records replay onto a mirror that differs from the other handles' | an operation that fails leaves the handle's mirror as it was, in step with the published state | not executed; medium | Containers.DifferenceUpdateAsWritten | SharedObjects.SharedObject.Commit |
| SharedObject.py:155 | `self.data[key]` runs `defaultdict.__missing__`, which stores the factory's value in the local mirror and writes no record | `d[k]` on a synced defaultdict handle where `k` is missing (`GetItemDesyncs`): the handle's mirror gains `k`, other handles never see it, and later records replay onto a mirror that differs from theirs | a read answers without changing the mirror, from the published state | not executed; medium | Containers.GetItemAsWritten | SharedObjects.SharedObject.Query |

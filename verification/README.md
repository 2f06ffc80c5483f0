# A model of the block compressor and its transaction service

The repository holds a compressor for Bitcoin and Ethereum blocks, its inverse, and the
transaction service both consult. A block's transactions are replaced by markers and a list
of short ids; the receiver, whose service knows the short ids, rebuilds the block with a pool
of sub-tasks that write into one shared buffer. This project models these components in Dafny
and proves what they are for.

How the files hang together:

- `Wrappers`, `Bytes`, `Buffers`: absent values, fixed-width integers, and the growable byte
  array, whose store keeps bytes beyond its length.
- `BtcTx`, `ShortIdLists`, `Partition`, `ParallelCopy`, `Bulks`: the transaction walk, the short
  id list, the spreading of transactions over sub-tasks, and the state machine of sub-tasks that
  copy into one buffer, over every interleaving.
- `BtcCompression`, `BtcDecompression`, `BtcDecompressionTask`, `BtcRoundTrip`: Bitcoin blocks.
- `Rlp`, `RlpLists`, `EthFraming`, `EthCompression`, `EthDecompression`, `EthRoundTrip`: recursive
  length prefixes and Ethereum blocks, with prefixes filled in once the lengths are known.
- `OrderedMaps`, `BucketContainers`, `ReadWindows`, `PoolTracking`, `ContentMaps`: the containers, and
  what a read window of the bucketed set comes to.
- `ServiceState`, `ServiceIndex`, `ServiceMessages`, `ServiceRemoval`, `BlockWindows`, `ServiceRuns`,
  `ShortIdMaps`, `NodeReplies`, `TransactionServices`, `TxSync`, `TxSyncMessages`: the transaction
  service, its invariant over every run, its message handlers, removal, the block window, and the
  sync between services.
- `CompactBlockData`, `CompactMapping`, `CompactAccounts`, `CompactCollisions`, `CompactDispatch`,
  `CompactMappingTask`: mapping a compact block to the pool by sub-tasks that race with
  compare-and-swap, with colliding compact ids and without.
- `EndToEnd`: a service that started empty and was synchronized rebuilds the sender's block.

Methods of classes are the code; each is tied to a function on values, and the properties are
proved of those functions. Hash functions are parameters, and so are the clock, the verdict of
the transaction validator, the parser of a node's message, and the order in which unordered
containers are met. `pick` stands for taking the first element of an unordered set.

Where the code does not do what one would expect, the model follows the code, and a lemma says
for all inputs when it does meet the property: a length of 2^32 up to 2^56 is written with leading
zeros that the reader rejects; a legacy transaction without inputs and with one output looks like
segwit; the string view of an item made at a later position counts the position twice, and a list
inside a list is split from the wrong place; offsets of an earlier block stay behind when a pool
grows; the byte counter counts an emplaced value even if its key is there; a peer's message can
leave an empty short id set behind; removing a hash that is queued for the pool leaves the pool
with an unknown hash; an item inserted and erased in one read window comes back, and one erased and
inserted again may be lost; a sync message that ends in a transaction without short ids loses its
reply; the differential index of a prefilled transaction is divided by six; a transaction of a
compact block that is in the pool without contents is listed as missing twice, colliding compact
ids can fail the final check or pass it with a wrong list, and a failed check leaves the pool with
a reader inside.

`dafny verify dfyconfig.toml` checks everything.

## Model

| member | source | states |
|---|---|---|
| `Bytes.LittleEndianRoundTrip` | lib/libutils/utils/common/buffer_helper.h:17-27 | a little-endian integer of n bytes is read back |
| `Bytes.LittleEndianOnto` | lib/libutils/utils/common/buffer_helper.h:17-27 | any n bytes are the little-endian form of the number they are read as |
| `Bytes.BigEndianRoundTrip` | lib/libutils/utils/common/buffer_helper.h:43-55 | a big-endian integer of n bytes is read back |
| `Bytes.BigEndianLeadingByte` | lib/libutils/utils/encoding/rlp_encoder.h:125-127 | a big-endian number starts with a non-zero byte exactly when it needs all its bytes |
| `Buffers.ByteArray.Reserve` | lib/libutils/utils/common/byte_array.cpp:146-151 | capacity never shrinks; new room is zeroed and the old bytes stay |
| `Buffers.ByteArray.Resize` | lib/libutils/utils/common/byte_array.cpp:195-198 | sets the length and erases nothing, so a later longer length uncovers stale bytes |
| `Buffers.ByteArray.Clear` | lib/libutils/utils/common/byte_array.cpp:200-208 | zeroes the contents and one byte more, and nothing at all at length zero |
| `Buffers.ByteArray.Reset` | lib/libutils/utils/common/byte_array.cpp:190-193 | drops the contents but keeps every byte of the store |
| `Buffers.ByteArray.CopyFromArray` | lib/libutils/utils/common/byte_array.cpp:230-247 | overwrites one window and sets the length to its end, even if that shrinks it |
| `Buffers.ByteArray.CopyFromBuffer` | lib/libutils/utils/common/byte_array.cpp:249-262 | overwrites one window, grows the length if needed, and fails exactly on an empty source position or an empty buffer |
| `Buffers.ByteArray.AppendView` | lib/libutils/utils/common/byte_array.cpp:84-90 | appends a view; fails on an empty one after growing nothing |
| `Buffers.ByteArray.Append` | lib/libutils/utils/common/byte_array.cpp:76-82 | the contents become the old ones followed by those of the other buffer |
| `Buffers.ByteArray.Put` | lib/libutils/utils/common/buffer_helper.h:57-69 | stores the bytes of a fixed-width integer and grows the length if needed |
| `Buffers.CopyElsewhere` | lib/libutils/utils/common/byte_array.cpp:230-262 | both copies leave every window outside their target as it was |
| `BtcTx.VarintRoundTrip` | lib/libutils/utils/protocols/bitcoin/btc_message_helper.h:17-95 | every 64-bit value is read back from its varint, with the offset behind it |
| `BtcTx.VarintLocal` | lib/libutils/utils/protocols/bitcoin/btc_message_helper.h:17-60 | a varint reads the same wherever its bytes stand |
| `BtcTx.GetNextTxOffset` | lib/libutils/utils/protocols/bitcoin/btc_tx_in_block.cpp:19-31 | the loops compute the specification of the walk over one transaction |
| `BtcTx.GetTxIoCountAndOffset` | lib/libutils/utils/protocols/bitcoin/btc_tx_in_block.cpp:34-68 | the nested loops over inputs, outputs and witness stacks, and where each read runs out |
| `BtcTx.SkipFieldsLoop` | lib/libutils/utils/protocols/bitcoin/btc_tx_in_block.cpp:45-55 | one loop over counted scripts equals the recursive walk |
| `BtcTx.ParseTxAdvances` | lib/libutils/utils/protocols/bitcoin/btc_tx_in_block.cpp:19-68 | the walk moves on by at least the fixed parts of a transaction |
| `BtcTx.ParseTxLocal` | lib/libutils/utils/protocols/bitcoin/btc_tx_in_block.cpp:19-68 | locality: end and witness offset depend on the bytes of the transaction alone, at any position in any surroundings |
| `BtcTx.SegwitFlagExact` | lib/libutils/utils/protocols/bitcoin/btc_message_helper.h:121-138 | a legacy transaction is taken for segwit exactly when it has no inputs and one output |
| `BtcTx.ParseTxCorrect` | lib/libutils/utils/protocols/bitcoin/btc_tx_in_block.cpp:19-68 | every other transaction, legacy or segwit, is parsed to exactly its end and witness offset from its BIP 144 serialization |
| `BtcTx.LooksSegwitMisparsed` | lib/libutils/utils/protocols/bitcoin/btc_message_helper.h:121-138 | a concrete transaction without inputs that is misparsed |
| `BtcTx.TxIdPreimageIsStripped` | lib/libutils/utils/protocols/bitcoin/btc_message_helper.h:140-158 | the hashed bytes are the witness-free serialization that section "Transaction ID" of BIP 141 asks for |
| `BtcTx.ReadRightExact` | lib/libutils/utils/protocols/bitcoin/btc_message_helper.h:121-158 | a transaction is walked to its end with the right bytes for its id exactly if it does not look like segwit |
| `BtcTx.TxIdPreimageLocal` | lib/libutils/utils/protocols/bitcoin/btc_message_helper.h:140-158 | the hashed bytes do not depend on where the transaction stands |
| `Partition.TaskIndexNext` | lib/libtpe/tpe/task/btc_block_compression_task.cpp:183-199 | the index of the current sub-task rises by at most one, and only when a full bulk lies behind |
| `ParallelCopy.ChunksDisjoint` | lib/libtpe/tpe/task/sub_task/btc_block_decompression_sub_task.cpp:34-61 | no two chunks of the output share a byte |
| `ParallelCopy.RunInv` | lib/libtpe/tpe/task/btc_block_decompression_task.cpp:158-213 | the invariant of every state of every interleaving of dispatching, header copy and sub-task copies |
| `ParallelCopy.SubTasksNeverResize` | lib/libtpe/tpe/task/btc_block_decompression_task.cpp:198-211 | in no interleaving does a Bitcoin sub-task change the length or capacity of the shared buffer |
| `ParallelCopy.DoneContents` | lib/libtpe/tpe/task/btc_block_decompression_task.cpp:120-132 | when all are done the buffer holds the header and the chunks in order, and nothing behind |
| `ParallelCopy.ScheduleIndependent` | lib/libtpe/tpe/task/sub_task/btc_block_decompression_sub_task.cpp:34-61 | every interleaving of the copy steps ends with the same bytes as sequential expansion |
| `ParallelCopy.Progress` | lib/libtpe/tpe/task/btc_block_decompression_task.cpp:120-132 | no interleaving gets stuck before everything is done |
| `ParallelCopy.RunsTerminate` | lib/libtpe/tpe/task/btc_block_decompression_task.cpp:120-132 | every action uses up exactly one of the remaining ones |
| `ParallelCopy.EverySchedule` | lib/libtpe/tpe/task/btc_block_decompression_task.cpp:120-132 | every interleaving takes the same number of actions, can go on until it is done, and then the buffer holds header and chunks |
| `BtcCompression.SubTask.Emit` | lib/libtpe/tpe/task/sub_task/btc_block_compression_sub_task.cpp:64-102 | marker and short id, or the bytes of the transaction |
| `BtcCompression.SubTask.Execute` | lib/libtpe/tpe/task/sub_task/btc_block_compression_sub_task.cpp:58-107 | the output and short ids are the left-to-right compression of the offset list, judged by the clock the sub-task reads; fails exactly at offsets behind the block |
| `BtcCompression.Context.BulkAppend` | lib/libtpe/tpe/task/btc_block_compression_task.cpp:127-131 | compressing two consecutive bulks and concatenating is compressing them together |
| `BtcCompression.InitListsExact` | lib/libtpe/tpe/task/btc_block_compression_task.cpp:142-172 | the offset lists start empty exactly if the pool does not grow over lists of an earlier block |
| `BtcCompression.SameBlockWrong` | lib/libtpe/tpe/task/btc_block_compression_task.cpp:147-171 | a concrete block that, compressed again by the same task on a grown pool, gives a wrong message |
| `BtcCompression.CompressionExact` | lib/libtpe/tpe/task/btc_block_compression_task.cpp:112-140 | the message made of the outputs of the sub-tasks, whatever their lists, is the left-to-right compression exactly if no enqueued one has anything left in its list |
| `BtcCompression.SequentialExact` | lib/libtpe/tpe/task/btc_block_compression_task.cpp:142-202 | so, seen from the call: exactly if the pool does not grow over an offset of an earlier block in the list of an enqueued sub-task |
| `BtcCompression.CleanWorksInside` | lib/libtpe/tpe/task/btc_block_compression_task.cpp:183-199 | with clean lists no sub-task reads past the block exactly if the transactions end inside it |
| `BtcCompression.CompressionTask.Init` | lib/libtpe/tpe/task/btc_block_compression_task.cpp:29-52 | the buffer is emptied, or replaced when a caller still holds the last result |
| `BtcCompression.CompressionTask.DispatchLoop` | lib/libtpe/tpe/task/btc_block_compression_task.cpp:174-202 | each transaction goes to exactly one sub-task, the bulks tile the block, and every sub-task up to the last is enqueued exactly once, in order |
| `BtcCompression.CompressionTask.CollectAll` | lib/libtpe/tpe/task/btc_block_compression_task.cpp:127-131 | the outputs and short ids of the enqueued sub-tasks in their order; fails exactly where one reads past the block |
| `BtcCompression.CompressionTask.SetOutputBuffer` | lib/libtpe/tpe/task/btc_block_compression_task.cpp:219-240 | length word in front, short id list behind, everything between untouched |
| `BtcCompression.CompressionTask.Execute` | lib/libtpe/tpe/task/btc_block_compression_task.cpp:112-140 | for any pool size, minimal count, clocks, stale buffers and offset lists the result is what the enqueued sub-tasks make of their lists, and the left-to-right compression exactly if nothing of an earlier block is left in these; fails exactly on a block that cannot be walked or that a sub-task would read past |
| `ShortIdLists.DeserializeShortIds` | lib/libutils/utils/protocols/bitcoin/bx_btc_block_message.cpp:65-94 | reads the list, or fails exactly when the message has no room for the announced count |
| `ShortIdLists.SidListReadBack` | lib/libtpe/tpe/task/btc_block_compression_task.cpp:228-239 | a written short id list is read back |
| `Bulks.GetMissingTransactions` | lib/libtpe/tpe/service/transaction_service.cpp:257-278 | success exactly if all short ids are known with contents; the lists of unknown hashes and short ids in order |
| `Bulks.NothingMissing` | lib/libtpe/tpe/service/transaction_service.cpp:257-278 | both lists are empty exactly if every short id is known with its contents |
| `BtcDecompression.ItemsShape` | lib/libutils/utils/protocols/bitcoin/bx_btc_block_message.cpp:38-55 | the markers are exactly the items of one byte |
| `BtcDecompressionTask.OutputCapacitySuffices` | lib/libtpe/tpe/task/btc_block_decompression_task.cpp:31-44 | the prepared capacity holds the announced block exactly unless a buffer of four gigabytes or more is replaced and the 32-bit cut is too small |
| `BtcDecompressionTask.DecompressionTask.Init` | lib/libtpe/tpe/task/btc_block_decompression_task.cpp:25-51 | the capacity the buffer is prepared with, and that it is emptied or replaced |
| `BtcDecompressionTask.DecompressionTask.InitSubTasks` | lib/libtpe/tpe/task/btc_block_decompression_task.cpp:135-156 | every record starts clear, of old and new sub-tasks alike |
| `BtcDecompressionTask.DecompressionTask.ExtendOutputBuffer` | lib/libtpe/tpe/task/btc_block_decompression_task.cpp:248-262 | fails exactly beyond the capacity and never moves a byte |
| `BtcDecompressionTask.DecompressionTask.Dispatch` | lib/libtpe/tpe/task/btc_block_decompression_task.cpp:158-213 | records tile items, short ids and output, the first item of a new bulk going to the sub-task before; fails exactly when items, short ids or capacity run out; each extension reaches where the next sub-task begins |
| `Bulks.SpreadingMoves` | lib/libtpe/tpe/task/btc_block_decompression_task.cpp:197-205 | the completed record is right for its bulk when the index moves on |
| `BtcDecompressionTask.DispatchedReady` | lib/libtpe/tpe/task/btc_block_decompression_task.cpp:110-133 | what the dispatch loop leaves behind is a plan all of whose interleavings are covered |
| `BtcDecompressionTask.AnySchedule` | lib/libtpe/tpe/task/btc_block_decompression_task.cpp:110-133 | every schedule of main thread and sub-tasks, for any bulks and stale bytes, is finite, never stuck, and ends with the block that sequential decompression gives |
| `BtcDecompressionTask.DecompressionTask.RunSubTask` | lib/libtpe/tpe/task/sub_task/btc_block_decompression_sub_task.cpp:34-68 | a sub-task performs exactly the copy actions of its bulk; fails exactly on empty contents |
| `BtcDecompressionTask.DecompressionTask.Execute` | lib/libtpe/tpe/task/btc_block_decompression_task.cpp:110-133 | for any pool size, minimal count and stale bytes the outcome, error cases included, is the sequential meaning of the message |
| `BtcRoundTrip.RawItemExact` | lib/libutils/utils/protocols/bitcoin/bx_btc_block_message.cpp:38-55 | a transaction kept in full is found again exactly if it does not begin with the marker byte |
| `BtcRoundTrip.BtcRoundTrip` | lib/libtpe/tpe/task/btc_block_decompression_task.cpp:110-133 | decompressing the compression of any parsable block gives the block up to the end of its transactions, or fails if that exceeds the capacity; so the block is given back exactly if it ends there and fits |
| `BtcRoundTrip.BtcRoundTripPrepared` | lib/libtpe/tpe/task/btc_block_decompression_task.cpp:25-51 | the same from the freshly prepared task, when the length field of the block is right |
| `Rlp.GetLengthBytesSize` | lib/libutils/utils/encoding/rlp_encoder.cpp:6-17 | the shifting loop: up to four bytes as needed, eight beyond |
| `Rlp.PrefixCanonicalExact` | lib/libutils/utils/encoding/rlp_encoder.h:174-198 | the written prefix is the one of Appendix B of the Yellow Paper exactly below 2^32 and from 2^56 on |
| `Rlp.PrefixReadBackExact` | lib/libutils/utils/encoding/rlp_encoder.h:107-150 | a written prefix is read back exactly if its length has no leading zero and the payload is no byte that should have stood alone |
| `Rlp.PrefixWrittenBack` | lib/libutils/utils/encoding/rlp_encoder.h:107-150 | every accepted prefix of a string or list below 2^32 is the one that would be written |
| `Rlp.IntRoundTrip` | lib/libutils/utils/encoding/rlp_encoder.h:46-59 | every 64-bit number is read back by the integer decoder with the matching offset |
| `Rlp.IntCanonicalExact` | lib/libutils/utils/encoding/rlp_encoder.h:46-59 | the written number is the canonical encoding exactly for non-zero values below 2^32 or from 2^56 on |
| `RlpLists.GetRlpList` | lib/libutils/utils/encoding/rlp.cpp:93-114 | the items of the list, or the failure where a prefix is rejected, also that of an object read again because it has no length |
| `RlpLists.SplitEncoded` | lib/libutils/utils/encoding/rlp.cpp:93-114 | splitting the encoding of any list gives its items |
| `RlpLists.ItemsTile` | lib/libutils/utils/encoding/rlp.cpp:106-111 | the items tile the payload without gap or overlap |
| `RlpLists.ItemsShowPayloads` | lib/libutils/utils/encoding/rlp.cpp:116-125 | the string view of each item is the string that was encoded |
| `RlpLists.ListSplits` | lib/libutils/utils/encoding/rlp.cpp:93-114 | a list anywhere in a buffer, read by an object made for that position, splits into its items |
| `RlpLists.StringViewRight` | lib/libutils/utils/encoding/rlp.cpp:116-125 | the string view is right when the payload offset counts from the item |
| `RlpLists.StringViewExact` | lib/libutils/utils/encoding/rlp.cpp:15-17 | for an object made at a position: which bytes the view shows, when it throws, and that for an item at the end of the buffer it is right exactly at the beginning |
| `RlpLists.StringViewAtPositionWrong` | lib/libutils/utils/encoding/rlp.cpp:15-17 | a concrete object made at a later position that counts the position twice and finds nothing |
| `RlpLists.SplitAgainExact` | lib/libutils/utils/encoding/rlp.cpp:93-114 | an object whose payload offset counts from the item is split into its items exactly if it stands at the beginning |
| `RlpLists.NestedSplitExact` | lib/libutils/utils/encoding/rlp.cpp:93-114 | a list inside a list is split into its items exactly if it has none or stands at the beginning |
| `RlpLists.NestedSplitWrong` | lib/libutils/utils/encoding/rlp.cpp:93-114 | a concrete list inside a list that is split into itself |
| `EthFraming.SlackExact` | lib/libtpe/tpe/task/eth_block_compression_task.cpp:116-118 | sixteen bytes hold the two back-filled prefixes exactly if the transactions take less than four gigabytes |
| `EthFraming.PutInFront` | lib/libtpe/tpe/task/eth_block_compression_task.cpp:211-214 | a prefix goes in front of what stands there, by an operation that shrinks the length but keeps the bytes |
| `EthFraming.BackFill` | lib/libtpe/tpe/task/eth_block_compression_task.cpp:207-235 | prefixes, header and trailer form the frame around the transactions and take exactly their own length of the reserved room; fails exactly when that does not suffice |
| `EthCompression.RegularExact` | lib/libutils/utils/protocols/ethereum/eth_block_message.cpp:61-95 | a block below four gigabytes is the canonical frame of its parts exactly if its outer item is a list that spans it and its transactions are a list |
| `EthCompression.CompressionTask.Emit` | lib/libtpe/tpe/task/eth_block_compression_task.cpp:138-201 | each transaction becomes the two-element list of marker or full bytes |
| `EthCompression.CompressionTask.WriteTxs` | lib/libtpe/tpe/task/eth_block_compression_task.cpp:138-205 | the loop over the block writes the left-to-right compression; fails exactly when an item is rejected or outside the block |
| `EthCompression.CompressionTask.Execute` | lib/libtpe/tpe/task/eth_block_compression_task.cpp:107-259 | from the starting offset on the buffer holds length word, frame and short ids; fails exactly on a rejected block and when the compressed transactions reach four gigabytes |
| `EthDecompression.DecompressionTask.Dispatch` | lib/libtpe/tpe/task/eth_block_decompression_task.cpp:144-204 | the records tile the items; the last bulk is not extended beforehand; fails exactly when items or short ids run out or the buffer cannot be extended up to the last bulk |
| `EthDecompression.DecompressionTask.RunSubTask` | lib/libtpe/tpe/task/sub_task/eth_block_decompression_sub_task.cpp:63-96 | a sub-task performs exactly the copy actions of its bulk, empty pieces skipped |
| `EthDecompression.AnySchedule` | lib/libtpe/tpe/task/sub_task/eth_block_decompression_sub_task.cpp:63-96 | every schedule, for any bulks and stale bytes, is finite, never stuck, and ends with the transactions where the frame is written around them |
| `EthDecompression.DecompressionTask.SetOutputBuffer` | lib/libtpe/tpe/task/eth_block_decompression_task.cpp:219-257 | writes the frame around transactions that got there by any schedule; fails exactly when they reach four gigabytes |
| `EthDecompression.CapacitySuffices` | lib/libtpe/tpe/task/eth_block_decompression_task.cpp:259-271 | a capacity for the reserved room and the transactions suffices |
| `EthDecompression.DecompressionTask.Execute` | lib/libtpe/tpe/task/eth_block_decompression_task.cpp:110-130 | the outcome for any pool size, capacity and stale bytes, errors and missing transactions included; from its starting offset on the output is the sequential meaning of the message |
| `EthRoundTrip.FullItemExact` | lib/libutils/utils/protocols/ethereum/bx_eth_block_message.cpp:41-50 | a full transaction is found at its place, except a single byte below 128 |
| `EthRoundTrip.EthRoundTripExact` | lib/libtpe/tpe/task/eth_block_decompression_task.cpp:219-257 | decompressing the compression gives the block exactly if the compressed frame is below 2^32, the transactions end with their list, and no transaction kept in full is a byte below 128 |
| `EthRoundTrip.PayloadGrowth` | lib/libtpe/tpe/task/eth_block_compression_task.cpp:174-201 | compression makes a frame at most four times as long |
| `EthRoundTrip.EthRegularExact` | lib/libtpe/tpe/task/eth_block_decompression_task.cpp:219-257 | when nothing else is in the way exactly the regular blocks are given back |
| `EthRoundTrip.EthRoundTrip` | lib/libtpe/tpe/task/eth_block_decompression_task.cpp:110-130 | every regular block whose compressed frame is below 2^32 is compressed and given back without running out of room or capacity, for any pool size |
| `EthRoundTrip.SmallBlocks` | lib/libtpe/tpe/task/eth_block_compression_task.cpp:174-201 | blocks below one gigabyte have such a frame, whatever is replaced |
| `OrderedMaps.OrderedMap.Emplace` | lib/libutils/utils/common/ordered_map.h:51-60 | appends a new key and leaves a known one alone; index and list stay in step |
| `OrderedMaps.OrderedMap.Find` | lib/libutils/utils/common/ordered_map.h:81-88 | looks up the association list through the index |
| `OrderedMaps.OrderedMap.Erase` | lib/libutils/utils/common/ordered_map.h:107-115 | takes out the one entry by its handle and reports how many |
| `OrderedMaps.OrderedMap.Begin` | lib/libutils/utils/common/ordered_map.h:73-75 | the oldest entry |
| `OrderedMaps.LinkedUnlink` | lib/libutils/utils/common/ordered_map.h:107-115 | unlinking a node keeps every other handle valid |
| `OrderedMaps.LookupEmplaced` | lib/libutils/utils/common/ordered_map.h:51-60 | the first write of a key wins and no other key is touched |
| `OrderedMaps.LookupErased` | lib/libutils/utils/common/ordered_map.h:107-115 | erasing forgets one key and no other |
| `OrderedMaps.SortedErased` | lib/libutils/utils/common/ordered_map.h:107-115 | erasing keeps the times in order |
| `OrderedMaps.DropExpiredExact` | lib/libtpe/tpe/service/transaction_service.cpp:1013-1030 | dropping the front removes all expired entries exactly if these are all in front |
| `OrderedMaps.ClearSenderNonce` | lib/libtpe/tpe/service/transaction_service.cpp:1013-1030 | drops the expired front and returns the exact number |
| `OrderedMaps.ClearedExactly` | lib/libtpe/tpe/service/transaction_service.cpp:1013-1030 | with times in order exactly the nonces up to the time go |
| `OrderedMaps.CleanupHistory` | interface/bxextensions/task_pool_executor/src/service/transaction_service.cpp:24-51 | both cleanups keep the newest entries up to the size cap without their expired front |
| `OrderedMaps.RecentExact` | interface/bxextensions/task_pool_executor/src/service/transaction_service.cpp:24-51 | with times in order exactly the unexpired ones among the newest are kept |
| `BucketContainers.StepKeeps` | lib/libutils/utils/concurrency/safe_bucket_container.h:61-127 | every operation keeps buckets and queues in step with a plain set |
| `BucketContainers.SettledRun` | lib/libutils/utils/concurrency/safe_bucket_container.h:72-89 | after any orderly run, with nobody reading, buckets are disjoint and their union is the sequential set |
| `BucketContainers.PendingMeansReading` | lib/libutils/utils/concurrency/safe_bucket_container.h:57-70 | queued writes imply an active reader, over every run |
| `BucketContainers.FrozenWhileRead` | lib/libutils/utils/concurrency/safe_bucket_container.h:91-111 | no bucket changes while anybody reads, over every run |
| `BucketContainers.SafeBucketContainer.constructor` | lib/libutils/utils/concurrency/safe_bucket_container.h:30-46 | starts empty and in step |
| `BucketContainers.SafeBucketContainer.TakeRead` | lib/libutils/utils/concurrency/safe_bucket_container.h:61-70 | the step of a reader whose wait is over |
| `BucketContainers.SafeBucketContainer.LeaveRead` | lib/libutils/utils/concurrency/safe_bucket_container.h:72-89 | the last reader carries out additions, then removals |
| `BucketContainers.SafeBucketContainer.Insert` | lib/libutils/utils/concurrency/safe_bucket_container.h:91-98 | queues while read, inserts with bucket rotation otherwise |
| `BucketContainers.SafeBucketContainer.InsertToContainer` | lib/libutils/utils/concurrency/safe_bucket_container.h:177-183 | a full bucket makes the next one current, and that takes the item even if full |
| `BucketContainers.SafeBucketContainer.FindBucket` | lib/libutils/utils/concurrency/safe_bucket_container.h:197-205 | the first bucket that holds the item |
| `BucketContainers.SafeBucketContainer.Erase` | lib/libutils/utils/concurrency/safe_bucket_container.h:100-112 | queues the removal with its bucket while read, removes from the first bucket otherwise |
| `BucketContainers.SafeBucketContainer.Clear` | lib/libutils/utils/concurrency/safe_bucket_container.h:114-127 | empties every bucket, or queues the removal of all items in the order met |
| `ReadWindows.WindowExact` | lib/libutils/utils/concurrency/safe_bucket_container.h:73-88 | which items are there once all readers have left, for any number of readers and any queues: those in a bucket or landing in one from which they are not queued for removal |
| `ReadWindows.WindowQueues` | lib/libutils/utils/concurrency/safe_bucket_container.h:91-127 | any run that leaves a reader inside queues its additions and removals in order, the removals by where the frozen buckets hold the items |
| `ReadWindows.AbsentItemExact` | lib/libutils/utils/concurrency/safe_bucket_container.h:100-112 | after any read window an item that no bucket held is there exactly if it was inserted: erasing it is lost |
| `ReadWindows.PresentItemExact` | lib/libutils/utils/concurrency/safe_bucket_container.h:78-87 | after any read window an item of a bucket is there exactly if it was never erased or cleared, or landed in another bucket |
| `ReadWindows.EraseThenInsertExact` | lib/libutils/utils/concurrency/safe_bucket_container.h:78-87 | erased and inserted again an item survives exactly if the bucket it goes to, behind all queued additions, is neither its own nor one it was queued for removal from |
| `ReadWindows.ErasedAndInsertedLost` | lib/libutils/utils/concurrency/safe_bucket_container.h:78-87 | a concrete pool that loses an item erased and inserted again |
| `ReadWindows.LeftOpen` | lib/libutils/utils/concurrency/safe_bucket_container.h:61-87 | if a reader never leaves, no queued write is ever carried out, and with one queued no other reader gets in until a stop |
| `PoolTracking.ReadersKeepTracked` | lib/libutils/utils/concurrency/safe_bucket_container.h:61-89 | entering and leaving, flush included, keep the pool within the known hashes and its buckets disjoint |
| `PoolTracking.EraseForgets` | lib/libtpe/tpe/service/transaction_to_short_ids_map.cpp:29-32 | a hash that is not queued for addition may be forgotten when it is taken out |
| `PoolTracking.ErasedComesBackExact` | lib/libutils/utils/concurrency/safe_bucket_container.h:78-87 | a hash taken out while it is queued for addition is in the pool when all readers have left, exactly if it lands in a bucket from which it is not queued for removal |
| `ContentMaps.ContentMap.EmplaceExact` | lib/libutils/utils/common/map_wrapper.h:140-148 | emplacing keeps the byte count right exactly for an absent key or an empty value |
| `ContentMaps.EmplacedTwice` | lib/libutils/utils/common/map_wrapper.h:140-148 | a value emplaced twice is counted twice |
| `ContentMaps.ContentMap.EraseKeeps` | lib/libutils/utils/common/map_wrapper.h:154-161 | erasing keeps the count right and frees the size of the entry |
| `ContentMaps.MapWrapper.Emplace` | lib/libutils/utils/common/map_wrapper.h:140-148 | the tracker counts before the map decides |
| `ContentMaps.MapWrapper.Erase` | lib/libutils/utils/common/map_wrapper.h:154-161 | the tracker is told of removed values only |
| `ContentMaps.MapWrapper.Clear` | lib/libtpe/tpe/service/transaction_service.h:81-95 | clearing empties the map and sets the count to zero |
| `ServiceIndex.AssignKeeps` | lib/libtpe/tpe/service/transaction_service.cpp:160-178 | assignment keeps the index: maps mutually inverse, no empty set, no null id, times and short ids with the same keys, pool within the index, bytes counted |
| `ServiceIndex.ContentsKeep` | lib/libtpe/tpe/service/transaction_service.cpp:180-195 | so does storing contents |
| `ServiceIndex.RemoveHashExact` | lib/libtpe/tpe/service/transaction_service.cpp:334-355 | removal by hash keeps the index exactly if the hash is not queued for the pool |
| `ServiceIndex.RemoveSidExact` | lib/libtpe/tpe/service/transaction_service.cpp:357-397 | removal by short id keeps it exactly if the hash of the short id is not queued for the pool |
| `ServiceIndex.RemovedComesBackExact` | lib/libtpe/tpe/service/transaction_service.cpp:334-355 | what comes of a queued hash that was removed: with all readers gone the pool holds it, unknown, exactly if the bucket it lands in is none it is queued for removal from |
| `ServiceIndex.RemoveHashForgets` | lib/libtpe/tpe/service/transaction_service.cpp:334-355 | what a removal forgets, that it forgets nothing else, and the bytes it frees |
| `ServiceIndex.RemoveSidIsRemoveHash` | lib/libtpe/tpe/service/transaction_service.cpp:357-397 | removal by short id is removal of its hash, but for the time of the hash |
| `ServiceRemoval.RemovalEquivalence` | lib/libtpe/tpe/service/transaction_service.cpp:334-397 | both removals leave the same containers up to the order of the removal history, and report exactly the sibling short ids |
| `ServiceRemoval.HashOrderDoesNotMatter` | lib/libtpe/tpe/service/transaction_service.cpp:340-344 | the order in which the short ids of a hash are met changes only the order of the history |
| `ServiceRemoval.FreedByHashesExact` | lib/libtpe/tpe/service/transaction_service.cpp:326-332 | the bytes returned by a list removal equal the decrease of the tracker |
| `ServiceRemoval.FreedBySidsExact` | lib/libtpe/tpe/service/transaction_service.cpp:307-312 | the bytes summed over a finished block equal the decrease of the tracker |
| `ServiceRemoval.RemovedSidsExact` | lib/libtpe/tpe/service/transaction_service.cpp:307-312 | removing the transactions of a block keeps the index exactly if none of their hashes is queued for the pool |
| `ServiceRemoval.SeenBlockExact` | lib/libtpe/tpe/service/transaction_service.cpp:294-316 | seeing a block frees what it reports, and keeps the index exactly if, when the window is full, no hash of the block that leaves it is queued for the pool |
| `BlockWindows.FirstSeenFirstFinished` | lib/libtpe/tpe/service/transaction_service.cpp:294-324 | over any run of the service that starts below the confirmation count fewer blocks than that are tracked, and blocks are finished in first-seen order, whatever is cleaned up, cleared, removed and delivered in between |
| `ServiceMessages.IgnoredNothingNew` | lib/libtpe/tpe/service/transaction_service.cpp:922-945 | an ignore-seen verdict drops nothing new |
| `ServiceMessages.PeerKeepsIndexExact` | lib/libtpe/tpe/service/transaction_service.cpp:478-485 | a peer message keeps the index exactly if it does not bring new contents of an unindexed hash under a short id of another hash |
| `ServiceMessages.BdnAndNodeKeepIndex` | lib/libtpe/tpe/service/transaction_service.cpp:498-556 | the other two handlers always keep it |
| `ServiceMessages.ProcessedIsJoin` | lib/libtpe/tpe/service/transaction_service.cpp:408-556 | in a functional world each handler does to the containers exactly what the join with the message does |
| `ServiceMessages.Confluence` | lib/libtpe/tpe/service/transaction_service.cpp:408-619 | runs that bring the same contents and short ids, by whichever handlers and in whatever order, end with the same maps |
| `ServiceMessages.SameMessagesSameMaps` | lib/libtpe/tpe/service/transaction_service.cpp:408-619 | in particular order and repetition of the messages do not matter |
| `ServiceMessages.RemovedIsGone` | lib/libtpe/tpe/service/transaction_service.cpp:334-355 | a removed hash is in the history and in none of the maps |
| `ServiceMessages.RemovedSidIsGone` | lib/libtpe/tpe/service/transaction_service.cpp:357-397 | so is one removed by short id |
| `ServiceMessages.GoneStaysGone` | lib/libtpe/tpe/service/transaction_service.cpp:891-893 | no message of any handler brings a removed hash back |
| `ServiceMessages.GoneThroughoutRun` | lib/libtpe/tpe/service/transaction_service.cpp:408-619 | nor does any sequence of messages |
| `ServiceRuns.ClearExact` | lib/libtpe/tpe/service/transaction_service.cpp:399-406 | clearing keeps the index exactly if nothing is queued for the pool |
| `ServiceRuns.OpIndexExact` | lib/libtpe/tpe/service/transaction_service.cpp:160-556 | each public operation keeps the index exactly if it forgets no hash queued for the pool and is no stray message |
| `ServiceRuns.OpFunctional` | lib/libtpe/tpe/service/transaction_service.cpp:160-406 | every public operation keeps short ids functional |
| `ServiceRuns.RunIndexExact` | lib/libtpe/tpe/service/transaction_service.cpp:160-619 | the index holds throughout a run exactly if no operation of it is disturbed |
| `ServiceRuns.RunKeepsIndex` | lib/libtpe/tpe/service/transaction_service.cpp:160-619 | at the end of such a run the index holds, and with nobody reading the pool is within the index |
| `ServiceRuns.FunctionalRun` | lib/libtpe/tpe/service/transaction_service.cpp:160-619 | with functional short ids only hashes queued for the pool can disturb a run |
| `ServiceRuns.UnreadRunKeepsIndex` | lib/libtpe/tpe/service/transaction_service.cpp:160-619 | while the pool is not read every run with functional short ids keeps the index throughout |
| `ServiceRuns.TwoPeersDisturb` | lib/libtpe/tpe/service/transaction_service.cpp:408-496 | two peers that offer one short id for two new transactions break the index |
| `ServiceRuns.RemovalWhileReadDisturbs` | lib/libtpe/tpe/service/transaction_service.cpp:334-355 | a hash that is assigned a short id and removed while the pool is read breaks the index |
| `ShortIdMaps.Sha256ToShortIdsMap.Access` | lib/libtpe/tpe/service/transaction_to_short_ids_map.cpp:17-27 | an unknown hash gets an empty set and enters the linked pool |
| `ShortIdMaps.Sha256ToShortIdsMap.Erase` | lib/libtpe/tpe/service/transaction_to_short_ids_map.cpp:29-32 | a hash leaves the map and the pool |
| `ShortIdMaps.Sha256ToShortIdsMap.Clear` | lib/libtpe/tpe/service/transaction_to_short_ids_map.cpp:34-37 | all hashes leave both, while the pool is read as queued removals |
| `NodeReplies.SeenBeforeExact` | lib/libtpe/tpe/service/transaction_service.cpp:577-579 | a transaction of a node counts as seen exactly if it was known or removed before the message, or stands earlier in it |
| `NodeReplies.ReplyReadBack` | lib/libtpe/tpe/service/transaction_service.cpp:567-608 | the reply tells for every transaction the seen flag, hash, place and verdict, at places that follow from its number |
| `TransactionServices.TransactionService.constructor` | lib/libtpe/tpe/service/transaction_service.h:97-129 | a new service satisfies the index |
| `TransactionServices.TransactionService.AssignShortId` | lib/libtpe/tpe/service/transaction_service.cpp:160-178 | the method updates the containers as the specification says |
| `TransactionServices.TransactionService.SetTransactionContents` | lib/libtpe/tpe/service/transaction_service.cpp:180-195 | likewise, with the reported size of known contents |
| `TransactionServices.TransactionService.RemoveTransactionByHash` | lib/libtpe/tpe/service/transaction_service.cpp:334-355 | likewise, with the length of the removed contents |
| `TransactionServices.TransactionService.RemoveTransactionsByHashes` | lib/libtpe/tpe/service/transaction_service.cpp:326-332 | likewise, with the total |
| `TransactionServices.TransactionService.RemoveTransactionByShortId` | lib/libtpe/tpe/service/transaction_service.cpp:357-397 | likewise, with the duplicates appended |
| `TransactionServices.TransactionService.TrackSeenShortIds` | lib/libtpe/tpe/service/transaction_service.cpp:294-316 | likewise, with the bytes and duplicates of the finished block |
| `TransactionServices.TransactionService.OnBlockCleanedUp` | lib/libtpe/tpe/service/transaction_service.cpp:318-320 | the block is no longer in the window; every other block keeps its short ids and the order stays |
| `TransactionServices.TransactionService.Clear` | lib/libtpe/tpe/service/transaction_service.cpp:399-406 | all containers but the histories are emptied |
| `TransactionServices.TransactionService.GetStatus` | lib/libtpe/tpe/service/transaction_service.cpp:877-950 | the status flags of a peer message, set step by step, are those of the specification |
| `TransactionServices.TransactionService.ProcessTransactionMsg` | lib/libtpe/tpe/service/transaction_service.cpp:408-496 | the containers follow the status flags and the verdict, and everything that is reported: status, existing short ids, known contents, what was set or assigned |
| `TransactionServices.TransactionService.ProcessGatewayTransactionFromBdn` | lib/libtpe/tpe/service/transaction_service.cpp:498-556 | the containers, and when each of the reported flags is set; an ignored message changes nothing |
| `TransactionServices.TransactionService.ProcessGatewayTransactionFromNode` | lib/libtpe/tpe/service/transaction_service.cpp:558-612 | the containers after the loop over the parsed transactions, and the reply, which takes exactly the room reserved for it |
| `TransactionServices.TransactionService.TakeNodeTx` | lib/libtpe/tpe/service/transaction_service.cpp:574-608 | one transaction of a node and its part of the reply |
| `TxSync.TxReadBackExact` | lib/libtpe/tpe/service/transaction_service.cpp:769-814 | an encoded transaction is read back, except that one without short ids needs a byte behind it |
| `TxSync.TxsReadBackExact` | lib/libtpe/tpe/service/transaction_service.cpp:769-814 | so is the whole list |
| `TxSync.SyncReplicates` | lib/libtpe/tpe/service/transaction_service.cpp:755-819 | an empty service becomes a replica of any sender whose sync buffer it gets; the reply is lost exactly if the last transaction has no short ids and nothing follows |
| `TxSync.NodeTransactionLosesReply` | lib/libtpe/tpe/service/transaction_service.cpp:769-814 | a service that got one transaction from its node and no short id loses the reply to its sync message |
| `TxSyncMessages.GetTxSyncBuffer` | lib/libtpe/tpe/service/transaction_service.cpp:88-144 | the writer produces the encoding for some order of the maps, its skipped bytes being zero; fails exactly on empty contents that are to be sent |
| `TxSyncMessages.PutTx` | lib/libtpe/tpe/service/transaction_service.cpp:110-140 | one transaction of the buffer |
| `TxSyncMessages.ProcessTxSyncMessage` | lib/libtpe/tpe/service/transaction_service.cpp:755-819 | the reader updates the service and builds the reply as the specification says, errors included |
| `TxSyncMessages.TakeTx` | lib/libtpe/tpe/service/transaction_service.cpp:769-814 | one transaction of the message |
| `EndToEnd.LookupsSafe` | lib/libtpe/tpe/task/sub_task/btc_block_compression_sub_task.cpp:76-78 | the index makes the look-ups of compression safe |
| `EndToEnd.BtcSyncedRoundTrip` | lib/libtpe/tpe/service/transaction_service.cpp:755-819 | a service synchronized from the sender rebuilds the Bitcoin block the sender compressed |
| `EndToEnd.EthSyncedRoundTrip` | lib/libtpe/tpe/service/transaction_service.cpp:755-819 | the same for Ethereum blocks |
| `CompactBlockData.CompactBlockDataService.FillCompactIds` | lib/libtpe/tpe/service/compact_block_data_service.cpp:135-159 | appends the next compact ids and records each where it stands first |
| `CompactBlockData.CompactBlockDataService.Parse` | lib/libtpe/tpe/service/compact_block_data_service.cpp:48-89 | places compact ids and prefilled transactions; fails exactly if the differences ask for more ids than there are |
| `CompactBlockData.IdsOfPlaced` | lib/libtpe/tpe/service/compact_block_data_service.cpp:60-88 | the placeholders hold all compact ids in their order |
| `CompactBlockData.IndexRight` | lib/libtpe/tpe/service/compact_block_data_service.cpp:153-156 | the recorded index of every compact id is its placeholder position |
| `CompactBlockData.DistinctIndex` | lib/libtpe/tpe/service/compact_block_data_service.cpp:153-156 | with distinct compact ids every one is recorded, once |
| `CompactBlockData.DistinctExact` | lib/libtpe/tpe/service/compact_block_data_service.cpp:153-156 | as many compact ids are recorded as the block has exactly if they are distinct |
| `CompactBlockData.PrefilledPositionExact` | lib/libtpe/tpe/service/compact_block_data_service.cpp:81-85 | a prefilled transaction stands where BIP 152 puts it exactly if all differences up to its own are zero |
| `CompactMapping.StepKeeps` | lib/libtpe/tpe/task/sub_task/btc_compact_tx_mapping_sub_task.cpp:47-86 | every step of every sub-task keeps the invariant of the race |
| `CompactMapping.FinishedOutcome` | lib/libtpe/tpe/task/sub_task/btc_compact_tx_mapping_sub_task.cpp:47-86 | when all are finished, early stops included, every match with contents is resolved, the counter is their number, and the matches without contents are listed once each |
| `CompactMapping.ScheduleIndependent` | lib/libtpe/tpe/task/sub_task/btc_compact_tx_mapping_sub_task.cpp:47-86 | any two complete schedules end with the same placeholders and count, and the same list of matches without contents up to order |
| `CompactMapping.SchedulesEnd` | lib/libtpe/tpe/task/sub_task/btc_compact_tx_mapping_sub_task.cpp:47-86 | no schedule is longer than the work there was |
| `CompactAccounts.StepKept` | lib/libtpe/tpe/task/sub_task/btc_compact_tx_mapping_sub_task.cpp:47-86 | for any block and pool, collisions included, every step keeps the balance of list, count and claims, and that a claim is resolved, listed or about to be written |
| `CompactAccounts.FinishedAccounts` | lib/libtpe/tpe/task/sub_task/btc_compact_tx_mapping_sub_task.cpp:47-86 | so at the end of every schedule list and count make up the claims, and a claimed compact id that is missing is on the list |
| `CompactAccounts.CountExact` | lib/libtpe/tpe/task/btc_compact_block_mapping_task.cpp:97-114 | the final check passes exactly if as many claimed compact ids are missing as stand in the block more than once |
| `CompactCollisions.CleanOutcome` | lib/libtpe/tpe/task/sub_task/btc_compact_tx_mapping_sub_task.cpp:47-86 | if nothing that the buckets, each on its own, go through before the block is complete lacks its contents or has a compact id a second time, every schedule lists nothing and all come to the same placeholders and count |
| `CompactCollisions.CleanExact` | lib/libtpe/tpe/task/sub_task/btc_compact_tx_mapping_sub_task.cpp:47-86 | and exactly then: otherwise some schedule finds a duplicate or a lack of contents |
| `CompactCollisions.CollisionFails` | lib/libtpe/tpe/task/sub_task/btc_compact_tx_mapping_sub_task.cpp:58-76 | two hashes with one compact id in one bucket: the second takes the resolution back, and the place will be listed twice |
| `CompactCollisions.CollisionUnnoticed` | lib/libtpe/tpe/task/sub_task/btc_compact_tx_mapping_sub_task.cpp:58-76 | in two buckets the check may pass although a resolved place is listed |
| `CompactDispatch.Dispatch` | lib/libtpe/tpe/task/btc_compact_block_mapping_task.cpp:132-172 | exactly the non-empty buckets get sub-tasks, or the empty last one if there are none |
| `CompactDispatch.Sort` | lib/libtpe/tpe/task/btc_compact_block_mapping_task.cpp:107 | the indices in order, as a permutation |
| `CompactMappingTask.BtcCompactBlockMappingTask.PutPlaceholder` | lib/libtpe/tpe/task/sub_task/btc_compact_tx_mapping_sub_task.cpp:64-81 | the write of a placeholder and the counter in each case |
| `CompactMappingTask.BtcCompactBlockMappingTask.ExecuteSubTask` | lib/libtpe/tpe/task/sub_task/btc_compact_tx_mapping_sub_task.cpp:43-94 | a sub-task takes exactly the steps of the race until its bucket or the block is done |
| `CompactMappingTask.BtcCompactBlockMappingTask.CollectMissing` | lib/libtpe/tpe/task/btc_compact_block_mapping_task.cpp:97-114 | for any end of the race: when the check of the count passes; and it passes with the right sorted list exactly if no sub-task listed anything and all compact ids are different |
| `CompactMappingTask.FairRun` | lib/libtpe/tpe/task/btc_compact_block_mapping_task.cpp:75-117 | with different compact ids and one transaction each, every schedule resolves what is in the pool with contents, and nothing is listed exactly if all are |
| `CompactMappingTask.BtcCompactBlockMappingTask.Execute` | lib/libtpe/tpe/task/btc_compact_block_mapping_task.cpp:75-117 | for any block, service and pool: the result is the end of some schedule, when the check passes, and when with the right list; a failed check leaves the pool with a reader inside |

## Left out

- Hashing: double SHA-256, SipHash, Keccak and signature checks are uninterpreted functions or parameters.
- Reads beyond a buffer: the source reads past the end in several parsers; the model treats such a read as a failure, and does not model 64-bit wrap-around of offsets.
- 32-bit offset of the sync reader: messages are taken to be shorter than four gigabytes.
- Granularity of the shared buffer: one copy call of a sub-task is one atomic action, as is the write of a placeholder; torn writes inside a call are not modelled.
- The thread pool: enqueueing is nondeterministic, and load balancing is not modelled.
- Ethereum decompression waits for every sub-task of the pool, also for ones that were never enqueued: only what holds when it completes is stated.
- EthDecompression.DecompressionTask.Execute: a last bulk that outgrows the buffer makes it grow in the middle of a copy call, which is taken to be atomic; an offset that wraps around is a failure.
- EthCompression.CompressionTask.Execute: an offset that wraps around is a failure; the scratch buffers for prefixes are values.
- BtcRoundTrip.BtcRoundTrip: the receiver must hold the very bytes of each replaced transaction, because the transaction id does not cover the witness.
- EthCompression.Regular: blocks whose prefixes are not canonical, or whose outer list does not span them, are rebuilt with canonical prefixes and so not given back.
- The lists of ignored short ids of the compression tasks, which reused Bitcoin sub-tasks never clear.
- Block hashes, the previous block hash and the hash of the compressed block.
- The extra tenth of capacity that Ethereum compression reserves, and the memory-size accounting of all tasks.
- ByteArray made from a string, `from_str`, `from_array` and `shift_left`.
- Erasing by predicate in the bucket container, which changes a set while going over it.
- BucketContainers.SafeBucketContainer.TakeRead: the step a waiting reader takes; the wait itself is the condition under which the step is possible.
- Direct changes of the service's maps through exposed references, and the Python bindings.
- The sender nonce map inside the transaction validator: the verdict is a parameter.
- The parser of a node's message: its transactions are a parameter, and lie inside the message.
- `process_txs_msg`, `get_transactions_by_short_ids` and the JSON output.
- ServiceMessages.Confluence: for messages in time, without validation, whose hashes were not removed, and contents and short ids that are functional.
- TxSync.SyncReplicates: contents are not empty and below four gigabytes, and a transaction has fewer than 65536 short ids, where the 16-bit count would be cut.
- The bytes of a compact block message: its compact ids and prefilled transactions are taken as already read.
- The unsynchronized `push_back` of the mapping sub-tasks into the shared list: it is taken to be atomic. By `CompactCollisions.CleanExact` there is none in any schedule exactly if the race is clean.
- CompactMappingTask.BtcCompactBlockMappingTask.Execute: short ids of known transactions are not null, and the service's maps do not change while the sub-tasks run.
- Compact block compression, and the sub-task's copy of contents being a copy.
- Ontology blocks and the consensus messages.

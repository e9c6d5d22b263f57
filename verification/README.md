# A model of the KacheDB client

KacheDB's Python client holds a few stateful algorithms whose correctness a reader cannot see from
any one function.  This project models them and proves what they are for.

**The KV-cache tier.**  `Ring` is the bump-pointer ring of `dma.py` as a function of the list of
slots ever written (a *run*), so a theorem about a run is a theorem about every reachable state.
`Tensors`, `Descriptors` and `Dma` add tensor bytes, the 64-byte slot header and the memory
manager, `HalfFloats` the conversion from float16 to bfloat16.  `Hashing` and `PrefixCache` are the
chained block hashes and their index; `BlockStore` is ring and index together; `VllmConnector` is the connector over both, with theorems over every
run of sends.  `RadixAdapter` and `SglangConnector` do the same for variable-length radix nodes.

**RESP.**  `Resp` is a one-shot parser over the whole byte stream, `RespCodec` the encoder and the
round trips, `RespReader` the buffered reader over arbitrary `recv` chunks, proved equal to the
one-shot parser, and `Pipeline` the batch built on it.  `Decimal` is the number format: printing,
and what Python's `int()` accepts on bytes.  `FrameTable` says in plain byte values what each frame
is read as, what is sent for a command, which lines are integers and which are UTF-8.

**The connection pool.**  `Pool` is a transition system with one atomic action for every lock
section, queue operation, connect, health check, send and read; theorems range over every
interleaving of any number of threads.  `Pairing` is about which request a reply is handed to, for
commands and pipelines of either client.  `PoolCalls` has the class `ConnectionPool`, which
performs the calls themselves and shows that each uninterrupted call is a run of that system.

**The Markdown chunker and SQ8.**  `Markdown` and `Chunker` model the line loop with its heading
stack, fence flag, flushes and overlap, `ChunkCuts` that no cut the code should make is missed, and
`ChunkOverlap` what the overlap does to fenced blocks and chunk ends; `Quantizer` is the 8-bit quantizer over the reals.

Classes stand where the source updates objects; their methods are tied to specification
functions, and the theorems are about those functions.

## Where the code departs from what one would expect

The model follows the code; each point has a lemma.

- The heading that cuts a chunk off is already on the stack when the chunk is labelled, so the
  chunk carries the breadcrumb of the section after it (`Chunker.SpanOk`,
  `ChunkOverlap.EndsCanRepeat`), although `section_title` is documented as the headings leading to
  the chunk.
- A size flush followed by a heading, or by the end of the document, can cut a second chunk with
  the same end; `EndRepeatsIff` says exactly when, `EndsCanRepeat` and `EndsCanRepeatAtEnd` show it.
- With an overlap a chunk can go on past a place where its size or a heading should cut it: the kept
  lines are tested again only after the next line, and at the heading that cut the last chunk not at
  all (`CutsArePrompt` says where, `HeadingNotTestedTwice` and `SizeNotTestedTwice` show it;
  `CutsArePromptWithoutOverlap`: never without an overlap).
- A chunk may begin inside a fenced block, because overlap is kept line by line: exactly when the
  closing fence fits in the overlap and the block does not (`BeginsInsideIff`,
  `ChunkCanBeginInside`).
- The vLLM restore names no element type and so reads float16.  The bytes it reads are those
  written exactly when the elements are 16 bits wide (`DefaultDTypeIffSixteenBit`), but they are
  then converted by value to the type of the cache: a bfloat16 cache gets back what was sent from
  it exactly when every element is a zero or a two, NaN aside (`FilledBFloat16Iff`,
  `BFloat16OneIsLost`).
- An element type outside the codec's table is read back, whatever the tensors hold, exactly when
  its elements are two bytes (`TypeReadsBackIff`); for wider ones it depends on the bytes
  (`ReadBackIffComesBack`).
- A slot larger than the pool makes the bytearray grow (`LengthKeptIffSlotsFit`).
- The radix search depends on insertion order exactly when two reachable siblings begin alike
  (`OrderIrrelevantIffUnambiguous`), and passes `max_tokens` exactly when the limit falls
  strictly inside a node (`LimitPassedIff`).  Every search ends exactly when no path of empty
  nodes leads from the root back to its hash (`SearchEndsIff`).
- A bulk length below -1 moves the cursor back, and what is read then can depend on how the stream
  was cut into chunks (`ChunksMatterIff`, `SameStreamTwoAnswers`).
- An error inside an array leaves the rest of the array on the stream (`AlignedIff`), and a failed
  pipeline leaves all later replies there (`LaterRepliesLeft`, `NextReadIsStale`).
- `disconnect_all` zeroes the count even while connections are out (`ResetKeepsCountIff`,
  `ResetBreaksLimit`); a raising `connect` or AUTH exchange keeps its slot forever, and so does a
  call that is interrupted, in the health check for one (`LeaksStay`).
- A connection on which a reply, or a part of one, was left behind hands it to a later request.
  What leaves one is an exception let out with the connection open: out of an asynchronous command,
  out of a pipeline of either client (on the connection kept inside `with` as well), or one that
  `except Exception` does not catch.  An error inside an array leaves the elements after it in the
  same way (`RunsPairedIff`, `PairedIffSynchronous`, `FailedPipelineIsMisread`,
  `InterruptedIsMisread`).
  The connection goes back to the pool with it (`LeftStaysOnIdle`), and no read, release or health
  check removes it (`UnreadIsAwaitedOrLeft`); a left-over PONG even passes the check.
- Re-encoding a decoded vector gives the same bytes exactly when the range was scaled or a single
  point (`ReencodeIff`).

## Model

| member | source | states |
|---|---|---|
| Ring.LatestSlotWins | src/kachedb/dma.py:89-94 | every byte some slot covers is the byte of the latest slot covering it |
| Ring.LiveSlotIntact | src/kachedb/dma.py:67-95 | a slot no later slot was laid over reads back exactly as written, over any run |
| Ring.LengthKeptIffSlotsFit | src/kachedb/dma.py:71-92 | the buffer keeps its length if and only if every slot fits in the pool, and then the head stays within the pool |
| Ring.LapTiles | src/kachedb/dma.py:71-94 | slots of one lap tile it from offset 0 to the write head without gap or overlap |
| Ring.LiveIffAboveHighWater | src/kachedb/dma.py:67-95 | a slot is intact if and only if no later lap has reached its offset |
| Ring.LapInvariant | src/kachedb/dma.py:71-95 | current-lap slots are intact; a previous-lap slot is intact if and only if its offset is not below the head |
| Ring.RetentionInvariant | src/kachedb/dma.py:67-95 | while the later bytes stay in the bound: before a wrap the head is the end of the slot plus the later bytes; after one only an upper bound on it, which is not past the slot |
| Ring.Retention | src/kachedb/dma.py:67-95 | a slot survives while later slots of at most m bytes total at most pool + 1 - m - its size, for any sizes and any number of wraps |
| Ring.RetentionUniform | src/kachedb/dma.py:67-95 | with slots of at most m bytes, pool - 2m later bytes are always safe |
| Ring.RetentionTight | src/kachedb/dma.py:67-95 | for every pool: some run misses the bound by one byte and has lost the slot if and only if the slot and two of the largest later ones fit in pool + 2 bytes |
| Dma.ThreeAssignments | src/kachedb/dma.py:90-92 | the three slice assignments amount to laying header, key and value over the buffer in one piece, even when it grows |
| Dma.SlotHeader | src/kachedb/dma.py:76-90 | the header read from a slot names, field by field, shape, type, layer, hash and length, each cut down to its C field; it is the one asked for if and only if every value fits |
| Dma.SlotDescribesItself | src/kachedb/dma.py:76-141 | a live slot whose values fit: the first 64 bytes in the ring decode to its magic, layer, hash and length, and reading with the shape found in them gives back key and value |
| Dma.ReadBack | src/kachedb/dma.py:63-141 | a live slot read with its own shape and type gives back both tensors |
| Dma.ReadBackIff | src/kachedb/dma.py:113-141 | for every element type and shape: both tensors come back if and only if there are elements and the value stands where the codec says the key ends |
| Dma.ReadBackIffComesBack | src/kachedb/dma.py:113-141 | for elements no smaller than the codec takes them for: both tensors come back if and only if, in the key's bytes followed by the value's, the value is found where the codec says the key ends |
| Dma.TableTypesComeBack | src/kachedb/descriptor.py:133-170 | that holds of all tensors of the types in the table that are not empty |
| Dma.TypeReadsBackIff | src/kachedb/descriptor.py:133-170 | every live slot of a type that is not empty reads back if and only if the codec knows the size of its elements; failing slots of one byte and of more than two |
| Dma.DefaultDTypeIffSixteenBit | src/kachedb/dma.py:113-141 | read without a type, a live slot yields the written bytes if and only if its elements are 16 bits wide |
| Dma.ReadBackAsFloat16 | src/kachedb/dma.py:113-141 | a 16-bit slot read without a type gives both tensors with their bits taken as float16 |
| Dma.MemoryManager.WritePagedBlock | src/kachedb/dma.py:63-95 | one write appends one slot to the run; the offset returned is that slot's place, and the descriptor returned is the one in the slot, field by field |
| Dma.MemoryManager.ReadPagedBlock | src/kachedb/dma.py:113-141 | the two tensors at an offset, or the error for an empty or overlong read |
| Descriptors.HeaderRoundTrip | src/kachedb/descriptor.py:65-121 | a header read back is the header cut to its C fields, and unchanged if and only if it fits them, whatever follows it |
| Descriptors.BufferRoundTrip | src/kachedb/descriptor.py:104-121 | any 64 bytes are the image of the descriptor read from them; shorter buffers are refused |
| Descriptors.HeaderLayout | src/kachedb/descriptor.py:65-121 | from 64 bytes on, each field is the little-endian number at its offset; shorter buffers are refused |
| Tensors.SerializedAt | src/kachedb/descriptor.py:152-211 | byte k of token t in head h stands at its row-major place |
| Tensors.DeserializeSerialize | src/kachedb/descriptor.py:152-211 | a tensor read from its own row-major bytes is that tensor |
| Tensors.SerializeDeserialize | src/kachedb/descriptor.py:152-211 | the bytes of a tensor read from a buffer are the buffer's |
| Hashing.PackInjective | src/kachedb/vllm/prefix_cache.py:40-45 | the hashed buffer determines parent hash and tokens |
| Hashing.PackNodeInjective | src/kachedb/sglang/radix_adapter.py:56-62 | the same for the node buffer with its token count |
| Hashing.PackLayout | src/kachedb/vllm/prefix_cache.py:40-45 | the buffer holds the parent hash in its first 8 bytes and 4 bytes for each token, least significant first |
| Hashing.PackNodeLayout | src/kachedb/sglang/radix_adapter.py:56-62 | the same with the token count in bytes 8 to 12 |
| Hashing.DigestCollisionFree | src/kachedb/vllm/prefix_cache.py:40-50 | no digest collision on the packed buffers means no hash collision on the inputs |
| Hashing.NodeDigestCollisionFree | src/kachedb/sglang/radix_adapter.py:56-66 | the same for node hashes |
| Hashing.PathHashInjective | src/kachedb/sglang/radix_adapter.py:56-66 | without collisions equal node hashes mean equal paths of token slices from the root |
| PrefixCache.ChainHashInjective | src/kachedb/vllm/prefix_cache.py:65-74 | equal chained hashes mean the same number of the same blocks, under a collision-free hash that avoids 0 |
| PrefixCache.HashesChained | src/kachedb/vllm/prefix_cache.py:65-74 | len // block_size hashes, each that of its slice of the prompt under the hash before it, the first under 0 |
| PrefixCache.ChainHashOfPrefix | src/kachedb/vllm/prefix_cache.py:65-74 | prompts sharing b blocks share their b-th hash |
| PrefixCache.Matched | src/kachedb/vllm/prefix_cache.py:104-109 | the number of leading hashes in the index: all of them are there, the next is not |
| PrefixCache.KacheDBPrefixCache.ComputeBlockHash | src/kachedb/vllm/prefix_cache.py:40-50 | the loop packs parent and tokens and hashes the buffer |
| PrefixCache.KacheDBPrefixCache.ComputeSequenceHashes | src/kachedb/vllm/prefix_cache.py:65-74 | one chained hash for each whole block |
| PrefixCache.KacheDBPrefixCache.RegisterBlock | src/kachedb/vllm/prefix_cache.py:76-84 | the index with one entry set and all others kept |
| PrefixCache.KacheDBPrefixCache.FindLongestPrefix | src/kachedb/vllm/prefix_cache.py:90-111 | the entries of exactly the leading indexed hashes, and block size times their number |
| BlockStore.AfterItemsTraced | src/kachedb/vllm/connector.py:102-144 | after any offers, every offered key is indexed, and each entry lists the offsets of the slots of the first item offered under it |
| BlockStore.RunGrows | src/kachedb/vllm/connector.py:102-144 | later offers only add to the run |
| HalfFloats.ToBFloatNearest | src/kachedb/vllm/connector.py:183-190 | the modelled conversion keeps the sign and is off by at most half a unit in the last place |
| HalfFloats.SurvivesIff | src/kachedb/vllm/connector.py:183-190 | 16 bits taken as float16 and converted to bfloat16 are the same bits again if and only if they are a zero, a two, or a NaN the machine leaves |
| HalfFloats.TensorSurvivesIff | src/kachedb/vllm/connector.py:183-190 | a bfloat16 tensor comes through that if and only if each of its elements does |
| VllmConnector.LongestPrefix | src/kachedb/vllm/prefix_cache.py:90-111 | after any run of sends the match is the largest number of leading blocks the prompt shares with a sent prompt |
| VllmConnector.SentPromptMatched | src/kachedb/vllm/connector.py:99-166 | a prompt that was ever sent is matched in all its whole blocks |
| VllmConnector.FirstItemFirstSender | src/kachedb/vllm/connector.py:102-105 | the entry for a prefix comes from the first send with that prefix |
| VllmConnector.MatchedBlockSlots | src/kachedb/vllm/connector.py:102-144 | a matched entry has one offset for each layer of that send, each the place of its slot |
| VllmConnector.RestoredIsFirstSent | src/kachedb/vllm/connector.py:99-193 | reading layer l of a matched block of any 16-bit type gives the bits of the first sender's key and value, as float16, while the slot is live |
| VllmConnector.FilledSixteenBit | src/kachedb/vllm/connector.py:170-193 | what a restore leaves in a target of the 16-bit type that was sent: the sent bits read as float16 and converted by value |
| VllmConnector.FilledIsFirstSent | src/kachedb/vllm/connector.py:170-193 | so a float16 target holds, block by block and layer by layer, what the first send with that prefix held |
| VllmConnector.FilledOtherSixteenBitIff | src/kachedb/vllm/connector.py:183-190 | a target of another 16-bit type holds it if and only if converting its bits from float16 by value gives them back |
| VllmConnector.FilledBFloat16Iff | src/kachedb/vllm/connector.py:183-190 | a bfloat16 target holds it if and only if every element of key and value is a zero or a two, NaN aside |
| VllmConnector.BFloat16OneIsLost | src/kachedb/vllm/connector.py:183-190 | a bfloat16 one comes back as 1.875 |
| VllmConnector.KacheDBConnector.SendKvCaches | src/kachedb/vllm/connector.py:96-144 | a send appends itself to the history that determines ring and index |
| VllmConnector.KacheDBConnector.OfferBlock | src/kachedb/vllm/connector.py:102-144 | an indexed block changes nothing; any other writes one slot for each layer and is indexed with their offsets |
| VllmConnector.KacheDBConnector.RecvKvCaches | src/kachedb/vllm/connector.py:163-200 | a block of a layer with a recorded offset is overwritten with what is read there, all others are left; it raises if and only if some such read asks for nothing or leaves the pool, and stops at the first one, block by block and layer by layer |
| VllmConnector.KacheDBConnector.RestorePrompt | src/kachedb/vllm/connector.py:163-200 | from the sends alone: a layer the first sender did not offload is left as it was whatever the outcome; it raises if and only if some layer it did offload is read past the end of the pool; after a hit every matched block of every layer still in the ring is restored in the sense of the theorems above |
| RadixAdapter.UpsertMembers | src/kachedb/sglang/radix_adapter.py:93-93 | registering replaces the node of the same hash and keeps all others |
| RadixAdapter.ChainIff | src/kachedb/sglang/radix_adapter.py:112-136 | a path is registered nodes of which the first names 0 as its parent and each other the hash of the one before |
| RadixAdapter.GreedySound | src/kachedb/sglang/radix_adapter.py:112-138 | whatever is registered: the nodes found form a path from the root, their tokens begin the prompt, and the limit is passed by less than the last node |
| RadixAdapter.ChainBounded | src/kachedb/sglang/radix_adapter.py:118-136 | a path through nodes none of which hashes to 0 is no longer than the registry |
| RadixAdapter.EmptyTailBounded | src/kachedb/sglang/radix_adapter.py:116-136 | without a path of empty nodes back to the root's hash, no path has more empty nodes in a row than the registry has nodes |
| RadixAdapter.SearchEndsIff | src/kachedb/sglang/radix_adapter.py:116-136 | the search ends for all prompts and limits if and only if no path of empty nodes leads from the root back to its hash |
| RadixAdapter.GreedyIsLongest | src/kachedb/sglang/radix_adapter.py:112-138 | without conflicting siblings every registered path that fits the prompt is a beginning of the one found, or goes on from its end when the prompt is used up |
| RadixAdapter.OrderIrrelevantIffUnambiguous | src/kachedb/sglang/radix_adapter.py:118-128 | the result is independent of insertion order, for all prompts, if and only if no path leads to two siblings of which one begins with the other's tokens |
| RadixAdapter.LimitedOrderIrrelevant | src/kachedb/sglang/radix_adapter.py:112-138 | without such siblings the order does not matter under any max_tokens either, and neither does it to whether the search ends |
| RadixAdapter.LimitedIsPrefix | src/kachedb/sglang/radix_adapter.py:115-136 | a limited search finds a beginning of what the unlimited one finds |
| RadixAdapter.LimitPassedIff | src/kachedb/sglang/radix_adapter.py:115-136 | it passes its limit if and only if the limit falls strictly inside a node of the unlimited result, and then it ends with that node |
| RadixAdapter.KacheDBRadixAdapter.RegisterNode | src/kachedb/sglang/radix_adapter.py:68-94 | the dictionary in insertion order after one assignment |
| RadixAdapter.KacheDBRadixAdapter.FindMatchingNodes | src/kachedb/sglang/radix_adapter.py:112-138 | whenever the search ends, every node is its step from those before it, and it stops where it must |
| RadixAdapter.KacheDBRadixAdapter.FindChild | src/kachedb/sglang/radix_adapter.py:119-128 | the first matching child in dictionary order, or none when none matches |
| SglangConnector.RegistryIsLastOffloads | src/kachedb/sglang/connector.py:82-105 | the registry holds exactly the descriptor of the last offload under each hash |
| SglangConnector.NodeReadsBack | src/kachedb/sglang/connector.py:82-166 | a registered node reads back the tensors of the last offload under its hash, while the slot is live, if and only if they are of the kind that comes back |
| SglangConnector.RestoredUnderOwnPrefix | src/kachedb/sglang/connector.py:82-166 | without collisions each node of a matched path was offloaded under exactly the token slices before it on the path |
| SglangConnector.SlicesTile | src/kachedb/sglang/connector.py:143-176 | the slices of the matched nodes partition the positions below the matched length |
| SglangConnector.SplicedInside | src/kachedb/sglang/connector.py:168-174 | after all copies, position start + t of every head holds token t of its node |
| SglangConnector.SplicedOutside | src/kachedb/sglang/connector.py:168-174 | a position in no written slice keeps what it held |
| SglangConnector.RestoredTokens | src/kachedb/sglang/connector.py:138-183 | end to end: every head and layer holds, token by token, the keys and values last offloaded for the matched nodes |
| SglangConnector.BeyondMatchUntouched | src/kachedb/sglang/connector.py:145-176 | positions from the matched length on are unchanged |
| SglangConnector.KacheDBSGLangConnector.OffloadNode | src/kachedb/sglang/connector.py:82-114 | an offload appends itself to the history that determines ring and registry; the descriptor has the id, parent, tokens and hash given, one slot written for each layer and where each begins |
| SglangConnector.KacheDBSGLangConnector.RestorePrefix | src/kachedb/sglang/connector.py:138-183 | the targets after a restore are the old ones with the matched nodes spliced in; it raises if and only if some layer of a matched node is read past the end of the pool or asks for nothing, and what is already spliced in then |
| SglangConnector.KacheDBSGLangConnector.RestoreTokens | src/kachedb/sglang/connector.py:138-183 | after a restore that hits, the buffers hold the tokens of every matched node and layer that is still in the ring, as last offloaded, and what is read at its offset of any other; whatever the outcome, the slice of a node in a layer it was not offloaded with, and all past the match, is left as it was |
| Decimal.ParsePrint | src/kachedb/resp.py:36-39 | int() undoes the printing of any integer, and the digits hold no line break |
| FrameTable.LineFrames | src/kachedb/resp.py:127-137 | byte 43 begins a text, 45 an error, 95 a null and 58 an integer, for every line and whatever follows it; lines that are no UTF-8 or no integer |
| FrameTable.IntegerFrames | src/kachedb/resp.py:135-137 | 58, the decimal digits of n with or without 45 before them, 13, 10 is n or -n |
| FrameTable.BulkFrames | src/kachedb/resp.py:139-146 | 36, the decimal digits of the length, 13, 10, the data and any two bytes is the data; 36, 45, 49, 13, 10 is null |
| FrameTable.ArrayFrames | src/kachedb/resp.py:148-154 | 42, the decimal digits of n, 13, 10 is the array of the next n frames in order, or the failure of the first that fails, with what that leaves unread |
| FrameTable.NoArrayFrames | src/kachedb/resp.py:148-154 | 42, 45, 49, 13, 10 is null, and a count below -1 an array of nothing |
| FrameTable.OtherFrames | src/kachedb/resp.py:92-161 | any other first byte is refused at once; a line without 13, 10 is waited for |
| FrameTable.CommandBytes | src/kachedb/resp.py:30-42 | a command is sent as 42, the decimal digits of its length, 13, 10, and for each argument 36, its length, 13, 10, its bytes, 13, 10 |
| FrameTable.ParseIntIff | src/kachedb/resp.py:137-137 | int() takes a line for n if and only if it is white space, a sign or none, digits with single underscores between them, and white space, and they write n |
| FrameTable.DecimalIff | src/kachedb/resp.py:36-39 | each number has one string of decimal digits without leading zeros, and it is the one printed |
| FrameTable.Utf8ValidIff | src/kachedb/resp.py:127-132 | a line decodes if and only if it is the UTF-8 encoding of some sequence of Unicode scalar values |
| Resp.FrameLocal | src/kachedb/resp.py:121-161 | a complete frame reads the same whatever follows it; an incomplete one needs bytes beyond what is there |
| Resp.CutFrame | src/kachedb/resp.py:84-105 | a stream cut inside its first frame ends in ProtocolError, and one cut after it reads the same, and nothing in between |
| RespCodec.CommandRoundTrip | src/kachedb/resp.py:30-42 | a command is read back as exactly its arguments, whatever bytes they hold, leaving what follows |
| RespCodec.CommandsRoundTrip | src/kachedb/resp.py:45-50 | a pipelined buffer is read back command by command |
| RespCodec.EncodingPrefixFree | src/kachedb/resp.py:30-50 | the encoding is injective and prefix-free |
| RespCodec.ReplyRoundTrip | src/kachedb/resp.py:121-161 | any reply a server may send, errors nested in arrays included, is read as its meaning |
| RespCodec.RepliesRoundTrip | src/kachedb/resp.py:149-154 | as many reads as replies give their meanings up to the first error |
| RespCodec.AlignedIff | src/kachedb/resp.py:131-154 | the reader is left at the end of the reply if and only if nothing in it follows its first error |
| RespCodec.NothingLeftIff | src/kachedb/resp.py:149-154 | reading a reply leaves no element of it on the stream if and only if none follows its first error |
| RespCodec.CutReply | src/kachedb/resp.py:84-161 | a truncated reply never reads as a value |
| RespReader.Reader.EnsureData | src/kachedb/resp.py:84-90 | succeeds if and only if the stream holds that many bytes; the stream is unchanged |
| RespReader.Reader.ReadLine | src/kachedb/resp.py:92-105 | the line up to the first CRLF of the stream, wherever chunks end |
| RespReader.Reader.ReadExact | src/kachedb/resp.py:107-113 | the next n bytes of the stream, or the error and nothing consumed |
| RespReader.Reader.Compact | src/kachedb/resp.py:115-119 | compaction does not change the unread bytes |
| RespReader.Reader.ReadArray | src/kachedb/resp.py:149-154 | the elements of an array up to the first failure |
| RespReader.Reader.ReadResponse | src/kachedb/resp.py:78-161 | for every split into chunks, outcome and unconsumed stream are those of the one-shot parser; for a bulk length below -1, exactly the bytes handed back, from the chunks received with the header |
| RespReader.ChunksMatterIff | src/kachedb/resp.py:84-146 | with a bulk length below -1 all ways of cutting the stream into chunks of the size recv is asked for give the same answer if and only if the slice ends no further back than the buffer begins, or so far back that no chunk and no stream of that length reaches it |
| RespReader.SameStreamTwoAnswers | src/kachedb/resp.py:84-146 | one stream on which a fresh reader gives 56 bytes or none, as it is cut |
| Pipeline.BuildCommand | src/kachedb/resp.py:30-42 | the joined parts are the encoding |
| Pipeline.BuildCommands | src/kachedb/resp.py:45-50 | the joined commands are the encoding of the list |
| Pipeline.Pipeline.Queue | src/kachedb/pipeline.py:44-47 | queueing appends one command and keeps the others |
| Pipeline.Pipeline.Execute | src/kachedb/pipeline.py:169-187 | everything queued is sent once and forgotten, or the connection is closed and nothing read; results and remaining stream are those of reading that many frames |
| Pipeline.ResultsIffAllOk | src/kachedb/pipeline.py:184-187 | n results come back if and only if the first n frames read as values, and then exactly n frames are consumed |
| Pipeline.ResultsInOrder | src/kachedb/pipeline.py:184-187 | result i is the value of frame i |
| Pipeline.FirstFailureRaised | src/kachedb/pipeline.py:184-187 | the first failing frame i is raised after exactly i + 1 frames |
| Pipeline.RepliesPaired | src/kachedb/pipeline.py:178-187 | against a server that answers in order, result i is the meaning of reply i |
| Pipeline.LaterRepliesLeft | src/kachedb/pipeline.py:178-187 | after an error every later reply is still on the stream |
| Pipeline.NextReadIsStale | src/kachedb/pipeline.py:178-187 | so the next read gets the reply to an earlier command |
| Pool.CountedStep | src/kachedb/pool.py:74-152 | every step but a careless reset keeps the count equal to the number of slots and within the limit |
| Pool.QueuedStep | src/kachedb/pool.py:74-152 | every step keeps the queue the idle connections, each once |
| Pool.CarefulRunsCounted | src/kachedb/pool.py:74-152 | both pool invariants hold after every run of any threads in which the count is reset only with nothing outstanding |
| Pool.Conservation | src/kachedb/pool.py:74-152 | on those runs the count is idle + handed out + being checked + being created + being given back + leaked + drained, and neither it nor the open connections pass the limit |
| Pool.NeverFull | src/kachedb/pool.py:128-136 | on those runs a released connection always finds room in the queue |
| Pool.ResetKeepsCountIff | src/kachedb/pool.py:142-152 | resetting keeps the count right if and only if nothing is outstanding |
| Pool.ResetBreaksLimit | src/kachedb/pool.py:142-152 | a run with a careless reset that has two connections open under a limit of one |
| Pool.LeaksStay | src/kachedb/pool.py:106-126 | only a reset frees a leaked slot |
| Pool.LeakedByIff | src/kachedb/pool.py:107-126 | a step leaks a slot if and only if it is a connect() of the synchronous pool that raises, an AUTH exchange that does, or an interrupt of the call at work on it |
| Pool.AllLeakedMeansExhausted | src/kachedb/pool.py:99-105 | with every slot leaked, every call raises PoolExhaustedError |
| Pairing.ReceiveIsParse | src/kachedb/resp.py:121-161 | a read in the system does what the parser does with the bytes on the connection: same frame, same outcome, same frames left |
| Pairing.UnreadIsAwaitedOrLeft | src/kachedb/client.py:164-175 | over every run, either client: what is on its way on a connection is what is awaited plus what was left behind since it was opened, given up or after an error in an array |
| Pairing.RunsPairedIff | src/kachedb/client.py:164-175 | over every run, either client: each request gets its own reply if and only if nothing is read on a connection on which something was left behind |
| Pairing.IdleHasNothingUnreadIff | src/kachedb/pool.py:85-94 | an idle connection has nothing on its way if and only if nothing was left behind on it since it was opened |
| Pairing.PairedStepIff | src/kachedb/client.py:164-175 | a step keeps requests paired if and only if it reads no frame on a connection with more to come than its borrower awaits |
| Pairing.CleanRunsPaired | src/kachedb/client.py:164-175 | a run that sends and health-checks only on connections with nothing to come is paired |
| Pairing.DirtyUseGoesWrong | src/kachedb/client.py:164-175 | and any send or health check on another is wrong at once or at the next read |
| Pairing.PatientRunsPaired | src/kachedb/client.py:164-175 | a run in which no borrower lets an exception out with the connection open and something on its way is paired, whatever the replies |
| Pairing.LeftIsMisread | src/kachedb/pipeline.py:184-187 | and everything left behind so can be handed to the next request |
| Pairing.LeftStaysOnIdle | src/kachedb/client.py:134-138 | or goes back to the pool with its connection |
| Pairing.FailedPipelineIsMisread | src/kachedb/pipeline.py:178-187 | for either client, runs in which the request after a pipeline that failed on its first reply gets a later reply, or an element after the error |
| Pairing.InterruptedIsMisread | src/kachedb/client.py:164-175 | for either client, a run in which the request after an interrupted one gets its reply |
| Pairing.PairedIffSynchronous | src/kachedb/async_client.py:113-127 | all runs without a failing pipeline and without an interrupt are paired, whatever the replies and other errors, if and only if the client is the synchronous one |
| PoolCalls.ConnectionPool.GetConnection | src/kachedb/pool.py:74-126 | an uninterrupted call is a run of the system; the head of the queue is handed out if and only if it is open, healthy and, for the synchronous pool, nothing is on its way or the first frame is PONG, and otherwise its slot is given back; a new connection is opened if and only if the limit allows it; which failures of connect and AUTH leak the slot; and the replies still on their way on what it returns |
| PoolCalls.ConnectionPool.ReleaseConnection | src/kachedb/pool.py:128-140 | an uninterrupted release is a run; an open connection goes to the end of the queue while there is room, any other gives its slot back |
| PoolCalls.ReadingIs | src/kachedb/pipeline.py:184-187 | n reads stop at the first error, with what its reply leaves before the frames after it, for want of a frame, or after n |
| PoolCalls.ConnectionPool.Execute | src/kachedb/client.py:164-175 | a request is a run that leaves nothing awaited; which exceptions close the connection in which client; what is then still on its way; the frame read is its own if and only if nothing was on its way before |
| PoolCalls.ConnectionPool.ExecutePipeline | src/kachedb/pipeline.py:169-187 | the same for n commands sent at once whose frames are read up to the first error or as long as they arrive; which frames a raising pipeline leaves on the open connection |
| PoolCalls.ConnectionPool.DisconnectAll | src/kachedb/pool.py:142-152 | an uninterrupted call is a run that closes the idle connections, leaves all others as they are, and zeroes the count |
| Quantizer.Sq8Encode | src/kachedb/quantizer.py:29-45 | the loop computes the quantized components and the range |
| Quantizer.EncodedInNumbers | src/kachedb/quantizer.py:29-73 | a range below 1e-12 gives 128 everywhere and decodes to the minimum; any other gives the byte nearest to (x - min) * 255 / (max - min), the even one of two, and decodes to min + byte * (max - min) / 255 |
| Quantizer.ClampNeverBites | src/kachedb/quantizer.py:42-43 | every level is already in 0..255 |
| Quantizer.Monotone | src/kachedb/quantizer.py:39-43 | order is kept, the minimum goes to 0 and the maximum to 255 |
| Quantizer.ReconstructionError | src/kachedb/quantizer.py:29-73 | every component comes back within (max - min)/510, or within 1e-12 of a range too narrow to scale |
| Quantizer.ReencodeIff | src/kachedb/quantizer.py:29-73 | encoding a decoded vector gives the same bytes and range if and only if the range was scaled or a single point |
| Markdown.StripEmptyIff | src/kachedb/semantic/chunker.py:116-119 | stripping leaves nothing if and only if all is white space |
| Markdown.StripIff | src/kachedb/semantic/chunker.py:116-116 | the strip is what stands between white space on both sides and does not itself begin or end with any |
| Markdown.JoinOneMore | src/kachedb/semantic/chunker.py:116-116 | one more line is joined with one line feed |
| Markdown.EstimateIff | src/kachedb/semantic/chunker.py:45-49 | four characters a token, and one token for a shorter text that is not empty |
| Markdown.FenceIff | src/kachedb/semantic/chunker.py:17-17 | a fence line begins with three backticks |
| Markdown.HeadingIff | src/kachedb/semantic/chunker.py:15-15 | a heading of level h is h hash signs, one to six, white space and at least one more character; its title is the rest, stripped |
| Markdown.SplitLinesIff | src/kachedb/semantic/chunker.py:99-99 | the lines are the only ones that give the text back with one line break, or CR LF, after each but perhaps the last |
| Markdown.JoinAllSpaceIff | src/kachedb/semantic/chunker.py:116-119 | joined lines are all white space if and only if each line is |
| Markdown.SplitKeepsCharacters | src/kachedb/semantic/chunker.py:99-99 | splitting into lines drops the line breaks and nothing else |
| Chunker.StackIsOpenHeadings | src/kachedb/semantic/chunker.py:149-164 | after every line the stack is exactly the headings outside fences not closed by a later one of equal or lower level, levels increasing |
| Chunker.FencedIsOdd | src/kachedb/semantic/chunker.py:151-152 | the flag says whether an odd number of fence lines was seen |
| Chunker.AllSpansChained | src/kachedb/semantic/chunker.py:149-182 | for every document: each chunk begins where the last left off but for blank lines, is big enough for what cut it, ends outside fences unless the document ends, and carries the stated breadcrumb |
| Chunker.EveryLineCovered | src/kachedb/semantic/chunker.py:149-182 | every line that is not blank lies in some chunk |
| Chunker.EndsIncrease | src/kachedb/semantic/chunker.py:114-182 | chunk ends increase, but for a chunk cut by size and one after it that was not |
| ChunkCuts.CutsArePrompt | src/kachedb/semantic/chunker.py:149-182 | for every document, chunk and line inside it: before that line the chunk is below the target, but inside a fenced block or where an earlier chunk ends; and before a heading below half of it, but at a heading that cut an earlier chunk |
| ChunkCuts.CutsArePromptWithoutOverlap | src/kachedb/semantic/chunker.py:149-182 | without an overlap there is no such exception but the fenced block |
| ChunkCuts.HeadingNotTestedTwice | src/kachedb/semantic/chunker.py:135-170 | a document whose second chunk goes on past the heading that cut the first, with half the target before it |
| ChunkCuts.SizeNotTestedTwice | src/kachedb/semantic/chunker.py:135-177 | a document whose second chunk holds the target already when its first new line comes |
| Chunker.OverlapIsLongestSuffix | src/kachedb/semantic/chunker.py:135-146 | the kept lines are the longest suffix whose estimates add up to at most the overlap |
| Chunker.DisjointWithoutOverlap | src/kachedb/semantic/chunker.py:135-146 | without an overlap chunks do not share lines |
| ChunkOverlap.BeginsInsideIff | src/kachedb/semantic/chunker.py:135-177 | a chunk begins inside a fenced block if and only if the overlap kept before it reaches into the block: its closing fence and what follows fit, the whole block does not |
| ChunkOverlap.FencesBalancedIff | src/kachedb/semantic/chunker.py:135-177 | the fence lines of a chunk come in pairs if and only if the chunk before it splits no block, or for a last chunk ending inside a block, splits one |
| ChunkOverlap.ChunkCanBeginInside | src/kachedb/semantic/chunker.py:135-177 | a document whose second chunk opens with an unmatched closing fence |
| ChunkOverlap.EndRepeatsIff | src/kachedb/semantic/chunker.py:114-182 | over every document: the next chunk has the same end if and only if this one was cut by size, the kept lines are not blank, and the document ends or a heading finds them to be half a chunk |
| ChunkOverlap.EndsCanRepeat | src/kachedb/semantic/chunker.py:114-177 | a document on which a heading does that, and the second chunk is labelled with it |
| ChunkOverlap.EndsCanRepeatAtEnd | src/kachedb/semantic/chunker.py:114-182 | a document that ends with a chunk of overlap only |
| Chunker.CrumbOutermost | src/kachedb/semantic/chunker.py:109-112 | the breadcrumb joins the titles of the stack in order, the outermost first |
| Chunker.ChunkIdDigits | src/kachedb/semantic/chunker.py:124-133 | ids end in the decimal digits of the chunk's number, from 0 |
| Chunker.ChunkFields | src/kachedb/semantic/chunker.py:116-133 | chunk k has number k, the stripped join of its lines, the title of its span and the estimate of that text |
| Chunker.ChunkIdInjective | src/kachedb/semantic/chunker.py:124-133 | no two chunks of a document share an id |
| Chunker.MarkdownChunker.ChunkDocument | src/kachedb/semantic/chunker.py:82-182 | no chunk for an empty document, one for a small one, and otherwise one for each span, numbered from 0 |
| Chunker.MarkdownChunker.ChunkLines | src/kachedb/semantic/chunker.py:99-182 | the loop computes the chunks of all spans |
| Chunker.MarkdownChunker.FlushCurrentChunk | src/kachedb/semantic/chunker.py:114-146 | a flush drops blank lines or records one chunk and keeps the overlap |
| Chunker.MarkdownChunker.KeepOverlap | src/kachedb/semantic/chunker.py:135-146 | the backward loop keeps exactly the overlap |

## Left out

- RespReader.Reader.ReadArray: an element with a bulk length below -1 ends the model's run, because what follows it is read with a cursor that may lie before the buffer; so does a reader used again after such a reply.
- RadixAdapter.KacheDBRadixAdapter.FindMatchingNodes: requires that the search ends; where it does not (`SearchEndsIff`) the call never returns.
- SglangConnector.NodeReadsBack: not for types outside the codec's table with elements of one byte, whose value is read beyond its slot (`Dma.TypeReadsBackIff`).
- SglangConnector.RestoredTokens: for tensors that come back when they are read.
- An exception in the middle of a frame, or of a `sendall`: the reply it breaks off counts as still on its way, but what a later read makes of the rest of it is not modelled.
- PoolCalls.ConnectionPool.Execute: a connection is used by one thread at a time. Threads that share one client share the connection it keeps after `connect()`, and a pipeline executed after its client was closed uses one that was given back; neither is modelled.
- `client.pipeline()` outside `with` borrows a connection and never gives it back: it stays handed out.
- SglangConnector.KacheDBSGLangConnector.RestorePrefix: requires the two buffers of a layer to agree in shape and type and to have room for the match; the conversion `copy_` would make between different types is not modelled there.
- Quantizer.Sq8Encode: real numbers stand for floats; rounding, infinities and NaN are not modelled.
- BLAKE2b: an uninterpreted digest; the theorems assume no collision and no 0 on the inputs used.
- Token ids outside 32 bits, on which packing raises.
- Tuple, list and other cache layouts of the vLLM connector, and the `seq_data` fallback for the prompt; only 5-D caches are modelled.
- A send from, or a restore into, caches with fewer blocks than the prompt or the match has, on which indexing raises half-way.
- Device transfers, `non_blocking` copies and the sharing of memory between a tensor and the pool after a zero-copy read.
- Metadata and hidden states that the connectors carry but do not read.
- Sockets, TLS, timeouts in the middle of a read, `mmap` and `/dev/shm`.
- Encoding of `str` arguments to UTF-8 and `decode_responses`; arguments and bulk replies are bytes.
- The 4300-digit limit of `int()` and the recursion limit on nested arrays.
- `AsyncRespReader` and `AsyncPipeline` as programs; they are the same machines with awaits.
- A borrower that releases a connection twice, or one it does not hold.
- Command methods and reply conversions of the clients and pipelines: argument lists with one branch each.
- Semantic cache, embedders, integrations, tag masks and vector commands: calls into models and servers that are not part of the repository.
- The regular expression engine: headings and fences are defined directly on characters.

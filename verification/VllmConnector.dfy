// KacheDBConnector of src/kachedb/vllm/connector.py: block offload and prefix restore.
module VllmConnector {
  import opened Bytes
  import opened Tensors
  import opened Dma
  import opened HalfFloats
  import opened Hashing
  import opened PrefixCache
  import opened BlockStore
  import R = Ring

  // One layer of a 5-D paged cache: layer_kv[b, 0] and layer_kv[b, 1] for every block b.
  datatype Layer = Layer(keys: seq<Tensor>, vals: seq<Tensor>)

  datatype Send = Send(prompt: seq<Token>, layers: seq<Layer>)

  type Positive = n: nat | n > 0 witness 1

  datatype Config = Config(hash: Hasher, blockSize: Positive, pool: nat)

  // What a send needs of its caller: a block in every layer for every whole block of the prompt.
  ghost predicate HasBlocks(layers: seq<Layer>, n: nat)
  {
    forall l :: 0 <= l < |layers| ==>
      n <= |layers[l].keys| && n <= |layers[l].vals| &&
      forall b :: 0 <= b < n ==> SameLayout(layers[l].keys[b], layers[l].vals[b])
  }

  ghost predicate AllComplete(cfg: Config, sends: seq<Send>)
  {
    forall i :: 0 <= i < |sends| ==> HasBlocks(sends[i].layers, Blocks(cfg.blockSize, sends[i].prompt))
  }

  ghost function SlotFor(layer: Layer, b: nat, l: nat, h: Hash): Bytes
  {
    if b < |layer.keys| && b < |layer.vals| then SlotBytes(layer.keys[b], layer.vals[b], l, h) else []
  }

  // The slots of one block, layer by layer.
  ghost function BlockSlots(layers: seq<Layer>, b: nat, h: Hash): (r: seq<Bytes>)
    ensures |r| == |layers|
  {
    seq(|layers|, l requires 0 <= l < |layers| => SlotFor(layers[l], b, l, h))
  }

  ghost function ItemFor(cfg: Config, i: nat, s: Send, b: nat): Item
    requires b < Blocks(cfg.blockSize, s.prompt)
  {
    var h := ChainHash(cfg.hash, cfg.blockSize, s.prompt, b + 1);
    Item(h, i, b, BlockSlots(s.layers, b, h))
  }

  // The blocks send i offers, in order.
  ghost function SendItems(cfg: Config, i: nat, s: Send): (r: seq<Item>)
    ensures |r| == Blocks(cfg.blockSize, s.prompt)
  {
    seq(Blocks(cfg.blockSize, s.prompt), b requires 0 <= b < Blocks(cfg.blockSize, s.prompt) => ItemFor(cfg, i, s, b))
  }

  ghost function Items(cfg: Config, sends: seq<Send>): seq<Item>
  {
    if sends == [] then []
    else Items(cfg, sends[..|sends| - 1]) + SendItems(cfg, |sends| - 1, sends[|sends| - 1])
  }

  // The store after a run of sends, oldest first.
  ghost function AfterSends(cfg: Config, sends: seq<Send>): Store
  {
    AfterItems(cfg.pool, cfg.blockSize, Items(cfg, sends))
  }

  // ---- Where each offered block stands in the run ----

  ghost function Position(cfg: Config, sends: seq<Send>, i: nat, b: nat): nat
    requires i <= |sends|
  {
    |Items(cfg, sends[..i])| + b
  }

  lemma {:induction false} ItemAtPosition(cfg: Config, sends: seq<Send>, i: nat, b: nat)
    requires i < |sends| && b < Blocks(cfg.blockSize, sends[i].prompt)
    ensures Position(cfg, sends, i, b) < |Items(cfg, sends)|
    ensures Items(cfg, sends)[Position(cfg, sends, i, b)] == ItemFor(cfg, i, sends[i], b)
  {
    var n := |sends| - 1;
    if i < n {
      ItemAtPosition(cfg, sends[..n], i, b);
      assert sends[..n][..i] == sends[..i];
    }
  }

  lemma {:induction false} PositionOfItem(cfg: Config, sends: seq<Send>, k: nat)
    requires k < |Items(cfg, sends)|
    ensures var it := Items(cfg, sends)[k];
            && it.sender < |sends| && it.block < Blocks(cfg.blockSize, sends[it.sender].prompt)
            && it == ItemFor(cfg, it.sender, sends[it.sender], it.block)
            && k == Position(cfg, sends, it.sender, it.block)
  {
    var n := |sends| - 1;
    var before := Items(cfg, sends[..n]);
    if k < |before| {
      PositionOfItem(cfg, sends[..n], k);
      var i := before[k].sender;
      assert sends[..n][..i] == sends[..i];
    }
  }

  lemma {:induction false} EarlierSendEarlierPosition(cfg: Config, sends: seq<Send>, i: nat, b: nat, j: nat, c: nat)
    requires i < j < |sends| && b < Blocks(cfg.blockSize, sends[i].prompt)
    ensures Position(cfg, sends, i, b) < Position(cfg, sends, j, c)
  {
    ItemAtPosition(cfg, sends[..j], i, b);
    assert sends[..j][..i] == sends[..i];
  }

  // ---- Longest prefix ----

  ghost function Prompts(sends: seq<Send>): set<seq<Token>>
  {
    set i | 0 <= i < |sends| :: sends[i].prompt
  }

  ghost predicate DigestFits(cfg: Config, sends: seq<Send>, p: seq<Token>)
  {
    CollisionFree(cfg.hash, HashInputs(cfg.hash, cfg.blockSize, Prompts(sends) + {p}))
  }

  // The number of blocks find_longest_prefix matches after a run.
  ghost function MatchedAfter(cfg: Config, sends: seq<Send>, p: seq<Token>): nat
  {
    Matched(AfterSends(cfg, sends).index, ChainHashes(cfg.hash, cfg.blockSize, p))
  }

  // i is the first send whose prompt begins with the first b blocks of p.
  ghost predicate FirstSender(cfg: Config, sends: seq<Send>, p: seq<Token>, b: nat, i: nat)
  {
    && i < |sends| && ShareBlocks(cfg.blockSize, p, sends[i].prompt, b)
    && forall j :: 0 <= j < i ==> !ShareBlocks(cfg.blockSize, p, sends[j].prompt, b)
  }

  // An item offered under the hash of the first b + 1 blocks of p is block b of a prompt that
  // begins with them.
  lemma ItemSharesBlocks(cfg: Config, sends: seq<Send>, p: seq<Token>, b: nat, k: nat)
    requires DigestFits(cfg, sends, p) && b < Blocks(cfg.blockSize, p)
    requires k < |Items(cfg, sends)|
    requires Items(cfg, sends)[k].key == ChainHash(cfg.hash, cfg.blockSize, p, b + 1)
    ensures var it := Items(cfg, sends)[k];
            it.sender < |sends| && it.block == b &&
            ShareBlocks(cfg.blockSize, p, sends[it.sender].prompt, b + 1)
  {
    PositionOfItem(cfg, sends, k);
    var it := Items(cfg, sends)[k];
    SameHashSameBlocks(cfg, sends, p, b, it.sender, it.block);
  }

  lemma SameHashSameBlocks(cfg: Config, sends: seq<Send>, p: seq<Token>, b: nat, i: nat, c: nat)
    requires DigestFits(cfg, sends, p) && b < Blocks(cfg.blockSize, p)
    requires i < |sends| && c < Blocks(cfg.blockSize, sends[i].prompt)
    requires ChainHash(cfg.hash, cfg.blockSize, sends[i].prompt, c + 1) ==
             ChainHash(cfg.hash, cfg.blockSize, p, b + 1)
    ensures b == c && ShareBlocks(cfg.blockSize, p, sends[i].prompt, b + 1)
  {
    assert sends[i].prompt in Prompts(sends);
    ChainHashInjective(cfg.hash, cfg.blockSize, Prompts(sends) + {p}, p, b + 1, sends[i].prompt, c + 1);
  }

  // A prompt sharing the first b + 1 blocks of p offers its block b under their hash.
  lemma SharedBlockOffered(cfg: Config, sends: seq<Send>, p: seq<Token>, b: nat, i: nat)
    requires i < |sends| && ShareBlocks(cfg.blockSize, p, sends[i].prompt, b + 1)
    ensures Position(cfg, sends, i, b) < |Items(cfg, sends)|
    ensures Items(cfg, sends)[Position(cfg, sends, i, b)].key == ChainHash(cfg.hash, cfg.blockSize, p, b + 1)
  {
    ChainHashOfPrefix(cfg.hash, cfg.blockSize, p, sends[i].prompt, b + 1);
    ItemAtPosition(cfg, sends, i, b);
  }

  // The first item offered under the hash of a prompt's first b + 1 blocks comes from the first
  // send with those blocks.
  lemma FirstItemFirstSender(cfg: Config, sends: seq<Send>, p: seq<Token>, b: nat, k: nat)
    requires DigestFits(cfg, sends, p) && b < Blocks(cfg.blockSize, p)
    requires FirstOffered(Items(cfg, sends), ChainHash(cfg.hash, cfg.blockSize, p, b + 1), k)
    ensures FirstSender(cfg, sends, p, b + 1, Items(cfg, sends)[k].sender)
    ensures Items(cfg, sends)[k].block == b
  {
    ItemSharesBlocks(cfg, sends, p, b, k);
    PositionOfItem(cfg, sends, k);
    var i := Items(cfg, sends)[k].sender;
    forall j | 0 <= j < i ensures !ShareBlocks(cfg.blockSize, p, sends[j].prompt, b + 1) {
      if ShareBlocks(cfg.blockSize, p, sends[j].prompt, b + 1) {
        SharedBlockOffered(cfg, sends, p, b, j);
        EarlierSendEarlierPosition(cfg, sends, j, b, i, b);
        assert false;
      }
    }
  }

  // find_longest_prefix returns the largest number of leading blocks any sent prompt shares.
  lemma LongestPrefix(cfg: Config, sends: seq<Send>, p: seq<Token>)
    requires DigestFits(cfg, sends, p)
    ensures forall i, b :: 0 <= i < |sends| && 0 <= b && ShareBlocks(cfg.blockSize, p, sends[i].prompt, b) ==>
              b <= MatchedAfter(cfg, sends, p)
    ensures MatchedAfter(cfg, sends, p) > 0 ==>
              exists i :: 0 <= i < |sends| &&
                ShareBlocks(cfg.blockSize, p, sends[i].prompt, MatchedAfter(cfg, sends, p))
  {
    var m := MatchedAfter(cfg, sends, p);
    var items := Items(cfg, sends);
    AfterItemsTraced(cfg.pool, cfg.blockSize, items);
    forall i, b | 0 <= i < |sends| && 0 <= b && ShareBlocks(cfg.blockSize, p, sends[i].prompt, b) ensures b <= m {
      SharedBlocksIndexed(cfg, sends, p, b, i);
    }
    if m > 0 {
      var h := ChainHash(cfg.hash, cfg.blockSize, p, m);
      assert h == ChainHashes(cfg.hash, cfg.blockSize, p)[m - 1];
      ItemSharesBlocks(cfg, sends, p, m - 1, AfterSends(cfg, sends).origin[h].item);
    }
  }

  // So a prompt that was ever sent is matched in all its whole blocks.
  lemma SentPromptMatched(cfg: Config, sends: seq<Send>, i: nat)
    requires i < |sends| && DigestFits(cfg, sends, sends[i].prompt)
    ensures MatchedAfter(cfg, sends, sends[i].prompt) == Blocks(cfg.blockSize, sends[i].prompt)
  {
    var p := sends[i].prompt;
    LongestPrefix(cfg, sends, p);
    assert ShareBlocks(cfg.blockSize, p, sends[i].prompt, Blocks(cfg.blockSize, p));
  }

  lemma SharedBlocksIndexed(cfg: Config, sends: seq<Send>, p: seq<Token>, b: nat, i: nat)
    requires i < |sends| && ShareBlocks(cfg.blockSize, p, sends[i].prompt, b)
    ensures forall c :: 0 <= c < b ==> ChainHashes(cfg.hash, cfg.blockSize, p)[c] in AfterSends(cfg, sends).index
  {
    forall c | 0 <= c < b
      ensures ChainHashes(cfg.hash, cfg.blockSize, p)[c] in AfterSends(cfg, sends).index
    {
      SharedBlockIndexed(cfg, sends, p, b, i, c);
    }
  }

  lemma SharedBlockIndexed(cfg: Config, sends: seq<Send>, p: seq<Token>, b: nat, i: nat, c: nat)
    requires i < |sends| && ShareBlocks(cfg.blockSize, p, sends[i].prompt, b) && c < b
    ensures ChainHash(cfg.hash, cfg.blockSize, p, c + 1) in AfterSends(cfg, sends).index
  {
    ShareFewerBlocks(cfg.blockSize, p, sends[i].prompt, b, c + 1);
    SharedBlockOffered(cfg, sends, p, c, i);
    OfferedIsIndexed(cfg.pool, cfg.blockSize, Items(cfg, sends), Position(cfg, sends, i, c));
  }

  // ---- End to end ----

  // The item an index entry stands for and the first of its slots.
  ghost function OriginOf(cfg: Config, sends: seq<Send>, h: Hash): (o: Origin)
    requires h in AfterSends(cfg, sends).index
    ensures Traced(cfg.pool, cfg.blockSize, Items(cfg, sends), AfterSends(cfg, sends), h)
    ensures o == AfterSends(cfg, sends).origin[h]
  {
    AfterItemsTraced(cfg.pool, cfg.blockSize, Items(cfg, sends));
    AfterSends(cfg, sends).origin[h]
  }

  lemma MatchedIsIndexed(cfg: Config, sends: seq<Send>, p: seq<Token>, b: nat)
    requires b < MatchedAfter(cfg, sends, p)
    ensures ChainHash(cfg.hash, cfg.blockSize, p, b + 1) in AfterSends(cfg, sends).index
  {
    assert ChainHash(cfg.hash, cfg.blockSize, p, b + 1) == ChainHashes(cfg.hash, cfg.blockSize, p)[b];
  }

  // The first send that shares the first b + 1 blocks of a matched prompt.
  ghost function SenderOf(cfg: Config, sends: seq<Send>, p: seq<Token>, b: nat): (i: nat)
    requires DigestFits(cfg, sends, p) && b < MatchedAfter(cfg, sends, p)
    ensures FirstSender(cfg, sends, p, b + 1, i)
  {
    MatchedIsIndexed(cfg, sends, p, b);
    var k := OriginOf(cfg, sends, ChainHash(cfg.hash, cfg.blockSize, p, b + 1)).item;
    FirstItemFirstSender(cfg, sends, p, b, k);
    Items(cfg, sends)[k].sender
  }

  // The slot of the run that holds layer l of block b of a matched prompt.
  ghost function SlotOf(cfg: Config, sends: seq<Send>, p: seq<Token>, b: nat, l: nat): nat
    requires b < MatchedAfter(cfg, sends, p)
  {
    MatchedIsIndexed(cfg, sends, p, b);
    OriginOf(cfg, sends, ChainHash(cfg.hash, cfg.blockSize, p, b + 1)).firstSlot + l
  }

  // The item matched for block b is block b of its first sender.
  lemma MatchedItem(cfg: Config, sends: seq<Send>, p: seq<Token>, b: nat)
    requires DigestFits(cfg, sends, p) && b < MatchedAfter(cfg, sends, p)
    ensures ChainHash(cfg.hash, cfg.blockSize, p, b + 1) in AfterSends(cfg, sends).index
    ensures var h := ChainHash(cfg.hash, cfg.blockSize, p, b + 1);
            Items(cfg, sends)[OriginOf(cfg, sends, h).item].slots ==
            BlockSlots(sends[SenderOf(cfg, sends, p, b)].layers, b, h)
  {
    MatchedIsIndexed(cfg, sends, p, b);
    var k := OriginOf(cfg, sends, ChainHash(cfg.hash, cfg.blockSize, p, b + 1)).item;
    FirstItemFirstSender(cfg, sends, p, b, k);
    PositionOfItem(cfg, sends, k);
  }

  // Layer l of a block, in a slot of the run at an offset of the ring.
  ghost predicate Holds(cfg: Config, run: R.Run, slot: nat, offset: nat, layer: Layer, b: nat, l: nat, h: Hash)
  {
    && slot < |run| && offset == R.Offset(cfg.pool, run, slot)
    && b < |layer.keys| && b < |layer.vals| && SameLayout(layer.keys[b], layer.vals[b])
    && run[slot] == SlotBytes(layer.keys[b], layer.vals[b], l, h)
  }

  lemma SlotsHold(cfg: Config, run: R.Run, first: nat, layers: seq<Layer>, n: nat, b: nat, l: nat, h: Hash)
    requires HasBlocks(layers, n) && b < n && l < |layers| && first + |layers| <= |run|
    requires run[first..first + |layers|] == BlockSlots(layers, b, h)
    ensures Holds(cfg, run, first + l, SlotOffsets(cfg.pool, run, first, |layers|)[l], layers[l], b, l, h)
  {
    assert run[first + l] == run[first..first + |layers|][l] == SlotFor(layers[l], b, l, h);
  }

  // The entry of a matched block lists one offset for each layer of the first send with that
  // prefix, each the offset of a slot holding that send's key and value for the block.
  lemma MatchedBlockSlots(cfg: Config, sends: seq<Send>, p: seq<Token>, b: nat, l: nat)
    requires AllComplete(cfg, sends) && DigestFits(cfg, sends, p) && b < MatchedAfter(cfg, sends, p)
    requires l < |sends[SenderOf(cfg, sends, p, b)].layers|
    ensures var st := AfterSends(cfg, sends);
            var h := ChainHash(cfg.hash, cfg.blockSize, p, b + 1);
            var layers := sends[SenderOf(cfg, sends, p, b)].layers;
            && h in st.index && |st.index[h].layerOffsets| == |layers|
            && Holds(cfg, st.run, SlotOf(cfg, sends, p, b, l), st.index[h].layerOffsets[l], layers[l], b, l, h)
  {
    hide BlockSlots, SlotBytes, AfterSends, ChainHash, Holds, HasBlocks, SlotOffsets, R.Offset;
    MatchedItem(cfg, sends, p, b);
    var i := SenderOf(cfg, sends, p, b);
    var h := ChainHash(cfg.hash, cfg.blockSize, p, b + 1);
    SlotsHold(cfg, AfterSends(cfg, sends).run, OriginOf(cfg, sends, h).firstSlot, sends[i].layers,
              Blocks(cfg.blockSize, sends[i].prompt), b, l, h);
  }

  // Whatever was sent, in whatever order: reading layer l of a matched block gives exactly the bits
  // of the key and value of the first send with that prefix, as float16, while their slot is live.
  lemma RestoredIsFirstSent(cfg: Config, sends: seq<Send>, p: seq<Token>, b: nat, l: nat)
    requires AllComplete(cfg, sends) && DigestFits(cfg, sends, p) && b < MatchedAfter(cfg, sends, p)
    requires l < |sends[SenderOf(cfg, sends, p, b)].layers|
    requires SlotOf(cfg, sends, p, b, l) < |AfterSends(cfg, sends).run|
    requires R.Live(cfg.pool, AfterSends(cfg, sends).run, SlotOf(cfg, sends, p, b, l))
    requires SixteenBit(sends[SenderOf(cfg, sends, p, b)].layers[l], b)
    ensures var st := AfterSends(cfg, sends);
            var h := ChainHash(cfg.hash, cfg.blockSize, p, b + 1);
            var layer := sends[SenderOf(cfg, sends, p, b)].layers[l];
            && h in st.index && l < |st.index[h].layerOffsets|
            && b < |layer.vals| && layer.vals[b].dtype == layer.keys[b].dtype
            && ReadBlock(R.After(cfg.pool, st.run).buf, st.index[h].layerOffsets[l],
                         layer.keys[b].heads, layer.keys[b].tokens, layer.keys[b].dim, Float16)
               == Some((AsFloat16(layer.keys[b]), AsFloat16(layer.vals[b])))
  {
    MatchedBlockSlots(cfg, sends, p, b, l);
    var layer := sends[SenderOf(cfg, sends, p, b)].layers[l];
    ReadBackAsFloat16(cfg.pool, AfterSends(cfg, sends).run, SlotOf(cfg, sends, p, b, l), layer.keys[b], layer.vals[b],
                      l,
                      ChainHash(cfg.hash, cfg.blockSize, p, b + 1));
  }

  // Block b of the layer has elements of 16 bits.
  ghost predicate SixteenBit(layer: Layer, b: nat)
  {
    b < |layer.keys| && layer.keys[b].dtype.ItemSize() == 2 && layer.keys[b].Elements() > 0
  }

  // ---- The connector object ----

  // One layer's paged cache, updated in place by a restore.
  class KvCacheLayer {
    const heads: nat
    const tokens: nat
    const dim: nat
    const dtype: DType
    var keys: seq<Tensor>
    var vals: seq<Tensor>

    constructor (heads: nat, tokens: nat, dim: nat, dtype: DType, keys: seq<Tensor>, vals: seq<Tensor>)
      ensures this.heads == heads && this.tokens == tokens && this.dim == dim && this.dtype == dtype
      ensures this.keys == keys && this.vals == vals
    {
      this.heads, this.tokens, this.dim, this.dtype := heads, tokens, dim, dtype;
      this.keys, this.vals := keys, vals;
    }

    function Elements(): nat { heads * tokens * dim }

    ghost predicate Fits(t: Tensor)
    {
      t.WellFormed() && t.heads == heads && t.tokens == tokens && t.dim == dim && t.dtype == dtype
    }

    ghost predicate Valid()
      reads this
    {
      && |keys| == |vals|
      && forall b :: 0 <= b < |keys| ==> Fits(keys[b]) && Fits(vals[b])
    }
  }

  ghost function Snapshots(kvCaches: seq<KvCacheLayer>): (r: seq<Layer>)
    reads kvCaches
    ensures |r| == |kvCaches|
    ensures forall l :: 0 <= l < |r| ==> r[l] == Layer(kvCaches[l].keys, kvCaches[l].vals)
  {
    if kvCaches == [] then []
    else Snapshots(kvCaches[..|kvCaches| - 1]) +
         [Layer(kvCaches[|kvCaches| - 1].keys, kvCaches[|kvCaches| - 1].vals)]
  }

  datatype Outcome = Miss | Hit | Raised

  // Layer l of a matched block was offloaded, but its read of two float16 tensors of the target's
  // shape asks for nothing or runs past the end of the pool.
  predicate LeavesPool(buf: Bytes, entry: Entry, l: nat, target: KvCacheLayer)
  {
    && l < |entry.layerOffsets|
    && (target.Elements() == 0 || entry.layerOffsets[l] + 64 + 4 * target.Elements() > |buf|)
  }

  lemma DefaultReadIff(buf: Bytes, offset: nat, heads: nat, tokens: nat, dim: nat)
    ensures ReadBlock(buf, offset, heads, tokens, dim, Float16).Some? <==>
            heads * tokens * dim > 0 && offset + 64 + 4 * (heads * tokens * dim) <= |buf|
  {
  }

  // Block b of the target holds what is read at this offset, converted to the target's type.
  ghost predicate HoldsRead(cast: (Tensor, DType) -> Tensor, buf: Bytes, target: KvCacheLayer, b: nat, offset: nat)
    reads target
  {
    var r := ReadBlock(buf, offset, target.heads, target.tokens, target.dim, Float16);
    && b < |target.keys| && b < |target.vals| && r.Some?
    && target.keys[b] == cast(r.value.0, target.dtype) && target.vals[b] == cast(r.value.1, target.dtype)
  }

  // Of blocks [0, b), those offloaded with layer l hold what is read; all others are as before.
  ghost predicate Filled(cast: (Tensor, DType) -> Tensor, buf: Bytes, entries: seq<Entry>, l: nat,
                         target: KvCacheLayer, before: Layer, b: nat)
    reads target
    requires b <= |entries|
  {
    && |target.keys| == |before.keys| && |target.vals| == |before.vals|
    && forall c :: 0 <= c < |target.keys| && c < |target.vals| ==>
         if c < b && l < |entries[c].layerOffsets| then HoldsRead(cast, buf, target, c, entries[c].layerOffsets[l])
         else target.keys[c] == before.keys[c] && target.vals[c] == before.vals[c]
  }

  // No read before that of layer k of block b leaves the pool, block by block and layer by layer.
  ghost predicate NoneBefore(buf: Bytes, entries: seq<Entry>, targets: seq<KvCacheLayer>, b: nat, k: nat)
    requires b <= |entries| && k <= |targets| && (b == |entries| ==> k == 0)
  {
    forall c, l {:trigger LeavesPool(buf, entries[c], l, targets[l])} ::
      0 <= c <= b && 0 <= l < |targets| && (c < b || l < k) ==> !LeavesPool(buf, entries[c], l, targets[l])
  }

  // The first read to leave the pool was that of layer k of block b: the layers before it hold one
  // block more than the others.
  ghost predicate StoppedAt(cast: (Tensor, DType) -> Tensor, buf: Bytes, entries: seq<Entry>,
                            targets: seq<KvCacheLayer>, before: seq<Layer>, b: nat, k: nat)
    requires |targets| == |before| && b < |entries| && k < |targets|
    reads targets
  {
    && LeavesPool(buf, entries[b], k, targets[k]) && NoneBefore(buf, entries, targets, b, k)
    && forall l :: 0 <= l < |targets| ==>
         Filled(cast, buf, entries, l, targets[l], before[l], if l < k then b + 1 else b)
  }

  // The entries find_longest_prefix returns.
  ghost function MatchedEntries(index: map<Hash, Entry>, hashes: seq<Hash>): (r: seq<Entry>)
    ensures |r| == Matched(index, hashes)
  {
    seq(Matched(index, hashes), b requires 0 <= b < Matched(index, hashes) => index[hashes[b]])
  }

  class KacheDBConnector {
    const prefixCache: KacheDBPrefixCache
    const memory: MemoryManager
    // copy_ into a tensor of another type
    const cast: (Tensor, DType) -> Tensor
    // Every send so far, oldest first.
    ghost var sends: seq<Send>

    ghost function Cfg(): Config
      requires prefixCache.Valid()
    {
      Config(prefixCache.hash, prefixCache.blockSize, memory.poolSize)
    }

    ghost predicate Valid()
      reads this, prefixCache, memory
    {
      && prefixCache.Valid()
      && memory.Valid()
      && AllComplete(Cfg(), sends)
      && memory.run == AfterSends(Cfg(), sends).run
      && prefixCache.index == AfterSends(Cfg(), sends).index
    }

    constructor (digest: Digest, blockSize: nat, poolSize: nat, cast: (Tensor, DType) -> Tensor)
      requires blockSize > 0
      ensures Valid() && sends == []
      ensures prefixCache.digest == digest && prefixCache.blockSize == blockSize && memory.poolSize == poolSize
      ensures this.cast == cast
    {
      prefixCache := new KacheDBPrefixCache(digest, blockSize);
      memory := new MemoryManager(poolSize);
      this.cast := cast;
      sends := [];
    }

    // The run of sends so far determines the store, and a send adds itself to that run.
    method SendKvCaches(prompt: seq<Token>, kvCaches: seq<KvCacheLayer>)
      requires Valid()
      requires forall l :: 0 <= l < |kvCaches| ==>
                 kvCaches[l].Valid() && Blocks(prefixCache.blockSize, prompt) <= |kvCaches[l].keys|
      modifies this, prefixCache, memory
      ensures Valid()
      ensures sends == old(sends) + [Send(prompt, old(Snapshots(kvCaches)))]
    {
      ghost var s := Send(prompt, Snapshots(kvCaches));
      SnapshotsComplete(kvCaches, Blocks(prefixCache.blockSize, prompt));
      OneMoreSend(Cfg(), sends, s);
      OffloadBlocks(prompt, kvCaches, Items(Cfg(), sends), SendItems(Cfg(), |sends|, s));
      sends := sends + [s];
    }

    // Offer the blocks of a prompt in order.
    method OffloadBlocks(prompt: seq<Token>, kvCaches: seq<KvCacheLayer>,
                         ghost items: seq<Item>, ghost offered: seq<Item>)
      requires memory.Valid() && prefixCache.Valid()
      requires forall l :: 0 <= l < |kvCaches| ==>
                 kvCaches[l].Valid() && Blocks(prefixCache.blockSize, prompt) <= |kvCaches[l].keys|
      requires |offered| == Blocks(prefixCache.blockSize, prompt)
      requires forall b :: 0 <= b < |offered| ==>
                 offered[b].key == ChainHash(prefixCache.hash, prefixCache.blockSize, prompt, b + 1) &&
                 offered[b].block == b &&
                 offered[b].slots == BlockSlots(Snapshots(kvCaches), b, offered[b].key)
      requires memory.run == AfterItems(memory.poolSize, prefixCache.blockSize, items).run
      requires prefixCache.index == AfterItems(memory.poolSize, prefixCache.blockSize, items).index
      modifies prefixCache, memory
      ensures memory.Valid()
      ensures memory.run == AfterItems(memory.poolSize, prefixCache.blockSize, items + offered).run
      ensures prefixCache.index == AfterItems(memory.poolSize, prefixCache.blockSize, items + offered).index
    {
      hide AfterItems, BlockSlots, SlotOffsets;
      TakeNoneOrAll(offered);
      assert items + [] == items;
      if |prompt| == 0 {
        return;
      }
      var hashes := prefixCache.ComputeSequenceHashes(prompt);
      for b := 0 to |hashes|
        invariant memory.Valid()
        invariant memory.run == AfterItems(memory.poolSize, prefixCache.blockSize, items + offered[..b]).run
        invariant prefixCache.index == AfterItems(memory.poolSize, prefixCache.blockSize, items + offered[..b]).index
      {
        AfterItemsSnoc(memory.poolSize, prefixCache.blockSize, items + offered[..b], offered[b]);
        AppendOneMore(items, offered, b);
        OfferBlock(kvCaches, b, hashes[b]);
      }
    }

    // Skip an indexed block; otherwise write its layers and index it.
    method OfferBlock(kvCaches: seq<KvCacheLayer>, b: nat, h: Hash)
      requires memory.Valid()
      requires forall l :: 0 <= l < |kvCaches| ==> kvCaches[l].Valid() && b < |kvCaches[l].keys|
      modifies prefixCache, memory
      ensures memory.Valid()
      ensures h in old(prefixCache.index) ==>
                memory.run == old(memory.run) && prefixCache.index == old(prefixCache.index)
      ensures h !in old(prefixCache.index) ==>
                var slots := BlockSlots(Snapshots(kvCaches), b, h);
                && memory.run == old(memory.run) + slots
                && prefixCache.index == old(prefixCache.index)[h :=
                     Entry(b, prefixCache.blockSize,
                           SlotOffsets(memory.poolSize, memory.run, |old(memory.run)|, |slots|), |slots|)]
    {
      var found := prefixCache.LookupBlock(h);
      if found.None? {
        var layerOffsets := OffloadLayers(kvCaches, b, h);
        prefixCache.RegisterBlock(h, b, prefixCache.blockSize, layerOffsets, |kvCaches|);
      }
    }

    // Write block b of every layer and collect the offsets.
    method OffloadLayers(kvCaches: seq<KvCacheLayer>, b: nat, h: Hash) returns (layerOffsets: seq<nat>)
      requires memory.Valid()
      requires forall l :: 0 <= l < |kvCaches| ==> kvCaches[l].Valid() && b < |kvCaches[l].keys|
      modifies memory
      ensures memory.Valid()
      ensures memory.run == old(memory.run) + BlockSlots(Snapshots(kvCaches), b, h)
      ensures layerOffsets == SlotOffsets(memory.poolSize, memory.run, |old(memory.run)|, |kvCaches|)
    {
      ghost var start, slots := memory.run, BlockSlots(Snapshots(kvCaches), b, h);
      layerOffsets := [];
      TakeNoneOrAll(slots);
      for l := 0 to |kvCaches|
        invariant memory.Valid() && memory.run == start + slots[..l]
        invariant layerOffsets == SlotOffsets(memory.poolSize, memory.run, |start|, l)
      {
        ghost var before := memory.run;
        assert slots[l] == SlotBytes(kvCaches[l].keys[b], kvCaches[l].vals[b], l, h);
        var offset, _, _ := memory.WritePagedBlock(kvCaches[l].keys[b], kvCaches[l].vals[b], l, h);
        OneMoreOffset(memory.poolSize, start, slots, l);
        layerOffsets := layerOffsets + [offset];
      }
    }

    // The entries a restore of this prompt uses.
    ghost function Hits(prompt: seq<Token>): seq<Entry>
      requires prefixCache.Valid()
      reads prefixCache
    {
      MatchedEntries(prefixCache.index, ChainHashes(prefixCache.hash, prefixCache.blockSize, prompt))
    }

    // Restore the matched blocks into the targets, or raise when a read runs out of the pool.
    method RecvKvCaches(prompt: seq<Token>, kvCaches: seq<KvCacheLayer>) returns (r: Outcome)
      requires Valid()
      requires forall i, j :: 0 <= i < j < |kvCaches| ==> kvCaches[i] != kvCaches[j]
      requires forall l :: 0 <= l < |kvCaches| ==>
                 |kvCaches[l].keys| == |kvCaches[l].vals| && |Hits(prompt)| <= |kvCaches[l].keys|
      modifies kvCaches
      ensures r == Miss <==> |Hits(prompt)| == 0
      ensures r == Raised <==>
                exists c, l {:trigger LeavesPool(memory.buf, Hits(prompt)[c], l, kvCaches[l])} ::
                  0 <= c < |Hits(prompt)| && 0 <= l < |kvCaches| &&
                  LeavesPool(memory.buf, Hits(prompt)[c], l, kvCaches[l])
      ensures r != Raised ==>
                forall l :: 0 <= l < |kvCaches| ==>
                  Filled(cast, memory.buf, Hits(prompt), l, kvCaches[l], old(Snapshots(kvCaches))[l], |Hits(prompt)|)
      ensures r == Raised ==>
                exists b, k :: 0 <= b < |Hits(prompt)| && 0 <= k < |kvCaches| &&
                  StoppedAt(cast, memory.buf, Hits(prompt), kvCaches, old(Snapshots(kvCaches)), b, k)
    {
      ghost var before := Snapshots(kvCaches);
      if |prompt| == 0 {
        return Miss;
      }
      var matchedTokens, matched := FindHits(prompt);
      if matchedTokens == 0 {
        return Miss;
      }
      var ok := RestoreBlocks(kvCaches, matched, before);
      assert matched == Hits(prompt);
      r := if ok then Hit else Raised;
    }

    // What a restore does, told from the sends alone.  It raises exactly when some layer that the
    // first sender of a matched block offloaded is read past the end of the pool; a layer it did
    // not offload is left as it was, whatever the outcome; and after a hit every layer of every
    // matched block is restored while its slot is live.
    method RestorePrompt(prompt: seq<Token>, kvCaches: seq<KvCacheLayer>) returns (r: Outcome)
      requires Valid() && DigestFits(Cfg(), sends, prompt)
      requires forall i, j :: 0 <= i < j < |kvCaches| ==> kvCaches[i] != kvCaches[j]
      requires forall l :: 0 <= l < |kvCaches| ==>
                 |kvCaches[l].keys| == |kvCaches[l].vals| && |Hits(prompt)| <= |kvCaches[l].keys|
      modifies kvCaches
      ensures r == Miss <==> MatchedAfter(Cfg(), sends, prompt) == 0
      ensures r == Raised <==>
                exists b, l {:trigger SentLeavesPool(Cfg(), sends, prompt, b, l, |memory.buf|, kvCaches[l])} ::
                  0 <= b < MatchedAfter(Cfg(), sends, prompt) && 0 <= l < |kvCaches| &&
                  SentLeavesPool(Cfg(), sends, prompt, b, l, |memory.buf|, kvCaches[l])
      ensures forall l, b {:trigger NotSent(Cfg(), sends, prompt, b, l)} ::
                0 <= l < |kvCaches| && 0 <= b < MatchedAfter(Cfg(), sends, prompt)
                && NotSent(Cfg(), sends, prompt, b, l) ==>
                  && b < |kvCaches[l].keys| == |old(kvCaches[l].keys)|
                  && b < |kvCaches[l].vals| == |old(kvCaches[l].vals)|
                  && kvCaches[l].keys[b] == old(kvCaches[l].keys)[b] && kvCaches[l].vals[b] == old(kvCaches[l].vals)[b]
      ensures r == Hit ==>
                forall l, b {:trigger StillLive(Cfg(), sends, prompt, b, l)} ::
                  0 <= l < |kvCaches| && 0 <= b < MatchedAfter(Cfg(), sends, prompt)
                  && StillLive(Cfg(), sends, prompt, b, l) ==>
                    RestoredFor(Cfg(), sends, prompt, b, l, cast, kvCaches[l])
    {
      hide DigestFits, AfterSends, R.After, R.Live, ChainHashes, LeavesPool, SentLeavesPool, StillLive, RestoredFor,
           NotSent, SlotOf, AllComplete, Filled, StoppedAt, HitsAfter;
      ghost var before := Snapshots(kvCaches);
      r := RecvKvCaches(prompt, kvCaches);
      ghost var cfg, buf, hits := Cfg(), memory.buf, Hits(prompt);
      HitsAre(cfg, sends, prompt);
      assert hits == HitsAfter(cfg, sends, prompt) && buf == R.After(cfg.pool, AfterSends(cfg, sends).run).buf;
      if r == Raised {
        ghost var b, l :| 0 <= b < |hits| && 0 <= l < |kvCaches| && LeavesPool(buf, hits[b], l, kvCaches[l]);
        HitLeavesPool(cfg, sends, prompt, b, l, buf, kvCaches[l]);
      }
      forall b, l | 0 <= b < |hits| && 0 <= l < |kvCaches|
                    && SentLeavesPool(cfg, sends, prompt, b, l, |buf|, kvCaches[l])
        ensures r == Raised
      {
        HitLeavesPool(cfg, sends, prompt, b, l, buf, kvCaches[l]);
        assert LeavesPool(memory.buf, Hits(prompt)[b], l, kvCaches[l]);
      }
      forall l, b | 0 <= l < |kvCaches| && 0 <= b < |hits| && NotSent(cfg, sends, prompt, b, l)
        ensures b < |kvCaches[l].keys| == |before[l].keys| && b < |kvCaches[l].vals| == |before[l].vals|
        ensures kvCaches[l].keys[b] == before[l].keys[b] && kvCaches[l].vals[b] == before[l].vals[b]
      {
        UnsentUnchanged(cfg, sends, prompt, cast, buf, kvCaches, before, r == Raised, l, b);
      }
      if r == Hit {
        forall l, b | 0 <= l < |kvCaches| && 0 <= b < |hits| && StillLive(cfg, sends, prompt, b, l)
          ensures RestoredFor(cfg, sends, prompt, b, l, cast, kvCaches[l])
        {
          LiveIsRestored(cfg, sends, prompt, b, l, cast, kvCaches[l], before[l]);
        }
      }
    }

    method FindHits(prompt: seq<Token>) returns (matchedTokens: nat, matched: seq<Entry>)
      requires prefixCache.Valid()
      ensures matched == Hits(prompt)
      ensures matchedTokens == 0 <==> |matched| == 0
    {
      matchedTokens, matched := prefixCache.FindLongestPrefix(prompt);
      TokensOfBlocks(|matched|, prefixCache.blockSize);
    }

    // Restore every matched block of every layer, stopping at the first read that fails.
    method RestoreBlocks(kvCaches: seq<KvCacheLayer>, matched: seq<Entry>, ghost before: seq<Layer>)
      returns (ok: bool)
      requires forall i, j :: 0 <= i < j < |kvCaches| ==> kvCaches[i] != kvCaches[j]
      requires |before| == |kvCaches|
      requires forall l :: 0 <= l < |kvCaches| ==>
                 |matched| <= |kvCaches[l].keys| == |kvCaches[l].vals| &&
                 before[l] == Layer(kvCaches[l].keys, kvCaches[l].vals)
      modifies kvCaches
      ensures ok ==> NoneBefore(memory.buf, matched, kvCaches, |matched|, 0)
      ensures ok ==>
                forall l :: 0 <= l < |kvCaches| ==>
                  Filled(cast, memory.buf, matched, l, kvCaches[l], before[l], |matched|)
      ensures !ok ==>
                exists b, k :: 0 <= b < |matched| && 0 <= k < |kvCaches| &&
                  StoppedAt(cast, memory.buf, matched, kvCaches, before, b, k)
    {
      for b := 0 to |matched|
        invariant NoneBefore(memory.buf, matched, kvCaches, b, 0)
        invariant forall l :: 0 <= l < |kvCaches| ==>
                    Filled(cast, memory.buf, matched, l, kvCaches[l], before[l], b)
      {
        ok := RestoreLayers(kvCaches, matched, b, before);
        if !ok { return; }
      }
      ok := true;
    }

    // Restore one matched block of every layer.
    method RestoreLayers(kvCaches: seq<KvCacheLayer>, matched: seq<Entry>, b: nat, ghost before: seq<Layer>)
      returns (ok: bool)
      requires forall i, j :: 0 <= i < j < |kvCaches| ==> kvCaches[i] != kvCaches[j]
      requires |before| == |kvCaches| && b < |matched|
      requires forall l :: 0 <= l < |kvCaches| ==> b < |kvCaches[l].keys| == |kvCaches[l].vals|
      requires NoneBefore(memory.buf, matched, kvCaches, b, 0)
      requires forall l :: 0 <= l < |kvCaches| ==> Filled(cast, memory.buf, matched, l, kvCaches[l], before[l], b)
      modifies kvCaches
      ensures ok ==> NoneBefore(memory.buf, matched, kvCaches, b + 1, 0)
      ensures ok ==>
                forall l :: 0 <= l < |kvCaches| ==> Filled(cast, memory.buf, matched, l, kvCaches[l], before[l], b + 1)
      ensures !ok ==>
                exists k :: 0 <= k < |kvCaches| && StoppedAt(cast, memory.buf, matched, kvCaches, before, b, k)
    {
      ok := true;
      for l := 0 to |kvCaches|
        invariant NoneBefore(memory.buf, matched, kvCaches, b, l)
        invariant forall k :: 0 <= k < l ==> Filled(cast, memory.buf, matched, k, kvCaches[k], before[k], b + 1)
        invariant forall k :: l <= k < |kvCaches| ==> Filled(cast, memory.buf, matched, k, kvCaches[k], before[k], b)
        invariant ok
      {
        ok := RestoreCell(kvCaches[l], matched, b, l, before[l]);
        if !ok {
          assert StoppedAt(cast, memory.buf, matched, kvCaches, before, b, l);
          return;
        }
      }
    }

    // Restore one block of one layer, if that layer was offloaded.
    method RestoreCell(target: KvCacheLayer, matched: seq<Entry>, b: nat, l: nat, ghost before: Layer)
      returns (ok: bool)
      requires b < |matched| && b < |target.keys| == |target.vals|
      requires Filled(cast, memory.buf, matched, l, target, before, b)
      modifies target
      ensures ok <==> !LeavesPool(memory.buf, matched[b], l, target)
      ensures Filled(cast, memory.buf, matched, l, target, before, if ok then b + 1 else b)
    {
      ok := true;
      if l < |matched[b].layerOffsets| {
        var offset := matched[b].layerOffsets[l];
        DefaultReadIff(memory.buf, offset, target.heads, target.tokens, target.dim);
        var read := memory.ReadPagedBlock(offset, target.heads, target.tokens, target.dim, None);
        if read.None? { return false; }
        target.keys := target.keys[b := cast(read.value.0, target.dtype)];
        target.vals := target.vals[b := cast(read.value.1, target.dtype)];
      }
    }
  }

  lemma TokensOfBlocks(n: nat, bs: nat)
    requires bs > 0
    ensures n * bs == 0 <==> n == 0
  {
  }

  lemma OneMoreSend(cfg: Config, sends: seq<Send>, s: Send)
    ensures Items(cfg, sends + [s]) == Items(cfg, sends) + SendItems(cfg, |sends|, s)
    ensures AllComplete(cfg, sends) && HasBlocks(s.layers, Blocks(cfg.blockSize, s.prompt)) ==>
              AllComplete(cfg, sends + [s])
  {
    hide SendItems, HasBlocks, Blocks, AllComplete;
    assert (sends + [s])[..|sends|] == sends;
    OneMoreComplete(cfg, sends, s);
  }

  lemma OneMoreComplete(cfg: Config, sends: seq<Send>, s: Send)
    ensures AllComplete(cfg, sends) && HasBlocks(s.layers, Blocks(cfg.blockSize, s.prompt)) ==>
              AllComplete(cfg, sends + [s])
  {
    hide HasBlocks, Blocks;
  }

  lemma SnapshotsComplete(kvCaches: seq<KvCacheLayer>, n: nat)
    requires forall l :: 0 <= l < |kvCaches| ==> kvCaches[l].Valid() && n <= |kvCaches[l].keys|
    ensures HasBlocks(Snapshots(kvCaches), n)
  {
  }

  // The first sender of matched block b did not have a layer l.
  ghost predicate NotSent(cfg: Config, sends: seq<Send>, p: seq<Token>, b: nat, l: nat)
    requires DigestFits(cfg, sends, p) && b < MatchedAfter(cfg, sends, p)
  {
    l >= |sends[SenderOf(cfg, sends, p, b)].layers|
  }

  // It had, and reading two float16 tensors of the target's shape where that layer's slot begins
  // asks for nothing or for bytes past the end of the pool.
  ghost predicate SentLeavesPool(cfg: Config, sends: seq<Send>, p: seq<Token>, b: nat, l: nat, bytes: nat,
                                 target: KvCacheLayer)
    requires DigestFits(cfg, sends, p) && b < MatchedAfter(cfg, sends, p)
  {
    && AllComplete(cfg, sends) && !NotSent(cfg, sends, p, b, l)
    && SlotOf(cfg, sends, p, b, l) < |AfterSends(cfg, sends).run|
    && var offset := R.Offset(cfg.pool, AfterSends(cfg, sends).run, SlotOf(cfg, sends, p, b, l));
       target.Elements() == 0 || offset + 64 + 4 * target.Elements() > bytes
  }

  // The entries a restore uses after these sends.
  ghost function HitsAfter(cfg: Config, sends: seq<Send>, p: seq<Token>): (r: seq<Entry>)
    ensures |r| == MatchedAfter(cfg, sends, p)
  {
    MatchedEntries(AfterSends(cfg, sends).index, ChainHashes(cfg.hash, cfg.blockSize, p))
  }

  lemma HitsAre(cfg: Config, sends: seq<Send>, p: seq<Token>)
    ensures HitsAfter(cfg, sends, p) ==
            MatchedEntries(AfterSends(cfg, sends).index, ChainHashes(cfg.hash, cfg.blockSize, p))
  {
  }

  // They list the layers of the first senders, and where their slots begin.
  lemma HitSent(cfg: Config, sends: seq<Send>, p: seq<Token>, b: nat)
    requires AllComplete(cfg, sends) && DigestFits(cfg, sends, p) && b < MatchedAfter(cfg, sends, p)
    ensures var offsets := HitsAfter(cfg, sends, p)[b].layerOffsets;
            && |offsets| == |sends[SenderOf(cfg, sends, p, b)].layers|
            && forall l :: 0 <= l < |offsets| ==>
                 && SlotOf(cfg, sends, p, b, l) < |AfterSends(cfg, sends).run|
                 && offsets[l] == R.Offset(cfg.pool, AfterSends(cfg, sends).run, SlotOf(cfg, sends, p, b, l))
  {
    hide AfterSends, ChainHash, AllComplete, DigestFits, BlockSlots, R.Offset;
    var h := ChainHash(cfg.hash, cfg.blockSize, p, b + 1);
    var index := AfterSends(cfg, sends).index;
    MatchedItem(cfg, sends, p, b);
    assert HitsAfter(cfg, sends, p)[b] == index[h];
    assert Traced(cfg.pool, cfg.blockSize, Items(cfg, sends), AfterSends(cfg, sends), h) by {
      var o := OriginOf(cfg, sends, h);
    }
    forall l | 0 <= l < |index[h].layerOffsets|
      ensures SlotOf(cfg, sends, p, b, l) < |AfterSends(cfg, sends).run|
      ensures index[h].layerOffsets[l] == R.Offset(cfg.pool, AfterSends(cfg, sends).run, SlotOf(cfg, sends, p, b, l))
    {
      MatchedBlockSlots(cfg, sends, p, b, l);
    }
  }

  lemma HitLeavesPool(cfg: Config, sends: seq<Send>, p: seq<Token>, b: nat, l: nat, buf: Bytes, target: KvCacheLayer)
    requires AllComplete(cfg, sends) && DigestFits(cfg, sends, p) && b < MatchedAfter(cfg, sends, p)
    ensures LeavesPool(buf, HitsAfter(cfg, sends, p)[b], l, target) <==>
            SentLeavesPool(cfg, sends, p, b, l, |buf|, target)
  {
    hide AfterSends, AllComplete, DigestFits, SenderOf, SlotOf, HitsAfter, R.Offset;
    HitSent(cfg, sends, p, b);
  }

  // A block of a layer that was not offloaded is as before.
  lemma NotOffloaded(cast: (Tensor, DType) -> Tensor, buf: Bytes, entries: seq<Entry>, l: nat,
                     target: KvCacheLayer, before: Layer, n: nat, b: nat)
    requires n <= |entries| && Filled(cast, buf, entries, l, target, before, n)
    requires b < |entries| && l >= |entries[b].layerOffsets| && b < |before.keys| == |before.vals|
    ensures |target.keys| == |before.keys| && |target.vals| == |before.vals|
    ensures target.keys[b] == before.keys[b] && target.vals[b] == before.vals[b]
  {
  }

  // The same for all targets together, after a restore that raised or one that did not.
  lemma UnsentUnchanged(cfg: Config, sends: seq<Send>, p: seq<Token>, cast: (Tensor, DType) -> Tensor, buf: Bytes,
                        targets: seq<KvCacheLayer>, before: seq<Layer>, raised: bool, l: nat, b: nat)
    requires AllComplete(cfg, sends) && DigestFits(cfg, sends, p) && b < MatchedAfter(cfg, sends, p)
    requires l < |targets| == |before| && NotSent(cfg, sends, p, b, l)
    requires b < |before[l].keys| == |before[l].vals|
    requires var hits := HitsAfter(cfg, sends, p);
             if raised then exists c, k :: 0 <= c < |hits| && 0 <= k < |targets|
                                           && StoppedAt(cast, buf, hits, targets, before, c, k)
             else Filled(cast, buf, hits, l, targets[l], before[l], |hits|)
    ensures |targets[l].keys| == |before[l].keys| && |targets[l].vals| == |before[l].vals|
    ensures targets[l].keys[b] == before[l].keys[b] && targets[l].vals[b] == before[l].vals[b]
  {
    hide AfterSends, AllComplete, DigestFits, SenderOf, HitsAfter, Filled, LeavesPool, NoneBefore, SlotOf;
    HitSent(cfg, sends, p, b);
    var hits := HitsAfter(cfg, sends, p);
    if raised {
      var c, k :| 0 <= c < |hits| && 0 <= k < |targets| && StoppedAt(cast, buf, hits, targets, before, c, k);
      NotOffloaded(cast, buf, hits, l, targets[l], before[l], if l < k then c + 1 else c, b);
    } else {
      NotOffloaded(cast, buf, hits, l, targets[l], before[l], |hits|, b);
    }
  }

  lemma LiveIsRestored(cfg: Config, sends: seq<Send>, p: seq<Token>, b: nat, l: nat,
                       cast: (Tensor, DType) -> Tensor, target: KvCacheLayer, before: Layer)
    requires DigestFits(cfg, sends, p) && b < MatchedAfter(cfg, sends, p) && StillLive(cfg, sends, p, b, l)
    requires b < |before.keys| == |before.vals|
    requires var hits := HitsAfter(cfg, sends, p);
             Filled(cast, R.After(cfg.pool, AfterSends(cfg, sends).run).buf, hits, l, target, before, |hits|)
    ensures RestoredFor(cfg, sends, p, b, l, cast, target)
  {
    hide AfterSends, AllComplete, DigestFits, SenderOf, SlotOf, HitsAfter, R.After, R.Live, R.Offset, HoldsRead;
    HitSent(cfg, sends, p, b);
  }

  // Layer l of matched block b was sent and is still in the ring.
  ghost predicate StillLive(cfg: Config, sends: seq<Send>, p: seq<Token>, b: nat, l: nat)
    requires DigestFits(cfg, sends, p) && b < MatchedAfter(cfg, sends, p)
  {
    && AllComplete(cfg, sends)
    && l < |sends[SenderOf(cfg, sends, p, b)].layers|
    && SlotOf(cfg, sends, p, b, l) < |AfterSends(cfg, sends).run|
    && R.Live(cfg.pool, AfterSends(cfg, sends).run, SlotOf(cfg, sends, p, b, l))
  }

  // A target holds what is read where layer l of matched block b, still live, was written.
  ghost predicate RestoredFor(cfg: Config, sends: seq<Send>, p: seq<Token>, b: nat, l: nat,
                              cast: (Tensor, DType) -> Tensor, target: KvCacheLayer)
    requires DigestFits(cfg, sends, p) && b < MatchedAfter(cfg, sends, p)
    reads target
  {
    && StillLive(cfg, sends, p, b, l)
    && var run := AfterSends(cfg, sends).run;
       HoldsRead(cast, R.After(cfg.pool, run).buf, target, b, R.Offset(cfg.pool, run, SlotOf(cfg, sends, p, b, l)))
  }

  // What a restore leaves in a target of the 16-bit type that was sent: the bits of the first send
  // with that prefix, read as float16 and converted by value to the target's type.
  lemma FilledSixteenBit(cfg: Config, sends: seq<Send>, p: seq<Token>, b: nat, l: nat,
                         cast: (Tensor, DType) -> Tensor, target: KvCacheLayer)
    requires DigestFits(cfg, sends, p) && b < MatchedAfter(cfg, sends, p)
    requires RestoredFor(cfg, sends, p, b, l, cast, target)
    requires var layer := sends[SenderOf(cfg, sends, p, b)].layers[l];
             SixteenBit(layer, b) && target.Fits(layer.keys[b])
    ensures var layer := sends[SenderOf(cfg, sends, p, b)].layers[l];
            && b < |layer.vals| && layer.vals[b].dtype == target.dtype
            && target.keys[b] == cast(AsFloat16(layer.keys[b]), target.dtype)
            && target.vals[b] == cast(AsFloat16(layer.vals[b]), target.dtype)
  {
    hide R.After, R.Live, ReadBlock, AfterSends, ChainHash;
    RestoredIsFirstSent(cfg, sends, p, b, l);
    MatchedBlockSlots(cfg, sends, p, b, l);
  }

  // So a float16 target holds exactly the key and value that were sent, ...
  lemma FilledIsFirstSent(cfg: Config, sends: seq<Send>, p: seq<Token>, b: nat, l: nat,
                          cast: (Tensor, DType) -> Tensor, target: KvCacheLayer)
    requires DigestFits(cfg, sends, p) && b < MatchedAfter(cfg, sends, p)
    requires RestoredFor(cfg, sends, p, b, l, cast, target)
    requires forall t: Tensor :: cast(t, t.dtype) == t
    requires target.dtype == Float16
    requires var layer := sends[SenderOf(cfg, sends, p, b)].layers[l];
             b < |layer.keys| && target.Fits(layer.keys[b]) && layer.keys[b].Elements() > 0
    ensures var layer := sends[SenderOf(cfg, sends, p, b)].layers[l];
            b < |layer.vals| && target.keys[b] == layer.keys[b] && target.vals[b] == layer.vals[b]
  {
    FilledSixteenBit(cfg, sends, p, b, l, cast, target);
    var layer := sends[SenderOf(cfg, sends, p, b)].layers[l];
    var k, v := layer.keys[b], layer.vals[b];
    assert AsFloat16(k) == k && AsFloat16(v) == v;
    assert cast(k, k.dtype) == k && cast(v, v.dtype) == v;
  }

  // ... and a target of another 16-bit type, bfloat16 say, holds them exactly when converting
  // their bits from float16 by value gives them back.
  lemma FilledOtherSixteenBitIff(cfg: Config, sends: seq<Send>, p: seq<Token>, b: nat, l: nat,
                                 cast: (Tensor, DType) -> Tensor, target: KvCacheLayer)
    requires DigestFits(cfg, sends, p) && b < MatchedAfter(cfg, sends, p)
    requires RestoredFor(cfg, sends, p, b, l, cast, target)
    requires var layer := sends[SenderOf(cfg, sends, p, b)].layers[l];
             SixteenBit(layer, b) && target.Fits(layer.keys[b])
    ensures var layer := sends[SenderOf(cfg, sends, p, b)].layers[l];
            && b < |layer.vals|
            && (target.keys[b] == layer.keys[b] && target.vals[b] == layer.vals[b] <==>
                  cast(AsFloat16(layer.keys[b]), target.dtype) == layer.keys[b] &&
                  cast(AsFloat16(layer.vals[b]), target.dtype) == layer.vals[b])
  {
    FilledSixteenBit(cfg, sends, p, b, l, cast, target);
  }

  // So a bfloat16 target, which torch fills with the nearest values, holds what was sent exactly
  // when each element of the block was a zero or a two (or a NaN the machine leaves as it is).
  lemma FilledBFloat16Iff(cfg: Config, sends: seq<Send>, p: seq<Token>, b: nat, l: nat,
                          cast: (Tensor, DType) -> Tensor, nan: Bits -> Bits, target: KvCacheLayer)
    requires DigestFits(cfg, sends, p) && b < MatchedAfter(cfg, sends, p)
    requires RestoredFor(cfg, sends, p, b, l, cast, target)
    requires forall t: Tensor :: t.dtype == Float16 ==> cast(t, BFloat16) == ToBFloat16(t, nan)
    requires target.dtype == BFloat16
    requires var layer := sends[SenderOf(cfg, sends, p, b)].layers[l];
             SixteenBit(layer, b) && target.Fits(layer.keys[b])
    ensures var layer := sends[SenderOf(cfg, sends, p, b)].layers[l];
            && b < |layer.vals|
            && (target.keys[b] == layer.keys[b] && target.vals[b] == layer.vals[b] <==>
                  TensorSurvives(layer.keys[b], nan) && TensorSurvives(layer.vals[b], nan))
  {
    hide ToBFloat16, TensorSurvives;
    FilledSixteenBit(cfg, sends, p, b, l, cast, target);
    var layer := sends[SenderOf(cfg, sends, p, b)].layers[l];
    TensorSurvivesIff(layer.keys[b], nan);
    TensorSurvivesIff(layer.vals[b], nan);
    assert AsFloat16(layer.keys[b]).dtype == Float16 && AsFloat16(layer.vals[b]).dtype == Float16;
  }

  // A bfloat16 one, 0x3F80, comes back as 0x3FF0, which is 1.875.
  lemma BFloat16OneIsLost(cfg: Config, sends: seq<Send>, p: seq<Token>, b: nat, l: nat,
                          cast: (Tensor, DType) -> Tensor, nan: Bits -> Bits, target: KvCacheLayer)
    requires DigestFits(cfg, sends, p) && b < MatchedAfter(cfg, sends, p)
    requires RestoredFor(cfg, sends, p, b, l, cast, target)
    requires forall t: Tensor :: t.dtype == Float16 ==> cast(t, BFloat16) == ToBFloat16(t, nan)
    requires target.dtype == BFloat16 && target.heads == target.tokens == target.dim == 1
    requires var layer := sends[SenderOf(cfg, sends, p, b)].layers[l];
             b < |layer.keys| && layer.keys[b] == Tensor(1, 1, 1, BFloat16, [[[0x80, 0x3F]]])
    ensures target.keys[b] == Tensor(1, 1, 1, BFloat16, [[[0xF0, 0x3F]]])
            != sends[SenderOf(cfg, sends, p, b)].layers[l].keys[b]
  {
    hide ToBFloat16;
    FilledSixteenBit(cfg, sends, p, b, l, cast, target);
    OneTensorBecomes(nan);
  }
}

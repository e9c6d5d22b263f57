// KacheDBSGLangConnector of src/kachedb/sglang/connector.py: node offload and prefix restore.
module SglangConnector {
  import opened Bytes
  import opened Tensors
  import opened Dma
  import opened Hashing
  import opened RadixAdapter
  import B = BlockStore
  import R = Ring

  // One offloaded node: its per-layer keys and values.
  datatype Offload = Offload(nodeId: nat, parentHash: Hash, tokens: seq<Token>, keys: seq<Tensor>, vals: seq<Tensor>)
  {
    // Layer l has a key and a value of one layout, of a type no smaller than the codec takes it for.
    ghost predicate Laid(l: nat) {
      && l < |keys| && l < |vals| && SameLayout(keys[l], vals[l])
      && keys[l].dtype.ItemSize() >= keys[l].dtype.TableSize()
    }

    // And they come back when they are read.
    ghost predicate Sound(l: nat) { Laid(l) && ComesBack(keys[l], vals[l]) }
  }

  datatype Config = Config(hash: Hasher, pool: nat)

  ghost function HashOf(cfg: Config, e: Offload): Hash { cfg.hash(e.parentHash, e.tokens) }

  // The slots an offload writes, layer by layer.
  ghost function Slots(cfg: Config, e: Offload): (r: seq<Bytes>)
    ensures |r| == |e.keys|
  {
    seq(|e.keys|, l requires 0 <= l < |e.keys| =>
      if l < |e.vals| then SlotBytes(e.keys[l], e.vals[l], l, HashOf(cfg, e)) else [])
  }

  ghost function RunAfter(cfg: Config, events: seq<Offload>): R.Run
  {
    if events == [] then [] else RunAfter(cfg, events[..|events| - 1]) + Slots(cfg, events[|events| - 1])
  }

  // The descriptor registered for e after these events.
  ghost function NodeAt(cfg: Config, before: seq<Offload>, e: Offload): Node
  {
    var run := RunAfter(cfg, before);
    Node(e.nodeId, e.parentHash, HashOf(cfg, e), e.tokens,
         B.SlotOffsets(cfg.pool, run + Slots(cfg, e), |run|, |e.keys|))
  }

  // One slot was written for each layer, and the descriptor lists where each begins.
  ghost predicate Written(pool: nat, before: R.Run, run: R.Run, n: Node, keys: seq<Tensor>, vals: seq<Tensor>)
  {
    && |n.layerOffsets| == |keys| && |keys| <= |vals| && |run| == |before| + |keys| && before <= run
    && forall l :: 0 <= l < |keys| ==>
         && run[|before| + l] == SlotBytes(keys[l], vals[l], l, n.nodeHash)
         && n.layerOffsets[l] == R.Offset(pool, run, |before| + l)
  }

  lemma NodeAtFields(cfg: Config, before: seq<Offload>, e: Offload)
    ensures var n := NodeAt(cfg, before, e);
            && n.nodeId == e.nodeId && n.parentHash == e.parentHash && n.tokens == e.tokens
            && n.nodeHash == cfg.hash(e.parentHash, e.tokens)
    ensures |e.keys| <= |e.vals| ==>
              Written(cfg.pool, RunAfter(cfg, before), RunAfter(cfg, before) + Slots(cfg, e), NodeAt(cfg, before, e),
                      e.keys, e.vals)
  {
    hide SlotBytes, RunAfter, R.Offset;
  }

  ghost function RegistryAfter(cfg: Config, events: seq<Offload>): Registry
  {
    if events == [] then []
    else
      var n := |events| - 1;
      Upsert(RegistryAfter(cfg, events[..n]), NodeAt(cfg, events[..n], events[n]))
  }

  // The last event offloading a node of this hash; |events| when there is none.
  ghost function LastIndex(cfg: Config, events: seq<Offload>, h: Hash): (i: nat)
    ensures i <= |events|
    ensures i < |events| ==> HashOf(cfg, events[i]) == h
    ensures forall j :: i < j < |events| ==> HashOf(cfg, events[j]) != h
    ensures i == |events| ==> forall j :: 0 <= j < |events| ==> HashOf(cfg, events[j]) != h
  {
    if events == [] then 0
    else
      var n := |events| - 1;
      if HashOf(cfg, events[n]) == h then n
      else
        var i := LastIndex(cfg, events[..n], h);
        assert forall j :: 0 <= j < n ==> events[..n][j] == events[j];
        if i == n then n + 1 else i
  }

  // The descriptor registered by that event.
  ghost function LastNode(cfg: Config, events: seq<Offload>, h: Hash): (r: Option<Node>)
    ensures r.Some? ==>
              var i := LastIndex(cfg, events, h);
              i < |events| && r.value == NodeAt(cfg, events[..i], events[i])
  {
    if events == [] then None
    else
      var n := |events| - 1;
      if HashOf(cfg, events[n]) == h then Some(NodeAt(cfg, events[..n], events[n]))
      else
        var i := LastIndex(cfg, events[..n], h);
        assert i < n ==> events[..n][..i] == events[..i];
        LastNode(cfg, events[..n], h)
  }

  // The registry holds exactly the descriptors of the last offload under each hash.
  lemma {:induction false} RegistryIsLastOffloads(cfg: Config, events: seq<Offload>)
    ensures UniqueHashes(RegistryAfter(cfg, events))
    ensures forall n :: n in RegistryAfter(cfg, events) <==> LastNode(cfg, events, n.nodeHash) == Some(n)
  {
    if events != [] {
      var k := |events| - 1;
      RegistryIsLastOffloads(cfg, events[..k]);
      UpsertMembers(RegistryAfter(cfg, events[..k]), NodeAt(cfg, events[..k], events[k]));
    }
  }

  // The event a registered node comes from, and the slot of the run holding its layer l.
  ghost function EventOf(cfg: Config, events: seq<Offload>, n: Node): (i: nat)
    requires n in RegistryAfter(cfg, events)
    ensures i < |events| && n == NodeAt(cfg, events[..i], events[i])
  {
    RegistryIsLastOffloads(cfg, events);
    LastIndex(cfg, events, n.nodeHash)
  }

  ghost function SlotOf(cfg: Config, events: seq<Offload>, n: Node, l: nat): nat
    requires n in RegistryAfter(cfg, events)
  {
    |RunAfter(cfg, events[..EventOf(cfg, events, n)])| + l
  }

  lemma {:induction false} RunGrows(cfg: Config, events: seq<Offload>, i: nat)
    requires i <= |events|
    ensures RunAfter(cfg, events[..i]) <= RunAfter(cfg, events)
  {
    if i < |events| {
      var n := |events| - 1;
      RunGrows(cfg, events[..n], i);
      assert events[..n][..i] == events[..i];
    } else {
      assert events[..i] == events;
    }
  }

  // The slots an event wrote stand in the final run, at the offsets its descriptor lists.
  lemma EventSlots(cfg: Config, events: seq<Offload>, i: nat, l: nat)
    requires i < |events| && l < |events[i].keys|
    ensures var slot, run := |RunAfter(cfg, events[..i])| + l, RunAfter(cfg, events);
            && slot < |run| && run[slot] == Slots(cfg, events[i])[l]
            && NodeAt(cfg, events[..i], events[i]).layerOffsets[l] == R.Offset(cfg.pool, run, slot)
  {
    hide SlotBytes, R.Offset;
    var before := RunAfter(cfg, events[..i]);
    RunGrows(cfg, events, i + 1);
    assert events[..i + 1][..i] == events[..i];
    SlotsInLongerRun(cfg, before, Slots(cfg, events[i]), RunAfter(cfg, events), l);
  }

  lemma SlotsInLongerRun(cfg: Config, before: R.Run, slots: seq<Bytes>, run: R.Run, l: nat)
    requires before + slots <= run && l < |slots|
    ensures var slot := |before| + l;
            && slot < |run| && run[slot] == slots[l]
            && B.SlotOffsets(cfg.pool, before + slots, |before|, |slots|)[l] == R.Offset(cfg.pool, run, slot)
  {
    var mid := before + slots;
    var more := run[|mid|..];
    assert run == mid + more;
    R.OffsetStable(cfg.pool, mid, more, |before| + l);
  }

  // Reading layer l of a registered node with its own shape and type gives the tensors of the last
  // offload under its hash, while the slot is live, exactly when they are of the kind that comes
  // back: not empty, and of a type in the codec's table or else with the value where the key ends.
  lemma NodeReadsBack(cfg: Config, events: seq<Offload>, n: Node, l: nat)
    requires n in RegistryAfter(cfg, events)
    requires events[EventOf(cfg, events, n)].Laid(l)
    requires SlotOf(cfg, events, n, l) < |RunAfter(cfg, events)|
    requires R.Live(cfg.pool, RunAfter(cfg, events), SlotOf(cfg, events, n, l))
    ensures var e := events[EventOf(cfg, events, n)];
            var k, v := e.keys[l], e.vals[l];
            && l < |n.layerOffsets|
            && var read := ReadBlock(R.After(cfg.pool, RunAfter(cfg, events)).buf, n.layerOffsets[l],
                                     k.heads, k.tokens, k.dim, k.dtype);
               read == Some((k, v)) <==> ComesBack(k, v)
  {
    hide ReadBlock, RegistryAfter, RunAfter, NodeAt, R.Live, R.After;
    EventReadsBack(cfg, events, EventOf(cfg, events, n), l);
  }

  lemma EventReadsBack(cfg: Config, events: seq<Offload>, i: nat, l: nat)
    requires i < |events| && events[i].Laid(l)
    requires |RunAfter(cfg, events[..i])| + l < |RunAfter(cfg, events)|
    requires R.Live(cfg.pool, RunAfter(cfg, events), |RunAfter(cfg, events[..i])| + l)
    ensures var k, v := events[i].keys[l], events[i].vals[l];
            var n := NodeAt(cfg, events[..i], events[i]);
            && l < |n.layerOffsets|
            && var read := ReadBlock(R.After(cfg.pool, RunAfter(cfg, events)).buf, n.layerOffsets[l],
                                     k.heads, k.tokens, k.dim, k.dtype);
               read == Some((k, v)) <==> ComesBack(k, v)
  {
    hide ReadBlock, SlotBytes, ComesBack;
    EventSlots(cfg, events, i, l);
    SlotOfLayer(cfg, events[i], l);
    ReadBackIffComesBack(cfg.pool, RunAfter(cfg, events), |RunAfter(cfg, events[..i])| + l,
                         events[i].keys[l], events[i].vals[l], l, HashOf(cfg, events[i]));
  }

  lemma SlotOfLayer(cfg: Config, e: Offload, l: nat)
    requires l < |e.keys| && l < |e.vals|
    ensures Slots(cfg, e)[l] == SlotBytes(e.keys[l], e.vals[l], l, HashOf(cfg, e))
  {
  }

  // ---- Which prefix an offload was made under ----

  function SlicesOf(chain: seq<Node>): (r: seq<seq<Token>>)
    ensures |r| == |chain|
  {
    seq(|chain|, i requires 0 <= i < |chain| => chain[i].tokens)
  }

  // Every offload was made under the path of slices paths gives for it, and named that path's
  // hash as its parent, as a caller does who walks a radix tree.
  ghost predicate MadeUnder(cfg: Config, events: seq<Offload>, paths: seq<seq<seq<Token>>>)
  {
    |paths| == |events| &&
    forall j {:trigger paths[j]} :: 0 <= j < |events| ==> events[j].parentHash == PathHash(cfg.hash, paths[j])
  }

  // What was hashed for the offloads and along their paths.
  ghost predicate AllHashed(cfg: Config, events: seq<Offload>, paths: seq<seq<seq<Token>>>,
                            inputs: set<(Hash, seq<Token>)>)
  {
    && (forall j :: 0 <= j < |events| ==> (events[j].parentHash, events[j].tokens) in inputs)
    && (forall j :: 0 <= j < |paths| ==> PathHashed(cfg.hash, inputs, paths[j]))
  }

  // A registered path hashes as the path of its slices, from inputs of the offloads behind it.
  lemma {:induction false} ChainHashed(cfg: Config, events: seq<Offload>, paths: seq<seq<seq<Token>>>,
                                       inputs: set<(Hash, seq<Token>)>, chain: seq<Node>)
    requires AllHashed(cfg, events, paths, inputs) && Chain(RegistryAfter(cfg, events), chain)
    ensures Tip(chain) == PathHash(cfg.hash, SlicesOf(chain)) && PathHashed(cfg.hash, inputs, SlicesOf(chain))
  {
    if chain != [] {
      var n := |chain| - 1;
      var reg, path := RegistryAfter(cfg, events), SlicesOf(chain);
      ChainPrefix(reg, chain, n);
      ChainHashed(cfg, events, paths, inputs, chain[..n]);
      assert SlicesOf(chain[..n]) == path[..n];
      LinkedAt(reg, chain, n);
      NodeOfEvent(cfg, events, chain[n]);
      forall i | 0 <= i < |path| ensures PathInput(cfg.hash, path, i) in inputs {
        if i < n {
          assert PathInput(cfg.hash, path[..n], i) in inputs;
          assert path[..n][..i] == path[..i];
        }
      }
    }
  }

  lemma NodeOfEvent(cfg: Config, events: seq<Offload>, n: Node)
    requires n in RegistryAfter(cfg, events)
    ensures var e := events[EventOf(cfg, events, n)];
            n.parentHash == e.parentHash && n.tokens == e.tokens && n.nodeHash == cfg.hash(e.parentHash, e.tokens)
  {
  }

  // Without collisions, the offload behind node i of a registered path was made under exactly the
  // slices before it: what is restored for a prompt was computed under that very prefix.
  lemma RestoredUnderOwnPrefix(cfg: Config, events: seq<Offload>, paths: seq<seq<seq<Token>>>,
                               inputs: set<(Hash, seq<Token>)>, chain: seq<Node>, i: nat)
    requires MadeUnder(cfg, events, paths) && AllHashed(cfg, events, paths, inputs) && CollisionFree(cfg.hash, inputs)
    requires Chain(RegistryAfter(cfg, events), chain) && i < |chain|
    ensures chain[i] in RegistryAfter(cfg, events)
    ensures var j := EventOf(cfg, events, chain[i]);
            paths[j] == SlicesOf(chain[..i]) && events[j].tokens == chain[i].tokens
    ensures SlicesOf(chain[..i]) == SlicesOf(chain)[..i]
  {
    hide Chain, AllHashed, CollisionFree, RegistryAfter, PathHash, PathHashed, Tip;
    var reg := RegistryAfter(cfg, events);
    LinkedAt(reg, chain, i);
    NodeOfEvent(cfg, events, chain[i]);
    var j := EventOf(cfg, events, chain[i]);
    ChainPrefix(reg, chain, i);
    ChainHashed(cfg, events, paths, inputs, chain[..i]);
    PathOfEvent(cfg, events, paths, inputs, j);
    PathHashInjective(cfg.hash, inputs, paths[j], SlicesOf(chain[..i]));
    assert SlicesOf(chain[..i]) == SlicesOf(chain)[..i];
  }

  lemma PathOfEvent(cfg: Config, events: seq<Offload>, paths: seq<seq<seq<Token>>>,
                    inputs: set<(Hash, seq<Token>)>, j: nat)
    requires MadeUnder(cfg, events, paths) && AllHashed(cfg, events, paths, inputs) && j < |events|
    ensures events[j].parentHash == PathHash(cfg.hash, paths[j]) && PathHashed(cfg.hash, inputs, paths[j])
  {
  }

  // ---- Slices of the target ----

  // target[:, at : at + n, :].copy_(block), row by row
  function Splice(rows: seq<seq<Bytes>>, at: nat, block: seq<seq<Bytes>>): (r: seq<seq<Bytes>>)
    ensures |r| == |rows|
  {
    seq(|rows|, h requires 0 <= h < |rows| =>
      if h < |block| && at + |block[h]| <= |rows[h]| then rows[h][..at] + block[h] + rows[h][at + |block[h]|..]
      else rows[h])
  }

  // What a restore does with one node in one layer.
  datatype Cell = Keep | Put(key: Tensor, val: Tensor) | Fail

  ghost function CellFor(buf: Bytes, n: Node, l: nat, heads: nat, dim: nat, dtype: DType): Cell
  {
    if l >= |n.layerOffsets| then Keep
    else
      var r := ReadBlock(buf, n.layerOffsets[l], heads, |n.tokens|, dim, dtype);
      if r.None? then Fail else Put(r.value.0, r.value.1)
  }

  // Layer l of a node was offloaded, but reading its two tensors in the shape and type of the
  // target asks for nothing or runs past the end of the pool.
  predicate LeavesPool(buf: Bytes, n: Node, l: nat, target: KvBuffer)
  {
    && l < |n.layerOffsets|
    && var count := target.heads * |n.tokens| * target.dim;
       || count == 0
       || n.layerOffsets[l] + 64 + count * target.dtype.ItemSize() > |buf|
       || n.layerOffsets[l] + 64 + count * target.dtype.TableSize() + count * target.dtype.ItemSize() > |buf|
  }

  // Token position at which node i of a chain begins.
  function Start(chain: seq<Node>, i: nat): nat
    requires i <= |chain|
  {
    |Tokens(chain[..i])|
  }

  lemma StartNext(chain: seq<Node>, i: nat)
    requires i < |chain|
    ensures Start(chain, i + 1) == Start(chain, i) + |chain[i].tokens|
  {
    assert chain[..i + 1][..i] == chain[..i];
  }

  lemma {:induction false} StartMonotone(chain: seq<Node>, i: nat, j: nat)
    requires i < j <= |chain|
    ensures Start(chain, i) + |chain[i].tokens| <= Start(chain, j)
  {
    StartNext(chain, j - 1);
    if i < j - 1 { StartMonotone(chain, i, j - 1); }
  }

  lemma StartAtEnd(chain: seq<Node>)
    ensures Start(chain, |chain|) == |Tokens(chain)|
  {
    assert chain[..|chain|] == chain;
  }

  predicate InSlice(chain: seq<Node>, i: nat, pos: nat)
    requires i < |chain|
  {
    Start(chain, i) <= pos < Start(chain, i) + |chain[i].tokens|
  }

  // The node slices tile the matched part of the prompt: every position below it lies in one of
  // them and in no other, and none reaches beyond it.
  lemma SlicesTile(chain: seq<Node>, pos: nat)
    ensures pos < |Tokens(chain)| <==> exists i :: 0 <= i < |chain| && InSlice(chain, i, pos)
    ensures forall i, j :: 0 <= i < j < |chain| ==> !(InSlice(chain, i, pos) && InSlice(chain, j, pos))
  {
    StartAtEnd(chain);
    if pos < |Tokens(chain)| {
      LocatePosition(chain, |chain|, pos);
    }
    forall i, j | 0 <= i < j <= |chain|
      ensures Start(chain, i) + |chain[i].tokens| <= Start(chain, j)
    {
      StartMonotone(chain, i, j);
    }
  }

  lemma {:induction false} LocatePosition(chain: seq<Node>, b: nat, pos: nat)
    requires b <= |chain| && pos < Start(chain, b)
    ensures exists i :: 0 <= i < b && InSlice(chain, i, pos)
  {
    StartNext(chain, b - 1);
    if pos < Start(chain, b - 1) {
      LocatePosition(chain, b - 1, pos);
    } else {
      assert InSlice(chain, b - 1, pos);
    }
  }

  // The rows of a target after its first b nodes: keys or values of each written cell spliced in.
  ghost function Spliced(rows: seq<seq<Bytes>>, chain: seq<Node>, cells: seq<Cell>, keys: bool, b: nat)
    : (r: seq<seq<Bytes>>)
    requires b <= |chain| == |cells|
    ensures |r| == |rows|
  {
    if b == 0 then rows
    else
      var r := Spliced(rows, chain, cells, keys, b - 1);
      if cells[b - 1].Put? then
        Splice(r, Start(chain, b - 1), if keys then cells[b - 1].key.rows else cells[b - 1].val.rows)
      else r
  }

  ghost predicate Rectangular(rows: seq<seq<Bytes>>, len: nat)
  {
    forall h :: 0 <= h < |rows| ==> |rows[h]| == len
  }

  // Every written cell has the shape of its slice.
  ghost predicate CellsFit(chain: seq<Node>, cells: seq<Cell>, heads: nat)
    requires |chain| == |cells|
  {
    forall i :: 0 <= i < |cells| && cells[i].Put? ==>
      && |cells[i].key.rows| == |cells[i].val.rows| == heads
      && Rectangular(cells[i].key.rows, |chain[i].tokens|) && Rectangular(cells[i].val.rows, |chain[i].tokens|)
  }

  function RowsOf(c: Cell, keys: bool): seq<seq<Bytes>>
    requires c.Put?
  {
    if keys then c.key.rows else c.val.rows
  }

  lemma {:induction false} SplicedShape(rows: seq<seq<Bytes>>, chain: seq<Node>, cells: seq<Cell>, keys: bool,
                                        b: nat, len: nat)
    requires b <= |chain| == |cells| && Rectangular(rows, len)
    ensures Rectangular(Spliced(rows, chain, cells, keys, b), len)
  {
    if b > 0 { SplicedShape(rows, chain, cells, keys, b - 1, len); }
  }

  // Position Start(i) + t of every head holds token t of the i-th cell, where it was written.
  lemma {:induction false} SplicedInside(
      rows: seq<seq<Bytes>>, chain: seq<Node>, cells: seq<Cell>, keys: bool, b: nat, len: nat, i: nat, t: nat, h: nat)
    requires b <= |chain| == |cells| && CellsFit(chain, cells, |rows|)
    requires Rectangular(rows, len) && |Tokens(chain)| <= len
    requires i < b && cells[i].Put? && h < |rows| && t < |chain[i].tokens|
    ensures var r := Spliced(rows, chain, cells, keys, b);
            && Start(chain, i) + t < |r[h]|
            && r[h][Start(chain, i) + t] == RowsOf(cells[i], keys)[h][t]
  {
    hide Start, Splice;
    SplicedShape(rows, chain, cells, keys, b, len);
    SplicedShape(rows, chain, cells, keys, b - 1, len);
    StartMonotone(chain, i, |chain|);
    StartMonotone(chain, b - 1, |chain|);
    StartAtEnd(chain);
    var before := Spliced(rows, chain, cells, keys, b - 1);
    if i < b - 1 {
      StartMonotone(chain, i, b - 1);
      SplicedInside(rows, chain, cells, keys, b - 1, len, i, t, h);
      if cells[b - 1].Put? {
        SpliceElsewhere(before, Start(chain, b - 1), RowsOf(cells[b - 1], keys), h, Start(chain, i) + t);
      }
    } else {
      SpliceHere(before, Start(chain, i), RowsOf(cells[i], keys), h, t);
    }
  }

  lemma SpliceHere(rows: seq<seq<Bytes>>, at: nat, block: seq<seq<Bytes>>, h: nat, t: nat)
    requires h < |rows| && h < |block| && t < |block[h]| && at + |block[h]| <= |rows[h]|
    ensures var r := Splice(rows, at, block); at + t < |r[h]| && r[h][at + t] == block[h][t]
  {
  }

  lemma SpliceElsewhere(rows: seq<seq<Bytes>>, at: nat, block: seq<seq<Bytes>>, h: nat, pos: nat)
    requires h < |rows| && h < |block| && at + |block[h]| <= |rows[h]|
    requires pos < |rows[h]| && !(at <= pos < at + |block[h]|)
    ensures var r := Splice(rows, at, block); pos < |r[h]| && r[h][pos] == rows[h][pos]
  {
  }

  // A position in no written cell's slice keeps what it held.
  lemma {:induction false} SplicedOutside(
      rows: seq<seq<Bytes>>, chain: seq<Node>, cells: seq<Cell>, keys: bool, b: nat, len: nat, h: nat, pos: nat)
    requires b <= |chain| == |cells| && CellsFit(chain, cells, |rows|)
    requires Rectangular(rows, len) && |Tokens(chain)| <= len
    requires h < |rows| && pos < len
    requires forall i :: 0 <= i < b && cells[i].Put? ==> !InSlice(chain, i, pos)
    ensures var r := Spliced(rows, chain, cells, keys, b);
            pos < |r[h]| && r[h][pos] == rows[h][pos]
  {
    hide Start, Splice;
    SplicedShape(rows, chain, cells, keys, b, len);
    if b > 0 {
      SplicedShape(rows, chain, cells, keys, b - 1, len);
      StartMonotone(chain, b - 1, |chain|);
      StartAtEnd(chain);
      SplicedOutside(rows, chain, cells, keys, b - 1, len, h, pos);
      if cells[b - 1].Put? {
        SpliceElsewhere(Spliced(rows, chain, cells, keys, b - 1), Start(chain, b - 1), RowsOf(cells[b - 1], keys),
                        h, pos);
      }
    }
  }

  // ---- The connector object ----

  // A target buffer of one layer, updated in place by a restore.
  class KvBuffer {
    const heads: nat
    const len: nat
    const dim: nat
    const dtype: DType
    var rows: seq<seq<Bytes>>

    constructor (heads: nat, len: nat, dim: nat, dtype: DType, rows: seq<seq<Bytes>>)
      ensures this.heads == heads && this.len == len && this.dim == dim && this.dtype == dtype && this.rows == rows
    {
      this.heads, this.len, this.dim, this.dtype, this.rows := heads, len, dim, dtype, rows;
    }

    ghost predicate Valid()
      reads this
    {
      |rows| == heads && Rectangular(rows, len)
    }
  }

  ghost function AllRows(targets: seq<KvBuffer>): (r: seq<seq<seq<Bytes>>>)
    reads targets
    ensures |r| == |targets|
    ensures forall l :: 0 <= l < |r| ==> r[l] == targets[l].rows
  {
    if targets == [] then []
    else AllRows(targets[..|targets| - 1]) + [targets[|targets| - 1].rows]
  }

  // What is read for a node into the buffers of a layer.
  ghost function CellIn(buf: Bytes, n: Node, l: nat, target: KvBuffer): Cell
  {
    CellFor(buf, n, l, target.heads, target.dim, target.dtype)
  }

  // The cells of one layer, one for each matched node.
  ghost function CellsFor(buf: Bytes, matched: seq<Node>, l: nat, target: KvBuffer): (r: seq<Cell>)
    ensures |r| == |matched|
  {
    seq(|matched|, i requires 0 <= i < |matched| =>
      CellIn(buf, matched[i], l, target))
  }

  ghost function Plan(buf: Bytes, matched: seq<Node>, targets: seq<KvBuffer>): (r: seq<seq<Cell>>)
    ensures |r| == |targets|
    ensures forall l :: 0 <= l < |r| ==> |r[l]| == |matched|
    ensures forall l, i :: 0 <= l < |r| && 0 <= i < |matched| ==>
              r[l][i] == CellIn(buf, matched[i], l, targets[l])
  {
    seq(|targets|, l requires 0 <= l < |targets| => CellsFor(buf, matched, l, targets[l]))
  }

  // What is read for a node has the shape of its slice.
  lemma CellShape(buf: Bytes, n: Node, l: nat, heads: nat, dim: nat, dtype: DType)
    ensures var c := CellFor(buf, n, l, heads, dim, dtype);
            c.Put? ==>
              && |c.key.rows| == |c.val.rows| == heads
              && Rectangular(c.key.rows, |n.tokens|) && Rectangular(c.val.rows, |n.tokens|)
  {
    var c := CellFor(buf, n, l, heads, dim, dtype);
    if c.Put? {
      ReadBlockShape(buf, n.layerOffsets[l], heads, |n.tokens|, dim, dtype);
    }
  }

  lemma ReadBlockShape(buf: Bytes, offset: nat, heads: nat, tokens: nat, dim: nat, dtype: DType)
    ensures var r := ReadBlock(buf, offset, heads, tokens, dim, dtype);
            r.Some? ==> r.value.0.WellFormed() && r.value.1.WellFormed() &&
                        r.value.0.heads == r.value.1.heads == heads && r.value.0.tokens == r.value.1.tokens == tokens
  {
    var b := ReadBytes(buf, offset, heads * tokens * dim, dtype);
    if b.Some? {
      Reassociate(heads, tokens, dim, dtype.ItemSize());
      SerializeDeserialize(b.value.0, heads, tokens, dim, dtype);
      SerializeDeserialize(b.value.1, heads, tokens, dim, dtype);
    }
  }

  datatype Outcome = Miss | Hit | Raised

  class KacheDBSGLangConnector {
    const adapter: KacheDBRadixAdapter
    const memory: MemoryManager
    // Every offload so far, oldest first.
    ghost var events: seq<Offload>

    ghost function Cfg(): Config { Config(adapter.hash, memory.poolSize) }

    ghost predicate Valid()
      reads this, adapter, memory
    {
      && adapter.Valid() && memory.Valid()
      && memory.run == RunAfter(Cfg(), events)
      && adapter.Reg() == RegistryAfter(Cfg(), events)
    }

    constructor (digest: Digest, poolSize: nat)
      ensures Valid() && events == [] && adapter.digest == digest && memory.poolSize == poolSize
    {
      adapter := new KacheDBRadixAdapter(digest);
      memory := new MemoryManager(poolSize);
      events := [];
    }

    method OffloadNode(nodeId: nat, tokens: seq<Token>, keys: seq<Tensor>, vals: seq<Tensor>, parentHash: Hash)
      returns (desc: Node)
      requires Valid() && |keys| <= |vals|
      modifies this, adapter, memory
      ensures Valid()
      ensures events == old(events) + [Offload(nodeId, parentHash, tokens, keys, vals)]
      ensures desc == NodeAt(Cfg(), old(events), events[|old(events)|])
      ensures desc.nodeId == nodeId && desc.parentHash == parentHash && desc.tokens == tokens
      ensures desc.nodeHash == adapter.hash(parentHash, tokens)
      ensures Written(memory.poolSize, old(memory.run), memory.run, desc, keys, vals)
    {
      hide Written, R.Offset, R.After, SlotBytes, Upsert;
      ghost var e := Offload(nodeId, parentHash, tokens, keys, vals);
      assert (events + [e])[..|events|] == events;
      var nodeHash := adapter.ComputeNodeHash(tokens, parentHash);
      var layerOffsets := WriteLayers(keys, vals, nodeHash, Slots(Cfg(), e));
      desc := adapter.RegisterNode(nodeId, tokens, parentHash, layerOffsets);
      NodeAtFields(Cfg(), events, e);
      events := events + [e];
    }

    method WriteLayers(keys: seq<Tensor>, vals: seq<Tensor>, h: Hash, ghost slots: seq<Bytes>)
      returns (layerOffsets: seq<nat>)
      requires memory.Valid() && |keys| <= |vals| && |slots| == |keys|
      requires forall l :: 0 <= l < |keys| ==> slots[l] == SlotBytes(keys[l], vals[l], l, h)
      modifies memory
      ensures memory.Valid()
      ensures memory.run == old(memory.run) + slots
      ensures layerOffsets == B.SlotOffsets(memory.poolSize, memory.run, |old(memory.run)|, |keys|)
    {
      ghost var start := memory.run;
      layerOffsets := [];
      TakeNoneOrAll(slots);
      for l := 0 to |keys|
        invariant memory.Valid() && memory.run == start + slots[..l]
        invariant layerOffsets == B.SlotOffsets(memory.poolSize, memory.run, |start|, l)
      {
        var offset, _, _ := memory.WritePagedBlock(keys[l], vals[l], l, h);
        B.OneMoreOffset(memory.poolSize, start, slots, l);
        layerOffsets := layerOffsets + [offset];
      }
    }

    // Restore the matched nodes into the targets; matched is the path the search found.
    method RestorePrefix(prompt: seq<Token>, targetK: seq<KvBuffer>, targetV: seq<KvBuffer>)
      returns (matchedTokens: nat, r: Outcome, ghost matched: seq<Node>)
      requires Valid() && SearchEnds(adapter.Reg(), prompt, |prompt|)
      requires Distinct(targetK + targetV) && |targetK| == |targetV|
      requires forall chain :: SearchResult(adapter.Reg(), prompt, chain) ==> AllReceive(targetK, targetV, chain)
      modifies targetK, targetV
      ensures SearchResult(adapter.Reg(), prompt, matched)
      ensures r == Miss <==> |Tokens(matched)| == 0
      ensures matchedTokens == if r == Miss then 0 else |Tokens(matched)|
      ensures r == Miss ==> AllRows(targetK) == old(AllRows(targetK)) && AllRows(targetV) == old(AllRows(targetV))
      ensures r == Raised <==>
                r != Miss &&
                exists i, l {:trigger LeavesPool(memory.buf, matched[i], l, targetK[l])} ::
                  0 <= i < |matched| && 0 <= l < |targetK| && LeavesPool(memory.buf, matched[i], l, targetK[l])
      ensures r == Hit ==>
                AllSplicedTo(targetK, targetV, old(AllRows(targetK)), old(AllRows(targetV)),
                             matched, Plan(memory.buf, matched, targetK), |matched|)
      ensures r == Raised ==>
                exists i, l :: 0 <= i < |matched| && 0 <= l < |targetK| &&
                  StoppedAt(targetK, targetV, old(AllRows(targetK)), old(AllRows(targetV)),
                            matched, Plan(memory.buf, matched, targetK), i, l)
    {
      var nodes;
      matchedTokens, nodes := adapter.FindMatchingNodes(prompt, None);
      matched := nodes;
      if matchedTokens == 0 || nodes == [] {
        return 0, Miss, nodes;
      }
      var ok := RestoreNodes(nodes, targetK, targetV, Plan(memory.buf, nodes, targetK));
      FailsWhere(memory.buf, nodes, targetK);
      r := if ok then Hit else Raised;
    }

    // A restore that hits leaves in the buffers, token by token, what was last offloaded for the
    // matched nodes, layer by layer, where it was offloaded in the shape and type of the buffers and
    // is still in the ring; and for any other, what is read at its offset.  Whatever the outcome,
    // the slice of a node in a layer it was not offloaded with is left as it was, and so is
    // everything past the match.
    method RestoreTokens(prompt: seq<Token>, targetK: seq<KvBuffer>, targetV: seq<KvBuffer>)
      returns (matchedTokens: nat, r: Outcome, ghost matched: seq<Node>)
      requires Valid() && SearchEnds(adapter.Reg(), prompt, |prompt|)
      requires Distinct(targetK + targetV) && |targetK| == |targetV|
      requires forall chain :: SearchResult(adapter.Reg(), prompt, chain) ==> AllReceive(targetK, targetV, chain)
      requires forall l :: 0 <= l < |targetK| ==> targetK[l].Valid() && targetV[l].Valid()
      modifies targetK, targetV
      ensures SearchResult(adapter.Reg(), prompt, matched)
      ensures r == Hit ==>
                forall l, i :: 0 <= l < |targetK| && 0 <= i < |matched| ==>
                  NodeBack(Cfg(), events, matched, i, l, targetK[l], targetV[l])
      ensures r == Hit ==>
                forall l, i {:trigger SliceRead(memory.buf, matched, i, l, targetK[l], targetV[l])} ::
                  0 <= l < |targetK| && 0 <= i < |matched| && l < |matched[i].layerOffsets| ==>
                    SliceRead(memory.buf, matched, i, l, targetK[l], targetV[l])
      ensures forall l :: 0 <= l < |targetK| ==>
                && SameBetween(old(AllRows(targetK))[l], targetK[l].rows, |Tokens(matched)|, targetK[l].len)
                && SameBetween(old(AllRows(targetV))[l], targetV[l].rows, |Tokens(matched)|, targetV[l].len)
      ensures forall l, i {:trigger NotOffloaded(Cfg(), events, matched[i], l)} ::
                0 <= l < |targetK| && 0 <= i < |matched| && NotOffloaded(Cfg(), events, matched[i], l) ==>
                  && SameBetween(old(AllRows(targetK))[l], targetK[l].rows, Start(matched, i), Start(matched, i + 1))
                  && SameBetween(old(AllRows(targetV))[l], targetV[l].rows, Start(matched, i), Start(matched, i + 1))
    {
      hide R.After, RunAfter, RegistryAfter, SearchResult, Restorable, HoldsNode, CellFor, Spliced, SplicedTo, Plan,
           LeavesPool, AllSplicedTo, StoppedAt, NotOffloaded, SameBetween, Start, SliceRead;
      ghost var beforeK, beforeV := AllRows(targetK), AllRows(targetV);
      matchedTokens, r, matched := RestorePrefix(prompt, targetK, targetV);
      if r == Hit {
        LayersRestored(Cfg(), events, matched, targetK, targetV, beforeK, beforeV);
        forall l, i | 0 <= l < |targetK| && 0 <= i < |matched| && l < |matched[i].layerOffsets|
          ensures SliceRead(memory.buf, matched, i, l, targetK[l], targetV[l])
        {
          assert !LeavesPool(memory.buf, matched[i], l, targetK[l]);
          SliceIsRead(memory.buf, matched, targetK, targetV, beforeK, beforeV, i, l);
        }
      }
      forall l | 0 <= l < |targetK|
        ensures SameBetween(beforeK[l], targetK[l].rows, |Tokens(matched)|, targetK[l].len)
        ensures SameBetween(beforeV[l], targetV[l].rows, |Tokens(matched)|, targetV[l].len)
      {
        BeyondKept(memory.buf, matched, targetK, targetV, beforeK, beforeV, r, l);
      }
      forall l, i | 0 <= l < |targetK| && 0 <= i < |matched| && NotOffloaded(Cfg(), events, matched[i], l)
        ensures SameBetween(beforeK[l], targetK[l].rows, Start(matched, i), Start(matched, i + 1))
        ensures SameBetween(beforeV[l], targetV[l].rows, Start(matched, i), Start(matched, i + 1))
      {
        NotOffloadedKept(Cfg(), events, memory.buf, matched, targetK, targetV, beforeK, beforeV, r, i, l);
      }
    }

    // Restore node after node, stopping at the first read that fails.
    method RestoreNodes(nodes: seq<Node>, targetK: seq<KvBuffer>, targetV: seq<KvBuffer>, ghost plan: seq<seq<Cell>>)
      returns (ok: bool)
      requires Distinct(targetK + targetV) && |targetK| == |targetV| == |plan|
      requires forall l :: 0 <= l < |plan| ==> |plan[l]| == |nodes|
      requires forall l, i {:trigger CellIn(memory.buf, nodes[i], l, targetK[l])} ::
                 0 <= l < |plan| && 0 <= i < |nodes| ==> plan[l][i] == CellIn(memory.buf, nodes[i], l, targetK[l])
      modifies targetK, targetV
      ensures ok <==> forall i :: 0 <= i < |nodes| ==> NodeReadable(plan, i)
      ensures ok ==>
                AllSplicedTo(targetK, targetV, old(AllRows(targetK)), old(AllRows(targetV)), nodes, plan, |nodes|)
      ensures !ok ==>
                exists i, l :: 0 <= i < |nodes| && 0 <= l < |targetK| &&
                  StoppedAt(targetK, targetV, old(AllRows(targetK)), old(AllRows(targetV)), nodes, plan, i, l)
    {
      ghost var beforeK, beforeV := AllRows(targetK), AllRows(targetV);
      var tokenOffset := 0;
      for i := 0 to |nodes|
        invariant tokenOffset == Start(nodes, i)
        invariant forall c :: 0 <= c < i ==> NodeReadable(plan, c)
        invariant AllSplicedTo(targetK, targetV, beforeK, beforeV, nodes, plan, i)
      {
        ok := RestoreNode(nodes, i, tokenOffset, targetK, targetV, plan, beforeK, beforeV);
        if !ok { return; }
        StartNext(nodes, i);
        tokenOffset := tokenOffset + |nodes[i].tokens|;
      }
      ok := true;
    }

    // Restore every layer of one node.
    method RestoreNode(nodes: seq<Node>, i: nat, at: nat, targetK: seq<KvBuffer>, targetV: seq<KvBuffer>,
                       ghost plan: seq<seq<Cell>>, ghost beforeK: seq<seq<seq<Bytes>>>,
                       ghost beforeV: seq<seq<seq<Bytes>>>)
      returns (ok: bool)
      requires i < |nodes| && at == Start(nodes, i)
      requires Distinct(targetK + targetV) && |targetK| == |targetV| == |plan| == |beforeK| == |beforeV|
      requires forall l :: 0 <= l < |plan| ==> |plan[l]| == |nodes|
      requires forall l {:trigger CellIn(memory.buf, nodes[i], l, targetK[l])} ::
                 0 <= l < |plan| ==> plan[l][i] == CellIn(memory.buf, nodes[i], l, targetK[l])
      requires forall c :: 0 <= c < i ==> NodeReadable(plan, c)
      requires AllSplicedTo(targetK, targetV, beforeK, beforeV, nodes, plan, i)
      modifies targetK, targetV
      ensures ok <==> NodeReadable(plan, i)
      ensures ok ==> AllSplicedTo(targetK, targetV, beforeK, beforeV, nodes, plan, i + 1)
      ensures !ok ==>
                exists l :: 0 <= l < |targetK| && StoppedAt(targetK, targetV, beforeK, beforeV, nodes, plan, i, l)
    {
      hide Distinct, Splice;
      BuffersDiffer(targetK, targetV);
      for l := 0 to |targetK|
        invariant forall k :: 0 <= k < l ==> !plan[k][i].Fail?
        invariant forall k {:trigger SplicedTo(targetK[k], targetV[k], beforeK[k], beforeV[k], nodes, plan[k], i + 1)}
                    :: 0 <= k < l ==> SplicedTo(targetK[k], targetV[k], beforeK[k], beforeV[k], nodes, plan[k], i + 1)
        invariant forall k {:trigger SplicedTo(targetK[k], targetV[k], beforeK[k], beforeV[k], nodes, plan[k], i)} ::
                    l <= k < |plan| ==> SplicedTo(targetK[k], targetV[k], beforeK[k], beforeV[k], nodes, plan[k], i)
      {
        assert SplicedTo(targetK[l], targetV[l], beforeK[l], beforeV[l], nodes, plan[l], i);
        label Before:
        ok := RestoreCell(nodes[i], l, at, targetK[l], targetV[l], plan[l][i]);
        forall k | 0 <= k < l ensures SplicedTo(targetK[k], targetV[k], beforeK[k], beforeV[k], nodes, plan[k], i + 1) {
          assert old@Before(SplicedTo(targetK[k], targetV[k], beforeK[k], beforeV[k], nodes, plan[k], i + 1));
        }
        forall k | l < k < |plan| ensures SplicedTo(targetK[k], targetV[k], beforeK[k], beforeV[k], nodes, plan[k], i) {
          assert old@Before(SplicedTo(targetK[k], targetV[k], beforeK[k], beforeV[k], nodes, plan[k], i));
        }
        if !ok {
          assert SplicedTo(targetK[l], targetV[l], beforeK[l], beforeV[l], nodes, plan[l], i);
          assert StoppedAt(targetK, targetV, beforeK, beforeV, nodes, plan, i, l);
          return;
        }
      }
      ok := true;
    }

    // Restore one layer of one node, if that layer was offloaded.
    method RestoreCell(n: Node, l: nat, at: nat, targetK: KvBuffer, targetV: KvBuffer, ghost cell: Cell)
      returns (ok: bool)
      requires cell == CellIn(memory.buf, n, l, targetK)
      requires targetK != targetV
      modifies targetK, targetV
      ensures ok <==> !cell.Fail?
      ensures cell.Put? ==>
                targetK.rows == Splice(old(targetK.rows), at, cell.key.rows) &&
                targetV.rows == Splice(old(targetV.rows), at, cell.val.rows)
      ensures !cell.Put? ==> targetK.rows == old(targetK.rows) && targetV.rows == old(targetV.rows)
    {
      ok := true;
      if l < |n.layerOffsets| {
        var read :=
          memory.ReadPagedBlock(n.layerOffsets[l], targetK.heads, |n.tokens|, targetK.dim, Some(targetK.dtype));
        if read.None? { return false; }
        targetK.rows := Splice(targetK.rows, at, read.value.0.rows);
        targetV.rows := Splice(targetV.rows, at, read.value.1.rows);
      }
    }
  }

  // A cell fails exactly when its read leaves the pool.
  lemma FailsWhere(buf: Bytes, nodes: seq<Node>, targets: seq<KvBuffer>)
    ensures var plan := Plan(buf, nodes, targets);
            (forall i :: 0 <= i < |nodes| ==> NodeReadable(plan, i)) <==>
            !exists i, l {:trigger LeavesPool(buf, nodes[i], l, targets[l])} ::
              0 <= i < |nodes| && 0 <= l < |targets| && LeavesPool(buf, nodes[i], l, targets[l])
  {
    hide Plan, CellIn, LeavesPool;
    var plan: seq<seq<Cell>> := Plan(buf, nodes, targets);
    forall i: nat, l: nat | i < |nodes| && l < |targets|
      ensures plan[l][i] == Fail <==> LeavesPool(buf, nodes[i], l, targets[l])
    {
      FailsIff(buf, nodes[i], l, targets[l]);
    }
    forall i | 0 <= i < |nodes| && !NodeReadable(plan, i)
      ensures exists l :: 0 <= l < |targets| && LeavesPool(buf, nodes[i], l, targets[l])
    {
      var l :| 0 <= l < |plan| && i < |plan[l]| && plan[l][i].Fail?;
      assert LeavesPool(buf, nodes[i], l, targets[l]);
    }
    forall i, l | 0 <= i < |nodes| && 0 <= l < |targets| && LeavesPool(buf, nodes[i], l, targets[l])
      ensures !NodeReadable(plan, i)
    {
      assert plan[l][i].Fail?;
    }
  }

  lemma FailsIff(buf: Bytes, n: Node, l: nat, target: KvBuffer)
    ensures CellIn(buf, n, l, target).Fail? <==> LeavesPool(buf, n, l, target)
  {
  }

  // No layer of node i fails to read.
  ghost predicate NodeReadable(plan: seq<seq<Cell>>, i: nat)
  {
    forall l :: 0 <= l < |plan| && i < |plan[l]| ==> !plan[l][i].Fail?
  }

  ghost predicate Distinct(targets: seq<KvBuffer>)
  {
    forall i, j :: 0 <= i < j < |targets| ==> targets[i] != targets[j]
  }

  lemma BuffersDiffer(ks: seq<KvBuffer>, vs: seq<KvBuffer>)
    requires Distinct(ks + vs) && |ks| == |vs|
    ensures forall a, b :: 0 <= a < |ks| && 0 <= b < |vs| ==> ks[a] != vs[b]
    ensures forall a, b :: 0 <= a < b < |ks| ==> ks[a] != ks[b]
    ensures forall a, b :: 0 <= a < b < |vs| ==> vs[a] != vs[b]
  {
    var all, n := ks + vs, |ks|;
    forall a, b | 0 <= a < n && 0 <= b < n ensures ks[a] != vs[b] {
      assert all[a] != all[n + b];
    }
    forall a, b | 0 <= a < b < n ensures ks[a] != ks[b] && vs[a] != vs[b] {
      assert all[a] != all[b] && all[n + a] != all[n + b];
    }
  }

  // The two buffers of a layer agree in shape and type and have room for the matched tokens.
  ghost predicate Receives(k: KvBuffer, v: KvBuffer, chain: seq<Node>)
  {
    k.heads == v.heads && k.len == v.len && k.dim == v.dim && k.dtype == v.dtype && |Tokens(chain)| <= k.len
  }

  ghost predicate AllReceive(ks: seq<KvBuffer>, vs: seq<KvBuffer>, chain: seq<Node>)
  {
    forall l :: 0 <= l < |ks| && l < |vs| ==> Receives(ks[l], vs[l], chain)
  }

  ghost predicate SplicedTo(k: KvBuffer, v: KvBuffer, beforeK: seq<seq<Bytes>>, beforeV: seq<seq<Bytes>>,
                            nodes: seq<Node>, cells: seq<Cell>, b: nat)
    requires b <= |nodes| == |cells|
    reads k, v
  {
    k.rows == Spliced(beforeK, nodes, cells, true, b) && v.rows == Spliced(beforeV, nodes, cells, false, b)
  }

  // Every layer's two buffers hold what they held, with the first b nodes spliced in.
  ghost predicate AllSplicedTo(ks: seq<KvBuffer>, vs: seq<KvBuffer>, beforeK: seq<seq<seq<Bytes>>>,
                               beforeV: seq<seq<seq<Bytes>>>, nodes: seq<Node>, plan: seq<seq<Cell>>, b: nat)
    requires |ks| == |vs| == |beforeK| == |beforeV| == |plan| && b <= |nodes|
    requires forall l :: 0 <= l < |plan| ==> |plan[l]| == |nodes|
    reads ks, vs
  {
    forall l {:trigger SplicedTo(ks[l], vs[l], beforeK[l], beforeV[l], nodes, plan[l], b)} ::
      0 <= l < |ks| ==> SplicedTo(ks[l], vs[l], beforeK[l], beforeV[l], nodes, plan[l], b)
  }

  // The first read to fail, node by node and layer by layer, was that of layer k of node i: the
  // layers before it have one node more spliced in than the others.
  ghost predicate StoppedAt(ks: seq<KvBuffer>, vs: seq<KvBuffer>, beforeK: seq<seq<seq<Bytes>>>,
                            beforeV: seq<seq<seq<Bytes>>>, nodes: seq<Node>, plan: seq<seq<Cell>>, i: nat, k: nat)
    requires |ks| == |vs| == |beforeK| == |beforeV| == |plan| && i < |nodes| && k < |ks|
    requires forall l :: 0 <= l < |plan| ==> |plan[l]| == |nodes|
    reads ks, vs
  {
    && plan[k][i].Fail? && (forall l :: 0 <= l < k ==> !plan[l][i].Fail?)
    && (forall c :: 0 <= c < i ==> NodeReadable(plan, c))
    && (forall l {:trigger SplicedTo(ks[l], vs[l], beforeK[l], beforeV[l], nodes, plan[l], i + 1)} ::
          0 <= l < k ==> SplicedTo(ks[l], vs[l], beforeK[l], beforeV[l], nodes, plan[l], i + 1))
    && (forall l {:trigger SplicedTo(ks[l], vs[l], beforeK[l], beforeV[l], nodes, plan[l], i)} ::
          k <= l < |ks| ==> SplicedTo(ks[l], vs[l], beforeK[l], beforeV[l], nodes, plan[l], i))
  }

  // ---- End to end ----

  lemma CellsForFit(buf: Bytes, matched: seq<Node>, l: nat, target: KvBuffer)
    ensures CellsFit(matched, CellsFor(buf, matched, l, target), target.heads)
  {
    forall i | 0 <= i < |matched|
      ensures var c := CellFor(buf, matched[i], l, target.heads, target.dim, target.dtype);
              c.Put? ==>
                && |c.key.rows| == |c.val.rows| == target.heads
                && Rectangular(c.key.rows, |matched[i].tokens|) && Rectangular(c.val.rows, |matched[i].tokens|)
    {
      CellShape(buf, matched[i], l, target.heads, target.dim, target.dtype);
    }
  }

  // Layer l of a node was offloaded in the shape and type of the target, and is still live.
  ghost predicate Restorable(cfg: Config, events: seq<Offload>, n: Node, l: nat, target: KvBuffer)
  {
    && n in RegistryAfter(cfg, events)
    && var e := events[EventOf(cfg, events, n)];
       && e.Sound(l) && e.keys[l].heads == target.heads && e.keys[l].tokens == |n.tokens| && e.keys[l].dim == target.dim
       && e.keys[l].dtype == target.dtype
       && SlotOf(cfg, events, n, l) < |RunAfter(cfg, events)|
       && R.Live(cfg.pool, RunAfter(cfg, events), SlotOf(cfg, events, n, l))
  }

  // Position pos of head h holds token i of a tensor.
  ghost predicate HoldsToken(rows: seq<seq<Bytes>>, h: nat, pos: nat, t: Tensor, i: nat)
  {
    && h < |rows| && pos < |rows[h]| && h < |t.rows| && i < |t.rows[h]|
    && rows[h][pos] == t.rows[h][i]
  }

  // After a restore, position Start(i) + t of every head of layer l holds token t of the i-th
  // matched node as last offloaded: keys in the key buffer, values in the value buffer.
  lemma RestoredTokens(cfg: Config, events: seq<Offload>, matched: seq<Node>, l: nat, target: KvBuffer,
                       before: seq<seq<Bytes>>, i: nat, h: nat, t: nat)
    requires i < |matched| && Restorable(cfg, events, matched[i], l, target)
    requires |before| == target.heads && Rectangular(before, target.len) && |Tokens(matched)| <= target.len
    requires h < target.heads && t < |matched[i].tokens|
    ensures var cells := CellsFor(R.After(cfg.pool, RunAfter(cfg, events)).buf, matched, l, target);
            var e := events[EventOf(cfg, events, matched[i])];
            var ks := Spliced(before, matched, cells, true, |matched|);
            var vs := Spliced(before, matched, cells, false, |matched|);
            var pos := Start(matched, i) + t;
            HoldsToken(ks, h, pos, e.keys[l], t) && HoldsToken(vs, h, pos, e.vals[l], t)
  {
    var buf := R.After(cfg.pool, RunAfter(cfg, events)).buf;
    var cells := CellsFor(buf, matched, l, target);
    CellsForFit(buf, matched, l, target);
    NodeReadsBack(cfg, events, matched[i], l);
    var e := events[EventOf(cfg, events, matched[i])];
    assert cells[i] == Put(e.keys[l], e.vals[l]);
    SplicedInside(before, matched, cells, true, |matched|, target.len, i, t, h);
    SplicedInside(before, matched, cells, false, |matched|, target.len, i, t, h);
  }

  // Every head of the two buffers holds the tokens of the i-th matched node as offloaded.
  ghost predicate HoldsNode(ks: seq<seq<Bytes>>, vs: seq<seq<Bytes>>, matched: seq<Node>, i: nat, e: Offload, l: nat)
    requires i < |matched|
  {
    && l < |e.keys| && l < |e.vals|
    && forall h, t :: 0 <= h < e.keys[l].heads && 0 <= t < |matched[i].tokens| ==>
         HoldsBoth(ks, vs, h, t, Start(matched, i), e.keys[l], e.vals[l])
  }

  ghost predicate HoldsBoth(ks: seq<seq<Bytes>>, vs: seq<seq<Bytes>>, h: nat, t: nat, start: nat, k: Tensor, v: Tensor)
  {
    HoldsToken(ks, h, start + t, k, t) && HoldsToken(vs, h, start + t, v, t)
  }

  // If the i-th matched node is still restorable, it is there.
  ghost predicate NodeBack(cfg: Config, events: seq<Offload>, matched: seq<Node>, i: nat, l: nat,
                           k: KvBuffer, v: KvBuffer)
    requires i < |matched|
    reads k, v
  {
    Restorable(cfg, events, matched[i], l, k) ==>
      HoldsNode(k.rows, v.rows, matched, i, events[EventOf(cfg, events, matched[i])], l)
  }

  lemma LayersRestored(cfg: Config, events: seq<Offload>, matched: seq<Node>, ks: seq<KvBuffer>, vs: seq<KvBuffer>,
                       beforeK: seq<seq<seq<Bytes>>>, beforeV: seq<seq<seq<Bytes>>>)
    requires |ks| == |vs| == |beforeK| == |beforeV| && AllReceive(ks, vs, matched)
    requires forall l :: 0 <= l < |ks| ==>
               && |beforeK[l]| == ks[l].heads && Rectangular(beforeK[l], ks[l].len)
               && |beforeV[l]| == vs[l].heads && Rectangular(beforeV[l], vs[l].len)
    requires AllSplicedTo(ks, vs, beforeK, beforeV, matched,
                          Plan(R.After(cfg.pool, RunAfter(cfg, events)).buf, matched, ks), |matched|)
    ensures forall l, i :: 0 <= l < |ks| && 0 <= i < |matched| ==> NodeBack(cfg, events, matched, i, l, ks[l], vs[l])
  {
    hide R.After, RunAfter, RegistryAfter, Restorable, HoldsNode, CellFor, Spliced, SplicedTo;
    var buf := R.After(cfg.pool, RunAfter(cfg, events)).buf;
    forall l, i | 0 <= l < |ks| && 0 <= i < |matched| ensures NodeBack(cfg, events, matched, i, l, ks[l], vs[l]) {
      assert SplicedTo(ks[l], vs[l], beforeK[l], beforeV[l], matched, Plan(buf, matched, ks)[l], |matched|);
      assert Plan(buf, matched, ks)[l] == CellsFor(buf, matched, l, ks[l]);
      assert Receives(ks[l], vs[l], matched);
      NodeRestored(cfg, events, matched, l, ks[l], vs[l], beforeK[l], beforeV[l], i);
    }
  }

  lemma NodeRestored(cfg: Config, events: seq<Offload>, matched: seq<Node>, l: nat, k: KvBuffer, v: KvBuffer,
                     beforeK: seq<seq<Bytes>>, beforeV: seq<seq<Bytes>>, i: nat)
    requires i < |matched| && Receives(k, v, matched)
    requires |beforeK| == |beforeV| == k.heads && Rectangular(beforeK, k.len) && Rectangular(beforeV, k.len)
    requires SplicedTo(k, v, beforeK, beforeV, matched,
                       CellsFor(R.After(cfg.pool, RunAfter(cfg, events)).buf, matched, l, k), |matched|)
    ensures NodeBack(cfg, events, matched, i, l, k, v)
  {
    hide R.After, RunAfter, RegistryAfter, Spliced, HoldsToken, CellsFor, ComesBack;
    if Restorable(cfg, events, matched[i], l, k) {
      var e := events[EventOf(cfg, events, matched[i])];
      forall h, t | 0 <= h < e.keys[l].heads && 0 <= t < |matched[i].tokens|
        ensures HoldsBoth(k.rows, v.rows, h, t, Start(matched, i), e.keys[l], e.vals[l])
      {
        RestoredTokens(cfg, events, matched, l, k, beforeK, i, h, t);
        RestoredTokens(cfg, events, matched, l, k, beforeV, i, h, t);
      }
    }
  }

  // Positions from the matched length on are left as they were.
  lemma BeyondMatchUntouched(buf: Bytes, matched: seq<Node>, l: nat, target: KvBuffer,
                             before: seq<seq<Bytes>>, keys: bool, h: nat, pos: nat)
    requires |before| == target.heads && Rectangular(before, target.len)
    requires h < target.heads && |Tokens(matched)| <= pos < target.len
    ensures var r := Spliced(before, matched, CellsFor(buf, matched, l, target), keys, |matched|);
            pos < |r[h]| && r[h][pos] == before[h][pos]
  {
    CellsForFit(buf, matched, l, target);
    SlicesTile(matched, pos);
    SplicedOutside(before, matched, CellsFor(buf, matched, l, target), keys, |matched|, target.len, h, pos);
  }

  // ---- Layers a node was not offloaded with ----

  ghost predicate NotOffloaded(cfg: Config, events: seq<Offload>, n: Node, l: nat)
  {
    n in RegistryAfter(cfg, events) && l >= |events[EventOf(cfg, events, n)].keys|
  }

  // Every head keeps what it held from position a up to b.
  ghost predicate SameBetween(before: seq<seq<Bytes>>, rows: seq<seq<Bytes>>, a: nat, b: nat)
  {
    |rows| == |before| &&
    forall h :: 0 <= h < |rows| ==> |rows[h]| == |before[h]| && SameRow(before[h], rows[h], a, b)
  }

  ghost predicate SameRow(before: seq<Bytes>, row: seq<Bytes>, a: nat, b: nat)
  {
    forall pos :: a <= pos < b && pos < |row| && pos < |before| ==> row[pos] == before[pos]
  }

  // The slice of a node whose cell is kept holds what it held, after any number of nodes.
  lemma KeptSlice(rows: seq<seq<Bytes>>, matched: seq<Node>, cells: seq<Cell>, keys: bool, n: nat, len: nat, i: nat)
    requires n <= |matched| == |cells| && CellsFit(matched, cells, |rows|)
    requires Rectangular(rows, len) && |Tokens(matched)| <= len && i < |matched| && cells[i].Keep?
    ensures SameBetween(rows, Spliced(rows, matched, cells, keys, n), Start(matched, i), Start(matched, i + 1))
  {
    hide Spliced, Start, CellsFit;
    var r := Spliced(rows, matched, cells, keys, n);
    SplicedShape(rows, matched, cells, keys, n, len);
    StartNext(matched, i);
    forall h, pos | 0 <= h < |r| && Start(matched, i) <= pos < Start(matched, i + 1) && pos < len
      ensures r[h][pos] == rows[h][pos]
    {
      SlicesTile(matched, pos);
      assert InSlice(matched, i, pos);
      SplicedOutside(rows, matched, cells, keys, n, len, h, pos);
    }
  }

  // So do the positions past the match.
  lemma KeptBeyond(rows: seq<seq<Bytes>>, matched: seq<Node>, cells: seq<Cell>, keys: bool, n: nat, len: nat)
    requires n <= |matched| == |cells| && CellsFit(matched, cells, |rows|)
    requires Rectangular(rows, len) && |Tokens(matched)| <= len
    ensures SameBetween(rows, Spliced(rows, matched, cells, keys, n), |Tokens(matched)|, len)
  {
    hide Spliced, Start, CellsFit;
    var r := Spliced(rows, matched, cells, keys, n);
    SplicedShape(rows, matched, cells, keys, n, len);
    forall h, pos | 0 <= h < |r| && |Tokens(matched)| <= pos < len ensures r[h][pos] == rows[h][pos] {
      SlicesTile(matched, pos);
      SplicedOutside(rows, matched, cells, keys, n, len, h, pos);
    }
  }

  // The buffers of a layer after a restore, whatever its outcome: some number of nodes spliced in.
  lemma SplicedSome(buf: Bytes, matched: seq<Node>, ks: seq<KvBuffer>, vs: seq<KvBuffer>,
                    beforeK: seq<seq<seq<Bytes>>>, beforeV: seq<seq<seq<Bytes>>>, r: Outcome, l: nat) returns (n: nat)
    requires |ks| == |vs| == |beforeK| == |beforeV| && l < |ks|
    requires r == Miss ==> ks[l].rows == beforeK[l] && vs[l].rows == beforeV[l]
    requires r == Raised ==>
               exists c, k :: 0 <= c < |matched| && 0 <= k < |ks| &&
                 StoppedAt(ks, vs, beforeK, beforeV, matched, Plan(buf, matched, ks), c, k)
    requires r == Hit ==> AllSplicedTo(ks, vs, beforeK, beforeV, matched, Plan(buf, matched, ks), |matched|)
    ensures n <= |matched| && (r == Hit ==> n == |matched|)
    ensures ks[l].rows == Spliced(beforeK[l], matched, CellsFor(buf, matched, l, ks[l]), true, n)
    ensures vs[l].rows == Spliced(beforeV[l], matched, CellsFor(buf, matched, l, ks[l]), false, n)
  {
    hide Start, CellIn, Splice;
    var plan := Plan(buf, matched, ks);
    assert plan[l] == CellsFor(buf, matched, l, ks[l]);
    if r == Miss {
      n := 0;
    } else {
      n := |matched|;
      if r == Raised {
        var c, k :| 0 <= c < |matched| && 0 <= k < |ks| && StoppedAt(ks, vs, beforeK, beforeV, matched, plan, c, k);
        n := if l < k then c + 1 else c;
      }
      assert SplicedTo(ks[l], vs[l], beforeK[l], beforeV[l], matched, plan[l], n);
    }
  }

  lemma BeyondKept(buf: Bytes, matched: seq<Node>, ks: seq<KvBuffer>, vs: seq<KvBuffer>,
                   beforeK: seq<seq<seq<Bytes>>>, beforeV: seq<seq<seq<Bytes>>>, r: Outcome, l: nat)
    requires |ks| == |vs| == |beforeK| == |beforeV| && l < |ks| && Receives(ks[l], vs[l], matched)
    requires |beforeK[l]| == |beforeV[l]| == ks[l].heads
    requires Rectangular(beforeK[l], ks[l].len) && Rectangular(beforeV[l], ks[l].len)
    requires r == Miss ==> ks[l].rows == beforeK[l] && vs[l].rows == beforeV[l]
    requires r == Raised ==>
               exists c, k :: 0 <= c < |matched| && 0 <= k < |ks| &&
                 StoppedAt(ks, vs, beforeK, beforeV, matched, Plan(buf, matched, ks), c, k)
    requires r == Hit ==> AllSplicedTo(ks, vs, beforeK, beforeV, matched, Plan(buf, matched, ks), |matched|)
    ensures SameBetween(beforeK[l], ks[l].rows, |Tokens(matched)|, ks[l].len)
    ensures SameBetween(beforeV[l], vs[l].rows, |Tokens(matched)|, vs[l].len)
  {
    hide Spliced, CellsFit, SameBetween, CellsFor, StoppedAt, AllSplicedTo;
    var cells := CellsFor(buf, matched, l, ks[l]);
    var n := SplicedSome(buf, matched, ks, vs, beforeK, beforeV, r, l);
    CellsForFit(buf, matched, l, ks[l]);
    KeptBeyond(beforeK[l], matched, cells, true, n, ks[l].len);
    KeptBeyond(beforeV[l], matched, cells, false, n, ks[l].len);
  }

  // The slice of the i-th matched node in layer l holds what is read at its offset there.
  ghost predicate SliceRead(buf: Bytes, matched: seq<Node>, i: nat, l: nat, k: KvBuffer, v: KvBuffer)
    requires i < |matched|
    reads k, v
  {
    && l < |matched[i].layerOffsets|
    && var read := ReadBlock(buf, matched[i].layerOffsets[l], k.heads, |matched[i].tokens|, k.dim, k.dtype);
       && read.Some?
       && forall h, t :: 0 <= h < k.heads && 0 <= t < |matched[i].tokens| ==>
            HoldsBoth(k.rows, v.rows, h, t, Start(matched, i), read.value.0, read.value.1)
  }

  lemma SliceIsRead(buf: Bytes, matched: seq<Node>, ks: seq<KvBuffer>, vs: seq<KvBuffer>,
                    beforeK: seq<seq<seq<Bytes>>>, beforeV: seq<seq<seq<Bytes>>>, i: nat, l: nat)
    requires |ks| == |vs| == |beforeK| == |beforeV| && l < |ks| && Receives(ks[l], vs[l], matched)
    requires |beforeK[l]| == |beforeV[l]| == ks[l].heads && i < |matched|
    requires Rectangular(beforeK[l], ks[l].len) && Rectangular(beforeV[l], ks[l].len)
    requires AllSplicedTo(ks, vs, beforeK, beforeV, matched, Plan(buf, matched, ks), |matched|)
    requires l < |matched[i].layerOffsets| && !LeavesPool(buf, matched[i], l, ks[l])
    ensures SliceRead(buf, matched, i, l, ks[l], vs[l])
  {
    hide Spliced, CellsFit, Start, StoppedAt, AllSplicedTo, ReadBlock, LeavesPool;
    var cells := CellsFor(buf, matched, l, ks[l]);
    var n := SplicedSome(buf, matched, ks, vs, beforeK, beforeV, Hit, l);
    CellsForFit(buf, matched, l, ks[l]);
    FailsIff(buf, matched[i], l, ks[l]);
    CellShape(buf, matched[i], l, ks[l].heads, ks[l].dim, ks[l].dtype);
    assert cells[i].Put?;
    forall h, t | 0 <= h < ks[l].heads && 0 <= t < |matched[i].tokens|
      ensures HoldsBoth(ks[l].rows, vs[l].rows, h, t, Start(matched, i), cells[i].key, cells[i].val)
    {
      SplicedInside(beforeK[l], matched, cells, true, n, ks[l].len, i, t, h);
      SplicedInside(beforeV[l], matched, cells, false, n, ks[l].len, i, t, h);
    }
  }

  lemma NotOffloadedCell(cfg: Config, events: seq<Offload>, buf: Bytes, matched: seq<Node>, target: KvBuffer,
                         i: nat, l: nat)
    requires i < |matched| && NotOffloaded(cfg, events, matched[i], l)
    ensures CellsFor(buf, matched, l, target)[i].Keep?
  {
  }

  lemma NotOffloadedKept(cfg: Config, events: seq<Offload>, buf: Bytes, matched: seq<Node>, ks: seq<KvBuffer>,
                         vs: seq<KvBuffer>, beforeK: seq<seq<seq<Bytes>>>, beforeV: seq<seq<seq<Bytes>>>,
                         r: Outcome, i: nat, l: nat)
    requires |ks| == |vs| == |beforeK| == |beforeV| && l < |ks| && i < |matched|
    requires Receives(ks[l], vs[l], matched) && NotOffloaded(cfg, events, matched[i], l)
    requires |beforeK[l]| == |beforeV[l]| == ks[l].heads
    requires Rectangular(beforeK[l], ks[l].len) && Rectangular(beforeV[l], ks[l].len)
    requires r == Miss ==> ks[l].rows == beforeK[l] && vs[l].rows == beforeV[l]
    requires r == Raised ==>
               exists c, k :: 0 <= c < |matched| && 0 <= k < |ks| &&
                 StoppedAt(ks, vs, beforeK, beforeV, matched, Plan(buf, matched, ks), c, k)
    requires r == Hit ==> AllSplicedTo(ks, vs, beforeK, beforeV, matched, Plan(buf, matched, ks), |matched|)
    ensures SameBetween(beforeK[l], ks[l].rows, Start(matched, i), Start(matched, i + 1))
    ensures SameBetween(beforeV[l], vs[l].rows, Start(matched, i), Start(matched, i + 1))
  {
    hide Spliced, Start, CellsFit, SameBetween, NotOffloaded, CellIn;
    var cells := CellsFor(buf, matched, l, ks[l]);
    var n := SplicedSome(buf, matched, ks, vs, beforeK, beforeV, r, l);
    NotOffloadedCell(cfg, events, buf, matched, ks[l], i, l);
    CellsForFit(buf, matched, l, ks[l]);
    KeptSlice(beforeK[l], matched, cells, true, n, ks[l].len, i);
    KeptSlice(beforeV[l], matched, cells, false, n, ks[l].len, i);
  }
}

// KacheDBMemoryManager of src/kachedb/dma.py: KV slots in a ring of shared memory.
module Dma {
  import opened Bytes
  import opened Tensors
  import opened Descriptors
  import R = Ring

  // The header write_paged_block asks for, before the C fields cut its values down.
  function HeaderFor(key: Tensor, val: Tensor, layerIdx: nat, prefixHash: nat): Descriptor
  {
    Descriptor(MAGIC, layerIdx, 1, key.tokens, key.heads, key.dim, key.dtype.Code(), 0, prefixHash,
               |Serialize(key)| + |Serialize(val)|, 0)
  }

  // One slot: header, key bytes, value bytes.
  function SlotBytes(key: Tensor, val: Tensor, layerIdx: nat, prefixHash: nat): (slot: Bytes)
    ensures |slot| == DESCRIPTOR_SIZE + |Serialize(key)| + |Serialize(val)|
  {
    HeaderRoundTrip(HeaderFor(key, val, layerIdx, prefixHash), []);
    HeaderFor(key, val, layerIdx, prefixHash).ToBytes() + Serialize(key) + Serialize(val)
  }

  // The header of a block, field by field: each value cut down to its C field.
  predicate Describes(d: Descriptor, key: Tensor, val: Tensor, layerIdx: nat, prefixHash: nat)
  {
    && d.magic == 0x4B41_4348 && d.layerId == layerIdx % 0x1_0000 && d.numLayers == 1
    && d.blockSize == key.tokens % 0x1_0000 && d.numHeads == key.heads % 0x1_0000
    && d.headDim == key.dim % 0x1_0000 && d.prefixHash == prefixHash % 0x1_0000_0000_0000_0000
    && d.payloadBytes == (|Serialize(key)| + |Serialize(val)|) % 0x1_0000_0000
    && d.dtype == (match key.dtype
                   case Float32 => 0
                   case Float16 => 1
                   case BFloat16 => 2
                   case UInt8 => 3
                   case Int8 => 5
                   case Other(_) => 1)
  }

  // A slot begins with a header that describes it; it is the header asked for exactly when every
  // value fits its C field.
  lemma SlotHeader(key: Tensor, val: Tensor, layerIdx: nat, prefixHash: nat)
    ensures var slot := SlotBytes(key, val, layerIdx, prefixHash);
            && FromBytes(slot) == Some(HeaderFor(key, val, layerIdx, prefixHash).Truncated())
            && Describes(FromBytes(slot).value, key, val, layerIdx, prefixHash)
            && (FromBytes(slot) == Some(HeaderFor(key, val, layerIdx, prefixHash)) <==>
                  HeaderFor(key, val, layerIdx, prefixHash).Fits())
  {
    hide FromBytes, Serialize;
    var d := HeaderFor(key, val, layerIdx, prefixHash);
    HeaderRoundTrip(d, Serialize(key) + Serialize(val));
    assert SlotBytes(key, val, layerIdx, prefixHash) == d.ToBytes() + (Serialize(key) + Serialize(val));
    TruncatedDescribes(key, val, layerIdx, prefixHash);
  }

  lemma TruncatedDescribes(key: Tensor, val: Tensor, layerIdx: nat, prefixHash: nat)
    ensures Describes(HeaderFor(key, val, layerIdx, prefixHash).Truncated(), key, val, layerIdx, prefixHash)
  {
    hide Serialize, Base;
    KeptFields(HeaderFor(key, val, layerIdx, prefixHash));
  }

  // torch.frombuffer(buffer, dtype, count, offset): None is the ValueError it raises for an
  // empty request or one that runs past the end of the buffer.
  function FromBuffer(buf: Bytes, offset: nat, count: nat, itemSize: nat): (r: Option<Bytes>)
    ensures r.Some? ==> |r.value| == count * itemSize
  {
    if count == 0 || offset + count * itemSize > |buf| then None
    else Some(buf[offset..offset + count * itemSize])
  }

  // read_paged_block on raw bytes: the value starts where the codec's table says the key ends.
  function ReadBytes(buf: Bytes, offset: nat, count: nat, dtype: DType): (r: Option<(Bytes, Bytes)>)
    ensures r.Some? ==> |r.value.0| == |r.value.1| == count * dtype.ItemSize()
  {
    var payload := offset + DESCRIPTOR_SIZE;
    var k := FromBuffer(buf, payload, count, dtype.ItemSize());
    var v := FromBuffer(buf, payload + count * dtype.TableSize(), count, dtype.ItemSize());
    if k.Some? && v.Some? then Some((k.value, v.value)) else None
  }

  function ReadBlock(buf: Bytes, offset: nat, heads: nat, tokens: nat, dim: nat, dtype: DType)
    : (r: Option<(Tensor, Tensor)>)
  {
    var b := ReadBytes(buf, offset, heads * tokens * dim, dtype);
    if b.None? then None else
      Reassociate(heads, tokens, dim, dtype.ItemSize());
      Some((Deserialize(b.value.0, heads, tokens, dim, dtype),
            Deserialize(b.value.1, heads, tokens, dim, dtype)))
  }

  ghost predicate SameLayout(key: Tensor, val: Tensor)
  {
    key.WellFormed() && val.WellFormed() && key.SameShape(val) && key.dtype == val.dtype
  }

  // These bytes stand in the buffer at this offset.
  predicate StandsAt(buf: Bytes, o: nat, b: Bytes)
  {
    o + |b| <= |buf| && buf[o..o + |b|] == b
  }

  lemma PartsStand(buf: Bytes, o: nat, a: Bytes, b: Bytes)
    requires StandsAt(buf, o, a + b)
    ensures StandsAt(buf, o, a) && StandsAt(buf, o + |a|, b)
  {
    assert (a + b)[0..|a|] == a && (a + b)[|a|..|a + b|] == b;
    SliceOfSlice(buf, o, |a + b|, 0, |a|);
    SliceOfSlice(buf, o, |a + b|, |a|, |a + b|);
  }

  // The parts of a live slot in the buffer.
  lemma LiveSlotParts(pool: nat, run: R.Run, i: nat, key: Tensor, val: Tensor, layerIdx: nat, prefixHash: nat)
    requires i < |run| && R.Live(pool, run, i)
    requires run[i] == SlotBytes(key, val, layerIdx, prefixHash)
    ensures StandsAt(R.After(pool, run).buf, R.Offset(pool, run, i),
                     HeaderFor(key, val, layerIdx, prefixHash).ToBytes())
    ensures StandsAt(R.After(pool, run).buf, R.Offset(pool, run, i) + DESCRIPTOR_SIZE, Serialize(key))
    ensures StandsAt(R.After(pool, run).buf, R.Offset(pool, run, i) + DESCRIPTOR_SIZE + |Serialize(key)|,
                     Serialize(val))
  {
    hide R.After, R.Offset, R.Live, Serialize;
    var buf, o := R.After(pool, run).buf, R.Offset(pool, run, i);
    var h := HeaderFor(key, val, layerIdx, prefixHash).ToBytes();
    HeaderRoundTrip(HeaderFor(key, val, layerIdx, prefixHash), []);
    assert StandsAt(buf, o, h + Serialize(key) + Serialize(val)) by { R.LiveSlotIntact(pool, run, i); }
    PartsStand(buf, o, h + Serialize(key), Serialize(val));
    PartsStand(buf, o, h, Serialize(key));
  }

  // A live slot read with the shape and type it was written with gives back both tensors,
  // provided the codec's table knows the true size of the type.
  lemma ReadBack(pool: nat, run: R.Run, i: nat, key: Tensor, val: Tensor, layerIdx: nat, prefixHash: nat)
    requires i < |run| && R.Live(pool, run, i)
    requires run[i] == SlotBytes(key, val, layerIdx, prefixHash)
    requires SameLayout(key, val) && key.Elements() > 0
    requires key.dtype.TableSize() == key.dtype.ItemSize()
    ensures ReadBlock(R.After(pool, run).buf, R.Offset(pool, run, i), key.heads, key.tokens, key.dim, key.dtype)
            == Some((key, val))
  {
    hide R.After, R.Offset, R.Live, Serialize, SlotBytes, ReadBlock;
    var buf, o := R.After(pool, run).buf, R.Offset(pool, run, i);
    LiveSlotParts(pool, run, i, key, val, layerIdx, prefixHash);
    ReadBlockAt(buf, o, key, val);
  }

  // The values of a block fit the C fields of its header.
  predicate FitsHeader(key: Tensor, val: Tensor, layerIdx: nat, prefixHash: nat)
  {
    && layerIdx < 0x1_0000 && key.heads < 0x1_0000 && key.tokens < 0x1_0000 && key.dim < 0x1_0000
    && prefixHash < 0x1_0000_0000_0000_0000 && |Serialize(key)| + |Serialize(val)| < 0x1_0000_0000
  }

  // A live slot describes itself: the header in its first 64 bytes names the magic, the layer, the
  // hash and the length it was written with, and the shape in it, read in the order of
  // the tensor's dimensions, gives both tensors back.
  lemma SlotDescribesItself(pool: nat, run: R.Run, i: nat, key: Tensor, val: Tensor, layerIdx: nat, prefixHash: nat)
    requires i < |run| && R.Live(pool, run, i)
    requires run[i] == SlotBytes(key, val, layerIdx, prefixHash)
    requires SameLayout(key, val) && FitsHeader(key, val, layerIdx, prefixHash)
    ensures var buf, o := R.After(pool, run).buf, R.Offset(pool, run, i);
            && o + 64 <= |buf| && FromBytes(buf[o..o + 64]).Some?
            && var d := FromBytes(buf[o..o + 64]).value;
            && d.magic == 0x4B41_4348 && d.layerId == layerIdx && d.prefixHash == prefixHash
            && d.payloadBytes + 64 == |run[i]|
            && d.payloadBytes == 2 * key.Elements() * (match key.dtype
                                                       case Float16 => 2
                                                       case BFloat16 => 2
                                                       case Float32 => 4
                                                       case Int8 => 1
                                                       case UInt8 => 1
                                                       case Other(bytes) => bytes)
            && d.numHeads == key.heads && d.blockSize == key.tokens && d.headDim == key.dim
            && (key.Elements() > 0 && key.dtype.TableSize() == key.dtype.ItemSize() ==>
                  ReadBlock(buf, o, d.numHeads, d.blockSize, d.headDim, key.dtype) == Some((key, val)))
  {
    hide R.After, R.Offset, R.Live, Serialize, FromBytes, ReadBlock;
    var buf, o := R.After(pool, run).buf, R.Offset(pool, run, i);
    LiveSlotParts(pool, run, i, key, val, layerIdx, prefixHash);
    var h := HeaderFor(key, val, layerIdx, prefixHash);
    HeaderRoundTrip(h, []);
    assert h.ToBytes() + [] == h.ToBytes();
    HeaderFits(h);
    SerializedLength(key);
    SerializedLength(val);
    Twice(key.Elements(), key.dtype.ItemSize());
    if key.Elements() > 0 && key.dtype.TableSize() == key.dtype.ItemSize() {
      ReadBack(pool, run, i, key, val, layerIdx, prefixHash);
    }
  }

  lemma Twice(n: nat, w: nat)
    ensures n * w + n * w == 2 * n * w
  {
  }

  // Where the codec's table says the key ends in the payload.
  function KeyEnd(key: Tensor): nat { key.Elements() * key.dtype.TableSize() }

  // For every type: the tensors come back exactly when there are elements and the value's bytes
  // stand where the codec's table says the key ends, which for a type without an entry is two
  // bytes an element.
  lemma ReadBackIff(pool: nat, run: R.Run, i: nat, key: Tensor, val: Tensor, layerIdx: nat, prefixHash: nat)
    requires i < |run| && R.Live(pool, run, i)
    requires run[i] == SlotBytes(key, val, layerIdx, prefixHash) && SameLayout(key, val)
    ensures var buf, o := R.After(pool, run).buf, R.Offset(pool, run, i);
            ReadBlock(buf, o, key.heads, key.tokens, key.dim, key.dtype) == Some((key, val)) <==>
            key.Elements() > 0 && StandsAt(buf, o + DESCRIPTOR_SIZE + KeyEnd(key), Serialize(val))
  {
    hide R.After, R.Offset, R.Live, Serialize, SlotBytes, Deserialize;
    var buf, o := R.After(pool, run).buf, R.Offset(pool, run, i);
    LiveSlotParts(pool, run, i, key, val, layerIdx, prefixHash);
    SerializedLength(key);
    SerializedLength(val);
    var b := ReadBytes(buf, o, key.Elements(), key.dtype);
    if b.Some? {
      Reassociate(key.heads, key.tokens, key.dim, key.dtype.ItemSize());
      DeserializeSerialize(key);
      DeserializeSerialize(val);
      SerializeDeserialize(b.value.1, key.heads, key.tokens, key.dim, key.dtype);
    }
  }

  // The value's bytes stand where the table says the key ends, within the payload: a condition on
  // the two tensors alone.
  ghost predicate ComesBack(key: Tensor, val: Tensor)
  {
    var payload, at := Serialize(key) + Serialize(val), KeyEnd(key);
    && key.Elements() > 0 && at + |Serialize(val)| <= |payload|
    && payload[at..at + |Serialize(val)|] == Serialize(val)
  }

  // For a type whose elements are no smaller than the table says, whatever else was written: a
  // live slot gives its tensors back exactly when they meet that condition.
  lemma ReadBackIffComesBack(pool: nat, run: R.Run, i: nat, key: Tensor, val: Tensor, layerIdx: nat, prefixHash: nat)
    requires i < |run| && R.Live(pool, run, i)
    requires run[i] == SlotBytes(key, val, layerIdx, prefixHash) && SameLayout(key, val)
    requires key.dtype.ItemSize() >= key.dtype.TableSize()
    ensures var buf, o := R.After(pool, run).buf, R.Offset(pool, run, i);
            ReadBlock(buf, o, key.heads, key.tokens, key.dim, key.dtype) == Some((key, val)) <==> ComesBack(key, val)
  {
    hide R.After, R.Offset, R.Live, Serialize, SlotBytes, ReadBlock, StandsAt;
    ReadBackIff(pool, run, i, key, val, layerIdx, prefixHash);
    LiveSlotParts(pool, run, i, key, val, layerIdx, prefixHash);
    SerializedLength(key);
    SerializedLength(val);
    ProductGrows(key.Elements(), key.dtype.TableSize(), key.dtype.ItemSize());
    var o := R.Offset(pool, run, i) + DESCRIPTOR_SIZE;
    StandsWithin(R.After(pool, run).buf, o, Serialize(key), Serialize(val), KeyEnd(key));
  }

  // Where two byte strings stand side by side, the second stands at d as well exactly when it is
  // found there in the two.
  lemma StandsWithin(buf: Bytes, o: nat, a: Bytes, b: Bytes, d: nat)
    requires StandsAt(buf, o, a) && StandsAt(buf, o + |a|, b) && d + |b| <= |a + b|
    ensures StandsAt(buf, o + d, b) <==> (a + b)[d..d + |b|] == b
  {
    JoinStands(buf, o, a, b);
    SliceOfSlice(buf, o, |a + b|, d, d + |b|);
  }

  // It holds of every tensor of a type in the table that is not empty.
  lemma TableTypesComeBack(key: Tensor, val: Tensor)
    requires SameLayout(key, val) && key.Elements() > 0 && key.dtype.TableSize() == key.dtype.ItemSize()
    ensures ComesBack(key, val)
  {
    SerializedLength(key);
    SerializedLength(val);
  }

  lemma JoinStands(buf: Bytes, o: nat, a: Bytes, b: Bytes)
    requires StandsAt(buf, o, a) && StandsAt(buf, o + |a|, b)
    ensures StandsAt(buf, o, a + b)
  {
    assert buf[o..o + |a + b|] == buf[o..o + |a|] + buf[o + |a|..o + |a| + |b|];
  }

  lemma ProductGrows(n: nat, a: nat, b: nat)
    requires a <= b
    ensures n * a <= n * b
  {
  }

  // ---- Which types come back ----

  // Every live slot of this type that is not empty gives its tensors back.
  ghost predicate TypeReadsBack(dtype: DType)
  {
    forall pool: nat, run: R.Run, i: nat, key, val, layerIdx: nat, prefixHash: nat ::
      i < |run| && R.Live(pool, run, i) && run[i] == SlotBytes(key, val, layerIdx, prefixHash)
      && SameLayout(key, val) && key.Elements() > 0 && key.dtype == dtype ==>
        ReadBlock(R.After(pool, run).buf, R.Offset(pool, run, i), key.heads, key.tokens, key.dim, dtype)
        == Some((key, val))
  }

  // It does exactly for the types of the table, and for those others whose elements are two bytes.
  lemma TypeReadsBackIff(dtype: DType)
    requires dtype.ItemSize() > 0
    ensures TypeReadsBack(dtype) <==> dtype.TableSize() == dtype.ItemSize()
  {
    if dtype.TableSize() == dtype.ItemSize() {
      forall pool: nat, run: R.Run, i: nat, key, val, layerIdx: nat, prefixHash: nat |
        i < |run| && R.Live(pool, run, i) && run[i] == SlotBytes(key, val, layerIdx, prefixHash)
        && SameLayout(key, val) && key.Elements() > 0 && key.dtype == dtype
        ensures ReadBlock(R.After(pool, run).buf, R.Offset(pool, run, i), key.heads, key.tokens, key.dim, dtype)
                == Some((key, val))
      {
        ReadBack(pool, run, i, key, val, layerIdx, prefixHash);
      }
    } else {
      FailingSlot(dtype);
    }
  }

  // One element, all of whose bytes are b.
  function OneElement(dtype: DType, b: byte): (t: Tensor)
    ensures t.WellFormed() && t.Elements() == 1
    ensures Serialize(t) == seq(dtype.ItemSize(), _ => b)
  {
    var row := seq(dtype.ItemSize(), _ => b);
    assert Join([row]) == row + Join([]) && row + [] == row;
    assert Planes([[row]]) == [row];
    Tensor(1, 1, 1, dtype, [[row]])
  }

  // A slot alone in its pool: of bytes, whose value is read beyond the end of the pool, or of
  // wider elements, whose value is read from within the key.
  lemma FailingSlot(dtype: DType)
    requires dtype.Other? && dtype.ItemSize() > 0 && dtype.ItemSize() != 2
    ensures var key, val := OneElement(dtype, 0), OneElement(dtype, 1);
            var run := [SlotBytes(key, val, 0, 0)];
            var pool := |run[0]|;
            && R.Live(pool, run, 0) && SameLayout(key, val)
            && ReadBlock(R.After(pool, run).buf, R.Offset(pool, run, 0), 1, 1, 1, dtype) != Some((key, val))
  {
    var key, val := OneElement(dtype, 0), OneElement(dtype, 1);
    var run := [SlotBytes(key, val, 0, 0)];
    var pool := |run[0]|;
    OnlySlot(pool, run);
    ReadBackIff(pool, run, 0, key, val, 0, 0);
    if dtype.ItemSize() > 2 {
      ReadBackIffComesBack(pool, run, 0, key, val, 0, 0);
      var payload := Serialize(key) + Serialize(val);
      assert payload[2] == 0 && Serialize(val)[0] == 1;
      assert payload[2..2 + |Serialize(val)|][0] == payload[2];
    }
  }

  lemma OnlySlot(pool: nat, run: R.Run)
    requires |run| == 1 && |run[0]| == pool
    ensures R.Live(pool, run, 0) && R.Offset(pool, run, 0) == 0 && |R.After(pool, run).buf| == pool
  {
  }

  lemma ReadBlockAt(buf: Bytes, o: nat, key: Tensor, val: Tensor)
    requires SameLayout(key, val) && key.Elements() > 0 && key.dtype.TableSize() == key.dtype.ItemSize()
    requires StandsAt(buf, o + DESCRIPTOR_SIZE, Serialize(key))
    requires StandsAt(buf, o + DESCRIPTOR_SIZE + |Serialize(key)|, Serialize(val))
    ensures ReadBlock(buf, o, key.heads, key.tokens, key.dim, key.dtype) == Some((key, val))
  {
    SerializedLength(key);
    SerializedLength(val);
    ReadBytesAt(buf, o, key.Elements(), key.dtype, Serialize(key), Serialize(val));
    ReadBlockFromBytes(buf, o, key, val);
  }

  lemma ReadBlockFromBytes(buf: Bytes, o: nat, key: Tensor, val: Tensor)
    requires SameLayout(key, val)
    requires ReadBytes(buf, o, key.Elements(), key.dtype) == Some((Serialize(key), Serialize(val)))
    ensures ReadBlock(buf, o, key.heads, key.tokens, key.dim, key.dtype) == Some((key, val))
  {
    DeserializeSerialize(key);
    DeserializeSerialize(val);
  }

  lemma ReadBytesAt(buf: Bytes, o: nat, n: nat, dtype: DType, k: Bytes, v: Bytes)
    requires n > 0 && |k| == |v| == n * dtype.ItemSize() && dtype.TableSize() == dtype.ItemSize()
    requires StandsAt(buf, o + DESCRIPTOR_SIZE, k) && StandsAt(buf, o + DESCRIPTOR_SIZE + |k|, v)
    ensures ReadBytes(buf, o, n, dtype) == Some((k, v))
  {
    assert n * dtype.TableSize() == |k|;
  }

  // Reading without a dtype means float16.  On a slot of another type the bytes handed back are
  // the written ones exactly when that type also has 16-bit elements.
  lemma DefaultDTypeIffSixteenBit(pool: nat, run: R.Run, i: nat, key: Tensor, val: Tensor,
                                  layerIdx: nat, prefixHash: nat)
    requires i < |run| && R.Live(pool, run, i)
    requires run[i] == SlotBytes(key, val, layerIdx, prefixHash)
    requires SameLayout(key, val) && key.Elements() > 0
    ensures ReadBytes(R.After(pool, run).buf, R.Offset(pool, run, i), key.Elements(), Float16)
            == Some((Serialize(key), Serialize(val)))
            <==> key.dtype.ItemSize() == 2
  {
    hide R.After, R.Offset, R.Live, Serialize, SlotBytes, FromBuffer;
    var buf, o := R.After(pool, run).buf, R.Offset(pool, run, i);
    LiveSlotParts(pool, run, i, key, val, layerIdx, prefixHash);
    SerializedLength(key);
    SerializedLength(val);
    var n, w := key.Elements(), key.dtype.ItemSize();
    if w == 2 {
      ReadBytesAt(buf, o, n, Float16, Serialize(key), Serialize(val));
    } else {
      DifferentProducts(n, w, Float16.ItemSize());
      assert ReadBytes(buf, o, n, Float16).Some? ==>
               |ReadBytes(buf, o, n, Float16).value.0| == n * Float16.ItemSize() != n * w == |Serialize(key)|;
    }
  }

  // Tensors of a 16-bit type read as float16: the same bits under another type.
  function AsFloat16(t: Tensor): Tensor { t.(dtype := Float16) }

  lemma ReadBackAsFloat16(pool: nat, run: R.Run, i: nat, key: Tensor, val: Tensor, layerIdx: nat, prefixHash: nat)
    requires i < |run| && R.Live(pool, run, i)
    requires run[i] == SlotBytes(key, val, layerIdx, prefixHash)
    requires SameLayout(key, val) && key.Elements() > 0 && key.dtype.ItemSize() == 2
    ensures ReadBlock(R.After(pool, run).buf, R.Offset(pool, run, i), key.heads, key.tokens, key.dim, Float16)
            == Some((AsFloat16(key), AsFloat16(val)))
  {
    hide R.After, R.Offset, R.Live, Serialize, SlotBytes, ReadBlock;
    LiveSlotParts(pool, run, i, key, val, layerIdx, prefixHash);
    SameBytes(key);
    SameBytes(val);
    ReadBlockAt(R.After(pool, run).buf, R.Offset(pool, run, i), AsFloat16(key), AsFloat16(val));
  }

  lemma SameBytes(t: Tensor)
    ensures Serialize(AsFloat16(t)) == Serialize(t)
  {
  }

  // Three slice assignments that follow one another amount to one overlay, even when they make
  // the array grow.
  lemma ThreeAssignments(b: Bytes, o: nat, h: Bytes, k: Bytes, v: Bytes)
    requires o <= |b|
    ensures var b1 := R.SliceAssign(b, o, o + |h|, h);
            var b2 := R.SliceAssign(b1, o + |h|, o + |h| + |k|, k);
            R.SliceAssign(b2, o + |h| + |k|, o + |h| + |k| + |v|, v) == R.Overlay(b, o, h + k + v)
  {
    hide R.SliceAssign, R.Overlay;
    AssignIsOverlay(b, o, h);
    var b1 := R.Overlay(b, o, h);
    AssignIsOverlay(b1, o + |h|, k);
    OverlayTwice(b, o, h, k);
    var b2 := R.Overlay(b1, o + |h|, k);
    AssignIsOverlay(b2, o + |h| + |k|, v);
    OverlayTwice(b, o, h + k, v);
  }

  lemma AssignIsOverlay(b: Bytes, o: nat, v: Bytes)
    requires o <= |b|
    ensures R.SliceAssign(b, o, o + |v|, v) == R.Overlay(b, o, v)
  {
    if o + |v| > |b| { assert b[|b|..] == []; }
  }

  lemma OverlayTwice(b: Bytes, o: nat, x: Bytes, y: Bytes)
    requires o <= |b|
    ensures R.Overlay(R.Overlay(b, o, x), o + |x|, y) == R.Overlay(b, o, x + y)
  {
    var l, r := R.Overlay(R.Overlay(b, o, x), o + |x|, y), R.Overlay(b, o, x + y);
    assert |l| == |r|;
    forall p | 0 <= p < |l| ensures l[p] == r[p] {
      if o <= p < o + |x| {
        assert R.Overlay(b, o, x)[o..o + |x|][p - o] == x[p - o];
        assert r[o..o + |x + y|][p - o] == (x + y)[p - o];
      } else if o + |x| <= p < o + |x| + |y| {
        assert l[o + |x|..o + |x| + |y|][p - o - |x|] == y[p - o - |x|];
        assert r[o..o + |x + y|][p - o] == (x + y)[p - o];
      }
    }
  }

  class MemoryManager {
    const poolSize: nat
    var buf: Bytes
    var writeHead: nat
    // Every slot written so far, oldest first.
    ghost var run: R.Run

    ghost predicate Valid()
      reads this
    {
      R.After(poolSize, run) == R.State(buf, writeHead)
    }

    constructor (poolSize: nat)
      ensures Valid() && run == [] && this.poolSize == poolSize
    {
      this.poolSize := poolSize;
      buf := seq(poolSize, _ => 0);
      writeHead := 0;
      run := [];
    }

    method WritePagedBlock(key: Tensor, val: Tensor, layerIdx: nat, prefixHash: nat)
      returns (offset: nat, total: nat, desc: Descriptor)
      requires Valid()
      modifies this
      ensures Valid()
      ensures run == old(run) + [SlotBytes(key, val, layerIdx, prefixHash)]
      ensures offset == R.Offset(poolSize, run, |old(run)|)
      ensures total == |run[|old(run)|]|
      ensures FromBytes(run[|old(run)|]) == Some(desc) && Describes(desc, key, val, layerIdx, prefixHash)
    {
      var kBytes, vBytes := Serialize(key), Serialize(val);
      var payload := |kBytes| + |vBytes|;
      total := DESCRIPTOR_SIZE + payload;
      offset := writeHead;
      if offset + total > poolSize {
        offset := 0;
        writeHead := 0;
      }
      var descBytes;
      desc, descBytes := BuildHeader(key, val, layerIdx, prefixHash);
      StoreParts(offset, descBytes, kBytes, vBytes);
      writeHead := writeHead + total;
      ghost var slot := SlotBytes(key, val, layerIdx, prefixHash);
      R.AfterSnoc(poolSize, run, slot);
      run := run + [slot];
    }

    static method BuildHeader(key: Tensor, val: Tensor, layerIdx: nat, prefixHash: nat)
      returns (desc: Descriptor, descBytes: Bytes)
      ensures |descBytes| == DESCRIPTOR_SIZE
      ensures SlotBytes(key, val, layerIdx, prefixHash) == descBytes + Serialize(key) + Serialize(val)
      ensures FromBytes(SlotBytes(key, val, layerIdx, prefixHash)) == Some(desc)
      ensures Describes(desc, key, val, layerIdx, prefixHash)
    {
      var header := HeaderFor(key, val, layerIdx, prefixHash);
      desc := header.Truncated();
      descBytes := header.ToBytes();
      HeaderRoundTrip(header, []);
      SlotHeader(key, val, layerIdx, prefixHash);
    }

    method StoreParts(offset: nat, h: Bytes, k: Bytes, v: Bytes)
      requires offset <= |buf|
      modifies this`buf
      ensures buf == R.Overlay(old(buf), offset, h + k + v)
    {
      ThreeAssignments(buf, offset, h, k, v);
      buf := R.SliceAssign(buf, offset, offset + |h|, h);
      buf := R.SliceAssign(buf, offset + |h|, offset + |h| + |k|, k);
      buf := R.SliceAssign(buf, offset + |h| + |k|, offset + |h| + |k| + |v|, v);
    }

    method ReadPagedBlock(offset: nat, heads: nat, tokens: nat, dim: nat, dtype: Option<DType>)
      returns (r: Option<(Tensor, Tensor)>)
      ensures r == ReadBlock(buf, offset, heads, tokens, dim, if dtype.None? then Float16 else dtype.value)
    {
      var d := if dtype.None? then Float16 else dtype.value;
      var payload := offset + DESCRIPTOR_SIZE;
      var count := heads * tokens * dim;
      var k := FromBuffer(buf, payload, count, d.ItemSize());
      if k.None? { return None; }
      var v := FromBuffer(buf, payload + count * d.TableSize(), count, d.ItemSize());
      if v.None? { return None; }
      Reassociate(heads, tokens, dim, d.ItemSize());
      r := Some((Deserialize(k.value, heads, tokens, dim, d), Deserialize(v.value, heads, tokens, dim, d)));
    }
  }
}

// The 64-byte slot header of src/kachedb/descriptor.py.
module Descriptors {
  import opened Bytes

  const MAGIC := 0x4B41_4348

  const DESCRIPTOR_SIZE := 64

  // The structure's fields in memory order.  The reserved bytes and the two bytes that align the
  // prefix hash are one field here, and so is the padding up to the end of the cache line.
  datatype Descriptor = Descriptor(
    magic: nat, layerId: nat, numLayers: nat, blockSize: nat, numHeads: nat, headDim: nat,
    dtype: nat, reserved: nat, prefixHash: nat, payloadBytes: nat, cachelinePad: nat)
  {
    function Fields(): seq<nat> {
      [magic, layerId, numLayers, blockSize, numHeads, headDim, dtype, reserved, prefixHash,
       payloadBytes, cachelinePad]
    }

    // Every field is in the range of its C type.
    predicate Fits() {
      forall i :: 0 <= i < |WIDTHS| ==> Fields()[i] < Base(WIDTHS[i])
    }

    // What assigning to the C fields keeps.
    function Truncated(): Descriptor {
      Descriptor(magic % Base(4), layerId % Base(2), numLayers % Base(2), blockSize % Base(2),
                 numHeads % Base(2), headDim % Base(2), dtype % Base(1), reserved % Base(9),
                 prefixHash % Base(8), payloadBytes % Base(4), cachelinePad % Base(28))
    }

    function ToBytes(): Bytes { EncodeFields(Fields(), WIDTHS) }
  }

  const WIDTHS: seq<nat> := [4, 2, 2, 2, 2, 2, 1, 9, 8, 4, 28]

  // 256 to the power w
  function Base(w: nat): (r: nat)
    ensures r > 0
  {
    if w == 0 then 1 else 256 * Base(w - 1)
  }

  function LittleEndian(n: nat, w: nat): (r: Bytes)
    ensures |r| == w
  {
    if w == 0 then [] else [(n % 256) as byte] + LittleEndian(n / 256, w - 1)
  }

  function FromLittleEndian(b: Bytes): nat
  {
    if b == [] then 0 else b[0] as nat + 256 * FromLittleEndian(b[1..])
  }

  function EncodeFields(values: seq<nat>, widths: seq<nat>): Bytes
    requires |values| == |widths|
  {
    if values == [] then []
    else LittleEndian(values[0], widths[0]) + EncodeFields(values[1..], widths[1..])
  }

  function Sum(widths: seq<nat>): nat
  {
    if widths == [] then 0 else widths[0] + Sum(widths[1..])
  }

  function DecodeFields(b: Bytes, widths: seq<nat>): (r: seq<nat>)
    requires |b| >= Sum(widths)
    ensures |r| == |widths|
  {
    if widths == [] then []
    else [FromLittleEndian(b[..widths[0]])] + DecodeFields(b[widths[0]..], widths[1..])
  }

  // from_bytes: None is the ValueError for a short buffer.
  function FromBytes(source: Bytes): Option<Descriptor>
  {
    if |source| < DESCRIPTOR_SIZE then None else
      WidthsSum();
      var f := DecodeFields(source, WIDTHS);
      Some(Descriptor(f[0], f[1], f[2], f[3], f[4], f[5], f[6], f[7], f[8], f[9], f[10]))
  }

  lemma WidthsSum()
    ensures Sum(WIDTHS) == DESCRIPTOR_SIZE
  {
  }

  lemma {:induction false} LittleEndianRoundTrip(n: nat, w: nat)
    ensures FromLittleEndian(LittleEndian(n, w)) == n % Base(w)
  {
    if w > 0 {
      LittleEndianRoundTrip(n / 256, w - 1);
      RemainderStep(n, Base(w - 1));
    }
  }

  lemma RemainderStep(n: nat, b: nat)
    requires b > 0
    ensures n % (256 * b) == 256 * (n / 256 % b) + n % 256
  {
    var m := n / 256;
    var q, r := m / b, m % b;
    assert m == b * q + r;
    assert 256 * (b * q) == (256 * b) * q;
    UniqueRemainder(n, 256 * b, q, 256 * r + n % 256);
  }

  lemma UniqueRemainder(n: nat, d: nat, q: nat, r: nat)
    requires n == d * q + r && r < d
    ensures n % d == r
  {
    var k, s := n / d, n % d;
    assert n == d * k + s;
    if k > q { assert d * (k - q) == d * k - d * q; AtLeastOnce(d, k - q); }
    if k < q { assert d * (q - k) == d * q - d * k; AtLeastOnce(d, q - k); }
  }

  lemma AtLeastOnce(d: nat, k: nat)
    requires k >= 1
    ensures d * k >= d
  {
    assert d * k == d + d * (k - 1);
  }

  lemma {:induction false} FromLittleEndianRoundTrip(b: Bytes)
    ensures FromLittleEndian(b) < Base(|b|)
    ensures LittleEndian(FromLittleEndian(b), |b|) == b
  {
    if b != [] {
      FromLittleEndianRoundTrip(b[1..]);
    }
  }

  // Each value cut down to its width.
  function TruncateAll(values: seq<nat>, widths: seq<nat>): (r: seq<nat>)
    requires |values| == |widths|
  {
    seq(|values|, i requires 0 <= i < |values| => values[i] % Base(widths[i]))
  }

  lemma {:induction false} DecodeEncodeFields(values: seq<nat>, widths: seq<nat>, rest: Bytes)
    requires |values| == |widths|
    ensures |EncodeFields(values, widths)| == Sum(widths)
    ensures DecodeFields(EncodeFields(values, widths) + rest, widths) == TruncateAll(values, widths)
  {
    hide LittleEndian, FromLittleEndian, Base;
    if values != [] {
      var w := widths[0];
      var head, tail := LittleEndian(values[0], w), EncodeFields(values[1..], widths[1..]);
      var all := EncodeFields(values, widths) + rest;
      DecodeEncodeFields(values[1..], widths[1..], rest);
      assert all == head + (tail + rest);
      assert all[..w] == head && all[w..] == tail + rest;
      LittleEndianRoundTrip(values[0], w);
      assert TruncateAll(values, widths) ==
             [values[0] % Base(w)] + TruncateAll(values[1..], widths[1..]);
    }
  }

  lemma {:induction false} EncodeDecodeFields(b: Bytes, widths: seq<nat>)
    requires |b| >= Sum(widths)
    ensures EncodeFields(DecodeFields(b, widths), widths) == b[..Sum(widths)]
  {
    hide LittleEndian, FromLittleEndian, Base;
    if widths != [] {
      var w := widths[0];
      EncodeDecodeFields(b[w..], widths[1..]);
      FromLittleEndianRoundTrip(b[..w]);
      assert DecodeFields(b, widths)[1..] == DecodeFields(b[w..], widths[1..]);
      HeadAndTail(b, w, Sum(widths[1..]));
    }
  }

  lemma HeadAndTail(b: Bytes, w: nat, n: nat)
    requires w + n <= |b|
    ensures b[..w + n] == b[..w] + b[w..][..n]
  {
  }

  // Every decoded field is in the range of its width.
  lemma {:induction false} DecodedInRange(b: Bytes, widths: seq<nat>, i: nat)
    requires |b| >= Sum(widths) && i < |widths|
    ensures DecodeFields(b, widths)[i] < Base(widths[i])
  {
    if i == 0 {
      FromLittleEndianRoundTrip(b[..widths[0]]);
    } else {
      DecodedInRange(b[widths[0]..], widths[1..], i - 1);
    }
  }

  // Reading back a written header gives the header as the C fields hold it, whatever follows it;
  // it is the header asked for exactly when every value was in range.
  lemma HeaderRoundTrip(d: Descriptor, rest: Bytes)
    ensures |d.ToBytes()| == DESCRIPTOR_SIZE
    ensures FromBytes(d.ToBytes() + rest) == Some(d.Truncated())
    ensures FromBytes(d.ToBytes() + rest) == Some(d) <==> d.Fits()
  {
    WidthsSum();
    DecodeEncodeFields(d.Fields(), WIDTHS, rest);
    var f := DecodeFields(d.ToBytes() + rest, WIDTHS);
    FieldsTruncated(d);
    assert forall i :: 0 <= i < 11 ==> f[i] == d.Truncated().Fields()[i];
    FieldsDetermine(d.Truncated(), f);
    if d.Fits() {
      forall i | 0 <= i < 11 ensures d.Truncated().Fields()[i] == d.Fields()[i] {
        assert d.Fields()[i] < Base(WIDTHS[i]);
        SmallRemainder(d.Fields()[i], Base(WIDTHS[i]));
      }
      FieldsDetermine(d, f);
    } else {
      var i :| 0 <= i < |WIDTHS| && d.Fields()[i] >= Base(WIDTHS[i]);
      assert f[i] == d.Fields()[i] % Base(WIDTHS[i]) < Base(WIDTHS[i]);
    }
  }

  lemma SmallRemainder(n: nat, b: nat)
    requires n < b
    ensures n % b == n
  {
  }

  lemma FieldsTruncated(d: Descriptor)
    ensures forall i :: 0 <= i < 11 ==> d.Truncated().Fields()[i] == d.Fields()[i] % Base(WIDTHS[i])
  {
    var t, f, w := d.Truncated().Fields(), d.Fields(), WIDTHS;
    assert t[0] == f[0] % Base(w[0]) && t[1] == f[1] % Base(w[1]) && t[2] == f[2] % Base(w[2]);
    assert t[3] == f[3] % Base(w[3]) && t[4] == f[4] % Base(w[4]) && t[5] == f[5] % Base(w[5]);
    assert t[6] == f[6] % Base(w[6]) && t[7] == f[7] % Base(w[7]) && t[8] == f[8] % Base(w[8]);
    assert t[9] == f[9] % Base(w[9]) && t[10] == f[10] % Base(w[10]);
  }

  lemma FieldsDetermine(d: Descriptor, f: seq<nat>)
    requires |f| == 11 && forall i :: 0 <= i < 11 ==> f[i] == d.Fields()[i]
    ensures d == Descriptor(f[0], f[1], f[2], f[3], f[4], f[5], f[6], f[7], f[8], f[9], f[10])
  {
    assert f[0] == d.magic && f[1] == d.layerId && f[2] == d.numLayers && f[3] == d.blockSize;
    assert f[4] == d.numHeads && f[5] == d.headDim && f[6] == d.dtype && f[7] == d.reserved;
    assert f[8] == d.prefixHash && f[9] == d.payloadBytes && f[10] == d.cachelinePad;
  }

  // Every 64-byte buffer is the image of the one descriptor read from it.
  lemma BufferRoundTrip(source: Bytes)
    ensures FromBytes(source).None? <==> |source| < DESCRIPTOR_SIZE
    ensures |source| >= DESCRIPTOR_SIZE ==>
              FromBytes(source).value.ToBytes() == source[..DESCRIPTOR_SIZE] &&
              FromBytes(source).value.Fits()
  {
    if |source| >= DESCRIPTOR_SIZE {
      WidthsSum();
      EncodeDecodeFields(source, WIDTHS);
      assert FromBytes(source).value.Fields() == DecodeFields(source, WIDTHS);
      forall i | 0 <= i < |WIDTHS| ensures DecodeFields(source, WIDTHS)[i] < Base(WIDTHS[i]) {
        DecodedInRange(source, WIDTHS, i);
      }
    }
  }

  // ---- Where the fields stand ----

  // Unsigned numbers in a buffer, the least significant byte first.
  function U16(b: Bytes, o: nat): nat
    requires o + 2 <= |b|
  {
    b[o] as int + 0x100 * b[o + 1] as int
  }

  function U32(b: Bytes, o: nat): nat
    requires o + 4 <= |b|
  {
    U16(b, o) + 0x1_0000 * U16(b, o + 2)
  }

  function U64(b: Bytes, o: nat): nat
    requires o + 8 <= |b|
  {
    U32(b, o) + 0x1_0000_0000 * U32(b, o + 4)
  }

  lemma FromTwo(b: Bytes)
    requires |b| == 2
    ensures FromLittleEndian(b) == U16(b, 0)
  {
    assert b == [b[0], b[1]];
    FromFirst(b);
    FromFirst(b[1..]);
    assert b[1..][1..] == [];
  }

  lemma FromFirst(b: Bytes)
    requires b != []
    ensures FromLittleEndian(b) == b[0] as nat + 256 * FromLittleEndian(b[1..])
  {
  }

  lemma FromNone()
    ensures FromLittleEndian([]) == 0
  {
  }

  // The low half and the high half of a number.
  lemma {:induction false} FromHalves(b: Bytes, k: nat)
    requires k <= |b|
    ensures FromLittleEndian(b) == FromLittleEndian(b[..k]) + Base(k) * FromLittleEndian(b[k..])
  {
    hide FromLittleEndian;
    if k == 0 {
      assert b[0..] == b;
      FromNone();
    } else {
      FromHalves(b[1..], k - 1);
      FromFirst(b);
      FromFirst(b[..k]);
      assert b[..k][1..] == b[1..][..k - 1] && b[1..][k - 1..] == b[k..];
      Scale(Base(k - 1), FromLittleEndian(b[k..]));
    }
  }

  lemma Scale(a: nat, n: nat)
    ensures 256 * (a * n) == (256 * a) * n
  {
  }

  lemma FromFour(b: Bytes)
    requires |b| == 4
    ensures FromLittleEndian(b) == U32(b, 0)
  {
    hide FromLittleEndian;
    FromHalves(b, 2);
    FromTwo(b[..2]);
    FromTwo(b[2..]);
    assert Base(2) == 0x1_0000 by { assert Base(1) == 256; }
  }

  lemma FromEight(b: Bytes)
    requires |b| == 8
    ensures FromLittleEndian(b) == U64(b, 0)
  {
    hide FromLittleEndian;
    FromHalves(b, 4);
    FromFour(b[..4]);
    FromFour(b[4..]);
    BaseFour();
  }

  lemma BaseFour()
    ensures Base(4) == 0x1_0000_0000
  {
    assert Base(2) == 0x1_0000;
    assert Base(3) == 0x100_0000;
  }

  lemma {:induction false} DecodedAt(b: Bytes, widths: seq<nat>, i: nat)
    requires |b| >= Sum(widths) && i < |widths|
    ensures Sum(widths[..i]) + widths[i] <= |b|
    ensures DecodeFields(b, widths)[i] == FromLittleEndian(b[Sum(widths[..i])..Sum(widths[..i]) + widths[i]])
  {
    hide FromLittleEndian;
    if i == 0 {
      assert widths[..0] == [] && b[0..widths[0]] == b[..widths[0]];
    } else {
      var w := widths[0];
      DecodedAt(b[w..], widths[1..], i - 1);
      assert widths[..i][1..] == widths[1..][..i - 1];
      var o := Sum(widths[1..][..i - 1]);
      assert Sum(widths[..i]) == w + o;
      assert b[w..][o..o + widths[i]] == b[w + o..w + o + widths[i]];
    }
  }

  // Where each field stands in the 64 bytes.
  lemma Offsets()
    ensures Sum(WIDTHS[..0]) == 0 && Sum(WIDTHS[..1]) == 4 && Sum(WIDTHS[..2]) == 6 && Sum(WIDTHS[..3]) == 8
    ensures Sum(WIDTHS[..4]) == 10 && Sum(WIDTHS[..5]) == 12 && Sum(WIDTHS[..6]) == 14
    ensures Sum(WIDTHS[..8]) == 24 && Sum(WIDTHS[..9]) == 32
  {
    SumMore(0); SumMore(1); SumMore(2); SumMore(3); SumMore(4); SumMore(5); SumMore(6); SumMore(7); SumMore(8);
  }

  lemma SumMore(i: nat)
    requires i < 11
    ensures Sum(WIDTHS[..0]) == 0
    ensures Sum(WIDTHS[..i + 1]) == Sum(WIDTHS[..i]) + WIDTHS[i]
  {
    SumSnoc(WIDTHS[..i], WIDTHS[i]);
    assert WIDTHS[..i + 1] == WIDTHS[..i] + [WIDTHS[i]];
  }

  lemma {:induction false} SumSnoc(a: seq<nat>, w: nat)
    ensures Sum(a + [w]) == Sum(a) + w
  {
    if a != [] {
      assert (a + [w])[1..] == a[1..] + [w];
      SumSnoc(a[1..], w);
    }
  }

  lemma TwoAt(b: Bytes, i: nat)
    requires |b| >= 64 && i < 11 && WIDTHS[i] == 2 && Sum(WIDTHS[..i]) <= 62
    ensures Sum(WIDTHS) == 64 && DecodeFields(b, WIDTHS)[i] == U16(b, Sum(WIDTHS[..i]))
  {
    hide DecodeFields, FromLittleEndian;
    WidthsSum();
    DecodedAt(b, WIDTHS, i);
    FromTwo(b[Sum(WIDTHS[..i])..Sum(WIDTHS[..i]) + 2]);
  }

  lemma FourAt(b: Bytes, i: nat)
    requires |b| >= 64 && i < 11 && WIDTHS[i] == 4 && Sum(WIDTHS[..i]) <= 60
    ensures Sum(WIDTHS) == 64 && DecodeFields(b, WIDTHS)[i] == U32(b, Sum(WIDTHS[..i]))
  {
    hide DecodeFields, FromLittleEndian;
    WidthsSum();
    DecodedAt(b, WIDTHS, i);
    FromFour(b[Sum(WIDTHS[..i])..Sum(WIDTHS[..i]) + 4]);
  }

  lemma OneAt(b: Bytes, i: nat)
    requires |b| >= 64 && i < 11 && WIDTHS[i] == 1 && Sum(WIDTHS[..i]) <= 63
    ensures Sum(WIDTHS) == 64 && DecodeFields(b, WIDTHS)[i] == b[Sum(WIDTHS[..i])] as int
  {
    hide DecodeFields, FromLittleEndian;
    WidthsSum();
    DecodedAt(b, WIDTHS, i);
    FromOne(b[Sum(WIDTHS[..i])..Sum(WIDTHS[..i]) + 1]);
  }

  lemma EightAt(b: Bytes, i: nat)
    requires |b| >= 64 && i < 11 && WIDTHS[i] == 8 && Sum(WIDTHS[..i]) <= 56
    ensures Sum(WIDTHS) == 64 && DecodeFields(b, WIDTHS)[i] == U64(b, Sum(WIDTHS[..i]))
  {
    hide DecodeFields, FromLittleEndian;
    WidthsSum();
    DecodedAt(b, WIDTHS, i);
    var field := b[Sum(WIDTHS[..i])..Sum(WIDTHS[..i]) + 8];
    FromEight(field);
  }

  lemma FromOne(b: Bytes)
    requires |b| == 1
    ensures FromLittleEndian(b) == b[0] as int
  {
  }

  // A header is read from 64 bytes with each field at its place.
  lemma HeaderLayout(source: Bytes)
    ensures FromBytes(source).Some? <==> |source| >= 64
    ensures |source| >= 64 ==>
              var d := FromBytes(source).value;
              && d.magic == U32(source, 0) && d.layerId == U16(source, 4) && d.numLayers == U16(source, 6)
              && d.blockSize == U16(source, 8) && d.numHeads == U16(source, 10) && d.headDim == U16(source, 12)
              && d.dtype == source[14] as int && d.prefixHash == U64(source, 24) && d.payloadBytes == U32(source, 32)
  {
    hide DecodeFields, U16, U32, U64, Sum;
    if |source| >= 64 {
      Offsets();
      FourAt(source, 0);
      TwoAt(source, 1);
      TwoAt(source, 2);
      TwoAt(source, 3);
      TwoAt(source, 4);
      TwoAt(source, 5);
      OneAt(source, 6);
      EightAt(source, 8);
      FourAt(source, 9);
    }
  }

  lemma BaseEight()
    ensures Base(8) == 0x1_0000_0000_0000_0000
  {
    BaseFour();
    assert Base(6) == 256 * (256 * Base(4));
  }

  lemma SmallBases()
    ensures Base(1) == 0x100 && Base(2) == 0x1_0000
  {
  }

  // What the C fields keep of each value.
  lemma KeptFields(d: Descriptor)
    ensures var t := d.Truncated();
            && t.magic == d.magic % 0x1_0000_0000 && t.layerId == d.layerId % 0x1_0000
            && t.numLayers == d.numLayers % 0x1_0000 && t.blockSize == d.blockSize % 0x1_0000
            && t.numHeads == d.numHeads % 0x1_0000 && t.headDim == d.headDim % 0x1_0000
            && t.dtype == d.dtype % 0x100 && t.prefixHash == d.prefixHash % 0x1_0000_0000_0000_0000
            && t.payloadBytes == d.payloadBytes % 0x1_0000_0000
  {
    hide Base;
    SmallBases();
    BaseFour();
    BaseEight();
  }

  // The values a header can hold.
  lemma HeaderFits(d: Descriptor)
    requires d.magic < 0x1_0000_0000 && d.layerId < 0x1_0000 && d.numLayers < 0x1_0000 && d.blockSize < 0x1_0000
    requires d.numHeads < 0x1_0000 && d.headDim < 0x1_0000 && d.dtype < 0x100 && d.reserved == 0
    requires d.prefixHash < 0x1_0000_0000_0000_0000 && d.payloadBytes < 0x1_0000_0000 && d.cachelinePad == 0
    ensures d.Fits()
  {
    hide Base;
    SmallBases();
    BaseFour();
    BaseEight();
  }
}

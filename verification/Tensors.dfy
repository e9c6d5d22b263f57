// Three-dimensional KV tensors and their row-major bytes (src/kachedb/descriptor.py, TensorCodec).
module Tensors {
  import opened Bytes

  // The torch element types with an entry in the codec's table, and all the others.
  datatype DType = Float16 | BFloat16 | Float32 | Int8 | UInt8 | Other(bytes: nat)
  {
    // What torch itself uses for one element.
    function ItemSize(): nat {
      match this
      case Float16 => 2
      case BFloat16 => 2
      case Float32 => 4
      case Int8 => 1
      case UInt8 => 1
      case Other(n) => n
    }

    // What the codec's table reports; a type without an entry is reported as 16-bit.
    function TableSize(): nat {
      match this
      case Other(_) => 2
      case _ => ItemSize()
    }

    // The TensorDType code stored in a slot header.
    function Code(): nat {
      match this
      case Float16 => 1
      case BFloat16 => 2
      case Float32 => 0
      case Int8 => 5
      case UInt8 => 3
      case Other(_) => 1
    }
  }

  // rows[h][t] holds the bytes of the dim elements of token t in head h.
  datatype Tensor = Tensor(heads: nat, tokens: nat, dim: nat, dtype: DType, rows: seq<seq<Bytes>>)
  {
    ghost predicate WellFormed() {
      && |rows| == heads
      && (forall h :: 0 <= h < heads ==> |rows[h]| == tokens)
      && (forall h, t :: 0 <= h < heads && 0 <= t < tokens ==> |rows[h][t]| == dim * dtype.ItemSize())
    }

    predicate SameShape(other: Tensor) {
      heads == other.heads && tokens == other.tokens && dim == other.dim
    }

    function Elements(): nat { heads * tokens * dim }
  }

  // One byte string per head, its tokens in order.
  function Planes(rows: seq<seq<Bytes>>): seq<Bytes>
  {
    seq(|rows|, h requires 0 <= h < |rows| => Join(rows[h]))
  }

  // tensor.contiguous().numpy().tobytes()
  function Serialize(t: Tensor): Bytes { Join(Planes(t.rows)) }

  // count consecutive pieces of len bytes
  function Pieces(b: Bytes, count: nat, len: nat): seq<Bytes>
    requires |b| == count * len
  {
    if count == 0 then [] else
      assert |b| == len + (count - 1) * len;
      [b[..len]] + Pieces(b[len..], count - 1, len)
  }

  ghost predicate AllOfLength(xs: seq<Bytes>, len: nat) { forall i :: 0 <= i < |xs| ==> |xs[i]| == len }

  lemma {:induction false} PiecesLength(b: Bytes, count: nat, len: nat)
    requires |b| == count * len
    ensures |Pieces(b, count, len)| == count && AllOfLength(Pieces(b, count, len), len)
  {
    if count > 0 {
      assert |b| == len + (count - 1) * len;
      PiecesLength(b[len..], count - 1, len);
    }
  }

  lemma {:induction false} JoinLength(xs: seq<Bytes>, len: nat)
    requires AllOfLength(xs, len)
    ensures |Join(xs)| == |xs| * len
  {
    if xs != [] {
      JoinLength(xs[1..], len);
      assert |xs| * len == len + (|xs| - 1) * len;
    }
  }

  // Cutting a joined string back into its equally long pieces, and joining the pieces of a string.
  lemma {:induction false} PiecesOfJoin(xs: seq<Bytes>, len: nat)
    requires AllOfLength(xs, len)
    ensures |Join(xs)| == |xs| * len && Pieces(Join(xs), |xs|, len) == xs
  {
    JoinLength(xs, len);
    if xs != [] {
      PiecesOfJoin(xs[1..], len);
      assert Join(xs)[..len] == xs[0];
      assert Join(xs)[len..] == Join(xs[1..]);
      assert [xs[0]] + xs[1..] == xs;
    }
  }

  lemma {:induction false} JoinOfPieces(b: Bytes, count: nat, len: nat)
    requires |b| == count * len
    ensures Join(Pieces(b, count, len)) == b
  {
    if count > 0 {
      assert |b| == len + (count - 1) * len;
      JoinOfPieces(b[len..], count - 1, len);
      var p := Pieces(b, count, len);
      assert p[0] == b[..len] && p[1..] == Pieces(b[len..], count - 1, len);
      assert b[..len] + b[len..] == b;
    }
  }

  // torch.frombuffer(...).reshape(shape)
  function Deserialize(b: Bytes, heads: nat, tokens: nat, dim: nat, dtype: DType): Tensor
    requires |b| == heads * (tokens * (dim * dtype.ItemSize()))
  {
    var rowBytes := dim * dtype.ItemSize();
    var planes := Pieces(b, heads, tokens * rowBytes);
    PiecesLength(b, heads, tokens * rowBytes);
    Tensor(heads, tokens, dim, dtype,
           seq(heads, h requires 0 <= h < heads => Pieces(planes[h], tokens, rowBytes)))
  }

  lemma SerializedLength(t: Tensor)
    requires t.WellFormed()
    ensures |Serialize(t)| == t.heads * (t.tokens * (t.dim * t.dtype.ItemSize()))
    ensures |Serialize(t)| == t.Elements() * t.dtype.ItemSize()
    ensures AllOfLength(Planes(t.rows), t.tokens * (t.dim * t.dtype.ItemSize()))
  {
    var w := t.dim * t.dtype.ItemSize();
    forall h | 0 <= h < t.heads ensures |Join(t.rows[h])| == t.tokens * w {
      JoinLength(t.rows[h], w);
    }
    JoinLength(Planes(t.rows), t.tokens * w);
    Reassociate(t.heads, t.tokens, t.dim, t.dtype.ItemSize());
  }

  lemma Reassociate(a: nat, b: nat, c: nat, d: nat)
    ensures a * (b * (c * d)) == a * b * c * d
  {
    assert b * (c * d) == b * c * d;
    assert a * ((b * c) * d) == (a * (b * c)) * d;
    assert a * (b * c) == a * b * c;
  }

  // A tensor read back from its own bytes with its own shape and type is that tensor.
  lemma DeserializeSerialize(t: Tensor)
    requires t.WellFormed()
    ensures |Serialize(t)| == t.heads * (t.tokens * (t.dim * t.dtype.ItemSize()))
    ensures Deserialize(Serialize(t), t.heads, t.tokens, t.dim, t.dtype) == t
  {
    var w := t.dim * t.dtype.ItemSize();
    SerializedLength(t);
    PiecesOfJoin(Planes(t.rows), t.tokens * w);
    forall h | 0 <= h < t.heads
      ensures |Join(t.rows[h])| == t.tokens * w && Pieces(Join(t.rows[h]), t.tokens, w) == t.rows[h]
    {
      PiecesOfJoin(t.rows[h], w);
    }
    assert Deserialize(Serialize(t), t.heads, t.tokens, t.dim, t.dtype).rows == t.rows;
  }

  // The bytes of a deserialized tensor are the bytes it came from.
  lemma SerializeDeserialize(b: Bytes, heads: nat, tokens: nat, dim: nat, dtype: DType)
    requires |b| == heads * (tokens * (dim * dtype.ItemSize()))
    ensures Deserialize(b, heads, tokens, dim, dtype).WellFormed()
    ensures Serialize(Deserialize(b, heads, tokens, dim, dtype)) == b
  {
    var w := dim * dtype.ItemSize();
    var planes := Pieces(b, heads, tokens * w);
    PiecesLength(b, heads, tokens * w);
    var t := Deserialize(b, heads, tokens, dim, dtype);
    forall h | 0 <= h < heads
      ensures |t.rows[h]| == tokens && AllOfLength(t.rows[h], w) && Join(t.rows[h]) == planes[h]
    {
      PiecesLength(planes[h], tokens, w);
      JoinOfPieces(planes[h], tokens, w);
    }
    assert Planes(t.rows) == planes;
    JoinOfPieces(b, heads, tokens * w);
  }

  lemma {:induction false} JoinAt(xs: seq<Bytes>, len: nat, i: nat, k: nat)
    requires AllOfLength(xs, len) && i < |xs| && k < len
    ensures i * len + k < |Join(xs)| && Join(xs)[i * len + k] == xs[i][k]
  {
    if i > 0 {
      JoinAt(xs[1..], len, i - 1, k);
      assert xs[1..][i - 1] == xs[i];
      assert i * len == len + (i - 1) * len;
    }
  }

  // Byte k of token t in head h stands at its row-major place.
  lemma SerializedAt(x: Tensor, h: nat, t: nat, k: nat)
    requires x.WellFormed() && h < x.heads && t < x.tokens && k < x.dim * x.dtype.ItemSize()
    ensures var at := (h * x.tokens + t) * (x.dim * x.dtype.ItemSize()) + k;
            at < |Serialize(x)| && Serialize(x)[at] == x.rows[h][t][k]
  {
    var w := x.dim * x.dtype.ItemSize();
    SerializedLength(x);
    JoinAt(x.rows[h], w, t, k);
    JoinLength(x.rows[h], w);
    InsidePlane(x.tokens, w, t, k);
    JoinAt(Planes(x.rows), x.tokens * w, h, t * w + k);
    RowMajor(h, x.tokens, t, w);
  }

  lemma InsidePlane(n: nat, w: nat, t: nat, k: nat)
    requires t < n && k < w
    ensures t * w + k < n * w
  {
    assert n * w == t * w + w + (n - t - 1) * w;
  }

  lemma RowMajor(h: nat, n: nat, t: nat, w: nat)
    ensures (h * n + t) * w == h * (n * w) + t * w
  {
    assert h * n * w == h * (n * w);
  }
}

// copy_ from float16 into a bfloat16 tensor: the conversion torch makes, on bits.  Both formats
// have a sign bit first; float16 goes on with 5 bits of exponent and 10 of mantissa, bfloat16 with
// 8 and 7 (IEEE 754 binary16, and binary32 cut to 16 bits).
module HalfFloats {
  import opened Bytes
  import opened Tensors

  type Bits = x: nat | x < 0x1_0000

  function Sign(x: Bits): nat { x / 0x8000 }

  function Exponent(x: Bits): nat { x / 1024 % 32 }

  function Mantissa(x: Bits): nat { x % 1024 }

  predicate IsNaN(x: Bits) { Exponent(x) == 31 && Mantissa(x) != 0 }

  // An eighth of m to the nearest integer, to the even one in the middle.
  function RoundEighth(m: nat): (q: nat)
    ensures -4 <= 8 * q - m <= 4
    ensures 8 * q - m == 4 || 8 * q - m == -4 ==> q % 2 == 0
  {
    var q, r := m / 8, m % 8;
    if r < 4 || (r == 4 && q % 2 == 0) then q else q + 1
  }

  // How many places the leading one of m is below place 10.
  function Places(m: nat): (p: nat)
    ensures p <= 10
  {
    if m >= 1024 then 0 else if m >= 512 then 1 else if m >= 256 then 2 else if m >= 128 then 3
    else if m >= 64 then 4 else if m >= 32 then 5 else if m >= 16 then 6 else if m >= 8 then 7
    else if m >= 4 then 8 else if m >= 2 then 9 else 10
  }

  // A significand m under exponent e with its leading one in place 10.
  function Normalized(m: nat, e: int): (r: (nat, int))
    requires 0 < m < 2048
    ensures 1024 <= r.0 < 2048 && r.1 <= e
    ensures r.1 >= e - Places(m)
    decreases 2048 - m
  {
    if m >= 1024 then (m, e) else Normalized(2 * m, e - 1)
  }

  // The significand and exponent of a finite float16 that is not zero.
  function Parts(x: Bits): (r: (nat, int))
    requires Exponent(x) < 31 && (Exponent(x) > 0 || Mantissa(x) > 0)
    ensures 1024 <= r.0 < 2048 && -9 <= r.1 <= 30
  {
    if Exponent(x) == 0 then Normalized(Mantissa(x), 1) else (1024 + Mantissa(x), Exponent(x))
  }

  // The bfloat16 nearest to a float16; what becomes of a NaN depends on the machine.  Rounding up
  // the mantissa 127 carries into the exponent.
  function ToBFloat(x: Bits, nan: Bits -> Bits): Bits
  {
    var s, e, m := Sign(x) * 0x8000, Exponent(x), Mantissa(x);
    if IsNaN(x) then nan(x)
    else if e == 31 then s + 0x7F80
    else if e == 0 && m == 0 then s
    else
      var (m', e') := Parts(x);
      assert 0 <= RoundEighth(m' - 1024) <= 128;
      s + (e' + 112) * 128 + RoundEighth(m' - 1024)
  }

  // ---- The conversion is to the nearest ----

  function Power(e: int): real
    decreases if e < 0 then -e else e
  {
    if e == 0 then 1.0 else if e > 0 then 2.0 * Power(e - 1) else Power(e + 1) / 2.0
  }

  lemma PowerDoubles(e: int)
    ensures Power(e + 1) == 2.0 * Power(e)
  {
  }

  lemma {:induction false} PowerPositive(e: int)
    ensures Power(e) > 0.0
    decreases if e < 0 then -e else e
  {
    if e > 0 { PowerPositive(e - 1); } else if e < 0 { PowerPositive(e + 1); }
  }

  function Times(m: int, e: int): real { m as real * Power(e) }

  lemma TimesDoubles(m: int, e: int)
    ensures Times(2 * m, e) == Times(m, e + 1)
  {
    hide Power;
    PowerDoubles(e);
    Twice(m, Power(e), Power(e + 1));
  }

  lemma Twice(m: int, u: real, v: real)
    requires v == 2.0 * u
    ensures (2 * m) as real * u == m as real * v
  {
    assert (2 * m) as real == 2.0 * m as real;
  }

  // The absolute value of a float16.
  function HalfSize(x: Bits): real
    requires Exponent(x) < 31
  {
    if Exponent(x) == 0 then Times(Mantissa(x), -24) else Times(1024 + Mantissa(x), Exponent(x) - 25)
  }

  function BFloatExponent(y: Bits): nat { y / 128 % 256 }

  // The absolute value of a bfloat16 with a leading one.
  function BFloatSize(y: Bits): real { Times(128 + y % 128, BFloatExponent(y) - 134) }

  lemma {:induction false} NormalizedSame(m: nat, e: int, d: int)
    requires 0 < m < 2048
    ensures var r := Normalized(m, e); Times(r.0, r.1 + d) == Times(m, e + d)
    decreases 2048 - m
  {
    hide Times;
    if m < 1024 {
      NormalizedSame(2 * m, e - 1, d);
      TimesDoubles(m, e - 1 + d);
    }
  }

  lemma PartsSize(x: Bits)
    requires Exponent(x) < 31 && (Exponent(x) > 0 || Mantissa(x) > 0)
    ensures HalfSize(x) == Times(Parts(x).0, Parts(x).1 - 25)
  {
    hide Times;
    if Exponent(x) == 0 { NormalizedSame(Mantissa(x), 1, -25); }
  }

  // A finite float16 that is not zero keeps its sign and moves by at most half a unit in the last
  // place of what it becomes.
  lemma ToBFloatNearest(x: Bits, nan: Bits -> Bits)
    requires Exponent(x) < 31 && (Exponent(x) > 0 || Mantissa(x) > 0)
    ensures var y := ToBFloat(x, nan);
            && Sign(y) == Sign(x) && 0 < BFloatExponent(y) < 255
            && var unit, error := Power(BFloatExponent(y) - 134), BFloatSize(y) - HalfSize(x);
               -unit <= 2.0 * error <= unit
  {
    hide Power, Times, HalfSize, BFloatSize, ToBFloat, Parts, RoundEighth;
    var (m, e) := Parts(x);
    var q := RoundEighth(m - 1024);
    ResultParts(x, nan);
    PartsSize(x);
    ResultSize(ToBFloat(x, nan), e, q);
    NearBy(8 * (128 + q), m, e - 25);
    PowerPositive(e - 22);
    if q == 128 { PowerDoubles(e - 22); }
  }

  lemma ResultParts(x: Bits, nan: Bits -> Bits)
    requires Exponent(x) < 31 && (Exponent(x) > 0 || Mantissa(x) > 0)
    ensures var y, q, e := ToBFloat(x, nan), RoundEighth(Parts(x).0 - 1024), Parts(x).1;
            && q <= 128 && Sign(y) == Sign(x)
            && BFloatExponent(y) == e + 112 + (if q == 128 then 1 else 0)
            && y % 128 == if q == 128 then 0 else q
  {
    hide Parts;
    var e, q := Parts(x).1, RoundEighth(Parts(x).0 - 1024);
    FieldsOf(Sign(x), e + 112 + (if q == 128 then 1 else 0), if q == 128 then 0 else q);
  }

  lemma FieldsOf(s: nat, e: nat, k: nat)
    requires s < 2 && e < 256 && k < 128
    ensures var y := s * 0x8000 + e * 128 + k; y < 0x1_0000 && Sign(y) == s && BFloatExponent(y) == e && y % 128 == k
  {
  }

  lemma ResultSize(y: Bits, e: int, q: nat)
    requires q <= 128 && BFloatExponent(y) == e + 112 + (if q == 128 then 1 else 0)
    requires y % 128 == if q == 128 then 0 else q
    ensures BFloatSize(y) == Times(8 * (128 + q), e - 25)
  {
    hide Times;
    TimesDoubles(4 * (128 + q), e - 25);
    TimesDoubles(2 * (128 + q), e - 24);
    TimesDoubles(128 + q, e - 23);
    if q == 128 { TimesDoubles(128, e - 22); }
  }

  // Significands that differ by at most half of eight.
  lemma NearBy(a: int, b: int, e: int)
    requires -4 <= a - b <= 4
    ensures -Power(e + 3) <= 2.0 * (Times(a, e) - Times(b, e)) <= Power(e + 3)
  {
    hide Power;
    PowerPositive(e);
    PowerDoubles(e); PowerDoubles(e + 1); PowerDoubles(e + 2);
    var u, d := Power(e), (a - b) as real;
    Distributes(a as real, b as real, u);
    NotNegative(4.0 - d, u);
    NotNegative(d - -4.0, u);
    Distributes(4.0, d, u);
    Distributes(d, -4.0, u);
  }

  lemma Distributes(a: real, b: real, u: real)
    ensures (a - b) * u == a * u - b * u
  {
  }

  lemma NotNegative(a: real, b: real)
    requires a >= 0.0 && b >= 0.0
    ensures a * b >= 0.0
  {
  }

  // ---- What survives it ----

  // The elements the conversion leaves as they are: zeros and twos, and a NaN the machine leaves.
  predicate Survives(x: Bits, nan: Bits -> Bits)
  {
    if IsNaN(x) then nan(x) == x else x % 0x8000 == 0 || x % 0x8000 == 0x4000
  }

  lemma SurvivesIff(x: Bits, nan: Bits -> Bits)
    ensures ToBFloat(x, nan) == x <==> Survives(x, nan)
  {
    var s, e, m := Sign(x), Exponent(x), Mantissa(x);
    assert x == s * 0x8000 + e * 1024 + m;
    if !IsNaN(x) && 0 < e < 31 {
      NormalSurvivesIff(e, m);
    }
  }

  // Under exponent e > 0 the bits agree only for e == 16 and m == 0, which is two.
  lemma NormalSurvivesIff(e: nat, m: nat)
    requires 0 < e < 31 && m < 1024
    ensures (e + 112) * 128 + RoundEighth(m) == e * 1024 + m <==> e == 16 && m == 0
  {
  }

  // ---- Tensors ----

  // The elements of a row of bytes, two bytes each, little-endian.
  function Elements(row: Bytes): seq<Bits>
  {
    if |row| < 2 then [] else [row[0] as nat + 256 * (row[1] as nat)] + Elements(row[2..])
  }

  function RowOf(xs: seq<Bits>): Bytes
  {
    if xs == [] then [] else [(xs[0] % 256) as byte, (xs[0] / 256) as byte] + RowOf(xs[1..])
  }

  lemma {:induction false} RowOfElements(row: Bytes, n: nat)
    requires |row| == 2 * n
    ensures RowOf(Elements(row)) == row && |Elements(row)| == n
  {
    if n > 0 {
      RowOfElements(row[2..], n - 1);
      assert row == [row[0], row[1]] + row[2..];
      assert Elements(row)[1..] == Elements(row[2..]);
    }
  }

  lemma {:induction false} ElementsOfRow(xs: seq<Bits>)
    ensures Elements(RowOf(xs)) == xs && |RowOf(xs)| == 2 * |xs|
  {
    if xs != [] {
      ElementsOfRow(xs[1..]);
      assert RowOf(xs)[2..] == RowOf(xs[1..]);
      assert xs[0] == xs[0] % 256 + 256 * (xs[0] / 256);
    }
  }

  function Converted(xs: seq<Bits>, nan: Bits -> Bits): seq<Bits>
  {
    seq(|xs|, i requires 0 <= i < |xs| => ToBFloat(xs[i], nan))
  }

  function ConvertRow(row: Bytes, nan: Bits -> Bits): Bytes { RowOf(Converted(Elements(row), nan)) }

  // Every element of the row is one the conversion leaves.
  ghost predicate RowSurvives(row: Bytes, nan: Bits -> Bits)
  {
    forall x :: x in Elements(row) ==> Survives(x, nan)
  }

  lemma RowSurvivesIff(row: Bytes, n: nat, nan: Bits -> Bits)
    requires |row| == 2 * n
    ensures ConvertRow(row, nan) == row <==> RowSurvives(row, nan)
  {
    var xs := Elements(row);
    RowOfElements(row, n);
    ElementsOfRow(Converted(xs, nan));
    forall i | 0 <= i < |xs| ensures Converted(xs, nan)[i] == xs[i] <==> Survives(xs[i], nan) {
      SurvivesIff(xs[i], nan);
    }
    if ConvertRow(row, nan) == row {
      assert Converted(xs, nan) == xs;
    }
    if RowSurvives(row, nan) {
      assert Converted(xs, nan) == xs;
    }
  }

  function ConvertRows(rows: seq<seq<Bytes>>, nan: Bits -> Bits): seq<seq<Bytes>>
  {
    seq(|rows|, h requires 0 <= h < |rows| => ConvertHead(rows[h], nan))
  }

  function ConvertHead(head: seq<Bytes>, nan: Bits -> Bits): seq<Bytes>
  {
    seq(|head|, t requires 0 <= t < |head| => ConvertRow(head[t], nan))
  }

  // copy_ of a float16 tensor into a bfloat16 one.
  function ToBFloat16(t: Tensor, nan: Bits -> Bits): Tensor
  {
    Tensor(t.heads, t.tokens, t.dim, BFloat16, ConvertRows(t.rows, nan))
  }

  // Every element of the tensor is one the conversion leaves.
  ghost predicate TensorSurvives(t: Tensor, nan: Bits -> Bits)
  {
    forall h, i :: 0 <= h < |t.rows| && 0 <= i < |t.rows[h]| ==> RowSurvives(t.rows[h][i], nan)
  }

  // Bfloat16 bits taken for float16 ones and converted come back exactly when every element is a
  // zero or a two.
  lemma TensorSurvivesIff(t: Tensor, nan: Bits -> Bits)
    requires t.WellFormed() && t.dtype == BFloat16
    ensures ToBFloat16(t.(dtype := Float16), nan) == t <==> TensorSurvives(t, nan)
  {
    hide ConvertRow, RowSurvives;
    var rows := ConvertRows(t.rows, nan);
    forall h, i | 0 <= h < |t.rows| && 0 <= i < |t.rows[h]|
      ensures ConvertRow(t.rows[h][i], nan) == t.rows[h][i] <==> RowSurvives(t.rows[h][i], nan)
    {
      RowSurvivesIff(t.rows[h][i], t.dim, nan);
    }
    forall h, i | 0 <= h < |t.rows| && 0 <= i < |t.rows[h]| ensures rows[h][i] == ConvertRow(t.rows[h][i], nan) {
    }
    if TensorSurvives(t, nan) {
      forall h | 0 <= h < |rows| ensures rows[h] == t.rows[h] {
        assert forall i :: 0 <= i < |rows[h]| ==> rows[h][i] == t.rows[h][i];
      }
    }
  }

  // One, 0x3F80, is 1.875 as float16, and that is 0x3FF0.
  lemma OneBecomes(nan: Bits -> Bits)
    ensures ToBFloat(0x3F80, nan) == 0x3FF0
    ensures ConvertRow([0x80, 0x3F], nan) == [0xF0, 0x3F]
  {
    hide Power;
    var row: Bytes := [0x80, 0x3F];
    assert row[2..] == [];
    assert Elements(row) == [0x3F80];
    assert Exponent(0x3F80) == 15 && Mantissa(0x3F80) == 896 && RoundEighth(896) == 112;
    assert Converted([0x3F80], nan) == [0x3FF0];
    assert RowOf([0x3FF0]) == [0xF0, 0x3F] + RowOf([]);
  }

  lemma OneTensorBecomes(nan: Bits -> Bits)
    ensures var held := Tensor(1, 1, 1, BFloat16, [[[0xF0, 0x3F]]]);
            ToBFloat16(Tensor(1, 1, 1, Float16, [[[0x80, 0x3F]]]), nan) == held
            && held != Tensor(1, 1, 1, BFloat16, [[[0x80, 0x3F]]])
  {
    hide ConvertRow;
    OneBecomes(nan);
    var sent, held: Bytes := [0x80, 0x3F], [0xF0, 0x3F];
    assert ConvertHead([sent], nan) == [held];
    assert ConvertRows([[sent]], nan) == [[held]];
    assert sent[0] != held[0];
    assert [[sent]][0][0] != [[held]][0][0];
  }
}

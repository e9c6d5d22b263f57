// SQ8 scalar quantization (src/kachedb/quantizer.py) over the real numbers.
module Quantizer {
  import opened Bytes

  // Ranges narrower than this are treated as constant vectors.
  const TINY := 0.000000000001

  // Python's round(): to the nearest integer, halves to the even one.
  function Round(x: real): int
  {
    var f := x.Floor;
    var d := x - f as real;
    if d < 0.5 then f
    else if d > 0.5 then f + 1
    else if f % 2 == 0 then f
    else f + 1
  }

  function MinOf(v: seq<real>): (m: real)
    requires v != []
    ensures m in v && forall x :: x in v ==> m <= x
  {
    if |v| == 1 then v[0]
    else
      assert v == [v[0]] + v[1..];
      var m := MinOf(v[1..]);
      if v[0] <= m then v[0] else m
  }

  function MaxOf(v: seq<real>): (m: real)
    requires v != []
    ensures m in v && forall x :: x in v ==> x <= m
  {
    if |v| == 1 then v[0]
    else
      assert v == [v[0]] + v[1..];
      var m := MaxOf(v[1..]);
      if v[0] >= m then v[0] else m
  }

  predicate Flat(lo: real, hi: real)
  {
    hi - lo == 0.0 || (-TINY < hi - lo < TINY)
  }

  function Clamp(q: int): (r: int)
    ensures 0 <= r <= 255
  {
    Max(0, Min(255, q))
  }

  // Distance from the bottom of the range, and the point at a distance from it.
  function Position(x: real, lo: real, scale: real): real { (x - lo) * scale }

  function Point(level: real, lo: real, step: real): real { lo + level * step }

  function Scale(lo: real, hi: real): real
    requires hi != lo
  {
    255.0 / (hi - lo)
  }

  function Step(lo: real, hi: real): real { (hi - lo) / 255.0 }

  // The level of a component before clamping.
  function Level(x: real, lo: real, hi: real): int
    requires hi != lo
  {
    Round(Position(x, lo, Scale(lo, hi)))
  }

  function QuantizeOne(x: real, lo: real, hi: real): byte
  {
    if Flat(lo, hi) then 128 else Clamp(Level(x, lo, hi)) as byte
  }

  function DequantizeOne(b: byte, lo: real, hi: real): real
  {
    if Flat(lo, hi) then lo else Point(b as int as real, lo, Step(lo, hi))
  }

  function Encode(v: seq<real>): (seq<byte>, real, real)
  {
    if v == [] then ([], 0.0, 0.0)
    else
      var lo, hi := MinOf(v), MaxOf(v);
      (seq(|v|, i requires 0 <= i < |v| => QuantizeOne(v[i], lo, hi)), lo, hi)
  }

  // sq8_decode
  function Decode(q: seq<byte>, lo: real, hi: real): (r: seq<real>)
    ensures |r| == |q|
  {
    seq(|q|, i requires 0 <= i < |q| => DequantizeOne(q[i], lo, hi))
  }

  // sq8_encode
  method Sq8Encode(v: seq<real>) returns (q: seq<byte>, lo: real, hi: real)
    ensures (q, lo, hi) == Encode(v)
  {
    if v == [] {
      return [], 0.0, 0.0;
    }
    lo, hi := MinOf(v), MaxOf(v);
    var diff := hi - lo;
    if diff == 0.0 || (-TINY < diff < TINY) {
      q := seq(|v|, _ => 128);
      assert q == Encode(v).0;
      return;
    }
    var scale := 255.0 / diff;
    assert !Flat(lo, hi);
    q := seq(|v|, _ => 0);
    for i := 0 to |v|
      invariant |q| == |v| && !Flat(lo, hi)
      invariant forall j :: 0 <= j < i ==> q[j] == QuantizeOne(v[j], lo, hi)
    {
      var level := Round(Position(v[i], lo, scale));
      assert level == Level(v[i], lo, hi);
      q := q[i := Max(0, Min(255, level)) as byte];
    }
    assert q == Encode(v).0;
  }

  // ---- Rounding ----

  lemma RoundNear(x: real)
    ensures x - 0.5 <= Round(x) as real <= x + 0.5
  {
  }

  lemma RoundMonotone(x: real, y: real)
    requires x <= y
    ensures Round(x) <= Round(y)
  {
    if x.Floor == y.Floor { } else { assert x.Floor + 1 <= y.Floor; }
  }

  lemma RoundOfInt(n: int)
    ensures Round(n as real) == n
  {
  }

  // The nearest integer, and of two as near the even one.
  lemma RoundIff(x: real, n: int)
    ensures Round(x) == n <==>
            n as real - 0.5 <= x <= n as real + 0.5 && (x == n as real - 0.5 || x == n as real + 0.5 ==> n % 2 == 0)
  {
    var f := x.Floor;
    assert n as real - 0.5 <= x <= n as real + 0.5 ==> n == f || n == f + 1;
  }

  // ---- Levels ----

  // Scaling to [0, 255] and back.
  lemma ScaledPosition(x: real, lo: real, hi: real)
    requires lo < hi && lo <= x <= hi
    ensures 0.0 <= Position(x, lo, Scale(lo, hi)) <= 255.0
    ensures Point(Position(x, lo, Scale(lo, hi)), lo, Step(lo, hi)) == x
  {
    var d, s, u := hi - lo, Scale(lo, hi), Step(lo, hi);
    assert s * d == 255.0 && u * 255.0 == d;
    assert s > 0.0;
    var y := Position(x, lo, s);
    NonNegativeProduct(x - lo, s);
    NonNegativeProduct(hi - x, s);
    assert d * s - y == (hi - x) * s;
    assert s * u == 1.0 by { assert s * u * 255.0 == s * d; }
    assert y * u == (x - lo) * (s * u);
  }

  lemma NonNegativeProduct(a: real, b: real)
    requires a >= 0.0 && b >= 0.0
    ensures a * b >= 0.0
  {
  }

  // Every level is in range: the clamp never changes it.
  lemma ClampNeverBites(x: real, lo: real, hi: real)
    requires lo < hi && lo <= x <= hi
    ensures Clamp(Level(x, lo, hi)) == Level(x, lo, hi)
  {
    ScaledPosition(x, lo, hi);
    var y := Position(x, lo, Scale(lo, hi));
    RoundOfInt(0);
    RoundOfInt(255);
    RoundMonotone(0.0, y);
    RoundMonotone(y, 255.0);
  }

  lemma LevelMonotone(x: real, y: real, lo: real, hi: real)
    requires lo < hi && x <= y
    ensures Level(x, lo, hi) <= Level(y, lo, hi)
  {
    var s := Scale(lo, hi);
    assert s * (hi - lo) == 255.0;
    assert s > 0.0;
    PositionMonotone(x, y, lo, s);
    RoundMonotone(Position(x, lo, s), Position(y, lo, s));
  }

  lemma PositionMonotone(x: real, y: real, lo: real, s: real)
    requires x <= y && s > 0.0
    ensures Position(x, lo, s) <= Position(y, lo, s)
  {
    NonNegativeProduct(y - x, s);
    assert (y - x) * s == (y - lo) * s - (x - lo) * s;
  }

  lemma LevelOfEnds(lo: real, hi: real)
    requires lo < hi
    ensures Level(lo, lo, hi) == 0 && Level(hi, lo, hi) == 255
  {
    RoundOfInt(0);
    RoundOfInt(255);
    assert Position(lo, lo, Scale(lo, hi)) == 0.0;
    assert Position(hi, lo, Scale(lo, hi)) == 255.0;
  }

  // Quantization keeps the order of components and takes the ends of the range to 0 and 255.
  lemma Monotone(x: real, y: real, lo: real, hi: real)
    requires !Flat(lo, hi) && lo <= x <= y <= hi
    ensures QuantizeOne(x, lo, hi) <= QuantizeOne(y, lo, hi)
    ensures QuantizeOne(lo, lo, hi) == 0 && QuantizeOne(hi, lo, hi) == 255
  {
    LevelMonotone(x, y, lo, hi);
    LevelOfEnds(lo, hi);
  }

  function Abs(x: real): real { if x < 0.0 then -x else x }

  // One component comes back within half a quantization step.
  lemma ComponentError(x: real, lo: real, hi: real)
    requires lo <= x <= hi
    ensures !Flat(lo, hi) ==> Abs(DequantizeOne(QuantizeOne(x, lo, hi), lo, hi) - x) <= (hi - lo) / 510.0
    ensures Flat(lo, hi) ==> Abs(DequantizeOne(QuantizeOne(x, lo, hi), lo, hi) - x) < TINY
  {
    if !Flat(lo, hi) {
      ScaledPosition(x, lo, hi);
      ClampNeverBites(x, lo, hi);
      var y := Position(x, lo, Scale(lo, hi));
      RoundNear(y);
      HalfStep(Level(x, lo, hi) as real, y, lo, Step(lo, hi));
      assert Step(lo, hi) / 2.0 == (hi - lo) / 510.0;
    }
  }

  lemma HalfStep(q: real, y: real, lo: real, u: real)
    requires u >= 0.0 && y - 0.5 <= q <= y + 0.5
    ensures Point(y, lo, u) - u / 2.0 <= Point(q, lo, u) <= Point(y, lo, u) + u / 2.0
  {
    NonNegativeProduct(q - (y - 0.5), u);
    NonNegativeProduct(y + 0.5 - q, u);
  }

  // Every component of a vector is reconstructed within (max - min) / 510, or within 1e-12 when
  // the range is too narrow to be scaled.
  lemma ReconstructionError(v: seq<real>, i: nat)
    requires i < |v|
    ensures var (q, lo, hi) := Encode(v);
            && |q| == |v| && lo == MinOf(v) && hi == MaxOf(v)
            && Abs(Decode(q, lo, hi)[i] - v[i]) <= (if Flat(lo, hi) then TINY else (hi - lo) / 510.0)
  {
    assert v[i] in v;
    ComponentError(v[i], MinOf(v), MaxOf(v));
  }

  // ---- Encoding again ----

  lemma LevelOfDecoded(b: byte, lo: real, hi: real)
    requires lo < hi && !Flat(lo, hi)
    ensures lo <= DequantizeOne(b, lo, hi) <= hi
    ensures QuantizeOne(DequantizeOne(b, lo, hi), lo, hi) == b
    ensures b == 0 ==> DequantizeOne(b, lo, hi) == lo
    ensures b == 255 ==> DequantizeOne(b, lo, hi) == hi
  {
    var u, r := Step(lo, hi), b as int as real;
    assert u * 255.0 == hi - lo && u > 0.0;
    NonNegativeProduct(r, u);
    NonNegativeProduct(255.0 - r, u);
    var x := Point(r, lo, u);
    ScaledPosition(x, lo, hi);
    var y := Position(x, lo, Scale(lo, hi));
    SamePoint(y, r, lo, u);
    RoundOfInt(b as int);
    ClampNeverBites(x, lo, hi);
  }

  lemma SamePoint(y: real, r: real, lo: real, u: real)
    requires u > 0.0 && Point(y, lo, u) == Point(r, lo, u)
    ensures y == r
  {
    assert (y - r) * u == 0.0;
  }

  // Encoding a decoded vector gives back the same bytes and the same range, exactly when the
  // range was scaled or was a single point.
  lemma ReencodeIff(v: seq<real>)
    ensures var (q, lo, hi) := Encode(v);
            Encode(Decode(q, lo, hi)) == Encode(v) <==> !Flat(lo, hi) || lo == hi
  {
    if v != [] {
      var (q, lo, hi) := Encode(v);
      var d := Decode(q, lo, hi);
      if Flat(lo, hi) {
        assert forall i :: 0 <= i < |d| ==> d[i] == lo;
        assert MinOf(d) == lo && MaxOf(d) == lo;
        if lo == hi { assert Encode(d).0 == q; }
      } else {
        ReencodeScaled(v);
      }
    }
  }

  lemma ReencodeScaled(v: seq<real>)
    requires v != [] && !Flat(MinOf(v), MaxOf(v))
    ensures var (q, lo, hi) := Encode(v);
            Encode(Decode(q, lo, hi)) == Encode(v)
  {
    var lo, hi := MinOf(v), MaxOf(v);
    var q := Encode(v).0;
    var d := Decode(q, lo, hi);
    assert lo < hi by { assert lo in v; }
    Monotone(lo, hi, lo, hi);
    forall k | 0 <= k < |d| ensures lo <= d[k] <= hi && QuantizeOne(d[k], lo, hi) == q[k] {
      LevelOfDecoded(q[k], lo, hi);
    }
    assert lo in d by {
      var i :| 0 <= i < |v| && v[i] == lo;
      LevelOfDecoded(q[i], lo, hi);
      assert q[i] == 0 && d[i] == lo;
    }
    assert hi in d by {
      var j :| 0 <= j < |v| && v[j] == hi;
      LevelOfDecoded(q[j], lo, hi);
      assert q[j] == 255 && d[j] == hi;
    }
    EndsOf(d, lo, hi);
    assert Encode(d).0 == q;
  }

  lemma EndsOf(d: seq<real>, lo: real, hi: real)
    requires lo in d && hi in d && forall x :: x in d ==> lo <= x <= hi
    ensures MinOf(d) == lo && MaxOf(d) == hi
  {
  }

  // ---- The whole encoding ----

  // The encoding of a vector that is not empty, in numbers: the range is that of its components;
  // a range below a millionth of a millionth gives 128 everywhere and decodes to its lower end;
  // any other gives the byte nearest to the component's place in the range, the even one of two
  // as near, and decodes a byte to its place.
  lemma EncodedInNumbers(v: seq<real>, i: nat)
    requires i < |v|
    ensures var (q, lo, hi) := Encode(v);
            && |q| == |v| && lo in v && hi in v && lo <= v[i] <= hi
            && (hi - lo < 0.000000000001 ==> q[i] == 128 && Decode(q, lo, hi)[i] == lo)
            && (hi - lo >= 0.000000000001 ==>
                  var place, n := (v[i] - lo) * (255.0 / (hi - lo)), q[i] as int;
                  && n as real - 0.5 <= place <= n as real + 0.5
                  && (place == n as real - 0.5 || place == n as real + 0.5 ==> n % 2 == 0)
                  && Decode(q, lo, hi)[i] == lo + n as real * ((hi - lo) / 255.0))
  {
    hide Round, MinOf, MaxOf, Clamp;
    var (q, lo, hi) := Encode(v);
    assert v[i] in v;
    if hi - lo >= 0.000000000001 {
      ClampNeverBites(v[i], lo, hi);
      RoundIff(Position(v[i], lo, Scale(lo, hi)), q[i] as int);
    }
  }
}

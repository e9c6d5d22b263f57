// Byte strings and the small vocabulary shared by every other module.
module Bytes {

  newtype byte = b: int | 0 <= b < 256

  type Bytes = seq<byte>

  datatype Option<+T> = None | Some(value: T)

  function Min(a: int, b: int): int { if a <= b then a else b }

  function Max(a: int, b: int): int { if a >= b then a else b }

  // b"".join(parts)
  function Join(parts: seq<Bytes>): Bytes
  {
    if parts == [] then [] else parts[0] + Join(parts[1..])
  }

  lemma {:induction false} JoinAppend(xs: seq<Bytes>, ys: seq<Bytes>)
    ensures Join(xs + ys) == Join(xs) + Join(ys)
  {
    if xs == [] {
      assert xs + ys == ys;
    } else {
      JoinAppend(xs[1..], ys);
      assert (xs + ys)[1..] == xs[1..] + ys;
      assert Join(xs + ys) == xs[0] + Join((xs + ys)[1..]);
    }
  }

  lemma {:induction false} JoinSnoc(xs: seq<Bytes>, y: Bytes)
    ensures Join(xs + [y]) == Join(xs) + y
  {
    JoinAppend(xs, [y]);
    assert Join([y]) == y + Join([]);
  }

  lemma SliceOfSlice<T>(b: seq<T>, o: nat, n: nat, i: nat, j: nat)
    requires o + n <= |b| && i <= j <= n
    ensures b[o..o + n][i..j] == b[o + i..o + j]
  {
    var l, r := b[o..o + n][i..j], b[o + i..o + j];
    assert |l| == |r| && forall p :: 0 <= p < |l| ==> l[p] == r[p];
  }

  lemma DifferentProducts(n: nat, a: nat, b: nat)
    requires n > 0 && a != b
    ensures n * a != n * b
  {
    if a < b { assert n * b == n * a + n * (b - a); Positive(n, b - a); }
    else { assert n * a == n * b + n * (a - b); Positive(n, a - b); }
  }

  lemma Positive(a: nat, b: nat)
    requires a > 0 && b > 0
    ensures a * b > 0
  {
  }

  // The prefixes of a sequence, one element at a time.
  lemma TakeOneMore<T>(s: seq<T>, i: nat)
    requires i < |s|
    ensures s[..i + 1] == s[..i] + [s[i]]
  {
  }

  lemma AppendOneMore<T>(a: seq<T>, s: seq<T>, i: nat)
    requires i < |s|
    ensures a + s[..i + 1] == (a + s[..i]) + [s[i]]
  {
    TakeOneMore(s, i);
  }

  lemma TakeNoneOrAll<T>(s: seq<T>)
    ensures s[..0] == [] && s[..|s|] == s
  {
  }
}

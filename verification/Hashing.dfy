// Hashing a token slice onto its parent's hash (compute_block_hash in
// src/kachedb/vllm/prefix_cache.py, compute_node_hash in src/kachedb/sglang/radix_adapter.py).
module Hashing {
  import opened Bytes
  import opened Descriptors

  // 32-bit token ids and 64-bit hashes, the ranges struct packs without raising.
  type Token = t: int | 0 <= t < 0x1_0000_0000

  type Hash = h: int | 0 <= h < 0x1_0000_0000_0000_0000

  // The 8-byte BLAKE2b digest, left uninterpreted.
  type Digest = Bytes -> Hash

  // The hash of a slice given its parent's hash.
  type Hasher = (Hash, seq<Token>) -> Hash

  // On these inputs the hash has no collision and never yields the root value 0.
  ghost predicate CollisionFree(hash: Hasher, inputs: set<(Hash, seq<Token>)>)
  {
    && (forall x :: x in inputs ==> hash(x.0, x.1) != 0)
    && (forall x, y :: x in inputs && y in inputs && hash(x.0, x.1) == hash(y.0, y.1) ==> x == y)
  }

  function PackTokens(tokens: seq<Token>): Bytes
  {
    if tokens == [] then [] else PackTokens(tokens[..|tokens| - 1]) + LittleEndian(tokens[|tokens| - 1], 4)
  }

  // The buffer of compute_block_hash.
  function Pack(parent: Hash, tokens: seq<Token>): Bytes
  {
    LittleEndian(parent, 8) + PackTokens(tokens)
  }

  lemma {:induction false} LittleEndianInjective(a: nat, b: nat, w: nat)
    requires a < Base(w) && b < Base(w) && LittleEndian(a, w) == LittleEndian(b, w)
    ensures a == b
  {
    LittleEndianRoundTrip(a, w);
    LittleEndianRoundTrip(b, w);
    SmallRemainder(a, Base(w));
    SmallRemainder(b, Base(w));
  }

  lemma Bases()
    ensures Base(4) == 0x1_0000_0000 && Base(8) == 0x1_0000_0000_0000_0000
  {
    assert Base(2) == 65536;
    assert Base(4) == 256 * (256 * Base(2));
    assert Base(6) == 256 * (256 * Base(4));
  }

  lemma {:induction false} PackTokensInjective(a: seq<Token>, b: seq<Token>)
    requires PackTokens(a) == PackTokens(b)
    ensures a == b
  {
    PackTokensLength(a);
    PackTokensLength(b);
    if a != [] {
      var n := |a| - 1;
      var x, y := PackTokens(a[..n]), PackTokens(b[..n]);
      PackTokensLength(a[..n]);
      PackTokensLength(b[..n]);
      assert x == PackTokens(a)[..4 * n] && y == PackTokens(b)[..4 * n];
      assert LittleEndian(a[n], 4) == PackTokens(a)[4 * n..];
      assert LittleEndian(b[n], 4) == PackTokens(b)[4 * n..];
      PackTokensInjective(a[..n], b[..n]);
      Bases();
      LittleEndianInjective(a[n], b[n], 4);
      assert a == a[..n] + [a[n]] && b == b[..n] + [b[n]];
    }
  }

  lemma {:induction false} PackTokensLength(a: seq<Token>)
    ensures |PackTokens(a)| == 4 * |a|
  {
    if a != [] { PackTokensLength(a[..|a| - 1]); }
  }

  // Two buffers are equal only if both the parent hash and the tokens are.
  lemma PackInjective(h: Hash, a: seq<Token>, k: Hash, b: seq<Token>)
    requires Pack(h, a) == Pack(k, b)
    ensures h == k && a == b
  {
    assert LittleEndian(h, 8) == Pack(h, a)[..8] && LittleEndian(k, 8) == Pack(k, b)[..8];
    assert PackTokens(a) == Pack(h, a)[8..] && PackTokens(b) == Pack(k, b)[8..];
    Bases();
    LittleEndianInjective(h, k, 8);
    PackTokensInjective(a, b);
  }

  ghost predicate HashesPacked(hash: Hasher, digest: Digest)
  {
    forall h, t :: hash(h, t) == digest(Pack(h, t))
  }

  // A digest without collisions on the packed buffers is a hash without collisions.
  lemma DigestCollisionFree(hash: Hasher, digest: Digest, inputs: set<(Hash, seq<Token>)>)
    requires HashesPacked(hash, digest)
    requires forall x :: x in inputs ==> digest(Pack(x.0, x.1)) != 0
    requires forall x, y :: x in inputs && y in inputs && digest(Pack(x.0, x.1)) == digest(Pack(y.0, y.1)) ==>
               Pack(x.0, x.1) == Pack(y.0, y.1)
    ensures CollisionFree(hash, inputs)
  {
    forall x, y | x in inputs && y in inputs && hash(x.0, x.1) == hash(y.0, y.1) ensures x == y {
      PackInjective(x.0, x.1, y.0, y.1);
    }
  }

  // The buffer of compute_node_hash: the token count stands between parent and tokens.
  function PackNode(parent: Hash, tokens: seq<Token>): Bytes
  {
    LittleEndian(parent, 8) + LittleEndian(|tokens|, 4) + PackTokens(tokens)
  }

  lemma PackNodeInjective(h: Hash, a: seq<Token>, k: Hash, b: seq<Token>)
    requires PackNode(h, a) == PackNode(k, b)
    ensures h == k && a == b
  {
    var x, y := PackNode(h, a), PackNode(k, b);
    assert LittleEndian(h, 8) == x[..8] && LittleEndian(k, 8) == y[..8];
    assert PackTokens(a) == x[12..] && PackTokens(b) == y[12..];
    Bases();
    LittleEndianInjective(h, k, 8);
    PackTokensInjective(a, b);
  }

  ghost predicate HashesPackedNodes(hash: Hasher, digest: Digest)
  {
    forall h, t :: hash(h, t) == digest(PackNode(h, t))
  }

  // The same for node hashes.
  lemma NodeDigestCollisionFree(hash: Hasher, digest: Digest, inputs: set<(Hash, seq<Token>)>)
    requires HashesPackedNodes(hash, digest)
    requires forall x :: x in inputs ==> digest(PackNode(x.0, x.1)) != 0
    requires forall x, y :: x in inputs && y in inputs && digest(PackNode(x.0, x.1)) == digest(PackNode(y.0, y.1)) ==>
               PackNode(x.0, x.1) == PackNode(y.0, y.1)
    ensures CollisionFree(hash, inputs)
  {
    forall x, y | x in inputs && y in inputs && hash(x.0, x.1) == hash(y.0, y.1) ensures x == y {
      PackNodeInjective(x.0, x.1, y.0, y.1);
    }
  }

  // ---- Where the hashed values stand ----

  lemma {:induction false} LittleEndianFour(n: nat)
    requires n < 0x1_0000_0000
    ensures U32(LittleEndian(n, 4), 0) == n
  {
    Bases();
    LittleEndianRoundTrip(n, 4);
    SmallRemainder(n, Base(4));
    FromFour(LittleEndian(n, 4));
  }

  lemma LittleEndianEight(n: nat)
    requires n < 0x1_0000_0000_0000_0000
    ensures U64(LittleEndian(n, 8), 0) == n
  {
    Bases();
    LittleEndianRoundTrip(n, 8);
    SmallRemainder(n, Base(8));
    FromEight(LittleEndian(n, 8));
  }

  lemma {:induction false} TokenAt(tokens: seq<Token>, i: nat)
    requires i < |tokens|
    ensures |PackTokens(tokens)| == 4 * |tokens| && U32(PackTokens(tokens), 4 * i) == tokens[i]
  {
    hide LittleEndian;
    PackTokensLength(tokens);
    var n := |tokens| - 1;
    PackTokensLength(tokens[..n]);
    if i == n {
      LittleEndianFour(tokens[n]);
    } else {
      TokenAt(tokens[..n], i);
    }
  }

  // The parent's hash in the first eight bytes, and four bytes for each token.
  lemma PackLayout(parent: Hash, tokens: seq<Token>)
    ensures |Pack(parent, tokens)| == 8 + 4 * |tokens| && U64(Pack(parent, tokens), 0) == parent
    ensures forall i :: 0 <= i < |tokens| ==> U32(Pack(parent, tokens), 8 + 4 * i) == tokens[i]
  {
    hide LittleEndian, PackTokens;
    PackTokensLength(tokens);
    LittleEndianEight(parent);
    forall i | 0 <= i < |tokens| ensures U32(Pack(parent, tokens), 8 + 4 * i) == tokens[i] {
      TokenAt(tokens, i);
    }
  }

  // The same for a node, with the number of tokens in four bytes between.
  lemma PackNodeLayout(parent: Hash, tokens: seq<Token>)
    ensures |PackNode(parent, tokens)| == 12 + 4 * |tokens| && U64(PackNode(parent, tokens), 0) == parent
    ensures |tokens| < 0x1_0000_0000 ==> U32(PackNode(parent, tokens), 8) == |tokens|
    ensures forall i :: 0 <= i < |tokens| ==> U32(PackNode(parent, tokens), 12 + 4 * i) == tokens[i]
  {
    hide LittleEndian, PackTokens;
    PackTokensLength(tokens);
    LittleEndianEight(parent);
    if |tokens| < 0x1_0000_0000 { LittleEndianFour(|tokens|); }
    forall i | 0 <= i < |tokens| ensures U32(PackNode(parent, tokens), 12 + 4 * i) == tokens[i] {
      TokenAt(tokens, i);
    }
  }

  // ---- Paths of slices ----

  // The hash of a path of token slices from the root.
  function PathHash(hash: Hasher, path: seq<seq<Token>>): Hash
  {
    if path == [] then 0 else hash(PathHash(hash, path[..|path| - 1]), path[|path| - 1])
  }

  // What is hashed for slice i of a path.
  function PathInput(hash: Hasher, path: seq<seq<Token>>, i: nat): (Hash, seq<Token>)
    requires i < |path|
  {
    (PathHash(hash, path[..i]), path[i])
  }

  ghost predicate PathHashed(hash: Hasher, inputs: set<(Hash, seq<Token>)>, path: seq<seq<Token>>)
  {
    forall i :: 0 <= i < |path| ==> PathInput(hash, path, i) in inputs
  }

  // Without collisions equal hashes mean equal paths.
  lemma {:induction false} PathHashInjective(hash: Hasher, inputs: set<(Hash, seq<Token>)>,
                                             p: seq<seq<Token>>, q: seq<seq<Token>>)
    requires CollisionFree(hash, inputs) && PathHashed(hash, inputs, p) && PathHashed(hash, inputs, q)
    requires PathHash(hash, p) == PathHash(hash, q)
    ensures p == q
  {
    assert p != [] ==> PathInput(hash, p, |p| - 1) in inputs;
    assert q != [] ==> PathInput(hash, q, |q| - 1) in inputs;
    if p != [] && q != [] {
      var m, n := |p| - 1, |q| - 1;
      PathHashedPrefix(hash, inputs, p, m);
      PathHashedPrefix(hash, inputs, q, n);
      PathHashInjective(hash, inputs, p[..m], q[..n]);
      assert p == p[..m] + [p[m]] && q == q[..n] + [q[n]];
    }
  }

  lemma PathHashedPrefix(hash: Hasher, inputs: set<(Hash, seq<Token>)>, p: seq<seq<Token>>, k: nat)
    requires PathHashed(hash, inputs, p) && k <= |p|
    ensures PathHashed(hash, inputs, p[..k])
  {
    forall i | 0 <= i < k ensures PathInput(hash, p[..k], i) in inputs {
      assert PathInput(hash, p, i) in inputs;
      assert p[..k][..i] == p[..i];
    }
  }
}

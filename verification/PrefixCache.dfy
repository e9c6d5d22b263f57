// Chained block hashes and the prefix index of src/kachedb/vllm/prefix_cache.py.
module PrefixCache {
  import opened Bytes
  import opened Descriptors
  import opened Hashing

  datatype Entry = Entry(blockId: nat, numTokens: nat, layerOffsets: seq<nat>, numLayers: nat)

  // ---- Blocks of a prompt ----

  // len(prompt_tokens) // block_size
  function Blocks(bs: nat, p: seq<Token>): nat
    requires bs > 0
  {
    Quotient(|p|, bs)
  }

  function Quotient(n: nat, d: nat): (q: nat)
    requires d > 0
  {
    if n < d then 0 else 1 + Quotient(n - d, d)
  }

  lemma {:induction false} QuotientIsDivision(n: nat, d: nat)
    requires d > 0
    ensures Quotient(n, d) == n / d
    ensures Quotient(n, d) * d <= n < Quotient(n, d) * d + d
  {
    if n >= d {
      QuotientIsDivision(n - d, d);
      assert (1 + Quotient(n - d, d)) * d == d + Quotient(n - d, d) * d;
      assert n == Quotient(n, d) * d + (n - Quotient(n, d) * d);
      UniqueQuotient(n, d, Quotient(n, d), n - Quotient(n, d) * d);
    } else {
      UniqueQuotient(n, d, 0, n);
    }
  }

  lemma UniqueQuotient(n: nat, d: nat, q: nat, r: nat)
    requires n == d * q + r && r < d
    ensures n / d == q
  {
    UniqueRemainder(n, d, q, r);
    var k := n / d;
    assert n == d * k + n % d && d * k == d * q;
    if k != q { DifferentProducts(d, k, q); }
  }

  lemma BlocksFit(bs: nat, p: seq<Token>, b: nat)
    requires bs > 0
    ensures b <= Blocks(bs, p) <==> b * bs <= |p|
  {
    var n := Blocks(bs, p);
    QuotientIsDivision(|p|, bs);
    if b <= n { Multiples(bs, n, b); }
    if b > n { Multiples(bs, b, n); }
  }

  // The first b blocks.
  function Prefix(bs: nat, p: seq<Token>, b: nat): (r: seq<Token>)
    requires bs > 0 && b <= Blocks(bs, p)
    ensures |r| == b * bs
  {
    BlocksFit(bs, p, b);
    p[..b * bs]
  }

  function Block(bs: nat, p: seq<Token>, b: nat): (r: seq<Token>)
    requires bs > 0 && b < Blocks(bs, p)
    ensures |r| == bs
    ensures Prefix(bs, p, b + 1) == Prefix(bs, p, b) + r
  {
    BlocksFit(bs, p, b + 1);
    assert (b + 1) * bs == b * bs + bs;
    p[b * bs..(b + 1) * bs]
  }

  // p and q begin with the same b whole blocks.
  predicate ShareBlocks(bs: nat, p: seq<Token>, q: seq<Token>, b: nat)
    requires bs > 0
  {
    b <= Blocks(bs, p) && b <= Blocks(bs, q) && Prefix(bs, p, b) == Prefix(bs, q, b)
  }

  lemma ShareFewerBlocks(bs: nat, p: seq<Token>, q: seq<Token>, b: nat, c: nat)
    requires bs > 0 && ShareBlocks(bs, p, q, b) && c <= b
    ensures ShareBlocks(bs, p, q, c)
    ensures c < b ==> Block(bs, p, c) == Block(bs, q, c)
  {
    PartsOfPrefix(bs, p, b, c);
    PartsOfPrefix(bs, q, b, c);
  }

  lemma PartsOfPrefix(bs: nat, p: seq<Token>, b: nat, c: nat)
    requires bs > 0 && c <= b <= Blocks(bs, p)
    ensures c * bs <= b * bs && Prefix(bs, p, c) == Prefix(bs, p, b)[..c * bs]
    ensures c < b ==> c * bs + bs <= b * bs && Block(bs, p, c) == Prefix(bs, p, b)[c * bs..c * bs + bs]
  {
    Multiples(bs, b, c);
    BlocksFit(bs, p, b);
    SliceOfSlice(p, 0, b * bs, 0, c * bs);
    assert p[0..0 + b * bs] == Prefix(bs, p, b);
    if c < b {
      Multiples(bs, c + 1, c);
      SliceOfSlice(p, 0, b * bs, c * bs, c * bs + bs);
    }
  }

  lemma Multiples(bs: nat, b: nat, c: nat)
    requires c <= b
    ensures c * bs <= b * bs
    ensures c < b ==> c * bs + bs <= b * bs
    ensures b == c + 1 ==> c * bs + bs == b * bs
  {
    assert b * bs == c * bs + (b - c) * bs;
    if c < b { assert (b - c) * bs == bs + (b - c - 1) * bs; }
  }

  // ---- Chained hashes ----

  // The hash of the first b blocks of p.
  function ChainHash(hash: Hasher, bs: nat, p: seq<Token>, b: nat): Hash
    requires bs > 0 && b <= Blocks(bs, p)
  {
    if b == 0 then 0 else hash(ChainHash(hash, bs, p, b - 1), Block(bs, p, b - 1))
  }

  function ChainHashes(hash: Hasher, bs: nat, p: seq<Token>): (r: seq<Hash>)
    requires bs > 0
  {
    seq(Blocks(bs, p), b requires 0 <= b < Blocks(bs, p) => ChainHash(hash, bs, p, b + 1))
  }

  // One hash for each whole block: that of its tokens under the hash before it, and of the first
  // under 0.
  lemma HashesChained(hash: Hasher, bs: nat, p: seq<Token>, b: nat)
    requires bs > 0
    ensures |ChainHashes(hash, bs, p)| == |p| / bs
    ensures b < |p| / bs ==>
              var hashes, from := ChainHashes(hash, bs, p), b * bs;
              && 0 <= from <= from + bs <= |p|
              && hashes[b] == hash(if b == 0 then 0 else hashes[b - 1], p[from..from + bs])
  {
    hide Quotient;
    QuotientIsDivision(|p|, bs);
    if b < |p| / bs {
      BlocksFit(bs, p, b + 1);
      Multiples(bs, b + 1, b);
    }
  }

  // What is hashed for block b of p.
  function HashInput(hash: Hasher, bs: nat, p: seq<Token>, b: nat): (Hash, seq<Token>)
    requires bs > 0 && b < Blocks(bs, p)
  {
    (ChainHash(hash, bs, p, b), Block(bs, p, b))
  }

  ghost function HashInputs(hash: Hasher, bs: nat, prompts: set<seq<Token>>): set<(Hash, seq<Token>)>
    requires bs > 0
  {
    set p, b | p in prompts && 0 <= b < Blocks(bs, p) :: HashInput(hash, bs, p, b)
  }

  // Equal chained hashes mean equal block prefixes.
  lemma {:induction false} ChainHashInjective(
      hash: Hasher, bs: nat, prompts: set<seq<Token>>, p: seq<Token>, b: nat, q: seq<Token>, c: nat)
    requires bs > 0 && CollisionFree(hash, HashInputs(hash, bs, prompts)) && p in prompts && q in prompts
    requires b <= Blocks(bs, p) && c <= Blocks(bs, q)
    requires ChainHash(hash, bs, p, b) == ChainHash(hash, bs, q, c)
    ensures b == c && Prefix(bs, p, b) == Prefix(bs, q, c)
  {
    var inputs := HashInputs(hash, bs, prompts);
    if b > 0 { assert HashInput(hash, bs, p, b - 1) in inputs; }
    if c > 0 { assert HashInput(hash, bs, q, c - 1) in inputs; }
    if b > 0 && c > 0 {
      ChainHashInjective(hash, bs, prompts, p, b - 1, q, c - 1);
    }
  }

  // A chained hash depends on the hashed blocks only.
  lemma {:induction false} ChainHashOfPrefix(hash: Hasher, bs: nat, p: seq<Token>, q: seq<Token>, b: nat)
    requires bs > 0 && ShareBlocks(bs, p, q, b)
    ensures ChainHash(hash, bs, p, b) == ChainHash(hash, bs, q, b)
  {
    if b > 0 {
      ShareFewerBlocks(bs, p, q, b, b - 1);
      ChainHashOfPrefix(hash, bs, p, q, b - 1);
    }
  }

  // The number of leading hashes present in the index.
  function Matched(index: map<Hash, Entry>, hashes: seq<Hash>): (m: nat)
    ensures m <= |hashes|
    ensures forall b :: 0 <= b < m ==> hashes[b] in index
    ensures m < |hashes| ==> hashes[m] !in index
  {
    if hashes == [] || hashes[0] !in index then 0 else 1 + Matched(index, hashes[1..])
  }

  class KacheDBPrefixCache {
    const digest: Digest
    const blockSize: nat
    var index: map<Hash, Entry>
    // compute_block_hash as a function
    ghost const hash: Hasher

    ghost predicate Valid() { blockSize > 0 && HashesPacked(hash, digest) }

    constructor (digest: Digest, blockSize: nat)
      requires blockSize > 0
      ensures Valid() && this.digest == digest && this.blockSize == blockSize && index == map[]
    {
      this.digest := digest;
      this.hash := (h, t) => digest(Pack(h, t));
      this.blockSize := blockSize;
      index := map[];
    }

    method ComputeBlockHash(tokens: seq<Token>, parent: Hash) returns (h: Hash)
      requires Valid()
      ensures h == hash(parent, tokens)
    {
      var buf := LittleEndian(parent, 8);
      for i := 0 to |tokens|
        invariant buf == Pack(parent, tokens[..i])
      {
        assert tokens[..i + 1][..i] == tokens[..i];
        buf := buf + LittleEndian(tokens[i], 4);
      }
      assert tokens[..|tokens|] == tokens;
      h := digest(buf);
    }

    method ComputeSequenceHashes(p: seq<Token>) returns (hashes: seq<Hash>)
      requires Valid()
      ensures hashes == ChainHashes(hash, blockSize, p)
    {
      hashes := [];
      var current: Hash := 0;
      var numBlocks := FloorDivide(|p|, blockSize);
      for b := 0 to numBlocks
        invariant numBlocks == Blocks(blockSize, p)
        invariant current == ChainHash(hash, blockSize, p, b)
        invariant |hashes| == b
        invariant forall c :: 0 <= c < b ==> hashes[c] == ChainHash(hash, blockSize, p, c + 1)
      {
        current := ExtendChain(p, b, current);
        hashes := hashes + [current];
      }
      assert hashes == ChainHashes(hash, blockSize, p);
    }

    static method FloorDivide(n: nat, d: nat) returns (q: nat)
      requires d > 0
      ensures q == Quotient(n, d)
    {
      QuotientIsDivision(n, d);
      q := n / d;
    }

    // Chain the hash of prompt_tokens[b * block_size : (b + 1) * block_size] to its parent.
    method ExtendChain(p: seq<Token>, b: nat, parent: Hash) returns (h: Hash)
      requires Valid() && b < Blocks(blockSize, p)
      requires parent == ChainHash(hash, blockSize, p, b)
      ensures h == ChainHash(hash, blockSize, p, b + 1)
    {
      BlocksFit(blockSize, p, b + 1);
      Multiples(blockSize, b + 1, b);
      var chunk := p[b * blockSize..(b + 1) * blockSize];
      assert chunk == Block(blockSize, p, b);
      h := ComputeBlockHash(chunk, parent);
    }

    method RegisterBlock(h: Hash, blockId: nat, numTokens: nat, layerOffsets: seq<nat>, numLayers: nat)
      modifies this
      ensures index == old(index)[h := Entry(blockId, numTokens, layerOffsets, numLayers)]
    {
      index := index[h := Entry(blockId, numTokens, layerOffsets, numLayers)];
    }

    method LookupBlock(h: Hash) returns (e: Option<Entry>)
      ensures e == if h in index then Some(index[h]) else None
    {
      e := if h in index then Some(index[h]) else None;
    }

    method FindLongestPrefix(p: seq<Token>) returns (matchedTokens: nat, matched: seq<Entry>)
      requires Valid()
      ensures |matched| == Matched(index, ChainHashes(hash, blockSize, p))
      ensures matchedTokens == |matched| * blockSize
      ensures forall b :: 0 <= b < |matched| ==>
                ChainHashes(hash, blockSize, p)[b] in index &&
                matched[b] == index[ChainHashes(hash, blockSize, p)[b]]
    {
      var hashes := ComputeSequenceHashes(p);
      matched := [];
      matchedTokens := 0;
      var i := 0;
      while i < |hashes|
        invariant i == |matched| <= |hashes| && matchedTokens == i * blockSize
        invariant forall b :: 0 <= b < i ==> hashes[b] in index && matched[b] == index[hashes[b]]
        invariant Matched(index, hashes) == i + Matched(index, hashes[i..])
      {
        var entry := LookupBlock(hashes[i]);
        if entry.None? { break; }
        matched := matched + [entry.value];
        assert hashes[i..][1..] == hashes[i + 1..];
        assert (i + 1) * blockSize == i * blockSize + blockSize;
        matchedTokens := matchedTokens + blockSize;
        i := i + 1;
      }
    }
  }
}

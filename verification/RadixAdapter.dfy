// The radix-node index of src/kachedb/sglang/radix_adapter.py.
module RadixAdapter {
  import opened Bytes
  import opened Hashing
  import opened Descriptors

  datatype Node = Node(nodeId: nat, parentHash: Hash, nodeHash: Hash, tokens: seq<Token>, layerOffsets: seq<nat>)

  // The nodes in dictionary order.
  type Registry = seq<Node>

  ghost predicate UniqueHashes(reg: Registry)
  {
    forall i, j :: 0 <= i < j < |reg| ==> reg[i].nodeHash != reg[j].nodeHash
  }

  // No node hashes to the root value.
  ghost predicate NoRootHash(reg: Registry)
  {
    forall i :: 0 <= i < |reg| ==> reg[i].nodeHash != 0
  }

  // Assigning dict[n.nodeHash] = n: an existing key keeps its place.
  function Upsert(reg: Registry, n: Node): Registry
  {
    if reg == [] then [n]
    else if reg[0].nodeHash == n.nodeHash then [n] + reg[1..]
    else [reg[0]] + Upsert(reg[1..], n)
  }

  lemma {:induction false} UpsertMembers(reg: Registry, n: Node)
    ensures n in Upsert(reg, n)
    ensures UniqueHashes(reg) ==> UniqueHashes(Upsert(reg, n))
    ensures UniqueHashes(reg) ==>
              forall m :: m in Upsert(reg, n) <==> m == n || (m in reg && m.nodeHash != n.nodeHash)
  {
    if reg != [] {
      UpsertMembers(reg[1..], n);
      assert reg == [reg[0]] + reg[1..];
      if UniqueHashes(reg) {
        assert UniqueHashes(reg[1..]);
        var u := Upsert(reg, n);
        if reg[0].nodeHash == n.nodeHash {
          forall m | m in reg[1..] ensures m.nodeHash != n.nodeHash {
            var j :| 0 <= j < |reg[1..]| && reg[1..][j] == m;
            assert reg[j + 1] == m;
          }
        } else {
          forall j | 0 < j < |u| ensures u[0].nodeHash != u[j].nodeHash {
            assert u[j] in Upsert(reg[1..], n);
            if u[j] != n {
              var k :| 0 <= k < |reg[1..]| && reg[1..][k] == u[j];
              assert reg[k + 1] == u[j];
            }
          }
          forall i, j | 0 <= i < j < |u| ensures u[i].nodeHash != u[j].nodeHash {
            if i > 0 { assert Upsert(reg[1..], n)[i - 1].nodeHash != Upsert(reg[1..], n)[j - 1].nodeHash; }
          }
        }
      }
    }
  }

  // ---- Chains ----

  function Tokens(chain: seq<Node>): seq<Token>
  {
    if chain == [] then [] else Tokens(chain[..|chain| - 1]) + chain[|chain| - 1].tokens
  }

  // The hash the next node must name as its parent: the root's at first.
  function Tip(chain: seq<Node>): Hash
  {
    if chain == [] then 0 else chain[|chain| - 1].nodeHash
  }

  // Node i is registered, under the node before it.
  ghost predicate Linked(reg: Registry, chain: seq<Node>, i: nat)
    requires i < |chain|
  {
    chain[i] in reg && chain[i].parentHash == Tip(chain[..i])
  }

  // A path of registered nodes down from the root.
  ghost predicate Chain(reg: Registry, chain: seq<Node>)
  {
    forall i :: 0 <= i < |chain| ==> Linked(reg, chain, i)
  }

  // In terms of the registered nodes: the first names the root, whose hash is 0, as its parent, and
  // every other the node before it.
  lemma ChainIff(reg: Registry, chain: seq<Node>)
    ensures Chain(reg, chain) <==>
            forall i :: 0 <= i < |chain| ==>
              chain[i] in reg && chain[i].parentHash == if i == 0 then 0 else chain[i - 1].nodeHash
  {
    if Chain(reg, chain) {
      forall i | 0 <= i < |chain|
        ensures chain[i] in reg && chain[i].parentHash == if i == 0 then 0 else chain[i - 1].nodeHash
      {
        LinkedIff(reg, chain, i);
      }
    }
    if forall i :: 0 <= i < |chain| ==>
         chain[i] in reg && chain[i].parentHash == if i == 0 then 0 else chain[i - 1].nodeHash
    {
      forall i | 0 <= i < |chain| ensures Linked(reg, chain, i) { LinkedIff(reg, chain, i); }
    }
  }

  lemma LinkedIff(reg: Registry, chain: seq<Node>, i: nat)
    requires i < |chain|
    ensures Linked(reg, chain, i) <==>
            chain[i] in reg && chain[i].parentHash == if i == 0 then 0 else chain[i - 1].nodeHash
  {
  }

  // The tokens along a path, from the root on.
  lemma {:induction false} TokensFromRoot(n: Node, chain: seq<Node>)
    ensures Tokens([n] + chain) == n.tokens + Tokens(chain)
  {
    var all := [n] + chain;
    if chain == [] {
      assert all[..|all| - 1] == [] && Tokens([]) + n.tokens == n.tokens + Tokens([]);
    } else {
      var k := |chain| - 1;
      assert all[..|all| - 1] == [n] + chain[..k];
      TokensFromRoot(n, chain[..k]);
      assert n.tokens + Tokens(chain[..k]) + chain[k].tokens == n.tokens + (Tokens(chain[..k]) + chain[k].tokens);
    }
  }

  lemma {:induction false} ChainsOfOneTip(reg: Registry, a: seq<Node>, b: seq<Node>)
    requires UniqueHashes(reg) && NoRootHash(reg) && Chain(reg, a) && Chain(reg, b)
    requires Tip(a) == Tip(b)
    ensures a == b
  {
    assert a != [] ==> Linked(reg, a, |a| - 1);
    assert b != [] ==> Linked(reg, b, |b| - 1);
    if a != [] && b != [] {
      var n, m := |a| - 1, |b| - 1;
      assert a[n] == b[m];
      ChainPrefix(reg, a, n);
      ChainPrefix(reg, b, m);
      ChainsOfOneTip(reg, a[..n], b[..m]);
      assert a == a[..n] + [a[n]] && b == b[..m] + [b[m]];
    }
  }

  lemma ChainPrefix(reg: Registry, chain: seq<Node>, k: nat)
    requires Chain(reg, chain) && k <= |chain|
    ensures Chain(reg, chain[..k])
  {
    forall i | 0 <= i < k ensures Linked(reg, chain[..k], i) {
      assert Linked(reg, chain, i);
      assert chain[..k][..i] == chain[..i];
    }
  }

  // A node occurs at most once on a chain, so a chain is no longer than the registry.
  lemma ChainBounded(reg: Registry, chain: seq<Node>)
    requires UniqueHashes(reg) && NoRootHash(reg) && Chain(reg, chain)
    ensures |chain| <= |reg|
  {
    forall i | 0 <= i < |chain| ensures chain[i] in reg { assert Linked(reg, chain, i); }
    forall i, j | 0 <= i < j < |chain| ensures chain[i] != chain[j] {
      if chain[i] == chain[j] {
        ChainPrefix(reg, chain, i + 1);
        ChainPrefix(reg, chain, j + 1);
        ChainsOfOneTip(reg, chain[..i + 1], chain[..j + 1]);
        assert false;
      }
    }
    DistinctMembers(chain, reg);
  }

  // A path of empty nodes from the root that leads back to the root's hash.
  ghost predicate EmptyCycle(reg: Registry, path: seq<Node>)
  {
    path != [] && Chain(reg, path) && (forall i :: 0 <= i < |path| ==> path[i].tokens == []) && Tip(path) == 0
  }

  ghost predicate NoEmptyCycle(reg: Registry)
  {
    forall path :: !EmptyCycle(reg, path)
  }

  // Nodes of one parent differ in their tokens: a node's hash is a function of the two, and the
  // key of the dictionary.
  ghost predicate OnePerKey(reg: Registry)
  {
    forall m, n :: m in reg && n in reg && m.parentHash == n.parentHash && m.tokens == n.tokens ==> m == n
  }

  // How many nodes without tokens a chain ends with.
  ghost function EmptyTail(chain: seq<Node>): (r: nat)
    ensures r <= |chain|
    ensures r < |chain| ==> chain[|chain| - 1 - r].tokens != []
    ensures forall i :: |chain| - r <= i < |chain| ==> chain[i].tokens == []
  {
    if chain == [] || chain[|chain| - 1].tokens != [] then 0 else 1 + EmptyTail(chain[..|chain| - 1])
  }

  lemma EmptyTailSnoc(chain: seq<Node>, n: Node)
    ensures EmptyTail(chain + [n]) == if n.tokens == [] then EmptyTail(chain) + 1 else 0
  {
    assert (chain + [n])[..|chain|] == chain;
  }

  // A path has no more empty nodes in a row than there are nodes.
  lemma EmptyTailBounded(reg: Registry, chain: seq<Node>)
    requires UniqueHashes(reg) && NoEmptyCycle(reg) && Chain(reg, chain)
    ensures EmptyTail(chain) <= |reg|
  {
    hide UniqueHashes, NoEmptyCycle, Chain, EmptyTail;
    var j := |chain| - EmptyTail(chain);
    var tail := chain[j..];
    forall a, b | 0 <= a < b < |tail| ensures tail[a] != tail[b] {
      EmptyNodesDiffer(reg, chain, j, j + a, j + b);
    }
    forall a | 0 <= a < |tail| ensures tail[a] in reg { LinkedAt(reg, chain, j + a); }
    DistinctMembers(tail, reg);
  }

  lemma LinkedAt(reg: Registry, chain: seq<Node>, i: nat)
    requires Chain(reg, chain) && i < |chain|
    ensures chain[i] in reg && chain[i].parentHash == Tip(chain[..i])
  {
    assert Linked(reg, chain, i);
  }

  lemma {:induction false} EmptyNodesDiffer(reg: Registry, chain: seq<Node>, j: nat, a: nat, b: nat)
    requires UniqueHashes(reg) && NoEmptyCycle(reg) && Chain(reg, chain)
    requires j <= a < b < |chain| && (j == 0 || chain[j - 1].tokens != [])
    requires forall i :: j <= i < |chain| ==> chain[i].tokens == []
    ensures chain[a] != chain[b]
  {
    if chain[a] == chain[b] {
      LinkedAt(reg, chain, a);
      LinkedAt(reg, chain, b);
      LinkedAt(reg, chain, b - 1);
      assert chain[..b][b - 1] == chain[b - 1];
      if a == 0 {
        BackAtRoot(reg, chain, b);
        assert false;
      } else {
        LinkedAt(reg, chain, a - 1);
        assert chain[..a][a - 1] == chain[a - 1];
        SameNode(reg, chain[a - 1], chain[b - 1]);
        EmptyNodesDiffer(reg, chain, j, a - 1, b - 1);
        assert false;
      }
    }
  }

  lemma BackAtRoot(reg: Registry, chain: seq<Node>, b: nat)
    requires Chain(reg, chain) && 0 < b <= |chain| && chain[b - 1].nodeHash == 0
    requires forall i :: 0 <= i < |chain| ==> chain[i].tokens == []
    ensures EmptyCycle(reg, chain[..b])
  {
    ChainPrefix(reg, chain, b);
  }

  lemma SameNode(reg: Registry, m: Node, n: Node)
    requires UniqueHashes(reg) && m in reg && n in reg && m.nodeHash == n.nodeHash
    ensures m == n
  {
  }

  lemma {:induction false} DistinctMembers<T>(a: seq<T>, b: seq<T>)
    requires forall i, j :: 0 <= i < j < |a| ==> a[i] != a[j]
    requires forall i :: 0 <= i < |a| ==> a[i] in b
    ensures |a| <= |b|
  {
    if a != [] {
      var n := |a| - 1;
      var k :| 0 <= k < |b| && b[k] == a[n];
      var rest := b[..k] + b[k + 1..];
      forall i | 0 <= i < n ensures a[..n][i] in rest {
        var m :| 0 <= m < |b| && b[m] == a[i];
        if m < k { assert rest[m] == a[i]; } else { assert rest[m - 1] == a[i]; }
      }
      DistinctMembers(a[..n], rest);
    }
  }

  // ---- The search ----

  predicate IsMatch(n: Node, parent: Hash, rest: seq<Token>)
  {
    n.parentHash == parent && n.tokens <= rest
  }

  // The first node, in dictionary order, under this parent whose tokens come next.
  function FirstChild(reg: Registry, parent: Hash, rest: seq<Token>): (r: Option<Node>)
    ensures r.Some? ==> r.value in reg && IsMatch(r.value, parent, rest)
    ensures r.None? ==> forall n :: n in reg ==> !IsMatch(n, parent, rest)
  {
    if reg == [] then None
    else if IsMatch(reg[0], parent, rest) then Some(reg[0])
    else FirstChild(reg[1..], parent, rest)
  }

  // What is left of the prompt after a chain.
  function Remainder(prompt: seq<Token>, chain: seq<Node>): seq<Token>
    requires |Tokens(chain)| <= |prompt|
  {
    prompt[|Tokens(chain)|..]
  }

  // The next step of the search taken from a chain.
  predicate Steps(reg: Registry, prompt: seq<Token>, limit: int, chain: seq<Node>, n: Node)
  {
    && |Tokens(chain)| <= |prompt| && |Tokens(chain)| < limit
    && FirstChild(reg, Tip(chain), Remainder(prompt, chain)) == Some(n)
  }

  // Every node of the chain was the search's step from the nodes before it.
  ghost predicate Greedy(reg: Registry, prompt: seq<Token>, limit: int, chain: seq<Node>)
  {
    forall i {:trigger Steps(reg, prompt, limit, chain[..i], chain[i])} ::
      0 <= i < |chain| ==> Steps(reg, prompt, limit, chain[..i], chain[i])
  }

  // The search stops here.
  predicate Stops(reg: Registry, prompt: seq<Token>, limit: int, chain: seq<Node>)
  {
    && |Tokens(chain)| <= |prompt|
    && (|Tokens(chain)| >= limit || FirstChild(reg, Tip(chain), Remainder(prompt, chain)) == None)
  }

  lemma GreedyPrefix(reg: Registry, prompt: seq<Token>, limit: int, chain: seq<Node>, k: nat)
    requires Greedy(reg, prompt, limit, chain) && k <= |chain|
    ensures Greedy(reg, prompt, limit, chain[..k])
  {
    forall i | 0 <= i < k ensures Steps(reg, prompt, limit, chain[..k][..i], chain[..k][i]) {
      assert Steps(reg, prompt, limit, chain[..i], chain[i]);
      assert chain[..k][..i] == chain[..i];
    }
  }

  // Soundness, whatever is registered: the nodes found form a path from the root, their tokens
  // are exactly the matched part of the prompt, and the limit is passed by less than the length
  // of the last node.
  lemma {:induction false} GreedySound(reg: Registry, prompt: seq<Token>, limit: int, chain: seq<Node>)
    requires Greedy(reg, prompt, limit, chain)
    ensures Chain(reg, chain)
    ensures Tokens(chain) <= prompt
    ensures chain != [] ==> |Tokens(chain)| - |chain[|chain| - 1].tokens| < limit
  {
    if chain != [] {
      var n := |chain| - 1;
      var before := chain[..n];
      GreedyPrefix(reg, prompt, limit, chain, n);
      GreedySound(reg, prompt, limit, before);
      assert Steps(reg, prompt, limit, before, chain[n]);
      PrefixOfTwo(Tokens(before), chain[n].tokens, prompt);
      forall i | 0 <= i < |chain| ensures Linked(reg, chain, i) {
        if i < n { assert Linked(reg, before, i) && before[i] == chain[i] && before[..i] == chain[..i]; }
      }
    }
  }

  // ---- When a search ends ----

  // What a search under this limit comes to.
  ghost predicate LimitedResult(reg: Registry, prompt: seq<Token>, limit: int, chain: seq<Node>)
  {
    Greedy(reg, prompt, limit, chain) && Stops(reg, prompt, limit, chain)
  }

  ghost predicate SearchEnds(reg: Registry, prompt: seq<Token>, limit: int)
  {
    exists chain :: LimitedResult(reg, prompt, limit, chain)
  }

  // Every search ends, for all prompts and limits, exactly when no path of empty nodes leads from
  // the root back to its hash.
  lemma SearchEndsIff(reg: Registry)
    requires UniqueHashes(reg) && OnePerKey(reg)
    ensures (forall prompt, limit :: SearchEnds(reg, prompt, limit)) <==> NoEmptyCycle(reg)
  {
    if NoEmptyCycle(reg) {
      forall prompt, limit ensures SearchEnds(reg, prompt, limit) {
        var chain := Finish(reg, prompt, limit, []);
      }
    } else {
      var path :| EmptyCycle(reg, path);
      forall chain ensures !LimitedResult(reg, [], 1, chain) {
        if Greedy(reg, [], 1, chain) { CycleGoesOn(reg, path, chain); }
      }
      assert !SearchEnds(reg, [], 1);
    }
  }

  lemma {:induction false} Finish(reg: Registry, prompt: seq<Token>, limit: int, chain: seq<Node>)
    returns (r: seq<Node>)
    requires UniqueHashes(reg) && NoEmptyCycle(reg) && Greedy(reg, prompt, limit, chain)
    ensures LimitedResult(reg, prompt, limit, r)
    decreases |prompt| - |Tokens(chain)|, |reg| - EmptyTail(chain)
  {
    hide UniqueHashes, NoEmptyCycle, Greedy, Tip;
    GreedySound(reg, prompt, limit, chain);
    if Stops(reg, prompt, limit, chain) {
      r := chain;
    } else {
      var n := FirstChild(reg, Tip(chain), Remainder(prompt, chain)).value;
      TokensSnoc(chain, n);
      GreedySnoc(reg, prompt, limit, chain, n);
      GreedySound(reg, prompt, limit, chain + [n]);
      EmptyTailSnoc(chain, n);
      EmptyTailBounded(reg, chain + [n]);
      r := Finish(reg, prompt, limit, chain + [n]);
    }
  }

  // A search for the empty prompt goes round the cycle: it never stops.
  lemma {:induction false} CycleGoesOn(reg: Registry, path: seq<Node>, chain: seq<Node>)
    requires OnePerKey(reg) && EmptyCycle(reg, path) && Greedy(reg, [], 1, chain)
    ensures !Stops(reg, [], 1, chain)
  {
    var j := OnCycle(reg, path, chain);
    LinkedAt(reg, path, j);
    assert IsMatch(path[j], Tip(chain), []);
  }

  // The search is at one of its nodes.
  lemma {:induction false} OnCycle(reg: Registry, path: seq<Node>, chain: seq<Node>) returns (j: nat)
    requires OnePerKey(reg) && EmptyCycle(reg, path) && Greedy(reg, [], 1, chain)
    ensures j < |path| && Tip(chain) == Tip(path[..j]) && Tokens(chain) == []
  {
    if chain == [] {
      j := 0;
    } else {
      var n := |chain| - 1;
      GreedyPrefix(reg, [], 1, chain, n);
      var k := OnCycle(reg, path, chain[..n]);
      assert Steps(reg, [], 1, chain[..n], chain[n]);
      LinkedAt(reg, path, k);
      assert chain[n] == path[k];
      assert path[..k + 1][k] == path[k];
      if k + 1 < |path| {
        j := k + 1;
      } else {
        assert path[..k + 1] == path;
        j := 0;
      }
    }
  }

  // Two siblings a registered path leads to, one beginning with the other's tokens.
  ghost predicate Conflict(reg: Registry, chain: seq<Node>, a: Node, b: Node)
  {
    && Chain(reg, chain) && a in reg && b in reg && a != b
    && a.parentHash == Tip(chain) && b.parentHash == Tip(chain) && a.tokens <= b.tokens
  }

  ghost predicate NoConflictBefore(reg: Registry, depth: nat)
  {
    forall chain, a, b :: Conflict(reg, chain, a, b) ==> |chain| >= depth
  }

  ghost predicate Unambiguous(reg: Registry)
  {
    forall chain, a, b :: !Conflict(reg, chain, a, b)
  }

  lemma PrefixOfTwo(a: seq<Token>, b: seq<Token>, s: seq<Token>)
    ensures a + b <= s <==> a <= s && b <= s[|a|..]
  {
    if a + b <= s {
      assert s[..|a + b|] == a + b;
      assert s[|a|..][..|b|] == s[..|a + b|][|a|..] == b;
      assert s[..|a|] == s[..|a + b|][..|a|] == a;
    }
    if a <= s && b <= s[|a|..] {
      assert s == s[..|a|] + s[|a|..];
    }
  }

  lemma NextOnPath(reg: Registry, prompt: seq<Token>, path: seq<Node>)
    requires path != [] && Chain(reg, path) && Tokens(path) <= prompt
    ensures var n := |path| - 1;
            && Chain(reg, path[..n]) && Tokens(path[..n]) <= prompt && path[n] in reg
            && IsMatch(path[n], Tip(path[..n]), Remainder(prompt, path[..n]))
  {
    var n := |path| - 1;
    ChainPrefix(reg, path, n);
    assert Linked(reg, path, n);
    PrefixOfTwo(Tokens(path[..n]), path[n].tokens, prompt);
  }

  // Where siblings do not conflict, a node that matches is the one found.
  lemma OnlyMatch(reg: Registry, chain: seq<Node>, rest: seq<Token>, n: Node)
    requires forall a, b :: !Conflict(reg, chain, a, b)
    requires Chain(reg, chain) && n in reg && IsMatch(n, Tip(chain), rest)
    ensures FirstChild(reg, Tip(chain), rest) == Some(n)
  {
    var f := FirstChild(reg, Tip(chain), rest).value;
    PrefixesCompare(f.tokens, n.tokens, rest);
    assert !Conflict(reg, chain, f, n) && !Conflict(reg, chain, n, f);
  }

  lemma PrefixesCompare(a: seq<Token>, b: seq<Token>, s: seq<Token>)
    requires a <= s && b <= s
    ensures a <= b || b <= a
  {
    if |a| <= |b| { assert b[..|a|] == s[..|a|]; } else { assert a[..|b|] == s[..|b|]; }
  }

  // Where siblings do not conflict, the search follows every registered path that fits the prompt.
  lemma {:induction false} PathIsGreedy(reg: Registry, prompt: seq<Token>, limit: int, path: seq<Node>)
    requires NoConflictBefore(reg, |path|) && Chain(reg, path) && Tokens(path) <= prompt
    requires forall i :: 0 <= i < |path| ==> |Tokens(path[..i])| < limit
    ensures Greedy(reg, prompt, limit, path)
  {
    if path != [] {
      var n := |path| - 1;
      NextOnPath(reg, prompt, path);
      forall i | 0 <= i < n ensures |Tokens(path[..n][..i])| < limit { assert path[..n][..i] == path[..i]; }
      PathIsGreedy(reg, prompt, limit, path[..n]);
      OnlyMatch(reg, path[..n], Remainder(prompt, path[..n]), path[n]);
      GreedySnoc(reg, prompt, limit, path[..n], path[n]);
      assert path == path[..n] + [path[n]];
    }
  }

  ghost predicate SearchResult(reg: Registry, prompt: seq<Token>, chain: seq<Node>)
  {
    Greedy(reg, prompt, |prompt|, chain) && Stops(reg, prompt, |prompt|, chain)
  }

  // Without conflicts the greedy result is the longest registered path that fits the prompt: every
  // other such path is a beginning of it, or goes on from its end when the prompt is used up.
  lemma GreedyIsLongest(reg: Registry, prompt: seq<Token>, chain: seq<Node>)
    requires Unambiguous(reg) && SearchResult(reg, prompt, chain)
    ensures Chain(reg, chain) && Tokens(chain) <= prompt
    ensures forall path :: Chain(reg, path) && Tokens(path) <= prompt ==>
              path <= chain || (Tokens(chain) == prompt && chain <= path)
  {
    GreedySound(reg, prompt, |prompt|, chain);
    forall path | Chain(reg, path) && Tokens(path) <= prompt
      ensures path <= chain || (Tokens(chain) == prompt && chain <= path)
    {
      GreedyFollows(reg, prompt, chain, path);
    }
  }

  lemma {:induction false} GreedyFollows(reg: Registry, prompt: seq<Token>, chain: seq<Node>, path: seq<Node>)
    requires Unambiguous(reg) && SearchResult(reg, prompt, chain) && Chain(reg, path) && Tokens(path) <= prompt
    ensures path <= chain || (Tokens(chain) == prompt && chain <= path)
  {
    if path != [] {
      var n := |path| - 1;
      NextOnPath(reg, prompt, path);
      GreedyFollows(reg, prompt, chain, path[..n]);
      if path[..n] <= chain {
        assert chain[..n] == path[..n];
        if |Tokens(path[..n])| < |prompt| {
          OnlyMatch(reg, path[..n], Remainder(prompt, path[..n]), path[n]);
          NextFound(reg, prompt, chain, n, path[n]);
          assert path == path[..n] + [path[n]] && chain[..n + 1] == chain[..n] + [chain[n]];
        } else if |chain| > n {
          StepBelow(reg, prompt, |prompt|, chain, n);
          assert false;
        } else {
          assert chain == path[..n];
        }
      }
    }
  }

  // ---- Insertion order ----

  ghost predicate SameNodes(a: Registry, b: Registry)
  {
    UniqueHashes(a) && UniqueHashes(b) && forall n :: n in a <==> n in b
  }

  ghost predicate OrderIrrelevant(reg: Registry)
  {
    forall a, b, prompt, x ::
      SameNodes(reg, a) && SameNodes(reg, b) && SearchResult(a, prompt, x) ==> SearchResult(b, prompt, x)
  }

  // The result of a search does not depend on the order of insertion, for any prompt, exactly
  // when no path leads to siblings of which one begins with the other's tokens.
  lemma OrderIrrelevantIffUnambiguous(reg: Registry)
    requires UniqueHashes(reg) && OnePerKey(reg)
    ensures OrderIrrelevant(reg) <==> Unambiguous(reg)
  {
    if Unambiguous(reg) {
      forall a, b, prompt, x | SameNodes(reg, a) && SameNodes(reg, b) && SearchResult(a, prompt, x)
        ensures SearchResult(b, prompt, x)
      {
        LimitedOrderIrrelevant(reg, a, b, prompt, |prompt|, x);
      }
    } else {
      var chain, p, q :| Conflict(reg, chain, p, q);
      ConflictOrders(reg, chain, p, q);
    }
  }

  // Without conflicts it does not depend on it under any limit either.
  lemma LimitedOrderIrrelevant(reg: Registry, a: Registry, b: Registry, prompt: seq<Token>, limit: int, x: seq<Node>)
    requires Unambiguous(reg) && SameNodes(reg, a) && SameNodes(reg, b) && LimitedResult(a, prompt, limit, x)
    ensures LimitedResult(b, prompt, limit, x)
  {
    hide Unambiguous, SameNodes, Greedy, Chain, Tokens;
    UnambiguousOrder(reg, a, b);
    GreedySound(a, prompt, limit, x);
    forall i | 0 <= i < |x| ensures |Tokens(x[..i])| < limit { StepBelow(a, prompt, limit, x, i); }
    PathIsGreedy(b, prompt, limit, x);
    NothingFound(reg, a, b, Tip(x), Remainder(prompt, x));
  }

  lemma UnambiguousOrder(reg: Registry, a: Registry, b: Registry)
    requires Unambiguous(reg) && SameNodes(reg, a) && SameNodes(reg, b)
    ensures forall chain :: Chain(a, chain) ==> Chain(b, chain)
    ensures forall k :: NoConflictBefore(b, k)
  {
    SameConflicts(reg, a);
    SameConflicts(reg, b);
  }

  lemma NothingFound(reg: Registry, a: Registry, b: Registry, parent: Hash, rest: seq<Token>)
    requires SameNodes(reg, a) && SameNodes(reg, b)
    ensures FirstChild(a, parent, rest).None? <==> FirstChild(b, parent, rest).None?
  {
  }

  lemma SameConflicts(a: Registry, b: Registry)
    requires SameNodes(a, b)
    ensures forall chain :: Chain(a, chain) <==> Chain(b, chain)
    ensures forall chain, p, q :: Conflict(a, chain, p, q) <==> Conflict(b, chain, p, q)
  {
    forall chain ensures Chain(a, chain) <==> Chain(b, chain) {
      SameChains(a, b, chain);
      SameChains(b, a, chain);
    }
  }

  lemma SameChains(a: Registry, b: Registry, chain: seq<Node>)
    requires forall n :: n in a ==> n in b
    ensures Chain(a, chain) ==> Chain(b, chain)
  {
    if Chain(a, chain) {
      forall i | 0 <= i < |chain| ensures Linked(b, chain, i) { assert Linked(a, chain, i); }
    }
  }

  // A shallowest conflict makes two orders disagree: with q first the search for the path and q
  // ends there, and with p first it does not come there.
  lemma ConflictOrders(reg: Registry, chain: seq<Node>, p: Node, q: Node)
    requires UniqueHashes(reg) && OnePerKey(reg) && Conflict(reg, chain, p, q)
    ensures !OrderIrrelevant(reg)
    decreases |chain|
  {
    if NoConflictBefore(reg, |chain|) {
      var prompt := Tokens(chain) + q.tokens;
      var a, b := ToFront(reg, p), ToFront(reg, q);
      SameConflicts(reg, a);
      SameConflicts(reg, b);
      FrontIsFound(b, chain, prompt);
      assert !SearchResult(a, prompt, chain + [q]) by { FrontHides(a, chain, prompt, q); }
    } else {
      var c, r, s :| Conflict(reg, c, r, s) && |c| < |chain|;
      ConflictOrders(reg, c, r, s);
    }
  }

  // The registry with one node inserted first.
  ghost function ToFront(reg: Registry, n: Node): (r: Registry)
    requires UniqueHashes(reg) && n in reg
    ensures SameNodes(reg, r) && r[0] == n
  {
    var k :| 0 <= k < |reg| && reg[k] == n;
    var r := [n] + reg[..k] + reg[k + 1..];
    assert forall i :: 0 < i <= k ==> r[i] == reg[i - 1];
    assert forall i :: k < i < |r| ==> r[i] == reg[i];
    assert forall i :: 0 <= i < |reg| ==> reg[i] == if i < k then r[i + 1] else if i == k then r[0] else r[i];
    r
  }

  lemma GreedySnoc(reg: Registry, prompt: seq<Token>, limit: int, chain: seq<Node>, n: Node)
    requires Greedy(reg, prompt, limit, chain) && Steps(reg, prompt, limit, chain, n)
    ensures Greedy(reg, prompt, limit, chain + [n])
  {
    var longer := chain + [n];
    forall i | 0 <= i < |longer| ensures Steps(reg, prompt, limit, longer[..i], longer[i]) {
      assert longer[..i] == chain[..i];
      if i == |chain| { assert chain[..i] == chain; } else { assert Steps(reg, prompt, limit, chain[..i], chain[i]); }
    }
  }

  // The first node in dictionary order is found when its turn comes, and ends the search of a
  // prompt it completes.
  lemma FrontIsFound(reg: Registry, chain: seq<Node>, prompt: seq<Token>)
    requires NoConflictBefore(reg, |chain|) && Chain(reg, chain) && reg != []
    requires reg[0].parentHash == Tip(chain) && prompt == Tokens(chain) + reg[0].tokens && reg[0].tokens != []
    ensures SearchResult(reg, prompt, chain + [reg[0]])
  {
    hide FirstChild, Chain, Tip, NoConflictBefore;
    forall i | 0 <= i < |chain| ensures |Tokens(chain[..i])| < |prompt| {
      TokensGrow(chain, i, |chain|);
      assert chain[..|chain|] == chain;
    }
    PathIsGreedy(reg, prompt, |prompt|, chain);
    assert Remainder(prompt, chain) == reg[0].tokens;
    HeadIsFirstChild(reg, Tip(chain), Remainder(prompt, chain));
    GreedySnoc(reg, prompt, |prompt|, chain, reg[0]);
    TokensSnoc(chain, reg[0]);
  }

  // It hides a sibling that begins with its tokens.
  lemma FrontHides(reg: Registry, chain: seq<Node>, prompt: seq<Token>, q: Node)
    requires reg != [] && reg[0].parentHash == Tip(chain) && reg[0] != q
    requires reg[0].tokens <= q.tokens && prompt == Tokens(chain) + q.tokens
    ensures !SearchResult(reg, prompt, chain + [q])
  {
    assert (chain + [q])[..|chain|] == chain;
    assert Remainder(prompt, chain) == q.tokens;
    HeadIsFirstChild(reg, Tip(chain), q.tokens);
    if SearchResult(reg, prompt, chain + [q]) {
      StepBelow(reg, prompt, |prompt|, chain + [q], |chain|);
      assert false;
    }
  }

  lemma HeadIsFirstChild(reg: Registry, parent: Hash, rest: seq<Token>)
    requires reg != [] && IsMatch(reg[0], parent, rest)
    ensures FirstChild(reg, parent, rest) == Some(reg[0])
  {
  }

  // The child found after the first k nodes of a result is the next of them.
  lemma NextFound(reg: Registry, prompt: seq<Token>, x: seq<Node>, k: nat, n: Node)
    requires SearchResult(reg, prompt, x) && k <= |x| && |Tokens(x[..k])| < |prompt|
    requires FirstChild(reg, Tip(x[..k]), Remainder(prompt, x[..k])) == Some(n)
    ensures |x| > k && x[k] == n
  {
    assert x[..|x|] == x;
    assert Steps(reg, prompt, |prompt|, x[..k], x[k]);
  }

  lemma TokensSnoc(chain: seq<Node>, n: Node)
    ensures Tokens(chain + [n]) == Tokens(chain) + n.tokens
    ensures Tip(chain + [n]) == n.nodeHash
  {
    assert (chain + [n])[..|chain|] == chain;
  }

  // ---- Searches with a limit ----

  // A search limited within the prompt finds a beginning of what an unlimited one finds.
  lemma {:induction false} LimitedIsPrefix(reg: Registry, prompt: seq<Token>, limit: int, x: seq<Node>, y: seq<Node>)
    requires limit <= |prompt| && SearchResult(reg, prompt, x) && Greedy(reg, prompt, limit, y)
    ensures y <= x
  {
    hide SearchResult, Tokens, Tip, FirstChild;
    if y != [] {
      var n := |y| - 1;
      GreedyPrefix(reg, prompt, limit, y, n);
      LimitedIsPrefix(reg, prompt, limit, x, y[..n]);
      assert Steps(reg, prompt, limit, y[..n], y[n]);
      assert x[..n] == y[..n];
      NextFound(reg, prompt, x, n, y[n]);
      assert y == y[..n] + [y[n]] && x[..n + 1] == x[..n] + [x[n]];
    }
  }

  lemma NoNodes(reg: Registry, prompt: seq<Token>, limit: int)
    ensures Greedy(reg, prompt, limit, []) && Tokens([]) == [] && Tip([]) == 0
  {
  }

  // A search takes its steps in one way only.
  lemma {:induction false} OneSearch(reg: Registry, prompt: seq<Token>, limit: int, x: seq<Node>, y: seq<Node>)
    requires LimitedResult(reg, prompt, limit, x) && Greedy(reg, prompt, limit, y)
    ensures y <= x
  {
    if y != [] {
      var n := |y| - 1;
      GreedyPrefix(reg, prompt, limit, y, n);
      OneSearch(reg, prompt, limit, x, y[..n]);
      StepBelow(reg, prompt, limit, y, n);
      assert x[..n] == y[..n];
      assert x[..|x|] == x;
      if |x| > n { StepBelow(reg, prompt, limit, x, n); }
      assert y == y[..n] + [y[n]];
    }
  }

  // The limit falls strictly inside node k of a chain.
  predicate FallsInside(chain: seq<Node>, limit: int, k: nat)
    requires k < |chain|
  {
    |Tokens(chain[..k])| < limit < |Tokens(chain[..k + 1])|
  }

  // The limit is looked at only between nodes.  A limited search passes it exactly when it falls
  // strictly inside a node of the unlimited result, and then it ends with that node.
  lemma LimitPassedIff(reg: Registry, prompt: seq<Token>, limit: int, x: seq<Node>, y: seq<Node>)
    requires limit >= 0 && SearchResult(reg, prompt, x) && LimitedResult(reg, prompt, limit, y)
    ensures |Tokens(y)| > limit <==> exists k: nat :: k < |x| && FallsInside(x, limit, k)
    ensures forall k: nat :: k < |x| && FallsInside(x, limit, k) ==> y == x[..k + 1]
  {
    hide Greedy, Stops, Tokens, Tip, FirstChild;
    GreedySound(reg, prompt, |prompt|, x);
    GreedySound(reg, prompt, limit, y);
    forall k: nat | k < |x| && FallsInside(x, limit, k) ensures y == x[..k + 1] && |Tokens(y)| > limit {
      GreedyPrefix(reg, prompt, |prompt|, x, k + 1);
      GreedySound(reg, prompt, |prompt|, x[..k + 1]);
      LimitedIsPrefix(reg, prompt, limit, x, y);
      EndsWithNode(reg, prompt, limit, x, y, k);
    }
    if |Tokens(y)| > limit {
      LimitedIsPrefix(reg, prompt, limit, x, y);
      LastNodePasses(reg, prompt, limit, y);
      var k := |y| - 1;
      assert x[..k] == y[..k] && x[..k + 1] == y;
      assert FallsInside(x, limit, k);
    }
  }

  lemma LastNodePasses(reg: Registry, prompt: seq<Token>, limit: int, y: seq<Node>)
    requires limit >= 0 && Greedy(reg, prompt, limit, y) && |Tokens(y)| > limit
    ensures y != [] && |Tokens(y[..|y| - 1])| < limit
  {
    if y != [] { StepBelow(reg, prompt, limit, y, |y| - 1); }
  }

  // The search goes on only below its limit.
  lemma StepBelow(reg: Registry, prompt: seq<Token>, limit: int, y: seq<Node>, i: nat)
    requires Greedy(reg, prompt, limit, y) && i < |y|
    ensures |Tokens(y[..i])| < limit && Steps(reg, prompt, limit, y[..i], y[i])
  {
    assert Steps(reg, prompt, limit, y[..i], y[i]);
  }

  lemma EndsWithNode(reg: Registry, prompt: seq<Token>, limit: int, x: seq<Node>, y: seq<Node>, k: nat)
    requires SearchResult(reg, prompt, x) && LimitedResult(reg, prompt, limit, y) && y <= x
    requires k < |x| && FallsInside(x, limit, k)
    ensures y == x[..k + 1]
  {
    hide Tokens, Greedy;
    var j := |y|;
    assert y == x[..j];
    if j <= k {
      StepBelow(reg, prompt, |prompt|, x, j);
      TokensGrow(x, j, k);
    } else if j > k + 1 {
      assert y[..k + 1] == x[..k + 1];
      StepBelow(reg, prompt, limit, y, k + 1);
    }
  }

  lemma {:induction false} TokensGrow(chain: seq<Node>, i: nat, j: nat)
    requires i <= j <= |chain|
    ensures |Tokens(chain[..i])| <= |Tokens(chain[..j])|
  {
    if i < j {
      TokensGrow(chain, i, j - 1);
      assert chain[..j] == chain[..j - 1] + [chain[j - 1]];
      TokensSnoc(chain[..j - 1], chain[j - 1]);
    }
  }

  // ---- The adapter object ----

  lemma {:induction false} UpsertAt(reg: Registry, n: Node, k: nat)
    requires UniqueHashes(reg) && k < |reg| && reg[k].nodeHash == n.nodeHash
    ensures Upsert(reg, n) == reg[k := n]
  {
    if k == 0 {
      assert [n] + reg[1..] == reg[0 := n];
    } else {
      assert reg[0].nodeHash != reg[k].nodeHash;
      UpsertAt(reg[1..], n, k - 1);
      assert [reg[0]] + reg[1..][k - 1 := n] == reg[k := n];
    }
  }

  lemma {:induction false} UpsertNew(reg: Registry, n: Node)
    requires forall i :: 0 <= i < |reg| ==> reg[i].nodeHash != n.nodeHash
    ensures Upsert(reg, n) == reg + [n]
  {
    if reg != [] {
      UpsertNew(reg[1..], n);
      assert [reg[0]] + (reg[1..] + [n]) == reg + [n];
    }
  }

  // The values of a dictionary, its keys in insertion order.
  ghost predicate Consistent(nodes: map<Hash, Node>, order: seq<Hash>)
  {
    && (forall i :: 0 <= i < |order| ==> order[i] in nodes)
    && (forall h :: h in nodes ==> h in order && nodes[h].nodeHash == h)
    && (forall i, j :: 0 <= i < j < |order| ==> order[i] != order[j])
  }

  // The items of a dictionary in insertion order.
  ghost function InOrder(nodes: map<Hash, Node>, order: seq<Hash>): (r: Registry)
    requires Consistent(nodes, order)
    ensures |r| == |order| && UniqueHashes(r)
    ensures forall i :: 0 <= i < |r| ==> r[i] == nodes[order[i]]
  {
    seq(|order|, i requires 0 <= i < |order| => nodes[order[i]])
  }

  // The search in dictionary order looks at one node and goes on with those after it.
  lemma NextInOrder(reg: Registry, i: nat, parent: Hash, rest: seq<Token>)
    requires i < |reg|
    ensures FirstChild(reg[i..], parent, rest) ==
            if IsMatch(reg[i], parent, rest) then Some(reg[i]) else FirstChild(reg[i + 1..], parent, rest)
  {
    assert reg[i..][0] == reg[i] && reg[i..][1..] == reg[i + 1..];
  }

  // The comparison the search makes with the next slice of the prompt.
  lemma MatchTest(n: Node, parent: Hash, prompt: seq<Token>, cursor: nat)
    requires cursor <= |prompt|
    ensures IsMatch(n, parent, prompt[cursor..]) <==>
              n.parentHash == parent && cursor + |n.tokens| <= |prompt| &&
              prompt[cursor..cursor + |n.tokens|] == n.tokens
  {
    if cursor + |n.tokens| <= |prompt| {
      assert prompt[cursor..cursor + |n.tokens|] == prompt[cursor..][..|n.tokens|];
    }
  }

  // Assigning to an existing key, and to a new one.
  lemma AssignExisting(nodes: map<Hash, Node>, order: seq<Hash>, n: Node)
    requires Consistent(nodes, order) && n.nodeHash in nodes
    ensures Consistent(nodes[n.nodeHash := n], order)
    ensures InOrder(nodes[n.nodeHash := n], order) == Upsert(InOrder(nodes, order), n)
  {
    var k :| 0 <= k < |order| && order[k] == n.nodeHash;
    var reg, reg' := InOrder(nodes, order), InOrder(nodes[n.nodeHash := n], order);
    UpsertAt(reg, n, k);
    forall i | 0 <= i < |reg| ensures reg'[i] == reg[k := n][i] {
      if i != k { assert order[i] != order[k]; }
    }
  }

  lemma AssignNew(nodes: map<Hash, Node>, order: seq<Hash>, n: Node)
    requires Consistent(nodes, order) && n.nodeHash !in nodes
    ensures Consistent(nodes[n.nodeHash := n], order + [n.nodeHash])
    ensures InOrder(nodes[n.nodeHash := n], order + [n.nodeHash]) == Upsert(InOrder(nodes, order), n)
  {
    var order' := order + [n.nodeHash];
    assert forall i :: 0 <= i < |order| ==> order'[i] == order[i] && order[i] in nodes;
    UpsertNew(InOrder(nodes, order), n);
  }

  lemma KeyedByHash(nodes: map<Hash, Node>, order: seq<Hash>, hash: Hasher)
    requires Consistent(nodes, order)
    requires forall h :: h in nodes ==> nodes[h].nodeHash == hash(nodes[h].parentHash, nodes[h].tokens)
    ensures OnePerKey(InOrder(nodes, order))
  {
    var reg := InOrder(nodes, order);
    forall m, n | m in reg && n in reg && m.parentHash == n.parentHash && m.tokens == n.tokens ensures m == n {
      assert m.nodeHash == n.nodeHash;
      SameNode(reg, m, n);
    }
  }

  class KacheDBRadixAdapter {
    const digest: Digest
    // The dictionary: its items, and its keys in insertion order.
    var nodes: map<Hash, Node>
    var order: seq<Hash>
    // compute_node_hash as a function
    ghost const hash: Hasher

    ghost predicate Valid()
      reads this
    {
      && HashesPackedNodes(hash, digest) && Consistent(nodes, order)
      && forall h :: h in nodes ==> nodes[h].nodeHash == hash(nodes[h].parentHash, nodes[h].tokens)
    }

    ghost function Reg(): (r: Registry)
      requires Valid()
      reads this
      ensures |r| == |order| && UniqueHashes(r) && OnePerKey(r)
      ensures forall i :: 0 <= i < |r| ==> r[i] == nodes[order[i]]
    {
      KeyedByHash(nodes, order, hash);
      InOrder(nodes, order)
    }

    constructor (digest: Digest)
      ensures Valid() && Reg() == [] && this.digest == digest
    {
      this.digest := digest;
      this.hash := (h, t) => digest(PackNode(h, t));
      nodes := map[];
      order := [];
    }

    method ComputeNodeHash(tokens: seq<Token>, parent: Hash) returns (h: Hash)
      requires Valid()
      ensures h == hash(parent, tokens)
    {
      var buf := LittleEndian(parent, 8) + LittleEndian(|tokens|, 4);
      ghost var head := buf;
      for i := 0 to |tokens|
        invariant buf == head + PackTokens(tokens[..i])
      {
        assert tokens[..i + 1][..i] == tokens[..i];
        buf := buf + LittleEndian(tokens[i], 4);
      }
      assert tokens[..|tokens|] == tokens;
      h := digest(buf);
    }

    method RegisterNode(nodeId: nat, tokens: seq<Token>, parentHash: Hash, layerOffsets: seq<nat>)
      returns (desc: Node)
      requires Valid()
      modifies this
      ensures Valid()
      ensures desc == Node(nodeId, parentHash, hash(parentHash, tokens), tokens, layerOffsets)
      ensures Reg() == Upsert(old(Reg()), desc)
    {
      var h := ComputeNodeHash(tokens, parentHash);
      desc := Node(nodeId, parentHash, h, tokens, layerOffsets);
      hide Upsert, InOrder, Consistent, UniqueHashes, HashesPackedNodes;
      if h in nodes {
        AssignExisting(nodes, order, desc);
      } else {
        AssignNew(nodes, order, desc);
        order := order + [h];
      }
      nodes := nodes[h := desc];
    }

    method FindMatchingNodes(prompt: seq<Token>, maxTokens: Option<int>)
      returns (matchedTokens: nat, matched: seq<Node>)
      requires Valid() && SearchEnds(Reg(), prompt, if maxTokens.Some? then maxTokens.value else |prompt|)
      ensures LimitedResult(Reg(), prompt, if maxTokens.Some? then maxTokens.value else |prompt|, matched)
      ensures matchedTokens == |Tokens(matched)|
    {
      hide Greedy, Tokens, Tip, InOrder, Consistent, UniqueHashes, OnePerKey;
      matchedTokens, matched := 0, [];
      var currentParent: Hash := 0;
      var tokenCursor := 0;
      var limit := if maxTokens.Some? then maxTokens.value else |prompt|;
      ghost var reg := Reg();
      ghost var found :| LimitedResult(reg, prompt, limit, found);
      NoNodes(reg, prompt, limit);
      while tokenCursor < limit
        invariant Greedy(reg, prompt, limit, matched) && matched <= found
        invariant tokenCursor == matchedTokens == |Tokens(matched)| <= |prompt|
        invariant currentParent == Tip(matched)
        decreases |found| - |matched|
      {
        var best := FindChild(prompt, tokenCursor, currentParent);
        if best.None? { break; }
        TokensSnoc(matched, best.value);
        GreedySnoc(reg, prompt, limit, matched, best.value);
        matched := matched + [best.value];
        GreedySound(reg, prompt, limit, matched);
        OneSearch(reg, prompt, limit, found, matched);
        matchedTokens := matchedTokens + |best.value.tokens|;
        tokenCursor := tokenCursor + |best.value.tokens|;
        currentParent := best.value.nodeHash;
      }
    }

    // The inner loop over the dictionary.
    method FindChild(prompt: seq<Token>, cursor: nat, parent: Hash) returns (best: Option<Node>)
      requires Valid() && cursor <= |prompt|
      ensures best == FirstChild(Reg(), parent, prompt[cursor..])
    {
      hide FirstChild, IsMatch, InOrder, UniqueHashes, HashesPackedNodes;
      ghost var reg := Reg();
      assert reg[0..] == reg;
      for i := 0 to |order|
        invariant FirstChild(reg, parent, prompt[cursor..]) == FirstChild(reg[i..], parent, prompt[cursor..])
      {
        var desc := nodes[order[i]];
        assert reg[i] == desc;
        NextInOrder(reg, i, parent, prompt[cursor..]);
        MatchTest(desc, parent, prompt, cursor);
        if desc.parentHash == parent {
          var n := |desc.tokens|;
          if cursor + n <= |prompt| {
            var candidate := prompt[cursor..cursor + n];
            if candidate == desc.tokens {
              return Some(desc);
            }
          }
        }
      }
      best := None;
    }
  }
}

/** What every run of `add_block` keeps, whatever blocks are submitted. */
module AnyRun {
  import opened Types
  import opened Ledger
  import opened ChainRules
  import opened Consensus
  import Compact
  import Merkle

  // ---------- The invariant ----------

  /** The checks that a block passes whatever its parent is. */
  predicate WellFormed(h: Host, block: Block) {
    && block.transactions != []
    && block.header.merkleRoot == Merkle.MerkleRoot(h, block.transactions)
    && MeetsTarget(h, block.header)
  }

  /** A stored block above height 0 is one above its stored parent, and not older. */
  predicate Attached(h: Host, blocks: Blocks, k: Digest)
    requires k in blocks
  {
    var block := blocks[k];
    && WellFormed(h, block)
    && (block.header.height > 0 ==>
          var parent := block.header.previousBlockHash;
          && parent in blocks && block.header.height == blocks[parent].header.height + 1
          && block.header.timestamp >= blocks[parent].header.timestamp)
  }

  ghost predicate StoreGrounded(h: Host, c: Chain) {
    && c.genesisHash == HashOf(h, GenesisBlock(h))
    && c.genesisHash in c.blocks && c.blocks[c.genesisHash] == GenesisBlock(h)
    && c.headers == (map k | k in c.blocks :: c.blocks[k].header)
    && (forall k :: k in c.blocks ==> HashOf(h, c.blocks[k]) == k)
    && (forall k {:trigger Attached(h, c.blocks, k)} :: k in c.blocks && k != c.genesisHash ==>
          Attached(h, c.blocks, k))
  }

  ghost predicate BestGrounded(h: Host, c: Chain) {
    && c.bestChain != []
    && Walk(c.blocks, c.genesisHash, Tip(c)) == Some(c.bestChain)
    && c.currentHeight == c.blocks[Tip(c)].header.height
    && Replay(h, c.bootstrapUtxos, c.blocks, c.bestChain) == Ok(c.utxoSet)
  }

  ghost predicate Grounded(h: Host, c: Chain) {
    StoreGrounded(h, c) && BestGrounded(h, c)
  }

  /** A chain that is sound in the stronger sense of module Consensus is grounded. */
  lemma SoundGrounded(h: Host, c: Chain)
    requires Inv(h, c)
    ensures Grounded(h, c)
  {
    hide TipHighest, Replay, Merkle.MerkleRoot, MeetsTarget;
    WalkLinked(c.blocks, c.genesisHash, Tip(c));
    forall k | k in c.blocks && k != c.genesisHash
      ensures Attached(h, c.blocks, k)
    {
      assert Checked(h, c.blocks, k) && HasParent(c.blocks, k);
    }
  }

  lemma NewChainGrounded(h: Host, bootstrap: UtxoSet)
    ensures var c := NewChain(h, bootstrap);
      && Grounded(h, c) && c.bestChain == [c.genesisHash] && c.bootstrapUtxos == bootstrap
      && c.blocks == map[c.genesisHash := GenesisBlock(h)] && c.currentHeight == 0
  {
    NewChainSound(h, bootstrap);
    SoundGrounded(h, NewChain(h, bootstrap));
    hide Merkle.MerkleRoot, Replay, GenesisBlock, Inv, Grounded;
  }

  // ---------- Walks in a growing store ----------

  lemma {:induction false} WalkOn(blocks: Blocks, genesis: Digest, tip: Digest)
    requires tip in blocks && tip != genesis
    ensures var before := Walk(blocks, genesis, blocks[tip].header.previousBlockHash);
      && (before.Some? ==> Walk(blocks, genesis, tip) == Some(before.value + [tip]))
      && (Walk(blocks, genesis, tip).Some? ==> before.Some?)
  {
    var parent := blocks[tip].header.previousBlockHash;
    if Walk(blocks, genesis, parent).Some? {
      var n: nat :| EndsIn(blocks, genesis, parent, n);
      assert EndsIn(blocks, genesis, tip, n + 1);
    }
  }

  /** A walk that reaches the genesis is not changed by storing another block. */
  lemma {:induction false} WalkKept(blocks: Blocks, genesis: Digest, tip: Digest, hash: Digest, block: Block)
    requires hash !in blocks && Walk(blocks, genesis, tip).Some?
    ensures Walk(blocks[hash := block], genesis, tip) == Walk(blocks, genesis, tip)
    decreases Steps(blocks, genesis, tip)
  {
    var more := blocks[hash := block];
    if tip == genesis {
      assert EndsIn(more, genesis, tip, 0);
    } else {
      StepsDown(blocks, genesis, tip);
      WalkOn(blocks, genesis, tip);
      WalkKept(blocks, genesis, blocks[tip].header.previousBlockHash, hash, block);
      WalkOn(more, genesis, tip);
    }
  }

  /** A walk passes through the walks of all the blocks on its way, each the parent of the next. */
  lemma {:induction false} WalkThrough(blocks: Blocks, genesis: Digest, tip: Digest, i: nat)
    requires Walk(blocks, genesis, tip).Some? && i < |Walk(blocks, genesis, tip).value|
    ensures var path := Walk(blocks, genesis, tip).value;
      && path[i] in blocks && Walk(blocks, genesis, path[i]) == Some(path[..i + 1])
      && (i > 0 ==> path[i] != genesis && blocks[path[i]].header.previousBlockHash == path[i - 1])
    decreases Steps(blocks, genesis, tip)
  {
    var path := Walk(blocks, genesis, tip).value;
    if tip == genesis {
      assert path[..1] == path;
    } else {
      var parent := blocks[tip].header.previousBlockHash;
      StepsDown(blocks, genesis, tip);
      WalkOn(blocks, genesis, tip);
      var front := Walk(blocks, genesis, parent).value;
      if i < |front| {
        WalkThrough(blocks, genesis, parent, i);
        assert path[..i + 1] == front[..i + 1];
      } else {
        assert path[..i + 1] == path;
      }
    }
  }

  /** A path from the genesis: it begins there, comes there no second time, and each block on it names the one before
      as its parent. */
  ghost predicate IsPath(blocks: Blocks, genesis: Digest, tip: Digest, path: seq<Digest>) {
    && path != [] && path[0] == genesis && path[|path| - 1] == tip
    && (forall i :: 0 <= i < |path| ==> path[i] in blocks)
    && (forall i :: 0 < i < |path| ==>
          path[i] != genesis && blocks[path[i]].header.previousBlockHash == path[i - 1])
  }

  /** The walk finds the path exactly if there is one. */
  lemma {:induction false} WalkExactly(blocks: Blocks, genesis: Digest, tip: Digest, path: seq<Digest>)
    ensures Walk(blocks, genesis, tip) == Some(path) <==> IsPath(blocks, genesis, tip, path)
  {
    if IsPath(blocks, genesis, tip, path) {
      PathIsWalked(blocks, genesis, tip, path);
    }
    if Walk(blocks, genesis, tip) == Some(path) {
      WalkIsPath(blocks, genesis, tip);
    }
  }

  lemma {:induction false} WalkIsPath(blocks: Blocks, genesis: Digest, tip: Digest)
    requires Walk(blocks, genesis, tip).Some?
    ensures IsPath(blocks, genesis, tip, Walk(blocks, genesis, tip).value)
  {
    var path := Walk(blocks, genesis, tip).value;
    forall i | 0 <= i < |path|
      ensures path[i] in blocks
    {
      WalkThrough(blocks, genesis, tip, i);
    }
    forall i | 0 < i < |path|
      ensures path[i] != genesis && blocks[path[i]].header.previousBlockHash == path[i - 1]
    {
      WalkThrough(blocks, genesis, tip, i);
    }
    assert path != [] && path[0] == genesis && path[|path| - 1] == tip;
  }

  lemma {:induction false} PathIsWalked(blocks: Blocks, genesis: Digest, tip: Digest, path: seq<Digest>)
    requires IsPath(blocks, genesis, tip, path)
    ensures Walk(blocks, genesis, tip) == Some(path)
    decreases |path|
  {
    var n := |path| - 1;
    if n == 0 {
      assert EndsIn(blocks, genesis, tip, 0);
      assert path == [tip];
    } else {
      PathIsWalked(blocks, genesis, path[n - 1], path[..n]);
      WalkOn(blocks, genesis, tip);
      assert path == path[..n] + [tip];
    }
  }

  // ---------- One call ----------

  lemma AdmittedWellFormed(h: Host, c: Chain, block: Block)
    requires Admit(h, c, block).Ok?
    ensures WellFormed(h, block) && HashOf(h, block) !in c.blocks
    ensures var parent := block.header.previousBlockHash;
      block.header.height > 0 ==>
        && parent in c.blocks && block.header.height == c.blocks[parent].header.height + 1
        && block.header.timestamp >= c.blocks[parent].header.timestamp
  {
    hide Compact.TargetFromBits, Compact.HashValue, Merkle.MerkleRoot, MeetsTarget;
  }

  lemma StoreKeepsGrounded(h: Host, c: Chain, block: Block)
    requires Grounded(h, c) && Admit(h, c, block).Ok?
    ensures Grounded(h, Store(h, c, block))
  {
    hide Admit, WellFormed, HashOf, GenesisBlock, Walk, Replay;
    AdmittedWellFormed(h, c, block);
    var s, hash := Store(h, c, block), HashOf(h, block);
    StoreIs(h, c, block);
    forall k | k in s.blocks && k != s.genesisHash
      ensures Attached(h, s.blocks, k)
    {
      if k != hash {
        assert Attached(h, c.blocks, k);
      }
    }
    WalkKept(c.blocks, c.genesisHash, Tip(c), hash, block);
    PathStored(c.blocks, c.genesisHash, Tip(c));
    ReplayAgrees(h, c.bootstrapUtxos, c.blocks, s.blocks, c.bestChain);
  }

  lemma StoreIs(h: Host, c: Chain, block: Block)
    ensures var s, hash := Store(h, c, block), HashOf(h, block);
      s == c.(blocks := c.blocks[hash := block], headers := c.headers[hash := block.header])
  {
  }

  lemma {:induction false} PathStored(blocks: Blocks, genesis: Digest, tip: Digest)
    requires Walk(blocks, genesis, tip).Some?
    ensures forall k <- Walk(blocks, genesis, tip).value :: k in blocks
    ensures tip in blocks
  {
  }

  /** The path and the replay of a stored block. */
  ghost predicate PathReplays(h: Host, c: Chain, k: Digest) {
    && Walk(c.blocks, c.genesisHash, k).Some?
    && Replay(h, c.bootstrapUtxos, c.blocks, Walk(c.blocks, c.genesisHash, k).value).Ok?
  }

  ghost function PathLength(c: Chain, k: Digest): nat {
    match Walk(c.blocks, c.genesisHash, k)
    case None => 0
    case Some(path) => |path|
  }

  /** What one call of add_block does to a grounded chain, whatever the block: it answers Ok exactly for a block
      that passes the checks and whose path reaches the genesis and replays; it adopts that path exactly if it
      is longer; otherwise best chain, ledger and height stay. The chain stays grounded. */
  lemma AnyBlockEffect(h: Host, c: Chain, block: Block)
    requires Grounded(h, c)
    ensures var r := AddBlock(h, c, block); var hash := HashOf(h, block);
      && Grounded(h, r.chain)
      && r.chain.bootstrapUtxos == c.bootstrapUtxos && r.chain.genesisHash == c.genesisHash
      && r.chain.blocks == (if Admit(h, c, block).Ok? then c.blocks[hash := block] else c.blocks)
      && (Admit(h, c, block).Ok? ==> hash !in c.blocks)
      && (r.result.Ok? <==> Admit(h, c, block).Ok? && PathReplays(h, r.chain, hash))
      && (if r.result.Ok? && PathLength(r.chain, hash) > |c.bestChain| then
            && Some(r.chain.bestChain) == Walk(r.chain.blocks, c.genesisHash, hash)
            && Tip(r.chain) == hash
          else
            && r.chain.bestChain == c.bestChain
            && r.chain.utxoSet == c.utxoSet
            && r.chain.currentHeight == c.currentHeight)
    ensures Admit(h, c, block).Ok? <==> Admissible(h, c.blocks, block)
  {
    AdmitsExactly(h, c, block);
    hide Admit, HashOf, Store, AddBlock, PathReplays, Walk, Replay, StoreGrounded, BestGrounded;
    AddCases(h, c, block);
    if Admit(h, c, block).Ok? {
      AdmittedWellFormed(h, c, block);
      StoreKeepsGrounded(h, c, block);
      StoreIs(h, c, block);
      if PathReplays(h, Store(h, c, block), HashOf(h, block)) {
        AdoptGrounded(h, Store(h, c, block), HashOf(h, block));
      }
      SameReach(h, Store(h, c, block), AddBlock(h, c, block).chain, HashOf(h, block));
    }
  }

  lemma SameReach(h: Host, c: Chain, d: Chain, k: Digest)
    requires d == c.(bestChain := d.bestChain, currentHeight := d.currentHeight, utxoSet := d.utxoSet)
    ensures PathReplays(h, d, k) <==> PathReplays(h, c, k)
    ensures PathLength(d, k) == PathLength(c, k)
  {
    hide Replay, Walk;
  }

  /** The chain that has switched to the path of `hash`. */
  ghost function Switched(h: Host, s: Chain, hash: Digest): Chain
    requires PathReplays(h, s, hash)
  {
    var path := Walk(s.blocks, s.genesisHash, hash).value;
    s.(bestChain := path, currentHeight := s.blocks[hash].header.height,
       utxoSet := Replay(h, s.bootstrapUtxos, s.blocks, path).value)
  }

  lemma AddCases(h: Host, c: Chain, block: Block)
    ensures var r := AddBlock(h, c, block); var s, hash := Store(h, c, block), HashOf(h, block);
      if !Admit(h, c, block).Ok? then r.chain == c && !r.result.Ok?
      else if !PathReplays(h, s, hash) then r.chain == s && !r.result.Ok?
      else r.result.Ok? && r.chain == if PathLength(s, hash) > |s.bestChain| then Switched(h, s, hash) else s
  {
    hide Admit, Walk, Replay, HashOf;
    assert Store(h, c, block).blocks[HashOf(h, block)] == block;
  }

  lemma {:induction false} AdoptGrounded(h: Host, s: Chain, hash: Digest)
    requires Grounded(h, s) && PathReplays(h, s, hash)
    ensures var t := Switched(h, s, hash);
      && Grounded(h, t) && Tip(t) == hash && Some(t.bestChain) == Walk(s.blocks, s.genesisHash, hash)
      && t == s.(bestChain := t.bestChain, currentHeight := t.currentHeight, utxoSet := t.utxoSet)
  {
    hide Replay, GenesisBlock, HashOf, WellFormed;
    PathStored(s.blocks, s.genesisHash, hash);
  }

  /** A call changes no stored block, no path that reaches the genesis, and not whether that path replays. */
  lemma {:induction false} PathsKept(h: Host, c: Chain, block: Block, k: Digest)
    requires Grounded(h, c) && k in c.blocks
    ensures var after := AddBlock(h, c, block).chain;
      && k in after.blocks && after.blocks[k] == c.blocks[k]
      && (Walk(c.blocks, c.genesisHash, k).Some? ==>
            && Walk(after.blocks, after.genesisHash, k) == Walk(c.blocks, c.genesisHash, k)
            && (PathReplays(h, after, k) <==> PathReplays(h, c, k)))
  {
    hide Admit, HashOf, Grounded, AddBlock, Replay;
    AnyBlockEffect(h, c, block);
    var after := AddBlock(h, c, block).chain;
    if after.blocks != c.blocks && Walk(c.blocks, c.genesisHash, k).Some? {
      WalkKept(c.blocks, c.genesisHash, k, HashOf(h, block), block);
      ReplayAgrees(h, c.bootstrapUtxos, c.blocks, after.blocks, Walk(c.blocks, c.genesisHash, k).value);
    }
  }

  // ---------- Runs ----------

  /** A chain after a sequence of submissions. */
  ghost function Run(h: Host, c: Chain, blocks: seq<Block>): Chain {
    if blocks == [] then c else AddBlock(h, Run(h, c, blocks[..|blocks| - 1]), blocks[|blocks| - 1]).chain
  }

  lemma {:induction false} RunFront(h: Host, c: Chain, first: Block, rest: seq<Block>)
    ensures Run(h, c, [first] + rest) == Run(h, AddBlock(h, c, first).chain, rest)
  {
    hide AddBlock;
    var all, n := [first] + rest, |rest|;
    if rest == [] {
      assert all[..0] == [] && all == [first];
    } else {
      RunFront(h, c, first, rest[..n - 1]);
      assert all[..n] == [first] + rest[..n - 1] && all[n] == rest[n - 1];
    }
  }

  /** Every run keeps a grounded chain grounded, and every stored block as it is. */
  lemma {:induction false} RunGrounded(h: Host, c: Chain, blocks: seq<Block>)
    requires Grounded(h, c)
    ensures var r := Run(h, c, blocks);
      && Grounded(h, r) && r.bootstrapUtxos == c.bootstrapUtxos && r.genesisHash == c.genesisHash
      && forall k :: k in c.blocks ==> k in r.blocks && r.blocks[k] == c.blocks[k]
  {
    hide Grounded, AddBlock, Admit, HashOf;
    if blocks != [] {
      RunGrounded(h, c, blocks[..|blocks| - 1]);
      AnyBlockEffect(h, Run(h, c, blocks[..|blocks| - 1]), blocks[|blocks| - 1]);
    }
  }

  /** The hashes of the submissions that add_block answered with Ok, in order. */
  ghost function Accepted(h: Host, c: Chain, blocks: seq<Block>): seq<Digest> {
    if blocks == [] then []
    else
      var before, last := blocks[..|blocks| - 1], blocks[|blocks| - 1];
      Accepted(h, c, before) +
      if AddBlock(h, Run(h, c, before), last).result.Ok? then [HashOf(h, last)] else []
  }

  /** `tip` is the first of the hashes in `order` among those with the longest path. */
  ghost predicate FirstLongest(c: Chain, order: seq<Digest>, tip: Digest) {
    exists i :: 0 <= i < |order| && order[i] == tip
      && (forall j :: 0 <= j < |order| ==> PathLength(c, order[j]) <= PathLength(c, tip))
      && (forall j :: 0 <= j < i ==> PathLength(c, order[j]) < PathLength(c, tip))
  }

  ghost predicate AllReach(h: Host, c: Chain, order: seq<Digest>) {
    forall k <- order :: PathReplays(h, c, k)
  }

  lemma LongestGrows(c: Chain, d: Chain, order: seq<Digest>, tip: Digest, hash: Digest)
    requires FirstLongest(c, order, tip) && forall k <- order :: PathLength(d, k) == PathLength(c, k)
    ensures FirstLongest(d, order, tip)
    ensures FirstLongest(d, order + [hash], if PathLength(d, hash) > PathLength(c, tip) then hash else tip)
  {
    hide PathLength;
    var i :| 0 <= i < |order| && order[i] == tip
      && (forall j :: 0 <= j < |order| ==> PathLength(c, order[j]) <= PathLength(c, tip))
      && (forall j :: 0 <= j < i ==> PathLength(c, order[j]) < PathLength(c, tip));
    assert forall j :: 0 <= j < |order| ==> order[j] in order;
    var next := order + [hash];
    assert next[i] == tip && next[|order|] == hash;
    assert forall j :: 0 <= j < |order| ==> next[j] == order[j];
  }

  /** Paths that reach the genesis keep their length, and stay replayable, in a call. */
  lemma OrderKept(h: Host, c: Chain, block: Block, order: seq<Digest>)
    requires Grounded(h, c) && AllReach(h, c, order)
    ensures var d := AddBlock(h, c, block).chain;
      AllReach(h, d, order) && forall k <- order :: PathLength(d, k) == PathLength(c, k)
  {
    hide Grounded, AddBlock;
    forall k | k in order
      ensures var d := AddBlock(h, c, block).chain; PathReplays(h, d, k) && PathLength(d, k) == PathLength(c, k)
    {
      PathStored(c.blocks, c.genesisHash, k);
      PathsKept(h, c, block, k);
    }
  }

  lemma TipLength(h: Host, c: Chain)
    requires Grounded(h, c)
    ensures PathLength(c, Tip(c)) == |c.bestChain| && PathReplays(h, c, Tip(c)) && Tip(c) in c.blocks
    ensures c.currentHeight == c.blocks[Tip(c)].header.height && HashOf(h, c.blocks[Tip(c)]) == Tip(c)
  {
    hide GenesisBlock, HashOf, WellFormed;
    PathStored(c.blocks, c.genesisHash, Tip(c));
  }

  lemma OrderGrows(h: Host, c: Chain, block: Block, order: seq<Digest>)
    requires Grounded(h, c) && AllReach(h, c, order) && FirstLongest(c, order, Tip(c))
    ensures var r := AddBlock(h, c, block);
      var next := order + if r.result.Ok? then [HashOf(h, block)] else [];
      && Grounded(h, r.chain) && AllReach(h, r.chain, next) && FirstLongest(r.chain, next, Tip(r.chain))
  {
    hide Grounded, AddBlock, FirstLongest, PathLength, PathReplays, Admit, HashOf, Walk, Tip;
    var r := AddBlock(h, c, block);
    AnyBlockEffect(h, c, block);
    OrderKept(h, c, block, order);
    LongestGrows(c, r.chain, order, Tip(c), HashOf(h, block));
    TipLength(h, c);
    assert order + [] == order;
    if !(r.result.Ok? && PathLength(r.chain, HashOf(h, block)) > |c.bestChain|) {
      SameTip(c, r.chain);
    }
  }

  lemma SameTip(c: Chain, d: Chain)
    requires c.bestChain == d.bestChain && c.genesisHash == d.genesisHash
    ensures Tip(c) == Tip(d)
  {
  }

  /** After every run from the genesis, whatever was submitted: every hash that was answered with Ok has a path
      that replays, and the tip is the first of them among those with the longest path. */
  lemma {:induction false} TipIsFirstLongest(h: Host, bootstrap: UtxoSet, blocks: seq<Block>)
    ensures var start := NewChain(h, bootstrap); var c := Run(h, start, blocks);
      var order := [start.genesisHash] + Accepted(h, start, blocks);
      && Grounded(h, c) && AllReach(h, c, order) && FirstLongest(c, order, Tip(c))
  {
    hide Grounded, AddBlock, FirstLongest, AllReach, NewChain, HashOf, Tip;
    var start := NewChain(h, bootstrap);
    if blocks == [] {
      StartOrder(h, bootstrap);
    } else {
      var earlier, last := blocks[..|blocks| - 1], blocks[|blocks| - 1];
      TipIsFirstLongest(h, bootstrap, earlier);
      var before := Run(h, start, earlier);
      var order := [start.genesisHash] + Accepted(h, start, earlier);
      OrderGrows(h, before, last, order);
      assert [start.genesisHash] + Accepted(h, start, blocks)
          == order + if AddBlock(h, before, last).result.Ok? then [HashOf(h, last)] else [];
    }
  }

  lemma StartOrder(h: Host, bootstrap: UtxoSet)
    ensures var c := NewChain(h, bootstrap); var order := [c.genesisHash] + [];
      Grounded(h, c) && AllReach(h, c, order) && FirstLongest(c, order, Tip(c))
  {
    NewChainGrounded(h, bootstrap);
    hide NewChain, Grounded, PathReplays, PathLength;
    var c := NewChain(h, bootstrap);
    TipLength(h, c);
    assert Tip(c) == c.genesisHash;
    assert ([c.genesisHash] + [])[0] == Tip(c);
  }

  // ---------- The best chain ----------

  /** Every block of the best chain names the one before it as its parent; and it is one higher and not older,
      or it is of height 0. */
  lemma BestLinks(h: Host, c: Chain, i: nat)
    requires Grounded(h, c) && i < |c.bestChain|
    ensures c.bestChain[0] == c.genesisHash && c.genesisHash in c.blocks && c.blocks[c.genesisHash].header.height == 0
    ensures c.bestChain[i] in c.blocks && HashOf(h, c.blocks[c.bestChain[i]]) == c.bestChain[i]
    ensures i > 0 ==>
      && c.bestChain[i - 1] in c.blocks && c.bestChain[i] != c.genesisHash
      && var block, parent := c.blocks[c.bestChain[i]], c.blocks[c.bestChain[i - 1]];
         && WellFormed(h, block) && block.header.previousBlockHash == c.bestChain[i - 1]
         && (block.header.height == 0
             || (block.header.height == parent.header.height + 1 && block.header.timestamp >= parent.header.timestamp))
  {
    hide HashOf, WellFormed, Replay, Merkle.MerkleRoot, Walk;
    WalkThrough(c.blocks, c.genesisHash, Tip(c), i);
    if i > 0 {
      assert Attached(h, c.blocks, c.bestChain[i]);
      WalkThrough(c.blocks, c.genesisHash, Tip(c), i - 1);
    }
  }

  /** No block on the chain after the first is of height 0. */
  ghost predicate NoRestart(blocks: Blocks, chain: seq<Digest>) {
    forall i :: 0 < i < |chain| && chain[i] in blocks ==> blocks[chain[i]].header.height > 0
  }

  /** A submitted block of height 0 is accepted only in a build without overflow checks, on a stored parent of
      the last u64 height; otherwise it touches neither best chain nor ledger. */
  lemma HeightZero(h: Host, c: Chain, block: Block)
    requires block.header.height == 0 && c.genesisHash in c.blocks
    ensures var r := AddBlock(h, c, block); var parent := block.header.previousBlockHash;
      || (!h.overflowChecks && parent in c.blocks && c.blocks[parent].header.height == MAX_U64)
      || (!r.result.Ok? && r.chain.bestChain == c.bestChain && r.chain.utxoSet == c.utxoSet
          && r.chain.currentHeight == c.currentHeight)
  {
    var parent := block.header.previousBlockHash;
    if Admit(h, c, block).Ok? {
      ZeroAdmitted(h, c, block);
      hide Admit, Replay;
      var s, hash := Store(h, c, block), HashOf(h, block);
      if parent == hash {
        if Ends(s.blocks, c.genesisHash, hash) {
          StepsDown(s.blocks, c.genesisHash, hash);
        }
      } else if parent !in c.blocks {
        assert Walk(s.blocks, c.genesisHash, parent).None?;
      }
    }
  }

  lemma ZeroAdmitted(h: Host, c: Chain, block: Block)
    requires block.header.height == 0 && Admit(h, c, block).Ok?
    ensures HashOf(h, block) !in c.blocks
    ensures var parent := block.header.previousBlockHash;
      parent in c.blocks ==> !h.overflowChecks && c.blocks[parent].header.height == MAX_U64
  {
    hide Compact.TargetFromBits, Compact.HashValue, Merkle.MerkleRoot;
  }
}

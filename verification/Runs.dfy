/** Runs of `add_block` that store no block of height 0, and what they keep besides. */
module Runs {
  import opened Types
  import opened Ledger
  import opened ChainRules
  import opened Consensus
  import opened AnyRun
  import opened Supply
  import Compact
  import Merkle

  /** No submission of the run stores a block of height 0. */
  ghost predicate RootedRun(h: Host, c: Chain, blocks: seq<Block>) {
    blocks != [] ==>
      var earlier := blocks[..|blocks| - 1];
      RootedRun(h, c, earlier) && Rooted(h, Run(h, c, earlier), blocks[|blocks| - 1])
  }

  lemma {:induction false} RunSound(h: Host, c: Chain, blocks: seq<Block>)
    requires Inv(h, c) && RootedRun(h, c, blocks)
    ensures var r := Run(h, c, blocks);
      Inv(h, r) && r.bootstrapUtxos == c.bootstrapUtxos && r.genesisHash == c.genesisHash
  {
    hide StoreSound, LedgerSound, TipHighest, AddBlock, Rooted;
    if blocks != [] {
      RunSound(h, c, blocks[..|blocks| - 1]);
      AddBlockEffect(h, Run(h, c, blocks[..|blocks| - 1]), blocks[|blocks| - 1]);
    }
  }

  // ---------- Fork choice ----------

  /** `order` lists exactly the stored blocks whose path replays. */
  ghost predicate ListsReplaying(h: Host, c: Chain, order: seq<Digest>)
    requires Linked(c.blocks, c.genesisHash)
  {
    && (forall k <- order :: k in c.blocks)
    && (forall k :: k in c.blocks ==> (k in order <==> Replays(h, c, k)))
  }

  /** In every rooted run from the genesis, the hashes that were answered with Ok are exactly the stored blocks
      whose path replays. (`AnyRun.TipIsFirstLongest` says which of them is the tip.) */
  lemma {:induction false} AcceptedReplay(h: Host, bootstrap: UtxoSet, blocks: seq<Block>)
    requires RootedRun(h, NewChain(h, bootstrap), blocks)
    ensures Inv(h, Run(h, NewChain(h, bootstrap), blocks))
    ensures var start := NewChain(h, bootstrap);
      ListsReplaying(h, Run(h, start, blocks), [start.genesisHash] + Accepted(h, start, blocks))
  {
    hide StoreSound, LedgerSound, TipHighest, AddBlock, ListsReplaying;
    NewChainSound(h, bootstrap);
    var start := NewChain(h, bootstrap);
    RunSound(h, start, blocks);
    if blocks == [] {
      StartLists(h, bootstrap);
    } else {
      var earlier, last := blocks[..|blocks| - 1], blocks[|blocks| - 1];
      AcceptedReplay(h, bootstrap, earlier);
      var before := Run(h, start, earlier);
      var order := [start.genesisHash] + Accepted(h, start, earlier);
      ListsGrows(h, before, last, order);
      assert [start.genesisHash] + Accepted(h, start, blocks)
          == order + if AddBlock(h, before, last).result.Ok? then [HashOf(h, last)] else [];
    }
  }

  lemma StartLists(h: Host, bootstrap: UtxoSet)
    ensures var c := NewChain(h, bootstrap); Inv(h, c) && ListsReplaying(h, c, [c.genesisHash] + [])
  {
    hide StoreSound, LedgerSound, TipHighest, NewChain, Replays;
    NewChainSound(h, bootstrap);
  }

  lemma ListsGrows(h: Host, c: Chain, block: Block, order: seq<Digest>)
    requires Inv(h, c) && Rooted(h, c, block) && ListsReplaying(h, c, order)
    ensures var r := AddBlock(h, c, block);
      Inv(h, r.chain) && ListsReplaying(h, r.chain, order + if r.result.Ok? then [HashOf(h, block)] else [])
  {
    hide StoreSound, LedgerSound, TipHighest, AddBlock, Replays, Rooted;
    AddBlockEffect(h, c, block);
    ReplaysKept(h, c, block);
  }

  lemma TipHeight(h: Host, c: Chain)
    requires Inv(h, c)
    ensures Tip(c) in c.blocks && c.blocks[Tip(c)].header.height == c.currentHeight
    ensures |c.bestChain| == c.currentHeight + 1 && c.bestChain == PathTo(c.blocks, c.genesisHash, Tip(c))
  {
  }

  /** add_block changes neither an old block nor whether its path replays. */
  lemma ReplaysKept(h: Host, c: Chain, block: Block)
    requires Inv(h, c) && Rooted(h, c, block)
    ensures var after := AddBlock(h, c, block).chain;
      && Inv(h, after)
      && forall k :: k in c.blocks ==>
           k in after.blocks && after.blocks[k] == c.blocks[k] && Replays(h, after, k) == Replays(h, c, k)
  {
    AddBlockEffect(h, c, block);
    var after, hash := AddBlock(h, c, block).chain, HashOf(h, block);
    if Admit(h, c, block).Ok? {
      forall k | k in c.blocks
        ensures k in after.blocks && after.blocks[k] == c.blocks[k] && Replays(h, after, k) == Replays(h, c, k)
      {
        ReplaysGrows(h, c, hash, block, k);
      }
    }
  }

  // ---------- Shape ----------

  lemma BestHeight(h: Host, c: Chain, i: nat)
    requires Inv(h, c) && i <= c.currentHeight
    ensures |c.bestChain| == c.currentHeight + 1
    ensures c.bestChain[i] in c.blocks && c.blocks[c.bestChain[i]].header.height == i
    ensures PathTo(c.blocks, c.genesisHash, c.bestChain[i]) == c.bestChain[..i + 1]
  {
    hide StoreSound, TipHighest, Replay;
    TipHeight(h, c);
    PathPrefix(c.blocks, c.genesisHash, Tip(c), i);
  }

  lemma SoundNumbered(h: Host, c: Chain)
    requires Inv(h, c)
    ensures Numbered(c.blocks, c.bestChain) && |c.bestChain| == c.currentHeight + 1
  {
    hide StoreSound, LedgerSound, TipHighest;
    TipHeight(h, c);
    forall i | 0 <= i < |c.bestChain|
      ensures c.bestChain[i] in c.blocks && c.blocks[c.bestChain[i]].header.height == i
    {
      BestHeight(h, c, i);
    }
  }

  lemma BestParent(h: Host, c: Chain, i: nat)
    requires Inv(h, c) && 0 < i <= c.currentHeight
    ensures c.bestChain[i] in c.blocks && c.bestChain[i] != c.genesisHash
    ensures c.blocks[c.bestChain[i]].header.previousBlockHash == c.bestChain[i - 1]
  {
    hide StoreSound, TipHighest, LedgerSound;
    BestHeight(h, c, i);
    var k := c.bestChain[i];
    PathStep(c.blocks, c.genesisHash, k);
    var before := PathTo(c.blocks, c.genesisHash, c.blocks[k].header.previousBlockHash);
    assert before[i - 1] == c.bestChain[..i + 1][i - 1];
  }

  lemma BestReplays(h: Host, c: Chain, i: nat)
    requires Inv(h, c) && i <= c.currentHeight && |c.bestChain| == c.currentHeight + 1
    requires c.bestChain[i] in c.blocks
    ensures Replays(h, c, c.bestChain[i])
  {
    hide StoreSound, TipHighest;
    BestHeight(h, c, i);
    ReplayPrefix(h, c.bootstrapUtxos, c.blocks, c.bestChain, i + 1);
  }

  /** The best chain starts at the genesis; each block names the one before it as its parent, is one
      higher and not older, has the Merkle root of its transactions and meets its target. */
  lemma BestChainShape(h: Host, c: Chain, i: nat)
    requires Inv(h, c) && i <= c.currentHeight
    ensures |c.bestChain| == c.currentHeight + 1 && c.bestChain[0] == c.genesisHash
    ensures c.bestChain[i] in c.blocks && c.blocks[c.bestChain[i]].header.height == i
    ensures i > 0 ==>
      && c.bestChain[i - 1] in c.blocks
      && var block, parent := c.blocks[c.bestChain[i]], c.blocks[c.bestChain[i - 1]];
         && block.header.previousBlockHash == c.bestChain[i - 1]
         && block.header.timestamp >= parent.header.timestamp
         && block.header.merkleRoot == Merkle.MerkleRoot(h, block.transactions)
         && MeetsTarget(h, block.header)
  {
    hide Compact.TargetFromBits, Compact.HashValue, Merkle.MerkleRoot, LedgerSound, TipHighest;
    TipHeight(h, c);
    BestHeight(h, c, i);
    if i > 0 {
      BestParent(h, c, i);
      assert Checked(h, c.blocks, c.bestChain[i]);
      assert CheckBlock(h, c.blocks[c.bestChain[i]], Some(c.blocks[c.bestChain[i - 1]])).Ok?;
    }
  }

  // ---------- Blocks of height 0 ----------

  /** A call of add_block keeps the invariant exactly if it stores no block of height 0. */
  lemma KeptIfRooted(h: Host, c: Chain, block: Block)
    requires Inv(h, c)
    ensures Inv(h, AddBlock(h, c, block).chain) <==> Rooted(h, c, block)
  {
    hide StoreSound, LedgerSound, TipHighest, Walk;
    if Rooted(h, c, block) {
      AddBlockEffect(h, c, block);
    } else {
      AdmittedParent(h, c, block);
      var s, hash := Store(h, c, block), HashOf(h, block);
      assert AddBlock(h, c, block).chain.blocks == s.blocks;
      assert !HasParent(s.blocks, hash);
    }
  }
}

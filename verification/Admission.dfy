/** How a branch overtakes the best chain (src/blockchain.rs), however deep the fork. */
module Admission {
  import opened Types
  import opened Ledger
  import opened ChainRules
  import opened Consensus
  import opened AnyRun
  import Compact
  import Merkle

  /** The store after these blocks have been put under their hashes. */
  function Extended(h: Host, blocks: Blocks, branch: seq<Block>): Blocks {
    if branch == [] then blocks
    else
      var last := branch[|branch| - 1];
      Extended(h, blocks, branch[..|branch| - 1])[h.block(last.header) := last]
  }

  function Hashes(h: Host, branch: seq<Block>): (hashes: seq<Digest>)
    ensures |hashes| == |branch|
  {
    seq(|branch|, i requires 0 <= i < |branch| => HashOf(h, branch[i]))
  }

  /** The block that the `i`-th of the branch follows. */
  function Before(blocks: Blocks, fork: Digest, branch: seq<Block>, i: nat): Block
    requires i < |branch| && fork in blocks
  {
    if i == 0 then blocks[fork] else branch[i - 1]
  }

  /** The branch continues the stored block `fork`: every block names the one before it, is one higher and not older,
      has transactions, their Merkle root and a hash that its target admits; and the hashes are all new. */
  ghost predicate Continues(h: Host, blocks: Blocks, fork: Digest, branch: seq<Block>) {
    && fork in blocks
    && (forall i :: 0 <= i < |branch| ==>
          var header, before := branch[i].header, Before(blocks, fork, branch, i).header;
          && header.previousBlockHash == h.block(before)
          && header.height == before.height + 1 && header.timestamp >= before.timestamp
          && |branch[i].transactions| > 0
          && header.merkleRoot == Merkle.MerkleRoot(h, branch[i].transactions)
          && Compact.HashValue(h.block(header)) <= Compact.TargetFromBits(header.bits)
          && h.block(header) !in blocks)
    && (forall i, j :: 0 <= i < j < |branch| ==> h.block(branch[i].header) != h.block(branch[j].header))
  }

  lemma {:induction false} ExtendedIs(h: Host, blocks: Blocks, branch: seq<Block>, k: Digest)
    ensures var more := Extended(h, blocks, branch);
      && (k in blocks ==> k in more)
      && (k in more ==> k in blocks || exists i :: 0 <= i < |branch| && h.block(branch[i].header) == k)
      && (k in blocks && (forall i :: 0 <= i < |branch| ==> h.block(branch[i].header) != k) ==> more[k] == blocks[k])
  {
    if branch != [] {
      ExtendedIs(h, blocks, branch[..|branch| - 1], k);
    }
  }

  /** The hash that the next block after `n` names. */
  function Named(h: Host, fork: Digest, branch: seq<Block>, n: nat): Digest
    requires n <= |branch|
  {
    if n == 0 then fork else HashOf(h, branch[n - 1])
  }

  lemma ContinuesAt(h: Host, blocks: Blocks, fork: Digest, branch: seq<Block>, n: nat)
    requires Continues(h, blocks, fork, branch) && n < |branch| && Filed(h, blocks)
    ensures fork in blocks && HashOf(h, blocks[fork]) == fork
    ensures branch[n].header.previousBlockHash == Named(h, fork, branch, n)
    ensures HashOf(h, branch[n]) !in blocks
    ensures forall i :: 0 <= i < n ==> HashOf(h, branch[i]) != HashOf(h, branch[n])
    ensures forall i :: 0 <= i < n ==> HashOf(h, branch[i]) != fork
  {
    hide Compact.TargetFromBits, Compact.HashValue, Merkle.MerkleRoot;
  }

  lemma {:induction false} BranchStored(h: Host, blocks: Blocks, fork: Digest, branch: seq<Block>, n: nat)
    requires Continues(h, blocks, fork, branch) && n < |branch| && Filed(h, blocks)
    ensures var more := Extended(h, blocks, branch[..n]); var parent := Named(h, fork, branch, n);
      && fork in blocks
      && HashOf(h, branch[n]) !in more && branch[n].header.previousBlockHash == parent
      && parent in more && more[parent] == Before(blocks, fork, branch, n)
  {
    hide Continues, Filed, Extended;
    ContinuesAt(h, blocks, fork, branch, n);
    ExtendedIs(h, blocks, branch[..n], HashOf(h, branch[n]));
    if n == 0 {
      ExtendedStart(h, blocks, branch);
    } else {
      ExtendedStep(h, blocks, branch, n - 1);
    }
  }

  lemma {:induction false} ExtendedStart(h: Host, blocks: Blocks, branch: seq<Block>)
    ensures Extended(h, blocks, branch[..0]) == blocks
  {
  }

  /** After `n` blocks the next one is admissible. */
  lemma {:induction false} NextAdmissible(h: Host, blocks: Blocks, fork: Digest, branch: seq<Block>, n: nat)
    requires Continues(h, blocks, fork, branch) && n < |branch| && Filed(h, blocks)
    ensures Admissible(h, Extended(h, blocks, branch[..n]), branch[n])
  {
    BranchStored(h, blocks, fork, branch, n);
    hide Compact.TargetFromBits, Compact.HashValue, Merkle.MerkleRoot, Extended, Before, Filed;
  }

  /** What a run over the first `n` blocks of the branch comes to. */
  ghost predicate Reached(h: Host, c: Chain, fork: Digest, base: seq<Digest>, branch: seq<Block>, n: nat, d: Chain)
    requires n <= |branch|
  {
    var path := base + Hashes(h, branch[..n]);
    && Grounded(h, d) && d.genesisHash == c.genesisHash && d.bootstrapUtxos == c.bootstrapUtxos
    && d.blocks == Extended(h, c.blocks, branch[..n])
    && Walk(d.blocks, d.genesisHash, Named(h, fork, branch, n)) == Some(path)
    && d.bestChain == (if n > 0 && |path| > |c.bestChain| then path else c.bestChain)
  }

  /** The path of the branch replays in the store that holds all of it. */
  ghost predicate BranchReplays(h: Host, c: Chain, base: seq<Digest>, branch: seq<Block>) {
    Replay(h, c.bootstrapUtxos, Extended(h, c.blocks, branch), base + Hashes(h, branch)).Ok?
  }

  lemma {:induction false} ExtendedStep(h: Host, blocks: Blocks, branch: seq<Block>, n: nat)
    requires n < |branch|
    ensures Extended(h, blocks, branch[..n + 1]) == Extended(h, blocks, branch[..n])[HashOf(h, branch[n]) := branch[n]]
    ensures Hashes(h, branch[..n + 1]) == Hashes(h, branch[..n]) + [HashOf(h, branch[n])]
    ensures Named(h, branch[n].header.previousBlockHash, branch, n + 1) == HashOf(h, branch[n])
  {
    assert branch[..n + 1][..n] == branch[..n] && branch[..n + 1][n] == branch[n];
  }

  /** Later blocks of the branch change nothing of what the earlier ones have stored. */
  lemma {:induction false} StoredStays(h: Host, blocks: Blocks, fork: Digest, branch: seq<Block>, n: nat, k: Digest)
    requires Continues(h, blocks, fork, branch) && n <= |branch| && Filed(h, blocks)
    requires k in Extended(h, blocks, branch[..n])
    ensures k in Extended(h, blocks, branch) && Extended(h, blocks, branch)[k] == Extended(h, blocks, branch[..n])[k]
    decreases |branch| - n
  {
    hide *;
    if n == |branch| {
      assert branch[..n] == branch;
    } else {
      BranchStored(h, blocks, fork, branch, n);
      ExtendedStep(h, blocks, branch, n);
      StoredStays(h, blocks, fork, branch, n + 1, k);
    }
  }

  /** The first part of the path replays in the store that holds the first part of the branch. */
  lemma {:induction false} FrontReplays(h: Host, c: Chain, fork: Digest, base: seq<Digest>, branch: seq<Block>, n: nat)
    requires Continues(h, c.blocks, fork, branch) && n <= |branch| && Filed(h, c.blocks)
    requires BranchReplays(h, c, base, branch)
    requires forall k <- base + Hashes(h, branch[..n]) :: k in Extended(h, c.blocks, branch[..n])
    ensures Replay(h, c.bootstrapUtxos, Extended(h, c.blocks, branch[..n]), base + Hashes(h, branch[..n])).Ok?
  {
    hide Continues, Filed, Extended, Replay;
    var path, front := base + Hashes(h, branch), base + Hashes(h, branch[..n]);
    assert path[..|front|] == front;
    ReplayPrefix(h, c.bootstrapUtxos, Extended(h, c.blocks, branch), path, |front|);
    forall k | k in front
      ensures k in Extended(h, c.blocks, branch)
        && Extended(h, c.blocks, branch)[k] == Extended(h, c.blocks, branch[..n])[k]
    {
      StoredStays(h, c.blocks, fork, branch, n, k);
    }
    ReplayAgrees(h, c.bootstrapUtxos, Extended(h, c.blocks, branch), Extended(h, c.blocks, branch[..n]), front);
  }

  /** One more block of the branch. */
  lemma BranchStep(h: Host, c: Chain, fork: Digest, base: seq<Digest>, branch: seq<Block>, n: nat, d: Chain)
    requires Grounded(h, c) && Filed(h, c.blocks) && Continues(h, c.blocks, fork, branch) && n < |branch|
    requires BranchReplays(h, c, base, branch) && Reached(h, c, fork, base, branch, n, d)
    ensures var r := AddBlock(h, d, branch[n]); r.result.Ok? && Reached(h, c, fork, base, branch, n + 1, r.chain)
  {
    hide Grounded, Filed, Continues, Extended, BranchReplays, AddBlock, Admit, Admissible, HashOf, Replay, Walk, Hashes;
    var block, hash := branch[n], HashOf(h, branch[n]);
    var r := AddBlock(h, d, block);
    NextAdmissible(h, c.blocks, fork, branch, n);
    BranchStored(h, c.blocks, fork, branch, n);
    ExtendedStep(h, c.blocks, branch, n);
    AnyBlockEffect(h, d, block);
    GenesisStored(h, d);
    WalkKept(d.blocks, d.genesisHash, Named(h, fork, branch, n), hash, block);
    WalkOn(r.chain.blocks, d.genesisHash, hash);
    assert base + Hashes(h, branch[..n + 1]) == base + Hashes(h, branch[..n]) + [hash];
    PathStored(r.chain.blocks, d.genesisHash, hash);
    FrontReplays(h, c, fork, base, branch, n + 1);
  }

  lemma GenesisStored(h: Host, c: Chain)
    requires Grounded(h, c)
    ensures c.genesisHash in c.blocks && Filed(h, c.blocks)
  {
    hide GenesisBlock;
  }

  lemma {:induction false} BranchReached(
      h: Host, c: Chain, fork: Digest, base: seq<Digest>, branch: seq<Block>, n: nat)
    requires Grounded(h, c) && Continues(h, c.blocks, fork, branch) && n <= |branch|
    requires Walk(c.blocks, c.genesisHash, fork) == Some(base) && BranchReplays(h, c, base, branch)
    ensures Reached(h, c, fork, base, branch, n, Run(h, c, branch[..n]))
  {
    hide Grounded, Continues, BranchReplays, Reached, AddBlock, Walk, Run;
    if n == 0 {
      ReachedStart(h, c, fork, base, branch);
    } else {
      BranchReached(h, c, fork, base, branch, n - 1);
      GenesisStored(h, c);
      BranchStep(h, c, fork, base, branch, n - 1, Run(h, c, branch[..n - 1]));
      RunStep(h, c, branch, n);
    }
  }

  lemma {:induction false} ReachedStart(h: Host, c: Chain, fork: Digest, base: seq<Digest>, branch: seq<Block>)
    requires Grounded(h, c) && Walk(c.blocks, c.genesisHash, fork) == Some(base)
    ensures Reached(h, c, fork, base, branch, 0, Run(h, c, branch[..0]))
  {
    hide Grounded, Walk;
    assert branch[..0] == [] && base + Hashes(h, []) == base;
  }

  lemma {:induction false} RunStep(h: Host, c: Chain, branch: seq<Block>, n: nat)
    requires 0 < n <= |branch|
    ensures Run(h, c, branch[..n]) == AddBlock(h, Run(h, c, branch[..n - 1]), branch[n - 1]).chain
  {
    hide AddBlock;
    assert branch[..n][..n - 1] == branch[..n - 1] && branch[..n][n - 1] == branch[n - 1];
  }

  /** Blocks that continue any stored block with a path, submitted in order, are all accepted if the path through them
      replays; and if it is longer than the best chain, it is the best chain afterwards, however deep the fork. */
  lemma {:induction false} BranchWins(h: Host, c: Chain, fork: Digest, base: seq<Digest>, branch: seq<Block>)
    requires Grounded(h, c) && Continues(h, c.blocks, fork, branch) && branch != []
    requires Walk(c.blocks, c.genesisHash, fork) == Some(base) && BranchReplays(h, c, base, branch)
    ensures var d := Run(h, c, branch);
      && d.blocks == Extended(h, c.blocks, branch)
      && d.bestChain ==
           if |base| + |branch| > |c.bestChain| then base + Hashes(h, branch) else c.bestChain
  {
    BranchReached(h, c, fork, base, branch, |branch|);
    assert branch[..|branch|] == branch;
  }
}

/** The law of conservation over chains and runs: what is in the ledger, down to the unit, after any submissions
    at all; and exactly when the schedule bounds it. */
module Supply {
  import opened Types
  import opened Ledger
  import opened Accounting
  import opened Conservation
  import opened ChainRules
  import opened Consensus
  import opened AnyRun
  import Emission
  import Merkle

  /** What leaves and enters a ledger besides subsidies, summed up over a chain. */
  datatype Flow = Flow(overwritten: nat, unclaimed: nat, wraps: nat)

  function ChainFlow(h: Host, bootstrap: UtxoSet, blocks: Blocks, chain: seq<Digest>): Flow {
    if chain == [] then Flow(0, 0, 0)
    else
      var front, last := chain[..|chain| - 1], chain[|chain| - 1];
      var before := Replay(h, bootstrap, blocks, front);
      if !before.Ok? || last !in blocks then Flow(0, 0, 0)
      else
        var earlier, block := ChainFlow(h, bootstrap, blocks, front), blocks[last];
        Flow(earlier.overwritten + BlockDestroyed(h, before.value, block, None, |block.transactions|),
             earlier.unclaimed + Unclaimed(h, before.value, block),
             earlier.wraps + BlockWraps(block, |block.transactions|))
  }

  /** What the heights on a chain entitle its blocks to. */
  function Earned(blocks: Blocks, chain: seq<Digest>): nat {
    if chain == [] then 0
    else
      var last := chain[|chain| - 1];
      Earned(blocks, chain[..|chain| - 1]) + if last in blocks then Subsidy(blocks[last].header.height) else 0
  }

  /** Sums of output values on a chain are what they look like: always in a build with overflow checks,
      otherwise if they stay below 2^64. */
  ghost predicate ExactChain(h: Host, blocks: Blocks, chain: seq<Digest>) {
    forall k <- chain :: k in blocks && ExactBlock(h, blocks[k])
  }

  lemma FlowStep(h: Host, bootstrap: UtxoSet, blocks: Blocks, chain: seq<Digest>)
    requires chain != [] && chain[|chain| - 1] in blocks && Replay(h, bootstrap, blocks, chain).Ok?
    ensures var front, block := chain[..|chain| - 1], blocks[chain[|chain| - 1]];
      var before := Replay(h, bootstrap, blocks, front);
      && before.Ok? && ApplyBlock(h, before.value, block) == Replay(h, bootstrap, blocks, chain)
      && var earlier, flow := ChainFlow(h, bootstrap, blocks, front), ChainFlow(h, bootstrap, blocks, chain);
         && flow.overwritten
            == earlier.overwritten + BlockDestroyed(h, before.value, block, None, |block.transactions|)
         && flow.unclaimed == earlier.unclaimed + Unclaimed(h, before.value, block)
         && flow.wraps == earlier.wraps + BlockWraps(block, |block.transactions|)
  {
    hide ApplyBlock, BlockDestroyed, BlockWraps, Unclaimed;
  }

  lemma {:induction false} ChainConservation(h: Host, bootstrap: UtxoSet, blocks: Blocks, chain: seq<Digest>)
    requires Replay(h, bootstrap, blocks, chain).Ok?
    ensures var flow := ChainFlow(h, bootstrap, blocks, chain);
      && Sum(Replay(h, bootstrap, blocks, chain).value, None) + flow.overwritten + flow.unclaimed
         == Sum(bootstrap, None) + Earned(blocks, chain) + U64_LIMIT * flow.wraps
      && (flow.wraps == 0 <==> ExactChain(h, blocks, chain))
  {
    hide Sum, ApplyBlock, BlockDestroyed, BlockWraps, Unclaimed, ExactBlock, Subsidy;
    if chain != [] {
      LastStored(h, bootstrap, blocks, chain);
      var front, block := chain[..|chain| - 1], blocks[chain[|chain| - 1]];
      FlowStep(h, bootstrap, blocks, chain);
      hide Replay, ChainFlow;
      ChainConservation(h, bootstrap, blocks, front);
      BlockConservation(h, Replay(h, bootstrap, blocks, front).value, block);
      ExactSplit(h, blocks, chain);
    }
  }

  lemma {:induction false} LastStored(h: Host, bootstrap: UtxoSet, blocks: Blocks, chain: seq<Digest>)
    requires chain != [] && Replay(h, bootstrap, blocks, chain).Ok?
    ensures chain[|chain| - 1] in blocks
  {
  }

  lemma ExactSplit(h: Host, blocks: Blocks, chain: seq<Digest>)
    requires chain != [] && chain[|chain| - 1] in blocks
    ensures ExactChain(h, blocks, chain)
       <==> ExactChain(h, blocks, chain[..|chain| - 1]) && ExactBlock(h, blocks[chain[|chain| - 1]])
  {
    hide ExactBlock;
  }

  /** The law of every grounded chain: everything in the ledger, plus what was overwritten, plus what coinbases
      left unclaimed, is the bootstrap value plus what the heights on the best chain entitle to, plus 2^64 for
      every time that a sum has wrapped around; and no sum has wrapped exactly if all blocks are exact. */
  lemma {:induction false} LedgerConservation(h: Host, c: Chain)
    requires Grounded(h, c)
    ensures var flow := ChainFlow(h, c.bootstrapUtxos, c.blocks, c.bestChain);
      && Sum(c.utxoSet, None) + flow.overwritten + flow.unclaimed
         == Sum(c.bootstrapUtxos, None) + Earned(c.blocks, c.bestChain) + U64_LIMIT * flow.wraps
      && (flow.wraps == 0 <==> ExactChain(h, c.blocks, c.bestChain))
  {
    hide StoreGrounded, Replay, ChainFlow, ExactBlock, Sum, Earned, Walk;
    ChainConservation(h, c.bootstrapUtxos, c.blocks, c.bestChain);
  }

  /** No transaction on the chain overwrites anything. */
  ghost predicate NothingOverwritten(h: Host, bootstrap: UtxoSet, blocks: Blocks, chain: seq<Digest>) {
    forall i :: 0 <= i < |chain| && chain[i] in blocks && Replay(h, bootstrap, blocks, chain[..i]).Ok? ==>
      NoneOverwrites(h, Replay(h, bootstrap, blocks, chain[..i]).value, blocks[chain[i]], None,
                     |blocks[chain[i]].transactions|)
  }

  lemma {:induction false} OverwrittenStep(h: Host, bootstrap: UtxoSet, blocks: Blocks, chain: seq<Digest>)
    requires chain != [] && chain[|chain| - 1] in blocks && Replay(h, bootstrap, blocks, chain[..|chain| - 1]).Ok?
    ensures var front, block := chain[..|chain| - 1], blocks[chain[|chain| - 1]];
      NothingOverwritten(h, bootstrap, blocks, chain) <==>
        && NothingOverwritten(h, bootstrap, blocks, front)
        && NoneOverwrites(h, Replay(h, bootstrap, blocks, front).value, block, None, |block.transactions|)
  {
    hide NoneOverwrites, Replay;
    var front := chain[..|chain| - 1];
    assert forall i :: 0 <= i < |front| ==> front[i] == chain[i] && front[..i] == chain[..i];
  }

  /** The overwritten term of the law is zero exactly if no transaction on the chain creates an outpoint that is
      there, unspent and worth something. */
  lemma {:induction false} OverwrittenExactly(h: Host, bootstrap: UtxoSet, blocks: Blocks, chain: seq<Digest>)
    requires Replay(h, bootstrap, blocks, chain).Ok?
    requires forall k <- chain :: k in blocks && forall tx <- blocks[k].transactions :: |tx.outputs| <= U32_LIMIT
    ensures ChainFlow(h, bootstrap, blocks, chain).overwritten == 0 <==> NothingOverwritten(h, bootstrap, blocks, chain)
  {
    if chain != [] {
      LastStored(h, bootstrap, blocks, chain);
      var front, block := chain[..|chain| - 1], blocks[chain[|chain| - 1]];
      assert chain[|chain| - 1] in chain && forall k <- front :: k in chain;
      hide ApplyBlock, BlockDestroyed, BlockWraps, Unclaimed, NoneOverwrites, NothingOverwritten, ApplyFirst;
      FlowStep(h, bootstrap, blocks, chain);
      OverwrittenExactly(h, bootstrap, blocks, front);
      OverwrittenStep(h, bootstrap, blocks, chain);
      AllApplied(h, Replay(h, bootstrap, blocks, front).value, block);
      BlockDestroysExactly(h, Replay(h, bootstrap, blocks, front).value, block, None, |block.transactions|);
    }
  }

  lemma {:induction false} AllApplied(h: Host, utxos: UtxoSet, block: Block)
    requires ApplyBlock(h, utxos, block).Ok?
    ensures ApplyFirst(h, utxos, block, |block.transactions|).Ok?
  {
    hide ApplyFirst, CheckReward;
  }

  // ---------- Heights and the schedule ----------

  /** What the default schedule pays for the first `n` blocks, the genesis included. */
  function Scheduled(n: nat): nat {
    Emission.Issued(Emission.DEFAULT, n)
  }

  lemma ScheduledStep(n: u64)
    ensures Scheduled(0) == 0 && Scheduled(n + 1) == Scheduled(n) + Subsidy(n)
  {
  }

  lemma ScheduledPositive(n: nat)
    ensures Scheduled(n + 1) >= Scheduled(1) == Subsidy(0) > 0
  {
    Emission.IssuedMonotone(Emission.DEFAULT, 1, n + 1);
    assert Emission.Halve(Emission.INITIAL_REWARD_UNITS, 0) == Emission.INITIAL_REWARD_UNITS;
    ScheduledStep(0);
  }

  /** A chain of stored blocks, each as high as its position. */
  ghost predicate Numbered(blocks: Blocks, chain: seq<Digest>) {
    forall i :: 0 <= i < |chain| ==> chain[i] in blocks && blocks[chain[i]].header.height == i
  }

  /** The law of heights up to the position `n` of the best chain. */
  lemma {:induction false} PrefixHeights(h: Host, c: Chain, n: nat)
    requires Grounded(h, c) && n < |c.bestChain| && c.bestChain[n] in c.blocks
    ensures var front, height := c.bestChain[..n + 1], c.blocks[c.bestChain[n]].header.height;
      && height <= n && Earned(c.blocks, front) >= Scheduled(height + 1)
      && (NoRestart(c.blocks, front) <==> n == height)
      && (NoRestart(c.blocks, front) <==> Earned(c.blocks, front) == Scheduled(height + 1))
      && (NoRestart(c.blocks, front) <==> Numbered(c.blocks, front))
  {
    hide Grounded, Scheduled, Subsidy, HashOf, WellFormed;
    var front, height := c.bestChain[..n + 1], c.blocks[c.bestChain[n]].header.height;
    BestLinks(h, c, n);
    assert front[..n] == c.bestChain[..n];
    assert Earned(c.blocks, front) == Earned(c.blocks, c.bestChain[..n]) + Subsidy(height);
    ScheduledStep(height);
    ScheduledPositive(0);
    if n == 0 {
      assert Earned(c.blocks, c.bestChain[..0]) == 0;
    } else {
      PrefixHeights(h, c, n - 1);
      ScheduledPositive(c.blocks[c.bestChain[n - 1]].header.height);
      PrefixGrows(c.blocks, c.bestChain, n);
    }
  }

  lemma PrefixGrows(blocks: Blocks, chain: seq<Digest>, n: nat)
    requires 0 < n < |chain| && chain[n] in blocks
    ensures var height := blocks[chain[n]].header.height;
      && (NoRestart(blocks, chain[..n + 1]) <==> NoRestart(blocks, chain[..n]) && height > 0)
      && (Numbered(blocks, chain[..n + 1]) <==> Numbered(blocks, chain[..n]) && height == n)
  {
    var more, less := chain[..n + 1], chain[..n];
    assert more[n] == chain[n] && forall i :: 0 <= i < n ==> more[i] == less[i];
  }

  /** The best chain has at least as many blocks as its height says, and they are entitled to at least what the
      schedule pays up to that height. Both hold with equality exactly if no block after the genesis is of height
      0, which is to say that every block is as high as its position. */
  lemma HeightLaw(h: Host, c: Chain)
    requires Grounded(h, c)
    ensures var chain := c.bestChain; var numbered := Numbered(c.blocks, chain);
      && |chain| >= c.currentHeight + 1 && Earned(c.blocks, chain) >= Scheduled(c.currentHeight + 1)
      && (numbered <==> NoRestart(c.blocks, chain))
      && (numbered <==> |chain| == c.currentHeight + 1)
      && (numbered <==> Earned(c.blocks, chain) == Scheduled(c.currentHeight + 1))
  {
    hide StoreGrounded, Replay, Walk, Earned, Scheduled, Numbered, NoRestart;
    TipLength(h, c);
    PrefixHeights(h, c, |c.bestChain| - 1);
    assert c.bestChain[..|c.bestChain|] == c.bestChain;
  }

  /** The schedule bounds the ledger, counting what was overwritten and what is unclaimed, if and only if the best
      chain is exact and as long as its height says. */
  lemma {:induction false} ScheduleBoundsExactly(h: Host, c: Chain)
    requires Grounded(h, c)
    ensures var flow := ChainFlow(h, c.bootstrapUtxos, c.blocks, c.bestChain);
      Sum(c.utxoSet, None) + flow.overwritten + flow.unclaimed
        <= Sum(c.bootstrapUtxos, None) + Scheduled(c.currentHeight + 1)
      <==> ExactChain(h, c.blocks, c.bestChain) && |c.bestChain| == c.currentHeight + 1
  {
    hide Grounded, ChainFlow, ExactChain, Sum, Earned, Scheduled, Numbered, NoRestart;
    LedgerConservation(h, c);
    HeightLaw(h, c);
  }

  /** The genesis claims nothing of its subsidy. */
  lemma {:induction false} GenesisUnclaimed(h: Host, bootstrap: UtxoSet, blocks: Blocks, chain: seq<Digest>)
    requires chain != [] && chain[0] in blocks && blocks[chain[0]] == GenesisBlock(h)
    requires Replay(h, bootstrap, blocks, chain).Ok?
    ensures ChainFlow(h, bootstrap, blocks, chain).unclaimed >= Subsidy(0)
  {
    hide ApplyBlock, GenesisBlock, Unclaimed, BlockDestroyed, BlockWraps, Subsidy;
    LastStored(h, bootstrap, blocks, chain);
    FlowStep(h, bootstrap, blocks, chain);
    var n := |chain| - 1;
    if n == 0 {
      assert chain[..0] == [];
      GenesisClaims(h, bootstrap);
    } else {
      assert chain[..n][0] == chain[0];
      GenesisUnclaimed(h, bootstrap, blocks, chain[..n]);
    }
  }

  lemma GenesisClaims(h: Host, utxos: UtxoSet)
    ensures Unclaimed(h, utxos, GenesisBlock(h)) == Subsidy(0)
  {
    var block := GenesisBlock(h);
    GenesisReplays(h, utxos);
    hide Subsidy, Merkle.MerkleRoot, ApplyTransaction;
    assert ValueSum(block.transactions[0].outputs, 1) == 0;
    assert ApplyFirst(h, utxos, block, 0) == Ok(Progress(utxos, 0));
    assert ApplyFirst(h, utxos, block, 1).value.fees == 0;
  }

  /** An exact chain that is as long as its height says holds at most the bootstrap value and the subsidies above
      the genesis. */
  lemma ChainValue(h: Host, c: Chain)
    requires Grounded(h, c) && ExactChain(h, c.blocks, c.bestChain) && |c.bestChain| == c.currentHeight + 1
    ensures Sum(c.utxoSet, None) <= Sum(c.bootstrapUtxos, None) + Subsidies(c.currentHeight)
  {
    ScheduleBoundsExactly(h, c);
    BestLinks(h, c, 0);
    GenesisUnclaimed(h, c.bootstrapUtxos, c.blocks, c.bestChain);
    SubsidiesScheduled(c.currentHeight);
  }

  lemma {:induction false} SubsidiesScheduled(n: nat)
    requires n < U64_LIMIT
    ensures Subsidies(n) + Subsidy(0) == Scheduled(n + 1)
  {
    SubsidiesIssued(n);
    ScheduledStep(0);
  }

  /** After every run, side branches and reorganisations included: the exact law; and so, if the best chain is
      exact and as long as its height says, the ledger holds at most the bootstrap value plus the subsidies of the
      blocks above the genesis, less than the bootstrap value plus the maximum supply. */
  lemma {:induction false} SupplyBound(h: Host, bootstrap: UtxoSet, blocks: seq<Block>)
    ensures var c := Run(h, NewChain(h, bootstrap), blocks); var flow := ChainFlow(h, bootstrap, c.blocks, c.bestChain);
      && Grounded(h, c)
      && Sum(c.utxoSet, None) + flow.overwritten + flow.unclaimed
         == Sum(bootstrap, None) + Earned(c.blocks, c.bestChain) + U64_LIMIT * flow.wraps
      && (ExactChain(h, c.blocks, c.bestChain) && |c.bestChain| == c.currentHeight + 1 ==>
            Sum(c.utxoSet, None) <= Sum(bootstrap, None) + Subsidies(c.currentHeight)
                                  < Sum(bootstrap, None) + Emission.MAX_SUPPLY_UNITS)
  {
    hide Grounded, ExactChain, Sum, Subsidies, Earned, ChainFlow, NewChain, Run;
    NewChainGrounded(h, bootstrap);
    RunGrounded(h, NewChain(h, bootstrap), blocks);
    var c := Run(h, NewChain(h, bootstrap), blocks);
    LedgerConservation(h, c);
    SubsidiesCapped(c.currentHeight);
    if ExactChain(h, c.blocks, c.bestChain) && |c.bestChain| == c.currentHeight + 1 {
      ChainValue(h, c);
    }
  }

  /** So no balance overflows on such a chain, while the bootstrap value leaves room for the maximum supply. */
  lemma BalancesFit(h: Host, c: Chain, script: Bytes)
    requires Grounded(h, c) && Sum(c.bootstrapUtxos, None) + Emission.MAX_SUPPLY_UNITS < U64_LIMIT
    ensures ExactChain(h, c.blocks, c.bestChain) && |c.bestChain| == c.currentHeight + 1 ==>
      Sum(c.utxoSet, Some(script)) < U64_LIMIT
  {
    hide Grounded, ExactChain, Sum, Subsidies;
    if ExactChain(h, c.blocks, c.bestChain) && |c.bestChain| == c.currentHeight + 1 {
      ChainValue(h, c);
      SubsidiesCapped(c.currentHeight);
      OwnedAtMostAll(c.utxoSet, script);
    }
  }
}

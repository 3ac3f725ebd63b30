/** From a template to the tip (src/node.rs, src/mining.rs): the workers of module Mining on the node's own
    template, and the node that submits what they return. */
module Production {
  import opened Types
  import opened ChainRules
  import opened NodeRules
  import opened Pending
  import opened PoolRuns
  import opened Templates
  import Mempool
  import Mining

  /** mine_one_block, with any number of workers: unless it is stopped, what mining returns for the node's
      template meets its target; and if its hash is new, submitting it succeeds if and only if what the coinbase
      is due is not zero and fits in u64, and then it is the new tip. */
  lemma MineOneBlock(h: Host, all: set<Transaction>, s: State, miner: Bytes, bits: u32, poolTime: u64, now: u64,
                     count: nat, states: seq<Mining.State>, i: nat)
    requires Universe(h, all) && Sound(h, all, s) && s.chain.currentHeight < MAX_U64 && 0 < count < U64_LIMIT
    requires var made := CreateBlockTemplate(h, s, miner, bits, poolTime, now);
      made.Ok? ==> Mining.Run(Mining.Job(h, made.value.block, made.value.header, count), states)
    requires i < |states| && states[i].receiver.Finished? && !states[i].stop
    ensures CreateBlockTemplate(h, s, miner, bits, poolTime, now).Ok?
    ensures states[i].receiver.outcome.Mined?
    ensures var block := states[i].receiver.outcome.block;
      var keys := Mempool.SelectForBlock(h, s.pool, 1_000_000, poolTime).chosen;
      && MeetsTarget(h, block.header) && block.transactions != []
      && (block.transactions[0] in all && HashOf(h, block) !in s.chain.blocks ==>
            var r := SubmitBlock(h, s, block);
            && (r.result.Ok? <==> 0 < Due(s, keys) < U64_LIMIT)
            && (r.result.Ok? ==> r.state.chain.bestChain == s.chain.bestChain + [HashOf(h, block)]))
  {
    hide Universe, NodeSound, Present, CreateBlockTemplate, MeetsTarget, SubmitBlock, HashOf, Due, BuiltFrom,
      Mempool.SelectForBlock, Mining.Run;
    TemplateMade(h, all, s, miner, bits, poolTime, now, 0);
    var t := CreateBlockTemplate(h, s, miner, bits, poolTime, now).value;
    var j := Mining.Job(h, t.block, t.header, count);
    Mining.MinedIsSolution(j, states, i);
    var block := states[i].receiver.outcome.block;
    var nonce: u64 :| block == Mining.WithNonce(j, nonce) && Mining.Solves(j, nonce);
    assert block == Mined(t, nonce);
    TemplateAccepted(h, all, s, miner, bits, poolTime, now, nonce);
  }
}

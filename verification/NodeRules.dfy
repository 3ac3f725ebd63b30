/** The node (src/node.rs), as functions on values: submissions to the pool and the chain, block templates, and
    runs of them. */
module NodeRules {
  import opened Types
  import opened Ledger
  import opened ChainRules
  import opened Consensus
  import Mempool
  import Merkle

  datatype State = State(chain: Chain, pool: Mempool.Pool)

  datatype Step = Step(state: State, result: Result<()>)

  // ---------- Submitting a transaction ----------

  /** Some stored block, on whatever branch, contains the transaction. */
  predicate ContainsTransaction(h: Host, c: Chain, txid: Digest) {
    exists k :: k in c.blocks && HasTransaction(h, c.blocks[k], txid)
  }

  predicate HasTransaction(h: Host, block: Block, txid: Digest) {
    exists i :: 0 <= i < |block.transactions| && h.txid(block.transactions[i]) == txid
  }

  /** submit_transaction, as one step. */
  function SubmitTransaction(h: Host, s: State, tx: Transaction, now: u64): Step {
    var txid := h.txid(tx);
    if ContainsTransaction(h, s.chain, txid) then Step(s, Err(AlreadyConfirmed))
    else
      match ValidateTransaction(h, s.chain.utxoSet, tx)
      case Err(e) => Step(s, Err(e))
      case Trap => Step(s, Trap)
      case Ok(fee) =>
        if txid in s.pool.transactions then Step(s, Err(AlreadyPooled))
        else if fee < Mempool.MinimumRequiredFee(s.pool, tx) then Step(s, Err(FeeTooLow))
        else if Mempool.HasConflictingInputs(s.pool, tx) then Step(s, Err(Conflict))
        else
          var added := Mempool.PoolAdd(h, s.pool, tx, fee, now);
          Step(s.(pool := added.pool), added.result)
  }

  // ---------- Submitting a block ----------

  /** submit_block, as one step: only a block that became the tip is cleaned out of the pool. */
  ghost function SubmitBlock(h: Host, s: State, block: Block): Step {
    var added := AddBlock(h, s.chain, block);
    if !added.result.Ok? then Step(s.(chain := added.chain), added.result)
    else if Tip(added.chain) == HashOf(h, block) then
      Step(State(added.chain, Mempool.Cleaned(h, s.pool, block.transactions)), Ok(()))
    else Step(s.(chain := added.chain), Ok(()))
  }

  // ---------- Runs ----------

  /** Node::in_memory, with its bootstrap outputs. */
  ghost function NewNode(h: Host, bootstrap: UtxoSet): State {
    State(NewChain(h, bootstrap), Mempool.Pool(map[], 10000, 1))
  }

  datatype Action = SubmitTx(tx: Transaction, now: u64) | SubmitBlk(block: Block)

  ghost function Perform(h: Host, s: State, a: Action): State {
    match a
    case SubmitTx(tx, now) => SubmitTransaction(h, s, tx, now).state
    case SubmitBlk(block) => SubmitBlock(h, s, block).state
  }

  /** A node after a sequence of submissions. */
  ghost function After(h: Host, s: State, actions: seq<Action>): State {
    if actions == [] then s else Perform(h, After(h, s, actions[..|actions| - 1]), actions[|actions| - 1])
  }

  /** The call left the best chain alone or put one block on its tip. */
  ghost predicate Extends(before: Chain, after: Chain) {
    after.bestChain == before.bestChain || after.bestChain == before.bestChain + [Tip(after)]
  }

  /** No action of the run switches branches. */
  ghost predicate Straight(h: Host, s: State, actions: seq<Action>) {
    actions != [] ==>
      var earlier := actions[..|actions| - 1];
      && Straight(h, s, earlier)
      && Extends(After(h, s, earlier).chain, After(h, s, actions).chain)
  }

  // ---------- Block templates ----------

  datatype BlockTemplate = BlockTemplate(block: Block, header: BlockHeader)

  const BLOCK_SIZE_LIMIT: u64 := 1_000_000

  /** create_coinbase_transaction, which does not look at the height. */
  function Coinbase(reward: u64, miner: Bytes): Transaction {
    NewTransaction([], [TxOutput(reward, miner)])
  }

  /** BlockTemplate::new, with the timestamp it is patched with. */
  function NewTemplate(h: Host, previous: Digest, txs: seq<Transaction>, height: u64, reward: u64, miner: Bytes,
                       bits: u32, timestamp: u64): BlockTemplate
  {
    var all := [Coinbase(reward, miner)] + txs;
    var header := BlockHeader(previous, Merkle.MerkleRoot(h, all), timestamp, bits, 0, height);
    BlockTemplate(Block(header, all), header)
  }

  /** create_block_template. The clock is read twice, once by the pool; `bits` comes from the retargeting. */
  ghost function CreateBlockTemplate(h: Host, s: State, miner: Bytes, bits: u32, poolTime: u64, now: u64)
    : Result<BlockTemplate>
  {
    var c := s.chain;
    if c.bestChain == [] || Tip(c) !in c.blocks then Err(NoBestChain)
    else
      var previous := c.blocks[Tip(c)].header.timestamp;
      var chosen := Mempool.SelectForBlock(h, s.pool, BLOCK_SIZE_LIMIT, poolTime);
      var height :- h.Plain(c.currentHeight + 1);
      Ok(NewTemplate(h, Tip(c), Mempool.Chosen(s.pool, chosen.chosen), height,
                     SaturatingAdd(Subsidy(height), chosen.fees), miner, bits,
                     if now < previous then previous else now))
  }

  /** A template with the nonce that was mined for it. */
  function Mined(t: BlockTemplate, nonce: u64): Block {
    t.block.(header := t.header.(nonce := nonce))
  }
}

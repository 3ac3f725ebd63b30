/** Block templates (src/node.rs): what a template contains, and exactly when a block mined from it is accepted. */
module Templates {
  import opened Types
  import opened Ledger
  import opened Accounting
  import opened ChainRules
  import opened Consensus
  import opened Conservation
  import opened AnyRun
  import opened Supply
  import opened Pending
  import opened NodeRules
  import opened PoolRuns
  import Mempool
  import Sorting
  import Merkle
  import Emission

  /** Any different pending transactions apply to the ledger in any order, each paying what was recorded,
      exactly as long as those fees add up within u64. */
  lemma {:induction false} PendingApplies(h: Host, all: set<Transaction>, s: State, keys: seq<Digest>, height: u64)
    requires Universe(h, all) && Sound(h, all, s)
    requires Sorting.Distinct(keys) && forall k <- keys :: k in s.pool.transactions
    ensures var txs := Mempool.Chosen(s.pool, keys);
      var end := ApplyRest(h, Progress(s.chain.utxoSet, 0), txs, height, |txs|);
      && (end.Ok? <==> Mempool.FeeSum(s.pool, keys) < U64_LIMIT)
      && (end.Ok? ==> end.value.fees == Mempool.FeeSum(s.pool, keys))
  {
    hide Grounded, PoolPriced, Present, Inside, PoolSound, Named, Universe, Sorting.Distinct;
    SoundPool(h, all, s);
    AnyOrderApplies(h, all, s.chain.utxoSet, s.pool, keys, height, |keys|);
    assert keys[..|keys|] == keys;
  }

  /** In the block loop, what follows the coinbase goes through `ApplyRest`. */
  lemma {:induction false} AfterCoinbase(h: Host, utxos: UtxoSet, block: Block, txs: seq<Transaction>, n: nat)
    requires n <= |txs| && |block.transactions| == |txs| + 1 && block.transactions[1..] == txs
    requires ApplyFirst(h, utxos, block, 1).Ok?
    ensures ApplyFirst(h, utxos, block, n + 1)
         == ApplyRest(h, ApplyFirst(h, utxos, block, 1).value, txs, block.header.height, n)
  {
    if n > 0 {
      AfterCoinbase(h, utxos, block, txs, n - 1);
      assert block.transactions[n] == txs[n - 1];
    }
  }

  lemma {:induction false} CoinbaseFirst(h: Host, utxos: UtxoSet, block: Block, reward: u64, miner: Bytes)
    requires block.transactions != [] && block.transactions[0] == Coinbase(reward, miner) && block.header.height > 0
    ensures var first := ApplyFirst(h, utxos, block, 1);
      && (first.Ok? <==> reward > 0)
      && (first.Ok? ==>
            first == Ok(Progress(ApplyTransaction(h, utxos, block.transactions[0], block.header.height), 0)))
  {
    var tx := Coinbase(reward, miner);
    assert ApplyFirst(h, utxos, block, 0) == Ok(Progress(utxos, 0));
    assert tx.outputs[0].value == reward;
  }

  /** The coinbase leaves the pool sound: an outpoint that it overwrites keeps its output. */
  lemma CoinbaseKeepsPool(h: Host, all: set<Transaction>, utxos: UtxoSet, p: Mempool.Pool, tx: Transaction, height: u64)
    requires Universe(h, all) && Named(h, all, utxos) && PoolSound(h, all, utxos, p) && tx in all && tx.inputs == []
    ensures var later := ApplyTransaction(h, utxos, tx, height); Named(h, all, later) && PoolSound(h, all, later, p)
  {
    var later := ApplyTransaction(h, utxos, tx, height);
    ApplyKept(h, all, utxos, tx, height);
    forall k | k in p.transactions
      ensures ValidateTransaction(h, later, p.transactions[k].transaction) == Ok(p.transactions[k].feePaid)
    {
      ValidateFrame(h, utxos, {}, later, p.transactions[k].transaction);
    }
  }

  /** An amount as the saturating sums of a template give it. */
  function Saturated(n: nat): u64 {
    if n < U64_LIMIT then n else MAX_U64
  }

  /** A block of a coinbase and different pending transactions, paying itself the subsidy and their fees,
      applies to the ledger exactly if that reward is not zero and fits in u64. */
  lemma {:induction false} TemplateApplies(
      h: Host, all: set<Transaction>, utxos: UtxoSet, p: Mempool.Pool, keys: seq<Digest>,
                        block: Block, miner: Bytes)
    requires Universe(h, all) && Named(h, all, utxos) && PoolSound(h, all, utxos, p)
    requires Sorting.Distinct(keys) && (forall k <- keys :: k in p.transactions) && block.header.height > 0
    requires var coinbase := Coinbase(Saturated(Mempool.FeeSum(p, keys) + Subsidy(block.header.height)), miner);
      coinbase in all && block.transactions == [coinbase] + Mempool.Chosen(p, keys)
    ensures ApplyBlock(h, utxos, block).Ok? <==>
      0 < Mempool.FeeSum(p, keys) + Subsidy(block.header.height) < U64_LIMIT
  {
    hide PoolSound, Named, Universe, Subsidy, ApplyTransaction, ApplyFirst, ApplyRest, Sorting.Distinct, Mempool.FeeSum;
    var height, txs := block.header.height, Mempool.Chosen(p, keys);
    var owed := Mempool.FeeSum(p, keys) + Subsidy(height);
    var coinbase := Coinbase(Saturated(owed), miner);
    CoinbaseFirst(h, utxos, block, Saturated(owed), miner);
    ApplyFailsEarly(h, utxos, block, 1, |block.transactions|);
    if owed > 0 {
      var after := ApplyTransaction(h, utxos, coinbase, height);
      CoinbaseKeepsPool(h, all, utxos, p, coinbase, height);
      AnyOrderApplies(h, all, after, p, keys, height, |keys|);
      assert keys[..|keys|] == keys;
      AfterCoinbase(h, utxos, block, txs, |txs|);
      CoinbaseTotal(h, Saturated(owed), miner);
    }
  }

  lemma CoinbaseTotal(h: Host, reward: u64, miner: Bytes)
    ensures TotalOutput(h, Coinbase(reward, miner).outputs) == Ok(reward)
  {
    var outputs := Coinbase(reward, miner).outputs;
    assert ValueSum(outputs, 1) == ValueSum(outputs, 0) + reward;
  }

  /** A block on the tip is accepted exactly if it applies to the ledger, and then it is the new tip. */
  lemma OnTip(h: Host, c: Chain, block: Block)
    requires Grounded(h, c) && Admit(h, c, block).Ok? && block.header.previousBlockHash == Tip(c)
    ensures var r := AddBlock(h, c, block);
      && (r.result.Ok? <==> ApplyBlock(h, c.utxoSet, block).Ok?)
      && (r.result.Ok? ==> r.chain.bestChain == c.bestChain + [HashOf(h, block)])
  {
    hide StoreGrounded, AddBlock, ApplyBlock, Admit, HashOf, Walk, Replay, Tip;
    var r, hash := AddBlock(h, c, block), HashOf(h, block);
    AnyBlockEffect(h, c, block);
    TipLength(h, c);
    GenesisKnown(h, c);
    WalkKept(c.blocks, c.genesisHash, Tip(c), hash, block);
    WalkOn(r.chain.blocks, c.genesisHash, hash);
    PathStored(c.blocks, c.genesisHash, Tip(c));
    ReplayExtends(h, c.bootstrapUtxos, r.chain.blocks, c.bestChain, hash);
    ReplayAgrees(h, c.bootstrapUtxos, c.blocks, r.chain.blocks, c.bestChain);
  }

  lemma GenesisKnown(h: Host, c: Chain)
    requires Grounded(h, c)
    ensures c.genesisHash in c.blocks
  {
    hide GenesisBlock, HashOf;
  }

  lemma TemplateAdmitted(h: Host, c: Chain, block: Block)
    requires Grounded(h, c) && c.currentHeight < MAX_U64
    requires block.transactions != [] && block.header.merkleRoot == Merkle.MerkleRoot(h, block.transactions)
    requires block.header.previousBlockHash == Tip(c) && block.header.height == c.currentHeight + 1
    requires Tip(c) in c.blocks && block.header.timestamp >= c.blocks[Tip(c)].header.timestamp
    requires HashOf(h, block) !in c.blocks && MeetsTarget(h, block.header)
    ensures Admit(h, c, block).Ok?
  {
    TipLength(h, c);
    hide Grounded, MeetsTarget, Merkle.MerkleRoot, Tip;
  }

  /** What the coinbase of the next block is due: the next subsidy and the fees of these transactions. */
  function Due(s: State, keys: seq<Digest>): nat
    requires (forall k <- keys :: k in s.pool.transactions) && s.chain.currentHeight < MAX_U64
  {
    Mempool.FeeSum(s.pool, keys) + Subsidy(s.chain.currentHeight + 1)
  }

  /** The block names the tip as its parent, is one higher, dated `now` or with the tip if that is later, and has
      these bits. Its first transaction has no inputs and pays what is due to the miner in one output; the others
      are the pending transactions under `keys`. */
  ghost predicate BuiltFrom(
      h: Host, s: State, keys: seq<Digest>, miner: Bytes, bits: u32, now: u64, block: Block)
    requires (forall k <- keys :: k in s.pool.transactions) && s.chain.currentHeight < MAX_U64
  {
    && block.transactions != []
    && block.transactions[0] == Transaction(1, [], [TxOutput(Saturated(Due(s, keys)), miner)], 0)
    && |block.transactions| == |keys| + 1
    && (forall i :: 0 <= i < |keys| ==> block.transactions[i + 1] == s.pool.transactions[keys[i]].transaction)
    && block.header.merkleRoot == Merkle.MerkleRoot(h, block.transactions)
    && block.header.previousBlockHash == Tip(s.chain)
    && block.header.height == s.chain.currentHeight + 1
    && block.header.bits == bits
    && Tip(s.chain) in s.chain.blocks
    && var previous := s.chain.blocks[Tip(s.chain)].header.timestamp;
       block.header.timestamp == if now < previous then previous else now
  }

  /** In a sound node a template can always be made. */
  lemma TemplateMade(h: Host, all: set<Transaction>, s: State, miner: Bytes, bits: u32,
                     poolTime: u64, now: u64, nonce: u64)
    requires Universe(h, all) && NodeSound(h, all, s) && s.chain.currentHeight < MAX_U64
    ensures var made := CreateBlockTemplate(h, s, miner, bits, poolTime, now);
      var keys := Mempool.SelectForBlock(h, s.pool, 1_000_000, poolTime).chosen;
      && Sorting.Distinct(keys) && made.Ok? && made.value.header == made.value.block.header
      && BuiltFrom(h, s, keys, miner, bits, now, Mined(made.value, nonce))
  {
    hide Grounded, PoolPriced, Present, Named, Inside, Subsidy, NewTemplate, BuiltFrom, Universe,
      Mempool.SelectForBlock, Mempool.FeeSum, Sorting.Distinct;
    TipLength(h, s.chain);
    BestNotEmpty(h, s.chain);
    var chosen := Mempool.SelectForBlock(h, s.pool, 1_000_000, poolTime);
    var previous := s.chain.blocks[Tip(s.chain)].header.timestamp;
    SelectedFees(h, s.pool, poolTime);
    NewTemplateBuilt(h, s, chosen.chosen, miner, bits, now, nonce);
  }

  lemma BestNotEmpty(h: Host, c: Chain)
    requires Grounded(h, c)
    ensures c.bestChain != []
  {
  }

  lemma NewTemplateBuilt(h: Host, s: State, keys: seq<Digest>, miner: Bytes, bits: u32, now: u64, nonce: u64)
    requires (forall k <- keys :: k in s.pool.transactions) && s.chain.currentHeight < MAX_U64
    requires Tip(s.chain) in s.chain.blocks
    ensures var previous := s.chain.blocks[Tip(s.chain)].header.timestamp;
      var timestamp := if now < previous then previous else now;
      var t := NewTemplate(h, Tip(s.chain), Mempool.Chosen(s.pool, keys), s.chain.currentHeight + 1,
                                 Saturated(Due(s, keys)), miner, bits, timestamp);
      t.header == t.block.header && BuiltFrom(h, s, keys, miner, bits, now, Mined(t, nonce))
  {
    hide Due, Saturated, Merkle.MerkleRoot;
  }

  lemma {:induction false} SelectedFees(h: Host, p: Mempool.Pool, poolTime: u64)
    ensures var chosen := Mempool.SelectForBlock(h, p, 1_000_000, poolTime);
      Sorting.Distinct(chosen.chosen) && chosen.fees == Saturated(Mempool.FeeSum(p, chosen.chosen))
  {
    Mempool.SelectionMeaning(h, p, 1_000_000, poolTime);
  }

  /** Such a block, if it meets its target under a hash not seen before, is accepted if and only if its
      reward is not zero and fits in u64, and then is the new tip. */
  lemma BuiltAccepted(h: Host, all: set<Transaction>, s: State, keys: seq<Digest>, miner: Bytes, bits: u32, now: u64,
                      block: Block)
    requires Universe(h, all) && Sound(h, all, s) && s.chain.currentHeight < MAX_U64
    requires Sorting.Distinct(keys) && (forall k <- keys :: k in s.pool.transactions)
    requires BuiltFrom(h, s, keys, miner, bits, now, block) && block.transactions[0] in all
    requires HashOf(h, block) !in s.chain.blocks && MeetsTarget(h, block.header)
    ensures var r := AddBlock(h, s.chain, block);
      && (r.result.Ok? <==> 0 < Due(s, keys) < U64_LIMIT)
      && (r.result.Ok? ==> r.chain.bestChain == s.chain.bestChain + [HashOf(h, block)])
  {
    hide Grounded, PoolPriced, Present, Inside, PoolSound, Named, MeetsTarget, Admit, Subsidy, Merkle.MerkleRoot,
      AddBlock,
      Universe, Coinbase, Saturated, ApplyBlock, BuiltFrom, Mempool.FeeSum, Mempool.Chosen, Sorting.Distinct;
    SoundPool(h, all, s);
    BuiltParts(h, s, keys, miner, bits, now, block);
    TemplateAdmitted(h, s.chain, block);
    TemplateApplies(h, all, s.chain.utxoSet, s.pool, keys, block, miner);
    OnTip(h, s.chain, block);
  }

  lemma BuiltParts(h: Host, s: State, keys: seq<Digest>, miner: Bytes, bits: u32, now: u64, block: Block)
    requires (forall k <- keys :: k in s.pool.transactions) && s.chain.currentHeight < MAX_U64
    requires BuiltFrom(h, s, keys, miner, bits, now, block)
    ensures block.transactions == [Coinbase(Saturated(Due(s, keys)), miner)] + Mempool.Chosen(s.pool, keys)
    ensures block.header.merkleRoot == Merkle.MerkleRoot(h, block.transactions)
    ensures block.header.previousBlockHash == Tip(s.chain) && block.header.height == s.chain.currentHeight + 1
    ensures Tip(s.chain) in s.chain.blocks
      && block.header.timestamp >= s.chain.blocks[Tip(s.chain)].header.timestamp
  {
    hide Due, Saturated, Merkle.MerkleRoot, Tip;
  }

  /** If the block has a fresh hash and meets its target, submitting it succeeds exactly for a reward above
      zero that fits in u64, and then puts it on the tip. */
  ghost predicate Accepts(h: Host, all: set<Transaction>, s: State, block: Block, due: nat) {
    && block.transactions != []
    && (block.transactions[0] in all && HashOf(h, block) !in s.chain.blocks && MeetsTarget(h, block.header) ==>
          var r := SubmitBlock(h, s, block);
          && (r.result.Ok? <==> 0 < due < U64_LIMIT)
          && (r.result.Ok? ==> r.state.chain.bestChain == s.chain.bestChain + [HashOf(h, block)]))
  }

  /** A template that the node hands out, completed with any nonce that meets its target and gives it a
      hash not seen before, is accepted if and only if what its coinbase is due is not zero and fits in u64,
      and then is the new tip. */
  lemma TemplateAccepted(h: Host, all: set<Transaction>, s: State, miner: Bytes, bits: u32,
                         poolTime: u64, now: u64, nonce: u64)
    requires Universe(h, all) && Sound(h, all, s) && s.chain.currentHeight < MAX_U64
    ensures var made := CreateBlockTemplate(h, s, miner, bits, poolTime, now);
      var keys := Mempool.SelectForBlock(h, s.pool, 1_000_000, poolTime).chosen;
      made.Ok? && Accepts(h, all, s, Mined(made.value, nonce), Due(s, keys))
  {
    hide Grounded, PoolPriced, Present, Inside, Named, MeetsTarget, Due, AddBlock,
      Universe, CreateBlockTemplate, BuiltFrom, Mempool.SelectForBlock, Sorting.Distinct;
    TemplateMade(h, all, s, miner, bits, poolTime, now, nonce);
    var block := Mined(CreateBlockTemplate(h, s, miner, bits, poolTime, now).value, nonce);
    var keys := Mempool.SelectForBlock(h, s.pool, 1_000_000, poolTime).chosen;
    BuiltHasCoinbase(h, s, keys, miner, bits, now, block);
    if block.transactions[0] in all && HashOf(h, block) !in s.chain.blocks && MeetsTarget(h, block.header) {
      BuiltAccepted(h, all, s, keys, miner, bits, now, block);
    }
  }

  lemma BuiltHasCoinbase(h: Host, s: State, keys: seq<Digest>, miner: Bytes, bits: u32, now: u64, block: Block)
    requires (forall k <- keys :: k in s.pool.transactions) && s.chain.currentHeight < MAX_U64
    requires BuiltFrom(h, s, keys, miner, bits, now, block)
    ensures block.transactions != []
  {
  }

  // ---------- What the miner gets ----------

  /** What a mined block does to the balance of the miner, or of any script, once it is accepted: it grows by what the
      transactions of the block pay to it, the coinbase paying all that is due to the miner, less what they spend of
      it, less what they overwrite of it. */
  lemma {:induction false} MinerPaid(h: Host, s: State, keys: seq<Digest>, miner: Bytes, bits: u32, now: u64,
                                     block: Block)
    requires Grounded(h, s.chain) && s.chain.currentHeight < MAX_U64 && forall k <- keys :: k in s.pool.transactions
    requires BuiltFrom(h, s, keys, miner, bits, now, block) && Due(s, keys) < U64_LIMIT
    requires var r := AddBlock(h, s.chain, block);
      r.result.Ok? && r.chain.bestChain == s.chain.bestChain + [HashOf(h, block)]
    ensures var before, after := s.chain.utxoSet, AddBlock(h, s.chain, block).chain.utxoSet;
      var who, n := Some(miner), |block.transactions|;
      Sum(after, who) + BlockSpends(h, before, block, who, n) + BlockDestroyed(h, before, block, who, n)
        == Sum(before, who) + Due(s, keys) + TxsPay(block.transactions[1..], who, n - 1)
  {
    hide Grounded, AddBlock, Admit, HashOf, BuiltFrom, Due, ApplyBlock, Sum, TxsPay, BlockSpends, BlockDestroyed, Tip;
    var d := AddBlock(h, s.chain, block).chain;
    AnyBlockEffect(h, s.chain, block);
    NewOnTip(s.chain.bestChain, HashOf(h, block));
    AdoptedLedger(h, s.chain, d, block);
    BuiltParts(h, s, keys, miner, bits, now, block);
    BlockOwner(h, s.chain.utxoSet, block, Some(miner));
    CoinbasePays(block.transactions, Saturated(Due(s, keys)), miner);
  }

  lemma NewOnTip(chain: seq<Digest>, hash: Digest)
    ensures chain + [hash] != chain
  {
    assert |chain + [hash]| == |chain| + 1;
  }

  lemma {:induction false} CoinbasePays(txs: seq<Transaction>, reward: u64, miner: Bytes)
    requires txs != [] && txs[0] == Coinbase(reward, miner)
    ensures TxsPay(txs, Some(miner), |txs|) == reward + TxsPay(txs[1..], Some(miner), |txs| - 1)
  {
    PayFirst(txs, Some(miner), |txs|);
    assert OutputWorth(txs[0].outputs, Some(miner), 1) == OutputWorth(txs[0].outputs, Some(miner), 0) + reward;
  }

  /** create_coinbase_transaction does not look at the height, so a second coinbase of the same reward for the same
      miner has the txid of the first. While that is unspent, a block of the second one alone applies and leaves the
      ledger as valuable as it was. */
  lemma {:induction false} SecondRewardLost(h: Host, utxos: UtxoSet, block: Block, reward: u64, miner: Bytes)
    requires block.transactions == [Coinbase(reward, miner)] && block.header.height > 0
    requires 0 < reward <= Subsidy(block.header.height)
    requires var o := OutPoint(h.txid(Coinbase(reward, miner)), 0);
      o in utxos && utxos[o].output == TxOutput(reward, miner)
    ensures ApplyBlock(h, utxos, block).Ok? && Sum(ApplyBlock(h, utxos, block).value, None) == Sum(utxos, None)
  {
    var tx, height := Coinbase(reward, miner), block.header.height;
    var o, same := OutPoint(h.txid(tx), 0), Utxo(TxOutput(reward, miner), height, true);
    CoinbaseTotal(h, reward, miner);
    CoinbaseFirst(h, utxos, block, reward, miner);
    assert OutputPoint(h.txid(tx), 0) == o;
    assert utxos - Spent(tx.inputs, 0) == utxos;
    assert InsertOutputs(utxos, h.txid(tx), tx, height, 0) == utxos;
    assert ApplyTransaction(h, utxos, tx, height) == utxos[o := same];
    SumInsert(utxos, o, same, None);
    hide Sum, Subsidy, ApplyFirst, TotalOutput;
  }

  // ---------- Templates over runs ----------

  /** Every stored block has exact sums. */
  ghost predicate ExactStore(h: Host, c: Chain) {
    forall k :: k in c.blocks ==> ExactBlock(h, c.blocks[k])
  }

  /** So has every block that the actions submit. In a build with overflow checks this says nothing. */
  ghost predicate ExactActions(h: Host, actions: seq<Action>) {
    forall a <- actions :: a.SubmitBlk? ==> ExactBlock(h, a.block)
  }

  lemma {:induction false} ExactOverRuns(h: Host, all: set<Transaction>, start: State, actions: seq<Action>)
    requires Universe(h, all) && NodeSound(h, all, start) && forall a <- actions :: Within(all, a)
    requires ExactStore(h, start.chain) && ExactActions(h, actions)
    ensures ExactStore(h, After(h, start, actions).chain)
  {
    if actions != [] {
      hide NodeSound, Within, Universe, Perform, ExactBlock;
      var n := |actions| - 1;
      RunSound(h, all, start, actions[..n]);
      ExactOverRuns(h, all, start, actions[..n]);
      PerformKeepsExact(h, all, After(h, start, actions[..n]), actions[n]);
    }
  }

  lemma PerformKeepsExact(h: Host, all: set<Transaction>, s: State, a: Action)
    requires NodeSound(h, all, s)
    requires ExactStore(h, s.chain) && (a.SubmitBlk? ==> ExactBlock(h, a.block))
    ensures ExactStore(h, Perform(h, s, a).chain)
  {
    hide Grounded, AddBlock, Inside, PoolPriced, Named, ExactBlock, Admit, HashOf;
    if a.SubmitBlk? {
      AnyBlockEffect(h, s.chain, a.block);
    }
  }

  lemma StartExact(h: Host, bootstrap: UtxoSet)
    ensures ExactStore(h, NewChain(h, bootstrap))
  {
    var block := GenesisBlock(h);
    assert ValueSum(block.transactions[0].outputs, 1) == 0;
  }

  lemma ExactBest(h: Host, c: Chain)
    requires Grounded(h, c) && ExactStore(h, c)
    ensures ExactChain(h, c.blocks, c.bestChain)
  {
    hide ExactBlock, StoreGrounded;
    PathStored(c.blocks, c.genesisHash, Tip(c));
  }

  /** They do fit if sums on the best chain are exact, it is as long as its height says, and the bootstrap value
      leaves room for the maximum supply: even with the next subsidy on top. */
  lemma RewardFits(h: Host, all: set<Transaction>, s: State, keys: seq<Digest>)
    requires Universe(h, all) && Sound(h, all, s) && s.chain.currentHeight < MAX_U64
    requires ExactChain(h, s.chain.blocks, s.chain.bestChain) && |s.chain.bestChain| == s.chain.currentHeight + 1
    requires Sum(s.chain.bootstrapUtxos, None) + Emission.MAX_SUPPLY_UNITS < U64_LIMIT
    requires Sorting.Distinct(keys) && forall k <- keys :: k in s.pool.transactions
    ensures Due(s, keys) < U64_LIMIT
  {
    hide Grounded, PoolPriced, Present, Inside, PoolSound, Named, Universe, Subsidy, ExactChain, Sorting.Distinct;
    ChainValue(h, s.chain);
    SubsidiesCapped(s.chain.currentHeight + 1);
    SoundPool(h, all, s);
    FeesBounded(h, all, s.chain.utxoSet, s.pool, keys, |keys|);
    assert keys[..|keys|] == keys;
  }

  /** From the start of a node, after every run: a template can be made; and if the ledger has the inputs of all
      pending transactions, as it has after a run that switches no branches, a block mined from the template is
      accepted if and only if what its coinbase is due is not zero and fits in u64. It does fit if the submitted
      blocks were exact, the best chain is as long as its height says, and the bootstrap leaves room for the
      maximum supply. */
  lemma {:induction false} TemplateOverRuns(h: Host, all: set<Transaction>, bootstrap: UtxoSet, actions: seq<Action>,
                         miner: Bytes, bits: u32, poolTime: u64, now: u64, nonce: u64)
    requires Universe(h, all) && Named(h, all, bootstrap) && GenesisBlock(h).transactions[0] in all
    requires forall a <- actions :: Within(all, a)
    requires After(h, NewNode(h, bootstrap), actions).chain.currentHeight < MAX_U64
    ensures var s := After(h, NewNode(h, bootstrap), actions);
      var made := CreateBlockTemplate(h, s, miner, bits, poolTime, now);
      var keys := Mempool.SelectForBlock(h, s.pool, 1_000_000, poolTime).chosen;
      && NodeSound(h, all, s) && made.Ok?
      && (Straight(h, NewNode(h, bootstrap), actions) ==> Present(s.chain.utxoSet, s.pool))
      && (Present(s.chain.utxoSet, s.pool) ==>
            && Accepts(h, all, s, Mined(made.value, nonce), Due(s, keys))
            && (ExactActions(h, actions) && |s.chain.bestChain| == s.chain.currentHeight + 1
                && Sum(bootstrap, None) + Emission.MAX_SUPPLY_UNITS < U64_LIMIT ==>
                  Due(s, keys) < U64_LIMIT))
  {
    hide Universe, Named, Within, NodeSound, Present, Straight, After, CreateBlockTemplate, Accepts, Due,
      Mempool.SelectForBlock, Mempool.FeeSum, ExactActions, ExactStore, ExactChain, Sum, NewNode, GenesisBlock;
    var start := NewNode(h, bootstrap);
    NewNodeSound(h, all, bootstrap);
    StartsAt(h, bootstrap);
    RunSound(h, all, start, actions);
    var s := After(h, start, actions);
    TemplateMade(h, all, s, miner, bits, poolTime, now, nonce);
    if Present(s.chain.utxoSet, s.pool) {
      TemplateAccepted(h, all, s, miner, bits, poolTime, now, nonce);
      if ExactActions(h, actions) && |s.chain.bestChain| == s.chain.currentHeight + 1
          && Sum(bootstrap, None) + Emission.MAX_SUPPLY_UNITS < U64_LIMIT
      {
        StartExact(h, bootstrap);
        ExactOverRuns(h, all, start, actions);
        SoundIsGrounded(h, all, s);
        ExactBest(h, s.chain);
        SelectedFees(h, s.pool, poolTime);
        RewardFits(h, all, s, Mempool.SelectForBlock(h, s.pool, 1_000_000, poolTime).chosen);
      }
    }
  }

  lemma StartsAt(h: Host, bootstrap: UtxoSet)
    ensures NewNode(h, bootstrap).chain == NewChain(h, bootstrap)
    ensures NewNode(h, bootstrap).chain.bootstrapUtxos == bootstrap
  {
  }

  lemma SoundIsGrounded(h: Host, all: set<Transaction>, s: State)
    requires NodeSound(h, all, s)
    ensures Grounded(h, s.chain)
  {
  }
}

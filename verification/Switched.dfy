/** A run that switches branches (src/node.rs): a pending transaction that was valid loses its input to a block of
    the new branch, and stays in the pool. Two blocks on one parent and a third on the second of them are enough, as
    only the transactions of the new tip are cleaned out. */
module Switched {
  import opened Types
  import opened Ledger
  import opened Accounting
  import opened ChainRules
  import opened Consensus
  import opened AnyRun
  import opened NodeRules
  import opened PoolRuns
  import opened Unrooted
  import Overpaid
  import Templates
  import Mempool
  import Compact
  import Merkle

  /** The one bootstrap output. */
  const OUTPUT: OutPoint := OutPoint(9, 0)

  function Bootstrap(): UtxoSet {
    map[OUTPUT := Utxo(TxOutput(MAX_U64, []), 0, false)]
  }

  /** What will be pending, and what spends the same output in a block. */
  function Pending(): Transaction {
    Overpaid.Drain(OUTPUT, [], [])
  }

  function Rival(): Transaction {
    NewTransaction([TxInput(OUTPUT, [], 0)], [TxOutput(MAX_U64 - 2, [])])
  }

  /** The first block of the other branch. */
  function RivalBlock(): Block {
    var coinbase := Transaction(1, [], [TxOutput(REWARD, [])], 2);
    Block(BlockHeader(0, 2, GENESIS_TIMESTAMP, 0x1300_0000, 2, 1), [coinbase, Rival()])
  }

  /** A block on the genesis; the transaction; another block on the genesis, with the rival; and one more on that. */
  function Actions(): seq<Action> {
    [SubmitBlk(Simple(1, 0, 1)), SubmitTx(Pending(), 0), SubmitBlk(RivalBlock()), SubmitBlk(Simple(3, 2, 2))]
  }

  // ---------- The blocks ----------

  lemma RivalChecks(previous: Block)
    requires previous.header.height == 0 && previous.header.nonce == 0 && previous.header.timestamp == GENESIS_TIMESTAMP
    ensures CheckBlock(EasyHost(), RivalBlock(), Some(previous)) == Ok(())
  {
    var h, block := EasyHost(), RivalBlock();
    assert Compact.TargetFromBits(block.header.bits) == U128_LIMIT - 1;
    var ids := Merkle.Txids(h, block.transactions);
    assert ids == [2, 98 + MAX_U64];
    assert Merkle.PairUp(h, ids) == [2];
    assert Merkle.Root(h, [2]) == 2 && Merkle.Root(h, ids) == Merkle.Root(h, [2]);
    hide Compact.TargetFromBits, Compact.HashValue;
  }

  lemma RivalApplies(utxos: UtxoSet)
    requires OUTPUT in utxos && utxos[OUTPUT].output == TxOutput(MAX_U64, []) && OutPoint(2, 0) !in utxos
    requires OutPoint(3, 0) !in utxos
    ensures var r := ApplyBlock(EasyHost(), utxos, RivalBlock());
      r.Ok? && OUTPUT !in r.value && OutPoint(3, 0) !in r.value
  {
    var h, block := EasyHost(), RivalBlock();
    var coinbase, tx := block.transactions[0], Rival();
    var first := ApplyTransaction(h, utxos, coinbase, 1);
    ApplyMeaning(h, utxos, coinbase, 1, OUTPUT);
    ApplyMeaning(h, utxos, coinbase, 1, OutPoint(3, 0));
    ApplyMeaning(h, first, tx, 1, OUTPUT);
    ApplyMeaning(h, first, tx, 1, OutPoint(3, 0));
    assert tx.inputs[0].previousOutput in Spent(tx.inputs, 1);
    RivalValid(first);
    RewardIs(1);
    hide ApplyTransaction, ValidateTransaction, Subsidy;
    assert ValueSum(coinbase.outputs, 1) == ValueSum(coinbase.outputs, 0) + REWARD;
    assert ApplyFirst(h, utxos, block, 0) == Ok(Progress(utxos, 0));
    assert ApplyFirst(h, utxos, block, 1) == Ok(Progress(first, 0));
    assert ApplyFirst(h, utxos, block, 2) == Ok(Progress(ApplyTransaction(h, first, tx, 1), 2));
  }

  lemma RivalValid(utxos: UtxoSet)
    requires OUTPUT in utxos && utxos[OUTPUT].output == TxOutput(MAX_U64, [])
    ensures ValidateTransaction(EasyHost(), utxos, Rival()) == Ok(2)
  {
    var h, tx := EasyHost(), Rival();
    assert RedeemInputs(h, utxos, tx.inputs, 0) == Ok(0);
    assert RedeemInputs(h, utxos, tx.inputs, 1) == Ok(MAX_U64);
    assert ValueSum(tx.outputs, 1) == ValueSum(tx.outputs, 0) + (MAX_U64 - 2);
  }

  // ---------- The start ----------

  lemma StartFacts()
    ensures var c := NewChain(EasyHost(), Bootstrap());
      && Grounded(EasyHost(), c) && c.bestChain == [0] && c.genesisHash == 0 && c.currentHeight == 0
      && c.blocks == map[0 := GenesisBlock(EasyHost())] && c.bootstrapUtxos == Bootstrap()
      && OUTPUT in c.utxoSet && c.utxoSet[OUTPUT].output == TxOutput(MAX_U64, [])
      && forall n: u64 :: 0 < n <= 3 ==> OutPoint(n, 0) !in c.utxoSet
  {
    var h, c := EasyHost(), NewChain(EasyHost(), Bootstrap());
    NewChainGrounded(h, Bootstrap());
    var tx := GenesisBlock(h).transactions[0];
    assert h.txid(tx) == 0 && HashOf(h, GenesisBlock(h)) == 0;
    Overpaid.StartLedger(h, Bootstrap(), OUTPUT);
    GenesisReplays(h, Bootstrap());
    forall n: u64 | 0 < n <= 3
      ensures OutPoint(n, 0) !in c.utxoSet
    {
      ApplyMeaning(h, Bootstrap(), tx, 0, OutPoint(n, 0));
    }
  }

  // ---------- The calls ----------

  lemma FirstAdmitted(c: Chain)
    requires c.blocks == map[0 := GenesisBlock(EasyHost())]
    ensures HashOf(EasyHost(), Simple(1, 0, 1)) == 1 && Simple(1, 0, 1).header.previousBlockHash == 0
    ensures Admit(EasyHost(), c, Simple(1, 0, 1)) == Ok(())
  {
    SimpleChecks(1, 0, 1, Some(GenesisBlock(EasyHost())));
    hide CheckBlock;
  }

  /** The first block is adopted; the output is still there. */
  lemma FirstAdopted(c: Chain)
    requires c == NewChain(EasyHost(), Bootstrap())
    ensures var d := AddBlock(EasyHost(), c, Simple(1, 0, 1)).chain;
      && Grounded(EasyHost(), d) && d.bestChain == [0, 1] && d.genesisHash == 0 && d.bootstrapUtxos == Bootstrap()
      && d.blocks == map[0 := GenesisBlock(EasyHost()), 1 := Simple(1, 0, 1)]
      && OUTPUT in d.utxoSet && d.utxoSet[OUTPUT].output == TxOutput(MAX_U64, [])
  {
    hide NewChain, GenesisBlock, EasyHost, Bootstrap, Simple, AddBlock, Admit, ApplyBlock, HashOf, Grounded;
    var h, block := EasyHost(), Simple(1, 0, 1);
    StartFacts();
    FirstAdmitted(c);
    SimpleApplies(c.utxoSet, 1, 0, 1);
    AnyBlockEffect(h, c, block);
    Templates.OnTip(h, c, block);
    AdoptedLedger(h, c, AddBlock(h, c, block).chain, block);
  }

  /** The rival block is stored; its path is no longer than the best chain. */
  lemma RivalStored(c: Chain)
    requires Grounded(EasyHost(), c) && c.bestChain == [0, 1] && c.genesisHash == 0
    requires c.blocks == map[0 := GenesisBlock(EasyHost()), 1 := Simple(1, 0, 1)]
    ensures var d := AddBlock(EasyHost(), c, RivalBlock()).chain;
      && Grounded(EasyHost(), d) && d.bestChain == [0, 1] && d.genesisHash == 0 && d.bootstrapUtxos == c.bootstrapUtxos
      && d.blocks == c.blocks[2 := RivalBlock()] && Walk(d.blocks, 0, 2) == Some([0, 2])
  {
    var h, block := EasyHost(), RivalBlock();
    RivalChecks(GenesisBlock(h));
    assert HashOf(h, block) == 2 && block.header.previousBlockHash == 0 && Admit(h, c, block) == Ok(());
    hide GenesisBlock, Simple, RivalBlock, AddBlock, Admit, HashOf, Grounded;
    AnyBlockEffect(h, c, block);
    WalkFromGenesis(c.blocks[2 := block], 2);
  }

  lemma {:induction false} WalkFromGenesis(blocks: Blocks, k: Digest)
    requires 0 in blocks && k in blocks && k != 0 && blocks[k].header.previousBlockHash == 0
    ensures Walk(blocks, 0, 0) == Some([0]) && Walk(blocks, 0, k) == Some([0, k])
  {
    assert EndsIn(blocks, 0, 0, 0);
    assert Walk(blocks, 0, 0) == Some([0]);
    WalkOn(blocks, 0, k);
    assert [0] + [k] == [0, k];
  }

  /** The block on it makes the other branch longer, and is adopted; the output is gone. */
  lemma BranchSwitched(c: Chain)
    requires Grounded(EasyHost(), c) && c.bestChain == [0, 1] && c.genesisHash == 0 && c.bootstrapUtxos == Bootstrap()
    requires c.blocks == map[0 := GenesisBlock(EasyHost()), 1 := Simple(1, 0, 1), 2 := RivalBlock()]
    requires Walk(c.blocks, 0, 2) == Some([0, 2])
    ensures var r := AddBlock(EasyHost(), c, Simple(3, 2, 2));
      r.result.Ok? && r.chain.bestChain == [0, 2, 3] && OUTPUT !in r.chain.utxoSet
  {
    hide GenesisBlock, EasyHost, Bootstrap, Simple, RivalBlock, AddBlock, Admit, HashOf, StoreGrounded, Replay, Walk;
    var h, block := EasyHost(), Simple(3, 2, 2);
    LastAdmitted(c);
    BranchReplays(c.blocks[3 := block]);
    AnyBlockEffect(h, c, block);
    WalkKept(c.blocks, 0, 2, 3, block);
    WalkOn(c.blocks[3 := block], 0, 3);
    assert [0, 2] + [3] == [0, 2, 3];
    BestReplay(h, AddBlock(h, c, block).chain);
  }

  lemma LastAdmitted(c: Chain)
    requires 3 !in c.blocks && 2 in c.blocks && c.blocks[2] == RivalBlock()
    ensures HashOf(EasyHost(), Simple(3, 2, 2)) == 3 && Simple(3, 2, 2).header.previousBlockHash == 2
    ensures Admit(EasyHost(), c, Simple(3, 2, 2)) == Ok(())
  {
    SimpleChecks(3, 2, 2, Some(RivalBlock()));
    hide CheckBlock;
  }

  lemma {:induction false} BestReplay(h: Host, c: Chain)
    requires Grounded(h, c)
    ensures Replay(h, c.bootstrapUtxos, c.blocks, c.bestChain) == Ok(c.utxoSet)
  {
  }

  lemma {:induction false} BranchReplays(blocks: Blocks)
    requires 0 in blocks && blocks[0] == GenesisBlock(EasyHost()) && 2 in blocks && blocks[2] == RivalBlock()
    requires 3 in blocks && blocks[3] == Simple(3, 2, 2)
    ensures var r := Replay(EasyHost(), Bootstrap(), blocks, [0, 2, 3]); r.Ok? && OUTPUT !in r.value
  {
    var h := EasyHost();
    var c := NewChain(h, Bootstrap());
    StartFacts();
    BestReplay(h, c);
    hide GenesisBlock, Simple, RivalBlock, ApplyBlock, NewChain, Grounded;
    ReplayAgrees(h, Bootstrap(), c.blocks, blocks, [0]);
    ReplayExtends(h, Bootstrap(), blocks, [0], 2);
    ReplayExtends(h, Bootstrap(), blocks, [0, 2], 3);
    assert [0] + [2] == [0, 2] && [0, 2] + [3] == [0, 2, 3];
    RivalApplies(c.utxoSet);
    var second := ApplyBlock(h, c.utxoSet, RivalBlock()).value;
    SimpleApplies(second, 3, 2, 2);
  }

  // ---------- The run ----------

  lemma {:induction false} AfterFour(h: Host, s: State, a: Action, b: Action, c: Action, d: Action)
    ensures After(h, s, [a, b, c, d]) == Perform(h, Perform(h, Perform(h, Perform(h, s, a), b), c), d)
  {
    hide Perform;
    assert [a, b, c, d][..3] == [a, b, c] && [a, b, c][..2] == [a, b] && [a, b][..1] == [a] && [a][..0] == [];
    assert After(h, s, [a]) == Perform(h, s, a);
    assert After(h, s, [a, b]) == Perform(h, After(h, s, [a]), b);
    assert After(h, s, [a, b, c]) == Perform(h, After(h, s, [a, b]), c);
  }

  /** The pool after a block on the tip that has nothing to do with it, and after one that is not on the tip. */
  lemma PoolAfter(h: Host, s: State, block: Block)
    ensures var t := SubmitBlock(h, s, block).state;
      && t.chain == AddBlock(h, s.chain, block).chain
      && (Tip(t.chain) != HashOf(h, block) ==> t.pool == s.pool)
      && (t.pool == s.pool || t.pool == Mempool.Cleaned(h, s.pool, block.transactions))
  {
    hide AddBlock, Mempool.Cleaned, HashOf, Tip;
  }

  lemma PendingSurvives(p: Mempool.Pool, block: Block)
    requires 101 in p.transactions && p.transactions[101].transaction == Pending()
    requires block == Simple(3, 2, 2)
    ensures var q := Mempool.Cleaned(EasyHost(), p, block.transactions);
      101 in q.transactions && q.transactions[101] == p.transactions[101]
  {
    assert Mempool.ConfirmedInputs(block.transactions) == {};
    assert EasyHost().txid(block.transactions[0]) == 3;
  }

  /** The transaction is taken into the pool, valid; at the end of the run it is still there, and not valid. */
  lemma PendingLosesInput()
    ensures var s := After(EasyHost(), NewNode(EasyHost(), Bootstrap()), Actions());
      && 101 in s.pool.transactions && s.pool.transactions[101].transaction == Pending()
      && s.pool.transactions[101].feePaid == MAX_U64 - 1
      && !ValidateTransaction(EasyHost(), s.chain.utxoSet, Pending()).Ok?
  {
    var h := EasyHost();
    var s0 := NewNode(h, Bootstrap());
    AfterFour(h, s0, SubmitBlk(Simple(1, 0, 1)), SubmitTx(Pending(), 0), SubmitBlk(RivalBlock()), SubmitBlk(Simple(3,
        2, 2)));
    hide After, NewChain, AddBlock, GenesisBlock, RivalBlock, SubmitTransaction, SubmitBlock, Grounded, Bootstrap,
      Replay, Walk;
    FirstAdopted(s0.chain);
    PoolAfter(h, s0, Simple(1, 0, 1));
    var s1 := SubmitBlock(h, s0, Simple(1, 0, 1)).state;
    assert s1.pool.transactions == map[];
    PendingTaken(s1);
    var s2 := SubmitTransaction(h, s1, Pending(), 0).state;
    RivalStored(s2.chain);
    RivalHash();
    PoolAfter(h, s2, RivalBlock());
    var s3 := SubmitBlock(h, s2, RivalBlock()).state;
    BranchSwitched(s3.chain);
    PoolAfter(h, s3, Simple(3, 2, 2));
    PendingSurvives(s3.pool, Simple(3, 2, 2));
    var s4 := SubmitBlock(h, s3, Simple(3, 2, 2)).state;
    InvalidWithoutOutput(s4.chain.utxoSet);
  }

  lemma RivalHash()
    ensures HashOf(EasyHost(), RivalBlock()) == 2
  {
  }

  lemma InvalidWithoutOutput(utxos: UtxoSet)
    requires OUTPUT !in utxos
    ensures !ValidateTransaction(EasyHost(), utxos, Pending()).Ok?
  {
    assert Pending().inputs[0].previousOutput == OUTPUT;
    InvalidWithoutInputs(EasyHost(), utxos, Pending());
  }

  lemma PendingTaken(s: State)
    requires s.chain.blocks == map[0 := GenesisBlock(EasyHost()), 1 := Simple(1, 0, 1)]
    requires OUTPUT in s.chain.utxoSet && s.chain.utxoSet[OUTPUT].output == TxOutput(MAX_U64, [])
    requires s.pool == Mempool.Pool(map[], 10000, 1)
    ensures var t := SubmitTransaction(EasyHost(), s, Pending(), 0).state;
      && t.chain == s.chain && 101 in t.pool.transactions
      && t.pool.transactions[101].transaction == Pending() && t.pool.transactions[101].feePaid == MAX_U64 - 1
  {
    var h := EasyHost();
    assert h.txid(Pending()) == 101;
    assert !HasTransaction(h, GenesisBlock(h), 101) && !HasTransaction(h, Simple(1, 0, 1), 101);
    hide GenesisBlock, Simple, HasTransaction, SubmitTransaction;
    assert !ContainsTransaction(h, s.chain, 101);
    Overpaid.DrainTaken(h, s, OUTPUT, [], [], 0);
  }
}

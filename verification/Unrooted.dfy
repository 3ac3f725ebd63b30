/** A run that stores a block of height 0, and what it does to the height and to the supply (src/blockchain.rs):
    why the theorems of module Runs are about runs that store none. The block arrives before its parent, passes the
    checks of a genesis, and once the parent is there, a chain can be built on it whose heights begin again. */
module Unrooted {
  import opened Types
  import opened Ledger
  import opened Accounting
  import opened ChainRules
  import opened AnyRun
  import Compact
  import Merkle
  import Emission

  /** Hashes that are easy to follow: a block's is its nonce, a coinbase's its lock time, and that of any other
      transaction a hundred and its first value; and a key that is its owner's address. */
  function EasyHost(): Host {
    Host((tx: Transaction) => if tx.inputs == [] || tx.outputs == [] then tx.lockTime else 100 + tx.outputs[0].value,
         (header: BlockHeader) => header.nonce, (a: Digest, b: Digest) => a, (key: Bytes) => Some(key), true)
  }

  const REWARD: u64 := Emission.INITIAL_REWARD_UNITS

  /** A block of one coinbase, under the easiest target there is. */
  function Simple(hash: u64, parent: u64, height: u64): Block {
    var coinbase := Transaction(1, [], [TxOutput(REWARD, [])], hash);
    Block(BlockHeader(parent, hash, GENESIS_TIMESTAMP, 0x1300_0000, hash, height), [coinbase])
  }

  lemma SimpleChecks(hash: u64, parent: u64, height: u64, previous: Option<Block>)
    requires if height == 0 then previous == None
      else previous.Some? && previous.value.header.height == height - 1
           && previous.value.header.nonce == parent && previous.value.header.timestamp == GENESIS_TIMESTAMP
    ensures CheckBlock(EasyHost(), Simple(hash, parent, height), previous) == Ok(())
  {
    var h, block := EasyHost(), Simple(hash, parent, height);
    assert Compact.TargetFromBits(block.header.bits) == U128_LIMIT - 1;
    assert Merkle.Txids(h, block.transactions) == [hash];
    hide Compact.TargetFromBits, Compact.HashValue;
  }

  lemma RewardIs(height: u64)
    requires height <= 2
    ensures Subsidy(height) == REWARD == 10_000_000_000
  {
    assert Emission.Halve(REWARD, 0) == REWARD;
    assert Emission.DEFAULT.halvingInterval == 2_102_400 && height / 2_102_400 == 0;
  }

  /** Such a block adds one output to any ledger that has none under its txid. */
  lemma SimpleApplies(utxos: UtxoSet, hash: u64, parent: u64, height: u64)
    requires height <= 2 && OutPoint(hash, 0) !in utxos
    ensures var next := utxos[OutPoint(hash, 0) := Utxo(TxOutput(REWARD, []), height, true)];
      && ApplyBlock(EasyHost(), utxos, Simple(hash, parent, height)) == Ok(next)
      && Sum(next, None) == Sum(utxos, None) + REWARD
  {
    var h, block := EasyHost(), Simple(hash, parent, height);
    var tx := block.transactions[0];
    assert Spent([], 0) == {} && utxos - {} == utxos;
    assert InsertOutputs(utxos, hash, tx, height, 0) == utxos;
    assert OutputPoint(hash, 0) == OutPoint(hash, 0);
    SumInsert(utxos, OutPoint(hash, 0), Utxo(TxOutput(REWARD, []), height, true), None);
    assert ApplyTransaction(h, utxos, tx, height) == InsertOutputs(utxos, hash, tx, height, 1);
    assert ApplyFirst(h, utxos, block, 0) == Ok(Progress(utxos, 0));
    assert ApplyFirst(h, utxos, block, 1) == Ok(Progress(ApplyTransaction(h, utxos, tx, height), 0));
    assert ValueSum(tx.outputs, 1) == ValueSum(tx.outputs, 0) + REWARD;
    RewardIs(height);
  }

  function LedgerOf(n: u64): UtxoSet {
    if n == 0 then map[OutPoint(0, 0) := Utxo(TxOutput(0, GENESIS_SCRIPT), 0, true)]
    else LedgerOf(n - 1)[OutPoint(n, 0) := Utxo(TxOutput(REWARD, []), if n == 2 then 0 else 1, true)]
  }

  /** The block that is stored under each of four hashes: the genesis; a block on it; a block of height 0 on
      that one; and a block of height 1 on the latter. */
  function BlockAt(n: u64): Block {
    match n
    case 1 => Simple(1, 0, 1)
    case 2 => Simple(2, 1, 0)
    case 3 => Simple(3, 2, 1)
    case _ => GenesisBlock(EasyHost())
  }

  lemma GenesisLedger()
    ensures HashOf(EasyHost(), GenesisBlock(EasyHost())) == 0
    ensures ApplyBlock(EasyHost(), map[], GenesisBlock(EasyHost())) == Ok(LedgerOf(0)) && Sum(LedgerOf(0), None) == 0
  {
    var h := EasyHost();
    var tx := GenesisBlock(h).transactions[0];
    GenesisReplays(h, map[]);
    assert Spent([], 0) == {};
    var none: UtxoSet := map[];
    assert none - {} == none;
    assert InsertOutputs(none, 0, tx, 0, 0) == none;
    assert OutputPoint(0, 0) == OutPoint(0, 0);
    assert ApplyTransaction(h, none, tx, 0) == InsertOutputs(none, 0, tx, 0, 1) == LedgerOf(0);
    SumInsert(none, OutPoint(0, 0), Utxo(TxOutput(0, GENESIS_SCRIPT), 0, true), None);
  }

  lemma LedgerStep(n: u64)
    requires 0 < n <= 3 && forall o :: o in LedgerOf(n - 1) ==> o.txid < n
    ensures ApplyBlock(EasyHost(), LedgerOf(n - 1), BlockAt(n)) == Ok(LedgerOf(n))
    ensures Sum(LedgerOf(n), None) == Sum(LedgerOf(n - 1), None) + REWARD
    ensures forall o :: o in LedgerOf(n) ==> o.txid <= n
  {
    var height := if n == 2 then 0 else 1;
    assert BlockAt(n) == Simple(n, n - 1, height);
    hide ApplyBlock, Sum, BlockAt, Simple;
    SimpleApplies(LedgerOf(n - 1), n, n - 1, height);
  }

  lemma {:induction false} LedgerKeys(n: u64)
    requires n <= 3
    ensures forall o :: o in LedgerOf(n) ==> o.txid <= n
    ensures Sum(LedgerOf(n), None) == n * REWARD
    ensures n > 0 ==> ApplyBlock(EasyHost(), LedgerOf(n - 1), BlockAt(n)) == Ok(LedgerOf(n))
  {
    hide ApplyBlock, Sum, BlockAt;
    if n == 0 {
      GenesisLedger();
    } else {
      LedgerKeys(n - 1);
      LedgerStep(n);
    }
  }

  function Hashes(n: u64): seq<Digest> {
    if n == 0 then [0] else Hashes(n - 1) + [n]
  }

  /** In a store that has them, these blocks replay one on the other, and the walk passes through all of them. */
  lemma {:induction false} Replays(blocks: Blocks, n: u64)
    requires n <= 3 && forall i: u64 :: i <= n ==> i in blocks && blocks[i] == BlockAt(i)
    ensures Replay(EasyHost(), map[], blocks, Hashes(n)) == Ok(LedgerOf(n))
    ensures EndsIn(blocks, 0, n, n) && Walk(blocks, 0, n) == Some(Hashes(n))
  {
    hide ApplyBlock, LedgerOf;
    if n == 0 {
      GenesisLedger();
      assert Hashes(0)[..0] == [];
    } else {
      Replays(blocks, n - 1);
      LedgerKeys(n);
      assert Hashes(n)[..|Hashes(n)| - 1] == Hashes(n - 1);
      assert blocks[n].header.previousBlockHash == n - 1;
    }
  }

  // ---------- The run ----------

  function Start(): Chain {
    NewChain(EasyHost(), map[])
  }

  /** The submissions: the block of height 0 first, while its parent is unknown. */
  function Submissions(): seq<Block> {
    [BlockAt(2), BlockAt(1), BlockAt(3)]
  }

  lemma {:induction false} RunOfThree(h: Host, c: Chain, a: Block, b: Block, d: Block)
    ensures Run(h, c, [a, b, d])
         == AddBlock(h, AddBlock(h, AddBlock(h, c, a).chain, b).chain, d).chain
  {
    hide AddBlock;
    assert [a, b, d][..2] == [a, b] && [a, b][..1] == [a] && [a][..0] == [];
    assert Run(h, c, [a]) == AddBlock(h, c, a).chain;
    assert Run(h, c, [a, b]) == AddBlock(h, Run(h, c, [a]), b).chain;
  }

  lemma SimpleAdmitted(c: Chain, n: u64)
    requires 1 <= n <= 3 && n !in c.blocks
    requires n == 2 ==> 1 !in c.blocks
    requires n != 2 ==> n - 1 in c.blocks && c.blocks[n - 1] == BlockAt(n - 1)
    ensures HashOf(EasyHost(), BlockAt(n)) == n && Admit(EasyHost(), c, BlockAt(n)) == Ok(())
  {
    var height := if n == 2 then 0 else 1;
    assert BlockAt(n) == Simple(n, n - 1, height);
    SimpleChecks(n, n - 1, height, Lookup(c.blocks, n - 1));
    hide CheckBlock;
  }

  /** A block that is not of height 0, on those before it, makes the chain longer and is adopted. */
  lemma {:induction false} CallAdopts(c: Chain, n: u64)
    requires (n == 1 || n == 3) && n !in c.blocks && |c.bestChain| <= n
    requires forall i: u64 :: i < n ==> i in c.blocks && c.blocks[i] == BlockAt(i)
    requires c.genesisHash == 0 && c.bootstrapUtxos == map[]
    ensures var stored := Store(EasyHost(), c, BlockAt(n));
      AddBlock(EasyHost(), c, BlockAt(n))
        == Added(stored.(bestChain := Hashes(n), currentHeight := 1, utxoSet := LedgerOf(n)), Ok(()))
  {
    assert BlockAt(n).header.height == 1;
    hide Admit, BlockAt, HashOf, Replay, Walk, LedgerOf, EasyHost;
    SimpleAdmitted(c, n);
    Replays(c.blocks[n := BlockAt(n)], n);
    HashesLength(n);
  }

  lemma {:induction false} HashesLength(n: u64)
    ensures |Hashes(n)| == n + 1
  {
    if n > 0 {
      HashesLength(n - 1);
    }
  }

  /** The block of height 0 is stored, and nothing else happens. */
  lemma CallStores(c: Chain)
    requires c.blocks.Keys == {0} && c.genesisHash == 0
    ensures AddBlock(EasyHost(), c, BlockAt(2)).chain == Store(EasyHost(), c, BlockAt(2))
  {
    assert BlockAt(2).header.previousBlockHash == 1;
    hide Admit, BlockAt, HashOf, EasyHost;
    SimpleAdmitted(c, 2);
    assert Walk(c.blocks[2 := BlockAt(2)], 0, 1).None?;
  }

  lemma StartIs()
    ensures var c := Start();
      && c.blocks == map[0 := BlockAt(0)] && c.bestChain == [0] && c.genesisHash == 0 && c.bootstrapUtxos == map[]
  {
    GenesisLedger();
    hide GenesisBlock, EasyHost, Replay;
  }

  lemma StoredIs(c: Chain, n: u64)
    requires HashOf(EasyHost(), BlockAt(n)) == n
    ensures Store(EasyHost(), c, BlockAt(n)).blocks == c.blocks[n := BlockAt(n)]
    ensures Store(EasyHost(), c, BlockAt(n))
         == c.(blocks := Store(EasyHost(), c, BlockAt(n)).blocks, headers := Store(EasyHost(), c, BlockAt(n)).headers)
  {
  }

  lemma AllCalls()
    ensures var c := Run(EasyHost(), Start(), Submissions());
      c.bestChain == Hashes(3) && c.currentHeight == 1 && c.utxoSet == LedgerOf(3)
  {
    hide Run, AddBlock, BlockAt, EasyHost, NewChain, Start, Hashes, LedgerOf, Store, HashOf, Admit;
    var h := EasyHost();
    RunOfThree(h, Start(), BlockAt(2), BlockAt(1), BlockAt(3));
    StartIs();
    SimpleAdmitted(Start(), 2);
    CallStores(Start());
    StoredIs(Start(), 2);
    var first := Store(h, Start(), BlockAt(2));
    SimpleAdmitted(first, 1);
    CallAdopts(first, 1);
    StoredIs(first, 1);
    var second := AddBlock(h, first, BlockAt(1)).chain;
    HashesLength(1);
    CallAdopts(second, 3);
  }

  lemma Numbers()
    ensures Hashes(3) == [0, 1, 2, 3]
    ensures Subsidies(1) == REWARD > 0 && Sum(map[], None) == 0
  {
    assert Hashes(0) == [0] && Hashes(1) == [0, 1] && Hashes(2) == [0, 1, 2];
    assert Emission.Halve(REWARD, 0) == REWARD && Subsidies(0) == 0;
    assert Subsidy(1) == REWARD;
  }

  /** A run that stores a block of height 0 ends with a best chain of four blocks under a height of 1, and with
      three subsidies in a ledger that should hold one. */
  lemma HeightsRestart()
    ensures var c := Run(EasyHost(), Start(), Submissions());
      && c.bestChain == [0, 1, 2, 3] && c.currentHeight == 1
      && Sum(c.utxoSet, None) == 3 * REWARD > Sum(map[], None) + Subsidies(1)
  {
    hide Run, Sum, Subsidies, Hashes, LedgerOf, EasyHost, Start;
    AllCalls();
    LedgerKeys(3);
    Numbers();
  }
}

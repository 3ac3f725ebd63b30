/** When pending transactions are valid, in every run of a node (src/node.rs). */
module PoolRuns {
  import opened Arithmetic
  import opened Types
  import opened Ledger
  import opened Accounting
  import opened ChainRules
  import opened Consensus
  import opened AnyRun
  import opened Pending
  import opened NodeRules
  import Mempool

  // ---------- Prices ----------

  ghost predicate HasInputs(utxos: UtxoSet, tx: Transaction) {
    forall i :: 0 <= i < |tx.inputs| ==> tx.inputs[i].previousOutput in utxos
  }

  /** In every ledger that has its inputs, the transaction is valid with this fee. */
  ghost predicate Priced(h: Host, all: set<Transaction>, tx: Transaction, fee: u64) {
    forall utxos: UtxoSet {:trigger Named(h, all, utxos)} ::
      Named(h, all, utxos) && HasInputs(utxos, tx) ==> ValidateTransaction(h, utxos, tx) == Ok(fee)
  }

  /** Validity in one ledger is validity in all ledgers that have the inputs: an outpoint names its output. */
  lemma ValidIsPriced(h: Host, all: set<Transaction>, utxos: UtxoSet, tx: Transaction)
    requires Universe(h, all) && Named(h, all, utxos) && ValidateTransaction(h, utxos, tx).Ok?
    ensures HasInputs(utxos, tx) && Priced(h, all, tx, ValidateTransaction(h, utxos, tx).value)
  {
    RedeemedValue(h, utxos, tx.inputs, |tx.inputs|);
    forall later: UtxoSet | Named(h, all, later) && HasInputs(later, tx)
      ensures ValidateTransaction(h, later, tx) == ValidateTransaction(h, utxos, tx)
    {
      SameInputs(h, all, utxos, later, tx);
    }
  }

  lemma SameInputs(h: Host, all: set<Transaction>, utxos: UtxoSet, later: UtxoSet, tx: Transaction)
    requires Universe(h, all) && Named(h, all, utxos) && Named(h, all, later)
    requires HasInputs(utxos, tx) && HasInputs(later, tx) && ValidateTransaction(h, utxos, tx).Ok?
    ensures ValidateTransaction(h, later, tx) == ValidateTransaction(h, utxos, tx)
  {
    forall i | 0 <= i < |tx.inputs|
      ensures later[tx.inputs[i].previousOutput].output == utxos[tx.inputs[i].previousOutput].output
    {
      var o := tx.inputs[i].previousOutput;
      assert Names(h, all, o, utxos[o].output) && Names(h, all, o, later[o].output);
      OutpointDetermines(h, all, o, utxos[o].output, later[o].output);
    }
    hide Universe, Named;
    RedeemFrame(h, utxos, later, tx.inputs, |tx.inputs|);
  }

  lemma InvalidWithoutInputs(h: Host, utxos: UtxoSet, tx: Transaction)
    requires !HasInputs(utxos, tx)
    ensures !ValidateTransaction(h, utxos, tx).Ok?
  {
    if RedeemInputs(h, utxos, tx.inputs, |tx.inputs|).Ok? {
      RedeemedValue(h, utxos, tx.inputs, |tx.inputs|);
    }
  }

  /** Every pending transaction spends something, has its price recorded, and shares no input with another. */
  ghost predicate PoolPriced(h: Host, all: set<Transaction>, p: Mempool.Pool) {
    && Mempool.Keyed(h, p.transactions)
    && (forall k :: k in p.transactions ==>
          && p.transactions[k].transaction in all && p.transactions[k].transaction.inputs != []
          && Priced(h, all, p.transactions[k].transaction, p.transactions[k].feePaid))
    && (forall j, k :: j in p.transactions && k in p.transactions && j != k ==>
          Mempool.InputPoints(p.transactions[j].transaction) !! Mempool.InputPoints(p.transactions[k].transaction))
  }

  /** The ledger has the inputs of every pending transaction. */
  ghost predicate Present(utxos: UtxoSet, p: Mempool.Pool) {
    forall k :: k in p.transactions ==> HasInputs(utxos, p.transactions[k].transaction)
  }

  /** The two together are what it takes for the pool to be valid against the ledger. */
  lemma PricedAndPresent(h: Host, all: set<Transaction>, utxos: UtxoSet, p: Mempool.Pool)
    requires Universe(h, all) && Named(h, all, utxos)
    ensures PoolSound(h, all, utxos, p) <==> PoolPriced(h, all, p) && Present(utxos, p)
  {
    hide Universe, Named, HasInputs, Mempool.InputPoints, Mempool.Keyed, ValidateTransaction;
    if PoolSound(h, all, utxos, p) {
      forall k | k in p.transactions
        ensures Priced(h, all, p.transactions[k].transaction, p.transactions[k].feePaid)
        ensures HasInputs(utxos, p.transactions[k].transaction)
      {
        ValidIsPriced(h, all, utxos, p.transactions[k].transaction);
      }
    }
  }

  // ---------- Ledgers ----------

  /** Every transaction of every stored block is in the universe. */
  ghost predicate Inside(all: set<Transaction>, blocks: Blocks) {
    forall k :: k in blocks ==> forall t <- blocks[k].transactions :: t in all
  }

  /** Every chain of such blocks leaves a ledger of named outputs. */
  lemma {:induction false} ReplayNamed(
      h: Host, all: set<Transaction>, bootstrap: UtxoSet, blocks: Blocks, chain: seq<Digest>)
    requires Universe(h, all) && Named(h, all, bootstrap) && Inside(all, blocks)
    requires Replay(h, bootstrap, blocks, chain).Ok?
    ensures Named(h, all, Replay(h, bootstrap, blocks, chain).value)
  {
    if chain != [] {
      hide Universe, Named, ApplyFirst;
      var front, block := chain[..|chain| - 1], blocks[chain[|chain| - 1]];
      ReplayNamed(h, all, bootstrap, blocks, front);
      BlockKept(h, all, Replay(h, bootstrap, blocks, front).value, block, |block.transactions|);
    }
  }

  // ---------- The invariant ----------

  /** What every run keeps. */
  ghost predicate NodeSound(h: Host, all: set<Transaction>, s: State) {
    && Grounded(h, s.chain)
    && s.pool.minFeeRate > 0
    && Named(h, all, s.chain.bootstrapUtxos) && Inside(all, s.chain.blocks)
    && PoolPriced(h, all, s.pool)
  }

  /** What the runs that switch no branches keep besides, and what a template needs. */
  ghost predicate Sound(h: Host, all: set<Transaction>, s: State) {
    NodeSound(h, all, s) && Present(s.chain.utxoSet, s.pool)
  }

  lemma LedgerNamed(h: Host, all: set<Transaction>, s: State)
    requires Universe(h, all) && NodeSound(h, all, s)
    ensures Named(h, all, s.chain.utxoSet)
  {
    hide Universe, Named, Inside, PoolPriced, StoreGrounded, Replay, Walk;
    ReplayNamed(h, all, s.chain.bootstrapUtxos, s.chain.blocks, s.chain.bestChain);
  }

  lemma SoundPool(h: Host, all: set<Transaction>, s: State)
    requires Universe(h, all) && Sound(h, all, s)
    ensures Named(h, all, s.chain.utxoSet) && PoolSound(h, all, s.chain.utxoSet, s.pool)
  {
    hide Universe, Named, Inside, PoolPriced, Present, Grounded, PoolSound;
    LedgerNamed(h, all, s);
    PricedAndPresent(h, all, s.chain.utxoSet, s.pool);
  }

  ghost predicate Within(all: set<Transaction>, a: Action) {
    match a
    case SubmitTx(tx, _) => tx in all
    case SubmitBlk(block) => forall t <- block.transactions :: t in all
  }

  // ---------- Submitting a transaction ----------

  /** A transaction without inputs pays no fee, and every transaction has to pay some. */
  lemma PayingHasInputs(h: Host, utxos: UtxoSet, p: Mempool.Pool, tx: Transaction)
    requires p.minFeeRate > 0 && ValidateTransaction(h, utxos, tx).Ok?
    requires ValidateTransaction(h, utxos, tx).value >= Mempool.MinimumRequiredFee(p, tx)
    ensures tx.inputs != []
  {
    var size, rate := Mempool.ChargedSize(tx), Mempool.StandardFeeRate(p);
    assert size >= 1 && rate >= 1;
    hide Mempool.ChargedSize, Mempool.StandardFeeRate, CheckTransaction;
    MulMonotone(1, size, rate);
  }

  /** A pool takes in a valid transaction with inputs that conflicts with nothing. */
  lemma AddPriced(h: Host, all: set<Transaction>, p: Mempool.Pool, tx: Transaction, fee: u64, now: u64)
    requires PoolPriced(h, all, p) && tx in all && tx.inputs != [] && Priced(h, all, tx, fee)
    requires !Mempool.HasConflictingInputs(p, tx)
    ensures PoolPriced(h, all, Mempool.PoolAdd(h, p, tx, fee, now).pool)
  {
    hide Priced, Mempool.HasConflictingInputs, Mempool.InputPoints, Mempool.ChargedSize;
    forall k | k in p.transactions
      ensures Mempool.InputPoints(tx) !! Mempool.InputPoints(p.transactions[k].transaction)
    {
      NoSharedInput(p, tx, k);
    }
  }

  lemma SubmitTransactionSound(h: Host, all: set<Transaction>, s: State, tx: Transaction, now: u64)
    requires Universe(h, all) && NodeSound(h, all, s) && tx in all
    ensures var t := SubmitTransaction(h, s, tx, now).state;
      && NodeSound(h, all, t) && t.chain == s.chain
      && (Present(s.chain.utxoSet, s.pool) ==> Present(t.chain.utxoSet, t.pool))
  {
    hide Grounded, Universe, Named, Inside, PoolPriced, Priced, HasInputs, ValidateTransaction, ContainsTransaction,
      Mempool.MinimumRequiredFee, Mempool.HasConflictingInputs, Mempool.ChargedSize;
    if SubmitTransaction(h, s, tx, now).state.pool != s.pool {
      PayingHasInputs(h, s.chain.utxoSet, s.pool, tx);
      LedgerNamed(h, all, s);
      ValidIsPriced(h, all, s.chain.utxoSet, tx);
      AddPriced(h, all, s.pool, tx, ValidateTransaction(h, s.chain.utxoSet, tx).value, now);
    }
  }

  /** A transaction that is taken into the pool is in no stored block, spends no reserved outpoint, and pays at
      least the standard rate of that moment, unless the required fee has saturated. */
  lemma AdmittedPaysRate(h: Host, s: State, tx: Transaction, now: u64)
    requires SubmitTransaction(h, s, tx, now).result.Ok?
    ensures var pool := SubmitTransaction(h, s, tx, now).state.pool; var txid := h.txid(tx);
      && txid !in s.pool.transactions && txid in pool.transactions
      && pool.transactions == s.pool.transactions[txid := pool.transactions[txid]]
      && pool.transactions[txid].transaction == tx && pool.transactions[txid].receivedAt == now
      && Ok(pool.transactions[txid].feePaid) == ValidateTransaction(h, s.chain.utxoSet, tx)
      && (Mempool.ChargedSize(tx) * Mempool.StandardFeeRate(s.pool) < U64_LIMIT ==>
            pool.transactions[txid].feeRate >= Mempool.StandardFeeRate(s.pool))
      && |pool.transactions| <= s.pool.maxSize
    ensures Mempool.InputPoints(tx) !! Mempool.ReservedOutpoints(s.pool)
    ensures forall k :: k in s.chain.blocks ==> !HasTransaction(h, s.chain.blocks[k], h.txid(tx))
  {
    Mempool.ConflictIsReserved(s.pool, tx);
    assert !ContainsTransaction(h, s.chain, h.txid(tx));
    assert Mempool.ChargedSize(tx) > 0;
    hide ValidateTransaction, ContainsTransaction, Mempool.StandardFeeRate, Mempool.ChargedSize;
    var fee := ValidateTransaction(h, s.chain.utxoSet, tx).value;
    if Mempool.ChargedSize(tx) * Mempool.StandardFeeRate(s.pool) < U64_LIMIT {
      Mempool.RateCovers(fee, Mempool.ChargedSize(tx), Mempool.StandardFeeRate(s.pool));
    }
  }

  lemma NoSharedInput(p: Mempool.Pool, tx: Transaction, k: Digest)
    requires !Mempool.HasConflictingInputs(p, tx) && k in p.transactions
    ensures Mempool.InputPoints(tx) !! Mempool.InputPoints(p.transactions[k].transaction)
  {
    assert !Mempool.SharesInput(p.transactions[k].transaction, tx);
  }

  // ---------- Submitting a block ----------

  lemma CleanedPriced(h: Host, all: set<Transaction>, p: Mempool.Pool, confirmed: seq<Transaction>)
    requires PoolPriced(h, all, p)
    ensures PoolPriced(h, all, Mempool.Cleaned(h, p, confirmed))
    ensures Mempool.Cleaned(h, p, confirmed).minFeeRate == p.minFeeRate
  {
    hide Priced, Mempool.InputPoints, Mempool.Survives;
  }

  lemma SubmitBlockSound(h: Host, all: set<Transaction>, s: State, block: Block)
    requires Universe(h, all) && NodeSound(h, all, s) && forall t <- block.transactions :: t in all
    ensures var t := SubmitBlock(h, s, block).state;
      NodeSound(h, all, t) && t.chain.bootstrapUtxos == s.chain.bootstrapUtxos
  {
    hide Grounded, Universe, Named, PoolPriced, AddBlock, Admit, Tip, HashOf, Mempool.Cleaned;
    AnyBlockEffect(h, s.chain, block);
    CleanedPriced(h, all, s.pool, block.transactions);
  }

  /** Where no branch is switched, a submitted block is either applied to the ledger and cleaned out of the
      pool, or leaves both alone. */
  lemma SubmitBlockOutcome(h: Host, s: State, block: Block)
    requires Grounded(h, s.chain) && Extends(s.chain, AddBlock(h, s.chain, block).chain)
    ensures var t := SubmitBlock(h, s, block).state;
      || (ApplyBlock(h, s.chain.utxoSet, block) == Ok(t.chain.utxoSet)
          && t.pool == Mempool.Cleaned(h, s.pool, block.transactions))
      || (t.chain.utxoSet == s.chain.utxoSet && t.pool == s.pool)
  {
    hide Grounded, AddBlock, ApplyBlock, Admit, HashOf, PathLength, PathReplays, Mempool.Cleaned, Walk, Tip;
    var c, r, hash := s.chain, AddBlock(h, s.chain, block), HashOf(h, block);
    AnyBlockEffect(h, c, block);
    TipLength(h, c);
    if r.result.Ok? {
      if PathLength(r.chain, hash) > |c.bestChain| {
        SwitchLength(h, c, block);
        AdoptedLedger(h, c, r.chain, block);
      } else {
        SameTip(c, r.chain);
      }
    }
  }

  lemma SwitchLength(h: Host, c: Chain, block: Block)
    requires Grounded(h, c)
    requires var r := AddBlock(h, c, block); r.result.Ok? && PathLength(r.chain, HashOf(h, block)) > |c.bestChain|
    ensures |AddBlock(h, c, block).chain.bestChain| > |c.bestChain|
  {
    hide Grounded, AddBlock, HashOf, Admit;
    AnyBlockEffect(h, c, block);
  }

  /** A block that was put on the tip has been applied to the old ledger. */
  lemma AdoptedLedger(h: Host, c: Chain, d: Chain, block: Block)
    requires Grounded(h, c) && Grounded(h, d) && d.bootstrapUtxos == c.bootstrapUtxos
    requires d.bestChain == c.bestChain + [HashOf(h, block)] && HashOf(h, block) !in c.blocks
    requires d.blocks == c.blocks[HashOf(h, block) := block]
    ensures ApplyBlock(h, c.utxoSet, block) == Ok(d.utxoSet)
  {
    hide StoreGrounded, ApplyBlock, HashOf, Walk, Replay;
    PathStored(c.blocks, c.genesisHash, Tip(c));
    ReplayExtends(h, c.bootstrapUtxos, d.blocks, c.bestChain, HashOf(h, block));
    ReplayAgrees(h, c.bootstrapUtxos, c.blocks, d.blocks, c.bestChain);
  }

  lemma SubmitBlockPresent(h: Host, all: set<Transaction>, s: State, block: Block)
    requires Universe(h, all) && Sound(h, all, s) && forall t <- block.transactions :: t in all
    requires Extends(s.chain, SubmitBlock(h, s, block).state.chain)
    ensures var t := SubmitBlock(h, s, block).state; Present(t.chain.utxoSet, t.pool)
  {
    assert SubmitBlock(h, s, block).state.chain == AddBlock(h, s.chain, block).chain;
    hide Grounded, Universe, Named, Inside, PoolPriced, Present, PoolSound, SubmitBlock, AddBlock, ApplyBlock, Extends;
    SubmitBlockOutcome(h, s, block);
    SoundPool(h, all, s);
    var t := SubmitBlock(h, s, block).state;
    if t.pool != s.pool || t.chain.utxoSet != s.chain.utxoSet {
      CleanedSound(h, all, s.chain.utxoSet, s.pool, block);
      PricedAndPresent(h, all, t.chain.utxoSet, t.pool);
    }
  }

  // ---------- Runs ----------

  lemma StepSound(h: Host, all: set<Transaction>, s: State, a: Action)
    requires Universe(h, all) && NodeSound(h, all, s) && Within(all, a)
    ensures var t := Perform(h, s, a);
      && NodeSound(h, all, t) && t.chain.bootstrapUtxos == s.chain.bootstrapUtxos
      && (Present(s.chain.utxoSet, s.pool) && Extends(s.chain, t.chain) ==> Present(t.chain.utxoSet, t.pool))
  {
    hide NodeSound, Present, Universe, SubmitTransaction, SubmitBlock, Extends;
    match a
    case SubmitTx(tx, now) => SubmitTransactionSound(h, all, s, tx, now);
    case SubmitBlk(block) =>
      SubmitBlockSound(h, all, s, block);
      if Present(s.chain.utxoSet, s.pool) && Extends(s.chain, SubmitBlock(h, s, block).state.chain) {
        SubmitBlockPresent(h, all, s, block);
      }
  }

  lemma {:induction false} RunSound(h: Host, all: set<Transaction>, start: State, actions: seq<Action>)
    requires Universe(h, all) && NodeSound(h, all, start) && forall a <- actions :: Within(all, a)
    ensures var s := After(h, start, actions);
      && NodeSound(h, all, s) && s.chain.bootstrapUtxos == start.chain.bootstrapUtxos
      && (Present(start.chain.utxoSet, start.pool) && Straight(h, start, actions) ==> Present(s.chain.utxoSet, s.pool))
  {
    hide NodeSound, Present, Universe, Within, Perform, Extends;
    if actions != [] {
      var n := |actions| - 1;
      RunSound(h, all, start, actions[..n]);
      StepSound(h, all, After(h, start, actions[..n]), actions[n]);
    }
  }

  lemma NewNodeSound(h: Host, all: set<Transaction>, bootstrap: UtxoSet)
    requires Universe(h, all) && Named(h, all, bootstrap) && GenesisBlock(h).transactions[0] in all
    ensures Sound(h, all, NewNode(h, bootstrap))
  {
    NewChainGrounded(h, bootstrap);
    assert |GenesisBlock(h).transactions| == 1;
    hide GenesisBlock, NewChain, Grounded, Universe, Named;
  }

  /** In every state of every run from the start of a node, branches switched or not: the pending transactions share
      no inputs, and each of them is valid against the current ledger, with exactly the fee recorded for it, if and
      only if the ledger has its inputs. On runs that switch no branches it always has. */
  lemma {:induction false} PoolOverRuns(
      h: Host, all: set<Transaction>, bootstrap: UtxoSet, actions: seq<Action>, j: Digest, k: Digest)
    requires Universe(h, all) && Named(h, all, bootstrap) && GenesisBlock(h).transactions[0] in all
    requires forall a <- actions :: Within(all, a)
    requires var p := After(h, NewNode(h, bootstrap), actions).pool; j in p.transactions && k in p.transactions
    ensures var s := After(h, NewNode(h, bootstrap), actions);
      var entry, other := s.pool.transactions[k], s.pool.transactions[j].transaction;
      && entry.transaction.inputs != []
      && (ValidateTransaction(h, s.chain.utxoSet, entry.transaction) == Ok(entry.feePaid)
          <==> HasInputs(s.chain.utxoSet, entry.transaction))
      && (ValidateTransaction(h, s.chain.utxoSet, entry.transaction).Ok?
          <==> HasInputs(s.chain.utxoSet, entry.transaction))
      && (j != k ==> Mempool.InputPoints(other) !! Mempool.InputPoints(entry.transaction))
      && (Straight(h, NewNode(h, bootstrap), actions) ==> HasInputs(s.chain.utxoSet, entry.transaction))
  {
    hide Universe, Named, Within, After, NewNode, Straight, HasInputs, ValidateTransaction, Grounded, Inside,
      GenesisBlock;
    NewNodeSound(h, all, bootstrap);
    RunSound(h, all, NewNode(h, bootstrap), actions);
    var s := After(h, NewNode(h, bootstrap), actions);
    LedgerNamed(h, all, s);
    if !HasInputs(s.chain.utxoSet, s.pool.transactions[k].transaction) {
      InvalidWithoutInputs(h, s.chain.utxoSet, s.pool.transactions[k].transaction);
    }
  }
}

/** Two blocks under one header (src/block.rs), and what the one does to the other. */
module Twins {
  import opened Arithmetic
  import opened Types
  import opened Ledger
  import opened Accounting
  import opened ChainRules
  import opened Consensus
  import opened AnyRun
  import Compact
  import Merkle
  import Sync

  /** Where the transactions begin that the twin repeats. */
  function Repeated(block: Block): (at: nat)
    requires block.transactions != []
    ensures at < |block.transactions|
  {
    |block.transactions| - Merkle.LowBit(|block.transactions|)
  }

  /** The block with its last transactions repeated, as many as the largest power of two that divides their number. */
  function Twin(block: Block): Block {
    if block.transactions == [] then block
    else block.(transactions := block.transactions + block.transactions[Repeated(block)..])
  }

  /** The number of transactions is not a power of two, and the first of those that are repeated spends something
      other than an output of one of them. */
  predicate HasTwin(h: Host, block: Block) {
    && block.transactions != [] && Repeated(block) > 0
    && var tx := block.transactions[Repeated(block)];
       && tx.inputs != []
       && forall i :: Repeated(block) <= i < |block.transactions| ==>
            h.txid(block.transactions[i]) != tx.inputs[0].previousOutput.txid
  }

  /** The twin has the same hash and passes the same checks. */
  lemma TwinAdmitted(h: Host, c: Chain, block: Block)
    requires HasTwin(h, block)
    ensures HashOf(h, Twin(block)) == HashOf(h, block)
    ensures Admit(h, c, Twin(block)) == Admit(h, c, block)
  {
    var txs := block.transactions;
    var ids := Merkle.Txids(h, txs);
    assert Merkle.Txids(h, Twin(block).transactions) == ids + ids[Repeated(block)..];
    Merkle.RepeatedTail(h, ids);
    assert Merkle.MerkleRoot(h, Twin(block).transactions) == Merkle.MerkleRoot(h, txs);
    hide Merkle.MerkleRoot, Compact.TargetFromBits, Compact.HashValue, MeetsTarget;
  }

  /** An outpoint that is not there comes back only with a transaction of its txid. */
  lemma {:induction false} StaysAway(h: Host, utxos: UtxoSet, block: Block, m: nat, n: nat, o: OutPoint)
    requires m <= n <= |block.transactions| && ApplyFirst(h, utxos, block, m).Ok? && ApplyFirst(h, utxos, block, n).Ok?
    requires o !in ApplyFirst(h, utxos, block, m).value.utxos
    requires forall i :: m <= i < n ==> h.txid(block.transactions[i]) != o.txid
    ensures o !in ApplyFirst(h, utxos, block, n).value.utxos
  {
    hide *;
    if m < n {
      ApplyFailsEarly(h, utxos, block, n - 1, n);
      StaysAway(h, utxos, block, m, n - 1, o);
      var before, tx := ApplyFirst(h, utxos, block, n - 1).value.utxos, block.transactions[n - 1];
      AppliedNext(h, utxos, block, n);
      NotCreated(h, before, tx, block.header.height, o);
    }
  }

  lemma AppliedNext(h: Host, utxos: UtxoSet, block: Block, n: nat)
    requires 0 < n <= |block.transactions| && ApplyFirst(h, utxos, block, n).Ok?
    ensures ApplyFirst(h, utxos, block, n - 1).Ok?
    ensures ApplyFirst(h, utxos, block, n).value.utxos
         == ApplyTransaction(h, ApplyFirst(h, utxos, block, n - 1).value.utxos, block.transactions[n - 1],
                             block.header.height)
    ensures n > 1 ==>
      ValidateTransaction(h, ApplyFirst(h, utxos, block, n - 1).value.utxos, block.transactions[n - 1]).Ok?
  {
    hide ApplyTransaction, ValidateTransaction;
  }

  /** A transaction leaves in the ledger only what was there and what bears its txid, and nothing that it spends. */
  lemma NotCreated(h: Host, utxos: UtxoSet, tx: Transaction, height: u64, o: OutPoint)
    requires o.txid != h.txid(tx) && (o !in utxos || o in Spent(tx.inputs, |tx.inputs|))
    ensures o !in ApplyTransaction(h, utxos, tx, height)
  {
    InsertedKeys(utxos - Spent(tx.inputs, |tx.inputs|), h.txid(tx), tx, height, |tx.outputs|);
  }

  /** The twin applies to no ledger. */
  lemma TwinNeverApplies(h: Host, utxos: UtxoSet, block: Block)
    requires HasTwin(h, block)
    ensures !ApplyBlock(h, utxos, Twin(block)).Ok?
  {
    hide *;
    TwinShape(h, block);
    var twin, n, m := Twin(block), |block.transactions|, Repeated(block);
    var tx := block.transactions[m];
    var o := tx.inputs[0].previousOutput;
    if ApplyFirst(h, utxos, twin, |twin.transactions|).Ok? {
      ApplyFailsEarly(h, utxos, twin, n + 1, |twin.transactions|);
      TwinStops(h, utxos, twin, m, n, o);
    }
    AppliedAll(h, utxos, twin);
  }

  lemma TwinShape(h: Host, block: Block)
    requires HasTwin(h, block)
    ensures var txs, twin, m := block.transactions, Twin(block).transactions, Repeated(block);
      && m < |txs| < |twin| && twin[m] == twin[|txs|] == txs[m]
      && txs[m].inputs != [] && txs[m].inputs[0].previousOutput in Spent(txs[m].inputs, |txs[m].inputs|)
      && forall i :: m <= i < |txs| ==> h.txid(twin[i]) != txs[m].inputs[0].previousOutput.txid
  {
  }

  lemma {:induction false} AppliedAll(h: Host, utxos: UtxoSet, block: Block)
    ensures ApplyBlock(h, utxos, block).Ok? ==> ApplyFirst(h, utxos, block, |block.transactions|).Ok?
  {
    hide ApplyFirst, CheckReward;
  }

  /** A block in which a transaction comes twice, with nothing between that could bring back what it has spent. */
  lemma TwinStops(h: Host, utxos: UtxoSet, block: Block, m: nat, n: nat, o: OutPoint)
    requires m < n < |block.transactions| && block.transactions[m] == block.transactions[n]
    requires var tx := block.transactions[m];
      tx.inputs != [] && o == tx.inputs[0].previousOutput && o in Spent(tx.inputs, |tx.inputs|)
    requires forall i :: m <= i < n ==> h.txid(block.transactions[i]) != o.txid
    ensures !ApplyFirst(h, utxos, block, n + 1).Ok?
  {
    hide ApplyTransaction, ApplyFirst, ValidateTransaction, Spent;
    var tx := block.transactions[m];
    if ApplyFirst(h, utxos, block, n + 1).Ok? {
      ApplyFailsEarly(h, utxos, block, m + 1, n + 1);
      AppliedNext(h, utxos, block, m + 1);
      NotCreated(h, ApplyFirst(h, utxos, block, m).value.utxos, tx, block.header.height, o);
      AppliedNext(h, utxos, block, n + 1);
      StaysAway(h, utxos, block, m + 1, n, o);
      NotThere(h, ApplyFirst(h, utxos, block, n).value.utxos, tx);
    }
  }

  lemma NotThere(h: Host, utxos: UtxoSet, tx: Transaction)
    requires tx.inputs != [] && tx.inputs[0].previousOutput !in utxos
    ensures !ValidateTransaction(h, utxos, tx).Ok?
  {
    if RedeemInputs(h, utxos, tx.inputs, |tx.inputs|).Ok? {
      RedeemedValue(h, utxos, tx.inputs, |tx.inputs|);
    }
  }

  /** Once its twin has been submitted, a block is refused for good: after any later run it still is, and its
      hash is not on the best chain, though the block itself passed every check before. */
  lemma {:induction false} TwinForever(h: Host, c: Chain, block: Block, later: seq<Block>)
    requires Grounded(h, c) && Admit(h, c, block).Ok? && HasTwin(h, block)
    ensures var end := Run(h, AddBlock(h, c, Twin(block)).chain, later); var hash := HashOf(h, block);
      && Grounded(h, end) && hash in end.blocks && hash !in end.bestChain
      && AddBlock(h, end, block) == Added(end, Err(BlockKnown))
  {
    hide Grounded, AddBlock, Admit, HashOf, Run, HasTwin, Twin;
    var stored, hash := AddBlock(h, c, Twin(block)).chain, HashOf(h, block);
    TwinAdmitted(h, c, block);
    AnyBlockEffect(h, c, Twin(block));
    RunGrounded(h, stored, later);
    var end := Run(h, stored, later);
    NeverOnBest(h, end, hash, block);
    KnownRefused(h, end, block);
  }

  /** A block that applies to no ledger is on no best chain. */
  lemma NeverOnBest(h: Host, c: Chain, k: Digest, block: Block)
    requires Grounded(h, c) && HasTwin(h, block) && k in c.blocks && c.blocks[k] == Twin(block)
    ensures k !in c.bestChain
  {
    hide StoreGrounded, ApplyBlock, HasTwin, Twin, Walk;
    forall i | 0 <= i < |c.bestChain|
      ensures c.bestChain[i] != k
    {
      ReplayPrefix(h, c.bootstrapUtxos, c.blocks, c.bestChain, i + 1);
      assert c.bestChain[..i + 1][..i] == c.bestChain[..i];
      TwinNeverApplies(h, Replay(h, c.bootstrapUtxos, c.blocks, c.bestChain[..i]).value, block);
    }
  }

  lemma KnownRefused(h: Host, c: Chain, block: Block)
    requires HashOf(h, block) in c.blocks
    ensures AddBlock(h, c, block) == Added(c, Err(BlockKnown))
  {
  }

  lemma BeyondPrefix(front: seq<Digest>, all: seq<Digest>, i: nat)
    requires front <= all && i < |all| && all[i] !in front
    ensures i >= |front|
  {
    assert forall j :: 0 <= j < |front| ==> all[j] == front[j] && front[j] in front;
  }

  /** So no round of synchronisation that asks for the block gets there, whatever sender has it on its chain. */
  lemma {:induction false} TwinStopsRound(h: Host, c: Chain, block: Block, later: seq<Block>, s: Chain, announced: u64)
    requires Grounded(h, c) && Admit(h, c, block).Ok? && HasTwin(h, block)
    requires var r := Run(h, AddBlock(h, c, Twin(block)).chain, later);
      Inv(h, s) && Inv(h, r) && Sync.Behind(s, r) && announced > r.currentHeight
    ensures var r := Run(h, AddBlock(h, c, Twin(block)).chain, later);
      var request := Sync.MakeRequest(announced, r.currentHeight);
      var target := Least(r.currentHeight + 100, Least(announced, s.currentHeight));
      && request.Some? && target < |s.bestChain|
      && (HashOf(h, block) in s.bestChain[..target + 1] ==>
            var reply := Sync.Reply(s, request.value.fromHeight, request.value.count);
            Sync.Receive(h, Sync.Round(r, r.currentHeight, 0, 0), reply, request.value.count).chain.bestChain
              != s.bestChain[..target + 1])
  {
    hide Grounded, Inv, AddBlock, Run, HasTwin, Twin, Admit, HashOf, Sync.Receive, Sync.Reply, Sync.MakeRequest;
    var r, hash := Run(h, AddBlock(h, c, Twin(block)).chain, later), HashOf(h, block);
    TwinForever(h, c, block, later);
    Sync.RoundReaches(h, s, r, announced);
    var target := Least(r.currentHeight + 100, Least(announced, s.currentHeight));
    if hash in s.bestChain[..target + 1] {
      var i :| 0 <= i <= target && s.bestChain[i] == hash;
      BeyondPrefix(r.bestChain, s.bestChain, i);
      assert !Sync.Unseen(s, r, target);
    }
  }
}

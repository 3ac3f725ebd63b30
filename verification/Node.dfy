/** The node object (src/node.rs): a blockchain and a pool, updated by one call at a time. */
module Node {
  import opened Types
  import opened Ledger
  import opened ChainRules
  import opened Consensus
  import opened NodeRules
  import Mempool
  import Blockchain

  /** A call that answers Ok has stored the block, and there is a best chain. */
  lemma OkIsStored(h: Host, c: Chain, block: Block)
    ensures var r := AddBlock(h, c, block);
      r.result.Ok? ==>
        HashOf(h, block) in r.chain.blocks && r.chain.blocks[HashOf(h, block)] == block && r.chain.bestChain != []
  {
    hide Admit, Walk, Replay, HashOf;
  }

  class Node {
    const blockchain: Blockchain.Blockchain
    const mempool: Mempool.Mempool

    ghost function View(): State
      reads blockchain, mempool
    {
      State(blockchain.View(), mempool.View())
    }

    ghost predicate Valid()
      reads blockchain, mempool
    {
      && mempool.h == blockchain.h
      && Mempool.Keyed(mempool.h, mempool.transactions)
    }

    constructor (h: Host, bootstrap: UtxoSet)
      ensures Valid() && blockchain.Valid() && fresh(blockchain) && fresh(mempool)
      ensures blockchain.h == h && View() == NewNode(h, bootstrap)
    {
      blockchain := new Blockchain.Blockchain(h, bootstrap);
      mempool := new Mempool.Mempool(h, 10000, 1);
    }

    method SubmitTransaction(tx: Transaction, now: u64) returns (r: Result<()>)
      requires Valid()
      modifies mempool
      ensures Valid()
      ensures Step(View(), r) == NodeRules.SubmitTransaction(blockchain.h, old(View()), tx, now)
    {
      var h := blockchain.h;
      var txid := h.txid(tx);
      var confirmed := exists k :: k in blockchain.blocks && HasTransaction(h, blockchain.blocks[k], txid);
      if confirmed {
        return Err(AlreadyConfirmed);
      }
      var fee :- ValidateTransactionLoop(h, blockchain.utxoSet, tx);
      if txid in mempool.transactions {
        return Err(AlreadyPooled);
      }
      var pool := Mempool.Pool(mempool.transactions, mempool.maxSize, mempool.minFeeRate);
      if fee < Mempool.MinimumRequiredFee(pool, tx) {
        return Err(FeeTooLow);
      }
      if Mempool.HasConflictingInputs(pool, tx) {
        return Err(Conflict);
      }
      r := mempool.AddTransaction(tx, fee, now);
    }

    method SubmitBlock(block: Block) returns (r: Result<()>)
      requires Valid() && Returns(blockchain.h, blockchain.View(), block)
      modifies blockchain, mempool
      ensures Valid()
      ensures old(blockchain.Valid()) ==> (blockchain.Valid() <==> Rooted(blockchain.h, old(blockchain.View()), block))
      ensures Step(View(), r) == NodeRules.SubmitBlock(blockchain.h, old(View()), block)
    {
      hide Inv, Rooted, Returns, AddBlock, HashOf, Mempool.Cleaned, Mempool.Keyed;
      OkIsStored(blockchain.h, blockchain.View(), block);
      var _ :- blockchain.AddBlock(block);
      Confirm(HashOf(blockchain.h, block), block);
      r := Ok(());
    }

    /** Once a block has been added: clean the pool, if it became the tip. */
    method Confirm(hash: Digest, ghost block: Block)
      requires Valid() && blockchain.bestChain != []
      requires hash in blockchain.blocks && blockchain.blocks[hash] == block
      modifies mempool
      ensures Valid()
      ensures mempool.View() ==
        if Tip(blockchain.View()) == hash then Mempool.Cleaned(blockchain.h, old(mempool.View()), block.transactions)
        else old(mempool.View())
    {
      hide Mempool.Cleaned, Mempool.Keyed;
      var chain := blockchain.bestChain;
      if chain != [] && chain[|chain| - 1] == hash {
        Mempool.CleanedKeyed(mempool.h, mempool.View(), block.transactions);
        mempool.RemoveConfirmedTransactions(blockchain.blocks[hash].transactions);
      }
    }

    method CreateBlockTemplate(miner: Bytes, bits: u32, poolTime: u64, now: u64) returns (r: Result<BlockTemplate>)
      requires Valid()
      ensures r == NodeRules.CreateBlockTemplate(blockchain.h, View(), miner, bits, poolTime, now)
    {
      hide Mempool.SelectForBlock, Mempool.Chosen, Mempool.Keyed, NewTemplate, Subsidy;
      var chain := blockchain.bestChain;
      if chain == [] {
        return Err(NoBestChain);
      }
      var best := chain[|chain| - 1];
      if best !in blockchain.blocks {
        return Err(NoBestChain);
      }
      var previous := blockchain.blocks[best].header.timestamp;
      var txs, fees := mempool.GetTransactionsForBlock(BLOCK_SIZE_LIMIT, poolTime);
      var height :- blockchain.h.Plain(blockchain.currentHeight + 1);
      var reward := SaturatingAdd(Subsidy(height), fees);
      r := Ok(NewTemplate(blockchain.h, best, txs, height, reward, miner, bits,
                          if now < previous then previous else now));
    }
  }
}

/** The exact law of value for one block (src/blockchain.rs), and when the subsidy bounds it. */
module Conservation {
  import opened Arithmetic
  import opened Types
  import opened Ledger
  import opened Accounting

  /** How often the sum of a transaction's outputs goes round u64. */
  function Wraps(tx: Transaction): nat {
    QuotientAtMost(ValueSum(tx.outputs, |tx.outputs|), U64_LIMIT);
    ValueSum(tx.outputs, |tx.outputs|) / U64_LIMIT
  }

  lemma TotalWraps(h: Host, tx: Transaction)
    requires TotalOutput(h, tx.outputs).Ok?
    ensures TotalOutput(h, tx.outputs).value + U64_LIMIT * Wraps(tx) == ValueSum(tx.outputs, |tx.outputs|)
    ensures Exact(h, tx) <==> Wraps(tx) == 0
  {
    Division(ValueSum(tx.outputs, |tx.outputs|), U64_LIMIT);
  }

  /** The fee of a validated transaction, wrapped or not. */
  lemma {:induction false} FeeWraps(h: Host, utxos: UtxoSet, tx: Transaction)
    requires ValidateTransaction(h, utxos, tx).Ok?
    ensures InputWorth(utxos, tx.inputs, None, |tx.inputs|) + U64_LIMIT * Wraps(tx)
         == OutputWorth(tx.outputs, None, |tx.outputs|) + ValidateTransaction(h, utxos, tx).value
    ensures Exact(h, tx) <==> Wraps(tx) == 0
  {
    RedeemedValue(h, utxos, tx.inputs, |tx.inputs|);
    ValueIsWorth(tx.outputs, |tx.outputs|);
    TotalWraps(h, tx);
  }

  /** A validated transaction whose outputs are worth more than its inputs is one whose sum has left u64. */
  lemma {:induction false} InflatesIfWrapped(h: Host, utxos: UtxoSet, tx: Transaction)
    requires ValidateTransaction(h, utxos, tx).Ok?
    ensures OutputWorth(tx.outputs, None, |tx.outputs|) > InputWorth(utxos, tx.inputs, None, |tx.inputs|)
       <==> ValueSum(tx.outputs, |tx.outputs|) >= U64_LIMIT
  {
    FeeWraps(h, utxos, tx);
    Division(ValueSum(tx.outputs, |tx.outputs|), U64_LIMIT);
    RedeemedValue(h, utxos, tx.inputs, |tx.inputs|);
  }

  // ---------- One block ----------

  function BlockWraps(block: Block, n: nat): nat
    requires n <= |block.transactions|
  {
    if n == 0 then 0 else BlockWraps(block, n - 1) + Wraps(block.transactions[n - 1])
  }

  /** The worth that the first `n` transactions overwrite in the ledger without spending it. */
  function BlockDestroyed(h: Host, utxos: UtxoSet, block: Block, who: Option<Bytes>, n: nat): nat
    requires n <= |block.transactions|
  {
    if n == 0 || !ApplyFirst(h, utxos, block, n - 1).Ok? then 0
    else
      BlockDestroyed(h, utxos, block, who, n - 1)
      + Destroyed(h, ApplyFirst(h, utxos, block, n - 1).value.utxos, block.transactions[n - 1],
                  block.header.height, who)
  }

  lemma DestroyedStep(h: Host, utxos: UtxoSet, block: Block, who: Option<Bytes>, n: nat)
    requires 0 < n <= |block.transactions| && ApplyFirst(h, utxos, block, n - 1).Ok?
    ensures BlockDestroyed(h, utxos, block, who, n)
         == BlockDestroyed(h, utxos, block, who, n - 1)
            + Destroyed(h, ApplyFirst(h, utxos, block, n - 1).value.utxos, block.transactions[n - 1],
                        block.header.height, who)
    ensures BlockWraps(block, n) == BlockWraps(block, n - 1) + Wraps(block.transactions[n - 1])
  {
    hide Destroyed, Wraps;
  }

  /** What one accepted turn of the block loop does to the ledger, and what to the fees. */
  lemma NextValue(h: Host, p: Progress, tx: Transaction, first: bool, height: u64)
    requires ApplyNext(h, p, tx, first, height).Ok?
    ensures var q := ApplyNext(h, p, tx, first, height).value;
      && q.utxos == ApplyTransaction(h, p.utxos, tx, height)
      && Sum(q.utxos, None) + Destroyed(h, p.utxos, tx, height, None) + (q.fees - p.fees)
         == Sum(p.utxos, None) + (if first then ValueSum(tx.outputs, |tx.outputs|) else U64_LIMIT * Wraps(tx))
      && (first ==> q.fees == p.fees)
      && (!first ==> (Exact(h, tx) <==> Wraps(tx) == 0))
  {
    TransactionAccounting(h, p.utxos, tx, height, None);
    ValueIsWorth(tx.outputs, |tx.outputs|);
    if !first {
      FeeWraps(h, p.utxos, tx);
    }
  }

  lemma FirstStep(h: Host, utxos: UtxoSet, block: Block, n: nat)
    requires 0 < n <= |block.transactions| && ApplyFirst(h, utxos, block, n).Ok?
    ensures var before := ApplyFirst(h, utxos, block, n - 1);
      && before.Ok? && (n == 1 ==> before.value == Progress(utxos, 0))
      && ApplyNext(h, before.value, block.transactions[n - 1], n == 1, block.header.height)
         == ApplyFirst(h, utxos, block, n)
  {
    hide ApplyNext;
  }

  /** The law for the first `n` transactions of a block. */
  lemma {:induction false} BlockFlow(h: Host, utxos: UtxoSet, block: Block, n: nat)
    requires 0 < n <= |block.transactions| && ApplyFirst(h, utxos, block, n).Ok?
    ensures var p := ApplyFirst(h, utxos, block, n).value; var coinbase := block.transactions[0];
      Sum(p.utxos, None) + BlockDestroyed(h, utxos, block, None, n) + p.fees
        == Sum(utxos, None) + ValueSum(coinbase.outputs, |coinbase.outputs|)
           + U64_LIMIT * (BlockWraps(block, n) - Wraps(coinbase))
  {
    FirstStep(h, utxos, block, n);
    var before, tx := ApplyFirst(h, utxos, block, n - 1).value, block.transactions[n - 1];
    if n > 1 {
      BlockFlow(h, utxos, block, n - 1);
    }
    DestroyedStep(h, utxos, block, None, n);
    NextValue(h, before, tx, n == 1, block.header.height);
    assert BlockWraps(block, 0) == 0 && BlockDestroyed(h, utxos, block, None, 0) == 0;
    hide ApplyFirst, ApplyNext, Sum, BlockDestroyed, BlockWraps, Wraps, ValueSum, Destroyed;
  }

  lemma WrapsStep(h: Host, utxos: UtxoSet, block: Block, n: nat)
    requires 0 < n <= |block.transactions| && ApplyFirst(h, utxos, block, n).Ok?
    requires TotalOutput(h, block.transactions[0].outputs).Ok?
    ensures ApplyFirst(h, utxos, block, n - 1).Ok?
    ensures Exact(h, block.transactions[n - 1]) <==> Wraps(block.transactions[n - 1]) == 0
  {
    hide ApplyFirst, ApplyNext, Sum, Wraps, Exact, TotalOutput, Destroyed, ApplyTransaction, ValueSum;
    FirstStep(h, utxos, block, n);
    if n == 1 {
      TotalWraps(h, block.transactions[0]);
    } else {
      NextValue(h, ApplyFirst(h, utxos, block, n - 1).value, block.transactions[n - 1], false, block.header.height);
    }
  }

  lemma {:induction false} WrapsPrefix(h: Host, utxos: UtxoSet, block: Block, n: nat)
    requires n <= |block.transactions| != 0 && ApplyFirst(h, utxos, block, n).Ok?
    requires TotalOutput(h, block.transactions[0].outputs).Ok?
    ensures BlockWraps(block, n) == 0 <==> forall i :: 0 <= i < n ==> Exact(h, block.transactions[i])
  {
    hide ApplyFirst, Wraps, Exact, TotalOutput;
    if n > 0 {
      WrapsStep(h, utxos, block, n);
      WrapsPrefix(h, utxos, block, n - 1);
    }
  }

  /** What the coinbase may still have claimed. */
  function Unclaimed(h: Host, utxos: UtxoSet, block: Block): nat {
    if !ApplyBlock(h, utxos, block).Ok? then 0
    else
      Subsidy(block.header.height) + ApplyFirst(h, utxos, block, |block.transactions|).value.fees
      - TotalOutput(h, block.transactions[0].outputs).value
  }

  /** The law for a block that applies, whatever the build. */
  lemma {:induction false} BlockConservation(h: Host, utxos: UtxoSet, block: Block)
    requires ApplyBlock(h, utxos, block).Ok?
    ensures var n := |block.transactions|;
      && Sum(ApplyBlock(h, utxos, block).value, None) + BlockDestroyed(h, utxos, block, None, n)
         + Unclaimed(h, utxos, block)
         == Sum(utxos, None) + Subsidy(block.header.height) + U64_LIMIT * BlockWraps(block, n)
      && Unclaimed(h, utxos, block) < U64_LIMIT
      && (BlockWraps(block, n) == 0 <==> ExactBlock(h, block))
  {
    var n, coinbase := |block.transactions|, block.transactions[0];
    BlockFlow(h, utxos, block, n);
    TotalWraps(h, coinbase);
    WrapsPrefix(h, utxos, block, n);
    hide ApplyFirst, Sum, BlockDestroyed, BlockWraps, Wraps, Exact, ValueSum, Subsidy;
  }

  /** A block that applies respects the subsidy, counting what it overwrites, if and only if all its sums are
      exact: always in a build with overflow checks, and otherwise if none of them leaves u64. */
  lemma {:induction false} BoundExactly(h: Host, utxos: UtxoSet, block: Block)
    requires ApplyBlock(h, utxos, block).Ok?
    ensures Sum(ApplyBlock(h, utxos, block).value, None)
              + BlockDestroyed(h, utxos, block, None, |block.transactions|)
            <= Sum(utxos, None) + Subsidy(block.header.height)
       <==> ExactBlock(h, block)
  {
    hide ApplyBlock, Sum, BlockDestroyed, BlockWraps, ExactBlock, Unclaimed;
    BlockConservation(h, utxos, block);
  }

  /** So an exact block adds at most its subsidy, however its fees and overwrites fall out. */
  lemma {:induction false} BlockValue(h: Host, utxos: UtxoSet, block: Block)
    requires ApplyBlock(h, utxos, block).Ok? && ExactBlock(h, block)
    ensures Sum(ApplyBlock(h, utxos, block).value, None) <= Sum(utxos, None) + Subsidy(block.header.height)
  {
    hide ApplyBlock, Sum, BlockDestroyed, ExactBlock;
    BoundExactly(h, utxos, block);
  }

  // ---------- One owner ----------

  /** What the first `n` of these transactions pay to a script. */
  function TxsPay(txs: seq<Transaction>, who: Option<Bytes>, n: nat): nat
    requires n <= |txs|
  {
    if n == 0 then 0 else TxsPay(txs, who, n - 1) + OutputWorth(txs[n - 1].outputs, who, |txs[n - 1].outputs|)
  }

  lemma {:induction false} PayFirst(txs: seq<Transaction>, who: Option<Bytes>, n: nat)
    requires 0 < n <= |txs|
    ensures TxsPay(txs, who, n) == OutputWorth(txs[0].outputs, who, |txs[0].outputs|) + TxsPay(txs[1..], who, n - 1)
  {
    if n > 1 {
      PayFirst(txs, who, n - 1);
      assert txs[1..][n - 2] == txs[n - 1];
    }
  }

  /** What the first `n` transactions of a block spend of a script, each in the ledger that it finds. */
  function BlockSpends(h: Host, utxos: UtxoSet, block: Block, who: Option<Bytes>, n: nat): nat
    requires n <= |block.transactions|
  {
    if n == 0 || !ApplyFirst(h, utxos, block, n - 1).Ok? then 0
    else
      var tx := block.transactions[n - 1];
      BlockSpends(h, utxos, block, who, n - 1)
      + InputWorth(ApplyFirst(h, utxos, block, n - 1).value.utxos, tx.inputs, who, |tx.inputs|)
  }

  lemma OwnerStep(h: Host, utxos: UtxoSet, block: Block, who: Option<Bytes>, n: nat)
    requires 0 < n <= |block.transactions| && ApplyFirst(h, utxos, block, n).Ok?
    ensures var before, tx := ApplyFirst(h, utxos, block, n - 1), block.transactions[n - 1];
      && before.Ok? && DistinctInputs(tx.inputs)
      && ApplyFirst(h, utxos, block, n).value.utxos
         == ApplyTransaction(h, before.value.utxos, tx, block.header.height)
      && BlockSpends(h, utxos, block, who, n)
         == BlockSpends(h, utxos, block, who, n - 1)
            + InputWorth(before.value.utxos, tx.inputs, who, |tx.inputs|)
      && TxsPay(block.transactions, who, n)
         == TxsPay(block.transactions, who, n - 1) + OutputWorth(tx.outputs, who, |tx.outputs|)
  {
    hide ApplyTransaction, RedeemInputs, InputWorth, OutputWorth;
  }

  lemma {:induction false} OwnerStart(h: Host, utxos: UtxoSet, block: Block, who: Option<Bytes>)
    ensures ApplyFirst(h, utxos, block, 0) == Ok(Progress(utxos, 0))
    ensures BlockSpends(h, utxos, block, who, 0) == BlockDestroyed(h, utxos, block, who, 0) == 0
    ensures TxsPay(block.transactions, who, 0) == 0
  {
    hide ApplyNext;
  }

  /** The law of one owner in a block, in any build: what he has in the end, plus what was spent and what was
      overwritten of his, is what he had plus what he was paid. */
  lemma {:induction false} OwnerFlow(h: Host, utxos: UtxoSet, block: Block, who: Option<Bytes>, n: nat)
    requires n <= |block.transactions| && ApplyFirst(h, utxos, block, n).Ok?
    ensures Sum(ApplyFirst(h, utxos, block, n).value.utxos, who)
            + BlockSpends(h, utxos, block, who, n) + BlockDestroyed(h, utxos, block, who, n)
         == Sum(utxos, who) + TxsPay(block.transactions, who, n)
  {
    hide *;
    if n == 0 {
      OwnerStart(h, utxos, block, who);
    } else {
      OwnerStep(h, utxos, block, who, n);
      DestroyedStep(h, utxos, block, who, n);
      OwnerFlow(h, utxos, block, who, n - 1);
      var before, tx := ApplyFirst(h, utxos, block, n - 1).value.utxos, block.transactions[n - 1];
      TransactionAccounting(h, before, tx, block.header.height, who);
    }
  }

  lemma {:induction false} BlockOwner(h: Host, utxos: UtxoSet, block: Block, who: Option<Bytes>)
    requires ApplyBlock(h, utxos, block).Ok?
    ensures var n := |block.transactions|;
      Sum(ApplyBlock(h, utxos, block).value, who)
        + BlockSpends(h, utxos, block, who, n) + BlockDestroyed(h, utxos, block, who, n)
      == Sum(utxos, who) + TxsPay(block.transactions, who, n)
  {
    hide ApplyFirst, Sum, BlockSpends, BlockDestroyed, TxsPay;
    OwnerFlow(h, utxos, block, who, |block.transactions|);
  }

  // ---------- What is overwritten ----------

  /** The transaction creates an outpoint that is there, unspent and worth something. */
  ghost predicate Overwrites(h: Host, utxos: UtxoSet, tx: Transaction, who: Option<Bytes>) {
    exists o :: Recreates(h, utxos, tx, o) && Worth(utxos[o].output, who) > 0
  }

  predicate Recreates(h: Host, utxos: UtxoSet, tx: Transaction, o: OutPoint) {
    o in utxos && o !in Spent(tx.inputs, |tx.inputs|) && o.txid == h.txid(tx) && o.vout < |tx.outputs|
  }

  lemma {:induction false} LostExactly(
      utxos: UtxoSet, txid: Digest, tx: Transaction, height: u64, who: Option<Bytes>, n: nat)
    requires n <= |tx.outputs| <= U32_LIMIT
    ensures Lost(utxos, txid, tx, height, who, n) == 0 <==>
      forall o :: o in utxos && o.txid == txid && o.vout < n ==> Worth(utxos[o].output, who) == 0
  {
    if n > 0 {
      LostExactly(utxos, txid, tx, height, who, n - 1);
      var o := OutputPoint(txid, n - 1);
      assert o == OutPoint(txid, n - 1);
      InsertMeaning(utxos, txid, tx, height, n - 1, o);
      assert forall p: OutPoint :: p.txid == txid && p.vout < n ==> p.vout < n - 1 || p == o;
      hide InsertOutputs, Worth;
    }
  }

  /** Applying a transaction destroys value exactly if it overwrites some. */
  lemma DestroyedExactly(h: Host, utxos: UtxoSet, tx: Transaction, height: u64, who: Option<Bytes>)
    requires |tx.outputs| <= U32_LIMIT
    ensures Destroyed(h, utxos, tx, height, who) == 0 <==> !Overwrites(h, utxos, tx, who)
  {
    var rest := utxos - Spent(tx.inputs, |tx.inputs|);
    LostExactly(rest, h.txid(tx), tx, height, who, |tx.outputs|);
    hide Lost, Worth;
    assert forall o :: Recreates(h, utxos, tx, o) <==> o in rest && o.txid == h.txid(tx) && o.vout < |tx.outputs|;
  }

  /** None of the first `n` transactions of a block overwrites anything. */
  ghost predicate NoneOverwrites(h: Host, utxos: UtxoSet, block: Block, who: Option<Bytes>, n: nat)
    requires n <= |block.transactions|
  {
    forall i :: 0 <= i < n && ApplyFirst(h, utxos, block, i).Ok? ==>
      !Overwrites(h, ApplyFirst(h, utxos, block, i).value.utxos, block.transactions[i], who)
  }

  lemma {:induction false} BlockDestroysExactly(h: Host, utxos: UtxoSet, block: Block, who: Option<Bytes>, n: nat)
    requires n <= |block.transactions| && ApplyFirst(h, utxos, block, n).Ok?
    requires forall tx <- block.transactions :: |tx.outputs| <= U32_LIMIT
    ensures BlockDestroyed(h, utxos, block, who, n) == 0 <==> NoneOverwrites(h, utxos, block, who, n)
  {
    hide ApplyFirst, Destroyed, Overwrites, Wraps;
    if n > 0 {
      ApplyFailsEarly(h, utxos, block, n - 1, n);
      BlockDestroysExactly(h, utxos, block, who, n - 1);
      DestroyedStep(h, utxos, block, who, n);
      assert block.transactions[n - 1] in block.transactions;
      DestroyedExactly(h, ApplyFirst(h, utxos, block, n - 1).value.utxos, block.transactions[n - 1],
                       block.header.height, who);
    }
  }

  // ---------- Builds without overflow checks ----------

  /** An ordinary transaction that spends one unit into two outputs whose sum wraps around to one: without
      overflow checks it is valid and pays no fee, and its outputs are worth 2^64 + 1 units. */
  lemma {:induction false} UncheckedSpend(h: Host, utxos: UtxoSet, o: OutPoint, key: Bytes, owner: Bytes)
    requires !h.overflowChecks && h.owner(key) == Some(owner)
    requires o in utxos && utxos[o].output == TxOutput(1, owner)
    ensures var tx := Doubling(o, key, owner);
      && ValidateTransaction(h, utxos, tx) == Ok(0)
      && InputWorth(utxos, tx.inputs, None, 1) == 1
      && OutputWorth(tx.outputs, None, 2) == U64_LIMIT + 1
  {
    var tx := Doubling(o, key, owner);
    assert RedeemInputs(h, utxos, tx.inputs, 0) == Ok(0);
    assert RedeemInputs(h, utxos, tx.inputs, 1) == Ok(1);
    assert ValueSum(tx.outputs, 2) == ValueSum(tx.outputs, 1) + 2 == U64_LIMIT + 1;
    assert InputWorth(utxos, tx.inputs, None, 0) == 0;
    ValueIsWorth(tx.outputs, 2);
  }

  function Doubling(o: OutPoint, key: Bytes, owner: Bytes): Transaction {
    NewTransaction([TxInput(o, key, 0)], [TxOutput(MAX_U64, owner), TxOutput(2, owner)])
  }

  /** So a block applies whose coinbase stays within its subsidy, and the ledger is worth more after it than the
      bound of `BlockValue` allows. */
  lemma {:induction false} UncheckedSpendBlock(
      h: Host, utxos: UtxoSet, o: OutPoint, key: Bytes, owner: Bytes, header: BlockHeader)
    requires !h.overflowChecks && h.owner(key) == Some(owner)
    requires o in utxos && utxos[o].output == TxOutput(1, owner)
    requires header.height > 0 && Subsidy(header.height) > 0
    requires h.txid(NewTransaction([], [TxOutput(1, owner)])) != o.txid
    ensures var block := Block(header, [NewTransaction([], [TxOutput(1, owner)]), Doubling(o, key, owner)]);
      && ApplyBlock(h, utxos, block).Ok?
      && Sum(ApplyBlock(h, utxos, block).value, None) + BlockDestroyed(h, utxos, block, None, 2)
         > Sum(utxos, None) + Subsidy(header.height)
  {
    var coinbase, tx := NewTransaction([], [TxOutput(1, owner)]), Doubling(o, key, owner);
    var block, height := Block(header, [coinbase, tx]), header.height;
    var first := ApplyTransaction(h, utxos, coinbase, height);
    assert Spent([], 0) == {} && utxos - {} == utxos;
    assert ValueSum(coinbase.outputs, 1) == ValueSum(coinbase.outputs, 0) + 1;
    assert first == utxos[OutputPoint(h.txid(coinbase), 0) := Utxo(TxOutput(1, owner), height, true)] by {
      assert InsertOutputs(utxos, h.txid(coinbase), coinbase, height, 0) == utxos;
    }
    UncheckedSpend(h, first, o, key, owner);
    hide ApplyTransaction, ValidateTransaction, Subsidy, Sum, BlockDestroyed, Doubling;
    assert ApplyFirst(h, utxos, block, 0) == Ok(Progress(utxos, 0));
    assert ApplyFirst(h, utxos, block, 1) == Ok(Progress(first, 0));
    assert tx.inputs != [] by {
      DoublingInexact(h, o, key, owner);
    }
    assert ApplyFirst(h, utxos, block, 2).Ok? && ApplyFirst(h, utxos, block, 2).value.fees == 0;
    DoublingInexact(h, o, key, owner);
    assert tx in block.transactions;
    BoundExactly(h, utxos, block);
  }

  lemma DoublingInexact(h: Host, o: OutPoint, key: Bytes, owner: Bytes)
    requires !h.overflowChecks
    ensures Doubling(o, key, owner).inputs != [] && !Exact(h, Doubling(o, key, owner))
  {
    var outputs := Doubling(o, key, owner).outputs;
    assert ValueSum(outputs, 2) == ValueSum(outputs, 1) + 2 == U64_LIMIT + 1;
  }
}

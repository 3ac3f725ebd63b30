/** Why pending transactions stay valid (src/mempool.rs, src/blockchain.rs). */
module Pending {
  import opened Types
  import opened Ledger
  import opened Accounting
  import opened Mempool
  import opened Sorting

  // ---------- Outpoints name outputs ----------

  /** The transactions a theorem is about: no two share a txid, and none has more outputs than an outpoint
      can number. */
  ghost predicate Universe(h: Host, all: set<Transaction>) {
    && (forall s, t :: s in all && t in all && h.txid(s) == h.txid(t) ==> s == t)
    && (forall t :: t in all ==> |t.outputs| < U32_LIMIT)
  }

  /** The output is the one that its outpoint names. */
  ghost predicate Names(h: Host, all: set<Transaction>, o: OutPoint, output: TxOutput) {
    exists t :: t in all && h.txid(t) == o.txid && o.vout < |t.outputs| && t.outputs[o.vout] == output
  }

  ghost predicate Named(h: Host, all: set<Transaction>, utxos: UtxoSet) {
    forall o :: o in utxos ==> Names(h, all, o, utxos[o].output)
  }

  /** An outpoint determines its output, whatever chain it appears on. */
  lemma OutpointDetermines(h: Host, all: set<Transaction>, o: OutPoint, a: TxOutput, b: TxOutput)
    requires Universe(h, all) && Names(h, all, o, a) && Names(h, all, o, b)
    ensures a == b
  {
  }

  // ---------- What is left alone ----------

  /** Everything in `utxos` outside `spent` is in `later`, with the same output. */
  ghost predicate Kept(utxos: UtxoSet, spent: set<OutPoint>, later: UtxoSet) {
    forall o :: o in utxos && o !in spent ==> o in later && later[o].output == utxos[o].output
  }

  lemma {:induction false} InsertKept(
      h: Host, all: set<Transaction>, utxos: UtxoSet, tx: Transaction, height: u64, n: nat)
    requires Universe(h, all) && Named(h, all, utxos) && tx in all && n <= |tx.outputs|
    ensures var later := InsertOutputs(utxos, h.txid(tx), tx, height, n);
      Named(h, all, later) && Kept(utxos, {}, later)
  {
    if n > 0 {
      InsertKept(h, all, utxos, tx, height, n - 1);
      var before := InsertOutputs(utxos, h.txid(tx), tx, height, n - 1);
      var o := OutputPoint(h.txid(tx), n - 1);
      assert o.vout == n - 1;
      assert Names(h, all, o, tx.outputs[n - 1]);
      if o in before {
        OutpointDetermines(h, all, o, tx.outputs[n - 1], before[o].output);
      }
    }
  }

  lemma ApplyKept(h: Host, all: set<Transaction>, utxos: UtxoSet, tx: Transaction, height: u64)
    requires Universe(h, all) && Named(h, all, utxos) && tx in all
    ensures var later := ApplyTransaction(h, utxos, tx, height);
      Named(h, all, later) && Kept(utxos, InputPoints(tx), later)
  {
    var rest := utxos - Spent(tx.inputs, |tx.inputs|);
    assert Spent(tx.inputs, |tx.inputs|) == InputPoints(tx);
    InsertKept(h, all, rest, tx, height, |tx.outputs|);
  }

  /** A transaction whose inputs are left alone validates as before. */
  lemma {:induction false} RedeemFrame(h: Host, utxos: UtxoSet, later: UtxoSet, inputs: seq<TxInput>, n: nat)
    requires n <= |inputs| && RedeemInputs(h, utxos, inputs, n).Ok?
    requires forall i :: 0 <= i < n && inputs[i].previousOutput in utxos ==>
      && inputs[i].previousOutput in later
      && later[inputs[i].previousOutput].output == utxos[inputs[i].previousOutput].output
    ensures RedeemInputs(h, later, inputs, n) == RedeemInputs(h, utxos, inputs, n)
  {
    if n > 0 {
      RedeemFrame(h, utxos, later, inputs, n - 1);
    }
  }

  lemma ValidateFrame(h: Host, utxos: UtxoSet, spent: set<OutPoint>, later: UtxoSet, tx: Transaction)
    requires Kept(utxos, spent, later) && InputPoints(tx) !! spent
    requires ValidateTransaction(h, utxos, tx).Ok?
    ensures ValidateTransaction(h, later, tx) == ValidateTransaction(h, utxos, tx)
  {
    assert forall i :: 0 <= i < |tx.inputs| ==> tx.inputs[i].previousOutput in InputPoints(tx);
    RedeemFrame(h, utxos, later, tx.inputs, |tx.inputs|);
  }

  // ---------- The pool ----------

  /** Every pending transaction spends something, is valid with exactly its recorded fee, and shares no
      input with another. */
  ghost predicate PoolSound(h: Host, all: set<Transaction>, utxos: UtxoSet, p: Pool) {
    && Keyed(h, p.transactions)
    && (forall k :: k in p.transactions ==>
          && p.transactions[k].transaction in all
          && p.transactions[k].transaction.inputs != []
          && ValidateTransaction(h, utxos, p.transactions[k].transaction) == Ok(p.transactions[k].feePaid))
    && (forall j, k :: j in p.transactions && k in p.transactions && j != k ==>
          InputPoints(p.transactions[j].transaction) !! InputPoints(p.transactions[k].transaction))
  }

  lemma {:induction false} ConfirmedSplit(confirmed: seq<Transaction>, n: nat)
    requires 0 < n <= |confirmed|
    ensures ConfirmedInputs(confirmed[..n]) == ConfirmedInputs(confirmed[..n - 1]) + InputPoints(confirmed[n - 1])
  {
    OneMoreConfirmed(confirmed, n - 1);
  }

  /** A block leaves alone whatever none of its transactions spends. */
  lemma {:induction false} BlockKept(h: Host, all: set<Transaction>, utxos: UtxoSet, block: Block, n: nat)
    requires Universe(h, all) && Named(h, all, utxos) && n <= |block.transactions|
    requires (forall t <- block.transactions :: t in all) && ApplyFirst(h, utxos, block, n).Ok?
    ensures var later := ApplyFirst(h, utxos, block, n).value.utxos;
      Named(h, all, later) && Kept(utxos, ConfirmedInputs(block.transactions[..n]), later)
  {
    hide *;
    if n == 0 {
      BlockStart(h, utxos, block);
    } else {
      BlockStep(h, utxos, block, n);
      BlockKept(h, all, utxos, block, n - 1);
      var before, txs := ApplyFirst(h, utxos, block, n - 1).value.utxos, block.transactions;
      assert txs[n - 1] in txs;
      ApplyKept(h, all, before, txs[n - 1], block.header.height);
      ConfirmedSplit(txs, n);
      KeptTwice(utxos, ConfirmedInputs(txs[..n - 1]), before, InputPoints(txs[n - 1]),
                ApplyTransaction(h, before, txs[n - 1], block.header.height));
    }
  }

  lemma {:induction false} BlockStart(h: Host, utxos: UtxoSet, block: Block)
    ensures ApplyFirst(h, utxos, block, 0) == Ok(Progress(utxos, 0))
    ensures Kept(utxos, ConfirmedInputs(block.transactions[..0]), utxos)
  {
  }

  lemma BlockStep(h: Host, utxos: UtxoSet, block: Block, n: nat)
    requires 0 < n <= |block.transactions| && ApplyFirst(h, utxos, block, n).Ok?
    ensures var before := ApplyFirst(h, utxos, block, n - 1);
      && before.Ok?
      && ApplyFirst(h, utxos, block, n).value.utxos
         == ApplyTransaction(h, before.value.utxos, block.transactions[n - 1], block.header.height)
  {
    hide ValidateTransaction, CheckTransaction, ApplyTransaction;
  }

  lemma KeptTwice(a: UtxoSet, s: set<OutPoint>, b: UtxoSet, t: set<OutPoint>, c: UtxoSet)
    requires Kept(a, s, b) && Kept(b, t, c)
    ensures Kept(a, s + t, c)
  {
  }

  /** When a block extends the ledger, the entries that survive its confirmation are a sound pool for
      the new ledger. */
  lemma CleanedSound(h: Host, all: set<Transaction>, utxos: UtxoSet, p: Pool, block: Block)
    requires Universe(h, all) && Named(h, all, utxos) && PoolSound(h, all, utxos, p)
    requires (forall t <- block.transactions :: t in all) && ApplyBlock(h, utxos, block).Ok?
    ensures var later := ApplyBlock(h, utxos, block).value;
      Named(h, all, later) && PoolSound(h, all, later, Cleaned(h, p, block.transactions))
  {
    var txs := block.transactions;
    var later := ApplyBlock(h, utxos, block).value;
    BlockKept(h, all, utxos, block, |txs|);
    assert txs[..|txs|] == txs;
    var q := Cleaned(h, p, txs);
    forall k | k in q.transactions
      ensures ValidateTransaction(h, later, q.transactions[k].transaction) == Ok(q.transactions[k].feePaid)
    {
      ValidateFrame(h, utxos, ConfirmedInputs(txs), later, q.transactions[k].transaction);
    }
  }

  // ---------- Any selection applies ----------

  /** The block loop over transactions that are not the first. */
  function ApplyRest(h: Host, start: Progress, txs: seq<Transaction>, height: u64, n: nat): Result<Progress>
    requires n <= |txs|
  {
    if n == 0 then Ok(start)
    else
      var p :- ApplyRest(h, start, txs, height, n - 1);
      ApplyNext(h, p, txs[n - 1], false, height)
  }

  lemma {:induction false} FeePrefix(p: Pool, keys: seq<Digest>, n: nat)
    requires 0 < n <= |keys| && forall k <- keys :: k in p.transactions
    ensures FeeSum(p, keys[..n]) == FeeSum(p, keys[..n - 1]) + p.transactions[keys[n - 1]].feePaid
  {
    assert keys[..n][..n - 1] == keys[..n - 1];
  }

  /** A choice of different pending transactions spends different outpoints. */
  lemma NextIsApart(h: Host, all: set<Transaction>, utxos: UtxoSet, p: Pool, keys: seq<Digest>, n: nat)
    requires PoolSound(h, all, utxos, p) && Distinct(keys) && n < |keys| && forall k <- keys :: k in p.transactions
    ensures InputPoints(p.transactions[keys[n]].transaction) !! ConfirmedInputs(Chosen(p, keys)[..n])
  {
    var chosen := Chosen(p, keys)[..n];
    forall o | o in ConfirmedInputs(chosen)
      ensures o !in InputPoints(p.transactions[keys[n]].transaction)
    {
      var i, j :| 0 <= i < |chosen| && 0 <= j < |chosen[i].inputs| && chosen[i].inputs[j].previousOutput == o;
      assert keys[i] in keys && keys[n] in keys && keys[i] != keys[n];
      assert chosen[i] == p.transactions[keys[i]].transaction;
      assert o in InputPoints(p.transactions[keys[i]].transaction);
    }
  }

  /** Any different pending transactions, in any order, go through the block loop one after the other, each
      paying exactly the fee that was recorded for it, as long as the fees add up within u64. */
  lemma {:induction false} AnyOrderApplies(
      h: Host, all: set<Transaction>, utxos: UtxoSet, p: Pool, keys: seq<Digest>, height: u64, n: nat)
    requires Universe(h, all) && Named(h, all, utxos) && PoolSound(h, all, utxos, p)
    requires Distinct(keys) && n <= |keys| && (forall k <- keys :: k in p.transactions)
    ensures var txs := Chosen(p, keys);
      var end := ApplyRest(h, Progress(utxos, 0), txs, height, n);
      && (end.Ok? <==> FeeSum(p, keys[..n]) < U64_LIMIT)
      && (end.Ok? ==> end.value.fees == FeeSum(p, keys[..n]) && Named(h, all, end.value.utxos)
                      && Kept(utxos, ConfirmedInputs(txs[..n]), end.value.utxos))
  {
    hide ApplyRest, Chosen, FeeSum, Universe, Named, PoolSound, Kept, ConfirmedInputs, Distinct, ApplyNext;
    RestStart(h, utxos, p, keys, height);
    if n > 0 {
      AnyOrderApplies(h, all, utxos, p, keys, height, n - 1);
      FeePrefix(p, keys, n);
      RestStep(h, Progress(utxos, 0), Chosen(p, keys), height, n);
      var before := ApplyRest(h, Progress(utxos, 0), Chosen(p, keys), height, n - 1);
      if before.Ok? {
        PendingStep(h, all, utxos, p, keys, height, n, before.value);
      }
    }
  }

  lemma {:induction false} RestStart(h: Host, utxos: UtxoSet, p: Pool, keys: seq<Digest>, height: u64)
    requires forall k <- keys :: k in p.transactions
    ensures ApplyRest(h, Progress(utxos, 0), Chosen(p, keys), height, 0) == Ok(Progress(utxos, 0))
    ensures |Chosen(p, keys)| == |keys| && FeeSum(p, keys[..0]) == 0
    ensures Kept(utxos, ConfirmedInputs(Chosen(p, keys)[..0]), utxos)
  {
  }

  lemma RestStep(h: Host, start: Progress, txs: seq<Transaction>, height: u64, n: nat)
    requires 0 < n <= |txs|
    ensures var before := ApplyRest(h, start, txs, height, n - 1);
      ApplyRest(h, start, txs, height, n) ==
        if before.Ok? then ApplyNext(h, before.value, txs[n - 1], false, height) else before
  {
    hide ApplyNext;
  }

  /** One more of the chosen transactions, after the ones before it. */
  lemma PendingStep(h: Host, all: set<Transaction>, utxos: UtxoSet, p: Pool, keys: seq<Digest>, height: u64, n: nat,
                    before: Progress)
    requires Universe(h, all) && Named(h, all, before.utxos) && PoolSound(h, all, utxos, p)
    requires Distinct(keys) && 0 < n <= |keys| && (forall k <- keys :: k in p.transactions)
    requires |Chosen(p, keys)| == |keys| && Kept(utxos, ConfirmedInputs(Chosen(p, keys)[..n - 1]), before.utxos)
    ensures var txs := Chosen(p, keys);
      var fees := before.fees + p.transactions[keys[n - 1]].feePaid;
      var next := ApplyNext(h, before, txs[n - 1], false, height);
      && (next.Ok? <==> fees < U64_LIMIT)
      && (next.Ok? ==> next.value.fees == fees && Named(h, all, next.value.utxos)
                       && Kept(utxos, ConfirmedInputs(txs[..n]), next.value.utxos))
  {
    var txs, tx := Chosen(p, keys), p.transactions[keys[n - 1]].transaction;
    assert keys[n - 1] in keys;
    NextIsApart(h, all, utxos, p, keys, n - 1);
    ConfirmedSplit(txs, n);
    assert tx.inputs != [] && tx in all
      && ValidateTransaction(h, utxos, tx) == Ok(p.transactions[keys[n - 1]].feePaid);
    hide PoolSound, Universe, Named, Kept, ValidateTransaction, ConfirmedInputs, InputPoints, ApplyTransaction,
        Distinct;
    ValidateFrame(h, utxos, ConfirmedInputs(txs[..n - 1]), before.utxos, tx);
    ApplyKept(h, all, before.utxos, tx, height);
    KeptTwice(utxos, ConfirmedInputs(txs[..n - 1]), before.utxos, InputPoints(tx),
              ApplyTransaction(h, before.utxos, tx, height));
  }

  /** All the fees that different pending transactions pay together come out of the ledger. */
  lemma {:induction false} FeesBounded(
      h: Host, all: set<Transaction>, utxos: UtxoSet, p: Pool, keys: seq<Digest>, n: nat)
    requires Universe(h, all) && PoolSound(h, all, utxos, p)
    requires Distinct(keys) && n <= |keys| && (forall k <- keys :: k in p.transactions)
    ensures Sum(utxos - ConfirmedInputs(Chosen(p, keys)[..n]), None) + FeeSum(p, keys[..n]) <= Sum(utxos, None)
  {
    var txs := Chosen(p, keys);
    if n == 0 {
      assert utxos - ConfirmedInputs(txs[..0]) == utxos;
    } else {
      var tx := txs[n - 1];
      assert keys[n - 1] in keys;
      FeesBounded(h, all, utxos, p, keys, n - 1);
      NextIsApart(h, all, utxos, p, keys, n - 1);
      ConfirmedSplit(txs, n);
      FeePrefix(p, keys, n);
      assert ValidateTransaction(h, utxos, tx).Ok?;
      hide Universe, PoolSound, ValidateTransaction, Distinct, Sum, FeeSum;
      var rest := utxos - ConfirmedInputs(txs[..n - 1]);
      assert utxos - ConfirmedInputs(txs[..n]) == rest - InputPoints(tx);
      SpendsItsFee(h, utxos, rest, tx);
    }
  }

  /** Taking out the inputs of a transaction takes out at least its fee. */
  lemma {:induction false} SpendsItsFee(h: Host, utxos: UtxoSet, rest: UtxoSet, tx: Transaction)
    requires ValidateTransaction(h, utxos, tx).Ok?
    requires forall o :: o in InputPoints(tx) && o in utxos ==> o in rest && rest[o] == utxos[o]
    ensures Sum(rest - InputPoints(tx), None) + ValidateTransaction(h, utxos, tx).value <= Sum(rest, None)
  {
    assert Spent(tx.inputs, |tx.inputs|) == InputPoints(tx);
    assert forall i :: 0 <= i < |tx.inputs| ==> tx.inputs[i].previousOutput in InputPoints(tx);
    RedeemFrame(h, utxos, rest, tx.inputs, |tx.inputs|);
    assert ValidateTransaction(h, rest, tx) == ValidateTransaction(h, utxos, tx);
    RedeemedValue(h, rest, tx.inputs, |tx.inputs|);
    RemoveAccounting(rest, tx.inputs, None, |tx.inputs|);
  }
}

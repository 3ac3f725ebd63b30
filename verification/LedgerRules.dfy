/** The rules of the ledger in plain terms (src/transaction.rs, src/blockchain.rs): exactly which transactions and
    which blocks are accepted, and what they leave. */
module LedgerRules {
  import opened Arithmetic
  import opened Types
  import opened Ledger
  import opened Accounting
  import Emission

  // ---------- Transactions ----------

  /** Transaction::validate accepts exactly the transactions that have outputs, all of them above zero, and no two
      inputs that spend the same outpoint; and it reports the first of these that fails. */
  lemma CheckExactly(tx: Transaction)
    ensures var distinct := forall i, j :: 0 <= i < j < |tx.inputs| ==>
                tx.inputs[i].previousOutput != tx.inputs[j].previousOutput;
      var positive := forall i :: 0 <= i < |tx.outputs| ==> tx.outputs[i].value > 0;
      CheckTransaction(tx) ==
        if |tx.outputs| == 0 then Err(NoOutputs)
        else if !distinct then Err(DuplicateInputs)
        else if !positive then Err(ZeroOutput)
        else Ok(())
  {
  }

  /** The output that the input spends is in the ledger, and belongs to the owner of the key. */
  predicate Redeems(h: Host, utxos: UtxoSet, input: TxInput) {
    && input.previousOutput in utxos
    && h.owner(input.scriptSig) == Some(utxos[input.previousOutput].output.scriptPubkey)
  }

  lemma {:induction false} RedeemExactly(h: Host, utxos: UtxoSet, inputs: seq<TxInput>, n: nat)
    requires n <= |inputs|
    ensures RedeemInputs(h, utxos, inputs, n).Ok? <==>
      (forall i :: 0 <= i < n ==> Redeems(h, utxos, inputs[i])) && InputWorth(utxos, inputs, None, n) < U64_LIMIT
    ensures RedeemInputs(h, utxos, inputs, n).Ok? ==>
      RedeemInputs(h, utxos, inputs, n).value == InputWorth(utxos, inputs, None, n)
  {
    if n > 0 {
      RedeemExactly(h, utxos, inputs, n - 1);
    }
  }

  /** A transaction is valid exactly if it is well formed, its inputs are in the ledger under its keys, what they are
      worth fits in u64, and its outputs, as u64 adds them up, come to no more; its fee is the difference. */
  lemma {:induction false} ValidExactly(h: Host, utxos: UtxoSet, tx: Transaction, fee: u64)
    ensures var inputs := InputWorth(utxos, tx.inputs, None, |tx.inputs|);
      var outputs := OutputWorth(tx.outputs, None, |tx.outputs|);
      ValidateTransaction(h, utxos, tx) == Ok(fee) <==>
        && |tx.outputs| > 0
        && (forall i :: 0 <= i < |tx.outputs| ==> tx.outputs[i].value > 0)
        && (forall i, j :: 0 <= i < j < |tx.inputs| ==> tx.inputs[i].previousOutput != tx.inputs[j].previousOutput)
        && (forall i :: 0 <= i < |tx.inputs| ==> Redeems(h, utxos, tx.inputs[i]))
        && inputs < U64_LIMIT
        && (h.overflowChecks ==> outputs < U64_LIMIT)
        && inputs == outputs % U64_LIMIT + fee
  {
    CheckExactly(tx);
    RedeemExactly(h, utxos, tx.inputs, |tx.inputs|);
    ValueIsWorth(tx.outputs, |tx.outputs|);
    hide RedeemInputs, CheckTransaction, InputWorth, OutputWorth, ValueSum;
  }

  // ---------- Blocks ----------

  /** The ledger after the first `n` transactions, each applied to what the one before has left. */
  function Through(h: Host, utxos: UtxoSet, block: Block, n: nat): UtxoSet
    requires n <= |block.transactions|
  {
    if n == 0 then utxos
    else ApplyTransaction(h, Through(h, utxos, block, n - 1), block.transactions[n - 1], block.header.height)
  }

  /** What the first `n` transactions pay in fees, the first of all nothing. */
  function Fees(h: Host, utxos: UtxoSet, block: Block, n: nat): nat
    requires n <= |block.transactions|
  {
    if n <= 1 then 0
    else
      Fees(h, utxos, block, n - 1) +
      match ValidateTransaction(h, Through(h, utxos, block, n - 1), block.transactions[n - 1])
      case Ok(fee) => fee
      case _ => 0
  }

  /** The place of each transaction: the first has no inputs and is well formed, unless it creates nothing in a block
      of height 0; every other has inputs and is valid in the ledger that those before it leave. */
  predicate InPlace(h: Host, utxos: UtxoSet, block: Block, i: nat)
    requires i < |block.transactions|
  {
    var tx := block.transactions[i];
    if i == 0 then
      && tx.inputs == []
      && ((block.header.height == 0 && forall o :: o in tx.outputs ==> o.value == 0) || CheckTransaction(tx).Ok?)
    else
      tx.inputs != [] && ValidateTransaction(h, Through(h, utxos, block, i), tx).Ok?
  }

  lemma FeesStep(h: Host, utxos: UtxoSet, block: Block, n: nat)
    requires 0 < n <= |block.transactions|
    ensures Fees(h, utxos, block, n) >= Fees(h, utxos, block, n - 1)
    ensures n > 1 && InPlace(h, utxos, block, n - 1) ==>
      Fees(h, utxos, block, n) == Fees(h, utxos, block, n - 1)
        + ValidateTransaction(h, Through(h, utxos, block, n - 1), block.transactions[n - 1]).value
    ensures n == 1 ==> Fees(h, utxos, block, n) == 0
  {
    hide Through, ValidateTransaction, CheckTransaction;
  }

  /** One turn of the block loop, at the ledger and the fees that it has come to. */
  lemma NextExactly(h: Host, utxos: UtxoSet, block: Block, p: Progress, n: nat)
    requires 0 < n <= |block.transactions| && Fees(h, utxos, block, n - 1) < U64_LIMIT
    requires p == Progress(Through(h, utxos, block, n - 1), Fees(h, utxos, block, n - 1))
    ensures var next := ApplyNext(h, p, block.transactions[n - 1], n == 1, block.header.height);
      && (next.Ok? <==> InPlace(h, utxos, block, n - 1) && Fees(h, utxos, block, n) < U64_LIMIT)
      && (next.Ok? ==> next.value == Progress(Through(h, utxos, block, n), Fees(h, utxos, block, n)))
  {
    FeesStep(h, utxos, block, n);
    var tx := block.transactions[n - 1];
    assert Through(h, utxos, block, n)
        == ApplyTransaction(h, Through(h, utxos, block, n - 1), tx, block.header.height);
    hide Fees, Through, ApplyTransaction, ValidateTransaction, CheckTransaction;
    if n == 1 {
      assert (forall o :: o in tx.outputs ==> o.value == 0)
        <==> !exists i :: 0 <= i < |tx.outputs| && tx.outputs[i].value != 0;
    }
  }

  lemma {:induction false} FirstExactly(h: Host, utxos: UtxoSet, block: Block, n: nat)
    requires n <= |block.transactions|
    ensures ApplyFirst(h, utxos, block, n).Ok? <==>
      (forall i :: 0 <= i < n ==> InPlace(h, utxos, block, i)) && Fees(h, utxos, block, n) < U64_LIMIT
    ensures ApplyFirst(h, utxos, block, n).Ok? ==>
      ApplyFirst(h, utxos, block, n).value == Progress(Through(h, utxos, block, n), Fees(h, utxos, block, n))
  {
    if n > 0 {
      FirstExactly(h, utxos, block, n - 1);
      FeesStep(h, utxos, block, n);
      var before := ApplyFirst(h, utxos, block, n - 1);
      if before.Ok? {
        NextExactly(h, utxos, block, before.value, n);
      }
      hide ApplyNext, InPlace, Fees, Through;
    }
  }

  /** A block applies exactly if it has transactions, each is in its place, and the first claims no more than the
      subsidy of its height and the fees of the others, as u64 adds up its outputs; all of these sums fit. It leaves
      what its transactions leave one after the other. */
  lemma {:induction false} AppliesExactly(h: Host, utxos: UtxoSet, block: Block)
    ensures var n := |block.transactions|;
      ApplyBlock(h, utxos, block).Ok? <==>
        && n > 0
        && (forall i :: 0 <= i < n ==> InPlace(h, utxos, block, i))
        && var claimed := OutputWorth(block.transactions[0].outputs, None, |block.transactions[0].outputs|);
           var allowed := Emission.BlockReward(Emission.DEFAULT, block.header.height) + Fees(h, utxos, block, n);
           allowed < U64_LIMIT && (h.overflowChecks ==> claimed < U64_LIMIT) && claimed % U64_LIMIT <= allowed
    ensures ApplyBlock(h, utxos, block).Ok? ==>
      ApplyBlock(h, utxos, block).value == Through(h, utxos, block, |block.transactions|)
  {
    hide ApplyFirst, CheckReward, Through, Fees, InPlace, OutputWorth, Emission.BlockReward;
    var n := |block.transactions|;
    FirstExactly(h, utxos, block, n);
    if n > 0 && Fees(h, utxos, block, n) < U64_LIMIT {
      RewardExactly(h, block, Fees(h, utxos, block, n));
    }
  }

  lemma RewardExactly(h: Host, block: Block, fees: u64)
    requires block.transactions != []
    ensures var claimed := OutputWorth(block.transactions[0].outputs, None, |block.transactions[0].outputs|);
      var allowed := Emission.BlockReward(Emission.DEFAULT, block.header.height) + fees;
      CheckReward(h, block, fees).Ok? <==>
        allowed < U64_LIMIT && (h.overflowChecks ==> claimed < U64_LIMIT) && claimed % U64_LIMIT <= allowed
  {
    var outputs := block.transactions[0].outputs;
    ValueIsWorth(outputs, |outputs|);
    hide ValueSum, OutputWorth, Emission.BlockReward;
  }

  // ---------- Subsidies ----------

  function Pow2(n: nat): (p: nat)
    ensures p > 0
  {
    if n == 0 then 1 else 2 * Pow2(n - 1)
  }

  lemma {:induction false} HalvedTimes(reward: nat, count: nat)
    ensures Emission.Halve(reward, count) * Pow2(count) <= reward < (Emission.Halve(reward, count) + 1) * Pow2(count)
  {
    if count > 0 {
      HalvedTimes(reward, count - 1);
      HalvedOnce(Emission.Halve(reward, count - 1), Pow2(count - 1), reward);
    }
  }

  lemma HalvedOnce(more: nat, p: nat, reward: nat)
    requires more * p <= reward < (more + 1) * p
    ensures more / 2 * (2 * p) <= reward < (more / 2 + 1) * (2 * p)
  {
    var less := more / 2;
    SwapFactors(less, p);
    SwapFactors(less + 1, p);
    MulMonotone(2 * less, more, p);
    MulMonotone(more + 1, 2 * (less + 1), p);
  }

  /** The subsidy of a height is 100 coins halved once for every 2,102,400 blocks before it, rounded down, and nothing
      after 34 such epochs. */
  lemma SubsidyExactly(height: u64)
    ensures var epoch := height / 2_102_400; var reward := Subsidy(height);
      if epoch >= 34 then reward == 0
      else reward * Pow2(epoch) <= 10_000_000_000 < (reward + 1) * Pow2(epoch)
  {
    HalvedTimes(10_000_000_000, height / 2_102_400);
    assert Emission.DEFAULT.halvingInterval == 2_102_400 && Emission.DEFAULT.maxHalvings == 34;
    hide Emission.Halve, Pow2;
  }
}

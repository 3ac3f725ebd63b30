/** What one transaction and one block do to a UTXO set (src/blockchain.rs, src/transaction.rs). */
module Ledger {
  import opened Types
  import Emission

  // ---------- Transactions ----------

  predicate DistinctInputs(inputs: seq<TxInput>) {
    forall i, j :: 0 <= i < j < |inputs| ==> inputs[i].previousOutput != inputs[j].previousOutput
  }

  /** Transaction::validate */
  function CheckTransaction(tx: Transaction): Result<()> {
    if tx.outputs == [] then Err(NoOutputs)
    else if !DistinctInputs(tx.inputs) then Err(DuplicateInputs)
    else if exists i :: 0 <= i < |tx.outputs| && tx.outputs[i].value == 0 then Err(ZeroOutput)
    else Ok(())
  }

  function ValueSum(outputs: seq<TxOutput>, n: nat): nat
    requires n <= |outputs|
  {
    if n == 0 then 0 else ValueSum(outputs, n - 1) + outputs[n - 1].value
  }

  /** Transaction::total_output_value */
  function TotalOutput(h: Host, outputs: seq<TxOutput>): Result<u64> {
    h.Plain(ValueSum(outputs, |outputs|))
  }

  /** What the first `n` inputs redeem. */
  function RedeemInputs(h: Host, utxos: UtxoSet, inputs: seq<TxInput>, n: nat): Result<u64>
    requires n <= |inputs|
  {
    if n == 0 then Ok(0)
    else
      var total :- RedeemInputs(h, utxos, inputs, n - 1);
      var input := inputs[n - 1];
      if input.previousOutput !in utxos then Err(InputMissing)
      else
        var output := utxos[input.previousOutput].output;
        match h.owner(input.scriptSig)
        case None => Err(NoPublicKey)
        case Some(owner) =>
          if owner != output.scriptPubkey then Err(WrongOwner)
          else if total + output.value >= U64_LIMIT then Err(InputOverflow)
          else Ok(total + output.value)
  }

  /** validate_transaction_against_utxo_set: the fee, if the transaction may spend its inputs. */
  function ValidateTransaction(h: Host, utxos: UtxoSet, tx: Transaction): Result<u64> {
    var _ :- CheckTransaction(tx);
    var input :- RedeemInputs(h, utxos, tx.inputs, |tx.inputs|);
    var output :- TotalOutput(h, tx.outputs);
    if output > input then Err(OutputsExceedInputs) else Ok(input - output)
  }

  /** The outpoints spent by the first `n` inputs. */
  function Spent(inputs: seq<TxInput>, n: nat): set<OutPoint>
    requires n <= |inputs|
  {
    set i | 0 <= i < n :: inputs[i].previousOutput
  }

  /** `vout as u32` keeps the low 32 bits of the index. */
  function OutputPoint(txid: Digest, index: nat): OutPoint {
    OutPoint(txid, index % U32_LIMIT)
  }

  /** The set after the first `n` outputs of a transaction have been inserted. */
  function InsertOutputs(utxos: UtxoSet, txid: Digest, tx: Transaction, height: u64, n: nat): UtxoSet
    requires n <= |tx.outputs|
  {
    if n == 0 then utxos
    else InsertOutputs(utxos, txid, tx, height, n - 1)[
        OutputPoint(txid, n - 1) := Utxo(tx.outputs[n - 1], height, tx.inputs == [])]
  }

  /** apply_transaction */
  function ApplyTransaction(h: Host, utxos: UtxoSet, tx: Transaction, height: u64): UtxoSet {
    InsertOutputs(utxos - Spent(tx.inputs, |tx.inputs|), h.txid(tx), tx, height, |tx.outputs|)
  }

  // ---------- Blocks ----------

  datatype Progress = Progress(utxos: UtxoSet, fees: u64)

  function Subsidy(height: u64): u64 {
    Emission.BlockReward(Emission.DEFAULT, height)
  }

  /** One turn of the loop of apply_block_to_utxo_set. */
  function ApplyNext(h: Host, p: Progress, tx: Transaction, first: bool, height: u64): Result<Progress> {
    if first then
      if tx.inputs != [] then Err(FirstNotCoinbase)
      else
        var _ :- if height != 0 || exists i :: 0 <= i < |tx.outputs| && tx.outputs[i].value != 0
                 then CheckTransaction(tx) else Ok(());
        Ok(p.(utxos := ApplyTransaction(h, p.utxos, tx, height)))
    else if tx.inputs == [] then Err(ExtraCoinbase)
    else
      var fee :- ValidateTransaction(h, p.utxos, tx);
      if p.fees + fee >= U64_LIMIT then Err(FeeOverflow)
      else Ok(Progress(ApplyTransaction(h, p.utxos, tx, height), p.fees + fee))
  }

  function ApplyFirst(h: Host, utxos: UtxoSet, block: Block, n: nat): Result<Progress>
    requires n <= |block.transactions|
  {
    if n == 0 then Ok(Progress(utxos, 0))
    else
      var p :- ApplyFirst(h, utxos, block, n - 1);
      ApplyNext(h, p, block.transactions[n - 1], n == 1, block.header.height)
  }

  /** validate_block_reward */
  function CheckReward(h: Host, block: Block, fees: u64): Result<()>
    requires block.transactions != []
  {
    var allowed := Subsidy(block.header.height) + fees;
    if allowed >= U64_LIMIT then Err(RewardOverflow)
    else
      var coinbase :- TotalOutput(h, block.transactions[0].outputs);
      if coinbase > allowed then Err(RewardTooLarge) else Ok(())
  }

  /** apply_block_to_utxo_set */
  function ApplyBlock(h: Host, utxos: UtxoSet, block: Block): Result<UtxoSet> {
    if block.transactions == [] then Err(NoTransactions)
    else
      var p :- ApplyFirst(h, utxos, block, |block.transactions|);
      var _ :- CheckReward(h, block, p.fees);
      Ok(p.utxos)
  }

  // ---------- The loops that compute them ----------

  /** The loop of Transaction::validate over a growing set of seen outpoints. */
  method CheckTransactionLoop(tx: Transaction) returns (r: Result<()>)
    ensures r == CheckTransaction(tx)
  {
    if tx.outputs == [] {
      return Err(NoOutputs);
    }
    var seen: set<OutPoint> := {};
    for i := 0 to |tx.inputs|
      invariant seen == Spent(tx.inputs, i)
      invariant DistinctInputs(tx.inputs[..i])
    {
      if tx.inputs[i].previousOutput in seen {
        return Err(DuplicateInputs);
      }
      seen := seen + {tx.inputs[i].previousOutput};
    }
    assert tx.inputs[..|tx.inputs|] == tx.inputs;
    for i := 0 to |tx.outputs|
      invariant forall j :: 0 <= j < i ==> tx.outputs[j].value != 0
    {
      if tx.outputs[i].value == 0 {
        return Err(ZeroOutput);
      }
    }
    r := Ok(());
  }

  method ValidateTransactionLoop(h: Host, utxos: UtxoSet, tx: Transaction) returns (r: Result<u64>)
    ensures r == ValidateTransaction(h, utxos, tx)
  {
    var _ :- CheckTransactionLoop(tx);
    var total: u64 := 0;
    for i := 0 to |tx.inputs|
      invariant RedeemInputs(h, utxos, tx.inputs, i) == Ok(total)
    {
      RedeemFailsEarly(h, utxos, tx.inputs, i + 1, |tx.inputs|);
      var input := tx.inputs[i];
      if input.previousOutput !in utxos {
        return Err(InputMissing);
      }
      var output := utxos[input.previousOutput].output;
      var owner := h.owner(input.scriptSig);
      if owner.None? {
        return Err(NoPublicKey);
      }
      if owner.value != output.scriptPubkey {
        return Err(WrongOwner);
      }
      if total + output.value >= U64_LIMIT {
        return Err(InputOverflow);
      }
      total := total + output.value;
    }
    var output :- TotalOutput(h, tx.outputs);
    r := if output > total then Err(OutputsExceedInputs) else Ok(total - output);
  }

  lemma {:induction false} RedeemFailsEarly(h: Host, utxos: UtxoSet, inputs: seq<TxInput>, m: nat, n: nat)
    requires m <= n <= |inputs|
    ensures !RedeemInputs(h, utxos, inputs, m).Ok?
        ==> RedeemInputs(h, utxos, inputs, n) == RedeemInputs(h, utxos, inputs, m)
  {
    if m < n {
      RedeemFailsEarly(h, utxos, inputs, m, n - 1);
    }
  }

  method ApplyTransactionLoop(h: Host, utxos: UtxoSet, tx: Transaction, height: u64) returns (r: UtxoSet)
    ensures r == ApplyTransaction(h, utxos, tx, height)
  {
    r := utxos;
    if tx.inputs != [] {
      for i := 0 to |tx.inputs|
        invariant r == utxos - Spent(tx.inputs, i)
      {
        r := r - {tx.inputs[i].previousOutput};
      }
    }
    var txid := h.txid(tx);
    ghost var kept := utxos - Spent(tx.inputs, |tx.inputs|);
    assert r == kept;
    for vout := 0 to |tx.outputs|
      invariant r == InsertOutputs(kept, txid, tx, height, vout)
    {
      r := r[OutputPoint(txid, vout) := Utxo(tx.outputs[vout], height, tx.inputs == [])];
    }
  }

  lemma {:induction false} ApplyFailsEarly(h: Host, utxos: UtxoSet, block: Block, m: nat, n: nat)
    requires m <= n <= |block.transactions|
    ensures !ApplyFirst(h, utxos, block, m).Ok?
        ==> ApplyFirst(h, utxos, block, n) == ApplyFirst(h, utxos, block, m)
  {
    hide ApplyNext;
    if m < n {
      ApplyFailsEarly(h, utxos, block, m, n - 1);
    }
  }

  /** The body of the block loop: check one transaction, add its fee, apply it. */
  method ApplyNextStep(h: Host, p: Progress, tx: Transaction, index: nat, height: u64)
    returns (r: Result<Progress>)
    ensures r == ApplyNext(h, p, tx, index == 0, height)
  {
    var fees := p.fees;
    if index == 0 {
      if tx.inputs != [] {
        return Err(FirstNotCoinbase);
      }
      if height != 0 || exists i :: 0 <= i < |tx.outputs| && tx.outputs[i].value != 0 {
        var _ :- CheckTransactionLoop(tx);
      }
    } else {
      if tx.inputs == [] {
        return Err(ExtraCoinbase);
      }
      var fee :- ValidateTransactionLoop(h, p.utxos, tx);
      if fees + fee >= U64_LIMIT {
        return Err(FeeOverflow);
      }
      fees := fees + fee;
    }
    var utxos := ApplyTransactionLoop(h, p.utxos, tx, height);
    r := Ok(Progress(utxos, fees));
  }

  method ApplyBlockLoop(h: Host, utxos: UtxoSet, block: Block) returns (r: Result<UtxoSet>)
    ensures r == ApplyBlock(h, utxos, block)
  {
    hide ApplyNext, CheckReward;
    if block.transactions == [] {
      return Err(NoTransactions);
    }
    var p := Progress(utxos, 0);
    for index := 0 to |block.transactions|
      invariant ApplyFirst(h, utxos, block, index) == Ok(p)
    {
      ApplyFailsEarly(h, utxos, block, index + 1, |block.transactions|);
      p :- ApplyNextStep(h, p, block.transactions[index], index, block.header.height);
    }
    var _ :- CheckReward(h, block, p.fees);
    r := Ok(p.utxos);
  }
}

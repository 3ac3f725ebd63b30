/** Where the value of a UTXO set goes: exact accounting of one transaction, and the bound that a
    block's reward check puts on everything a block can add. */
module Accounting {
  import opened Types
  import opened Ledger
  import Emission

  /** The value an output has for a script; for no script in particular, its value. */
  function Worth(output: TxOutput, who: Option<Bytes>): nat {
    if who.None? || output.scriptPubkey == who.value then output.value else 0
  }

  ghost function Sum(utxos: UtxoSet, who: Option<Bytes>): nat {
    if utxos == map[] then 0
    else
      var o :| o in utxos;
      Worth(utxos[o].output, who) + Sum(utxos - {o}, who)
  }

  lemma {:induction false} SumRemove(utxos: UtxoSet, o: OutPoint, who: Option<Bytes>)
    requires o in utxos
    ensures Sum(utxos, who) == Worth(utxos[o].output, who) + Sum(utxos - {o}, who)
    decreases |utxos|
  {
    var p :| p in utxos && Sum(utxos, who) == Worth(utxos[p].output, who) + Sum(utxos - {p}, who);
    if p != o {
      SumRemove(utxos - {p}, o, who);
      SumRemove(utxos - {o}, p, who);
      assert utxos - {p} - {o} == utxos - {o} - {p};
    }
  }

  /** What an insertion destroys: the worth of the entry it overwrites. */
  function Overwritten(utxos: UtxoSet, o: OutPoint, who: Option<Bytes>): nat {
    if o in utxos then Worth(utxos[o].output, who) else 0
  }

  lemma SumInsert(utxos: UtxoSet, o: OutPoint, x: Utxo, who: Option<Bytes>)
    ensures Sum(utxos[o := x], who) + Overwritten(utxos, o, who) == Sum(utxos, who) + Worth(x.output, who)
  {
    SumRemove(utxos[o := x], o, who);
    assert utxos[o := x] - {o} == utxos - {o};
    if o in utxos {
      SumRemove(utxos, o, who);
    } else {
      assert utxos - {o} == utxos;
    }
  }

  /** get_balance: the sum in whatever order the map is visited, as plain u64 arithmetic gives it. */
  method GetBalance(h: Host, utxos: UtxoSet, script: Bytes) returns (r: Result<u64>)
    ensures r == h.Plain(Sum(utxos, Some(script)))
  {
    var rest, total := utxos, 0;
    ghost var seen: nat := 0;
    while rest.Keys != {}
      invariant rest.Keys <= utxos.Keys
      invariant seen + Sum(rest, Some(script)) == Sum(utxos, Some(script))
      invariant total == seen % U64_LIMIT && (h.overflowChecks ==> total == seen)
      decreases rest.Keys
    {
      var o: OutPoint :| o in rest.Keys;
      SumRemove(rest, o, Some(script));
      if rest[o].output.scriptPubkey == script {
        var next := h.Plain(total + rest[o].output.value);
        WrapAdd(seen, rest[o].output.value);
        if next.IsFailure() {
          return next;
        }
        seen := seen + rest[o].output.value;
        total := next.value;
      }
      rest := rest - {o};
    }
    r := Ok(total);
  }

  lemma WrapAdd(a: nat, b: nat)
    ensures (a % U64_LIMIT + b) % U64_LIMIT == (a + b) % U64_LIMIT
  {
  }

  // ---------- One transaction ----------

  function OutputWorth(outputs: seq<TxOutput>, who: Option<Bytes>, n: nat): nat
    requires n <= |outputs|
  {
    if n == 0 then 0 else OutputWorth(outputs, who, n - 1) + Worth(outputs[n - 1], who)
  }

  function InputWorth(utxos: UtxoSet, inputs: seq<TxInput>, who: Option<Bytes>, n: nat): nat
    requires n <= |inputs|
  {
    if n == 0 then 0
    else InputWorth(utxos, inputs, who, n - 1) + Overwritten(utxos, inputs[n - 1].previousOutput, who)
  }

  /** The worth of everything that inserting the first `n` outputs overwrites. */
  function Lost(utxos: UtxoSet, txid: Digest, tx: Transaction, height: u64, who: Option<Bytes>, n: nat): nat
    requires n <= |tx.outputs|
  {
    if n == 0 then 0
    else
      Lost(utxos, txid, tx, height, who, n - 1)
      + Overwritten(InsertOutputs(utxos, txid, tx, height, n - 1), OutputPoint(txid, n - 1), who)
  }

  lemma {:induction false} InsertedKeys(utxos: UtxoSet, txid: Digest, tx: Transaction, height: u64, n: nat)
    requires n <= |tx.outputs|
    ensures forall o :: o in InsertOutputs(utxos, txid, tx, height, n) ==> o in utxos || o.txid == txid
  {
    if n > 0 {
      InsertedKeys(utxos, txid, tx, height, n - 1);
    }
  }

  lemma {:induction false} InsertMeaning(
      utxos: UtxoSet, txid: Digest, tx: Transaction, height: u64, n: nat, o: OutPoint)
    requires n <= |tx.outputs| <= U32_LIMIT
    ensures var later := InsertOutputs(utxos, txid, tx, height, n); var created := o.txid == txid && o.vout < n;
      && (o in later <==> o in utxos || created)
      && (created ==> later[o] == Utxo(tx.outputs[o.vout], height, tx.inputs == []))
      && (o in later && !created ==> later[o] == utxos[o])
  {
    if n > 0 {
      InsertMeaning(utxos, txid, tx, height, n - 1, o);
    }
  }

  /** Applying a transaction, outpoint by outpoint: its outputs are there under its txid, what it spends is
      gone unless it creates it again, and everything else is untouched. */
  lemma ApplyMeaning(h: Host, utxos: UtxoSet, tx: Transaction, height: u64, o: OutPoint)
    requires |tx.outputs| <= U32_LIMIT
    ensures var later := ApplyTransaction(h, utxos, tx, height);
      var created := o.txid == h.txid(tx) && o.vout < |tx.outputs|;
      && (o in later <==> created || (o in utxos && o !in Spent(tx.inputs, |tx.inputs|)))
      && (created ==> later[o] == Utxo(tx.outputs[o.vout], height, tx.inputs == []))
      && (o in later && !created ==> later[o] == utxos[o])
  {
    InsertMeaning(utxos - Spent(tx.inputs, |tx.inputs|), h.txid(tx), tx, height, |tx.outputs|, o);
  }

  lemma {:induction false} InsertAccounting(
      utxos: UtxoSet, txid: Digest, tx: Transaction, height: u64, who: Option<Bytes>, n: nat)
    requires n <= |tx.outputs|
    ensures Sum(InsertOutputs(utxos, txid, tx, height, n), who) + Lost(utxos, txid, tx, height, who, n)
         == Sum(utxos, who) + OutputWorth(tx.outputs, who, n)
  {
    if n > 0 {
      InsertAccounting(utxos, txid, tx, height, who, n - 1);
      SumInsert(InsertOutputs(utxos, txid, tx, height, n - 1), OutputPoint(txid, n - 1),
                Utxo(tx.outputs[n - 1], height, tx.inputs == []), who);
    }
  }

  lemma {:induction false} RemoveAccounting(utxos: UtxoSet, inputs: seq<TxInput>, who: Option<Bytes>, n: nat)
    requires n <= |inputs| && DistinctInputs(inputs)
    ensures Sum(utxos - Spent(inputs, n), who) + InputWorth(utxos, inputs, who, n) == Sum(utxos, who)
  {
    if n == 0 {
      assert utxos - Spent(inputs, 0) == utxos;
    } else {
      RemoveAccounting(utxos, inputs, who, n - 1);
      var o, before := inputs[n - 1].previousOutput, utxos - Spent(inputs, n - 1);
      assert utxos - Spent(inputs, n) == before - {o};
      if o in utxos {
        assert o !in Spent(inputs, n - 1);
        SumRemove(before, o, who);
      } else {
        assert before - {o} == before;
      }
    }
  }

  /** The worth that applying a transaction destroys without spending it. */
  function Destroyed(h: Host, utxos: UtxoSet, tx: Transaction, height: u64, who: Option<Bytes>): nat {
    Lost(utxos - Spent(tx.inputs, |tx.inputs|), h.txid(tx), tx, height, who, |tx.outputs|)
  }

  /** Exact accounting: for every script, what a transaction adds, spends and overwrites balance. */
  lemma {:induction false} TransactionAccounting(
      h: Host, utxos: UtxoSet, tx: Transaction, height: u64, who: Option<Bytes>)
    requires DistinctInputs(tx.inputs)
    ensures Sum(ApplyTransaction(h, utxos, tx, height), who)
          + Destroyed(h, utxos, tx, height, who)
          + InputWorth(utxos, tx.inputs, who, |tx.inputs|)
         == Sum(utxos, who) + OutputWorth(tx.outputs, who, |tx.outputs|)
  {
    RemoveAccounting(utxos, tx.inputs, who, |tx.inputs|);
    InsertAccounting(utxos - Spent(tx.inputs, |tx.inputs|), h.txid(tx), tx, height, who, |tx.outputs|);
  }

  lemma {:induction false} RedeemedValue(h: Host, utxos: UtxoSet, inputs: seq<TxInput>, n: nat)
    requires n <= |inputs| && RedeemInputs(h, utxos, inputs, n).Ok?
    ensures RedeemInputs(h, utxos, inputs, n).value == InputWorth(utxos, inputs, None, n)
    ensures forall i :: 0 <= i < n ==> inputs[i].previousOutput in utxos
    ensures forall i :: 0 <= i < n ==>
      h.owner(inputs[i].scriptSig) == Some(utxos[inputs[i].previousOutput].output.scriptPubkey)
  {
    if n > 0 {
      RedeemedValue(h, utxos, inputs, n - 1);
    }
  }

  lemma {:induction false} ValueIsWorth(outputs: seq<TxOutput>, n: nat)
    requires n <= |outputs|
    ensures ValueSum(outputs, n) == OutputWorth(outputs, None, n)
  {
    if n > 0 {
      ValueIsWorth(outputs, n - 1);
    }
  }

  /** Either the build checks sums, or the sums of these outputs need no check. */
  ghost predicate Exact(h: Host, tx: Transaction) {
    h.overflowChecks || ValueSum(tx.outputs, |tx.outputs|) < U64_LIMIT
  }

  ghost predicate ExactBlock(h: Host, block: Block) {
    forall tx <- block.transactions :: Exact(h, tx)
  }

  /** The fee of a validated transaction is exactly what its inputs are worth beyond its outputs. */
  lemma {:induction false} FeeValue(h: Host, utxos: UtxoSet, tx: Transaction)
    requires ValidateTransaction(h, utxos, tx).Ok? && Exact(h, tx)
    ensures InputWorth(utxos, tx.inputs, None, |tx.inputs|)
         == OutputWorth(tx.outputs, None, |tx.outputs|) + ValidateTransaction(h, utxos, tx).value
  {
    RedeemedValue(h, utxos, tx.inputs, |tx.inputs|);
    ValueIsWorth(tx.outputs, |tx.outputs|);
    assert TotalOutput(h, tx.outputs) == Ok(ValueSum(tx.outputs, |tx.outputs|));
  }

  // ---------- Balances and subsidies ----------

  lemma {:induction false} OwnedAtMostAll(utxos: UtxoSet, script: Bytes)
    ensures Sum(utxos, Some(script)) <= Sum(utxos, None)
    decreases |utxos|
  {
    if utxos != map[] {
      var o :| o in utxos;
      SumRemove(utxos, o, Some(script));
      SumRemove(utxos, o, None);
      OwnedAtMostAll(utxos - {o}, script);
    }
  }

  /** The subsidies of the heights 1 to `n`. */
  function Subsidies(n: nat): nat
    requires n < U64_LIMIT
  {
    if n == 0 then 0 else Subsidies(n - 1) + Subsidy(n)
  }

  lemma {:induction false} SubsidiesIssued(n: nat)
    requires n < U64_LIMIT
    ensures Subsidies(n) + Emission.Issued(Emission.DEFAULT, 1) == Emission.Issued(Emission.DEFAULT, n + 1)
  {
    if n > 0 {
      SubsidiesIssued(n - 1);
    }
  }

  /** All subsidies together stay under the maximum supply. */
  lemma {:induction false} SubsidiesCapped(n: nat)
    requires n < U64_LIMIT
    ensures Subsidies(n) < Emission.MAX_SUPPLY_UNITS
  {
    SubsidiesIssued(n);
    Emission.DefaultSupply(n + 1);
  }

  // ---------- Builds without overflow checks ----------

  /** In such a build the bound of `Conservation.BlockValue` fails: two outputs of 2^63 add up to nothing. */
  lemma UncheckedBlockValue(h: Host, header: BlockHeader)
    requires !h.overflowChecks
    ensures var half := TxOutput(0x8000_0000_0000_0000, []);
      var r := ApplyBlock(h, map[], Block(header, [NewTransaction([], [half, half])]));
      r.Ok? && Sum(r.value, None) == U64_LIMIT
  {
    var half := TxOutput(0x8000_0000_0000_0000, []);
    var tx := NewTransaction([], [half, half]);
    var block := Block(header, [tx]);
    assert ValueSum(tx.outputs, 2) == ValueSum(tx.outputs, 1) + half.value == U64_LIMIT;
    assert CheckTransaction(tx).Ok?;
    assert ApplyFirst(h, map[], block, 0) == Ok(Progress(map[], 0));
    assert ApplyFirst(h, map[], block, 1) == Ok(Progress(ApplyTransaction(h, map[], tx, header.height), 0));
    CoinbaseValue(h, tx, header.height, None);
  }

  /** Two outputs of a coinbase land on two outpoints. */
  lemma {:induction false} CoinbaseValue(h: Host, tx: Transaction, height: u64, who: Option<Bytes>)
    requires tx.inputs == [] && |tx.outputs| == 2
    ensures Sum(ApplyTransaction(h, map[], tx, height), who) == Worth(tx.outputs[0], who) + Worth(tx.outputs[1], who)
  {
    TransactionAccounting(h, map[], tx, height, who);
    var none: UtxoSet := map[] - Spent(tx.inputs, 0);
    assert none == map[];
    var first := InsertOutputs(none, h.txid(tx), tx, height, 1);
    assert InsertOutputs(none, h.txid(tx), tx, height, 0) == none;
    assert OutputPoint(h.txid(tx), 1) !in first;
    assert Lost(none, h.txid(tx), tx, height, who, 1) == 0;
    assert Lost(none, h.txid(tx), tx, height, who, 2) == 0;
    assert OutputWorth(tx.outputs, who, 1) == Worth(tx.outputs[0], who);
    assert OutputWorth(tx.outputs, who, 2) == Worth(tx.outputs[0], who) + Worth(tx.outputs[1], who);
  }
}

/** The wallet's view of the chain (src/blockchain.rs): the records of wallet_transaction_history, and
    how their signed sum relates to the balance in the ledger. */
module History {
  import opened Arithmetic
  import opened Types
  import opened Ledger
  import opened Accounting
  import opened ChainRules
  import opened Consensus
  import opened AnyRun
  import opened Pending
  import Merkle

  datatype Direction = Incoming | Outgoing | MiningReward | SelfTransfer

  datatype Record = Record(
    transaction: Transaction,
    txid: Digest,
    height: u64,
    timestamp: u64,
    direction: Direction,
    amount: u64,
    fee: u64)

  /** The outputs of the transactions passed so far, and the records made of them, oldest first. */
  datatype Scan = Scan(known: map<Digest, seq<TxOutput>>, history: seq<Record>)

  // ---------- The records ----------

  function KnownWorth(known: map<Digest, seq<TxOutput>>, o: OutPoint, script: Bytes): nat {
    if o.txid in known && o.vout < |known[o.txid]| then Worth(known[o.txid][o.vout], Some(script)) else 0
  }

  /** What the first `n` inputs take from the script, as far as their outputs are known. */
  function OwnedInput(known: map<Digest, seq<TxOutput>>, inputs: seq<TxInput>, script: Bytes, n: nat): nat
    requires n <= |inputs|
  {
    if n == 0 then 0
    else OwnedInput(known, inputs, script, n - 1) + KnownWorth(known, inputs[n - 1].previousOutput, script)
  }

  function Foreign(outputs: seq<TxOutput>, script: Bytes, n: nat): nat
    requires n <= |outputs|
  {
    if n == 0 then 0
    else
      Foreign(outputs, script, n - 1) + if outputs[n - 1].scriptPubkey == script then 0 else outputs[n - 1].value
  }

  /** The record of one transaction, if it concerns the script. */
  function MakeRecord(h: Host, script: Bytes, header: BlockHeader, known: map<Digest, seq<TxOutput>>, tx: Transaction)
    : Result<Option<Record>>
  {
    var incoming :- h.Plain(OutputWorth(tx.outputs, Some(script), |tx.outputs|));
    var owned :- h.Plain(OwnedInput(known, tx.inputs, script, |tx.inputs|));
    if incoming == 0 && owned == 0 then Ok(None)
    else
      var external :- h.Plain(Foreign(tx.outputs, script, |tx.outputs|));
      var total :- TotalOutput(h, tx.outputs);
      var fee := SaturatingSub(owned, total);
      var (direction, amount) :=
        if tx.inputs == [] then (MiningReward, incoming)
        else if owned > 0 then if external == 0 then (SelfTransfer, incoming) else (Outgoing, external)
        else (Incoming, incoming);
      Ok(Some(Record(tx, h.txid(tx), header.height, header.timestamp, direction, amount, fee)))
  }

  function ScanTransaction(h: Host, script: Bytes, header: BlockHeader, s: Scan, tx: Transaction): Result<Scan> {
    var record :- MakeRecord(h, script, header, s.known, tx);
    Ok(Scan(s.known[h.txid(tx) := tx.outputs],
            if record.Some? then s.history + [record.value] else s.history))
  }

  function ScanBlock(h: Host, script: Bytes, s: Scan, block: Block, n: nat): Result<Scan>
    requires n <= |block.transactions|
  {
    if n == 0 then Ok(s)
    else
      var before :- ScanBlock(h, script, s, block, n - 1);
      ScanTransaction(h, script, block.header, before, block.transactions[n - 1])
  }

  /** A hash that is not stored is skipped. */
  function ScanChain(h: Host, script: Bytes, blocks: Blocks, chain: seq<Digest>): Result<Scan> {
    if chain == [] then Ok(Scan(map[], []))
    else
      var before :- ScanChain(h, script, blocks, chain[..|chain| - 1]);
      var last := chain[|chain| - 1];
      if last in blocks then ScanBlock(h, script, before, blocks[last], |blocks[last].transactions|) else Ok(before)
  }

  function NewestFirst(records: seq<Record>): seq<Record> {
    if records == [] then [] else [records[|records| - 1]] + NewestFirst(records[..|records| - 1])
  }

  /** wallet_transaction_history */
  function WalletHistory(h: Host, script: Bytes, blocks: Blocks, chain: seq<Digest>): Result<seq<Record>> {
    var s :- ScanChain(h, script, blocks, chain);
    Ok(NewestFirst(s.history))
  }

  method WalletHistoryLoop(h: Host, script: Bytes, blocks: Blocks, chain: seq<Digest>) returns (r: Result<seq<Record>>)
    ensures r == WalletHistory(h, script, blocks, chain)
  {
    var s := Scan(map[], []);
    for i := 0 to |chain|
      invariant ScanChain(h, script, blocks, chain[..i]) == Ok(s)
    {
      assert chain[..i + 1][..i] == chain[..i];
      ScanFailsEarly(h, script, blocks, chain, i + 1);
      if chain[i] !in blocks {
        continue;
      }
      var block := blocks[chain[i]];
      ghost var start := s;
      for j := 0 to |block.transactions|
        invariant ScanBlock(h, script, start, block, j) == Ok(s)
      {
        BlockFailsEarly(h, script, start, block, j + 1, |block.transactions|);
        s :- ScanTransaction(h, script, block.header, s, block.transactions[j]);
      }
    }
    assert chain[..|chain|] == chain;
    r := Ok(NewestFirst(s.history));
  }

  lemma {:induction false} ScanFailsEarly(h: Host, script: Bytes, blocks: Blocks, chain: seq<Digest>, n: nat)
    requires n <= |chain|
    ensures !ScanChain(h, script, blocks, chain[..n]).Ok? ==>
      ScanChain(h, script, blocks, chain) == ScanChain(h, script, blocks, chain[..n])
  {
    if n == |chain| {
      assert chain[..n] == chain;
    } else {
      ScanFailsEarly(h, script, blocks, chain[..|chain| - 1], n);
      assert chain[..|chain| - 1][..n] == chain[..n];
    }
  }

  lemma {:induction false} BlockFailsEarly(h: Host, script: Bytes, s: Scan, block: Block, m: nat, n: nat)
    requires m <= n <= |block.transactions|
    ensures !ScanBlock(h, script, s, block, m).Ok? ==>
      ScanBlock(h, script, s, block, n) == ScanBlock(h, script, s, block, m)
  {
    hide ScanTransaction;
    if m < n {
      BlockFailsEarly(h, script, s, block, m, n - 1);
    }
  }

  // ---------- Where the records come from ----------

  /** The record is of a transaction of that block. */
  ghost predicate RecordOf(h: Host, r: Record, block: Block) {
    && r.transaction in block.transactions && r.txid == h.txid(r.transaction)
    && r.height == block.header.height && r.timestamp == block.header.timestamp
  }

  lemma OneRecord(h: Host, script: Bytes, header: BlockHeader, s: Scan, tx: Transaction)
    requires ScanTransaction(h, script, header, s, tx).Ok?
    ensures var t := ScanTransaction(h, script, header, s, tx).value.history;
      t == s.history ||
      (|t| == |s.history| + 1 && s.history <= t && t[|s.history|].transaction == tx
       && t[|s.history|].txid == h.txid(tx)
       && t[|s.history|].height == header.height && t[|s.history|].timestamp == header.timestamp)
  {
    hide OutputWorth, OwnedInput, Foreign, ValueSum;
  }

  lemma {:induction false} BlockRecords(h: Host, script: Bytes, s: Scan, block: Block, n: nat)
    requires n <= |block.transactions| && ScanBlock(h, script, s, block, n).Ok?
    ensures var t := ScanBlock(h, script, s, block, n).value;
      s.history <= t.history && forall i :: |s.history| <= i < |t.history| ==> RecordOf(h, t.history[i], block)
  {
    hide ScanTransaction;
    if n > 0 {
      BlockRecords(h, script, s, block, n - 1);
      OneRecord(h, script, block.header, ScanBlock(h, script, s, block, n - 1).value, block.transactions[n - 1]);
      assert block.transactions[n - 1] in block.transactions;
    }
  }

  /** On a chain whose blocks are as high as their positions: every record is of a transaction in the block at
      its height, and the records go from the oldest block to the newest. */
  lemma {:induction false} ChainRecords(h: Host, script: Bytes, blocks: Blocks, chain: seq<Digest>)
    requires forall i :: 0 <= i < |chain| ==> chain[i] in blocks && blocks[chain[i]].header.height == i
    requires ScanChain(h, script, blocks, chain).Ok?
    ensures var history := ScanChain(h, script, blocks, chain).value.history;
      && (forall i :: 0 <= i < |history| ==>
            history[i].height < |chain| && RecordOf(h, history[i], blocks[chain[history[i].height]]))
      && (forall i, j :: 0 <= i < j < |history| ==> history[i].height <= history[j].height)
  {
    if chain != [] {
      var front, block := chain[..|chain| - 1], blocks[chain[|chain| - 1]];
      ChainRecords(h, script, blocks, front);
      BlockRecords(h, script, ScanChain(h, script, blocks, front).value, block, |block.transactions|);
    }
  }

  lemma {:induction false} NewestFirstAt(records: seq<Record>, i: nat)
    requires i < |records|
    ensures |NewestFirst(records)| == |records| && NewestFirst(records)[i] == records[|records| - 1 - i]
  {
    if i > 0 {
      NewestFirstAt(records[..|records| - 1], i - 1);
    } else {
      NewestFirstLength(records);
    }
  }

  lemma {:induction false} NewestFirstLength(records: seq<Record>)
    ensures |NewestFirst(records)| == |records|
  {
    if records != [] {
      NewestFirstLength(records[..|records| - 1]);
    }
  }

  // ---------- Their signed sum ----------

  /** What a record says happened to the script's balance. */
  function Effect(r: Record): int {
    match r.direction
    case Incoming => r.amount
    case MiningReward => r.amount
    case Outgoing => -(r.amount + r.fee)
    case SelfTransfer => 0 - r.fee
  }

  function Signed(records: seq<Record>): int {
    if records == [] then 0 else Signed(records[..|records| - 1]) + Effect(records[|records| - 1])
  }

  lemma {:induction false} SignedFront(record: Record, records: seq<Record>)
    ensures Signed([record] + records) == Effect(record) + Signed(records)
  {
    if records == [] {
      assert [record] + records == [record];
    } else {
      var all := [record] + records;
      assert all[..|all| - 1] == [record] + records[..|records| - 1];
      SignedFront(record, records[..|records| - 1]);
    }
  }

  lemma {:induction false} SignedReversed(records: seq<Record>)
    ensures Signed(NewestFirst(records)) == Signed(records)
  {
    if records != [] {
      SignedFront(records[|records| - 1], NewestFirst(records[..|records| - 1]));
      SignedReversed(records[..|records| - 1]);
    }
  }

  // ---------- One transaction ----------

  /** How far the script's own inputs fall short of all the outputs they help to pay, as u64 adds them up: an
      amount that the saturating fee of a record hides. */
  function Shortfall(utxos: UtxoSet, tx: Transaction, script: Bytes): nat {
    var owned := InputWorth(utxos, tx.inputs, Some(script), |tx.inputs|);
    var total := ValueSum(tx.outputs, |tx.outputs|) % U64_LIMIT;
    if owned == 0 || owned >= total then 0 else total - owned
  }

  /** How many times 2^64 the sums of a record lose by going round u64. */
  function Dropped(utxos: UtxoSet, tx: Transaction, script: Bytes): nat {
    var gets := OutputWorth(tx.outputs, Some(script), |tx.outputs|);
    var total, foreign := ValueSum(tx.outputs, |tx.outputs|), Foreign(tx.outputs, script, |tx.outputs|);
    if InputWorth(utxos, tx.inputs, Some(script), |tx.inputs|) == 0 then Rounds(gets)
    else if Rounds(total) >= Rounds(foreign) then Rounds(total) - Rounds(foreign) else 0
  }

  function Rounds(n: nat): nat {
    QuotientAtMost(n, U64_LIMIT);
    n / U64_LIMIT
  }

  /** Plain u64 arithmetic that does not trap. */
  lemma PlainRounds(h: Host, n: nat)
    requires h.overflowChecks ==> n < U64_LIMIT
    ensures h.Plain(n) == Ok(n % U64_LIMIT) && n == U64_LIMIT * Rounds(n) + n % U64_LIMIT
  {
    Division(n, U64_LIMIT);
  }

  lemma {:induction false} OutputsSplit(outputs: seq<TxOutput>, script: Bytes, n: nat)
    requires n <= |outputs|
    ensures OutputWorth(outputs, Some(script), n) + Foreign(outputs, script, n) == ValueSum(outputs, n)
  {
    if n > 0 {
      OutputsSplit(outputs, script, n - 1);
    }
  }

  /** The outputs of everything in the ledger are known under their txids. */
  ghost predicate Covers(h: Host, all: set<Transaction>, known: map<Digest, seq<TxOutput>>, utxos: UtxoSet) {
    && (forall d :: d in known ==> exists t :: t in all && h.txid(t) == d && known[d] == t.outputs)
    && (forall o :: o in utxos ==> o.txid in known)
  }

  lemma KnownIsLedger(h: Host, all: set<Transaction>, known: map<Digest, seq<TxOutput>>, utxos: UtxoSet,
                      o: OutPoint, script: Bytes)
    requires Universe(h, all) && Named(h, all, utxos) && Covers(h, all, known, utxos) && o in utxos
    ensures KnownWorth(known, o, script) == Overwritten(utxos, o, Some(script))
  {
    var t :| t in all && h.txid(t) == o.txid && known[o.txid] == t.outputs;
    assert Names(h, all, o, utxos[o].output);
  }

  lemma {:induction false} OwnedIsInputWorth(h: Host, all: set<Transaction>, known: map<Digest, seq<TxOutput>>,
                                             utxos: UtxoSet, inputs: seq<TxInput>, script: Bytes, n: nat)
    requires Universe(h, all) && Named(h, all, utxos) && Covers(h, all, known, utxos) && n <= |inputs|
    requires forall i :: 0 <= i < n ==> inputs[i].previousOutput in utxos
    ensures OwnedInput(known, inputs, script, n) == InputWorth(utxos, inputs, Some(script), n)
    ensures InputWorth(utxos, inputs, Some(script), n) <= InputWorth(utxos, inputs, None, n)
  {
    if n > 0 {
      OwnedIsInputWorth(h, all, known, utxos, inputs, script, n - 1);
      KnownIsLedger(h, all, known, utxos, inputs[n - 1].previousOutput, script);
    }
  }

  /** The transaction can be recorded without a trap: it spends what the ledger has, and its sums fit or wrap. */
  ghost predicate Recordable(h: Host, utxos: UtxoSet, tx: Transaction) {
    && DistinctInputs(tx.inputs)
    && (forall i :: 0 <= i < |tx.inputs| ==> tx.inputs[i].previousOutput in utxos)
    && InputWorth(utxos, tx.inputs, None, |tx.inputs|) < U64_LIMIT
    && (h.overflowChecks ==> ValueSum(tx.outputs, |tx.outputs|) < U64_LIMIT)
  }

  /** The sums that a record is made of, in terms of the ledger. */
  lemma {:induction false} RecordSums(
      h: Host, all: set<Transaction>, script: Bytes, known: map<Digest, seq<TxOutput>>, utxos: UtxoSet,
                   tx: Transaction)
    requires Universe(h, all) && Named(h, all, utxos) && Covers(h, all, known, utxos) && Recordable(h, utxos, tx)
    ensures var gives := InputWorth(utxos, tx.inputs, Some(script), |tx.inputs|);
      && OwnedInput(known, tx.inputs, script, |tx.inputs|) == gives < U64_LIMIT
      && (tx.inputs == [] ==> gives == 0)
    ensures var total := ValueSum(tx.outputs, |tx.outputs|);
      && OutputWorth(tx.outputs, Some(script), |tx.outputs|) + Foreign(tx.outputs, script, |tx.outputs|) == total
      && (h.overflowChecks ==> total < U64_LIMIT)
  {
    hide Universe, Named, Covers;
    OwnedIsInputWorth(h, all, known, utxos, tx.inputs, script, |tx.inputs|);
    OutputsSplit(tx.outputs, script, |tx.outputs|);
  }

  /** The script gets something from the transaction, as u64 adds it up, or gives something. */
  ghost predicate Concerns(utxos: UtxoSet, tx: Transaction, script: Bytes) {
    || OutputWorth(tx.outputs, Some(script), |tx.outputs|) % 0x1_0000_0000_0000_0000 > 0
    || InputWorth(utxos, tx.inputs, Some(script), |tx.inputs|) > 0
  }

  /** The record is of this transaction, made against this ledger: a reward has no inputs, a receipt none of the
      script's, a payment some of them and a foreign output, a self-transfer some of them and no foreign output. */
  ghost predicate Describes(h: Host, utxos: UtxoSet, header: BlockHeader, tx: Transaction, script: Bytes, r: Record) {
    var gets := OutputWorth(tx.outputs, Some(script), |tx.outputs|) % 0x1_0000_0000_0000_0000;
    var foreign := Foreign(tx.outputs, script, |tx.outputs|) % 0x1_0000_0000_0000_0000;
    var total := ValueSum(tx.outputs, |tx.outputs|) % 0x1_0000_0000_0000_0000;
    var gives := InputWorth(utxos, tx.inputs, Some(script), |tx.inputs|);
    && r.transaction == tx && r.txid == h.txid(tx) && r.height == header.height && r.timestamp == header.timestamp
    && (r.direction == MiningReward <==> tx.inputs == [])
    && (r.direction == Incoming <==> tx.inputs != [] && gives == 0)
    && (r.direction == Outgoing <==> gives > 0 && foreign > 0)
    && (r.direction == SelfTransfer <==> gives > 0 && foreign == 0)
    && r.amount == (if r.direction == Outgoing then foreign else gets)
    && r.fee == (if gives < total then 0 else gives - total)
  }

  /** There is a record exactly if the transaction concerns the script, and it says what the ledger says. */
  lemma {:induction false} RecordDirection(h: Host, all: set<Transaction>, script: Bytes, header: BlockHeader,
                        known: map<Digest, seq<TxOutput>>, utxos: UtxoSet, tx: Transaction)
    requires Universe(h, all) && Named(h, all, utxos) && Covers(h, all, known, utxos) && Recordable(h, utxos, tx)
    ensures var record := MakeRecord(h, script, header, known, tx);
      && record.Ok?
      && (record.value.Some? <==> Concerns(utxos, tx, script))
      && (record.value.Some? ==> Describes(h, utxos, header, tx, script, record.value.value))
  {
    hide Recordable, Universe, Named, Covers, OutputWorth, InputWorth, OwnedInput, Foreign, ValueSum;
    RecordSums(h, all, script, known, utxos, tx);
    PlainRounds(h, OutputWorth(tx.outputs, Some(script), |tx.outputs|));
    PlainRounds(h, Foreign(tx.outputs, script, |tx.outputs|));
    PlainRounds(h, ValueSum(tx.outputs, |tx.outputs|));
    PlainRounds(h, OwnedInput(known, tx.inputs, script, |tx.inputs|));
    hide Rounds;
  }

  /** A record says what the transaction did to the balance, less the shortfall it hides and the rounds it drops. */
  lemma {:induction false} RecordEffect(h: Host, all: set<Transaction>, script: Bytes, header: BlockHeader,
                     known: map<Digest, seq<TxOutput>>, utxos: UtxoSet, tx: Transaction)
    requires Universe(h, all) && Named(h, all, utxos) && Covers(h, all, known, utxos) && Recordable(h, utxos, tx)
    ensures var record := MakeRecord(h, script, header, known, tx);
      && record.Ok?
      && (if record.value.Some? then Effect(record.value.value) else 0)
         + Shortfall(utxos, tx, script) + U64_LIMIT * Dropped(utxos, tx, script)
         == OutputWorth(tx.outputs, Some(script), |tx.outputs|)
            - InputWorth(utxos, tx.inputs, Some(script), |tx.inputs|)
  {
    hide MakeRecord, Recordable, Universe, Named, Covers, OutputWorth, InputWorth, OwnedInput, Foreign, ValueSum,
      Rounds;
    RecordSums(h, all, script, known, utxos, tx);
    RecordDirection(h, all, script, header, known, utxos, tx);
    RoundsApart(OutputWorth(tx.outputs, Some(script), |tx.outputs|), Foreign(tx.outputs, script, |tx.outputs|));
  }

  lemma RoundsApart(gets: nat, foreign: nat)
    ensures gets == U64_LIMIT * Rounds(gets) + gets % U64_LIMIT
    ensures foreign == U64_LIMIT * Rounds(foreign) + foreign % U64_LIMIT
    ensures gets + foreign == U64_LIMIT * Rounds(gets + foreign) + (gets + foreign) % U64_LIMIT
    ensures Rounds(gets + foreign) >= Rounds(foreign)
  {
    Division(gets, U64_LIMIT);
    Division(foreign, U64_LIMIT);
    Division(gets + foreign, U64_LIMIT);
    QuotientMonotone(U64_LIMIT, foreign, gets + foreign);
  }

  lemma CoversNext(h: Host, all: set<Transaction>, known: map<Digest, seq<TxOutput>>, utxos: UtxoSet,
                   tx: Transaction, height: u64)
    requires Covers(h, all, known, utxos) && tx in all
    ensures Covers(h, all, known[h.txid(tx) := tx.outputs], ApplyTransaction(h, utxos, tx, height))
  {
    InsertedKeys(utxos - Spent(tx.inputs, |tx.inputs|), h.txid(tx), tx, height, |tx.outputs|);
  }

  /** What keeps history and ledger apart, summed up: value hidden by saturating fees, rounds of 2^64 dropped by
      wrapped sums, and value that was overwritten in the ledger without being spent. */
  datatype Tally = Tally(hidden: nat, dropped: nat, overwritten: nat)

  function TransactionTally(h: Host, utxos: UtxoSet, tx: Transaction, height: u64, script: Bytes): Tally {
    Tally(Shortfall(utxos, tx, script), Dropped(utxos, tx, script), Destroyed(h, utxos, tx, height, Some(script)))
  }

  function Plus(a: Tally, b: Tally): Tally {
    Tally(a.hidden + b.hidden, a.dropped + b.dropped, a.overwritten + b.overwritten)
  }

  /** Ledger and history move together, up to the tally. */
  ghost predicate Balanced(utxos: UtxoSet, later: UtxoSet, s: Scan, t: Scan, tally: Tally, script: Bytes) {
    Sum(later, Some(script)) + tally.overwritten + Signed(s.history)
      == Sum(utxos, Some(script)) + tally.hidden + U64_LIMIT * tally.dropped + Signed(t.history)
  }

  lemma TransactionBalanced(h: Host, all: set<Transaction>, script: Bytes, header: BlockHeader,
                            s: Scan, utxos: UtxoSet, tx: Transaction)
    requires Universe(h, all) && Named(h, all, utxos) && Covers(h, all, s.known, utxos)
    requires tx in all && Recordable(h, utxos, tx)
    ensures var t := ScanTransaction(h, script, header, s, tx);
      var later := ApplyTransaction(h, utxos, tx, header.height);
      && t.Ok? && Named(h, all, later) && Covers(h, all, t.value.known, later)
      && Balanced(utxos, later, s, t.value, TransactionTally(h, utxos, tx, header.height, script), script)
  {
    hide Named, Covers, MakeRecord, Effect, Shortfall, Dropped, Destroyed, ApplyTransaction, Signed, Sum, InputWorth,
        OutputWorth;
    RecordEffect(h, all, script, header, s.known, utxos, tx);
    ApplyKept(h, all, utxos, tx, header.height);
    CoversNext(h, all, s.known, utxos, tx, header.height);
    TransactionAccounting(h, utxos, tx, header.height, Some(script));
    var record := MakeRecord(h, script, header, s.known, tx).value;
    if record.Some? {
      SignedAppend(s.history, record.value);
    }
  }

  lemma {:induction false} SignedAppend(records: seq<Record>, record: Record)
    ensures Signed(records + [record]) == Signed(records) + Effect(record)
  {
    assert (records + [record])[..|records|] == records;
  }

  lemma BalancedPlus(u: UtxoSet, v: UtxoSet, w: UtxoSet, s: Scan, t: Scan, r: Scan, a: Tally, b: Tally, script: Bytes)
    requires Balanced(u, v, s, t, a, script) && Balanced(v, w, t, r, b, script)
    ensures Balanced(u, w, s, r, Plus(a, b), script)
  {
  }

  // ---------- Blocks and chains ----------

  function BlockTally(h: Host, utxos: UtxoSet, block: Block, script: Bytes, n: nat): Tally
    requires n <= |block.transactions|
  {
    if n == 0 || !ApplyFirst(h, utxos, block, n - 1).Ok? then Tally(0, 0, 0)
    else
      Plus(BlockTally(h, utxos, block, script, n - 1),
           TransactionTally(h, ApplyFirst(h, utxos, block, n - 1).value.utxos, block.transactions[n - 1],
                            block.header.height, script))
  }

  function ChainTally(h: Host, bootstrap: UtxoSet, blocks: Blocks, chain: seq<Digest>, script: Bytes): Tally {
    if chain == [] then Tally(0, 0, 0)
    else
      var front, last := chain[..|chain| - 1], chain[|chain| - 1];
      var before := Replay(h, bootstrap, blocks, front);
      if !before.Ok? || last !in blocks then Tally(0, 0, 0)
      else Plus(ChainTally(h, bootstrap, blocks, front, script),
                BlockTally(h, before.value, blocks[last], script, |blocks[last].transactions|))
  }

  /** The transactions of a block that applies can all be recorded. */
  lemma AppliedRecordable(h: Host, utxos: UtxoSet, block: Block, n: nat)
    requires ApplyBlock(h, utxos, block).Ok? && n < |block.transactions|
    requires ApplyFirst(h, utxos, block, n).Ok? && ApplyFirst(h, utxos, block, n + 1).Ok?
    ensures Recordable(h, ApplyFirst(h, utxos, block, n).value.utxos, block.transactions[n])
  {
    var p, tx := ApplyFirst(h, utxos, block, n).value, block.transactions[n];
    if n == 0 {
      assert TotalOutput(h, tx.outputs).Ok?;
    } else {
      RedeemedValue(h, p.utxos, tx.inputs, |tx.inputs|);
      assert ValidateTransaction(h, p.utxos, tx).Ok?;
    }
  }

  lemma TallyStep(h: Host, utxos: UtxoSet, block: Block, script: Bytes, n: nat)
    requires 0 < n <= |block.transactions|
    requires ApplyFirst(h, utxos, block, n - 1).Ok? && ApplyFirst(h, utxos, block, n).Ok?
    ensures var p := ApplyFirst(h, utxos, block, n - 1).value; var tx := block.transactions[n - 1];
      && ApplyFirst(h, utxos, block, n).value.utxos == ApplyTransaction(h, p.utxos, tx, block.header.height)
      && BlockTally(h, utxos, block, script, n)
         == Plus(BlockTally(h, utxos, block, script, n - 1),
                 TransactionTally(h, p.utxos, tx, block.header.height, script))
  {
    hide TransactionTally, Plus;
    NextUtxos(h, ApplyFirst(h, utxos, block, n - 1).value, block.transactions[n - 1], n == 1, block.header.height);
  }

  lemma ScanStep(h: Host, script: Bytes, s: Scan, block: Block, n: nat)
    requires 0 < n <= |block.transactions| && ScanBlock(h, script, s, block, n - 1).Ok?
    ensures ScanBlock(h, script, s, block, n) == ScanTransaction(
      h, script, block.header, ScanBlock(h, script, s, block, n - 1).value, block.transactions[n - 1])
  {
    hide ScanTransaction;
  }

  lemma {:induction false} BlockStart(h: Host, script: Bytes, s: Scan, utxos: UtxoSet, block: Block)
    ensures ScanBlock(h, script, s, block, 0) == Ok(s)
    ensures ApplyFirst(h, utxos, block, 0) == Ok(Progress(utxos, 0))
    ensures BlockTally(h, utxos, block, script, 0) == Tally(0, 0, 0) && Faithful(Tally(0, 0, 0))
    ensures Balanced(utxos, utxos, s, s, BlockTally(h, utxos, block, script, 0), script)
    ensures CleanBlock(h, utxos, block, script, 0)
  {
  }

  lemma {:induction false} BlockBalanced(h: Host, all: set<Transaction>, script: Bytes, s: Scan, utxos: UtxoSet,
                                         block: Block, n: nat)
    requires Universe(h, all) && Named(h, all, utxos) && Covers(h, all, s.known, utxos)
    requires ApplyBlock(h, utxos, block).Ok? && n <= |block.transactions|
    requires forall t <- block.transactions :: t in all
    ensures var t := ScanBlock(h, script, s, block, n); var p := ApplyFirst(h, utxos, block, n);
      && t.Ok? && p.Ok? && Named(h, all, p.value.utxos) && Covers(h, all, t.value.known, p.value.utxos)
      && Balanced(utxos, p.value.utxos, s, t.value, BlockTally(h, utxos, block, script, n), script)
  {
    hide *;
    if n == 0 {
      BlockStart(h, script, s, utxos, block);
    } else {
      LastBlock(h, utxos, block);
      ApplyFailsEarly(h, utxos, block, n, |block.transactions|);
      BlockBalanced(h, all, script, s, utxos, block, n - 1);
      var p, t := ApplyFirst(h, utxos, block, n - 1).value, ScanBlock(h, script, s, block, n - 1).value;
      var tx := block.transactions[n - 1];
      AppliedRecordable(h, utxos, block, n - 1);
      TallyStep(h, utxos, block, script, n);
      ScanStep(h, script, s, block, n);
      TransactionBalanced(h, all, script, block.header, t, p.utxos, tx);
      BalancedPlus(utxos, p.utxos, ApplyTransaction(h, p.utxos, tx, block.header.height), s, t,
                   ScanBlock(h, script, s, block, n).value, BlockTally(h, utxos, block, script, n - 1),
                   TransactionTally(h, p.utxos, tx, block.header.height, script), script);
    }
  }

  lemma NextUtxos(h: Host, p: Progress, tx: Transaction, first: bool, height: u64)
    requires ApplyNext(h, p, tx, first, height).Ok?
    ensures ApplyNext(h, p, tx, first, height).value.utxos == ApplyTransaction(h, p.utxos, tx, height)
  {
  }

  /** What the theorems assume of the blocks of a chain: they are stored, and inside the universe. */
  ghost predicate Known(all: set<Transaction>, blocks: Blocks, chain: seq<Digest>) {
    forall k <- chain :: k in blocks && forall t <- blocks[k].transactions :: t in all
  }

  lemma KnownSplit(all: set<Transaction>, blocks: Blocks, chain: seq<Digest>)
    requires chain != [] && Known(all, blocks, chain)
    ensures Known(all, blocks, chain[..|chain| - 1])
    ensures var last := chain[|chain| - 1];
      last in blocks && forall t <- blocks[last].transactions :: t in all
  {
    assert forall k <- chain[..|chain| - 1] :: k in chain;
    assert chain[|chain| - 1] in chain;
  }

  lemma {:induction false} LastBlock(h: Host, utxos: UtxoSet, block: Block)
    requires ApplyBlock(h, utxos, block).Ok?
    ensures ApplyFirst(h, utxos, block, |block.transactions|).Ok?
    ensures ApplyBlock(h, utxos, block).value == ApplyFirst(h, utxos, block, |block.transactions|).value.utxos
  {
  }

  /** One block of a chain, on both sides and in the tally. */
  lemma {:induction false} ChainStep(h: Host, script: Bytes, blocks: Blocks, chain: seq<Digest>)
    requires chain != [] && chain[|chain| - 1] in blocks && Replay(h, map[], blocks, chain).Ok?
    requires ScanChain(h, script, blocks, chain[..|chain| - 1]).Ok?
    ensures var front, block := chain[..|chain| - 1], blocks[chain[|chain| - 1]];
      && Replay(h, map[], blocks, front).Ok?
      && ApplyBlock(h, Replay(h, map[], blocks, front).value, block) == Replay(h, map[], blocks, chain)
      && ScanChain(h, script, blocks, chain)
         == ScanBlock(h, script, ScanChain(h, script, blocks, front).value, block, |block.transactions|)
      && ChainTally(h, map[], blocks, chain, script)
         == Plus(ChainTally(h, map[], blocks, front, script),
                 BlockTally(h, Replay(h, map[], blocks, front).value, block, script, |block.transactions|))
  {
    hide ApplyBlock, ScanBlock, BlockTally, Plus;
  }

  lemma {:induction false} ChainBalanced(h: Host, all: set<Transaction>, script: Bytes, blocks: Blocks,
      chain: seq<Digest>)
    requires Universe(h, all) && Known(all, blocks, chain) && Replay(h, map[], blocks, chain).Ok?
    ensures var t := ScanChain(h, script, blocks, chain); var utxos := Replay(h, map[], blocks, chain).value;
      && t.Ok? && Named(h, all, utxos) && Covers(h, all, t.value.known, utxos)
      && Balanced(map[], utxos, Scan(map[], []), t.value, ChainTally(h, map[], blocks, chain, script), script)
  {
    if chain != [] {
      var front, block := chain[..|chain| - 1], blocks[chain[|chain| - 1]];
      KnownSplit(all, blocks, chain);
      ReplayFront(h, blocks, chain);
      ChainBalanced(h, all, script, blocks, front);
      ChainStep(h, script, blocks, chain);
      hide *;
      var before, s := Replay(h, map[], blocks, front).value, ScanChain(h, script, blocks, front).value;
      var n := |block.transactions|;
      BlockBalanced(h, all, script, s, before, block, n);
      LastBlock(h, before, block);
      BalancedPlus(map[], before, Replay(h, map[], blocks, chain).value, Scan(map[], []), s,
                   ScanChain(h, script, blocks, chain).value, ChainTally(h, map[], blocks, front, script),
                   BlockTally(h, before, block, script, n), script);
    }
  }

  lemma {:induction false} ReplayFront(h: Host, blocks: Blocks, chain: seq<Digest>)
    requires chain != [] && Replay(h, map[], blocks, chain).Ok?
    ensures Replay(h, map[], blocks, chain[..|chain| - 1]).Ok?
  {
  }

  /** For every chain that replays from an empty bootstrap, and every script: the history can be computed,
      and its signed sum is the script's balance in the ledger, less what saturated fees have hidden, plus
      what was overwritten in the ledger without being spent. */
  lemma {:induction false} HistoryAndLedger(
      h: Host, all: set<Transaction>, script: Bytes, blocks: Blocks, chain: seq<Digest>)
    requires Universe(h, all) && Known(all, blocks, chain) && Replay(h, map[], blocks, chain).Ok?
    ensures var r := WalletHistory(h, script, blocks, chain);
      var tally := ChainTally(h, map[], blocks, chain, script);
      && r.Ok?
      && Signed(r.value) + tally.hidden + U64_LIMIT * tally.dropped
         == Sum(Replay(h, map[], blocks, chain).value, Some(script)) + tally.overwritten
  {
    hide ChainTally, ScanChain, Replay, Known, Universe, Named, Covers;
    ChainBalanced(h, all, script, blocks, chain);
    SignedReversed(ScanChain(h, script, blocks, chain).value.history);
  }

  // ---------- When they agree ----------

  /** The txids along a chain, in order. */
  function TxidsOf(h: Host, blocks: Blocks, chain: seq<Digest>): seq<Digest> {
    if chain == [] then []
    else
      var last := chain[|chain| - 1];
      TxidsOf(h, blocks, chain[..|chain| - 1]) +
      if last in blocks then Merkle.Txids(h, blocks[last].transactions) else []
  }

  ghost predicate NoRepeats(ids: seq<Digest>) {
    forall i, j :: 0 <= i < j < |ids| ==> ids[i] != ids[j]
  }

  /** Every outpoint in the ledger comes from a transaction that has been seen. */
  ghost predicate FromSeen(utxos: UtxoSet, seen: seq<Digest>) {
    forall o :: o in utxos ==> o.txid in seen
  }

  lemma {:induction false} NothingLost(utxos: UtxoSet, txid: Digest, tx: Transaction, height: u64,
      who: Option<Bytes>, n: nat)
    requires n <= |tx.outputs| <= U32_LIMIT && forall o :: o in utxos ==> o.txid != txid
    ensures Lost(utxos, txid, tx, height, who, n) == 0
    ensures forall o :: o in InsertOutputs(utxos, txid, tx, height, n) && o.txid == txid ==> o.vout < n
  {
    if n > 0 {
      NothingLost(utxos, txid, tx, height, who, n - 1);
    }
  }

  lemma FreshTransaction(h: Host, utxos: UtxoSet, tx: Transaction, height: u64, who: Option<Bytes>, seen: seq<Digest>)
    requires FromSeen(utxos, seen) && h.txid(tx) !in seen && |tx.outputs| <= U32_LIMIT
    ensures Destroyed(h, utxos, tx, height, who) == 0
    ensures FromSeen(ApplyTransaction(h, utxos, tx, height), seen + [h.txid(tx)])
  {
    var rest := utxos - Spent(tx.inputs, |tx.inputs|);
    NothingLost(rest, h.txid(tx), tx, height, who, |tx.outputs|);
    InsertedKeys(rest, h.txid(tx), tx, height, |tx.outputs|);
  }

  lemma {:induction false} FreshBlock(h: Host, utxos: UtxoSet, block: Block, script: Bytes, seen: seq<Digest>,
                                      ids: seq<Digest>, n: nat)
    requires FromSeen(utxos, seen) && n <= |block.transactions| && ApplyFirst(h, utxos, block, n).Ok?
    requires |ids| == |block.transactions| && NoRepeats(seen + ids)
    requires forall i :: 0 <= i < |ids| ==>
      ids[i] == h.txid(block.transactions[i]) && |block.transactions[i].outputs| < U32_LIMIT
    ensures BlockTally(h, utxos, block, script, n).overwritten == 0
    ensures FromSeen(ApplyFirst(h, utxos, block, n).value.utxos, seen + ids[..n])
  {
    hide *;
    if n == 0 {
      BlockStart(h, script, Scan(map[], []), utxos, block);
      assert seen + ids[..0] == seen;
    } else {
      ApplyFailsEarly(h, utxos, block, n - 1, n);
      var before, tx := ApplyFirst(h, utxos, block, n - 1).value, block.transactions[n - 1];
      FreshBlock(h, utxos, block, script, seen, ids, n - 1);
      NewId(seen, ids, n - 1);
      TallyStep(h, utxos, block, script, n);
      FreshTransaction(h, before.utxos, tx, block.header.height, Some(script), seen + ids[..n - 1]);
      TallyOverwritten(h, BlockTally(h, utxos, block, script, n - 1), before.utxos, tx, block.header.height, script);
    }
  }

  lemma TallyOverwritten(h: Host, tally: Tally, utxos: UtxoSet, tx: Transaction, height: u64, script: Bytes)
    ensures Plus(tally, TransactionTally(h, utxos, tx, height, script)).overwritten
         == tally.overwritten + Destroyed(h, utxos, tx, height, Some(script))
  {
  }

  lemma NewId(seen: seq<Digest>, ids: seq<Digest>, n: nat)
    requires NoRepeats(seen + ids) && n < |ids|
    ensures ids[n] !in seen + ids[..n]
    ensures seen + ids[..n + 1] == seen + ids[..n] + [ids[n]]
  {
    var all := seen + ids;
    assert all[|seen| + n] == ids[n];
    assert forall i :: 0 <= i < |seen| + n ==> (seen + ids[..n])[i] == all[i];
  }

  /** The txids that the last block of a chain adds. */
  lemma {:induction false} LastIds(h: Host, all: set<Transaction>, blocks: Blocks, chain: seq<Digest>)
    requires Universe(h, all) && Known(all, blocks, chain) && chain != [] && chain[|chain| - 1] in blocks
    ensures var txs := blocks[chain[|chain| - 1]].transactions;
      var seen, ids := TxidsOf(h, blocks, chain[..|chain| - 1]), Merkle.Txids(h, txs);
      && TxidsOf(h, blocks, chain) == seen + ids
      && (forall i :: 0 <= i < |ids| ==> ids[i] == h.txid(txs[i]) && |txs[i].outputs| < U32_LIMIT)
      && (NoRepeats(seen + ids) ==> NoRepeats(seen))
  {
    KnownSplit(all, blocks, chain);
    hide Known;
    var txs := blocks[chain[|chain| - 1]].transactions;
    var seen, ids := TxidsOf(h, blocks, chain[..|chain| - 1]), Merkle.Txids(h, txs);
    assert forall i :: 0 <= i < |txs| ==> txs[i] in txs;
    assert forall i :: 0 <= i < |seen| ==> (seen + ids)[i] == seen[i];
  }

  lemma {:induction false} NothingSeen(h: Host, blocks: Blocks, script: Bytes)
    ensures ChainTally(h, map[], blocks, [], script) == Tally(0, 0, 0)
    ensures Replay(h, map[], blocks, []) == Ok(map[]) && FromSeen(map[], TxidsOf(h, blocks, []))
  {
  }

  lemma OverwrittenPlus(a: Tally, b: Tally)
    ensures Plus(a, b).overwritten == a.overwritten + b.overwritten
  {
  }

  /** Where no txid repeats, nothing is overwritten. */
  lemma {:induction false} FreshChain(h: Host, all: set<Transaction>, script: Bytes, blocks: Blocks,
                                      chain: seq<Digest>)
    requires Universe(h, all) && Known(all, blocks, chain) && Replay(h, map[], blocks, chain).Ok?
    requires NoRepeats(TxidsOf(h, blocks, chain))
    ensures ChainTally(h, map[], blocks, chain, script).overwritten == 0
    ensures FromSeen(Replay(h, map[], blocks, chain).value, TxidsOf(h, blocks, chain))
  {
    hide *;
    if chain == [] {
      NothingSeen(h, blocks, script);
    } else {
      KnownSplit(all, blocks, chain);
      LastApplies(h, blocks, chain);
      LastIds(h, all, blocks, chain);
      CleanChainStep(h, blocks, chain, script);
      var front, block := chain[..|chain| - 1], blocks[chain[|chain| - 1]];
      var seen, ids := TxidsOf(h, blocks, front), Merkle.Txids(h, block.transactions);
      FreshChain(h, all, script, blocks, front);
      var before := Replay(h, map[], blocks, front).value;
      FreshBlock(h, before, block, script, seen, ids, |block.transactions|);
      assert ids[..|block.transactions|] == ids;
      OverwrittenPlus(ChainTally(h, map[], blocks, front, script),
                      BlockTally(h, before, block, script, |block.transactions|));
    }
  }

  /** All inputs of the transaction are claimed by the same owner. */
  ghost predicate SingleOwner(h: Host, tx: Transaction) {
    forall i, j :: 0 <= i < j < |tx.inputs| ==> h.owner(tx.inputs[i].scriptSig) == h.owner(tx.inputs[j].scriptSig)
  }

  lemma {:induction false} OwnsAllOrNone(h: Host, utxos: UtxoSet, inputs: seq<TxInput>, script: Bytes, n: nat)
    requires n <= |inputs| && RedeemInputs(h, utxos, inputs, n).Ok?
    requires forall i :: 0 < i < n ==> h.owner(inputs[0].scriptSig) == h.owner(inputs[i].scriptSig)
    ensures InputWorth(utxos, inputs, Some(script), n) ==
      if n > 0 && h.owner(inputs[0].scriptSig) == Some(script) then InputWorth(utxos, inputs, None, n) else 0
  {
    if n > 0 {
      OwnsAllOrNone(h, utxos, inputs, script, n - 1);
      RedeemedValue(h, utxos, inputs, n);
    }
  }

  /** A transaction with one owner and sums that fit is recorded as it is. */
  lemma NothingMisstated(h: Host, utxos: UtxoSet, tx: Transaction, script: Bytes)
    requires SingleOwner(h, tx) && Exact(h, tx) && Recordable(h, utxos, tx)
    requires tx.inputs == [] || ValidateTransaction(h, utxos, tx).Ok?
    ensures !Misstates(utxos, tx, script)
  {
    OutputsSplit(tx.outputs, script, |tx.outputs|);
    if tx.inputs != [] {
      FeeValue(h, utxos, tx);
      ValueIsWorth(tx.outputs, |tx.outputs|);
      OwnsAllOrNone(h, utxos, tx.inputs, script, |tx.inputs|);
    }
  }

  lemma OneOwnerBlock(h: Host, utxos: UtxoSet, block: Block, script: Bytes)
    requires ApplyBlock(h, utxos, block).Ok? && ExactBlock(h, block)
    requires forall t <- block.transactions :: SingleOwner(h, t)
    ensures CleanBlock(h, utxos, block, script, |block.transactions|)
  {
    LastBlock(h, utxos, block);
    hide ApplyBlock, ApplyFirst, Misstates, SingleOwner, Exact;
    forall i | 0 <= i < |block.transactions| && ApplyFirst(h, utxos, block, i).Ok?
      ensures !Misstates(ApplyFirst(h, utxos, block, i).value.utxos, block.transactions[i], script)
    {
      assert block.transactions[i] in block.transactions;
      OneOwnerStep(h, utxos, block, script, i);
    }
  }

  lemma {:induction false} OneOwnerStep(h: Host, utxos: UtxoSet, block: Block, script: Bytes, i: nat)
    requires ApplyBlock(h, utxos, block).Ok? && i < |block.transactions| && ApplyFirst(h, utxos, block, i).Ok?
    requires Exact(h, block.transactions[i]) && SingleOwner(h, block.transactions[i])
    ensures !Misstates(ApplyFirst(h, utxos, block, i).value.utxos, block.transactions[i], script)
  {
    hide *;
    LastBlock(h, utxos, block);
    ApplyFailsEarly(h, utxos, block, i + 1, |block.transactions|);
    AppliedRecordable(h, utxos, block, i);
    AppliedValid(h, utxos, block, i);
    NothingMisstated(h, ApplyFirst(h, utxos, block, i).value.utxos, block.transactions[i], script);
  }

  lemma AppliedValid(h: Host, utxos: UtxoSet, block: Block, n: nat)
    requires n < |block.transactions| && ApplyFirst(h, utxos, block, n + 1).Ok?
    ensures ApplyFirst(h, utxos, block, n).Ok?
    ensures block.transactions[n].inputs == []
      || ValidateTransaction(h, ApplyFirst(h, utxos, block, n).value.utxos, block.transactions[n]).Ok?
  {
    hide ValidateTransaction, ApplyTransaction;
  }

  /** Where every transaction has one owner and sums that fit, nothing is misstated. */
  lemma {:induction false} OneOwnerChain(
      h: Host, all: set<Transaction>, script: Bytes, blocks: Blocks, chain: seq<Digest>)
    requires Known(all, blocks, chain) && Replay(h, map[], blocks, chain).Ok?
    requires forall t :: t in all ==> SingleOwner(h, t) && Exact(h, t)
    ensures CleanChain(h, blocks, chain, script)
  {
    hide ApplyBlock, CleanBlock, SingleOwner, Exact;
    forall i | 0 <= i < |chain| && chain[i] in blocks && Replay(h, map[], blocks, chain[..i]).Ok?
      ensures CleanBlock(h, Replay(h, map[], blocks, chain[..i]).value, blocks[chain[i]], script,
                         |blocks[chain[i]].transactions|)
    {
      ReplayPrefix(h, map[], blocks, chain, i + 1);
      assert chain[..i + 1][..i] == chain[..i];
      assert chain[i] in chain;
      OneOwnerBlock(h, Replay(h, map[], blocks, chain[..i]).value, blocks[chain[i]], script);
    }
  }

  /** The subtraction that makes the fee of a record saturates: the script owns some of the inputs, but less than
      all the outputs come to. */
  predicate Saturates(utxos: UtxoSet, tx: Transaction, script: Bytes) {
    0 < InputWorth(utxos, tx.inputs, Some(script), |tx.inputs|) < ValueSum(tx.outputs, |tx.outputs|) % U64_LIMIT
  }

  /** The record does not say what happened: its fee saturates, or one of its sums goes round u64. */
  predicate Misstates(utxos: UtxoSet, tx: Transaction, script: Bytes) {
    Saturates(utxos, tx, script) || Dropped(utxos, tx, script) > 0
  }

  /** In a transaction whose sums fit, only the fee can misstate anything. */
  lemma {:induction false} ExactMisstates(utxos: UtxoSet, tx: Transaction, script: Bytes)
    requires ValueSum(tx.outputs, |tx.outputs|) < U64_LIMIT
    ensures Misstates(utxos, tx, script) <==>
      0 < InputWorth(utxos, tx.inputs, Some(script), |tx.inputs|) < ValueSum(tx.outputs, |tx.outputs|)
  {
    OutputsSplit(tx.outputs, script, |tx.outputs|);
    hide InputWorth, ValueSum, OutputWorth, Foreign;
    Division(ValueSum(tx.outputs, |tx.outputs|), U64_LIMIT);
    assert Rounds(OutputWorth(tx.outputs, Some(script), |tx.outputs|)) == 0;
    assert Rounds(ValueSum(tx.outputs, |tx.outputs|)) == 0;
  }

  /** No record misstates one of the first `n` transactions of the block. */
  ghost predicate CleanBlock(h: Host, utxos: UtxoSet, block: Block, script: Bytes, n: nat)
    requires n <= |block.transactions|
  {
    forall i :: 0 <= i < n && ApplyFirst(h, utxos, block, i).Ok? ==>
      !Misstates(ApplyFirst(h, utxos, block, i).value.utxos, block.transactions[i], script)
  }

  /** No record misstates anything along the chain. */
  ghost predicate CleanChain(h: Host, blocks: Blocks, chain: seq<Digest>, script: Bytes) {
    forall i :: 0 <= i < |chain| && chain[i] in blocks && Replay(h, map[], blocks, chain[..i]).Ok? ==>
      CleanBlock(h, Replay(h, map[], blocks, chain[..i]).value, blocks[chain[i]], script,
                 |blocks[chain[i]].transactions|)
  }

  lemma CleanStep(h: Host, utxos: UtxoSet, block: Block, script: Bytes, n: nat)
    requires 0 < n <= |block.transactions| && ApplyFirst(h, utxos, block, n - 1).Ok?
    ensures CleanBlock(h, utxos, block, script, n) <==>
      && CleanBlock(h, utxos, block, script, n - 1)
      && !Misstates(ApplyFirst(h, utxos, block, n - 1).value.utxos, block.transactions[n - 1], script)
  {
    hide ApplyFirst, Misstates;
  }

  /** Nothing is hidden and nothing dropped. */
  predicate Faithful(tally: Tally) {
    tally.hidden == 0 && tally.dropped == 0
  }

  lemma TallyFaithful(h: Host, tally: Tally, utxos: UtxoSet, tx: Transaction, height: u64, script: Bytes)
    ensures Faithful(Plus(tally, TransactionTally(h, utxos, tx, height, script)))
       <==> Faithful(tally) && !Misstates(utxos, tx, script)
  {
    hide Destroyed, ValueSum, InputWorth, Dropped;
  }

  lemma PlusFaithful(a: Tally, b: Tally)
    ensures Faithful(Plus(a, b)) <==> Faithful(a) && Faithful(b)
  {
  }

  lemma {:induction false} BlockFaithful(h: Host, utxos: UtxoSet, block: Block, script: Bytes, n: nat)
    requires n <= |block.transactions| && ApplyFirst(h, utxos, block, n).Ok?
    ensures Faithful(BlockTally(h, utxos, block, script, n)) <==> CleanBlock(h, utxos, block, script, n)
  {
    hide *;
    if n == 0 {
      BlockStart(h, script, Scan(map[], []), utxos, block);
    } else {
      ApplyFailsEarly(h, utxos, block, n - 1, n);
      BlockFaithful(h, utxos, block, script, n - 1);
      CleanStep(h, utxos, block, script, n);
      TallyStep(h, utxos, block, script, n);
      TallyFaithful(h, BlockTally(h, utxos, block, script, n - 1), ApplyFirst(h, utxos, block, n - 1).value.utxos,
                  block.transactions[n - 1], block.header.height, script);
    }
  }

  lemma CleanChainStep(h: Host, blocks: Blocks, chain: seq<Digest>, script: Bytes)
    requires chain != [] && chain[|chain| - 1] in blocks && Replay(h, map[], blocks, chain[..|chain| - 1]).Ok?
    ensures var front, block := chain[..|chain| - 1], blocks[chain[|chain| - 1]];
      var before := Replay(h, map[], blocks, front).value;
      && (CleanChain(h, blocks, chain, script) <==>
            CleanChain(h, blocks, front, script) && CleanBlock(h, before, block, script, |block.transactions|))
      && ChainTally(h, map[], blocks, chain, script)
         == Plus(ChainTally(h, map[], blocks, front, script),
                 BlockTally(h, before, block, script, |block.transactions|))
  {
    hide CleanBlock, Replay, BlockTally, Plus;
    var front := chain[..|chain| - 1];
    assert forall i :: 0 <= i < |front| ==> front[i] == chain[i] && front[..i] == chain[..i];
  }

  lemma {:induction false} ChainFaithful(h: Host, all: set<Transaction>, script: Bytes, blocks: Blocks,
      chain: seq<Digest>)
    requires Known(all, blocks, chain) && Replay(h, map[], blocks, chain).Ok?
    ensures Faithful(ChainTally(h, map[], blocks, chain, script)) <==> CleanChain(h, blocks, chain, script)
  {
    if chain != [] {
      hide Replay, ApplyFirst, BlockTally, CleanBlock, CleanChain, ChainTally, Known;
      var front, block := chain[..|chain| - 1], blocks[chain[|chain| - 1]] by {
        LastApplies(h, blocks, chain);
      }
      KnownSplit(all, blocks, chain);
      LastApplies(h, blocks, chain);
      ChainFaithful(h, all, script, blocks, front);
      CleanChainStep(h, blocks, chain, script);
      BlockFaithful(h, Replay(h, map[], blocks, front).value, block, script, |block.transactions|);
      PlusFaithful(ChainTally(h, map[], blocks, front, script),
                   BlockTally(h, Replay(h, map[], blocks, front).value, block, script, |block.transactions|));
    }
  }

  lemma LastApplies(h: Host, blocks: Blocks, chain: seq<Digest>)
    requires chain != [] && Replay(h, map[], blocks, chain).Ok?
    ensures var front := chain[..|chain| - 1];
      && Replay(h, map[], blocks, front).Ok? && chain[|chain| - 1] in blocks
      && var block := blocks[chain[|chain| - 1]];
         var end := ApplyFirst(h, Replay(h, map[], blocks, front).value, block, |block.transactions|);
         end.Ok? && end.value.utxos == Replay(h, map[], blocks, chain).value
  {
    hide ApplyFirst;
  }

  /** Along a chain that starts from an empty bootstrap and repeats no txid, in any build, the signed sum of a
      script's records is its balance exactly if no record misstates anything: no fee saturates, and no sum goes
      round u64. That is so if every transaction has one owner and sums that fit. */
  lemma {:induction false} HistoryIsLedger(
      h: Host, all: set<Transaction>, script: Bytes, blocks: Blocks, chain: seq<Digest>)
    requires Universe(h, all) && Known(all, blocks, chain) && Replay(h, map[], blocks, chain).Ok?
    requires NoRepeats(TxidsOf(h, blocks, chain))
    ensures var r := WalletHistory(h, script, blocks, chain);
      var balance := Sum(Replay(h, map[], blocks, chain).value, Some(script));
      && r.Ok? && Signed(r.value) <= balance
      && (Signed(r.value) == balance <==> CleanChain(h, blocks, chain, script))
      && ((forall t :: t in all ==> SingleOwner(h, t) && Exact(h, t)) ==> Signed(r.value) == balance)
  {
    hide CleanChain, WalletHistory, Universe, Known, Replay, Sum, Signed, ChainTally, NoRepeats, TxidsOf, SingleOwner,
      Exact, FromSeen;
    HistoryAndLedger(h, all, script, blocks, chain);
    FreshChain(h, all, script, blocks, chain);
    ChainFaithful(h, all, script, blocks, chain);
    if forall t :: t in all ==> SingleOwner(h, t) && Exact(h, t) {
      OneOwnerChain(h, all, script, blocks, chain);
    }
  }

  /** Without overflow checks a coinbase that pays a script 2^63 twice leaves no record of its 2^64 units, though it
      has one owner and repeats no txid. */
  lemma {:induction false} UnrecordedCoinbase(h: Host, script: Bytes, header: BlockHeader, blocks: Blocks, k: Digest)
    requires !h.overflowChecks && k in blocks
    requires var half := TxOutput(0x8000_0000_0000_0000, script);
      blocks[k] == Block(header, [NewTransaction([], [half, half])])
    ensures Replay(h, map[], blocks, [k]).Ok? && NoRepeats(TxidsOf(h, blocks, [k]))
    ensures WalletHistory(h, script, blocks, [k]) == Ok([])
    ensures Sum(Replay(h, map[], blocks, [k]).value, Some(script)) == U64_LIMIT
    ensures !CleanChain(h, blocks, [k], script)
  {
    var half := TxOutput(0x8000_0000_0000_0000, script);
    var tx, none := NewTransaction([], [half, half]), map[];
    var block := Block(header, [tx]);
    HalvesApply(h, header, script);
    HalvesRecord(h, header, script);
    assert [k][..0] == [];
    assert Replay(h, none, blocks, []) == Ok(none);
    assert TxidsOf(h, blocks, []) == [];
    hide ApplyBlock, ScanTransaction, MakeRecord, Sum, Misstates;
    assert ScanChain(h, script, blocks, []) == Ok(Scan(map[], []));
    assert ScanBlock(h, script, Scan(map[], []), block, 0) == Ok(Scan(map[], []));
    assert ApplyFirst(h, none, block, 0) == Ok(Progress(none, 0));
    assert [k][0] == k;
    assert !CleanBlock(h, none, block, script, 1);
  }

  lemma HalvesApply(h: Host, header: BlockHeader, script: Bytes)
    requires !h.overflowChecks
    ensures var half := TxOutput(0x8000_0000_0000_0000, script);
      var r := ApplyBlock(h, map[], Block(header, [NewTransaction([], [half, half])]));
      r.Ok? && Sum(r.value, Some(script)) == U64_LIMIT
  {
    var half := TxOutput(0x8000_0000_0000_0000, script);
    var tx := NewTransaction([], [half, half]);
    var block := Block(header, [tx]);
    assert ValueSum(tx.outputs, 2) == ValueSum(tx.outputs, 1) + half.value == U64_LIMIT;
    assert CheckTransaction(tx).Ok?;
    assert ApplyFirst(h, map[], block, 0) == Ok(Progress(map[], 0));
    assert ApplyFirst(h, map[], block, 1) == Ok(Progress(ApplyTransaction(h, map[], tx, header.height), 0));
    CoinbaseValue(h, tx, header.height, Some(script));
  }

  lemma HalvesRecord(h: Host, header: BlockHeader, script: Bytes)
    requires !h.overflowChecks
    ensures var half := TxOutput(0x8000_0000_0000_0000, script); var tx := NewTransaction([], [half, half]);
      ScanTransaction(h, script, header, Scan(map[], []), tx) == Ok(Scan(map[h.txid(tx) := tx.outputs], []))
      && Misstates(map[], tx, script)
  {
    var half := TxOutput(0x8000_0000_0000_0000, script);
    var tx := NewTransaction([], [half, half]);
    assert OutputWorth(tx.outputs, Some(script), 2) == OutputWorth(tx.outputs, Some(script), 1) + half.value
      == U64_LIMIT;
    assert Rounds(U64_LIMIT) == 1;
  }

  /** A payment of 3 units that two owners fund with 1 and with 2. */
  function SharedPayment(a: OutPoint, keyA: Bytes, b: OutPoint, keyB: Bytes, to: Bytes): Transaction {
    NewTransaction([TxInput(a, keyA, 0), TxInput(b, keyB, 0)], [TxOutput(3, to)])
  }

  /** It is valid and saturates: the first owner's history says that 3 units went out, and the balance falls by 1. */
  lemma {:induction false} SharedPaymentSaturates(
      h: Host, header: BlockHeader, known: map<Digest, seq<TxOutput>>, utxos: UtxoSet,
      a: OutPoint, keyA: Bytes, ownerA: Bytes, b: OutPoint, keyB: Bytes, ownerB: Bytes, to: Bytes)
    requires ownerA != ownerB && to != ownerA && a != b
    requires h.owner(keyA) == Some(ownerA) && h.owner(keyB) == Some(ownerB)
    requires a in utxos && utxos[a].output == TxOutput(1, ownerA) && b in utxos
      && utxos[b].output == TxOutput(2, ownerB)
    requires a.txid in known && a.vout < |known[a.txid]| && known[a.txid][a.vout] == TxOutput(1, ownerA)
    requires b.txid in known && b.vout < |known[b.txid]| && known[b.txid][b.vout] == TxOutput(2, ownerB)
    requires forall o :: o in utxos ==> o.txid != h.txid(SharedPayment(a, keyA, b, keyB, to))
    ensures var tx := SharedPayment(a, keyA, b, keyB, to);
      && ValidateTransaction(h, utxos, tx) == Ok(0) && Misstates(utxos, tx, ownerA)
      && MakeRecord(h, ownerA, header, known, tx)
         == Ok(Some(Record(tx, h.txid(tx), header.height, header.timestamp, Outgoing, 3, 0)))
      && Sum(ApplyTransaction(h, utxos, tx, header.height), Some(ownerA)) == Sum(utxos, Some(ownerA)) - 1
  {
    var tx := SharedPayment(a, keyA, b, keyB, to);
    SharedPaymentSums(h, known, utxos, a, keyA, ownerA, b, keyB, ownerB, to);
    assert DistinctInputs(tx.inputs);
    NothingLost(utxos - Spent(tx.inputs, 2), h.txid(tx), tx, header.height, Some(ownerA), 1);
    TransactionAccounting(h, utxos, tx, header.height, Some(ownerA));
    hide Sum, ApplyTransaction, InputWorth, OwnedInput, OutputWorth, Foreign, ValueSum, RedeemInputs;
  }

  lemma {:induction false} SharedPaymentSums(
      h: Host, known: map<Digest, seq<TxOutput>>, utxos: UtxoSet,
      a: OutPoint, keyA: Bytes, ownerA: Bytes, b: OutPoint, keyB: Bytes, ownerB: Bytes, to: Bytes)
    requires ownerA != ownerB && to != ownerA
    requires h.owner(keyA) == Some(ownerA) && h.owner(keyB) == Some(ownerB)
    requires a in utxos && utxos[a].output == TxOutput(1, ownerA) && b in utxos
      && utxos[b].output == TxOutput(2, ownerB)
    requires a.txid in known && a.vout < |known[a.txid]| && known[a.txid][a.vout] == TxOutput(1, ownerA)
    requires b.txid in known && b.vout < |known[b.txid]| && known[b.txid][b.vout] == TxOutput(2, ownerB)
    ensures var tx := SharedPayment(a, keyA, b, keyB, to); var who := Some(ownerA);
      && RedeemInputs(h, utxos, tx.inputs, 2) == Ok(3) && ValueSum(tx.outputs, 1) == 3
      && InputWorth(utxos, tx.inputs, who, 2) == 1 && OwnedInput(known, tx.inputs, ownerA, 2) == 1
      && OutputWorth(tx.outputs, who, 1) == 0 && Foreign(tx.outputs, ownerA, 1) == 3
  {
    var tx, who := SharedPayment(a, keyA, b, keyB, to), Some(ownerA);
    assert RedeemInputs(h, utxos, tx.inputs, 0) == Ok(0) && RedeemInputs(h, utxos, tx.inputs, 1) == Ok(1);
    assert InputWorth(utxos, tx.inputs, who, 0) == 0 && InputWorth(utxos, tx.inputs, who, 1) == 1;
    assert OwnedInput(known, tx.inputs, ownerA, 0) == 0 && OwnedInput(known, tx.inputs, ownerA, 1) == 1;
    assert ValueSum(tx.outputs, 0) == 0 && OutputWorth(tx.outputs, who, 0) == 0 && Foreign(tx.outputs, ownerA, 0) == 0;
  }

  /** The same for the best chain and the ledger of every grounded chain object. */
  lemma {:induction false} HistoryOfBestChain(h: Host, all: set<Transaction>, script: Bytes, c: Chain)
    requires Grounded(h, c) && c.bootstrapUtxos == map[]
    requires Universe(h, all) && Known(all, c.blocks, c.bestChain)
    requires NoRepeats(TxidsOf(h, c.blocks, c.bestChain))
    ensures var r := WalletHistory(h, script, c.blocks, c.bestChain);
      && r.Ok?
      && (Signed(r.value) == Sum(c.utxoSet, Some(script)) <==> CleanChain(h, c.blocks, c.bestChain, script))
  {
    hide StoreGrounded, Universe, Known, NoRepeats, TxidsOf, WalletHistory, Signed, Sum, CleanChain, Walk, Replay;
    HistoryIsLedger(h, all, script, c.blocks, c.bestChain);
  }
}

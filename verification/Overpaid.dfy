/** A sound node whose template is refused: two pending transactions whose fees together leave u64. Two bootstrap
    outputs of the largest value are each spent down to one unit, so that the coinbase is due more than it can pay; the
    sum saturates, and the check of the block, which does not, fails. */
module Overpaid {
  import opened Arithmetic
  import opened Types
  import opened Ledger
  import opened Accounting
  import opened ChainRules
  import opened Consensus
  import opened AnyRun
  import opened Pending
  import opened NodeRules
  import opened PoolRuns
  import opened Templates
  import Mempool
  import Sorting
  import TxCodec
  import Merkle

  // ---------- Small pools are chosen whole ----------

  lemma {:induction false} SizesBounded(p: Mempool.Pool, keys: seq<Digest>, each: nat)
    requires forall k :: k in keys ==> k in p.transactions
    requires forall k :: k in p.transactions ==> TxCodec.EstimatedSize(p.transactions[k].transaction) <= each
    ensures Mempool.SizeSum(p, keys) <= |keys| * each
  {
    if keys != [] {
      SizesBounded(p, keys[..|keys| - 1], each);
      MulAdd(|keys| - 1, 1, each);
    }
  }

  lemma {:induction false} DistinctBounded(keys: seq<Digest>, all: set<Digest>)
    requires Sorting.Distinct(keys) && forall k :: k in keys ==> k in all
    ensures |keys| <= |all|
  {
    if keys != [] {
      var last, front := keys[|keys| - 1], keys[..|keys| - 1];
      assert forall k :: k in front ==> k in all - {last};
      DistinctBounded(front, all - {last});
    }
  }

  /** With fewer than ten entries, all eligible and of at most 100,000 bytes each, every entry is chosen. */
  lemma AllChosen(h: Host, p: Mempool.Pool, now: u64, k: Digest)
    requires |p.transactions| < Mempool.MAX_CHOSEN && k in p.transactions
    requires forall j :: j in p.transactions ==>
      Mempool.Eligible(p, p.transactions[j], now) && TxCodec.EstimatedSize(p.transactions[j].transaction) <= 100_000
    ensures k in Mempool.SelectForBlock(h, p, 1_000_000, now).chosen
  {
    hide Mempool.Eligible, TxCodec.EstimatedSize;
    var s := Mempool.SelectForBlock(h, p, 1_000_000, now);
    Mempool.SelectionMeaning(h, p, 1_000_000, now);
    SizesBounded(p, s.chosen, 100_000);
    DistinctBounded(s.chosen, p.transactions.Keys);
    assert |p.transactions.Keys| == |p.transactions|;
    if k !in s.chosen {
      DistinctBounded(s.chosen + [k], p.transactions.Keys);
    }
  }

  lemma {:induction false} FeesOfTwo(p: Mempool.Pool, keys: seq<Digest>, j: Digest, k: Digest)
    requires forall i :: i in keys ==> i in p.transactions
    requires j in keys
    ensures Mempool.FeeSum(p, keys) >= p.transactions[j].feePaid
    ensures k in keys && j != k ==> Mempool.FeeSum(p, keys) >= p.transactions[j].feePaid + p.transactions[k].feePaid
  {
    var last, front := keys[|keys| - 1], keys[..|keys| - 1];
    assert keys == front + [last];
    if j in front {
      FeesOfTwo(p, front, j, k);
    } else if k in front {
      FeesOfTwo(p, front, k, j);
    }
  }

  // ---------- The transactions ----------

  /** A payment of one unit out of an output of 2^64 - 1; the rest is fee. */
  function Drain(o: OutPoint, key: Bytes, owner: Bytes): Transaction {
    NewTransaction([TxInput(o, key, 0)], [TxOutput(1, owner)])
  }

  lemma DrainSize(o: OutPoint, key: Bytes, owner: Bytes)
    requires |key| <= 1000 && |owner| <= 1000
    ensures 1 <= TxCodec.EstimatedSize(Drain(o, key, owner)) <= 3000
  {
    var tx := Drain(o, key, owner);
    assert |TxCodec.SerializeInputs(tx.inputs, 1)| == |TxCodec.SerializeInputs(tx.inputs, 0)| + 44 + |key|;
    assert |TxCodec.SerializeOutputs(tx.outputs, 1)| == |TxCodec.SerializeOutputs(tx.outputs, 0)| + 12 + |owner|;
  }

  lemma DrainValid(h: Host, utxos: UtxoSet, o: OutPoint, key: Bytes, owner: Bytes)
    requires h.owner(key) == Some(owner) && o in utxos && utxos[o].output == TxOutput(MAX_U64, owner)
    ensures ValidateTransaction(h, utxos, Drain(o, key, owner)) == Ok(MAX_U64 - 1)
  {
    var tx := Drain(o, key, owner);
    assert RedeemInputs(h, utxos, tx.inputs, 0) == Ok(0);
    assert RedeemInputs(h, utxos, tx.inputs, 1) == Ok(MAX_U64);
    assert ValueSum(tx.outputs, 1) == ValueSum(tx.outputs, 0) + 1;
  }

  // ---------- The node ----------

  /** The entry that a drain becomes: it pays nearly 2^64 units, which buys immediate confirmation. */
  ghost predicate DrainEntry(entry: Mempool.Entry, tx: Transaction, now: u64) {
    entry.transaction == tx && entry.feePaid == MAX_U64 - 1 && entry.feeRate >= 3 && entry.receivedAt == now
  }

  /** A drain is taken into a small pool that holds nothing like it. */
  lemma DrainTaken(h: Host, s: State, o: OutPoint, key: Bytes, owner: Bytes, now: u64)
    requires h.owner(key) == Some(owner) && |key| <= 1000 && |owner| <= 1000
    requires o in s.chain.utxoSet && s.chain.utxoSet[o].output == TxOutput(MAX_U64, owner)
    requires var txid := h.txid(Drain(o, key, owner));
      !ContainsTransaction(h, s.chain, txid) && txid !in s.pool.transactions
    requires |s.pool.transactions| <= 1 && s.pool.maxSize == 10000 && s.pool.minFeeRate == 1
    requires forall k :: k in s.pool.transactions ==> o !in Mempool.InputPoints(s.pool.transactions[k].transaction)
    ensures var t := SubmitTransaction(h, s, Drain(o, key, owner), now).state; var txid := h.txid(Drain(o, key, owner));
      && t.chain == s.chain && t.pool == s.pool.(transactions := t.pool.transactions)
      && txid in t.pool.transactions && t.pool.transactions == s.pool.transactions[txid := t.pool.transactions[txid]]
      && DrainEntry(t.pool.transactions[txid], Drain(o, key, owner), now)
  {
    hide SubmitTransaction, ContainsTransaction, ValidateTransaction, Drain, DivCeil, Mempool.MinimumRequiredFee,
      Mempool.HasConflictingInputs, Mempool.InputPoints, Mempool.ChargedSize;
    var tx := Drain(o, key, owner);
    DrainFee(s.pool, o, key, owner);
    DrainValid(h, s.chain.utxoSet, o, key, owner);
    NoConflict(s.pool, o, key, owner);
    Taken(h, s, tx, MAX_U64 - 1, now);
  }

  lemma DrainFee(p: Mempool.Pool, o: OutPoint, key: Bytes, owner: Bytes)
    requires |key| <= 1000 && |owner| <= 1000 && |p.transactions| <= 1 && p.minFeeRate == 1
    ensures Mempool.MinimumRequiredFee(p, Drain(o, key, owner)) <= 6000
    ensures DivCeil(MAX_U64 - 1, Mempool.ChargedSize(Drain(o, key, owner))) >= 3
  {
    DrainSize(o, key, owner);
    SmallPoolRate(p);
    hide TxCodec.EstimatedSize, Drain, Mempool.StandardFeeRate, DivCeil;
    var size, rate := Mempool.ChargedSize(Drain(o, key, owner)), Mempool.StandardFeeRate(p);
    MulMonotone(size, 3000, rate);
    MulMonotone(rate, 2, 3000);
    MulMonotone(size, 3000, 3);
    Mempool.RateCovers(MAX_U64 - 1, size, 3);
  }

  lemma SmallPoolRate(p: Mempool.Pool)
    requires |p.transactions| <= 1 && p.minFeeRate == 1
    ensures Mempool.StandardFeeRate(p) <= 2
  {
  }

  lemma Taken(h: Host, s: State, tx: Transaction, fee: u64, now: u64)
    requires !ContainsTransaction(h, s.chain, h.txid(tx)) && ValidateTransaction(h, s.chain.utxoSet, tx) == Ok(fee)
    requires h.txid(tx) !in s.pool.transactions && fee >= Mempool.MinimumRequiredFee(s.pool, tx)
    requires !Mempool.HasConflictingInputs(s.pool, tx) && |s.pool.transactions| < s.pool.maxSize
    ensures var rate := DivCeil(fee, Mempool.ChargedSize(tx));
      && 0 <= rate < U64_LIMIT
      && SubmitTransaction(h, s, tx, now).state == s.(pool := s.pool.(transactions :=
           s.pool.transactions[h.txid(tx) := Mempool.Entry(tx, fee, rate, now)]))
  {
    hide ContainsTransaction, ValidateTransaction, Mempool.MinimumRequiredFee, Mempool.HasConflictingInputs;
    Mempool.RateFits(fee, Mempool.ChargedSize(tx));
    hide DivCeil, TxCodec.EstimatedSize;
  }

  lemma NoConflict(p: Mempool.Pool, o: OutPoint, key: Bytes, owner: Bytes)
    requires forall k :: k in p.transactions ==> o !in Mempool.InputPoints(p.transactions[k].transaction)
    ensures !Mempool.HasConflictingInputs(p, Drain(o, key, owner))
  {
    forall k | k in p.transactions
      ensures !Mempool.SharesInput(p.transactions[k].transaction, Drain(o, key, owner))
    {
      var tx := p.transactions[k].transaction;
      assert forall i :: 0 <= i < |tx.inputs| ==> tx.inputs[i].previousOutput in Mempool.InputPoints(tx);
    }
  }

  /** Two bootstrap outputs of 2^64 - 1 units each. */
  ghost predicate TwoOutputs(h: Host, bootstrap: UtxoSet, a: OutPoint, b: OutPoint, owner: Bytes) {
    && a != b && bootstrap.Keys == {a, b}
    && bootstrap[a].output == TxOutput(MAX_U64, owner) && bootstrap[b].output == TxOutput(MAX_U64, owner)
    && var genesis := h.txid(GenesisBlock(h).transactions[0]); a.txid != genesis && b.txid != genesis
  }

  lemma StartLedger(h: Host, bootstrap: UtxoSet, o: OutPoint)
    requires o in bootstrap && o.txid != h.txid(GenesisBlock(h).transactions[0])
    ensures var c := NewChain(h, bootstrap); o in c.utxoSet && c.utxoSet[o] == bootstrap[o]
    ensures forall txid ::
      ContainsTransaction(h, NewChain(h, bootstrap), txid) ==> txid == h.txid(GenesisBlock(h).transactions[0])
  {
    var tx := GenesisBlock(h).transactions[0];
    GenesisReplays(h, bootstrap);
    NewChainGrounded(h, bootstrap);
    ReplayAgrees(h, bootstrap, NewChain(h, bootstrap).blocks, map[HashOf(h, GenesisBlock(h)) := GenesisBlock(h)],
                 [HashOf(h, GenesisBlock(h))]);
    assert |GenesisBlock(h).transactions| == 1;
    ApplyMeaning(h, bootstrap, tx, 0, o);
  }

  function Drains(a: OutPoint, b: OutPoint, key: Bytes, owner: Bytes, now: u64): seq<Action> {
    [SubmitTx(Drain(a, key, owner), now), SubmitTx(Drain(b, key, owner), now)]
  }

  lemma {:induction false} AfterTwo(h: Host, s: State, x: Action, y: Action)
    ensures After(h, s, [x, y]) == Perform(h, Perform(h, s, x), y)
  {
    hide Perform;
    assert [x, y][..1] == [x] && [x][..0] == [];
    assert After(h, s, [x]) == Perform(h, s, x);
  }

  /** After both have been submitted to a new node, both are pending, and eligible at once. */
  lemma {:induction false} BothPending(
      h: Host, bootstrap: UtxoSet, a: OutPoint, b: OutPoint, key: Bytes, owner: Bytes, now: u64)
    requires TwoOutputs(h, bootstrap, a, b, owner)
    requires h.owner(key) == Some(owner) && |key| <= 1000 && |owner| <= 1000
    requires var (x, y, g) :=
        (h.txid(Drain(a, key, owner)), h.txid(Drain(b, key, owner)), h.txid(GenesisBlock(h).transactions[0]));
      x != y && x != g && y != g
    ensures var s := After(h, NewNode(h, bootstrap), Drains(a, b, key, owner, now));
      var x, y := h.txid(Drain(a, key, owner)), h.txid(Drain(b, key, owner));
      && s.chain == NewChain(h, bootstrap) && s.pool.transactions.Keys == {x, y}
      && s.pool.maxSize == 10000 && s.pool.minFeeRate == 1
      && DrainEntry(s.pool.transactions[x], Drain(a, key, owner), now)
      && DrainEntry(s.pool.transactions[y], Drain(b, key, owner), now)
  {
    hide NewChain, GenesisBlock, SubmitTransaction, ContainsTransaction, DrainEntry;
    StartLedger(h, bootstrap, a);
    StartLedger(h, bootstrap, b);
    var start := NewNode(h, bootstrap);
    AfterTwo(h, start, SubmitTx(Drain(a, key, owner), now), SubmitTx(Drain(b, key, owner), now));
    DrainTaken(h, start, a, key, owner, now);
    var middle := SubmitTransaction(h, start, Drain(a, key, owner), now).state;
    assert b !in Mempool.InputPoints(Drain(a, key, owner));
    EntryIs(middle.pool.transactions[h.txid(Drain(a, key, owner))], Drain(a, key, owner), now);
    DrainTaken(h, middle, b, key, owner, now);
  }

  lemma EntryIs(entry: Mempool.Entry, tx: Transaction, now: u64)
    requires DrainEntry(entry, tx, now)
    ensures entry.transaction == tx && entry.feePaid == MAX_U64 - 1
  {
  }

  lemma DrainEligible(p: Mempool.Pool, entry: Mempool.Entry, tx: Transaction, now: u64)
    requires DrainEntry(entry, tx, now) && |p.transactions| == 2 && p.minFeeRate == 1
    ensures Mempool.Eligible(p, entry, now)
  {
    assert Mempool.StandardFeeRate(p) == 2;
  }

  /** The node that two such submissions leave is sound; what its next coinbase is due leaves u64; and so a block
      mined from its template, under a fresh hash, is refused. */
  lemma {:induction false} TemplateRefused(
      h: Host, all: set<Transaction>, bootstrap: UtxoSet, a: OutPoint, b: OutPoint, key: Bytes,
                        owner: Bytes, miner: Bytes, bits: u32, now: u64, nonce: u64)
    requires Universe(h, all) && Named(h, all, bootstrap) && GenesisBlock(h).transactions[0] in all
    requires Drain(a, key, owner) in all && Drain(b, key, owner) in all
    requires TwoOutputs(h, bootstrap, a, b, owner)
    requires h.owner(key) == Some(owner) && |key| <= 1000 && |owner| <= 1000
    ensures var s := After(h, NewNode(h, bootstrap), Drains(a, b, key, owner, now));
      var made := CreateBlockTemplate(h, s, miner, bits, now, now);
      && Sound(h, all, s) && made.Ok?
      && var block := Mined(made.value, nonce);
         && block.transactions != []
         && (block.transactions[0] in all && HashOf(h, block) !in s.chain.blocks && MeetsTarget(h, block.header) ==>
               !SubmitBlock(h, s, block).result.Ok?)
  {
    assert a != b;
    hide *;
    DifferentIds(h, all, a, b, key, owner);
    var s := After(h, NewNode(h, bootstrap), Drains(a, b, key, owner, now));
    DrainsSound(h, all, bootstrap, a, b, key, owner, now);
    DueTooMuch(h, bootstrap, a, b, key, owner, now);
    TemplateAccepted(h, all, s, miner, bits, now, now, nonce);
    AcceptsNothing(h, all, s, Mined(CreateBlockTemplate(h, s, miner, bits, now, now).value, nonce),
                   Due(s, Mempool.SelectForBlock(h, s.pool, 1_000_000, now).chosen));
  }

  lemma AcceptsNothing(h: Host, all: set<Transaction>, s: State, block: Block, due: nat)
    requires Accepts(h, all, s, block, due) && due >= U64_LIMIT
    ensures block.transactions != []
    ensures block.transactions[0] in all && HashOf(h, block) !in s.chain.blocks && MeetsTarget(h, block.header) ==>
      !SubmitBlock(h, s, block).result.Ok?
  {
    hide MeetsTarget, SubmitBlock, HashOf;
  }

  lemma {:induction false} DrainsSound(
      h: Host, all: set<Transaction>, bootstrap: UtxoSet, a: OutPoint, b: OutPoint, key: Bytes,
                    owner: Bytes, now: u64)
    requires Universe(h, all) && Named(h, all, bootstrap) && GenesisBlock(h).transactions[0] in all
    requires Drain(a, key, owner) in all && Drain(b, key, owner) in all
    ensures Sound(h, all, After(h, NewNode(h, bootstrap), Drains(a, b, key, owner, now)))
  {
    hide Universe, Named, GenesisBlock, Drain, NodeSound, Present, After, NewNode, Straight;
    NewNodeSound(h, all, bootstrap);
    StraightDrains(h, bootstrap, a, b, key, owner, now);
    RunSound(h, all, NewNode(h, bootstrap), Drains(a, b, key, owner, now));
  }

  /** Both drains are chosen, and their fees leave u64. */
  lemma {:induction false} DueTooMuch(
      h: Host, bootstrap: UtxoSet, a: OutPoint, b: OutPoint, key: Bytes, owner: Bytes, now: u64)
    requires TwoOutputs(h, bootstrap, a, b, owner)
    requires h.owner(key) == Some(owner) && |key| <= 1000 && |owner| <= 1000
    requires var (x, y, g) :=
        (h.txid(Drain(a, key, owner)), h.txid(Drain(b, key, owner)), h.txid(GenesisBlock(h).transactions[0]));
      x != y && x != g && y != g
    ensures var s := After(h, NewNode(h, bootstrap), Drains(a, b, key, owner, now));
      && s.chain.currentHeight < MAX_U64
      && Due(s, Mempool.SelectForBlock(h, s.pool, 1_000_000, now).chosen) >= U64_LIMIT
  {
    hide GenesisBlock, Drain, TwoOutputs, After, NewNode, NewChain, Mempool.SelectForBlock, Mempool.FeeSum,
      Mempool.Eligible, TxCodec.EstimatedSize, Subsidy, DrainEntry, Drains;
    BothPending(h, bootstrap, a, b, key, owner, now);
    StartHeight(h, bootstrap);
    var s := After(h, NewNode(h, bootstrap), Drains(a, b, key, owner, now));
    FeesTooMuch(h, s.pool, a, b, key, owner, now);
  }

  lemma {:induction false} FeesTooMuch(
      h: Host, p: Mempool.Pool, a: OutPoint, b: OutPoint, key: Bytes, owner: Bytes, now: u64)
    requires |key| <= 1000 && |owner| <= 1000 && p.minFeeRate == 1
    requires var x, y := h.txid(Drain(a, key, owner)), h.txid(Drain(b, key, owner));
      && x != y && p.transactions.Keys == {x, y}
      && DrainEntry(p.transactions[x], Drain(a, key, owner), now)
      && DrainEntry(p.transactions[y], Drain(b, key, owner), now)
    ensures Mempool.FeeSum(p, Mempool.SelectForBlock(h, p, 1_000_000, now).chosen) >= U64_LIMIT
  {
    hide Drain, Mempool.SelectForBlock, Mempool.FeeSum, Mempool.Eligible, TxCodec.EstimatedSize;
    var x, y := h.txid(Drain(a, key, owner)), h.txid(Drain(b, key, owner));
    DrainSize(a, key, owner);
    DrainSize(b, key, owner);
    assert |p.transactions| == |p.transactions.Keys| == |{x, y}| == 2;
    DrainEligible(p, p.transactions[x], Drain(a, key, owner), now);
    DrainEligible(p, p.transactions[y], Drain(b, key, owner), now);
    AllChosen(h, p, now, x);
    AllChosen(h, p, now, y);
    FeesOfTwo(p, Mempool.SelectForBlock(h, p, 1_000_000, now).chosen, x, y);
  }

  lemma DifferentIds(h: Host, all: set<Transaction>, a: OutPoint, b: OutPoint, key: Bytes, owner: Bytes)
    requires Universe(h, all) && GenesisBlock(h).transactions[0] in all && a != b
    requires Drain(a, key, owner) in all && Drain(b, key, owner) in all
    ensures var (x, y, g) :=
        (h.txid(Drain(a, key, owner)), h.txid(Drain(b, key, owner)), h.txid(GenesisBlock(h).transactions[0]));
      x != y && x != g && y != g
  {
    assert Drain(a, key, owner).inputs[0] != Drain(b, key, owner).inputs[0];
    assert GenesisBlock(h).transactions[0].inputs == [];
  }

  lemma StartHeight(h: Host, bootstrap: UtxoSet)
    ensures NewChain(h, bootstrap).currentHeight == 0
  {
    NewChainGrounded(h, bootstrap);
  }

  /** Submitting transactions switches no branches. */
  lemma {:induction false} StraightDrains(
      h: Host, bootstrap: UtxoSet, a: OutPoint, b: OutPoint, key: Bytes, owner: Bytes, now: u64)
    ensures Straight(h, NewNode(h, bootstrap), Drains(a, b, key, owner, now))
  {
    hide NewNode, Drain, SubmitTransaction;
    var start, actions := NewNode(h, bootstrap), Drains(a, b, key, owner, now);
    assert actions[..1] == [actions[0]] && actions[..1][..0] == [];
    assert Straight(h, start, []);
    SameChain(h, start, Drain(a, key, owner), now);
    assert After(h, start, actions[..1]) == SubmitTransaction(h, start, Drain(a, key, owner), now).state;
    SameChain(h, After(h, start, actions[..1]), Drain(b, key, owner), now);
    assert Straight(h, start, actions[..1]);
  }

  lemma SameChain(h: Host, s: State, tx: Transaction, now: u64)
    ensures SubmitTransaction(h, s, tx, now).state.chain == s.chain
  {
    hide ValidateTransaction, ContainsTransaction, Mempool.HasConflictingInputs, Mempool.MinimumRequiredFee;
  }
}

/** The rules of the pool in plain numbers (src/mempool.rs, src/node.rs): rates and delays, what is taken in and what
    is cleaned out, and which transactions a block gets. */
module PoolRules {
  import opened Arithmetic
  import opened Types
  import opened Sorting
  import opened Mempool
  import opened NodeRules
  import Ledger
  import TxCodec
  import ChainRules
  import Consensus

  // ---------- Rates and delays ----------

  /** The standard rate is the minimum plus one for every twenty pending transactions begun; the instant rate is a
      quarter more, and at least one; the required fee is the size, and at least one byte, times the standard rate.
      What exceeds u64 counts as its last number. */
  lemma RatesExactly(p: Pool, tx: Transaction)
    requires |p.transactions| < U64_LIMIT
    ensures var n, last := |p.transactions|, 0xFFFF_FFFF_FFFF_FFFF;
      var standard, size := StandardFeeRate(p), TxCodec.EstimatedSize(tx);
      && standard == Least(p.minFeeRate + (n + 19) / 20, last)
      && InstantFeeRate(p) == Least(standard + (if standard < 8 then 1 else standard / 4), last)
      && MinimumRequiredFee(p, tx) == Least((if size == 0 then 1 else size) * standard, last)
  {
    hide TxCodec.EstimatedSize;
    var n := |p.transactions|;
    assert (n + 19) / 20 <= n < U64_LIMIT || n == 0;
    assert DivCeil(n, 20) % U64_LIMIT == (n + 19) / 20;
  }

  /** An entry may be confirmed at once if it pays the instant rate, and sixty seconds after its arrival if it pays the
      standard rate. */
  predicate Mature(p: Pool, entry: Entry, now: u64) {
    || (entry.feeRate >= InstantFeeRate(p) && now >= entry.receivedAt)
    || (entry.feeRate >= StandardFeeRate(p) && now >= Least(entry.receivedAt + 60, 0xFFFF_FFFF_FFFF_FFFF))
  }

  lemma EligibleExactly(p: Pool, entry: Entry, now: u64)
    ensures Eligible(p, entry, now) <==> Mature(p, entry, now)
  {
    hide StandardFeeRate;
  }

  // ---------- What is taken in ----------

  /** Some pending transaction spends an outpoint that the transaction spends too. */
  predicate Conflicts(p: Pool, tx: Transaction) {
    exists k, o :: k in p.transactions && o in OutPoints(p.transactions[k].transaction) && o in OutPoints(tx)
  }

  function OutPoints(tx: Transaction): set<OutPoint> {
    set input | input in tx.inputs :: input.previousOutput
  }

  lemma ConflictsExactly(p: Pool, tx: Transaction)
    ensures HasConflictingInputs(p, tx) <==> Conflicts(p, tx)
  {
    if HasConflictingInputs(p, tx) {
      var k :| k in p.transactions && SharesInput(p.transactions[k].transaction, tx);
      var s := p.transactions[k].transaction;
      var i, j :| 0 <= i < |s.inputs| && 0 <= j < |tx.inputs| &&
        s.inputs[i].previousOutput == tx.inputs[j].previousOutput;
      assert s.inputs[i] in s.inputs && tx.inputs[j] in tx.inputs;
      assert tx.inputs[j].previousOutput in OutPoints(s) && tx.inputs[j].previousOutput in OutPoints(tx);
    }
    if Conflicts(p, tx) {
      var k, o :| k in p.transactions && o in OutPoints(p.transactions[k].transaction) && o in OutPoints(tx);
      var s := p.transactions[k].transaction;
      var a :| a in s.inputs && a.previousOutput == o;
      var b :| b in tx.inputs && b.previousOutput == o;
      var i :| 0 <= i < |s.inputs| && s.inputs[i] == a;
      var j :| 0 <= j < |tx.inputs| && tx.inputs[j] == b;
      assert SharesInput(s, tx);
    }
  }

  /** The answer to a submission is the first of these that applies, and only the last changes anything: it adds one
      entry, with the fee, the time, and the fee per byte rounded up. */
  lemma SubmissionExactly(h: Host, s: State, tx: Transaction, now: u64)
    ensures var txid, pool := h.txid(tx), s.pool; var r := SubmitTransaction(h, s, tx, now);
      var valid := Ledger.ValidateTransaction(h, s.chain.utxoSet, tx);
      && r.result == (
        if exists k, t :: k in s.chain.blocks && t in s.chain.blocks[k].transactions && h.txid(t) == txid then
          Err(AlreadyConfirmed)
        else if valid.Err? then Err(valid.error)
        else if valid.Trap? then Trap
        else if txid in pool.transactions then Err(AlreadyPooled)
        else if valid.value < MinimumRequiredFee(pool, tx) then Err(FeeTooLow)
        else if Conflicts(pool, tx) then Err(Conflict)
        else if |pool.transactions| >= pool.maxSize then Err(PoolFull)
        else Ok(()))
      && (!r.result.Ok? ==> r.state == s)
      && (r.result.Ok? ==>
            var size := if TxCodec.EstimatedSize(tx) == 0 then 1 else TxCodec.EstimatedSize(tx);
            var rate := (valid.value + size - 1) / size;
            && 0 <= rate < U64_LIMIT
            && r.state == s.(pool := pool.(transactions :=
                 pool.transactions[txid := Entry(tx, valid.value, rate, now)])))
  {
    hide Ledger.ValidateTransaction, MinimumRequiredFee, TxCodec.EstimatedSize, HasConflictingInputs, Conflicts;
    ConflictsExactly(s.pool, tx);
    ContainsExactly(h, s.chain, h.txid(tx));
  }

  lemma ContainsExactly(h: Host, c: ChainRules.Chain, txid: Digest)
    ensures ContainsTransaction(h, c, txid) <==>
      exists k, t :: k in c.blocks && t in c.blocks[k].transactions && h.txid(t) == txid
  {
    if ContainsTransaction(h, c, txid) {
      var k :| k in c.blocks && HasTransaction(h, c.blocks[k], txid);
      var i :| 0 <= i < |c.blocks[k].transactions| && h.txid(c.blocks[k].transactions[i]) == txid;
      assert c.blocks[k].transactions[i] in c.blocks[k].transactions;
    }
    if k, t :| k in c.blocks && t in c.blocks[k].transactions && h.txid(t) == txid {
      assert HasTransaction(h, c.blocks[k], txid);
    }
  }

  // ---------- What is cleaned out ----------

  /** After a block is confirmed, exactly those entries stay that have the txid of none of its transactions and spend
      no outpoint that one of them spends; and they stay as they were. */
  lemma CleanedExactly(h: Host, p: Pool, confirmed: seq<Transaction>, k: Digest)
    ensures var q := Cleaned(h, p, confirmed);
      && q.maxSize == p.maxSize && q.minFeeRate == p.minFeeRate
      && (k in q.transactions <==>
            && k in p.transactions
            && forall t :: t in confirmed ==>
                 h.txid(t) != k && OutPoints(t) !! OutPoints(p.transactions[k].transaction))
      && (k in q.transactions ==> q.transactions[k] == p.transactions[k])
  {
    if k in p.transactions {
      SurvivesExactly(h, confirmed, k, p.transactions[k]);
    }
    hide Survives;
  }

  lemma SurvivesExactly(h: Host, confirmed: seq<Transaction>, k: Digest, entry: Entry)
    ensures Survives(h, confirmed, k, entry) <==>
      forall t :: t in confirmed ==> h.txid(t) != k && OutPoints(t) !! OutPoints(entry.transaction)
  {
    PointsAreInputs(entry.transaction);
    if Survives(h, confirmed, k, entry) {
      forall t | t in confirmed
        ensures h.txid(t) != k && OutPoints(t) !! OutPoints(entry.transaction)
      {
        var i :| 0 <= i < |confirmed| && confirmed[i] == t;
        PointsAreInputs(t);
        forall o | o in OutPoints(t)
          ensures o in ConfirmedInputs(confirmed)
        {
          var j :| 0 <= j < |t.inputs| && t.inputs[j].previousOutput == o;
          assert confirmed[i].inputs[j].previousOutput == o;
        }
      }
    }
    if forall t :: t in confirmed ==> h.txid(t) != k && OutPoints(t) !! OutPoints(entry.transaction) {
      forall o | o in ConfirmedInputs(confirmed)
        ensures o !in InputPoints(entry.transaction)
      {
        var i, j :| 0 <= i < |confirmed| && 0 <= j < |confirmed[i].inputs| &&
          confirmed[i].inputs[j].previousOutput == o;
        PointsAreInputs(confirmed[i]);
        assert confirmed[i] in confirmed && o in InputPoints(confirmed[i]);
      }
    }
  }

  lemma PointsAreInputs(tx: Transaction)
    ensures OutPoints(tx) == InputPoints(tx)
  {
    forall i | 0 <= i < |tx.inputs|
      ensures tx.inputs[i].previousOutput in OutPoints(tx)
    {
      assert tx.inputs[i] in tx.inputs;
    }
  }

  /** A submitted block is answered as add_block answers; the pool is cleaned exactly if it was accepted as the tip. */
  lemma BlockSubmissionExactly(h: Host, s: State, block: Block)
    ensures var r := SubmitBlock(h, s, block); var added := ChainRules.AddBlock(h, s.chain, block);
      && r.state.chain == added.chain && r.result == added.result
      && r.state.pool ==
           if added.result.Ok? && Consensus.Tip(added.chain) == h.block(block.header)
           then Cleaned(h, s.pool, block.transactions) else s.pool
  {
    hide ChainRules.AddBlock, Cleaned, Consensus.Tip;
    var result := ChainRules.AddBlock(h, s.chain, block).result;
    if result.Ok? {
      match result.value
      case () =>
    }
  }

  /** A new node has an empty pool for ten thousand transactions at a minimum rate of one. */
  lemma NewNodeExactly(h: Host, bootstrap: UtxoSet)
    ensures NewNode(h, bootstrap).chain == ChainRules.NewChain(h, bootstrap)
    ensures NewNode(h, bootstrap).pool.transactions == map[]
    ensures NewNode(h, bootstrap).pool.maxSize == 10_000 && NewNode(h, bootstrap).pool.minFeeRate == 1
  {
  }

  // ---------- What a block gets ----------

  /** Those of the keys that are among these, in order. */
  function Kept(keys: seq<Digest>, among: seq<Digest>): seq<Digest> {
    if keys == [] then []
    else
      var last := keys[|keys| - 1];
      Kept(keys[..|keys| - 1], among) + if last in among then [last] else []
  }

  /** There is room for the entry beside those. The largest limit is none, as sizes are added up to it at most. */
  predicate Fits(p: Pool, maxSize: u64, before: seq<Digest>, k: Digest)
    requires k in p.transactions && forall j :: j in before ==> j in p.transactions
  {
    || SizeSum(p, before) + TxCodec.EstimatedSize(p.transactions[k].transaction) <= maxSize
    || maxSize == 0xFFFF_FFFF_FFFF_FFFF
  }

  /** The entry of rank `i` is chosen exactly if it is mature, fewer than ten of those ranked before it are chosen, and
      its size fits in what they leave of the limit. */
  ghost predicate ChosenRightly(p: Pool, maxSize: u64, now: u64, ranked: seq<Digest>, chosen: seq<Digest>, i: nat)
    requires i < |ranked| && forall k :: k in ranked ==> k in p.transactions
  {
    var k, before := ranked[i], Kept(ranked[..i], chosen);
    && (forall j :: j in before ==> j in p.transactions)
    && (k in chosen <==>
          && Mature(p, p.transactions[k], now) && |before| < 10
          && Fits(p, maxSize, before, k))
  }

  lemma {:induction false} KeptSame(keys: seq<Digest>, a: seq<Digest>, b: seq<Digest>)
    requires forall k :: k in keys ==> (k in a <==> k in b)
    ensures Kept(keys, a) == Kept(keys, b)
  {
    if keys != [] {
      KeptSame(keys[..|keys| - 1], a, b);
    }
  }

  /** What the loop has come to after `n` entries. */
  lemma {:induction false} SelectedRightly(p: Pool, maxSize: u64, now: u64, ranked: seq<Digest>, n: nat)
    requires n <= |ranked| && (forall k :: k in ranked ==> k in p.transactions) && Distinct(ranked)
    ensures var chosen := SelectFirst(p, now, maxSize, ranked, n).chosen;
      && chosen == Kept(ranked[..n], chosen)
      && (forall k :: k in chosen ==> k in ranked[..n])
      && forall i :: 0 <= i < n ==> ChosenRightly(p, maxSize, now, ranked, chosen, i)
  {
    hide *;
    if n == 0 {
      NothingSelected(p, maxSize, now, ranked);
    } else {
      SelectedRightly(p, maxSize, now, ranked, n - 1);
      SelectStep(p, now, maxSize, ranked, n);
      SelectFirstSound(p, now, maxSize, ranked, n - 1);
      NotBefore(ranked, n - 1);
      RightlyStep(p, maxSize, now, ranked, SelectFirst(p, now, maxSize, ranked, n - 1), n);
    }
  }

  lemma {:induction false} NothingSelected(p: Pool, maxSize: u64, now: u64, ranked: seq<Digest>)
    requires forall k :: k in ranked ==> k in p.transactions
    ensures SelectFirst(p, now, maxSize, ranked, 0).chosen == [] == Kept(ranked[..0], [])
  {
  }

  lemma RightlyStep(p: Pool, maxSize: u64, now: u64, ranked: seq<Digest>, s: Selection, n: nat)
    requires 0 < n <= |ranked| && (forall k :: k in ranked ==> k in p.transactions)
    requires ranked[n - 1] !in ranked[..n - 1]
    requires SelectionSound(p, now, maxSize, ranked[..n - 1], s) && s.chosen == Kept(ranked[..n - 1], s.chosen)
    requires forall k :: k in s.chosen ==> k in ranked[..n - 1]
    requires forall i :: 0 <= i < n - 1 ==> ChosenRightly(p, maxSize, now, ranked, s.chosen, i)
    ensures var chosen := Consider(p, now, maxSize, s, ranked[n - 1]).chosen;
      && chosen == Kept(ranked[..n], chosen)
      && (forall k :: k in chosen ==> k in ranked[..n])
      && forall i :: 0 <= i < n ==> ChosenRightly(p, maxSize, now, ranked, chosen, i)
  {
    var k, chosen := ranked[n - 1], Consider(p, now, maxSize, s, ranked[n - 1]).chosen;
    assert k !in s.chosen;
    ConsiderExactly(p, maxSize, now, ranked[..n - 1], s, k);
    hide Consider, Mature, SelectionSound, Fits, ChosenRightly, Kept;
    forall i | 0 <= i < n - 1
      ensures ChosenRightly(p, maxSize, now, ranked, chosen, i)
    {
      StillRightly(p, maxSize, now, ranked, s.chosen, chosen, n - 1, i);
    }
    LastRightly(p, maxSize, now, ranked, s.chosen, chosen, n - 1);
  }

  /** Choosing one more does not change what is said of those ranked before it. */
  lemma StillRightly(p: Pool, maxSize: u64, now: u64, ranked: seq<Digest>, before: seq<Digest>, chosen: seq<Digest>,
                     n: nat, i: nat)
    requires i < n < |ranked| && (forall k :: k in ranked ==> k in p.transactions)
    requires ranked[n] !in ranked[..n] && (chosen == before || chosen == before + [ranked[n]])
    requires ChosenRightly(p, maxSize, now, ranked, before, i)
    ensures ChosenRightly(p, maxSize, now, ranked, chosen, i)
  {
    hide Mature, Fits, Kept;
    assert ranked[i] == ranked[..n][i];
    forall j | j in ranked[..i]
      ensures j in before <==> j in chosen
    {
      assert j in ranked[..n];
    }
    KeptSame(ranked[..i], before, chosen);
  }

  lemma {:induction false} LastRightly(p: Pool, maxSize: u64, now: u64, ranked: seq<Digest>,
                                       before: seq<Digest>, chosen: seq<Digest>, n: nat)
    requires n < |ranked| && (forall k :: k in ranked ==> k in p.transactions)
    requires ranked[n] !in ranked[..n] && before == Kept(ranked[..n], before)
    requires forall k :: k in before ==> k in ranked[..n]
    requires forall j :: j in before ==> j in p.transactions
    requires
      if Mature(p, p.transactions[ranked[n]], now) && |before| < 10
         && Fits(p, maxSize, before, ranked[n])
      then chosen == before + [ranked[n]] else chosen == before
    ensures ChosenRightly(p, maxSize, now, ranked, chosen, n) && chosen == Kept(ranked[..n + 1], chosen)
    ensures forall k :: k in chosen ==> k in ranked[..n + 1]
  {
    hide Mature, Fits;
    assert ranked[..n + 1] == ranked[..n] + [ranked[n]] && ranked[..n + 1][..n] == ranked[..n];
    KeptSame(ranked[..n], before, chosen);
  }

  /** One turn of the loop: the entry is taken exactly if it is mature, not the eleventh, and fits. */
  lemma {:induction false} ConsiderExactly(p: Pool, maxSize: u64, now: u64, considered: seq<Digest>,
                                           s: Selection, k: Digest)
    requires k in p.transactions && k !in s.chosen
    requires SelectionSound(p, now, maxSize, considered, s)
    ensures forall j :: j in s.chosen ==> j in p.transactions
    ensures var chosen := Consider(p, now, maxSize, s, k).chosen;
      if Mature(p, p.transactions[k], now) && |s.chosen| < 10
         && Fits(p, maxSize, s.chosen, k)
      then chosen == s.chosen + [k] else chosen == s.chosen
  {
    EligibleExactly(p, p.transactions[k], now);
    hide Eligible, Mature, TxCodec.EstimatedSize, FeeSum, Distinct;
  }

  /** Which transactions a block gets, and in which order: those of the ranking that are chosen rightly, as they are
      ranked. This leaves no choice. */
  lemma SelectionExactly(h: Host, p: Pool, maxSize: u64, now: u64)
    ensures var ranked, chosen := Ranking(h, p), SelectForBlock(h, p, maxSize, now).chosen;
      && chosen == Kept(ranked, chosen) && |chosen| <= 10
      && forall i :: 0 <= i < |ranked| ==> ChosenRightly(p, maxSize, now, ranked, chosen, i)
  {
    hide ChosenRightly;
    var ranked := Ranking(h, p);
    ListMembers(ranked, p.transactions.Keys);
    SelectedRightly(p, maxSize, now, ranked, |ranked|);
    SelectionMeaning(h, p, maxSize, now);
    assert ranked[..|ranked|] == ranked;
  }
}

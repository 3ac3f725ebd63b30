/** The pool of pending transactions (src/mempool.rs): fee rates, conflicts, and the choice of the
    transactions for the next block. */
module Mempool {
  import opened Arithmetic
  import opened Types
  import opened Sorting
  import opened TxCodec
  import Ledger

  const CONGESTION_STEP_TRANSACTIONS: nat := 20
  const STANDARD_CONFIRMATION_TARGET_SECONDS: u64 := 60
  const INSTANT_CONFIRMATION_TARGET_SECONDS: u64 := 0
  const MAX_CHOSEN: nat := 10

  datatype Entry = Entry(transaction: Transaction, feePaid: u64, feeRate: u64, receivedAt: u64)

  type Entries = map<Digest, Entry>

  datatype Pool = Pool(transactions: Entries, maxSize: nat, minFeeRate: u64)

  // ---------- Fee rates and conflicts ----------

  function StandardFeeRate(p: Pool): u64 {
    SaturatingAdd(p.minFeeRate, DivCeil(|p.transactions|, CONGESTION_STEP_TRANSACTIONS) % U64_LIMIT)
  }

  function InstantFeeRate(p: Pool): u64 {
    var standard := StandardFeeRate(p);
    SaturatingAdd(standard, if standard / 4 < 1 then 1 else standard / 4)
  }

  function ChargedSize(tx: Transaction): u64 {
    if EstimatedSize(tx) < 1 then 1 else EstimatedSize(tx)
  }

  function MinimumRequiredFee(p: Pool, tx: Transaction): u64 {
    SaturatingMul(ChargedSize(tx), StandardFeeRate(p))
  }

  predicate SharesInput(s: Transaction, t: Transaction) {
    exists i, j :: 0 <= i < |s.inputs| && 0 <= j < |t.inputs| &&
      s.inputs[i].previousOutput == t.inputs[j].previousOutput
  }

  predicate HasConflictingInputs(p: Pool, tx: Transaction) {
    exists k :: k in p.transactions && SharesInput(p.transactions[k].transaction, tx)
  }

  function InputPoints(tx: Transaction): set<OutPoint> {
    Ledger.Spent(tx.inputs, |tx.inputs|)
  }

  function ReservedOutpoints(p: Pool): set<OutPoint> {
    set k, i | k in p.transactions && 0 <= i < |p.transactions[k].transaction.inputs| ::
      p.transactions[k].transaction.inputs[i].previousOutput
  }

  /** A transaction conflicts exactly if it spends a reserved outpoint. */
  lemma ConflictIsReserved(p: Pool, tx: Transaction)
    ensures HasConflictingInputs(p, tx) <==> InputPoints(tx) * ReservedOutpoints(p) != {}
  {
    if HasConflictingInputs(p, tx) {
      var k :| k in p.transactions && SharesInput(p.transactions[k].transaction, tx);
      var s := p.transactions[k].transaction;
      var i, j :| 0 <= i < |s.inputs| && 0 <= j < |tx.inputs| &&
        s.inputs[i].previousOutput == tx.inputs[j].previousOutput;
      assert tx.inputs[j].previousOutput in InputPoints(tx) * ReservedOutpoints(p);
    }
    if InputPoints(tx) * ReservedOutpoints(p) != {} {
      var o :| o in InputPoints(tx) * ReservedOutpoints(p);
      var k, i :| k in p.transactions && 0 <= i < |p.transactions[k].transaction.inputs| &&
        p.transactions[k].transaction.inputs[i].previousOutput == o;
      assert SharesInput(p.transactions[k].transaction, tx);
    }
  }

  // ---------- Adding and removing ----------

  datatype Added = Added(pool: Pool, result: Result<()>)

  function PoolAdd(h: Host, p: Pool, tx: Transaction, feePaid: u64, now: u64): Added {
    var txid := h.txid(tx);
    if |p.transactions| >= p.maxSize then Added(p, Err(PoolFull))
    else if txid in p.transactions then Added(p, Err(AlreadyPooled))
    else
      var rate := DivCeil(feePaid, ChargedSize(tx));
      RateFits(feePaid, ChargedSize(tx));
      Added(p.(transactions := p.transactions[txid := Entry(tx, feePaid, rate, now)]), Ok(()))
  }

  lemma RateFits(fee: u64, size: u64)
    requires size > 0
    ensures DivCeil(fee, size) <= fee
  {
    if fee == 0 {
      Quotient(size, 0, size - 1);
    } else {
      MulAdd(fee - 1, 1, size);
      MulPositive(fee - 1, size);
      QuotientMonotone(size, fee + size - 1, fee * size);
      Quotient(size, fee, 0);
    }
  }

  /** A fee of at least size times rate makes a rate that is not lower. */
  lemma RateCovers(fee: u64, size: u64, rate: nat)
    requires size > 0 && fee >= size * rate
    ensures DivCeil(fee, size) >= rate
  {
    QuotientMonotone(size, fee, fee + size - 1);
    QuotientAtLeast(size, rate, fee);
  }

  function ConfirmedInputs(confirmed: seq<Transaction>): set<OutPoint> {
    set i, j | 0 <= i < |confirmed| && 0 <= j < |confirmed[i].inputs| :: confirmed[i].inputs[j].previousOutput
  }

  /** The entries that a confirmed block leaves behind. */
  predicate Survives(h: Host, confirmed: seq<Transaction>, txid: Digest, entry: Entry) {
    && (forall i :: 0 <= i < |confirmed| ==> h.txid(confirmed[i]) != txid)
    && InputPoints(entry.transaction) !! ConfirmedInputs(confirmed)
  }

  function Cleaned(h: Host, p: Pool, confirmed: seq<Transaction>): Pool {
    p.(transactions := map k | k in p.transactions && Survives(h, confirmed, k, p.transactions[k]) ::
                           p.transactions[k])
  }

  lemma CleanedKeyed(h: Host, p: Pool, confirmed: seq<Transaction>)
    requires Keyed(h, p.transactions)
    ensures Keyed(h, Cleaned(h, p, confirmed).transactions)
  {
  }

  // ---------- Choosing the transactions of a block ----------

  /** The comparison of the sort: higher rate, then earlier arrival, then higher fee, then larger txid. */
  predicate Before(h: Host, a: Entry, b: Entry) {
    || a.feeRate > b.feeRate
    || (a.feeRate == b.feeRate &&
        (|| a.receivedAt < b.receivedAt
         || (a.receivedAt == b.receivedAt &&
             (|| a.feePaid > b.feePaid
              || (a.feePaid == b.feePaid && h.txid(a.transaction) >= h.txid(b.transaction))))))
  }

  function EntryOrder(h: Host, entries: Entries): (Digest, Digest) -> bool {
    (j, k) => j in entries && k in entries && Before(h, entries[j], entries[k])
  }

  /** Every entry is filed under its txid. */
  ghost predicate Keyed(h: Host, entries: Entries) {
    forall k :: k in entries ==> h.txid(entries[k].transaction) == k
  }

  lemma EntryOrderIsTotal(h: Host, entries: Entries, keys: seq<Digest>)
    requires Keyed(h, entries) && forall k :: k in keys ==> k in entries
    ensures Orders(EntryOrder(h, entries), keys)
  {
  }

  datatype Selection = Selection(chosen: seq<Digest>, size: u64, fees: u64)

  predicate Eligible(p: Pool, entry: Entry, now: u64) {
    if entry.feeRate >= InstantFeeRate(p) then
      now >= SaturatingAdd(entry.receivedAt, INSTANT_CONFIRMATION_TARGET_SECONDS)
    else
      entry.feeRate >= StandardFeeRate(p)
      && now >= SaturatingAdd(entry.receivedAt, STANDARD_CONFIRMATION_TARGET_SECONDS)
  }

  /** One turn of the selection loop, once it has not been left. */
  function Consider(p: Pool, now: u64, maxSize: u64, s: Selection, k: Digest): Selection
    requires k in p.transactions
  {
    var entry := p.transactions[k];
    var size := SaturatingAdd(s.size, EstimatedSize(entry.transaction));
    if |s.chosen| >= MAX_CHOSEN || !Eligible(p, entry, now) || size > maxSize then s
    else Selection(s.chosen + [k], size, SaturatingAdd(s.fees, entry.feePaid))
  }

  function SelectFirst(p: Pool, now: u64, maxSize: u64, ranked: seq<Digest>, n: nat): (s: Selection)
    requires n <= |ranked| && forall k :: k in ranked ==> k in p.transactions
    ensures forall k :: k in s.chosen ==> k in p.transactions
  {
    if n == 0 then Selection([], 0, 0)
    else Consider(p, now, maxSize, SelectFirst(p, now, maxSize, ranked, n - 1), ranked[n - 1])
  }

  /** A list of all keys, each once. */
  ghost predicate Lists(keys: seq<Digest>, entries: Entries) {
    multiset(keys) == multiset(entries.Keys)
  }

  /** The entries in the order in which they are considered. */
  ghost function Ranking(h: Host, p: Pool): (ranked: seq<Digest>)
    ensures Lists(ranked, p.transactions)
    ensures forall k :: k in ranked <==> k in p.transactions
  {
    var ranked := Sort(EntryOrder(h, p.transactions), ListOf(p.transactions.Keys));
    SortKeeps(EntryOrder(h, p.transactions), ListOf(p.transactions.Keys));
    ListMembers(ranked, p.transactions.Keys);
    ranked
  }

  /** Whatever order the map is iterated in, sorting leads to one ranking. */
  lemma {:induction false} RankingIgnoresIteration(h: Host, p: Pool, keys: seq<Digest>)
    requires Keyed(h, p.transactions) && Lists(keys, p.transactions)
    ensures Sort(EntryOrder(h, p.transactions), keys) == Ranking(h, p)
  {
    ListMembers(keys, p.transactions.Keys);
    EntryOrderIsTotal(h, p.transactions, keys);
    SortIgnoresOrder(EntryOrder(h, p.transactions), keys, ListOf(p.transactions.Keys));
  }

  /** In the ranking the rates fall; among equal rates the arrivals rise; among those that arrived together the fees
      fall; and among equal fees the txids do. */
  lemma RankingSorted(h: Host, p: Pool)
    requires Keyed(h, p.transactions)
    ensures var ranked := Ranking(h, p);
      forall i, j :: 0 <= i < j < |ranked| ==>
        var a, b := p.transactions[ranked[i]], p.transactions[ranked[j]];
        && a.feeRate >= b.feeRate
        && (a.feeRate == b.feeRate ==> a.receivedAt <= b.receivedAt)
        && (a.feeRate == b.feeRate && a.receivedAt == b.receivedAt ==> a.feePaid >= b.feePaid)
        && (a.feeRate == b.feeRate && a.receivedAt == b.receivedAt && a.feePaid == b.feePaid ==>
              h.txid(a.transaction) > h.txid(b.transaction))
  {
    var list := ListOf(p.transactions.Keys);
    ListMembers(list, p.transactions.Keys);
    EntryOrderIsTotal(h, p.transactions, list);
    SortSorts(EntryOrder(h, p.transactions), list);
    ListMembers(Ranking(h, p), p.transactions.Keys);
  }

  /** get_transactions_for_block */
  ghost function SelectForBlock(h: Host, p: Pool, maxSize: u64, now: u64): (s: Selection)
    ensures forall k :: k in s.chosen ==> k in p.transactions
  {
    var ranked := Ranking(h, p);
    SelectFirst(p, now, maxSize, ranked, |ranked|)
  }

  function SizeSum(p: Pool, keys: seq<Digest>): nat
    requires forall k :: k in keys ==> k in p.transactions
  {
    if keys == [] then 0
    else SizeSum(p, keys[..|keys| - 1]) + EstimatedSize(p.transactions[keys[|keys| - 1]].transaction)
  }

  function FeeSum(p: Pool, keys: seq<Digest>): nat
    requires forall k :: k in keys ==> k in p.transactions
  {
    if keys == [] then 0 else FeeSum(p, keys[..|keys| - 1]) + p.transactions[keys[|keys| - 1]].feePaid
  }

  /** What the loop keeps: at most ten different eligible entries, whose sizes and fees it has summed. */
  ghost predicate SelectionSound(p: Pool, now: u64, maxSize: u64, considered: seq<Digest>, s: Selection) {
    && |s.chosen| <= MAX_CHOSEN
    && (forall k :: k in s.chosen ==> k in considered && k in p.transactions && Eligible(p, p.transactions[k], now))
    && Distinct(s.chosen)
    && s.size == (if SizeSum(p, s.chosen) < U64_LIMIT then SizeSum(p, s.chosen) else MAX_U64) <= maxSize
    && s.fees == (if FeeSum(p, s.chosen) < U64_LIMIT then FeeSum(p, s.chosen) else MAX_U64)
  }

  /** No considered entry was left out without a reason that still stands. */
  ghost predicate SelectionMaximal(p: Pool, now: u64, maxSize: u64, considered: seq<Digest>, s: Selection) {
    |s.chosen| < MAX_CHOSEN ==>
      forall k :: k in considered && k in p.transactions && k !in s.chosen && Eligible(p, p.transactions[k], now) ==>
        SaturatingAdd(s.size, EstimatedSize(p.transactions[k].transaction)) > maxSize
  }

  lemma ConsiderSound(p: Pool, now: u64, maxSize: u64, considered: seq<Digest>, s: Selection, k: Digest)
    requires SelectionSound(p, now, maxSize, considered, s) && k in p.transactions && k !in considered
    ensures SelectionSound(p, now, maxSize, considered + [k], Consider(p, now, maxSize, s, k))
  {
    hide Eligible, EstimatedSize;
    assert (s.chosen + [k])[..|s.chosen|] == s.chosen;
  }

  lemma ConsiderMaximal(p: Pool, now: u64, maxSize: u64, considered: seq<Digest>, s: Selection, k: Digest)
    requires SelectionMaximal(p, now, maxSize, considered, s) && k in p.transactions && k !in considered
    ensures SelectionMaximal(p, now, maxSize, considered + [k], Consider(p, now, maxSize, s, k))
  {
    hide Eligible, EstimatedSize;
    var t := Consider(p, now, maxSize, s, k);
    forall j | j in considered + [k] && j in p.transactions && j !in t.chosen && Eligible(p, p.transactions[j], now)
      ensures |t.chosen| < MAX_CHOSEN ==>
        SaturatingAdd(t.size, EstimatedSize(p.transactions[j].transaction)) > maxSize
    {
      if j != k {
        assert j in considered && j !in s.chosen;
      }
    }
  }

  lemma {:induction false} SelectStart(p: Pool, now: u64, maxSize: u64, ranked: seq<Digest>)
    requires forall k :: k in ranked ==> k in p.transactions
    ensures var s := SelectFirst(p, now, maxSize, ranked, 0);
      SelectionSound(p, now, maxSize, ranked[..0], s) && SelectionMaximal(p, now, maxSize, ranked[..0], s)
  {
  }

  lemma SelectStep(p: Pool, now: u64, maxSize: u64, ranked: seq<Digest>, n: nat)
    requires 0 < n <= |ranked| && forall k :: k in ranked ==> k in p.transactions
    ensures SelectFirst(p, now, maxSize, ranked, n)
         == Consider(p, now, maxSize, SelectFirst(p, now, maxSize, ranked, n - 1), ranked[n - 1])
  {
  }

  lemma NotBefore(keys: seq<Digest>, n: nat)
    requires Distinct(keys) && n < |keys|
    ensures keys[n] in keys && keys[n] !in keys[..n]
  {
  }

  lemma {:induction false} SelectFirstSound(p: Pool, now: u64, maxSize: u64, ranked: seq<Digest>, n: nat)
    requires n <= |ranked| && (forall k :: k in ranked ==> k in p.transactions) && Distinct(ranked)
    ensures var s := SelectFirst(p, now, maxSize, ranked, n);
      SelectionSound(p, now, maxSize, ranked[..n], s) && SelectionMaximal(p, now, maxSize, ranked[..n], s)
  {
    hide *;
    if n == 0 {
      SelectStart(p, now, maxSize, ranked);
    } else {
      var before, k := SelectFirst(p, now, maxSize, ranked, n - 1), ranked[n - 1];
      SelectStep(p, now, maxSize, ranked, n);
      SelectFirstSound(p, now, maxSize, ranked, n - 1);
      assert ranked[..n] == ranked[..n - 1] + [k];
      NotBefore(ranked, n - 1);
      ConsiderSound(p, now, maxSize, ranked[..n - 1], before, k);
      ConsiderMaximal(p, now, maxSize, ranked[..n - 1], before, k);
    }
  }

  /** The selection for a block: at most ten different eligible entries; their sizes fit the limit; the
      fees are their fee sum; and if there are fewer than ten, no other eligible entry would still fit. */
  lemma SelectionMeaning(h: Host, p: Pool, maxSize: u64, now: u64)
    ensures var s := SelectForBlock(h, p, maxSize, now); var all := Ranking(h, p);
      SelectionSound(p, now, maxSize, all, s) && SelectionMaximal(p, now, maxSize, all, s)
  {
    hide SelectionSound, SelectionMaximal;
    var ranked := Ranking(h, p);
    ListMembers(ranked, p.transactions.Keys);
    SelectFirstSound(p, now, maxSize, ranked, |ranked|);
    assert ranked[..|ranked|] == ranked;
  }

  // ---------- The pool object ----------

  ghost function Chosen(p: Pool, keys: seq<Digest>): seq<Transaction>
    requires forall k :: k in keys ==> k in p.transactions
  {
    seq(|keys|, i requires 0 <= i < |keys| => p.transactions[keys[i]].transaction)
  }

  class Mempool {
    const h: Host
    var transactions: Entries
    var maxSize: nat
    var minFeeRate: u64

    ghost function View(): Pool
      reads this
    {
      Pool(transactions, maxSize, minFeeRate)
    }

    constructor (h: Host, maxSize: nat, minFeeRate: u64)
      ensures this.h == h && View() == Pool(map[], maxSize, minFeeRate)
    {
      this.h := h;
      transactions := map[];
      this.maxSize := maxSize;
      this.minFeeRate := minFeeRate;
    }

    method AddTransaction(tx: Transaction, feePaid: u64, now: u64) returns (r: Result<()>)
      modifies this
      ensures Added(View(), r) == PoolAdd(h, old(View()), tx, feePaid, now)
    {
      if |transactions| >= maxSize {
        return Err(PoolFull);
      }
      var txid := h.txid(tx);
      if txid in transactions {
        return Err(AlreadyPooled);
      }
      RateFits(feePaid, ChargedSize(tx));
      var rate := DivCeil(feePaid, ChargedSize(tx));
      transactions := transactions[txid := Entry(tx, feePaid, rate, now)];
      r := Ok(());
    }

    /** Collect the confirmed txids and inputs, then keep the entries that touch neither. */
    method RemoveConfirmedTransactions(confirmed: seq<Transaction>)
      modifies this
      ensures View() == Cleaned(h, old(View()), confirmed)
    {
      var txids: set<Digest>, inputs: set<OutPoint> := {}, {};
      for i := 0 to |confirmed|
        invariant txids == set j | 0 <= j < i :: h.txid(confirmed[j])
        invariant inputs == ConfirmedInputs(confirmed[..i])
        invariant View() == old(View())
      {
        txids := txids + {h.txid(confirmed[i])};
        for j := 0 to |confirmed[i].inputs|
          invariant inputs == ConfirmedInputs(confirmed[..i])
            + (set l | 0 <= l < j :: confirmed[i].inputs[l].previousOutput)
          invariant View() == old(View())
        {
          inputs := inputs + {confirmed[i].inputs[j].previousOutput};
        }
        OneMoreConfirmed(confirmed, i);
      }
      assert confirmed[..|confirmed|] == confirmed;
      assert inputs == ConfirmedInputs(confirmed);
      ghost var before := transactions;
      transactions := map k | k in transactions && k !in txids && InputPoints(transactions[k].transaction) !! inputs
        :: transactions[k];
      assert forall k :: k in before ==> (k in transactions <==> Survives(h, confirmed, k, before[k]));
      assert transactions == Cleaned(h, old(View()), confirmed).transactions;
    }

    /** Collect the entries in the map's own order, sort them, and take what is eligible and fits. */
    method GetTransactionsForBlock(limit: u64, now: u64) returns (txs: seq<Transaction>, fees: u64)
      requires Keyed(h, transactions)
      ensures var s := SelectForBlock(h, View(), limit, now);
        txs == Chosen(View(), s.chosen) && fees == s.fees
    {
      hide EntryOrder, Eligible, EstimatedSize;
      var keys := KeysInMapOrder();
      RankingIgnoresIteration(h, View(), keys);
      var ranked := Sort(EntryOrder(h, transactions), keys);
      txs, fees := Fill(ranked, limit, now);
    }

    method Fill(ranked: seq<Digest>, limit: u64, now: u64) returns (txs: seq<Transaction>, fees: u64)
      requires forall k :: k in ranked ==> k in transactions
      ensures var s := SelectFirst(View(), now, limit, ranked, |ranked|);
        txs == Chosen(View(), s.chosen) && fees == s.fees
    {
      hide Eligible, EstimatedSize;
      ghost var p := View();
      txs, fees := [], 0;
      var size: u64 := 0;
      ghost var chosen: seq<Digest> := [];
      for i := 0 to |ranked|
        invariant SelectFirst(p, now, limit, ranked, i) == Selection(chosen, size, fees)
        invariant |chosen| < MAX_CHOSEN && txs == Chosen(p, chosen)
      {
        assert ranked[i] in ranked;
        var entry := transactions[ranked[i]];
        var more := SaturatingAdd(size, EstimatedSize(entry.transaction));
        if Eligible(Pool(transactions, maxSize, minFeeRate), entry, now) && more <= limit {
          size := more;
          fees := SaturatingAdd(fees, entry.feePaid);
          txs := txs + [entry.transaction];
          chosen := chosen + [ranked[i]];
          assert SelectFirst(p, now, limit, ranked, i + 1) == Selection(chosen, size, fees);
          if |txs| >= MAX_CHOSEN {
            FullStays(p, now, limit, ranked, i + 1, |ranked|);
            return;
          }
        }
      }
    }

    method KeysInMapOrder() returns (keys: seq<Digest>)
      ensures Lists(keys, transactions)
    {
      keys := [];
      var rest := transactions.Keys;
      while rest != {}
        invariant multiset(keys) + multiset(rest) == multiset(transactions.Keys)
        decreases rest
      {
        var k: Digest :| k in rest;
        assert multiset(rest) == multiset(rest - {k}) + multiset{k};
        keys := keys + [k];
        rest := rest - {k};
      }
    }
  }

  lemma OneMoreConfirmed(confirmed: seq<Transaction>, n: nat)
    requires n < |confirmed|
    ensures ConfirmedInputs(confirmed[..n + 1]) == ConfirmedInputs(confirmed[..n]) + InputPoints(confirmed[n])
  {
    var less, more := confirmed[..n], confirmed[..n + 1];
    forall o | o in ConfirmedInputs(less)
      ensures o in ConfirmedInputs(more)
    {
      var i, j :| 0 <= i < |less| && 0 <= j < |less[i].inputs| && less[i].inputs[j].previousOutput == o;
      assert more[i].inputs[j].previousOutput == o;
    }
    forall o | o in InputPoints(confirmed[n])
      ensures o in ConfirmedInputs(more)
    {
      var j :| 0 <= j < |confirmed[n].inputs| && confirmed[n].inputs[j].previousOutput == o;
      assert more[n].inputs[j].previousOutput == o;
    }
    forall o | o in ConfirmedInputs(more)
      ensures o in ConfirmedInputs(less) + InputPoints(confirmed[n])
    {
      var i, j :| 0 <= i < |more| && 0 <= j < |more[i].inputs| && more[i].inputs[j].previousOutput == o;
      if i < n {
        assert less[i].inputs[j].previousOutput == o;
      }
    }
  }

  /** A full selection stays as it is. */
  lemma {:induction false} FullStays(p: Pool, now: u64, maxSize: u64, ranked: seq<Digest>, m: nat, n: nat)
    requires m <= n <= |ranked| && forall k :: k in ranked ==> k in p.transactions
    requires |SelectFirst(p, now, maxSize, ranked, m).chosen| >= MAX_CHOSEN
    ensures SelectFirst(p, now, maxSize, ranked, n) == SelectFirst(p, now, maxSize, ranked, m)
  {
    hide Eligible, EstimatedSize;
    if m < n {
      FullStays(p, now, maxSize, ranked, m, n - 1);
    }
  }
}

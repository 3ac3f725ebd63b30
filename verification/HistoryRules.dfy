/** Which records a wallet's history has, and in which order, in terms of the ledger (src/blockchain.rs). */
module HistoryRules {
  import opened Types
  import opened Ledger
  import opened Accounting
  import opened ChainRules
  import opened Consensus
  import opened Pending
  import opened History

  /** These are the records of the first `n` transactions of a block, in order: one for each that concerns the script,
      made against the ledger that those before it have left. */
  ghost predicate ListsBlock(h: Host, utxos: UtxoSet, block: Block, script: Bytes, n: nat, records: seq<Record>)
    requires n <= |block.transactions|
  {
    if n == 0 then records == []
    else
      var before, tx := ApplyFirst(h, utxos, block, n - 1), block.transactions[n - 1];
      && before.Ok?
      && if Concerns(before.value.utxos, tx, script) then
           && records != [] && ListsBlock(h, utxos, block, script, n - 1, records[..|records| - 1])
           && Describes(h, before.value.utxos, block.header, tx, script, records[|records| - 1])
         else
           ListsBlock(h, utxos, block, script, n - 1, records)
  }

  /** These are the records of a chain, block after block, each made against the ledger that those before it have
      left. */
  ghost predicate ListsChain(h: Host, blocks: Blocks, chain: seq<Digest>, script: Bytes, records: seq<Record>) {
    if chain == [] then records == []
    else
      var front, last := chain[..|chain| - 1], chain[|chain| - 1];
      var before := Replay(h, map[], blocks, front);
      && before.Ok? && last in blocks
      && exists m: nat :: m <= |records| && ListsChain(h, blocks, front, script, records[..m])
           && ListsBlock(h, before.value, blocks[last], script, |blocks[last].transactions|, records[m..])
  }

  lemma TransactionListed(h: Host, all: set<Transaction>, script: Bytes, header: BlockHeader, s: Scan, utxos: UtxoSet,
                          tx: Transaction)
    requires Universe(h, all) && Named(h, all, utxos) && Covers(h, all, s.known, utxos) && Recordable(h, utxos, tx)
    ensures var t := ScanTransaction(h, script, header, s, tx);
      && t.Ok?
      && if Concerns(utxos, tx, script) then
           && |t.value.history| == |s.history| + 1 && t.value.history[..|s.history|] == s.history
           && Describes(h, utxos, header, tx, script, t.value.history[|s.history|])
         else t.value.history == s.history
  {
    hide Universe, Named, Covers, Recordable, OutputWorth, InputWorth, OwnedInput, Foreign, ValueSum;
    RecordDirection(h, all, script, header, s.known, utxos, tx);
    OneRecord(h, script, header, s, tx);
    hide MakeRecord;
  }

  lemma {:induction false} BlockListed(h: Host, all: set<Transaction>, script: Bytes, s: Scan, utxos: UtxoSet,
                                       block: Block, n: nat)
    requires Universe(h, all) && Named(h, all, utxos) && Covers(h, all, s.known, utxos)
    requires ApplyBlock(h, utxos, block).Ok? && n <= |block.transactions|
    requires forall t <- block.transactions :: t in all
    ensures var t := ScanBlock(h, script, s, block, n);
      t.Ok? && |s.history| <= |t.value.history| && t.value.history[..|s.history|] == s.history
        && ListsBlock(h, utxos, block, script, n, t.value.history[|s.history|..])
  {
    hide *;
    if n == 0 {
      History.BlockStart(h, script, s, utxos, block);
      NoneListed(h, utxos, block, script, s.history);
    } else {
      BlockListed(h, all, script, s, utxos, block, n - 1);
      BlockBalanced(h, all, script, s, utxos, block, n - 1);
      LastBlock(h, utxos, block);
      ApplyFailsEarly(h, utxos, block, n, |block.transactions|);
      AppliedRecordable(h, utxos, block, n - 1);
      ScanStep(h, script, s, block, n);
      var before, t := ApplyFirst(h, utxos, block, n - 1).value.utxos, ScanBlock(h, script, s, block, n - 1).value;
      TransactionListed(h, all, script, block.header, t, before, block.transactions[n - 1]);
      OneListed(h, utxos, block, script, n, s.history, t.history, ScanBlock(h, script, s, block, n).value.history);
    }
  }

  lemma {:induction false} NoneListed(h: Host, utxos: UtxoSet, block: Block, script: Bytes, records: seq<Record>)
    ensures records[..|records|] == records && ListsBlock(h, utxos, block, script, 0, records[|records|..])
  {
  }

  lemma {:induction false} OneListed(h: Host, utxos: UtxoSet, block: Block, script: Bytes, n: nat, start: seq<Record>,
                  before: seq<Record>, after: seq<Record>)
    requires 0 < n <= |block.transactions| && ApplyFirst(h, utxos, block, n - 1).Ok?
    requires |start| <= |before| && before[..|start|] == start
    requires ListsBlock(h, utxos, block, script, n - 1, before[|start|..])
    requires var ledger, tx := ApplyFirst(h, utxos, block, n - 1).value.utxos, block.transactions[n - 1];
      if Concerns(ledger, tx, script) then
        && |after| == |before| + 1 && after[..|before|] == before
        && Describes(h, ledger, block.header, tx, script, after[|before|])
      else after == before
    ensures |start| <= |after| && after[..|start|] == start
    ensures ListsBlock(h, utxos, block, script, n, after[|start|..])
  {
    hide Describes, Concerns, ApplyFirst;
    var ledger, tx := ApplyFirst(h, utxos, block, n - 1).value.utxos, block.transactions[n - 1];
    if Concerns(ledger, tx, script) {
      var records := after[|start|..];
      assert records[..|records| - 1] == after[..|before|][|start|..] == before[|start|..];
      assert after[..|start|] == after[..|before|][..|start|];
    }
  }

  lemma {:induction false} ChainListed(h: Host, all: set<Transaction>, script: Bytes, blocks: Blocks,
                                       chain: seq<Digest>)
    requires Universe(h, all) && Known(all, blocks, chain) && Replay(h, map[], blocks, chain).Ok?
    ensures var t := ScanChain(h, script, blocks, chain); t.Ok? && ListsChain(h, blocks, chain, script, t.value.history)
  {
    if chain != [] {
      var front, block := chain[..|chain| - 1], blocks[chain[|chain| - 1]];
      KnownSplit(all, blocks, chain);
      ReplayFront(h, blocks, chain);
      ChainListed(h, all, script, blocks, front);
      ChainBalanced(h, all, script, blocks, front);
      ChainStep(h, script, blocks, chain);
      hide *;
      var s := ScanChain(h, script, blocks, front).value;
      BlockListed(h, all, script, s, Replay(h, map[], blocks, front).value, block, |block.transactions|);
      ChainPlus(h, blocks, chain, script, s.history, ScanChain(h, script, blocks, chain).value.history);
    }
  }

  lemma ChainPlus(h: Host, blocks: Blocks, chain: seq<Digest>, script: Bytes, before: seq<Record>, after: seq<Record>)
    requires chain != [] && chain[|chain| - 1] in blocks && Replay(h, map[], blocks, chain[..|chain| - 1]).Ok?
    requires ListsChain(h, blocks, chain[..|chain| - 1], script, before)
    requires |before| <= |after| && after[..|before|] == before
    requires var block := blocks[chain[|chain| - 1]];
      ListsBlock(h, Replay(h, map[], blocks, chain[..|chain| - 1]).value, block, script, |block.transactions|,
                 after[|before|..])
    ensures ListsChain(h, blocks, chain, script, after)
  {
    hide Replay, ListsBlock;
  }

  /** The history of a script along a chain that replays, newest first: exactly one record for every transaction that
      concerns the script, in the order of the chain, each saying what the ledger says. */
  lemma {:induction false} HistoryExactly(h: Host, all: set<Transaction>, script: Bytes, blocks: Blocks,
                                          chain: seq<Digest>)
    requires Universe(h, all) && Known(all, blocks, chain) && Replay(h, map[], blocks, chain).Ok?
    ensures var r := WalletHistory(h, script, blocks, chain);
      && r.Ok?
      && exists records :: ListsChain(h, blocks, chain, script, records) && |r.value| == |records|
           && forall i :: 0 <= i < |records| ==> r.value[i] == records[|records| - 1 - i]
  {
    hide Universe, Known, Replay, ScanChain, ListsChain;
    ChainListed(h, all, script, blocks, chain);
    var records := ScanChain(h, script, blocks, chain).value.history;
    NewestFirstLength(records);
    forall i | 0 <= i < |records|
      ensures NewestFirst(records)[i] == records[|records| - 1 - i]
    {
      NewestFirstAt(records, i);
    }
  }
}

/** The blockchain object (src/blockchain.rs): its fields, updated in place, and the loops that
    compute what the functions of module ChainRules say. */
module Blockchain {
  import opened Types
  import opened Ledger
  import opened ChainRules
  import opened Consensus
  import Runs

  function Reversed(s: seq<Digest>): seq<Digest> {
    if s == [] then [] else [s[|s| - 1]] + Reversed(s[..|s| - 1])
  }

  ghost function Extend(path: Option<seq<Digest>>, rest: seq<Digest>): (longer: Option<seq<Digest>>)
    ensures rest == [] ==> longer == path
  {
    match path
    case None => None
    case Some(p) => assert p + [] == p; Some(p + rest)
  }

  class Blockchain {
    const h: Host
    var blocks: Blocks
    var headers: map<Digest, BlockHeader>
    var utxoSet: UtxoSet
    var bootstrapUtxos: UtxoSet
    var bestChain: seq<Digest>
    var genesisHash: Digest
    var currentHeight: u64

    ghost function View(): Chain
      reads this
    {
      Chain(blocks, headers, utxoSet, bootstrapUtxos, bestChain, genesisHash, currentHeight)
    }

    ghost predicate Valid()
      reads this
    {
      Inv(h, View())
    }

    constructor (h: Host, bootstrap: UtxoSet)
      ensures this.h == h
      ensures View() == NewChain(h, bootstrap) && Valid()
    {
      var genesis := GenesisBlock(h);
      var hash := HashOf(h, genesis);
      this.h := h;
      genesisHash := hash;
      bestChain := [hash];
      blocks := map[hash := genesis];
      headers := map[hash := genesis.header];
      bootstrapUtxos := bootstrap;
      currentHeight := 0;
      GenesisReplays(h, bootstrap);
      utxoSet := Replay(h, bootstrap, map[hash := genesis], [hash]).value;
      new;
      NewChainSound(h, bootstrap);
    }

    /** Collect hashes from the tip down, then turn them round. */
    method PathToGenesis(tip: Digest) returns (r: Option<seq<Digest>>)
      requires Ends(blocks, genesisHash, tip)
      ensures r == Walk(blocks, genesisHash, tip)
    {
      var path: seq<Digest> := [];
      var current := tip;
      while true
        invariant Ends(blocks, genesisHash, current)
        invariant Walk(blocks, genesisHash, tip) == Extend(Walk(blocks, genesisHash, current), Reversed(path))
        decreases Steps(blocks, genesisHash, current)
      {
        if current !in blocks {
          return None;
        }
        ghost var seen := path;
        path := path + [current];
        assert path[..|path| - 1] == seen;
        if current == genesisHash {
          break;
        }
        StepsDown(blocks, genesisHash, current);
        ghost var below := Walk(blocks, genesisHash, blocks[current].header.previousBlockHash);
        assert below.Some? ==> below.value + [current] + Reversed(seen) == below.value + Reversed(path);
        current := blocks[current].header.previousBlockHash;
      }
      r := Some(Reversed(path));
    }

    method BuildUtxoState(chain: seq<Digest>) returns (r: Result<UtxoSet>)
      ensures r == Replay(h, bootstrapUtxos, blocks, chain)
    {
      var utxos := bootstrapUtxos;
      for i := 0 to |chain|
        invariant Replay(h, bootstrapUtxos, blocks, chain[..i]) == Ok(utxos)
      {
        ReplayFailsEarly(h, bootstrapUtxos, blocks, chain, i + 1);
        assert chain[..i + 1][..i] == chain[..i];
        if chain[i] !in blocks {
          return Err(BlockMissing);
        }
        utxos :- ApplyBlockLoop(h, utxos, blocks[chain[i]]);
      }
      assert chain[..|chain|] == chain;
      r := Ok(utxos);
    }

    /** add_block, whenever it returns. It keeps the object valid unless it stores a block of height 0. */
    method AddBlock(block: Block) returns (r: Result<()>)
      requires Returns(h, View(), block)
      modifies this
      ensures Added(View(), r) == ChainRules.AddBlock(h, old(View()), block)
      ensures StoredIfAdmissible(h, old(View()), block, View())
      ensures old(Valid()) ==> (Valid() <==> Rooted(h, old(View()), block))
    {
      hide StoreSound, LedgerSound, TipHighest, Replay, Walk, CheckBlock;
      ghost var before := View();
      if Valid() {
        Runs.KeptIfRooted(h, before, block);
      }
      StoresExactly(h, before, block);
      hide StoredIfAdmissible;
      var hash := HashOf(h, block);
      if hash in blocks {
        return Err(BlockKnown);
      }
      if block.header.height > 0 && block.header.previousBlockHash !in blocks {
        return Err(PreviousMissing);
      }
      var _ :- CheckBlock(h, block, Lookup(blocks, block.header.previousBlockHash));

      blocks := blocks[hash := block];
      headers := headers[hash := block.header];
      assert View() == Store(h, before, block);

      var path := PathToGenesis(hash);
      if path.None? {
        return Err(NoPath);
      }
      var utxos :- BuildUtxoState(path.value);
      if |path.value| > |bestChain| {
        bestChain := path.value;
        currentHeight := block.header.height;
        utxoSet := utxos;
      }
      r := Ok(());
    }
  }

  lemma {:induction false} ReplayFailsEarly(h: Host, bootstrap: UtxoSet, blocks: Blocks, chain: seq<Digest>, n: nat)
    requires n <= |chain|
    ensures !Replay(h, bootstrap, blocks, chain[..n]).Ok?
        ==> Replay(h, bootstrap, blocks, chain) == Replay(h, bootstrap, blocks, chain[..n])
  {
    if n == |chain| {
      assert chain[..n] == chain;
    } else {
      ReplayFailsEarly(h, bootstrap, blocks, chain[..|chain| - 1], n);
      assert chain[..|chain| - 1][..n] == chain[..n];
    }
  }
}

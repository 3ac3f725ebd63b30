/** What every call of `add_block` keeps as long as no block of height 0 is stored. */
module Consensus {
  import opened Types
  import opened Ledger
  import opened ChainRules
  import Compact
  import Merkle

  // ---------- Paths ----------

  /** In a linked store the walk reaches the genesis from everywhere, in as many steps as the block is
      high, and passes through the walks of all the blocks on its way. */
  lemma {:induction false} WalkLinked(blocks: Blocks, genesis: Digest, tip: Digest)
    requires Linked(blocks, genesis) && tip in blocks
    ensures Ends(blocks, genesis, tip) && Walk(blocks, genesis, tip).Some?
    ensures var path := Walk(blocks, genesis, tip).value;
      && |path| == blocks[tip].header.height + 1
      && forall i :: 0 <= i < |path| ==> Walk(blocks, genesis, path[i]) == Some(path[..i + 1])
    decreases blocks[tip].header.height
  {
    LinkedEnds(blocks, genesis, tip);
    if tip == genesis {
      assert [genesis][..1] == [genesis];
    } else {
      assert HasParent(blocks, tip);
      var parent := blocks[tip].header.previousBlockHash;
      WalkLinked(blocks, genesis, parent);
      var path := Walk(blocks, genesis, parent).value;
      forall i | 0 <= i < |path| + 1
        ensures Walk(blocks, genesis, (path + [tip])[i]) == Some((path + [tip])[..i + 1])
      {
        if i < |path| {
          assert (path + [tip])[..i + 1] == path[..i + 1];
        } else {
          assert (path + [tip])[..i + 1] == path + [tip];
        }
      }
    }
  }

  /** The genesis path of a stored block. */
  ghost function PathTo(blocks: Blocks, genesis: Digest, tip: Digest): (path: seq<Digest>)
    requires Linked(blocks, genesis) && tip in blocks
    ensures |path| == blocks[tip].header.height + 1
    ensures path[0] == genesis && path[|path| - 1] == tip
    ensures forall k <- path :: k in blocks
  {
    WalkLinked(blocks, genesis, tip);
    Walk(blocks, genesis, tip).value
  }

  lemma PathPrefix(blocks: Blocks, genesis: Digest, tip: Digest, i: nat)
    requires Linked(blocks, genesis) && tip in blocks && i <= blocks[tip].header.height
    ensures var path := PathTo(blocks, genesis, tip); PathTo(blocks, genesis, path[i]) == path[..i + 1]
  {
    WalkLinked(blocks, genesis, tip);
  }

  lemma PathStep(blocks: Blocks, genesis: Digest, tip: Digest)
    requires Linked(blocks, genesis) && tip in blocks && tip != genesis
    ensures HasParent(blocks, tip)
    ensures PathTo(blocks, genesis, tip) == PathTo(blocks, genesis, blocks[tip].header.previousBlockHash) + [tip]
  {
    assert HasParent(blocks, tip);
    LinkedEnds(blocks, genesis, tip);
    WalkLinked(blocks, genesis, blocks[tip].header.previousBlockHash);
  }

  /** Storing one more block changes no path. */
  lemma {:induction false} PathGrows(blocks: Blocks, genesis: Digest, hash: Digest, block: Block, tip: Digest)
    requires Linked(blocks, genesis) && hash !in blocks && Linked(blocks[hash := block], genesis) && tip in blocks
    ensures PathTo(blocks[hash := block], genesis, tip) == PathTo(blocks, genesis, tip)
    decreases blocks[tip].header.height
  {
    if tip != genesis {
      assert HasParent(blocks, tip);
      PathGrows(blocks, genesis, hash, block, blocks[tip].header.previousBlockHash);
      PathStep(blocks, genesis, tip);
      PathStep(blocks[hash := block], genesis, tip);
    }
  }

  // ---------- Replays ----------

  /** A chain replays the same from two stores that agree on its blocks. */
  lemma {:induction false} ReplayAgrees(h: Host, bootstrap: UtxoSet, b: Blocks, b': Blocks, chain: seq<Digest>)
    requires forall k <- chain :: k in b && k in b' && b[k] == b'[k]
    ensures Replay(h, bootstrap, b, chain) == Replay(h, bootstrap, b', chain)
  {
    if chain != [] {
      ReplayAgrees(h, bootstrap, b, b', chain[..|chain| - 1]);
    }
  }

  /** Replaying a chain and one more block is applying that block to the replay of the chain. */
  lemma {:induction false} ReplayExtends(h: Host, bootstrap: UtxoSet, blocks: Blocks, chain: seq<Digest>, next: Digest)
    requires next in blocks
    ensures var replay := Replay(h, bootstrap, blocks, chain);
      Replay(h, bootstrap, blocks, chain + [next]) ==
        if replay.Ok? then ApplyBlock(h, replay.value, blocks[next]) else replay
  {
    assert (chain + [next])[..|chain|] == chain;
  }

  /** Every prefix of a chain that replays, replays. */
  lemma {:induction false} ReplayPrefix(h: Host, bootstrap: UtxoSet, blocks: Blocks, chain: seq<Digest>, n: nat)
    requires n <= |chain| && Replay(h, bootstrap, blocks, chain).Ok?
    ensures Replay(h, bootstrap, blocks, chain[..n]).Ok?
  {
    if n == |chain| {
      assert chain[..n] == chain;
    } else {
      ReplayPrefix(h, bootstrap, blocks, chain[..|chain| - 1], n);
      assert chain[..|chain| - 1][..n] == chain[..n];
    }
  }

  // ---------- The invariant ----------

  /** What holds of the stored blocks. */
  ghost predicate StoreSound(h: Host, c: Chain) {
    && c.genesisHash == HashOf(h, GenesisBlock(h))
    && Linked(c.blocks, c.genesisHash)
    && c.blocks[c.genesisHash] == GenesisBlock(h)
    && c.headers == (map k | k in c.blocks :: c.blocks[k].header)
    && (forall k :: k in c.blocks ==> HashOf(h, c.blocks[k]) == k)
    && (forall k {:trigger Checked(h, c.blocks, k)} :: k in c.blocks && k != c.genesisHash ==>
          Checked(h, c.blocks, k))
  }

  /** The block passes Block::validate against its stored parent. */
  ghost predicate Checked(h: Host, blocks: Blocks, k: Digest)
    requires k in blocks
  {
    var parent := blocks[k].header.previousBlockHash;
    parent in blocks && CheckBlock(h, blocks[k], Some(blocks[parent])).Ok?
  }

  ghost predicate Replays(h: Host, c: Chain, k: Digest)
    requires Linked(c.blocks, c.genesisHash) && k in c.blocks
  {
    Replay(h, c.bootstrapUtxos, c.blocks, PathTo(c.blocks, c.genesisHash, k)).Ok?
  }

  /** The ledger is the replay of the best chain, which is the genesis path of its tip. */
  ghost predicate LedgerSound(h: Host, c: Chain) {
    && Linked(c.blocks, c.genesisHash)
    && |c.bestChain| == c.currentHeight + 1
    && Tip(c) in c.blocks
    && c.bestChain == PathTo(c.blocks, c.genesisHash, Tip(c))
    && Replay(h, c.bootstrapUtxos, c.blocks, c.bestChain) == Ok(c.utxoSet)
  }

  /** No stored block whose path replays is higher than the tip. */
  ghost predicate TipHighest(h: Host, c: Chain)
    requires Linked(c.blocks, c.genesisHash)
  {
    forall k {:trigger Replays(h, c, k)} :: k in c.blocks && Replays(h, c, k) ==>
      c.blocks[k].header.height <= c.currentHeight
  }

  function Tip(c: Chain): Digest
  {
    if c.bestChain == [] then c.genesisHash else c.bestChain[|c.bestChain| - 1]
  }

  ghost predicate Inv(h: Host, c: Chain) {
    Linked(c.blocks, c.genesisHash) && StoreSound(h, c) && LedgerSound(h, c) && TipHighest(h, c)
  }

  lemma NewChainSound(h: Host, bootstrap: UtxoSet)
    ensures var c := NewChain(h, bootstrap);
      && Inv(h, c) && Replays(h, c, c.genesisHash) && Tip(c) == c.genesisHash
      && c.blocks.Keys == {c.genesisHash} && c.bootstrapUtxos == bootstrap
  {
    hide Compact.TargetFromBits, Compact.HashValue, Merkle.MerkleRoot, ApplyBlock;
    var c := NewChain(h, bootstrap);
    GenesisReplays(h, bootstrap);
    assert Tip(c) == c.genesisHash;
    assert PathTo(c.blocks, c.genesisHash, c.genesisHash) == [c.genesisHash];
  }

  // ---------- One call ----------

  /** The state after an admitted block has been stored and before anything is adopted. */
  lemma StoredState(h: Host, c: Chain, block: Block)
    requires Inv(h, c) && block.header.height > 0 && Admit(h, c, block).Ok?
    ensures var s := Store(h, c, block); var hash := HashOf(h, block); var parent := block.header.previousBlockHash;
      && StoreSound(h, s) && LedgerSound(h, s) && hash !in c.blocks
      && parent in c.blocks && block.header.height == c.blocks[parent].header.height + 1
      && PathTo(s.blocks, s.genesisHash, hash) == PathTo(c.blocks, c.genesisHash, parent) + [hash]
  {
    var s, hash := Store(h, c, block), HashOf(h, block);
    RootedParent(h, c, block);
    StoreChild(c.blocks, c.genesisHash, hash, block);
    StoreKeepsSound(h, c, block);
    PathStep(s.blocks, s.genesisHash, hash);
    PathGrows(c.blocks, c.genesisHash, hash, block, block.header.previousBlockHash);
    PathGrows(c.blocks, c.genesisHash, hash, block, Tip(c));
    ReplayAgrees(h, c.bootstrapUtxos, c.blocks, s.blocks, c.bestChain);
  }

  lemma StoreKeepsSound(h: Host, c: Chain, block: Block)
    requires StoreSound(h, c) && block.header.height > 0 && Admit(h, c, block).Ok?
    requires HashOf(h, block) !in c.blocks && block.header.previousBlockHash in c.blocks
    requires Linked(Store(h, c, block).blocks, c.genesisHash)
    ensures StoreSound(h, Store(h, c, block))
  {
    hide Compact.TargetFromBits, Compact.HashValue, Merkle.MerkleRoot, MeetsTarget, CheckParent, CheckBlock;
    var s, hash := Store(h, c, block), HashOf(h, block);
    forall k | k in s.blocks && k != s.genesisHash
      ensures Checked(h, s.blocks, k)
    {
      if k == hash {
        assert CheckBlock(h, block, Some(c.blocks[block.header.previousBlockHash])).Ok?;
      } else {
        assert Checked(h, c.blocks, k);
      }
    }
  }

  lemma AddBlockUnfolds(h: Host, c: Chain, block: Block)
    requires Linked(c.blocks, c.genesisHash)
    requires Admit(h, c, block).Ok? ==> Linked(Store(h, c, block).blocks, c.genesisHash)
    ensures !Admit(h, c, block).Ok? ==>
      AddBlock(h, c, block) == Added(c, Admit(h, c, block))
    ensures Admit(h, c, block).Ok? ==>
      var s := Store(h, c, block);
      AddBlock(h, c, block) == Choose(h, s, PathTo(s.blocks, s.genesisHash, HashOf(h, block)), block.header.height)
  {
    hide Admit, Choose;
    if Admit(h, c, block).Ok? {
      WalkLinked(Store(h, c, block).blocks, c.genesisHash, HashOf(h, block));
    }
  }

  /** Storing changes no replay of an older block. */
  lemma {:induction false} ReplaysGrows(h: Host, c: Chain, hash: Digest, block: Block, k: Digest)
    requires Linked(c.blocks, c.genesisHash) && hash !in c.blocks && k in c.blocks
    requires Linked(c.blocks[hash := block], c.genesisHash)
    ensures Replay(h, c.bootstrapUtxos, c.blocks[hash := block], PathTo(c.blocks[hash := block], c.genesisHash, k))
         == Replay(h, c.bootstrapUtxos, c.blocks, PathTo(c.blocks, c.genesisHash, k))
  {
    PathGrows(c.blocks, c.genesisHash, hash, block, k);
    ReplayAgrees(h, c.bootstrapUtxos, c.blocks, c.blocks[hash := block], PathTo(c.blocks, c.genesisHash, k));
  }

  /** Nothing that was stored before reaches higher than the incumbent, and the new block at most one
      higher: its parent's path is a prefix of its own. */
  lemma OnlyNewCanBeHigher(h: Host, c: Chain, block: Block)
    requires Inv(h, c) && block.header.height > 0 && Admit(h, c, block).Ok?
    requires Linked(Store(h, c, block).blocks, c.genesisHash)
    ensures var s := Store(h, c, block); var hash := HashOf(h, block);
      && (forall k :: k in s.blocks && k != hash && Replays(h, s, k) ==>
            s.blocks[k].header.height <= c.currentHeight)
      && (Replays(h, s, hash) ==> block.header.height <= c.currentHeight + 1)
  {
    var s, hash, parent := Store(h, c, block), HashOf(h, block), block.header.previousBlockHash;
    StoredState(h, c, block);
    forall k | k in s.blocks && k != hash && Replays(h, s, k)
      ensures s.blocks[k].header.height <= c.currentHeight
    {
      ReplaysGrows(h, c, hash, block, k);
      assert Replays(h, c, k);
    }
    if Replays(h, s, hash) {
      var path := PathTo(c.blocks, c.genesisHash, parent);
      ReplayPrefix(h, s.bootstrapUtxos, s.blocks, path + [hash], |path|);
      assert (path + [hash])[..|path|] == path;
      ReplayAgrees(h, c.bootstrapUtxos, c.blocks, s.blocks, path);
      assert Replays(h, c, parent);
    }
  }

  /** What one call of add_block does to a sound chain: it succeeds exactly for an admitted block whose
      path replays; it adopts the path exactly if that block is one higher than the tip; otherwise the
      best chain, the ledger and the height stay as they were. The invariant holds again. */
  lemma AddBlockEffect(h: Host, c: Chain, block: Block)
    requires Inv(h, c) && Rooted(h, c, block)
    ensures var r := AddBlock(h, c, block); var hash := HashOf(h, block);
      && Inv(h, r.chain)
      && r.chain.bootstrapUtxos == c.bootstrapUtxos && r.chain.genesisHash == c.genesisHash
      && r.chain.blocks == (if Admit(h, c, block).Ok? then c.blocks[hash := block] else c.blocks)
      && (r.result.Ok? <==> Admit(h, c, block).Ok? && Replays(h, r.chain, hash))
      && (if r.result.Ok? && block.header.height == c.currentHeight + 1 then
            && r.chain.bestChain == PathTo(r.chain.blocks, c.genesisHash, hash)
            && r.chain.currentHeight == c.currentHeight + 1
          else
            && r.chain.bestChain == c.bestChain
            && r.chain.utxoSet == c.utxoSet
            && r.chain.currentHeight == c.currentHeight)
    ensures Admit(h, c, block).Ok? <==> Admissible(h, c.blocks, block)
  {
    AdmitsExactly(h, c, block);
    if Admit(h, c, block).Ok? {
      StoredState(h, c, block);
    }
    AddBlockUnfolds(h, c, block);
    if Admit(h, c, block).Ok? {
      OnlyNewCanBeHigher(h, c, block);
      var s, hash := Store(h, c, block), HashOf(h, block);
      ChooseKeeps(h, s, block);
    }
  }

  lemma ChooseKeeps(h: Host, s: Chain, block: Block)
    requires block.header.height > 0 && StoreSound(h, s) && LedgerSound(h, s)
    requires HashOf(h, block) in s.blocks && s.blocks[HashOf(h, block)] == block
    requires forall k :: k in s.blocks && k != HashOf(h, block) && Replays(h, s, k) ==>
      s.blocks[k].header.height <= s.currentHeight
    requires Replays(h, s, HashOf(h, block)) ==> block.header.height <= s.currentHeight + 1
    ensures var path := PathTo(s.blocks, s.genesisHash, HashOf(h, block));
      var r := Choose(h, s, path, block.header.height);
      && Inv(h, r.chain)
      && r.chain == s.(bestChain := r.chain.bestChain, currentHeight := r.chain.currentHeight,
                       utxoSet := r.chain.utxoSet)
      && (r.result.Ok? <==> Replays(h, s, HashOf(h, block)))
      && (if r.result.Ok? && block.header.height == s.currentHeight + 1 then
            r.chain.bestChain == path && r.chain.currentHeight == s.currentHeight + 1
          else r.chain == s)
  {
    hide StoreSound, LedgerSound, Replay;
    var hash := HashOf(h, block);
    LedgerLength(h, s);
    if Replays(h, s, hash) && block.header.height == s.currentHeight + 1 {
      AdoptKeeps(h, s, hash);
    }
  }

  lemma LedgerLength(h: Host, s: Chain)
    requires LedgerSound(h, s)
    ensures Linked(s.blocks, s.genesisHash) && |s.bestChain| == s.currentHeight + 1
  {
  }

  /** The chain that has switched to the genesis path of `hash`. */
  ghost function Adopt(h: Host, s: Chain, hash: Digest): Chain
    requires Linked(s.blocks, s.genesisHash) && hash in s.blocks && Replays(h, s, hash)
  {
    var path := PathTo(s.blocks, s.genesisHash, hash);
    s.(bestChain := path, currentHeight := s.blocks[hash].header.height,
       utxoSet := Replay(h, s.bootstrapUtxos, s.blocks, path).value)
  }

  lemma AdoptKeeps(h: Host, s: Chain, hash: Digest)
    requires StoreSound(h, s) && Linked(s.blocks, s.genesisHash) && hash in s.blocks && Replays(h, s, hash)
    requires s.blocks[hash].header.height == s.currentHeight + 1
    requires forall k :: k in s.blocks && k != hash && Replays(h, s, k) ==>
      s.blocks[k].header.height <= s.currentHeight
    ensures Inv(h, Adopt(h, s, hash))
  {
    hide StoreSound, Replay;
    var adopted := Adopt(h, s, hash);
    assert Tip(adopted) == hash;
    SameStore(h, s, adopted);
  }

  /** The store's soundness and what replays do not depend on the chain that was adopted. */
  lemma SameStore(h: Host, s: Chain, t: Chain)
    requires StoreSound(h, s) && Linked(s.blocks, s.genesisHash)
    requires t == s.(bestChain := t.bestChain, currentHeight := t.currentHeight, utxoSet := t.utxoSet)
    ensures StoreSound(h, t)
    ensures forall k :: k in s.blocks ==> Replays(h, t, k) == Replays(h, s, k)
  {
    hide CheckBlock, Replay;
  }
}

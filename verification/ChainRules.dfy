/** The block store, the walk back to genesis, the replay of a chain and `add_block`
    (src/blockchain.rs, src/block.rs), as functions on values. */
module ChainRules {
  import opened Types
  import opened Ledger
  import Compact
  import Merkle

  const GENESIS_TIMESTAMP: u64 := 1_777_200_000
  const DEFAULT_BITS: u32 := 0x1f00_ffff
  /** The bytes of "genesis". */
  const GENESIS_SCRIPT: Bytes := [103, 101, 110, 101, 115, 105, 115]

  type Blocks = map<Digest, Block>

  datatype Chain = Chain(
    blocks: Blocks,
    headers: map<Digest, BlockHeader>,
    utxoSet: UtxoSet,
    bootstrapUtxos: UtxoSet,
    bestChain: seq<Digest>,
    genesisHash: Digest,
    currentHeight: u64)

  function HashOf(h: Host, block: Block): Digest {
    h.block(block.header)
  }

  predicate MeetsTarget(h: Host, header: BlockHeader) {
    Compact.HashValue(h.block(header)) <= Compact.TargetFromBits(header.bits)
  }

  /** Block::validate */
  function CheckBlock(h: Host, block: Block, previous: Option<Block>): Result<()> {
    if block.transactions == [] then Err(NoTransactions)
    else
      var _ :- CheckParent(h, block, previous);
      if block.header.merkleRoot != Merkle.MerkleRoot(h, block.transactions) then Err(BadMerkleRoot)
      else if !MeetsTarget(h, block.header) then Err(ProofOfWork)
      else Ok(())
  }

  function CheckParent(h: Host, block: Block, previous: Option<Block>): Result<()> {
    match previous
    case None => if block.header.height != 0 then Err(GenesisHeight) else Ok(())
    case Some(prev) =>
      var expected :- h.Plain(prev.header.height + 1);
      if block.header.height != expected then Err(HeightMismatch)
      else if block.header.previousBlockHash != HashOf(h, prev) then Err(PreviousHashMismatch)
      else if block.header.timestamp < prev.header.timestamp then Err(TimestampBackwards)
      else Ok(())
  }

  function Lookup(blocks: Blocks, hash: Digest): Option<Block> {
    if hash in blocks then Some(blocks[hash]) else None
  }

  // ---------- The walk back to genesis ----------

  /** The walk from `tip` ends, at the genesis or at an unknown hash, in at most `n` steps. */
  ghost predicate EndsIn(blocks: Blocks, genesis: Digest, tip: Digest, n: nat)
    decreases n
  {
    tip !in blocks || tip == genesis || (n > 0 && EndsIn(blocks, genesis, blocks[tip].header.previousBlockHash, n - 1))
  }

  ghost predicate Ends(blocks: Blocks, genesis: Digest, tip: Digest) {
    exists n: nat :: EndsIn(blocks, genesis, tip, n)
  }

  lemma {:induction false} EndsLater(blocks: Blocks, genesis: Digest, tip: Digest, m: nat, n: nat)
    requires m <= n && EndsIn(blocks, genesis, tip, m)
    ensures EndsIn(blocks, genesis, tip, n)
    decreases n
  {
    if tip in blocks && tip != genesis {
      EndsLater(blocks, genesis, blocks[tip].header.previousBlockHash, m - 1, n - 1);
    }
  }

  ghost function LeastSteps(blocks: Blocks, genesis: Digest, tip: Digest, n: nat): (least: nat)
    requires EndsIn(blocks, genesis, tip, n)
    ensures EndsIn(blocks, genesis, tip, least) && (least > 0 ==> !EndsIn(blocks, genesis, tip, least - 1))
    decreases n
  {
    if n > 0 && EndsIn(blocks, genesis, tip, n - 1) then LeastSteps(blocks, genesis, tip, n - 1) else n
  }

  /** How many steps the walk takes, if it ends. */
  ghost function Steps(blocks: Blocks, genesis: Digest, tip: Digest): (n: nat)
    ensures Ends(blocks, genesis, tip) ==>
      EndsIn(blocks, genesis, tip, n) && (n > 0 ==> !EndsIn(blocks, genesis, tip, n - 1))
  {
    if Ends(blocks, genesis, tip) then
      var n: nat :| EndsIn(blocks, genesis, tip, n);
      LeastSteps(blocks, genesis, tip, n)
    else 0
  }

  lemma StepsDown(blocks: Blocks, genesis: Digest, tip: Digest)
    requires Ends(blocks, genesis, tip) && tip in blocks && tip != genesis
    ensures var parent := blocks[tip].header.previousBlockHash;
      Ends(blocks, genesis, parent) && Steps(blocks, genesis, parent) < Steps(blocks, genesis, tip)
  {
    var n, parent := Steps(blocks, genesis, tip), blocks[tip].header.previousBlockHash;
    assert EndsIn(blocks, genesis, parent, n - 1);
    var m := Steps(blocks, genesis, parent);
    if m >= n {
      EndsLater(blocks, genesis, parent, n - 1, m - 1);
    }
  }

  /** path_to_genesis. The program does not return from a walk that does not end. */
  ghost function Walk(blocks: Blocks, genesis: Digest, tip: Digest): (path: Option<seq<Digest>>)
    ensures path.Some? ==> |path.value| > 0 && path.value[0] == genesis && path.value[|path.value| - 1] == tip
    ensures path.Some? ==> forall k <- path.value :: k in blocks
    decreases Steps(blocks, genesis, tip)
  {
    if tip !in blocks || !Ends(blocks, genesis, tip) then None
    else if tip == genesis then Some([tip])
    else
      StepsDown(blocks, genesis, tip);
      match Walk(blocks, genesis, blocks[tip].header.previousBlockHash)
      case None => None
      case Some(path) => Some(path + [tip])
  }

  // ---------- Replay ----------

  /** build_utxo_state_for_chain */
  function Replay(h: Host, bootstrap: UtxoSet, blocks: Blocks, chain: seq<Digest>): Result<UtxoSet> {
    if chain == [] then Ok(bootstrap)
    else
      var utxos :- Replay(h, bootstrap, blocks, chain[..|chain| - 1]);
      var last := chain[|chain| - 1];
      if last !in blocks then Err(BlockMissing) else ApplyBlock(h, utxos, blocks[last])
  }

  // ---------- Genesis ----------

  function GenesisBlock(h: Host): Block {
    var tx := NewTransaction([], [TxOutput(0, GENESIS_SCRIPT)]);
    Block(BlockHeader(0, Merkle.MerkleRoot(h, [tx]), GENESIS_TIMESTAMP, DEFAULT_BITS, 0, 0), [tx])
  }

  /** Blockchain::new, with the bootstrap outputs it is given once and for all. */
  function NewChain(h: Host, bootstrap: UtxoSet): Chain {
    var block := GenesisBlock(h);
    var hash := HashOf(h, block);
    var blocks := map[hash := block];
    GenesisReplays(h, bootstrap);
    Chain(blocks, map[hash := block.header], Replay(h, bootstrap, blocks, [hash]).value, bootstrap, [hash], hash, 0)
  }

  lemma {:induction false} GenesisReplays(h: Host, bootstrap: UtxoSet)
    ensures var block := GenesisBlock(h); var hash := HashOf(h, block);
      && Replay(h, bootstrap, map[hash := block], [hash]) == ApplyBlock(h, bootstrap, block)
      && ApplyBlock(h, bootstrap, block) == Ok(ApplyTransaction(h, bootstrap, block.transactions[0], 0))
  {
    var block := GenesisBlock(h);
    var hash := HashOf(h, block);
    var tx := block.transactions[0];
    assert [hash][..0] == [];
    assert ApplyFirst(h, bootstrap, block, 0) == Ok(Progress(bootstrap, 0));
    assert ApplyFirst(h, bootstrap, block, 1) == ApplyNext(h, Progress(bootstrap, 0), tx, true, 0);
    assert ValueSum(tx.outputs, 1) == 0;
  }

  // ---------- add_block ----------

  datatype Added = Added(chain: Chain, result: Result<()>)

  ghost predicate HasParent(blocks: Blocks, k: Digest)
    requires k in blocks
  {
    var parent := blocks[k].header.previousBlockHash;
    parent in blocks && blocks[k].header.height == blocks[parent].header.height + 1
  }

  /** Every block but the genesis has its parent stored, one height below it. */
  ghost predicate Linked(blocks: Blocks, genesis: Digest) {
    && genesis in blocks && blocks[genesis].header.height == 0
    && forall k {:trigger HasParent(blocks, k)} :: k in blocks && k != genesis ==> HasParent(blocks, k)
  }

  lemma {:induction false} LinkedEnds(blocks: Blocks, genesis: Digest, tip: Digest)
    requires Linked(blocks, genesis) && tip in blocks
    ensures EndsIn(blocks, genesis, tip, blocks[tip].header.height)
    decreases blocks[tip].header.height
  {
    if tip != genesis {
      assert HasParent(blocks, tip);
      LinkedEnds(blocks, genesis, blocks[tip].header.previousBlockHash);
    }
  }

  /** add_block returns: it refuses the block, or the walk from it ends. */
  ghost predicate Returns(h: Host, c: Chain, block: Block) {
    Admit(h, c, block).Ok? ==> Ends(Store(h, c, block).blocks, c.genesisHash, HashOf(h, block))
  }

  /** The call stores no block of height 0. */
  predicate Rooted(h: Host, c: Chain, block: Block) {
    Admit(h, c, block).Ok? ==> block.header.height > 0
  }

  /** What decides whether a block is stored, in plain terms: its hash is new; it has transactions, their Merkle root
      and a hash, read as a number, that its target admits; and it is one above its stored parent, wherever that
      lies, and not older, or its parent is unknown and its height is 0. */
  predicate Admissible(h: Host, blocks: Blocks, block: Block) {
    var header, parent := block.header, block.header.previousBlockHash;
    && h.block(header) !in blocks
    && |block.transactions| > 0
    && header.merkleRoot == Merkle.MerkleRoot(h, block.transactions)
    && Compact.HashValue(h.block(header)) <= Compact.TargetFromBits(header.bits)
    && if parent in blocks then
         && h.Plain(blocks[parent].header.height + 1) == Ok(header.height)
         && header.timestamp >= blocks[parent].header.timestamp
       else header.height == 0
  }

  /** Every block is filed under its hash. */
  ghost predicate Filed(h: Host, blocks: Blocks) {
    forall k :: k in blocks ==> h.block(blocks[k].header) == k
  }

  lemma AdmitsExactly(h: Host, c: Chain, block: Block)
    requires Filed(h, c.blocks)
    ensures Admit(h, c, block).Ok? <==> Admissible(h, c.blocks, block)
  {
    hide Compact.TargetFromBits, Compact.HashValue, Merkle.MerkleRoot;
  }

  /** What a block is refused for: the first of these that holds, in this order. */
  lemma RefusedFor(h: Host, c: Chain, block: Block)
    requires Filed(h, c.blocks)
    ensures var header, parent := block.header, block.header.previousBlockHash;
      Admit(h, c, block) ==
        if h.block(header) in c.blocks then Err(BlockKnown)
        else if header.height > 0 && parent !in c.blocks then Err(PreviousMissing)
        else if |block.transactions| == 0 then Err(NoTransactions)
        else if parent !in c.blocks && header.height != 0 then Err(GenesisHeight)
        else if parent in c.blocks && h.Plain(c.blocks[parent].header.height + 1) == Trap then Trap
        else if parent in c.blocks && Ok(header.height) != h.Plain(c.blocks[parent].header.height + 1) then
          Err(HeightMismatch)
        else if parent in c.blocks && header.timestamp < c.blocks[parent].header.timestamp then Err(TimestampBackwards)
        else if header.merkleRoot != Merkle.MerkleRoot(h, block.transactions) then Err(BadMerkleRoot)
        else if Compact.HashValue(h.block(header)) > Compact.TargetFromBits(header.bits) then Err(ProofOfWork)
        else Ok(())
  {
    hide Compact.TargetFromBits, Compact.HashValue, Merkle.MerkleRoot;
  }

  /** The genesis: one coinbase of one output of no value for the bytes of "genesis", dated 1,777,200,000, at bits
      0x1f00ffff, and everything else zero. */
  lemma GenesisExactly(h: Host)
    ensures var coinbase := Transaction(1, [], [TxOutput(0, [103, 101, 110, 101, 115, 105, 115])], 0);
      GenesisBlock(h) == Block(BlockHeader(0, h.txid(coinbase), 1_777_200_000, 0x1f00_ffff, 0, 0), [coinbase])
  {
    var ids := Merkle.Txids(h, GenesisBlock(h).transactions);
    assert |ids| == 1;
  }

  function Store(h: Host, c: Chain, block: Block): Chain {
    var hash := HashOf(h, block);
    c.(blocks := c.blocks[hash := block], headers := c.headers[hash := block.header])
  }

  /** Everything that decides whether a block is stored. */
  function Admit(h: Host, c: Chain, block: Block): Result<()> {
    if HashOf(h, block) in c.blocks then Err(BlockKnown)
    else if block.header.height > 0 && block.header.previousBlockHash !in c.blocks then Err(PreviousMissing)
    else CheckBlock(h, block, Lookup(c.blocks, block.header.previousBlockHash))
  }

  lemma AdmittedParent(h: Host, c: Chain, block: Block)
    requires Admit(h, c, block).Ok?
    ensures HashOf(h, block) !in c.blocks
    ensures var parent := block.header.previousBlockHash;
      if parent in c.blocks then
        block.header.height == (c.blocks[parent].header.height + 1) % U64_LIMIT
      else block.header.height == 0
  {
    hide Compact.TargetFromBits, Compact.HashValue, Merkle.MerkleRoot;
  }

  lemma RootedParent(h: Host, c: Chain, block: Block)
    requires Admit(h, c, block).Ok? && block.header.height > 0
    ensures HashOf(h, block) !in c.blocks
    ensures var parent := block.header.previousBlockHash;
      parent in c.blocks && block.header.height == c.blocks[parent].header.height + 1
  {
    AdmittedParent(h, c, block);
  }

  /** A new block under a stored parent one lower keeps the store linked. */
  lemma StoreChild(blocks: Blocks, genesis: Digest, hash: Digest, block: Block)
    requires Linked(blocks, genesis) && hash !in blocks
    requires var parent := block.header.previousBlockHash;
      parent in blocks && block.header.height == blocks[parent].header.height + 1
    ensures Linked(blocks[hash := block], genesis)
  {
    var more := blocks[hash := block];
    forall k | k in more && k != genesis
      ensures HasParent(more, k)
    {
      if k != hash {
        assert HasParent(blocks, k);
      }
    }
  }

  /** On a linked store every call that stores no block of height 0 returns. */
  lemma RootedReturns(h: Host, c: Chain, block: Block)
    requires Linked(c.blocks, c.genesisHash) && Rooted(h, c, block)
    ensures Returns(h, c, block)
  {
    if Admit(h, c, block).Ok? {
      RootedParent(h, c, block);
      StoreChild(c.blocks, c.genesisHash, HashOf(h, block), block);
      LinkedEnds(Store(h, c, block).blocks, c.genesisHash, HashOf(h, block));
    }
  }

  /** add_block: store the block, then look for its path, replay it, and adopt it if it is longer. */
  ghost function AddBlock(h: Host, c: Chain, block: Block): Added {
    match Admit(h, c, block)
    case Err(e) => Added(c, Err(e))
    case Trap => Added(c, Trap)
    case Ok(_) =>
      var stored := Store(h, c, block);
      match Walk(stored.blocks, c.genesisHash, HashOf(h, block))
      case None => Added(stored, Err(NoPath))
      case Some(path) => Choose(h, stored, path, block.header.height)
  }

  /** The store of `d` is that of `c`, with the block exactly if it was admissible. */
  ghost predicate StoredIfAdmissible(h: Host, c: Chain, block: Block, d: Chain) {
    Filed(h, c.blocks) ==>
      d.blocks == if Admissible(h, c.blocks, block) then c.blocks[h.block(block.header) := block] else c.blocks
  }

  /** A call stores the block exactly if it is admissible, and changes no other. */
  lemma StoresExactly(h: Host, c: Chain, block: Block)
    ensures StoredIfAdmissible(h, c, block, AddBlock(h, c, block).chain)
  {
    if Filed(h, c.blocks) {
      AdmitsExactly(h, c, block);
    }
    hide Admit, Admissible, Walk, Replay, Filed;
  }

  function Choose(h: Host, c: Chain, path: seq<Digest>, height: u64): Added {
    match Replay(h, c.bootstrapUtxos, c.blocks, path)
    case Err(e) => Added(c, Err(e))
    case Trap => Added(c, Trap)
    case Ok(utxos) =>
      if |path| > |c.bestChain| then
        Added(c.(bestChain := path, currentHeight := height, utxoSet := utxos), Ok(()))
      else Added(c, Ok(()))
  }
}

/** One round of block synchronisation between two nodes (src/p2p.rs). */
module Sync {
  import opened Arithmetic
  import opened Types
  import opened ChainRules
  import opened Consensus
  import opened AnyRun
  import opened Supply
  import opened Runs
  import Blockchain

  datatype Message = BlockMessage(block: Block) | GetPeers | Peers | Ping | Pong | Other

  const MAX_REQUEST: nat := 100

  // ---------- The sender ----------

  function AtLeast(blocks: Blocks, chain: seq<Digest>, from: u64): seq<Block> {
    if chain == [] then []
    else
      var last := chain[|chain| - 1];
      AtLeast(blocks, chain[..|chain| - 1], from) +
      if last in blocks && blocks[last].header.height >= from then [blocks[last]] else []
  }

  /** Node::blocks_from_height */
  function BlocksFromHeight(c: Chain, from: u64, count: u32): seq<Block> {
    var found := AtLeast(c.blocks, c.bestChain, from);
    if |found| <= count then found else found[..count]
  }

  /** What a node writes on a connection that asks it for blocks: its own question first, then the
      blocks, then a ping that closes the answer. */
  function Reply(c: Chain, from: u64, count: u32): seq<Message> {
    var blocks := BlocksFromHeight(c, from, count);
    [GetPeers] + seq(|blocks|, i requires 0 <= i < |blocks| => BlockMessage(blocks[i])) + [Ping]
  }

  ghost function BlocksOf(blocks: Blocks, chain: seq<Digest>): (r: seq<Block>)
    requires forall k <- chain :: k in blocks
  {
    seq(|chain|, i requires 0 <= i < |chain| => assert chain[i] in chain; blocks[chain[i]])
  }

  /** The blocks of a numbered chain from a height on are its suffix. */
  lemma {:induction false} SuffixFromHeight(blocks: Blocks, chain: seq<Digest>, from: u64)
    requires Numbered(blocks, chain)
    ensures AtLeast(blocks, chain, from) ==
      if from <= |chain| then BlocksOf(blocks, chain[from..]) else []
  {
    if chain != [] {
      var n := |chain| - 1;
      SuffixFromHeight(blocks, chain[..n], from);
      if from <= n {
        assert chain[..n][from..] + [chain[n]] == chain[from..];
        assert BlocksOf(blocks, chain[from..]) == BlocksOf(blocks, chain[..n][from..]) + [blocks[chain[n]]];
      }
    }
  }

  // ---------- The receiver ----------

  datatype Round = Round(chain: Chain, localHeight: u64, imported: nat, received: nat)

  ghost predicate Harmless(messages: seq<Message>) {
    forall m <- messages :: m.BlockMessage? ==> m.block.header.height > 0
  }

  ghost function Import(h: Host, r: Round, block: Block): (next: Round) {
    var added := AddBlock(h, r.chain, block);
    if added.result.Ok? && added.chain.currentHeight > r.chain.currentHeight then
      Round(added.chain, added.chain.currentHeight,
            r.imported + (added.chain.currentHeight - r.chain.currentHeight), r.received + 1)
    else
      Round(added.chain, r.localHeight, r.imported, r.received + 1)
  }

  /** The message loop of synchronize_blocks. A failed read is the end of the messages. */
  ghost function Receive(h: Host, r: Round, messages: seq<Message>, requested: nat): (end: Round)
    decreases |messages|
  {
    if messages == [] || r.received >= requested then r
    else
      match messages[0]
      case BlockMessage(block) => Receive(h, Import(h, r, block), messages[1..], requested)
      case GetPeers | Peers | Pong => Receive(h, r, messages[1..], requested)
      case Ping | Other => r
  }

  // ---------- What the loop comes to ----------

  /** The blocks that the loop takes up: those before the first message that ends it, as many as are still wanted. */
  function TakenUp(messages: seq<Message>, wanted: nat): seq<Block> {
    if messages == [] || wanted == 0 || messages[0].Ping? || messages[0].Other? then []
    else if messages[0].BlockMessage? then [messages[0].block] + TakenUp(messages[1..], wanted - 1)
    else TakenUp(messages[1..], wanted)
  }

  lemma {:induction false} FirstBlocks(blocks: seq<Block>, rest: seq<Message>, wanted: nat)
    ensures var messages := seq(|blocks|, i requires 0 <= i < |blocks| => BlockMessage(blocks[i])) + [Ping] + rest;
      TakenUp(messages, wanted) == if |blocks| <= wanted then blocks else blocks[..wanted]
  {
    var messages := seq(|blocks|, i requires 0 <= i < |blocks| => BlockMessage(blocks[i])) + [Ping] + rest;
    if blocks != [] && wanted > 0 {
      FirstBlocks(blocks[1..], rest, wanted - 1);
      assert messages[1..]
          == seq(|blocks[1..]|, i requires 0 <= i < |blocks[1..]| => BlockMessage(blocks[1..][i])) + [Ping] + rest;
    }
  }

  /** The loop is a sequence of calls of add_block on these blocks. Every block counts as received; the blocks imported
      are those by which the height has grown, and the local height is the last one it has grown to. */
  lemma {:induction false} LoopExactly(h: Host, r: Round, messages: seq<Message>, requested: nat)
    requires r.received <= requested
    ensures var blocks := TakenUp(messages, requested - r.received); var end := Receive(h, r, messages, requested);
      && end.chain == Run(h, r.chain, blocks)
      && end.received == r.received + |blocks| <= requested
      && end.imported == r.imported + Grown(h, r.chain, blocks)
      && end.localHeight == LastGrown(h, r.chain, blocks, r.localHeight)
    decreases |messages|
  {
    hide AddBlock;
    if messages != [] && r.received < requested {
      match messages[0]
      case BlockMessage(block) =>
        LoopExactly(h, Import(h, r, block), messages[1..], requested);
        var blocks := TakenUp(messages, requested - r.received);
        assert blocks == [block] + TakenUp(messages[1..], requested - r.received - 1);
        RunFront(h, r.chain, block, blocks[1..]);
      case GetPeers | Peers | Pong =>
        LoopExactly(h, r, messages[1..], requested);
      case Ping | Other =>
    }
  }

  /** The sum of what each accepted call adds to the height. */
  ghost function Grown(h: Host, c: Chain, blocks: seq<Block>): nat
    decreases |blocks|
  {
    if blocks == [] then 0
    else
      var added := AddBlock(h, c, blocks[0]);
      Grown(h, added.chain, blocks[1..]) +
      if added.result.Ok? && added.chain.currentHeight > c.currentHeight
      then added.chain.currentHeight - c.currentHeight
      else 0
  }

  ghost function LastGrown(h: Host, c: Chain, blocks: seq<Block>, height: u64): u64
    decreases |blocks|
  {
    if blocks == [] then height
    else
      var added := AddBlock(h, c, blocks[0]);
      LastGrown(h, added.chain, blocks[1..],
                if added.result.Ok? && added.chain.currentHeight > c.currentHeight then added.chain.currentHeight
                else height)
  }

  // ---------- The round, step by step ----------

  /** Every block that the loop takes up leads to a call that returns. */
  ghost predicate AllReturn(h: Host, r: Round, messages: seq<Message>, requested: nat)
    decreases |messages|
  {
    messages != [] && r.received < requested ==>
      match messages[0]
      case BlockMessage(block) =>
        Returns(h, r.chain, block) && AllReturn(h, Import(h, r, block), messages[1..], requested)
      case GetPeers | Peers | Pong => AllReturn(h, r, messages[1..], requested)
      case Ping | Other => true
  }

  /** None of them is stored at height 0. */
  ghost predicate AllRooted(h: Host, r: Round, messages: seq<Message>, requested: nat)
    decreases |messages|
  {
    messages != [] && r.received < requested ==>
      match messages[0]
      case BlockMessage(block) =>
        Rooted(h, r.chain, block) && AllRooted(h, Import(h, r, block), messages[1..], requested)
      case GetPeers | Peers | Pong => AllRooted(h, r, messages[1..], requested)
      case Ping | Other => true
  }

  lemma {:induction false} HarmlessRooted(h: Host, r: Round, messages: seq<Message>, requested: nat)
    requires Harmless(messages)
    ensures AllRooted(h, r, messages, requested)
    decreases |messages|
  {
    hide AddBlock, Import, Admit;
    if messages != [] {
      var rest := messages[1..];
      assert forall m <- rest :: m in messages;
      match messages[0]
      case BlockMessage(block) => HarmlessRooted(h, Import(h, r, block), rest, requested);
      case GetPeers | Peers | Pong => HarmlessRooted(h, r, rest, requested);
      case Ping | Other =>
    }
  }

  /** From a sound chain such a round returns and ends in a sound chain. */
  lemma {:induction false} RoundSound(h: Host, r: Round, messages: seq<Message>, requested: nat)
    requires Inv(h, r.chain) && AllRooted(h, r, messages, requested)
    ensures AllReturn(h, r, messages, requested) && Inv(h, Receive(h, r, messages, requested).chain)
    decreases |messages|
  {
    hide StoreSound, LedgerSound, TipHighest, AddBlock, Rooted, Returns;
    if messages != [] && r.received < requested {
      match messages[0]
      case BlockMessage(block) =>
        RootedReturns(h, r.chain, block);
        AddBlockEffect(h, r.chain, block);
        RoundSound(h, Import(h, r, block), messages[1..], requested);
      case GetPeers | Peers | Pong =>
        RoundSound(h, r, messages[1..], requested);
      case Ping | Other =>
    }
  }

  /** What is asked of a peer: blocks from a height on, and how many. */
  datatype Request = Request(fromHeight: u64, count: u32)

  /** A peer is asked only if it has announced more than the node has. */
  function MakeRequest(peerHeight: u64, localHeight: u64): Option<Request> {
    if peerHeight <= localHeight then None
    else
      var missing := SaturatingSub(peerHeight, localHeight);
      Some(Request(localHeight + 1, if missing < MAX_REQUEST then missing else MAX_REQUEST))
  }

  /** The request in plain numbers: the missing blocks, but at most a hundred. */
  lemma RequestExactly(peerHeight: u64, localHeight: u64)
    ensures MakeRequest(peerHeight, localHeight) ==
      if peerHeight <= localHeight then None
      else Some(Request(localHeight + 1, Least(100, peerHeight - localHeight)))
  {
  }

  /** The part of synchronize_blocks that talks to one peer, with the messages it reads. */
  method SynchronizeWith(node: Blockchain.Blockchain, peerHeight: u64, localHeight: u64, messages: seq<Message>)
    returns (request: Option<Request>, imported: nat, height: u64, received: nat)
    requires peerHeight > localHeight ==>
      AllReturn(node.h, Round(node.View(), localHeight, 0, 0), messages, Least(100, peerHeight - localHeight))
    modifies node
    ensures request ==
      if peerHeight <= localHeight then None
      else Some(Request(localHeight + 1, Least(100, peerHeight - localHeight)))
    ensures Round(node.View(), height, imported, received) ==
      var start := Round(old(node.View()), localHeight, 0, 0);
      if peerHeight <= localHeight then start
      else Receive(node.h, start, messages, Least(100, peerHeight - localHeight))
  {
    hide AddBlock, MakeRequest, Returns;
    imported, height, received := 0, localHeight, 0;
    RequestExactly(peerHeight, localHeight);
    request := MakeRequest(peerHeight, localHeight);
    if request.None? {
      return;
    }
    var requested := request.value.count;
    var at := 0;
    ghost var goal := Receive(node.h, Round(node.View(), localHeight, 0, 0), messages, requested);
    assert messages[0..] == messages;
    while received < requested && at < |messages|
      invariant at <= |messages|
      invariant AllReturn(node.h, Round(node.View(), height, imported, received), messages[at..], requested)
      invariant Receive(node.h, Round(node.View(), height, imported, received), messages[at..], requested) == goal
      decreases |messages| - at
    {
      var message := messages[at];
      assert messages[at..][0] == message && messages[at..][1..] == messages[at + 1..];
      if message.BlockMessage? {
        imported, height := ImportBlock(node, height, imported, received, message.block);
        received := received + 1;
      } else if message.Ping? || message.Other? {
        return;
      }
      at := at + 1;
    }
  }

  /** One block message: add the block, and count what it adds to the height. */
  method ImportBlock(node: Blockchain.Blockchain, localHeight: u64, before: nat, ghost received: nat, block: Block)
    returns (imported: nat, height: u64)
    requires Returns(node.h, node.View(), block)
    modifies node
    ensures Round(node.View(), height, imported, received + 1)
         == Import(node.h, Round(old(node.View()), localHeight, before, received), block)
  {
    hide AddBlock;
    imported, height := before, localHeight;
    var previous := node.currentHeight;
    var added := node.AddBlock(block);
    if added.Ok? && node.currentHeight > previous {
      imported := imported + (node.currentHeight - previous);
      height := node.currentHeight;
    }
  }

  // ---------- Where a round leads ----------

  /** The receiver's best chain is the beginning of the sender's, with the same blocks. */
  ghost predicate Behind(s: Chain, r: Chain) {
    && r.bootstrapUtxos == s.bootstrapUtxos
    && r.bestChain <= s.bestChain
    && forall k <- r.bestChain :: k in s.blocks && k in r.blocks && r.blocks[k] == s.blocks[k]
  }

  lemma NextAdmitted(h: Host, s: Chain, r: Chain)
    requires Inv(h, s) && Inv(h, r) && Behind(s, r) && |r.bestChain| < |s.bestChain|
    requires s.bestChain[|r.bestChain|] !in r.blocks
    ensures var next := s.bestChain[|r.bestChain|];
      && next in s.blocks && s.blocks[next].header.height == |r.bestChain| > 0
      && HashOf(h, s.blocks[next]) == next
      && Admit(h, r, s.blocks[next]).Ok?
  {
    hide StoreSound, TipHighest, LedgerSound, CheckBlock;
    var i := |r.bestChain|;
    TipHeight(h, r);
    TipHeight(h, s);
    BestHeight(h, s, i);
    BestParent(h, s, i);
    StoredChecked(h, s, s.bestChain[i]);
    assert s.bestChain[i - 1] == Tip(r);
  }

  lemma StoredChecked(h: Host, c: Chain, k: Digest)
    requires Inv(h, c) && k in c.blocks && k != c.genesisHash
    ensures var parent := c.blocks[k].header.previousBlockHash;
      && parent in c.blocks && HashOf(h, c.blocks[k]) == k
      && CheckBlock(h, c.blocks[k], Some(c.blocks[parent])).Ok?
  {
    hide TipHighest, LedgerSound, CheckBlock;
    assert Checked(h, c.blocks, k);
  }

  /** The new path is the same on both sides, and so is its replay. */
  lemma NextReplays(h: Host, s: Chain, r: Chain, stored: Chain)
    requires Inv(h, s) && Inv(h, r) && Behind(s, r) && |r.bestChain| < |s.bestChain|
    requires var next := s.bestChain[|r.bestChain|];
      && next !in r.blocks && next in s.blocks && s.blocks[next].header.height == |r.bestChain| > 0
      && stored.blocks == r.blocks[next := s.blocks[next]] && stored.genesisHash == r.genesisHash
      && stored.bootstrapUtxos == r.bootstrapUtxos && Linked(stored.blocks, stored.genesisHash)
    ensures var next := s.bestChain[|r.bestChain|];
      && PathTo(stored.blocks, stored.genesisHash, next) == s.bestChain[..|r.bestChain| + 1]
      && Replays(h, stored, next)
  {
    hide StoreSound, TipHighest, Replay;
    var i := |r.bestChain|;
    var next := s.bestChain[i];
    TipHeight(h, r);
    TipHeight(h, s);
    BestHeight(h, s, i);
    PathStep(s.blocks, s.genesisHash, next);
    assert s.blocks[next].header.previousBlockHash == s.bestChain[..i + 1][i - 1] == Tip(r);
    PathStep(stored.blocks, stored.genesisHash, next);
    PathGrows(r.blocks, r.genesisHash, next, s.blocks[next], Tip(r));
    assert s.bestChain[..i + 1] == r.bestChain + [next];
    ReplayPrefix(h, s.bootstrapUtxos, s.blocks, s.bestChain, i + 1);
    ReplayAgrees(h, s.bootstrapUtxos, s.blocks, stored.blocks, r.bestChain + [next]);
  }

  lemma BehindNext(s: Chain, r: Chain, t: Chain)
    requires Behind(s, r) && |r.bestChain| < |s.bestChain| && s.bestChain[|r.bestChain|] in s.blocks
    requires t.bootstrapUtxos == r.bootstrapUtxos && t.bestChain == s.bestChain[..|r.bestChain| + 1]
    requires var next := s.bestChain[|r.bestChain|]; t.blocks == r.blocks[next := s.blocks[next]]
    ensures Behind(s, t)
  {
    assert t.bestChain == r.bestChain + [s.bestChain[|r.bestChain|]];
  }

  /** The next block of the sender's chain, if its hash is new to the receiver, is accepted and adopted. */
  lemma NextAccepted(h: Host, s: Chain, r: Chain)
    requires Inv(h, s) && Inv(h, r) && Behind(s, r) && |r.bestChain| < |s.bestChain|
    requires s.bestChain[|r.bestChain|] !in r.blocks
    ensures var next := s.bestChain[|r.bestChain|];
      && next in s.blocks && s.blocks[next].header.height == |r.bestChain| > 0
      && var added := AddBlock(h, r, s.blocks[next]);
         && added.result.Ok? && Inv(h, added.chain) && Behind(s, added.chain)
         && added.chain.bestChain == s.bestChain[..|r.bestChain| + 1]
         && added.chain.currentHeight == |r.bestChain| == r.currentHeight + 1
         && added.chain.blocks == r.blocks[next := s.blocks[next]]
  {
    hide StoreSound, TipHighest, AddBlock, Admit, Replays, LedgerSound, Behind, Store;
    var next := s.bestChain[|r.bestChain|];
    TipHeight(h, r);
    NextAdmitted(h, s, r);
    AddBlockEffect(h, r, s.blocks[next]);
    var t := AddBlock(h, r, s.blocks[next]).chain;
    NextReplays(h, s, r, t);
    BehindNext(s, r, t);
  }

  /** None of the hashes the round will bring is stored at the receiver yet. */
  ghost predicate Unseen(s: Chain, r: Chain, target: nat)
    requires target < |s.bestChain|
  {
    forall i :: |r.bestChain| <= i <= target ==> s.bestChain[i] !in r.blocks
  }

  /** The sender's blocks from one height to another as messages, closed by a ping. */
  ghost function Feed(s: Chain, from: nat, end: nat): (messages: seq<Message>)
    requires Numbered(s.blocks, s.bestChain) && 0 < from <= end <= |s.bestChain|
    ensures Harmless(messages)
    decreases end - from
  {
    if from == end then [Ping]
    else [BlockMessage(s.blocks[s.bestChain[from]])] + Feed(s, from + 1, end)
  }

  lemma {:induction false} ReceiveFirst(h: Host, r: Round, block: Block, rest: seq<Message>, requested: nat)
    requires r.received < requested
    ensures Receive(h, r, [BlockMessage(block)] + rest, requested)
         == Receive(h, Import(h, r, block), rest, requested)
  {
    hide Import;
    assert ([BlockMessage(block)] + rest)[1..] == rest;
  }

  lemma FeedFirst(s: Chain, from: nat, end: nat)
    requires Numbered(s.blocks, s.bestChain) && 0 < from < end <= |s.bestChain|
    ensures s.bestChain[from] in s.blocks
    ensures Feed(s, from, end) == [BlockMessage(s.blocks[s.bestChain[from]])] + Feed(s, from + 1, end)
  {
  }

  /** Importing the next, unseen block of the sender's chain. */
  lemma ImportNext(h: Host, s: Chain, r: Round, end: nat)
    requires Inv(h, s) && Inv(h, r.chain) && Behind(s, r.chain) && Numbered(s.blocks, s.bestChain)
    requires 0 < |r.chain.bestChain| < end <= |s.bestChain|
    requires r.localHeight == r.chain.currentHeight == |r.chain.bestChain| - 1
    requires Unseen(s, r.chain, end - 1)
    ensures var from := |r.chain.bestChain|;
      var next := Import(h, r, s.blocks[s.bestChain[from]]);
      && Inv(h, next.chain) && Behind(s, next.chain) && Unseen(s, next.chain, end - 1)
      && next.chain.bestChain == s.bestChain[..from + 1]
      && next.localHeight == next.chain.currentHeight == from
      && next.imported == r.imported + 1 && next.received == r.received + 1
  {
    hide StoreSound, LedgerSound, TipHighest, AddBlock, Behind;
    NextAccepted(h, s, r.chain);
  }

  lemma {:induction false} ImportsNone(h: Host, s: Chain, r: Round, requested: nat)
    requires Numbered(s.blocks, s.bestChain) && Behind(s, r.chain) && 0 < |r.chain.bestChain| <= |s.bestChain|
    ensures Receive(h, r, Feed(s, |r.chain.bestChain|, |r.chain.bestChain|), requested) == r
    ensures r.chain.bestChain == s.bestChain[..|r.chain.bestChain|]
  {
  }

  /** A round that is fed unseen blocks imports every one of them. */
  lemma {:induction false} ImportsAll(h: Host, s: Chain, r: Round, end: nat, requested: nat)
    requires Inv(h, s) && Inv(h, r.chain) && Behind(s, r.chain) && Numbered(s.blocks, s.bestChain)
    requires 0 < |r.chain.bestChain| <= end <= |s.bestChain|
    requires end - |r.chain.bestChain| + r.received <= requested
    requires r.localHeight == r.chain.currentHeight == |r.chain.bestChain| - 1
    requires Unseen(s, r.chain, end - 1)
    ensures var from := |r.chain.bestChain|;
      var last := Receive(h, r, Feed(s, from, end), requested);
      && last.chain.bestChain == s.bestChain[..end]
      && last.imported == r.imported + (end - from)
      && last.localHeight == end - 1
    decreases end - |r.chain.bestChain|
  {
    hide *;
    var from := |r.chain.bestChain|;
    if from == end {
      ImportsNone(h, s, r, requested);
    } else {
      FeedFirst(s, from, end);
      TipHeight(h, s);
      BestHeight(h, s, from);
      var block := s.blocks[s.bestChain[from]];
      var next := Import(h, r, block);
      ImportNext(h, s, r, end);
      ReceiveFirst(h, r, block, Feed(s, from + 1, end), requested);
      ImportsAll(h, s, next, end, requested);
    }
  }

  // ---------- The theorem ----------

  lemma {:induction false} ReplyIsFeed(h: Host, s: Chain, from: u64, count: u32)
    requires Inv(h, s) && 0 < from <= |s.bestChain|
    ensures Numbered(s.blocks, s.bestChain)
    ensures var end := if from + count < |s.bestChain| then from + count else |s.bestChain|;
      Reply(s, from, count) == [GetPeers] + Feed(s, from, end)
  {
    hide StoreSound, LedgerSound, TipHighest;
    SoundNumbered(h, s);
    SuffixFromHeight(s.blocks, s.bestChain, from);
    var end := if from + count < |s.bestChain| then from + count else |s.bestChain|;
    var blocks := BlocksFromHeight(s, from, count);
    assert |blocks| == end - from;
    assert forall i :: 0 <= i < |blocks| ==> blocks[i] == s.blocks[s.bestChain[from + i]];
    FeedShape(s, from, end, blocks);
  }

  lemma {:induction false} FeedShape(s: Chain, from: nat, end: nat, blocks: seq<Block>)
    requires Numbered(s.blocks, s.bestChain) && 0 < from <= end <= |s.bestChain|
    requires |blocks| == end - from
    requires forall i :: 0 <= i < |blocks| ==> blocks[i] == s.blocks[s.bestChain[from + i]]
    ensures Feed(s, from, end) == seq(|blocks|, i requires 0 <= i < |blocks| => BlockMessage(blocks[i])) + [Ping]
    decreases end - from
  {
    if from < end {
      forall i | 0 <= i < |blocks[1..]|
        ensures blocks[1..][i] == s.blocks[s.bestChain[from + 1 + i]]
      {
        assert blocks[1..][i] == blocks[i + 1];
      }
      FeedShape(s, from + 1, end, blocks[1..]);
    }
  }

  /** No number of imports changes whether an old block's path replays. */
  lemma {:induction false} ReceiveKeeps(h: Host, r: Round, messages: seq<Message>, requested: nat, k: Digest)
    requires Inv(h, r.chain) && AllRooted(h, r, messages, requested) && k in r.chain.blocks
    ensures var last := Receive(h, r, messages, requested).chain;
      && Inv(h, last) && k in last.blocks && last.blocks[k] == r.chain.blocks[k]
      && Replays(h, last, k) == Replays(h, r.chain, k)
    decreases |messages|
  {
    hide StoreSound, LedgerSound, TipHighest, AddBlock, Replays;
    if messages != [] && r.received < requested {
      match messages[0]
      case BlockMessage(block) =>
        ReplaysKept(h, r.chain, block);
        ReceiveKeeps(h, Import(h, r, block), messages[1..], requested, k);
      case GetPeers | Peers | Pong =>
        ReceiveKeeps(h, r, messages[1..], requested, k);
      case Ping | Other =>
    }
  }

  /** If the round leads to the sender's chain, none of the hashes it brought was stored before: such a
      block would have been higher than the receiver's tip all along. */
  lemma {:induction false} ReachedWasUnseen(
      h: Host, s: Chain, r: Round, messages: seq<Message>, requested: nat, target: nat)
    requires Inv(h, r.chain) && AllRooted(h, r, messages, requested) && target < |s.bestChain|
    requires Receive(h, r, messages, requested).chain.bestChain == s.bestChain[..target + 1]
    ensures Unseen(s, r.chain, target)
  {
    hide StoreSound, LedgerSound, AddBlock, Receive;
    var last := Receive(h, r, messages, requested).chain;
    RoundSound(h, r, messages, requested);
    TipHeight(h, r.chain);
    TipHeight(h, last);
    forall i | |r.chain.bestChain| <= i <= target
      ensures s.bestChain[i] !in r.chain.blocks
    {
      var k := s.bestChain[i];
      assert k == last.bestChain[i];
      BestHeight(h, last, i);
      BestReplays(h, last, i);
      if k in r.chain.blocks {
        ReceiveKeeps(h, r, messages, requested, k);
      }
    }
  }

  /** One round of synchronisation. The receiver's best chain is a proper or improper beginning of the sender's, and
      the sender has announced a larger height, truly or not. The target is a hundred above the receiver, the height
      announced or the height of the sender, whichever is least. The round leads exactly there along the sender's
      chain, counting every block it imports, if and only if the receiver has stored nothing yet under the hashes in
      question. */
  lemma {:induction false} RoundReaches(h: Host, s: Chain, r: Chain, announced: u64)
    requires Inv(h, s) && Inv(h, r) && Behind(s, r) && announced > r.currentHeight
    ensures var request := MakeRequest(announced, r.currentHeight);
      var target := Least(r.currentHeight + 100, Least(announced, s.currentHeight));
      && request.Some? && target < |s.bestChain|
      && var reply := Reply(s, request.value.fromHeight, request.value.count);
         var last := Receive(h, Round(r, r.currentHeight, 0, 0), reply, request.value.count);
         && Harmless(reply)
         && (last.chain.bestChain == s.bestChain[..target + 1] <==> Unseen(s, r, target))
         && (Unseen(s, r, target) ==> last.imported == target - r.currentHeight && last.localHeight == target)
  {
    hide StoreSound, LedgerSound, TipHighest, AddBlock, Receive, Feed, Reply, Unseen, Harmless, Numbered, MakeRequest;
    TipHeight(h, r);
    TipHeight(h, s);
    RequestExactly(announced, r.currentHeight);
    var count := Least(100, announced - r.currentHeight);
    var target := Least(r.currentHeight + 100, Least(announced, s.currentHeight));
    var start := Round(r, r.currentHeight, 0, 0);
    ReplyIsFeed(h, s, r.currentHeight + 1, count);
    var feed := Feed(s, r.currentHeight + 1, target + 1);
    SkipQuestion(h, start, feed, count);
    if Unseen(s, r, target) {
      ImportsAll(h, s, start, target + 1, count);
    }
    if Receive(h, start, feed, count).chain.bestChain == s.bestChain[..target + 1] {
      HarmlessRooted(h, start, feed, count);
      ReachedWasUnseen(h, s, start, feed, count, target);
    }
  }

  /** The two nodes hold the same block under every hash that both of them have stored. */
  ghost predicate StoresAgree(s: Chain, r: Chain) {
    forall k :: k in s.blocks && k in r.blocks ==> s.blocks[k] == r.blocks[k]
  }

  lemma {:induction false} SamePath(s: Blocks, r: Blocks, genesis: Digest, k: Digest)
    requires Linked(s, genesis) && Linked(r, genesis) && k in s && k in r
    requires forall j :: j in s && j in r ==> s[j] == r[j]
    ensures PathTo(r, genesis, k) == PathTo(s, genesis, k)
    decreases s[k].header.height
  {
    if k != genesis {
      PathStep(s, genesis, k);
      PathStep(r, genesis, k);
      SamePath(s, r, genesis, s[k].header.previousBlockHash);
    }
  }

  /** Where no hash names two blocks, nothing that is ahead of the receiver can be in its store already: it
      would have replayed there and been adopted. */
  lemma AgreeingStoresUnseen(h: Host, s: Chain, r: Chain, target: nat)
    requires Inv(h, s) && Inv(h, r) && r.bootstrapUtxos == s.bootstrapUtxos && StoresAgree(s, r)
    requires target < |s.bestChain|
    ensures Unseen(s, r, target)
  {
    hide StoreSound, LedgerSound, Replay;
    TipHeight(h, s);
    TipHeight(h, r);
    assert s.genesisHash == r.genesisHash by {
      SameGenesis(h, s, r);
    }
    forall i | |r.bestChain| <= i <= target
      ensures s.bestChain[i] !in r.blocks
    {
      var k := s.bestChain[i];
      BestHeight(h, s, i);
      if k in r.blocks {
        BestReplays(h, s, i);
        ReplaysThere(h, s, r, k);
      }
    }
  }

  lemma ReplaysThere(h: Host, s: Chain, r: Chain, k: Digest)
    requires Linked(s.blocks, s.genesisHash) && Linked(r.blocks, r.genesisHash) && r.genesisHash == s.genesisHash
    requires r.bootstrapUtxos == s.bootstrapUtxos && StoresAgree(s, r)
    requires k in s.blocks && k in r.blocks && Replays(h, s, k)
    ensures Replays(h, r, k)
  {
    SamePath(s.blocks, r.blocks, s.genesisHash, k);
    ReplayAgrees(h, s.bootstrapUtxos, s.blocks, r.blocks, PathTo(s.blocks, s.genesisHash, k));
  }

  lemma SameGenesis(h: Host, s: Chain, r: Chain)
    requires StoreSound(h, s) && StoreSound(h, r)
    ensures s.genesisHash == r.genesisHash
  {
  }

  lemma {:induction false} SkipQuestion(h: Host, r: Round, rest: seq<Message>, requested: nat)
    requires r.received < requested
    ensures Harmless(rest) ==> Harmless([GetPeers] + rest)
    ensures Receive(h, r, [GetPeers] + rest, requested) == Receive(h, r, rest, requested)
  {
    hide Import;
    assert ([GetPeers] + rest)[1..] == rest;
  }
}

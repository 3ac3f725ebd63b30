/** The Merkle root of a block (src/block.rs): the loop that pairs hashes level by level, the tree it
    computes, and what two equal roots say about two transaction lists. */
module Merkle {
  import opened Types

  /** One level: `hashes.chunks(2)`, an odd last hash paired with itself. */
  function PairUp(h: Host, hashes: seq<Digest>): (next: seq<Digest>)
    ensures |next| == (|hashes| + 1) / 2
  {
    seq((|hashes| + 1) / 2, i requires 0 <= i < (|hashes| + 1) / 2 => PairAt(h, hashes, i))
  }

  function PairAt(h: Host, hashes: seq<Digest>, i: nat): Digest
    requires 2 * i < |hashes|
  {
    h.pair(hashes[2 * i], if 2 * i + 1 < |hashes| then hashes[2 * i + 1] else hashes[2 * i])
  }

  function Root(h: Host, hashes: seq<Digest>): Digest
    requires hashes != []
    decreases |hashes|
  {
    if |hashes| == 1 then hashes[0] else Root(h, PairUp(h, hashes))
  }

  function Txids(h: Host, txs: seq<Transaction>): (ids: seq<Digest>)
    ensures |ids| == |txs|
    ensures forall i :: 0 <= i < |txs| ==> ids[i] == h.txid(txs[i])
  {
    seq(|txs|, i requires 0 <= i < |txs| => h.txid(txs[i]))
  }

  /** Block::calculate_merkle_root */
  function MerkleRoot(h: Host, txs: seq<Transaction>): Digest {
    if txs == [] then 0 else Root(h, Txids(h, txs))
  }

  method CalculateMerkleRoot(h: Host, txs: seq<Transaction>) returns (root: Digest)
    ensures root == MerkleRoot(h, txs)
  {
    if txs == [] {
      return 0;
    }
    var hashes := Txids(h, txs);
    while |hashes| > 1
      invariant hashes != []
      invariant Root(h, hashes) == MerkleRoot(h, txs)
      decreases |hashes|
    {
      var next: seq<Digest> := [];
      var at := 0;
      while at < |hashes|
        invariant at <= |hashes| + 1 && at % 2 == 0 && |next| == at / 2
        invariant forall i :: 0 <= i < |next| ==> next[i] == PairAt(h, hashes, i)
      {
        next := next + [if at + 1 < |hashes| then h.pair(hashes[at], hashes[at + 1])
                        else h.pair(hashes[at], hashes[at])];
        at := at + 2;
      }
      assert next == PairUp(h, hashes);
      hashes := next;
    }
    root := hashes[0];
  }

  // ---------- The tree ----------

  function Leaves(depth: nat): nat {
    if depth == 0 then 1 else 2 * Leaves(depth - 1)
  }

  /** The recursive tree of a given depth: a subtree that has no leaves is a copy of its left sibling. */
  function Tree(h: Host, leaves: seq<Digest>, depth: nat): Digest
    requires 0 < |leaves| <= Leaves(depth)
  {
    if depth == 0 then leaves[0]
    else
      var half := Leaves(depth - 1);
      if |leaves| <= half then
        h.pair(Tree(h, leaves, depth - 1), Tree(h, leaves, depth - 1))
      else
        h.pair(Tree(h, leaves[..half], depth - 1), Tree(h, leaves[half..], depth - 1))
  }

  lemma PairUpSplits(h: Host, hashes: seq<Digest>, cut: nat)
    requires 2 * cut <= |hashes|
    ensures PairUp(h, hashes)[..cut] == PairUp(h, hashes[..2 * cut])
    ensures PairUp(h, hashes)[cut..] == PairUp(h, hashes[2 * cut..])
  {
  }

  lemma TreeSplits(h: Host, leaves: seq<Digest>, depth: nat)
    requires depth > 0 && Leaves(depth - 1) < |leaves| <= Leaves(depth)
    ensures var half := Leaves(depth - 1);
      Tree(h, leaves, depth) == h.pair(Tree(h, leaves[..half], depth - 1), Tree(h, leaves[half..], depth - 1))
  {
  }

  lemma TreeCopies(h: Host, leaves: seq<Digest>, depth: nat)
    requires depth > 0 && 0 < |leaves| <= Leaves(depth - 1)
    ensures |leaves| <= Leaves(depth)
    ensures Tree(h, leaves, depth) == h.pair(Tree(h, leaves, depth - 1), Tree(h, leaves, depth - 1))
  {
  }

  lemma {:induction false} TreeOfOnePair(h: Host, hashes: seq<Digest>)
    requires 0 < |hashes| <= 2
    ensures Leaves(0) == 1 && Leaves(1) == 2 && Tree(h, PairUp(h, hashes), 0) == Tree(h, hashes, 1)
  {
  }

  /** Pairing up once is climbing one level of the tree. */
  lemma {:induction false} TreeOfPairs(h: Host, hashes: seq<Digest>, depth: nat)
    requires depth > 0 && 0 < |hashes| <= Leaves(depth)
    ensures |PairUp(h, hashes)| <= Leaves(depth - 1)
    ensures Tree(h, PairUp(h, hashes), depth - 1) == Tree(h, hashes, depth)
  {
    hide Tree, PairUp;
    if depth == 1 {
      TreeOfOnePair(h, hashes);
    } else {
      var half, quarter, up := Leaves(depth - 1), Leaves(depth - 2), PairUp(h, hashes);
      assert Leaves(depth) == 2 * half && half == 2 * quarter;
      if |hashes| <= half {
        TreeOfPairs(h, hashes, depth - 1);
        TreeCopies(h, hashes, depth);
        TreeCopies(h, up, depth - 1);
      } else {
        PairUpSplits(h, hashes, quarter);
        TreeOfPairs(h, hashes[..half], depth - 1);
        TreeOfPairs(h, hashes[half..], depth - 1);
        TreeSplits(h, up, depth - 1);
        TreeSplits(h, hashes, depth);
      }
    }
  }

  /** The number of levels the loop climbs. */
  function Depth(n: nat): nat
    requires n > 0
  {
    if n == 1 then 0 else Depth((n + 1) / 2) + 1
  }

  lemma {:induction false} DepthHolds(n: nat)
    requires n > 0
    ensures n <= Leaves(Depth(n))
  {
    if n > 1 {
      DepthHolds((n + 1) / 2);
    }
  }

  /** The pairing loop computes the recursive tree over its leaves. */
  lemma {:induction false} RootIsTree(h: Host, hashes: seq<Digest>)
    requires hashes != []
    ensures |hashes| <= Leaves(Depth(|hashes|))
    ensures Root(h, hashes) == Tree(h, hashes, Depth(|hashes|))
    decreases |hashes|
  {
    DepthHolds(|hashes|);
    if |hashes| > 1 {
      RootIsTree(h, PairUp(h, hashes));
      TreeOfPairs(h, hashes, Depth(|hashes|));
    }
  }

  // ---------- What equal roots mean ----------

  datatype Collision = Collision(a: Digest, b: Digest, c: Digest, d: Digest) {
    predicate Holds(h: Host) {
      (a, b) != (c, d) && h.pair(a, b) == h.pair(c, d)
    }
  }

  /** Two different lists of one length with the same root give away two inputs on which the pair
      hash collides. */
  lemma {:induction false} EqualRoots(h: Host, left: seq<Digest>, right: seq<Digest>) returns (found: Collision)
    requires left != right && |left| == |right| > 0
    requires Root(h, left) == Root(h, right)
    ensures found.Holds(h)
    decreases |left|
  {
    var up, up' := PairUp(h, left), PairUp(h, right);
    if up != up' {
      found := EqualRoots(h, up, up');
    } else {
      var i :| 0 <= i < |left| && left[i] != right[i];
      assert up[i / 2] == PairAt(h, left, i / 2) && up'[i / 2] == PairAt(h, right, i / 2);
      var j := i / 2 * 2;
      var k := if j + 1 < |left| then j + 1 else j;
      found := Collision(left[j], left[k], right[j], right[k]);
    }
  }

  /** Lists of different length can share a root without any collision: an odd list (of more than one
      element) has the root of the list that repeats its last element. */
  lemma {:induction false} RepeatedLast(h: Host, hashes: seq<Digest>)
    requires |hashes| > 1 && |hashes| % 2 == 1
    ensures Root(h, hashes + [hashes[|hashes| - 1]]) == Root(h, hashes)
  {
    assert PairUp(h, hashes + [hashes[|hashes| - 1]]) == PairUp(h, hashes);
  }

  /** The largest power of two that divides `n`. */
  function LowBit(n: nat): (w: nat)
    requires n > 0
    ensures 0 < w <= n
  {
    if n % 2 == 1 then 1 else 2 * LowBit(n / 2)
  }

  /** So can every list whose length is not a power of two, with the list that repeats its last elements, as many as
      the largest power of two that divides its length. */
  lemma {:induction false} RepeatedTail(h: Host, hashes: seq<Digest>)
    requires hashes != [] && LowBit(|hashes|) < |hashes|
    ensures Root(h, hashes + hashes[|hashes| - LowBit(|hashes|)..]) == Root(h, hashes)
    decreases |hashes|
  {
    var n, w := |hashes|, LowBit(|hashes|);
    if n % 2 == 1 {
      assert hashes[n - 1..] == [hashes[n - 1]];
      RepeatedLast(h, hashes);
    } else {
      PairUpTail(h, hashes, n / 2, w / 2);
      hide PairUp;
      RepeatedTail(h, PairUp(h, hashes));
      RootUp(h, hashes);
      RootUp(h, hashes + hashes[n - w..]);
    }
  }

  lemma {:induction false} RootUp(h: Host, hashes: seq<Digest>)
    requires |hashes| > 1
    ensures Root(h, hashes) == Root(h, PairUp(h, hashes))
  {
    hide PairUp;
  }

  lemma PairUpTail(h: Host, hashes: seq<Digest>, m: nat, w: nat)
    requires |hashes| == 2 * m && w <= m
    ensures |PairUp(h, hashes)| == m
    ensures PairUp(h, hashes + hashes[2 * (m - w)..]) == PairUp(h, hashes) + PairUp(h, hashes)[m - w..]
  {
    hide PairUp;
    var tail := hashes[2 * (m - w)..];
    var longer := hashes + tail;
    assert longer[..2 * m] == hashes && longer[2 * m..] == tail;
    PairUpSplits(h, hashes, m - w);
    PairUpSplits(h, longer, m);
    HalfLength(h, hashes, m);
    HalfLength(h, longer, m + w);
    var both := PairUp(h, longer);
    assert both == both[..m] + both[m..];
  }

  lemma HalfLength(h: Host, hashes: seq<Digest>, m: nat)
    requires |hashes| == 2 * m
    ensures |PairUp(h, hashes)| == m
  {
  }

  // ---------- Which lists share a root ----------

  /** The leaves of the whole tree, copies included. */
  function Padded(leaves: seq<Digest>, depth: nat): (all: seq<Digest>)
    requires 0 < |leaves| <= Leaves(depth)
    ensures |all| == Leaves(depth)
  {
    if depth == 0 then leaves
    else
      var half := Leaves(depth - 1);
      if |leaves| <= half then Padded(leaves, depth - 1) + Padded(leaves, depth - 1)
      else Padded(leaves[..half], depth - 1) + Padded(leaves[half..], depth - 1)
  }

  /** The two halves that a tree pairs at its top. */
  function LeftPart(leaves: seq<Digest>, depth: nat): (part: seq<Digest>)
    requires depth > 0 && 0 < |leaves| <= Leaves(depth)
    ensures 0 < |part| <= Leaves(depth - 1)
  {
    if |leaves| <= Leaves(depth - 1) then leaves else leaves[..Leaves(depth - 1)]
  }

  function RightPart(leaves: seq<Digest>, depth: nat): (part: seq<Digest>)
    requires depth > 0 && 0 < |leaves| <= Leaves(depth)
    ensures 0 < |part| <= Leaves(depth - 1)
  {
    if |leaves| <= Leaves(depth - 1) then leaves else leaves[Leaves(depth - 1)..]
  }

  lemma Parts(h: Host, leaves: seq<Digest>, depth: nat)
    requires depth > 0 && 0 < |leaves| <= Leaves(depth)
    ensures var left, right := LeftPart(leaves, depth), RightPart(leaves, depth);
      && Tree(h, leaves, depth) == h.pair(Tree(h, left, depth - 1), Tree(h, right, depth - 1))
      && Padded(leaves, depth) == Padded(left, depth - 1) + Padded(right, depth - 1)
  {
  }

  lemma SamePadded(a: seq<Digest>, b: seq<Digest>, depth: nat)
    requires depth > 0 && 0 < |a| <= Leaves(depth) && 0 < |b| <= Leaves(depth)
    ensures Padded(a, depth) == Padded(b, depth) <==>
      && Padded(LeftPart(a, depth), depth - 1) == Padded(LeftPart(b, depth), depth - 1)
      && Padded(RightPart(a, depth), depth - 1) == Padded(RightPart(b, depth), depth - 1)
  {
    var half := Leaves(depth - 1);
    assert Padded(a, depth)[..half] == Padded(LeftPart(a, depth), depth - 1);
    assert Padded(a, depth)[half..] == Padded(RightPart(a, depth), depth - 1);
    assert Padded(b, depth)[..half] == Padded(LeftPart(b, depth), depth - 1);
    assert Padded(b, depth)[half..] == Padded(RightPart(b, depth), depth - 1);
  }

  /** Trees of one depth over equal padded leaves are equal; over different ones they are not, or they give away a
      collision of the pair hash. */
  lemma {:induction false} SameTree(
      h: Host, a: seq<Digest>, b: seq<Digest>, depth: nat) returns (found: Option<Collision>)
    requires 0 < |a| <= Leaves(depth) && 0 < |b| <= Leaves(depth)
    ensures found.None? ==> (Tree(h, a, depth) == Tree(h, b, depth) <==> Padded(a, depth) == Padded(b, depth))
    ensures found.Some? ==> found.value.Holds(h)
    ensures Padded(a, depth) == Padded(b, depth) ==> found.None?
  {
    found := None;
    if depth > 0 {
      hide Tree, Padded, LeftPart, RightPart;
      var (la, ra, lb, rb) :=
        (LeftPart(a, depth), RightPart(a, depth), LeftPart(b, depth), RightPart(b, depth));
      Parts(h, a, depth);
      Parts(h, b, depth);
      SamePadded(a, b, depth);
      found := SameTree(h, la, lb, depth - 1);
      if found.None? {
        found := SameTree(h, ra, rb, depth - 1);
      }
      var top := Collision(Tree(h, la, depth - 1), Tree(h, ra, depth - 1), Tree(h, lb, depth - 1), Tree(h, rb,
          depth - 1));
      if found.None? && top.Holds(h) {
        found := Some(top);
      }
    }
  }

  /** Two lists whose trees have one depth share a root if and only if their padded leaves are the same, or else they
      give away a collision of the pair hash. */
  lemma SameRootExactly(h: Host, left: seq<Digest>, right: seq<Digest>) returns (found: Option<Collision>)
    requires left != [] && right != [] && Depth(|left|) == Depth(|right|)
    ensures |left| <= Leaves(Depth(|left|)) && |right| <= Leaves(Depth(|left|))
    ensures found.None? ==>
      (Root(h, left) == Root(h, right) <==> Padded(left, Depth(|left|)) == Padded(right, Depth(|left|)))
    ensures found.Some? ==> found.value.Holds(h)
  {
    RootIsTree(h, left);
    RootIsTree(h, right);
    found := SameTree(h, left, right, Depth(|left|));
  }
}

/**
 The Merkle root of a block's transactions. The loop rewrites one layer at a
 time; the specification names each node of the tree by its level and position.
 */
module Merkle {
  import opened Types

  /** Number of nodes on a level above `n` leaves: an odd level lends its last node twice. */
  function Width(n: nat, level: nat): (w: nat) {
    if level == 0 then n else (Width(n, level - 1) + 1) / 2
  }

  /** Levels between `n` leaves and the single root. */
  function Depth(n: nat): nat {
    if n <= 1 then 0 else 1 + Depth((n + 1) / 2)
  }

  function Node(leaves: seq<Digest>, level: nat, i: nat): Digest
    requires i < Width(|leaves|, level)
  {
    if level == 0 then leaves[i]
    else
      var below := Width(|leaves|, level - 1);
      OfPair(Node(leaves, level - 1, 2 * i), Node(leaves, level - 1, Min(2 * i + 1, below - 1)))
  }

  lemma {:induction false} WidthPositive(n: nat, level: nat)
    requires n > 0
    ensures Width(n, level) > 0
  {
    if level > 0 {
      WidthPositive(n, level - 1);
    }
  }

  /** Climbing one level takes one off the remaining depth, so the root sits alone at level `Depth(n)`. */
  lemma {:induction false} WidthShift(n: nat, level: nat)
    ensures Width(n, level + 1) == Width((n + 1) / 2, level)
  {
    if level > 0 {
      WidthShift(n, level - 1);
    }
  }

  lemma {:induction false} RootLevel(n: nat)
    requires n > 0
    ensures Width(n, Depth(n)) == 1
  {
    if n > 1 {
      RootLevel((n + 1) / 2);
      WidthShift(n, Depth(n) - 1);
    }
  }

  function MerkleRoot(txs: seq<Transaction>): Digest {
    if txs == [] then ZeroDigest
    else
      RootLevel(|txs|);
      Node(TxHashes(txs), Depth(|txs|), 0)
  }

  /** Bottom-up: pad an odd layer with its last digest, then hash the digests in pairs. */
  method ComputeMerkleRoot(txs: seq<Transaction>) returns (root: Digest)
    ensures root == MerkleRoot(txs)
  {
    if txs == [] {
      return ZeroDigest;
    }
    var layer := TxHashes(txs);
    ghost var leaves := layer;
    ghost var level := 0;
    while |layer| > 1
      invariant |layer| == Width(|leaves|, level) > 0
      invariant forall i :: 0 <= i < |layer| ==> layer[i] == Node(leaves, level, i)
      invariant Depth(|leaves|) == level + Depth(|layer|)
      decreases |layer|
    {
      if |layer| % 2 != 0 {
        layer := layer + [layer[|layer| - 1]];
      }
      var pairs := layer;
      layer := seq(|pairs| / 2, i requires 0 <= i < |pairs| / 2 => OfPair(pairs[2 * i], pairs[2 * i + 1]));
      level := level + 1;
    }
    return layer[0];
  }

  // ── Binding ────────────────────────────────────────────────────────────────

  ghost predicate SameLevel(a: seq<Digest>, b: seq<Digest>, level: nat) {
    && Width(|a|, level) == Width(|b|, level)
    && forall j :: 0 <= j < Width(|a|, level) ==> Node(a, level, j) == Node(b, level, j)
  }

  /** Every node is somebody's child, and a hash determines both children. */
  lemma SameLevelBelow(a: seq<Digest>, b: seq<Digest>, level: nat)
    requires SameLevel(a, b, level + 1) && Width(|a|, level) == Width(|b|, level)
    ensures SameLevel(a, b, level)
  {
    forall j | 0 <= j < Width(|a|, level) ensures Node(a, level, j) == Node(b, level, j) {
      assert Node(a, level + 1, j / 2) == Node(b, level + 1, j / 2);
      assert j == 2 * (j / 2) || j == 2 * (j / 2) + 1;
    }
  }

  lemma {:induction false} SameLengthBinds(a: seq<Digest>, b: seq<Digest>, level: nat)
    requires |a| == |b| && SameLevel(a, b, level)
    ensures a == b
  {
    if level == 0 {
      forall j | 0 <= j < |a| ensures a[j] == b[j] {
        assert Node(a, 0, j) == Node(b, 0, j);
      }
    } else {
      SameLevelBelow(a, b, level - 1);
      SameLengthBinds(a, b, level - 1);
    }
  }

  /** Two lists of one length with one root are one list. */
  lemma RootBindsLength(a: seq<Transaction>, b: seq<Transaction>)
    requires |a| == |b| && MerkleRoot(a) == MerkleRoot(b)
    ensures a == b
  {
    if a != [] {
      RootLevel(|a|);
      var x, y := TxHashes(a), TxHashes(b);
      SameLengthBinds(x, y, Depth(|a|));
      forall i | 0 <= i < |a| ensures a[i] == b[i] {
        assert x[i] == y[i];
      }
    }
  }

  ghost predicate Distinct<T>(s: seq<T>) {
    forall i, j :: 0 <= i < j < |s| ==> s[i] != s[j]
  }

  /** Hashes of transactions are leaves; a node over `level` rounds of pairing is no leaf. */
  function PairDepth(d: Digest): nat {
    match d
    case OfPair(left, _) => PairDepth(left) + 1
    case _ => 0
  }

  lemma {:induction false} NodePairDepth(txs: seq<Transaction>, level: nat, i: nat)
    requires i < Width(|txs|, level)
    ensures PairDepth(Node(TxHashes(txs), level, i)) == level
  {
    if level > 0 {
      NodePairDepth(txs, level - 1, 2 * i);
    }
  }

  lemma {:induction false} NodesDistinct(leaves: seq<Digest>, level: nat, i: nat, j: nat)
    requires Distinct(leaves)
    requires i < j < Width(|leaves|, level)
    ensures Node(leaves, level, i) != Node(leaves, level, j)
  {
    if level > 0 {
      NodesDistinct(leaves, level - 1, 2 * i, 2 * j);
    }
  }

  /** Equal levels over distinct leaves force equal levels below, hence equal leaves. */
  lemma {:induction false} DistinctNodesBind(a: seq<Digest>, b: seq<Digest>, level: nat)
    requires Distinct(a) && Distinct(b) && SameLevel(a, b, level)
    ensures a == b
  {
    if level == 0 {
      forall j | 0 <= j < |a| ensures a[j] == b[j] {
        assert Node(a, 0, j) == Node(b, 0, j);
      }
    } else {
      var w, wa, wb := Width(|a|, level), Width(|a|, level - 1), Width(|b|, level - 1);
      if wa != wb {
        assert Node(a, level, w - 1) == Node(b, level, w - 1);
        if wa < wb {
          NodesDistinct(b, level - 1, wb - 2, wb - 1);
        } else {
          NodesDistinct(a, level - 1, wa - 2, wa - 1);
        }
        assert false;
      }
      SameLevelBelow(a, b, level - 1);
      DistinctNodesBind(a, b, level - 1);
    }
  }

  /** Without repeated transactions the root binds the list outright, its length included. */
  lemma RootBindsDistinct(a: seq<Transaction>, b: seq<Transaction>)
    requires Distinct(a) && Distinct(b) && MerkleRoot(a) == MerkleRoot(b)
    ensures a == b
  {
    if a != [] && b != [] {
      RootLevel(|a|);
      RootLevel(|b|);
      var x, y := TxHashes(a), TxHashes(b);
      NodePairDepth(a, Depth(|a|), 0);
      NodePairDepth(b, Depth(|b|), 0);
      DistinctNodesBind(x, y, Depth(|a|));
      forall i | 0 <= i < |a| ensures a[i] == b[i] {
        assert x[i] == y[i];
      }
    } else if a != [] {
      RootLevel(|a|);
      NodeIsNoZero(a, Depth(|a|), 0);
    } else if b != [] {
      RootLevel(|b|);
      NodeIsNoZero(b, Depth(|b|), 0);
    }
  }

  lemma NodeIsNoZero(txs: seq<Transaction>, level: nat, i: nat)
    requires i < Width(|txs|, level)
    ensures Node(TxHashes(txs), level, i) != ZeroDigest
  {
  }

  // ── What the root always binds ─────────────────────────────────────────────

  /** What lies at the bottom of a tree of pairs. */
  function BottomOf(d: Digest): (r: set<Digest>) {
    match d
    case OfPair(left, right) => BottomOf(left) + BottomOf(right)
    case _ => {d}
  }

  /** The leaves below a node: at most 2^level of them, cut off at the end of the list. */
  lemma {:induction false} BottomOfNode(txs: seq<Transaction>, level: nat, i: nat)
    requires i < Width(|txs|, level)
    ensures forall d :: d in BottomOf(Node(TxHashes(txs), level, i)) ==> d.OfTx? && d.tx in txs
  {
    if level > 0 {
      BottomOfNode(txs, level - 1, 2 * i);
      BottomOfNode(txs, level - 1, Min(2 * i + 1, Width(|txs|, level - 1) - 1));
    }
  }

  /** Every leaf is below some node of each level. */
  lemma {:induction false} LeafBelow(txs: seq<Transaction>, level: nat, k: nat) returns (i: nat)
    requires k < |txs|
    ensures i < Width(|txs|, level) && TxHash(txs[k]) in BottomOf(Node(TxHashes(txs), level, i))
  {
    if level == 0 {
      i := k;
    } else {
      var j := LeafBelow(txs, level - 1, k);
      i := j / 2;
      assert j == 2 * i || j == 2 * i + 1;
    }
  }

  lemma BottomOfRoot(txs: seq<Transaction>, tx: Transaction)
    requires txs != []
    ensures TxHash(tx) in BottomOf(MerkleRoot(txs)) <==> tx in txs
  {
    RootLevel(|txs|);
    BottomOfNode(txs, Depth(|txs|), 0);
    if tx in txs {
      var k :| 0 <= k < |txs| && txs[k] == tx;
      var i := LeafBelow(txs, Depth(|txs|), k);
    }
  }

  /** Whatever repeats, lists with one root hold the same transactions. */
  lemma RootBindsMembers(a: seq<Transaction>, b: seq<Transaction>)
    requires MerkleRoot(a) == MerkleRoot(b)
    ensures forall tx :: tx in a <==> tx in b
  {
    if a != [] && b != [] {
      forall tx ensures tx in a <==> tx in b {
        BottomOfRoot(a, tx);
        BottomOfRoot(b, tx);
      }
    } else if a != [] {
      RootLevel(|a|);
      NodeIsNoZero(a, Depth(|a|), 0);
    } else if b != [] {
      RootLevel(|b|);
      NodeIsNoZero(b, Depth(|b|), 0);
    }
  }

  // ── The order of the leaves ────────────────────────────────────────────────

  /** What lies at the bottom of a tree of pairs, from left to right. */
  function Frontier(d: Digest): seq<Digest> {
    match d
    case OfPair(left, right) => Frontier(left) + Frontier(right)
    case _ => [d]
  }

  /** The leftmost leaf below position `i` of a level. */
  function FirstLeaf(level: nat, i: nat): nat {
    if level == 0 then i else FirstLeaf(level - 1, 2 * i)
  }

  lemma {:induction false} FirstLeaves(level: nat, i: nat)
    ensures FirstLeaf(level, 0) == 0 && FirstLeaf(level, i + 1) == FirstLeaf(level, i) + Pow2(level)
  {
    if level > 0 {
      FirstLeaves(level - 1, 2 * i);
      FirstLeaves(level - 1, 2 * i + 1);
    }
  }

  lemma {:induction false} FirstLeafGrows(level: nat, i: nat, j: nat)
    requires i <= j
    ensures FirstLeaf(level, i) <= FirstLeaf(level, j)
  {
    if level > 0 {
      FirstLeafGrows(level - 1, 2 * i, 2 * j);
    }
  }

  /** No leaf lies beyond the last node of a level. */
  lemma {:induction false} LevelCovers(n: nat, level: nat)
    ensures n <= FirstLeaf(level, Width(n, level))
  {
    if level > 0 {
      LevelCovers(n, level - 1);
      FirstLeafGrows(level - 1, Width(n, level - 1), 2 * Width(n, level));
    }
  }

  ghost predicate Spans(txs: seq<Transaction>, frontier: seq<Digest>, first: nat, size: nat) {
    |frontier| == size && forall k :: 0 <= k < size && first + k < |txs| ==> frontier[k] == TxHash(txs[first + k])
  }

  lemma SpansJoin(txs: seq<Transaction>, left: seq<Digest>, right: seq<Digest>, first: nat, half: nat)
    requires Spans(txs, left, first, half) && |right| == half
    requires Spans(txs, right, first + half, half) || |txs| <= first + half
    ensures Spans(txs, left + right, first, 2 * half)
  {
    forall k | half <= k < 2 * half && first + k < |txs| ensures (left + right)[k] == TxHash(txs[first + k]) {
      assert (left + right)[k] == right[k - half];
      assert first + half + (k - half) == first + k;
    }
  }

  /** A node spans 2^level leaves in their order, as far as the list goes. */
  lemma {:induction false} FrontierOfNode(txs: seq<Transaction>, level: nat, i: nat)
    requires i < Width(|txs|, level)
    ensures Spans(txs, Frontier(Node(TxHashes(txs), level, i)), FirstLeaf(level, i), Pow2(level))
  {
    if level > 0 {
      var other := Min(2 * i + 1, Width(|txs|, level - 1) - 1);
      FrontierOfNode(txs, level - 1, 2 * i);
      FrontierOfNode(txs, level - 1, other);
      FirstLeaves(level - 1, 2 * i);
      LevelCovers(|txs|, level - 1);
      SpansJoin(txs, Frontier(Node(TxHashes(txs), level - 1, 2 * i)),
                Frontier(Node(TxHashes(txs), level - 1, other)), FirstLeaf(level, i), Pow2(level - 1));
    }
  }

  lemma {:induction false} DepthIsTight(n: nat)
    requires n > 0
    ensures Pow2(Depth(n)) < 2 * n
  {
    if n > 1 {
      DepthIsTight((n + 1) / 2);
    }
  }

  /** Read from left to right the tree holds the transactions in their order, and repeats behind them if any. */
  lemma RootListsInOrder(txs: seq<Transaction>)
    requires txs != []
    ensures var frontier := Frontier(MerkleRoot(txs));
            && |txs| <= |frontier| == Pow2(Depth(|txs|)) < 2 * |txs|
            && forall k :: 0 <= k < |txs| ==> frontier[k] == TxHash(txs[k])
  {
    var frontier := Frontier(MerkleRoot(txs));
    RootLevel(|txs|);
    DepthIsTight(|txs|);
    LevelCovers(|txs|, Depth(|txs|));
    FirstLeaves(Depth(|txs|), 0);
    FrontierOfNode(txs, Depth(|txs|), 0);
    assert Spans(txs, frontier, 0, Pow2(Depth(|txs|)));
    assert forall k :: 0 <= k < |txs| ==> frontier[k] == TxHash(txs[0 + k]);
  }

  // ── The collision that padding leaves ──────────────────────────────────────

  lemma {:induction false} PaddingKeepsNodes(leaves: seq<Digest>, padded: seq<Digest>, level: nat, i: nat)
    requires |leaves| % 2 == 1 && padded == leaves + [leaves[|leaves| - 1]] && level > 0
    ensures Width(|padded|, level) == Width(|leaves|, level)
    ensures i < Width(|leaves|, level) ==> Node(padded, level, i) == Node(leaves, level, i)
  {
    if level == 1 {
      assert Width(|leaves|, 0) == |leaves| && Width(|padded|, 0) == |padded|;
    } else {
      PaddingKeepsNodes(leaves, padded, level - 1, 2 * i);
      PaddingKeepsNodes(leaves, padded, level - 1, 2 * i + 1);
      if i < Width(|leaves|, level) {
        PaddingKeepsNodes(leaves, padded, level - 1, Min(2 * i + 1, Width(|leaves|, level - 1) - 1));
      }
    }
  }

  lemma PaddingKeepsDepth(n: nat)
    requires n % 2 == 1 && n > 1
    ensures Depth(n + 1) == Depth(n) > 0
  {
    assert (n + 1) / 2 == (n + 2) / 2;
  }

  lemma PaddedHashes(txs: seq<Transaction>, padded: seq<Transaction>)
    requires txs != [] && padded == txs + [txs[|txs| - 1]]
    ensures TxHashes(padded) == TxHashes(txs) + [TxHashes(txs)[|txs| - 1]]
  {
  }

  /** An odd list longer than one has the root of itself with its last transaction repeated. */
  lemma RootIgnoresPadding(txs: seq<Transaction>)
    requires |txs| % 2 == 1 && |txs| > 1
    ensures MerkleRoot(txs + [txs[|txs| - 1]]) == MerkleRoot(txs)
  {
    var n, padded := |txs|, txs + [txs[|txs| - 1]];
    RootLevel(n);
    PaddingKeepsDepth(n);
    PaddedHashes(txs, padded);
    PaddingKeepsNodes(TxHashes(txs), TxHashes(padded), Depth(n), 0);
  }
}

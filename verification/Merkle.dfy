/** Merkleization (`merkle_minimal.py`): the padded binary tree, the level-by-level builder,
    branches, and the streaming computation of the root. */
module Merkle {
  import opened Bits
  import opened Wrappers

  /** The hash of a pair of nodes, and the leaf that pads an incomplete tree. */
  datatype Hasher<!D> = Hasher(pair: (D, D) -> D, zero: D)

  // ----- The padded tree -----

  /** The root of a full binary tree over a power of two of leaves. */
  function TreeRoot<D>(h: Hasher<D>, leaves: seq<D>, depth: nat): D
    requires |leaves| == Pow2(depth)
  {
    if depth == 0 then leaves[0]
    else
      var half := Pow2(depth - 1);
      h.pair(TreeRoot(h, leaves[..half], depth - 1), TreeRoot(h, leaves[half..], depth - 1))
  }

  function Padded<D>(h: Hasher<D>, chunks: seq<D>, depth: nat): (p: seq<D>)
    ensures |p| == Pow2(depth)
  {
    seq(Pow2(depth), i requires 0 <= i => if i < |chunks| then chunks[i] else h.zero)
  }

  /** Node `index` of level `level`, counted from the leaves, in the tree padded without end. */
  function NodeAt<D>(h: Hasher<D>, chunks: seq<D>, level: nat, index: nat): D {
    if level == 0 then
      if index < |chunks| then chunks[index] else h.zero
    else
      h.pair(NodeAt(h, chunks, level - 1, 2 * index), NodeAt(h, chunks, level - 1, 2 * index + 1))
  }

  function ZeroHash<D>(h: Hasher<D>, level: nat): D {
    if level == 0 then h.zero else h.pair(ZeroHash(h, level - 1), ZeroHash(h, level - 1))
  }

  /** The number of nodes of a level that cover at least one of n chunks: n / 2^level, rounded up. */
  function Width(n: nat, level: nat): nat {
    if n == 0 then 0 else Shift(n - 1, level) + 1
  }

  /** A node that covers no chunk is the zero hash of its level. */
  lemma {:induction false} EmptyNode<D>(h: Hasher<D>, chunks: seq<D>, level: nat, index: nat)
    requires index >= Width(|chunks|, level)
    ensures NodeAt(h, chunks, level, index) == ZeroHash(h, level)
  {
    if level > 0 {
      EmptyNode(h, chunks, level - 1, 2 * index);
      EmptyNode(h, chunks, level - 1, 2 * index + 1);
    }
  }

  /** Numbering nodes level by level gives the same tree as halving the padded list of leaves. */
  lemma {:induction false} NodeIsTreeRoot<D>(h: Hasher<D>, chunks: seq<D>, leaves: seq<D>, level: nat, index: nat)
    requires |leaves| == Pow2(level)
    requires forall i :: 0 <= i < |leaves| ==>
               leaves[i] == NodeAt(h, chunks, 0, index * Pow2(level) + i)
    ensures NodeAt(h, chunks, level, index) == TreeRoot(h, leaves, level)
  {
    if level == 0 {
      assert leaves[0] == NodeAt(h, chunks, 0, index * 1 + 0);
    } else {
      var half := Pow2(level - 1);
      HalfOffsets(index, half);
      forall i | 0 <= i < half
        ensures leaves[half..][i] == NodeAt(h, chunks, 0, (2 * index + 1) * half + i)
      {
        assert leaves[half + i] == NodeAt(h, chunks, 0, index * Pow2(level) + (half + i));
      }
      NodeIsTreeRoot(h, chunks, leaves[..half], level - 1, 2 * index);
      NodeIsTreeRoot(h, chunks, leaves[half..], level - 1, 2 * index + 1);
    }
  }

  lemma HalfOffsets(index: nat, half: nat)
    ensures index * (2 * half) == (2 * index) * half
    ensures (2 * index + 1) * half == index * (2 * half) + half
  {
  }

  lemma PaddedRoot<D>(h: Hasher<D>, chunks: seq<D>, depth: nat)
    ensures NodeAt(h, chunks, depth, 0) == TreeRoot(h, Padded(h, chunks, depth), depth)
  {
    NodeIsTreeRoot(h, chunks, Padded(h, chunks, depth), depth, 0);
  }

  // ----- The table of zero hashes -----

  ghost predicate IsZeroTable<D>(h: Hasher<D>, zerohashes: seq<D>) {
    |zerohashes| == 100 && forall k :: 0 <= k < 100 ==> zerohashes[k] == ZeroHash(h, k)
  }

  method BuildZeroHashes<D>(h: Hasher<D>) returns (zerohashes: seq<D>)
    ensures IsZeroTable(h, zerohashes)
  {
    zerohashes := [h.zero];
    for layer := 1 to 100
      invariant |zerohashes| == layer && forall k :: 0 <= k < layer ==> zerohashes[k] == ZeroHash(h, k)
    {
      zerohashes := zerohashes + [h.pair(zerohashes[layer - 1], zerohashes[layer - 1])];
    }
  }

  // ----- The level-by-level builder -----

  /** One level of the tree, without its padding. */
  function Layer<D>(h: Hasher<D>, chunks: seq<D>, level: nat): (layer: seq<D>)
    ensures |layer| == Width(|chunks|, level)
  {
    seq(Width(|chunks|, level), i requires 0 <= i => NodeAt(h, chunks, level, i))
  }

  lemma WidthNext(n: nat, level: nat)
    ensures Width(n, level + 1) == (Width(n, level) + 1) / 2
  {
  }

  method HashPairs<D>(h: Hasher<D>, values: seq<D>) returns (next: seq<D>)
    requires |values| % 2 == 0
    ensures |next| == |values| / 2
    ensures forall i :: 0 <= i < |next| ==> next[i] == h.pair(values[2 * i], values[2 * i + 1])
  {
    next := [];
    for i := 0 to |values| / 2
      invariant |next| == i && forall k :: 0 <= k < i ==> next[k] == h.pair(values[2 * k], values[2 * k + 1])
    {
      next := next + [h.pair(values[2 * i], values[2 * i + 1])];
    }
  }

  lemma NextLayer<D>(h: Hasher<D>, chunks: seq<D>, level: nat, even: seq<D>, next: seq<D>)
    requires Layer(h, chunks, level) <= even && |even| == 2 * Width(|chunks|, level + 1) == 2 * |next|
    requires forall i :: Width(|chunks|, level) <= i < |even| ==> even[i] == ZeroHash(h, level)
    requires forall i :: 0 <= i < |next| ==> next[i] == h.pair(even[2 * i], even[2 * i + 1])
    ensures next == Layer(h, chunks, level + 1)
  {
    forall i | 0 <= i < |even| ensures even[i] == NodeAt(h, chunks, level, i) {
      if i >= Width(|chunks|, level) {
        EmptyNode(h, chunks, level, i);
      } else {
        assert even[i] == Layer(h, chunks, level)[i];
      }
    }
  }

  /** All layers from the leaves up. The source fails on a table lookup beyond one hundred layers. */
  method CalcMerkleTreeFromLeaves<D>(h: Hasher<D>, zerohashes: seq<D>, leaves: seq<D>, layerCount: nat)
    returns (tree: seq<seq<D>>)
    requires IsZeroTable(h, zerohashes) && layerCount <= 100
    ensures |tree| == layerCount + 1
    ensures forall k :: 0 <= k <= layerCount ==> tree[k] == Layer(h, leaves, k)
  {
    var values := leaves;
    tree := [values];
    assert values == Layer(h, leaves, 0);
    for level := 0 to layerCount
      invariant |tree| == level + 1 && values == Layer(h, leaves, level)
      invariant forall k :: 0 <= k <= level ==> tree[k] == Layer(h, leaves, k)
    {
      WidthNext(|leaves|, level);
      if |values| % 2 == 1 {
        values := values + [zerohashes[level]];
      }
      ghost var even := values;
      values := HashPairs(h, values);
      NextLayer(h, leaves, level, even, values);
      tree := tree + [values];
    }
  }

  /** The logarithm rounded down: what `int(log2(n))` is for, and what it is wherever the floating-point
      logarithm does not round up to the next integer. */
  function FloorLog2(n: nat): nat
    requires n > 0
  {
    BitLength(n) - 1
  }

  /** The first node of the top layer. `intLog2` is `int(log2(.))` as the platform computes it, for any rounding. */
  method GetMerkleRoot<D>(h: Hasher<D>, zerohashes: seq<D>, intLog2: nat -> nat, values: seq<D>, padTo: nat)
    returns (root: D)
    requires IsZeroTable(h, zerohashes) && intLog2(padTo) < 100
    ensures root == if padTo == 0 then h.zero else NodeAt(h, values, intLog2(padTo), 0)
  {
    if padTo == 0 {
      return zerohashes[0];
    }
    var layerCount := intLog2(padTo);
    if |values| == 0 {
      EmptyNode(h, values, layerCount, 0);
      return zerohashes[layerCount];
    }
    var tree := CalcMerkleTreeFromLeaves(h, zerohashes, values, layerCount);
    root := tree[|tree| - 1][0];
  }

  // ----- The streaming computation -----

  /** What the buffer holds after i chunks: for every bit set in i, the root of the complete subtree
      that this bit stands for. */
  ghost predicate Filled<D>(h: Hasher<D>, chunks: seq<D>, tmp: seq<Option<D>>, i: nat) {
    forall j :: 0 <= j < |tmp| && Shift(i, j) % 2 == 1 ==> tmp[j] == Some(NodeAt(h, chunks, j, Shift(i, j) - 1))
  }

  function TreeDepth(count: nat): nat {
    BitLength(if count == 0 then 0 else count - 1)
  }

  lemma TreeDepthBound(count: nat)
    ensures count <= Pow2(TreeDepth(count))
    ensures Shift(count, TreeDepth(count)) == if count == Pow2(TreeDepth(count)) then 1 else 0
    ensures forall j :: j >= TreeDepth(count) ==> Width(count, j) <= 1
  {
    if count > 0 {
      BitLengthBound(count - 1);
    }
    if count == Pow2(TreeDepth(count)) {
      ShiftPow2(TreeDepth(count));
    } else {
      ShiftSmall(count, TreeDepth(count));
    }
    forall j | j >= TreeDepth(count) ensures Width(count, j) <= 1 {
      if count > 0 {
        ShiftPastEnd(count - 1, j);
      }
    }
  }

  lemma {:induction false} WidthBound(n: nat, level: nat)
    ensures Width(n, level) <= Shift(n, level) + 1
  {
    if level > 0 { WidthBound(n, level - 1); }
  }

  lemma {:induction false} ShiftMonotone(i: nat, n: nat, k: nat)
    requires i <= n
    ensures Shift(i, k) <= Shift(n, k)
  {
    if k > 0 { ShiftMonotone(i, n, k - 1); }
  }

  /** Adding one carries through the set bits below position j. */
  lemma {:induction false} ShiftSuccessor(i: nat, j: nat)
    requires forall k :: 0 <= k < j ==> Shift(i, k) % 2 == 1
    ensures Shift(i + 1, j) == Shift(i, j) + 1
  {
    if j > 0 {
      ShiftSuccessor(i, j - 1);
    }
  }

  lemma {:induction false} ShiftSame(i: nat, j: nat, k: nat)
    requires j < k && Shift(i, j) % 2 == 0 && Shift(i + 1, j) == Shift(i, j) + 1
    ensures Shift(i + 1, k) == Shift(i, k)
  {
    if k > j + 1 { ShiftSame(i, j, k - 1); }
  }

  /** One turn of the carry: the buffered left sibling completes the parent. */
  lemma CarryNode<D>(h: Hasher<D>, chunks: seq<D>, tmp: seq<Option<D>>, i: nat, j: nat)
    requires Filled(h, chunks, tmp, i) && j < |tmp| && Shift(i, j) % 2 == 1
    ensures tmp[j].Some?
    ensures h.pair(tmp[j].value, NodeAt(h, chunks, j, Shift(i, j))) == NodeAt(h, chunks, j + 1, Shift(i, j + 1))
  {
    var q := Shift(i, j + 1);
    assert Shift(i, j) == 2 * q + 1;
  }

  /** One turn of the padding: past the last chunk the right sibling is the zero hash. */
  lemma PadNode<D>(h: Hasher<D>, zerohashes: seq<D>, chunks: seq<D>, j: nat)
    requires IsZeroTable(h, zerohashes) && j < 100 && Shift(|chunks|, j) % 2 == 0
    ensures h.pair(NodeAt(h, chunks, j, Shift(|chunks|, j)), zerohashes[j])
         == NodeAt(h, chunks, j + 1, Shift(|chunks|, j + 1))
  {
    hide Width, ZeroHash;
    var q := Shift(|chunks|, j + 1);
    assert Shift(|chunks|, j) == 2 * q;
    WidthBound(|chunks|, j);
    EmptyNode(h, chunks, j, 2 * q + 1);
  }

  /** The inner closure of the source: carry a new node into the buffer, completing subtrees as the
      bits of i allow; after the last chunk also complete them with zero hashes up to the full depth. */
  method Merge<D>(h: Hasher<D>, zerohashes: seq<D>, ghost chunks: seq<D>, tmp: array<Option<D>>, leaf: D, i: nat,
      count: nat, depth: nat)
    requires IsZeroTable(h, zerohashes) && count == |chunks| && depth == TreeDepth(count) <= 100
    requires depth < tmp.Length && i <= count && (i == count ==> count != Pow2(depth))
    requires leaf == NodeAt(h, chunks, 0, i) && Filled(h, chunks, tmp[..], i)
    modifies tmp
    ensures i < count ==> Filled(h, chunks, tmp[..], i + 1)
    ensures i == count ==> tmp[depth] == Some(NodeAt(h, chunks, depth, 0))
  {
    hide Width, Pow2, TreeDepth, ZeroHash, NodeAt, Filled;
    TreeDepthBound(count);
    if i < count {
      ShiftSmall(i, depth);
    }
    var node, j := leaf, 0;
    while Shift(i, j) % 2 == 1 || (i == count && j < depth)
      invariant j <= depth && node == NodeAt(h, chunks, j, Shift(i, j))
      invariant i < count ==> forall k :: 0 <= k < j ==> Shift(i, k) % 2 == 1
      invariant tmp[..] == old(tmp[..])
      decreases depth - j
    {
      if Shift(i, j) % 2 == 0 {
        PadNode(h, zerohashes, chunks, j);
        node := h.pair(node, zerohashes[j]);
      } else {
        CarryNode(h, chunks, tmp[..], i, j);
        node := h.pair(tmp[j].value, node);
      }
      j := j + 1;
    }
    tmp[j] := Some(node);
    if i < count {
      FilledNext(h, chunks, old(tmp[..]), tmp[..], i, j);
    }
  }

  lemma FilledNext<D>(h: Hasher<D>, chunks: seq<D>, before: seq<Option<D>>, after: seq<Option<D>>, i: nat, j: nat)
    requires Filled(h, chunks, before, i) && j < |before| == |after|
    requires Shift(i, j) % 2 == 0 && forall k :: 0 <= k < j ==> Shift(i, k) % 2 == 1
    requires after == before[j := Some(NodeAt(h, chunks, j, Shift(i, j)))]
    ensures Filled(h, chunks, after, i + 1)
  {
    forall k | 0 <= k < |after| && Shift(i + 1, k) % 2 == 1
      ensures after[k] == Some(NodeAt(h, chunks, k, Shift(i + 1, k) - 1))
    {
      ShiftSuccessor(i, if k < j then k else j);
      if k > j {
        ShiftSame(i, j, k);
      }
    }
  }

  lemma FilledAtStart<D>(h: Hasher<D>, chunks: seq<D>, tmp: seq<Option<D>>)
    ensures Filled(h, chunks, tmp, 0)
  {
    forall j | 0 <= j < |tmp| ensures Shift(0, j) == 0 {
      ShiftZero(j);
    }
  }

  /** The streaming root: constant work per chunk and a buffer of one node per level.
      The source's assertion that the chunks fit the limit becomes `None`. */
  method MerkleizeChunks<D>(h: Hasher<D>, zerohashes: seq<D>, chunks: seq<D>, givenLimit: Option<nat>)
    returns (root: Option<D>)
    requires IsZeroTable(h, zerohashes)
    requires TreeDepth(if givenLimit.Some? then givenLimit.value else |chunks|) <= 100
    ensures
      var limit := if givenLimit.Some? then givenLimit.value else |chunks|;
      root == if |chunks| <= limit then Some(NodeAt(h, chunks, TreeDepth(limit), 0)) else None
  {
    var limit := if givenLimit.Some? then givenLimit.value else |chunks|;
    var count := |chunks|;
    if count > limit {
      return None;
    }
    if limit == 0 {
      return Some(zerohashes[0]);
    }
    var depth, maxDepth := TreeDepth(count), TreeDepth(limit);
    TreeDepthBound(count);
    TreeDepthMonotone(count, limit);
    var tmp := new Option<D>[maxDepth + 1](_ => None);
    FilledAtStart(h, chunks, tmp[..]);
    for i := 0 to count
      invariant Filled(h, chunks, tmp[..], i)
    {
      Merge(h, zerohashes, chunks, tmp, chunks[i], i, count, depth);
    }
    if Pow2(depth) != count {
      Merge(h, zerohashes, chunks, tmp, zerohashes[0], count, count, depth);
    }
    assert tmp[depth] == Some(NodeAt(h, chunks, depth, 0));
    for j := depth to maxDepth
      invariant tmp[j] == Some(NodeAt(h, chunks, j, 0))
    {
      EmptyNode(h, chunks, j, 1);
      tmp[j + 1] := Some(h.pair(tmp[j].value, zerohashes[j]));
    }
    root := tmp[maxDepth];
  }

  lemma {:induction false} BitLengthMonotone(m: nat, n: nat)
    requires m <= n
    ensures BitLength(m) <= BitLength(n)
  {
    if m > 0 { BitLengthMonotone(m / 2, n / 2); }
  }

  lemma TreeDepthMonotone(m: nat, n: nat)
    requires m <= n
    ensures TreeDepth(m) <= TreeDepth(n)
  {
    BitLengthMonotone(if m == 0 then 0 else m - 1, if n == 0 then 0 else n - 1);
  }

  /** The depth is the logarithm of the limit, rounded up: the least with room for the limit. */
  lemma TreeDepthIsCeiling(limit: nat, d: nat)
    requires limit > 0
    ensures limit <= Pow2(d) <==> TreeDepth(limit) <= d
  {
    hide Pow2, BitLength, Shift, Width;
    TreeDepthBound(limit);
    if limit <= Pow2(d) {
      BitLengthPow2(d);
      BitLengthMonotone(limit - 1, Pow2(d) - 1);
    } else if TreeDepth(limit) <= d {
      Pow2Monotone(TreeDepth(limit), d);
    }
  }

  lemma {:induction false} Pow2Monotone(a: nat, b: nat)
    requires a <= b
    ensures Pow2(a) <= Pow2(b)
    decreases b
  {
    if a < b { Pow2Monotone(a, b - 1); }
  }

  /** The two logarithms differ by one, except on powers of two. */
  lemma HeightsCompared(limit: nat)
    requires limit > 0
    ensures TreeDepth(limit) == FloorLog2(limit) + if exists k :: limit == Pow2(k) then 0 else 1
  {
    hide Pow2, BitLength, Shift, Width;
    if k :| limit == Pow2(k) {
      BitLengthPow2(k);
    } else {
      BitLengthBound(limit);
      BitLengthMonotone(limit - 1, limit);
      TreeDepthBound(limit);
      var d := TreeDepth(limit);
      assert limit < Pow2(d);
      BitLengthPow2(d);
      BitLengthMonotone(limit, Pow2(d) - 1);
    }
  }

  /** The streaming root and the level-by-level root, for every limit and every rounding of the logarithm to an
      integer: they agree if the heights do, and otherwise only where the hash of the two nodes below the
      streaming root happens to be the first of them. Rounding down, the heights agree on powers of two alone. */
  lemma RootsCompared<D>(h: Hasher<D>, chunks: seq<D>, limit: nat, height: nat)
    requires limit > 0 && FloorLog2(limit) <= height <= TreeDepth(limit)
    ensures
      var streaming, layered := NodeAt(h, chunks, TreeDepth(limit), 0), NodeAt(h, chunks, height, 0);
      && (TreeDepth(limit) == FloorLog2(limit) <==> exists k :: limit == Pow2(k))
      && (streaming == layered <==>
            TreeDepth(limit) == height || h.pair(layered, NodeAt(h, chunks, height, 1)) == layered)
  {
    hide Pow2, FloorLog2, TreeDepth;
    HeightsCompared(limit);
  }

  // ----- Branches -----

  ghost predicate IsTree<D>(h: Hasher<D>, leaves: seq<D>, tree: seq<seq<D>>) {
    forall k :: 0 <= k < |tree| ==> tree[k] == Layer(h, leaves, k)
  }

  /** The siblings on the path from a leaf upwards. */
  method GetMerkleProof<D>(h: Hasher<D>, zerohashes: seq<D>, ghost leaves: seq<D>, tree: seq<seq<D>>, index: nat,
      treeLen: nat)
    returns (proof: seq<D>)
    requires IsZeroTable(h, zerohashes) && IsTree(h, leaves, tree) && treeLen <= |tree| <= 100
    ensures IsBranch(h, leaves, index, proof) && |proof| == treeLen
  {
    proof := [];
    for i := 0 to treeLen
      invariant |proof| == i && IsBranch(h, leaves, index, proof)
    {
      var subindex := Sibling(Shift(index, i));
      var node := if subindex < |tree[i]| then tree[i][subindex] else zerohashes[i];
      if subindex >= |tree[i]| {
        EmptyNode(h, leaves, i, subindex);
      }
      proof := proof + [node];
    }
  }

  ghost predicate IsBranch<D>(h: Hasher<D>, leaves: seq<D>, index: nat, proof: seq<D>) {
    forall i :: 0 <= i < |proof| ==> proof[i] == NodeAt(h, leaves, i, Sibling(Shift(index, i)))
  }

  /** The root that a leaf and a branch lead to. */
  function FoldBranch<D>(h: Hasher<D>, leaf: D, branch: seq<D>, index: nat): D
    decreases |branch|
  {
    if branch == [] then leaf
    else FoldBranch(h, FoldStep(h, leaf, branch[0], index), branch[1..], index / 2)
  }

  function FoldStep<D>(h: Hasher<D>, value: D, sibling: D, index: nat): D {
    if index % 2 == 1 then h.pair(sibling, value) else h.pair(value, sibling)
  }

  /** The verifier's loop (`is_valid_merkle_branch`). */
  method IsValidMerkleBranch<D(==)>(h: Hasher<D>, leaf: D, branch: seq<D>, depth: nat, index: nat, root: D)
    returns (ok: bool)
    requires depth <= |branch|
    ensures ok <==> FoldBranch(h, leaf, branch[..depth], index) == root
  {
    var value := leaf;
    for i := 0 to depth
      invariant FoldBranch(h, leaf, branch[..depth], index) == FoldBranch(h, value, branch[i..depth], Shift(index, i))
    {
      assert branch[i..depth][1..] == branch[i + 1..depth];
      value := FoldStep(h, value, branch[i], Shift(index, i));
    }
    ok := value == root;
  }

  /** A branch from any node, cut at any height, folds to the ancestor at that height. */
  lemma {:induction false} BranchFoldsFrom<D>(h: Hasher<D>, leaves: seq<D>, index: nat, proof: seq<D>, i: nat)
    requires IsBranch(h, leaves, index, proof) && i <= |proof|
    ensures FoldBranch(h, NodeAt(h, leaves, i, Shift(index, i)), proof[i..], Shift(index, i))
         == NodeAt(h, leaves, |proof|, Shift(index, |proof|))
    decreases |proof| - i
  {
    if i < |proof| {
      BranchFoldsFrom(h, leaves, index, proof, i + 1);
      assert proof[i..][1..] == proof[i + 1..];
    }
  }

  /** Completeness: the branch of any position of a tree of its height leads to the root. */
  lemma BranchIsComplete<D>(h: Hasher<D>, leaves: seq<D>, index: nat, proof: seq<D>)
    requires IsBranch(h, leaves, index, proof) && index < Pow2(|proof|)
    ensures FoldBranch(h, NodeAt(h, leaves, 0, index), proof, index) == NodeAt(h, leaves, |proof|, 0)
  {
    BranchFoldsFrom(h, leaves, index, proof, 0);
    ShiftSmall(index, |proof|);
  }

  ghost predicate Injective<D(!new)>(h: Hasher<D>) {
    forall a, b, c, d :: h.pair(a, b) == h.pair(c, d) ==> a == c && b == d
  }

  /** Soundness: without hash collisions, no other leaf or branch leads to the same root at that index. */
  lemma {:induction false} BranchIsUnique<D(!new)>(
      h: Hasher<D>, leaf1: D, branch1: seq<D>, leaf2: D, branch2: seq<D>, index: nat)
    requires Injective(h) && |branch1| == |branch2|
    requires FoldBranch(h, leaf1, branch1, index) == FoldBranch(h, leaf2, branch2, index)
    ensures leaf1 == leaf2 && branch1 == branch2
    decreases |branch1|
  {
    if branch1 != [] {
      var next1 := FoldStep(h, leaf1, branch1[0], index);
      var next2 := FoldStep(h, leaf2, branch2[0], index);
      BranchIsUnique(h, next1, branch1[1..], next2, branch2[1..], index / 2);
      assert branch1 == [branch1[0]] + branch1[1..] && branch2 == [branch2[0]] + branch2[1..];
    }
  }

  // ----- Deposits -----

  const DEPOSIT_CONTRACT_TREE_DEPTH: nat := 32

  /** The root of the deposit list: its tree, mixed with its length. */
  function DepositRoot<D>(h: Hasher<D>, lengthNode: nat -> D, leaves: seq<D>): D {
    h.pair(NodeAt(h, leaves, DEPOSIT_CONTRACT_TREE_DEPTH, 0), lengthNode(|leaves|))
  }

  /** A deposit's branch: its siblings, then the length node. */
  method DepositProof<D>(h: Hasher<D>, zerohashes: seq<D>, lengthNode: nat -> D, leaves: seq<D>, index: nat)
    returns (proof: seq<D>)
    requires IsZeroTable(h, zerohashes) && index < |leaves| <= Pow2(DEPOSIT_CONTRACT_TREE_DEPTH)
    ensures |proof| == DEPOSIT_CONTRACT_TREE_DEPTH + 1
    ensures IsBranch(h, leaves, index, proof[..DEPOSIT_CONTRACT_TREE_DEPTH])
    ensures proof[DEPOSIT_CONTRACT_TREE_DEPTH] == lengthNode(|leaves|)
    ensures FoldBranch(h, leaves[index], proof, index) == DepositRoot(h, lengthNode, leaves)
  {
    var tree := CalcMerkleTreeFromLeaves(h, zerohashes, leaves, 32);
    var branch := GetMerkleProof(h, zerohashes, leaves, tree, index, 32);
    proof := branch + [lengthNode(|leaves|)];
    BranchIsComplete(h, leaves, index, branch);
    FoldAppend(h, leaves[index], branch, proof[32], index);
    ShiftSmall(index, 32);
  }

  /** The root of a deposit list in terms of its two parts: the root of the full tree over the padded leaves, and the
      length behind it. */
  lemma DepositRootParts<D>(h: Hasher<D>, lengthNode: nat -> D, leaves: seq<D>)
    ensures DepositRoot(h, lengthNode, leaves) == h.pair(TreeRoot(h, Padded(h, leaves, 32), 32), lengthNode(|leaves|))
  {
    hide NodeAt, TreeRoot, Padded;
    PaddedRoot(h, leaves, 32);
  }

  /** The smallest trees: which child comes first, and on which side a sibling stands. */
  lemma TwoLeaves<D>(h: Hasher<D>, a: D, b: D)
    ensures NodeAt(h, [a], 0, 0) == a && NodeAt(h, [], 0, 0) == h.zero
    ensures NodeAt(h, [a, b], 1, 0) == h.pair(a, b) && NodeAt(h, [a], 1, 0) == h.pair(a, h.zero)
    ensures FoldBranch(h, a, [b], 0) == h.pair(a, b) && FoldBranch(h, b, [a], 1) == h.pair(a, b)
  {
    assert NodeAt(h, [a, b], 0, 0) == a && NodeAt(h, [a, b], 0, 1) == b && NodeAt(h, [a], 0, 1) == h.zero;
    assert [b][1..] == [] && [a][1..] == [];
  }

  lemma {:induction false} FoldAppend<D>(h: Hasher<D>, leaf: D, branch: seq<D>, last: D, index: nat)
    ensures FoldBranch(h, leaf, branch + [last], index)
         == FoldStep(h, FoldBranch(h, leaf, branch, index), last, Shift(index, |branch|))
    decreases |branch|
  {
    if branch != [] {
      assert (branch + [last])[1..] == branch[1..] + [last];
      FoldAppend(h, FoldStep(h, leaf, branch[0], index), branch[1..], last, index / 2);
      ShiftHalf(index, |branch| - 1);
    }
  }
}

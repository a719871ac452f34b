/** Generalized indices: proof extraction from a binary tree (`helpers/merkle.py`) and the
    concatenation of indices (`spec_builders/eip7732.py`). */
module GeneralizedIndex {
  import opened Bits
  import opened Wrappers
  import opened Merkle

  /** A backing tree: leaves carry a root, inner nodes have two children. */
  datatype Node<D> = Leaf(value: D) | Pair(left: Node<D>, right: Node<D>)

  function MerkleRoot<D>(h: Hasher<D>, node: Node<D>): D {
    match node
    case Leaf(value) => value
    case Pair(left, right) => h.pair(MerkleRoot(h, left), MerkleRoot(h, right))
  }

  /** The turns from the root down to a generalized index: its bits below the leading one, true for right. */
  function Path(gindex: nat): seq<bool> {
    if gindex <= 1 then [] else Path(gindex / 2) + [gindex % 2 == 1]
  }

  /** The generalized index at the end of a path. */
  function IndexOf(path: seq<bool>): (g: nat)
    ensures g >= 1
  {
    if path == [] then 1 else 2 * IndexOf(path[..|path| - 1]) + if path[|path| - 1] then 1 else 0
  }

  lemma {:induction false} PathOfIndex(path: seq<bool>)
    ensures Path(IndexOf(path)) == path
  {
    if path != [] {
      PathOfIndex(path[..|path| - 1]);
      assert path == path[..|path| - 1] + [path[|path| - 1]];
    }
  }

  lemma {:induction false} IndexOfPath(gindex: nat)
    requires gindex >= 1
    ensures IndexOf(Path(gindex)) == gindex
  {
    if gindex > 1 {
      IndexOfPath(gindex / 2);
      assert Path(gindex)[..|Path(gindex)| - 1] == Path(gindex / 2);
    }
  }

  /** The node at the end of a path; `None` where the source fails by walking below a leaf. */
  function Descend<D>(node: Node<D>, path: seq<bool>): Option<Node<D>>
    decreases |path|
  {
    if path == [] then Some(node)
    else if node.Leaf? then None
    else Descend(if path[0] then node.right else node.left, path[1..])
  }

  /** The roots of the nodes beside a path, nearest to the end of the path first. */
  function Siblings<D>(h: Hasher<D>, node: Node<D>, path: seq<bool>): seq<D>
    requires Descend(node, path).Some?
    decreases |path|
  {
    if path == [] then []
    else if path[0] then Siblings(h, node.right, path[1..]) + [MerkleRoot(h, node.left)]
    else Siblings(h, node.left, path[1..]) + [MerkleRoot(h, node.right)]
  }

  function Reversed<D>(s: seq<D>): (r: seq<D>)
    ensures |r| == |s|
  {
    if s == [] then [] else Reversed(s[1..]) + [s[0]]
  }

  lemma {:induction false} ReversedAppend<D>(s: seq<D>, x: D)
    ensures Reversed(s + [x]) == [x] + Reversed(s)
  {
    if s == [] {
      assert [x][1..] == [];
    } else {
      assert (s + [x])[1..] == s[1..] + [x];
      ReversedAppend(s[1..], x);
    }
  }

  /** Walks down the tree collecting the opposite hands, then reverses the list. */
  method BuildProof<D>(h: Hasher<D>, anchor: Node<D>, leafIndex: nat) returns (proof: Option<seq<D>>)
    ensures proof == if Descend(anchor, Path(leafIndex)).Some? then Some(Siblings(h, anchor, Path(leafIndex))) else None
  {
    if leafIndex <= 1 {
      return Some([]);
    }
    var node, list, bits := anchor, [], Path(leafIndex);
    for i := 0 to |bits|
      invariant Descend(anchor, bits) == Descend(node, bits[i..])
      invariant Descend(anchor, bits).Some? ==>
        Siblings(h, anchor, bits) == Siblings(h, node, bits[i..]) + Reversed(list)
    {
      if node.Leaf? {
        return None;
      }
      var bit := bits[i];
      var hand := MerkleRoot(h, if bit then node.left else node.right);
      assert bits[i..][1..] == bits[i + 1..];
      ReversedAppend(list, hand);
      list := list + [hand];
      node := if bit then node.right else node.left;
    }
    assert bits[|bits|..] == [] && [] + Reversed(list) == Reversed(list);
    proof := Some(Reversed(list));
  }

  /** Folding a proof along the bits of a generalized index (`calculate_merkle_root` of the SSZ proof format). */
  method CalculateMerkleRoot<D>(h: Hasher<D>, leaf: D, proof: seq<D>, gindex: nat) returns (root: Option<D>)
    ensures root == if |proof| == |Path(gindex)| then Some(FoldBranch(h, leaf, proof, gindex)) else None
  {
    if |proof| != |Path(gindex)| {
      return None;
    }
    var value := leaf;
    for i := 0 to |proof|
      invariant FoldBranch(h, leaf, proof, gindex) == FoldBranch(h, value, proof[i..], Shift(gindex, i))
    {
      assert proof[i..][1..] == proof[i + 1..];
      value := FoldStep(h, value, proof[i], Shift(gindex, i));
    }
    root := Some(value);
  }

  /** Extending a path at its end: the proof grows at its front. */
  lemma {:induction false} SiblingsExtend<D>(h: Hasher<D>, node: Node<D>, p: seq<bool>, q: seq<bool>)
    ensures Descend(node, p + q) == if Descend(node, p).Some? then Descend(Descend(node, p).value, q) else None
    ensures Descend(node, p + q).Some? ==>
      Siblings(h, node, p + q) == Siblings(h, Descend(node, p).value, q) + Siblings(h, node, p)
    decreases |p|
  {
    if p == [] {
      assert p + q == q;
    } else if node.Pair? {
      assert (p + q)[1..] == p[1..] + q;
      SiblingsExtend(h, if p[0] then node.right else node.left, p[1..], q);
    }
  }

  /** For any tree and any generalized index inside it, the proof folds back to the root. */
  lemma {:induction false} ProofFoldsToRoot<D>(h: Hasher<D>, anchor: Node<D>, gindex: nat)
    requires gindex >= 1 && Descend(anchor, Path(gindex)).Some?
    ensures |Siblings(h, anchor, Path(gindex))| == |Path(gindex)|
    ensures FoldBranch(h, MerkleRoot(h, Descend(anchor, Path(gindex)).value), Siblings(h, anchor, Path(gindex)), gindex)
         == MerkleRoot(h, anchor)
  {
    if gindex > 1 {
      var p, bit := Path(gindex / 2), gindex % 2 == 1;
      SiblingsExtend(h, anchor, p, [bit]);
      ProofFoldsToRoot(h, anchor, gindex / 2);
      var parent := Descend(anchor, p).value;
      assert [bit][1..] == [];
      assert Siblings(h, parent, [bit]) == [MerkleRoot(h, if bit then parent.left else parent.right)];
      var proof := Siblings(h, anchor, Path(gindex));
      assert proof[1..] == Siblings(h, anchor, p);
    }
  }

  /** The two children of the root: index 2 is on the left, index 3 on the right. */
  lemma Children<D>(h: Hasher<D>, left: Node<D>, right: Node<D>)
    ensures Path(1) == [] && Path(2) == [false] && Path(3) == [true]
    ensures MerkleRoot(h, Pair(left, right)) == h.pair(MerkleRoot(h, left), MerkleRoot(h, right))
    ensures Descend(Pair(left, right), Path(2)) == Some(left) && Descend(Pair(left, right), Path(3)) == Some(right)
  {
    assert Path(1) == [];
  }

  // ----- Concatenation -----

  function BitFloor(n: nat): nat {
    if n == 0 then 0 else Pow2(BitLength(n) - 1)
  }

  lemma BitFloorHalf(b: nat)
    requires b > 1
    ensures BitFloor(b) == 2 * BitFloor(b / 2)
  {
  }

  lemma {:induction false} BitFloorBounds(n: nat)
    requires n > 0
    ensures BitFloor(n) <= n < 2 * BitFloor(n)
  {
    if n > 1 {
      BitFloorHalf(n);
      BitFloorBounds(n / 2);
    } else {
      assert BitLength(1) == 1 + BitLength(0);
    }
  }

  /** One step of the accumulation. */
  function Concat(a: nat, b: nat): nat {
    if b == 0 then 0 else
      BitFloorBounds(b);
      a * BitFloor(b) + (b - BitFloor(b))
  }

  function ConcatAll(first: nat, indices: seq<nat>): nat
    decreases |indices|
  {
    if indices == [] then first else ConcatAll(Concat(first, indices[0]), indices[1..])
  }

  method ConcatGeneralizedIndices(indices: seq<nat>) returns (o: nat)
    ensures o == ConcatAll(1, indices)
  {
    o := 1;
    for k := 0 to |indices|
      invariant ConcatAll(1, indices) == ConcatAll(o, indices[k..])
    {
      assert indices[k..][1..] == indices[k + 1..];
      if indices[k] > 0 { BitFloorBounds(indices[k]); }
      o := o * BitFloor(indices[k]) + (indices[k] - BitFloor(indices[k]));
    }
  }

  lemma ConcatHalf(a: nat, b: nat)
    requires b > 1
    ensures Concat(a, b) == 2 * Concat(a, b / 2) + b % 2
  {
    BitFloorBounds(b);
    BitFloorHalf(b);
    BitFloorBounds(b / 2);
    DoubleProduct(a, BitFloor(b / 2));
  }

  lemma DoubleProduct(a: nat, f: nat)
    ensures a * (2 * f) == 2 * (a * f)
  {
  }

  /** Concatenating indices concatenates paths: this is what the arithmetic is for. */
  lemma {:induction false} ConcatPath(a: nat, b: nat)
    requires a >= 1 && b >= 1
    ensures Concat(a, b) >= 1 && Path(Concat(a, b)) == Path(a) + Path(b)
  {
    if b == 1 {
      assert BitLength(1) == 1 + BitLength(0);
    } else {
      ConcatHalf(a, b);
      hide Concat, BitFloor;
      ConcatPath(a, b / 2);
      assert Path(Concat(a, b)) == Path(Concat(a, b / 2)) + [b % 2 == 1];
    }
  }

  function JoinedPaths(indices: seq<nat>): seq<bool> {
    if indices == [] then [] else Path(indices[0]) + JoinedPaths(indices[1..])
  }

  /** The concatenation of any list of indices leads where its members lead one after the other. */
  lemma {:induction false} ConcatAllPath(first: nat, indices: seq<nat>)
    requires first >= 1 && forall i :: 0 <= i < |indices| ==> indices[i] >= 1
    ensures ConcatAll(first, indices) >= 1
    ensures Path(ConcatAll(first, indices)) == Path(first) + JoinedPaths(indices)
    decreases |indices|
  {
    if indices != [] {
      ConcatPath(first, indices[0]);
      ConcatAllPath(Concat(first, indices[0]), indices[1..]);
    }
  }

  lemma PathInjective(a: nat, b: nat)
    requires a >= 1 && b >= 1 && Path(a) == Path(b)
    ensures a == b
  {
    IndexOfPath(a);
    IndexOfPath(b);
  }

  /** Concatenation is associative with identity 1. */
  lemma ConcatMonoid(a: nat, b: nat, c: nat)
    requires a >= 1 && b >= 1 && c >= 1
    ensures Concat(Concat(a, b), c) == Concat(a, Concat(b, c))
    ensures Concat(1, a) == a == Concat(a, 1)
  {
    ConcatPath(a, b);
    ConcatPath(b, c);
    ConcatPath(Concat(a, b), c);
    ConcatPath(a, Concat(b, c));
    assert Path(a) + Path(b) + Path(c) == Path(a) + (Path(b) + Path(c));
    PathInjective(Concat(Concat(a, b), c), Concat(a, Concat(b, c)));
    ConcatPath(1, a);
    ConcatPath(a, 1);
    PathInjective(Concat(1, a), a);
    PathInjective(Concat(a, 1), a);
  }

  /** The proof at a concatenation is the proof of b inside node a, followed by the proof of a. */
  lemma ProofOfConcat<D>(h: Hasher<D>, anchor: Node<D>, a: nat, b: nat)
    requires a >= 1 && b >= 1 && Descend(anchor, Path(Concat(a, b))).Some?
    ensures Descend(anchor, Path(a)).Some?
    ensures
      var inner := Descend(anchor, Path(a)).value;
      && Descend(inner, Path(b)) == Descend(anchor, Path(Concat(a, b)))
      && Siblings(h, anchor, Path(Concat(a, b))) == Siblings(h, inner, Path(b)) + Siblings(h, anchor, Path(a))
  {
    ConcatPath(a, b);
    SiblingsExtend(h, anchor, Path(a), Path(b));
  }
}

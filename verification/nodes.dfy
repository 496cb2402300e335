/** `merkle_tree::node` and the recursive specifications of the tree: how the
    builder shapes and hashes a tree, how many nodes it has, and the preorder
    sequence of its digests. Each node owns its children exclusively
    (`std::unique_ptr`), so a node is modelled as a value: a subtree can never
    be shared or form a cycle. */
module Nodes {
  import opened Digest

  datatype Option<+T> = None | Some(value: T)

  /** A node: up to two owned children and a hex digest. */
  datatype Node = Node(left: Option<Node>, right: Option<Node>, hash: string)

  /** `node()`: no children and an empty digest. */
  const Blank: Node := Node(None, None, "")

  /** `node(new_left, new_right)`: takes over both children; the digest stays
      empty until the builder assigns it. */
  function NewInternal(l: Node, r: Node): (n: Node)
    ensures n.left == Some(l) && n.right == Some(r) && n.hash == ""
  {
    Node(Some(l), Some(r), "")
  }

  predicate IsLeaf(n: Node) {
    n.left.None? && n.right.None?
  }

  /** Number of nodes in the subtree rooted at `n`, `n` included. */
  function NodeCount(n: Node): nat {
    1 + (if n.left.Some? then NodeCount(n.left.value) else 0)
      + (if n.right.Some? then NodeCount(n.right.value) else 0)
  }

  /** Digests in preorder: the node, then its left subtree, then its right one. */
  function Preorder(n: Node): (r: seq<string>)
    ensures |r| >= 1 && r[0] == n.hash
  {
    [n.hash]
      + (if n.left.Some? then Preorder(n.left.value) else [])
      + (if n.right.Some? then Preorder(n.right.value) else [])
  }

  /** Digests of the childless nodes, left to right. */
  function Leaves(n: Node): (r: seq<string>)
    ensures 1 <= |r| <= NodeCount(n)
  {
    if IsLeaf(n) then [n.hash]
    else
      (if n.left.Some? then Leaves(n.left.value) else [])
        + (if n.right.Some? then Leaves(n.right.value) else [])
  }

  /** Every node has either no child or two. */
  ghost predicate Full(n: Node) {
    if IsLeaf(n) then true
    else n.left.Some? && n.right.Some? && Full(n.left.value) && Full(n.right.value)
  }

  /** At every node with two children, the right subtree holds as many leaves
      as the left one or one more. */
  ghost predicate SplitAtHalf(n: Node) {
    && (n.left.Some? && n.right.Some? ==>
          var k, m := |Leaves(n.left.value)|, |Leaves(n.right.value)|;
          m == k || m == k + 1)
    && (n.left.Some? ==> SplitAtHalf(n.left.value))
    && (n.right.Some? ==> SplitAtHalf(n.right.value))
  }

  /** Every node with two children carries the text digest of its children's
      digests, concatenated as text. */
  ghost predicate WellHashed(h: Hasher, n: Node) {
    && (n.left.Some? && n.right.Some? ==>
          n.hash == h.text(n.left.value.hash + n.right.value.hash))
    && (n.left.Some? ==> WellHashed(h, n.left.value))
    && (n.right.Some? ==> WellHashed(h, n.right.value))
  }

  /** The leaf digests a list of blocks should produce, in input order. */
  function LeafDigests(h: Hasher, data: seq<Block>): (r: seq<string>)
  {
    seq(|data|, i requires 0 <= i < |data| => h.bytes(data[i]))
  }

  /** The same tree with every digest blanked: its shape alone. */
  function Erase(n: Node): Node {
    Node(if n.left.Some? then Some(Erase(n.left.value)) else None,
         if n.right.Some? then Some(Erase(n.right.value)) else None,
         "")
  }

  /** The tree `create_node` builds from `data` (MerkeTree.cpp:67-85): one
      block gives a leaf holding its byte digest; more blocks are split at
      `|data| / 2`, both halves built, and the node digests the text
      concatenation of the two child digests. */
  ghost function Build(h: Hasher, data: seq<Block>): Node
    requires |data| >= 1
    decreases |data|
  {
    if |data| <= 1 then Node(None, None, h.bytes(data[0]))
    else
      var half := |data| / 2;
      var l := Build(h, data[..half]);
      var r := Build(h, data[half..]);
      Node(Some(l), Some(r), h.text(l.hash + r.hash))
  }

  lemma LeafDigestsSplit(h: Hasher, data: seq<Block>, k: nat)
    requires k <= |data|
    ensures LeafDigests(h, data) == LeafDigests(h, data[..k]) + LeafDigests(h, data[k..])
  {
    assert LeafDigests(h, data)[..k] == LeafDigests(h, data[..k]);
    assert LeafDigests(h, data)[k..] == LeafDigests(h, data[k..]);
  }

  /** A built tree has the four properties that characterise it: no node with
      a single child, a split at the half at every level, internal digests
      computed from the children, and the block digests as leaves in input
      order. */
  lemma {:induction false} BuildIsMerkle(h: Hasher, data: seq<Block>)
    requires |data| >= 1
    ensures var t := Build(h, data);
      && Full(t) && SplitAtHalf(t) && WellHashed(h, t)
      && Leaves(t) == LeafDigests(h, data)
    decreases |data|
  {
    if |data| > 1 {
      var half := |data| / 2;
      BuildIsMerkle(h, data[..half]);
      BuildIsMerkle(h, data[half..]);
      LeafDigestsSplit(h, data, half);
    }
  }

  /** Conversely, any tree with those four properties is the one the builder
      makes from the blocks: the shape is fixed by the number of blocks, and
      the digests by the blocks in order. */
  lemma {:induction false} MerkleIsBuild(h: Hasher, t: Node, data: seq<Block>)
    requires |data| >= 1
    requires Full(t) && SplitAtHalf(t) && WellHashed(h, t)
    requires Leaves(t) == LeafDigests(h, data)
    ensures t == Build(h, data)
    decreases t
  {
    if IsLeaf(t) {
      assert [t.hash] == LeafDigests(h, data);
      assert t.hash == LeafDigests(h, data)[0] == h.bytes(data[0]);
    } else {
      var l, r := t.left.value, t.right.value;
      var k := |Leaves(l)|;
      assert |data| == k + |Leaves(r)|;
      assert |data| / 2 == k;
      LeafDigestsSplit(h, data, k);
      assert Leaves(l) == LeafDigests(h, data)[..k];
      assert Leaves(r) == LeafDigests(h, data)[k..];
      MerkleIsBuild(h, l, data[..k]);
      MerkleIsBuild(h, r, data[k..]);
    }
  }

  /** A tree with no single-child node has 2n-1 nodes for n leaves. */
  lemma {:induction false} FullCount(n: Node)
    requires Full(n)
    ensures NodeCount(n) == 2 * |Leaves(n)| - 1
  {
    if !IsLeaf(n) {
      FullCount(n.left.value);
      FullCount(n.right.value);
    }
  }

  /** Building from n blocks creates 2n-1 nodes, n of them leaves. */
  lemma {:induction false} BuildNodeCount(h: Hasher, data: seq<Block>)
    requires |data| >= 1
    ensures |Leaves(Build(h, data))| == |data|
    ensures NodeCount(Build(h, data)) == 2 * |data| - 1
  {
    BuildIsMerkle(h, data);
    FullCount(Build(h, data));
  }

  /** The preorder sequence holds one digest per node. */
  lemma {:induction false} PreorderLength(n: Node)
    ensures |Preorder(n)| == NodeCount(n)
  {
    if n.left.Some? { PreorderLength(n.left.value); }
    if n.right.Some? { PreorderLength(n.right.value); }
  }

  /** The shape of a built tree depends only on how many blocks there are,
      not on their contents nor on the hash function. */
  lemma {:induction false} BuildShape(h1: Hasher, d1: seq<Block>, h2: Hasher, d2: seq<Block>)
    requires |d1| == |d2| >= 1
    ensures Erase(Build(h1, d1)) == Erase(Build(h2, d2))
    decreases |d1|
  {
    if |d1| > 1 {
      var half := |d1| / 2;
      BuildShape(h1, d1[..half], h2, d2[..half]);
      BuildShape(h1, d1[half..], h2, d2[half..]);
    }
  }

  lemma BuildHashWidth(h: Hasher, data: seq<Block>)
    requires FixedWidth(h) && |data| >= 1
    ensures |Build(h, data).hash| == DigestLength
  {
  }

  lemma ConcatSplit(x1: string, y1: string, x2: string, y2: string)
    requires |x1| == |x2| && x1 + y1 == x2 + y2
    ensures x1 == x2 && y1 == y2
  {
    assert x1 == (x1 + y1)[..|x1|] && x2 == (x2 + y2)[..|x2|];
    assert y1 == (x1 + y1)[|x1|..] && y2 == (x2 + y2)[|x2|..];
  }

  lemma SplitDiffers(d1: seq<Block>, d2: seq<Block>, k: nat)
    requires |d1| == |d2| && k <= |d1| && d1 != d2
    ensures d1[..k] != d2[..k] || d1[k..] != d2[k..]
  {
    assert d1 == d1[..k] + d1[k..] && d2 == d2[..k] + d2[k..];
  }

  /** Below a root clash between two equally long lists, either the text
      digest collides or both pairs of child digests agree. */
  lemma ChildDigestsAgree(h: Hasher, d1: seq<Block>, d2: seq<Block>)
    requires FixedWidth(h)
    requires |d1| == |d2| >= 2
    ensures var k := |d1| / 2;
      var s1 := Build(h, d1[..k]).hash + Build(h, d1[k..]).hash;
      var s2 := Build(h, d2[..k]).hash + Build(h, d2[k..]).hash;
      s1 == s2 ==>
        && Build(h, d1[..k]).hash == Build(h, d2[..k]).hash
        && Build(h, d1[k..]).hash == Build(h, d2[k..]).hash
  {
    var k := |d1| / 2;
    BuildHashWidth(h, d1[..k]);
    BuildHashWidth(h, d2[..k]);
    var x1, y1 := Build(h, d1[..k]).hash, Build(h, d1[k..]).hash;
    var x2, y2 := Build(h, d2[..k]).hash, Build(h, d2[k..]).hash;
    if x1 + y1 == x2 + y2 {
      ConcatSplit(x1, y1, x2, y2);
    }
  }

  /** Two different block lists of the same length with the same root digest
      expose a collision of the hash function: among inputs with the same
      number of blocks, the root digest binds the ordered input as long as
      the hash has no collisions. */
  lemma {:induction false} RootClashYieldsCollision(h: Hasher, d1: seq<Block>, d2: seq<Block>)
    returns (c: Collision)
    requires FixedWidth(h)
    requires |d1| == |d2| >= 1 && d1 != d2
    requires Build(h, d1).hash == Build(h, d2).hash
    ensures IsCollision(h, c)
    decreases |d1|
  {
    if |d1| == 1 {
      assert d1[1..] == d2[1..];
      SplitDiffers(d1, d2, 1);
      c := BytesCollision(d1[0], d2[0]);
    } else {
      var k := |d1| / 2;
      var s1 := Build(h, d1[..k]).hash + Build(h, d1[k..]).hash;
      var s2 := Build(h, d2[..k]).hash + Build(h, d2[k..]).hash;
      if s1 != s2 {
        c := TextCollision(s1, s2);
      } else {
        ChildDigestsAgree(h, d1, d2);
        SplitDiffers(d1, d2, k);
        if d1[..k] != d2[..k] {
          c := RootClashYieldsCollision(h, d1[..k], d2[..k]);
        } else {
          c := RootClashYieldsCollision(h, d1[k..], d2[k..]);
        }
      }
    }
  }

  /** Inputs of different lengths can share a root without any collision:
      leaves and internal nodes are digested alike, with no prefix telling
      them apart, so the one block made of the text `H(a) + H(b)` has the
      root of the two blocks `a` and `b`. */
  lemma CrossLengthRootClash(h: Hasher, a: Block, b: Block)
    requires TextIsBytes(h)
    ensures var forged := Encode(h.bytes(a) + h.bytes(b));
      && [forged] != [a, b]
      && Build(h, [forged]).hash == Build(h, [a, b]).hash
  {
    var d: seq<Block> := [a, b];
    assert d[..1] == [a] && d[1..] == [b];
  }

  /** A single block gives one leaf holding its byte digest. */
  lemma SingleBlock(h: Hasher, b: Block)
    ensures Build(h, [b]) == Node(None, None, h.bytes(b))
    ensures Preorder(Build(h, [b])) == [h.bytes(b)]
  {
  }

  /** Blocks "a" and "b": three nodes, the root digesting the two leaf
      digests as text, listed root first in preorder. */
  lemma TwoBlocks(h: Hasher)
    ensures var a, b := h.bytes([0x61]), h.bytes([0x62]);
      var t := Build(h, [[0x61], [0x62]]);
      && t == Node(Some(Node(None, None, a)), Some(Node(None, None, b)), h.text(a + b))
      && NodeCount(t) == 3
      && Preorder(t) == [h.text(a + b), a, b]
  {
    var d: seq<Block> := [[0x61], [0x62]];
    assert d[..1] == [[0x61]] && d[1..] == [[0x62]];
  }
}

/** The `merkle_tree` class: its two fields, its constructors and assignments,
    the recursive builder that counts the nodes it creates, the preorder walk
    into a caller's vector, and the comparison of root digests. */
module MerkleTrees {
  import opened Digest
  import opened Nodes

  /** What `traverse_trees_and_copy(old_root, new_root)` needs of its two
      pointers: it writes through `old_root` and reads through `new_root`, so
      both must be non-null. */
  predicate CopyHelperDefined(dest: Option<Node>, src: Option<Node>) {
    dest.Some? && src.Some?
  }

  lemma AppendAssoc(a: seq<string>, b: seq<string>, c: seq<string>, d: seq<string>)
    ensures a + b + c + d == a + (b + c + d)
  {
  }

  class MerkleTree {
    /** Root node; `None` for an empty tree. */
    var root: Option<Node>
    /** Nodes counted by every `create_node` run since construction or the last
        `clear`: it is not reset when a new tree is built over an old one. */
    var size: nat

    /** What every operation keeps: the root has the shape and digests the
        builder gives (no single-child node, split at the half, internal
        digests computed with the shared hasher) and `size` never counts
        fewer nodes than the root holds. */
    ghost predicate Valid()
      reads this
    {
      root.Some? ==>
        && Full(root.value) && SplitAtHalf(root.value) && WellHashed(Sha256, root.value)
        && NodeCount(root.value) <= size
    }

    /** `merkle_tree()`: an empty tree with a zero count. */
    constructor ()
      ensures root == None && size == 0
      ensures Valid()
    {
      root := None;
      size := 0;
    }

    /** `merkle_tree(merkle_tree&&)`: takes over the other tree's root and copies
        its count; the other tree loses its root but keeps its count. */
    constructor Move(other: MerkleTree)
      modifies other
      ensures root == old(other.root) && size == old(other.size)
      ensures other.root == None && other.size == old(other.size)
      ensures old(other.Valid()) ==> Valid() && other.Valid()
    {
      root := other.root;
      size := other.size;
      new;
      other.root := None;
    }

    /** `merkle_tree(const merkle_tree&)` as evidently intended: a deep copy of
        the other tree's nodes, made by `traverse_trees_and_copy` into a fresh
        blank root, and a copy of its count. */
    constructor Copy(other: MerkleTree)
      ensures root == other.root && size == other.size
      ensures other.root.Some? ==> Equals(other) && other.Equals(this)
      ensures other.Valid() ==> Valid()
    {
      size := other.size;
      if other.root.Some? {
        var copy := TraverseTreesAndCopy(Some(Blank), other.root);
        root := Some(copy);
      } else {
        root := None;
      }
    }

    /** `operator=(const merkle_tree&)` as evidently intended: this tree becomes
        a deep copy of the other tree, count included; the other is unchanged. */
    method CopyAssign(other: MerkleTree)
      modifies this
      ensures root == old(other.root) && size == old(other.size)
      ensures other.root == old(other.root) && other.size == old(other.size)
      ensures old(other.Valid()) ==> Valid()
    {
      if other != this {
        root := None;
        if other.root.Some? {
          var copy := TraverseTreesAndCopy(Some(Blank), other.root);
          root := Some(copy);
        }
        size := other.size;
      }
    }

    /** `operator=(merkle_tree&&)`: with a different tree, takes over its root
        and copies its count, leaving it without a root but with its count;
        assigning a tree to itself changes nothing. */
    method MoveAssign(other: MerkleTree)
      modifies this, other
      ensures other != this ==>
        && root == old(other.root) && size == old(other.size)
        && other.root == None && other.size == old(other.size)
      ensures other == this ==> root == old(root) && size == old(size)
      ensures old(other.Valid()) ==> Valid() && other.Valid()
    {
      if other != this {
        root := other.root;
        other.root := None;
        size := other.size;
      }
    }

    /** `traverse_trees_and_copy(old_root, new_root)`, given two non-null
        pointers: `copy` is the new value of the destination node. It gets
        the digest of `src`, and for each child `src` has, a blank child
        copied recursively from it; where `src` has no child, the destination
        keeps its own. Onto a childless node, the result is `src` itself,
        node for node. */
    static method TraverseTreesAndCopy(dest: Option<Node>, src: Option<Node>) returns (copy: Node)
      requires CopyHelperDefined(dest, src)
      ensures copy.hash == src.value.hash
      ensures copy.left == if src.value.left.Some? then src.value.left else dest.value.left
      ensures copy.right == if src.value.right.Some? then src.value.right else dest.value.right
      ensures IsLeaf(dest.value) ==> copy == src.value
      decreases src
    {
      copy := dest.value.(hash := src.value.hash);
      if src.value.left.Some? {
        var l := TraverseTreesAndCopy(Some(Blank), src.value.left);
        copy := copy.(left := Some(l));
      }
      if src.value.right.Some? {
        var r := TraverseTreesAndCopy(Some(Blank), src.value.right);
        copy := copy.(right := Some(r));
      }
    }

    /** `traverse_nodes(hashes, node)`: appends the subtree's digests in
        preorder to the caller's vector, keeping what it held. */
    static method TraverseNodes(hashes: seq<string>, n: Node) returns (result: seq<string>)
      ensures result == hashes + Preorder(n)
      decreases n
    {
      ghost var l := if n.left.Some? then Preorder(n.left.value) else [];
      ghost var r := if n.right.Some? then Preorder(n.right.value) else [];
      result := hashes + [n.hash];
      if n.left.Some? {
        result := TraverseNodes(result, n.left.value);
      }
      ghost var mid := result;
      assert mid == hashes + [n.hash] + l;
      if n.right.Some? {
        result := TraverseNodes(result, n.right.value);
      }
      assert result == mid + r;
      AppendAssoc(hashes, [n.hash], l, r);
    }

    /** `get_all_hashes_preorder(hashes)`: appends one digest per node, root
        first. The tree must have a root: the walk dereferences it. */
    method GetAllHashesPreorder(hashes: seq<string>) returns (result: seq<string>)
      requires root.Some?
      ensures result == hashes + Preorder(root.value)
      ensures |result| == |hashes| + NodeCount(root.value)
      ensures result[|hashes|] == GetRootHash()
      ensures Valid() ==> |result| - |hashes| <= GetSize()
    {
      result := TraverseNodes(hashes, root.value);
      PreorderLength(root.value);
    }

    /** `clear()`: drops the root and zeroes the count. */
    method Clear()
      modifies this
      ensures root == None && size == 0
      ensures Valid()
    {
      root := None;
      size := 0;
    }

    /** `create_node(data)`: builds the tree of `data` and adds one to `size`
        for every node it creates. `data` must not be empty: its first block
        is read unconditionally. */
    method CreateNode(data: seq<Block>) returns (n: Node)
      requires |data| >= 1
      modifies this`size
      ensures n == Build(Sha256, data)
      ensures size == old(size) + NodeCount(n) == old(size) + 2 * |data| - 1
      decreases |data|
    {
      if |data| <= 1 {
        n := Blank.(hash := Sha256.bytes(data[0]));
      } else {
        var half := |data| / 2;
        var l := CreateNode(data[..half]);
        var r := CreateNode(data[half..]);
        n := NewInternal(l, r);
        n := n.(hash := Sha256.text(n.left.value.hash + n.right.value.hash));
      }
      size := size + 1;
      BuildNodeCount(Sha256, data);
    }

    /** `create_merkle_tree(data)`: installs the tree built from `data` as the
        root. The count grows by the 2n-1 nodes created and is not reset, so it
        equals the node count only when the tree started with a zero count. */
    method CreateMerkleTree(data: seq<Block>)
      requires |data| >= 1
      modifies this
      ensures root == Some(Build(Sha256, data))
      ensures size == old(size) + 2 * |data| - 1
      ensures old(size) == 0 ==> size == NodeCount(root.value) == |Preorder(root.value)|
      ensures Valid()
    {
      var n := CreateNode(data);
      root := Some(n);
      BuildIsMerkle(Sha256, data);
      PreorderLength(n);
    }

    /** `create_merkle_tree(data)` as evidently intended: the count is that of
        the new tree, whatever it was before. */
    method CreateMerkleTreeFresh(data: seq<Block>)
      requires |data| >= 1
      modifies this
      ensures root == Some(Build(Sha256, data))
      ensures size == NodeCount(root.value) == |Preorder(root.value)| == 2 * |data| - 1
      ensures Valid()
    {
      size := 0;
      CreateMerkleTree(data);
    }

    /** `get_root()`: the root node, absent for an empty tree. */
    function GetRoot(): (r: Option<Node>)
      reads this
      ensures r.Some? <==> root.Some?
      ensures r.Some? ==> r.value == root.value
    {
      root
    }

    /** `get_root_hash()`: the digest listed first in preorder, or the empty
        string for an empty tree. */
    function GetRootHash(): (r: string)
      reads this
      ensures root.Some? ==> r == Preorder(root.value)[0]
      ensures root.None? ==> r == ""
    {
      if root.Some? then root.value.hash else ""
    }

    /** `get_size()`: the stored count. */
    function GetSize(): (r: nat)
      reads this
      ensures r == size
    {
      size
    }

    /** `operator==`: both trees have a root and their root digests agree;
        false as soon as either tree is empty. */
    function Equals(other: MerkleTree): (r: bool)
      reads this, other
      ensures r <==> root.Some? && other.root.Some? && GetRootHash() == other.GetRootHash()
    {
      if root.Some? && other.root.Some? then root.value.hash == other.root.value.hash else false
    }

    /** `operator!=`: both trees have a root and their root digests differ;
        false as soon as either tree is empty. */
    function NotEquals(other: MerkleTree): (r: bool)
      reads this, other
      ensures r <==> root.Some? && other.root.Some? && GetRootHash() != other.GetRootHash()
    {
      if root.Some? && other.root.Some? then root.value.hash != other.root.value.hash else false
    }
  }

  /** When either tree is empty, the trees are neither equal nor unequal:
      two empty trees included. */
  lemma EmptyTreesIncomparable(a: MerkleTree, b: MerkleTree)
    requires a.root.None? || b.root.None?
    ensures !a.Equals(b) && !a.NotEquals(b)
  {
  }

  /** Between two trees with roots, `!=` is the negation of `==`, and both are
      symmetric. */
  lemma NotEqualsNegatesEquals(a: MerkleTree, b: MerkleTree)
    requires a.root.Some? && b.root.Some?
    ensures a.NotEquals(b) == !a.Equals(b)
    ensures a.Equals(b) == b.Equals(a) && a.NotEquals(b) == b.NotEquals(a)
  {
  }

  /** The copy constructor (MerkeTree.cpp:11-13) and the copy assignment
      (MerkeTree.cpp:20-21) call `traverse_trees_and_copy(root.get(),
      object.root.get())` right after `root.release()` has emptied `root`: the
      destination is absent, so the call is undefined whatever the other tree
      holds. When the other tree is empty, the source pointer is null too, so
      even a fresh destination would not make the call defined. */
  lemma CopyAsWrittenIsUndefined(other: MerkleTree)
    ensures !CopyHelperDefined(None, other.root)
    ensures other.root.None? ==> forall dest :: !CopyHelperDefined(dest, other.root)
    ensures other.root.Some? ==> CopyHelperDefined(Some(Blank), other.root)
  {
  }

  /** Building twice over the same one-block list, as written: the count
      reads 2 while the tree holds 1 node. */
  method RebuildOvercounts() returns (size: nat, nodes: nat)
    ensures size == 2 && nodes == 1
  {
    var t := new MerkleTree();
    t.CreateMerkleTree([[0x61]]);
    t.CreateMerkleTree([[0x61]]);
    size := t.GetSize();
    nodes := NodeCount(t.GetRoot().value);
  }
}

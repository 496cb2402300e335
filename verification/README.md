# Merkle tree over byte blocks — a Dafny model

This project models `merkle_tree`, a C++ class that builds a binary SHA-256 hash
tree over an ordered list of data blocks. The model covers:

- construction: the blocks are split at `n / 2`, both halves are built
  recursively, a leaf digests its block's bytes, and an internal node digests the
  text concatenation of its two children's hex digests;
- the node counter `size`;
- the preorder walk of the digests;
- the copy, move, clear and assignment operations;
- the comparison of two trees by their root digests.

Layout:

- `digest.dfy` (module `Digest`): the hash function's two call shapes. The shared
  static SHA-256 object is the uninterpreted constant `Sha256`. Collisions are
  defined here for the binding lemma.
- `nodes.dfy` (module `Nodes`): the `node` struct as an inductive datatype. Each
  child is owned through `unique_ptr`, so no node is shared and a value models it
  exactly. The constant `Blank` is the default-constructed `node()` (MerkleTree.h:19):
  no children and an empty digest. It is the fresh node the builder and the copy
  helper start from. The module holds the specification functions `Build`, `Preorder`,
  `NodeCount` and `Leaves`, and the lemmas about the built tree's shape, size,
  digests and preorder.
- `merkle_tree.dfy` (module `MerkleTrees`): the class with its fields `root` and
  `size`. The methods change these fields in place and are proved against the
  functions of `Nodes`. The inline accessors and `==`/`!=` are functions that read
  the object, so they change nothing. The predicate `Valid` is what every
  operation keeps: the root has the builder's shape and digests, and `size` never
  counts fewer nodes than the root holds. The predicate `CopyHelperDefined` is
  what `traverse_trees_and_copy` needs: two non-null pointers.

The model follows the code in these places:

- `size` accumulates across builds.
- `==` and `!=` are both false whenever either tree is empty, including when both
  trees are empty.
- Empty input to `create_merkle_tree` is a precondition, because the first block
  is dereferenced unconditionally.
- `get_all_hashes_preorder` on an empty tree is a precondition, because the walk
  dereferences the root.
- Copy construction and copy assignment are modelled as evidently intended. What
  the code actually does is recorded under "## Findings".

## Model

| member | source | states |
|---|---|---|
| `Nodes.NewInternal` | MerkleTree.h:20-21 | the two-child node constructor installs exactly the given children and leaves the digest empty |
| `Nodes.Preorder` | MerkeTree.cpp:50-56 | the preorder digest sequence is never empty and starts with the node's own digest |
| `Nodes.Leaves` | MerkeTree.cpp:70-80 | every subtree has at least one leaf and no more leaves than nodes |
| `Nodes.BuildIsMerkle` | MerkeTree.cpp:67-85 | a built tree has 0 or 2 children at every node, splits at the half at every level (right side equal or one leaf larger), digests every internal node from its children's digests concatenated as text, and has the block digests as its leaves in input order |
| `Nodes.MerkleIsBuild` | MerkeTree.cpp:67-85 | conversely, any tree with those four properties is exactly the tree built from the blocks, so they characterise the builder |
| `Nodes.FullCount` | MerkeTree.cpp:70-80 | a tree whose nodes all have 0 or 2 children has 2n-1 nodes for n leaves |
| `Nodes.BuildNodeCount` | MerkeTree.cpp:67-85 | building from n blocks yields n leaves and 2n-1 nodes |
| `Nodes.PreorderLength` | MerkeTree.cpp:50-56 | the preorder sequence holds one digest per node |
| `Nodes.BuildShape` | MerkeTree.cpp:76-78 | the shape of a built tree depends only on the number of blocks, not on their contents or on the hash function |
| `Nodes.RootClashYieldsCollision` | MerkeTree.cpp:73-79 | two different block lists with the same number of blocks and the same root digest yield a concrete collision of the fixed-width hash; among inputs of the same length, the root binds the ordered input |
| `Nodes.CrossLengthRootClash` | MerkeTree.cpp:73-79 | when the text shape digests the string's bytes, as in the library, the one block made of the text `H(a) + H(b)` has the same root as the two blocks `a`, `b`: inputs of different lengths can share a root with no collision |
| `Nodes.SingleBlock` | MerkeTree.cpp:70-74 | one block gives one childless leaf holding the block's digest; its preorder is that digest alone |
| `Nodes.TwoBlocks` | MerkeTree.cpp:67-85 | blocks `0x61`, `0x62` give 3 nodes, root digest `H(H(a) + H(b))` and preorder `[root, H(a), H(b)]` |
| `MerkleTrees.MerkleTree.constructor` | MerkeTree.cpp:9 | a default-constructed tree has no root and a zero count |
| `MerkleTrees.MerkleTree.Move` | MerkeTree.cpp:16 | move construction takes over the other tree's root and count; the other tree loses its root but keeps its count |
| `MerkleTrees.MerkleTree.Copy` | MerkeTree.cpp:11-14 | the corrected copy constructor gives an identical tree with the same count, which compares equal to the original when non-empty; the original is unchanged |
| `MerkleTrees.MerkleTree.CopyAssign` | MerkeTree.cpp:18-24 | the corrected copy assignment makes this tree identical to the other one, count included, and leaves the other one unchanged |
| `MerkleTrees.MerkleTree.MoveAssign` | MerkeTree.cpp:26-32 | move assignment from another tree takes over its root and count and leaves it without a root but with its count; self-assignment changes nothing |
| `MerkleTrees.MerkleTree.TraverseTreesAndCopy` | MerkeTree.cpp:34-48 | given two non-null pointers, the destination gets the source's digest and a structurally identical copy of each child the source has, and keeps its own child where the source has none; copied onto a childless node the result equals the source at every position |
| `MerkleTrees.MerkleTree.TraverseNodes` | MerkeTree.cpp:50-56 | appends the subtree's digests in preorder to the end of the caller's vector and keeps its earlier entries |
| `MerkleTrees.MerkleTree.GetAllHashesPreorder` | MerkeTree.cpp:58-60 | appends exactly one digest per node in preorder, the first one appended being the root digest, and no more than the stored count on a tree that keeps the invariant; the tree is not modified |
| `MerkleTrees.MerkleTree.Clear` | MerkeTree.cpp:62-65 | after `clear` there is no root and the count is zero |
| `MerkleTrees.MerkleTree.CreateNode` | MerkeTree.cpp:67-85 | returns the tree built from the blocks and raises the count once per node created, by 2n-1 for n blocks |
| `MerkleTrees.MerkleTree.CreateMerkleTree` | MerkeTree.cpp:87-89 | installs the built tree as root; the count grows by 2n-1 and equals the node count and the preorder length only when it started at zero |
| `MerkleTrees.MerkleTree.CreateMerkleTreeFresh` | MerkeTree.cpp:87-89 | the corrected build leaves a count of exactly 2n-1, equal to the node count and to the preorder length |
| `MerkleTrees.MerkleTree.GetRoot` | MerkleTree.h:65 | the root is present exactly when the tree has one, and it is that node |
| `MerkleTrees.MerkleTree.GetRootHash` | MerkleTree.h:68 | the root digest is the first entry of the preorder sequence, or the empty string for an empty tree |
| `MerkleTrees.MerkleTree.GetSize` | MerkleTree.h:71 | returns the stored count |
| `MerkleTrees.MerkleTree.Equals` | MerkleTree.h:75-77 | `==` holds exactly when both trees have a root and their root digests are equal |
| `MerkleTrees.MerkleTree.NotEquals` | MerkleTree.h:81-83 | `!=` holds exactly when both trees have a root and their root digests differ |
| `MerkleTrees.EmptyTreesIncomparable` | MerkleTree.h:75-83 | if either tree is empty, the trees are neither `==` nor `!=`, even when both are empty |
| `MerkleTrees.NotEqualsNegatesEquals` | MerkleTree.h:75-83 | between two trees with roots, `!=` is the negation of `==`, and both are symmetric |
| `MerkleTrees.CopyAsWrittenIsUndefined` | MerkeTree.cpp:11-21 | the copy constructor and the copy assignment call the copy helper with their just-released, absent root as destination, which breaks its precondition whatever the other tree holds; when the other tree is empty its null source breaks it too, while a blank destination and a non-empty source meet it |
| `MerkleTrees.RebuildOvercounts` | MerkeTree.cpp:82-89 | building twice over one block, as written, leaves a count of 2 for a tree of 1 node |

## Findings

| source | as written | input that shows it | evidently intended | confidence | as-written member | corrected member |
|---|---|---|---|---|---|---|
| MerkeTree.cpp:11-14 | the copy constructor releases `root` and then passes the now-null `root.get()` as the destination that `traverse_trees_and_copy` writes through | copying any tree, even a default-constructed one | allocate a root and deep-copy the other tree into it | high; not executed | `MerkleTrees.CopyAsWrittenIsUndefined` | `MerkleTrees.MerkleTree.Copy` |
| MerkeTree.cpp:18-24 | copy assignment passes the same null destination, and it never copies `size`; the missing count copy has no separate as-written member, because the call never returns normally | assigning any tree to a different one | deep-copy the other tree's nodes and copy its count | high; not executed | `MerkleTrees.CopyAsWrittenIsUndefined` | `MerkleTrees.MerkleTree.CopyAssign` |
| MerkeTree.cpp:82-89 | `create_merkle_tree` does not reset `size`, so a rebuilt tree reports the nodes of all earlier builds too | `create_merkle_tree([[0x61]])` twice gives `size == 2` for a 1-node tree | `size` counts the nodes of the current tree, as `clear` and the field's comment suggest | medium; not executed | `MerkleTrees.RebuildOvercounts` | `MerkleTrees.MerkleTree.CreateMerkleTreeFresh` |

## Left out

- SHA-256 itself (hash-library, FIPS 180-4) is not part of this model. The static
  instance is an uninterpreted pair of functions, `Digest.Sha256`. The pure
  lemmas hold for every such pair. `RootClashYieldsCollision` assumes only that
  digests have a fixed width of 64 hex characters.
- Blocks are byte sequences (`seq<bv8>`) instead of `(void*, size_t)` pairs.
  Reading raw memory is not modelled.
- `size` is an unbounded `nat`. The `size_t` wrap-around would need more than
  2^64 nodes, so it is not modelled.
- The two hash call shapes are independent functions in `Digest.Hasher`. The
  model does not state that in the library they are one SHA-256 over bytes,
  except in `CrossLengthRootClash`, which assumes it. As that lemma shows, inputs
  of different lengths can then share a root without any collision, since leaves
  and internal nodes carry no distinguishing prefix. The binding lemma
  `RootClashYieldsCollision` covers only inputs of the same length.
- Releasing ownership is modelled as the owner becoming empty. The memory leaks
  of `release()` in `clear` and in the copy operations are not modelled. Neither
  is the destruction of an old root that `create_merkle_tree` replaces.
- The static `hash_function` shared between threads and the unused
  `<future>`/`<iostream>` includes are left out. The model is single-threaded.
- Pointer identity: only the `this != &object` guards of the assignments are
  modelled, as object identity.
- The caller's `std::vector<std::string>&` becomes an input sequence plus the
  returned, extended sequence.
- The header declares `create_merkle_tree` with an rvalue-reference parameter
  and the .cpp defines it by value. The model takes a sequence of blocks.
- The copy constructor and copy assignment as written are not modelled as
  operations: they hand a null destination to the copy helper (see
  "## Findings"). The model has their corrected versions.
- TraverseTreesAndCopy: nodes are values, so the
  contract states that the copy is structurally identical to the source. It does
  not state that the copied nodes are freshly allocated and unaliased.
- Copy: for the same reason, "independent of the
  original" is not stated beyond the original being unchanged.

/** The SHA-256 object of hash-library, seen only through the two call shapes
    the tree uses. Its internals are not part of this model: a `Hasher` is any
    pair of deterministic functions, and `Sha256` is the one instance the tree
    shares (the static `merkle_tree::hash_function`), left uninterpreted. */
module Digest {

  /** One byte of a data block. */
  type Byte = bv8

  /** One data block: the bytes behind a `(void*, size_t)` pair. */
  type Block = seq<Byte>

  /** Length of a SHA-256 digest written as lowercase hexadecimal text. */
  const DigestLength: nat := 64

  /** `hash_function(ptr, len)` digests raw bytes (used for leaves);
      `hash_function(str)` digests text (used for internal nodes). */
  datatype Hasher = Hasher(bytes: Block -> string, text: string -> string)

  /** The process-wide instance every tree hashes with. */
  const Sha256: Hasher

  /** Every digest the hasher produces has the same length, as hex SHA-256 does. */
  ghost predicate FixedWidth(h: Hasher) {
    && (forall b :: |h.bytes(b)| == DigestLength)
    && (forall s :: |h.text(s)| == DigestLength)
  }

  /** The bytes of a `std::string`: one byte per character. */
  function Encode(s: string): (b: Block)
    ensures |b| == |s|
  {
    seq(|s|, i requires 0 <= i < |s| => ((s[i] as int) % 256) as Byte)
  }

  /** In hash-library both call shapes are one SHA-256 over bytes: the text
      shape digests the string's own bytes. */
  ghost predicate TextIsBytes(h: Hasher) {
    forall s :: h.text(s) == h.bytes(Encode(s))
  }

  /** Two distinct inputs of one call shape that digest alike. */
  datatype Collision =
    | BytesCollision(b1: Block, b2: Block)
    | TextCollision(s1: string, s2: string)

  ghost predicate IsCollision(h: Hasher, c: Collision) {
    match c
    case BytesCollision(b1, b2) => b1 != b2 && h.bytes(b1) == h.bytes(b2)
    case TextCollision(s1, s2) => s1 != s2 && h.text(s1) == h.text(s2)
  }
}

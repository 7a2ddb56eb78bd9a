/** Program-graph node identity: the position data every node carries, the
    lazily cached structural hash code that is never 0, and block-entry nodes,
    which are pinned to a block label and are equal exactly when their labels are. */
module Nodes {
  import opened JavaInt

  /** A block label. Labels do not override equality, so two labels are equal
      when they are the same label; `identityHash` is its `hashCode()`. */
  datatype BlockLabel = BlockLabel(id: nat, identityHash: int32)

  /** The hash code a node reports for a structural hash: the structural hash
      itself, except that 0 (the "not yet computed" mark) becomes `1 << 31`. */
  function EffectiveHash(structuralHash: int32): (r: int32)
    ensures r != 0
    ensures structuralHash != 0 ==> r == structuralHash
    ensures structuralHash == 0 ==> r == MIN_INT
  {
    if structuralHash == 0 then MIN_INT else structuralHash
  }

  /** The state common to all nodes. `structuralHash` is what the node's `calcHashCode()`
      returns, a function of its immutable structure; `cache` is the mutable
      `hashCode` field, 0 until first computed. Call sites and elements are
      node and element ids. */
  class AbstractNode {
    const callSite: nat
    const element: nat
    const line: int32
    const bci: int32
    const structuralHash: int32
    var cache: int32

    /** The cache is empty or holds the effective hash. */
    predicate Valid()
      reads this
    {
      cache == 0 || cache == EffectiveHash(structuralHash)
    }

    /** The getters return exactly what was passed in; no hash is cached yet. */
    constructor (callSite: nat, element: nat, line: int32, bci: int32, structuralHash: int32)
      ensures this.callSite == callSite && this.element == element
      ensures this.line == line && this.bci == bci && this.structuralHash == structuralHash
      ensures cache == 0 && Valid()
    {
      this.callSite := callSite;
      this.element := element;
      this.line := line;
      this.bci := bci;
      this.structuralHash := structuralHash;
      cache := 0;
    }

    /** `hashCode()`: computes and caches the effective hash on first use and
      returns the cached value afterwards, without touching the cache. */
    method HashCode() returns (h: int32)
      requires Valid()
      modifies this
      ensures Valid()
      ensures h == EffectiveHash(structuralHash) && h != 0
      ensures cache == h
      ensures old(cache) != 0 ==> h == old(cache) && cache == old(cache)
    {
      h := cache;
      if h == 0 {
        h := structuralHash;
        if h == 0 {
          h := MIN_INT;
        }
        cache := h;
      }
    }
  }

  /** A block-entry node, built on the common node state (line 0, bytecode
      index -1) with its label's hash as the structural hash. */
  class BlockEntry {
    const node: AbstractNode
    const blockLabel: BlockLabel

    predicate Valid()
      reads node
    {
      node.Valid() && node.structuralHash == blockLabel.identityHash
    }

    /** `BlockEntry(callSite, element, blockLabel)`: line 0, bytecode index -1,
      pinned to the label. */
    constructor (callSite: nat, element: nat, pinnedLabel: BlockLabel)
      ensures fresh(node) && Valid()
      ensures blockLabel == pinnedLabel
      ensures node.callSite == callSite && node.element == element
      ensures node.line == 0 && node.bci == -1
    {
      node := new AbstractNode(callSite, element, 0, -1, pinnedLabel.identityHash);
      blockLabel := pinnedLabel;
    }

    /** `getPinnedBlockLabel()`. */
    function PinnedBlockLabel(): (l: BlockLabel)
      ensures l == blockLabel
    {
      blockLabel
    }

    /** `equals(Object)`: only a block entry with an equal label. */
    function Equals(other: AnyNode): (r: bool)
      ensures r <==> other.Entry? && other.entry.blockLabel == blockLabel
    {
      other.Entry? && (this == other.entry || blockLabel == other.entry.blockLabel)
    }

    /** `hashCode()`: the node's cached hash, which is the effective hash of the label's hash. */
    method HashCode() returns (h: int32)
      requires Valid()
      modifies node
      ensures Valid()
      ensures h == EffectiveHash(blockLabel.identityHash)
      ensures node.cache == h
    {
      h := node.HashCode();
    }
  }

  /** The value an `equals(Object)` call receives: a block entry or some other node. */
  datatype AnyNode = Entry(entry: BlockEntry) | OtherNode(id: nat)

  /** Block-entry equality is an equivalence. */
  lemma EqualityIsEquivalence(a: BlockEntry, b: BlockEntry, c: BlockEntry)
    ensures a.Equals(Entry(a))
    ensures a.Equals(Entry(b)) ==> b.Equals(Entry(a))
    ensures a.Equals(Entry(b)) && b.Equals(Entry(c)) ==> a.Equals(Entry(c))
  {
  }

  /** A block entry never equals a node of another kind. */
  lemma NeverEqualsOtherNode(a: BlockEntry, id: nat)
    ensures !a.Equals(OtherNode(id))
  {
  }

  /** Equal block entries report equal hash codes. */
  lemma EqualEntriesEqualHashes(a: BlockEntry, b: BlockEntry)
    requires a.Equals(Entry(b))
    ensures EffectiveHash(a.blockLabel.identityHash) == EffectiveHash(b.blockLabel.identityHash)
  {
  }

  /** Replacing 0 by `Integer.MIN_VALUE` adds exactly one collision: two
      structural hashes report the same hash code iff they are equal or are
      0 and `Integer.MIN_VALUE`. */
  lemma EffectiveHashCollisions(x: int32, y: int32)
    ensures EffectiveHash(x) == EffectiveHash(y) <==>
              x == y || (x == 0 && y == MIN_INT) || (x == MIN_INT && y == 0)
  {
  }
}

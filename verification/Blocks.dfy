/** Hash-linked blocks of a native chain.

A block hash commits to the whole ancestry of its block, so a value of type `Block` stands for a
block hash: two hashes are equal exactly when the blocks and all their ancestors are. A node's
current chain is given by its tip. */
module Blocks {
  datatype Block = Genesis(salt: nat) | Child(parent: Block, salt: nat)

  function Height(b: Block): nat {
    match b
    case Genesis(_) => 0
    case Child(p, _) => 1 + Height(p)
  }

  /** The block that a node whose tip is `tip` reports at height `h`. */
  function AncestorAt(tip: Block, h: nat): (a: Block)
    requires h <= Height(tip)
    ensures Height(a) == h
  {
    if Height(tip) == h then tip else AncestorAt(tip.parent, h)
  }

  predicate OnChain(b: Block, tip: Block) {
    Height(b) <= Height(tip) && AncestorAt(tip, Height(b)) == b
  }

  lemma {:induction false} AncestorOfAncestor(tip: Block, h: nat, k: nat)
    requires k <= h <= Height(tip)
    ensures AncestorAt(AncestorAt(tip, h), k) == AncestorAt(tip, k)
  {
    if h < Height(tip) {
      AncestorOfAncestor(tip.parent, h, k);
    }
  }

  lemma OnChainTransitive(a: Block, b: Block, c: Block)
    requires OnChain(a, b) && OnChain(b, c)
    ensures OnChain(a, c)
  {
    AncestorOfAncestor(c, Height(b), Height(a));
  }

  /** Two blocks of one chain are ordered by height. */
  lemma OnChainOrdered(a: Block, b: Block, c: Block)
    requires OnChain(a, c) && OnChain(b, c) && Height(a) <= Height(b)
    ensures OnChain(a, b)
  {
    AncestorOfAncestor(c, Height(b), Height(a));
  }

  /** Height of the last block that two chains share, or -1 when they share none. */
  function SharedHeight(a: Block, b: Block): (h: int)
    ensures -1 <= h <= Height(a) && h <= Height(b)
    decreases Height(a) + Height(b)
  {
    if a == b then Height(a)
    else if Height(a) > Height(b) then SharedHeight(a.parent, b)
    else if Height(b) > Height(a) then SharedHeight(a, b.parent)
    else if a.Genesis? then -1
    else SharedHeight(a.parent, b.parent)
  }

  /** The fork point splits a chain exactly: a block of one chain is on the other one when and only
      when it is not above the fork point. */
  lemma {:induction false} ForkPointSplits(x: Block, a: Block, b: Block)
    requires OnChain(x, a)
    ensures OnChain(x, b) <==> Height(x) <= SharedHeight(a, b)
    decreases Height(a) + Height(b)
  {
    if a == b {
    } else if Height(a) > Height(b) {
      if x != a { ForkPointSplits(x, a.parent, b); }
    } else if Height(b) > Height(a) {
      ForkPointSplits(x, a, b.parent);
    } else if a.Genesis? {
    } else if x != a {
      ForkPointSplits(x, a.parent, b.parent);
    }
  }
}

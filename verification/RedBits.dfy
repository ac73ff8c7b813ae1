/**
 The two bits in the parent word (include/sys/tree.h:329-358).  Nodes lie at multiples
 of four, so the word holds a parent address and two booleans independently, which is
 how the other modules see them.
 */
module RedBits {
  const RED_L: bv64 := 1
  const RED_R: bv64 := 2
  const RED_MASK: bv64 := 3

  predicate Aligned(p: bv64) { p & RED_MASK == 0 }

  /** The word for a parent and two bits. */
  function Packed(p: bv64, rl: bool, rr: bool): bv64 { Bits(rl, rr) | p }

  function Bits(rl: bool, rr: bool): bv64 {
    if rl then if rr then RED_L | RED_R else RED_L else if rr then RED_R else 0
  }

  function Parent(word: bv64): bv64 { word & (0xFFFF_FFFF_FFFF_FFFF ^ RED_MASK) }

  function RedLeft(word: bv64): bool { word & RED_L != 0 }

  function RedRight(word: bv64): bool { word & RED_R != 0 }

  function FlipLeft(word: bv64): bv64 { word ^ RED_L }

  function FlipRight(word: bv64): bv64 { word ^ RED_R }

  function SetParent(word: bv64, src: bv64): bv64 { (word & RED_MASK) | src }

  lemma Unpacked(p: bv64, rl: bool, rr: bool)
    requires Aligned(p)
    ensures var w := Packed(p, rl, rr); (Parent(w), RedLeft(w), RedRight(w)) == (p, rl, rr)
  {
  }

  /** Every word is the packing of its three parts. */
  lemma Repacked(w: bv64)
    ensures Aligned(Parent(w)) && Packed(Parent(w), RedLeft(w), RedRight(w)) == w
  {
  }

  lemma LowBits(p: bv64, b: bv64)
    requires p & RED_MASK == 0 && b & RED_MASK == b
    ensures (b | p) & RED_MASK == b
  {
  }

  /** Each update changes its own part only. */
  lemma ParentSet(p: bv64, rl: bool, rr: bool, src: bv64)
    requires Aligned(p)
    ensures SetParent(Packed(p, rl, rr), src) == Packed(src, rl, rr)
  {
    LowBits(p, Bits(rl, rr));
  }

  lemma Flipped(p: bv64, rl: bool, rr: bool)
    requires Aligned(p)
    ensures FlipLeft(Packed(p, rl, rr)) == Packed(p, !rl, rr)
    ensures FlipRight(Packed(p, rl, rr)) == Packed(p, rl, !rr)
  {
  }
}

/**
  Visibility masks (BitMasks.hpp). An intersect mask is the source's
  `unsigned int`, a 32-bit word, so it is modelled as `bv32`.
 */
module Masks {

  type IntersectMask = bv32

  /** Bit 0: the object is seen by primary and reflection rays. */
  const VisibleMask: IntersectMask := 0x1
  /** Bit 1: the object casts shadows. */
  const ShadowMask: IntersectMask := 0x2
  /** `~0b0` converted to an unsigned word: every bit set. */
  const AllMask: IntersectMask := !0
  /** The mask an object gets when none is supplied. */
  const DefaultMask: IntersectMask := VisibleMask | ShadowMask

  /** The visible and the shadow category share no bit. */
  lemma VisibleShadowDisjoint()
    ensures VisibleMask & ShadowMask == 0
  {
  }

  /** The default mask takes part in both visible and shadow queries. */
  lemma DefaultCoversBoth()
    ensures DefaultMask & VisibleMask != 0 && DefaultMask & ShadowMask != 0
    ensures DefaultMask == VisibleMask | ShadowMask
  {
  }

  /** Every bit is set in the all-mask, so AND with it changes nothing. */
  lemma AllIsNeutral(m: IntersectMask)
    ensures m & AllMask == m
    ensures m != 0 ==> m & AllMask != 0
  {
  }
}

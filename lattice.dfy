/**
 * The variance lattice of variance.rs (lines 44-46 and 821-840) and the
 * "variance transform" of Figure 1 of Altidor et al., "Taming the
 * Wildcards", PLDI'11 (lines 796-819).
 *
 *        Bivariant  (top)
 *   Contravariant   Covariant
 *        Invariant  (bottom)
 */
module Lattice {

  datatype Variance = Covariant | Invariant | Contravariant | Bivariant

  /** The lattice order: Invariant is below everything, everything is below Bivariant. */
  predicate Le(a: Variance, b: Variance)
  {
    a == b || a == Invariant || b == Bivariant
  }

  /** Distance from the bottom of the lattice; used as the solver's termination measure. */
  function Height(v: Variance): (h: nat)
    ensures h <= 2
  {
    match v
    case Invariant => 0
    case Covariant => 1
    case Contravariant => 1
    case Bivariant => 2
  }

  lemma LePartialOrder(a: Variance, b: Variance, c: Variance)
    ensures Le(a, a)
    ensures Le(a, b) && Le(b, a) ==> a == b
    ensures Le(a, b) && Le(b, c) ==> Le(a, c)
    ensures Le(Invariant, a) && Le(a, Bivariant)
    ensures !Le(Covariant, Contravariant) && !Le(Contravariant, Covariant)
  {
  }

  /** Moving strictly down the lattice strictly lowers the height. */
  lemma HeightStrict(a: Variance, b: Variance)
    requires Le(a, b) && a != b
    ensures Height(a) < Height(b)
  {
  }

  /** `Xform::xform`: the variance of a use site with variance v2 nested inside one with variance v1. */
  function Xform(v1: Variance, v2: Variance): Variance
  {
    match (v1, v2)
    case (Covariant, Covariant) => Covariant
    case (Covariant, Contravariant) => Contravariant
    case (Covariant, Invariant) => Invariant
    case (Covariant, Bivariant) => Bivariant
    case (Contravariant, Covariant) => Contravariant
    case (Contravariant, Contravariant) => Covariant
    case (Contravariant, Invariant) => Invariant
    case (Contravariant, Bivariant) => Bivariant
    case (Invariant, _) => Invariant
    case (Bivariant, _) => Bivariant
  }

  lemma XformCovariantIdentity(v: Variance)
    ensures Xform(Covariant, v) == v
    ensures Xform(v, Covariant) == v
  {
  }

  lemma XformContraContra()
    ensures Xform(Contravariant, Contravariant) == Covariant
  {
  }

  lemma XformLeftAbsorb(v: Variance)
    ensures Xform(Invariant, v) == Invariant
    ensures Xform(Bivariant, v) == Bivariant
  {
  }

  lemma XformAssociative(a: Variance, b: Variance, c: Variance)
    ensures Xform(Xform(a, b), c) == Xform(a, Xform(b, c))
  {
  }

  /** The transform is monotone in both arguments, which makes the solver a monotone framework. */
  lemma XformMonotone(a: Variance, a': Variance, b: Variance, b': Variance)
    requires Le(a, a') && Le(b, b')
    ensures Le(Xform(a, b), Xform(a', b'))
  {
  }

  /** `glb`: the greatest lower bound of two variances. */
  function Glb(v1: Variance, v2: Variance): (r: Variance)
    ensures Le(r, v1) && Le(r, v2)
    ensures forall w :: Le(w, v1) && Le(w, v2) ==> Le(w, r)
  {
    match (v1, v2)
    case (Invariant, _) => Invariant
    case (_, Invariant) => Invariant
    case (Covariant, Contravariant) => Invariant
    case (Contravariant, Covariant) => Invariant
    case (Covariant, Covariant) => Covariant
    case (Contravariant, Contravariant) => Contravariant
    case (x, Bivariant) => x
    case (Bivariant, x) => x
  }

  lemma GlbCommutative(a: Variance, b: Variance)
    ensures Glb(a, b) == Glb(b, a)
  {
  }

  lemma GlbAssociative(a: Variance, b: Variance, c: Variance)
    ensures Glb(Glb(a, b), c) == Glb(a, Glb(b, c))
  {
  }

  lemma GlbIdempotent(a: Variance)
    ensures Glb(a, a) == a
  {
  }

  lemma GlbIdentityAbsorb(a: Variance)
    ensures Glb(Bivariant, a) == a && Glb(a, Bivariant) == a
    ensures Glb(Invariant, a) == Invariant && Glb(a, Invariant) == Invariant
  {
  }

  lemma GlbCoContra()
    ensures Glb(Covariant, Contravariant) == Invariant
  {
  }

  /** A constraint `glb(v, s) == s` holds exactly when s is below v. */
  lemma GlbFixedIff(v: Variance, s: Variance)
    ensures Glb(v, s) == s <==> Le(s, v)
  {
  }

  /** The transform distributes over glb from the left. */
  lemma XformGlbLeft(v: Variance, a: Variance, b: Variance)
    ensures Xform(v, Glb(a, b)) == Glb(Xform(v, a), Xform(v, b))
  {
  }
}

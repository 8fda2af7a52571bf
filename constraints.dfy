/**
 * Constraints and the term-building helpers of `ConstraintContext`
 * (variance.rs lines 273-278 and 427-466), and what it means for a
 * solution vector to satisfy the constraints (lines 22-24, 57-58).
 */
module Constraints {
  import opened Lattice
  import opened Terms

  /** `V(inferred) <= variance`: the inferred must be at most as permissive as the term. */
  datatype Constraint = Constraint(inferred: nat, variance: Term)

  /**
   * `constant_term`: the term standing for a constant variance. The source
   * hands out one of four shared arena terms; as values they are equal to
   * a fresh ConstantTerm.
   */
  function ConstantOf(v: Variance): (r: Term)
    ensures Mentions(r) == {}
    ensures forall s: seq<Variance> :: InRange(r, |s|) && Evaluate(r, s) == v
  {
    ConstantTerm(v)
  }

  /**
   * `ConstraintContext::xform`: builds the term for v1 x v2, dropping a
   * covariant right operand and folding two constants.
   */
  function Xform(v1: Term, v2: Term): (r: Term)
    ensures v2 == ConstantTerm(Covariant) ==> r == v1
    ensures Mentions(r) <= Mentions(v1) + Mentions(v2)
    ensures forall n: nat {:trigger InRange(r, n)} :: InRange(v1, n) && InRange(v2, n) ==> InRange(r, n)
    ensures forall s: seq<Variance> {:trigger Evaluate(r, s)} ::
              InRange(v1, |s|) && InRange(v2, |s|) ==>
                InRange(r, |s|) && Evaluate(r, s) == Lattice.Xform(Evaluate(v1, s), Evaluate(v2, s))
  {
    match (v1, v2)
    case (_, ConstantTerm(Covariant)) => v1
    case (ConstantTerm(c1), ConstantTerm(c2)) => ConstantOf(Lattice.Xform(c1, c2))
    case _ => TransformTerm(v1, v2)
  }

  /** `contravariant`: the term for a contravariant use site nested in one of the given variance. */
  function ContravariantUse(variance: Term): (r: Term)
    ensures Mentions(r) == Mentions(variance)
    ensures forall s: seq<Variance> {:trigger Evaluate(r, s)} ::
              InRange(variance, |s|) ==>
                InRange(r, |s|) && Evaluate(r, s) == Lattice.Xform(Evaluate(variance, s), Contravariant)
  {
    Xform(variance, ConstantOf(Contravariant))
  }

  /** `invariant`: the term for an invariant use site (a mutable location) nested in one of the given variance. */
  function InvariantUse(variance: Term): (r: Term)
    ensures Mentions(r) == Mentions(variance)
    ensures forall s: seq<Variance> {:trigger Evaluate(r, s)} ::
              InRange(variance, |s|) ==>
                InRange(r, |s|) && Evaluate(r, s) == Lattice.Xform(Evaluate(variance, s), Invariant)
  {
    Xform(variance, ConstantOf(Invariant))
  }

  /** Every constraint names an existing inferred and mentions only existing inferreds. */
  predicate WellFormed(constraints: seq<Constraint>, n: nat)
  {
    forall k :: 0 <= k < |constraints| ==>
      constraints[k].inferred < n && InRange(constraints[k].variance, n)
  }

  /** The solver's test for one constraint: glb of the term's value and the inferred's value is that value. */
  predicate Satisfied(c: Constraint, solutions: seq<Variance>)
  {
    c.inferred < |solutions| && InRange(c.variance, |solutions|) &&
    Glb(Evaluate(c.variance, solutions), solutions[c.inferred]) == solutions[c.inferred]
  }

  predicate IsSolution(constraints: seq<Constraint>, solutions: seq<Variance>)
  {
    forall k :: 0 <= k < |constraints| ==> Satisfied(constraints[k], solutions)
  }

  /** Satisfaction read in lattice terms: the inferred is below the term's value. */
  lemma SatisfiedIff(c: Constraint, solutions: seq<Variance>)
    requires c.inferred < |solutions| && InRange(c.variance, |solutions|)
    ensures Satisfied(c, solutions) <==> Le(solutions[c.inferred], Evaluate(c.variance, solutions))
  {
  }

  /** There is always a solution: declaring every inferred invariant satisfies every constraint. */
  lemma AllInvariantSolves(constraints: seq<Constraint>, n: nat)
    requires WellFormed(constraints, n)
    ensures IsSolution(constraints, seq(n, _ => Invariant))
  {
  }
}

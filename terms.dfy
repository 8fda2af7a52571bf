/**
 * Symbolic variance terms (`VarianceTerm`, variance.rs lines 106-110) and
 * their evaluation against a solution vector (`SolveContext::evaluate`,
 * lines 769-785). Terms are arena-allocated trees in the source; here they
 * are plain values.
 */
module Terms {
  import opened Lattice

  datatype Term =
    | ConstantTerm(v: Variance)
    | TransformTerm(t1: Term, t2: Term)
    | InferredTerm(index: nat)

  /** Every inferred index the term mentions is below n. */
  predicate InRange(t: Term, n: nat)
  {
    match t
    case ConstantTerm(_) => true
    case TransformTerm(t1, t2) => InRange(t1, n) && InRange(t2, n)
    case InferredTerm(i) => i < n
  }

  /** The inferred indices the term mentions. */
  function Mentions(t: Term): set<nat>
  {
    match t
    case ConstantTerm(_) => {}
    case TransformTerm(t1, t2) => Mentions(t1) + Mentions(t2)
    case InferredTerm(i) => {i}
  }

  /** The index bound and the mention set agree: a term is in range exactly when all it mentions is below n. */
  lemma {:induction false} InRangeMentions(t: Term, n: nat)
    ensures InRange(t, n) <==> forall i :: i in Mentions(t) ==> i < n
  {
    match t
    case ConstantTerm(_) =>
    case InferredTerm(j) =>
      assert j in Mentions(t);
      assert forall i :: i in Mentions(t) ==> i == j;
    case TransformTerm(t1, t2) =>
      InRangeMentions(t1, n);
      InRangeMentions(t2, n);
      assert Mentions(t) == Mentions(t1) + Mentions(t2);
      assert (forall i :: i in Mentions(t) ==> i < n) <==>
             (forall i :: i in Mentions(t1) ==> i < n) && (forall i :: i in Mentions(t2) ==> i < n);
  }

  /** `evaluate`: the variance the term denotes when inferred i has the variance solutions[i]. */
  function Evaluate(t: Term, solutions: seq<Variance>): Variance
    requires InRange(t, |solutions|)
  {
    match t
    case ConstantTerm(v) => v
    case TransformTerm(t1, t2) => Xform(Evaluate(t1, solutions), Evaluate(t2, solutions))
    case InferredTerm(i) => solutions[i]
  }

  /** s is below s' entry by entry. */
  predicate PointwiseLe(s: seq<Variance>, s': seq<Variance>)
  {
    |s| == |s'| && forall i :: 0 <= i < |s| ==> Le(s[i], s'[i])
  }

  /** Lowering the solution vector can only lower the value of a term. */
  lemma {:induction false} EvaluateMonotone(t: Term, s: seq<Variance>, s': seq<Variance>)
    requires PointwiseLe(s, s') && InRange(t, |s|)
    ensures Le(Evaluate(t, s), Evaluate(t, s'))
  {
    match t
    case ConstantTerm(_) =>
    case InferredTerm(_) =>
    case TransformTerm(t1, t2) =>
      EvaluateMonotone(t1, s, s');
      EvaluateMonotone(t2, s, s');
      XformMonotone(Evaluate(t1, s), Evaluate(t1, s'), Evaluate(t2, s), Evaluate(t2, s'));
  }
}

/**
 * The worked example of variance.rs (lines 26-50): three enums, Option
 * storing an A, OptionalFn storing a closure that takes a B, and
 * OptionalMap storing a closure from C to C. It gives the constraints
 * V(A) <= +, V(B) <= -, V(C) <= + and V(C) <= -, whose solution is
 * A = +, B = -, C = o.
 */
module DocExample {
  import opened Wrappers
  import opened Lattice
  import opened Terms
  import opened Constraints
  import opened Inferreds
  import opened Grouping
  import opened Solver

  /** The enums have node ids 1, 2 and 3; their parameters A, B and C are inferreds 0, 1 and 2. */
  const DocConstraints := [Constraint(0, ConstantTerm(Covariant)), Constraint(1, ConstantTerm(Contravariant)),
                           Constraint(2, ConstantTerm(Covariant)), Constraint(2, ConstantTerm(Contravariant))]

  const DocInfos := [InferredInfo(1, TypeParam, 0, 10, InferredTerm(0)),
                     InferredInfo(2, TypeParam, 0, 20, InferredTerm(1)),
                     InferredInfo(3, TypeParam, 0, 30, InferredTerm(2))]

  /** A = +, B = -, C = o is a solution, and every solution is below it. */
  lemma DocSolutionGreatest(sol: seq<Variance>)
    requires |sol| == 3 && IsSolution(DocConstraints, sol)
    ensures IsSolution(DocConstraints, [Covariant, Contravariant, Invariant])
    ensures PointwiseLe(sol, [Covariant, Contravariant, Invariant])
  {
    assert Satisfied(DocConstraints[0], sol) && Satisfied(DocConstraints[1], sol);
    assert Satisfied(DocConstraints[2], sol) && Satisfied(DocConstraints[3], sol);
  }

  /** The solver's contract, started from all Bivariant, pins the example's result down. */
  lemma DocSolved(sol: seq<Variance>)
    requires |sol| == 3 && IsSolution(DocConstraints, sol)
    requires forall s :: IsSolution(DocConstraints, s) && PointwiseLe(s, seq(3, _ => Bivariant)) ==>
               PointwiseLe(s, sol)
    ensures sol == [Covariant, Contravariant, Invariant]
  {
    var expected := [Covariant, Contravariant, Invariant];
    DocSolutionGreatest(sol);
    assert PointwiseLe(expected, seq(3, _ => Bivariant));
    assert PointwiseLe(expected, sol);
  }

  /** The three items each get their single type parameter's variance. */
  lemma DocWrite()
    ensures Grouped(DocInfos, [Covariant, Contravariant, Invariant], 0)
         == Ok([ItemEntry(1, ItemVariances(None, [Covariant], [])),
                ItemEntry(2, ItemVariances(None, [Contravariant], [])),
                ItemEntry(3, ItemVariances(None, [Invariant], []))])
  {
    var sols := [Covariant, Contravariant, Invariant];
    var e1 := ItemEntry(1, ItemVariances(None, [Covariant], []));
    var e2 := ItemEntry(2, ItemVariances(None, [Contravariant], []));
    var e3 := ItemEntry(3, ItemVariances(None, [Invariant], []));
    assert Grouped(DocInfos, sols, 3) == Ok([]);
    assert forall v: Variance :: [] + [v] == [v];
    assert RunEnd(DocInfos, 3, 2) == 3;
    assert Collect(DocInfos, sols, 2, 2) == Ok(NoVariances);
    assert Collect(DocInfos, sols, 2, 3) == Ok(e3.variances);
    assert [e3] + [] == [e3];
    assert Grouped(DocInfos, sols, 2) == Ok([e3]);
    assert RunEnd(DocInfos, 2, 1) == 2;
    assert Collect(DocInfos, sols, 1, 1) == Ok(NoVariances);
    assert Collect(DocInfos, sols, 1, 2) == Ok(e2.variances);
    assert [e2] + [e3] == [e2, e3];
    assert Grouped(DocInfos, sols, 1) == Ok([e2, e3]);
    assert RunEnd(DocInfos, 1, 0) == 1;
    assert Collect(DocInfos, sols, 0, 0) == Ok(NoVariances);
    assert Collect(DocInfos, sols, 0, 1) == Ok(e1.variances);
    assert [e1] + [e2, e3] == [e1, e2, e3];
  }

  /** The whole pass on the example: number the parameters, solve, write. */
  method RunDocExample() returns (r: Result<seq<ItemEntry>, WriteError>)
    ensures r == Ok([ItemEntry(1, ItemVariances(None, [Covariant], [])),
                     ItemEntry(2, ItemVariances(None, [Contravariant], [])),
                     ItemEntry(3, ItemVariances(None, [Invariant], []))])
  {
    var terms := new TermsContext();
    terms.AddInferred(1, TypeParam, 0, 10);
    terms.AddInferred(2, TypeParam, 0, 20);
    terms.AddInferred(3, TypeParam, 0, 30);
    assert terms.inferredInfos == DocInfos;

    // A field is a covariant use site; a closure argument flips it to contravariant.
    var covariant := ConstantOf(Covariant);
    var contravariant := ContravariantUse(covariant);
    var constraints := [Constraint(0, covariant), Constraint(1, contravariant),
                        Constraint(2, covariant), Constraint(2, contravariant)];
    assert constraints == DocConstraints;

    var solveCx := new SolveContext(terms.inferredInfos, constraints);
    solveCx.Solve();
    DocSolved(solveCx.solutions[..]);
    DocWrite();
    r := solveCx.Write();
  }
}

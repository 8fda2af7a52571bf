# Variance inference for type and region parameters

A Dafny model of the variance inference of the Rust compiler
(`src/librustc/middle/typeck/variance.rs`). The pass follows Section 4 of
Altidor et al., "Taming the Wildcards: Combining Definition- and Use-Site
Variance" (PLDI'11). Every type, region and self parameter of an enum,
struct or trait is an *inferred*. Each use of a parameter yields a
constraint `V(X) <= Term`, where a term is a constant variance, an
inferred, or the variance transform `Term x Term`. A fixed-point solver
starts every inferred at Bivariant and lowers it until every constraint
holds. The results are then written out per item.

Modules, one per part of the pass:

- `Lattice` (`lattice.dfy`): the four variances, the lattice order `Le`
  (Invariant at the bottom, Covariant and Contravariant in the middle,
  Bivariant at the top), `Xform` (Figure 1 of the paper) and `Glb`.
- `Terms` (`terms.dfy`): `VarianceTerm` as the datatype `Term`, and
  `evaluate` against a solution vector.
- `Inferreds` (`inferreds.dfy`): `TermsContext` as a class whose map and
  vector the methods update in place. `Valid()` says that the map and the
  vector describe the same consecutive numbering.
- `Constraints` (`constraints.dfy`): `Constraint`, `constant_term`, the
  simplifying `xform`, and what it means to satisfy a constraint.
- `Grouping` (`grouping.dfy`): a functional description of what `write`
  computes (`Grouped`), with lemmas that relate it to an independent
  per-kind filter (`Pick`).
- `Solver` (`solver.dfy`): `SolveContext` as a class over the solution
  array, with `Solve` (the `while changed` loop) and `Write` (the
  grouping loop).
- `DocExample` (`example.dfy`): the worked example of the file's doc
  comment, worked through the whole pass by `RunDocExample`, whose result
  is proved.
- `Wrappers` (`wrappers.dfy`): `Option` and `Result`.

Notes on reading the source:

- The doc comment (lines 48-50) calls A=+, B=-, C=o the "minimal"
  solution and all-invariant the "maximal" one. Line 659-660 calls the
  solver's result the "maximal solution". Both are right, for opposite
  orders. With Bivariant at the top, as drawn at lines 44-46, the model
  proves that `Solve` returns the *greatest* solution.
- The comment at lines 684-688 bounds the work by 2C iterations, where C
  counts constraints. The model proves the bound its reason gives: each
  of the N entries changes at most twice. So at most 2N + 1 sweeps run,
  the last one changing nothing.

## Model

| member | source | states |
|---|---|---|
| `Lattice.LePartialOrder` | src/librustc/middle/typeck/variance.rs:44-46 | The lattice order is reflexive, antisymmetric and transitive. Invariant is the bottom and Bivariant the top. Covariant and Contravariant are incomparable. |
| `Lattice.HeightStrict` | src/librustc/middle/typeck/variance.rs:684-688 | Moving strictly down the lattice lowers the height (at most 2). So an entry can drop at most twice. |
| `Lattice.XformCovariantIdentity` | src/librustc/middle/typeck/variance.rs:796-819 | Covariant is a left and a right identity of the transform `Lattice.Xform` (the table of Figure 1, case for case). |
| `Lattice.XformContraContra` | src/librustc/middle/typeck/variance.rs:808 | Contravariant x Contravariant = Covariant. |
| `Lattice.XformLeftAbsorb` | src/librustc/middle/typeck/variance.rs:812-816 | Invariant and Bivariant absorb from the left. |
| `Lattice.XformAssociative` | src/librustc/middle/typeck/variance.rs:796-819 | The transform is associative, so nesting use sites composes. |
| `Lattice.XformMonotone` | src/librustc/middle/typeck/variance.rs:796-819 | The transform is monotone in both arguments w.r.t. the lattice order. |
| `Lattice.XformGlbLeft` | src/librustc/middle/typeck/variance.rs:796-840 | The transform distributes over glb from the left. |
| `Lattice.Glb` | src/librustc/middle/typeck/variance.rs:821-840 | The result is below both arguments, and every common lower bound is below it: it is the greatest lower bound. |
| `Lattice.GlbCommutative` | src/librustc/middle/typeck/variance.rs:828-839 | glb is commutative. |
| `Lattice.GlbAssociative` | src/librustc/middle/typeck/variance.rs:828-839 | glb is associative. |
| `Lattice.GlbIdempotent` | src/librustc/middle/typeck/variance.rs:834-836 | glb(v, v) = v. |
| `Lattice.GlbIdentityAbsorb` | src/librustc/middle/typeck/variance.rs:829-838 | Bivariant is the identity of glb and Invariant absorbs, on either side. |
| `Lattice.GlbCoContra` | src/librustc/middle/typeck/variance.rs:831 | glb(+, -) = o. |
| `Lattice.GlbFixedIff` | src/librustc/middle/typeck/variance.rs:697-698 | The solver's "no change" test glb(v, s) == s holds exactly when s <= v. |
| `Terms.InRangeMentions` | src/librustc/middle/typeck/variance.rs:106-110 | A term is within the bound n exactly when every inferred index it mentions is below n, so the index bound of `Terms.InRange` and the mention set `Terms.Mentions` say the same thing. |
| `Terms.EvaluateMonotone` | src/librustc/middle/typeck/variance.rs:769-785 | Lowering the solution vector entry by entry can only lower the value `Terms.Evaluate` gives a term. |
| `Constraints.ConstantOf` | src/librustc/middle/typeck/variance.rs:439-446 | The constant term for v mentions no inferred (`Terms.Mentions` is empty) and evaluates to v under every solution vector. |
| `Constraints.Xform` | src/librustc/middle/typeck/variance.rs:448-466 | A covariant right operand returns the left term unchanged. In every branch the built term mentions only inferreds its operands mention (`Terms.Mentions`), and evaluates to the transform of the operands' values. |
| `Constraints.ContravariantUse` | src/librustc/middle/typeck/variance.rs:427-431 | The term mentions exactly the inferreds the given term mentions, and evaluates to the given term's value transformed by Contravariant. |
| `Constraints.InvariantUse` | src/librustc/middle/typeck/variance.rs:433-437 | The term mentions exactly the inferreds the given term mentions, and evaluates to the given term's value transformed by Invariant. |
| `Constraints.SatisfiedIff` | src/librustc/middle/typeck/variance.rs:57-58 | The solver's test for a constraint `V(X) <= Term` holds exactly when the inferred's value is below the term's value. |
| `Constraints.AllInvariantSolves` | src/librustc/middle/typeck/variance.rs:22-24 | A solution always exists: all-Invariant satisfies every well-formed constraint set. |
| `Inferreds.TermsContext.constructor` | src/librustc/middle/typeck/variance.rs:151-156 | The context starts with an empty map and an empty vector, which is a valid numbering. |
| `Inferreds.TermsContext.AddInferred` | src/librustc/middle/typeck/variance.rs:164-185 | The new inferred gets index old length, with term InferredTerm(that index). The vector grows by exactly that entry and the map gains exactly that key. The numbering stays consistent. Requires the parameter not yet numbered, as the source asserts. |
| `Inferreds.TermsContext.NumInferred` | src/librustc/middle/typeck/variance.rs:187-189 | The number of inferreds equals the number of numbered parameters, and bounds every index in the map. |
| `Grouping.RunEnd` | src/librustc/middle/typeck/variance.rs:732-733 | The inner loop stops at the end of the maximal run of the current item: every inferred before it belongs to the item, and the one at it (if any) does not. |
| `Grouping.CollectPick` | src/librustc/middle/typeck/variance.rs:732-748 | Collecting one run fails exactly when it has two self parameters. Otherwise the self, type and region lists are exactly that kind's solutions in index order. |
| `Grouping.CollectErrExtends` | src/librustc/middle/typeck/variance.rs:736-738 | Once the self-parameter assertion fails within a run, the run's collection fails with that error. |
| `Grouping.GroupedParams` | src/librustc/middle/typeck/variance.rs:725-748 | On success, the parameters of each kind, read entry after entry, are exactly that kind's solutions in index order. |
| `Grouping.GroupedConsumesAll` | src/librustc/middle/typeck/variance.rs:725-748 | On success, the entries hold exactly one parameter per inferred. |
| `Grouping.GroupedFirstRun` | src/librustc/middle/typeck/variance.rs:725-748 | On success the first entry is the first maximal run: it belongs to the first inferred's item and holds exactly that run's self, type and region parameters, each in index order. The other entries are the grouping from the run's end. |
| `Grouping.GroupedRuns` | src/librustc/middle/typeck/variance.rs:725-733 | On success there are entries exactly when inferreds remain. The first belongs to the first inferred's item, and neighbouring entries belong to different items. |
| `Grouping.GroupedNonEmpty` | src/librustc/middle/typeck/variance.rs:725-748 | No entry is empty. |
| `Grouping.GroupedIdsFrom` | src/librustc/middle/typeck/variance.rs:725-726 | On success every entry's item is the item of some inferred from the start on. |
| `Grouping.GroupedDistinct` | src/librustc/middle/typeck/variance.rs:715-718 | When each item's inferreds are consecutive, as the loop relies on, no item is written twice. So the insertion at line 763 always adds a new key. |
| `Grouping.GroupedErrIff` | src/librustc/middle/typeck/variance.rs:736-738 | Writing fails exactly when two self parameters lie in one item's run. |
| `Solver.PotentialUpdate` | src/librustc/middle/typeck/variance.rs:684-688 | Replacing one entry changes the termination measure by the change of that entry's height. |
| `Solver.Step` | src/librustc/middle/typeck/variance.rs:694-709 | An assignment that changes `solutions[i]` moves it strictly down and leaves every other entry unchanged. It lowers the measure, and keeps every solution below the start below the vector. |
| `Solver.SolveContext.constructor` | src/librustc/middle/typeck/variance.rs:670-677 | Every inferred starts at Bivariant. |
| `Solver.SolveContext.Solve` | src/librustc/middle/typeck/variance.rs:683-712 | At exit every constraint holds. The vector has only moved down, and it is the greatest solution below the start (so from all-Bivariant, the greatest solution). The bound of at most two changes per entry comes from `Solver.Step` and the loop's measure, which the body proves with ghost counters. |
| `Solver.SolveContext.Write` | src/librustc/middle/typeck/variance.rs:714-748 | Returns the entries `write` stores, in order, or the failure of its self-parameter assertion. This is `Grouping.Grouped`, whose meaning the `Grouping` lemmas state. |
| `DocExample.DocSolutionGreatest` | src/librustc/middle/typeck/variance.rs:32-48 | A=+, B=-, C=o solves the example's four constraints, and every solution is below it. |
| `DocExample.DocSolved` | src/librustc/middle/typeck/variance.rs:48-50 | Any vector that meets `Solve`'s contract from the all-Bivariant start is exactly A=+, B=-, C=o. |
| `DocExample.DocWrite` | src/librustc/middle/typeck/variance.rs:714-748 | On the example, writing gives each enum its single type parameter's variance. |
| `DocExample.RunDocExample` | src/librustc/middle/typeck/variance.rs:26-50 | Numbering the parameters, building the constraints with the smart constructors, solving and writing yields Option: [+], OptionalFn: [-], OptionalMap: [o]. |

## Left out

- The AST visitors `TermsContext::visit_item` and `ConstraintContext::visit_item` and the crate walks (lines 192-253, 299-367): they traverse compiler syntax trees, which are not part of this model. So the model does not prove that the first pass numbers each item's parameters consecutively. `Write`'s contract holds for any numbering.
- Constraint generation from compiler types: `add_constraints_from_ty`, `_vstore`, `_substs`, `_sig`, `_region` and `_mt` (lines 468-652). They dispatch on compiler type representations and call type-context lookups that are not part of this model. The rules they use to build terms are modelled: `ConstantOf`, `Xform`, `ContravariantUse` and `InvariantUse`.
- `inferred_index` and `declared_variance` (lines 374-416): they look up the compiler's maps and other crates' variances, with a compiler-bug abort when a lookup fails.
- Inserting into `tcx.item_variance_map`, with its `assert!(newly_added)`, and the `rustc_variance` test attribute that reports via `span_err` (lines 754-765): side effects on compiler state and diagnostics. `Write` returns instead the sequence of entries the source inserts. If an item's inferreds were split into two runs, `Write` returns that item twice, where the source would abort at line 765. `Grouping.GroupedDistinct` proves this cannot happen when each item's inferreds are numbered consecutively, as the first pass does.
- `ToStr` for terms (lines 112-121), `debug!` logging, arena allocation and lifetimes: diagnostics and memory management. Terms are values here, so sharing of arena nodes is not modelled.
- Out-of-range inferred indices: the source would panic when a constraint names an inferred that does not exist. The model instead requires every constraint to mention only existing inferreds (`WellFormed`, `InRange`); the first pass guarantees this by construction.
- `Inferreds.TermsContext.AddInferred`: the source's `assert!(newly_added)` is modelled as a precondition (the parameter is not yet numbered), not as an abort.
- `Solver.SolveContext.Solve`: the bounds of at most two changes per entry and at most 2N + 1 sweeps are proved in the method's body, with ghost counters the source does not have. They are not part of its contract. They rest on `Solver.Step` and the loop's termination measure.
- Compiler-bug aborts (`sess.bug`, lines 378-383, 553-556, 632-634): aborts on inputs the compiler never produces.

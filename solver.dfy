/**
 * Constraint solving (variance.rs lines 655-767): `SolveContext` holds the
 * inferreds, the constraints and the solution vector, which starts with
 * every inferred Bivariant and is lowered in place until every constraint
 * holds.
 */
module Solver {
  import opened Wrappers
  import opened Lattice
  import opened Terms
  import opened Constraints
  import opened Inferreds
  import opened Grouping

  /** Sum of the heights of the entries: the solver's termination measure. */
  function Potential(s: seq<Variance>): (p: nat)
    ensures p <= 2 * |s|
  {
    if s == [] then 0 else Height(s[0]) + Potential(s[1..])
  }

  /** Replacing one entry changes the potential by the change in that entry's height. */
  lemma {:induction false} PotentialUpdate(s: seq<Variance>, i: nat, v: Variance)
    requires i < |s|
    ensures Potential(s[i := v]) + Height(s[i]) == Potential(s) + Height(v)
  {
    if i > 0 {
      assert s[i := v][1..] == s[1..][i - 1 := v];
      PotentialUpdate(s[1..], i - 1, v);
    }
  }

  /** Every solution of the constraints that is below `start` is below `sol`. */
  ghost predicate BoundsSolutions(constraints: seq<Constraint>, start: seq<Variance>, sol: seq<Variance>)
  {
    forall s :: IsSolution(constraints, s) && PointwiseLe(s, start) ==> PointwiseLe(s, sol)
  }

  /** Entry i has been lowered updates[i] times since `start`, at least one level each time. */
  ghost predicate Counted(updates: seq<nat>, start: seq<Variance>, sol: seq<Variance>)
  {
    |updates| == |start| == |sol| &&
    forall i :: 0 <= i < |sol| ==> updates[i] + Height(sol[i]) <= Height(start[i])
  }

  /**
   * One assignment of the solver, `solutions[i] := glb(term, solutions[i])`
   * when that changes solutions[i]: the entry moves strictly down, nothing
   * else changes, the potential drops, and every solution below the start
   * stays below the vector.
   */
  lemma Step(constraints: seq<Constraint>, c: Constraint, start: seq<Variance>, sol: seq<Variance>, updates: seq<nat>)
    requires c in constraints && c.inferred < |sol| && InRange(c.variance, |sol|)
    requires BoundsSolutions(constraints, start, sol) && Counted(updates, start, sol)
    requires Glb(Evaluate(c.variance, sol), sol[c.inferred]) != sol[c.inferred]
    ensures var v := Glb(Evaluate(c.variance, sol), sol[c.inferred]);
      && PointwiseLe(sol[c.inferred := v], sol)
      && Potential(sol[c.inferred := v]) < Potential(sol)
      && BoundsSolutions(constraints, start, sol[c.inferred := v])
      && Counted(updates[c.inferred := updates[c.inferred] + 1], start, sol[c.inferred := v])
  {
    var i := c.inferred;
    var v := Glb(Evaluate(c.variance, sol), sol[i]);
    forall s | IsSolution(constraints, s) && PointwiseLe(s, start)
      ensures PointwiseLe(s, sol[i := v])
    {
      var k :| 0 <= k < |constraints| && constraints[k] == c;
      assert Satisfied(c, s);
      SatisfiedIff(c, s);
      EvaluateMonotone(c.variance, s, sol);
      LePartialOrder(s[i], Evaluate(c.variance, s), Evaluate(c.variance, sol));
    }
    PotentialUpdate(sol, i, v);
    HeightStrict(v, sol[i]);
  }

  /** Lowering is transitive. */
  lemma PointwiseLeTrans(a: seq<Variance>, b: seq<Variance>, c: seq<Variance>)
    requires PointwiseLe(a, b) && PointwiseLe(b, c)
    ensures PointwiseLe(a, c)
  {
  }

  class SolveContext {
    const infos: seq<InferredInfo>
    const constraints: seq<Constraint>
    /** `solutions[i]` is the current variance of inferred i. */
    const solutions: array<Variance>

    ghost predicate Valid()
      reads this
    {
      solutions.Length == |infos| && WellFormed(constraints, |infos|)
    }

    /** `solve_constraints`, up to the call of solve: every inferred starts at Bivariant (line 672). */
    constructor (infos: seq<InferredInfo>, constraints: seq<Constraint>)
      requires WellFormed(constraints, |infos|)
      ensures Valid() && fresh(solutions)
      ensures this.infos == infos && this.constraints == constraints
      ensures solutions[..] == seq(|infos|, _ => Bivariant)
    {
      this.infos := infos;
      this.constraints := constraints;
      solutions := new Variance[|infos|](_ => Bivariant);
    }

    /**
     * `solve`: sweeps over the constraints, lowering `solutions[i]` to
     * `glb(evaluate(term), solutions[i])`, until a whole sweep changes
     * nothing. The result satisfies every constraint, is below the
     * starting vector, and is the greatest such vector: every solution of
     * the constraints below the start is below it. Started from all
     * Bivariant this is the greatest solution of all. The body proves,
     * with ghost counters, that each entry changes at most twice and that
     * at most 2N + 1 sweeps run.
     */
    method Solve()
      requires Valid()
      modifies solutions
      ensures IsSolution(constraints, solutions[..])
      ensures PointwiseLe(solutions[..], old(solutions[..]))
      ensures forall s :: IsSolution(constraints, s) && PointwiseLe(s, old(solutions[..])) ==>
                PointwiseLe(s, solutions[..])
    {
      ghost var start := solutions[..];
      var n := solutions.Length;
      // ghost counters: how often each entry changed, and how many sweeps ran
      ghost var updates: seq<nat> := seq(n, _ => 0);
      ghost var sweeps: nat := 0;
      var changed := true;
      while changed
        invariant PointwiseLe(solutions[..], start)
        invariant BoundsSolutions(constraints, start, solutions[..])
        invariant Counted(updates, start, solutions[..])
        invariant !changed ==> IsSolution(constraints, solutions[..])
        invariant sweeps + Potential(solutions[..]) + (if changed then 1 else 0) <= 2 * n + 1
        decreases Potential(solutions[..]) + (if changed then 1 else 0)
      {
        ghost var before := solutions[..];
        changed := false;
        for j := 0 to |constraints|
          invariant PointwiseLe(solutions[..], before)
          invariant changed ==> Potential(solutions[..]) < Potential(before)
          invariant !changed ==> solutions[..] == before
          invariant !changed ==> forall k :: 0 <= k < j ==> Satisfied(constraints[k], before)
          invariant BoundsSolutions(constraints, start, solutions[..])
          invariant Counted(updates, start, solutions[..])
        {
          var c := constraints[j];
          var variance := Evaluate(c.variance, solutions[..]);
          var oldValue := solutions[c.inferred];
          var newValue := Glb(variance, oldValue);
          if oldValue != newValue {
            ghost var cur := solutions[..];
            Step(constraints, c, start, cur, updates);
            PointwiseLeTrans(cur[c.inferred := newValue], cur, before);
            solutions[c.inferred] := newValue;
            assert solutions[..] == cur[c.inferred := newValue];
            updates := updates[c.inferred := updates[c.inferred] + 1];
            changed := true;
          }
        }
        PointwiseLeTrans(solutions[..], before, start);
        sweeps := sweeps + 1;
      }
      assert Potential(start) <= 2 * n;
      assert sweeps <= 2 * n + 1;
      assert forall i :: 0 <= i < n ==> updates[i] <= 2;
    }

    /**
     * The grouping loop of `write`: the entries the source inserts into
     * the item variance map, in order, or the failure of its assertion
     * that an item has at most one self parameter.
     */
    method Write() returns (r: Result<seq<ItemEntry>, WriteError>)
      requires Valid()
      ensures r == Grouped(infos, solutions[..], 0)
    {
      var sols := solutions[..];
      var index := 0;
      var numInferred := |infos|;
      var entries: seq<ItemEntry> := [];
      PrependNothing(Grouped(infos, sols, 0));
      while index < numInferred
        invariant index <= numInferred
        invariant Grouped(infos, sols, 0) == Prepend(entries, Grouped(infos, sols, index))
      {
        var itemId := infos[index].itemId;
        var itemVariances := NoVariances;
        ghost var first := index;
        while index < numInferred && infos[index].itemId == itemId
          invariant first <= index
          invariant index <= numInferred
          invariant RunEnd(infos, itemId, index) == RunEnd(infos, itemId, first)
          invariant Collect(infos, sols, first, index) == Ok(itemVariances)
          decreases numInferred - index
        {
          var info := infos[index];
          match info.kind {
            case SelfParam =>
              if itemVariances.selfParam.Some? {
                CollectErrExtends(infos, sols, first, index + 1, RunEnd(infos, itemId, first));
                return Err(DuplicateSelfParam(itemId));
              }
              itemVariances := itemVariances.(selfParam := Some(sols[index]));
            case TypeParam =>
              itemVariances := itemVariances.(typeParams := itemVariances.typeParams + [sols[index]]);
            case RegionParam =>
              itemVariances := itemVariances.(regionParams := itemVariances.regionParams + [sols[index]]);
          }
          index := index + 1;
        }
        PrependAppend(entries, ItemEntry(itemId, itemVariances), Grouped(infos, sols, index));
        entries := entries + [ItemEntry(itemId, itemVariances)];
      }
      assert entries + [] == entries;
      r := Ok(entries);
    }
  }
}

/**
 * What `SolveContext::write` (variance.rs lines 714-767) computes: the
 * inferreds, which the first pass numbers item by item, are cut into
 * maximal runs of equal item id, and each run becomes the item's
 * variances (at most one self parameter, its type parameters and its
 * region parameters, each list in index order).
 */
module Grouping {
  import opened Wrappers
  import opened Lattice
  import opened Inferreds

  datatype ItemVariances = ItemVariances(selfParam: Option<Variance>, typeParams: seq<Variance>, regionParams: seq<Variance>)

  /** One entry written into the item variance map. */
  datatype ItemEntry = ItemEntry(itemId: NodeId, variances: ItemVariances)

  /** The assertion at line 737, that the item has no self parameter yet, fails. */
  datatype WriteError = DuplicateSelfParam(itemId: NodeId)

  const NoVariances := ItemVariances(None, [], [])

  /** One step of the inner loop: record the solution of an inferred of the given kind. */
  function AddParam(iv: ItemVariances, itemId: NodeId, kind: ParamKind, v: Variance): Result<ItemVariances, WriteError>
  {
    match kind
    case SelfParam =>
      if iv.selfParam.Some? then Err(DuplicateSelfParam(itemId)) else Ok(iv.(selfParam := Some(v)))
    case TypeParam => Ok(iv.(typeParams := iv.typeParams + [v]))
    case RegionParam => Ok(iv.(regionParams := iv.regionParams + [v]))
  }

  /** The variances collected from the inferreds lo .. hi-1 of one item. */
  function Collect(infos: seq<InferredInfo>, sols: seq<Variance>, lo: nat, hi: nat): Result<ItemVariances, WriteError>
    requires lo <= hi <= |infos| == |sols|
    decreases hi
  {
    if hi == lo then Ok(NoVariances)
    else
      match Collect(infos, sols, lo, hi - 1)
      case Err(e) => Err(e)
      case Ok(iv) => AddParam(iv, infos[hi - 1].itemId, infos[hi - 1].kind, sols[hi - 1])
  }

  /** The end of the maximal run of inferreds of item `id` that starts at k. */
  function RunEnd(infos: seq<InferredInfo>, id: NodeId, k: nat): (hi: nat)
    requires k <= |infos|
    ensures k <= hi <= |infos|
    ensures forall j :: k <= j < hi ==> infos[j].itemId == id
    ensures hi == |infos| || infos[hi].itemId != id
    decreases |infos| - k
  {
    if k == |infos| || infos[k].itemId != id then k else RunEnd(infos, id, k + 1)
  }

  /** Everything `write` stores, from inferred lo onwards, or the error it stops with. */
  function Grouped(infos: seq<InferredInfo>, sols: seq<Variance>, lo: nat): Result<seq<ItemEntry>, WriteError>
    requires lo <= |infos| == |sols|
    decreases |infos| - lo
  {
    if lo == |infos| then Ok([])
    else
      var id := infos[lo].itemId;
      var hi := RunEnd(infos, id, lo);
      match Collect(infos, sols, lo, hi)
      case Err(e) => Err(e)
      case Ok(iv) =>
        match Grouped(infos, sols, hi)
        case Err(e) => Err(e)
        case Ok(rest) => Ok([ItemEntry(id, iv)] + rest)
  }

  /** Entries already written followed by what is still to be written. */
  function Prepend(entries: seq<ItemEntry>, r: Result<seq<ItemEntry>, WriteError>): Result<seq<ItemEntry>, WriteError>
  {
    match r
    case Ok(rest) => Ok(entries + rest)
    case Err(e) => Err(e)
  }

  lemma PrependNothing(r: Result<seq<ItemEntry>, WriteError>)
    ensures Prepend([], r) == r
  {
    if r.Ok? {
      assert [] + r.value == r.value;
    }
  }

  lemma PrependAppend(entries: seq<ItemEntry>, e: ItemEntry, r: Result<seq<ItemEntry>, WriteError>)
    ensures Prepend(entries, Prepend([e], r)) == Prepend(entries + [e], r)
  {
    if r.Ok? {
      assert entries + ([e] + r.value) == (entries + [e]) + r.value;
    }
  }

  // ----- An independent description: the solutions of each kind, in index order -----

  /** The solutions of the inferreds lo .. hi-1 that are of the given kind, in index order. */
  function Pick(infos: seq<InferredInfo>, sols: seq<Variance>, lo: nat, hi: nat, kind: ParamKind): seq<Variance>
    requires lo <= hi <= |infos| == |sols|
    decreases hi
  {
    if hi == lo then []
    else Pick(infos, sols, lo, hi - 1, kind) + (if infos[hi - 1].kind == kind then [sols[hi - 1]] else [])
  }

  /** The parameters of one kind held by an item's variances. */
  function KindList(iv: ItemVariances, kind: ParamKind): seq<Variance>
  {
    match kind
    case TypeParam => iv.typeParams
    case RegionParam => iv.regionParams
    case SelfParam => if iv.selfParam.Some? then [iv.selfParam.value] else []
  }

  /** The parameters of one kind over all entries, entry after entry. */
  function ParamsOf(entries: seq<ItemEntry>, kind: ParamKind): seq<Variance>
  {
    if entries == [] then [] else KindList(entries[0].variances, kind) + ParamsOf(entries[1..], kind)
  }

  /** Inferreds i < j are both self parameters of one item, with only that item's inferreds between them. */
  predicate DuplicateSelf(infos: seq<InferredInfo>, i: nat, j: nat)
    requires i < j < |infos|
  {
    infos[i].kind == SelfParam && infos[j].kind == SelfParam &&
    forall k :: i <= k <= j ==> infos[k].itemId == infos[i].itemId
  }

  lemma {:induction false} PickSplit(infos: seq<InferredInfo>, sols: seq<Variance>, lo: nat, mid: nat, hi: nat, kind: ParamKind)
    requires lo <= mid <= hi <= |infos| == |sols|
    ensures Pick(infos, sols, lo, hi, kind) == Pick(infos, sols, lo, mid, kind) + Pick(infos, sols, mid, hi, kind)
    decreases hi
  {
    if hi > mid {
      PickSplit(infos, sols, lo, mid, hi - 1, kind);
    }
  }

  /** Every inferred in lo .. hi-1 is picked for exactly one kind. */
  lemma {:induction false} PickPartition(infos: seq<InferredInfo>, sols: seq<Variance>, lo: nat, hi: nat)
    requires lo <= hi <= |infos| == |sols|
    ensures |Pick(infos, sols, lo, hi, TypeParam)| + |Pick(infos, sols, lo, hi, RegionParam)|
            + |Pick(infos, sols, lo, hi, SelfParam)| == hi - lo
    decreases hi
  {
    if hi > lo {
      PickPartition(infos, sols, lo, hi - 1);
    }
  }

  /**
   * Collecting a range fails exactly when it holds two self parameters;
   * otherwise each kind's list is that kind's solutions in index order.
   */
  lemma {:induction false} CollectPick(infos: seq<InferredInfo>, sols: seq<Variance>, lo: nat, hi: nat)
    requires lo <= hi <= |infos| == |sols|
    ensures Collect(infos, sols, lo, hi).Ok? <==> |Pick(infos, sols, lo, hi, SelfParam)| <= 1
    ensures Collect(infos, sols, lo, hi).Ok? ==>
              forall kind :: KindList(Collect(infos, sols, lo, hi).value, kind) == Pick(infos, sols, lo, hi, kind)
    decreases hi
  {
    if hi > lo {
      CollectPick(infos, sols, lo, hi - 1);
      var prev := Collect(infos, sols, lo, hi - 1);
      if prev.Err? {
        assert |Pick(infos, sols, lo, hi, SelfParam)| >= |Pick(infos, sols, lo, hi - 1, SelfParam)|;
      } else {
        var r := Collect(infos, sols, lo, hi);
        if r.Ok? {
          forall kind
            ensures KindList(r.value, kind) == Pick(infos, sols, lo, hi, kind)
          {
            assert KindList(prev.value, kind) == Pick(infos, sols, lo, hi - 1, kind);
          }
        }
      }
    }
  }

  /** Once collecting a range fails, collecting any longer range fails with the same error. */
  lemma {:induction false} CollectErrExtends(infos: seq<InferredInfo>, sols: seq<Variance>, lo: nat, mid: nat, hi: nat)
    requires lo <= mid <= hi <= |infos| == |sols|
    requires Collect(infos, sols, lo, mid).Err?
    ensures Collect(infos, sols, lo, hi) == Collect(infos, sols, lo, mid)
    decreases hi
  {
    if hi > mid {
      CollectErrExtends(infos, sols, lo, mid, hi - 1);
    }
  }

  /** Parameters held by an item's variances. */
  function ParamCount(iv: ItemVariances): nat
  {
    |KindList(iv, TypeParam)| + |KindList(iv, RegionParam)| + |KindList(iv, SelfParam)|
  }

  /** One step of Grouped: a successful result is the first run's entry followed by the rest. */
  lemma GroupedUnfold(infos: seq<InferredInfo>, sols: seq<Variance>, lo: nat)
    requires lo < |infos| == |sols|
    requires Grouped(infos, sols, lo).Ok?
    ensures var hi := RunEnd(infos, infos[lo].itemId, lo);
      && lo < hi
      && Collect(infos, sols, lo, hi).Ok?
      && Grouped(infos, sols, hi).Ok?
      && Grouped(infos, sols, lo).value
         == [ItemEntry(infos[lo].itemId, Collect(infos, sols, lo, hi).value)] + Grouped(infos, sols, hi).value
  {
  }

  /**
   * The first entry is the first maximal run: it belongs to inferred lo's
   * item, holds exactly that run's parameters of each kind in index order,
   * and the remaining entries are what grouping from the run's end gives.
   */
  lemma GroupedFirstRun(infos: seq<InferredInfo>, sols: seq<Variance>, lo: nat)
    requires lo < |infos| == |sols|
    requires Grouped(infos, sols, lo).Ok?
    ensures var es := Grouped(infos, sols, lo).value;
      var hi := RunEnd(infos, infos[lo].itemId, lo);
      && es != []
      && es[0].itemId == infos[lo].itemId
      && (forall kind :: KindList(es[0].variances, kind) == Pick(infos, sols, lo, hi, kind))
      && Grouped(infos, sols, hi).Ok?
      && es[1..] == Grouped(infos, sols, hi).value
  {
    var hi := RunEnd(infos, infos[lo].itemId, lo);
    GroupedUnfold(infos, sols, lo);
    CollectPick(infos, sols, lo, hi);
  }

  /**
   * `write` consumes every inferred from lo on exactly once and in index
   * order: the parameters of each kind, read entry after entry, are that
   * kind's solutions in index order.
   */
  lemma {:induction false} GroupedParams(infos: seq<InferredInfo>, sols: seq<Variance>, lo: nat, kind: ParamKind)
    requires lo <= |infos| == |sols|
    requires Grouped(infos, sols, lo).Ok?
    ensures ParamsOf(Grouped(infos, sols, lo).value, kind) == Pick(infos, sols, lo, |infos|, kind)
    decreases |infos| - lo
  {
    if lo < |infos| {
      var hi := RunEnd(infos, infos[lo].itemId, lo);
      GroupedUnfold(infos, sols, lo);
      CollectPick(infos, sols, lo, hi);
      GroupedParams(infos, sols, hi, kind);
      PickSplit(infos, sols, lo, hi, |infos|, kind);
      var es := Grouped(infos, sols, lo).value;
      assert es[1..] == Grouped(infos, sols, hi).value;
    }
  }

  /** Together the entries hold exactly one parameter per inferred from lo on. */
  lemma GroupedConsumesAll(infos: seq<InferredInfo>, sols: seq<Variance>, lo: nat)
    requires lo <= |infos| == |sols|
    requires Grouped(infos, sols, lo).Ok?
    ensures var es := Grouped(infos, sols, lo).value;
      |ParamsOf(es, TypeParam)| + |ParamsOf(es, RegionParam)| + |ParamsOf(es, SelfParam)| == |infos| - lo
  {
    GroupedParams(infos, sols, lo, TypeParam);
    GroupedParams(infos, sols, lo, RegionParam);
    GroupedParams(infos, sols, lo, SelfParam);
    PickPartition(infos, sols, lo, |infos|);
  }

  /**
   * The entries are the maximal runs: there is one entry per run, the
   * first for the item of inferred lo, and neighbouring entries belong to
   * different items.
   */
  lemma {:induction false} GroupedRuns(infos: seq<InferredInfo>, sols: seq<Variance>, lo: nat)
    requires lo <= |infos| == |sols|
    requires Grouped(infos, sols, lo).Ok?
    ensures var es := Grouped(infos, sols, lo).value;
      && (es == [] <==> lo == |infos|)
      && (lo < |infos| ==> es[0].itemId == infos[lo].itemId)
      && (forall k :: 0 <= k < |es| - 1 ==> es[k].itemId != es[k + 1].itemId)
    decreases |infos| - lo
  {
    if lo < |infos| {
      var hi := RunEnd(infos, infos[lo].itemId, lo);
      GroupedUnfold(infos, sols, lo);
      GroupedRuns(infos, sols, hi);
      var es := Grouped(infos, sols, lo).value;
      var rest := Grouped(infos, sols, hi).value;
      assert hi < |infos| ==> rest[0].itemId != es[0].itemId;
      forall k | 1 <= k < |es| - 1
        ensures es[k].itemId != es[k + 1].itemId
      {
        assert es[k] == rest[k - 1] && es[k + 1] == rest[k];
      }
    }
  }

  /** Every entry from lo on belongs to the item of some inferred from lo on. */
  lemma {:induction false} GroupedIdsFrom(infos: seq<InferredInfo>, sols: seq<Variance>, lo: nat)
    requires lo <= |infos| == |sols|
    requires Grouped(infos, sols, lo).Ok?
    ensures var es := Grouped(infos, sols, lo).value;
      forall a :: 0 <= a < |es| ==> exists k :: lo <= k < |infos| && infos[k].itemId == es[a].itemId
    decreases |infos| - lo
  {
    if lo < |infos| {
      var hi := RunEnd(infos, infos[lo].itemId, lo);
      GroupedUnfold(infos, sols, lo);
      GroupedIdsFrom(infos, sols, hi);
      var es := Grouped(infos, sols, lo).value;
      var rest := Grouped(infos, sols, hi).value;
      forall a | 0 <= a < |es|
        ensures exists k :: lo <= k < |infos| && infos[k].itemId == es[a].itemId
      {
        if a == 0 {
          assert infos[lo].itemId == es[0].itemId;
        } else {
          assert es[a] == rest[a - 1];
        }
      }
    }
  }

  /** Each item's inferreds are numbered consecutively, as the first pass does. */
  predicate Contiguous(infos: seq<InferredInfo>)
  {
    forall i, j, k :: 0 <= i < j < k < |infos| && infos[i].itemId == infos[k].itemId ==>
      infos[j].itemId == infos[i].itemId
  }

  /** Under a contiguous numbering, an item left once is never met again. */
  lemma ContiguousLeft(infos: seq<InferredInfo>, i: nat, j: nat, k: nat)
    requires Contiguous(infos) && i < j < k < |infos|
    requires infos[j].itemId != infos[i].itemId
    ensures infos[k].itemId != infos[i].itemId
  {
  }

  /**
   * With a contiguous numbering no item is written twice, so the map
   * insertions that follow the grouping never meet an item already there.
   */
  lemma {:induction false} GroupedDistinct(infos: seq<InferredInfo>, sols: seq<Variance>, lo: nat)
    requires lo <= |infos| == |sols|
    requires Contiguous(infos)
    requires Grouped(infos, sols, lo).Ok?
    ensures var es := Grouped(infos, sols, lo).value;
      forall a, b :: 0 <= a < b < |es| ==> es[a].itemId != es[b].itemId
    decreases |infos| - lo
  {
    if lo < |infos| {
      var id := infos[lo].itemId;
      var hi := RunEnd(infos, id, lo);
      GroupedUnfold(infos, sols, lo);
      GroupedDistinct(infos, sols, hi);
      GroupedIdsFrom(infos, sols, hi);
      var es := Grouped(infos, sols, lo).value;
      var rest := Grouped(infos, sols, hi).value;
      forall a, b | 0 <= a < b < |es|
        ensures es[a].itemId != es[b].itemId
      {
        assert es[b] == rest[b - 1];
        if a == 0 {
          var k :| hi <= k < |infos| && infos[k].itemId == rest[b - 1].itemId;
          // the inferred at hi lies between lo and k and belongs to another item
          if hi < k {
            ContiguousLeft(infos, lo, hi, k);
          }
        } else {
          assert es[a] == rest[a - 1];
        }
      }
    }
  }

  /** No entry is empty: every run holds at least one inferred. */
  lemma {:induction false} GroupedNonEmpty(infos: seq<InferredInfo>, sols: seq<Variance>, lo: nat)
    requires lo <= |infos| == |sols|
    requires Grouped(infos, sols, lo).Ok?
    ensures var es := Grouped(infos, sols, lo).value;
      forall k :: 0 <= k < |es| ==> ParamCount(es[k].variances) >= 1
    decreases |infos| - lo
  {
    if lo < |infos| {
      var hi := RunEnd(infos, infos[lo].itemId, lo);
      GroupedUnfold(infos, sols, lo);
      CollectPick(infos, sols, lo, hi);
      PickPartition(infos, sols, lo, hi);
      GroupedNonEmpty(infos, sols, hi);
      var es := Grouped(infos, sols, lo).value;
      var rest := Grouped(infos, sols, hi).value;
      forall k | 1 <= k < |es|
        ensures ParamCount(es[k].variances) >= 1
      {
        assert es[k] == rest[k - 1];
      }
    }
  }

  /** `write` fails exactly when some item has two self parameters. */
  lemma {:induction false} GroupedErrIff(infos: seq<InferredInfo>, sols: seq<Variance>, lo: nat)
    requires lo <= |infos| == |sols|
    ensures Grouped(infos, sols, lo).Err? <==>
              exists i, j :: lo <= i < j < |infos| && DuplicateSelf(infos, i, j)
    decreases |infos| - lo
  {
    if lo < |infos| {
      var id := infos[lo].itemId;
      var hi := RunEnd(infos, id, lo);
      CollectPick(infos, sols, lo, hi);
      GroupedErrIff(infos, sols, hi);
      if Collect(infos, sols, lo, hi).Err? {
        var i, j := TwoSelves(infos, sols, lo, hi);
        assert DuplicateSelf(infos, i, j);
      } else if exists i, j :: lo <= i < j < |infos| && DuplicateSelf(infos, i, j) {
        var i, j :| lo <= i < j < |infos| && DuplicateSelf(infos, i, j);
        if i < hi {
          assert j < hi;
          SelvesCounted(infos, sols, lo, hi, i, j);
          assert false;
        }
        assert DuplicateSelf(infos, i, j);
      }
    }
  }

  /** A self parameter in lo .. hi-1 puts an entry in the self list. */
  lemma {:induction false} SelfCounted(infos: seq<InferredInfo>, sols: seq<Variance>, lo: nat, hi: nat, i: nat)
    requires lo <= i < hi <= |infos| == |sols|
    requires infos[i].kind == SelfParam
    ensures |Pick(infos, sols, lo, hi, SelfParam)| >= 1
    decreases hi
  {
    if i < hi - 1 {
      SelfCounted(infos, sols, lo, hi - 1, i);
    }
  }

  /** Two self parameters in lo .. hi-1 put two entries in the self list. */
  lemma {:induction false} SelvesCounted(infos: seq<InferredInfo>, sols: seq<Variance>, lo: nat, hi: nat, i: nat, j: nat)
    requires lo <= i < j < hi <= |infos| == |sols|
    requires infos[i].kind == SelfParam && infos[j].kind == SelfParam
    ensures |Pick(infos, sols, lo, hi, SelfParam)| >= 2
    decreases hi
  {
    if j == hi - 1 {
      SelfCounted(infos, sols, lo, hi - 1, i);
    } else {
      SelvesCounted(infos, sols, lo, hi - 1, i, j);
    }
  }

  /** A self list with two entries comes from two self parameters. */
  lemma {:induction false} TwoSelves(infos: seq<InferredInfo>, sols: seq<Variance>, lo: nat, hi: nat) returns (i: nat, j: nat)
    requires lo <= hi <= |infos| == |sols|
    requires |Pick(infos, sols, lo, hi, SelfParam)| >= 2
    ensures lo <= i < j < hi
    ensures infos[i].kind == SelfParam && infos[j].kind == SelfParam
    decreases hi
  {
    if infos[hi - 1].kind == SelfParam && |Pick(infos, sols, lo, hi - 1, SelfParam)| >= 1 {
      i := OneSelf(infos, sols, lo, hi - 1);
      j := hi - 1;
    } else {
      i, j := TwoSelves(infos, sols, lo, hi - 1);
    }
  }

  /** A non-empty self list comes from a self parameter. */
  lemma {:induction false} OneSelf(infos: seq<InferredInfo>, sols: seq<Variance>, lo: nat, hi: nat) returns (i: nat)
    requires lo <= hi <= |infos| == |sols|
    requires |Pick(infos, sols, lo, hi, SelfParam)| >= 1
    ensures lo <= i < hi && infos[i].kind == SelfParam
    decreases hi
  {
    if infos[hi - 1].kind == SelfParam {
      i := hi - 1;
    } else {
      i := OneSelf(infos, sols, lo, hi - 1);
    }
  }
}

/**
 * The first pass of variance inference: `TermsContext` (variance.rs lines
 * 127-190) numbers every type, region and self parameter whose variance
 * is to be inferred ("inferreds") consecutively.
 */
module Inferreds {
  import opened Terms

  type NodeId = int

  datatype ParamKind = TypeParam | RegionParam | SelfParam

  /** `InferredInfo`: the item and parameter an inferred belongs to, and its term. */
  datatype InferredInfo = InferredInfo(itemId: NodeId, kind: ParamKind, index: nat, paramId: NodeId, term: Term)

  class TermsContext {
    /** Maps the node id of a parameter to its inferred index. */
    var inferredMap: map<NodeId, nat>
    var inferredInfos: seq<InferredInfo>

    /**
     * The map and the vector describe the same numbering: inferred i is
     * the parameter inferredInfos[i].paramId, its term is InferredTerm(i),
     * and no parameter is numbered twice.
     */
    ghost predicate Valid()
      reads this
    {
      && |inferredMap| == |inferredInfos|
      && (forall p :: p in inferredMap ==>
            inferredMap[p] < |inferredInfos| && inferredInfos[inferredMap[p]].paramId == p)
      && (forall i :: 0 <= i < |inferredInfos| ==>
            inferredInfos[i].paramId in inferredMap && inferredMap[inferredInfos[i].paramId] == i &&
            inferredInfos[i].term == InferredTerm(i))
    }

    constructor ()
      ensures Valid()
      ensures inferredMap == map[] && inferredInfos == []
    {
      inferredMap := map[];
      inferredInfos := [];
    }

    /**
     * `add_inferred`: the new inferred gets the next index, old length of
     * inferredInfos; the source asserts that the parameter was not
     * numbered before.
     */
    method AddInferred(itemId: NodeId, kind: ParamKind, index: nat, paramId: NodeId)
      requires Valid()
      requires paramId !in inferredMap
      modifies this
      ensures Valid()
      ensures inferredInfos == old(inferredInfos) + [InferredInfo(itemId, kind, index, paramId, InferredTerm(|old(inferredInfos)|))]
      ensures inferredMap == old(inferredMap)[paramId := |old(inferredInfos)|]
    {
      var infIndex := |inferredInfos|;
      var term := InferredTerm(infIndex);
      inferredInfos := inferredInfos + [InferredInfo(itemId, kind, index, paramId, term)];
      inferredMap := inferredMap[paramId := infIndex];
    }

    /** `num_inferred`: the number of inferreds, which is also the number of numbered parameters. */
    function NumInferred(): (n: nat)
      reads this
      requires Valid()
      ensures n == |inferredMap|
      ensures forall p :: p in inferredMap ==> inferredMap[p] < n
    {
      |inferredInfos|
    }
  }
}

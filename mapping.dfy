/**
 * The mapping between record ids and vector-store indices: two dictionaries
 * kept as inverses of each other, and a counter that hands out the next index.
 * Indices are never reused, even after a removal.
 */
module Mapping {
  import opened Wrappers

  /** The two dictionaries undo each other: each id's index maps back to that id, and each index's id maps back to that index. */
  predicate Inverse(toIdx: map<string, int>, toId: map<int, string>) {
    && (forall id :: id in toIdx ==> toIdx[id] in toId && toId[toIdx[id]] == id)
    && (forall i :: i in toId ==> toId[i] in toIdx && toIdx[toId[i]] == i)
  }

  /** Removing an id and its index from two dictionaries that undo each other leaves two that still do, one entry smaller each. */
  lemma InverseRemove(toIdx: map<string, int>, toId: map<int, string>, id: string)
    requires Inverse(toIdx, toId) && id in toIdx
    ensures Inverse(toIdx - {id}, toId - {toIdx[id]})
    ensures |toIdx - {id}| == |toIdx| - 1 && |toId - {toIdx[id]}| == |toId| - 1
  {
    var i := toIdx[id];
    var a := toIdx - {id};
    var b := toId - {i};
    forall x | x in a ensures a[x] in b && b[a[x]] == x {
      assert toIdx[x] != i;
    }
    assert toIdx.Keys == a.Keys + {id};
    assert toId.Keys == b.Keys + {i};
  }

  /** An index dictionary that undoes an empty one is empty too. */
  lemma InverseEmpty(toIdx: map<string, int>, toId: map<int, string>)
    requires Inverse(toIdx, toId) && toIdx == map[]
    ensures toId == map[]
  {
    forall i | i in toId ensures false {
    }
    assert toId.Keys == {};
  }

  /** Two dictionaries that undo each other have the same number of entries. */
  lemma {:induction false} InverseSize(toIdx: map<string, int>, toId: map<int, string>)
    requires Inverse(toIdx, toId)
    ensures |toIdx| == |toId|
    decreases |toIdx|
  {
    if toIdx == map[] {
      InverseEmpty(toIdx, toId);
    } else {
      var id :| id in toIdx;
      InverseRemove(toIdx, toId, id);
      InverseSize(toIdx - {id}, toId - {toIdx[id]});
    }
  }

  class LNMapping {
    var lnIdToIdx: map<string, int>
    var idxToLnId: map<int, string>
    var nextIdx: int

    /** The dictionaries are inverses and every index in use lies below the counter, which is never negative. */
    ghost predicate Valid()
      reads this
    {
      && Inverse(lnIdToIdx, idxToLnId)
      && 0 <= nextIdx
      && forall i :: i in idxToLnId ==> 0 <= i < nextIdx
    }

    /** An empty mapping whose first index is 0. */
    constructor ()
      ensures lnIdToIdx == map[] && idxToLnId == map[] && nextIdx == 0
      ensures Valid()
    {
      lnIdToIdx := map[];
      idxToLnId := map[];
      nextIdx := 0;
    }

    /**
     * `add`: an id already mapped keeps its index and nothing changes; a new id
     * gets the counter's value in both directions, and the counter moves on.
     */
    method Add(lnId: string) returns (idx: int)
      requires Valid()
      modifies this
      ensures Valid()
      ensures lnId in old(lnIdToIdx) ==>
                idx == old(lnIdToIdx)[lnId] && lnIdToIdx == old(lnIdToIdx)
                && idxToLnId == old(idxToLnId) && nextIdx == old(nextIdx)
      ensures lnId !in old(lnIdToIdx) ==>
                && idx == old(nextIdx) && idx !in old(idxToLnId)
                && lnIdToIdx == old(lnIdToIdx)[lnId := idx]
                && idxToLnId == old(idxToLnId)[idx := lnId]
                && nextIdx == old(nextIdx) + 1
      ensures GetIdx(lnId) == Some(idx) && GetLnId(idx) == Some(lnId)
    {
      if lnId in lnIdToIdx {
        return lnIdToIdx[lnId];
      }
      idx := nextIdx;
      lnIdToIdx := lnIdToIdx[lnId := idx];
      idxToLnId := idxToLnId[idx := lnId];
      nextIdx := nextIdx + 1;
    }

    /** `get_idx`: the index of a mapped id, None for any other. */
    function GetIdx(lnId: string): (r: Option<int>)
      reads this
      ensures r.Some? <==> lnId in lnIdToIdx
      ensures r.Some? ==> r.value == lnIdToIdx[lnId]
    {
      if lnId in lnIdToIdx then Some(lnIdToIdx[lnId]) else None
    }

    /** `get_ln_id`: the id behind an index in use, None for any other. */
    function GetLnId(idx: int): (r: Option<string>)
      reads this
      ensures r.Some? <==> idx in idxToLnId
      ensures r.Some? ==> r.value == idxToLnId[idx]
    {
      if idx in idxToLnId then Some(idxToLnId[idx]) else None
    }

    /** `remove`: an unmapped id changes nothing; a mapped one loses both directions, and the counter stays. */
    method Remove(lnId: string)
      requires Valid()
      modifies this
      ensures Valid()
      ensures nextIdx == old(nextIdx)
      ensures lnId !in old(lnIdToIdx) ==> lnIdToIdx == old(lnIdToIdx) && idxToLnId == old(idxToLnId)
      ensures lnId in old(lnIdToIdx) ==>
                lnIdToIdx == old(lnIdToIdx) - {lnId} && idxToLnId == old(idxToLnId) - {old(lnIdToIdx)[lnId]}
      ensures GetIdx(lnId) == None
    {
      if lnId in lnIdToIdx {
        var idx := lnIdToIdx[lnId];
        lnIdToIdx := lnIdToIdx - {lnId};
        idxToLnId := idxToLnId - {idx};
      }
    }

    /** `__len__`: the number of mapped ids, which is also the number of indices in use. */
    function Len(): (n: nat)
      reads this
      requires Valid()
      ensures n == |idxToLnId|
    {
      InverseSize(lnIdToIdx, idxToLnId);
      |lnIdToIdx|
    }
  }

  /** Looking an id up and its index back gives the id again, in both directions. */
  lemma LookupRoundTrip(m: LNMapping, lnId: string, idx: int)
    requires m.Valid()
    ensures m.GetIdx(lnId) == Some(idx) ==> m.GetLnId(idx) == Some(lnId)
    ensures m.GetLnId(idx) == Some(lnId) ==> m.GetIdx(lnId) == Some(idx)
  {
  }
}

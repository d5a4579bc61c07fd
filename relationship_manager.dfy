/** Relationship editing: existence checks on both endpoints, the
    sanitised type name in the store, and the mirrored cache record. */
module RelationshipManagement {
  import opened Wrappers
  import opened Graph
  import opened Seqs
  import opened Store
  import opened DataLoading

  const NotConnected := "Database not connected"
  const NoIdReturned := "Failed to create relationship - no result returned"

  /** `create_rel(source_id, target_id, rel_type, properties)`. Both
      endpoint counts are taken first; a missing source, then a missing
      target, raises before anything is created. The store receives the
      type with its quoting characters removed, while the cached record
      keeps the type as given. Source and target may be the same node. */
  method CreateRel(loader: DataLoader, source: Id, target: Id, relType: string, props: Props)
    returns (r: Result<Rel>)
    requires loader.graph != null ==> loader.graph.Valid()
    modifies loader, loader.graph
    ensures loader.graph != null ==> loader.graph.Valid()
    ensures loader.graph == null ==> r == Failure(NotConnected)
    ensures loader.nodes == old(loader.nodes)
    ensures loader.graph != null ==> loader.graph.nodes == old(loader.graph.nodes)
    ensures loader.graph != null && source !in old(loader.graph.NodeIds()) ==>
      r == Failure("Source node not found: " + source)
    ensures loader.graph != null && source in old(loader.graph.NodeIds()) && target !in old(loader.graph.NodeIds()) ==>
      r == Failure("Target node not found: " + target)
    ensures loader.graph != null && source in old(loader.graph.NodeIds()) && target in old(loader.graph.NodeIds()) ==>
      r.Success? || r == Failure(NoIdReturned)
    ensures r.Success? ==>
      && loader.graph != null
      && r.value == Rel(r.value.id, source, target, relType, props)
      && r.value.id == MintId(old(loader.graph.minted))
      && r.value.id !in RelIdsOf(old(loader.graph.rels))
      && loader.graph.rels == old(loader.graph.rels) + [Rel(r.value.id, source, target, SafeRelType(relType), Stored(props))]
      && loader.rels == old(loader.rels) + [r.value]
    ensures r.Failure? ==> loader.rels == old(loader.rels)
    ensures r.Failure? && loader.graph != null ==> loader.graph.rels == old(loader.graph.rels)
    ensures r.Failure? ==> r.error in {NotConnected, NoIdReturned, "Source node not found: " + source,
                                       "Target node not found: " + target}
  {
    var graph := loader.graph;
    if graph == null {
      return Failure(NotConnected);
    }
    var sourceCount := graph.CountNode(source);
    var targetCount := graph.CountNode(target);
    if sourceCount == 0 {
      return Failure("Source node not found: " + source);
    }
    if targetCount == 0 {
      return Failure("Target node not found: " + target);
    }
    var safeType := SafeRelType(relType);
    var id := graph.CreateRel(source, target, safeType, props);
    if id.None? {
      return Failure(NoIdReturned);
    }
    var rel := Rel(id.value, source, target, relType, props);
    loader.rels := loader.rels + [rel];
    r := Success(rel);
  }

  /** `delete_rel(rel_id)`: deletes the relationship in the store and every
      cached relationship with that identifier, keeping the rest in order.
      A raising delete re-raises with store and cache untouched. */
  method DeleteRel(loader: DataLoader, id: Id) returns (r: Result<bool>)
    requires loader.graph != null ==> loader.graph.Valid()
    modifies loader, loader.graph
    ensures loader.graph != null ==> loader.graph.Valid()
    ensures loader.nodes == old(loader.nodes)
    ensures loader.graph == null ==> r == Failure(NotConnected)
    ensures r.Failure? ==> loader.rels == old(loader.rels)
    ensures loader.graph != null ==>
      && loader.graph.nodes == old(loader.graph.nodes)
      && loader.graph.minted >= old(loader.graph.minted)
    ensures r.Failure? && loader.graph != null ==>
      r == Failure(StoreFailed) && loader.graph.rels == old(loader.graph.rels)
    ensures r.Success? ==>
      && loader.graph != null && r.value
      && loader.graph.rels == Filter(old(loader.graph.rels), (x: Rel) => x.id != id)
      && loader.rels == Filter(old(loader.rels), (x: Rel) => x.id != id)
  {
    var graph := loader.graph;
    if graph == null {
      return Failure(NotConnected);
    }
    var ok := graph.DeleteRel(id);
    if !ok {
      return Failure(StoreFailed);
    }
    loader.rels := Filter(loader.rels, (x: Rel) => x.id != id);
    r := Success(true);
  }

  /** What deleting a relationship does to the cache: no record with that
      identifier is left, every other one is, in the same order. */
  lemma DeleteRelEffect(rs: seq<Rel>, id: Id)
    ensures id !in RelIdsOf(Filter(rs, (x: Rel) => x.id != id))
    ensures forall x :: x in rs && x.id != id ==> x in Filter(rs, (x: Rel) => x.id != id)
    ensures IsSubseq(Filter(rs, (x: Rel) => x.id != id), rs)
  {
    FilterIsSubseq(rs, (x: Rel) => x.id != id);
  }

  /** None of the errors `create_rel` raises is a store failure, so the
      caller can tell which half of an update failed. */
  lemma CreateRelErrorsDiffer(source: Id, target: Id)
    ensures StoreFailed !in {NotConnected, NoIdReturned, "Source node not found: " + source,
                             "Target node not found: " + target}
  {
    assert StoreFailed[0] == 'N';
    assert ("Source node not found: " + source)[0] == 'S';
    assert ("Target node not found: " + target)[0] == 'T';
  }

  /** `update_rel(rel_id, ...)`: delete, then create. The new relationship
      gets a new identifier. When the deletion raises nothing has changed;
      when the creation fails the old relationship stays deleted. */
  method UpdateRel(loader: DataLoader, relId: Id, source: Id, target: Id, relType: string, props: Props)
    returns (r: Result<Rel>)
    requires loader.graph != null ==> loader.graph.Valid()
    modifies loader, loader.graph
    ensures loader.graph != null ==> loader.graph.Valid()
    ensures loader.graph == null ==> r == Failure(NotConnected) && loader.rels == old(loader.rels)
    ensures loader.nodes == old(loader.nodes)
    ensures loader.graph != null ==> loader.graph.nodes == old(loader.graph.nodes)
    ensures r.Success? ==>
      && loader.graph != null
      && r.value == Rel(r.value.id, source, target, relType, props)
      && r.value.id !in RelIdsOf(old(loader.graph.rels))
      && loader.rels == Filter(old(loader.rels), (x: Rel) => x.id != relId) + [r.value]
      && loader.graph.rels == Filter(old(loader.graph.rels), (x: Rel) => x.id != relId)
                              + [Rel(r.value.id, source, target, SafeRelType(relType), Stored(props))]
    ensures r == Failure(StoreFailed) ==>
      && loader.rels == old(loader.rels)
      && loader.graph != null && loader.graph.rels == old(loader.graph.rels)
    ensures r.Failure? && r != Failure(StoreFailed) && loader.graph != null ==>
      && loader.rels == Filter(old(loader.rels), (x: Rel) => x.id != relId)
      && loader.graph.rels == Filter(old(loader.graph.rels), (x: Rel) => x.id != relId)
    ensures r.Success? && relId in RelIdsOf(old(loader.graph.rels)) ==>
      forall x :: x in loader.rels ==> x.id != relId
  {
    var graph := loader.graph;
    if graph == null {
      return Failure(NotConnected);
    }
    ghost var rels0 := graph.rels;
    ghost var m0 := graph.minted;
    var deleted := DeleteRel(loader, relId);
    if deleted.Failure? {
      return Failure(deleted.error);
    }
    ghost var m1 := graph.minted;
    ghost var cache1 := loader.rels;
    r := CreateRel(loader, source, target, relType, props);
    if r.Success? {
      assert r.value.id == MintId(m1);
      assert m0 <= m1;
      assert MintId(m1) !in RelIdsOf(rels0);
      assert loader.rels == cache1 + [r.value];
    } else {
      CreateRelErrorsDiffer(source, target);
    }
  }
}

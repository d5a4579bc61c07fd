/** The snapshot cache: two lists mirroring the store's nodes and
    relationships, refilled by a full scan, plus the read-only queries the
    editor issues through it. */
module DataLoading {
  import opened Wrappers
  import opened Graph
  import opened Seqs
  import opened Store
  import opened Labels

  /** The cached form of a node-scan row: a missing property map becomes `{}`. */
  function NodeFromRecord(rec: NodeRecord): Node {
    Node(rec.id, rec.labels, if rec.props.Some? then rec.props.value else map[])
  }

  /** The cached form of a relationship-scan row. */
  function RelFromRecord(rec: RelRecord): Rel {
    Rel(rec.rid, rec.source, rec.target, rec.relType, if rec.props.Some? then rec.props.value else map[])
  }

  /** A full scan, turned back into cache records, is the store's contents. */
  lemma ScanMirrorsStore(ns: seq<Node>, rs: seq<Rel>)
    ensures SeqMap(NodeFromRecord, SeqMap(AsNodeRecord, ns)) == ns
    ensures SeqMap(RelFromRecord, SeqMap(AsRelRecord, rs)) == rs
  {
  }

  /** `get_graph_data()`: the two cache lists, not copies. */
  datatype GraphData = GraphData(nodes: seq<Node>, relationships: seq<Rel>)

  /** The label buckets in the form the source returns them: either `{}`
      or one entry per category name, where the bucket of category `c`
      holds exactly the labels of `all` that go to `c`, ascending. */
  ghost predicate IsCategorization(m: map<string, seq<string>>, all: set<string>) {
    && (forall k :: k in m <==> k in CategoryNames)
    && forall c :: 0 <= c < |CategoryNames| ==> CategoryNames[c] in m && IsBucketOf(m[CategoryNames[c]], all, c)
  }

  /** `b` lists, ascending, exactly the labels of `all` that go to bucket `c`. */
  ghost predicate IsBucketOf(b: seq<string>, all: set<string>, c: nat) {
    Sorted(b) && forall x :: x in b <==> x in all && CategoryOf(x) == c
  }

  /** `sorted(all_labels)` followed by the first-match bucketing loop. */
  method Categorized(all: set<string>) returns (m: map<string, seq<string>>)
    ensures IsCategorization(m, all)
  {
    var sorted := SortLabels(all);
    var buckets := Categorize(sorted);
    forall c | 0 <= c < |CategoryNames| ensures IsBucketOf(buckets[c], all, c) {
      BucketSorted(sorted, c);
    }
    m := map[];
    for c := 0 to |CategoryNames|
      invariant m.Keys == set k | 0 <= k < c :: CategoryNames[k]
      invariant forall k :: 0 <= k < c ==> m[CategoryNames[k]] == buckets[k]
    {
      CategoryNamesDistinct();
      m := m[CategoryNames[c] := buckets[c]];
    }
    forall x | x in CategoryNames ensures x in m {
      var k :| 0 <= k < |CategoryNames| && CategoryNames[k] == x;
    }
  }

  lemma CategoryNamesDistinct()
    ensures forall i, j :: 0 <= i < j < |CategoryNames| ==> CategoryNames[i] != CategoryNames[j]
  {
    assert forall i :: 0 <= i < |CategoryNames| ==> |CategoryNames[i]| >= 2;
    assert forall i, j :: 0 <= i < j < |CategoryNames| ==>
      CategoryNames[i][0] != CategoryNames[j][0] || CategoryNames[i][1] != CategoryNames[j][1];
  }

  class DataLoader {
    const graph: GraphStore?
    var nodes: seq<Node>
    var rels: seq<Rel>

    constructor (graph: GraphStore?)
      ensures this.graph == graph && nodes == [] && rels == []
    {
      this.graph := graph;
      nodes, rels := [], [];
    }

    /** `reload_db()`. Without a store: `False`, cache untouched. Otherwise
        both lists are cleared first and refilled row by row from the two
        scans; `True` exactly when both scans ran to the end, and then the
        cache holds the scanned rows in scan order. A scan that raises
        leaves whatever it had delivered (and an empty relationship list if
        the node scan was the one that raised). */
    method ReloadDb() returns (ok: bool)
      modifies this
      ensures graph == null ==> !ok && nodes == old(nodes) && rels == old(rels)
      ensures graph != null ==>
        && nodes <= SeqMap(NodeFromRecord, graph.NodeRecords())
        && rels <= SeqMap(RelFromRecord, graph.RelRecords())
        && (rels != [] ==> nodes == SeqMap(NodeFromRecord, graph.NodeRecords()))
      ensures ok ==> graph != null
                     && nodes == SeqMap(NodeFromRecord, graph.NodeRecords())
                     && rels == SeqMap(RelFromRecord, graph.RelRecords())
    {
      if graph == null {
        return false;
      }
      nodes := [];
      rels := [];
      ghost var allNodes := SeqMap(NodeFromRecord, graph.NodeRecords());
      ghost var allRels := SeqMap(RelFromRecord, graph.RelRecords());

      var nodeRows, nodeRaised := graph.ScanNodes();
      var i := 0;
      while i < |nodeRows|
        invariant 0 <= i <= |nodeRows|
        invariant nodes == SeqMap(NodeFromRecord, nodeRows[..i])
        invariant rels == []
      {
        assert nodeRows[..i + 1] == nodeRows[..i] + [nodeRows[i]];
        nodes := nodes + [NodeFromRecord(nodeRows[i])];
        i := i + 1;
      }
      assert nodeRows[..i] == nodeRows;
      assert nodes <= allNodes;
      if nodeRaised {
        return false;
      }

      var relRows, relRaised := graph.ScanRels();
      var j := 0;
      while j < |relRows|
        invariant 0 <= j <= |relRows|
        invariant rels == SeqMap(RelFromRecord, relRows[..j])
        invariant nodes == allNodes
      {
        assert relRows[..j + 1] == relRows[..j] + [relRows[j]];
        rels := rels + [RelFromRecord(relRows[j])];
        j := j + 1;
      }
      assert relRows[..j] == relRows;
      assert rels <= allRels;
      ok := !relRaised;
    }

    function GetGraphData(): GraphData
      reads this
    {
      GraphData(nodes, rels)
    }

    /** `get_relationships_for_structure(structure_id, face_ids)`: the
        `RELATIONSHIP` relationships between two Face nodes of `faceIds`,
        in store order. An empty `faceIds` answers `[]` without touching
        the store (so also without one); otherwise a missing store raises. */
    function GetRelationshipsForStructure(structureId: Id, faceIds: seq<Id>): (r: Result<seq<Rel>>)
      reads this, graph
      ensures faceIds == [] ==> r == Success([])
      ensures faceIds != [] && graph == null ==> r.Failure?
      ensures r.Success? && faceIds != [] ==>
        (graph != null &&
         forall x :: x in r.value <==>
           && x in graph.rels && x.relType == "RELATIONSHIP"
           && x.source in faceIds && x.target in faceIds
           && FaceNode(graph.nodes, x.source).Some? && FaceNode(graph.nodes, x.target).Some?)
    {
      if faceIds == [] then Success([])
      else if graph == null then Failure("'NoneType' object has no attribute 'run'")
      else
        var ns := graph.nodes;
        Success(Filter(graph.rels, (x: Rel) =>
          && x.relType == "RELATIONSHIP"
          && x.source in faceIds && x.target in faceIds
          && FaceNode(ns, x.source).Some? && FaceNode(ns, x.target).Some?))
    }

    /** `get_available_labels()`: every label of the store, bucketed. `{}`
        without a store or when the query raises. */
    method GetAvailableLabels() returns (labels: map<string, seq<string>>)
      ensures graph == null ==> labels == map[]
      ensures labels == map[] || (graph != null && IsCategorization(labels, graph.AllLabels()))
    {
      if graph == null {
        return map[];
      }
      var raised: bool :| true;
      if raised {
        return map[];
      }
      labels := Categorized(graph.AllLabels());
    }

    /** `get_structures_by_repository(repository_id)`: the labels of the
        repository's structures, bucketed the same way. */
    method GetStructuresByRepository(repositoryId: Id) returns (labels: map<string, seq<string>>)
      ensures graph == null ==> labels == map[]
      ensures labels == map[] || (graph != null && IsCategorization(labels, graph.StructureLabels(repositoryId)))
    {
      if graph == null {
        return map[];
      }
      var raised: bool :| true;
      if raised {
        return map[];
      }
      labels := Categorized(graph.StructureLabels(repositoryId));
    }
  }

  /** After a successful reload the snapshot is exactly the store's
      contents, in store order. */
  lemma GraphDataAfterReload(l: DataLoader)
    requires l.graph != null
    requires l.nodes == SeqMap(NodeFromRecord, l.graph.NodeRecords())
    requires l.rels == SeqMap(RelFromRecord, l.graph.RelRecords())
    ensures l.GetGraphData() == GraphData(l.graph.nodes, l.graph.rels)
  {
    ScanMirrorsStore(l.graph.nodes, l.graph.rels);
  }
}

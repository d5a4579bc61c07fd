/** The JSON-shaped exports: the whole cached snapshot, and the selective
    export of the nodes carrying chosen labels together with their faces
    and the relationships among them. */
module Export {
  import opened Wrappers
  import opened Graph
  import opened Seqs
  import opened Store
  import opened DataLoading
  import opened FlatImport
  import opened CleanImport

  const Version := "v8"

  /** The `export_data` document. */
  datatype ExportDoc = ExportDoc(nodes: seq<Node>, relationships: seq<Rel>, exportedAt: string, version: string)

  /** `export_data()`: one entry per cached node and one per cached
      relationship, in cache order, stamped with the time `now` (the
      ISO text of `datetime.now()`). */
  function ExportData(loader: DataLoader, now: string): (d: ExportDoc)
    reads loader
    ensures |d.nodes| == |loader.nodes| && |d.relationships| == |loader.rels|
    ensures forall i :: 0 <= i < |d.nodes| ==> d.nodes[i] == loader.nodes[i]
    ensures forall i :: 0 <= i < |d.relationships| ==> d.relationships[i] == loader.rels[i]
    ensures d.exportedAt == now && d.version == Version
  {
    ExportDoc(loader.nodes, loader.rels, now, Version)
  }

  /** An exported node read back as an import record. */
  function NodeAsDoc(n: Node): DocNode {
    DocNode(Str(n.id), Given(n.labels), Given(n.properties))
  }

  /** An exported relationship read back as an import record (the import
      ignores the relationship's own identifier). */
  function RelAsDoc(r: Rel): DocRel {
    DocRel(Str(r.source), Str(r.target), Given(r.relType), Given(r.properties))
  }

  /** An exported document read back as an import document. */
  function AsFlatDoc(d: ExportDoc): FlatDoc {
    FlatDoc(Given(SeqMap(NodeAsDoc, d.nodes)), Given(SeqMap(RelAsDoc, d.relationships)))
  }

  /** A snapshot that `clean_import_data` has nothing to remove from:
      distinct non-empty node ids, relationships between two different
      exported nodes with distinct `(source, target, type)` triples, and
      no empty or null property. */
  ghost predicate CleanSnapshot(ns: seq<Node>, rs: seq<Rel>) {
    && (forall k :: 0 <= k < |ns| ==> ns[k].id != "" && Normalize(ns[k].properties) == ns[k].properties)
    && (forall a, b :: 0 <= a < b < |ns| ==> ns[a].id != ns[b].id)
    && (forall x :: x in rs ==> x.source in NodeIdsOf(ns) && x.target in NodeIdsOf(ns) && x.source != x.target)
    && (forall a, b :: 0 <= a < b < |rs| ==>
          (rs[a].source, rs[a].target, rs[a].relType) != (rs[b].source, rs[b].target, rs[b].relType))
    && (forall k :: 0 <= k < |rs| ==> Normalize(rs[k].properties) == rs[k].properties)
  }

  /** The exported node records of a clean snapshot pass the node cleaner
      unchanged, and their identifiers are the stored ones as strings. */
  lemma ExportedNodesClean(ns: seq<Node>, rs: seq<Rel>)
    requires CleanSnapshot(ns, rs)
    ensures CleanNodes(SeqMap(NodeAsDoc, ns)) == Success(SeqMap(NodeAsDoc, ns))
    ensures IdsOf(SeqMap(NodeAsDoc, ns)) == set n | n in ns :: Str(n.id)
  {
    var docNodes := SeqMap(NodeAsDoc, ns);
    CleanNodesFixpoint(docNodes);
    forall v | v in IdsOf(docNodes) ensures v in set n | n in ns :: Str(n.id) {
      var o :| o in docNodes && o.id == v;
      var k :| 0 <= k < |docNodes| && docNodes[k] == o;
      assert ns[k] in ns;
    }
    forall n | n in ns ensures Str(n.id) in IdsOf(docNodes) {
      var k :| 0 <= k < |ns| && ns[k] == n;
      assert docNodes[k] in docNodes;
    }
  }

  /** The exported relationship records of a clean snapshot pass the
      relationship cleaner unchanged against the exported node ids. */
  lemma ExportedRelsClean(ns: seq<Node>, rs: seq<Rel>)
    requires CleanSnapshot(ns, rs)
    ensures CleanRels(SeqMap(RelAsDoc, rs), set n | n in ns :: Str(n.id)) == Success(SeqMap(RelAsDoc, rs))
  {
    var ids := set n | n in ns :: Str(n.id);
    var docRels := SeqMap(RelAsDoc, rs);
    forall x | x in docRels
      ensures x.source in ids && x.target in ids && x.source != x.target
    {
      var k :| 0 <= k < |docRels| && docRels[k] == x;
      assert rs[k] in rs;
      var a :| a in ns && a.id == rs[k].source;
      var b :| b in ns && b.id == rs[k].target;
    }
    CleanRelsFixpoint(docRels, ids);
  }

  /** Export then clean: a clean snapshot comes back from
      `clean_import_data` exactly as exported. */
  lemma ExportCleansToItself(loader: DataLoader, now: string)
    requires CleanSnapshot(loader.nodes, loader.rels)
    ensures CleanDoc(AsFlatDoc(ExportData(loader, now))) == Success(AsFlatDoc(ExportData(loader, now)))
  {
    ExportedNodesClean(loader.nodes, loader.rels);
    ExportedRelsClean(loader.nodes, loader.rels);
  }

  /** The `statistics` block of a selective export. */
  datatype Statistics = Statistics(totalNodes: nat, totalRelationships: nat,
                                   selectedFeatureNodes: nat, relatedFaceNodes: nat)

  /** The `selective_export` document. */
  datatype SelectiveDoc = SelectiveDoc(exportedAt: string, exportType: string, selectedLabels: seq<string>,
                                       nodes: seq<Node>, relationships: seq<Rel>, statistics: Statistics,
                                       version: string)

  /** Whether a node carries one of `labels`. */
  predicate HasAnyLabel(n: Node, labels: seq<string>) {
    exists l :: l in n.labels && l in labels
  }

  /** The identifiers of the stored nodes carrying one of `labels`. */
  function LabelledIds(ns: seq<Node>, labels: seq<string>): set<Id> {
    set n | n in ns && HasAnyLabel(n, labels) :: n.id
  }

  /** `len([n for n in ns if p(n)])`, counted node by node: the number of
      nodes the filter keeps. */
  function CountNodes(ns: seq<Node>, p: Node -> bool): (c: nat)
    ensures c == |Filter(ns, p)| <= |ns|
  {
    if ns == [] then 0
    else CountNodes(ns[..|ns| - 1], p) + (if p(ns[|ns| - 1]) then 1 else 0)
  }

  /** Appends each of `candidates` whose identifier is not yet in
      `nodeIds0`, in order, keeping the set of exported identifiers. */
  method AppendNew(exported0: seq<Node>, nodeIds0: set<Id>, candidates: seq<Node>)
    returns (exported: seq<Node>, nodeIds: set<Id>)
    requires nodeIds0 == NodeIdsOf(exported0) && DistinctNodeIds(exported0)
    ensures nodeIds == NodeIdsOf(exported) == nodeIds0 + NodeIdsOf(candidates)
    ensures DistinctNodeIds(exported) && |exported0| <= |exported| && exported[..|exported0|] == exported0
    ensures forall n :: n in exported[|exported0|..] ==> n in candidates
  {
    exported, nodeIds := exported0, nodeIds0;
    for j := 0 to |candidates|
      invariant nodeIds == NodeIdsOf(exported) == nodeIds0 + NodeIdsOf(candidates[..j])
      invariant DistinctNodeIds(exported) && |exported0| <= |exported| && exported[..|exported0|] == exported0
      invariant forall n :: n in exported[|exported0|..] ==> n in candidates
    {
      var node := candidates[j];
      assert candidates[..j + 1] == candidates[..j] + [node];
      NodeIdsOfAppend(candidates[..j], node);
      if node.id !in nodeIds {
        DistinctNodeIdsAppend(exported, node);
        NodeIdsOfAppend(exported, node);
        assert (exported + [node])[|exported0|..] == exported[|exported0|..] + [node];
        exported := exported + [node];
        nodeIds := nodeIds + {node.id};
      }
    }
    assert candidates[..|candidates|] == candidates;
  }

  /** The label pass: every node of every selected label, first
      occurrence of an identifier only. `ok` is false when a label query
      raises. */
  method LabelPass(graph: GraphStore, selected: seq<string>) returns (ok: bool, exported: seq<Node>, nodeIds: set<Id>)
    ensures ok ==> nodeIds == NodeIdsOf(exported) == LabelledIds(graph.nodes, selected)
    ensures ok ==> DistinctNodeIds(exported)
    ensures ok ==> forall n :: n in exported ==> n in graph.nodes && HasAnyLabel(n, selected)
  {
    ok, exported, nodeIds := true, [], {};
    for i := 0 to |selected|
      invariant nodeIds == NodeIdsOf(exported) == LabelledIds(graph.nodes, selected[..i])
      invariant DistinctNodeIds(exported)
      invariant forall n :: n in exported ==> n in graph.nodes && HasAnyLabel(n, selected[..i])
    {
      var labelled, raised := graph.QueryWithLabel(selected[i]);
      if raised {
        return false, exported, nodeIds;
      }
      ghost var before := exported;
      exported, nodeIds := AppendNew(exported, nodeIds, labelled);
      LabelledIdsStep(graph.nodes, selected, i);
      forall n | n in exported ensures n in graph.nodes && HasAnyLabel(n, selected[..i + 1]) {
        var k :| 0 <= k < |exported| && exported[k] == n;
        if k < |before| {
          assert n in before;
          var l :| l in n.labels && l in selected[..i];
          var m :| 0 <= m < i && selected[..i][m] == l;
          assert selected[..i + 1][m] == l;
        } else {
          assert n in exported[|before|..];
          assert selected[..i + 1][i] == selected[i];
        }
      }
    }
    assert selected[..|selected|] == selected;
  }

  lemma LabelledIdsStep(ns: seq<Node>, selected: seq<string>, i: nat)
    requires i < |selected|
    ensures LabelledIds(ns, selected[..i + 1]) == LabelledIds(ns, selected[..i]) + NodeIdsOf(WithLabel(ns, selected[i]))
  {
    var lhs, rhs := LabelledIds(ns, selected[..i + 1]), LabelledIds(ns, selected[..i]) + NodeIdsOf(WithLabel(ns, selected[i]));
    forall id | id in lhs ensures id in rhs {
      var n :| n in ns && HasAnyLabel(n, selected[..i + 1]) && n.id == id;
      var l :| l in n.labels && l in selected[..i + 1];
      if l != selected[i] {
        var k :| 0 <= k < i + 1 && selected[..i + 1][k] == l;
        assert l in selected[..i];
      } else {
        assert n in WithLabel(ns, selected[i]);
      }
    }
    forall id | id in rhs ensures id in lhs {
      if id in LabelledIds(ns, selected[..i]) {
        var n :| n in ns && HasAnyLabel(n, selected[..i]) && n.id == id;
        var l :| l in n.labels && l in selected[..i];
        var k :| 0 <= k < i && selected[..i][k] == l;
        assert selected[..i + 1][k] == l;
      } else {
        var n :| n in WithLabel(ns, selected[i]) && n.id == id;
        assert selected[..i + 1][i] == selected[i];
      }
    }
  }

  /** With no identifiers there is nothing linked and nothing within. */
  lemma NothingFromNoIds(ns: seq<Node>, rs: seq<Rel>)
    ensures FacesLinkedTo(ns, rs, {}) == [] && RelsWithin(rs, {}) == []
  {
    var fs, ws := FacesLinkedTo(ns, rs, {}), RelsWithin(rs, {});
    NoMemberEmpty(fs);
    NoMemberEmpty(ws);
  }

  /** `selective_export(selected_labels)`: the nodes carrying a selected
      label, then the Faces linked to them, each identifier once, and
      every relationship whose two endpoints were exported, stamped with
      the time `now`. A raising query re-raises. */
  method SelectiveExport(graph: GraphStore?, selected: seq<string>, now: string) returns (r: Result<SelectiveDoc>)
    ensures graph == null <==> r == Failure("Database not connected")
    ensures graph != null && r.Failure? ==> r == Failure(StoreFailed)
    ensures r.Success? ==>
      var d := r.value;
      && d.exportedAt == now && d.exportType == "selective" && d.version == Version
      && d.selectedLabels == selected
      && DistinctNodeIds(d.nodes)
      && (forall n :: n in d.nodes ==> n in graph.nodes)
      && NodeIdsOf(d.nodes) == LabelledIds(graph.nodes, selected)
                              + NodeIdsOf(FacesLinkedTo(graph.nodes, graph.rels, LabelledIds(graph.nodes, selected)))
      && d.relationships == RelsWithin(graph.rels, NodeIdsOf(d.nodes))
      && (forall x :: x in d.relationships ==> x.source in NodeIdsOf(d.nodes) && x.target in NodeIdsOf(d.nodes))
      && d.statistics == Statistics(|d.nodes|, |d.relationships|,
                                    CountNodes(d.nodes, (n: Node) => HasAnyLabel(n, selected)),
                                    CountNodes(d.nodes, (n: Node) => "Face" in n.labels))
  {
    if graph == null {
      return Failure("Database not connected");
    }
    var ok, exported, nodeIds := LabelPass(graph, selected);
    if !ok {
      return Failure(StoreFailed);
    }
    NothingFromNoIds(graph.nodes, graph.rels);
    if nodeIds != {} {
      var faces, raised := graph.QueryFacesLinkedTo(nodeIds);
      if raised {
        return Failure(StoreFailed);
      }
      exported, nodeIds := AppendNew(exported, nodeIds, faces);
    }
    var rels: seq<Rel> := [];
    if nodeIds != {} {
      var raised;
      rels, raised := graph.QueryRelsWithin(nodeIds);
      if raised {
        return Failure(StoreFailed);
      }
    }
    var stats := Statistics(|exported|, |rels|,
                            CountNodes(exported, (n: Node) => HasAnyLabel(n, selected)),
                            CountNodes(exported, (n: Node) => "Face" in n.labels));
    r := Success(SelectiveDoc(now, "selective", selected, exported, rels, stats, Version));
  }
}

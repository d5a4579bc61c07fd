/** Import of a flat graph document `{nodes: [...], relationships: [...]}`:
    every document node becomes a new store node with a store-minted
    identifier, document identifiers are remapped through `id_map`, and a
    relationship is created only between two remapped, distinct nodes. */
module FlatImport {
  import opened Wrappers
  import opened Graph
  import opened Seqs
  import opened Store
  import opened DataLoading

  /** A node record of the document. `id` is what `node.get("id")` reads
      (`Null` when missing); the other two keep missing and null apart. */
  datatype DocNode = DocNode(id: Value, labels: Field<seq<string>>, properties: Field<Props>)

  /** A relationship record of the document; `source`/`target` as
      `rel.get("source")` reads them. */
  datatype DocRel = DocRel(source: Value, target: Value, relType: Field<string>, properties: Field<Props>)

  datatype FlatDoc = FlatDoc(nodes: Field<seq<DocNode>>, relationships: Field<seq<DocRel>>)

  /** The counters `import_data` keeps and reports. */
  datatype ImportCounts = ImportCounts(createdNodes: nat, createdRels: nat, skippedRels: nat)

  /** `for x in data.get(key, [])`: a missing list is empty; a null one
      cannot be iterated. */
  function ListOr<T>(f: Field<seq<T>>): (r: Result<seq<T>>)
    ensures f.Absent? ==> r == Success([])
    ensures f.Null? ==> r.Failure?
    ensures f.Given? ==> r == Success(f.value)
  {
    match f
    case Absent => Success([])
    case Null => Failure("'NoneType' object is not iterable")
    case Given(l) => Success(l)
  }

  /** What `len(data.get(key, []))` raises on a null list; `import_data`
      takes the length of each list before walking it. */
  const NoLen := "object of type 'NoneType' has no len()"

  /** `node_data.get("labels") or ["Node"]`. */
  function ImportLabels(f: Field<seq<string>>): seq<string> {
    if f.Given? && f.value != [] then f.value else ["Node"]
  }

  /** `dict(x.get("properties") or {})` with empty-string and null values
      dropped. */
  function ImportProps(f: Field<Props>): Props {
    if f.Given? then Normalize(f.value) else map[]
  }

  /** Normalised properties hold no null, so the store keeps them as
      they are. */
  lemma ImportPropsStored(f: Field<Props>)
    ensures Stored(ImportProps(f)) == ImportProps(f)
  {
    StoredWithoutNull(ImportProps(f));
  }

  /** `rel_data.get("type") or "RELATED"`. */
  function ImportRelType(f: Field<string>): string {
    if f.Given? && f.value != "" then f.value else "RELATED"
  }

  /** `created[t]` is the store node made for document node `origin[t]`,
      with the labels and properties the import sends; `origin` ascends. */
  ghost predicate NodesFromDoc(created: seq<Node>, origin: seq<nat>, docNodes: seq<DocNode>, bound: nat) {
    && |created| == |origin|
    && bound <= |docNodes|
    && (forall s, t :: 0 <= s < t < |origin| ==> origin[s] < origin[t])
    && forall t :: 0 <= t < |origin| ==>
         && origin[t] < bound
         && created[t].labels == ImportLabels(docNodes[origin[t]].labels)
         && created[t].properties == ImportProps(docNodes[origin[t]].properties)
  }

  /** The document identifier of the t-th created node (`None` past the end). */
  function DocIdAt(docNodes: seq<DocNode>, origin: seq<nat>, t: nat): Value {
    if t < |origin| && origin[t] < |docNodes| then docNodes[origin[t]].id else Value.Null
  }

  /** The t-th created node is the last one created for document
      identifier `k`, and it got the store identifier `v`. */
  ghost predicate WinsAt(k: Value, v: Id, t: nat, created: seq<Node>, origin: seq<nat>, docNodes: seq<DocNode>) {
    && t < |created| && DocIdAt(docNodes, origin, t) == k && created[t].id == v
    && forall u :: t < u < |origin| ==> DocIdAt(docNodes, origin, u) != k
  }

  /** `id_map` after the node loop: its keys are exactly the truthy
      document identifiers of created nodes, and each maps to the node
      created for the LAST such document node. */
  ghost predicate IdMapLastWins(idMap: map<Value, Id>, created: seq<Node>, origin: seq<nat>, docNodes: seq<DocNode>) {
    && (forall t :: 0 <= t < |origin| && Truthy(DocIdAt(docNodes, origin, t)) ==> DocIdAt(docNodes, origin, t) in idMap)
    && forall k :: k in idMap ==> Truthy(k) && exists t: nat :: WinsAt(k, idMap[k], t, created, origin, docNodes)
  }

  /** A node created for another document identifier leaves the winner
      of `k` in place. */
  lemma WinsAtKept(k: Value, v: Id, t: nat, created: seq<Node>, origin: seq<nat>, docNodes: seq<DocNode>,
                   i: nat, n: Node)
    requires |created| == |origin| && i < |docNodes| && docNodes[i].id != k
    requires WinsAt(k, v, t, created, origin, docNodes)
    ensures WinsAt(k, v, t, created + [n], origin + [i], docNodes)
  {
    var o := origin + [i];
    forall u | t < u < |o| ensures DocIdAt(docNodes, o, u) != k {
      if u < |origin| {
        assert o[u] == origin[u];
        assert DocIdAt(docNodes, origin, u) != k;
      } else {
        assert o[u] == i;
        assert DocIdAt(docNodes, o, u) == docNodes[i].id;
      }
    }
    assert o[t] == origin[t];
  }

  /** One created node keeps `id_map` last-wins: its truthy document
      identifier now maps to it, and every other key keeps its witness. */
  lemma IdMapStep(idMap: map<Value, Id>, created: seq<Node>, origin: seq<nat>, docNodes: seq<DocNode>,
                  i: nat, n: Node)
    requires |created| == |origin| && i < |docNodes|
    requires IdMapLastWins(idMap, created, origin, docNodes)
    ensures IdMapLastWins(if Truthy(docNodes[i].id) then idMap[docNodes[i].id := n.id] else idMap,
                          created + [n], origin + [i], docNodes)
  {
    var id := docNodes[i].id;
    var m := if Truthy(id) then idMap[id := n.id] else idMap;
    var c, o := created + [n], origin + [i];
    var last := |origin|;
    assert DocIdAt(docNodes, o, last) == id;
    forall t | 0 <= t < |o| && Truthy(DocIdAt(docNodes, o, t)) ensures DocIdAt(docNodes, o, t) in m {
      if t < |origin| {
        assert o[t] == origin[t];
        assert DocIdAt(docNodes, origin, t) in idMap;
      }
    }
    forall k | k in m ensures Truthy(k) && exists t: nat :: WinsAt(k, m[k], t, c, o, docNodes) {
      if Truthy(id) && k == id {
        assert WinsAt(k, m[k], last, c, o, docNodes);
      } else {
        var t: nat :| WinsAt(k, idMap[k], t, created, origin, docNodes);
        WinsAtKept(k, idMap[k], t, created, origin, docNodes, i, n);
      }
    }
  }

  /** Nodes appended to a store with distinct identifiers have identifiers
      the store did not hold before. */
  lemma AppendedAreFresh(before: seq<Node>, added: seq<Node>)
    requires DistinctNodeIds(before + added)
    ensures forall t :: 0 <= t < |added| ==> added[t].id !in NodeIdsOf(before)
  {
    forall t | 0 <= t < |added| ensures added[t].id !in NodeIdsOf(before) {
      assert (before + added)[|before| + t] == added[t];
      assert forall s :: 0 <= s < |before| ==> (before + added)[s] == before[s];
    }
  }

  /** The node loop of `import_data`. Each document node is sent to the
      store with its labels (or `["Node"]`) and its normalised properties;
      when the store returns an identifier the node is counted and, if its
      document identifier is truthy, `id_map` maps that identifier to the
      new one, a later node with the same identifier overriding an earlier
      one. `origin[t]` is the document index of the t-th created node. */
  method ImportNodes(graph: GraphStore, docNodes: seq<DocNode>)
    returns (createdCount: nat, idMap: map<Value, Id>, ghost created: seq<Node>, ghost origin: seq<nat>)
    requires graph.Valid()
    modifies graph
    ensures graph.Valid() && graph.rels == old(graph.rels)
    ensures graph.nodes == old(graph.nodes) + created
    ensures createdCount == |created| <= |docNodes|
    ensures NodesFromDoc(created, origin, docNodes, |docNodes|)
    ensures forall t :: 0 <= t < |created| ==> created[t].id !in old(graph.NodeIds())
    ensures IdMapLastWins(idMap, created, origin, docNodes)
  {
    createdCount, idMap, created, origin := 0, map[], [], [];
    for i := 0 to |docNodes|
      invariant graph.Valid() && graph.rels == old(graph.rels)
      invariant graph.nodes == old(graph.nodes) + created
      invariant createdCount == |created| <= i
      invariant NodesFromDoc(created, origin, docNodes, i)
      invariant IdMapLastWins(idMap, created, origin, docNodes)
    {
      var dn := docNodes[i];
      var labels := ImportLabels(dn.labels);
      var props := ImportProps(dn.properties);
      ImportPropsStored(dn.properties);
      // a creation that raises is logged and skipped like one without an id
      var newId, raised := graph.CreateNode(labels, props);
      if newId.Some? {
        ghost var n := Node(newId.value, labels, props);
        IdMapStep(idMap, created, origin, docNodes, i, n);
        if Truthy(dn.id) {
          idMap := idMap[dn.id := newId.value];
        }
        created, origin := created + [n], origin + [i];
        createdCount := createdCount + 1;
      }
    }
    AppendedAreFresh(old(graph.nodes), created);
  }

  /** The relationship `x` is what the relationship loop creates for the
      document record `dr`: both endpoints are in `id_map` and map to
      different nodes, which `x` joins under the sanitised type and the
      normalised properties. */
  ghost predicate RelFromDoc(x: Rel, dr: DocRel, idMap: map<Value, Id>) {
    && dr.source in idMap && dr.target in idMap
    && idMap[dr.source] != idMap[dr.target]
    && x == Rel(x.id, idMap[dr.source], idMap[dr.target], SafeRelType(ImportRelType(dr.relType)), ImportProps(dr.properties))
  }

  /** Appending the relationship created for record `i` keeps the
      relationship loop's account of what it created. */
  lemma RelsStep(created: seq<Rel>, origin: seq<nat>, docRels: seq<DocRel>, idMap: map<Value, Id>, i: nat, x: Rel)
    requires |created| == |origin| && i < |docRels|
    requires forall s, t :: 0 <= s < t < |origin| ==> origin[s] < origin[t]
    requires forall u :: 0 <= u < |origin| ==> origin[u] < i && RelFromDoc(created[u], docRels[origin[u]], idMap)
    requires RelFromDoc(x, docRels[i], idMap)
    ensures forall s, t :: 0 <= s < t < |origin| + 1 ==> (origin + [i])[s] < (origin + [i])[t]
    ensures forall u :: 0 <= u < |origin| + 1 ==>
      (origin + [i])[u] < i + 1 && RelFromDoc((created + [x])[u], docRels[(origin + [i])[u]], idMap)
  {
  }

  /** The relationship loop of `import_data`. A record whose source or
      target is not in `id_map` is skipped, so is one whose endpoints map to
      the same node, and so is one the store fails to create; any other is
      created with the sanitised type (or `RELATED`) and the normalised
      properties. `origin[u]` is the document index of the u-th created
      relationship. */
  method ImportRels(graph: GraphStore, docRels: seq<DocRel>, idMap: map<Value, Id>)
    returns (createdCount: nat, skippedCount: nat, ghost created: seq<Rel>, ghost origin: seq<nat>)
    requires graph.Valid()
    requires forall k :: k in idMap ==> idMap[k] in graph.NodeIds()
    modifies graph
    ensures graph.Valid() && graph.nodes == old(graph.nodes)
    ensures graph.rels == old(graph.rels) + created
    ensures createdCount == |created| == |origin|
    ensures createdCount + skippedCount == |docRels|
    ensures forall s, t :: 0 <= s < t < |origin| ==> origin[s] < origin[t]
    ensures forall u :: 0 <= u < |origin| ==> origin[u] < |docRels| && RelFromDoc(created[u], docRels[origin[u]], idMap)
  {
    createdCount, skippedCount, created, origin := 0, 0, [], [];
    for i := 0 to |docRels|
      invariant graph.Valid() && graph.nodes == old(graph.nodes)
      invariant graph.rels == old(graph.rels) + created
      invariant createdCount == |created| == |origin|
      invariant createdCount + skippedCount == i
      invariant forall s, t :: 0 <= s < t < |origin| ==> origin[s] < origin[t]
      invariant forall u :: 0 <= u < |origin| ==> origin[u] < i && RelFromDoc(created[u], docRels[origin[u]], idMap)
    {
      var dr := docRels[i];
      var relType := ImportRelType(dr.relType);
      var props := ImportProps(dr.properties);
      ImportPropsStored(dr.properties);
      if dr.source !in idMap || dr.target !in idMap {
        skippedCount := skippedCount + 1;
      } else {
        var source, target := idMap[dr.source], idMap[dr.target];
        if source == target {
          skippedCount := skippedCount + 1;
        } else {
          var safeType := SafeRelType(relType);
          var id := graph.CreateRel(source, target, safeType, props);
          if id.Some? {
            ghost var x := Rel(id.value, source, target, safeType, props);
            RelsStep(created, origin, docRels, idMap, i, x);
            created, origin := created + [x], origin + [i];
            createdCount := createdCount + 1;
          } else {
            skippedCount := skippedCount + 1;
          }
        }
      }
    }
  }

  /** Every relationship the relationship loop creates joins two different
      nodes that the node loop created, under a type with no quoting
      character. */
  lemma NewRelsJoinNewNodes(created: seq<Rel>, origin: seq<nat>, docRels: seq<DocRel>, idMap: map<Value, Id>,
                            newIds: set<Id>)
    requires |created| == |origin|
    requires forall u :: 0 <= u < |origin| ==> origin[u] < |docRels| && RelFromDoc(created[u], docRels[origin[u]], idMap)
    requires forall k :: k in idMap ==> idMap[k] in newIds
    ensures forall x :: x in created ==>
      && x.source != x.target && x.source in newIds && x.target in newIds
      && forall i :: 0 <= i < |x.relType| ==> !IsQuote(x.relType[i])
  {
    forall x | x in created
      ensures && x.source != x.target && x.source in newIds && x.target in newIds
              && forall i :: 0 <= i < |x.relType| ==> !IsQuote(x.relType[i])
    {
      var u :| 0 <= u < |created| && created[u] == x;
      forall i | 0 <= i < |x.relType| ensures !IsQuote(x.relType[i]) {
        assert x.relType[i] in x.relType;
      }
    }
  }

  /** `import_data(data)`: the node loop, the relationship loop, then a
      cache reload whose outcome is ignored, and `True`. Raises without a
      store, and when a list field is null. `counts` are the counters the
      import logs. */
  method ImportData(loader: DataLoader, d: FlatDoc) returns (r: Result<bool>, ghost counts: ImportCounts)
    requires loader.graph != null ==> loader.graph.Valid()
    modifies loader, loader.graph
    ensures loader.graph != null ==> loader.graph.Valid()
    ensures loader.graph == null ==> r == Failure("Database not connected")
    ensures r.Success? ==> r.value
    ensures r.Failure? ==> loader.nodes == old(loader.nodes) && loader.rels == old(loader.rels)
    ensures r.Failure? && loader.graph != null ==> loader.graph.rels == old(loader.graph.rels)
    ensures loader.graph != null && (d.nodes.Null? || d.relationships.Null?) ==> r == Failure(NoLen)
    ensures d.nodes.Null? && loader.graph != null ==> loader.graph.nodes == old(loader.graph.nodes)
    ensures r.Success? ==>
      && loader.graph != null
      && ListOr(d.nodes).Success? && ListOr(d.relationships).Success?
      && |loader.graph.nodes| == |old(loader.graph.nodes)| + counts.createdNodes
      && |loader.graph.rels| == |old(loader.graph.rels)| + counts.createdRels
      && counts.createdNodes <= |ListOr(d.nodes).value|
      && counts.createdRels + counts.skippedRels == |ListOr(d.relationships).value|
      && loader.nodes <= loader.graph.nodes && loader.rels <= loader.graph.rels
    ensures r.Success? ==> forall x :: x in loader.graph.rels && x !in old(loader.graph.rels) ==>
      && x.source != x.target
      && x.source in loader.graph.NodeIds() && x.source !in old(loader.graph.NodeIds())
      && x.target in loader.graph.NodeIds() && x.target !in old(loader.graph.NodeIds())
      && forall i :: 0 <= i < |x.relType| ==> !IsQuote(x.relType[i])
  {
    counts := ImportCounts(0, 0, 0);
    var graph := loader.graph;
    if graph == null {
      return Failure("Database not connected"), counts;
    }
    var nodes := ListOr(d.nodes);
    if nodes.Failure? {
      return Failure(NoLen), counts;
    }
    ghost var nodes0, rels0 := graph.nodes, graph.rels;
    var createdNodes, idMap, createdSeq, nodeOrigin := ImportNodes(graph, nodes.value);
    assert forall k :: k in idMap ==> idMap[k] in NodeIdsOf(createdSeq) by {
      forall k | k in idMap ensures idMap[k] in NodeIdsOf(createdSeq) {
        var t: nat :| WinsAt(k, idMap[k], t, createdSeq, nodeOrigin, nodes.value);
        assert createdSeq[t] in createdSeq;
      }
    }
    assert forall x :: x in NodeIdsOf(createdSeq) ==> x in graph.NodeIds() && x !in NodeIdsOf(nodes0) by {
      forall x | x in NodeIdsOf(createdSeq) ensures x in graph.NodeIds() && x !in NodeIdsOf(nodes0) {
        var t :| 0 <= t < |createdSeq| && createdSeq[t].id == x;
        assert graph.nodes[|nodes0| + t] == createdSeq[t];
      }
    }
    var rels := ListOr(d.relationships);
    if rels.Failure? {
      return Failure(NoLen), counts;
    }
    var createdRels, skippedRels, relSeq, relOrigin := ImportRels(graph, rels.value, idMap);
    NewRelsJoinNewNodes(relSeq, relOrigin, rels.value, idMap, NodeIdsOf(createdSeq));
    var reloaded := loader.ReloadDb();
    ScanMirrorsStore(graph.nodes, graph.rels);
    counts := ImportCounts(createdNodes, createdRels, skippedRels);
    r := Success(true);
  }
}

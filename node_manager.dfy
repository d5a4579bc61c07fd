/** Node editing: every write goes to the store first and is then mirrored
    into the snapshot cache, so the cache stays a picture of the store
    without a reload. */
module NodeManagement {
  import opened Wrappers
  import opened Graph
  import opened Seqs
  import opened Store
  import opened DataLoading

  const NotConnected := "Database not connected"

  /** `create_node(labels, properties)`: creates the node in the store and
      appends exactly one record for it to the cached nodes. Raises when
      there is no store, when the query raises, or when the store hands
      back no identifier. */
  method CreateNode(loader: DataLoader, labels: seq<string>, props: Props) returns (r: Result<Node>)
    requires loader.graph != null ==> loader.graph.Valid()
    modifies loader, loader.graph
    ensures loader.graph != null ==> loader.graph.Valid()
    ensures loader.graph == null ==> r == Failure(NotConnected)
    ensures loader.rels == old(loader.rels)
    ensures loader.graph != null ==> loader.graph.rels == old(loader.graph.rels)
    ensures r.Success? ==>
      && loader.graph != null
      && r.value == Node(r.value.id, labels, props)
      && r.value.id !in old(loader.graph.NodeIds())
      && loader.graph.nodes == old(loader.graph.nodes) + [Node(r.value.id, labels, Stored(props))]
      && loader.nodes == old(loader.nodes) + [r.value]
    ensures r.Failure? ==> loader.nodes == old(loader.nodes)
    ensures r.Failure? && loader.graph != null ==>
      && (r.error == StoreFailed || r.error == "Failed to create node - no result returned")
      && loader.graph.nodes == old(loader.graph.nodes)
  {
    var graph := loader.graph;
    if graph == null {
      return Failure(NotConnected);
    }
    var id, raised := graph.CreateNode(labels, props);
    if raised {
      return Failure(StoreFailed);
    }
    if id.None? {
      return Failure("Failed to create node - no result returned");
    }
    var node := Node(id.value, labels, props);
    loader.nodes := loader.nodes + [node];
    r := Success(node);
  }

  /** The index of the first node with identifier `id`, or `|ns|` when
      there is none. */
  function FirstIndex(ns: seq<Node>, id: Id): (k: nat)
    ensures k <= |ns|
    ensures k < |ns| ==> ns[k].id == id
    ensures forall j :: 0 <= j < k ==> ns[j].id != id
    ensures k == |ns| <==> id !in NodeIdsOf(ns)
  {
    if ns == [] then 0
    else if ns[0].id == id then 0
    else 1 + FirstIndex(ns[1..], id)
  }

  /** The cache after `update_node`: the first node with identifier `id`
      gets the new labels and properties; everything else is kept. */
  function UpdateFirst(ns: seq<Node>, id: Id, labels: seq<string>, props: Props): seq<Node> {
    var k := FirstIndex(ns, id);
    if k < |ns| then ns[k := Node(id, labels, props)] else ns
  }

  /** Only the first match changes: with no node `id` the cache is
      unchanged, otherwise only the entry at the first index holding `id`
      is replaced, and its identifier stays the same. */
  lemma UpdateFirstChangesFirstMatchOnly(ns: seq<Node>, id: Id, labels: seq<string>, props: Props)
    ensures id !in NodeIdsOf(ns) ==> UpdateFirst(ns, id, labels, props) == ns
    ensures |UpdateFirst(ns, id, labels, props)| == |ns|
    ensures NodeIdsOf(UpdateFirst(ns, id, labels, props)) == NodeIdsOf(ns)
    ensures id in NodeIdsOf(ns) ==> UpdateFirst(ns, id, labels, props)[FirstIndex(ns, id)] == Node(id, labels, props)
    ensures forall j :: 0 <= j < |ns| && j != FirstIndex(ns, id) ==> UpdateFirst(ns, id, labels, props)[j] == ns[j]
  {
    var k := FirstIndex(ns, id);
    var r := UpdateFirst(ns, id, labels, props);
    if k < |ns| {
      assert r == ns[k := Node(id, labels, props)];
      assert forall i :: 0 <= i < |ns| ==> r[i].id == ns[i].id;
      forall x | x in NodeIdsOf(ns) ensures x in NodeIdsOf(r) {
        var i :| 0 <= i < |ns| && ns[i].id == x;
        assert r[i] in r;
      }
      forall x | x in NodeIdsOf(r) ensures x in NodeIdsOf(ns) {
        var i :| 0 <= i < |r| && r[i].id == x;
        assert ns[i] in ns;
      }
    }
  }

  /** The labels of a stored node after `update_node`: the labels read
      beforehand (`current`) removed, then each new label set in turn. */
  function UpdatedLabels(was: seq<string>, current: seq<string>, labels: seq<string>): seq<string> {
    AddLabels(Unlabel(was, current), labels)
  }

  /** What `update_node` leaves on the node's labels. When the labels were
      read, exactly the new labels remain, without duplicates; when reading
      them failed (`current` is `[]`), the old labels stay beside the new
      ones. */
  lemma UpdatedLabelsSet(was: seq<string>, current: seq<string>, labels: seq<string>)
    ensures current == was ==> forall l :: l in UpdatedLabels(was, current, labels) <==> l in labels
    ensures current == was ==> NoDuplicates(UpdatedLabels(was, current, labels))
    ensures current == [] ==> forall l :: l in UpdatedLabels(was, current, labels) <==> l in was || l in labels
  {
    if current == was {
      assert Unlabel(was, current) == [] by {
        NoMemberEmpty(Unlabel(was, current));
      }
    }
  }

  /** The first writes of `update_node`: `REMOVE` the labels read, when
      there are any, then `SET n = $props`. `ok` is false when a write
      raised; the writes before it stay. */
  method ClearAndSet(graph: GraphStore, id: Id, current: seq<string>, props: Props) returns (ok: bool)
    requires graph.Valid()
    modifies graph
    ensures graph.Valid() && graph.rels == old(graph.rels)
    ensures NodeIdsOf(graph.nodes) == NodeIdsOf(old(graph.nodes)) && |graph.nodes| == |old(graph.nodes)|
    ensures ok ==> forall i :: 0 <= i < |graph.nodes| ==>
      graph.nodes[i] == if old(graph.nodes)[i].id == id then Node(id, Unlabel(old(graph.nodes)[i].labels, current), Stored(props))
                        else old(graph.nodes)[i]
  {
    ghost var nodes0 := graph.nodes;
    WrittenKeepsIds(nodes0, id, RemoveLabels(current));
    if current != [] {
      ok := graph.WriteNode(id, RemoveLabels(current));
      if !ok {
        return;
      }
    }
    ghost var nodes1 := graph.nodes;
    WrittenKeepsIds(nodes1, id, SetProps(props));
    ok := graph.WriteNode(id, SetProps(props));
  }

  /** The label loop of `update_node`: `SET n:label` for each new label in
      turn. `ok` is false when a write raised; the labels set before it
      stay. */
  method SetLabels(graph: GraphStore, id: Id, labels: seq<string>) returns (ok: bool)
    requires graph.Valid()
    modifies graph
    ensures graph.Valid() && graph.rels == old(graph.rels)
    ensures NodeIdsOf(graph.nodes) == NodeIdsOf(old(graph.nodes)) && |graph.nodes| == |old(graph.nodes)|
    ensures ok ==> forall i :: 0 <= i < |graph.nodes| ==>
      graph.nodes[i] == if old(graph.nodes)[i].id == id
                        then Node(id, AddLabels(old(graph.nodes)[i].labels, labels), old(graph.nodes)[i].properties)
                        else old(graph.nodes)[i]
  {
    ok := true;
    for j := 0 to |labels|
      invariant graph.Valid() && graph.rels == old(graph.rels)
      invariant NodeIdsOf(graph.nodes) == NodeIdsOf(old(graph.nodes)) && |graph.nodes| == |old(graph.nodes)|
      invariant forall i :: 0 <= i < |graph.nodes| ==>
        graph.nodes[i] == if old(graph.nodes)[i].id == id
                          then Node(id, AddLabels(old(graph.nodes)[i].labels, labels[..j]), old(graph.nodes)[i].properties)
                          else old(graph.nodes)[i]
    {
      ghost var before := graph.nodes;
      WrittenKeepsIds(before, id, AddLabel(labels[j]));
      ok := graph.WriteNode(id, AddLabel(labels[j]));
      if !ok {
        return;
      }
      assert labels[..j + 1][..j] == labels[..j];
    }
    assert labels[..|labels|] == labels;
  }

  /** `update_node(node_id, labels, properties)`: reads the node's labels
      (`[]` when that fails), removes them if there were any, replaces the
      property map, sets each new label, and then rewrites the first cached
      record with that identifier. A raising write re-raises and leaves the
      cache untouched (the store keeps the writes already made). */
  method UpdateNode(loader: DataLoader, id: Id, labels: seq<string>, props: Props)
    returns (r: Result<bool>, ghost current: seq<string>)
    requires loader.graph != null ==> loader.graph.Valid()
    modifies loader, loader.graph
    ensures loader.graph != null ==> loader.graph.Valid()
    ensures loader.graph == null ==> r == Failure(NotConnected) && loader.nodes == old(loader.nodes)
    ensures loader.rels == old(loader.rels)
    ensures loader.graph != null ==>
      && loader.graph.rels == old(loader.graph.rels)
      && NodeIdsOf(loader.graph.nodes) == NodeIdsOf(old(loader.graph.nodes))
      && (current == [] || (NodeById(old(loader.graph.nodes), id).Some? &&
                            current == NodeById(old(loader.graph.nodes), id).value.labels))
    ensures r.Failure? ==> loader.nodes == old(loader.nodes)
    ensures r.Failure? && loader.graph != null ==> r == Failure(StoreFailed)
    ensures r.Success? ==>
      && loader.graph != null && r.value
      && loader.nodes == UpdateFirst(old(loader.nodes), id, labels, props)
      && |loader.graph.nodes| == |old(loader.graph.nodes)|
      && forall i :: 0 <= i < |loader.graph.nodes| ==>
           loader.graph.nodes[i] == if old(loader.graph.nodes)[i].id == id
                                    then Node(id, UpdatedLabels(old(loader.graph.nodes)[i].labels, current, labels), Stored(props))
                                    else old(loader.graph.nodes)[i]
  {
    current := [];
    var graph := loader.graph;
    if graph == null {
      return Failure(NotConnected), current;
    }
    ghost var nodes0 := graph.nodes;
    var read := GetNodeLabels(graph, id);
    current := read;
    var ok := ClearAndSet(graph, id, read, props);
    if ok {
      ghost var nodes1 := graph.nodes;
      ok := SetLabels(graph, id, labels);
      if ok {
        forall i | 0 <= i < |graph.nodes|
          ensures graph.nodes[i] == if nodes0[i].id == id then Node(id, UpdatedLabels(nodes0[i].labels, current, labels), Stored(props))
                                    else nodes0[i]
        {
          assert nodes1[i].id == nodes0[i].id;
        }
      }
    }
    if !ok {
      return Failure(StoreFailed), current;
    }
    var i := 0;
    while i < |loader.nodes|
      invariant 0 <= i <= |loader.nodes|
      invariant loader.nodes == old(loader.nodes)
      invariant loader.rels == old(loader.rels)
      invariant forall j :: 0 <= j < i ==> loader.nodes[j].id != id
    {
      if loader.nodes[i].id == id {
        loader.nodes := loader.nodes[i := Node(id, labels, props)];
        return Success(true), current;
      }
      i := i + 1;
    }
    return Success(true), current;
  }

  /** `delete_node(node_id)`: detach-deletes the node in the store, then
      drops the node and every relationship touching it from the cache. A
      raising delete re-raises with store and cache untouched. */
  method DeleteNode(loader: DataLoader, id: Id) returns (r: Result<bool>)
    requires loader.graph != null ==> loader.graph.Valid()
    modifies loader, loader.graph
    ensures loader.graph != null ==> loader.graph.Valid()
    ensures loader.graph == null ==> r == Failure(NotConnected)
    ensures r.Failure? ==> loader.nodes == old(loader.nodes) && loader.rels == old(loader.rels)
    ensures r.Failure? && loader.graph != null ==>
      && r == Failure(StoreFailed)
      && loader.graph.nodes == old(loader.graph.nodes) && loader.graph.rels == old(loader.graph.rels)
    ensures r.Success? ==>
      && loader.graph != null && r.value
      && loader.graph.nodes == Filter(old(loader.graph.nodes), (n: Node) => n.id != id)
      && loader.graph.rels == Filter(old(loader.graph.rels), (x: Rel) => x.source != id && x.target != id)
      && loader.nodes == Filter(old(loader.nodes), (n: Node) => n.id != id)
      && loader.rels == Filter(old(loader.rels), (x: Rel) => x.source != id && x.target != id)
  {
    var graph := loader.graph;
    if graph == null {
      return Failure(NotConnected);
    }
    var ok := graph.DetachDelete(id);
    if !ok {
      return Failure(StoreFailed);
    }
    loader.nodes := Filter(loader.nodes, (n: Node) => n.id != id);
    loader.rels := Filter(loader.rels, (x: Rel) => x.source != id && x.target != id);
    r := Success(true);
  }

  /** What deleting a node does to the cache: no record of the node and no
      relationship touching it is left, every other record is, and the
      survivors keep their order. */
  lemma DeleteNodeEffect(ns: seq<Node>, rs: seq<Rel>, id: Id)
    ensures id !in NodeIdsOf(Filter(ns, (n: Node) => n.id != id))
    ensures forall x :: x in Filter(rs, (x: Rel) => x.source != id && x.target != id) ==>
      x.source != id && x.target != id
    ensures forall n :: n in ns && n.id != id ==> n in Filter(ns, (n: Node) => n.id != id)
    ensures forall x :: x in rs && x.source != id && x.target != id ==>
      x in Filter(rs, (x: Rel) => x.source != id && x.target != id)
    ensures IsSubseq(Filter(ns, (n: Node) => n.id != id), ns)
    ensures IsSubseq(Filter(rs, (x: Rel) => x.source != id && x.target != id), rs)
  {
    FilterIsSubseq(ns, (n: Node) => n.id != id);
    FilterIsSubseq(rs, (x: Rel) => x.source != id && x.target != id);
  }

  /** `get_node_labels(node_id)`: the labels of the first matching record,
      or `[]` when there is none, no store, or the query raises. */
  method GetNodeLabels(graph: GraphStore?, id: Id) returns (labels: seq<string>)
    ensures graph == null ==> labels == []
    ensures graph != null && NodeById(graph.nodes, id).None? ==> labels == []
    ensures labels != [] ==> graph != null && NodeById(graph.nodes, id).Some?
                             && labels == NodeById(graph.nodes, id).value.labels
  {
    if graph == null {
      return [];
    }
    var raised: bool :| true;
    if raised {
      return [];
    }
    var found := NodeById(graph.nodes, id);
    labels := if found.Some? then found.value.labels else [];
  }

  /** The title `node_display_full` shows: the truthy `name`, else the
      truthy `english_name`, else the first label, else `"Node"`. */
  function Title(node: Node): (t: string)
    ensures Truthy(Get(node.properties, "name")) ==> t == PyStr(node.properties["name"])
    ensures !Truthy(Get(node.properties, "name")) && Truthy(Get(node.properties, "english_name")) ==>
      t == PyStr(node.properties["english_name"])
    ensures !Truthy(Get(node.properties, "name")) && !Truthy(Get(node.properties, "english_name")) ==>
      t == if node.labels != [] then node.labels[0] else "Node"
  {
    var p := node.properties;
    if Truthy(Get(p, "name")) then PyStr(p["name"])
    else if Truthy(Get(p, "english_name")) then PyStr(p["english_name"])
    else if node.labels != [] then node.labels[0]
    else "Node"
  }

  /** `node_display_full(node)`: `"<title> [<id>]"`. */
  function NodeDisplayFull(node: Node): (s: string)
    ensures |s| >= |node.id| + 3
    ensures s[|s| - |node.id| - 3..] == " [" + node.id + "]"
    ensures s[..|s| - |node.id| - 3] == Title(node)
  {
    Title(node) + " [" + node.id + "]"
  }
}

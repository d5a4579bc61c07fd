/** The graph store behind the cache: an abstract property-graph database.
    It keeps nodes and relationships in creation order (the order a full
    scan returns them), mints a new identifier for every element it
    creates, and answers the handful of queries the interchange code
    issues. The store stands for a remote database, so any query or write
    may raise: every method says what it did when it went through and
    leaves the store unchanged when it did not, and a creation may also
    come back without an identifier. */
module Store {
  import opened Wrappers
  import opened Graph
  import opened Seqs

  /** The error a raising query propagates (the driver's message is not
      modelled). */
  const StoreFailed := "Neo4j query failed"

  function NodeIdsOf(ns: seq<Node>): set<Id> {
    set n | n in ns :: n.id
  }

  function RelIdsOf(rs: seq<Rel>): set<Id> {
    set r | r in rs :: r.id
  }

  predicate DistinctNodeIds(ns: seq<Node>) {
    forall i, j :: 0 <= i < j < |ns| ==> ns[i].id != ns[j].id
  }

  predicate DistinctRelIds(rs: seq<Rel>) {
    forall i, j :: 0 <= i < j < |rs| ==> rs[i].id != rs[j].id
  }

  lemma NodeIdsOfAppend(ns: seq<Node>, n: Node)
    ensures NodeIdsOf(ns + [n]) == NodeIdsOf(ns) + {n.id}
  {
    assert n in ns + [n];
  }

  lemma DistinctNodeIdsAppend(ns: seq<Node>, n: Node)
    requires DistinctNodeIds(ns) && n.id !in NodeIdsOf(ns)
    ensures DistinctNodeIds(ns + [n])
  {
    forall i | 0 <= i < |ns| ensures ns[i].id != n.id {
      assert ns[i] in ns;
    }
  }

  lemma RelIdsOfAppend(rs: seq<Rel>, r: Rel)
    ensures RelIdsOf(rs + [r]) == RelIdsOf(rs) + {r.id}
  {
    assert r in rs + [r];
  }

  /** One row of `MATCH (n) RETURN elementId(n), labels(n), properties(n)`. */
  datatype NodeRecord = NodeRecord(id: Id, labels: seq<string>, props: Option<Props>)

  /** One row of `MATCH (a)-[r]->(b) RETURN elementId(r), ..., properties(r)`. */
  datatype RelRecord = RelRecord(rid: Id, source: Id, target: Id, relType: string, props: Option<Props>)

  /** One row of a face-pair query, by column name (`n`, `r` or `rel`, `f`). */
  datatype Record = Record(columns: map<string, Props>)

  function AsNodeRecord(n: Node): NodeRecord {
    NodeRecord(n.id, n.labels, Some(n.properties))
  }

  function AsRelRecord(r: Rel): RelRecord {
    RelRecord(r.id, r.source, r.target, r.relType, Some(r.properties))
  }

  /** The first node with identifier `id`. */
  function NodeById(ns: seq<Node>, id: Id): (r: Option<Node>)
    ensures r.Some? ==> r.value in ns && r.value.id == id
    ensures r.None? ==> id !in NodeIdsOf(ns)
  {
    if ns == [] then None
    else if ns[0].id == id then Some(ns[0])
    else NodeById(ns[1..], id)
  }

  /** Nodes carrying `label`, in store order (`MATCH (n:label)`). */
  function WithLabel(ns: seq<Node>, labelName: string): (r: seq<Node>)
    ensures forall n :: n in r <==> n in ns && labelName in n.labels
  {
    Filter(ns, (n: Node) => labelName in n.labels)
  }

  /** `(main)-[:HAS_FACE]-(face)` for some `main` among `ids`, in either direction. */
  predicate HasFaceLink(rs: seq<Rel>, ids: set<Id>, face: Id) {
    exists r :: r in rs && r.relType == "HAS_FACE" &&
      ((r.source in ids && r.target == face) || (r.target in ids && r.source == face))
  }

  /** The Face nodes linked by `HAS_FACE` to a node of `ids`, in store order. */
  function FacesLinkedTo(ns: seq<Node>, rs: seq<Rel>, ids: set<Id>): (r: seq<Node>)
    ensures forall n :: n in r <==> n in ns && "Face" in n.labels && HasFaceLink(rs, ids, n.id)
  {
    Filter(ns, (n: Node) => "Face" in n.labels && HasFaceLink(rs, ids, n.id))
  }

  /** Relationships whose both endpoints lie in `ids`, in store order. */
  function RelsWithin(rs: seq<Rel>, ids: set<Id>): (r: seq<Rel>)
    ensures forall x :: x in r <==> x in rs && x.source in ids && x.target in ids
  {
    Filter(rs, (x: Rel) => x.source in ids && x.target in ids)
  }

  /** The Face node with identifier `id`, if there is one. */
  function FaceNode(ns: seq<Node>, id: Id): Option<Node> {
    match NodeById(ns, id)
    case Some(n) => if "Face" in n.labels then Some(n) else None
    case None => None
  }

  /** A `(n:Face)-[r:RELATIONSHIP]->(f:Face)` pair whose faces both have
      `structure_english_name = label`. */
  predicate FacePairOf(ns: seq<Node>, r: Rel, labelName: string) {
    && r.relType == "RELATIONSHIP"
    && FaceNode(ns, r.source).Some?
    && FaceNode(ns, r.target).Some?
    && Get(FaceNode(ns, r.source).value.properties, "structure_english_name") == Str(labelName)
    && Get(FaceNode(ns, r.target).value.properties, "structure_english_name") == Str(labelName)
  }

  /** The face `n` sits under a structure that a `HAS_STRUCTURE` relationship
      links from the Repository node `repositoryId`. */
  predicate InRepository(ns: seq<Node>, rs: seq<Rel>, repositoryId: Id, face: Id) {
    && (match NodeById(ns, repositoryId)
        case Some(repo) => "Repository" in repo.labels
        case None => false)
    && exists hf, hs :: hf in rs && hs in rs && hf.relType == "HAS_FACE" && hf.target == face &&
        hs.relType == "HAS_STRUCTURE" && hs.source == repositoryId && hs.target == hf.source
  }

  /** Whether the relationship `rel` yields a row of the face-pair query
      for `label`: it is such a pair and, when `repositoryId` is given, its
      source face lies in that repository, judged against the whole store
      `rs`. */
  predicate PairSelected(ns: seq<Node>, rs: seq<Rel>, labelName: string, repositoryId: Option<Id>, rel: Rel) {
    FacePairOf(ns, rel, labelName) && (repositoryId.None? || InRepository(ns, rs, repositoryId.value, rel.source))
  }

  /** The relationships the face-pair query for `label` matches, in store
      order. */
  function PairRels(ns: seq<Node>, rs: seq<Rel>, todo: seq<Rel>, labelName: string, repositoryId: Option<Id>): seq<Rel> {
    Filter(todo, (x: Rel) => PairSelected(ns, rs, labelName, repositoryId, x))
  }

  /** The properties of the Face node `id`, or none when there is no such
      face. */
  function FacePropertiesAt(ns: seq<Node>, id: Id): Props {
    match FaceNode(ns, id)
    case Some(n) => n.properties
    case None => map[]
  }

  /** The row for the pair `rel`: its faces' properties under `n` and `f`,
      the relationship's under `relColumn`. */
  function PairRecord(ns: seq<Node>, rel: Rel, relColumn: string): (x: Record)
    ensures x.columns.Keys == {"n", relColumn, "f"}
  {
    Record(map["n" := FacePropertiesAt(ns, rel.source), relColumn := rel.properties,
               "f" := FacePropertiesAt(ns, rel.target)])
  }

  /** The rows for the relationships of `todo`, each tested against the
      whole store (`ns`, `rs`): one row per matching relationship, in
      order, carrying that relationship's faces. */
  function PairRows(ns: seq<Node>, rs: seq<Rel>, todo: seq<Rel>, labelName: string, repositoryId: Option<Id>,
                    relColumn: string): (r: seq<Record>)
    ensures |r| == |PairRels(ns, rs, todo, labelName, repositoryId)|
    ensures forall i :: 0 <= i < |r| ==>
      r[i] == PairRecord(ns, PairRels(ns, rs, todo, labelName, repositoryId)[i], relColumn)
  {
    if todo == [] then []
    else
      var rel := todo[|todo| - 1];
      var rest := PairRows(ns, rs, todo[..|todo| - 1], labelName, repositoryId, relColumn);
      if PairSelected(ns, rs, labelName, repositoryId, rel) then rest + [PairRecord(ns, rel, relColumn)]
      else rest
  }

  /** Rows of the face-pair query for `label` (`MATCH (n:Face)-[r:RELATIONSHIP]->(f:Face)`,
      both faces of the label, and with a repository the path
      `(:Repository)-[:HAS_STRUCTURE]->()-[:HAS_FACE]->(n)`), with the
      relationship under column `relColumn`: one row per matching
      relationship in store order, whatever order the links were stored in. */
  function FacePairRecords(ns: seq<Node>, rs: seq<Rel>, labelName: string, repositoryId: Option<Id>,
                           relColumn: string): (r: seq<Record>)
    ensures |r| == |PairRels(ns, rs, rs, labelName, repositoryId)| <= |rs|
    ensures forall i :: 0 <= i < |r| ==> r[i] == PairRecord(ns, PairRels(ns, rs, rs, labelName, repositoryId)[i], relColumn)
    ensures forall x :: x in PairRels(ns, rs, rs, labelName, repositoryId) <==>
      x in rs && PairSelected(ns, rs, labelName, repositoryId, x)
    ensures forall x :: x in r ==> x.columns.Keys == {"n", relColumn, "f"}
  {
    PairRows(ns, rs, rs, labelName, repositoryId, relColumn)
  }

  /** Regression witness for the scope test of `FacePairRecords`: a store
      where the `RELATIONSHIP` between two faces comes first and the
      repository path to its source face (`HAS_STRUCTURE`, then
      `HAS_FACE`) is stored after it. */
  function LateLinkNodes(): seq<Node> {
    var face := map["structure_english_name" := Str("Hole")];
    [Node("R", ["Repository"], map[]), Node("S", ["Hole"], map[]), Node("A", ["Face"], face), Node("B", ["Face"], face)]
  }

  function LateLinkRels(): seq<Rel> {
    [Rel("x", "A", "B", "RELATIONSHIP", map[]), Rel("y", "R", "S", "HAS_STRUCTURE", map[]),
     Rel("z", "S", "A", "HAS_FACE", map[])]
  }

  /** Proof step of the witness: the first relationship is a pair of the
      repository, the two links are not pairs. */
  lemma LateLinkSelection()
    ensures PairSelected(LateLinkNodes(), LateLinkRels(), "Hole", Some("R"), LateLinkRels()[0])
    ensures !PairSelected(LateLinkNodes(), LateLinkRels(), "Hole", Some("R"), LateLinkRels()[1])
    ensures !PairSelected(LateLinkNodes(), LateLinkRels(), "Hole", Some("R"), LateLinkRels()[2])
  {
    var ns, rs := LateLinkNodes(), LateLinkRels();
    assert ns[0].id != "A" && ns[1].id != "A" && ns[0].id != "B" && ns[1].id != "B" && ns[2].id != "B";
    assert ns[1..][1..][0] == ns[2] && ns[1..][1..][1..][0] == ns[3];
    assert Get(ns[2].properties, "structure_english_name") == Str("Hole");
    assert Get(ns[3].properties, "structure_english_name") == Str("Hole");
    assert FacePairOf(ns, rs[0], "Hole");
    assert NodeById(ns, "R") == Some(ns[0]);
    var hf, hs := rs[2], rs[1];
    assert hf in rs && hs in rs;
    assert hf.relType == "HAS_FACE" && hf.target == "A" && hs.relType == "HAS_STRUCTURE" &&
           hs.source == "R" && hs.target == hf.source;
  }

  /** The witness itself: the scoped face-pair query matches a pair whose
      repository path was stored after the pair. */
  lemma ScopedPairSeesLaterLinks()
    ensures FacePairRecords(LateLinkNodes(), LateLinkRels(), "Hole", Some("R"), "rel") ==
            [PairRecord(LateLinkNodes(), LateLinkRels()[0], "rel")]
  {
    var ns, rs := LateLinkNodes(), LateLinkRels();
    LateLinkSelection();
    var r0, r1, r2 := rs[0], rs[1], rs[2];
    var row := PairRecord(ns, r0, "rel");
    assert [] + [r0] == [r0] && [r0] + [r1] == [r0, r1] && [r0, r1] + [r2] == rs;
    PairRowsSnoc(ns, rs, [], r0, "Hole", Some("R"), "rel");
    assert PairRows(ns, rs, [r0], "Hole", Some("R"), "rel") == [row];
    PairRowsSnoc(ns, rs, [r0], r1, "Hole", Some("R"), "rel");
    assert PairRows(ns, rs, [r0, r1], "Hole", Some("R"), "rel") == [row];
    PairRowsSnoc(ns, rs, [r0, r1], r2, "Hole", Some("R"), "rel");
  }

  /** One more relationship to test adds at most its own row. */
  lemma PairRowsSnoc(ns: seq<Node>, rs: seq<Rel>, todo: seq<Rel>, x: Rel, labelName: string,
                     repositoryId: Option<Id>, relColumn: string)
    ensures PairRows(ns, rs, todo + [x], labelName, repositoryId, relColumn) ==
            PairRows(ns, rs, todo, labelName, repositoryId, relColumn) +
            (if PairSelected(ns, rs, labelName, repositoryId, x) then [PairRecord(ns, x, relColumn)] else [])
  {
    assert (todo + [x])[..|todo|] == todo;
  }

  class GraphStore {
    var nodes: seq<Node>
    var rels: seq<Rel>
    /** How many identifiers have been minted. */
    var minted: nat

    /** Identifiers not yet minted are unused; identifiers are unique;
        every relationship joins two stored nodes. */
    ghost predicate Valid()
      reads this
    {
      && (forall k: nat {:trigger MintId(k)} :: minted <= k ==>
            MintId(k) !in NodeIdsOf(nodes) && MintId(k) !in RelIdsOf(rels))
      && DistinctNodeIds(nodes)
      && DistinctRelIds(rels)
      && (forall r :: r in rels ==> r.source in NodeIdsOf(nodes) && r.target in NodeIdsOf(nodes))
    }

    constructor ()
      ensures Valid() && nodes == [] && rels == []
    {
      nodes, rels, minted := [], [], 0;
    }

    function NodeIds(): set<Id>
      reads this
    {
      NodeIdsOf(nodes)
    }

    /** `MATCH (n) WHERE elementId(n) = $id RETURN count(n)`. */
    function CountNode(id: Id): (c: nat)
      reads this
      ensures c == 1 <==> id in NodeIds()
      ensures c == 0 <==> id !in NodeIds()
    {
      if id in NodeIds() then 1 else 0
    }

    /** The rows a full node scan returns. */
    function NodeRecords(): seq<NodeRecord>
      reads this
    {
      SeqMap(AsNodeRecord, nodes)
    }

    /** The rows a full relationship scan returns. */
    function RelRecords(): seq<RelRecord>
      reads this
    {
      SeqMap(AsRelRecord, rels)
    }

    /** Every label some node carries (`MATCH (n) RETURN DISTINCT labels(n)`). */
    function AllLabels(): set<string>
      reads this
    {
      set n, l | n in nodes && l in n.labels :: l
    }

    /** The labels of the nodes `s` with `(r:Repository)-[:HAS_STRUCTURE]->(s)`
        for the repository `repositoryId`. */
    function StructureLabels(repositoryId: Id): set<string>
      reads this
    {
      set n, l | n in nodes && l in n.labels && IsRepositoryStructure(repositoryId, n.id) :: l
    }

    predicate IsRepositoryStructure(repositoryId: Id, s: Id)
      reads this
    {
      && (match NodeById(nodes, repositoryId)
          case Some(repo) => "Repository" in repo.labels
          case None => false)
      && exists r :: r in rels && r.relType == "HAS_STRUCTURE" && r.source == repositoryId && r.target == s
    }

    /** Runs the node scan. The cursor may raise part-way: `raised` says so,
        and `rows` are those delivered before. */
    method ScanNodes() returns (rows: seq<NodeRecord>, raised: bool)
      ensures rows <= NodeRecords()
      ensures !raised ==> rows == NodeRecords()
    {
      var all := NodeRecords();
      raised :| true;
      if raised {
        var k: nat :| k <= |all|;
        rows := all[..k];
      } else {
        rows := all;
      }
    }

    /** Runs the relationship scan, with the same failure behaviour. */
    method ScanRels() returns (rows: seq<RelRecord>, raised: bool)
      ensures rows <= RelRecords()
      ensures !raised ==> rows == RelRecords()
    {
      var all := RelRecords();
      raised :| true;
      if raised {
        var k: nat :| k <= |all|;
        rows := all[..k];
      } else {
        rows := all;
      }
    }

    lemma FreshAfterMint()
      requires Valid()
      ensures forall k: nat {:trigger MintId(k)} :: minted < k ==> MintId(k) != MintId(minted)
    {
      forall k: nat | minted < k ensures MintId(k) != MintId(minted) {
        MintIdInjective(k, minted);
      }
    }

    /** `CREATE (n:labels) SET n += $props RETURN elementId(n)`. The query
        may raise (`raised`), or go through without handing back an
        identifier; either way nothing is created. Null values are not
        stored. */
    method CreateNode(labels: seq<string>, props: Props) returns (id: Option<Id>, raised: bool)
      requires Valid()
      modifies this
      ensures Valid() && minted >= old(minted)
      ensures rels == old(rels)
      ensures raised ==> id.None?
      ensures id.Some? ==> && id.value == MintId(old(minted))
                           && id.value !in old(NodeIds()) && id.value !in RelIdsOf(old(rels))
                           && nodes == old(nodes) + [Node(id.value, labels, Stored(props))]
                           && NodeIds() == old(NodeIds()) + {id.value}
      ensures id.None? ==> nodes == old(nodes)
    {
      raised :| true;
      var accepted: bool :| true;
      if !raised && accepted {
        var newId := MintId(minted);
        FreshAfterMint();
        NodeIdsOfAppend(nodes, Node(newId, labels, Stored(props)));
        id := Some(newId);
        nodes := nodes + [Node(newId, labels, Stored(props))];
        minted := minted + 1;
      } else {
        id := None;
      }
    }

    /** `MATCH (a), (b) WHERE ... CREATE (a)-[r:relType]->(b) SET r += $props`.
        Nothing is created when an endpoint does not exist. Null values
        are not stored. */
    method CreateRel(source: Id, target: Id, relType: string, props: Props) returns (id: Option<Id>)
      requires Valid()
      modifies this
      ensures Valid() && minted >= old(minted)
      ensures nodes == old(nodes)
      ensures id.Some? ==> && id.value == MintId(old(minted))
                           && source in NodeIds() && target in NodeIds()
                           && id.value !in RelIdsOf(old(rels)) && id.value !in NodeIds()
                           && rels == old(rels) + [Rel(id.value, source, target, relType, Stored(props))]
      ensures id.None? ==> rels == old(rels)
      ensures source !in NodeIds() || target !in NodeIds() ==> id.None?
    {
      id := None;
      if source in NodeIdsOf(nodes) && target in NodeIdsOf(nodes) {
        var accepted: bool :| true;
        if accepted {
          var newId := MintId(minted);
          FreshAfterMint();
          RelIdsOfAppend(rels, Rel(newId, source, target, relType, Stored(props)));
          id := Some(newId);
          rels := rels + [Rel(newId, source, target, relType, Stored(props))];
          minted := minted + 1;
        }
      }
    }

    /** `MATCH (x) WHERE elementId(x) = $id DETACH DELETE x`; `ok` is false
        when the query raises, and then nothing is deleted. */
    method DetachDelete(id: Id) returns (ok: bool)
      requires Valid()
      modifies this
      ensures Valid() && minted >= old(minted)
      ensures ok ==> nodes == Filter(old(nodes), (n: Node) => n.id != id)
      ensures ok ==> rels == Filter(old(rels), (r: Rel) => r.source != id && r.target != id)
      ensures !ok ==> nodes == old(nodes) && rels == old(rels)
    {
      ok :| true;
      if !ok {
        return;
      }
      var ns := Filter(nodes, (n: Node) => n.id != id);
      var rs := Filter(rels, (r: Rel) => r.source != id && r.target != id);
      FilterKeepsDistinctNodes(nodes, id);
      FilterKeepsDistinctRels(rels, (r: Rel) => r.source != id && r.target != id);
      assert NodeIdsOf(ns) <= NodeIdsOf(nodes);
      assert RelIdsOf(rs) <= RelIdsOf(rels);
      forall r | r in rs ensures r.source in NodeIdsOf(ns) && r.target in NodeIdsOf(ns) {
        var s :| s in nodes && s.id == r.source;
        var t :| t in nodes && t.id == r.target;
        assert s in ns && t in ns;
      }
      nodes, rels := ns, rs;
    }

    /** `MATCH ()-[e]->() WHERE elementId(e) = $id DELETE e`; `ok` is false
        when the query raises, and then nothing is deleted. */
    method DeleteRel(id: Id) returns (ok: bool)
      requires Valid()
      modifies this
      ensures Valid() && minted >= old(minted)
      ensures nodes == old(nodes)
      ensures ok ==> rels == Filter(old(rels), (r: Rel) => r.id != id)
      ensures !ok ==> rels == old(rels)
    {
      ok :| true;
      if !ok {
        return;
      }
      var rs := Filter(rels, (r: Rel) => r.id != id);
      FilterKeepsDistinctRels(rels, (r: Rel) => r.id != id);
      assert RelIdsOf(rs) <= RelIdsOf(rels);
      rels := rs;
    }

    /** Runs one write on the node `id` (`REMOVE n:..`, `SET n = $props`
        or `SET n:label`); `ok` is false when the query raises, and then
        nothing changes. With no such node the write matches nothing. */
    method WriteNode(id: Id, w: NodeWrite) returns (ok: bool)
      requires Valid()
      modifies this
      ensures Valid() && minted == old(minted) && rels == old(rels)
      ensures ok ==> nodes == Written(old(nodes), id, w)
      ensures !ok ==> nodes == old(nodes)
    {
      ok :| true;
      if ok {
        WrittenKeepsIds(nodes, id, w);
        nodes := Written(nodes, id, w);
      }
    }

    /** Runs the query `MATCH (n:label)`; it may raise. */
    method QueryWithLabel(labelName: string) returns (rows: seq<Node>, raised: bool)
      ensures !raised ==> rows == WithLabel(nodes, labelName)
      ensures raised ==> rows == []
    {
      raised :| true;
      rows := if raised then [] else WithLabel(nodes, labelName);
    }

    /** Runs the query for the Faces linked to `ids`; it may raise. */
    method QueryFacesLinkedTo(ids: set<Id>) returns (rows: seq<Node>, raised: bool)
      ensures !raised ==> rows == FacesLinkedTo(nodes, rels, ids)
      ensures raised ==> rows == []
    {
      raised :| true;
      rows := if raised then [] else FacesLinkedTo(nodes, rels, ids);
    }

    /** Runs the query for the relationships within `ids`; it may raise. */
    method QueryRelsWithin(ids: set<Id>) returns (rows: seq<Rel>, raised: bool)
      ensures !raised ==> rows == RelsWithin(rels, ids)
      ensures raised ==> rows == []
    {
      raised :| true;
      rows := if raised then [] else RelsWithin(rels, ids);
    }

    /** Runs the face-pair query for `label`; it may raise. */
    method QueryFacePairs(labelName: string, repositoryId: Option<Id>, relColumn: string)
      returns (rows: seq<Record>, raised: bool)
      ensures !raised ==> rows == FacePairRecords(nodes, rels, labelName, repositoryId, relColumn)
      ensures raised ==> rows == []
    {
      raised :| true;
      rows := if raised then [] else FacePairRecords(nodes, rels, labelName, repositoryId, relColumn);
    }
  }

  /** The labels `ls` without those of `remove`, in order. */
  function Unlabel(ls: seq<string>, remove: seq<string>): (r: seq<string>)
    ensures forall l :: l in r <==> l in ls && l !in remove
    ensures remove == [] ==> r == ls
  {
    if ls == [] then []
    else (if ls[0] in remove then [] else [ls[0]]) + Unlabel(ls[1..], remove)
  }

  /** `SET n:label`: a label the node already carries is not added again. */
  function AddLabelTo(ls: seq<string>, l: string): (r: seq<string>)
    ensures forall m :: m in r <==> m in ls || m == l
    ensures NoDuplicates(ls) ==> NoDuplicates(r)
  {
    if l in ls then ls else ls + [l]
  }

  /** The labels after `SET n:l` for each `l` of `labels` in turn. */
  function AddLabels(ls: seq<string>, labels: seq<string>): (r: seq<string>)
    ensures forall m :: m in r <==> m in ls || m in labels
    ensures NoDuplicates(ls) ==> NoDuplicates(r)
  {
    if labels == [] then ls
    else
      assert labels == labels[..|labels| - 1] + [labels[|labels| - 1]];
      AddLabelTo(AddLabels(ls, labels[..|labels| - 1]), labels[|labels| - 1])
  }

  predicate NoDuplicates(ls: seq<string>) {
    forall i, j :: 0 <= i < j < |ls| ==> ls[i] != ls[j]
  }

  /** The single-node writes `update_node` issues. */
  datatype NodeWrite = RemoveLabels(remove: seq<string>) | SetProps(props: Props) | AddLabel(name: string)

  /** One node after a write. */
  function ApplyWrite(n: Node, w: NodeWrite): (m: Node)
    ensures m.id == n.id
    ensures w.RemoveLabels? ==> m.properties == n.properties && forall l :: l in m.labels <==> l in n.labels && l !in w.remove
    ensures w.SetProps? ==> m.labels == n.labels && m.properties == Stored(w.props)
    ensures w.AddLabel? ==> m.properties == n.properties && forall l :: l in m.labels <==> l in n.labels || l == w.name
  {
    match w
    case RemoveLabels(remove) => Node(n.id, Unlabel(n.labels, remove), n.properties)
    case SetProps(props) => Node(n.id, n.labels, Stored(props))
    case AddLabel(l) => Node(n.id, AddLabelTo(n.labels, l), n.properties)
  }

  /** The stored nodes after a write to the node `id`: every node with
      that identifier is written, every other node is kept, in place. */
  function Written(ns: seq<Node>, id: Id, w: NodeWrite): (r: seq<Node>)
    ensures |r| == |ns|
    ensures forall i :: 0 <= i < |ns| ==> r[i] == if ns[i].id == id then ApplyWrite(ns[i], w) else ns[i]
  {
    seq(|ns|, i requires 0 <= i < |ns| => if ns[i].id == id then ApplyWrite(ns[i], w) else ns[i])
  }

  /** A write keeps every identifier where it was. */
  lemma WrittenKeepsIds(ns: seq<Node>, id: Id, w: NodeWrite)
    ensures NodeIdsOf(Written(ns, id, w)) == NodeIdsOf(ns)
    ensures DistinctNodeIds(ns) ==> DistinctNodeIds(Written(ns, id, w))
  {
    var r := Written(ns, id, w);
    assert forall i :: 0 <= i < |ns| ==> r[i].id == ns[i].id;
    forall x | x in NodeIdsOf(ns) ensures x in NodeIdsOf(r) {
      var i :| 0 <= i < |ns| && ns[i].id == x;
      assert r[i] in r;
    }
    forall x | x in NodeIdsOf(r) ensures x in NodeIdsOf(ns) {
      var i :| 0 <= i < |r| && r[i].id == x;
      assert ns[i] in ns;
    }
  }

  lemma FilterKeepsDistinctNodes(ns: seq<Node>, id: Id)
    requires DistinctNodeIds(ns)
    ensures DistinctNodeIds(Filter(ns, (n: Node) => n.id != id))
  {
    if ns != [] {
      var ns' := ns[..|ns| - 1];
      FilterKeepsDistinctNodes(ns', id);
      var f := Filter(ns', (n: Node) => n.id != id);
      forall n | n in f ensures n.id != ns[|ns| - 1].id {
        var i :| 0 <= i < |ns'| && ns'[i] == n;
      }
    }
  }

  lemma FilterKeepsDistinctRels(rs: seq<Rel>, p: Rel -> bool)
    requires DistinctRelIds(rs)
    ensures DistinctRelIds(Filter(rs, p))
  {
    if rs != [] {
      var rs' := rs[..|rs| - 1];
      FilterKeepsDistinctRels(rs', p);
      var f := Filter(rs', p);
      forall r | r in f ensures r.id != rs[|rs| - 1].id {
        var i :| 0 <= i < |rs'| && rs'[i] == r;
      }
    }
  }
}

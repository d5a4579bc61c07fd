/** Import of a `StandardFeatureStructure` document: an optional
    Repository node, then per `Structure` element a structure node, its
    Face nodes and the face-to-face `RELATIONSHIP` edges. Face numbers are
    resolved through a map that starts empty for every Structure, so an
    edge can only join faces of its own Structure. */
module XmlImport {
  import opened Wrappers
  import opened Graph
  import opened Seqs
  import opened Store
  import opened DataLoading
  import opened Xml

  /** The three counters the import returns. */
  datatype XmlCounts = XmlCounts(nodesCreated: nat, relationshipsCreated: nat, relationshipsSkipped: nat)

  const Black := Str("#000000")

  /** The property map of a Face node built from a `Face` element: each
      attribute with its default, an empty `InnerLoopSize` stored as
      `"0"`, the Structure's number and English name, and black. */
  function FaceProps(f: Element, structureNo: string, englishName: string): (p: Props)
    ensures p.Keys == {"face_no", "face_type", "outter_loop_size", "inner_loop_size", "is_convex_surface",
                       "structure_no", "structure_english_name", "color"}
    ensures forall k :: k in p ==> p[k].Str?
  {
    var inner := Attr(f, "InnerLoopSize", "0");
    map["face_no" := Str(Attr(f, "FaceNo", "0")),
        "face_type" := Str(Attr(f, "FaceType", "0")),
        "outter_loop_size" := Str(Attr(f, "OutterLoopSize", "1")),
        "inner_loop_size" := Str(if inner == "" then "0" else inner),
        "is_convex_surface" := Str(Attr(f, "IsConvexSurface", "0")),
        "structure_no" := Str(structureNo),
        "structure_english_name" := Str(englishName),
        "color" := Black]
  }

  /** What each key of `FaceProps` holds. */
  lemma FacePropsValues(f: Element, structureNo: string, englishName: string, p: Props)
    requires p == FaceProps(f, structureNo, englishName)
    ensures p["face_no"] == Str(if "FaceNo" in f.attrs then f.attrs["FaceNo"] else "0")
    ensures p["face_type"] == Str(if "FaceType" in f.attrs then f.attrs["FaceType"] else "0")
    ensures p["outter_loop_size"] == Str(if "OutterLoopSize" in f.attrs then f.attrs["OutterLoopSize"] else "1")
    ensures p["is_convex_surface"] == Str(if "IsConvexSurface" in f.attrs then f.attrs["IsConvexSurface"] else "0")
    ensures "InnerLoopSize" in f.attrs && f.attrs["InnerLoopSize"] != "" ==>
      p["inner_loop_size"] == Str(f.attrs["InnerLoopSize"])
    ensures "InnerLoopSize" !in f.attrs || f.attrs["InnerLoopSize"] == "" ==> p["inner_loop_size"] == Str("0")
    ensures p["structure_no"] == Str(structureNo) && p["structure_english_name"] == Str(englishName)
    ensures p["color"] == Str("#000000")
  {
  }

  /** The property map of a `RELATIONSHIP` built from an edge element:
      each attribute with its default, an empty `SizeEdgeIntersection`
      stored as `"1"`, and black. */
  function EdgeProps(e: Element): (p: Props)
    ensures p.Keys == {"is_intersection", "is_parallel", "is_vertical", "is_convexity", "size_edge_intersection",
                       "relationship_type", "flag_angle_degree", "color"}
    ensures forall k :: k in p ==> p[k].Str?
  {
    var size := Attr(e, "SizeEdgeIntersection", "1");
    map["is_intersection" := Str(Attr(e, "IsIntersection", "1")),
        "is_parallel" := Str(Attr(e, "IsParallel", "0")),
        "is_vertical" := Str(Attr(e, "IsVertical", "1")),
        "is_convexity" := Str(Attr(e, "IsConvexity", "-1")),
        "size_edge_intersection" := Str(if size == "" then "1" else size),
        "relationship_type" := Str(Attr(e, "RelationShipType", "1")),
        "flag_angle_degree" := Str(Attr(e, "FlagAngleDegree", "1")),
        "color" := Black]
  }

  /** What each key of `EdgeProps` holds. */
  lemma EdgePropsValues(e: Element, p: Props)
    requires p == EdgeProps(e)
    ensures p["is_intersection"] == Str(if "IsIntersection" in e.attrs then e.attrs["IsIntersection"] else "1")
    ensures p["is_parallel"] == Str(if "IsParallel" in e.attrs then e.attrs["IsParallel"] else "0")
    ensures p["is_vertical"] == Str(if "IsVertical" in e.attrs then e.attrs["IsVertical"] else "1")
    ensures p["is_convexity"] == Str(if "IsConvexity" in e.attrs then e.attrs["IsConvexity"] else "-1")
    ensures p["relationship_type"] == Str(if "RelationShipType" in e.attrs then e.attrs["RelationShipType"] else "1")
    ensures p["flag_angle_degree"] == Str(if "FlagAngleDegree" in e.attrs then e.attrs["FlagAngleDegree"] else "1")
    ensures "SizeEdgeIntersection" in e.attrs && e.attrs["SizeEdgeIntersection"] != "" ==>
      p["size_edge_intersection"] == Str(e.attrs["SizeEdgeIntersection"])
    ensures "SizeEdgeIntersection" !in e.attrs || e.attrs["SizeEdgeIntersection"] == "" ==>
      p["size_edge_intersection"] == Str("1")
    ensures p["color"] == Str("#000000")
  {
  }

  /** The edge list of a Structure: `EdgeList` if present, else
      `RelationShipList`. */
  function EdgeListOf(s: Element): (r: Option<Element>)
    ensures Find(s, "EdgeList").Some? ==> r == Find(s, "EdgeList")
    ensures Find(s, "EdgeList").None? ==> r == Find(s, "RelationShipList")
  {
    match Find(s, "EdgeList")
    case Some(l) => Some(l)
    case None => Find(s, "RelationShipList")
  }

  /** The edge elements of a Structure: the `Edge` children of its edge
      list, or its `RelationShip` children when it has no `Edge` child. */
  function EdgeElements(s: Element): (r: seq<Element>)
    ensures EdgeListOf(s).None? ==> r == []
    ensures EdgeListOf(s).Some? && FindAll(EdgeListOf(s).value, "Edge") != [] ==>
      r == FindAll(EdgeListOf(s).value, "Edge")
    ensures EdgeListOf(s).Some? && FindAll(EdgeListOf(s).value, "Edge") == [] ==>
      r == FindAll(EdgeListOf(s).value, "RelationShip")
  {
    match EdgeListOf(s)
    case None => []
    case Some(l) =>
      var edges := FindAll(l, "Edge");
      if edges != [] then edges else FindAll(l, "RelationShip")
  }

  /** The Face elements of a Structure (none without a `FaceList`). */
  function FaceElements(s: Element): seq<Element> {
    match Find(s, "FaceList")
    case Some(l) => FindAll(l, "Face")
    case None => []
  }

  /** The number of edge elements over all Structures. */
  function TotalEdges(structs: seq<Element>): nat {
    if structs == [] then 0 else TotalEdges(structs[..|structs| - 1]) + |EdgeElements(structs[|structs| - 1])|
  }

  /** Whether `x` was created for an edge element of `edges` whose face
      numbers `faceIdMap` resolves to `x`'s endpoints. */
  ghost predicate ResolvedEdge(x: Rel, edges: seq<Element>, faceIdMap: map<string, Id>) {
    exists e, s, t :: && e in edges
                      && AttrOpt(e, "SourceFaceNo") == Some(s) && s in faceIdMap && faceIdMap[s] == x.source
                      && AttrOpt(e, "TargetFaceNo") == Some(t) && t in faceIdMap && faceIdMap[t] == x.target
  }

  /** The Face nodes of one Structure so far: `nodes` is `nodes0` with
      `newFaces` appended, each a fresh Face node carrying a `face_no`, and
      every entry of `faceIdMap` names one of them with that `face_no`. */
  ghost predicate FacesAdded(nodes0: seq<Node>, nodes: seq<Node>, newFaces: seq<Node>, faceIdMap: map<string, Id>) {
    && nodes == nodes0 + newFaces
    && (forall n :: n in newFaces ==> n.labels == ["Face"] && n.id !in NodeIdsOf(nodes0) && "face_no" in n.properties)
    && (forall fno :: fno in faceIdMap ==>
          exists n :: n in newFaces && n.id == faceIdMap[fno] && n.properties["face_no"] == Str(fno))
  }

  /** The face number a Face node carries (`""` when it has none). */
  function FaceNoOf(n: Node): string {
    if "face_no" in n.properties && n.properties["face_no"].Str? then n.properties["face_no"].s else ""
  }

  /** The `face_id_map` the Face loop builds from the faces it created, in
      creation order: each face's number maps to its node, a later face
      with the same number overriding an earlier one. */
  function FaceMapOf(newFaces: seq<Node>): map<string, Id> {
    if newFaces == [] then map[]
    else
      var n := newFaces[|newFaces| - 1];
      FaceMapOf(newFaces[..|newFaces| - 1])[FaceNoOf(n) := n.id]
  }

  /** The keys of the face map are exactly the numbers of the faces
      created, and each number names the last face created with it. */
  lemma {:induction false} FaceMapOfLastWins(newFaces: seq<Node>)
    ensures forall fno :: fno in FaceMapOf(newFaces) <==>
      exists k :: 0 <= k < |newFaces| && FaceNoOf(newFaces[k]) == fno
    ensures forall k :: 0 <= k < |newFaces| && LastWithNo(newFaces, k) ==>
      FaceMapOf(newFaces)[FaceNoOf(newFaces[k])] == newFaces[k].id
  {
    if newFaces != [] {
      var pre, n := newFaces[..|newFaces| - 1], newFaces[|newFaces| - 1];
      FaceMapOfLastWins(pre);
      forall fno | fno in FaceMapOf(newFaces)
        ensures exists k :: 0 <= k < |newFaces| && FaceNoOf(newFaces[k]) == fno
      {
        if fno == FaceNoOf(n) {
          assert FaceNoOf(newFaces[|newFaces| - 1]) == fno;
        } else {
          assert fno in FaceMapOf(pre);
          var k :| 0 <= k < |pre| && FaceNoOf(pre[k]) == fno;
          assert newFaces[k] == pre[k];
        }
      }
      forall fno | exists k :: 0 <= k < |newFaces| && FaceNoOf(newFaces[k]) == fno
        ensures fno in FaceMapOf(newFaces)
      {
        var k :| 0 <= k < |newFaces| && FaceNoOf(newFaces[k]) == fno;
        if k < |pre| {
          assert pre[k] == newFaces[k];
        }
      }
      forall k | 0 <= k < |newFaces| && LastWithNo(newFaces, k)
        ensures FaceMapOf(newFaces)[FaceNoOf(newFaces[k])] == newFaces[k].id
      {
        if k < |pre| {
          assert FaceNoOf(newFaces[|newFaces| - 1]) != FaceNoOf(newFaces[k]);
          assert pre[k] == newFaces[k];
          assert LastWithNo(pre, k) by {
            forall j | k < j < |pre| ensures FaceNoOf(pre[j]) != FaceNoOf(pre[k]) {
              assert pre[j] == newFaces[j];
            }
          }
        }
      }
    }
  }

  /** No face after `newFaces[k]` carries its number. */
  ghost predicate LastWithNo(newFaces: seq<Node>, k: nat)
    requires k < |newFaces|
  {
    forall j :: k < j < |newFaces| ==> FaceNoOf(newFaces[j]) != FaceNoOf(newFaces[k])
  }

  /** `newFaces[k]` was created from the Face element `faces[picked[k]]`,
      and the elements were taken in document order. */
  ghost predicate FacesFrom(newFaces: seq<Node>, picked: seq<nat>, faces: seq<Element>,
                            structureNo: string, englishName: string)
  {
    && |picked| == |newFaces|
    && (forall k :: 0 <= k < |picked| ==>
          picked[k] < |faces| && newFaces[k].properties == FaceProps(faces[picked[k]], structureNo, englishName))
    && (forall j, k :: 0 <= j < k < |picked| ==> picked[j] < picked[k])
  }

  /** One more face created from element `i` extends the face map and
      the element correspondence. */
  lemma FacesFromStep(newFaces: seq<Node>, picked: seq<nat>, faces: seq<Element>, structureNo: string,
                      englishName: string, i: nat, n: Node)
    requires FacesFrom(newFaces, picked, faces, structureNo, englishName)
    requires forall k :: 0 <= k < |picked| ==> picked[k] < i
    requires i < |faces| && n.properties == FaceProps(faces[i], structureNo, englishName)
    ensures FacesFrom(newFaces + [n], picked + [i], faces, structureNo, englishName)
    ensures forall k :: 0 <= k < |picked + [i]| ==> (picked + [i])[k] < i + 1
    ensures FaceMapOf(newFaces + [n]) == FaceMapOf(newFaces)[Attr(faces[i], "FaceNo", "0") := n.id]
  {
    FacesFromSnoc(newFaces, picked, faces, structureNo, englishName, i, n);
    FaceMapOfSnoc(newFaces, n);
    FaceNoOfMade(n, faces[i], structureNo, englishName);
  }

  /** The correspondence grows by the face made from a later element. */
  lemma FacesFromSnoc(newFaces: seq<Node>, picked: seq<nat>, faces: seq<Element>, structureNo: string,
                      englishName: string, i: nat, n: Node)
    requires FacesFrom(newFaces, picked, faces, structureNo, englishName)
    requires forall k :: 0 <= k < |picked| ==> picked[k] < i
    requires i < |faces| && n.properties == FaceProps(faces[i], structureNo, englishName)
    ensures FacesFrom(newFaces + [n], picked + [i], faces, structureNo, englishName)
  {
    var fs, ps := newFaces + [n], picked + [i];
    forall k | 0 <= k < |ps|
      ensures ps[k] < |faces| && fs[k].properties == FaceProps(faces[ps[k]], structureNo, englishName)
    {
      if k < |picked| {
        assert ps[k] == picked[k] && fs[k] == newFaces[k];
      }
    }
  }

  /** Creating one more face sets its number in the face map. */
  lemma FaceMapOfSnoc(newFaces: seq<Node>, n: Node)
    ensures FaceMapOf(newFaces + [n]) == FaceMapOf(newFaces)[FaceNoOf(n) := n.id]
  {
    assert (newFaces + [n])[..|newFaces|] == newFaces;
  }

  /** A face made from an element carries its `FaceNo`, `"0"` when it
      has none. */
  lemma FaceNoOfMade(n: Node, f: Element, structureNo: string, englishName: string)
    requires n.properties == FaceProps(f, structureNo, englishName)
    ensures FaceNoOf(n) == Attr(f, "FaceNo", "0")
  {
  }

  /** A face created from an element carries that element's `FaceNo`
      (`"0"` when it has none). */
  lemma FacesFromNumbers(newFaces: seq<Node>, picked: seq<nat>, faces: seq<Element>,
                         structureNo: string, englishName: string)
    requires FacesFrom(newFaces, picked, faces, structureNo, englishName)
    ensures forall k :: 0 <= k < |newFaces| ==> FaceNoOf(newFaces[k]) == Attr(faces[picked[k]], "FaceNo", "0")
  {
  }

  /** Every entry of `faceMap` names a node of `nodes` whose `face_no`
      is that entry's key. */
  ghost predicate FaceNumbered(nodes: seq<Node>, faceMap: map<string, Id>) {
    forall fno :: fno in faceMap ==>
      exists n :: n in nodes && n.id == faceMap[fno] && "face_no" in n.properties && n.properties["face_no"] == Str(fno)
  }

  lemma FacesNumbered(nodes0: seq<Node>, nodes: seq<Node>, newFaces: seq<Node>, faceIdMap: map<string, Id>)
    requires FacesAdded(nodes0, nodes, newFaces, faceIdMap)
    ensures FaceNumbered(nodes, faceIdMap)
  {
    forall fno | fno in faceIdMap
      ensures exists n :: n in nodes && n.id == faceIdMap[fno] && "face_no" in n.properties
                          && n.properties["face_no"] == Str(fno)
    {
      var n :| n in newFaces && n.id == faceIdMap[fno] && n.properties["face_no"] == Str(fno);
      assert n in nodes;
    }
  }

  /** With distinct node ids, a numbered face map sends two face numbers
      to the same node only when they are equal: an edge element is
      creatable exactly when both its face numbers are in the map and
      differ. */
  lemma FaceNumberedCreatable(nodes: seq<Node>, faceMap: map<string, Id>, e: Element)
    requires DistinctNodeIds(nodes) && FaceNumbered(nodes, faceMap)
    ensures Creatable(e, faceMap) <==>
      && AttrOpt(e, "SourceFaceNo").Some? && AttrOpt(e, "SourceFaceNo").value in faceMap
      && AttrOpt(e, "TargetFaceNo").Some? && AttrOpt(e, "TargetFaceNo").value in faceMap
      && AttrOpt(e, "SourceFaceNo").value != AttrOpt(e, "TargetFaceNo").value
  {
    var sourceNo, targetNo := AttrOpt(e, "SourceFaceNo"), AttrOpt(e, "TargetFaceNo");
    if sourceNo.Some? && sourceNo.value in faceMap && targetNo.Some? && targetNo.value in faceMap {
      var s, t := sourceNo.value, targetNo.value;
      var ns :| ns in nodes && ns.id == faceMap[s] && "face_no" in ns.properties && ns.properties["face_no"] == Str(s);
      var nt :| nt in nodes && nt.id == faceMap[t] && "face_no" in nt.properties && nt.properties["face_no"] == Str(t);
      if faceMap[s] == faceMap[t] {
        var i :| 0 <= i < |nodes| && nodes[i] == ns;
        var j :| 0 <= j < |nodes| && nodes[j] == nt;
        assert i == j;
      }
    }
  }

  /** The `HAS_FACE` links of one Structure: one per face, in the order
      of the faces, from the structure node to that face; none when there
      is no structure node. */
  ghost predicate FaceLinks(links: seq<Rel>, structureId: Option<Id>, faces: seq<Node>) {
    && |links| == (if structureId.Some? then |faces| else 0)
    && forall k :: 0 <= k < |links| ==>
         links[k].relType == "HAS_FACE" && Some(links[k].source) == structureId && links[k].target == faces[k].id
  }

  /** The `HAS_FACE` links of one Structure so far: `k` relationships
      appended to `rels0`, one per face of `newFaces`. */
  ghost predicate LinksAdded(rels0: seq<Rel>, rels: seq<Rel>, k: nat, structureId: Option<Id>, newFaces: seq<Node>) {
    && |rels| == |rels0| + k && rels[..|rels0|] == rels0
    && FaceLinks(rels[|rels0|..], structureId, newFaces)
  }

  lemma FacesAddedStep(nodes0: seq<Node>, nodes: seq<Node>, newFaces: seq<Node>, faceIdMap: map<string, Id>,
                       n: Node, fno: string)
    requires FacesAdded(nodes0, nodes, newFaces, faceIdMap)
    requires n.labels == ["Face"] && n.id !in NodeIdsOf(nodes)
    requires "face_no" in n.properties && n.properties["face_no"] == Str(fno)
    ensures FacesAdded(nodes0, nodes + [n], newFaces + [n], faceIdMap[fno := n.id])
  {
    var m' := faceIdMap[fno := n.id];
    forall f | f in m'
      ensures exists x :: x in newFaces + [n] && x.id == m'[f] && x.properties["face_no"] == Str(f)
    {
      if f == fno {
        assert n in newFaces + [n];
      } else {
        var x :| x in newFaces && x.id == faceIdMap[f] && x.properties["face_no"] == Str(f);
        assert x in newFaces + [n];
      }
    }
  }

  lemma LinksAddedStep(rels0: seq<Rel>, rels: seq<Rel>, k: nat, structureId: Option<Id>, newFaces: seq<Node>,
                       n: Node, x: Option<Rel>)
    requires LinksAdded(rels0, rels, k, structureId, newFaces)
    requires x.Some? <==> structureId.Some?
    requires x.Some? ==> x.value.relType == "HAS_FACE" && structureId == Some(x.value.source) && x.value.target == n.id
    ensures x.None? ==> LinksAdded(rels0, rels, k, structureId, newFaces + [n])
    ensures x.Some? ==> LinksAdded(rels0, rels + [x.value], k + 1, structureId, newFaces + [n])
  {
    if x.Some? {
      assert (rels + [x.value])[|rels0|..] == rels[|rels0|..] + [x.value];
    }
  }

  /** One Face element: creates the Face node and, when the structure node
      exists, the `HAS_FACE` relationship to it; `ok` is false when the
      creation raises or the store refuses that relationship. */
  method ImportFace(graph: GraphStore, props: Props, structureId: Option<Id>) returns (ok: bool, faceId: Option<Id>)
    requires graph.Valid()
    requires structureId.Some? ==> structureId.value in graph.NodeIds()
    modifies graph
    ensures graph.Valid() && graph.minted >= old(graph.minted)
    ensures faceId.None? ==> graph.nodes == old(graph.nodes) && graph.rels == old(graph.rels)
    ensures faceId.Some? ==> && faceId.value !in old(graph.NodeIds())
                             && graph.nodes == old(graph.nodes) + [Node(faceId.value, ["Face"], Stored(props))]
    ensures ok && faceId.Some? && structureId.None? ==> graph.rels == old(graph.rels)
    ensures ok && faceId.Some? && structureId.Some? ==>
      exists x :: && graph.rels == old(graph.rels) + [x]
                  && x.relType == "HAS_FACE" && x.source == structureId.value && x.target == faceId.value
  {
    var raised;
    faceId, raised := graph.CreateNode(["Face"], props);
    ok := !raised;
    if faceId.Some? && structureId.Some? {
      var relId := graph.CreateRel(structureId.value, faceId.value, "HAS_FACE", map[]);
      ok := relId.Some?;
      if ok {
        assert graph.rels == old(graph.rels) + [Rel(relId.value, structureId.value, faceId.value, "HAS_FACE", Stored(map[]))];
      }
    }
  }

  /** The Face loop of one Structure. Each `Face` element becomes a Face
      node; `face_id_map` maps its `FaceNo` to the new node (a later face
      with the same number overriding), and when the structure node exists
      a `HAS_FACE` relationship links the two. A raising creation or a
      store failure on that relationship aborts (`ok` false). */
  method ImportFaces(graph: GraphStore, faces: seq<Element>, structureNo: string, englishName: string,
                     structureId: Option<Id>)
    returns (ok: bool, faceIdMap: map<string, Id>, facesCreated: nat, relsCreated: nat, ghost newFaces: seq<Node>,
             ghost picked: seq<nat>)
    requires graph.Valid()
    requires structureId.Some? ==> structureId.value in graph.NodeIds()
    modifies graph
    ensures graph.Valid() && graph.minted >= old(graph.minted)
    ensures old(graph.NodeIds()) <= graph.NodeIds()
    ensures ok ==> facesCreated == |newFaces| <= |faces|
    ensures ok ==> FacesAdded(old(graph.nodes), graph.nodes, newFaces, faceIdMap)
    ensures ok ==> relsCreated == (if structureId.Some? then facesCreated else 0)
    ensures ok ==> LinksAdded(old(graph.rels), graph.rels, relsCreated, structureId, newFaces)
    ensures ok ==> faceIdMap == FaceMapOf(newFaces)
    ensures ok ==> FacesFrom(newFaces, picked, faces, structureNo, englishName)
  {
    ok, faceIdMap, facesCreated, relsCreated, newFaces, picked := true, map[], 0, 0, [], [];
    for i := 0 to |faces|
      invariant graph.Valid() && graph.minted >= old(graph.minted)
      invariant old(graph.NodeIds()) <= graph.NodeIds()
      invariant structureId.Some? ==> structureId.value in graph.NodeIds()
      invariant facesCreated == |newFaces|
      invariant FacesLoop(old(graph.nodes), old(graph.rels), graph.nodes, graph.rels, faces, structureNo, englishName,
                          structureId, i, newFaces, picked, faceIdMap, relsCreated)
    {
      var created;
      ok, created, faceIdMap, relsCreated, newFaces, picked :=
        ImportFaceElement(graph, faces, i, structureNo, englishName, structureId, old(graph.nodes), old(graph.rels),
                          faceIdMap, relsCreated, newFaces, picked);
      if !ok {
        return;
      }
      if created {
        facesCreated := facesCreated + 1;
      }
    }
  }

  /** One iteration of the Face loop: Face element `i` becomes a Face
      node (when the store returns one), entered in `face_id_map` under
      its `FaceNo` and linked from the Structure when it exists. */
  method ImportFaceElement(graph: GraphStore, faces: seq<Element>, i: nat, structureNo: string, englishName: string,
                           structureId: Option<Id>, ghost nodes0: seq<Node>, ghost rels0: seq<Rel>,
                           faceIdMap: map<string, Id>, relsCreated: nat, ghost newFaces: seq<Node>, ghost picked: seq<nat>)
    returns (ok: bool, created: bool, faceIdMap': map<string, Id>, relsCreated': nat,
             ghost newFaces': seq<Node>, ghost picked': seq<nat>)
    requires graph.Valid() && i < |faces|
    requires structureId.Some? ==> structureId.value in graph.NodeIds()
    requires FacesLoop(nodes0, rels0, graph.nodes, graph.rels, faces, structureNo, englishName, structureId, i,
                       newFaces, picked, faceIdMap, relsCreated)
    modifies graph
    ensures graph.Valid() && graph.minted >= old(graph.minted)
    ensures old(graph.NodeIds()) <= graph.NodeIds()
    ensures structureId.Some? ==> structureId.value in graph.NodeIds()
    ensures |newFaces'| == |newFaces| + (if created then 1 else 0)
    ensures ok ==> FacesLoop(nodes0, rels0, graph.nodes, graph.rels, faces, structureNo, englishName, structureId, i + 1,
                             newFaces', picked', faceIdMap', relsCreated')
  {
    created, faceIdMap', relsCreated', newFaces', picked' := false, faceIdMap, relsCreated, newFaces, picked;
    var f := faces[i];
    var props := FaceProps(f, structureNo, englishName);
    StoredWithoutNull(props);
    ghost var nodesBefore, relsBefore := graph.nodes, graph.rels;
    var faceId;
    ok, faceId := ImportFace(graph, props, structureId);
    if faceId.Some? {
      NodeIdsOfAppend(nodesBefore, Node(faceId.value, ["Face"], props));
    }
    if !ok {
      return;
    }
    if faceId.Some? {
      ghost var n := Node(faceId.value, ["Face"], props);
      ghost var x: Option<Rel> := None;
      if structureId.Some? {
        ghost var y :| && graph.rels == relsBefore + [y]
                       && y.relType == "HAS_FACE" && y.source == structureId.value && y.target == faceId.value;
        x := Some(y);
        relsCreated' := relsCreated + 1;
      }
      FacesLoopStep(nodes0, rels0, nodesBefore, relsBefore, graph.nodes, graph.rels, faces,
                    structureNo, englishName, structureId, i, newFaces, picked, faceIdMap, n, x);
      faceIdMap' := faceIdMap[Attr(f, "FaceNo", "0") := faceId.value];
      newFaces', picked', created := newFaces + [n], picked + [i], true;
    }
  }

  /** What the Face loop has done after the first `i` Face elements:
      `newFaces` were created from the elements `picked`, in order;
      `faceIdMap` maps their numbers, the last face of each number
      winning; one `HAS_FACE` link per face when the Structure exists. */
  ghost predicate FacesLoop(nodes0: seq<Node>, rels0: seq<Rel>, nodes: seq<Node>, rels: seq<Rel>, faces: seq<Element>,
                            structureNo: string, englishName: string, structureId: Option<Id>, i: nat,
                            newFaces: seq<Node>, picked: seq<nat>, faceIdMap: map<string, Id>, relsCreated: nat)
  {
    && |newFaces| <= i
    && FacesAdded(nodes0, nodes, newFaces, faceIdMap)
    && relsCreated == (if structureId.Some? then |newFaces| else 0)
    && LinksAdded(rels0, rels, relsCreated, structureId, newFaces)
    && faceIdMap == FaceMapOf(newFaces)
    && FacesFrom(newFaces, picked, faces, structureNo, englishName)
    && (forall k :: 0 <= k < |picked| ==> picked[k] < i)
  }

  /** Face element `i` created the node `n` and, when the Structure
      exists, the link `x`: the loop's account grows by that face. */
  lemma FacesLoopStep(nodes0: seq<Node>, rels0: seq<Rel>, nodes: seq<Node>, rels: seq<Rel>,
                      nodes': seq<Node>, rels': seq<Rel>, faces: seq<Element>,
                      structureNo: string, englishName: string, structureId: Option<Id>, i: nat,
                      newFaces: seq<Node>, picked: seq<nat>, faceIdMap: map<string, Id>, n: Node, x: Option<Rel>)
    requires FacesLoop(nodes0, rels0, nodes, rels, faces, structureNo, englishName, structureId, i,
                       newFaces, picked, faceIdMap, if structureId.Some? then |newFaces| else 0)
    requires i < |faces|
    requires n.labels == ["Face"] && n.id !in NodeIdsOf(nodes) && n.properties == FaceProps(faces[i], structureNo, englishName)
    requires nodes' == nodes + [n]
    requires x.Some? <==> structureId.Some?
    requires x.Some? ==> && rels' == rels + [x.value]
                         && x.value.relType == "HAS_FACE" && structureId == Some(x.value.source) && x.value.target == n.id
    requires x.None? ==> rels' == rels
    ensures FacesLoop(nodes0, rels0, nodes', rels', faces, structureNo, englishName, structureId, i + 1,
                      newFaces + [n], picked + [i], faceIdMap[Attr(faces[i], "FaceNo", "0") := n.id],
                      if structureId.Some? then |newFaces| + 1 else 0)
  {
    var relsCreated := if structureId.Some? then |newFaces| else 0;
    FacesAddedStep(nodes0, nodes, newFaces, faceIdMap, n, Attr(faces[i], "FaceNo", "0"));
    LinksAddedStep(rels0, rels, relsCreated, structureId, newFaces, n, x);
    FacesFromStep(newFaces, picked, faces, structureNo, englishName, i, n);
  }


  /** The two faces an edge element names, when `face_id_map` resolves
      both of its face numbers. */
  function EdgeEnds(e: Element, faceIdMap: map<string, Id>): (r: Option<(Id, Id)>)
    ensures r.Some? <==> && AttrOpt(e, "SourceFaceNo").Some? && AttrOpt(e, "SourceFaceNo").value in faceIdMap
                         && AttrOpt(e, "TargetFaceNo").Some? && AttrOpt(e, "TargetFaceNo").value in faceIdMap
    ensures r.Some? ==> r.value == (faceIdMap[e.attrs["SourceFaceNo"]], faceIdMap[e.attrs["TargetFaceNo"]])
  {
    var sourceNo, targetNo := AttrOpt(e, "SourceFaceNo"), AttrOpt(e, "TargetFaceNo");
    if sourceNo.Some? && sourceNo.value in faceIdMap && targetNo.Some? && targetNo.value in faceIdMap
    then Some((faceIdMap[sourceNo.value], faceIdMap[targetNo.value]))
    else None
  }

  /** An edge element the loop turns into a `RELATIONSHIP`: both face
      numbers resolve, to two different nodes. */
  predicate Creatable(e: Element, faceIdMap: map<string, Id>) {
    EdgeEnds(e, faceIdMap).Some? && EdgeEnds(e, faceIdMap).value.0 != EdgeEnds(e, faceIdMap).value.1
  }

  /** The edge elements the loop creates, in document order. */
  function CreatableEdges(edges: seq<Element>, faceIdMap: map<string, Id>): (r: seq<Element>)
    ensures |r| <= |edges|
    ensures forall e :: e in r <==> e in edges && Creatable(e, faceIdMap)
  {
    if edges == [] then []
    else
      var e := edges[|edges| - 1];
      CreatableEdges(edges[..|edges| - 1], faceIdMap) + (if Creatable(e, faceIdMap) then [e] else [])
  }

  /** `x` is the `RELATIONSHIP` created for the edge element `e`: between
      the two faces it names, carrying its property map. */
  predicate MadeFrom(x: Rel, e: Element, faceIdMap: map<string, Id>) {
    && Creatable(e, faceIdMap)
    && x.relType == "RELATIONSHIP"
    && (x.source, x.target) == EdgeEnds(e, faceIdMap).value
    && x.properties == EdgeProps(e)
  }

  /** `added` holds one relationship per creatable edge of `edges`, in
      order: the last creatable edge made the last relationship, and so
      on back. */
  predicate MadeInOrder(added: seq<Rel>, edges: seq<Element>, faceIdMap: map<string, Id>)
    decreases |edges|
  {
    if edges == [] then added == []
    else
      var e := edges[|edges| - 1];
      if Creatable(e, faceIdMap) then
        && added != []
        && MadeFrom(added[|added| - 1], e, faceIdMap)
        && MadeInOrder(added[..|added| - 1], edges[..|edges| - 1], faceIdMap)
      else MadeInOrder(added, edges[..|edges| - 1], faceIdMap)
  }

  /** The correspondence by index: relationship `k` was made from the
      `k`-th creatable edge. */
  lemma {:induction false} MadeInOrderIndexed(added: seq<Rel>, edges: seq<Element>, faceIdMap: map<string, Id>)
    requires MadeInOrder(added, edges, faceIdMap)
    ensures |added| == |CreatableEdges(edges, faceIdMap)|
    ensures forall k :: 0 <= k < |added| ==> MadeFrom(added[k], CreatableEdges(edges, faceIdMap)[k], faceIdMap)
    decreases |edges|
  {
    if edges != [] {
      var e, pre := edges[|edges| - 1], edges[..|edges| - 1];
      if Creatable(e, faceIdMap) {
        var front := added[..|added| - 1];
        MadeInOrderIndexed(front, pre, faceIdMap);
        assert added == front + [added[|added| - 1]];
        assert CreatableEdges(edges, faceIdMap) == CreatableEdges(pre, faceIdMap) + [e];
      } else {
        MadeInOrderIndexed(added, pre, faceIdMap);
      }
    }
  }

  /** One iteration of the edge loop: the edge element `e` becomes a
      `RELATIONSHIP` exactly when it is creatable (`made`); `x` is that
      relationship. A store failure gives `ok` false. */
  method ImportEdge(graph: GraphStore, e: Element, faceIdMap: map<string, Id>)
    returns (ok: bool, made: bool, ghost x: Rel)
    requires graph.Valid()
    requires forall fno :: fno in faceIdMap ==> faceIdMap[fno] in graph.NodeIds()
    modifies graph
    ensures graph.Valid() && graph.minted >= old(graph.minted) && graph.nodes == old(graph.nodes)
    ensures ok ==> (made <==> Creatable(e, faceIdMap))
    ensures ok && made ==> MadeFrom(x, e, faceIdMap) && graph.rels == old(graph.rels) + [x]
    ensures ok && !made ==> graph.rels == old(graph.rels)
  {
    ok, made, x := true, false, Rel("", "", "", "", map[]);
    var sourceNo, targetNo := AttrOpt(e, "SourceFaceNo"), AttrOpt(e, "TargetFaceNo");
    if sourceNo.Some? && sourceNo.value in faceIdMap && targetNo.Some? && targetNo.value in faceIdMap {
      var source, target := faceIdMap[sourceNo.value], faceIdMap[targetNo.value];
      assert EdgeEnds(e, faceIdMap) == Some((source, target));
      if source != target {
        var props := EdgeProps(e);
        StoredWithoutNull(props);
        var relId := graph.CreateRel(source, target, "RELATIONSHIP", props);
        if relId.None? {
          return false, false, x;
        }
        made, x := true, Rel(relId.value, source, target, "RELATIONSHIP", props);
      }
    }
  }

  /** The edge loop of one Structure. An edge whose face numbers are not
      both in `face_id_map` is skipped, so is one whose two faces are the
      same node; any other becomes a `RELATIONSHIP`. A store failure
      aborts (`ok` false). */
  method ImportEdges(graph: GraphStore, edges: seq<Element>, faceIdMap: map<string, Id>)
    returns (ok: bool, created: nat, skipped: nat)
    requires graph.Valid()
    requires forall fno :: fno in faceIdMap ==> faceIdMap[fno] in graph.NodeIds()
    modifies graph
    ensures graph.Valid() && graph.minted >= old(graph.minted) && graph.nodes == old(graph.nodes)
    ensures ok ==> created + skipped == |edges|
    ensures ok ==> |graph.rels| == |old(graph.rels)| + created && graph.rels[..|old(graph.rels)|] == old(graph.rels)
    ensures ok ==> forall x :: x in graph.rels[|old(graph.rels)|..] ==>
      && x.relType == "RELATIONSHIP" && x.source != x.target
      && ResolvedEdge(x, edges, faceIdMap)
    ensures ok ==> created == |CreatableEdges(edges, faceIdMap)|
    ensures ok ==> MadeInOrder(graph.rels[|old(graph.rels)|..], edges, faceIdMap)
  {
    ok, created, skipped := true, 0, 0;
    ghost var added: seq<Rel> := [];
    for i := 0 to |edges|
      invariant graph.Valid() && graph.minted >= old(graph.minted) && graph.nodes == old(graph.nodes)
      invariant forall fno :: fno in faceIdMap ==> faceIdMap[fno] in graph.NodeIds()
      invariant created + skipped == i && created == |added|
      invariant graph.rels == old(graph.rels) + added
      invariant MadeInOrder(added, edges[..i], faceIdMap)
    {
      var e := edges[i];
      assert edges[..i + 1] == edges[..i] + [e];
      var made;
      ghost var x;
      ok, made, x := ImportEdge(graph, e, faceIdMap);
      if !ok {
        return;
      }
      if made {
        MadeInOrderStep(added, edges[..i], e, faceIdMap, x);
        added := added + [x];
        created := created + 1;
      } else {
        MadeInOrderSkip(added, edges[..i], e, faceIdMap);
        skipped := skipped + 1;
      }
    }
    assert graph.rels[|old(graph.rels)|..] == added;
    MadeInOrderResolved(added, edges, faceIdMap);
  }

  /** Every relationship of the correspondence joins two different faces
      that an edge element of `edges` names. */
  lemma MadeInOrderResolved(added: seq<Rel>, edges: seq<Element>, faceIdMap: map<string, Id>)
    requires MadeInOrder(added, edges[..|edges|], faceIdMap)
    ensures MadeInOrder(added, edges, faceIdMap) && |added| == |CreatableEdges(edges, faceIdMap)|
    ensures forall x :: x in added ==>
      && x.relType == "RELATIONSHIP" && x.source != x.target
      && ResolvedEdge(x, edges, faceIdMap)
  {
    assert edges[..|edges|] == edges;
    MadeInOrderIndexed(added, edges, faceIdMap);
    forall x | x in added
      ensures x.relType == "RELATIONSHIP" && x.source != x.target && ResolvedEdge(x, edges, faceIdMap)
    {
      var k :| 0 <= k < |added| && added[k] == x;
      var e := CreatableEdges(edges, faceIdMap)[k];
      assert e in CreatableEdges(edges, faceIdMap);
      assert MadeFrom(x, e, faceIdMap);
      var s, t := e.attrs["SourceFaceNo"], e.attrs["TargetFaceNo"];
      assert e in edges && AttrOpt(e, "SourceFaceNo") == Some(s) && AttrOpt(e, "TargetFaceNo") == Some(t);
    }
  }

  /** One more creatable edge extends the ordered correspondence by the
      relationship made from it. */
  lemma MadeInOrderStep(added: seq<Rel>, edges: seq<Element>, e: Element, faceIdMap: map<string, Id>, x: Rel)
    requires MadeInOrder(added, edges, faceIdMap) && MadeFrom(x, e, faceIdMap)
    ensures MadeInOrder(added + [x], edges + [e], faceIdMap)
  {
    assert (edges + [e])[..|edges|] == edges;
    assert (added + [x])[..|added|] == added;
  }

  /** An edge that is not creatable leaves the correspondence as it was. */
  lemma MadeInOrderSkip(added: seq<Rel>, edges: seq<Element>, e: Element, faceIdMap: map<string, Id>)
    requires MadeInOrder(added, edges, faceIdMap) && !Creatable(e, faceIdMap)
    ensures MadeInOrder(added, edges + [e], faceIdMap)
  {
    assert (edges + [e])[..|edges|] == edges;
  }

  /** The number of relationships of type `t` in `rs`. */
  function CountType(rs: seq<Rel>, t: string): (c: nat)
    ensures c <= |rs|
  {
    if rs == [] then 0
    else CountType(rs[..|rs| - 1], t) + (if rs[|rs| - 1].relType == t then 1 else 0)
  }

  lemma {:induction false} CountTypeConcat(a: seq<Rel>, b: seq<Rel>, t: string)
    ensures CountType(a + b, t) == CountType(a, t) + CountType(b, t)
    decreases |b|
  {
    if b != [] {
      assert (a + b)[..|a + b| - 1] == a + b[..|b| - 1];
      CountTypeConcat(a, b[..|b| - 1], t);
    } else {
      assert a + b == a;
    }
  }

  lemma {:induction false} CountTypeAllOrNone(rs: seq<Rel>, t: string)
    ensures (forall x :: x in rs ==> x.relType == t) ==> CountType(rs, t) == |rs|
    ensures (forall x :: x in rs ==> x.relType != t) ==> CountType(rs, t) == 0
    decreases |rs|
  {
    if rs != [] {
      assert forall x :: x in rs[..|rs| - 1] ==> x in rs;
      assert rs[|rs| - 1] in rs;
      CountTypeAllOrNone(rs[..|rs| - 1], t);
    }
  }

  /** `xs` is `xs0` with `k` entries appended. */
  ghost predicate Grown<T>(xs0: seq<T>, xs: seq<T>, k: nat) {
    |xs| == |xs0| + k && xs[..|xs0|] == xs0
  }

  lemma GrownTrans<T>(a: seq<T>, b: seq<T>, c: seq<T>, j: nat, k: nat)
    requires Grown(a, b, j) && Grown(b, c, k)
    ensures Grown(a, c, j + k)
    ensures c[|a|..] == b[|a|..] + c[|b|..]
  {
    assert c[..|a|] == c[..|b|][..|a|];
  }

  /** Every `RELATIONSHIP` appended after `rels[..from]` joins two
      different nodes of one `scope`. */
  ghost predicate EdgesScoped(rels: seq<Rel>, from: nat, scope: map<Id, nat>)
    requires from <= |rels|
  {
    forall x :: x in rels[from..] && x.relType == "RELATIONSHIP" ==>
      && x.source != x.target && x.source in scope && x.target in scope
      && scope[x.source] == scope[x.target]
  }

  /** The structure node of a `Structure` element: labelled with its
      English name, or `Structure` when that is empty. */
  function StructureLabels(s: Element): (labels: seq<string>)
    ensures |labels| == 1 && labels[0] != ""
  {
    var english := Attr(s, "StructureEnglishName", "");
    if english != "" then [english] else ["Structure"]
  }

  function StructureProps(s: Element): Props {
    map["structure_no" := Str(Attr(s, "StructureNo", "1")),
        "structure_name" := Str(Attr(s, "StructureName", "")),
        "structure_english_name" := Str(Attr(s, "StructureEnglishName", ""))]
  }

  /** The structure node `CreateNode` appends for `s` under `id`; none
      when the store returned no node. */
  function StructureNode(id: Option<Id>, s: Element): (ns: seq<Node>)
    ensures |ns| <= 1 && IdOf(ns) == id
  {
    if id.Some? then [Node(id.value, StructureLabels(s), Stored(StructureProps(s)))] else []
  }

  /** The identifier of the node in a list of at most one node. */
  function IdOf(ns: seq<Node>): Option<Id> {
    if ns == [] then None else Some(ns[0].id)
  }

  /** The `HAS_STRUCTURE` link of one Structure: there is one exactly
      when both the repository node and the structure node exist, and it
      goes from the first to the second. */
  ghost predicate StructureLink(hs: seq<Rel>, repositoryId: Option<Id>, structureId: Option<Id>) {
    && |hs| == (if repositoryId.Some? && structureId.Some? then 1 else 0)
    && forall x :: x in hs ==>
         x.relType == "HAS_STRUCTURE" && Some(x.source) == repositoryId && Some(x.target) == structureId
  }

  /** What one `Structure` element appended to the store, each part in
      creation order: its structure node (none when the store returned
      none), its Face nodes, the `HAS_STRUCTURE` link, the `HAS_FACE`
      links and the `RELATIONSHIP`s made from its edges. */
  datatype Appended = Appended(structNode: seq<Node>, faces: seq<Node>, hasStructure: seq<Rel>, hasFace: seq<Rel>,
                               edges: seq<Rel>)

  /** The Repository → Structure → Face → Edge hierarchy one Structure
      `s` appended under the repository node `repositoryId`, with
      `faceMap` its final `face_id_map`. */
  ghost predicate Hierarchy(a: Appended, s: Element, repositoryId: Option<Id>, faceMap: map<string, Id>) {
    && a.structNode == StructureNode(IdOf(a.structNode), s)
    && (forall n :: n in a.faces ==> n.labels == ["Face"])
    && StructureLink(a.hasStructure, repositoryId, IdOf(a.structNode))
    && FaceLinks(a.hasFace, IdOf(a.structNode), a.faces)
    && MadeInOrder(a.edges, EdgeElements(s), faceMap)
  }

  /** The nodes the Structures appended, Structure after Structure. */
  function AllNodes(segs: seq<Appended>): seq<Node> {
    if segs == [] then []
    else AllNodes(segs[..|segs| - 1]) + segs[|segs| - 1].structNode + segs[|segs| - 1].faces
  }

  /** The relationships the Structures appended, Structure after
      Structure. */
  function AllRels(segs: seq<Appended>): seq<Rel> {
    if segs == [] then []
    else
      var a := segs[|segs| - 1];
      AllRels(segs[..|segs| - 1]) + a.hasStructure + a.hasFace + a.edges
  }

  /** One more Structure appends its parts after those of the earlier
      ones. */
  lemma AllAppendedSnoc(segs: seq<Appended>, a: Appended)
    ensures AllNodes(segs + [a]) == AllNodes(segs) + a.structNode + a.faces
    ensures AllRels(segs + [a]) == AllRels(segs) + a.hasStructure + a.hasFace + a.edges
  {
    assert (segs + [a])[..|segs|] == segs;
  }

  /** `face_id_map` only names faces of `newFaces`. */
  lemma FaceIdMapInFaces(nodes0: seq<Node>, nodes: seq<Node>, newFaces: seq<Node>, faceIdMap: map<string, Id>)
    requires FacesAdded(nodes0, nodes, newFaces, faceIdMap)
    ensures forall fno :: fno in faceIdMap ==> faceIdMap[fno] in NodeIdsOf(newFaces)
    ensures NodeIdsOf(newFaces) <= NodeIdsOf(nodes) && NodeIdsOf(newFaces) !! NodeIdsOf(nodes0)
  {
    forall fno | fno in faceIdMap ensures faceIdMap[fno] in NodeIdsOf(newFaces) {
      var n :| n in newFaces && n.id == faceIdMap[fno] && n.properties["face_no"] == Str(fno);
    }
    forall id | id in NodeIdsOf(newFaces) ensures id in NodeIdsOf(nodes) && id !in NodeIdsOf(nodes0) {
      var n :| n in newFaces && n.id == id;
      assert n in nodes;
    }
  }

  /** The structure node of one `Structure` element and, when it and the
      repository node exist, the `HAS_STRUCTURE` relationship between
      them; `ok` is false when the node creation raises or the store
      refuses that relationship. */
  method ImportStructureNode(graph: GraphStore, s: Element, repositoryId: Option<Id>)
    returns (ok: bool, structureId: Option<Id>, nodesCreated: nat, relsCreated: nat)
    requires graph.Valid()
    requires repositoryId.Some? ==> repositoryId.value in graph.NodeIds()
    modifies graph
    ensures graph.Valid() && graph.minted >= old(graph.minted)
    ensures old(graph.NodeIds()) <= graph.NodeIds()
    ensures structureId.Some? ==> structureId.value in graph.NodeIds()
    ensures nodesCreated == (if structureId.Some? then 1 else 0)
    ensures graph.nodes == old(graph.nodes) + StructureNode(structureId, s)
    ensures Grown(old(graph.nodes), graph.nodes, nodesCreated)
    ensures ok ==> Grown(old(graph.rels), graph.rels, relsCreated)
    ensures ok ==> StructureLink(graph.rels[|old(graph.rels)|..], repositoryId, structureId)
  {
    nodesCreated, relsCreated := 0, 0;
    var raised;
    structureId, raised := graph.CreateNode(StructureLabels(s), StructureProps(s));
    ok := !raised;
    if structureId.Some? {
      nodesCreated := 1;
      if repositoryId.Some? {
        var relId := graph.CreateRel(repositoryId.value, structureId.value, "HAS_STRUCTURE", map[]);
        if relId.None? {
          return false, structureId, nodesCreated, relsCreated;
        }
        relsCreated := 1;
        assert graph.rels[|old(graph.rels)|..] == [Rel(relId.value, repositoryId.value, structureId.value, "HAS_STRUCTURE", Stored(map[]))];
      }
    }
  }

  /** A relationship made by an edge loop. */
  predicate IsEdge(x: Rel) {
    x.relType == "RELATIONSHIP"
  }

  /** Filtering the `RELATIONSHIP`s out of links followed by edges leaves
      the edges. */
  lemma EdgesFiltered(links: seq<Rel>, edges: seq<Rel>)
    requires forall x :: x in links ==> !IsEdge(x)
    requires forall x :: x in edges ==> IsEdge(x)
    ensures Filter(links + edges, IsEdge) == edges
  {
    FilterConcat(links, edges, IsEdge);
    NoMemberEmpty(Filter(links, IsEdge));
    FilterAll(edges, IsEdge);
  }

  /** The `RELATIONSHIP`s of one Structure come from its edge loop alone:
      the structure and `HAS_FACE` links before them contribute none. */
  lemma StructureEdgesCounted(rels0: seq<Rel>, rels1: seq<Rel>, rels2: seq<Rel>, rels3: seq<Rel>, j: nat, k: nat, m: nat)
    requires Grown(rels0, rels1, j) && Grown(rels1, rels2, k) && Grown(rels2, rels3, m)
    requires forall x :: x in rels1[|rels0|..] ==> x.relType == "HAS_STRUCTURE"
    requires forall x :: x in rels2[|rels1|..] ==> x.relType == "HAS_FACE"
    requires forall x :: x in rels3[|rels2|..] ==> x.relType == "RELATIONSHIP"
    ensures Grown(rels0, rels3, j + k + m)
    ensures CountType(rels3[|rels0|..], "RELATIONSHIP") == m
    ensures forall x :: x in rels3[|rels0|..] && x.relType == "RELATIONSHIP" ==> x in rels3[|rels2|..]
    ensures Filter(rels3[|rels0|..], IsEdge) == rels3[|rels2|..]
  {
    GrownTrans(rels0, rels1, rels2, j, k);
    GrownTrans(rels0, rels2, rels3, j + k, m);
    var links, edges := rels2[|rels0|..], rels3[|rels2|..];
    assert rels3[|rels0|..] == links + edges;
    forall x | x in links ensures x.relType != "RELATIONSHIP" {
      assert links == rels1[|rels0|..] + rels2[|rels1|..];
    }
    LinksThenEdges(links, edges);
  }

  /** Links with no `RELATIONSHIP` among them, followed by edges that are
      all `RELATIONSHIP`s: the edges are exactly the `RELATIONSHIP`s. */
  lemma LinksThenEdges(links: seq<Rel>, edges: seq<Rel>)
    requires forall x :: x in links ==> x.relType != "RELATIONSHIP"
    requires forall x :: x in edges ==> x.relType == "RELATIONSHIP"
    ensures CountType(links + edges, "RELATIONSHIP") == |edges|
    ensures forall x :: x in links + edges && x.relType == "RELATIONSHIP" ==> x in edges
    ensures Filter(links + edges, IsEdge) == edges
  {
    EdgesFiltered(links, edges);
    CountTypeAllOrNone(links, "RELATIONSHIP");
    CountTypeAllOrNone(edges, "RELATIONSHIP");
    CountTypeConcat(links, edges, "RELATIONSHIP");
  }


  /** One `Structure` element: its structure node (linked from the
      repository node when both exist), its faces and its edges. `ok` is
      false when a creation raises or the store refuses a relationship.
      Every `RELATIONSHIP`
      created here joins two different faces created here; they are
      made in order from the edges that `faceMap` (the final
      `face_id_map`) makes creatable, and the other edges are counted as
      skipped. */
  method ImportStructure(graph: GraphStore, s: Element, repositoryId: Option<Id>)
    returns (ok: bool, nodesCreated: nat, relsCreated: nat, skipped: nat, ghost faceIds: set<Id>,
             ghost faceMap: map<string, Id>, ghost seg: Appended, ghost picked: seq<nat>)
    requires graph.Valid()
    requires repositoryId.Some? ==> repositoryId.value in graph.NodeIds()
    modifies graph
    ensures graph.Valid() && graph.minted >= old(graph.minted)
    ensures old(graph.NodeIds()) <= graph.NodeIds()
    ensures ok ==> StructureImported(old(graph.nodes), old(graph.rels), graph.nodes, graph.rels, s, repositoryId,
                                     XmlCounts(nodesCreated, relsCreated, skipped), faceIds, faceMap, seg, picked)
  {
    ghost var nodes0, rels0 := graph.nodes, graph.rels;
    skipped, faceIds, faceMap, seg, picked := 0, {}, map[], Appended([], [], [], [], []), [];
    var structureId, linksCreated;
    ok, structureId, nodesCreated, relsCreated := ImportStructureNode(graph, s, repositoryId);
    if !ok {
      return;
    }
    ghost var nodes1, rels1 := graph.nodes, graph.rels;
    var faceIdMap, facesCreated, edgesCreated;
    ghost var faces, rels2;
    ok, faceIdMap, facesCreated, linksCreated, edgesCreated, skipped, faces, picked, rels2 :=
      ImportFacesAndEdges(graph, s, structureId);
    if !ok {
      return;
    }
    faceIds, faceMap := NodeIdsOf(faces), faceIdMap;
    seg := Appended(StructureNode(structureId, s), faces, rels1[|rels0|..], rels2[|rels1|..], graph.rels[|rels2|..]);
    StructurePhasesImported(old(graph.nodes), old(graph.rels), nodes1, rels1, graph.nodes, rels2, graph.rels, s,
                            nodesCreated, relsCreated, facesCreated, linksCreated, edgesCreated, skipped, structureId,
                            repositoryId, XmlCounts(nodesCreated + facesCreated, relsCreated + linksCreated + edgesCreated,
                                                    skipped), faceIds, faceMap, seg, picked);
    nodesCreated, relsCreated := nodesCreated + facesCreated, relsCreated + linksCreated + edgesCreated;
  }

  /** The Face loop and then the edge loop of one Structure; `rels2` is
      the relationship list between the two. */
  method ImportFacesAndEdges(graph: GraphStore, s: Element, structureId: Option<Id>)
    returns (ok: bool, faceIdMap: map<string, Id>, facesCreated: nat, linksCreated: nat, edgesCreated: nat,
             skipped: nat, ghost faces: seq<Node>, ghost picked: seq<nat>, ghost rels2: seq<Rel>)
    requires graph.Valid()
    requires structureId.Some? ==> structureId.value in graph.NodeIds()
    modifies graph
    ensures graph.Valid() && graph.minted >= old(graph.minted)
    ensures old(graph.NodeIds()) <= graph.NodeIds()
    ensures ok ==> FacesAndEdgesAdded(old(graph.nodes), old(graph.rels), graph.nodes, rels2, graph.rels, s,
                                      facesCreated, linksCreated, edgesCreated, skipped, structureId, faceIdMap,
                                      faces, picked)
  {
    edgesCreated, skipped, rels2 := 0, 0, [];
    ok, faceIdMap, facesCreated, linksCreated, faces, picked :=
      ImportFaces(graph, FaceElements(s), Attr(s, "StructureNo", "1"), Attr(s, "StructureEnglishName", ""), structureId);
    if !ok {
      return;
    }
    rels2 := graph.rels;
    ok, edgesCreated, skipped := ImportEdges(graph, EdgeElements(s), faceIdMap);
  }

  /** What the Face loop (from `nodes1`/`rels1` to `nodes2`/`rels2`) and
      the edge loop (from `rels2` to `rels3`) of Structure `s` did. */
  ghost predicate FacesAndEdgesAdded(nodes1: seq<Node>, rels1: seq<Rel>, nodes2: seq<Node>, rels2: seq<Rel>,
                                     rels3: seq<Rel>, s: Element, f: nat, l: nat, e: nat, skipped: nat,
                                     structureId: Option<Id>, faceIdMap: map<string, Id>, faces: seq<Node>,
                                     picked: seq<nat>)
  {
    && f == |faces| && FacesAdded(nodes1, nodes2, faces, faceIdMap)
    && LinksAdded(rels1, rels2, l, structureId, faces)
    && faceIdMap == FaceMapOf(faces)
    && FacesFrom(faces, picked, FaceElements(s), Attr(s, "StructureNo", "1"), Attr(s, "StructureEnglishName", ""))
    && e + skipped == |EdgeElements(s)| && Grown(rels2, rels3, e)
    && (forall x :: x in rels3[|rels2|..] ==>
          x.relType == "RELATIONSHIP" && x.source != x.target && ResolvedEdge(x, EdgeElements(s), faceIdMap))
    && e == |CreatableEdges(EdgeElements(s), faceIdMap)|
    && MadeInOrder(rels3[|rels2|..], EdgeElements(s), faceIdMap)
  }

  /** The three phases of one Structure (its node, its faces, its edges)
      together make what `StructureImported` promises. */
  lemma StructurePhasesImported(nodes0: seq<Node>, rels0: seq<Rel>, nodes1: seq<Node>, rels1: seq<Rel>,
                                nodes2: seq<Node>, rels2: seq<Rel>, rels3: seq<Rel>, s: Element,
                                n: nat, r: nat, f: nat, l: nat, e: nat, skipped: nat, structureId: Option<Id>,
                                repositoryId: Option<Id>, step: XmlCounts, faceIds: set<Id>,
                                faceIdMap: map<string, Id>, seg: Appended, picked: seq<nat>)
    requires nodes1 == nodes0 + StructureNode(structureId, s)
    requires NodeIdsOf(nodes0) <= NodeIdsOf(nodes1) && Grown(nodes0, nodes1, n) && Grown(rels0, rels1, r)
    requires StructureLink(rels1[|rels0|..], repositoryId, structureId)
    requires FacesAndEdgesAdded(nodes1, rels1, nodes2, rels2, rels3, s, f, l, e, skipped, structureId, faceIdMap,
                                seg.faces, picked)
    requires seg == Appended(StructureNode(structureId, s), seg.faces, rels1[|rels0|..], rels2[|rels1|..], rels3[|rels2|..])
    requires step == XmlCounts(n + f, r + l + e, skipped) && faceIds == NodeIdsOf(seg.faces)
    ensures StructureImported(nodes0, rels0, nodes2, rels3, s, repositoryId, step, faceIds, faceIdMap, seg, picked)
  {
    StructureHierarchyAppended(nodes0, rels0, nodes1, rels1, nodes2, rels2, rels3, s, l, e, structureId,
                               repositoryId, faceIdMap, seg);
    StructurePhasesCounted(nodes0, rels0, nodes1, rels1, nodes2, rels2, rels3, s, n, r, f, l, e, skipped, structureId,
                           repositoryId, step, faceIds, faceIdMap, seg.faces, picked);
  }

  /** The three phases of one Structure give its counts and its face
      map. */
  lemma StructurePhasesCounted(nodes0: seq<Node>, rels0: seq<Rel>, nodes1: seq<Node>, rels1: seq<Rel>,
                               nodes2: seq<Node>, rels2: seq<Rel>, rels3: seq<Rel>, s: Element,
                               n: nat, r: nat, f: nat, l: nat, e: nat, skipped: nat, structureId: Option<Id>,
                               repositoryId: Option<Id>, step: XmlCounts, faceIds: set<Id>,
                               faceIdMap: map<string, Id>, faces: seq<Node>, picked: seq<nat>)
    requires nodes1 == nodes0 + StructureNode(structureId, s)
    requires NodeIdsOf(nodes0) <= NodeIdsOf(nodes1) && Grown(nodes0, nodes1, n) && Grown(rels0, rels1, r)
    requires StructureLink(rels1[|rels0|..], repositoryId, structureId)
    requires FacesAndEdgesAdded(nodes1, rels1, nodes2, rels2, rels3, s, f, l, e, skipped, structureId, faceIdMap,
                                faces, picked)
    requires step == XmlCounts(n + f, r + l + e, skipped) && faceIds == NodeIdsOf(faces)
    ensures StructureCounted(nodes0, rels0, nodes2, rels3, s, step, faceIds, faceIdMap, faces, picked)
  {
    FaceIdMapInFaces(nodes1, nodes2, faces, faceIdMap);
    FacesNumbered(nodes1, nodes2, faces, faceIdMap);
    assert Grown(nodes1, nodes2, f);
    GrownTrans(nodes0, nodes1, nodes2, n, f);
    FaceLinksTyped(rels2[|rels1|..], structureId, faces);
    StructureEdgesCounted(rels0, rels1, rels2, rels3, r, l, e);
    ResolvedEdgesJoin(rels3[|rels2|..], EdgeElements(s), faceIdMap, NodeIdsOf(faces));
  }

  /** The structure node phase, the Face loop and the edge loop append,
      in this order, the hierarchy of the Structure. */
  lemma StructureHierarchyAppended(nodes0: seq<Node>, rels0: seq<Rel>, nodes1: seq<Node>, rels1: seq<Rel>,
                                   nodes2: seq<Node>, rels2: seq<Rel>, rels3: seq<Rel>, s: Element,
                                   l: nat, e: nat, structureId: Option<Id>, repositoryId: Option<Id>,
                                   faceIdMap: map<string, Id>, seg: Appended)
    requires nodes1 == nodes0 + StructureNode(structureId, s)
    requires |rels0| <= |rels1| && rels1[..|rels0|] == rels0
    requires StructureLink(rels1[|rels0|..], repositoryId, structureId)
    requires FacesAdded(nodes1, nodes2, seg.faces, faceIdMap)
    requires LinksAdded(rels1, rels2, l, structureId, seg.faces)
    requires Grown(rels2, rels3, e)
    requires MadeInOrder(rels3[|rels2|..], EdgeElements(s), faceIdMap)
    requires seg == Appended(StructureNode(structureId, s), seg.faces, rels1[|rels0|..], rels2[|rels1|..], rels3[|rels2|..])
    ensures StructureAppendedAs(nodes0, rels0, nodes2, rels3, s, repositoryId, faceIdMap, seg)
  {
    StructureAppended(rels0, rels1, rels2, rels3);
  }

  /** Every `HAS_FACE` link is typed `HAS_FACE`. */
  lemma FaceLinksTyped(links: seq<Rel>, structureId: Option<Id>, faces: seq<Node>)
    requires FaceLinks(links, structureId, faces)
    ensures forall x :: x in links ==> x.relType == "HAS_FACE"
  {
  }

  /** Three consecutive phases append their three parts in order. */
  lemma StructureAppended(rels0: seq<Rel>, rels1: seq<Rel>, rels2: seq<Rel>, rels3: seq<Rel>)
    requires |rels0| <= |rels1| <= |rels2| <= |rels3|
    requires rels1[..|rels0|] == rels0 && rels2[..|rels1|] == rels1 && rels3[..|rels2|] == rels2
    ensures rels3 == rels0 + rels1[|rels0|..] + rels2[|rels1|..] + rels3[|rels2|..]
  {
    assert rels1 == rels0 + rels1[|rels0|..];
    assert rels2 == rels1 + rels2[|rels1|..];
    assert rels3 == rels2 + rels3[|rels2|..];
  }

  /** Resolved edges join two nodes the face map names. */
  lemma ResolvedEdgesJoin(added: seq<Rel>, edges: seq<Element>, faceIdMap: map<string, Id>, ids: set<Id>)
    requires forall x :: x in added ==> ResolvedEdge(x, edges, faceIdMap)
    requires forall fno :: fno in faceIdMap ==> faceIdMap[fno] in ids
    ensures forall x :: x in added ==> x.source in ids && x.target in ids
  {
    forall x | x in added ensures x.source in ids && x.target in ids {
      var ed, sn, tn :| && ed in edges
                        && AttrOpt(ed, "SourceFaceNo") == Some(sn) && sn in faceIdMap && faceIdMap[sn] == x.source
                        && AttrOpt(ed, "TargetFaceNo") == Some(tn) && tn in faceIdMap && faceIdMap[tn] == x.target;
    }
  }


  /** The number of edge elements over all Structures, added up in
      document order. */
  lemma TotalEdgesStep(structs: seq<Element>, k: nat)
    requires k < |structs|
    ensures TotalEdges(structs[..k + 1]) == TotalEdges(structs[..k]) + |EdgeElements(structs[k])|
  {
    assert structs[..k + 1][..k] == structs[..k];
  }

  /** Adding the faces of Structure `k` to the scope keeps every earlier
      `RELATIONSHIP` inside its own Structure and puts the new ones
      inside Structure `k`. */
  lemma ScopeStep(rels0: seq<Rel>, relsB: seq<Rel>, relsC: seq<Rel>, grown: nat, scope: map<Id, nat>,
                  faceIds: set<Id>, k: nat, idsB: set<Id>)
    requires |rels0| <= |relsB| && Grown(relsB, relsC, grown)
    requires EdgesScoped(relsB, |rels0|, scope)
    requires scope.Keys <= idsB && faceIds !! idsB
    requires forall x :: x in relsC[|relsB|..] && x.relType == "RELATIONSHIP" ==>
      x.source != x.target && x.source in faceIds && x.target in faceIds
    ensures EdgesScoped(relsC, |rels0|, Extend(scope, faceIds, k))
  {
    var scope' := Extend(scope, faceIds, k);
    assert relsC[|rels0|..] == relsB[|rels0|..] + relsC[|relsB|..] by {
      assert relsC[..|relsB|] == relsB;
    }
    forall x | x in relsC[|rels0|..] && x.relType == "RELATIONSHIP"
      ensures && x.source != x.target && x.source in scope' && x.target in scope'
              && scope'[x.source] == scope'[x.target]
    {
      if x in relsB[|rels0|..] {
        assert x.source !in faceIds && x.target !in faceIds;
      }
    }
  }

  /** The Face nodes the scope names were created by this import. */
  ghost predicate ScopeFresh(scope: map<Id, nat>, ids0: set<Id>, ids: set<Id>, bound: nat) {
    forall id :: id in scope ==> id !in ids0 && id in ids && scope[id] < bound
  }

  lemma ScopeFreshStep(scope: map<Id, nat>, faceIds: set<Id>, k: nat, ids0: set<Id>, idsB: set<Id>, idsC: set<Id>)
    requires ScopeFresh(scope, ids0, idsB, k)
    requires ids0 <= idsB <= idsC && faceIds <= idsC && faceIds !! idsB
    ensures ScopeFresh(Extend(scope, faceIds, k), ids0, idsC, k + 1)
  {
  }


  /** `scope` with every face of `faceIds` placed in Structure `k`. */
  function Extend(scope: map<Id, nat>, faceIds: set<Id>, k: nat): (r: map<Id, nat>)
    ensures r.Keys == scope.Keys + faceIds
    ensures forall id :: id in faceIds ==> r[id] == k
    ensures forall id :: id in scope && id !in faceIds ==> r[id] == scope[id]
  {
    scope + map id | id in faceIds :: k
  }

  /** What the Structure loop has done after `k` Structures, starting from
      `nodes0` and `rels0`. */
  ghost predicate StructuresDone(nodes0: seq<Node>, rels0: seq<Rel>, nodes: seq<Node>, rels: seq<Rel>,
                                 counts: XmlCounts, scope: map<Id, nat>, structs: seq<Element>, k: nat) {
    && k <= |structs|
    && Grown(nodes0, nodes, counts.nodesCreated) && Grown(rels0, rels, counts.relationshipsCreated)
    && NodeIdsOf(nodes0) <= NodeIdsOf(nodes)
    && CountType(rels[|rels0|..], "RELATIONSHIP") + counts.relationshipsSkipped == TotalEdges(structs[..k])
    && EdgesScoped(rels, |rels0|, scope)
    && ScopeFresh(scope, NodeIdsOf(nodes0), NodeIdsOf(nodes), k)
  }

  lemma StructuresDoneStep(nodes0: seq<Node>, rels0: seq<Rel>, nodesB: seq<Node>, relsB: seq<Rel>,
                           nodesC: seq<Node>, relsC: seq<Rel>, counts: XmlCounts, scope: map<Id, nat>,
                           structs: seq<Element>, k: nat, step: XmlCounts, faceIds: set<Id>)
    requires StructuresDone(nodes0, rels0, nodesB, relsB, counts, scope, structs, k) && k < |structs|
    requires Grown(nodesB, nodesC, step.nodesCreated) && Grown(relsB, relsC, step.relationshipsCreated)
    requires NodeIdsOf(nodesB) <= NodeIdsOf(nodesC)
    requires faceIds <= NodeIdsOf(nodesC) && faceIds !! NodeIdsOf(nodesB)
    requires CountType(relsC[|relsB|..], "RELATIONSHIP") + step.relationshipsSkipped == |EdgeElements(structs[k])|
    requires forall x :: x in relsC[|relsB|..] && x.relType == "RELATIONSHIP" ==>
      x.source != x.target && x.source in faceIds && x.target in faceIds
    ensures StructuresDone(nodes0, rels0, nodesC, relsC,
                           XmlCounts(counts.nodesCreated + step.nodesCreated,
                                     counts.relationshipsCreated + step.relationshipsCreated,
                                     counts.relationshipsSkipped + step.relationshipsSkipped),
                           Extend(scope, faceIds, k), structs, k + 1)
  {
    GrownTrans(nodes0, nodesB, nodesC, counts.nodesCreated, step.nodesCreated);
    GrownTrans(rels0, relsB, relsC, counts.relationshipsCreated, step.relationshipsCreated);
    CountTypeConcat(relsB[|rels0|..], relsC[|relsB|..], "RELATIONSHIP");
    TotalEdgesStep(structs, k);
    ScopeStep(rels0, relsB, relsC, step.relationshipsCreated, scope, faceIds, k, NodeIdsOf(nodesB));
    ScopeFreshStep(scope, faceIds, k, NodeIdsOf(nodes0), NodeIdsOf(nodesB), NodeIdsOf(nodesC));
  }

  /** The edges skipped over `structs`, Structure by Structure, where
      `maps[k]` is the `face_id_map` of Structure `k`. */
  function TotalSkipped(structs: seq<Element>, maps: seq<map<string, Id>>): nat
    requires |maps| == |structs|
    decreases |structs|
  {
    if structs == [] then 0
    else
      var edges := EdgeElements(structs[|structs| - 1]);
      TotalSkipped(structs[..|structs| - 1], maps[..|maps| - 1]) + (|edges| - |CreatableEdges(edges, maps[|maps| - 1])|)
  }

  /** `added` is, Structure after Structure, the relationships each one
      made in order from its creatable edges. */
  ghost predicate AllMadeInOrder(added: seq<Rel>, structs: seq<Element>, maps: seq<map<string, Id>>)
    requires |maps| == |structs|
    decreases |structs|
  {
    if structs == [] then added == []
    else
      var edges, faceMap := EdgeElements(structs[|structs| - 1]), maps[|maps| - 1];
      var n := |CreatableEdges(edges, faceMap)|;
      && n <= |added|
      && MadeInOrder(added[|added| - n..], edges, faceMap)
      && AllMadeInOrder(added[..|added| - n], structs[..|structs| - 1], maps[..|maps| - 1])
  }

  /** Every edge element of every Structure is either made or skipped. */
  lemma {:induction false} AllMadeInOrderCount(added: seq<Rel>, structs: seq<Element>, maps: seq<map<string, Id>>)
    requires |maps| == |structs| && AllMadeInOrder(added, structs, maps)
    ensures |added| + TotalSkipped(structs, maps) == TotalEdges(structs)
    decreases |structs|
  {
    if structs != [] {
      var n := |CreatableEdges(EdgeElements(structs[|structs| - 1]), maps[|maps| - 1])|;
      AllMadeInOrderCount(added[..|added| - n], structs[..|structs| - 1], maps[..|maps| - 1]);
    }
  }

  lemma AllMadeInOrderStep(prior: seq<Rel>, added: seq<Rel>, structs: seq<Element>, maps: seq<map<string, Id>>,
                           faceMap: map<string, Id>, k: nat)
    requires k < |structs| && |maps| == k
    requires AllMadeInOrder(prior, structs[..k], maps)
    requires MadeInOrder(added, EdgeElements(structs[k]), faceMap)
    ensures AllMadeInOrder(prior + added, structs[..k + 1], maps + [faceMap])
  {
    var edges := EdgeElements(structs[k]);
    MadeInOrderIndexed(added, edges, faceMap);
    var all, ss, ms := prior + added, structs[..k + 1], maps + [faceMap];
    assert ss[|ss| - 1] == structs[k] && ms[|ms| - 1] == faceMap;
    assert ss[..|ss| - 1] == structs[..k] && ms[..|ms| - 1] == maps;
    assert all[|all| - |added|..] == added && all[..|all| - |added|] == prior;
  }

  lemma TotalSkippedStep(structs: seq<Element>, maps: seq<map<string, Id>>, faceMap: map<string, Id>, k: nat)
    requires k < |structs| && |maps| == k
    ensures TotalSkipped(structs[..k + 1], maps + [faceMap])
            == TotalSkipped(structs[..k], maps)
               + (|EdgeElements(structs[k])| - |CreatableEdges(EdgeElements(structs[k]), faceMap)|)
  {
    assert structs[..k + 1][..k] == structs[..k] && (maps + [faceMap])[..k] == maps;
  }

  /** What the Structure loop promises Structure by Structure after `k`
      of them: `maps[j]` is the `face_id_map` of Structure `j`, whose
      faces `scope` places at `j`. */
  ghost predicate StructuresMapped(nodes: seq<Node>, rels0: seq<Rel>, rels: seq<Rel>, skipped: nat, scope: map<Id, nat>,
                                   structs: seq<Element>, maps: seq<map<string, Id>>, k: nat)
    requires |rels0| <= |rels|
  {
    && k <= |structs| && |maps| == k
    && AllMadeInOrder(Filter(rels[|rels0|..], IsEdge), structs[..k], maps)
    && skipped == TotalSkipped(structs[..k], maps)
    && (forall j :: 0 <= j < k ==> FaceNumbered(nodes, maps[j]))
    && (forall j, fno :: 0 <= j < k && fno in maps[j] ==> maps[j][fno] in scope && scope[maps[j][fno]] == j)
  }

  lemma FaceNumberedGrown(nodesB: seq<Node>, nodesC: seq<Node>, faceMap: map<string, Id>)
    requires |nodesB| <= |nodesC| && nodesC[..|nodesB|] == nodesB && FaceNumbered(nodesB, faceMap)
    ensures FaceNumbered(nodesC, faceMap)
  {
    assert forall n :: n in nodesB ==> n in nodesC;
  }

  lemma EdgesMappedStep(rels0: seq<Rel>, relsB: seq<Rel>, relsC: seq<Rel>, structs: seq<Element>,
                        maps: seq<map<string, Id>>, faceMap: map<string, Id>, k: nat)
    requires |rels0| <= |relsB| <= |relsC| && relsC[..|relsB|] == relsB
    requires k < |structs| && |maps| == k
    requires AllMadeInOrder(Filter(relsB[|rels0|..], IsEdge), structs[..k], maps)
    requires MadeInOrder(Filter(relsC[|relsB|..], IsEdge), EdgeElements(structs[k]), faceMap)
    ensures AllMadeInOrder(Filter(relsC[|rels0|..], IsEdge), structs[..k + 1], maps + [faceMap])
  {
    EdgesSplit(rels0, relsB, relsC);
    AllMadeInOrderStep(Filter(relsB[|rels0|..], IsEdge), Filter(relsC[|relsB|..], IsEdge), structs, maps, faceMap, k);
  }

  lemma EdgesSplit(rels0: seq<Rel>, relsB: seq<Rel>, relsC: seq<Rel>)
    requires |rels0| <= |relsB| <= |relsC| && relsC[..|relsB|] == relsB
    ensures Filter(relsC[|rels0|..], IsEdge) == Filter(relsB[|rels0|..], IsEdge) + Filter(relsC[|relsB|..], IsEdge)
  {
    assert relsC[|rels0|..] == relsB[|rels0|..] + relsC[|relsB|..];
    FilterConcat(relsB[|rels0|..], relsC[|relsB|..], IsEdge);
  }

  lemma ScopeMappedStep(scope: map<Id, nat>, faceIds: set<Id>, faceMap: map<string, Id>, maps: seq<map<string, Id>>,
                        k: nat, idsB: set<Id>)
    requires |maps| == k && scope.Keys <= idsB && faceIds !! idsB
    requires forall j, fno :: 0 <= j < k && fno in maps[j] ==> maps[j][fno] in scope && scope[maps[j][fno]] == j
    requires forall fno :: fno in faceMap ==> faceMap[fno] in faceIds
    ensures forall j, fno :: 0 <= j < k + 1 && fno in (maps + [faceMap])[j] ==>
      (maps + [faceMap])[j][fno] in Extend(scope, faceIds, k) && Extend(scope, faceIds, k)[(maps + [faceMap])[j][fno]] == j
  {
  }

  lemma FacesNumberedStep(nodesB: seq<Node>, nodesC: seq<Node>, maps: seq<map<string, Id>>, faceMap: map<string, Id>)
    requires |nodesB| <= |nodesC| && nodesC[..|nodesB|] == nodesB
    requires forall j :: 0 <= j < |maps| ==> FaceNumbered(nodesB, maps[j])
    requires FaceNumbered(nodesC, faceMap)
    ensures forall j :: 0 <= j < |maps| + 1 ==> FaceNumbered(nodesC, (maps + [faceMap])[j])
  {
    forall j | 0 <= j < |maps| + 1 ensures FaceNumbered(nodesC, (maps + [faceMap])[j]) {
      if j < |maps| {
        FaceNumberedGrown(nodesB, nodesC, maps[j]);
      }
    }
  }

  lemma StructuresMappedStep(nodesB: seq<Node>, nodesC: seq<Node>, rels0: seq<Rel>, relsB: seq<Rel>, relsC: seq<Rel>,
                             skipped: nat, stepSkipped: nat, scope: map<Id, nat>, faceIds: set<Id>,
                             faceMap: map<string, Id>, structs: seq<Element>, maps: seq<map<string, Id>>, k: nat)
    requires |rels0| <= |relsB| <= |relsC| && relsC[..|relsB|] == relsB
    requires |nodesB| <= |nodesC| && nodesC[..|nodesB|] == nodesB
    requires StructuresMapped(nodesB, rels0, relsB, skipped, scope, structs, maps, k) && k < |structs|
    requires scope.Keys <= NodeIdsOf(nodesB) && faceIds !! NodeIdsOf(nodesB)
    requires FaceNumbered(nodesC, faceMap) && forall fno :: fno in faceMap ==> faceMap[fno] in faceIds
    requires MadeInOrder(Filter(relsC[|relsB|..], IsEdge), EdgeElements(structs[k]), faceMap)
    requires stepSkipped == |EdgeElements(structs[k])| - |CreatableEdges(EdgeElements(structs[k]), faceMap)|
    ensures StructuresMapped(nodesC, rels0, relsC, skipped + stepSkipped, Extend(scope, faceIds, k),
                             structs, maps + [faceMap], k + 1)
  {
    EdgesMappedStep(rels0, relsB, relsC, structs, maps, faceMap, k);
    TotalSkippedStep(structs, maps, faceMap, k);
    FacesNumberedStep(nodesB, nodesC, maps, faceMap);
    ScopeMappedStep(scope, faceIds, faceMap, maps, k, NodeIdsOf(nodesB));
  }

  /** The faces of the first `k` Structures: the faces `segs[j]`
      appended were created from the Face elements `pickedOf[j]` of
      Structure `j`, and `maps[j]` is the face map they build. */
  ghost predicate StructuresFaced(structs: seq<Element>, maps: seq<map<string, Id>>, segs: seq<Appended>,
                                  pickedOf: seq<seq<nat>>, k: nat)
    requires k <= |structs|
  {
    && |maps| == k && |segs| == k && |pickedOf| == k
    && forall j :: 0 <= j < k ==>
         && maps[j] == FaceMapOf(segs[j].faces)
         && FacesFrom(segs[j].faces, pickedOf[j], FaceElements(structs[j]),
                      Attr(structs[j], "StructureNo", "1"), Attr(structs[j], "StructureEnglishName", ""))
  }

  /** The faces and face map of Structure `k` extend the per-Structure
      account of faces. */
  lemma StructuresFacedStep(faceMap: map<string, Id>, seg: Appended, picked: seq<nat>, structs: seq<Element>,
                            maps: seq<map<string, Id>>, segs: seq<Appended>, pickedOf: seq<seq<nat>>, k: nat)
    requires k < |structs| && StructuresFaced(structs, maps, segs, pickedOf, k)
    requires faceMap == FaceMapOf(seg.faces)
    requires FacesFrom(seg.faces, picked, FaceElements(structs[k]),
                       Attr(structs[k], "StructureNo", "1"), Attr(structs[k], "StructureEnglishName", ""))
    ensures StructuresFaced(structs, maps + [faceMap], segs + [seg], pickedOf + [picked], k + 1)
  {
    forall j | 0 <= j < k + 1
      ensures && (maps + [faceMap])[j] == FaceMapOf((segs + [seg])[j].faces)
              && FacesFrom((segs + [seg])[j].faces, (pickedOf + [picked])[j], FaceElements(structs[j]),
                           Attr(structs[j], "StructureNo", "1"), Attr(structs[j], "StructureEnglishName", ""))
    {
      if j < k {
        assert (maps + [faceMap])[j] == maps[j] && (segs + [seg])[j] == segs[j];
        assert (pickedOf + [picked])[j] == pickedOf[j];
      } else {
        assert (maps + [faceMap])[j] == faceMap && (segs + [seg])[j] == seg && (pickedOf + [picked])[j] == picked;
      }
    }
  }

  /** The store after the first `k` Structures is the store before them
      followed by their hierarchies, Structure after Structure, each as
      `Hierarchy` describes it. */
  ghost predicate StructuresAppended(nodes0: seq<Node>, rels0: seq<Rel>, nodes: seq<Node>, rels: seq<Rel>,
                                     structs: seq<Element>, repositoryId: Option<Id>, maps: seq<map<string, Id>>,
                                     segs: seq<Appended>, k: nat)
  {
    && k <= |structs| && |maps| == k && |segs| == k
    && nodes == nodes0 + AllNodes(segs)
    && rels == rels0 + AllRels(segs)
    && forall j :: 0 <= j < k ==> Hierarchy(segs[j], structs[j], repositoryId, maps[j])
  }

  /** Structure `k`'s hierarchy, appended to the store, extends the
      account of the store as the old store followed by the
      hierarchies. */
  lemma StructuresAppendedStep(nodes0: seq<Node>, rels0: seq<Rel>, nodesB: seq<Node>, relsB: seq<Rel>,
                               nodesC: seq<Node>, relsC: seq<Rel>, structs: seq<Element>, repositoryId: Option<Id>,
                               maps: seq<map<string, Id>>, segs: seq<Appended>, k: nat, faceMap: map<string, Id>,
                               seg: Appended)
    requires StructuresAppended(nodes0, rels0, nodesB, relsB, structs, repositoryId, maps, segs, k) && k < |structs|
    requires StructureAppendedAs(nodesB, relsB, nodesC, relsC, structs[k], repositoryId, faceMap, seg)
    ensures StructuresAppended(nodes0, rels0, nodesC, relsC, structs, repositoryId, maps + [faceMap], segs + [seg], k + 1)
  {
    AllAppendedSnoc(segs, seg);
    AppendThree(nodes0, AllNodes(segs), seg.structNode, seg.faces);
    AppendFour(rels0, AllRels(segs), seg.hasStructure, seg.hasFace, seg.edges);
    HierarchiesStep(structs, repositoryId, maps, segs, k, faceMap, seg);
  }

  /** Concatenation regrouped to the right. */
  lemma AppendThree<T>(a: seq<T>, b: seq<T>, c: seq<T>, d: seq<T>)
    ensures a + b + c + d == a + (b + c + d)
  {
  }

  /** Concatenation regrouped to the right. */
  lemma AppendFour<T>(a: seq<T>, b: seq<T>, c: seq<T>, d: seq<T>, e: seq<T>)
    ensures a + b + c + d + e == a + (b + c + d + e)
  {
  }

  /** The hierarchies of the first `k` Structures and that of Structure
      `k` are those of the first `k + 1`. */
  lemma HierarchiesStep(structs: seq<Element>, repositoryId: Option<Id>, maps: seq<map<string, Id>>,
                        segs: seq<Appended>, k: nat, faceMap: map<string, Id>, seg: Appended)
    requires k < |structs| && |maps| == k && |segs| == k
    requires forall j :: 0 <= j < k ==> Hierarchy(segs[j], structs[j], repositoryId, maps[j])
    requires Hierarchy(seg, structs[k], repositoryId, faceMap)
    ensures forall j :: 0 <= j < k + 1 ==> Hierarchy((segs + [seg])[j], structs[j], repositoryId, (maps + [faceMap])[j])
  {
    forall j | 0 <= j < k + 1 ensures Hierarchy((segs + [seg])[j], structs[j], repositoryId, (maps + [faceMap])[j]) {
      if j < k {
        HierarchyMoved(segs[j], (segs + [seg])[j], structs[j], repositoryId, maps[j], (maps + [faceMap])[j]);
      } else {
        HierarchyMoved(seg, (segs + [seg])[j], structs[j], repositoryId, faceMap, (maps + [faceMap])[j]);
      }
    }
  }

  /** `Hierarchy` carried over to an equal segment and face map. */
  lemma HierarchyMoved(a: Appended, b: Appended, s: Element, repositoryId: Option<Id>,
                       faceMap: map<string, Id>, faceMap': map<string, Id>)
    requires a == b && faceMap == faceMap' && Hierarchy(a, s, repositoryId, faceMap)
    ensures Hierarchy(b, s, repositoryId, faceMap')
  {
  }

  /** Everything the Structure loop has done after `k` Structures. */
  ghost predicate StructuresLoop(nodes0: seq<Node>, rels0: seq<Rel>, nodes: seq<Node>, rels: seq<Rel>,
                                 counts: XmlCounts, scope: map<Id, nat>, structs: seq<Element>,
                                 repositoryId: Option<Id>, maps: seq<map<string, Id>>, segs: seq<Appended>,
                                 pickedOf: seq<seq<nat>>, k: nat)
  {
    && StructuresDone(nodes0, rels0, nodes, rels, counts, scope, structs, k)
    && StructuresMapped(nodes, rels0, rels, counts.relationshipsSkipped, scope, structs, maps, k)
    && StructuresFaced(structs, maps, segs, pickedOf, k)
    && StructuresAppended(nodes0, rels0, nodes, rels, structs, repositoryId, maps, segs, k)
  }

  /** The store went from `nodesB`/`relsB` to `nodesC`/`relsC` by
      appending exactly the hierarchy `seg` of Structure `s`. */
  ghost predicate StructureAppendedAs(nodesB: seq<Node>, relsB: seq<Rel>, nodesC: seq<Node>, relsC: seq<Rel>,
                                      s: Element, repositoryId: Option<Id>, faceMap: map<string, Id>, seg: Appended)
  {
    && nodesC == nodesB + seg.structNode + seg.faces
    && relsC == relsB + seg.hasStructure + seg.hasFace + seg.edges
    && Hierarchy(seg, s, repositoryId, faceMap)
  }

  /** What `ImportStructure` promises about Structure `s` when it
      succeeds, taking the store from `nodesB`/`relsB` to
      `nodesC`/`relsC`: exactly the hierarchy `seg` was appended, and
      `faceMap` is the map built from the faces appended. */
  ghost predicate StructureImported(nodesB: seq<Node>, relsB: seq<Rel>, nodesC: seq<Node>, relsC: seq<Rel>,
                                    s: Element, repositoryId: Option<Id>, step: XmlCounts, faceIds: set<Id>,
                                    faceMap: map<string, Id>, seg: Appended, picked: seq<nat>)
  {
    && StructureAppendedAs(nodesB, relsB, nodesC, relsC, s, repositoryId, faceMap, seg)
    && StructureCounted(nodesB, relsB, nodesC, relsC, s, step, faceIds, faceMap, seg.faces, picked)
  }

  /** The counts, the face map and the faces of one imported Structure,
      whose Face nodes are `faces`. */
  ghost predicate StructureCounted(nodesB: seq<Node>, relsB: seq<Rel>, nodesC: seq<Node>, relsC: seq<Rel>,
                                   s: Element, step: XmlCounts, faceIds: set<Id>, faceMap: map<string, Id>,
                                   faces: seq<Node>, picked: seq<nat>)
  {
    && NodeIdsOf(nodesB) <= NodeIdsOf(nodesC)
    && Grown(nodesB, nodesC, step.nodesCreated) && Grown(relsB, relsC, step.relationshipsCreated)
    && faceIds <= NodeIdsOf(nodesC) && faceIds !! NodeIdsOf(nodesB)
    && CountType(relsC[|relsB|..], "RELATIONSHIP") + step.relationshipsSkipped == |EdgeElements(s)|
    && (forall x :: x in relsC[|relsB|..] && x.relType == "RELATIONSHIP" ==>
          x.source != x.target && x.source in faceIds && x.target in faceIds)
    && FaceNumbered(nodesC, faceMap) && (forall fno :: fno in faceMap ==> faceMap[fno] in faceIds)
    && MadeInOrder(Filter(relsC[|relsB|..], IsEdge), EdgeElements(s), faceMap)
    && step.relationshipsSkipped == |EdgeElements(s)| - |CreatableEdges(EdgeElements(s), faceMap)|
    && faceMap == FaceMapOf(faces) && faceIds == NodeIdsOf(faces)
    && FacesFrom(faces, picked, FaceElements(s), Attr(s, "StructureNo", "1"), Attr(s, "StructureEnglishName", ""))
  }

  /** Structure `k`, imported as `ImportStructure` promises, extends
      everything the loop has done by one Structure. */
  lemma StructuresLoopStep(nodes0: seq<Node>, rels0: seq<Rel>, nodesB: seq<Node>, relsB: seq<Rel>,
                           nodesC: seq<Node>, relsC: seq<Rel>, counts: XmlCounts, scope: map<Id, nat>,
                           structs: seq<Element>, repositoryId: Option<Id>, maps: seq<map<string, Id>>,
                           segs: seq<Appended>, pickedOf: seq<seq<nat>>, k: nat, step: XmlCounts, faceIds: set<Id>,
                           faceMap: map<string, Id>, seg: Appended, picked: seq<nat>)
    requires k < |structs|
    ensures StructuresLoop(nodes0, rels0, nodesB, relsB, counts, scope, structs, repositoryId, maps, segs, pickedOf, k) &&
            StructureImported(nodesB, relsB, nodesC, relsC, structs[k], repositoryId, step, faceIds, faceMap, seg,
                              picked) ==>
            StructuresLoop(nodes0, rels0, nodesC, relsC,
                           XmlCounts(counts.nodesCreated + step.nodesCreated,
                                     counts.relationshipsCreated + step.relationshipsCreated,
                                     counts.relationshipsSkipped + step.relationshipsSkipped),
                           Extend(scope, faceIds, k), structs, repositoryId, maps + [faceMap], segs + [seg],
                           pickedOf + [picked], k + 1)
  {
    StructuresCountedStep(nodes0, rels0, nodesB, relsB, nodesC, relsC, counts, scope, structs, repositoryId, maps,
                          segs, pickedOf, k, step, faceIds, faceMap, seg, picked);
    StructuresBuiltStep(nodes0, rels0, nodesB, relsB, nodesC, relsC, counts, scope, structs, repositoryId, maps,
                        segs, pickedOf, k, step, faceIds, faceMap, seg, picked);
  }

  /** The counting and scoping half of `StructuresLoopStep`. */
  lemma StructuresCountedStep(nodes0: seq<Node>, rels0: seq<Rel>, nodesB: seq<Node>, relsB: seq<Rel>,
                              nodesC: seq<Node>, relsC: seq<Rel>, counts: XmlCounts, scope: map<Id, nat>,
                              structs: seq<Element>, repositoryId: Option<Id>, maps: seq<map<string, Id>>,
                              segs: seq<Appended>, pickedOf: seq<seq<nat>>, k: nat, step: XmlCounts, faceIds: set<Id>,
                              faceMap: map<string, Id>, seg: Appended, picked: seq<nat>)
    requires k < |structs|
    ensures StructuresLoop(nodes0, rels0, nodesB, relsB, counts, scope, structs, repositoryId, maps, segs, pickedOf, k) &&
            StructureImported(nodesB, relsB, nodesC, relsC, structs[k], repositoryId, step, faceIds, faceMap, seg,
                              picked) ==>
            && StructuresDone(nodes0, rels0, nodesC, relsC,
                              XmlCounts(counts.nodesCreated + step.nodesCreated,
                                        counts.relationshipsCreated + step.relationshipsCreated,
                                        counts.relationshipsSkipped + step.relationshipsSkipped),
                              Extend(scope, faceIds, k), structs, k + 1)
            && StructuresMapped(nodesC, rels0, relsC, counts.relationshipsSkipped + step.relationshipsSkipped,
                                Extend(scope, faceIds, k), structs, maps + [faceMap], k + 1)
  {
    if && StructuresLoop(nodes0, rels0, nodesB, relsB, counts, scope, structs, repositoryId, maps, segs, pickedOf, k)
       && StructureImported(nodesB, relsB, nodesC, relsC, structs[k], repositoryId, step, faceIds, faceMap, seg,
                            picked) {
      StructuresDoneStep(nodes0, rels0, nodesB, relsB, nodesC, relsC, counts, scope, structs, k, step, faceIds);
      StructuresMappedStep(nodesB, nodesC, rels0, relsB, relsC, counts.relationshipsSkipped, step.relationshipsSkipped,
                           scope, faceIds, faceMap, structs, maps, k);
    }
  }

  /** The faces and hierarchy half of `StructuresLoopStep`. */
  lemma StructuresBuiltStep(nodes0: seq<Node>, rels0: seq<Rel>, nodesB: seq<Node>, relsB: seq<Rel>,
                            nodesC: seq<Node>, relsC: seq<Rel>, counts: XmlCounts, scope: map<Id, nat>,
                            structs: seq<Element>, repositoryId: Option<Id>, maps: seq<map<string, Id>>,
                            segs: seq<Appended>, pickedOf: seq<seq<nat>>, k: nat, step: XmlCounts, faceIds: set<Id>,
                            faceMap: map<string, Id>, seg: Appended, picked: seq<nat>)
    requires k < |structs|
    ensures StructuresLoop(nodes0, rels0, nodesB, relsB, counts, scope, structs, repositoryId, maps, segs, pickedOf, k) &&
            StructureImported(nodesB, relsB, nodesC, relsC, structs[k], repositoryId, step, faceIds, faceMap, seg,
                              picked) ==>
            && StructuresFaced(structs, maps + [faceMap], segs + [seg], pickedOf + [picked], k + 1)
            && StructuresAppended(nodes0, rels0, nodesC, relsC, structs, repositoryId, maps + [faceMap], segs + [seg],
                                  k + 1)
  {
    if && StructuresLoop(nodes0, rels0, nodesB, relsB, counts, scope, structs, repositoryId, maps, segs, pickedOf, k)
       && StructureImported(nodesB, relsB, nodesC, relsC, structs[k], repositoryId, step, faceIds, faceMap, seg,
                            picked) {
      StructuresFacedStep(faceMap, seg, picked, structs, maps, segs, pickedOf, k);
      StructuresAppendedStep(nodes0, rels0, nodesB, relsB, nodesC, relsC, structs, repositoryId, maps, segs, k,
                             faceMap, seg);
    }
  }

  /** The loop over the `Structure` elements: each Structure in turn,
      aborting on the first store failure. `segs[k]` is what Structure
      `k` appended, `maps[k]` its `face_id_map`; `faceScope` maps every
      face created here to the position of its Structure. */
  method ImportStructures(graph: GraphStore, structs: seq<Element>, repositoryId: Option<Id>)
    returns (ok: bool, counts: XmlCounts, ghost faceScope: map<Id, nat>, ghost maps: seq<map<string, Id>>,
             ghost segs: seq<Appended>, ghost pickedOf: seq<seq<nat>>)
    requires graph.Valid()
    requires repositoryId.Some? ==> repositoryId.value in graph.NodeIds()
    modifies graph
    ensures graph.Valid()
    ensures ok ==> StructuresLoop(old(graph.nodes), old(graph.rels), graph.nodes, graph.rels, counts, faceScope,
                                  structs, repositoryId, maps, segs, pickedOf, |structs|)
  {
    ghost var nodes0, rels0 := graph.nodes, graph.rels;
    counts, faceScope, maps, segs, pickedOf := XmlCounts(0, 0, 0), map[], [], [], [];
    for k := 0 to |structs|
      invariant graph.Valid()
      invariant repositoryId.Some? ==> repositoryId.value in graph.NodeIds()
      invariant StructuresLoop(nodes0, rels0, graph.nodes, graph.rels, counts, faceScope, structs, repositoryId, maps,
                               segs, pickedOf, k)
    {
      ok, counts, faceScope, maps, segs, pickedOf :=
        ImportNextStructure(graph, structs, k, repositoryId, nodes0, rels0, counts, faceScope, maps, segs, pickedOf);
      if !ok {
        return;
      }
    }
    ok := true;
  }

  /** One iteration of the Structure loop: Structure `k`, added to the
      loop's account. */
  method ImportNextStructure(graph: GraphStore, structs: seq<Element>, k: nat, repositoryId: Option<Id>,
                             ghost nodes0: seq<Node>, ghost rels0: seq<Rel>, counts: XmlCounts,
                             ghost faceScope: map<Id, nat>, ghost maps: seq<map<string, Id>>,
                             ghost segs: seq<Appended>, ghost pickedOf: seq<seq<nat>>)
    returns (ok: bool, counts': XmlCounts, ghost faceScope': map<Id, nat>, ghost maps': seq<map<string, Id>>,
             ghost segs': seq<Appended>, ghost pickedOf': seq<seq<nat>>)
    requires graph.Valid() && k < |structs|
    requires repositoryId.Some? ==> repositoryId.value in graph.NodeIds()
    requires StructuresLoop(nodes0, rels0, graph.nodes, graph.rels, counts, faceScope, structs, repositoryId, maps,
                            segs, pickedOf, k)
    modifies graph
    ensures graph.Valid()
    ensures repositoryId.Some? ==> repositoryId.value in graph.NodeIds()
    ensures ok ==> StructuresLoop(nodes0, rels0, graph.nodes, graph.rels, counts', faceScope', structs, repositoryId,
                                  maps', segs', pickedOf', k + 1)
  {
    ghost var nodesB, relsB := graph.nodes, graph.rels;
    var nodesCreated, relsCreated, skipped;
    ghost var faceIds, faceMap, seg, picked;
    ok, nodesCreated, relsCreated, skipped, faceIds, faceMap, seg, picked := ImportStructure(graph, structs[k], repositoryId);
    counts', faceScope', maps', segs', pickedOf' := counts, faceScope, maps, segs, pickedOf;
    if !ok {
      return;
    }
    StructuresLoopStep(nodes0, rels0, nodesB, relsB, graph.nodes, graph.rels, counts, faceScope, structs,
                       repositoryId, maps, segs, pickedOf, k, XmlCounts(nodesCreated, relsCreated, skipped), faceIds,
                       faceMap, seg, picked);
    faceScope', maps' := Extend(faceScope, faceIds, k), maps + [faceMap];
    segs', pickedOf' := segs + [seg], pickedOf + [picked];
    counts' := XmlCounts(counts.nodesCreated + nodesCreated, counts.relationshipsCreated + relsCreated,
                         counts.relationshipsSkipped + skipped);
  }

  /** The property map of the Repository node. */
  function RepositoryProps(name: string, now: string): Props {
    map["name" := Str(name), "type" := Str("Repository"), "created_at" := Str(now)]
  }

  /** What a successful `_import_standard_feature_structure` did to the
      store, which went from `nodes0`/`rels0` (identifiers `ids0`) to
      `nodes`/`rels` (identifiers `ids`): the store is the old store
      followed by the Repository node (`repository`, none when the store
      returned none) and then, Structure by Structure, the hierarchy
      `segs[k]`: its structure node, its faces and their
      `HAS_STRUCTURE`, `HAS_FACE` and `RELATIONSHIP` links. The counters
      equal what was added, every edge element is either a created
      `RELATIONSHIP` or skipped, every created `RELATIONSHIP` joins two
      different faces of the same Structure created by this import
      (`faceScope` names that Structure's position). `maps[k]` is the
      `face_id_map` built from the faces of Structure `k`; its
      `RELATIONSHIP`s are made in order from the edges that map makes
      creatable and the rest are skipped. */
  ghost predicate FeatureStructureImported(nodes0: seq<Node>, rels0: seq<Rel>, ids0: set<Id>, nodes: seq<Node>,
                                           rels: seq<Rel>, ids: set<Id>, structs: seq<Element>,
                                           repositoryName: Option<string>, now: string, counts: XmlCounts,
                                           repository: seq<Node>, faceScope: map<Id, nat>,
                                           maps: seq<map<string, Id>>, segs: seq<Appended>, pickedOf: seq<seq<nat>>)
  {
    && |repository| <= 1
    && (repository != [] ==> && repositoryName.Some? && repositoryName.value != ""
                             && repository[0].labels == ["Repository"]
                             && repository[0].properties == Stored(RepositoryProps(repositoryName.value, now)))
    && nodes == nodes0 + repository + AllNodes(segs)
    && rels == rels0 + AllRels(segs)
    && |segs| == |structs| && |maps| == |segs|
    && (forall k :: 0 <= k < |segs| ==> Hierarchy(segs[k], structs[k], IdOf(repository), maps[k]))
    && counts.nodesCreated == |repository| + |AllNodes(segs)|
    && counts.relationshipsCreated == |AllRels(segs)|
    && Grown(nodes0, nodes, counts.nodesCreated)
    && Grown(rels0, rels, counts.relationshipsCreated)
    && CountType(rels[|rels0|..], "RELATIONSHIP") + counts.relationshipsSkipped == TotalEdges(structs)
    && EdgesScoped(rels, |rels0|, faceScope)
    && ScopeFresh(faceScope, ids0, ids, |structs|)
    && AllMadeInOrder(Filter(rels[|rels0|..], IsEdge), structs, maps)
    && counts.relationshipsSkipped == TotalSkipped(structs, maps)
    && (forall k :: 0 <= k < |maps| ==> FaceNumbered(nodes, maps[k]))
    && (forall k, fno :: 0 <= k < |maps| && fno in maps[k] ==> maps[k][fno] in faceScope && faceScope[maps[k][fno]] == k)
    && StructuresFaced(structs, maps, segs, pickedOf, |structs|)
  }

  /** `_import_standard_feature_structure(root, repository_name)`: a
      Repository node when the name is non-empty, then every `Structure`
      child of the root, then a reload of the cache. A raising creation
      aborts with the cache unchanged; on success the store changed as
      `FeatureStructureImported` says. */
  method ImportStandardFeatureStructure(loader: DataLoader, root: Element, repositoryName: Option<string>, now: string)
    returns (r: Result<XmlCounts>, ghost repository: seq<Node>, ghost faceScope: map<Id, nat>,
             ghost maps: seq<map<string, Id>>, ghost segs: seq<Appended>, ghost pickedOf: seq<seq<nat>>)
    requires loader.graph != null && loader.graph.Valid()
    modifies loader, loader.graph
    ensures loader.graph.Valid()
    ensures r.Failure? ==> r.error == StoreFailed && loader.nodes == old(loader.nodes) && loader.rels == old(loader.rels)
    ensures r.Success? ==>
      && FeatureStructureImported(old(loader.graph.nodes), old(loader.graph.rels), old(loader.graph.NodeIds()),
                                  loader.graph.nodes, loader.graph.rels, loader.graph.NodeIds(),
                                  FindAll(root, "Structure"), repositoryName, now, r.value, repository, faceScope,
                                  maps, segs, pickedOf)
      && loader.nodes <= loader.graph.nodes && loader.rels <= loader.graph.rels
  {
    var graph := loader.graph;
    var ok, counts;
    ok, counts, repository, faceScope, maps, segs, pickedOf :=
      ImportRepositoryAndStructures(graph, FindAll(root, "Structure"), repositoryName, now);
    if !ok {
      return Failure(StoreFailed), repository, faceScope, maps, segs, pickedOf;
    }
    var reloaded := loader.ReloadDb();
    ScanMirrorsStore(graph.nodes, graph.rels);
    r := Success(counts);
  }

  /** The store part of `_import_standard_feature_structure`: the
      Repository node when the name is non-empty, then the Structures. */
  method ImportRepositoryAndStructures(graph: GraphStore, structs: seq<Element>, repositoryName: Option<string>,
                                       now: string)
    returns (ok: bool, counts: XmlCounts, ghost repository: seq<Node>, ghost faceScope: map<Id, nat>,
             ghost maps: seq<map<string, Id>>, ghost segs: seq<Appended>, ghost pickedOf: seq<seq<nat>>)
    requires graph.Valid()
    modifies graph
    ensures graph.Valid()
    ensures ok ==> FeatureStructureImported(old(graph.nodes), old(graph.rels), old(graph.NodeIds()), graph.nodes,
                                            graph.rels, graph.NodeIds(), structs, repositoryName, now, counts,
                                            repository, faceScope, maps, segs, pickedOf)
  {
    ghost var nodes0, ids0 := graph.nodes, graph.NodeIds();
    var repositoryId := None;
    var repositoryNodes := 0;
    repository := [];
    if repositoryName.Some? && repositoryName.value != "" {
      var raised;
      repositoryId, raised := graph.CreateNode(["Repository"], RepositoryProps(repositoryName.value, now));
      if raised {
        return false, XmlCounts(0, 0, 0), [], map[], [], [], [];
      }
      if repositoryId.Some? {
        repositoryNodes := 1;
        repository := [Node(repositoryId.value, ["Repository"], Stored(RepositoryProps(repositoryName.value, now)))];
      }
    }
    ghost var nodes1, rels1 := graph.nodes, graph.rels;
    ok, counts, faceScope, maps, segs, pickedOf := ImportStructures(graph, structs, repositoryId);
    if !ok {
      return;
    }
    RepositoryThenStructures(nodes0, ids0, nodes1, rels1, graph.nodes, graph.rels, graph.NodeIds(), structs,
                             repositoryName, now, counts, repository, faceScope, maps, segs, pickedOf);
    counts := counts.(nodesCreated := repositoryNodes + counts.nodesCreated);
  }

  /** The Repository node, then the Structures' hierarchies under it:
      the Structure loop's account, started after the Repository node,
      is what `FeatureStructureImported` promises. */
  lemma RepositoryThenStructures(nodes0: seq<Node>, ids0: set<Id>, nodes1: seq<Node>, rels1: seq<Rel>,
                                 nodes: seq<Node>, rels: seq<Rel>, ids: set<Id>, structs: seq<Element>,
                                 repositoryName: Option<string>, now: string, counts: XmlCounts,
                                 repository: seq<Node>, faceScope: map<Id, nat>, maps: seq<map<string, Id>>,
                                 segs: seq<Appended>, pickedOf: seq<seq<nat>>)
    ensures && nodes1 == nodes0 + repository && ids0 <= NodeIdsOf(nodes1) && ids == NodeIdsOf(nodes)
            && |repository| <= 1
            && (repository != [] ==> && repositoryName.Some? && repositoryName.value != ""
                                     && repository[0].labels == ["Repository"]
                                     && repository[0].properties == Stored(RepositoryProps(repositoryName.value, now)))
            && ids0 == NodeIdsOf(nodes0)
            && StructuresLoop(nodes1, rels1, nodes, rels, counts, faceScope, structs, IdOf(repository), maps, segs,
                              pickedOf, |structs|)
            ==>
            FeatureStructureImported(nodes0, rels1, ids0, nodes, rels, ids, structs, repositoryName, now,
                                     counts.(nodesCreated := |repository| + counts.nodesCreated), repository,
                                     faceScope, maps, segs, pickedOf)
  {
    if && nodes1 == nodes0 + repository && ids0 <= NodeIdsOf(nodes1) && ids == NodeIdsOf(nodes)
       && |repository| <= 1
       && (repository != [] ==> && repositoryName.Some? && repositoryName.value != ""
                                && repository[0].labels == ["Repository"]
                                && repository[0].properties == Stored(RepositoryProps(repositoryName.value, now)))
       && ids0 == NodeIdsOf(nodes0)
       && StructuresLoop(nodes1, rels1, nodes, rels, counts, faceScope, structs, IdOf(repository), maps, segs,
                         pickedOf, |structs|) {
      GrownTrans(nodes0, nodes1, nodes, |repository|, counts.nodesCreated);
      assert structs[..|structs|] == structs;
      assert nodes == nodes0 + repository + AllNodes(segs);
      assert forall id :: id in faceScope ==> id !in ids0;
    }
  }

  const Neo4jGraphDataUnmodelled := "Neo4jGraphData import is not part of this model"

  /** `import_from_xml(xml_content, repository_name)` on an already-parsed
      document (`parsed` is the parser's tree or its error message). No
      store is an error before anything else; then a parse error, then the
      root tag decides. */
  method ImportFromXml(loader: DataLoader, parsed: Result<Element>, repositoryName: Option<string>, now: string)
    returns (r: Result<XmlCounts>)
    requires loader.graph != null ==> loader.graph.Valid()
    modifies loader, loader.graph
    ensures loader.graph != null ==> loader.graph.Valid()
    ensures loader.graph == null ==> r == Failure("Database not connected")
    ensures loader.graph != null && parsed.Failure? ==> r == Failure("XML format error: " + parsed.error)
    ensures loader.graph != null && parsed.Success? && parsed.value.tag == "Neo4jGraphData" ==>
      r == Failure(Neo4jGraphDataUnmodelled)
    ensures loader.graph != null && parsed.Success? && parsed.value.tag !in {"StandardFeatureStructure", "Neo4jGraphData"} ==>
      r == Failure("Unsupported XML format, the root element is: " + parsed.value.tag)
    ensures r.Failure? ==> loader.nodes == old(loader.nodes) && loader.rels == old(loader.rels)
    ensures r.Success? ==>
      && loader.graph != null && parsed.Success? && parsed.value.tag == "StandardFeatureStructure"
      && Grown(old(loader.graph.nodes), loader.graph.nodes, r.value.nodesCreated)
      && Grown(old(loader.graph.rels), loader.graph.rels, r.value.relationshipsCreated)
      && CountType(loader.graph.rels[|old(loader.graph.rels)|..], "RELATIONSHIP") + r.value.relationshipsSkipped
         == TotalEdges(FindAll(parsed.value, "Structure"))
      && loader.nodes <= loader.graph.nodes && loader.rels <= loader.graph.rels
  {
    if loader.graph == null {
      return Failure("Database not connected");
    }
    if parsed.Failure? {
      return Failure("XML format error: " + parsed.error);
    }
    var root := parsed.value;
    if root.tag == "StandardFeatureStructure" {
      ghost var repository, faceScope, maps, segs, pickedOf;
      r, repository, faceScope, maps, segs, pickedOf := ImportStandardFeatureStructure(loader, root, repositoryName, now);
    } else if root.tag == "Neo4jGraphData" {
      r := Failure(Neo4jGraphDataUnmodelled);
    } else {
      r := Failure("Unsupported XML format, the root element is: " + root.tag);
    }
  }
}

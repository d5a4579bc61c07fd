/** The `StandardFeatureStructure` exports. For each selected label the
    face-pair rows `(n, r, f)` are grouped by the source face's
    `structure_no`, in first-seen order; each group becomes one
    `Structure` element with a deduplicated `FaceList` and one edge
    element per row. */
module XmlExport {
  import opened Wrappers
  import opened Graph
  import opened Seqs
  import opened Store
  import opened Xml
  import opened Labels
  import opened DataLoading
  import XmlImport

  /** One face-pair row: source face, relationship, target face. */
  datatype Row = Row(n: Props, r: Props, f: Props)

  /** The five face attributes the export writes, as read with `.get`. */
  datatype FaceInfo = FaceInfo(faceNo: Value, faceType: Value, outterLoopSize: Value, innerLoopSize: Value,
                               isConvexSurface: Value)

  /** The edge attributes the export writes, as read with `.get`. */
  datatype EdgeInfo = EdgeInfo(sourceFaceNo: Value, targetFaceNo: Value, isIntersection: Value, isParallel: Value,
                               isVertical: Value, isConvexity: Value, sizeEdgeIntersection: Value,
                               relationshipType: Value, flagAngleDegree: Value)

  /** One entry of the `structures` dictionary. */
  datatype Group = Group(structureNo: Value, structureName: Value, englishName: Value,
                         faces: seq<FaceInfo>, edges: seq<EdgeInfo>)

  function FaceInfoOf(p: Props): FaceInfo {
    FaceInfo(Get(p, "face_no"), Get(p, "face_type"), Get(p, "outter_loop_size"), Get(p, "inner_loop_size"),
             Get(p, "is_convex_surface"))
  }

  /** The edge of a row: face numbers from `n` and `f`, the rest from `r`. */
  function EdgeInfoOf(row: Row): (e: EdgeInfo)
    ensures e.sourceFaceNo == FaceInfoOf(row.n).faceNo && e.targetFaceNo == FaceInfoOf(row.f).faceNo
  {
    EdgeInfo(Get(row.n, "face_no"), Get(row.f, "face_no"),
             Get(row.r, "is_intersection"), Get(row.r, "is_parallel"), Get(row.r, "is_vertical"),
             Get(row.r, "is_convexity"), Get(row.r, "size_edge_intersection"),
             Get(row.r, "relationship_type"), Get(row.r, "flag_angle_degree"))
  }

  /** The grouping key of a row: the source face's `structure_no`, `"1"`
      when it has none. */
  function NoOf(row: Row): Value {
    GetOr(row.n, "structure_no", Str("1"))
  }

  /** A fresh group for the first row of its structure number. */
  function NewGroup(row: Row, labelName: string): Group {
    Group(NoOf(row), GetOr(row.n, "structure_name", Str("")), GetOr(row.n, "structure_english_name", Str(labelName)),
          [], [])
  }

  /** `if x not in face_list: face_list.append(x)`. */
  function AddFace(fs: seq<FaceInfo>, x: FaceInfo): (r: seq<FaceInfo>)
    ensures forall y :: y in r <==> y in fs || y == x
  {
    if x in fs then fs else fs + [x]
  }

  /** A row added to its group: both faces if new, and one edge. */
  function AddRow(g: Group, row: Row): Group {
    g.(faces := AddFace(AddFace(g.faces, FaceInfoOf(row.n)), FaceInfoOf(row.f)), edges := g.edges + [EdgeInfoOf(row)])
  }

  /** The position of the group for structure number `no`, or `|gs|`. */
  function GroupIndex(gs: seq<Group>, no: Value): (k: nat)
    ensures k <= |gs|
    ensures k < |gs| ==> gs[k].structureNo == no
    ensures forall j :: 0 <= j < k ==> gs[j].structureNo != no
  {
    if gs == [] then 0
    else if gs[0].structureNo == no then 0
    else 1 + GroupIndex(gs[1..], no)
  }

  /** One row placed: added to the group of its structure number, or to
      a new group at the end. */
  function Place(gs: seq<Group>, row: Row, labelName: string): seq<Group> {
    var k := GroupIndex(gs, NoOf(row));
    if k == |gs| then gs + [AddRow(NewGroup(row, labelName), row)]
    else gs[k := AddRow(gs[k], row)]
  }

  /** The grouping of `rows` for one label, row by row. */
  function Grouped(rows: seq<Row>, labelName: string): seq<Group> {
    if rows == [] then [] else Place(Grouped(rows[..|rows| - 1], labelName), rows[|rows| - 1], labelName)
  }

  /** The structure numbers of the groups, in order. */
  function NosOf(gs: seq<Group>): (nos: seq<Value>)
    ensures |nos| == |gs| && forall i :: 0 <= i < |gs| ==> nos[i] == gs[i].structureNo
  {
    seq(|gs|, i requires 0 <= i < |gs| => gs[i].structureNo)
  }

  /** The structure numbers of `rows`, first occurrences only, in order. */
  function FirstSeenNos(rows: seq<Row>): seq<Value> {
    if rows == [] then []
    else
      var prev := FirstSeenNos(rows[..|rows| - 1]);
      var no := NoOf(rows[|rows| - 1]);
      if no in prev then prev else prev + [no]
  }

  /** The edges of the rows with structure number `no`, in row order. */
  function EdgesOf(rows: seq<Row>, no: Value): seq<EdgeInfo> {
    if rows == [] then []
    else EdgesOf(rows[..|rows| - 1], no) + (if NoOf(rows[|rows| - 1]) == no then [EdgeInfoOf(rows[|rows| - 1])] else [])
  }

  /** `faces` lists, without repetition, exactly the source and target
      faces of the rows with structure number `no`. */
  ghost predicate FacesOf(rows: seq<Row>, no: Value, faces: seq<FaceInfo>) {
    && (forall a, b :: 0 <= a < b < |faces| ==> faces[a] != faces[b])
    && forall x :: x in faces <==>
         exists row :: row in rows && NoOf(row) == no && (x == FaceInfoOf(row.n) || x == FaceInfoOf(row.f))
  }

  ghost predicate DistinctNos(gs: seq<Group>) {
    forall a, b :: 0 <= a < b < |gs| ==> gs[a].structureNo != gs[b].structureNo
  }

  /** The lookup finds a group exactly when one has the number. */
  lemma GroupIndexNos(gs: seq<Group>, no: Value)
    ensures GroupIndex(gs, no) < |gs| <==> no in NosOf(gs)
  {
    var k := GroupIndex(gs, no);
    if k < |gs| {
      assert NosOf(gs)[k] == no;
    } else {
      forall j | 0 <= j < |gs| ensures NosOf(gs)[j] != no {
        assert gs[j].structureNo != no;
      }
    }
  }

  /** The groups follow the first-seen order of the structure numbers. */
  lemma {:induction false} GroupedNos(rows: seq<Row>, labelName: string)
    ensures NosOf(Grouped(rows, labelName)) == FirstSeenNos(rows)
  {
    if rows != [] {
      var rows' := rows[..|rows| - 1];
      var row := rows[|rows| - 1];
      GroupedNos(rows', labelName);
      var gs := Grouped(rows', labelName);
      GroupIndexNos(gs, NoOf(row));
      var k := GroupIndex(gs, NoOf(row));
      if k == |gs| {
        NosOfAppend(gs, AddRow(NewGroup(row, labelName), row));
      } else {
        NosOfUpdate(gs, k, AddRow(gs[k], row));
      }
    }
  }

  lemma NosOfAppend(gs: seq<Group>, g: Group)
    ensures NosOf(gs + [g]) == NosOf(gs) + [g.structureNo]
  {
    assert forall i :: 0 <= i < |gs| ==> (gs + [g])[i] == gs[i];
  }

  lemma NosOfUpdate(gs: seq<Group>, k: nat, g: Group)
    requires k < |gs| && g.structureNo == gs[k].structureNo
    ensures NosOf(gs[k := g]) == NosOf(gs)
  {
  }

  /** The first-seen numbers are distinct and are exactly the numbers of
      the rows. */
  lemma {:induction false} FirstSeenNosSpec(rows: seq<Row>)
    ensures forall a, b :: 0 <= a < b < |FirstSeenNos(rows)| ==> FirstSeenNos(rows)[a] != FirstSeenNos(rows)[b]
    ensures forall i :: 0 <= i < |rows| ==> NoOf(rows[i]) in FirstSeenNos(rows)
    ensures forall no :: no in FirstSeenNos(rows) ==> exists i :: 0 <= i < |rows| && NoOf(rows[i]) == no
  {
    if rows != [] {
      var rows' := rows[..|rows| - 1];
      FirstSeenNosSpec(rows');
      forall no | no in FirstSeenNos(rows) ensures exists i :: 0 <= i < |rows| && NoOf(rows[i]) == no {
        if no in FirstSeenNos(rows') {
          var i :| 0 <= i < |rows'| && NoOf(rows'[i]) == no;
          assert rows[i] == rows'[i];
        } else {
          assert NoOf(rows[|rows| - 1]) == no;
        }
      }
    }
  }

  /** The groups have distinct numbers and cover every row. */
  lemma GroupedShape(rows: seq<Row>, labelName: string)
    ensures DistinctNos(Grouped(rows, labelName))
    ensures forall i :: 0 <= i < |rows| ==> NoOf(rows[i]) in NosOf(Grouped(rows, labelName))
  {
    GroupedNos(rows, labelName);
    FirstSeenNosSpec(rows);
    var gs := Grouped(rows, labelName);
    forall a, b | 0 <= a < b < |gs| ensures gs[a].structureNo != gs[b].structureNo {
      assert NosOf(gs)[a] == FirstSeenNos(rows)[a] && NosOf(gs)[b] == FirstSeenNos(rows)[b];
    }
  }

  /** Adding a row to its own group keeps the group's FaceList exact. */
  lemma AddRowFaces(rows': seq<Row>, row: Row, faces: seq<FaceInfo>)
    requires FacesOf(rows', NoOf(row), faces) || (faces == [] && forall r :: r in rows' ==> NoOf(r) != NoOf(row))
    ensures FacesOf(rows' + [row], NoOf(row), AddFace(AddFace(faces, FaceInfoOf(row.n)), FaceInfoOf(row.f)))
  {
    var no := NoOf(row);
    var f1 := AddFace(faces, FaceInfoOf(row.n));
    var f2 := AddFace(f1, FaceInfoOf(row.f));
    assert forall a, b :: 0 <= a < b < |f1| ==> f1[a] != f1[b];
    forall x ensures x in f2 <==>
      exists r :: r in rows' + [row] && NoOf(r) == no && (x == FaceInfoOf(r.n) || x == FaceInfoOf(r.f))
    {
      if x in f2 && x != FaceInfoOf(row.n) && x != FaceInfoOf(row.f) {
        assert x in faces;
        var r :| r in rows' && NoOf(r) == no && (x == FaceInfoOf(r.n) || x == FaceInfoOf(r.f));
        assert r in rows' + [row];
      }
      if x == FaceInfoOf(row.n) || x == FaceInfoOf(row.f) {
        assert row in rows' + [row];
      }
      if exists r :: r in rows' + [row] && NoOf(r) == no && (x == FaceInfoOf(r.n) || x == FaceInfoOf(r.f)) {
        var r :| r in rows' + [row] && NoOf(r) == no && (x == FaceInfoOf(r.n) || x == FaceInfoOf(r.f));
        if r != row {
          assert r in rows';
        }
      }
    }
  }

  /** A row of another structure number leaves a group's FaceList exact. */
  lemma FacesOfOtherRow(rows': seq<Row>, row: Row, no: Value, faces: seq<FaceInfo>)
    requires FacesOf(rows', no, faces) && NoOf(row) != no
    ensures FacesOf(rows' + [row], no, faces)
  {
    forall x ensures x in faces <==>
      exists r :: r in rows' + [row] && NoOf(r) == no && (x == FaceInfoOf(r.n) || x == FaceInfoOf(r.f))
    {
      if x in faces {
        var r :| r in rows' && NoOf(r) == no && (x == FaceInfoOf(r.n) || x == FaceInfoOf(r.f));
        assert r in rows' + [row];
      }
      if exists r :: r in rows' + [row] && NoOf(r) == no && (x == FaceInfoOf(r.n) || x == FaceInfoOf(r.f)) {
        var r :| r in rows' + [row] && NoOf(r) == no && (x == FaceInfoOf(r.n) || x == FaceInfoOf(r.f));
        assert r in rows';
      }
    }
  }

  /** Placing one row keeps every group's FaceList exact. */
  lemma PlaceFaces(rows': seq<Row>, row: Row, gs: seq<Group>, labelName: string)
    requires forall i :: 0 <= i < |gs| ==> FacesOf(rows', gs[i].structureNo, gs[i].faces)
    requires DistinctNos(gs)
    requires forall i :: 0 <= i < |rows'| ==> NoOf(rows'[i]) in NosOf(gs)
    ensures forall i :: 0 <= i < |Place(gs, row, labelName)| ==>
      FacesOf(rows' + [row], Place(gs, row, labelName)[i].structureNo, Place(gs, row, labelName)[i].faces)
  {
    var no := NoOf(row);
    var k := GroupIndex(gs, no);
    var p := Place(gs, row, labelName);
    GroupIndexNos(gs, no);
    forall i | 0 <= i < |p| ensures FacesOf(rows' + [row], p[i].structureNo, p[i].faces) {
      if i == k && k == |gs| {
        forall r | r in rows' ensures NoOf(r) != no {
          var j :| 0 <= j < |rows'| && rows'[j] == r;
        }
        AddRowFaces(rows', row, []);
      } else if i == k {
        AddRowFaces(rows', row, gs[k].faces);
      } else {
        assert p[i] == gs[i];
        FacesOfOtherRow(rows', row, gs[i].structureNo, gs[i].faces);
      }
    }
  }

  /** Each group's FaceList holds, once each, exactly the faces of the
      group's rows. */
  lemma {:induction false} GroupedFaces(rows: seq<Row>, labelName: string)
    ensures forall i :: 0 <= i < |Grouped(rows, labelName)| ==>
      FacesOf(rows, Grouped(rows, labelName)[i].structureNo, Grouped(rows, labelName)[i].faces)
  {
    if rows != [] {
      var rows' := rows[..|rows| - 1];
      GroupedFaces(rows', labelName);
      GroupedShape(rows', labelName);
      PlaceFaces(rows', rows[|rows| - 1], Grouped(rows', labelName), labelName);
      assert rows' + [rows[|rows| - 1]] == rows;
    }
  }

  /** Rows of other numbers contribute no edges. */
  lemma {:induction false} EdgesOfAbsent(rows: seq<Row>, no: Value)
    requires forall i :: 0 <= i < |rows| ==> NoOf(rows[i]) != no
    ensures EdgesOf(rows, no) == []
  {
    if rows != [] {
      EdgesOfAbsent(rows[..|rows| - 1], no);
    }
  }

  lemma EdgesOfSnoc(rows': seq<Row>, row: Row, no: Value)
    ensures EdgesOf(rows' + [row], no) == EdgesOf(rows', no) + (if NoOf(row) == no then [EdgeInfoOf(row)] else [])
  {
    assert (rows' + [row])[..|rows'|] == rows';
  }

  /** Placing one row keeps every group's edge list exact. */
  lemma PlaceEdges(rows': seq<Row>, row: Row, gs: seq<Group>, labelName: string)
    requires forall i :: 0 <= i < |gs| ==> gs[i].edges == EdgesOf(rows', gs[i].structureNo)
    requires DistinctNos(gs)
    requires forall i :: 0 <= i < |rows'| ==> NoOf(rows'[i]) in NosOf(gs)
    ensures forall i :: 0 <= i < |Place(gs, row, labelName)| ==>
      Place(gs, row, labelName)[i].edges == EdgesOf(rows' + [row], Place(gs, row, labelName)[i].structureNo)
  {
    var no := NoOf(row);
    var k := GroupIndex(gs, no);
    var p := Place(gs, row, labelName);
    GroupIndexNos(gs, no);
    forall i | 0 <= i < |p| ensures p[i].edges == EdgesOf(rows' + [row], p[i].structureNo) {
      if i == k && k == |gs| {
        assert p[i] == AddRow(NewGroup(row, labelName), row);
        forall j | 0 <= j < |rows'| ensures NoOf(rows'[j]) != no {
          assert NoOf(rows'[j]) in NosOf(gs);
        }
        EdgesOfAbsent(rows', no);
        EdgesOfSnoc(rows', row, no);
      } else if i == k {
        assert p[i] == AddRow(gs[k], row);
        EdgesOfSnoc(rows', row, no);
      } else {
        assert i < |gs| && p[i] == gs[i];
        if k < i {
          assert gs[k].structureNo != gs[i].structureNo;
        }
        EdgesOfSnoc(rows', row, gs[i].structureNo);
      }
    }
  }

  /** Each group's edge list has one entry per row of its structure
      number, in row order. */
  lemma {:induction false} GroupedEdges(rows: seq<Row>, labelName: string)
    ensures forall i :: 0 <= i < |Grouped(rows, labelName)| ==>
      Grouped(rows, labelName)[i].edges == EdgesOf(rows, Grouped(rows, labelName)[i].structureNo)
  {
    if rows != [] {
      var rows' := rows[..|rows| - 1];
      GroupedEdges(rows', labelName);
      GroupedShape(rows', labelName);
      PlaceEdges(rows', rows[|rows| - 1], Grouped(rows', labelName), labelName);
      assert rows' + [rows[|rows| - 1]] == rows;
    }
  }

  /** The edges of the rows with number `no` come from those rows. */
  lemma {:induction false} EdgesOfFrom(rows: seq<Row>, no: Value)
    ensures forall x :: x in EdgesOf(rows, no) ==> exists row :: row in rows && NoOf(row) == no && x == EdgeInfoOf(row)
  {
    if rows != [] {
      var rows' := rows[..|rows| - 1];
      EdgesOfFrom(rows', no);
      forall x | x in EdgesOf(rows, no) ensures exists row :: row in rows && NoOf(row) == no && x == EdgeInfoOf(row) {
        if x in EdgesOf(rows', no) {
          var row :| row in rows' && NoOf(row) == no && x == EdgeInfoOf(row);
          assert row in rows;
        } else {
          assert rows[|rows| - 1] in rows;
        }
      }
    }
  }

  // Reading the query's rows

  /** The message standing for the exception a missing column raises. */
  function MissingColumn(column: string): string {
    "record has no column " + column
  }

  /** `record["n"]`, `record[relColumn]`, `record["f"]`, in that order. */
  function ReadRow(rec: Record, relColumn: string): (r: Result<Row>)
    ensures r.Success? <==> "n" in rec.columns && relColumn in rec.columns && "f" in rec.columns
    ensures r.Failure? ==> exists c :: c in {"n", relColumn, "f"} && c !in rec.columns && r.error == MissingColumn(c)
  {
    if "n" !in rec.columns then Failure(MissingColumn("n"))
    else if relColumn !in rec.columns then Failure(MissingColumn(relColumn))
    else if "f" !in rec.columns then Failure(MissingColumn("f"))
    else Success(Row(rec.columns["n"], rec.columns[relColumn], rec.columns["f"]))
  }

  /** Every record read; the first unreadable one aborts the export. */
  function RowsOf(recs: seq<Record>, relColumn: string): (r: Result<seq<Row>>)
    ensures r.Success? <==> forall i :: 0 <= i < |recs| ==> ReadRow(recs[i], relColumn).Success?
    ensures r.Success? ==> |r.value| == |recs| && forall i :: 0 <= i < |recs| ==> r.value[i] == ReadRow(recs[i], relColumn).value
  {
    if recs == [] then Success([])
    else
      match RowsOf(recs[..|recs| - 1], relColumn)
      case Failure(e) => Failure(e)
      case Success(rows) =>
        match ReadRow(recs[|recs| - 1], relColumn)
        case Failure(e) => Failure(e)
        case Success(row) => Success(rows + [row])
  }

  /** Once a prefix of the records fails to read, the whole read fails
      with the same message. */
  lemma {:induction false} RowsOfFailureSticks(recs: seq<Record>, n: nat, relColumn: string)
    requires n <= |recs| && RowsOf(recs[..n], relColumn).Failure?
    ensures RowsOf(recs, relColumn) == RowsOf(recs[..n], relColumn)
  {
    if n < |recs| {
      assert recs[..|recs| - 1][..n] == recs[..n];
      RowsOfFailureSticks(recs[..|recs| - 1], n, relColumn);
    } else {
      assert recs[..n] == recs;
    }
  }

  /** The loop over the query's cursor for one label: read each record's
      three columns and place the row in the group of its structure
      number, creating the group at the first row of that number. */
  method GroupRecords(recs: seq<Record>, relColumn: string, labelName: string) returns (r: Result<seq<Group>>)
    ensures RowsOf(recs, relColumn).Failure? ==> r == Failure(RowsOf(recs, relColumn).error)
    ensures RowsOf(recs, relColumn).Success? ==> r == Success(Grouped(RowsOf(recs, relColumn).value, labelName))
  {
    var gs: seq<Group> := [];
    for i := 0 to |recs|
      invariant RowsOf(recs[..i], relColumn).Success?
      invariant gs == Grouped(RowsOf(recs[..i], relColumn).value, labelName)
    {
      assert recs[..i + 1][..i] == recs[..i];
      var row := ReadRow(recs[i], relColumn);
      if row.Failure? {
        RowsOfFailureSticks(recs, i + 1, relColumn);
        return Failure(row.error);
      }
      ghost var rows := RowsOf(recs[..i], relColumn).value;
      assert (rows + [row.value])[..|rows|] == rows;
      var k := GroupIndex(gs, NoOf(row.value));
      if k == |gs| {
        gs := gs + [AddRow(NewGroup(row.value, labelName), row.value)];
      } else {
        gs := gs[k := AddRow(gs[k], row.value)];
      }
    }
    assert recs[..|recs|] == recs;
    return Success(gs);
  }

  // Writing the element tree

  /** How a value is blanked: the two exports write `""` for every falsy
      value, `_generate_xml_exact_format` only for `None`. */
  datatype Blanking = Falsy | NoneOnly

  /** The edge-list element names and the blanking rule of one writer. */
  datatype Format = Format(listTag: string, itemTag: string, blanking: Blanking)

  /** `export_to_xml`. */
  const Legacy := Format("RelationShipList", "RelationShip", Falsy)
  /** `selective_export_xml`. */
  const Current := Format("EdgeList", "Edge", Falsy)
  /** `_generate_xml_exact_format`. */
  const Exact := Format("EdgeList", "Edge", NoneOnly)

  predicate KnownFormat(fmt: Format) {
    fmt == Legacy || fmt == Current || fmt == Exact
  }

  /** `str(v) if v else ""`, or `str(v) if v is not None else ""`. */
  function Blank(v: Value, b: Blanking): (s: string)
    ensures v.Null? ==> s == ""
    ensures Truthy(v) ==> s == PyStr(v)
    ensures b == Falsy && !Truthy(v) ==> s == ""
    ensures b == NoneOnly && !v.Null? ==> s == PyStr(v)
  {
    match b
    case Falsy => if Truthy(v) then PyStr(v) else ""
    case NoneOnly => if v.Null? then "" else PyStr(v)
  }

  /** The two blanking rules disagree exactly on `0` and `False`: an empty
      string and `None` are written `""` by both. */
  lemma BlankingDiffers(v: Value)
    ensures Blank(v, Falsy) != Blank(v, NoneOnly) <==> v == Int(0) || v == Bool(false)
  {
    if v == Int(0) {
      assert PyStr(v) == Decimal(0);
    }
  }

  function FaceElement(x: FaceInfo, b: Blanking): Element {
    Element("Face", map["FaceNo" := PyStr(x.faceNo), "FaceType" := PyStr(x.faceType),
                        "OutterLoopSize" := PyStr(x.outterLoopSize), "InnerLoopSize" := Blank(x.innerLoopSize, b),
                        "IsConvexSurface" := PyStr(x.isConvexSurface)], [])
  }

  function EdgeElement(x: EdgeInfo, fmt: Format): Element {
    Element(fmt.itemTag,
            map["SourceFaceNo" := PyStr(x.sourceFaceNo), "TargetFaceNo" := PyStr(x.targetFaceNo),
                "IsIntersection" := PyStr(x.isIntersection), "IsParallel" := PyStr(x.isParallel),
                "IsVertical" := PyStr(x.isVertical), "IsConvexity" := PyStr(x.isConvexity),
                "SizeEdgeIntersection" := Blank(x.sizeEdgeIntersection, fmt.blanking),
                "RelationShipType" := PyStr(x.relationshipType), "FlagAngleDegree" := PyStr(x.flagAngleDegree)], [])
  }

  /** A written edge carries its two face numbers. */
  lemma EdgeFaceNos(x: EdgeInfo, fmt: Format)
    ensures AttrOpt(EdgeElement(x, fmt), "SourceFaceNo") == Some(PyStr(x.sourceFaceNo))
    ensures AttrOpt(EdgeElement(x, fmt), "TargetFaceNo") == Some(PyStr(x.targetFaceNo))
  {
  }

  function RenderFaces(faces: seq<FaceInfo>, b: Blanking): (es: seq<Element>)
    ensures |es| == |faces| && forall i :: 0 <= i < |faces| ==> es[i] == FaceElement(faces[i], b)
  {
    seq(|faces|, i requires 0 <= i < |faces| => FaceElement(faces[i], b))
  }

  function RenderEdges(edges: seq<EdgeInfo>, fmt: Format): (es: seq<Element>)
    ensures |es| == |edges| && forall i :: 0 <= i < |edges| ==> es[i] == EdgeElement(edges[i], fmt)
  {
    seq(|edges|, i requires 0 <= i < |edges| => EdgeElement(edges[i], fmt))
  }

  /** One `Structure` element: three attributes, a `FaceList` and the
      writer's edge list. */
  function StructureElement(g: Group, fmt: Format): Element {
    Element("Structure",
            map["StructureNo" := PyStr(g.structureNo), "StructureName" := PyStr(g.structureName),
                "StructureEnglishName" := PyStr(g.englishName)],
            [Element("FaceList", map[], RenderFaces(g.faces, fmt.blanking)),
             Element(fmt.listTag, map[], RenderEdges(g.edges, fmt))])
  }

  function RenderStructures(gs: seq<Group>, fmt: Format): (es: seq<Element>)
    ensures |es| == |gs| && forall i :: 0 <= i < |gs| ==> es[i] == StructureElement(gs[i], fmt)
  {
    seq(|gs|, i requires 0 <= i < |gs| => StructureElement(gs[i], fmt))
  }

  const Root := "StandardFeatureStructure"

  /** `_generate_xml_exact_format(structures)`: the document for groups
      already built, with `None`-only blanking. Read back as the importer
      reads it, Structure `i` carries group `i`'s three attributes, its
      faces and its edges, in order. */
  function GenerateXmlExactFormat(gs: seq<Group>): (e: Element)
    ensures e.tag == Root && |e.children| == |gs|
    ensures forall i :: 0 <= i < |gs| ==> e.children[i].tag == "Structure"
    ensures forall i :: 0 <= i < |gs| ==>
      && AttrOpt(e.children[i], "StructureNo") == Some(PyStr(gs[i].structureNo))
      && AttrOpt(e.children[i], "StructureName") == Some(PyStr(gs[i].structureName))
      && AttrOpt(e.children[i], "StructureEnglishName") == Some(PyStr(gs[i].englishName))
    ensures forall i :: 0 <= i < |gs| ==> XmlImport.FaceElements(e.children[i]) == RenderFaces(gs[i].faces, NoneOnly)
    ensures forall i :: 0 <= i < |gs| ==> XmlImport.EdgeElements(e.children[i]) == RenderEdges(gs[i].edges, Exact)
  {
    var e := Element(Root, map[], RenderStructures(gs, Exact));
    assert forall i :: 0 <= i < |gs| ==> StructureWritten(e.children[i], gs[i], Exact) by {
      forall i | 0 <= i < |gs| ensures StructureWritten(e.children[i], gs[i], Exact) {
        ReadBack(gs[i], Exact);
      }
    }
    e
  }

  /** What the importer reads back from Structure element `s` written for
      group `g`. */
  ghost predicate StructureWritten(s: Element, g: Group, fmt: Format) {
    && s.tag == "Structure"
    && AttrOpt(s, "StructureNo") == Some(PyStr(g.structureNo))
    && AttrOpt(s, "StructureName") == Some(PyStr(g.structureName))
    && AttrOpt(s, "StructureEnglishName") == Some(PyStr(g.englishName))
    && XmlImport.FaceElements(s) == RenderFaces(g.faces, fmt.blanking)
    && XmlImport.EdgeElements(s) == RenderEdges(g.edges, fmt)
  }

  /** The importer's lookups read a written Structure back: its Face
      elements and its edge elements are the ones written, whichever of
      the three writers wrote it. */
  lemma ReadBack(g: Group, fmt: Format)
    requires KnownFormat(fmt)
    ensures XmlImport.FaceElements(StructureElement(g, fmt)) == RenderFaces(g.faces, fmt.blanking)
    ensures XmlImport.EdgeElements(StructureElement(g, fmt)) == RenderEdges(g.edges, fmt)
    ensures StructureWritten(StructureElement(g, fmt), g, fmt)
  {
    ReadBackFaces(g, fmt);
    ReadBackEdges(g, fmt);
    ReadBackAttrs(g, fmt);
  }

  lemma ReadBackAttrs(g: Group, fmt: Format)
    ensures StructureElement(g, fmt).tag == "Structure"
    ensures AttrOpt(StructureElement(g, fmt), "StructureNo") == Some(PyStr(g.structureNo))
    ensures AttrOpt(StructureElement(g, fmt), "StructureName") == Some(PyStr(g.structureName))
    ensures AttrOpt(StructureElement(g, fmt), "StructureEnglishName") == Some(PyStr(g.englishName))
  {
  }

  lemma ReadBackFaces(g: Group, fmt: Format)
    ensures XmlImport.FaceElements(StructureElement(g, fmt)) == RenderFaces(g.faces, fmt.blanking)
  {
    var s := StructureElement(g, fmt);
    assert Find(s, "FaceList") == Some(s.children[0]);
    AllWithTagAll(RenderFaces(g.faces, fmt.blanking), "Face");
  }

  lemma ReadBackEdges(g: Group, fmt: Format)
    requires KnownFormat(fmt)
    ensures XmlImport.EdgeElements(StructureElement(g, fmt)) == RenderEdges(g.edges, fmt)
  {
    var edges := RenderEdges(g.edges, fmt);
    assert forall i :: 0 <= i < |edges| ==> edges[i].tag == fmt.itemTag;
    EdgeListRead(StructureElement(g, fmt), fmt.listTag, fmt.itemTag);
  }

  /** A Structure whose second child is an edge list, under either naming,
      holding only items of the matching name: the importer reads exactly
      those items. */
  lemma EdgeListRead(s: Element, listTag: string, itemTag: string)
    requires |s.children| == 2 && s.children[0].tag == "FaceList" && s.children[1].tag == listTag
    requires (listTag == "EdgeList" && itemTag == "Edge") || (listTag == "RelationShipList" && itemTag == "RelationShip")
    requires forall i :: 0 <= i < |s.children[1].children| ==> s.children[1].children[i].tag == itemTag
    ensures XmlImport.EdgeElements(s) == s.children[1].children
  {
    var list := s.children[1];
    var items := list.children;
    assert s.children[1..] == [list];
    if listTag == "EdgeList" {
      assert Find(s, "EdgeList") == Some(list);
      AllWithTagAll(items, "Edge");
      if items == [] {
        assert AllWithTag(items, "RelationShip") == [];
      }
    } else {
      assert Find(s, "EdgeList") == None;
      assert Find(s, "RelationShipList") == Some(list);
      AllWithTagNone(items, "Edge");
      AllWithTagAll(items, "RelationShip");
    }
  }

  /** Every edge element of a written Structure names, as source and as
      target, the `FaceNo` of a Face element of that same Structure. */
  ghost predicate EdgesNameFaces(s: Element) {
    forall e :: e in XmlImport.EdgeElements(s) ==>
      && (exists f :: f in XmlImport.FaceElements(s) && AttrOpt(e, "SourceFaceNo") == Some(Attr(f, "FaceNo", "0")))
      && (exists f :: f in XmlImport.FaceElements(s) && AttrOpt(e, "TargetFaceNo") == Some(Attr(f, "FaceNo", "0")))
  }

  /** A written face carries its face number. */
  lemma FaceNoWritten(faces: seq<FaceInfo>, b: Blanking, x: FaceInfo)
    requires x in faces
    ensures exists f :: f in RenderFaces(faces, b) && Attr(f, "FaceNo", "0") == PyStr(x.faceNo)
  {
    var k :| 0 <= k < |faces| && faces[k] == x;
    assert RenderFaces(faces, b)[k] in RenderFaces(faces, b);
  }

  /** In an exact group, the `j`-th written edge names two written faces. */
  lemma EdgeNamesFaces(rows: seq<Row>, g: Group, b: Blanking, x: EdgeInfo)
    requires FacesOf(rows, g.structureNo, g.faces)
    requires x in EdgesOf(rows, g.structureNo)
    ensures exists f :: f in RenderFaces(g.faces, b) && Attr(f, "FaceNo", "0") == PyStr(x.sourceFaceNo)
    ensures exists f :: f in RenderFaces(g.faces, b) && Attr(f, "FaceNo", "0") == PyStr(x.targetFaceNo)
  {
    EdgesOfFrom(rows, g.structureNo);
    var row :| row in rows && NoOf(row) == g.structureNo && x == EdgeInfoOf(row);
    assert FaceInfoOf(row.n) in g.faces && FaceInfoOf(row.f) in g.faces;
    FaceNoWritten(g.faces, b, FaceInfoOf(row.n));
    FaceNoWritten(g.faces, b, FaceInfoOf(row.f));
  }

  /** Every written edge of an exact group names two written faces. */
  lemma WrittenEdgesNameFaces(rows: seq<Row>, g: Group, fmt: Format)
    requires FacesOf(rows, g.structureNo, g.faces) && g.edges == EdgesOf(rows, g.structureNo)
    ensures forall e :: e in RenderEdges(g.edges, fmt) ==>
      && (exists f :: f in RenderFaces(g.faces, fmt.blanking) && AttrOpt(e, "SourceFaceNo") == Some(Attr(f, "FaceNo", "0")))
      && (exists f :: f in RenderFaces(g.faces, fmt.blanking) && AttrOpt(e, "TargetFaceNo") == Some(Attr(f, "FaceNo", "0")))
  {
    var faces := RenderFaces(g.faces, fmt.blanking);
    var edges := RenderEdges(g.edges, fmt);
    forall e | e in edges
      ensures exists f :: f in faces && AttrOpt(e, "SourceFaceNo") == Some(Attr(f, "FaceNo", "0"))
      ensures exists f :: f in faces && AttrOpt(e, "TargetFaceNo") == Some(Attr(f, "FaceNo", "0"))
    {
      var j :| 0 <= j < |g.edges| && edges[j] == e;
      assert g.edges[j] in EdgesOf(rows, g.structureNo);
      EdgeNamesFaces(rows, g, fmt.blanking, g.edges[j]);
      EdgeFaceNos(g.edges[j], fmt);
    }
  }

  /** A group whose FaceList and edge list are exact for `rows` is
      written as a closed Structure. */
  lemma GroupEdgesNameFaces(rows: seq<Row>, g: Group, fmt: Format)
    requires KnownFormat(fmt)
    requires FacesOf(rows, g.structureNo, g.faces) && g.edges == EdgesOf(rows, g.structureNo)
    ensures EdgesNameFaces(StructureElement(g, fmt))
  {
    ReadBack(g, fmt);
    WrittenEdgesNameFaces(rows, g, fmt);
  }

  /** The grouping puts the faces of every row beside its edge, so every
      Structure the exports write is closed: its edges refer only to its
      own faces, and importing it resolves both face numbers of every edge
      once its faces are created (an edge whose two faces share a number
      is still skipped as a self-loop). */
  lemma GroupedEdgesNameFaces(rows: seq<Row>, labelName: string, fmt: Format)
    requires KnownFormat(fmt)
    ensures forall g :: g in Grouped(rows, labelName) ==> EdgesNameFaces(StructureElement(g, fmt))
  {
    GroupedFaces(rows, labelName);
    GroupedEdges(rows, labelName);
    forall g | g in Grouped(rows, labelName) ensures EdgesNameFaces(StructureElement(g, fmt)) {
      var i :| 0 <= i < |Grouped(rows, labelName)| && Grouped(rows, labelName)[i] == g;
      GroupEdgesNameFaces(rows, g, fmt);
    }
  }

  // The exports

  /** The Structure elements written for `labels`, label by label, from
      the face-pair query with the relationship under `queryColumn`, read
      back from column `readColumn`; the grouping starts afresh for every
      label. */
  function TreeFor(ns: seq<Node>, rs: seq<Rel>, labels: seq<string>, scope: Option<Id>, queryColumn: string,
                   readColumn: string, fmt: Format): Result<seq<Element>>
  {
    if labels == [] then Success([])
    else
      match TreeFor(ns, rs, labels[..|labels| - 1], scope, queryColumn, readColumn, fmt)
      case Failure(e) => Failure(e)
      case Success(els) =>
        var labelName := labels[|labels| - 1];
        match RowsOf(FacePairRecords(ns, rs, labelName, scope, queryColumn), readColumn)
        case Failure(e) => Failure(e)
        case Success(rows) => Success(els + RenderStructures(Grouped(rows, labelName), fmt))
  }

  lemma {:induction false} TreeForFailureSticks(ns: seq<Node>, rs: seq<Rel>, labels: seq<string>, n: nat,
                                                scope: Option<Id>, queryColumn: string, readColumn: string, fmt: Format)
    requires n <= |labels| && TreeFor(ns, rs, labels[..n], scope, queryColumn, readColumn, fmt).Failure?
    ensures TreeFor(ns, rs, labels, scope, queryColumn, readColumn, fmt) ==
            TreeFor(ns, rs, labels[..n], scope, queryColumn, readColumn, fmt)
  {
    if n < |labels| {
      assert labels[..|labels| - 1][..n] == labels[..n];
      TreeForFailureSticks(ns, rs, labels[..|labels| - 1], n, scope, queryColumn, readColumn, fmt);
    } else {
      assert labels[..n] == labels;
    }
  }

  /** The loop over the selected labels: run the face-pair query, group
      its rows and append one Structure per group to the root. A query
      that raises aborts the export. */
  method ExportLabels(graph: GraphStore, labels: seq<string>, scope: Option<Id>, queryColumn: string,
                      readColumn: string, fmt: Format) returns (r: Result<seq<Element>>)
    ensures r == TreeFor(graph.nodes, graph.rels, labels, scope, queryColumn, readColumn, fmt) || r == Failure(StoreFailed)
  {
    var els: seq<Element> := [];
    for i := 0 to |labels|
      invariant TreeFor(graph.nodes, graph.rels, labels[..i], scope, queryColumn, readColumn, fmt) == Success(els)
    {
      var labelName := labels[i];
      assert labels[..i + 1][..i] == labels[..i];
      var recs, raised := graph.QueryFacePairs(labelName, scope, queryColumn);
      if raised {
        return Failure(StoreFailed);
      }
      var gs := GroupRecords(recs, readColumn, labelName);
      if gs.Failure? {
        TreeForFailureSticks(graph.nodes, graph.rels, labels, i + 1, scope, queryColumn, readColumn, fmt);
        return Failure(gs.error);
      }
      els := els + RenderStructures(gs.value, fmt);
    }
    assert labels[..|labels|] == labels;
    return Success(els);
  }

  /** Records that carry the columns read are read in full. */
  lemma RowsOfPresent(recs: seq<Record>, relColumn: string)
    requires forall x :: x in recs ==> x.columns.Keys == {"n", relColumn, "f"}
    ensures RowsOf(recs, relColumn).Success?
  {
    forall i | 0 <= i < |recs| ensures ReadRow(recs[i], relColumn).Success? {
      assert recs[i] in recs;
    }
  }

  /** Reading the column the query returns never fails, and then each
      label contributes one Structure per structure number of its rows. */
  lemma {:induction false} TreeForSucceeds(ns: seq<Node>, rs: seq<Rel>, labels: seq<string>, scope: Option<Id>,
                                           column: string, fmt: Format)
    ensures TreeFor(ns, rs, labels, scope, column, column, fmt).Success?
    ensures |TreeFor(ns, rs, labels, scope, column, column, fmt).value| == StructureCount(ns, rs, labels, scope, column)
  {
    if labels != [] {
      TreeForSucceeds(ns, rs, labels[..|labels| - 1], scope, column, fmt);
      var labelName := labels[|labels| - 1];
      var recs := FacePairRecords(ns, rs, labelName, scope, column);
      RowsOfPresent(recs, column);
      GroupedNos(RowsOf(recs, column).value, labelName);
    }
  }

  /** The number of distinct structure numbers over the labels' rows. */
  function StructureCount(ns: seq<Node>, rs: seq<Rel>, labels: seq<string>, scope: Option<Id>, column: string): nat {
    if labels == [] then 0
    else
      var labelName := labels[|labels| - 1];
      var rows := RowsOf(FacePairRecords(ns, rs, labelName, scope, column), column);
      StructureCount(ns, rs, labels[..|labels| - 1], scope, column) +
      (if rows.Success? then |FirstSeenNos(rows.value)| else 0)
  }

  /** Face-pair records read under a column their query did not return
      read only when there are none. */
  lemma PairRecordsUnread(ns: seq<Node>, rs: seq<Rel>, labelName: string, scope: Option<Id>,
                          queryColumn: string, readColumn: string)
    requires readColumn !in {"n", queryColumn, "f"}
    ensures RowsOf(FacePairRecords(ns, rs, labelName, scope, queryColumn), readColumn).Success? <==>
            FacePairRecords(ns, rs, labelName, scope, queryColumn) == []
  {
    var recs := FacePairRecords(ns, rs, labelName, scope, queryColumn);
    if recs != [] {
      assert recs[0] in recs;
      assert !ReadRow(recs[0], readColumn).Success?;
    }
  }

  /** Reading a column the query does not return fails exactly when some
      label has a row, and then no Structure is written. */
  lemma {:induction false} TreeForMissingColumn(ns: seq<Node>, rs: seq<Rel>, labels: seq<string>, scope: Option<Id>,
                                                queryColumn: string, readColumn: string, fmt: Format)
    requires readColumn !in {"n", queryColumn, "f"}
    ensures TreeFor(ns, rs, labels, scope, queryColumn, readColumn, fmt).Success? <==>
            forall l :: l in labels ==> FacePairRecords(ns, rs, l, scope, queryColumn) == []
    ensures TreeFor(ns, rs, labels, scope, queryColumn, readColumn, fmt).Success? ==>
            TreeFor(ns, rs, labels, scope, queryColumn, readColumn, fmt).value == []
  {
    if labels != [] {
      var labels' := labels[..|labels| - 1];
      var labelName := labels[|labels| - 1];
      TreeForMissingColumn(ns, rs, labels', scope, queryColumn, readColumn, fmt);
      PairRecordsUnread(ns, rs, labelName, scope, queryColumn, readColumn);
      assert labelName in labels;
      assert forall l :: l in labels ==> l in labels' || l == labelName;
      assert forall l :: l in labels' ==> l in labels;
    }
  }

  /** Every Structure written for the labels is closed: its edges name
      only its own faces. */
  lemma {:induction false} TreeForEdgesNameFaces(ns: seq<Node>, rs: seq<Rel>, labels: seq<string>, scope: Option<Id>,
                                                 queryColumn: string, readColumn: string, fmt: Format)
    requires KnownFormat(fmt)
    requires TreeFor(ns, rs, labels, scope, queryColumn, readColumn, fmt).Success?
    ensures forall s :: s in TreeFor(ns, rs, labels, scope, queryColumn, readColumn, fmt).value ==> EdgesNameFaces(s)
  {
    if labels != [] {
      var labels' := labels[..|labels| - 1];
      var labelName := labels[|labels| - 1];
      TreeForEdgesNameFaces(ns, rs, labels', scope, queryColumn, readColumn, fmt);
      var rows := RowsOf(FacePairRecords(ns, rs, labelName, scope, queryColumn), readColumn).value;
      GroupedEdgesNameFaces(rows, labelName, fmt);
      var gs := Grouped(rows, labelName);
      forall s | s in RenderStructures(gs, fmt) ensures EdgesNameFaces(s) {
        var i :| 0 <= i < |gs| && RenderStructures(gs, fmt)[i] == s;
        assert gs[i] in gs;
      }
    }
  }

  /** The labels of every bucket, bucket by bucket in category order
      (`for category_labels in all_labels_data.values()`). */
  function Flatten(m: map<string, seq<string>>, k: nat): seq<string>
    requires k <= |CategoryNames|
  {
    if k == 0 then []
    else Flatten(m, k - 1) + (if CategoryNames[k - 1] in m then m[CategoryNames[k - 1]] else [])
  }

  /** Flattening a categorisation of `all` lists exactly the labels of
      `all`; flattening the empty map lists none. */
  lemma {:induction false} FlattenCategorization(m: map<string, seq<string>>, all: set<string>, k: nat)
    requires k <= |CategoryNames|
    ensures m == map[] ==> Flatten(m, k) == []
    ensures IsCategorization(m, all) ==> forall x :: x in Flatten(m, k) <==> x in all && CategoryOf(x) < k
  {
    if k > 0 {
      FlattenCategorization(m, all, k - 1);
      if IsCategorization(m, all) {
        assert IsBucketOf(m[CategoryNames[k - 1]], all, k - 1);
      }
    }
  }

  /** `a` comes before `b` in the flattened buckets: an earlier bucket,
      or the same bucket and ascending. */
  predicate BucketOrder(a: string, b: string) {
    CategoryOf(a) < CategoryOf(b) || (CategoryOf(a) == CategoryOf(b) && LexLess(a, b))
  }

  /** Flattening a categorisation lists the labels bucket after bucket,
      ascending inside each bucket. */
  lemma {:induction false} FlattenOrdered(m: map<string, seq<string>>, all: set<string>, k: nat)
    requires k <= |CategoryNames| && IsCategorization(m, all)
    ensures forall i, j :: 0 <= i < j < |Flatten(m, k)| ==> BucketOrder(Flatten(m, k)[i], Flatten(m, k)[j])
  {
    if k > 0 {
      FlattenOrdered(m, all, k - 1);
      FlattenCategorization(m, all, k - 1);
      var front, bucket := Flatten(m, k - 1), m[CategoryNames[k - 1]];
      assert IsBucketOf(bucket, all, k - 1);
      assert Flatten(m, k) == front + bucket;
      assert forall x :: x in front ==> CategoryOf(x) < k - 1;
      OrderedConcat(front, bucket, k - 1);
    }
  }
  /** Ordered labels of earlier buckets followed by one sorted bucket of
      a later category stay ordered. */
  lemma OrderedConcat(front: seq<string>, bucket: seq<string>, c: nat)
    requires forall i, j :: 0 <= i < j < |front| ==> BucketOrder(front[i], front[j])
    requires forall x :: x in front ==> CategoryOf(x) < c
    requires forall x :: x in bucket ==> CategoryOf(x) == c
    requires Sorted(bucket)
    ensures forall i, j :: 0 <= i < j < |front + bucket| ==> BucketOrder((front + bucket)[i], (front + bucket)[j])
  {
    var f := front + bucket;
    forall i, j | 0 <= i < j < |f| ensures BucketOrder(f[i], f[j]) {
      if j < |front| {
        assert f[i] == front[i] && f[j] == front[j];
      } else if i < |front| {
        assert front[i] in front && bucket[j - |front|] in bucket;
      } else {
        assert bucket[i - |front|] in bucket && bucket[j - |front|] in bucket;
      }
    }
  }


  /** Flattening a categorisation lists every label once. */
  lemma FlattenDistinct(m: map<string, seq<string>>, all: set<string>, k: nat)
    requires k <= |CategoryNames| && IsCategorization(m, all)
    ensures forall i, j :: 0 <= i < j < |Flatten(m, k)| ==> Flatten(m, k)[i] != Flatten(m, k)[j]
  {
    FlattenOrdered(m, all, k);
    forall i, j | 0 <= i < j < |Flatten(m, k)| ensures Flatten(m, k)[i] != Flatten(m, k)[j] {
      LexLessIrreflexive(Flatten(m, k)[i]);
    }
  }

  const NotConnected := "Database not connected"

  /** `export_to_xml(selected_labels)`: the legacy document, with
      `RelationShipList`/`RelationShip` edge lists; no selection exports
      every label the store carries, bucket after bucket as
      `get_available_labels` returns them (`buckets`; `{}` when that
      query raised). A raising export query re-raises. */
  method ExportToXml(loader: DataLoader, selected: Option<seq<string>>)
    returns (r: Result<Element>, ghost labels: seq<string>, ghost buckets: map<string, seq<string>>)
    ensures loader.graph == null ==> r == Failure(NotConnected)
    ensures loader.graph != null && r.Failure? ==> r == Failure(StoreFailed)
    ensures r.Success? ==>
      && loader.graph != null && r.value.tag == Root && r.value.attrs == map[]
      && Success(r.value.children) == TreeFor(loader.graph.nodes, loader.graph.rels, labels, None, "r", "r", Legacy)
      && |r.value.children| == StructureCount(loader.graph.nodes, loader.graph.rels, labels, None, "r")
      && (forall s :: s in r.value.children ==> EdgesNameFaces(s))
    ensures selected.Some? ==> labels == selected.value
    ensures loader.graph != null && selected.None? ==>
      && (forall l :: l in labels ==> l in loader.graph.AllLabels())
      && (labels == [] || forall l :: l in loader.graph.AllLabels() ==> l in labels)
    ensures loader.graph != null && selected.None? ==>
      && labels == Flatten(buckets, |CategoryNames|)
      && (buckets == map[] || IsCategorization(buckets, loader.graph.AllLabels()))
      && (forall i, j :: 0 <= i < j < |labels| ==> labels[i] != labels[j])
      && (forall i, j :: 0 <= i < j < |labels| ==> BucketOrder(labels[i], labels[j]))
  {
    buckets := map[];
    if loader.graph == null {
      return Failure(NotConnected), if selected.Some? then selected.value else [], buckets;
    }
    var chosen: seq<string>;
    if selected.None? {
      var available := loader.GetAvailableLabels();
      buckets := available;
      chosen := Flatten(available, |CategoryNames|);
      FlattenCategorization(buckets, loader.graph.AllLabels(), |CategoryNames|);
      if buckets != map[] {
        FlattenOrdered(buckets, loader.graph.AllLabels(), |CategoryNames|);
        FlattenDistinct(buckets, loader.graph.AllLabels(), |CategoryNames|);
      }
      forall l | l in loader.graph.AllLabels() ensures CategoryOf(l) < |CategoryNames| {
      }
    } else {
      chosen := selected.value;
    }
    labels := chosen;
    var children := ExportLabels(loader.graph, chosen, None, "r", "r", Legacy);
    TreeForSucceeds(loader.graph.nodes, loader.graph.rels, chosen, None, "r", Legacy);
    if children.Failure? {
      return Failure(StoreFailed), labels, buckets;
    }
    TreeForEdgesNameFaces(loader.graph.nodes, loader.graph.rels, chosen, None, "r", "r", Legacy);
    r := Success(Element(Root, map[], children.value));
  }

  /** `if repository_id:` — only a non-empty identifier scopes the query. */
  function Scope(repositoryId: Option<string>): (scope: Option<Id>)
    ensures scope.Some? <==> repositoryId.Some? && repositoryId.value != ""
    ensures scope.Some? ==> scope == repositoryId
  {
    if repositoryId.Some? && repositoryId.value != "" then repositoryId else None
  }

  /** The column the query of `selective_export_xml` returns the
      relationship under: `rel` when scoped, `r` otherwise. */
  function QueryColumn(scope: Option<Id>): string {
    if scope.Some? then "rel" else "r"
  }

  /** `selective_export_xml(selected_labels, repository_id)` as written:
      both branches read column `rel`, which the unscoped query does not
      return, so an unscoped export with any face pair fails. A raising
      query re-raises. */
  method SelectiveExportXmlAsWritten(graph: GraphStore?, labels: seq<string>, repositoryId: Option<string>)
    returns (r: Result<Element>)
    ensures graph == null ==> r == Failure(NotConnected)
    ensures graph != null && Scope(repositoryId).Some? ==>
      && (r.Success? || r == Failure(StoreFailed))
      && (r.Success? ==> r.value.tag == Root)
      && (r.Success? ==>
            Success(r.value.children) == TreeFor(graph.nodes, graph.rels, labels, Scope(repositoryId), "rel", "rel", Current))
    ensures graph != null && Scope(repositoryId).None? ==>
      && ((forall l :: l in labels ==> FacePairRecords(graph.nodes, graph.rels, l, None, "r") == []) ==>
            r.Success? || r == Failure(StoreFailed))
      && (r.Success? ==> forall l :: l in labels ==> FacePairRecords(graph.nodes, graph.rels, l, None, "r") == [])
      && (r.Success? ==> r.value.children == [])
  {
    if graph == null {
      return Failure(NotConnected);
    }
    var scope := Scope(repositoryId);
    var children := ExportLabels(graph, labels, scope, QueryColumn(scope), "rel", Current);
    if scope.Some? {
      TreeForSucceeds(graph.nodes, graph.rels, labels, scope, "rel", Current);
    } else {
      TreeForMissingColumn(graph.nodes, graph.rels, labels, scope, "r", "rel", Current);
    }
    if children.Failure? {
      return Failure(children.error);
    }
    r := Success(Element(Root, map[], children.value));
  }

  /** `selective_export_xml(selected_labels, repository_id)` reading the
      relationship from the column its query returns: the `EdgeList`/`Edge`
      document of the selected labels, restricted to the repository's
      faces when an identifier is given. A raising query re-raises. */
  method SelectiveExportXml(graph: GraphStore?, labels: seq<string>, repositoryId: Option<string>)
    returns (r: Result<Element>)
    ensures graph == null ==> r == Failure(NotConnected)
    ensures graph != null && r.Failure? ==> r == Failure(StoreFailed)
    ensures r.Success? ==>
      && graph != null && r.value.tag == Root && r.value.attrs == map[]
      && Success(r.value.children) == TreeFor(graph.nodes, graph.rels, labels, Scope(repositoryId),
                                              QueryColumn(Scope(repositoryId)), QueryColumn(Scope(repositoryId)), Current)
      && |r.value.children| == StructureCount(graph.nodes, graph.rels, labels, Scope(repositoryId), QueryColumn(Scope(repositoryId)))
      && (forall s :: s in r.value.children ==> EdgesNameFaces(s))
  {
    if graph == null {
      return Failure(NotConnected);
    }
    var scope := Scope(repositoryId);
    var column := QueryColumn(scope);
    var children := ExportLabels(graph, labels, scope, column, column, Current);
    TreeForSucceeds(graph.nodes, graph.rels, labels, scope, column, Current);
    if children.Failure? {
      return Failure(StoreFailed);
    }
    TreeForEdgesNameFaces(graph.nodes, graph.rels, labels, scope, column, column, Current);
    r := Success(Element(Root, map[], children.value));
  }

  /** With no face pair for any selected label, every export writes a
      root with no Structure. */
  lemma {:induction false} TreeForNoRows(ns: seq<Node>, rs: seq<Rel>, labels: seq<string>, scope: Option<Id>,
                                         queryColumn: string, readColumn: string, fmt: Format)
    requires forall l :: l in labels ==> FacePairRecords(ns, rs, l, scope, queryColumn) == []
    ensures TreeFor(ns, rs, labels, scope, queryColumn, readColumn, fmt) == Success([])
  {
    if labels != [] {
      var labelName := labels[|labels| - 1];
      assert labelName in labels;
      assert forall l :: l in labels[..|labels| - 1] ==> l in labels;
      TreeForNoRows(ns, rs, labels[..|labels| - 1], scope, queryColumn, readColumn, fmt);
      assert RowsOf([], readColumn) == Success([]);
      assert [] + RenderStructures(Grouped([], labelName), fmt) == [];
    }
  }
}

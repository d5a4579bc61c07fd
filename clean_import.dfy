/** `clean_import_data`: a side-effect-free pass over a flat document that
    keeps the first node of every truthy identifier, then the first
    relationship of every `(source, target, type)` triple whose endpoints
    are kept nodes and differ, dropping empty-string and null properties
    on the way. */
module CleanImport {
  import opened Wrappers
  import opened Graph
  import opened Seqs
  import opened FlatImport

  /** `node.get("labels", ["Node"])`: only a missing list is defaulted. */
  function CleanLabels(f: Field<seq<string>>): Field<seq<string>> {
    if f.Absent? then Given(["Node"]) else f
  }

  /** `rel.get("type", "RELATED")`: only a missing type is defaulted. */
  function CleanType(f: Field<string>): Field<string> {
    if f.Absent? then Given("RELATED") else f
  }

  /** `x.get("properties", {})` followed by `.items()`: a null map raises. */
  function CleanProps(f: Field<Props>): (r: Result<Props>)
    ensures f.Null? <==> r.Failure?
    ensures r.Success? ==> forall k :: k in r.value ==> Kept(r.value[k])
  {
    match f
    case Absent => Success(map[])
    case Null => Failure("'NoneType' object has no attribute 'items'")
    case Given(p) => Success(Normalize(p))
  }

  function IdsOf(ns: seq<DocNode>): set<Value> {
    set n | n in ns :: n.id
  }

  function IdSeq(ns: seq<DocNode>): seq<Value> {
    SeqMap((n: DocNode) => n.id, ns)
  }

  /** The deduplication key of a relationship record. */
  function KeyOf(r: DocRel): (Value, Value, Field<string>) {
    (r.source, r.target, CleanType(r.relType))
  }

  function KeysOf(rs: seq<DocRel>): set<(Value, Value, Field<string>)> {
    set r | r in rs :: KeyOf(r)
  }

  function KeySeq(rs: seq<DocRel>): seq<(Value, Value, Field<string>)> {
    SeqMap(KeyOf, rs)
  }

  /** Whether node `n` is kept after the kept nodes `out`. */
  predicate KeepsNode(out: seq<DocNode>, n: DocNode) {
    Truthy(n.id) && n.id !in IdsOf(out)
  }

  /** Whether relationship `r` is kept after the kept relationships `out`. */
  predicate KeepsRel(ids: set<Value>, out: seq<DocRel>, r: DocRel) {
    r.source in ids && r.target in ids && r.source != r.target && KeyOf(r) !in KeysOf(out)
  }

  /** The node pass over `ns`, record by record. */
  function CleanNodes(ns: seq<DocNode>): Result<seq<DocNode>> {
    if ns == [] then Success([])
    else
      var prev := CleanNodes(ns[..|ns| - 1]);
      var n := ns[|ns| - 1];
      if prev.Failure? || !KeepsNode(prev.value, n) then prev
      else
        var p := CleanProps(n.properties);
        if p.Failure? then Failure(p.error)
        else Success(prev.value + [DocNode(n.id, CleanLabels(n.labels), Given(p.value))])
  }

  /** The relationship pass over `rs` against the kept node ids. */
  function CleanRels(rs: seq<DocRel>, ids: set<Value>): Result<seq<DocRel>> {
    if rs == [] then Success([])
    else
      var prev := CleanRels(rs[..|rs| - 1], ids);
      var r := rs[|rs| - 1];
      if prev.Failure? || !KeepsRel(ids, prev.value, r) then prev
      else
        var p := CleanProps(r.properties);
        if p.Failure? then Failure(p.error)
        else Success(prev.value + [DocRel(r.source, r.target, CleanType(r.relType), Given(p.value))])
  }

  /** The whole transform: a missing list is empty, a null one raises. */
  function CleanDoc(d: FlatDoc): Result<FlatDoc> {
    var nodes := ListOr(d.nodes);
    if nodes.Failure? then Failure(nodes.error)
    else
      var outNodes := CleanNodes(nodes.value);
      if outNodes.Failure? then Failure(outNodes.error)
      else
        var rels := ListOr(d.relationships);
        if rels.Failure? then Failure(rels.error)
        else
          var outRels := CleanRels(rels.value, IdsOf(outNodes.value));
          if outRels.Failure? then Failure(outRels.error)
          else Success(FlatDoc(Given(outNodes.value), Given(outRels.value)))
  }

  /** Once a prefix of the node pass raises, the whole pass raises with
      the same error. */
  lemma {:induction false} CleanNodesFailurePersists(ns: seq<DocNode>, i: nat)
    requires i <= |ns| && CleanNodes(ns[..i]).Failure?
    ensures CleanNodes(ns) == CleanNodes(ns[..i])
    decreases |ns| - i
  {
    if i < |ns| {
      assert ns[..i + 1][..i] == ns[..i];
      CleanNodesFailurePersists(ns, i + 1);
    } else {
      assert ns[..i] == ns;
    }
  }

  lemma {:induction false} CleanRelsFailurePersists(rs: seq<DocRel>, ids: set<Value>, i: nat)
    requires i <= |rs| && CleanRels(rs[..i], ids).Failure?
    ensures CleanRels(rs, ids) == CleanRels(rs[..i], ids)
    decreases |rs| - i
  {
    if i < |rs| {
      assert rs[..i + 1][..i] == rs[..i];
      CleanRelsFailurePersists(rs, ids, i + 1);
    } else {
      assert rs[..i] == rs;
    }
  }

  /** The node loop of `clean_import_data`, with its `seen_node_ids` set. */
  method CleanNodeList(ns: seq<DocNode>) returns (r: Result<seq<DocNode>>)
    ensures r == CleanNodes(ns)
  {
    var outNodes: seq<DocNode> := [];
    var seenNodeIds: set<Value> := {};
    for i := 0 to |ns|
      invariant CleanNodes(ns[..i]) == Success(outNodes)
      invariant seenNodeIds == IdsOf(outNodes)
    {
      assert ns[..i + 1][..i] == ns[..i];
      var n := ns[i];
      if Truthy(n.id) && n.id !in seenNodeIds {
        var p := CleanProps(n.properties);
        if p.Failure? {
          CleanNodesFailurePersists(ns, i + 1);
          return Failure(p.error);
        }
        var cleaned := DocNode(n.id, CleanLabels(n.labels), Given(p.value));
        outNodes := outNodes + [cleaned];
        seenNodeIds := seenNodeIds + {n.id};
      }
    }
    assert ns[..|ns|] == ns;
    r := Success(outNodes);
  }

  /** The relationship loop of `clean_import_data`, with its
      `seen_relationships` set of `(source, target, type)` keys. */
  method CleanRelList(rs: seq<DocRel>, nodeIds: set<Value>) returns (r: Result<seq<DocRel>>)
    ensures r == CleanRels(rs, nodeIds)
  {
    var outRels: seq<DocRel> := [];
    var seenRels: set<(Value, Value, Field<string>)> := {};
    for i := 0 to |rs|
      invariant CleanRels(rs[..i], nodeIds) == Success(outRels)
      invariant seenRels == KeysOf(outRels)
    {
      assert rs[..i + 1][..i] == rs[..i];
      var x := rs[i];
      var relType := CleanType(x.relType);
      if x.source in nodeIds && x.target in nodeIds && x.source != x.target {
        var key := (x.source, x.target, relType);
        if key !in seenRels {
          var p := CleanProps(x.properties);
          if p.Failure? {
            CleanRelsFailurePersists(rs, nodeIds, i + 1);
            return Failure(p.error);
          }
          var cleaned := DocRel(x.source, x.target, relType, Given(p.value));
          outRels := outRels + [cleaned];
          seenRels := seenRels + {KeyOf(cleaned)};
        }
      }
    }
    assert rs[..|rs|] == rs;
    r := Success(outRels);
  }

  /** `clean_import_data(data)`: the node loop, then the relationship loop
      against the kept node ids. */
  method CleanImportData(d: FlatDoc) returns (r: Result<FlatDoc>)
    ensures r == CleanDoc(d)
  {
    var nodes := ListOr(d.nodes);
    if nodes.Failure? {
      return Failure(nodes.error);
    }
    var outNodes := CleanNodeList(nodes.value);
    if outNodes.Failure? {
      return Failure(outNodes.error);
    }
    var rels := ListOr(d.relationships);
    if rels.Failure? {
      return Failure(rels.error);
    }
    var nodeIds := set n | n in outNodes.value :: n.id;
    var outRels := CleanRelList(rels.value, nodeIds);
    if outRels.Failure? {
      return Failure(outRels.error);
    }
    r := Success(FlatDoc(Given(outNodes.value), Given(outRels.value)));
  }

  /** The cleaned form of a kept node. */
  function CleanedNode(n: DocNode): DocNode
    requires !n.properties.Null?
  {
    DocNode(n.id, CleanLabels(n.labels), Given(CleanProps(n.properties).value))
  }

  /** The cleaned form of a kept relationship. */
  function CleanedRel(r: DocRel): DocRel
    requires !r.properties.Null?
  {
    DocRel(r.source, r.target, CleanType(r.relType), Given(CleanProps(r.properties).value))
  }

  /** One step of the node pass: the last record is appended, cleaned,
      exactly when it is kept. */
  lemma CleanNodesStep(ns: seq<DocNode>)
    requires ns != [] && CleanNodes(ns).Success?
    ensures CleanNodes(ns[..|ns| - 1]).Success?
    ensures KeepsNode(CleanNodes(ns[..|ns| - 1]).value, ns[|ns| - 1]) ==>
      !ns[|ns| - 1].properties.Null? &&
      CleanNodes(ns).value == CleanNodes(ns[..|ns| - 1]).value + [CleanedNode(ns[|ns| - 1])]
    ensures !KeepsNode(CleanNodes(ns[..|ns| - 1]).value, ns[|ns| - 1]) ==>
      CleanNodes(ns).value == CleanNodes(ns[..|ns| - 1]).value
  {
  }

  lemma CleanRelsStep(rs: seq<DocRel>, ids: set<Value>)
    requires rs != [] && CleanRels(rs, ids).Success?
    ensures CleanRels(rs[..|rs| - 1], ids).Success?
    ensures KeepsRel(ids, CleanRels(rs[..|rs| - 1], ids).value, rs[|rs| - 1]) ==>
      !rs[|rs| - 1].properties.Null? &&
      CleanRels(rs, ids).value == CleanRels(rs[..|rs| - 1], ids).value + [CleanedRel(rs[|rs| - 1])]
    ensures !KeepsRel(ids, CleanRels(rs[..|rs| - 1], ids).value, rs[|rs| - 1]) ==>
      CleanRels(rs, ids).value == CleanRels(rs[..|rs| - 1], ids).value
  {
  }

  /** The truthy identifiers among the input nodes. */
  function TruthyIds(ns: seq<DocNode>): set<Value> {
    set n | n in ns && Truthy(n.id) :: n.id
  }

  /** Kept node identifiers are truthy and pairwise distinct, and they are
      exactly the truthy identifiers of the input. */
  lemma {:induction false} CleanNodesIds(ns: seq<DocNode>)
    requires CleanNodes(ns).Success?
    ensures forall k :: 0 <= k < |CleanNodes(ns).value| ==> Truthy(CleanNodes(ns).value[k].id)
    ensures forall a, b :: 0 <= a < b < |CleanNodes(ns).value| ==>
      CleanNodes(ns).value[a].id != CleanNodes(ns).value[b].id
    ensures IdsOf(CleanNodes(ns).value) == TruthyIds(ns)
  {
    if ns != [] {
      var ns', n := ns[..|ns| - 1], ns[|ns| - 1];
      CleanNodesStep(ns);
      CleanNodesIds(ns');
      var prev, out := CleanNodes(ns').value, CleanNodes(ns).value;
      assert ns == ns' + [n];
      assert TruthyIds(ns) == TruthyIds(ns') + (if Truthy(n.id) then {n.id} else {});
      if KeepsNode(prev, n) {
        assert IdsOf(out) == IdsOf(prev) + {n.id};
        forall a | 0 <= a < |prev| ensures out[a].id != n.id {
          assert prev[a] in prev;
        }
      }
    }
  }

  /** Kept identifiers keep their relative input order. */
  lemma {:induction false} CleanNodesOrder(ns: seq<DocNode>)
    requires CleanNodes(ns).Success?
    ensures IsSubseq(IdSeq(CleanNodes(ns).value), IdSeq(ns))
  {
    if ns != [] {
      var ns', n := ns[..|ns| - 1], ns[|ns| - 1];
      CleanNodesStep(ns);
      CleanNodesOrder(ns');
      var prev, out := CleanNodes(ns').value, CleanNodes(ns).value;
      assert IdSeq(ns) == IdSeq(ns') + [n.id];
      if KeepsNode(prev, n) {
        assert IdSeq(out) == IdSeq(prev) + [n.id];
        IsSubseqExtend(IdSeq(prev), IdSeq(ns'), n.id);
      } else {
        IsSubseqWeaken(IdSeq(prev), IdSeq(ns'), n.id);
      }
    }
  }

  /** The first node of each identifier wins: a kept node is the cleaned
      form of the first input node with its identifier. */
  lemma {:induction false} CleanNodesFirstWins(ns: seq<DocNode>)
    requires CleanNodes(ns).Success?
    ensures forall o :: o in CleanNodes(ns).value ==> exists j ::
      && 0 <= j < |ns| && ns[j].id == o.id
      && (forall i :: 0 <= i < j ==> ns[i].id != o.id)
      && !ns[j].properties.Null? && o == CleanedNode(ns[j])
  {
    if ns != [] {
      var ns', n := ns[..|ns| - 1], ns[|ns| - 1];
      CleanNodesStep(ns);
      CleanNodesFirstWins(ns');
      CleanNodesIds(ns');
      var prev := CleanNodes(ns').value;
      forall o | o in CleanNodes(ns).value ensures exists j ::
        && 0 <= j < |ns| && ns[j].id == o.id
        && (forall i :: 0 <= i < j ==> ns[i].id != o.id)
        && !ns[j].properties.Null? && o == CleanedNode(ns[j])
      {
        if o in prev {
          var j :| && 0 <= j < |ns'| && ns'[j].id == o.id
                   && (forall i :: 0 <= i < j ==> ns'[i].id != o.id)
                   && !ns'[j].properties.Null? && o == CleanedNode(ns'[j]);
          assert ns[j] == ns'[j];
          assert forall i :: 0 <= i < j ==> ns[i] == ns'[i];
        } else {
          assert o == CleanedNode(n) && KeepsNode(prev, n);
          forall i | 0 <= i < |ns| - 1 ensures ns[i].id != o.id {
            assert ns[i] == ns'[i] && ns'[i] in ns';
          }
        }
      }
    }
  }

  /** Every kept relationship joins two distinct kept nodes, no two kept
      relationships share a `(source, target, type)` triple, and every
      input relationship that joins two distinct kept nodes has its triple
      kept. */
  lemma {:induction false} CleanRelsShape(rs: seq<DocRel>, ids: set<Value>)
    requires CleanRels(rs, ids).Success?
    ensures forall x :: x in CleanRels(rs, ids).value ==> x.source in ids && x.target in ids && x.source != x.target
    ensures forall a, b :: 0 <= a < b < |CleanRels(rs, ids).value| ==>
      KeyOf(CleanRels(rs, ids).value[a]) != KeyOf(CleanRels(rs, ids).value[b])
    ensures forall x :: x in rs && x.source in ids && x.target in ids && x.source != x.target ==>
      KeyOf(x) in KeysOf(CleanRels(rs, ids).value)
  {
    if rs != [] {
      var rs', x := rs[..|rs| - 1], rs[|rs| - 1];
      CleanRelsStep(rs, ids);
      CleanRelsShape(rs', ids);
      var prev, out := CleanRels(rs', ids).value, CleanRels(rs, ids).value;
      assert rs == rs' + [x];
      if KeepsRel(ids, prev, x) {
        assert KeyOf(CleanedRel(x)) == KeyOf(x);
        assert KeysOf(out) == KeysOf(prev) + {KeyOf(x)};
        forall a | 0 <= a < |prev| ensures KeyOf(out[a]) != KeyOf(x) {
          assert prev[a] in prev;
        }
      }
    }
  }

  /** Kept triples keep their relative input order. */
  lemma {:induction false} CleanRelsOrder(rs: seq<DocRel>, ids: set<Value>)
    requires CleanRels(rs, ids).Success?
    ensures IsSubseq(KeySeq(CleanRels(rs, ids).value), KeySeq(rs))
  {
    if rs != [] {
      var rs', x := rs[..|rs| - 1], rs[|rs| - 1];
      CleanRelsStep(rs, ids);
      CleanRelsOrder(rs', ids);
      var prev, out := CleanRels(rs', ids).value, CleanRels(rs, ids).value;
      assert KeySeq(rs) == KeySeq(rs') + [KeyOf(x)];
      if KeepsRel(ids, prev, x) {
        assert KeyOf(CleanedRel(x)) == KeyOf(x);
        assert KeySeq(out) == KeySeq(prev) + [KeyOf(x)];
        IsSubseqExtend(KeySeq(prev), KeySeq(rs'), KeyOf(x));
      } else {
        IsSubseqWeaken(KeySeq(prev), KeySeq(rs'), KeyOf(x));
      }
    }
  }

  /** A node list that is already clean passes unchanged. */
  lemma {:induction false} CleanNodesFixpoint(out: seq<DocNode>)
    requires forall k :: 0 <= k < |out| ==> Truthy(out[k].id)
    requires forall a, b :: 0 <= a < b < |out| ==> out[a].id != out[b].id
    requires forall k :: 0 <= k < |out| ==>
      !out[k].labels.Absent? && out[k].properties.Given? && Normalize(out[k].properties.value) == out[k].properties.value
    ensures CleanNodes(out) == Success(out)
  {
    if out != [] {
      var out' := out[..|out| - 1];
      CleanNodesFixpoint(out');
      var n := out[|out| - 1];
      assert n.id !in IdsOf(out') by {
        forall o | o in out' ensures o.id != n.id {
          var a :| 0 <= a < |out'| && out'[a] == o;
        }
      }
      assert KeepsNode(out', n);
      assert CleanProps(n.properties) == Success(n.properties.value);
      assert DocNode(n.id, CleanLabels(n.labels), Given(n.properties.value)) == n;
      assert out' + [n] == out;
    }
  }

  /** A relationship list that is already clean passes unchanged. */
  lemma {:induction false} CleanRelsFixpoint(out: seq<DocRel>, ids: set<Value>)
    requires forall x :: x in out ==> x.source in ids && x.target in ids && x.source != x.target
    requires forall a, b :: 0 <= a < b < |out| ==> KeyOf(out[a]) != KeyOf(out[b])
    requires forall k :: 0 <= k < |out| ==>
      !out[k].relType.Absent? && out[k].properties.Given? && Normalize(out[k].properties.value) == out[k].properties.value
    ensures CleanRels(out, ids) == Success(out)
  {
    if out != [] {
      var out' := out[..|out| - 1];
      CleanRelsFixpoint(out', ids);
      var x := out[|out| - 1];
      assert KeyOf(x) !in KeysOf(out') by {
        forall y | y in out' ensures KeyOf(y) != KeyOf(x) {
          var a :| 0 <= a < |out'| && out'[a] == y;
        }
      }
      assert KeepsRel(ids, out', x);
      assert CleanProps(x.properties) == Success(x.properties.value);
      assert DocRel(x.source, x.target, CleanType(x.relType), Given(x.properties.value)) == x;
      assert out' + [x] == out;
    }
  }

  lemma NormalizeIdempotent(p: Props)
    ensures Normalize(Normalize(p)) == Normalize(p)
  {
  }

  /** What the cleaner emits is clean: properties normalised, labels and
      types never missing. */
  lemma {:induction false} CleanNodesOutputShape(ns: seq<DocNode>)
    requires CleanNodes(ns).Success?
    ensures forall o :: o in CleanNodes(ns).value ==>
      !o.labels.Absent? && o.properties.Given? && Normalize(o.properties.value) == o.properties.value
  {
    if ns != [] {
      CleanNodesOutputShape(ns[..|ns| - 1]);
      var p := ns[|ns| - 1].properties;
      if p.Given? {
        NormalizeIdempotent(p.value);
      }
    }
  }

  lemma {:induction false} CleanRelsOutputShape(rs: seq<DocRel>, ids: set<Value>)
    requires CleanRels(rs, ids).Success?
    ensures forall o :: o in CleanRels(rs, ids).value ==>
      !o.relType.Absent? && o.properties.Given? && Normalize(o.properties.value) == o.properties.value
  {
    if rs != [] {
      CleanRelsOutputShape(rs[..|rs| - 1], ids);
      var p := rs[|rs| - 1].properties;
      if p.Given? {
        NormalizeIdempotent(p.value);
      }
    }
  }

  /** Cleaning is idempotent: cleaning a cleaned document returns it
      unchanged. */
  lemma CleanDocIdempotent(d: FlatDoc)
    requires CleanDoc(d).Success?
    ensures CleanDoc(CleanDoc(d).value) == CleanDoc(d)
  {
    var nodes := CleanNodes(ListOr(d.nodes).value).value;
    var rels := CleanRels(ListOr(d.relationships).value, IdsOf(nodes)).value;
    CleanNodesIds(ListOr(d.nodes).value);
    CleanNodesOutputShape(ListOr(d.nodes).value);
    CleanNodesFixpoint(nodes);
    CleanRelsShape(ListOr(d.relationships).value, IdsOf(nodes));
    CleanRelsOutputShape(ListOr(d.relationships).value, IdsOf(nodes));
    CleanRelsFixpoint(rels, IdsOf(nodes));
  }
}

# Knowledge-graph interchange core, modelled in Dafny

This project models the interchange core of a knowledge-graph manager. The
manager keeps machining-feature graphs in a property-graph store: Structure,
Face and Repository nodes, and `RELATIONSHIP`, `HAS_FACE` and
`HAS_STRUCTURE` relationships. The core has four parts:

- **Importers.** A flat JSON-style import (`import_data`) and its cleaning
  transform (`clean_import_data`). A hierarchical XML import
  (`import_from_xml` and `_import_standard_feature_structure`) rebuilds
  Repository → Structure → Face → Edge.
- **Exporters.** A flat export (`export_data`), a label-selective export with
  `HAS_FACE` closure (`selective_export`), and three XML writers
  (`export_to_xml`, `selective_export_xml`, `_generate_xml_exact_format`).
- **Snapshot cache** (`DataLoader`). It keeps two lists, `nodes` and
  `rels`. It is refilled from the store by `reload_db`, and it categorises
  labels into keyword buckets.
- **Managers.** The node and relationship managers create, update and
  delete store elements and patch the cache to match.

## How the model is organised

- **`Graph`** (graph.dfy). Property values, nodes and relationships.
  - Python truthiness and `str()`.
  - Property normalisation, which drops `""` and `None`.
  - Sanitising relationship types, which strips backticks and both kinds of
    quote.
  - `MintId`, the store's identifier minting, proved injective.
- **`Store`** (store.dfy). The property-graph store as a class
  `GraphStore`.
  - Nodes and relationships are kept in creation order, which is also scan
    order.
  - A counter mints fresh identifiers.
  - Property maps are written as Neo4j's `CREATE ... $props` and `SET`
    write them: a `None` value is not stored (`Graph.Stored`).
  - The store stands for a remote database, so the queries and writes the
    managers and exporters issue may raise. A raising call changes nothing
    in the store; the caller re-raises it as `Failure(StoreFailed)` and
    leaves the cache as it was. A node or relationship creation may also
    go through without handing back an identifier.
  - What each Cypher query returns is a function over the store's
    contents: label lookup, `HAS_FACE` closure, and the face-pair query of
    the XML exports. A method per query runs it and may raise instead.
- **`DataLoading`** (data_loader.dfy). The `DataLoader` class, whose
  `nodes` and `rels` fields are the cache.
- **`Labels`** (labels.dfy). Python string ordering, `sorted()` of a label
  set, and first-match keyword bucketing.
- **`NodeManagement`** and **`RelationshipManagement`**. The managers, as
  methods over a `DataLoader` and its store.
- **`FlatImport`**, **`CleanImport`** and **`Export`**. The flat
  interchange documents.
  - `Field<T>` distinguishes a missing key, a `null` value and a given
    value. The source's `.get(k, d)` and `.get(k) or d` treat `null`
    differently, so the model needs all three.
- **`Xml`**, **`XmlImport`** and **`XmlExport`**. The XML interchange.
  - Documents are already-parsed element trees: tag, attribute map and
    children.
  - `Find` and `FindAll` mirror ElementTree's lookup of direct children.
- **`Seqs`** and **`Wrappers`**. Sequence helpers, and `Option`/`Result`.

Every operation that raises in the source returns `Failure(message)` in the
model, with the source's message where the source writes one. The
exceptions are the store calls listed under "Left out", which the model
treats as never raising.

## Model

| member | source | states |
|---|---|---|
| `Graph.Normalize` | KG_Manage/import_manager.py:40 | keeps exactly the keys whose value is neither `""` nor `None`, each with its value unchanged |
| `Graph.Stored` | KG_Manage/node_manager.py:22 | what a `SET` writes: exactly the keys whose value is not `None`, each with its value unchanged |
| `Graph.StoredWithoutNull` | KG_Manage/import_manager.py:293-294 | a property map without `None` values is stored as given |
| `CleanImport.NormalizeIdempotent` | KG_Manage/import_manager.py:147 | normalising a normalised property map changes nothing |
| `Graph.SafeRelType` | KG_Manage/import_manager.py:99 | a character is in the sanitised type iff it is in the input and is not a backtick or quote |
| `Graph.SafeRelTypeIsStripQuotes` | KG_Manage/relationship_manager.py:45 | the three chained `replace` calls equal one pass that removes exactly the quoting characters and keeps the rest in order |
| `Graph.SafeRelTypeKeepsCleanNames` | KG_Manage/relationship_manager.py:45 | a type with no quoting character is passed through unchanged |
| `Graph.SafeRelTypeIdempotent` | KG_Manage/import_manager.py:99 | sanitising twice gives the same type as sanitising once |
| `Graph.DecimalInjective` | KG_Manage/import_manager.py:48-52 | distinct counters give distinct numerals, so minted identifiers never collide |
| `Graph.MintIdInjective` | KG_Manage/import_manager.py:48-52 | two minted identifiers are equal only if they come from the same counter value |
| `Store.NodeById` | KG_Manage/node_manager.py:113-118 | returns a stored node carrying the identifier, or nothing exactly when no node has it |
| `Store.WithLabel` | KG_Manage/data_loader.py:68-83 | `get_nodes_by_label`: a node is returned iff it is stored and carries the label |
| `Store.FacesLinkedTo` | KG_Manage/export_manager.py:60-78 | a node is returned iff it is a stored Face joined by `HAS_FACE`, in either direction, to one of the given nodes |
| `Store.RelsWithin` | KG_Manage/export_manager.py:81-97 | a relationship is returned iff it is stored and both of its endpoints are in the node set |
| `Store.PairRecord` | KG_Manage/export_manager.py:284-298 | the row of a pair has exactly the columns `n`, the relationship column and `f` |
| `Store.PairRows` | KG_Manage/export_manager.py:280-298 | the rows for a run of relationships correspond one to one, in order, to the relationships of the run the query matches, each tested against the whole store |
| `Store.PairRowsSnoc` | KG_Manage/export_manager.py:280-298 | one more relationship adds its own row when the query matches it and nothing otherwise |
| `Store.LateLinkSelection` | KG_Manage/export_manager.py:282-287 | proof step of the regression witness below: in its store the pair is matched and the path relationships are not |
| `Store.ScopedPairSeesLaterLinks` | KG_Manage/export_manager.py:282-298 | regression witness for one concrete store: the scoped query returns the row of a pair whose `HAS_STRUCTURE`/`HAS_FACE` path was stored after it |
| `Store.FacePairRecords` | KG_Manage/export_manager.py:280-298 | one row per relationship that is a Face→Face `RELATIONSHIP` of the label and, when scoped, whose source face lies in the repository by a path anywhere in the store; rows in store order, each holding that pair's face and relationship properties under exactly the columns `n`, the relationship column and `f` |
| `Store.GraphStore.CountNode` | KG_Manage/relationship_manager.py:26-36 | the count of nodes with an identifier is 1 when such a node exists and 0 otherwise |
| `Store.GraphStore.ScanNodes` | KG_Manage/data_loader.py:25-34 | the node scan yields a prefix of the stored nodes, and all of them unless it raises |
| `Store.GraphStore.ScanRels` | KG_Manage/data_loader.py:37-52 | the relationship scan yields a prefix of the stored relationships, and all of them unless it raises |
| `Store.GraphStore.FreshAfterMint` | KG_Manage/import_manager.py:48-52 | every identifier minted later differs from the next one to be minted |
| `Store.GraphStore.CreateNode` | KG_Manage/node_manager.py:21-28 | on success appends exactly one node with a fresh identifier, the given labels, and the given properties without their `None` values, and leaves the relationships alone; a raising query hands back no identifier, and with no identifier nothing changes |
| `Store.GraphStore.CreateRel` | KG_Manage/relationship_manager.py:48-66 | creates only between two existing nodes; on success appends exactly one relationship with a fresh identifier, the given type, and the given properties without their `None` values; the nodes are untouched |
| `Store.GraphStore.DetachDelete` | KG_Manage/node_manager.py:92-96 | when it goes through, removes the node and every relationship touching it and keeps the rest in order; when it raises, nothing changes |
| `Store.GraphStore.DeleteRel` | KG_Manage/relationship_manager.py:111-114 | when it goes through, removes the relationships with the identifier, keeps the rest in order, and leaves the nodes alone; when it raises, nothing changes |
| `Store.GraphStore.WriteNode` | KG_Manage/node_manager.py:56-70 | when it goes through, exactly the nodes with the identifier get the write and everything else stays in place; when it raises, nothing changes |
| `Store.GraphStore.QueryWithLabel` | KG_Manage/export_manager.py:49-57 | unless it raises, the rows are the stored nodes carrying the label; raising yields no rows |
| `Store.GraphStore.QueryFacesLinkedTo` | KG_Manage/export_manager.py:60-78 | unless it raises, the rows are the Faces linked to the nodes; raising yields no rows |
| `Store.GraphStore.QueryRelsWithin` | KG_Manage/export_manager.py:81-97 | unless it raises, the rows are the relationships inside the node set; raising yields no rows |
| `Store.GraphStore.QueryFacePairs` | KG_Manage/export_manager.py:280-298 | unless it raises, the rows are the face-pair rows of the label; raising yields no rows |
| `Store.Unlabel` | KG_Manage/node_manager.py:52-57 | `REMOVE n:l, ...` leaves exactly the labels not removed, and removing none leaves the labels as they were |
| `Store.AddLabelTo` | KG_Manage/node_manager.py:66-70 | `SET n:label` adds the label once and keeps a label list free of repeats |
| `Store.AddLabels` | KG_Manage/node_manager.py:66-70 | setting labels in turn leaves the old labels and the new ones, without repeats when there were none |
| `Store.ApplyWrite` | KG_Manage/node_manager.py:56-70 | each write keeps the identifier; a removal keeps the properties and drops exactly the removed labels, a property write replaces only the properties, by the given ones without their `None` values, a label write keeps the properties and adds the label |
| `Store.Written` | KG_Manage/node_manager.py:56-70 | every node with the identifier gets the write, every other node stays in its place |
| `Store.WrittenKeepsIds` | KG_Manage/node_manager.py:56-70 | a write keeps the set of identifiers and their distinctness |
| `Store.FilterKeepsDistinctNodes` | KG_Manage/node_manager.py:99-101 | deleting a node keeps the node identifiers pairwise distinct |
| `Store.FilterKeepsDistinctRels` | KG_Manage/relationship_manager.py:117 | filtering relationships keeps their identifiers pairwise distinct |
| `DataLoading.DataLoader.constructor` | KG_Manage/data_loader.py:10-13 | a new loader holds the given store and an empty cache |
| `DataLoading.DataLoader.ReloadDb` | KG_Manage/data_loader.py:15-59 | with no store, returns false and leaves the cache; otherwise the cache becomes a prefix of the scan; on success it is exactly the scan in order, with missing property maps as `{}` |
| `DataLoading.ScanMirrorsStore` | KG_Manage/data_loader.py:21-55 | a full scan, turned back into cache records, gives the store's contents |
| `DataLoading.GraphDataAfterReload` | KG_Manage/data_loader.py:61-66 | after a successful reload, `get_graph_data` returns the store's nodes and relationships |
| `DataLoading.DataLoader.GetRelationshipsForStructure` | KG_Manage/data_loader.py:104-127 | no face ids gives `[]` without a query; otherwise it returns exactly the stored `RELATIONSHIP`s between two Faces of the list; with no store it is an error |
| `DataLoading.Categorized` | KG_Manage/data_loader.py:139-176 | the result has exactly the six bucket names, and each bucket lists, sorted, exactly the labels of its category |
| `DataLoading.DataLoader.GetAvailableLabels` | KG_Manage/data_loader.py:129-180 | with no store, `{}`; otherwise `{}` on error or a categorisation of all stored labels |
| `DataLoading.DataLoader.GetStructuresByRepository` | KG_Manage/data_loader.py:245-297 | with no store, `{}`; otherwise `{}` on error or a categorisation of the labels of the repository's structures |
| `DataLoading.CategoryNamesDistinct` | KG_Manage/data_loader.py:146-153 | the six bucket names are pairwise distinct |
| `Labels.LexLessIrreflexive` | KG_Manage/data_loader.py:162 | no label sorts before itself |
| `Labels.LexLessTransitive` | KG_Manage/data_loader.py:162 | string order is transitive |
| `Labels.LexLessTotal` | KG_Manage/data_loader.py:162 | any two different labels are ordered one way or the other |
| `Labels.LeastExists` | KG_Manage/data_loader.py:162 | every non-empty label set has a least element |
| `Labels.SortLabels` | KG_Manage/data_loader.py:162 | `sorted(set)` is strictly ascending and holds exactly the labels of the set |
| `Labels.CategoryOf` | KG_Manage/data_loader.py:156-174 | a label's bucket is one of the five keyword buckets or Other |
| `Labels.FirstMatch` | KG_Manage/data_loader.py:156-174 | the chosen bucket's keywords match the label and no earlier bucket's do; Other only when none match |
| `Labels.Bucket` | KG_Manage/data_loader.py:156-174 | a label is in the bucket iff it is in the list and its category is that bucket |
| `Labels.Categorize` | KG_Manage/data_loader.py:156-176 | the loop builds the six buckets, each holding exactly its category's labels in list order |
| `Labels.BucketSorted` | KG_Manage/data_loader.py:162 | a bucket drawn from a sorted list is sorted |
| `Labels.CategorizePartitions` | KG_Manage/data_loader.py:156-176 | every label lands in exactly one bucket, the one of its category, and every bucket is sorted |
| `Labels.CategoryFirstMatchWins` | KG_Manage/data_loader.py:274-292 | a label goes to a keyword bucket only when it contains one of its keywords and no keyword of an earlier bucket |
| `NodeManagement.CreateNode` | KG_Manage/node_manager.py:14-42 | with no store, an error; on success exactly one node with a fresh identifier is appended to store and cache, the store copy without the `None` values and the cached record with the properties as given; a raising query re-raises and a missing identifier raises "no result returned", both with store and cache unchanged; the store's relationships and the cached relationships never change |
| `NodeManagement.FirstIndex` | KG_Manage/node_manager.py:73-77 | the index of the first cached node with the identifier, or the length when none has it |
| `NodeManagement.UpdateFirstChangesFirstMatchOnly` | KG_Manage/node_manager.py:73-77 | only the first matching cache entry is replaced, its identifier is kept, and with no match the cache is unchanged |
| `NodeManagement.UpdatedLabelsSet` | KG_Manage/node_manager.py:51-70 | when the labels were read, exactly the new labels remain, without repeats; when reading them failed, the old labels stay beside the new ones |
| `NodeManagement.ClearAndSet` | KG_Manage/node_manager.py:51-63 | removes the labels read, only when there are any, then replaces the properties of every node with the identifier by the given ones without their `None` values; nothing else changes |
| `NodeManagement.SetLabels` | KG_Manage/node_manager.py:66-70 | sets each new label in turn on every node with the identifier; nothing else changes |
| `NodeManagement.UpdateNode` | KG_Manage/node_manager.py:44-84 | with no store, an error; the labels it read are the node's or `[]`; a raising write re-raises with the cache unchanged; on success `True`, every store node with the identifier has the old labels minus those read plus the new ones and exactly the new properties without their `None` values, the cache is updated at the first match only, and the relationships are untouched |
| `NodeManagement.DeleteNode` | KG_Manage/node_manager.py:86-108 | with no store, an error; a raising delete re-raises with store and cache unchanged; on success the node and every relationship touching it leave store and cache, and the rest keeps its order |
| `NodeManagement.DeleteNodeEffect` | KG_Manage/node_manager.py:99-101 | after deletion no cached node has the identifier and no relationship touches it; every other element stays, in order |
| `NodeManagement.GetNodeLabels` | KG_Manage/node_manager.py:110-120 | the labels of the stored node, or `[]` when there is no store, no such node, or the query raises |
| `NodeManagement.Title` | KG_Manage/node_manager.py:124-127 | a truthy `name`, else a truthy `english_name`, else the first label, else `"Node"`, each case stated outright |
| `NodeManagement.NodeDisplayFull` | KG_Manage/node_manager.py:122-127 | the display is the title followed by ` [id]` |
| `RelationshipManagement.CreateRel` | KG_Manage/relationship_manager.py:15-83 | a missing source or target raises its own error first; on success the store gets the sanitised type and the properties without their `None` values, and the cache gets the original type and the properties as given, each appended once; every failure is one of the four errors it raises and changes no relationship; store and cache nodes are untouched |
| `RelationshipManagement.DeleteRel` | KG_Manage/relationship_manager.py:105-124 | a raising delete re-raises with store and cache unchanged; on success every relationship with the identifier leaves store and cache, and the rest keeps its order |
| `RelationshipManagement.DeleteRelEffect` | KG_Manage/relationship_manager.py:117 | after deletion no cached relationship has the identifier, and every other one stays, in order |
| `RelationshipManagement.CreateRelErrorsDiffer` | KG_Manage/relationship_manager.py:85-103 | no error `create_rel` raises is the store failure, so an update can tell which half failed |
| `RelationshipManagement.UpdateRel` | KG_Manage/relationship_manager.py:85-103 | a raising delete re-raises with store and cache unchanged; a failing create leaves the old relationship deleted from both; on success the old identifier leaves both store and cache, and exactly one new relationship with a fresh identifier is appended to each (sanitised type and `None`-free properties in the store, as given in the cache); the store nodes are untouched |
| `FlatImport.ListOr` | KG_Manage/import_manager.py:31-32 | a missing list is `[]`, a given list is itself, and a `null` list fails |
| `FlatImport.IdMapStep` | KG_Manage/import_manager.py:48-52 | each created node updates `id_map` so that each document id maps to the node created for its last occurrence |
| `FlatImport.WinsAtKept` | KG_Manage/import_manager.py:48-52 | a node created for another document id leaves the node `id_map` keeps for a key unchanged |
| `FlatImport.AppendedAreFresh` | KG_Manage/import_manager.py:43-52 | nodes appended after the old ones carry identifiers not in the old store |
| `FlatImport.ImportNodes` | KG_Manage/import_manager.py:34-61 | each created node comes from one document node, in order, with defaulted labels and normalised properties and a fresh identifier; `id_map` keeps the last creation per document id |
| `FlatImport.ImportPropsStored` | KG_Manage/import_manager.py:40 | normalised properties hold no `None`, so the store keeps them as given |
| `FlatImport.ImportRels` | KG_Manage/import_manager.py:66-118 | created plus skipped equals the record count; every created relationship joins two different remapped nodes with the sanitised type and normalised properties |
| `FlatImport.NewRelsJoinNewNodes` | KG_Manage/import_manager.py:82-108 | every relationship the loop creates joins two different nodes that the node loop created, under a type with no quoting character |
| `FlatImport.ImportData` | KG_Manage/import_manager.py:18-131 | with no store, an error; a `null` list raises the `len()` error; on success `True`, the logged counters equal what was added, and every new relationship joins two new, distinct nodes with a quote-free type |
| `CleanImport.CleanProps` | KG_Manage/import_manager.py:147 | a `null` property map fails; otherwise every kept value is neither `""` nor `None` |
| `CleanImport.CleanImportData` | KG_Manage/import_manager.py:133-183 | the method computes the cleaning transform: a null list field fails, else nodes then relationships are cleaned |
| `CleanImport.CleanNodeList` | KG_Manage/import_manager.py:141-155 | the node loop with its seen-id set computes the node pass of the cleaning transform, including its failure |
| `CleanImport.CleanRelList` | KG_Manage/import_manager.py:158-181 | the relationship loop with its seen-key set computes the relationship pass of the cleaning transform, including its failure |
| `CleanImport.CleanNodesFailurePersists` | KG_Manage/import_manager.py:141-155 | once a node record fails, the whole node pass fails with that error |
| `CleanImport.CleanRelsFailurePersists` | KG_Manage/import_manager.py:158-181 | once a relationship record fails, the whole relationship pass fails with that error |
| `CleanImport.CleanNodesStep` | KG_Manage/import_manager.py:141-155 | the node pass extends its previous result by the next record exactly when that record has a truthy, unseen id |
| `CleanImport.CleanRelsStep` | KG_Manage/import_manager.py:158-181 | the relationship pass extends its previous result exactly when the next record joins two kept, different nodes with an unseen key |
| `CleanImport.CleanNodesIds` | KG_Manage/import_manager.py:141-155 | output node ids are truthy and pairwise distinct, and they are exactly the truthy ids of the input |
| `CleanImport.CleanNodesOrder` | KG_Manage/import_manager.py:141-155 | output node ids appear in input order |
| `CleanImport.CleanNodesFirstWins` | KG_Manage/import_manager.py:141-155 | each output node is the cleaned first input node with its id |
| `CleanImport.CleanRelsShape` | KG_Manage/import_manager.py:158-181 | output relationships join two different kept nodes, have pairwise distinct keys, and every qualifying input key appears |
| `CleanImport.CleanRelsOrder` | KG_Manage/import_manager.py:158-181 | output relationship keys appear in input order |
| `CleanImport.CleanNodesFixpoint` | KG_Manage/import_manager.py:141-155 | a node list already clean comes back unchanged |
| `CleanImport.CleanRelsFixpoint` | KG_Manage/import_manager.py:158-181 | a relationship list already clean comes back unchanged |
| `CleanImport.CleanNodesOutputShape` | KG_Manage/import_manager.py:147-153 | every output node has given labels and normalised properties |
| `CleanImport.CleanRelsOutputShape` | KG_Manage/import_manager.py:172-179 | every output relationship has a given type and normalised properties |
| `CleanImport.CleanDocIdempotent` | KG_Manage/import_manager.py:133-183 | cleaning a cleaned document returns it unchanged |
| `Export.ExportData` | KG_Manage/export_manager.py:18-39 | one entry per cached node and per cached relationship, in cache order, stamped with the time given and the fixed version |
| `Export.ExportedNodesClean` | KG_Manage/import_manager.py:141-155 | the exported node records of a clean snapshot pass the node cleaner unchanged, and their ids are the stored ids |
| `Export.ExportedRelsClean` | KG_Manage/import_manager.py:158-181 | the exported relationship records of a clean snapshot pass the relationship cleaner unchanged |
| `Export.ExportCleansToItself` | KG_Manage/export_manager.py:18-39 | a clean snapshot, exported and read back by `clean_import_data`, comes back exactly as exported |
| `Export.CountNodes` | KG_Manage/export_manager.py:108-114 | the number of nodes satisfying the test, which never exceeds the list length |
| `Export.AppendNew` | KG_Manage/export_manager.py:69-78 | the `node_ids` guard appends only unseen nodes, keeps the earlier ones as a prefix, and keeps ids distinct and in step with the id set |
| `Export.LabelPass` | KG_Manage/export_manager.py:49-57 | unless a query raises, exports each stored node carrying a selected label exactly once |
| `Export.LabelledIdsStep` | KG_Manage/export_manager.py:49-57 | each label of the loop adds exactly the ids of the nodes carrying it |
| `Export.NothingFromNoIds` | KG_Manage/export_manager.py:60-97 | an empty node set has no linked faces and no relationships |
| `Export.SelectiveExport` | KG_Manage/export_manager.py:41-125 | with no store, an error; a raising query re-raises; on success the document is stamped `selective` with the time given, has no node twice, holds the labelled nodes plus their `HAS_FACE` faces and exactly the relationships inside that set, and its statistics count the lists |
| `Xml.Find` | KG_Manage/import_manager.py:269 | a direct child with the tag, or nothing exactly when no child has it |
| `Xml.FindIsFirst` | KG_Manage/import_manager.py:269 | the child found is the first with the tag: every child before it carries another tag |
| `Xml.FirstWithTag` | KG_Manage/import_manager.py:312-315 | an element of the list with the tag, or nothing exactly when none has it |
| `Xml.FirstWithTagIsFirst` | KG_Manage/import_manager.py:312-315 | the element found is the first of the list with the tag |
| `Xml.FindAll` | KG_Manage/import_manager.py:236 | exactly the direct children with the tag |
| `Xml.FindAllIsFilter` | KG_Manage/import_manager.py:236 | the children with the tag in document order, each as often as it occurs |
| `Xml.AllWithTag` | KG_Manage/import_manager.py:273 | exactly the elements of a list with the tag |
| `Xml.AllWithTagIsFilter` | KG_Manage/import_manager.py:273 | the elements with the tag in list order, each as often as it occurs: the order-preserving filter |
| `Xml.AllWithTagConcat` | KG_Manage/import_manager.py:273 | the tagged elements of two lists in a row are those of the first, then those of the second |
| `Xml.AllWithTagAll` | KG_Manage/import_manager.py:320-322 | a list whose elements all carry the tag is returned whole |
| `Xml.AllWithTagNone` | KG_Manage/import_manager.py:320-322 | a list with no element carrying the tag gives `[]` |
| `XmlImport.FaceProps` | KG_Manage/import_manager.py:277-290 | exactly the eight Face keys, every value a string |
| `XmlImport.FacePropsValues` | KG_Manage/import_manager.py:274-290 | each Face key holds its attribute or the attribute's default, an empty `InnerLoopSize` becomes `"0"`, the Structure's number and English name are copied, and the colour is black |
| `XmlImport.EdgeProps` | KG_Manage/import_manager.py:338-351 | exactly the eight edge keys, every value a string |
| `XmlImport.EdgePropsValues` | KG_Manage/import_manager.py:338-351 | each edge key holds its attribute or the attribute's default, an empty `SizeEdgeIntersection` becomes `"1"`, and the colour is black |
| `XmlImport.EdgeListOf` | KG_Manage/import_manager.py:312-315 | `EdgeList` when present, else `RelationShipList` |
| `XmlImport.EdgeElements` | KG_Manage/import_manager.py:312-322 | `Edge` children when there are any, else `RelationShip` children, else nothing |
| `XmlImport.FacesAddedStep` | KG_Manage/import_manager.py:293-299 | each created Face extends the face map and the new-face list together |
| `XmlImport.LinksAddedStep` | KG_Manage/import_manager.py:302-309 | a `HAS_FACE` link is added exactly when the Structure node exists |
| `XmlImport.ImportFace` | KG_Manage/import_manager.py:293-309 | a created Face has a fresh id, and is linked to its Structure when that Structure exists; a raising creation reports failure |
| `XmlImport.FaceMapOfLastWins` | KG_Manage/import_manager.py:269-298 | the face map's keys are exactly the face numbers of the faces created, and each maps to the last face created with that number |
| `XmlImport.FacesFromStep` | KG_Manage/import_manager.py:272-298 | a face made from a later element extends the element correspondence and sets its `FaceNo` in the face map |
| `XmlImport.FaceMapOfSnoc` | KG_Manage/import_manager.py:297-298 | one more created face sets its number to its node in the face map, overriding an earlier face of that number |
| `XmlImport.FacesFromNumbers` | KG_Manage/import_manager.py:273-277 | a face made from an element carries that element's `FaceNo`, `"0"` when absent |
| `XmlImport.FacesLoopStep` | KG_Manage/import_manager.py:272-309 | one created face, and its link when the Structure exists, extends the Face loop's account |
| `XmlImport.ImportFaceElement` | KG_Manage/import_manager.py:272-309 | one Face element keeps the Face loop's account: created faces, their elements in order, the face map, the links |
| `XmlImport.ImportFaces` | KG_Manage/import_manager.py:269-309 | the face map is new for the Structure and is exactly the map built from the faces created: each key the `FaceNo` of one of them, the last face of a number winning; face `k` is made, with its property map, from Face element `picked[k]`, in document order; when the Structure node exists, link `k` is a `HAS_FACE` from it to face `k`, and there are no links otherwise |
| `XmlImport.EdgeEnds` | KG_Manage/import_manager.py:325-330 | an edge resolves exactly when both its `SourceFaceNo` and `TargetFaceNo` are present and in `face_id_map`, and then to the two mapped faces |
| `XmlImport.CreatableEdges` | KG_Manage/import_manager.py:324-361 | exactly the edges, in document order, that resolve to two different faces |
| `XmlImport.MadeInOrderIndexed` | KG_Manage/import_manager.py:324-361 | the recursive correspondence is the indexed one: relationship `k` joins the faces of the `k`-th creatable edge, typed `RELATIONSHIP`, with its property map |
| `XmlImport.ImportEdge` | KG_Manage/import_manager.py:325-364 | one edge element becomes a `RELATIONSHIP` exactly when it is creatable, between its two faces and with its property map; otherwise the relationships are untouched; a store failure is reported |
| `XmlImport.ImportEdges` | KG_Manage/import_manager.py:324-364 | created plus skipped equals the Edge count; the created count is the number of creatable edges; the appended relationships are, one to one and in order, those made from the creatable edges, each joining two different Faces of this Structure's map |
| `XmlImport.MadeInOrderResolved` | KG_Manage/import_manager.py:328-361 | every relationship of the correspondence is a `RELATIONSHIP` between two different faces that some edge names |
| `XmlImport.MadeInOrderStep` | KG_Manage/import_manager.py:338-361 | a creatable edge extends the correspondence by the relationship made from it |
| `XmlImport.MadeInOrderSkip` | KG_Manage/import_manager.py:328-364 | an edge that is not creatable leaves the correspondence as it was |
| `XmlImport.CountTypeConcat` | KG_Manage/import_manager.py:361 | counting by type distributes over concatenation |
| `XmlImport.CountTypeAllOrNone` | KG_Manage/import_manager.py:361 | a list all of one type counts in full; a list with none of it counts zero |
| `XmlImport.GrownTrans` | KG_Manage/import_manager.py:213-214 | growth counters add up across consecutive steps |
| `XmlImport.StructureLabels` | KG_Manage/import_manager.py:242 | a Structure gets one label: its non-empty English name, else `Structure` |
| `XmlImport.FacesNumbered` | KG_Manage/import_manager.py:274-298 | every entry of the face map names a stored Face whose `face_no` is the entry's key |
| `XmlImport.FaceNumberedCreatable` | KG_Manage/import_manager.py:297-335 | with a face map whose entries name stored Faces by `face_no`, an edge is creatable exactly when both face numbers are in the map and differ |
| `XmlImport.FaceIdMapInFaces` | KG_Manage/import_manager.py:270-298 | the face map points only at Faces created under the current Structure, never at older nodes |
| `XmlImport.ImportStructureNode` | KG_Manage/import_manager.py:237-266 | the store gains exactly the Structure node, with its labels and properties, or nothing when the store returned no id; on success there is one `HAS_STRUCTURE` link from the Repository to the Structure exactly when both exist, and none otherwise; a raising creation reports failure |
| `XmlImport.StructureNode` | KG_Manage/import_manager.py:242-252 | at most one node, and it carries the identifier the store returned |
| `XmlImport.LinksThenEdges` | KG_Manage/import_manager.py:254-364 | when only the edges are `RELATIONSHIP`s, they are counted, found and filtered as exactly the edges |
| `XmlImport.EdgesFiltered` | KG_Manage/import_manager.py:254-364 | the `RELATIONSHIP`s among links followed by edges are the edges |
| `XmlImport.StructureEdgesCounted` | KG_Manage/import_manager.py:254-364 | only the Edge loop adds `RELATIONSHIP`s, so their count and sequence are what that loop created |
| `XmlImport.ResolvedEdgesJoin` | KG_Manage/import_manager.py:325-361 | a relationship resolved through the face map joins two faces the map names |
| `XmlImport.StructurePhasesImported` | KG_Manage/import_manager.py:236-364 | the Structure node phase, the Face loop and the Edge loop together give what one Structure's import promises: the hierarchy appended and the counts |
| `XmlImport.StructurePhasesCounted` | KG_Manage/import_manager.py:236-364 | the three phases give the Structure's counters, its face map over its own new Faces, and its `RELATIONSHIP`s made in order from the creatable edges |
| `XmlImport.StructureHierarchyAppended` | KG_Manage/import_manager.py:250-361 | the three phases append, in order, the structure node and then the Faces to the nodes; to the relationships they append the `HAS_STRUCTURE` link, then the `HAS_FACE` links, then the `RELATIONSHIP`s |
| `XmlImport.FaceLinksTyped` | KG_Manage/import_manager.py:302-309 | every link the Face loop adds is a `HAS_FACE` |
| `XmlImport.StructureAppended` | KG_Manage/import_manager.py:254-361 | three consecutive phases leave the relationships as the old ones followed by what each phase appended |
| `XmlImport.ImportFacesAndEdges` | KG_Manage/import_manager.py:269-364 | the Face loop and then the Edge loop: faces, face map and `HAS_FACE` links as the Face loop promises, then the `RELATIONSHIP`s and the skipped count as the Edge loop promises |
| `XmlImport.ImportStructure` | KG_Manage/import_manager.py:236-364 | on success the store gains exactly the Structure's hierarchy: to the nodes, the structure node (when the store gave an id) and then its Faces; to the relationships, the `HAS_STRUCTURE` link (exactly when the Repository and the Structure both exist), one `HAS_FACE` from the structure node to each Face, then the `RELATIONSHIP`s made in order from the edges its final face map makes creatable, with the others skipped; that map names Faces of this Structure by their `face_no`, is exactly the map built from the faces created, and each face is made from one Face element, in document order; the counters equal what was added |
| `XmlImport.TotalEdgesStep` | KG_Manage/import_manager.py:236 | the total Edge count grows by each Structure's Edges |
| `XmlImport.ScopeStep` | KG_Manage/import_manager.py:270 | after one more Structure, every new `RELATIONSHIP` still joins Faces of one Structure |
| `XmlImport.ScopeFreshStep` | KG_Manage/import_manager.py:270 | Faces of each Structure are new nodes, distinct from those of earlier Structures |
| `XmlImport.Extend` | KG_Manage/import_manager.py:270 | the Faces of the latest Structure are tagged with its position and earlier tags are kept |
| `XmlImport.StructuresDoneStep` | KG_Manage/import_manager.py:236-364 | the structure loop keeps its invariant over one more Structure |
| `XmlImport.AllMadeInOrderCount` | KG_Manage/import_manager.py:236-364 | every edge element of every Structure is either made or skipped |
| `XmlImport.AllMadeInOrderStep` | KG_Manage/import_manager.py:236-364 | one more Structure appends its ordered relationships to the correspondence |
| `XmlImport.TotalSkippedStep` | KG_Manage/import_manager.py:334-363 | the skipped total grows by the non-creatable edges of one more Structure |
| `XmlImport.FaceNumberedGrown` | KG_Manage/import_manager.py:236-364 | a numbered face map stays numbered as the store grows |
| `XmlImport.EdgesSplit` | KG_Manage/import_manager.py:236-364 | the `RELATIONSHIP`s appended over two steps are those of the first step followed by those of the second |
| `XmlImport.EdgesMappedStep` | KG_Manage/import_manager.py:236-364 | the ordered correspondence over all Structures survives one more Structure |
| `XmlImport.ScopeMappedStep` | KG_Manage/import_manager.py:270 | each Structure's face map points at Faces the scope places at that Structure |
| `XmlImport.FacesNumberedStep` | KG_Manage/import_manager.py:236-364 | all face maps so far stay numbered after one more Structure |
| `XmlImport.StructuresFacedStep` | KG_Manage/import_manager.py:236-309 | the faces and face map of one more Structure extend the per-Structure account of faces |
| `XmlImport.StructuresAppendedStep` | KG_Manage/import_manager.py:236-364 | one more Structure's hierarchy extends the store's account as the old store followed by each Structure's hierarchy, in document order |
| `XmlImport.HierarchiesStep` | KG_Manage/import_manager.py:236-364 | the hierarchies of the earlier Structures and that of one more Structure are the hierarchies of all of them |
| `XmlImport.StructuresLoopStep` | KG_Manage/import_manager.py:236-364 | one Structure imported as promised extends everything the Structure loop has done: counters, scope, face maps, faces and the appended hierarchies |
| `XmlImport.StructuresCountedStep` | KG_Manage/import_manager.py:236-364 | one Structure imported as promised extends the loop's counters, its scope and its ordered edge correspondence |
| `XmlImport.StructuresBuiltStep` | KG_Manage/import_manager.py:236-364 | one Structure imported as promised extends the loop's account of faces and of the hierarchies appended |
| `XmlImport.ImportNextStructure` | KG_Manage/import_manager.py:236-364 | importing one more Structure extends the loop's whole account by that Structure, or reports failure |
| `XmlImport.StructuresMappedStep` | KG_Manage/import_manager.py:236-364 | the per-Structure account of the loop holds over one more Structure |
| `XmlImport.ImportStructures` | KG_Manage/import_manager.py:236-364 | the store becomes the old store followed by each Structure's hierarchy in document order: its node, its Faces, its `HAS_STRUCTURE` link to the Repository when both exist, a `HAS_FACE` from the structure node to each Face, its `RELATIONSHIP`s; counters equal growth, Edges are created or skipped once each, and edges never cross Structures; Structure by Structure, with its face map, the `RELATIONSHIP`s are made in order from the creatable edges and the rest are counted as skipped; each face map is the one built from the faces created from that Structure's Face elements, in document order |
| `XmlImport.ImportStandardFeatureStructure` | KG_Manage/import_manager.py:211-379 | a raising creation aborts the import with the cache unchanged; on success the store becomes the old store, then the Repository node (labelled `Repository`, with its name, type and timestamp) when a non-empty name was given and the store returned an id, then each Structure's hierarchy in document order, linked to that Repository; counters equal growth, every Edge is created or skipped, no edge crosses Structures, and the reloaded cache is a prefix of the store; Structure by Structure, with its `face_id_map`, the `RELATIONSHIP`s are made in order from the creatable edges with their property maps, the skipped counter is the number of the other edges, and each map names that Structure's Faces by `face_no` and is the one built from the faces created from that Structure's Face elements, in document order |
| `XmlImport.ImportRepositoryAndStructures` | KG_Manage/import_manager.py:217-364 | the store part of the import: the Repository node when named and created, then every Structure's hierarchy under it, with the counters, face maps and scope as for the whole import |
| `XmlImport.RepositoryThenStructures` | KG_Manage/import_manager.py:219-364 | the Repository node followed by the Structure loop's account is the whole import's account, with the Repository counted as a created node |
| `XmlImport.ImportFromXml` | KG_Manage/import_manager.py:185-209 | no store, a parse error and an unknown root each give their own error; success only for `StandardFeatureStructure` |
| `XmlExport.EdgeInfoOf` | KG_Manage/export_manager.py:193-204 | an edge's source and target numbers are those of the row's `n` and `f` faces |
| `XmlExport.AddFace` | KG_Manage/export_manager.py:171-190 | adding a face tuple keeps the old ones and adds it only when missing |
| `XmlExport.GroupIndex` | KG_Manage/export_manager.py:158-168 | the position of the first group with the structure number, or the end when there is none |
| `XmlExport.NosOf` | KG_Manage/export_manager.py:158-168 | the structure numbers of the groups, in order |
| `XmlExport.GroupIndexNos` | KG_Manage/export_manager.py:158-168 | a group with the number exists iff the number is among the groups' numbers |
| `XmlExport.GroupedNos` | KG_Manage/export_manager.py:151-168 | the groups appear in first-seen order of the rows' structure numbers, default `"1"` |
| `XmlExport.FirstSeenNosSpec` | KG_Manage/export_manager.py:158-168 | first-seen numbers are distinct, cover every row and come only from rows |
| `XmlExport.GroupedShape` | KG_Manage/export_manager.py:158-168 | one group per distinct structure number, and every row's number has a group |
| `XmlExport.AddRowFaces` | KG_Manage/export_manager.py:171-190 | adding a row's two faces keeps the group's FaceList exact and free of repeats |
| `XmlExport.FacesOfOtherRow` | KG_Manage/export_manager.py:171-190 | a row of another structure does not change a group's faces |
| `XmlExport.PlaceFaces` | KG_Manage/export_manager.py:158-190 | placing one more row keeps every group's FaceList exact |
| `XmlExport.GroupedFaces` | KG_Manage/export_manager.py:171-190 | a group's FaceList has no repeated tuple and holds exactly the source and target faces of its rows |
| `XmlExport.EdgesOfAbsent` | KG_Manage/export_manager.py:193-204 | a number no row carries has no edges |
| `XmlExport.EdgesOfSnoc` | KG_Manage/export_manager.py:193-204 | one more row adds its edge to its own structure only |
| `XmlExport.PlaceEdges` | KG_Manage/export_manager.py:193-204 | placing one more row keeps every group's edge list exact |
| `XmlExport.GroupedEdges` | KG_Manage/export_manager.py:193-204 | a group's edges are one per row of its number, in row order |
| `XmlExport.EdgesOfFrom` | KG_Manage/export_manager.py:193-204 | every listed edge comes from a row of that structure |
| `XmlExport.ReadRow` | KG_Manage/export_manager.py:303-305 | a record reads iff it has `n`, the relationship column and `f`; otherwise the error names a missing column |
| `XmlExport.RowsOf` | KG_Manage/export_manager.py:302-305 | all records read iff each one does, and then the rows correspond one to one |
| `XmlExport.RowsOfFailureSticks` | KG_Manage/export_manager.py:302-305 | the first record that fails to read decides the outcome |
| `XmlExport.GroupRecords` | KG_Manage/export_manager.py:300-317 | the grouping loop fails on the first unreadable record, else yields the grouping of the rows |
| `XmlExport.Blank` | KG_Manage/export_manager.py:220 | `None` is written as `""` and a truthy value as its `str()`; the falsy rule writes every falsy value as `""`, the `is not None` rule writes every other value as its `str()` |
| `XmlExport.BlankingDiffers` | KG_Manage/export_manager.py:419 | the falsy rule and the `is not None` rule differ exactly on `0` and `False` |
| `XmlExport.EdgeFaceNos` | KG_Manage/export_manager.py:373-385 | a written edge carries its source and target face numbers |
| `XmlExport.RenderFaces` | KG_Manage/export_manager.py:213-221 | one `Face` element per face tuple, in order |
| `XmlExport.RenderEdges` | KG_Manage/export_manager.py:373-385 | one edge element per edge, in order |
| `XmlExport.RenderStructures` | KG_Manage/export_manager.py:357-385 | one `Structure` element per group, in order |
| `XmlExport.GenerateXmlExactFormat` | KG_Manage/export_manager.py:401-447 | one `Structure` per group under the root, in order; read back by the importer, Structure `i` carries group `i`'s number, name and English name, its Faces written with the `is not None` rule for `InnerLoopSize`, and its edges, as written |
| `XmlExport.ReadBack` | KG_Manage/export_manager.py:357-385 | the importer finds the written attributes and exactly the written Faces and Edges of a written Structure, in every element naming |
| `XmlExport.FaceNoWritten` | KG_Manage/export_manager.py:213-221 | every face tuple is written with its FaceNo |
| `XmlExport.EdgeNamesFaces` | KG_Manage/export_manager.py:193-221 | each edge's face numbers name faces in its own group's FaceList |
| `XmlExport.WrittenEdgesNameFaces` | KG_Manage/export_manager.py:207-235 | each written edge names faces written in the same Structure |
| `XmlExport.GroupEdgesNameFaces` | KG_Manage/export_manager.py:207-235 | a written Structure is closed: its edges resolve to its own faces |
| `XmlExport.GroupedEdgesNameFaces` | KG_Manage/export_manager.py:151-235 | every Structure written for a label is closed |
| `XmlExport.TreeForFailureSticks` | KG_Manage/export_manager.py:280-305 | once a label's rows fail to read, the whole export fails with that error |
| `XmlExport.ExportLabels` | KG_Manage/export_manager.py:280-385 | the per-label loop builds the export tree, unless a query raises |
| `XmlExport.RowsOfPresent` | KG_Manage/export_manager.py:144-156 | rows read back from the column the query returns always read |
| `XmlExport.TreeForSucceeds` | KG_Manage/export_manager.py:143-168 | reading the column the query returns never fails, and gives one Structure per distinct number per label |
| `XmlExport.PairRecordsUnread` | KG_Manage/export_manager.py:293-304 | reading a column the query does not return succeeds exactly when the label has no face pair |
| `XmlExport.TreeForMissingColumn` | KG_Manage/export_manager.py:293-304 | reading a column the query does not return succeeds iff no label has a face pair, and then writes nothing |
| `XmlExport.TreeForEdgesNameFaces` | KG_Manage/export_manager.py:280-385 | every Structure of an export is closed |
| `XmlExport.TreeForNoRows` | KG_Manage/export_manager.py:277 | zero rows for every label gives a root with no Structure |
| `XmlExport.FlattenCategorization` | KG_Manage/export_manager.py:132-136 | flattening the label buckets lists exactly the store's labels |
| `XmlExport.FlattenOrdered` | KG_Manage/export_manager.py:132-136 | flattening the label buckets lists them bucket after bucket, ascending inside each bucket |
| `XmlExport.OrderedConcat` | KG_Manage/export_manager.py:132-136 | ordered labels of earlier buckets followed by a sorted bucket of a later category stay ordered |
| `XmlExport.FlattenDistinct` | KG_Manage/export_manager.py:132-136 | flattening the label buckets lists every label once |
| `XmlExport.ExportToXml` | KG_Manage/export_manager.py:125-245 | with no store, an error; a raising query re-raises; otherwise a root with one closed Structure per distinct number per label, over the selected labels, or with no selection over the buckets `get_available_labels` returned, flattened in category order, each label once and ascending inside its bucket (none when that query raised) |
| `XmlExport.Scope` | KG_Manage/export_manager.py:282 | the export is scoped iff a non-empty repository id is given |
| `XmlExport.SelectiveExportXmlAsWritten` | KG_Manage/export_manager.py:270-399 | as written: the scoped export succeeds unless a query raises; the unscoped one succeeds only when no label has a face pair, and then writes no Structure |
| `XmlExport.SelectiveExportXml` | KG_Manage/export_manager.py:270-399 | corrected: with a store, it fails only when a query raises, and otherwise writes one closed Structure per distinct number per label |

## Left out

- XML parsing and pretty-printing are not modelled. This covers
  `ET.fromstring`, `ET.tostring`, `minidom` and the `[23:]` slice of
  `prettify_xml`. Documents are element trees; a parse error is an input
  `Failure` carrying the parser's message.
- Export results are element trees, not text. Attribute order and
  indentation are not captured.
- `datetime.now()` is a parameter (`now`): the `created_at` of an XML
  Repository node, and the `exported_at` of the flat and selective exports
  (taken as its ISO text). Logging is not modelled; the counters
  `import_data` only logs are the ghost result `counts` of
  `FlatImport.ImportData`, which returns `True` like the source.
- The store is abstract: two sequences and a fresh-identifier counter. Its
  failure messages are collapsed into one constant (`StoreFailed`). What a
  refused write would have created is not modelled beyond "nothing was
  added".
- Some store calls are modelled as never raising. These are the two count
  queries of `create_rel` (`Store.GraphStore.CountNode`) and the query of
  `get_relationships_for_structure`
  (`DataLoading.DataLoader.GetRelationshipsForStructure`). The relationship
  `CREATE` (`Store.GraphStore.CreateRel`) has one outcome, "no identifier",
  for both a raise and an empty answer. The imports read that outcome as
  the raise, as they do for every create. `create_rel` reports it as
  "no result returned", the error for an empty answer.
- Cypher path multiplicity is not modelled. The face-pair query yields at
  most one row per relationship, in store order. Neo4j may return rows in
  another order; the model fixes store order.
- Python's `1 == True` equality of dictionary keys is not modelled. Values
  are `Str`, `Int`, `Bool` or `Null`, and distinct constructors differ.
  Floats, lists and nested maps as property values are not modelled.
- The `Neo4jGraphData` branch of `import_from_xml` is not modelled. It calls
  `_import_neo4j_graph_data`, which is not part of this model. That branch
  returns a fixed `Failure`.
- The first `selective_export_xml` definition is not modelled. The second
  definition overrides it, so it is dead code.
- `get_related_faces`, `debug_nodes` and `get_available_repositories` are
  not modelled. They are read-only queries outside the interchange core.
- The process-wide shared cache and concurrency are not modelled; requests
  are sequential.
- A missing record column raises `KeyError` in the source. The model
  reports it with the message `MissingColumn(c)`.
- `DataLoading.DataLoader.ReloadDb`: `reload_db` clears the cache and then
  appends row by row. A scan that raises midway therefore leaves a partial
  cache: a prefix of the scan, with no relationships unless every node was
  read. The model follows the code.
- `CleanImport.CleanProps`: the cleaning transform calls `.items()` on
  `properties`, so a record whose properties are `null` makes
  `clean_import_data` raise. The model returns `Failure` there rather than
  skipping the record.
- `FlatImport.ImportData`: it does not state which cache state follows a
  reload that raised midway. It states only that the cache is a prefix of
  the store, because `reload_db` swallows scan errors.
- `NodeManagement.UpdateNode`: a write that raises part-way leaves the
  store writes made before it in place. The contract says only that the
  node identifiers and the relationships are kept; the source promises
  nothing more there.

## Findings

| source | as written | input that shows it | evidently intended | confidence | as-written member | corrected member |
|---|---|---|---|---|---|---|
| KG_Manage/export_manager.py:296-304 | the unscoped face-pair query returns columns `n, r, f`, but every row is read as `record["rel"]` | `selective_export_xml(labels)` with no `repository_id`, where some label has one Face→Face `RELATIONSHIP`: the first row raises `KeyError` and the export fails | read the column the query returns (`r` unscoped, `rel` scoped), so the unscoped export writes one Structure per distinct number | not executed | `XmlExport.SelectiveExportXmlAsWritten` (with `XmlExport.TreeForMissingColumn`) | `XmlExport.SelectiveExportXml` |

# Dorian: a verified model

Dorian runs data science pipelines as DAGs. This project models the parts of it whose behaviour is decided by code that is
hard to see through, and proves what they are for. It is checked with `dafny verify dfyconfig.toml`.

* **Content-addressed elision** (`Values`, `TaskGraph`, `TopoOrder`, `MemoResolve`, `CacheKeys`, `Elision`, `KeywordPorts`,
  `CacheRuns`, `BuiltGraph`, `PipelineMeaning`, `RunReuse`).
  A task graph is walked in Kahn order, each operator gets a key, hits become constants and misses are stored after the run.
  Keys are injective constructors, so that a key denotes a value; operators are arbitrary functions (`Semantics`).
  `BuiltGraph` says what graph `build_dag_graph` and the prefixing of a run make of a pipeline. That graph computes the
  pipeline, it is well formed for the cache when the pipeline is well fed, and a second run finds what the first one stored.
* **Filters to SQL, and the update algebra** (`PyText`, `Json`, `FilterSql`, `FilterMeaning`, `FilterLaws`, `RegexOptions`,
  `Translator`, `PlaceholderOrder`, `DocUpdate`, `UpdateLaws`, `Upsert`, `InsertLaws`). The emitted tokens are parsed with the precedence of section 6.34 of
  ISO/IEC 9075-2:2003 (NOT over AND over OR) and evaluated in three-valued logic, with containment as in section 8.14.3 of the
  PostgreSQL manual.
* **DAG algorithms** (`SyntaxDag`, `TreeAddress`, `SubgraphMatch`). Numbering a syntax tree, extracting what is reachable, splitting and
  merging, and exhaustive sub-graph matching.
* **BK-trees** (`BKNodes`, `BKTree`, `FastDistance`, `PipelineBKTree`). Nodes on the heap refine a tree value, and a windowed
  search over it is compared with a linear scan.
* **LRU cache** (`LruCache`). A class against a plain map and a log of uses.
* **Protocols as state machines** (`Totals`, `EventBus`, `EventBusSafety`, `EventBusShutdown`, `EventBusOrder`, `RlGate`,
  `WarmUp`, `JobLifecycle`, `Subscriber`) and the scaler they use (`ElasticPool`). A step is what runs between two awaits; theorems are
  about every run, that is, every finite sequence of enabled steps from a start state. Fields named as history in a comment are
  not read by any step.
* `Wrappers` and `Sequences` hold the few notions that several modules share.

## Where the code and its documentation part

* Keys leave out which keyword an upstream operator is passed under. They are faithful for every meaning of the operators
  exactly when keyword ports are fed by Parameters (`Elision.KeysFaithfulIff`). `KeywordPorts.WrongHit` has two graphs with one
  key and two values, so that the table stored by one is a wrong hit in the other.
* Not every value comes back from Arrow as it went in. A series, a raw Arrow table, a frame with an index of its own, a matrix
  without columns, and a frame whose columns are named `_v` or all `_c*` change; the exact condition is
  `Values.RoundTripsIff`.
* An empty `$and`, `$or` or `$nor` list emits SQL that cannot be parsed (`FilterMeaning.TranslationMeans`).
* An upsert whose filter has overlapping paths inserts a document its own filter does not find, and one that looks for a null
  id inserts under another id (`Upsert.OverlappingPathsLoseAValue`, `Upsert.NullIdIsNotFoundAgain`). For updates clear of the
  filter's paths these are, with fields looked for under `_id`, all the filters that fail (`Upsert.UpsertSatisfiesIff`), and
  overlaps in the filter fail whatever the update does (`Upsert.MatchedIsApart`).
* The docstring of `_fast_distance` says Parameter values take part. `dag_json_to_nxgraph` never stores them
  (`FastDistance.ValuesDoNotCount`).
* The operator bound is said to be always at or below the distance. It is, against all faithful DAGs, exactly for DAGs whose
  operators show their names (`FastDistance.BoundIffFaithful`), and an operator without a name exceeds it
  (`FastDistance.UnnamedOperatorExceeds`).
* Even with a sound bound the pruned search can lose a match, exactly when an ancestor that the bound rules out has it at a
  label beyond bound + max (`PipelineBKTree.CompleteIffClear`, `PipelineBKTree.LostMatch`).
* Saving a pipeline again with another DAG leaves the first one in the tree (`WarmUp.StaleVersion`). A step keeps tree and table
  in agreement exactly when it writes no other version of an id in the tree and adds no outdated one (`WarmUp.AgreesIff`).
* Without covering delivery counts the threshold does not bound how often an entry is handled. From any start with a slot, a
  claimer and a threshold of 0 or more a run hands the first entry over any number of times, and from any other start no entry
  is ever handled twice (`JobLifecycle.UncoveredHasNoBound`).
* Scaling down acknowledges the entry a retired worker has, with handlers not run (`Subscriber.RetiredMidway`). Every
  acknowledged entry always has its handlers run exactly when there are none, the pool is pinned, or its queue is too short to
  reach the depth at which it grows (`Subscriber.RunsAllIff`).

## Model

| member | source | states |
|---|---|---|
| Values.RoundTripsIff | dorian/exec/intermediates_cache.py:623-676 | a value stored as an Arrow table is read back unchanged exactly when it is of a shape the two conversions keep |
| Values.ComesBackAs | dorian/exec/intermediates_cache.py:623-676 | what each kind of value comes back as after being stored, where that is not the value itself |
| TaskGraph.EvalUnique | dorian/exec/profile.py:288-299 | what a key evaluates to does not depend on the rank that shows the graph acyclic |
| TopoOrder.InDegrees | dorian/exec/intermediates_cache.py:723-730 | each key's in-degree counts its references to graph keys, repeats included |
| TopoOrder.Children | dorian/exec/intermediates_cache.py:733-740 | each key's child list names a user once per reference |
| TopoOrder.TellUsers | dorian/exec/intermediates_cache.py:744-747 | telling a key's users keeps the balance between owed references and in-degrees, and makes ready exactly those that reach zero |
| TopoOrder.NothingLeft | dorian/exec/intermediates_cache.py:741-747 | on an acyclic graph no key is left when nothing is ready |
| TopoOrder.AppendLeftover | dorian/exec/intermediates_cache.py:748-752 | the keys missing from the order are appended, each once |
| TopoOrder.TopoOrder | dorian/exec/intermediates_cache.py:718-752 | the result is always a permutation of the keys and, on acyclic graphs with repeated references allowed, puts every dependency before its users |
| MemoResolve.Memo.Resolve | dorian/exec/profile.py:288-299 | the memoised recursion returns the value of the key, keeps what is memoised, and fires no key twice |
| MemoResolve.Memo.ResolveAll | dorian/exec/profile.py:296 | arguments are resolved in order through the same memo |
| MemoResolve.RunGraph | dorian/exec/profile.py:301-306 | each wanted key gets the value the plain recursion gives it |
| MemoResolve.FireOne | dorian/pipeline/execution.py:567-588 | an entry whose dependencies have results fires to its value |
| MemoResolve.FireAlong | dorian/pipeline/execution.py:560-593 | firing along an order with dependencies first gives every key the value the recursion gives it |
| CacheKeys.ParamsAndSeedCheck | dorian/exec/intermediates_cache.py:687-715 | the loop collects the parameters wired to the node, and the seed is found exactly when a Parameter is wired to it |
| CacheKeys.LastBindingWins | dorian/exec/intermediates_cache.py:687-702 | looking a handle up gives what the last Parameter wired to it says |
| CacheKeys.NothingElseIsBound | dorian/exec/intermediates_cache.py:687-702 | a handle that no Parameter is wired to has no entry |
| CacheKeys.ParamsSorted | dorian/exec/intermediates_cache.py:113-120 | handles come in order, none twice |
| PyText.DigitsValueIsPlaceSum | dorian/exec/intermediates_cache.py:520-524 | the number read from digits is the sum of each digit times ten to the power of its place |
| PyText.DecimalIsUnique | dorian/exec/intermediates_cache.py:520-524 | a number has one decimal without leading zeros, and it is the one written |
| PyText.ParseIntIff | dorian/exec/intermediates_cache.py:520-524 | text is read as a number exactly when it is an optional sign and digits with that place sum |
| PyText.RPartitionAtLast | dorian/exec/intermediates_cache.py:520 | a string is cut at its last underscore, and not at all exactly when it has none |
| CacheKeys.SliceNameParses | dorian/exec/intermediates_cache.py:510-527 | the name `base_n` that a slot is given is read back as base and n, for every base and every n |
| CacheKeys.ParseSliceIff | dorian/exec/intermediates_cache.py:510-527 | a key is read as base and slot exactly when it is the base, an underscore and text without underscores that is read as the slot |
| CacheKeys.KeywordsAre | dorian/pipeline/operator_resolver.py:475-486 | the keywords of the Parameters are their handles that are no numerals, sorted, each once |
| CacheKeys.LeafKeys | dorian/exec/intermediates_cache.py:755-810 | a Parameter is keyed by name, type and value, a constant by its JSON or else its `repr`, and anything else by its `repr` |
| Elision.KeysFaithfulIff | dorian/exec/intermediates_cache.py:318-507 | over well-formed upstreams every key denotes what its operator computes, for all operator meanings, if and only if every keyword port of a keyed operator is fed by a Parameter |
| KeywordPorts.WrongHit | dorian/exec/intermediates_cache.py:467-496 | two well-formed graphs that differ in one keyword port give an operator one key and two values, and the table of one replaces the operator in the other |
| Elision.KeyDenotes | dorian/exec/intermediates_cache.py:374-478 | a keyed operator's key denotes the value of its graph key |
| Elision.DepDenotes | dorian/exec/intermediates_cache.py:437-463 | the key derived for a dependency, be it an operator, a slot, a Parameter or a constant, denotes the value of the dependency |
| Elision.KeyParams | dorian/exec/intermediates_cache.py:687-715 | the parameters in an operator's key are, under each handle, those of the last Parameter wired to it |
| Elision.UpstreamKeys | dorian/exec/intermediates_cache.py:436-466 | the upstream vector holds one key per string dependency, in order, none for slice indices |
| Elision.Visit | dorian/exec/intermediates_cache.py:374-498 | visiting one key registers, on any graph, the key that the keys so far determine, replaces the entry exactly on a hit, counts it as what happened, and over well-formed upstreams that key is the one the graph determines |
| Elision.ElideCachedNodes | dorian/exec/intermediates_cache.py:318-507 | on any graph every key is counted once, hits are the registered keys that are stored and misses the others, each stored key's entry is the table under it and every other entry is kept, the registered keys are those of the walk along the order, dependencies before users if the graph is acyclic, and over well-formed upstreams keys and entries are those the graph and the cache content determine |
| Elision.SlotUpstream | dorian/exec/intermediates_cache.py:447-454 | a user of `base_n` derives slot n of the key of base, whatever base and n |
| Elision.SlotHit | dorian/exec/intermediates_cache.py:387-404 | on any graph where `base_n` slices base at n, after the walk its entry is the table stored under slot n of the key of base, and its key is that slot's, exactly when such a table is stored; otherwise it is left as it was and without a key |
| Elision.KeysIgnoreTheCache | dorian/exec/intermediates_cache.py:374-498 | walks along one order with any two caches register the same keys wherever no key or dependency is a slice of a slice, except that a slice that only one has follows from the key of its parent |
| Elision.OperatorKeyIgnoresTheCache | dorian/exec/intermediates_cache.py:425-478 | so an operator has the same key, or none, whatever is cached |
| CacheRuns.StoreNodeOutputs | dorian/exec/intermediates_cache.py:548-616 | each finished output goes under its key, or its slots under their slot keys, puts may fail one by one, and the count is that of nodes with something stored |
| CacheRuns.StoreKeepsSound | dorian/exec/intermediates_cache.py:566-609 | storing outputs that are what their keys denote keeps every cached table the value its key denotes |
| CacheRuns.ElisionPreserves | dorian/exec/intermediates_cache.py:318-507 | with a sound cache the elided graph gives every key the value the original graph gives it |
| CacheRuns.RunsPreserve | dorian/exec/intermediates_cache.py:318-616 | over any sequence of runs, with evictions and failing puts between, the cache stays sound and every run computes what its un-elided graph computes |
| CacheRuns.SameKeyHits | dorian/exec/intermediates_cache.py:475-484 | an output stored by one run is a hit for any later graph that derives the same key |
| CacheRuns.SameSlotHits | dorian/exec/intermediates_cache.py:575-609 | a slot of a tuple stored by one run is a hit for the same slot of any later operator with the same key, and is the item the operator would have computed |
| CacheRuns.StoredCountIs | dorian/exec/intermediates_cache.py:566-616 | the count is the number of items with a finished output of which something was stored |
| BuiltGraph.ArgsUnique | dorian/pipeline/operator_resolver.py:462-486 | the wires fix a node's arguments and their order |
| BuiltGraph.LastKeywordWins | dorian/pipeline/operator_resolver.py:473-486 | of the wires to one keyword of a node the last is an argument and no other, and of those to a position every one |
| BuiltGraph.PositionalFirst | dorian/pipeline/operator_resolver.py:448-486 | before a positional argument stand only positional ones with a lower number, or with the same number and an earlier wire |
| PipelineMeaning.GraphComputesPipeline | dorian/pipeline/operator_resolver.py:397-528 | in the built and prefixed graph the value of a node is its callable's on what its wires carry, in the order of the arguments: the whole output of the source, or its item at the wire's port when the source has several outputs |
| BuiltGraph.BuiltIsWellFormed | dorian/pipeline/operator_resolver.py:397-528 | the graph of an acyclic pipeline is well formed for the cache under every prefix, if no node's id reads as a slot of another and operators that get a key are fed by such operators and by Parameters |
| BuiltGraph.PortsKnownIff | dorian/pipeline/operator_resolver.py:462-486 | keyword ports are known to the keys if and only if each keyword port of a keyed operator has a Parameter wired to it |
| RunReuse.KeyIgnoresPrefix | dorian/exec/intermediates_cache.py:318-366 | a keyed operator of a well-fed pipeline has the same key in all its runs on a data set, whatever their prefixes |
| RunReuse.SecondRunHits | dorian/pipeline/execution.py:959-975 | once a run of a well-fed pipeline whose keyword ports have Parameters has stored the single output of an operator, the operator is a hit in its next run on that data set, with the value it would have computed |
| Json.RebuildNests | backend/db/pg_docstore.py:288-300 | rebuilding a dotted path nests the value under the path's parts |
| Json.SplitDotted | backend/db/pg_docstore.py:376-406 | parts without dots, joined by dots, are split into those parts again |
| Json.HeadIsBeforeFirstDot | backend/db/pg_docstore.py:299 | the head of a path is what comes before its first dot |
| Json.ContainsItself | backend/db/pg_docstore.py:205 | containment is reflexive |
| Json.ContainsNested | backend/db/pg_docstore.py:191-205 | a document contains the rebuilt path exactly when the value at the path is there and contains the wanted value |
| Json.ContainsTransitive | backend/db/pg_docstore.py:205 | containment is transitive |
| FilterMeaning.TranslationMeans | backend/db/pg_docstore.py:169-285 | for every filter the emitted string parses if and only if no `$and`, `$or` or `$nor` list is empty, and then evaluates, with the collected arguments, to the filter's meaning |
| RegexOptions.RegexesEmitted | backend/db/pg_docstore.py:234-240 | the tokens of a field's operators hold one regular-expression predicate per `$regex`, in order, on the field's path and with its pattern, and each ignores case if and only if some `$options` of the same mapping, wherever it stands, has an i; without `$options` none does |
| RegexOptions.RegexesMeant | backend/db/pg_docstore.py:234-240 | a row satisfies a field's mapping only if its text matches every pattern, case ignored exactly as the mapping asks, and a mapping of patterns alone exactly then |
| FilterLaws.NumbersCompared | backend/db/pg_docstore.py:184-189 | a comparison of numbers selects as their order says |
| FilterLaws.TextsCompared | backend/db/pg_docstore.py:184-189 | text is compared as text, in the database's order |
| FilterLaws.MembersSelected | backend/db/pg_docstore.py:215-230 | `$in` selects the listed values, `$nin` those that are there and not listed, and everything when nothing is listed |
| FilterLaws.IdsSelected | backend/db/pg_docstore.py:244-267 | operators on the id compare it with the text of the given values |
| FilterLaws.MappingSelects | backend/db/pg_docstore.py:207-242 | a mapping selects what each of its operators selects |
| FilterLaws.LogicSelects | backend/db/pg_docstore.py:269-285 | `$and` selects when all do, `$or` when one does, and `$nor` when every one is false and none unknown |
| FilterLaws.ReadsObjects | backend/db/pg_docstore.py:142-166 | where a path leads through objects the database reads what Python reads |
| FilterLaws.ReadsArrays | backend/db/pg_docstore.py:142-166 | into arrays it goes by position, from the front or with a sign from the back |
| PlaceholderOrder.FilterInOrder | backend/db/pg_docstore.py:176-182 | placeholders run from the start index on, one per argument, left to right across all nesting |
| Translator.Translator.Param | backend/db/pg_docstore.py:176-182 | a parameter gets the next placeholder and is appended to the arguments |
| Translator.Translator.FieldOp | backend/db/pg_docstore.py:208-241 | one field operator appends the part and the arguments the specification emits |
| Translator.Translator.IdOp | backend/db/pg_docstore.py:244-267 | the same for the operators on the id |
| Translator.Translator.FieldClause | backend/db/pg_docstore.py:191-242 | the same for a whole field clause, containment shortcut included |
| Translator.Translator.Translate | backend/db/pg_docstore.py:269-285 | the translator, with its mutable counter and argument list, emits exactly the specified tokens and arguments, and raises exactly where the specification is undefined |
| DocUpdate.GetAfterSet | backend/db/pg_docstore.py:376-406 | after setting a path the value is there, whatever was in the way |
| DocUpdate.SetFrame | backend/db/pg_docstore.py:376-385 | setting a path leaves every diverging path alone |
| DocUpdate.GetAfterUnset | backend/db/pg_docstore.py:388-396 | after unsetting a path nothing is there |
| DocUpdate.UnsetFrame | backend/db/pg_docstore.py:388-396 | unsetting a path leaves every diverging path alone |
| DocUpdate.ApplyUpdate | backend/db/pg_docstore.py:320-373 | an update is its edits applied in order, or an exception where one of them raises |
| DocUpdate.UpdateFrame | backend/db/pg_docstore.py:320-373 | an update changes no path that all its edits diverge from |
| UpdateLaws.SetStores | backend/db/pg_docstore.py:329-331 | after an update the path of a `$set` entry holds its value, unless a later entry touches the path |
| UpdateLaws.ReplaceStores | backend/db/pg_docstore.py:370-372 | a key that is no operator leaves its payload under that name, dots and all |
| UpdateLaws.UnsetRemoves | backend/db/pg_docstore.py:332-334 | an `$unset` entry leaves nothing at its path |
| UpdateLaws.IncAdds | backend/db/pg_docstore.py:335-338 | an `$inc` entry leaves the number it found plus the amount, missing and null counting as 0 |
| UpdateLaws.PushAppends | backend/db/pg_docstore.py:339-350 | a `$push` entry leaves the items it found followed by the new one, or by those of `$each` |
| UpdateLaws.PullKeepsOthers | backend/db/pg_docstore.py:351-355 | a `$pull` entry leaves of a list exactly the items that are not the value, in their order, and anything else as it was |
| UpdateLaws.AddToSetAdds | backend/db/pg_docstore.py:356-363 | an `$addToSet` entry leaves a list as it was when it has the value, and otherwise with the value at its end, once |
| UpdateLaws.RaisesIff | backend/db/pg_docstore.py:328-372 | an update raises exactly when some entry, reached without an exception, refuses what it finds |
| Upsert.BuildRow | backend/db/pg_docstore.py:720-743 | the inserted row is seeded from the filter's equalities, then `$setOnInsert`, then the update |
| InsertLaws.SetInserted | backend/db/pg_docstore.py:738-744 | a `$set` value that no later entry touches is in the inserted row at its path |
| InsertLaws.SetOnInsertInserted | backend/db/pg_docstore.py:735-744 | a `$setOnInsert` value that no later one and no other entry touches is in the inserted row at its path |
| InsertLaws.SeededFromEqualities | backend/db/pg_docstore.py:725-734 | only equalities of the filter seed the row: operators on a field and `$and`, `$or`, `$nor` put nothing there |
| InsertLaws.NothingElseInserted | backend/db/pg_docstore.py:725-744 | a path that neither the equalities nor the update touches is not in the inserted row |
| Upsert.UpsertSatisfiesIff | backend/db/pg_docstore.py:720-747 | for updates clear of the filter's paths, the inserted document satisfies the filter, in meaning and as the emitted SQL, if and only if the filter's paths do not overlap, its id is not null and nothing else is looked for under the id |
| Upsert.MatchedIsApart | backend/db/pg_docstore.py:720-747 | whatever the update did, an inserted document that satisfies its filter has a filter without overlapping paths and with nothing under the id |
| Upsert.UpsertSatisfiesFilter | backend/db/pg_docstore.py:720-747 | when filter paths and update paths do not overlap and the id is not null, the inserted document satisfies the filter, in meaning and as the emitted SQL |
| Upsert.UpsertThenFind | backend/db/pg_docstore.py:695-747 | after an upsert that matched nothing and met no conflict, the same filter finds exactly the inserted document |
| Upsert.NothingOverwritten | backend/db/pg_docstore.py:739-746 | an insert leaves every row there was as it was, and a row whose id is taken is not inserted |
| Upsert.OverlappingPathsLoseAValue | backend/db/pg_docstore.py:721-731 | the filter {a: 1, a.b: 2} inserts a document it does not match |
| Upsert.NullIdIsNotFoundAgain | backend/db/pg_docstore.py:423-430 | the filter {_id: null} inserts under a generated id and does not match what it inserted |
| SyntaxDag.Number | dorian/dag.py:720-730 | the traversal numbers a subtree's nodes contiguously in preorder and appends its edges in that order |
| SyntaxDag.ToDag | dorian/dag.py:714-733 | the whole tree becomes its numbered nodes and edges |
| TreeAddress.NodesAreTheTrees | dorian/dag.py:714-733 | every id below the size of the tree is that of exactly one path of child indices, ids follow preorder, and at the id of a path stands the node there, its kind under kind and its text under text |
| TreeAddress.EdgesAreTheTrees | dorian/dag.py:714-733 | the edges are those from the id of a path to the id of each child of it, each once, in the order of the children's ids |
| SyntaxDag.GetSubgraph | dorian/dag.py:530-544 | extraction terminates on descending edges with the walked nodes and edges |
| SyntaxDag.SubgraphIsReachable | dorian/dag.py:530-544 | exactly the nodes reachable from the root, and exactly the edges between them that the DAG has, are extracted |
| SyntaxDag.EdgeRepeats | dorian/dag.py:530-544 | an edge of the extracted list comes as often as it is in the DAG times the number of paths by which the walk gets to its source |
| SyntaxDag.SortedAscends | dorian/dag.py:553-555 | sorting the children of node 0 is ascending and neither loses nor invents any |
| SyntaxDag.TargetsAre | dorian/dag.py:553-555 | the children of node 0 are the destinations of its edges, in edge order |
| SyntaxDag.SplitLineBased | dorian/dag.py:546-559 | one sub-DAG per child of node 0, in ascending order of their ids |
| SyntaxDag.Merge | dorian/dag.py:561-569 | nodes are united and edges concatenated in order |
| SyntaxDag.SplitMergeIdentity | dorian/dag.py:546-569 | for every tree, merging the split DAG gives the DAG without node 0 and its outgoing edges, edge order kept |
| SubgraphMatch.CountEdges | dorian/dag.py:686-692 | all pattern edges are counted exactly when the candidate preserves every one |
| SubgraphMatch.PoolInOrder | dorian/dag.py:667-672 | a pattern node's candidates are the matching nodes in their order |
| SubgraphMatch.ProductAt | dorian/dag.py:674-680 | the candidates come in the order of a product: the last pattern node's varies fastest |
| SubgraphMatch.Match | dorian/dag.py:654-700 | the result is the first candidate in product order that is injective, unprocessed and edge-preserving, or none |
| SubgraphMatch.MatchIff | dorian/dag.py:654-700 | a match is returned if and only if an embedding outside the processed ones exists, and it is one |
| SubgraphMatch.Enumerate | dorian/dag.py:654-700 | matching repeatedly while remembering enumerates every embedding exactly once, in product order, and stops |
| BKNodes.BKNode.Add | helpers/bktree.py:26-32 | adding on the heap refines inserting into the tree value, with a footprint that grows by fresh nodes only |
| BKNodes.InsertSearch | helpers/bktree.py:26-44 | adding a word adds its own result to exactly the searches that reach it, for any search and any distance |
| BKNodes.SearchIsHits | dorian/experiment/bktree.py:43-77 | a search returns, repeats included, exactly what the words it reaches yield |
| BKTree.MatchesAreReached | helpers/bktree.py:34-44 | under a pseudometric a word within reach lies in every window on its path, whatever the tree |
| BKTree.QueryNode | helpers/bktree.py:34-44 | the recursive query appends exactly the search's results |
| BKTree.BKTree.Add | helpers/bktree.py:6-11 | the tree stands for the words added so far |
| BKTree.BKTree.Query | helpers/bktree.py:13-18 | for any pseudometric the matches are exactly the added words within the distance, repeats included, each reported with its own distance |
| FastDistance.ToGraph | dorian/experiment/similarity.py:18-58 | the graph's signatures are those of the JSON nodes and its edges are counted one per link, edges to missing nodes included |
| FastDistance.Fast | dorian/experiment/similarity.py:105-129 | the approximate distance is the symmetric difference of signatures plus the difference in edge counts |
| FastDistance.SignaturesAre | dorian/experiment/similarity.py:37-45 | operators, Parameters and snippets sign with what they go by, their name, without one their text and without that their id, and no other node signs |
| FastDistance.DistanceIs | dorian/experiment/similarity.py:124-129 | the distance counts the signatures in one graph and not in both, and how many more links one has |
| FastDistance.DistanceIsPseudometric | dorian/experiment/similarity.py:105-129 | that distance is a pseudometric |
| FastDistance.ValuesDoNotCount | dorian/experiment/similarity.py:39-46 | DAGs that differ only in Parameter types and values are at distance 0 |
| FastDistance.ExtractOperatorNames | dorian/experiment/similarity.py:132-146 | the names extracted are those of operators with a non-empty name, one per operator and sorted |
| FastDistance.NamesExtracted | dorian/experiment/similarity.py:139-145 | a name is among those extracted exactly when it is not empty and an operator has it |
| FastDistance.BoundIffFaithful | dorian/experiment/bktree.py:80-88 | a DAG's operator bound is at or below its distance to every faithful DAG if and only if the DAG is faithful itself |
| FastDistance.UnnamedOperatorExceeds | dorian/experiment/similarity.py:141-145 | an operator with a text and no name makes the bound exceed the distance |
| PipelineBKTree.QueryNode | dorian/experiment/bktree.py:52-77 | the pruned query appends exactly the results of the search whose window is around the bound where the bound rules a node out |
| PipelineBKTree.ReachedIffClear | dorian/experiment/bktree.py:59-77 | under a sound bound a matching entry is reached exactly when no ruled-out ancestor has it at a label beyond bound + max |
| PipelineBKTree.SearchIsScanIff | dorian/experiment/bktree.py:52-77 | the search returns what a linear scan returns if and only if every match is found, and never anything else |
| PipelineBKTree.CompleteIffClear | dorian/experiment/bktree.py:67-77 | for a pseudometric and a bound below it, the search is complete if and only if every matching entry has a clear path |
| PipelineBKTree.CompleteWhenTight | dorian/experiment/bktree.py:59-69 | for any pseudometric the search is complete when the bound passes or equals the distance at every node that the search visits |
| PipelineBKTree.ApproximateMode | dorian/experiment/bktree.py:130-139 | in approximate mode with faithful DAGs the same condition is exact, with no assumption on the distance |
| PipelineBKTree.LostMatch | dorian/experiment/bktree.py:67-69 | an entry at distance 0 from the query that is never found |
| PipelineBKTree.SortIsStable | dorian/experiment/bktree.py:242-244 | sorting keeps the order of results at equal distance |
| PipelineBKTree.SortPermutes | dorian/experiment/bktree.py:242-244 | sorting neither loses nor invents results |
| PipelineBKTree.PipelineBKTree.Add | dorian/experiment/bktree.py:188-215 | a new id is added and a known one skipped; the size is the number of distinct ids |
| PipelineBKTree.FirstEntryStays | dorian/experiment/bktree.py:188-215 | of several DAGs added under an id the tree keeps the first, and it keeps it for good |
| PipelineBKTree.PipelineBKTree.Load | dorian/experiment/bktree.py:160-178 | building from rows adds each new id once, in order |
| PipelineBKTree.PipelineBKTree.Query | dorian/experiment/bktree.py:221-244 | results are sorted and stable, each is an added entry with its own distance, and they are those of the scan if and only if every match is found |
| PipelineBKTree.PipelineBKTree.FindNearest | dorian/experiment/bktree.py:246-254 | a prefix of the sorted results as a slice takes it, none of them farther than one left out |
| LruCache.MemoryLRUCache.Get | backend/cache.py:97-106 | a hit is what a plain map holds and becomes the most recent, a miss changes only its counter |
| LruCache.MemoryLRUCache.Put | backend/cache.py:110-127 | the old entry and then the shortest least-recent prefix that makes room go, the new entry comes last, and an oversize value empties the cache and is not stored |
| LruCache.MemoryLRUCache.Evict | backend/cache.py:118-120 | exactly the shortest prefix is dropped, and bytes never exceed the budget while anything is stored |
| LruCache.EvictsShortest | backend/cache.py:118-120 | no shorter prefix makes room |
| LruCache.SurvivesIff | backend/cache.py:110-127 | an entry survives a put exactly when it, all more recent entries and the new value fit together |
| LruCache.MemoryLRUCache.Invalidate | backend/cache.py:131-139 | the key is out of the cache and of the plain map, and the result says whether it was cached |
| LruCache.MemoryLRUCache.InvalidateByPath | backend/cache.py:141-153 | the path is forgotten and its content's entry with it |
| LruCache.MemoryLRUCache.RegisterPath | backend/cache.py:155-164 | a path that gets new content loses its old content's entry, any other registration removes nothing |
| LruCache.UseAtEnd | backend/cache.py:104-126 | moving the used key to the end keeps the store in order of last use |
| EventBus.Conservation | backend/events.py:364-446 | whatever items are made to weigh, a step changes the weight on the lanes, with workers and settled by exactly what it brings in |
| EventBusSafety.ExactlyOnePlace | backend/events.py:364-446 | in every reachable state an accepted item is queued, with a worker or settled, never two of these, and its done flag is set exactly when it is settled |
| EventBusSafety.BgEquation | backend/events.py:604-636 | bg enqueues are the items queued, held, run and left over plus the two drop counters, the hard overflow never fires and the lane keeps its bound |
| EventBusSafety.NewestSurvives | backend/events.py:604-636 | a bg item just emitted is at the tail of its lane |
| EventBusSafety.TaskDoneIsSafe | backend/events.py:412-446 | in every reachable state `task_done` is called only with a get still open |
| EventBusSafety.LanesKept | backend/events.py:364-446 | in every reachable state reserved workers have nothing to do with the bg lane, which holds no sentinel and keeps its bound |
| EventBusOrder.UsersInOrder | backend/events.py:387-446 | in every run the user items taken are the first of those emitted, in order, and the lane holds the rest |
| EventBusOrder.BgsInOrder | backend/events.py:387-446 | the bg lane is first in, first out in every run, drops and items put back included: what is dropped is the oldest |
| EventBusOrder.UsersBounded | backend/events.py:506-507 | the user lane never holds more than it is set up for |
| EventBusOrder.UserEquation | backend/events.py:716-718 | the user counter is in every reachable state the number of user items queued, held, run and left over |
| EventBusShutdown.EarlyItemsRan | backend/events.py:541-573 | when shutdown gets to draining, every user item queued before it began has been run |
| EventBusShutdown.DrainSettlesAll | backend/events.py:575-586 | after draining the done flag of every item ever accepted is set |
| EventBusShutdown.Progress | backend/events.py:541-578 | while the pool is stopping some step of its own is always enabled, so no worker waits for a sentinel that does not come |
| EventBusShutdown.ShutdownEnds | backend/events.py:541-589 | without further emissions a stopping pool takes a bounded number of steps and cannot stop before it is stopped |
| RlGate.ClampNeverFires | backend/queue.py:99-119 | the in-flight count is the number of holders in every reachable state, so the clamp at zero never acts |
| RlGate.AdmitsWithinLimit | backend/queue.py:106-112 | in every run a task is admitted only when the holders, itself included, are within the limit then in force |
| RlGate.NoLostWakeUp | backend/queue.py:99-119 | in every reachable state, while a task sleeps the holders and the woken but unchecked tasks fill the limit, so no wake-up is lost |
| RlGate.NeverAbovePeak | backend/queue.py:80-119 | holders never exceed the largest limit so far, across raises and lowerings |
| RlGate.SleepsOnlyWhenFull | backend/queue.py:106-119 | when no waiter is woken and unchecked, a task sleeps only because holders fill the limit |
| RlGate.OldestFirst | backend/queue.py:106-119 | sleeping tasks are woken in the order in which they went to sleep |
| RlGate.SleepsLast | backend/queue.py:106-112 | a task goes to sleep behind all others |
| RlGate.LimitIsLastSet | backend/queue.py:80-92 | the limit in force is always the one last set, and a negative one changes nothing |
| RlGate.EveryoneGetsThrough | backend/queue.py:99-119 | under a positive limit left alone a run is bounded and cannot stop before every task has been through |
| RlGate.ActiveIsExact | backend/queue.py:453-473 | a uid has an entry exactly while it has runs and the entry is their number |
| WarmUp.NeverLost | dorian/experiment/store.py:117-165 | in every interleaving an id this process committed is in the tree, on its way there or reported, unless the load failed |
| WarmUp.AtRest | dorian/experiment/store.py:308-342 | at rest after a successful load the tree holds exactly the fetched ids and ours, each once, but for reported failures, and its size is their number |
| WarmUp.FirstVersionStays | dorian/experiment/bktree.py:204-215 | an added version is in the tree exactly when its id was new or that version was there |
| WarmUp.AgreesIff | dorian/experiment/store.py:308-342 | a step of this or another process keeps the tree's DAGs those of the table if and only if it writes no other version of an id in the tree and adds no outdated one |
| WarmUp.SaveAgreesIff | dorian/experiment/store.py:308-342 | a whole save keeps them in agreement if and only if its id is new to the tree or there with that version |
| WarmUp.VersionsAgree | dorian/experiment/store.py:308-342 | if no id was committed with two versions, the tree's DAGs are the table's |
| WarmUp.StaleVersion | dorian/experiment/store.py:310-342 | a run in which the table has the second version and the tree the first |
| JobLifecycle.NoSilentAck | dorian/exec/claimer.py:124-151 | under any crashes an acknowledged entry entered `_handle_one` or has a dead-letter copy, and copies are made only above the threshold |
| JobLifecycle.CopyPrecedesAck | dorian/exec/claimer.py:131-142 | an entry never handled is acknowledged only after it was copied |
| JobLifecycle.BatchIsAcked | dorian/exec/claimer.py:124-151 | a consumer that goes through its batch, neither crashing nor cancelled and with its calls getting through, leaves no entry of it unacknowledged, whatever the others do |
| JobLifecycle.HandledAtMost | dorian/exec/worker.py:140-198 | when pending queries cover the claimed entries, an entry enters `_handle_one` at most max times, or once if max is less, and never more often than it was delivered |
| JobLifecycle.UncoveredHasNoBound | dorian/exec/claimer.py:175-211 | when they do not, then from a start some run hands an entry over at least n times for every n, if and only if there are a slot and a claimer and the threshold is not negative; otherwise no entry is handled twice |
| ElasticPool.BoundsOf | backend/eventbus_subscriber.py:101-119 | the decimal of n > 0 as override gives n and n, and so does every numeral for n; what is no positive numeral gives the default minimum and the larger of the defaults |
| ElasticPool.ElasticPool.Start | backend/eventbus_elastic.py:107-113 | starting spawns exactly the minimum, and starting again changes nothing |
| ElasticPool.ElasticPool.ScaleUp | backend/eventbus_elastic.py:191-205 | a worker is added exactly when the pool is below its maximum and the depth was at the threshold, at every tick, for the cooldown; workers and timer are then what one tick on values says |
| ElasticPool.ElasticPool.ScaleDown | backend/eventbus_elastic.py:208-225 | the youngest worker is retired exactly when the pool is above its minimum and the queue was empty, at every tick, for the cooldown; workers and timer are then what one tick on values says |
| ElasticPool.ElasticPool.Scale | backend/eventbus_elastic.py:172-225 | the size stays within its bounds and is the minimum plus ups minus downs; a pinned pool keeps its very workers |
| ElasticPool.ElasticPool.ScalerLoop | backend/eventbus_elastic.py:172-225 | over any run of ticks the pool goes as the scaler on values does, and a pinned pool keeps its very workers |
| ElasticPool.GrowsUnderLoad | backend/eventbus_elastic.py:191-205 | a depth that stays at the threshold for the cooldown makes a pool below its maximum grow |
| ElasticPool.ShrinksWhenUnused | backend/eventbus_elastic.py:208-225 | a queue that stays empty for the cooldown makes a pool above its minimum shrink |
| ElasticPool.OverriddenPool | backend/eventbus_subscriber.py:25-33 | a pool for a type overridden with n, started and ticked any number of times, has exactly n workers |
| Subscriber.AckedAtMostOnce | backend/eventbus_subscriber.py:318-457 | whatever is spawned and retired, an entry is acknowledged at most once and only off the queue |
| Subscriber.HandlersOfAcked | backend/eventbus_subscriber.py:415-457 | each handler of an acknowledged entry ran exactly once, or not at all exactly when the entry was cut short before it |
| Subscriber.PinnedPool | backend/eventbus_elastic.py:154-170 | a pool pinned to n, or with a queue too short for it to grow, has n workers forever and cuts nothing short |
| Subscriber.RunsAllIff | backend/eventbus_subscriber.py:415-457 | in every run every acknowledged entry has had each handler run exactly once, if and only if there are no handlers, the pool is pinned, or its queue is bounded below the depth at which it grows |
| Subscriber.StartsInOrder | backend/eventbus_subscriber.py:408-430 | entries start in the order they were queued, those of each lane in the order of its stream, whatever the number of workers |
| Subscriber.OneWorkerIsSerial | backend/eventbus_subscriber.py:415-457 | a type pinned to one worker handles its entries one after the other in that order, each lane in the order of its stream |
| Subscriber.RetiredMidway | backend/eventbus_elastic.py:165-170 | from every start of a pool that grows and has a handler, a run that grows it under load and acknowledges an entry with a handler not run |

## Left out

- SHA-256, float formatting, locale and regular expressions: keys are constructors, parameter strings are taken as canonical, a regular-expression match is an arbitrary predicate.
- Python's `int()` beyond signed ASCII digits, and equality of `True` with `1` in `$pull` and `$addToSet`.
- pyarrow and pandas beyond the two conversions; the `TypeError` branch of `elide_cached_nodes`, which string types never reach.
- RunsPreserve: meaning preservation is not claimed where upstreams are not well formed: a consumer of a Snippet or of a bypassed operator is keyed by the `repr` of its graph entry, and theorems ask that each dependency of a keyed operator is one the key accounts for. A slice of a slice is excluded for the same reason.
- BuiltIsWellFormed: output ports are numbers, where the source also takes names and none at all; the resolution of a node to its callable is not modelled, and the entries are told by a relation, not by the loop that builds them. Pipelines whose ids read as slots of one another are outside it, for there a node's key is taken for a slot.
- The override of a pool's size is the text after `strip()`.
- Environment variables, the knowledge base of seed parameters and the operators' behaviour are taken as fixed over the runs of one theorem.
- UpsertSatisfiesFilter: the condition is sufficient only where an update path overlaps a filter path: the update may write the very value the filter asks for. Overlaps within the filter, null ids and fields under the id are exact in `UpsertSatisfiesIff`.
- The operations of `DocUpdate` and `Upsert` are on values. The aliasing that the shallow copy in `_apply_update` leaves between the old and the new document is not modelled.
- The `language` of a syntax node and the `position` and `output` of its edges are constants of the source and not part of the model.
- Node ids of syntax trees are numbers where the source has their decimal strings.
- Cursor options, sorting and projection of the document store, indexes, transactions and the SQL text itself below the token level.
- Exact graph edit distance is an arbitrary distance, assumed to be a pseudometric where a theorem needs it.
- `refresh_bk_tree_from_db` and its watermark, KD-tree search and the readiness event.
- UserEquation: a producer that waits for room on the user lane has counted its item already, and `aemit_bg` counts and runs outside the pool what finds the lane full; in the model an item counts when it is queued.
- A producer blocked in `put` while the event bus drains; handlers' own failures, which settle an item like any other end.
- Cancellation of tasks in the RL gate, and of workers of the event bus.
- `_active_runs` as a global cap: it is counted only after the gate, so the code gives none.
- Redis, Postgres, asyncio queues and conditions are steps with their usual contracts; a batch is read or claimed entry by entry, which only adds interleavings. Which entries a pending query lists, given that its range comes from ids sorted as strings, is a parameter of the step.
- The protocols are state machines over values: module globals and fields such as `_bk_pending` or `_rl_inflight` are components of a state that each step replaces, not variables updated in place.
- Handlers of an event type are taken as fixed while entries are dispatched; what happens inside a cancelled handler is not modelled.
- A worker cancelled while it acknowledges: in the model a retired worker's entry is always acknowledged, but `_safe_xack` does not catch `CancelledError`, so that in the source the entry may stay pending when the cancellation lands there.
- The shadow forwarder, the authoritative and Go-handled registries, and the direct execution of events when no pool runs.
- The thread lock of the LRU cache: each method is one step. `stats` and size estimation are not modelled.
- Helper methods such as `VisitOperator`, `RegisterPath`'s use of `Invalidate`, `ScaleUp` and `ScaleDown` cut one loop body of the source into parts; the parts run in the source's order.

# NeuroKnotenpfad engine: a Dafny model of its in-memory core

This project models the in-memory core of the `neuro-node-path-engine` Rust crate and proves properties of it. That core is:

- the graph elements: nodes, clusters, neural channels, interfaces and bilingual lemma definitions;
- the hash-chained audit trail;
- the depth-bounded breadth-first path resolver and the cluster navigator;
- the query processor (keyword groups and entity words) and the code analyzer (four line-anchored declaration patterns);
- the repository indexer, the Knotenlexikon lemma store and the term translator;
- the dual-path and consensus validators.

There is one Dafny module per Rust file. Two files are shared:

- `common.dfy` holds `Option`, `Result`, the query context, and `Collect`, the walk over a hash container in an order the model leaves open.
- `text.dfy` holds the ASCII string operations: `contains`, `join`, `to_lowercase` and `split_whitespace`.

`path_walk.dfy` holds the specification of the resolver's walk, which is the concatenation of its breadth-first levels, and the lemmas about it.

How the Rust code maps to Dafny:

- A struct whose methods change fields in place is a Dafny `class`. Its methods carry `modifies` clauses. Fields that no operation rewrites are `const`.
- Builders that take `self` by value and return it (`with_hash`, `with_schemas`, `with_definitions` and so on) are methods that update the object and return it.
- A pure struct is a `datatype`: the query processor, code analyzer, path resolver and validators.
- Each loop of the source is a loop with invariants, proved against a function that specifies it.
- Where a loop walks a `HashMap` or `HashSet`, the order is a ghost output, and the contracts hold whatever that order is:
  - cohesion;
  - `search_by_name`;
  - the lemma-store searches;
  - `navigate` over the cluster map;
  - the consensus maximum.

Two behaviours of the code are easy to miss, and the model keeps both:

- A hash chain is normally checked by recomputing each entry's hash. `verify_integrity` does not do that. It only compares each entry's `previous_hash` with its predecessor's `hash`, and it never checks entry 0. `RewrittenEntryStaysLinked` and `FirstEntryUnchecked` state what this lets through.
- The translator's table is declared in `i18n/translator.rs` with a key of two strings, but every insert and lookup there uses a key of three: from, to and term. The model keys on the three strings, as the inserts and lookups do.

## Model

| member | source | states |
|---|---|---|
| CoreNode.Node.constructor | crates/neuro-node-path-engine/src/core/node.rs:41-59 | a new node keeps its name, type and source path, with depth 0, no parent, no children and an empty hash |
| CoreNode.Node.AddChild | crates/neuro-node-path-engine/src/core/node.rs:61-63 | the child set becomes the old set plus the id; no other field changes |
| CoreNode.Node.RemoveChild | crates/neuro-node-path-engine/src/core/node.rs:65-67 | the child set becomes the old set minus the id; an absent id changes nothing |
| CoreNode.Node.WithHash | crates/neuro-node-path-engine/src/core/node.rs:69-72 | only the hash is set, and the same node is handed back |
| CoreNode.Node.WithDepth | crates/neuro-node-path-engine/src/core/node.rs:74-77 | only the depth is set, and the same node is handed back |
| CoreNode.AddChildIdempotent | crates/neuro-node-path-engine/src/core/node.rs:61-63 | adding a child twice gives the same child set as adding it once |
| CoreNode.AddThenRemoveRestores | crates/neuro-node-path-engine/src/core/node.rs:61-67 | adding a fresh child and removing it restores the child set and leaves hash, depth and parent unchanged |
| CoreCluster.Cluster.constructor | crates/neuro-node-path-engine/src/core/cluster.rs:40-54 | a new cluster keeps its name and type, with no members, member count 0, cohesion 0 and the centroid at the origin |
| CoreCluster.Cluster.AddNode | crates/neuro-node-path-engine/src/core/cluster.rs:56-59 | members become the old set plus the id; the member count equals the number of members afterwards; re-adding changes nothing |
| CoreCluster.Cluster.RemoveNode | crates/neuro-node-path-engine/src/core/cluster.rs:61-64 | members become the old set minus the id; an absent id changes no member; the member count equals the number of members |
| CoreCluster.Cluster.ComputeCohesion | crates/neuro-node-path-engine/src/core/cluster.rs:66-91 | the score becomes `Cohesion`: 1.0 when at least two members are keys of the node map, 0.0 otherwise, including for an empty cluster |
| CoreCluster.RowDistances | crates/neuro-node-path-engine/src/core/cluster.rs:76-83 | the inner loop records only 1.0 distances, and some distance exists exactly when an earlier row or this row met a pair of known members |
| CoreCluster.CohesionMeaning | crates/neuro-node-path-engine/src/core/cluster.rs:66-91 | the score is 1.0 exactly when two different members are both keys of the node map; it is otherwise 0.0, and always 0.0 for no members |
| CoreCluster.PairsCount | crates/neuro-node-path-engine/src/core/cluster.rs:73-84 | over distinct ids, the nested loops meet a known pair exactly when at least two of the ids are known |
| CoreCluster.SumOnes | crates/neuro-node-path-engine/src/core/cluster.rs:86-90 | a list of 1.0 distances sums to its length, so their mean is 1.0 |
| CoreCluster.AddNodeIdempotent | crates/neuro-node-path-engine/src/core/cluster.rs:56-59 | adding a member twice gives the same members as adding it once, keeps the member count right and leaves cohesion alone |
| CoreChannel.Clamp | crates/neuro-node-path-engine/src/core/channel.rs:66-68 | the clamped weight lies in [0, 1], equals the input when the input is in range, and is the nearer bound otherwise |
| CoreChannel.ClampIdempotent | crates/neuro-node-path-engine/src/core/channel.rs:66-68 | clamping twice is clamping once |
| CoreChannel.ClampMonotone | crates/neuro-node-path-engine/src/core/channel.rs:66-68 | clamping preserves order |
| CoreChannel.Attenuates | crates/neuro-node-path-engine/src/core/channel.rs:63 | a weight in [0, 1] scales a non-negative signal into [0, signal] |
| CoreChannel.NeuralChannel.constructor | crates/neuro-node-path-engine/src/core/channel.rs:36-56 | a new channel is active, with weight 1.0, bandwidth 100, latency 1 ms and no signals counted |
| CoreChannel.NeuralChannel.TransmitSignal | crates/neuro-node-path-engine/src/core/channel.rs:58-64 | inactive: returns 0 and counts nothing; active: counts one signal and returns strength × weight; weight and activity never change |
| CoreChannel.NeuralChannel.SetWeight | crates/neuro-node-path-engine/src/core/channel.rs:66-68 | the weight becomes the clamped value, so it is in [0, 1], and a value already in range is stored as given |
| CoreChannel.NeuralChannel.Deactivate | crates/neuro-node-path-engine/src/core/channel.rs:70-72 | only the activity flag changes, to false |
| CoreChannel.NeuralChannel.Reactivate | crates/neuro-node-path-engine/src/core/channel.rs:74-76 | only the activity flag changes, to true |
| CoreChannel.DeactivatedChannelIsSilent | crates/neuro-node-path-engine/src/core/channel.rs:58-76 | deactivating twice silences the channel, reactivating twice restores it, and over the sequence exactly one signal is counted |
| CoreInterface.Interface.constructor | crates/neuro-node-path-engine/src/core/interface.rs:42-56 | a new interface keeps its name and type, with no methods, `{}` schemas and version 1.0.0 |
| CoreInterface.Interface.AddMethod | crates/neuro-node-path-engine/src/core/interface.rs:58-60 | the signature is appended, the length grows by one and earlier methods are unchanged |
| CoreInterface.Interface.WithSchemas | crates/neuro-node-path-engine/src/core/interface.rs:62-70 | only the two schemas are replaced, and the same interface is handed back |
| CoreInterface.AddedMethodsKeepOrder | crates/neuro-node-path-engine/src/core/interface.rs:58-60 | two added methods follow the old ones in the order they were added, and the schemas are untouched |
| LemmaDefinitions.LemmaDefinition.constructor | crates/neuro-node-path-engine/src/i18n/definitions.rs:15-25 | a new definition keeps its id and both terms, with empty definitions, no category and no examples |
| LemmaDefinitions.LemmaDefinition.WithDefinitions | crates/neuro-node-path-engine/src/i18n/definitions.rs:27-31 | only the two definitions are set |
| LemmaDefinitions.LemmaDefinition.WithCategory | crates/neuro-node-path-engine/src/i18n/definitions.rs:33-36 | only the category is set |
| LemmaDefinitions.LemmaDefinition.AddExample | crates/neuro-node-path-engine/src/i18n/definitions.rs:38-40 | the example is appended after the earlier ones |
| LemmaDefinitions.BuildersCommute | crates/neuro-node-path-engine/src/i18n/definitions.rs:27-36 | setting definitions then category, or category then definitions, gives equal field values |
| EngineAuditTrail.AuditTrail.constructor | crates/neuro-node-path-engine/src/engine/audit_trail.rs:21-25 | a new trail is empty and forms a valid chain |
| EngineAuditTrail.AuditTrail.LogQuery | crates/neuro-node-path-engine/src/engine/audit_trail.rs:27-59 | exactly one entry is appended and earlier entries are unchanged; its previous hash is the former last hash, or none; linkage and chain validity are preserved; the result is Ok with every hash in order, ending with the new one |
| EngineAuditTrail.AuditTrail.VerifyIntegrity | crates/neuro-node-path-engine/src/engine/audit_trail.rs:61-68 | true exactly when every entry after the first names its predecessor's hash; always true on a trail built by `log_query` |
| EngineAuditTrail.AuditTrail.GetEntries | crates/neuro-node-path-engine/src/engine/audit_trail.rs:70-72 | the stored entries in append order; on a trail built by `log_query` they form a linked chain whose first entry has no predecessor |
| EngineAuditTrail.Hashes | crates/neuro-node-path-engine/src/engine/audit_trail.rs:57 | the audit path has one hash per entry, in append order |
| EngineAuditTrail.LogPreservesLinked | crates/neuro-node-path-engine/src/engine/audit_trail.rs:33-68 | appending the entry `log_query` builds keeps a trail that passes `verify_integrity` passing |
| EngineAuditTrail.LogPreservesChainValid | crates/neuro-node-path-engine/src/engine/audit_trail.rs:33-55 | the same for the full chain: links, no predecessor for entry 0, and every hash the digest of its entry's data |
| EngineAuditTrail.ReplayChainValid | crates/neuro-node-path-engine/src/engine/audit_trail.rs:21-59 | any sequence of `log_query` calls on a new trail leaves one entry per call, in a valid, linked chain |
| EngineAuditTrail.HashIgnoresQuery | crates/neuro-node-path-engine/src/engine/audit_trail.rs:35-44 | the entry hash depends on timestamp and paths only, never on the query text |
| EngineAuditTrail.CommaJoinedIdsCollide | crates/neuro-node-path-engine/src/engine/audit_trail.rs:35-40 | the node path ["a,b"] and the node path ["a", "b"] hash alike, because ids are comma-joined before hashing |
| EngineAuditTrail.RewrittenEntryStaysLinked | crates/neuro-node-path-engine/src/engine/audit_trail.rs:61-68 | rewriting an entry's query or node path keeps a linked trail linked, because hashes are not recomputed |
| EngineAuditTrail.FirstEntryUnchecked | crates/neuro-node-path-engine/src/engine/audit_trail.rs:61-68 | replacing entry 0 by any entry with the same hash keeps the trail linked |
| EnginePathResolver.StartQueue | crates/neuro-node-path-engine/src/engine/path_resolver.rs:17-24 | the queue starts with the ids of the nodes whose name occurs in the query, in input order, at depth 0 |
| EnginePathResolver.EnqueueChildren | crates/neuro-node-path-engine/src/engine/path_resolver.rs:33-37 | the ids of the nodes whose parent is the dequeued id are appended, in input order, one level deeper |
| EnginePathResolver.PathResolver.Resolve | crates/neuro-node-path-engine/src/engine/path_resolver.rs:13-41 | the result is Ok and holds the ids of breadth-first levels 0 to `max_depth`, in order; the walk terminates |
| EnginePathResolver.NewResolver | crates/neuro-node-path-engine/src/engine/path_resolver.rs:9-11 | the default depth bound is 32 |
| EnginePathResolver.ResolvedIdsAreNodeIds | crates/neuro-node-path-engine/src/engine/path_resolver.rs:17-37 | every emitted id is the id of one of the input nodes |
| PathWalk.StartIdsMembers | crates/neuro-node-path-engine/src/engine/path_resolver.rs:17-20 | an id is a start id exactly when some node has it and its name occurs in the query |
| PathWalk.ChildIdsMembers | crates/neuro-node-path-engine/src/engine/path_resolver.rs:33-37 | an id is enqueued as a child of p exactly when some node has it and p as its parent |
| PathWalk.ChildrenOfMembers | crates/neuro-node-path-engine/src/engine/path_resolver.rs:26-37 | the next level holds exactly the children of the ids of the current level |
| PathWalk.StartState | crates/neuro-node-path-engine/src/engine/path_resolver.rs:22-24 | the start queue is the walk's state at depth 0 with nothing emitted |
| PathWalk.Emit | crates/neuro-node-path-engine/src/engine/path_resolver.rs:31-37 | emitting the next id of a level and enqueuing its children moves the walk state one id on |
| PathWalk.NextLevel | crates/neuro-node-path-engine/src/engine/path_resolver.rs:26 | when a level is used up, the queue holds exactly the next level |
| PathWalk.Step | crates/neuro-node-path-engine/src/engine/path_resolver.rs:26-37 | one loop iteration either cuts the walk off with levels 0 to `max_depth` emitted, or keeps the walk state and decreases the measure |
| PathWalk.CutOff | crates/neuro-node-path-engine/src/engine/path_resolver.rs:27-29 | the first entry deeper than `max_depth` arrives exactly when levels 0 to `max_depth` are emitted |
| PathWalk.Exhausted | crates/neuro-node-path-engine/src/engine/path_resolver.rs:26 | an empty queue at depth at most `max_depth` means every later level is empty, so the path is complete |
| PathWalk.EmptyLevelStaysEmpty | crates/neuro-node-path-engine/src/engine/path_resolver.rs:33-37 | after an empty level every deeper level is empty |
| PathWalk.WalkStopsAtEmptyLevel | crates/neuro-node-path-engine/src/engine/path_resolver.rs:26-37 | past an empty level the walk gains nothing |
| PathWalk.WalkMembers | crates/neuro-node-path-engine/src/engine/path_resolver.rs:26-37 | the pair (id, d) is in the first n levels exactly when d < n and the id lies on level d |
| PathWalk.WalkDepthsSorted | crates/neuro-node-path-engine/src/engine/path_resolver.rs:26-37 | depths along the walk never decrease and stay below the number of levels |
| PathWalk.WalkPrefix | crates/neuro-node-path-engine/src/engine/path_resolver.rs:26-37 | a walk over fewer levels is a prefix of a walk over more |
| PathWalk.ResolutionMembers | crates/neuro-node-path-engine/src/engine/path_resolver.rs:26-31 | an id is emitted at depth d exactly when d ≤ `max_depth` and the id lies on level d |
| PathWalk.ResolvedIdsAreLinkIds | crates/neuro-node-path-engine/src/engine/path_resolver.rs:17-37 | every emitted id is the id of an input node |
| PathWalk.EmittedLink | crates/neuro-node-path-engine/src/engine/path_resolver.rs:23-35 | an id emitted at any depth has a node behind it |
| PathWalk.ResolutionDepths | crates/neuro-node-path-engine/src/engine/path_resolver.rs:26-37 | emitted depths never decrease and none exceeds `max_depth` |
| PathWalk.ResolutionStartsWithStartIds | crates/neuro-node-path-engine/src/engine/path_resolver.rs:17-24 | the result opens with the start ids, in input order, at depth 0 |
| PathWalk.ResolutionEmpty | crates/neuro-node-path-engine/src/engine/path_resolver.rs:17-26 | the result is empty exactly when no node's name occurs in the query |
| PathWalk.EmptyNameIsEmitted | crates/neuro-node-path-engine/src/engine/path_resolver.rs:19 | a node with an empty name is always a start node, emitted at depth 0 |
| PathWalk.LevelParent | crates/neuro-node-path-engine/src/engine/path_resolver.rs:33-35 | every id on a level below the start has a node whose parent lies on the level above |
| PathWalk.ResolutionParent | crates/neuro-node-path-engine/src/engine/path_resolver.rs:33-35 | an id emitted at depth e + 1 belongs to a node whose parent is an id emitted at depth e |
| PathWalk.RepeatedRoute | crates/neuro-node-path-engine/src/engine/path_resolver.rs:14-37 | with no visited set, node b, a child of a, is emitted twice for the query "ab": a, b, b |
| PathWalk.TwoLinksWalk | crates/neuro-node-path-engine/src/engine/path_resolver.rs:26-37 | the first two levels from a and b emit a, b, b |
| EngineClusterNavigator.ClusterNavigator.constructor | crates/neuro-node-path-engine/src/engine/cluster_navigator.rs:10-14 | a new navigator has visited nothing |
| EngineClusterNavigator.ClusterNavigator.Navigate | crates/neuro-node-path-engine/src/engine/cluster_navigator.rs:16-31 | Ok with exactly the ids of the clusters whose name occurs in the query, in the map's iteration order; nothing changes |
| EngineClusterNavigator.ClusterNavigator.MarkVisited | crates/neuro-node-path-engine/src/engine/cluster_navigator.rs:33-35 | the id is appended after the earlier visits; repeats are kept |
| EngineClusterNavigator.MatchingIdsMembers | crates/neuro-node-path-engine/src/engine/cluster_navigator.rs:23-28 | an id is picked exactly when a listed cluster has it and its name occurs in the query |
| EngineClusterNavigator.EmptyNameAlwaysMatches | crates/neuro-node-path-engine/src/engine/cluster_navigator.rs:25 | a cluster with an empty name is always picked |
| RepositoryIndexer.DisplayFixedVariants | crates/neuro-node-path-engine/src/repository/indexer.rs:48-62 | each fixed node type displays as a non-empty lowercase word, and two fixed types display alike only when they are equal |
| RepositoryIndexer.CustomSharesBucket | crates/neuro-node-path-engine/src/repository/indexer.rs:59 | a custom type named like a fixed type displays like it and so shares its bucket |
| RepositoryIndexer.Filter | crates/neuro-node-path-engine/src/repository/indexer.rs:32-35 | the filtered bucket is no longer than the bucket and holds only bucket nodes whose name contains the term |
| RepositoryIndexer.FilterMembers | crates/neuro-node-path-engine/src/repository/indexer.rs:32-35 | a node survives the filter exactly when it is in the bucket and its name contains the term |
| RepositoryIndexer.FilterEmptyTerm | crates/neuro-node-path-engine/src/repository/indexer.rs:34 | the empty term keeps the whole bucket |
| RepositoryIndexer.MatchingMembers | crates/neuro-node-path-engine/src/repository/indexer.rs:28-38 | a node matches exactly when some bucket holds it and its name contains the term |
| RepositoryIndexer.AppendToBucket | crates/neuro-node-path-engine/src/repository/indexer.rs:15-20 | appending a node to one bucket adds exactly that node to the matches of any term its name contains, and nothing otherwise |
| RepositoryIndexer.FoundMatching | crates/neuro-node-path-engine/src/repository/indexer.rs:29-37 | walking every bucket exactly once, in any order, and filtering each finds exactly the matching nodes with multiplicity |
| RepositoryIndexer.Indexer.constructor | crates/neuro-node-path-engine/src/repository/indexer.rs:9-13 | a new indexer is empty and holds no node |
| RepositoryIndexer.Indexer.IndexNode | crates/neuro-node-path-engine/src/repository/indexer.rs:15-20 | the node goes to the end of the bucket named by its type's display string, which is created if missing; other buckets are unchanged; the indexed nodes grow by exactly this node |
| RepositoryIndexer.Indexer.SearchByType | crates/neuro-node-path-engine/src/repository/indexer.rs:22-27 | the bucket in insertion order, or empty for an unknown key; every node found has that display type |
| RepositoryIndexer.Indexer.SearchByName | crates/neuro-node-path-engine/src/repository/indexer.rs:28-38 | the hits bucket by bucket, over an order that takes every bucket once, each bucket filtered in insertion order; as a multiset, exactly the indexed nodes whose name contains the term, each as often as indexed; the empty term gives every node |
| EngineQueryProcessor.NewProcessor | crates/neuro-node-path-engine/src/engine/query_processor.rs:10-33 | the four keyword groups neural/neuro, cluster/clust, path/route and channel/interface, in that order |
| EngineQueryProcessor.QueryProcessor.ParseQuery | crates/neuro-node-path-engine/src/engine/query_processor.rs:35-47 | a key is present exactly when one of its keywords occurs in the query ignoring case; there are no more keys than patterns |
| EngineQueryProcessor.TokensMeaning | crates/neuro-node-path-engine/src/engine/query_processor.rs:38-44 | a key is present exactly when a pattern with that key matches, and its list is the whole query once per matching pattern |
| EngineQueryProcessor.TokensKeyCount | crates/neuro-node-path-engine/src/engine/query_processor.rs:38-44 | each pattern adds at most one key |
| EngineQueryProcessor.HitsOfDistinctKeys | crates/neuro-node-path-engine/src/engine/query_processor.rs:38-44 | with no key repeated, a key is hit at most once |
| EngineQueryProcessor.DefaultParse | crates/neuro-node-path-engine/src/engine/query_processor.rs:11-44 | the default processor yields at most four keys, each holding the query exactly once |
| EngineQueryProcessor.ClustSubsumesCluster | crates/neuro-node-path-engine/src/engine/query_processor.rs:17 | the cluster group matches exactly when "clust" occurs, because "cluster" contains it |
| EngineQueryProcessor.QueryProcessor.ExtractEntities | crates/neuro-node-path-engine/src/engine/query_processor.rs:49-55 | no more entities than words; each is longer than three characters, lower-case and free of whitespace |
| EngineQueryProcessor.LongWords | crates/neuro-node-path-engine/src/engine/query_processor.rs:52-53 | the kept words are lower-case, longer than three characters and free of whitespace |
| EngineQueryProcessor.LongWordsMembers | crates/neuro-node-path-engine/src/engine/query_processor.rs:50-54 | an entity is exactly the lower-case form of some word longer than three characters |
| EngineQueryProcessor.LongWordsKeep | crates/neuro-node-path-engine/src/engine/query_processor.rs:52-53 | words that are already lower-case and long are kept unchanged, in order |
| EngineQueryProcessor.ExtractJoin | crates/neuro-node-path-engine/src/engine/query_processor.rs:49-55 | extracting from lower-case long words joined by spaces gives the words back |
| EngineQueryProcessor.LowerKeepsNoWhitespace | crates/neuro-node-path-engine/src/engine/query_processor.rs:52 | lower-casing introduces no whitespace |
| Text.Contains | crates/neuro-node-path-engine/src/engine/path_resolver.rs:19 | `contains` holds exactly when the pattern occurs at some index |
| Text.ContainsEmpty | crates/neuro-node-path-engine/src/engine/path_resolver.rs:19 | every string contains the empty string |
| Text.Lower | crates/neuro-node-path-engine/src/engine/query_processor.rs:52 | lower-casing keeps the length and leaves no upper-case letter |
| Text.LowerIdempotent | crates/neuro-node-path-engine/src/engine/query_processor.rs:52 | lower-casing twice is lower-casing once |
| Text.SplitWhitespace | crates/neuro-node-path-engine/src/engine/query_processor.rs:51 | the pieces are non-empty and free of whitespace |
| Text.SplitJoin | crates/neuro-node-path-engine/src/engine/query_processor.rs:51 | splitting undoes joining non-empty, whitespace-free words with single spaces |
| CodeAnalysis.NewAnalyzer | crates/neuro-node-path-engine/src/repository/code_analyzer.rs:9-30 | the four declaration patterns, in order: async function, function, data structure, module |
| CodeAnalysis.CodeAnalyzer.AnalyzeCode | crates/neuro-node-path-engine/src/repository/code_analyzer.rs:32-52 | the result is the map built from the patterns in order, each pushing its scan's names under its entity type |
| CodeAnalysis.PushCaptures | crates/neuro-node-path-engine/src/repository/code_analyzer.rs:36-48 | walking the matches of one pattern pushes exactly the scan's names, in text order, under its entity type |
| CodeAnalysis.EntitiesKeys | crates/neuro-node-path-engine/src/repository/code_analyzer.rs:42-47 | a key is present exactly when some pattern with that entity type finds a name |
| CodeAnalysis.EntitiesNonEmpty | crates/neuro-node-path-engine/src/repository/code_analyzer.rs:42-47 | no list in the map is empty |
| CodeAnalysis.EntitiesOfDistinct | crates/neuro-node-path-engine/src/repository/code_analyzer.rs:35-49 | with one pattern per entity type, each type holds exactly its pattern's names, in text order |
| CodeAnalysis.EmptyCode | crates/neuro-node-path-engine/src/repository/code_analyzer.rs:32-51 | empty input gives an empty map |
| CodeAnalysis.DefaultTypesDistinct | crates/neuro-node-path-engine/src/repository/code_analyzer.rs:10-27 | the four default patterns use four different entity types |
| CodeAnalysis.Declared | crates/neuro-node-path-engine/src/repository/code_analyzer.rs:12-24 | spaced keywords of one alternative and a whole name match, taking the name, when no `pub` prefix and no earlier alternative can start there |
| CodeAnalysis.PubDeclared | crates/neuro-node-path-engine/src/repository/code_analyzer.rs:12-20 | `pub` and a space in front of the first alternative match past them when the pattern allows `pub` |
| CodeAnalysis.FnLine | crates/neuro-node-path-engine/src/repository/code_analyzer.rs:16 | `fn NAME` matches the function pattern, taking NAME |
| CodeAnalysis.PubFnLine | crates/neuro-node-path-engine/src/repository/code_analyzer.rs:16 | `pub fn NAME` matches the function pattern, taking NAME |
| CodeAnalysis.AsyncFnLine | crates/neuro-node-path-engine/src/repository/code_analyzer.rs:12 | `async fn NAME` matches the async pattern, taking NAME |
| CodeAnalysis.PubAsyncFnLine | crates/neuro-node-path-engine/src/repository/code_analyzer.rs:12 | `pub async fn NAME` matches the async pattern, taking NAME |
| CodeAnalysis.AsyncIsNotFn | crates/neuro-node-path-engine/src/repository/code_analyzer.rs:16 | a line starting `async` never matches the function pattern |
| CodeAnalysis.PubAsyncIsNotFn | crates/neuro-node-path-engine/src/repository/code_analyzer.rs:16 | a line starting `pub async` never matches the function pattern |
| CodeAnalysis.TypeLine | crates/neuro-node-path-engine/src/repository/code_analyzer.rs:20 | `struct NAME`, `enum NAME` and `trait NAME` match the type pattern, taking NAME, the last capture |
| CodeAnalysis.ModLine | crates/neuro-node-path-engine/src/repository/code_analyzer.rs:24 | `mod NAME` matches the module pattern, taking NAME |
| CodeAnalysis.PubModLine | crates/neuro-node-path-engine/src/repository/code_analyzer.rs:24 | `pub mod` never matches the module pattern |
| CodeAnalysis.NoMatchAtWhitespace | crates/neuro-node-path-engine/src/repository/code_analyzer.rs:12-24 | no default pattern matches where the text has whitespace |
| CodeAnalysis.IndentedLineSkipped | crates/neuro-node-path-engine/src/repository/code_analyzer.rs:12-24 | the scan passes over leading whitespace without a match, so indented declarations, such as methods in `impl` blocks, are missed |
| CodeAnalysis.ScanOneLine | crates/neuro-node-path-engine/src/repository/code_analyzer.rs:36 | a single line yields at most one name: the match at its start |
| CodeAnalysis.FnLineIsFunction | crates/neuro-node-path-engine/src/repository/code_analyzer.rs:16-17 | the line `fn NAME` files NAME, and only NAME, under "function" |
| CodeAnalysis.PubFnLineIsFunction | crates/neuro-node-path-engine/src/repository/code_analyzer.rs:16-17 | the line `pub fn NAME` files NAME, and only NAME, under "function" |
| CodeAnalysis.AsyncLineIsAsync | crates/neuro-node-path-engine/src/repository/code_analyzer.rs:12-13 | the line `async fn NAME` files NAME, and only NAME, under "async_function" |
| CodeAnalysis.AsyncLineIsNotFunction | crates/neuro-node-path-engine/src/repository/code_analyzer.rs:16 | the line `async fn NAME` files nothing under "function" |
| CodeAnalysis.PubAsyncLineIsAsync | crates/neuro-node-path-engine/src/repository/code_analyzer.rs:12-13 | the line `pub async fn NAME` files NAME, and only NAME, under "async_function" |
| CodeAnalysis.PubAsyncLineIsNotFunction | crates/neuro-node-path-engine/src/repository/code_analyzer.rs:16 | the line `pub async fn NAME` files nothing under "function" |
| CodeAnalysis.TypeLineIsDataStructure | crates/neuro-node-path-engine/src/repository/code_analyzer.rs:20-21 | a `struct`, `enum` or `trait` line files its NAME, and only NAME, under "data_structure" |
| CodeAnalysis.ModLineIsModule | crates/neuro-node-path-engine/src/repository/code_analyzer.rs:24-25 | the line `mod NAME` files NAME, and only NAME, under "module" |
| CodeAnalysis.PubModLineIgnored | crates/neuro-node-path-engine/src/repository/code_analyzer.rs:24 | a `pub mod` line files nothing under "module" |
| DualPathValidation.DualPathValidator.Validate | crates/neuro-node-path-engine/src/validation/dual_path.rs:8-18 | always Ok; the INVALID message exactly when both paths are empty; VALID exactly when some path is non-empty and the node path is at least as long; WARNING exactly when the cluster path is longer |
| DualPathValidation.DualPathValidator.CrossValidate | crates/neuro-node-path-engine/src/validation/dual_path.rs:20-29 | true exactly when the two paths share an element, so false when either is empty |
| DualPathValidation.ValidateDependsOnLengths | crates/neuro-node-path-engine/src/validation/dual_path.rs:8-18 | `validate` depends only on the two lengths |
| DualPathValidation.MessagesDiffer | crates/neuro-node-path-engine/src/validation/dual_path.rs:10-16 | the three messages are distinct |
| DualPathValidation.CrossValidateSymmetric | crates/neuro-node-path-engine/src/validation/dual_path.rs:20-29 | `cross_validate` is symmetric |
| DualPathValidation.CrossValidateSelf | crates/neuro-node-path-engine/src/validation/dual_path.rs:20-29 | a path shares an element with itself exactly when it is non-empty |
| ConsensusValidation.ConsensusValidator.ValidatePaths | crates/neuro-node-path-engine/src/validation/consensus.rs:12-29 | the result is `Agreement`: at least one path, at least one node, and a most-frequent-node share of at least the threshold |
| ConsensusValidation.CountNodes | crates/neuro-node-path-engine/src/validation/consensus.rs:17-25 | the counts are each node's occurrences over all paths, and the total is the number of nodes |
| ConsensusValidation.CountPath | crates/neuro-node-path-engine/src/validation/consensus.rs:21-24 | counting one path adds its nodes to the counts and the total |
| ConsensusValidation.LargestCount | crates/neuro-node-path-engine/src/validation/consensus.rs:27 | the largest count, reached by some node, or 0 for no nodes |
| ConsensusValidation.MaxOver | crates/neuro-node-path-engine/src/validation/consensus.rs:27 | an upper bound on every listed count that one of them reaches, and 0 for none |
| ConsensusValidation.MaxCountUnique | crates/neuro-node-path-engine/src/validation/consensus.rs:27 | any value that bounds every count and is reached by some node is the largest count |
| ConsensusValidation.MaxCountOfMultiset | crates/neuro-node-path-engine/src/validation/consensus.rs:20-27 | the largest count depends only on the multiset of nodes |
| ConsensusValidation.ReorderingKeepsDecision | crates/neuro-node-path-engine/src/validation/consensus.rs:20-28 | reordering paths, or nodes within them, does not change the decision |
| ConsensusValidation.MaxCountBounds | crates/neuro-node-path-engine/src/validation/consensus.rs:27 | with at least one node the largest count is between 1 and the number of nodes |
| ConsensusValidation.ShareBounds | crates/neuro-node-path-engine/src/validation/consensus.rs:27-28 | the share lies in (0, 1] when there are nodes, so a threshold above 1 is never met |
| ConsensusValidation.UnanimousAgrees | crates/neuro-node-path-engine/src/validation/consensus.rs:27-28 | when every node is the same, any threshold up to 1 is met |
| ConsensusValidation.EmptyPathsNeverAgree | crates/neuro-node-path-engine/src/validation/consensus.rs:17-28 | paths holding no node give 0/0, and no threshold is met |
| ConsensusValidation.CountStep | crates/neuro-node-path-engine/src/validation/consensus.rs:22 | one `+= 1` on a node's entry keeps the counts equal to the multiset of nodes seen |
| ConsensusValidation.Default | crates/neuro-node-path-engine/src/validation/consensus.rs:32-36 | the default threshold is 0.66 |
| LemmaStore.KnotenlexikonStore.constructor | crates/neuro-node-path-engine/src/i18n/lemma_store.rs:22-28 | a new store holds exactly the four default lemmas, added in order |
| LemmaStore.KnotenlexikonStore.Empty | crates/neuro-node-path-engine/src/i18n/lemma_store.rs:16-19 | `Default`, unlike `new`, gives an empty store |
| LemmaStore.DefaultStoreContents | crates/neuro-node-path-engine/src/i18n/lemma_store.rs:30-83 | the defaults are keyed neuro_node_path_engine, neuro_node_path, cluster_path and neuro_channel_interface, each under its own id |
| LemmaStore.DefaultMentionsKnoten | crates/neuro-node-path-engine/src/i18n/lemma_store.rs:33 | the first default lemma's German label contains "Knoten" |
| LemmaStore.KnotenlexikonStore.AddEntry | crates/neuro-node-path-engine/src/i18n/lemma_store.rs:85-87 | the entry is stored under its canonical id, replacing any earlier one; every key keeps naming its entry's id |
| LemmaStore.KnotenlexikonStore.GetEntry | crates/neuro-node-path-engine/src/i18n/lemma_store.rs:89-91 | the entry stored under the id, or None when there is none; in a valid store it carries that id |
| LemmaStore.KnotenlexikonStore.Search | crates/neuro-node-path-engine/src/i18n/lemma_store.rs:93-105 | exactly the stored entries whose label or definition in the language contains the term, in the map's order |
| LemmaStore.KnotenlexikonStore.SearchByGerman | crates/neuro-node-path-engine/src/i18n/lemma_store.rs:93-98 | over an order that takes every stored id once, the entries whose German label or German definition contains the term, each stored entry at most once |
| LemmaStore.KnotenlexikonStore.SearchByEnglish | crates/neuro-node-path-engine/src/i18n/lemma_store.rs:100-105 | over an order that takes every stored id once, the entries whose English label or English definition contains the term, each stored entry at most once |
| LemmaStore.KnotenlexikonStore.GetAllEntries | crates/neuro-node-path-engine/src/i18n/lemma_store.rs:107-109 | one entry per stored id, in the map's order |
| LemmaStore.HitsMembers | crates/neuro-node-path-engine/src/i18n/lemma_store.rs:94-97 | an entry is a hit exactly when it is stored under a listed key and mentions the term |
| LemmaStore.Values | crates/neuro-node-path-engine/src/i18n/lemma_store.rs:108 | one value per key, in key order |
| LemmaStore.AddThenGet | crates/neuro-node-path-engine/src/i18n/lemma_store.rs:85-91 | after `add_entry` the id gives the entry back, and every other id keeps its entry |
| LemmaStore.KnotenIsFound | crates/neuro-node-path-engine/src/i18n/lemma_store.rs:93-98 | a new store finds the first default lemma when searching German texts for "Knoten" |
| LemmaStore.DefaultEngineEntry | crates/neuro-node-path-engine/src/i18n/lemma_store.rs:31-38 | a new store has the engine lemma with its English and German labels |
| TermTranslator.DefaultsAreEnglishToGerman | crates/neuro-node-path-engine/src/i18n/translator.rs:16-26 | every default pair goes from English to German, node gives Knoten and path gives Pfad, and Knoten does not translate back |
| TermTranslator.Translator.constructor | crates/neuro-node-path-engine/src/i18n/translator.rs:8-26 | a new translator holds exactly the nine default pairs |
| TermTranslator.Translator.AddTranslation | crates/neuro-node-path-engine/src/i18n/translator.rs:28-31 | the target is stored under (from, to, source), replacing any earlier one; other keys are unchanged |
| TermTranslator.Translator.Translate | crates/neuro-node-path-engine/src/i18n/translator.rs:33-37 | the stored target for (from, to, term), or None for a key never added |
| TermTranslator.AddThenTranslate | crates/neuro-node-path-engine/src/i18n/translator.rs:28-37 | after two adds under one key the second target wins, and any other key translates as before |
| TermTranslator.DefaultLookups | crates/neuro-node-path-engine/src/i18n/translator.rs:17-37 | a new translator turns "node" into "Knoten" but has nothing for ("de", "en", "Knoten") |
| Common.Collect | crates/neuro-node-path-engine/src/core/cluster.rs:73 | iterating a set visits every element exactly once |

## Left out

- Ids that the source draws from `Uuid::new_v4()` are constructor parameters. Timestamps from `chrono::Utc::now()` are left out, or kept as rendered text where the audit trail hashes them.
- SHA-256 followed by hex encoding is an uninterpreted deterministic function `digest`, a field of the audit trail. No collision resistance is assumed.
- `f64` is modelled as `real`, so rounding, infinities and NaN are not modelled. The one NaN that changes behaviour, the consensus ratio 0/0, is modelled as false. A NaN threshold or weight is not modelled.
- CoreChannel.NeuralChannel.TransmitSignal: the `u64` signal counter is an unbounded `nat`, so it does not wrap, and an overflow panic at 2^64 signals is not modelled.
- CoreNode.Node.WithDepth: `usize` depth is a `nat`, with no upper bound.
- Strings are modelled as sequences of characters with ASCII semantics:
  - `to_lowercase` folds only A-Z;
  - whitespace is space, tab, LF, VT, FF and CR;
  - the regex classes `\w` and `\s` are ASCII;
  - `len() > 3` counts characters, which equals the byte length only for ASCII text.
  Unicode case folding, Unicode whitespace and multi-byte lengths are not modelled.
- The query processor's `(?i)` patterns are modelled as "the lower-cased query contains one of the lower-case alternatives".
- The code analyzer's regular expressions are modelled only as the four declaration shapes, not as a general regex engine. The model has the `(?m)^` line start, greedy `\s+` and `\w+` runs, the optional `pub\s+` tried first, leftmost-first alternation, and non-overlapping `captures_iter` scanning.
- `HashMap`, `HashSet` and `DashMap` iteration order is left open. Results that depend on it are specified up to that order:
  - `search_by_name`;
  - the lemma-store searches and `get_all_entries`;
  - `navigate`.
- The node metadata, cluster metadata properties, channel properties and the cluster centroid's later updates are not modelled. JSON schemas are opaque text. No core operation reads them.
- Concurrency (`Arc<DashMap>`), serialization with serde, and the engine orchestration in `engine/mod.rs` are not modelled.
- The binaries, the HTTP API, the CLI, `hashing.rs`, `serialization.rs`, `model_loader.rs` and `neuron.rs` are outside the modelled core.
- The root crate in `src/lib.rs`, CADSP Core, is separate from `neuro-node-path-engine` and is not modelled. It declares the `ingestion`, `biophysical_patterns`, `neuro_node_path`, `aln_schema`, `compliance` and `errors` modules.
- `DualPathValidator::new` and `ConsensusValidator::new` are the datatype constructors `DualPathValidator` and `ConsensusValidator(threshold)`. They carry no contract of their own.

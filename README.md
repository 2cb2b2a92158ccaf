# raglineage lineage engine — a Dafny model

raglineage is a retrieval-augmented generation library in which every
retrievable chunk is a *Lineage Node*: a record carrying a stable id, the
dataset version it came from, a precise reference to its source, the chain
of transforms applied to it and a hash of its content. This project models
the engine behind that promise and proves properties of the model:

- the record types (the four source-reference variants, the Lineage Node,
  file entries, dataset versions, the manifest, answers and audit reports);
- the transform pipeline: the character sliding-window chunker, the
  sentence-accumulating chunker with a character overlap budget, the
  whitespace and aggressive normaliser, the content-hash deduplicator, and
  their composition as a per-record flat-map with one deduplicator per run;
- the version store (manifest cache, append-only history, recording a
  version from a file listing) and the diff of two versions;
- the lineage graph (node and edge insertion with endpoint checks,
  undirected bounded-depth neighbours, JSON export and reload);
- the id-to-index mapping of the vector store;
- retrieval post-processing (filters, top-k cut, graph expansion at score
  0.8, stable descending sort) and the three audit checks with the auditor;
- the parts of the `RagLineage` object that tie these together: indexing and
  adjacent-chunk linking in `build`, the fallbacks and file selection in
  `update`, the lineage entries of `query` and the checks in `diff`.

One Dafny module per source file: `LineageNodes`, `Dataset`, `AuditSchema`,
`Chunkers`, `Normalize`, `Dedupe`, `Diff`, `Versioning`, `Graph`, `Mapping`,
`Filters`, `Retriever`, `Checks`, `Auditor` and `Api`, plus `Pipeline` (the
stage composition that `build` and `update` share), `Text` (string helpers:
whitespace, strip, `rsplit`, integer printing and parsing) and `Wrappers`
(`Option` and `Result`). Objects whose fields the source updates in place are
classes (`DatasetManifest`, `DedupeTransform`, `VersionStore`,
`LineageGraph`, `LNMapping`, `Retriever`, `RagLineage`); loops are methods
proved against specification functions whose properties are lemmas.

Conventions: content hashing (`compute_content_hash`) is a parameter
`hash: string -> string`; the filesystem is a map from relative path to
hash, size and modification time; the records an ingestor yields for a file
are a parameter `ingest`; the embedder plus vector-store search is a
parameter `search`; clock readings are opaque `Timestamp` values passed in;
`float` parsing of version strings is a partial parameter
`parse: string -> Option<real>`; retrieval scores are `real`. A Python
exception the modelled code can raise becomes the `Err` case of a `Result`.

## Model

| member | source | states |
|---|---|---|
| LineageNodes.SourceRef.TypeTag | raglineage/schemas/lineage_node.py:9-45 | each of the four variants carries its own fixed literal: "file", "pdf", "tabular" or "api", in both directions |
| LineageNodes.TypeTagDeterminesVariant | raglineage/schemas/lineage_node.py:12-45 | two references with the same type tag are of the same variant, so the tag discriminates the closed union |
| LineageNodes.NewLineageNode | raglineage/schemas/lineage_node.py:61-77 | a node built from its required fields stores them unchanged; chain and metadata default to empty, updated_at to None |
| Dataset.FindVersion | raglineage/schemas/dataset.py:51-56 | None exactly when no version has the tag; otherwise a version of the list with that tag, the first one in list order |
| Dataset.FindVersionAppendKnown | raglineage/schemas/dataset.py:51-60 | appending a version never changes what an already known tag resolves to (a reused tag still finds the older entry) |
| Dataset.FindVersionAppendNew | raglineage/schemas/dataset.py:51-60 | after appending, the new tag resolves, and to the new version itself when the tag was unused |
| Dataset.DatasetManifest.constructor | raglineage/schemas/dataset.py:36-49 | a fresh manifest has no current version, an empty history and empty metadata |
| Dataset.DatasetManifest.FromData | raglineage/schemas/dataset.py:29-49 | a manifest rebuilt from its persisted document has exactly that document's fields |
| Dataset.DatasetManifest.AddVersion | raglineage/schemas/dataset.py:58-62 | the version goes at the end, earlier versions stay as they were, the count grows by one, the current version becomes its tag |
| Dataset.CurrentVersionResolves | raglineage/schemas/dataset.py:37-62 | in a valid manifest (current tag the last appended one) a set current version always resolves through `get_version` |
| AuditSchema.NewAnswer | raglineage/schemas/audit.py:20-30 | an answer built from question and text has empty lineage and empty metadata |
| AuditSchema.Staleness.Literal | raglineage/schemas/audit.py:37-39 | the staleness verdict is always one of "pass", "fail", "warning" |
| AuditSchema.ParseStaleness | raglineage/schemas/audit.py:37-39 | validation accepts exactly the three staleness literals, and the accepted value prints back as the input |
| AuditSchema.StalenessRoundTrip | raglineage/schemas/audit.py:37-39 | printing a verdict and validating it gives the verdict back |
| AuditSchema.VersionConsistency.Literal | raglineage/schemas/audit.py:40-42 | the consistency verdict is always one of "single_version", "mixed_versions", "unknown" |
| AuditSchema.ParseVersionConsistency | raglineage/schemas/audit.py:40-42 | validation accepts exactly the three consistency literals, and the accepted value prints back as the input |
| AuditSchema.VersionConsistencyRoundTrip | raglineage/schemas/audit.py:40-42 | printing a consistency verdict and validating it gives it back |
| AuditSchema.NewAuditReport | raglineage/schemas/audit.py:33-48 | a report built from its two verdicts has no id, no risk flags and empty metadata |
| Chunkers.WindowsFrom | raglineage/transform/chunkers.py:52-62 | the window run from a start inside the content is never empty |
| Chunkers.SimpleChunks | raglineage/transform/chunkers.py:47-62 | the simple chunker never returns an empty list |
| Chunkers.WindowsFromAt | raglineage/transform/chunkers.py:53-60 | window `i` is the content from `start + i*(size-overlap)` on, `size` characters or up to the end |
| Chunkers.SimpleChunkAt | raglineage/transform/chunkers.py:52-62 | for content longer than the size, chunk `i` is `content[i*(size-overlap) : i*(size-overlap)+size]`, of length 1 to size |
| Chunkers.SimpleChunkShort | raglineage/transform/chunkers.py:49-50 | content no longer than the chunk size, the empty string included, comes back as exactly [content] |
| Chunkers.WindowsFromCover | raglineage/transform/chunkers.py:53-60 | with a non-negative overlap every character lies in some window and the last window reaches the end |
| Chunkers.SimpleChunksCover | raglineage/transform/chunkers.py:47-62 | with a non-negative overlap the chunks cover every character of the content and the last chunk ends at its end |
| Chunkers.SimpleChunksTrailingContained | raglineage/transform/chunkers.py:54-60 | length 10, size 6, overlap 2 gives ["abcdef", "efghij", "ij"]: the loop emits a trailing chunk wholly inside the previous one |
| Chunkers.SimpleChunk | raglineage/transform/chunkers.py:47-62 | the chunking loop, with its early break, returns exactly the specified windows |
| Chunkers.StripAll | raglineage/transform/chunkers.py:83 | each split piece stripped, one for one |
| Chunkers.NonBlankSentences | raglineage/transform/chunkers.py:83 | dropping blank pieces never lengthens the list |
| Chunkers.NonBlankShape | raglineage/transform/chunkers.py:83 | every kept sentence is non-blank, starts with a non-space and ends with the restored "." |
| Chunkers.NonBlankNoNewline | raglineage/transform/chunkers.py:82-83 | a sentence holds no newline when no piece did |
| Chunkers.SentencesShape | raglineage/transform/chunkers.py:82-83 | every sentence the splitter yields is well formed and free of newlines |
| Chunkers.SumLengthsAppend | raglineage/transform/chunkers.py:87-106 | summed sentence lengths add up over concatenation |
| Chunkers.OverlapSeedSuffix | raglineage/transform/chunkers.py:94-103 | the overlap carried into the next chunk is a suffix of the chunk just closed |
| Chunkers.OverlapSeedFits | raglineage/transform/chunkers.py:96-99 | the carried sentences fit in the overlap budget |
| Chunkers.OverlapSeedMaximal | raglineage/transform/chunkers.py:96-101 | the carried suffix is the longest that fits: every longer suffix exceeds the budget |
| Chunkers.Step | raglineage/transform/chunkers.py:89-106 | one sentence closes a chunk exactly when the open chunk is non-empty and would overflow, and always ends the open chunk |
| Chunkers.SemanticChunks | raglineage/transform/chunkers.py:79-111 | the sentence chunker never returns an empty list |
| Chunkers.Finish | raglineage/transform/chunkers.py:108-111 | closing the loop yields at least one chunk, falling back to [content] |
| Chunkers.RunSize | raglineage/transform/chunkers.py:87-106 | the running size always equals the summed length of the open sentences |
| Chunkers.CloseRun | raglineage/transform/chunkers.py:91-92 | closing a run of consecutive sentences keeps every chunk a run and extends the covered prefix |
| Chunkers.RunCurrentSuffix | raglineage/transform/chunkers.py:89-106 | after `i` sentences the open chunk is the last sentences read, and is non-empty after the first |
| Chunkers.StepWindows | raglineage/transform/chunkers.py:89-106 | one loop step preserves the invariant that closed chunks are sentence runs covering a prefix |
| Chunkers.RunWindows | raglineage/transform/chunkers.py:89-106 | the loop invariant holds after every prefix of the sentences |
| Chunkers.SemanticChunksCover | raglineage/transform/chunkers.py:79-111 | no sentences gives [content]; otherwise every chunk is a run of consecutive sentences joined by spaces and every sentence lies in some chunk |
| Chunkers.FinishCover | raglineage/transform/chunkers.py:89-111 | the same coverage for any list of sentences |
| Chunkers.CarryOver | raglineage/transform/chunkers.py:94-103 | the overlap loop returns the longest fitting suffix and its summed length |
| Chunkers.Accumulate | raglineage/transform/chunkers.py:85-106 | the sentence loop computes the specified accumulator |
| Chunkers.SemanticChunk | raglineage/transform/chunkers.py:79-111 | the whole sentence chunker returns the specified chunks |
| Chunkers.ChunkIdInjective | raglineage/transform/chunkers.py:130 | `<parent>_chunk_<i>` ids of one record differ for different indices |
| Chunkers.ChunkerTransform.Name | raglineage/transform/chunkers.py:121-155 | the stage name is "semantic_chunk" exactly for the semantic chunker, else "simple_chunk" |
| Chunkers.ChunkerTransform.Chunks | raglineage/transform/chunkers.py:128-159 | the chunker a transform applies yields at least one chunk |
| Chunkers.ChunkNodes | raglineage/transform/chunkers.py:129-142 | one record per chunk, record `i` built from chunk `i` |
| Chunkers.ChunkTransformOutput | raglineage/transform/chunkers.py:126-173 | a chunker transform yields one record per chunk, at least one |
| Chunkers.ChunkTransformRecords | raglineage/transform/chunkers.py:129-142 | record `i` has id `<parent>_chunk_<i>`, chunk `i` as content and its hash, the parent's source and version, the stage name appended, and chunk_index/total_chunks metadata |
| Chunkers.ChunkTransformIdsDistinct | raglineage/transform/chunkers.py:129-142 | no two records of one transform share an id |
| Chunkers.ChunkRecords | raglineage/transform/chunkers.py:129-142 | the enumeration loop yields the specified records |
| Chunkers.ApplyChunker | raglineage/transform/chunkers.py:126-173 | chunking with the loop then mapping to records gives the specified output |
| Normalize.CollapseShape | raglineage/transform/normalize.py:37 | collapsing whitespace runs leaves only plain spaces, never two in a row |
| Normalize.CollapseFixed | raglineage/transform/normalize.py:37 | text already in that shape comes through the collapse unchanged |
| Normalize.NormalizeBasicShape | raglineage/transform/normalize.py:37-38 | basic output has no whitespace at either end, only plain spaces, never two in a row |
| Normalize.NormalizeBasicIdempotent | raglineage/transform/normalize.py:37-38 | basic normalisation is idempotent |
| Normalize.NormalizeBasicExample | raglineage/transform/normalize.py:37-38 | "a \t b" normalises to "a b" |
| Normalize.RemoveSpecial | raglineage/transform/normalize.py:42 | deletion never lengthens and leaves only word characters, whitespace and `.,!?;:-` |
| Normalize.RemoveSpecialIdentity | raglineage/transform/normalize.py:42 | nothing is deleted exactly when every character is already allowed |
| Normalize.NormalizeAggressiveShape | raglineage/transform/normalize.py:40-43 | aggressive output keeps only allowed characters and has no upper-case letter |
| Normalize.NormalizeAggressiveDoubleSpace | raglineage/transform/normalize.py:37-43 | the aggressive mode can leave two spaces in a row: "a # b" becomes "a  b" |
| Normalize.NormalizeTransform.Name | raglineage/transform/normalize.py:27-30 | "normalize_aggressive" exactly in aggressive mode, "normalize" otherwise |
| Normalize.NormalizeTransform.Transform | raglineage/transform/normalize.py:32-57 | exactly one record: same id, source, version and creation time, rewritten content with its hash, stage name appended, updated_at set, normalization_aggressive metadata |
| Normalize.NormalizeTransformStable | raglineage/transform/normalize.py:32-57 | basic-normalising a normalised record again leaves its content unchanged |
| Normalize.NormalizeStage | raglineage/transform/normalize.py:32-57 | the stage maps each record to its one normalised record, one for one |
| Normalize.NormalizeStageSnoc | raglineage/api.py:193-194 | the stage over one more record is the earlier output followed by that record's output |
| Dedupe.SurvivorsAreFirsts | raglineage/transform/dedupe.py:24-41 | every record let through is the first of the run with a hash not seen before, with only the stage name appended |
| Dedupe.SurvivorsKeepFirsts | raglineage/transform/dedupe.py:24-41 | the first record of every unseen hash is let through |
| Dedupe.SurvivorsFresh | raglineage/transform/dedupe.py:26-30 | records let through carry hashes of the run not remembered before it |
| Dedupe.SurvivorsDistinct | raglineage/transform/dedupe.py:26-30 | no two records let through share a hash |
| Dedupe.SurvivorsSameHash | raglineage/transform/dedupe.py:24-41 | identical content keeps only its first record |
| Dedupe.SurvivorsSnoc | raglineage/transform/dedupe.py:26-31 | one more record is let through exactly when its hash is new to the memory and to the records before it |
| Dedupe.SurvivorsAppend | raglineage/transform/dedupe.py:24-41 | filtering two runs in a row with the state carried over equals filtering their concatenation |
| Dedupe.DedupeTransform.constructor | raglineage/transform/dedupe.py:15-17 | a new filter remembers no hash |
| Dedupe.DedupeTransform.Transform | raglineage/transform/dedupe.py:24-41 | a seen hash yields nothing; an unseen one yields the record with "deduplicate" appended; the hash is remembered either way |
| Dedupe.DedupeTransform.Reset | raglineage/transform/dedupe.py:43-45 | reset forgets every hash |
| Dedupe.DedupeTransform.TransformAll | raglineage/transform/dedupe.py:24-41 | a run through the filter yields the specified survivors and remembers every hash of the run |
| Diff.Paths | raglineage/lineage/diff.py:76-77 | the keys of the path-to-hash dictionary, each once: a path is listed exactly when it is a key |
| Diff.PathsPrefix | raglineage/lineage/diff.py:76-77 | keys are in first-insertion order: the keys of any leading part of the file list are a leading part of the keys |
| Diff.PathsFirstEntry | raglineage/lineage/diff.py:76-77 | a path whose first entry is at position m is listed right after the keys of the entries before m |
| Diff.HashMapKeys | raglineage/lineage/diff.py:76-77 | a path is a key exactly when some entry lists it |
| Diff.HashMapLastWins | raglineage/lineage/diff.py:76-77 | the last entry for a path decides its hash |
| Diff.RepeatedPathExample | raglineage/lineage/diff.py:76-77 | a path listed twice keeps its first position and its last hash |
| Diff.Absent | raglineage/lineage/diff.py:79-80 | the selected paths are exactly those of the list missing from the other dictionary, in the list's order (an order-preserving subsequence) |
| Diff.Common | raglineage/lineage/diff.py:81-90 | the selected paths are exactly those in both dictionaries whose hashes agree, or differ, in the list's order (an order-preserving subsequence) |
| Diff.SelectionsDistinct | raglineage/lineage/diff.py:79-90 | selections from a list without repeats have no repeats |
| Diff.SelectionsCount | raglineage/lineage/diff.py:80-90 | removed, modified and unchanged share out the old paths, each in exactly one |
| Diff.SelectionsSelf | raglineage/lineage/diff.py:79-90 | a dictionary against itself: nothing absent or different, everything the same |
| Diff.VersionDiff.ChangedFiles | raglineage/lineage/diff.py:49-51 | the changed files are the added paths, then the removed paths, then the modified paths, each block in its own order, and nothing else |
| Diff.HasChangesIffChangedFiles | raglineage/lineage/diff.py:41-51 | a diff has changes exactly when it lists a changed file |
| Diff.ComputeDiff | raglineage/lineage/diff.py:65-99 | added, removed, modified and unchanged paths are exactly the paths in each category of the two dictionaries; added paths keep the order of the new version's keys, the other three the order of the old version's keys |
| Diff.DiffPartitionsFrom | raglineage/lineage/diff.py:76-90 | every old path is removed, modified or unchanged, in exactly one of them, and the four lists have no repeats |
| Diff.DiffSelf | raglineage/lineage/diff.py:65-99 | a version against itself has no changes and lists every path as unchanged |
| Versioning.FileEntriesExisting | raglineage/lineage/versioning.py:109-120 | the entries are exactly the listed paths that exist, each with what the filesystem says about it |
| Versioning.FileEntriesAllExist | raglineage/lineage/versioning.py:109-120 | when every path exists, one entry per path in listing order |
| Versioning.VersionStore.constructor | raglineage/lineage/versioning.py:22-31 | a new store has nothing cached |
| Versioning.VersionStore.LoadManifest | raglineage/lineage/versioning.py:33-52 | the cached manifest itself once there is one; otherwise the decoder's error for a file that is not JSON (read outside the `try`), a manifest from a file that validates, cached, or None for a missing file or one that fails validation |
| Versioning.VersionStore.SaveManifest | raglineage/lineage/versioning.py:54-64 | writes the manifest's document and makes it the cached manifest |
| Versioning.VersionStore.CreateManifest | raglineage/lineage/versioning.py:66-78 | a fresh, empty manifest with the given name, created and updated now, no metadata, saved and cached |
| Versioning.VersionStore.GetOrCreateManifest | raglineage/lineage/versioning.py:80-93 | the load's error passed through with nothing changed; else the loaded manifest when there is one, or a new empty one with the given name; cached afterwards |
| Versioning.VersionStore.CreateVersion | raglineage/lineage/versioning.py:95-133 | the load's error with nothing recorded; otherwise the version records the existing listed paths in order, the saved history is the old one plus it, it is current, updated_at is now, created_at and metadata are kept, and a new manifest takes the root's name, now and `{}` |
| Versioning.VersionStore.GetVersion | raglineage/lineage/versioning.py:135-148 | the load's error for a file that is not JSON, None without a manifest, else the manifest's first version with the tag; the loaded document is unchanged |
| Versioning.VersionStore.GetCurrentVersion | raglineage/lineage/versioning.py:150-160 | the load's error for a file that is not JSON, None without a manifest, else its current tag |
| Graph.ReachMonotone | raglineage/lineage/graph.py:57-92 | the neighbourhood only grows with the depth |
| Graph.ReachStable | raglineage/lineage/graph.py:89-90 | once a hop adds nothing, no later hop adds anything (the early break is sound) |
| Graph.BfsStep | raglineage/lineage/graph.py:75-90 | one level of the breadth-first loop adds exactly the next ring of neighbours |
| Graph.ExportNodes | raglineage/lineage/graph.py:115-125 | the exported node dictionary has one summary per node, under its id |
| Graph.LoadEdgesAgreeing | raglineage/lineage/graph.py:153-159 | loading a list of known edges gives those edges back |
| Graph.LoadExportedEdges | raglineage/lineage/graph.py:127-159 | reloading an exported edge list over the same nodes gives the same edges |
| Graph.SetToSeq | raglineage/lineage/graph.py:92 | listing a set gives each element once, in some order |
| Graph.LineageGraph.constructor | raglineage/lineage/graph.py:24-26 | a new graph is empty |
| Graph.LineageGraph.AddNode | raglineage/lineage/graph.py:28-36 | the record goes under its id, replacing any earlier one; edges unchanged |
| Graph.LineageGraph.AddEdge | raglineage/lineage/graph.py:38-55 | an unknown source, then an unknown target, is an error that changes nothing; otherwise the typed edge is set |
| Graph.LineageGraph.Len | raglineage/lineage/graph.py:161-163 | the number of nodes |
| Graph.LineageGraph.GetNode | raglineage/lineage/graph.py:94-106 | the record under the id exactly when the id is a node, else None |
| Graph.LineageGraph.ExpandLevel | raglineage/lineage/graph.py:76-87 | the next level is the unvisited neighbours, either direction, of the current level, all now visited |
| Graph.LineageGraph.Neighbors | raglineage/lineage/graph.py:57-92 | nothing for an unknown id; else exactly the ids within `depth` hops, either direction, other than the id itself, each once |
| Graph.LineageGraph.ExportJson | raglineage/lineage/graph.py:108-136 | a summary of every node under its id and every edge listed once with its type |
| Graph.LineageGraph.AddRegistryNodes | raglineage/lineage/graph.py:149-151 | every listed id the registry knows is added with the registry's record |
| Graph.LineageGraph.AddListedEdges | raglineage/lineage/graph.py:154-159 | every listed edge whose two endpoints are nodes is added, in list order |
| Graph.LineageGraph.LoadJson | raglineage/lineage/graph.py:138-159 | after a reload the nodes are the listed ids the registry knows and the edges those listed between them |
| Graph.ExportLoadRoundTrip | raglineage/lineage/graph.py:108-159 | exporting and reloading with a registry that knows every node gives back the same nodes and edges |
| Mapping.InverseRemove | raglineage/store/mapping.py:47-52 | removing an id and its index keeps the two dictionaries inverse, one entry smaller each |
| Mapping.InverseSize | raglineage/store/mapping.py:14-76 | inverse dictionaries have the same number of entries |
| Mapping.LNMapping.constructor | raglineage/store/mapping.py:14-18 | a new mapping is empty with counter 0 |
| Mapping.LNMapping.Add | raglineage/store/mapping.py:20-37 | a mapped id keeps its index and changes nothing; a new id gets the counter's value, mapped both ways, and the counter grows by one |
| Mapping.LNMapping.GetIdx | raglineage/store/mapping.py:39-41 | the index of a mapped id, None otherwise |
| Mapping.LNMapping.GetLnId | raglineage/store/mapping.py:43-45 | the id behind an index in use, None otherwise |
| Mapping.LNMapping.Remove | raglineage/store/mapping.py:47-52 | an unmapped id changes nothing; a mapped one loses both directions; the counter never goes back |
| Mapping.LNMapping.Len | raglineage/store/mapping.py:74-76 | the number of ids, which equals the number of indices in use |
| Mapping.LookupRoundTrip | raglineage/store/mapping.py:39-45 | id to index and index to id invert each other |
| Filters.FilteredSubsequence | raglineage/retrieval/filters.py:50-74 | filtering keeps an order-preserving subsequence of the pairs, each unchanged |
| Filters.FilteredMembers | raglineage/retrieval/filters.py:51-72 | a pair is kept exactly when its score reaches the minimum, its id is known, and version, uri and type match every set, non-empty criterion |
| Filters.FilteredKeepsAll | raglineage/retrieval/filters.py:50-74 | nothing is dropped exactly when every pair passes |
| Filters.FilteredLength | raglineage/retrieval/filters.py:50-74 | filtering never lengthens |
| Filters.DefaultConfigPasses | raglineage/retrieval/filters.py:14-33 | with no criteria a pair passes exactly when its score is not negative and its id is known |
| Filters.ApplyFilters | raglineage/retrieval/filters.py:36-74 | the loop returns exactly the specified filtered pairs |
| Retriever.Prefix | raglineage/retrieval/retriever.py:71-88 | Python's `[:k]`: a prefix, of length k capped by the length, or all but the last -k for negative k |
| Retriever.InsertCount | raglineage/retrieval/retriever.py:86 | insertion adds exactly the one pair |
| Retriever.InsertSorted | raglineage/retrieval/retriever.py:86 | insertion keeps a descending list descending |
| Retriever.SortByScoreSorted | raglineage/retrieval/retriever.py:86 | the sort yields non-increasing scores and a permutation of the input |
| Retriever.InsertLowest | raglineage/retrieval/retriever.py:86 | a pair scoring no higher than all others lands at the end (ties keep their order) |
| Retriever.SortByScoreFixed | raglineage/retrieval/retriever.py:86 | the sort is stable: a descending list comes through unchanged |
| Retriever.PrefixSorted | raglineage/retrieval/retriever.py:86-88 | cutting a sorted list keeps it sorted |
| Retriever.AddNeighbors | raglineage/retrieval/retriever.py:78-81 | every neighbour the registry knows is added at score 0.8 and nothing else |
| Retriever.Retriever.constructor | raglineage/retrieval/retriever.py:20-39 | the retriever holds the given graph, registry and search |
| Retriever.Retriever.Retrieve | raglineage/retrieval/retriever.py:41-88 | no expansion: the first k candidates (filtered when a configuration is given) stably sorted; expansion: pairs of kept results and known neighbours at 0.8, none twice, k of them or all; always sorted descending and at most k long |
| Retriever.NoRepeatsMultiset | raglineage/retrieval/retriever.py:75-83 | a list has no repeats exactly when each pair occurs at most once |
| Retriever.ExpandedResult | raglineage/retrieval/retriever.py:83-88 | cutting a listing of the expanded set and sorting it keeps only pairs of the set, none twice, k of them or all |
| Checks.CheckVersionConsistency | raglineage/audit/checks.py:12-31 | unknown exactly for an empty lineage; single_version exactly when all entries share one version; mixed_versions exactly when two differ |
| Checks.StripV | raglineage/audit/checks.py:59-60 | every "v" is deleted |
| Checks.MaxParsedIsMax | raglineage/audit/checks.py:60-61 | None exactly when some version does not parse; otherwise the largest parsed version, which some entry has |
| Checks.CheckStaleness | raglineage/audit/checks.py:34-70 | warning for an empty lineage; pass without a current version or when it is used; fail only when every used version parses and trails the current one by more than 1.0 |
| Checks.StalenessByGap | raglineage/audit/checks.py:57-68 | otherwise a parse failure passes, and the gap to the newest used version decides fail (> 1.0), warning (> 0.0) or pass, each both ways |
| Checks.StalenessExample | raglineage/audit/checks.py:57-65 | "v2.0" against an answer on "v1.5" is a warning |
| Checks.RiskFlagsShape | raglineage/audit/checks.py:83-98 | no message twice, and a message exactly when some transform of the lineage is risky with that message |
| Checks.RiskFlagsSnoc | raglineage/audit/checks.py:91-96 | one more transform name adds its message only when the name is risky and the message is not already raised |
| Checks.RiskFlagsBounded | raglineage/audit/checks.py:84-89 | only the four table messages appear, so at most four |
| Checks.AddChainRisks | raglineage/audit/checks.py:92-96 | the inner loop over one chain extends the flags as for the longer run |
| Checks.CheckTransformRisks | raglineage/audit/checks.py:73-98 | the nested loop returns the specified flags, entry by entry, chain in order |
| Auditor.Auditor.Audit | raglineage/audit/auditor.py:28-48 | the report carries the three checks' results against the auditor's fixed current version, no id and empty metadata |
| Auditor.AuditEmptyLineage | raglineage/audit/auditor.py:38-47 | an empty lineage: unknown, warning, no flags |
| Auditor.AuditAllCurrent | raglineage/audit/auditor.py:38-39 | an answer wholly on the current version is single-version and passes |
| Auditor.AuditAggressiveOnly | raglineage/audit/auditor.py:40 | aggressively normalised records raise exactly the aggressive-normalisation message, once |
| Auditor.RiskFlagsRepeated | raglineage/audit/checks.py:91-96 | one risky name repeated raises its message once |
| Pipeline.ChunkerFor | raglineage/api.py:168-171 | the semantic chunker exactly when the strategy is "semantic", else the simple one, with the configured size and overlap |
| Pipeline.ChunkStageSnoc | raglineage/api.py:192-195 | the chunk stage over one more record is the earlier output followed by that record's chunks |
| Pipeline.StagedRecords | raglineage/api.py:188-195 | what one ingested record becomes keeps its source and version, its chain extended by exactly the enabled stage names in order |
| Pipeline.PipelineAppendFile | raglineage/api.py:173-197 | with deduplication, one more file's records pass the filter as left by the earlier files |
| Pipeline.PipelineHashesDistinct | raglineage/api.py:173-197 | with deduplication, no two collected records share a hash, across files as within one |
| Pipeline.SurvivorsThread | raglineage/api.py:173-195 | one filter carried through two runs yields what one run over both yields |
| Pipeline.ChunkEach | raglineage/api.py:192-195 | the per-stage loop for the chunker yields the specified chunk stage |
| Pipeline.NormalizeEach | raglineage/api.py:192-195 | the per-stage loop for the normaliser yields the specified normalise stage |
| Pipeline.RunStages | raglineage/api.py:188-195 | one record through chunker, normaliser and filter, as enabled, yields the staged records, filtered when the filter is there |
| Pipeline.ProcessRecords | raglineage/api.py:186-197 | the records of one file through the stages, the filter carrying over from record to record |
| Pipeline.RunPipeline | raglineage/api.py:173-197 | every listed file through the stages with one fresh filter for the run yields the specified output |
| Api.ChunkIdParts | raglineage/api.py:209-211 | a chunk id splits at its last "_chunk_" into parent and index, and at its last "_" into parent+"_chunk" and index |
| Api.PrevChunkId | raglineage/api.py:209-213 | an id without "_chunk_" has no predecessor; an error or a predecessor needs the marker |
| Api.PrevChunkIdOfChunk | raglineage/api.py:209-213 | chunk k reads as following chunk k-1 of the same parent; chunk 0 follows nothing |
| Api.PrevChunkIdMalformed | raglineage/api.py:211 | an id whose text after the last "_" does not read as an integer stops the build with an error |
| Api.Register | raglineage/api.py:203-206 | registering keeps every id and adds each record's id, each record under its own id |
| Api.RegisterKeys | raglineage/api.py:203-206 | the registry knows the ids it knew and the run's ids, and no others |
| Api.RegisterLastWins | raglineage/api.py:203-206 | a later record with the same id replaces an earlier one |
| Api.RegisterKeepsOthers | raglineage/api.py:305-313 | ids the run does not carry keep their records (old records are never dropped) |
| Api.LinkedOk | raglineage/api.py:203-215 | the indexing loop finishes without error exactly when every id reads cleanly |
| Api.LinkedEdges | raglineage/api.py:208-215 | the edges after indexing are the old ones plus one "adjacent" edge per record whose predecessor is already registered, and no others |
| Api.ChunkLinks | raglineage/api.py:209-215 | every added edge runs from chunk k-1 to chunk k of the same parent |
| Api.ChunkIdsReadable | raglineage/api.py:209-211 | chunk ids always read cleanly |
| Api.PipelineChunkIds | raglineage/api.py:184-197 | every record the pipeline collects carries a chunk id |
| Api.LinkedErrSticks | raglineage/api.py:203-215 | the first unreadable id stops the loop: nothing after it is indexed |
| Api.Existing | raglineage/api.py:286-289 | the paths processed are exactly the targets that exist |
| Api.EntryPaths | raglineage/api.py:263 | the paths of a recorded version are the listed paths that exist, in order |
| Api.EntriesHashMap | raglineage/lineage/versioning.py:109-120 | a recorded version's dictionary maps every existing listed path to its hash on disk |
| Api.UpdateAllFiles | raglineage/api.py:262-289 | without changed_only every existing listed path is processed, in listing order |
| Api.UpdateChangedFiles | raglineage/api.py:258-289 | with changed_only a path is processed exactly when it exists and is new or its hash changed |
| Api.Entries | raglineage/api.py:348-360 | at most one entry per result |
| Api.EntriesMembers | raglineage/api.py:349-360 | an entry exists exactly for a result naming a known record, copying that record's source, version and chain with the result's score |
| Api.EntriesAllKnown | raglineage/api.py:349-360 | when every result is known, one entry per result in order |
| Api.EntriesIds | raglineage/api.py:349-360 | each entry names the result it came from, with its score |
| Api.BuildEntries | raglineage/api.py:348-360 | the loop collects exactly the specified entries |
| Api.Answer | raglineage/api.py:342-367 | a KeyError exactly when the top result is unknown; otherwise the question, the count lead, the first 200 characters of the top record (all of it when shorter) followed by "...", and the lineage entries |
| Api.Lookup | raglineage/lineage/versioning.py:135-148 | a found version is recorded in the loaded manifest with the tag |
| Api.Baseline | raglineage/api.py:230-245 | the baseline exists only when there is a current tag and it resolves |
| Api.RagLineage.constructor | raglineage/api.py:37-93 | empty graph and registry, a store over the root with nothing cached |
| Api.RagLineage.IndexNodes | raglineage/api.py:203-215 | records registered and added in order, linked to their registered predecessors; the first unreadable id stops with its error |
| Api.RagLineage.Build | raglineage/api.py:142-220 | a manifest file that is not JSON raises before anything changes; otherwise the version is recorded last and current, and the pipeline output is registered and linked, never hitting an error |
| Api.RagLineage.RegisterNodes | raglineage/api.py:305-313 | records registered and added with no edge |
| Api.RagLineage.Update | raglineage/api.py:222-315 | a manifest file that is not JSON raises at the first lookup and nothing changes; without a resolving current version a full build; otherwise the new version recorded, the selected existing files' output registered without edges |
| Api.RagLineage.Refresh | raglineage/api.py:247-313 | records the version, processes the selected existing files, registers their output without edges or removals |
| Api.RagLineage.Query | raglineage/api.py:317-367 | results are exactly what `retrieve` promises over the live graph and registry with the configured depth: without expansion the first k filtered candidates stably sorted; with expansion members of the expanded set, none twice, k of them or all; always sorted and at most k; the answer as `Answer` over them |
| Api.RagLineage.Diff | raglineage/api.py:385-406 | the decoder's error when the manifest file is not JSON; "Version not found" for the first tag that does not resolve, the from tag checked first; otherwise the diff of the two |

## Left out

- Embedding, the FAISS vector store and its L2-to-score conversion: the store's search is a parameter `search(query, k)` returning scored ids.
- SHA-256 hashing of content and files: a deterministic function parameter.
- Ingestion (file reading, CSV/JSON parsing, random ids): the records an ingestor yields for a path are a parameter.
- Logging, `ensure_dir` and the JSON save/load bodies: `_load_graph`/`_save_graph`, mapping save/load and manifest JSON are I/O; the graph's export/load shape is modelled on values instead.
- Pydantic validation: a manifest file is `NoFile`, `Unparseable` (not JSON: the decoder raises), `Invalid` (JSON that fails validation: None) or `Saved(doc)`, and loading succeeds exactly for the last.
- Timestamps: opaque values; each `build` or `update` takes one clock reading `now` for all records and the version.
- Floats: scores are reals and `float()` on version strings is a partial parameter; binary rounding is not modelled.
- The source listing: `rglob` over the root is a parameter `listing`; it may contain the store's own files, as the source's listing does.
- Api.RagLineage.Update: does not model the graph reload from its saved file that `update` performs, because saving and loading are left out; the in-memory graph is kept.
- Api.RagLineage.Query: builds a fresh retriever over the current graph and registry on each call instead of caching one; the source's cached retriever shares the same live registry and graph, so the results agree. It also returns the retrieved results next to the answer.
- Api.RagLineage.IndexNodes: the edge rule is stated for any id reader; `build` instantiates it with `PrevChunkId`.
- Api.RagLineage.Build: requires that the configured chunker finishes on every ingested record. For content longer than the chunk size the simple chunker needs `0 < size` and `overlap < size`: with `overlap >= size` the loop never ends, and non-positive sizes, where Python's negative slice bounds wrap around, are not modelled.
- Api.RagLineage.Update: requires the same termination of the chunker for every existing file.
- `RagLineage.audit`, `_initialize_embedder`, `_initialize_store` and the constructor's configuration record: they only cache and wire objects that are modelled separately (`Auditor`) or left out (embedder, store).
- RemoveSpecial (Normalize.RemoveSpecial): `\w` is modelled as ASCII letters, digits and `_` (Normalize.KeepAggressive over Text.IsWordChar), while the source's `str` pattern is Unicode and also keeps non-ASCII letters and digits: "Café Über" loses "é" and "Ü" here, not in the source.
- RemoveSpecialIdentity (Normalize.RemoveSpecialIdentity): stated over the ASCII kept set of the line above, so it says nothing about the non-ASCII word characters the source keeps.
- NormalizeContent (Normalize.NormalizeContent): in aggressive mode inherits the ASCII `\w` above and the ASCII `lower()` below.
- NormalizeAggressiveShape: `str.lower()` is modelled as ASCII case folding (Text.LowerChar, Text.Lower), so "no upper-case letter" covers A–Z only, non-ASCII capitals stay as they are, and the model keeps the length, which Unicode lowering can change ("İ" becomes two code points); the kept set is the ASCII one above.
- Transform (Normalize.NormalizeTransform.Transform): aggressive-mode content inherits the ASCII `\w` and ASCII `lower()` described on the lines above; basic mode, whose whitespace classes are modelled over the full Unicode set of `str.isspace()`, is not affected.
- ParseInt (Text.ParseInt): accepts ASCII digits only; Python's `int()` also accepts other Unicode decimal digits and single underscores between digits. Chunk ids built by the chunkers only carry ASCII digits, so the chunk-link rule is unaffected.
- Stale records of removed or changed files are never purged from the registry by `update`, as in the source.
- `LNMapping.save`/`load`: JSON I/O.

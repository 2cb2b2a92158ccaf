/**
 * How `build` and `update` compose the stages: every ingested record goes
 * through the chunker, then the normaliser and then the deduplicator when
 * those are enabled, each stage flat-mapped over the records the previous one
 * produced; one deduplicator serves the whole run.
 */
module Pipeline {
  import opened LineageNodes
  import opened Chunkers
  import opened Normalize
  import opened Dedupe

  /** The settings the pipeline reads. */
  datatype Settings = Settings(
    chunkSize: int,
    chunkOverlap: int,
    chunkingStrategy: string,
    enableDedupe: bool,
    enableNormalize: bool,
    normalizeAggressive: bool)

  /** The chunker a build or an update uses: the sentence accumulator exactly when the strategy is "semantic". */
  function ChunkerFor(cfg: Settings): (t: ChunkerTransform)
    ensures t.SemanticChunkerTransform? <==> cfg.chunkingStrategy == "semantic"
    ensures t.Name() == (if cfg.chunkingStrategy == "semantic" then "semantic_chunk" else "simple_chunk")
    ensures t.chunkSize == cfg.chunkSize && t.overlap == cfg.chunkOverlap
  {
    if cfg.chunkingStrategy == "semantic" then SemanticChunkerTransform(cfg.chunkSize, cfg.chunkOverlap)
    else SimpleChunkerTransform(cfg.chunkSize, cfg.chunkOverlap)
  }

  /** The chunker finishes on every record of the list (the sliding window loops forever on some settings). */
  predicate Chunkable(t: ChunkerTransform, nodes: seq<LineageNode>) {
    forall k :: 0 <= k < |nodes| ==> t.Accepts(nodes[k].content)
  }

  /** The configured chunker finishes on every record ingested from every listed file. */
  predicate Ingestible(cfg: Settings, files: seq<string>, ingest: string -> seq<LineageNode>) {
    forall i :: 0 <= i < |files| ==> Chunkable(ChunkerFor(cfg), ingest(files[i]))
  }

  /** The chunk stage flat-mapped over a list: the chunk records of each record in turn. */
  function ChunkStage(t: ChunkerTransform, nodes: seq<LineageNode>, hash: string -> string, now: Timestamp): seq<LineageNode>
    requires Chunkable(t, nodes)
    decreases |nodes|
  {
    if nodes == [] then []
    else ChunkStage(t, nodes[..|nodes| - 1], hash, now) + ChunkTransformOutput(t, nodes[|nodes| - 1], hash, now)
  }

  /** The chunk stage over a one-record list is that record's chunk records. */
  lemma ChunkStageSingle(t: ChunkerTransform, ln: LineageNode, hash: string -> string, now: Timestamp)
    requires t.Accepts(ln.content)
    ensures Chunkable(t, [ln])
    ensures ChunkStage(t, [ln], hash, now) == ChunkTransformOutput(t, ln, hash, now)
  {
    assert [ln][..0] == [];
  }

  /** The chunk stage over one more record: the earlier output followed by the new record's chunk records. */
  lemma ChunkStageSnoc(t: ChunkerTransform, nodes: seq<LineageNode>, i: int, hash: string -> string, now: Timestamp)
    requires Chunkable(t, nodes) && 0 <= i < |nodes|
    ensures Chunkable(t, nodes[..i]) && Chunkable(t, nodes[..i + 1])
    ensures ChunkStage(t, nodes[..i + 1], hash, now) == ChunkStage(t, nodes[..i], hash, now) + ChunkTransformOutput(t, nodes[i], hash, now)
  {
    assert nodes[..i + 1][..i] == nodes[..i];
  }

  /** The staged records of one more ingested record: the earlier ones, then the new record's. */
  lemma StagedAllSnoc(cfg: Settings, records: seq<LineageNode>, j: int, hash: string -> string, now: Timestamp)
    requires Chunkable(ChunkerFor(cfg), records) && 0 <= j < |records|
    ensures Chunkable(ChunkerFor(cfg), records[..j]) && Chunkable(ChunkerFor(cfg), records[..j + 1])
    ensures ChunkerFor(cfg).Accepts(records[j].content)
    ensures StagedAll(cfg, records[..j + 1], hash, now) == StagedAll(cfg, records[..j], hash, now) + Staged(cfg, records[j], hash, now)
  {
    assert records[..j + 1][..j] == records[..j];
  }

  /** The names the stages before deduplication append to a record's chain, in order. */
  function StageNames(cfg: Settings): seq<string> {
    [ChunkerFor(cfg).Name()] + (if cfg.enableNormalize then [NormalizeTransform(cfg.normalizeAggressive).Name()] else [])
  }

  /** One ingested record through the chunker and then, when enabled, the normaliser. */
  function Staged(cfg: Settings, ln: LineageNode, hash: string -> string, now: Timestamp): seq<LineageNode>
    requires ChunkerFor(cfg).Accepts(ln.content)
  {
    var chunked := ChunkStage(ChunkerFor(cfg), [ln], hash, now);
    if cfg.enableNormalize then NormalizeStage(NormalizeTransform(cfg.normalizeAggressive), chunked, hash, now)
    else chunked
  }

  /** The records of one file through the stages before deduplication, record by record. */
  function StagedAll(cfg: Settings, records: seq<LineageNode>, hash: string -> string, now: Timestamp): seq<LineageNode>
    requires Chunkable(ChunkerFor(cfg), records)
    decreases |records|
  {
    if records == [] then []
    else StagedAll(cfg, records[..|records| - 1], hash, now) + Staged(cfg, records[|records| - 1], hash, now)
  }

  /** The records of every file, file by file, through the stages before deduplication. */
  function StagedFiles(cfg: Settings, files: seq<string>, ingest: string -> seq<LineageNode>,
                       hash: string -> string, now: Timestamp): seq<LineageNode>
    requires Ingestible(cfg, files, ingest)
    decreases |files|
  {
    if files == [] then []
    else StagedFiles(cfg, files[..|files| - 1], ingest, hash, now) + StagedAll(cfg, ingest(files[|files| - 1]), hash, now)
  }

  /** What a build or an update collects: the staged records, filtered by one deduplicator for the whole run when enabled. */
  function PipelineOutput(cfg: Settings, files: seq<string>, ingest: string -> seq<LineageNode>,
                          hash: string -> string, now: Timestamp): seq<LineageNode>
    requires Ingestible(cfg, files, ingest)
  {
    var staged := StagedFiles(cfg, files, ingest, hash, now);
    if cfg.enableDedupe then Survivors({}, staged) else staged
  }

  /**
   * `out` is what became of `ln` through stages named `names`: record `k` is
   * chunk `k` of it, under the id `<parent>_chunk_<k>`, with the parent's source
   * and version and the stage names appended to its chain.
   */
  predicate DerivedFrom(out: seq<LineageNode>, ln: LineageNode, names: seq<string>) {
    forall k :: 0 <= k < |out| ==>
      && out[k].lnId == ChunkId(ln.lnId, k)
      && out[k].source == ln.source
      && out[k].datasetVersion == ln.datasetVersion
      && out[k].transformChain == ln.transformChain + names
  }

  /** The records one ingested record becomes are derived from it through the enabled stages. */
  lemma StagedRecords(cfg: Settings, ln: LineageNode, hash: string -> string, now: Timestamp)
    requires ChunkerFor(cfg).Accepts(ln.content)
    ensures DerivedFrom(Staged(cfg, ln, hash, now), ln, StageNames(cfg))
  {
    var t := ChunkerFor(cfg);
    ChunkStageSingle(t, ln, hash, now);
    var chunked := ChunkTransformOutput(t, ln, hash, now);
    ChunkKeeps(t, ln, hash, now);
    if cfg.enableNormalize {
      var nt := NormalizeTransform(cfg.normalizeAggressive);
      assert Staged(cfg, ln, hash, now) == NormalizeStage(nt, chunked, hash, now);
      NormalizedChunks(ln, chunked, t.Name(), nt, hash, now);
    } else {
      assert Staged(cfg, ln, hash, now) == chunked;
    }
  }

  /** Normalising records derived from `ln` keeps them derived from it, with the normaliser's name added. */
  lemma NormalizedChunks(ln: LineageNode, chunked: seq<LineageNode>, name: string, nt: NormalizeTransform,
                         hash: string -> string, now: Timestamp)
    requires DerivedFrom(chunked, ln, [name])
    ensures DerivedFrom(NormalizeStage(nt, chunked, hash, now), ln, [name, nt.Name()])
  {
    var out := NormalizeStage(nt, chunked, hash, now);
    forall k | 0 <= k < |out| ensures out[k].transformChain == ln.transformChain + [name, nt.Name()] {
      assert out[k].transformChain == (ln.transformChain + [name]) + [nt.Name()];
    }
  }

  /** The chunk records of a record are derived from it through the chunker. */
  lemma ChunkKeeps(t: ChunkerTransform, ln: LineageNode, hash: string -> string, now: Timestamp)
    requires t.Accepts(ln.content)
    ensures DerivedFrom(ChunkTransformOutput(t, ln, hash, now), ln, [t.Name()])
  {
    ChunkTransformRecords(t, ln, hash, now);
  }

  /** The staged records of a list of files followed by one more file: the earlier ones, then the new file's. */
  lemma StagedFilesSnoc(cfg: Settings, files: seq<string>, i: int, ingest: string -> seq<LineageNode>,
                        hash: string -> string, now: Timestamp)
    requires Ingestible(cfg, files, ingest) && 0 <= i < |files|
    ensures Ingestible(cfg, files[..i], ingest) && Ingestible(cfg, files[..i + 1], ingest)
    ensures StagedFiles(cfg, files[..i + 1], ingest, hash, now)
            == StagedFiles(cfg, files[..i], ingest, hash, now) + StagedAll(cfg, ingest(files[i]), hash, now)
  {
    assert files[..i + 1][..i] == files[..i];
  }

  /**
   * One deduplicator spans all files: a file added at the end contributes only
   * the records whose hashes no earlier file's records carried (nor an
   * earlier record of its own).
   */
  lemma PipelineAppendFile(cfg: Settings, files: seq<string>, f: string, ingest: string -> seq<LineageNode>,
                           hash: string -> string, now: Timestamp)
    requires cfg.enableDedupe
    requires Ingestible(cfg, files, ingest) && Chunkable(ChunkerFor(cfg), ingest(f))
    ensures Ingestible(cfg, files + [f], ingest)
    ensures PipelineOutput(cfg, files + [f], ingest, hash, now)
            == PipelineOutput(cfg, files, ingest, hash, now)
               + Survivors(HashesOf(StagedFiles(cfg, files, ingest, hash, now)), StagedAll(cfg, ingest(f), hash, now))
  {
    var all := files + [f];
    assert all[..|all| - 1] == files && all[|all| - 1] == f;
    assert Ingestible(cfg, all, ingest) by {
      forall i | 0 <= i < |all| ensures Chunkable(ChunkerFor(cfg), ingest(all[i])) {
        if i < |files| {
          assert all[i] == files[i];
        }
      }
    }
    var a := StagedFiles(cfg, files, ingest, hash, now);
    var b := StagedAll(cfg, ingest(f), hash, now);
    assert StagedFiles(cfg, all, ingest, hash, now) == a + b;
    SurvivorsAppend({}, a, b);
    assert {} + HashesOf(a) == HashesOf(a);
  }

  /** With deduplication on, no two records a run collects share a content hash, across files as within one. */
  lemma PipelineHashesDistinct(cfg: Settings, files: seq<string>, ingest: string -> seq<LineageNode>,
                               hash: string -> string, now: Timestamp)
    requires cfg.enableDedupe && Ingestible(cfg, files, ingest)
    ensures forall j, k :: 0 <= j < k < |PipelineOutput(cfg, files, ingest, hash, now)| ==>
              PipelineOutput(cfg, files, ingest, hash, now)[j].contentHash
              != PipelineOutput(cfg, files, ingest, hash, now)[k].contentHash
  {
    SurvivorsDistinct({}, StagedFiles(cfg, files, ingest, hash, now));
  }

  // ---------------------------------------------------------------------------
  // Running the stages

  /** One deduplicator carried through two runs in a row yields what one run over both yields, and remembers the same hashes. */
  lemma SurvivorsThread(seen: set<string>, a: seq<LineageNode>, b: seq<LineageNode>)
    ensures Survivors(seen, a) + Survivors(seen + HashesOf(a), b) == Survivors(seen, a + b)
    ensures seen + HashesOf(a) + HashesOf(b) == seen + HashesOf(a + b)
  {
    SurvivorsAppend(seen, a, b);
    HashesOfAppend(a, b);
  }

  /** `for node in current_nodes: new_nodes.extend(chunker.transform(node))`. */
  method ChunkEach(t: ChunkerTransform, nodes: seq<LineageNode>, hash: string -> string, now: Timestamp)
    returns (out: seq<LineageNode>)
    requires Chunkable(t, nodes)
    ensures out == ChunkStage(t, nodes, hash, now)
  {
    out := [];
    for i := 0 to |nodes|
      invariant out == ChunkStage(t, nodes[..i], hash, now)
    {
      ChunkStageSnoc(t, nodes, i, hash, now);
      var produced := ApplyChunker(t, nodes[i], hash, now);
      out := out + produced;
    }
    assert nodes[..|nodes|] == nodes;
  }

  /** `for node in current_nodes: new_nodes.extend(normalize.transform(node))`. */
  method NormalizeEach(nt: NormalizeTransform, nodes: seq<LineageNode>, hash: string -> string, now: Timestamp)
    returns (out: seq<LineageNode>)
    ensures out == NormalizeStage(nt, nodes, hash, now)
  {
    out := [];
    for i := 0 to |nodes|
      invariant out == NormalizeStage(nt, nodes[..i], hash, now)
    {
      NormalizeStageSnoc(nt, nodes, i, hash, now);
      out := out + nt.Transform(nodes[i], hash, now);
    }
    assert nodes[..|nodes|] == nodes;
  }

  /** One ingested record through the chunker, the normaliser when there is one, and the deduplicator when there is one. */
  method RunStages(cfg: Settings, ln: LineageNode, dedupe: DedupeTransform?, hash: string -> string, now: Timestamp)
    returns (current: seq<LineageNode>)
    requires ChunkerFor(cfg).Accepts(ln.content)
    modifies dedupe
    ensures dedupe == null ==> current == Staged(cfg, ln, hash, now)
    ensures dedupe != null ==>
              && current == Survivors(old(dedupe.seenHashes), Staged(cfg, ln, hash, now))
              && dedupe.seenHashes == old(dedupe.seenHashes) + HashesOf(Staged(cfg, ln, hash, now))
  {
    current := [ln];
    current := ChunkEach(ChunkerFor(cfg), current, hash, now);
    if cfg.enableNormalize {
      current := NormalizeEach(NormalizeTransform(cfg.normalizeAggressive), current, hash, now);
    }
    if dedupe != null {
      current := dedupe.TransformAll(current);
    }
  }

  /** The records ingested from one file, each through the stages, the deduplicator carrying over from record to record. */
  method ProcessRecords(cfg: Settings, records: seq<LineageNode>, dedupe: DedupeTransform?,
                        hash: string -> string, now: Timestamp) returns (out: seq<LineageNode>)
    requires Chunkable(ChunkerFor(cfg), records)
    modifies dedupe
    ensures dedupe == null ==> out == StagedAll(cfg, records, hash, now)
    ensures dedupe != null ==>
              && out == Survivors(old(dedupe.seenHashes), StagedAll(cfg, records, hash, now))
              && dedupe.seenHashes == old(dedupe.seenHashes) + HashesOf(StagedAll(cfg, records, hash, now))
  {
    out := [];
    for j := 0 to |records|
      invariant dedupe == null ==> out == StagedAll(cfg, records[..j], hash, now)
      invariant dedupe != null ==>
                  && out == Survivors(old(dedupe.seenHashes), StagedAll(cfg, records[..j], hash, now))
                  && dedupe.seenHashes == old(dedupe.seenHashes) + HashesOf(StagedAll(cfg, records[..j], hash, now))
    {
      StagedAllSnoc(cfg, records, j, hash, now);
      ghost var before := StagedAll(cfg, records[..j], hash, now);
      ghost var next := Staged(cfg, records[j], hash, now);
      var current := RunStages(cfg, records[j], dedupe, hash, now);
      if dedupe != null {
        SurvivorsThread(old(dedupe.seenHashes), before, next);
      }
      out := out + current;
    }
    assert records[..|records|] == records;
  }

  /** Every listed file's records through the stages, with one deduplicator, made fresh, for the whole run when enabled. */
  method RunPipeline(cfg: Settings, files: seq<string>, ingest: string -> seq<LineageNode>,
                     hash: string -> string, now: Timestamp) returns (all: seq<LineageNode>)
    requires Ingestible(cfg, files, ingest)
    ensures all == PipelineOutput(cfg, files, ingest, hash, now)
  {
    var dedupe: DedupeTransform? := null;
    if cfg.enableDedupe {
      dedupe := new DedupeTransform();
    }
    all := [];
    for i := 0 to |files|
      invariant Ingestible(cfg, files[..i], ingest)
      invariant dedupe != null <==> cfg.enableDedupe
      invariant dedupe != null ==> fresh(dedupe)
      invariant dedupe == null ==> all == StagedFiles(cfg, files[..i], ingest, hash, now)
      invariant dedupe != null ==>
                  && all == Survivors({}, StagedFiles(cfg, files[..i], ingest, hash, now))
                  && dedupe.seenHashes == HashesOf(StagedFiles(cfg, files[..i], ingest, hash, now))
    {
      StagedFilesSnoc(cfg, files, i, ingest, hash, now);
      ghost var before := StagedFiles(cfg, files[..i], ingest, hash, now);
      ghost var next := StagedAll(cfg, ingest(files[i]), hash, now);
      var part := ProcessRecords(cfg, ingest(files[i]), dedupe, hash, now);
      if dedupe != null {
        SurvivorsThread({}, before, next);
        assert {} + HashesOf(before) == HashesOf(before);
      }
      all := all + part;
    }
    assert files[..|files|] == files;
  }
}

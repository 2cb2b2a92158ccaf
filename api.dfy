/**
 * The top-level `RagLineage` object: the settings, the version store, the
 * lineage graph and the record registry. Modelled here: how `build` indexes
 * what the pipeline produced and links consecutive chunks, which files
 * `update` processes and when it falls back to a full build, how `query`
 * turns retrieval results into lineage entries, and the checks in `diff`.
 * Ingestion, hashing and the vector store's search are parameters.
 */
module Api {
  import opened Wrappers
  import opened Text
  import opened LineageNodes
  import opened Dataset
  import opened AuditSchema
  import opened Chunkers
  import opened Diff
  import opened Versioning
  import opened Graph
  import opened Filters
  import opened Pipeline
  import opened Dedupe
  import Retriever

  // ---------------------------------------------------------------------------
  // Reading chunk ids

  const ChunkMarker: string := "_chunk_"

  /** After a `_chunk_` followed by text without `_`, the marker does not occur again. */
  lemma MarkerOnlyAt(p: string, t: string)
    requires '_' !in t
    ensures forall j :: |p| < j ==> !OccursAt(p + ChunkMarker + t, ChunkMarker, j)
  {
    var s := p + ChunkMarker + t;
    forall j | |p| < j ensures !OccursAt(s, ChunkMarker, j) {
      if j + 7 <= |s| {
        assert s[j..j + 7][6] == s[j + 6] == t[j + 6 - |p| - 7];
      }
    }
  }

  /** The `_` before text without `_` is the last `_` of all. */
  lemma UnderscoreOnlyAt(q: string, t: string)
    requires '_' !in t
    ensures forall j :: |q| < j ==> !OccursAt(q + "_" + t, "_", j)
  {
    var s := q + "_" + t;
    forall j | |q| < j ensures !OccursAt(s, "_", j) {
      if j + 1 <= |s| {
        assert s[j..j + 1][0] == s[j] == t[j - |q| - 1];
      }
    }
  }

  /** Both cuts `build` makes in an id `p_chunk_t` with no `_` in `t`: before the last `_chunk_`, and after the last `_`. */
  lemma MarkedParts(p: string, t: string)
    requires '_' !in t
    ensures Contains(p + ChunkMarker + t, ChunkMarker) && RSplitOnce(p + ChunkMarker + t, ChunkMarker) == [p, t]
    ensures Contains(p + ChunkMarker + t, "_") && RSplitOnce(p + ChunkMarker + t, "_") == [p + "_chunk", t]
  {
    var s := p + ChunkMarker + t;
    MarkerOnlyAt(p, t);
    RSplitAt(s, ChunkMarker, p, t);
    UnderscoreOnlyAt(p + "_chunk", t);
    assert s == (p + "_chunk") + "_" + t;
    RSplitAt(s, "_", p + "_chunk", t);
  }

  /** Both cuts `build` makes in a chunk id: before the last `_chunk_`, and after the last `_`. */
  lemma ChunkIdParts(p: string, k: nat)
    ensures Contains(ChunkId(p, k), ChunkMarker) && RSplitOnce(ChunkId(p, k), ChunkMarker) == [p, NatToString(k)]
    ensures Contains(ChunkId(p, k), "_") && RSplitOnce(ChunkId(p, k), "_") == [p + "_chunk", NatToString(k)]
  {
    var d := NatToString(k);
    assert '_' !in d by {
      forall i | 0 <= i < |d| ensures d[i] != '_' { assert IsDigit(d[i]); }
    }
    MarkedParts(p, d);
  }

  /**
   * What `build` reads from a record id: nothing when the id has no `_chunk_`;
   * otherwise the text after the last `_` must read as an integer (an error
   * message stands for the ValueError), and an index above 0 names the
   * previous chunk of the part before the last `_chunk_`.
   */
  function PrevChunkId(id: string): (r: Result<Option<string>, string>)
    ensures !Contains(id, ChunkMarker) ==> r == Ok(None)
    ensures r.Err? || r.value.Some? ==> Contains(id, ChunkMarker)
  {
    if !Contains(id, ChunkMarker) then Ok(None)
    else
      var k := LastIndexOf(id, ChunkMarker).value;
      assert OccursAt(id, "_", k) by {
        assert id[k..k + 1] == id[k..k + 7][..1];
      }
      var base := RSplitOnce(id, ChunkMarker)[0];
      var tail := RSplitOnce(id, "_")[1];
      match ParseInt(tail)
      case None => Err("invalid literal for int() with base 10: '" + tail + "'")
      case Some(n) => if n > 0 then Ok(Some(base + ChunkMarker + NatToString(n - 1))) else Ok(None)
  }

  /** Chunk `k` of a record reads back as having chunk `k - 1` of the same record before it, and chunk 0 as having none. */
  lemma PrevChunkIdOfChunk(p: string, k: nat)
    ensures PrevChunkId(ChunkId(p, k)) == Ok(if k > 0 then Some(ChunkId(p, k - 1)) else None)
  {
    ChunkIdParts(p, k);
    ParseIntOfNat(k);
  }

  /** An id `p_chunk_t` whose `t` has no `_` and does not read as an integer stops the build with an error. */
  lemma PrevChunkIdMalformed(p: string, t: string)
    requires '_' !in t && ParseInt(t) == None
    ensures PrevChunkId(p + ChunkMarker + t).Err?
  {
    MarkedParts(p, t);
  }

  // ---------------------------------------------------------------------------
  // Indexing a run of records

  /** The registry after a run of records: each stored under its id, a later record replacing an earlier one. */
  function Register(registry: map<string, LineageNode>, nodes: seq<LineageNode>): (r: map<string, LineageNode>)
    ensures forall id :: id in registry ==> id in r
    ensures forall i :: 0 <= i < |nodes| ==> nodes[i].lnId in r
    ensures WellKeyed(registry) ==> WellKeyed(r)
    decreases |nodes|
  {
    if nodes == [] then registry
    else Register(registry, nodes[..|nodes| - 1])[nodes[|nodes| - 1].lnId := nodes[|nodes| - 1]]
  }

  /** The registry after a run knows the ids it knew and the ids of the run, and no others. */
  lemma {:induction false} RegisterKeys(registry: map<string, LineageNode>, nodes: seq<LineageNode>)
    ensures forall id :: id in Register(registry, nodes) <==> id in registry || exists i :: 0 <= i < |nodes| && nodes[i].lnId == id
    decreases |nodes|
  {
    if nodes != [] {
      var init := nodes[..|nodes| - 1];
      RegisterKeys(registry, init);
      assert forall i :: 0 <= i < |init| ==> init[i] == nodes[i];
    }
  }

  /** Registering one more record of a run stores it under its id. */
  lemma RegisterSnoc(registry: map<string, LineageNode>, nodes: seq<LineageNode>, i: int)
    requires 0 <= i < |nodes|
    ensures Register(registry, nodes[..i + 1]) == Register(registry, nodes[..i])[nodes[i].lnId := nodes[i]]
  {
    var run := nodes[..i + 1];
    assert run[..i] == nodes[..i] && run[i] == nodes[i];
  }

  /** A record no later record of the run shares an id with is what the registry holds under that id. */
  lemma {:induction false} RegisterLastWins(registry: map<string, LineageNode>, nodes: seq<LineageNode>, i: int)
    requires 0 <= i < |nodes|
    requires forall j :: i < j < |nodes| ==> nodes[j].lnId != nodes[i].lnId
    ensures Register(registry, nodes)[nodes[i].lnId] == nodes[i]
    decreases |nodes|
  {
    if i < |nodes| - 1 {
      var init := nodes[..|nodes| - 1];
      RegisterLastWins(registry, init, i);
    }
  }

  /** An id the run does not carry keeps the record it had. */
  lemma {:induction false} RegisterKeepsOthers(registry: map<string, LineageNode>, nodes: seq<LineageNode>, id: string)
    requires id in registry
    requires forall j :: 0 <= j < |nodes| ==> nodes[j].lnId != id
    ensures Register(registry, nodes)[id] == registry[id]
    decreases |nodes|
  {
    if nodes != [] {
      var init := nodes[..|nodes| - 1];
      RegisterKeepsOthers(registry, init, id);
    }
  }

  /**
   * How an id is read for linking: an error, no predecessor, or the id of the
   * predecessor. `build` reads ids with `PrevChunkId`; the walk below is
   * stated for any reading so that its properties do not depend on the
   * string handling.
   */
  type IdReader = string -> Result<Option<string>, string>

  /** Record `i` of a run gets an edge from its predecessor: its id reads cleanly, names a predecessor, and that one is registered once record `i` is. */
  predicate LinksAt(read: IdReader, registry: map<string, LineageNode>, nodes: seq<LineageNode>, i: int)
    requires 0 <= i < |nodes|
  {
    var prev := read(nodes[i].lnId);
    prev.Ok? && prev.value.Some? && prev.value.value in Register(registry, nodes[..i + 1])
  }

  /**
   * The edges after `build` has indexed a run of records, record by record: an
   * "adjacent" edge from the predecessor where `LinksAt` holds, and the first
   * id that does not read cleanly stops the run with its error.
   */
  function Linked(read: IdReader, registry: map<string, LineageNode>, edges: Edges, nodes: seq<LineageNode>): Result<Edges, string>
    decreases |nodes|
  {
    if nodes == [] then Ok(edges)
    else
      var n := |nodes| - 1;
      var before := Linked(read, registry, edges, nodes[..n]);
      if before.Err? then before
      else
        var prev := read(nodes[n].lnId);
        if prev.Err? then Err(prev.error)
        else if LinksAt(read, registry, nodes, n) then Ok(before.value[(prev.value.value, nodes[n].lnId) := Adjacent])
        else before
  }

  /** Every id of the run reads cleanly. */
  predicate Readable(read: IdReader, nodes: seq<LineageNode>) {
    forall i :: 0 <= i < |nodes| ==> read(nodes[i].lnId).Ok?
  }

  /** The run is indexed without error exactly when every id in it reads cleanly. */
  lemma {:induction false} LinkedOk(read: IdReader, registry: map<string, LineageNode>, edges: Edges, nodes: seq<LineageNode>)
    ensures Linked(read, registry, edges, nodes).Ok? <==> Readable(read, nodes)
    decreases |nodes|
  {
    if nodes != [] {
      var init := nodes[..|nodes| - 1];
      LinkedOk(read, registry, edges, init);
      assert forall i :: 0 <= i < |init| ==> init[i] == nodes[i];
    }
  }

  /** The edge record `i` of a run gets when `LinksAt` holds. */
  function LinkOf(read: IdReader, nodes: seq<LineageNode>, i: int): (string, string)
    requires 0 <= i < |nodes| && read(nodes[i].lnId).Ok? && read(nodes[i].lnId).value.Some?
  {
    (read(nodes[i].lnId).value.value, nodes[i].lnId)
  }

  /** The edges a run adds, described position by position. */
  ghost function NewLinks(read: IdReader, registry: map<string, LineageNode>, nodes: seq<LineageNode>): set<(string, string)> {
    set i | 0 <= i < |nodes| && LinksAt(read, registry, nodes, i) :: LinkOf(read, nodes, i)
  }

  /** The edges of a run are those of the run without its last record, plus the last record's edge if it gets one. */
  lemma NewLinksSnoc(read: IdReader, registry: map<string, LineageNode>, nodes: seq<LineageNode>)
    requires |nodes| >= 1
    ensures NewLinks(read, registry, nodes) == NewLinks(read, registry, nodes[..|nodes| - 1])
              + (if LinksAt(read, registry, nodes, |nodes| - 1) then {LinkOf(read, nodes, |nodes| - 1)} else {})
  {
    var n := |nodes| - 1;
    forall i | 0 <= i < n ensures LinksAt(read, registry, nodes, i) == LinksAt(read, registry, nodes[..n], i) {
      assert nodes[..n][..i + 1] == nodes[..i + 1];
      assert nodes[..n][i] == nodes[i];
    }
  }

  /**
   * Indexing without error adds exactly the edges `NewLinks` describes, each
   * of type "adjacent", and leaves every other edge as it was.
   */
  lemma {:induction false} LinkedEdges(read: IdReader, registry: map<string, LineageNode>, edges: Edges, nodes: seq<LineageNode>)
    requires Linked(read, registry, edges, nodes).Ok?
    ensures forall pr :: pr in Linked(read, registry, edges, nodes).value <==> pr in edges || pr in NewLinks(read, registry, nodes)
    ensures forall pr :: pr in NewLinks(read, registry, nodes) ==> Linked(read, registry, edges, nodes).value[pr] == Adjacent
    ensures forall pr :: pr in edges && pr !in NewLinks(read, registry, nodes) ==> Linked(read, registry, edges, nodes).value[pr] == edges[pr]
    decreases |nodes|
  {
    if nodes != [] {
      var init := nodes[..|nodes| - 1];
      LinkedEdges(read, registry, edges, init);
      NewLinksSnoc(read, registry, nodes);
    }
  }

  // ---------------------------------------------------------------------------
  // What the pipeline hands to `build`

  /** `id` names some chunk of some record. */
  ghost predicate IsChunkId(id: string) {
    exists p: string, k: nat :: id == ChunkId(p, k)
  }

  /** Every record of the run carries a chunk id. */
  ghost predicate ChunkIds(nodes: seq<LineageNode>) {
    forall i :: 0 <= i < |nodes| ==> IsChunkId(nodes[i].lnId)
  }

  lemma ChunkIdsAppend(a: seq<LineageNode>, b: seq<LineageNode>)
    requires ChunkIds(a) && ChunkIds(b)
    ensures ChunkIds(a + b)
  {
    forall i | 0 <= i < |a + b| ensures IsChunkId((a + b)[i].lnId) {
      if i < |a| { assert (a + b)[i] == a[i]; } else { assert (a + b)[i] == b[i - |a|]; }
    }
  }

  /** The records one ingested record becomes all carry chunk ids. */
  lemma StagedChunkIds(cfg: Settings, ln: LineageNode, hash: string -> string, now: Timestamp)
    requires ChunkerFor(cfg).Accepts(ln.content)
    ensures ChunkIds(Staged(cfg, ln, hash, now))
  {
    var out := Staged(cfg, ln, hash, now);
    StagedRecords(cfg, ln, hash, now);
    forall i | 0 <= i < |out| ensures IsChunkId(out[i].lnId) {
      assert out[i].lnId == ChunkId(ln.lnId, i);
    }
  }

  lemma {:induction false} StagedAllChunkIds(cfg: Settings, records: seq<LineageNode>, hash: string -> string, now: Timestamp)
    requires Chunkable(ChunkerFor(cfg), records)
    ensures ChunkIds(StagedAll(cfg, records, hash, now))
    decreases |records|
  {
    if records != [] {
      var n := |records| - 1;
      StagedAllSnoc(cfg, records, n, hash, now);
      assert records[..n + 1] == records;
      StagedAllChunkIds(cfg, records[..n], hash, now);
      StagedChunkIds(cfg, records[n], hash, now);
      ChunkIdsAppend(StagedAll(cfg, records[..n], hash, now), Staged(cfg, records[n], hash, now));
    }
  }

  lemma {:induction false} StagedFilesChunkIds(cfg: Settings, files: seq<string>, ingest: string -> seq<LineageNode>,
                                               hash: string -> string, now: Timestamp)
    requires Ingestible(cfg, files, ingest)
    ensures ChunkIds(StagedFiles(cfg, files, ingest, hash, now))
    decreases |files|
  {
    if files != [] {
      var n := |files| - 1;
      var init := files[..n];
      assert Ingestible(cfg, init, ingest) by {
        forall i | 0 <= i < |init| ensures Chunkable(ChunkerFor(cfg), ingest(init[i])) { assert init[i] == files[i]; }
      }
      var a := StagedFiles(cfg, init, ingest, hash, now);
      var b := StagedAll(cfg, ingest(files[n]), hash, now);
      assert StagedFiles(cfg, files, ingest, hash, now) == a + b;
      assert ChunkIds(a) by { StagedFilesChunkIds(cfg, init, ingest, hash, now); }
      assert ChunkIds(b) by { StagedAllChunkIds(cfg, ingest(files[n]), hash, now); }
      ChunkIdsAppend(a, b);
    }
  }

  /** Deduplication only drops records and appends to their chains, so the survivors carry chunk ids too. */
  lemma {:induction false} SurvivorsChunkIds(seen: set<string>, nodes: seq<LineageNode>)
    requires ChunkIds(nodes)
    ensures ChunkIds(Survivors(seen, nodes))
    decreases |nodes|
  {
    if nodes != [] {
      var n := |nodes| - 1;
      var init := nodes[..n];
      assert ChunkIds(init) by {
        forall i | 0 <= i < |init| ensures IsChunkId(init[i].lnId) { assert init[i] == nodes[i]; }
      }
      SurvivorsChunkIds(seen, init);
      assert IsChunkId(Passed(nodes[n]).lnId) by { assert Passed(nodes[n]).lnId == nodes[n].lnId; }
      ChunkIdsAppend(Survivors(seen, init), [Passed(nodes[n])]);
    }
  }

  /** Everything a build or an update collects from the pipeline carries a chunk id. */
  lemma PipelineChunkIds(cfg: Settings, files: seq<string>, ingest: string -> seq<LineageNode>,
                         hash: string -> string, now: Timestamp)
    requires Ingestible(cfg, files, ingest)
    ensures ChunkIds(PipelineOutput(cfg, files, ingest, hash, now))
  {
    StagedFilesChunkIds(cfg, files, ingest, hash, now);
    if cfg.enableDedupe {
      SurvivorsChunkIds({}, StagedFiles(cfg, files, ingest, hash, now));
    }
  }

  /** Chunk ids always read cleanly, so indexing pipeline output never stops on an error. */
  lemma ChunkIdsReadable(nodes: seq<LineageNode>)
    requires ChunkIds(nodes)
    ensures Readable(PrevChunkId, nodes)
  {
    forall i | 0 <= i < |nodes| ensures PrevChunkId(nodes[i].lnId).Ok? {
      var p: string, k: nat :| nodes[i].lnId == ChunkId(p, k);
      PrevChunkIdOfChunk(p, k);
    }
  }

  /** Every edge indexing adds between chunk ids runs from chunk `k - 1` of a record to chunk `k` of the same record. */
  lemma ChunkLinks(registry: map<string, LineageNode>, nodes: seq<LineageNode>)
    requires ChunkIds(nodes)
    ensures forall pr :: pr in NewLinks(PrevChunkId, registry, nodes) ==>
              exists p: string, k: nat :: k >= 1 && pr == (ChunkId(p, k - 1), ChunkId(p, k))
  {
    forall pr | pr in NewLinks(PrevChunkId, registry, nodes)
      ensures exists p: string, k: nat :: k >= 1 && pr == (ChunkId(p, k - 1), ChunkId(p, k))
    {
      var i :| 0 <= i < |nodes| && LinksAt(PrevChunkId, registry, nodes, i) && LinkOf(PrevChunkId, nodes, i) == pr;
      var p: string, k: nat :| nodes[i].lnId == ChunkId(p, k);
      PrevChunkIdOfChunk(p, k);
      assert pr == (ChunkId(p, k - 1), ChunkId(p, k));
    }
  }

  /** One step of the walk: what indexing record `i` does to the edges indexed so far. */
  lemma LinkedStep(read: IdReader, registry: map<string, LineageNode>, edges: Edges, nodes: seq<LineageNode>, i: int, cur: Edges)
    requires 0 <= i < |nodes| && Linked(read, registry, edges, nodes[..i]) == Ok(cur)
    ensures var prev := read(nodes[i].lnId);
            var known := Register(registry, nodes[..i + 1]);
            Linked(read, registry, edges, nodes[..i + 1]) ==
              if prev.Err? then Err(prev.error)
              else if prev.value.Some? && prev.value.value in known then Ok(cur[(prev.value.value, nodes[i].lnId) := Adjacent])
              else Ok(cur)
  {
    var run := nodes[..i + 1];
    assert run[..i] == nodes[..i] && run[..i + 1] == run && run[i] == nodes[i];
  }

  /** A run that has hit an error stays in that error whatever follows. */
  lemma {:induction false} LinkedErrSticks(read: IdReader, registry: map<string, LineageNode>, edges: Edges, nodes: seq<LineageNode>, m: int)
    requires 0 <= m <= |nodes| && Linked(read, registry, edges, nodes[..m]).Err?
    ensures Linked(read, registry, edges, nodes) == Linked(read, registry, edges, nodes[..m])
    decreases |nodes|
  {
    if m < |nodes| {
      var init := nodes[..|nodes| - 1];
      assert init[..m] == nodes[..m];
      LinkedErrSticks(read, registry, edges, init, m);
    } else {
      assert nodes[..m] == nodes;
    }
  }

  // ---------------------------------------------------------------------------
  // Which files `update` processes

  /** The paths of a file list, in order. */
  function FilePaths(files: seq<FileEntry>): (r: seq<string>)
    ensures |r| == |files| && forall i :: 0 <= i < |files| ==> r[i] == files[i].path
  {
    seq(|files|, i requires 0 <= i < |files| => files[i].path)
  }

  /** What `update` sets out to process: the diff's changed files, or every path of the new version. */
  function UpdateTargets(changedOnly: bool, from: DatasetVersion, to: DatasetVersion): seq<string> {
    if changedOnly then ComputeDiff(from, to).ChangedFiles() else FilePaths(to.files)
  }

  /** The paths that exist, in their order: `update` skips the others. */
  function Existing(paths: seq<string>, fs: map<string, FileInfo>): (r: seq<string>)
    ensures forall p :: p in r <==> p in paths && p in fs
    decreases |paths|
  {
    if paths == [] then []
    else
      var init := paths[..|paths| - 1];
      var p := paths[|paths| - 1];
      assert forall q :: q in paths <==> q in init || q == p;
      if p in fs then Existing(init, fs) + [p] else Existing(init, fs)
  }

  /** Every path that exists can be ingested and chunked, so whatever `update` keeps of its targets can be too. */
  lemma ExistingIngestible(cfg: Settings, paths: seq<string>, fs: map<string, FileInfo>, ingest: string -> seq<LineageNode>)
    requires forall p :: p in fs ==> Chunkable(ChunkerFor(cfg), ingest(p))
    ensures Ingestible(cfg, Existing(paths, fs), ingest)
  {
    var files := Existing(paths, fs);
    forall i | 0 <= i < |files| ensures Chunkable(ChunkerFor(cfg), ingest(files[i])) {
      assert files[i] in files;
    }
  }

  /** The paths a version records for a listing are the listed paths that exist, in the same order. */
  lemma {:induction false} EntryPaths(paths: seq<string>, fs: map<string, FileInfo>)
    ensures FilePaths(FileEntries(paths, fs)) == Existing(paths, fs)
    decreases |paths|
  {
    if paths != [] {
      EntryPaths(paths[..|paths| - 1], fs);
    }
  }

  /** Skipping missing paths twice is skipping them once. */
  lemma {:induction false} ExistingIdempotent(paths: seq<string>, fs: map<string, FileInfo>)
    ensures Existing(Existing(paths, fs), fs) == Existing(paths, fs)
    decreases |paths|
  {
    if paths != [] {
      var init := paths[..|paths| - 1];
      var p := paths[|paths| - 1];
      ExistingIdempotent(init, fs);
      if p in fs {
        var e := Existing(init, fs) + [p];
        assert e[..|e| - 1] == Existing(init, fs);
      }
    }
  }

  /** The dictionary of a recorded version: every listed path that exists, with its hash on disk. */
  lemma {:induction false} EntriesHashMap(paths: seq<string>, fs: map<string, FileInfo>)
    ensures forall p :: p in HashMap(FileEntries(paths, fs)) <==> p in paths && p in fs
    ensures forall p :: p in HashMap(FileEntries(paths, fs)) ==> HashMap(FileEntries(paths, fs))[p] == fs[p].hash
    decreases |paths|
  {
    if paths != [] {
      var init := paths[..|paths| - 1];
      var p := paths[|paths| - 1];
      EntriesHashMap(init, fs);
      assert forall q :: q in paths <==> q in init || q == p;
      if p in fs {
        var e := FileEntries(init, fs) + [EntryFor(p, fs[p])];
        assert e[..|e| - 1] == FileEntries(init, fs);
      }
    }
  }

  /** Without `changed_only`, `update` processes every listed path that exists, in listing order. */
  lemma UpdateAllFiles(from: DatasetVersion, to: DatasetVersion, listing: seq<string>, fs: map<string, FileInfo>)
    requires to.files == FileEntries(listing, fs)
    ensures Existing(UpdateTargets(false, from, to), fs) == Existing(listing, fs)
  {
    EntryPaths(listing, fs);
    ExistingIdempotent(listing, fs);
  }

  /**
   * With `changed_only`, and a listing that covers every file on disk,
   * `update` processes exactly the files that are new since the base version
   * or whose hash changed; deleted files are reported by the diff but skipped.
   */
  lemma UpdateChangedFiles(from: DatasetVersion, to: DatasetVersion, listing: seq<string>, fs: map<string, FileInfo>)
    requires to.files == FileEntries(listing, fs)
    requires forall p :: p in fs ==> p in listing
    ensures forall p :: p in Existing(UpdateTargets(true, from, to), fs) <==>
              p in fs && (p !in HashMap(from.files) || HashMap(from.files)[p] != fs[p].hash)
  {
    EntriesHashMap(listing, fs);
  }

  // ---------------------------------------------------------------------------
  // What `query` answers

  /** The lineage entry of a retrieved record. */
  function EntryOf(ln: LineageNode, score: real): LineageEntry {
    LineageEntry(ln.lnId, score, ln.source, ln.datasetVersion, ln.transformChain)
  }

  /** The lineage entries of the results, in result order, skipping ids the registry does not know. */
  function Entries(results: seq<Hit>, registry: map<string, LineageNode>): (r: seq<LineageEntry>)
    ensures |r| <= |results|
    decreases |results|
  {
    if results == [] then []
    else
      var prev := Entries(results[..|results| - 1], registry);
      var h := results[|results| - 1];
      if h.0 in registry then prev + [EntryOf(registry[h.0], h.1)] else prev
  }

  /** An entry is there exactly when some result names a known record, and it carries that record's provenance and the result's score. */
  lemma {:induction false} EntriesMembers(results: seq<Hit>, registry: map<string, LineageNode>)
    ensures forall e :: e in Entries(results, registry) <==>
              exists i :: 0 <= i < |results| && results[i].0 in registry && e == EntryOf(registry[results[i].0], results[i].1)
    decreases |results|
  {
    if results != [] {
      var init := results[..|results| - 1];
      EntriesMembers(init, registry);
      assert forall i :: 0 <= i < |init| ==> init[i] == results[i];
    }
  }

  /** When the registry knows every result, there is one entry per result, in the same order. */
  lemma {:induction false} EntriesAllKnown(results: seq<Hit>, registry: map<string, LineageNode>)
    requires forall i :: 0 <= i < |results| ==> results[i].0 in registry
    ensures |Entries(results, registry)| == |results|
    ensures forall i :: 0 <= i < |results| ==> Entries(results, registry)[i] == EntryOf(registry[results[i].0], results[i].1)
    decreases |results|
  {
    if results != [] {
      var init := results[..|results| - 1];
      assert forall i :: 0 <= i < |init| ==> init[i] == results[i];
      EntriesAllKnown(init, registry);
    }
  }

  /** With every record under its own id, each entry names the result it came from, with its score. */
  lemma EntriesIds(results: seq<Hit>, registry: map<string, LineageNode>)
    requires WellKeyed(registry)
    ensures forall e :: e in Entries(results, registry) ==> (e.lnId, e.score) in results && e.lnId in registry
  {
    EntriesMembers(results, registry);
    forall e | e in Entries(results, registry) ensures (e.lnId, e.score) in results && e.lnId in registry {
      var i :| 0 <= i < |results| && results[i].0 in registry && e == EntryOf(registry[results[i].0], results[i].1);
      assert results[i] == (e.lnId, e.score);
    }
  }

  /** The loop in `query` that collects the lineage entries. */
  method BuildEntries(results: seq<Hit>, registry: map<string, LineageNode>) returns (entries: seq<LineageEntry>)
    ensures entries == Entries(results, registry)
  {
    entries := [];
    for i := 0 to |results|
      invariant entries == Entries(results[..i], registry)
    {
      assert results[..i + 1][..i] == results[..i];
      if results[i].0 in registry {
        var ln := registry[results[i].0];
        entries := entries + [EntryOf(ln, results[i].1)];
      }
    }
    assert results[..|results|] == results;
  }

  /** The opening of every answer text: the number of results and the question. */
  function Lead(question: string, count: nat): string {
    "Based on " + NatToString(count) + " retrieved documents: " + question
  }

  /**
   * The answer `query` returns for its results: the lead, then, when there are
   * results, the first 200 characters of the top record's content. A top result
   * the registry does not know raises (the lookup is unguarded), so that case
   * is an error here.
   */
  function Answer(question: string, results: seq<Hit>, registry: map<string, LineageNode>): (r: Result<AnswerWithLineage, string>)
    ensures r.Err? <==> |results| > 0 && results[0].0 !in registry
    ensures r.Ok? ==> r.value.question == question && r.value.lineage == Entries(results, registry) && r.value.metadata == map[]
    ensures r.Ok? ==> Lead(question, |results|) <= r.value.answer
    ensures r.Ok? && results == [] ==> r.value.answer == Lead(question, 0)
    ensures r.Ok? && results != [] ==>
              var content := registry[results[0].0].content;
              var cut := if |content| < 200 then |content| else 200;
              r.value.answer == Lead(question, |results|) + "\n\nRelevant information: " + content[..cut] + "..."
  {
    if results == [] then Ok(AnswerWithLineage(question, Lead(question, 0), Entries(results, registry), map[]))
    else if results[0].0 !in registry then Err("KeyError: " + results[0].0)
    else
      var top := Retriever.Prefix(registry[results[0].0].content, 200);
      Ok(AnswerWithLineage(question, Lead(question, |results|) + "\n\nRelevant information: " + top + "...",
                           Entries(results, registry), map[]))
  }

  // ---------------------------------------------------------------------------
  // The version lookups `update`, `audit` and `diff` make

  /** `get_version` on what the store loads. */
  function Lookup(loaded: Option<ManifestData>, tag: string): (r: Option<DatasetVersion>)
    ensures r.Some? ==> loaded.Some? && r.value.version == tag && r.value in loaded.value.versions
  {
    if loaded.Some? then FindVersion(loaded.value.versions, tag) else None
  }

  /** `get_current_version` on what the store loads. */
  function Current(loaded: Option<ManifestData>): Option<string> {
    if loaded.Some? then loaded.value.currentVersion else None
  }

  /** The version `update` diffs against: the current one, when there is a current tag and it resolves. */
  function Baseline(loaded: Option<ManifestData>): (r: Option<DatasetVersion>)
    ensures r.Some? ==> Current(loaded).Some? && r == Lookup(loaded, Current(loaded).value)
  {
    var cur := Current(loaded);
    if cur.Some? then Lookup(loaded, cur.value) else None
  }

  /** The version a build or an update records: the existing listed paths, the clock reading and no metadata. */
  function Recorded(tag: string, listing: seq<string>, fs: map<string, FileInfo>, now: Timestamp): DatasetVersion {
    DatasetVersion(tag, now, FileEntries(listing, fs), map[])
  }

  /** A store that has just recorded `v` lists it last and makes it current. */
  predicate Appended(before: Option<ManifestData>, after: Option<ManifestData>, v: DatasetVersion) {
    && after.Some?
    && after.value.versions == (if before.Some? then before.value.versions else []) + [v]
    && after.value.currentVersion == Some(v.version)
  }

  // ---------------------------------------------------------------------------
  // The object

  datatype Config = Config(pipeline: Settings, graphDepth: int)

  /**
   * `RagLineage`: settings, a version store, a lineage graph and the registry
   * of every record indexed so far, by id. The embedder and the vector store
   * are not modelled: `query` is given the store's search as a function.
   */
  class RagLineage {
    const config: Config
    const versionStore: VersionStore
    const graph: LineageGraph
    var registry: map<string, LineageNode>

    /** The graph holds exactly the registered records, each under its id, and its edges join registered records. */
    ghost predicate Valid()
      reads this, graph
    {
      graph.Valid() && graph.nodes == registry
    }

    /** A new object over a dataset root: an empty graph and registry and a store over the root's manifest file. */
    constructor (config: Config, rootName: string, manifestFile: ManifestFile)
      ensures this.config == config
      ensures registry == map[] && graph.edges == map[]
      ensures versionStore.rootName == rootName && versionStore.manifestFile == manifestFile && versionStore.cache == None
      ensures fresh(graph) && fresh(versionStore)
      ensures Valid()
    {
      this.config := config;
      versionStore := new VersionStore(rootName, manifestFile);
      graph := new LineageGraph();
      registry := map[];
    }

    /**
     * The indexing loop of `build`: each record is registered and added to the
     * graph, then linked from its predecessor when that is registered. An id
     * that does not read stops the loop with the error. `build` reads ids with
     * `PrevChunkId`.
     */
    method IndexNodes(read: IdReader, nodes: seq<LineageNode>) returns (r: Result<(), string>)
      requires Valid()
      modifies this, graph
      ensures Valid()
      ensures r.Ok? <==> Readable(read, nodes)
      ensures var linked := Linked(read, old(registry), old(graph.edges), nodes);
              && (r.Ok? ==> registry == Register(old(registry), nodes) && linked == Ok(graph.edges))
              && (r.Err? ==> linked == Err(r.error))
    {
      LinkedOk(read, old(registry), old(graph.edges), nodes);
      var i := 0;
      while i < |nodes|
        invariant 0 <= i <= |nodes|
        invariant Valid()
        invariant registry == Register(old(registry), nodes[..i])
        invariant Linked(read, old(registry), old(graph.edges), nodes[..i]) == Ok(graph.edges)
      {
        label Step:
        var ln := nodes[i];
        RegisterSnoc(old(registry), nodes, i);
        registry := registry[ln.lnId := ln];
        graph.AddNode(ln);
        LinkedStep(read, old(registry), old(graph.edges), nodes, i, old@Step(graph.edges));
        var prev := read(ln.lnId);
        if prev.Err? {
          LinkedErrSticks(read, old(registry), old(graph.edges), nodes, i + 1);
          return Err(prev.error);
        }
        if prev.value.Some? && prev.value.value in registry {
          var added := graph.AddEdge(prev.value.value, ln.lnId, Adjacent);
        }
        i := i + 1;
      }
      assert nodes[..i] == nodes;
      r := Ok(());
    }

    /**
     * `build`: records a version of the listed files, runs the pipeline over
     * them, and indexes what it produced. Pipeline output always carries chunk
     * ids, so the indexing never stops on an error. A manifest file that is not
     * JSON makes the version step raise before anything is indexed.
     */
    method Build(version: string, listing: seq<string>, fs: map<string, FileInfo>,
                 ingest: string -> string -> seq<LineageNode>, hash: string -> string, now: Timestamp)
      returns (r: Result<(), string>)
      requires Valid() && Ingestible(config.pipeline, listing, ingest(version))
      modifies this, graph, versionStore.Footprint()
      ensures Valid()
      ensures r.Err? <==> old(versionStore.LoadRaises())
      ensures r.Err? ==>
                && r.error == JsonError
                && versionStore.manifestFile == old(versionStore.manifestFile) && versionStore.cache == old(versionStore.cache)
                && registry == old(registry) && graph.edges == old(graph.edges)
      ensures r.Ok? ==> Appended(old(versionStore.Loaded()), versionStore.Loaded(), Recorded(version, listing, fs, now))
      ensures r.Ok? ==>
                var out := PipelineOutput(config.pipeline, listing, ingest(version), hash, now);
                && registry == Register(old(registry), out)
                && Linked(PrevChunkId, old(registry), old(graph.edges), out) == Ok(graph.edges)
    {
      var v := versionStore.CreateVersion(version, listing, None, fs, now);
      if v.Err? {
        return Err(v.error);
      }
      var out := RunPipeline(config.pipeline, listing, ingest(version), hash, now);
      PipelineChunkIds(config.pipeline, listing, ingest(version), hash, now);
      ChunkIdsReadable(out);
      var indexed := IndexNodes(PrevChunkId, out);
      r := Ok(());
    }

    /** The registration loop of `update`: records are registered and added to the graph, with no edges. */
    method RegisterNodes(nodes: seq<LineageNode>)
      requires Valid()
      modifies this, graph
      ensures Valid()
      ensures registry == Register(old(registry), nodes) && graph.edges == old(graph.edges)
    {
      for i := 0 to |nodes|
        invariant Valid()
        invariant registry == Register(old(registry), nodes[..i]) && graph.edges == old(graph.edges)
      {
        RegisterSnoc(old(registry), nodes, i);
        registry := registry[nodes[i].lnId := nodes[i]];
        graph.AddNode(nodes[i]);
      }
      assert nodes[..|nodes|] == nodes;
    }

    /**
     * `update`: a full build when the store has no current version or it does
     * not resolve; otherwise a refresh against the current version. A manifest
     * file that is not JSON makes the first lookup raise, and nothing changes.
     */
    method Update(version: string, changedOnly: bool, listing: seq<string>, fs: map<string, FileInfo>,
                  ingest: string -> string -> seq<LineageNode>, hash: string -> string, now: Timestamp)
      returns (r: Result<(), string>)
      requires Valid() && Ingestible(config.pipeline, listing, ingest(version))
      requires forall p :: p in fs ==> Chunkable(ChunkerFor(config.pipeline), ingest(version)(p))
      modifies this, graph, versionStore.Footprint()
      ensures Valid()
      ensures r.Err? <==> old(versionStore.LoadRaises())
      ensures r.Err? ==>
                && r.error == JsonError
                && versionStore.manifestFile == old(versionStore.manifestFile) && versionStore.cache == old(versionStore.cache)
                && registry == old(registry) && graph.edges == old(graph.edges)
      ensures r.Ok? ==> Appended(old(versionStore.Loaded()), versionStore.Loaded(), Recorded(version, listing, fs, now))
      ensures var base := Baseline(old(versionStore.Loaded()));
              r.Ok? && base.None? ==>
                var out := PipelineOutput(config.pipeline, listing, ingest(version), hash, now);
                && registry == Register(old(registry), out)
                && Linked(PrevChunkId, old(registry), old(graph.edges), out) == Ok(graph.edges)
      ensures var base := Baseline(old(versionStore.Loaded()));
              r.Ok? && base.Some? ==>
                var files := Existing(UpdateTargets(changedOnly, base.value, Recorded(version, listing, fs, now)), fs);
                && Ingestible(config.pipeline, files, ingest(version))
                && registry == Register(old(registry), PipelineOutput(config.pipeline, files, ingest(version), hash, now))
                && graph.edges == old(graph.edges)
    {
      var current := versionStore.GetCurrentVersion();
      if current.Err? {
        return Err(current.error);
      }
      if current.value.None? {
        r := Build(version, listing, fs, ingest, hash, now);
        return;
      }
      // the manifest has loaded, so this lookup cannot raise
      var lookup := versionStore.GetVersion(current.value.value);
      var from := lookup.value;
      if from.None? {
        r := Build(version, listing, fs, ingest, hash, now);
        return;
      }
      Refresh(from.value, version, changedOnly, listing, fs, ingest, hash, now);
      r := Ok(());
    }

    /**
     * The rest of `update`: records the new version, runs the pipeline over the
     * files to process that exist, and registers the result without linking it
     * and without dropping older records. It runs once `update`'s lookups have
     * loaded the manifest, so recording the version cannot raise.
     */
    method Refresh(from: DatasetVersion, version: string, changedOnly: bool, listing: seq<string>, fs: map<string, FileInfo>,
                   ingest: string -> string -> seq<LineageNode>, hash: string -> string, now: Timestamp)
      requires Valid() && !versionStore.LoadRaises()
      requires forall p :: p in fs ==> Chunkable(ChunkerFor(config.pipeline), ingest(version)(p))
      modifies this, graph, versionStore.Footprint()
      ensures Valid()
      ensures Appended(old(versionStore.Loaded()), versionStore.Loaded(), Recorded(version, listing, fs, now))
      ensures var files := Existing(UpdateTargets(changedOnly, from, Recorded(version, listing, fs, now)), fs);
              && Ingestible(config.pipeline, files, ingest(version))
              && registry == Register(old(registry), PipelineOutput(config.pipeline, files, ingest(version), hash, now))
              && graph.edges == old(graph.edges)
    {
      var recorded := versionStore.CreateVersion(version, listing, None, fs, now);
      var to := recorded.value;
      assert to == Recorded(version, listing, fs, now);
      var targets := UpdateTargets(changedOnly, from, to);
      var files := Existing(targets, fs);
      ExistingIngestible(config.pipeline, targets, fs, ingest(version));
      var out := RunPipeline(config.pipeline, files, ingest(version), hash, now);
      RegisterNodes(out);
    }

    /**
     * `query`: retrieves with the configured graph depth over the current graph
     * and registry, then answers. `results` is what was retrieved.
     */
    method Query(question: string, k: int, filters: Option<FilterConfig>, search: (string, int) -> seq<Hit>)
      returns (results: seq<Hit>, r: Result<AnswerWithLineage, string>)
      ensures config.graphDepth <= 0 ==>
                results == Retriever.Prefix(Retriever.SortByScore(Retriever.Prefix(Retriever.Candidates(search, registry, question, k, filters), k)), k)
      ensures config.graphDepth > 0 ==>
                var top := Retriever.Prefix(Retriever.Candidates(search, registry, question, k, filters), k);
                && (forall i :: 0 <= i < |results| ==> Retriever.Expansion(graph, registry, top, config.graphDepth, results[i]))
                && Retriever.NoRepeats(results)
                && (0 <= k ==> |results| == k || forall h :: Retriever.Expansion(graph, registry, top, config.graphDepth, h) ==> h in results)
      ensures Retriever.SortedDesc(results) && (0 <= k ==> |results| <= k)
      ensures r == Answer(question, results, registry)
    {
      var retriever := new Retriever.Retriever(graph, registry, search);
      results := retriever.Retrieve(question, k, filters, config.graphDepth);
      var entries := BuildEntries(results, registry);
      var text := Lead(question, |results|);
      if results != [] {
        if results[0].0 !in registry {
          return results, Err("KeyError: " + results[0].0);
        }
        text := text + "\n\nRelevant information: " + Retriever.Prefix(registry[results[0].0].content, 200) + "...";
      }
      r := Ok(AnswerWithLineage(question, text, entries, map[]));
    }

    /**
     * `diff`: both tags must resolve, the first checked first; then the two
     * versions are compared. A manifest file that is not JSON makes the first
     * lookup raise.
     */
    method Diff(versionFrom: string, versionTo: string) returns (r: Result<VersionDiff, string>)
      modifies versionStore.Footprint()
      ensures versionStore.Loaded() == old(versionStore.Loaded())
      ensures old(versionStore.LoadRaises()) ==> r == Err(JsonError)
      ensures !old(versionStore.LoadRaises()) ==>
              var from := Lookup(old(versionStore.Loaded()), versionFrom);
              var to := Lookup(old(versionStore.Loaded()), versionTo);
              && (from.None? ==> r == Err("Version not found: " + versionFrom))
              && (from.Some? && to.None? ==> r == Err("Version not found: " + versionTo))
              && (from.Some? && to.Some? ==> r == Ok(ComputeDiff(from.value, to.value)))
    {
      var fromLoad := versionStore.GetVersion(versionFrom);
      if fromLoad.Err? {
        return Err(fromLoad.error);
      }
      var toLoad := versionStore.GetVersion(versionTo);
      var from, to := fromLoad.value, toLoad.value;
      if from.None? {
        return Err("Version not found: " + versionFrom);
      }
      if to.None? {
        return Err("Version not found: " + versionTo);
      }
      r := Ok(ComputeDiff(from.value, to.value));
    }
  }
}

/**
 * The version store: the manifest file under the dataset root, a cache of the
 * manifest once loaded or saved, and the creation of new versions from a list
 * of paths. The filesystem is a map from relative path to what the store reads
 * about a file (its content hash, size and modification time).
 */
module Versioning {
  import opened Wrappers
  import opened LineageNodes
  import opened Dataset

  /** What the store learns about an existing file. */
  datatype FileInfo = FileInfo(hash: string, size: int, modifiedAt: Timestamp)

  /** The state of the manifest file on disk. */
  datatype ManifestFile =
    | NoFile                    // nothing written yet
    | Unparseable               // present, but not valid JSON: reading it raises
    | Invalid                   // valid JSON that does not validate as a manifest
    | Saved(doc: ManifestData)  // a document that validates

  /** What `load_manifest` raises when the manifest file is not valid JSON. */
  const JsonError: string := "JSONDecodeError: the manifest file is not valid JSON"

  /** The entry recorded for a path that exists. */
  function EntryFor(path: string, info: FileInfo): FileEntry {
    FileEntry(path, info.hash, info.size, info.modifiedAt)
  }

  /** The entries `create_version` records: one per path that exists, in the given order. */
  function FileEntries(paths: seq<string>, fs: map<string, FileInfo>): seq<FileEntry>
    decreases |paths|
  {
    if paths == [] then []
    else
      var prev := FileEntries(paths[..|paths| - 1], fs);
      var p := paths[|paths| - 1];
      if p in fs then prev + [EntryFor(p, fs[p])] else prev
  }

  /**
   * Every recorded entry is a listed path that exists, with what the
   * filesystem says about it, and every listed path that exists is recorded.
   */
  lemma {:induction false} FileEntriesExisting(paths: seq<string>, fs: map<string, FileInfo>)
    ensures |FileEntries(paths, fs)| <= |paths|
    ensures forall e :: e in FileEntries(paths, fs) ==> e.path in paths && e.path in fs && e == EntryFor(e.path, fs[e.path])
    ensures forall p :: p in paths && p in fs ==> EntryFor(p, fs[p]) in FileEntries(paths, fs)
    decreases |paths|
  {
    if paths != [] {
      var init := paths[..|paths| - 1];
      FileEntriesExisting(init, fs);
      assert paths == init + [paths[|paths| - 1]];
    }
  }

  /** When every path exists, nothing is skipped. */
  lemma {:induction false} FileEntriesAllExist(paths: seq<string>, fs: map<string, FileInfo>)
    requires forall p :: p in paths ==> p in fs
    ensures |FileEntries(paths, fs)| == |paths|
    ensures forall i :: 0 <= i < |paths| ==> FileEntries(paths, fs)[i].path == paths[i]
    decreases |paths|
  {
    if paths != [] {
      var init := paths[..|paths| - 1];
      assert forall p :: p in init ==> p in paths;
      FileEntriesAllExist(init, fs);
    }
  }

  class VersionStore {
    /** The last component of the root path: the name a manifest created here gets. */
    const rootName: string
    var manifestFile: ManifestFile
    var cache: Option<DatasetManifest>

    /** The objects the store's state lives in. */
    function Footprint(): set<object>
      reads this
    {
      {this} + (if cache.Some? then {cache.value} else {})
    }

    /**
     * The manifest `load_manifest` yields, as a document: the cached one once
     * there is one, otherwise the document on disk when it validates.
     */
    function Loaded(): Option<ManifestData>
      reads Footprint()
    {
      if cache.Some? then Some(cache.value.Data())
      else if manifestFile.Saved? then Some(manifestFile.doc)
      else None
    }

    /** A store over a dataset root: nothing cached yet. */
    constructor (rootName: string, file: ManifestFile)
      ensures this.rootName == rootName && manifestFile == file && cache == None
    {
      this.rootName := rootName;
      manifestFile := file;
      cache := None;
    }

    /**
     * Whether `load_manifest` raises: nothing is cached yet and the file is read
     * outside the guarded validation, so a file that is not JSON propagates the
     * decoder's exception to every caller.
     */
    predicate LoadRaises()
      reads this
    {
      cache.None? && manifestFile.Unparseable?
    }

    /**
     * `load_manifest`: the cached manifest itself when there is one; otherwise
     * the decoder's error for a file that is not JSON, a new manifest from a
     * document that validates (which becomes the cache), or None for a missing
     * file or one that fails validation (the cache stays empty).
     */
    method LoadManifest() returns (r: Result<Option<DatasetManifest>, string>)
      modifies this
      ensures manifestFile == old(manifestFile)
      ensures r.Err? <==> old(LoadRaises())
      ensures r.Err? ==> r.error == JsonError && cache == old(cache)
      ensures old(cache).Some? ==> r == Ok(old(cache)) && cache == old(cache)
      ensures r.Ok? && old(cache).None? && r.value.Some? ==> fresh(r.value.value)
      ensures r.Ok? ==> (r.value.Some? <==> old(Loaded()).Some?)
      ensures r.Ok? && r.value.Some? ==> r.value.value.Data() == old(Loaded()).value
      ensures r.Ok? ==> cache == r.value || (cache == None && r.value == None)
    {
      if cache.Some? {
        return Ok(cache);
      }
      if manifestFile.Unparseable? {
        return Err(JsonError);
      }
      if manifestFile.Saved? {
        var loaded := new DatasetManifest.FromData(manifestFile.doc);
        cache := Some(loaded);
        r := Ok(cache);
      } else {
        r := Ok(None);
      }
    }

    /** `save_manifest`: writes the document and makes the manifest the cached one. */
    method SaveManifest(m: DatasetManifest)
      modifies this
      ensures manifestFile == Saved(m.Data()) && cache == Some(m)
    {
      manifestFile := Saved(m.Data());
      cache := Some(m);
    }

    /** `create_manifest`: a fresh manifest with the given name, saved at once. */
    method CreateManifest(name: string, now: Timestamp) returns (m: DatasetManifest)
      modifies this
      ensures fresh(m)
      ensures m.Data() == ManifestData(name, None, [], now, now, map[])
      ensures manifestFile == Saved(m.Data()) && cache == Some(m)
    {
      m := new DatasetManifest(name, now);
      SaveManifest(m);
    }

    /**
     * `get_or_create_manifest`: the loaded manifest when there is one, otherwise
     * a fresh one with the given name. Either way it is the cached manifest
     * afterwards. The load's error passes through and changes nothing.
     */
    method GetOrCreateManifest(name: string, now: Timestamp) returns (r: Result<DatasetManifest, string>)
      modifies this
      ensures r.Err? <==> old(LoadRaises())
      ensures r.Err? ==> r.error == JsonError && manifestFile == old(manifestFile) && cache == old(cache)
      ensures r.Ok? ==> cache == Some(r.value)
      ensures r.Ok? && old(cache).Some? ==> r.value == old(cache).value && manifestFile == old(manifestFile)
      ensures r.Ok? && old(cache).None? ==> fresh(r.value)
      ensures r.Ok? && old(Loaded()).Some? ==> r.value.Data() == old(Loaded()).value
      ensures r.Ok? && old(Loaded()).None? ==>
                r.value.Data() == ManifestData(name, None, [], now, now, map[]) && manifestFile == Saved(r.value.Data())
    {
      var loaded := LoadManifest();
      if loaded.Err? {
        return Err(loaded.error);
      }
      if loaded.value.None? {
        var m := CreateManifest(name, now);
        r := Ok(m);
      } else {
        r := Ok(loaded.value.value);
      }
    }

    /**
     * `create_version`: records an entry for each listed path that exists, in
     * order; appends the new version to the loaded manifest (a new one named
     * after the root when there is none), makes it current, stamps the update
     * time and saves. When the manifest file is not JSON the load raises and
     * nothing is recorded.
     */
    method CreateVersion(tag: string, paths: seq<string>, metadata: Option<Metadata>,
                         fs: map<string, FileInfo>, now: Timestamp) returns (r: Result<DatasetVersion, string>)
      modifies this, if cache.Some? then {cache.value} else {}
      ensures r.Err? <==> old(LoadRaises())
      ensures r.Err? ==> r.error == JsonError && manifestFile == old(manifestFile) && cache == old(cache)
      ensures r.Ok? ==>
                && r.value.version == tag && r.value.createdAt == now && r.value.files == FileEntries(paths, fs)
                && r.value.metadata == (if metadata.Some? then metadata.value else map[])
      ensures r.Ok? ==> cache.Some? && Loaded().Some? && manifestFile == Saved(Loaded().value)
      ensures r.Ok? ==>
                var before := old(Loaded());
                var after := Loaded().value;
                && after.versions == (if before.Some? then before.value.versions else []) + [r.value]
                && after.currentVersion == Some(tag)
                && after.datasetName == (if before.Some? then before.value.datasetName else rootName)
                && after.createdAt == (if before.Some? then before.value.createdAt else now)
                && after.updatedAt == now
                && after.metadata == (if before.Some? then before.value.metadata else map[])
    {
      var entries := [];
      for i := 0 to |paths|
        invariant entries == FileEntries(paths[..i], fs)
      {
        assert paths[..i + 1][..i] == paths[..i];
        if paths[i] in fs {
          entries := entries + [EntryFor(paths[i], fs[paths[i]])];
        }
      }
      assert paths[..|paths|] == paths;
      var v := DatasetVersion(tag, now, entries, if metadata.Some? then metadata.value else map[]);
      var manifest := GetOrCreateManifest(rootName, now);
      if manifest.Err? {
        return Err(manifest.error);
      }
      manifest.value.AddVersion(v, now);
      SaveManifest(manifest.value);
      r := Ok(v);
    }

    /**
     * `get_version`: the load's error when the file is not JSON, None when no
     * manifest loads, otherwise the manifest's lookup of the tag.
     */
    method GetVersion(tag: string) returns (r: Result<Option<DatasetVersion>, string>)
      modifies this
      ensures manifestFile == old(manifestFile) && Loaded() == old(Loaded())
      ensures LoadRaises() == old(LoadRaises())
      ensures r.Err? <==> old(LoadRaises())
      ensures r.Err? ==> r.error == JsonError
      ensures r.Ok? ==> r.value == (if Loaded().Some? then FindVersion(Loaded().value.versions, tag) else None)
      ensures cache == old(cache) || (cache.Some? && fresh(cache.value))
    {
      var m := LoadManifest();
      if m.Err? {
        return Err(m.error);
      }
      if m.value.None? {
        return Ok(None);
      }
      r := Ok(m.value.value.GetVersion(tag));
    }

    /**
     * `get_current_version`: the load's error when the file is not JSON, None
     * when no manifest loads, otherwise the manifest's current tag.
     */
    method GetCurrentVersion() returns (r: Result<Option<string>, string>)
      modifies this
      ensures manifestFile == old(manifestFile) && Loaded() == old(Loaded())
      ensures LoadRaises() == old(LoadRaises())
      ensures r.Err? <==> old(LoadRaises())
      ensures r.Err? ==> r.error == JsonError
      ensures r.Ok? ==> r.value == (if Loaded().Some? then Loaded().value.currentVersion else None)
      ensures cache == old(cache) || (cache.Some? && fresh(cache.value))
    {
      var m := LoadManifest();
      if m.Err? {
        return Err(m.error);
      }
      if m.value.None? {
        return Ok(None);
      }
      r := Ok(m.value.value.currentVersion);
    }
  }
}

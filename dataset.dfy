/**
 * Dataset versions and the manifest that records them: an append-only history
 * of versions, each a list of file entries with content hashes.
 */
module Dataset {
  import opened Wrappers
  import opened LineageNodes

  /** One file of a version: its path relative to the dataset root and its content hash. */
  datatype FileEntry = FileEntry(path: string, hash: string, size: int, modifiedAt: Timestamp)

  datatype DatasetVersion = DatasetVersion(version: string, createdAt: Timestamp, files: seq<FileEntry>, metadata: Metadata)

  /** The persisted form of a manifest (the JSON document's fields). */
  datatype ManifestData = ManifestData(
    datasetName: string,
    currentVersion: Option<string>,
    versions: seq<DatasetVersion>,
    createdAt: Timestamp,
    updatedAt: Timestamp,
    metadata: Metadata)

  /**
   * The first version in list order whose tag is `tag`, or None. A tag that was
   * reused therefore still resolves to its oldest entry.
   */
  function FindVersion(versions: seq<DatasetVersion>, tag: string): (r: Option<DatasetVersion>)
    ensures r.None? <==> forall i :: 0 <= i < |versions| ==> versions[i].version != tag
    ensures r.Some? ==> exists i :: 0 <= i < |versions| && versions[i] == r.value
                          && r.value.version == tag
                          && forall j :: 0 <= j < i ==> versions[j].version != tag
  {
    if versions == [] then None
    else if versions[0].version == tag then Some(versions[0])
    else
      var r := FindVersion(versions[1..], tag);
      assert r.Some? ==> exists i :: 0 <= i < |versions| - 1 && versions[1..][i] == r.value
                          && r.value.version == tag
                          && forall j :: 0 <= j < i ==> versions[1..][j].version != tag;
      r
  }

  /** Appending a version does not change what an already known tag resolves to. */
  lemma {:induction false} FindVersionAppendKnown(versions: seq<DatasetVersion>, v: DatasetVersion, tag: string)
    requires FindVersion(versions, tag).Some?
    ensures FindVersion(versions + [v], tag) == FindVersion(versions, tag)
  {
    if versions[0].version != tag {
      assert (versions + [v])[1..] == versions[1..] + [v];
      FindVersionAppendKnown(versions[1..], v, tag);
    }
  }

  /** After appending, the new tag resolves; to the new version itself when the tag was unused. */
  lemma {:induction false} FindVersionAppendNew(versions: seq<DatasetVersion>, v: DatasetVersion)
    ensures FindVersion(versions + [v], v.version).Some?
    ensures FindVersion(versions, v.version).None? ==> FindVersion(versions + [v], v.version) == Some(v)
  {
    if versions != [] && versions[0].version != v.version {
      assert (versions + [v])[1..] == versions[1..] + [v];
      FindVersionAppendNew(versions[1..], v);
    }
  }

  /** The manifest: an in-place record whose history only grows. */
  class DatasetManifest {
    var datasetName: string
    var currentVersion: Option<string>
    var versions: seq<DatasetVersion>
    var createdAt: Timestamp
    var updatedAt: Timestamp
    var metadata: Metadata

    /** `current_version` names the most recently appended version. */
    ghost predicate Valid()
      reads this
    {
      if versions == [] then currentVersion == None
      else currentVersion == Some(versions[|versions| - 1].version)
    }

    /** A fresh manifest: no current version and an empty history. */
    constructor (name: string, now: Timestamp)
      ensures datasetName == name && currentVersion == None && versions == []
      ensures createdAt == now && updatedAt == now && metadata == map[]
      ensures Valid()
    {
      datasetName := name;
      currentVersion := None;
      versions := [];
      createdAt := now;
      updatedAt := now;
      metadata := map[];
    }

    /** A manifest rebuilt from its persisted document (a successful validation). */
    constructor FromData(d: ManifestData)
      ensures Data() == d
    {
      datasetName := d.datasetName;
      currentVersion := d.currentVersion;
      versions := d.versions;
      createdAt := d.createdAt;
      updatedAt := d.updatedAt;
      metadata := d.metadata;
    }

    /** The document this manifest is saved as. */
    function Data(): ManifestData
      reads this
    {
      ManifestData(datasetName, currentVersion, versions, createdAt, updatedAt, metadata)
    }

    function GetVersion(tag: string): Option<DatasetVersion>
      reads this
    {
      FindVersion(versions, tag)
    }

    /** Appends `v` at the end of the history and makes it current; earlier versions stay as they are. */
    method AddVersion(v: DatasetVersion, now: Timestamp)
      modifies this
      ensures versions == old(versions) + [v] && |versions| == |old(versions)| + 1
      ensures currentVersion == Some(v.version) && updatedAt == now
      ensures datasetName == old(datasetName) && createdAt == old(createdAt) && metadata == old(metadata)
      ensures Valid()
    {
      versions := versions + [v];
      currentVersion := Some(v.version);
      updatedAt := now;
    }
  }

  /** In a consistent manifest the current version always resolves to a recorded version. */
  lemma CurrentVersionResolves(m: DatasetManifest)
    requires m.Valid() && m.currentVersion.Some?
    ensures m.GetVersion(m.currentVersion.value).Some?
  {
    assert m.versions[|m.versions| - 1].version == m.currentVersion.value;
  }
}

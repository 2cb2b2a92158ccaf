/**
 * Comparing two dataset versions file by file. Each version's file list is
 * first read as a dictionary from path to hash (a path listed twice keeps its
 * first position and its last hash); the paths are then sorted into added,
 * removed, modified and unchanged.
 */
module Diff {
  import opened Text
  import opened Dataset

  // ---------------------------------------------------------------------------
  // A file list read as a dictionary

  /** The path-to-hash dictionary of a file list: a later entry for a path overwrites an earlier one. */
  function HashMap(files: seq<FileEntry>): map<string, string>
    decreases |files|
  {
    if files == [] then map[]
    else HashMap(files[..|files| - 1])[files[|files| - 1].path := files[|files| - 1].hash]
  }

  /**
   * The dictionary's keys in iteration order: each path once, at the position
   * of its first entry.
   */
  function Paths(files: seq<FileEntry>): (r: seq<string>)
    ensures Distinct(r)
    ensures forall p :: p in r <==> p in HashMap(files)
    decreases |files|
  {
    if files == [] then []
    else
      var prev := Paths(files[..|files| - 1]);
      var p := files[|files| - 1].path;
      if p in prev then prev else prev + [p]
  }

  /** A path is a key of the dictionary exactly when some entry lists it. */
  lemma {:induction false} HashMapKeys(files: seq<FileEntry>, p: string)
    ensures p in HashMap(files) <==> exists i :: 0 <= i < |files| && files[i].path == p
    decreases |files|
  {
    if files != [] {
      var init := files[..|files| - 1];
      HashMapKeys(init, p);
      if p in HashMap(init) {
        var i :| 0 <= i < |init| && init[i].path == p;
        assert files[i] == init[i];
      } else if p != files[|files| - 1].path {
        forall i | 0 <= i < |files| ensures files[i].path != p {
          if i < |init| {
            assert files[i] == init[i];
          }
        }
      }
    }
  }

  /**
   * The keys come in the order of their first entries: the keys of any
   * leading part of the file list are a leading part of the keys.
   */
  lemma {:induction false} PathsPrefix(files: seq<FileEntry>, m: int)
    requires 0 <= m <= |files|
    ensures Paths(files[..m]) <= Paths(files)
    decreases |files|
  {
    if m == |files| {
      assert files[..m] == files;
    } else {
      var init := files[..|files| - 1];
      assert init[..m] == files[..m];
      PathsPrefix(init, m);
    }
  }

  /** A path's first entry fixes its position: it comes right after the keys of the entries before it. */
  lemma PathsFirstEntry(files: seq<FileEntry>, m: int)
    requires 0 <= m < |files|
    requires forall k :: 0 <= k < m ==> files[k].path != files[m].path
    ensures |Paths(files[..m])| < |Paths(files)| && Paths(files)[|Paths(files[..m])|] == files[m].path
  {
    var before := files[..m];
    HashMapKeys(before, files[m].path);
    assert files[..m + 1][..m] == before;
    PathsPrefix(files, m + 1);
  }

  /** The last entry for a path decides its hash. */
  lemma {:induction false} HashMapLastWins(files: seq<FileEntry>, i: int)
    requires 0 <= i < |files|
    requires forall j :: i < j < |files| ==> files[j].path != files[i].path
    ensures files[i].path in HashMap(files) && HashMap(files)[files[i].path] == files[i].hash
    decreases |files|
  {
    if i < |files| - 1 {
      var init := files[..|files| - 1];
      assert init[i] == files[i];
      HashMapLastWins(init, i);
    }
  }

  /** A path listed twice keeps its first position and its last hash. */
  lemma RepeatedPathExample(h1: string, h2: string, h3: string)
    ensures var files := [FileEntry("a", h1, 1, 0), FileEntry("b", h2, 1, 0), FileEntry("a", h3, 1, 0)];
            Paths(files) == ["a", "b"] && HashMap(files) == map["a" := h3, "b" := h2]
  {
    var files := [FileEntry("a", h1, 1, 0), FileEntry("b", h2, 1, 0), FileEntry("a", h3, 1, 0)];
    assert files[..2][..1] == [files[0]];
    assert files[..1] == [files[0]];
    assert files[..2] == [files[0], files[1]];
    assert Paths(files[..1]) == ["a"];
    assert Paths(files[..2]) == ["a", "b"];
  }

  // ---------------------------------------------------------------------------
  // Order-preserving selections

  /** The paths of `s` that are not keys of `m`, in their order. */
  function Absent(s: seq<string>, m: map<string, string>): (r: seq<string>)
    ensures |r| <= |s|
    ensures forall x :: x in r <==> x in s && x !in m
    ensures IsSubsequence(r, s)
  {
    if s == [] then []
    else
      var rest := Absent(s[1..], m);
      SubsequenceCons(s[0], rest, s[1..]);
      assert [s[0]] + s[1..] == s;
      if s[0] !in m then [s[0]] + rest else rest
  }

  /** The paths of `s` known to both `a` and `b` whose two hashes agree (`same`) or differ (`!same`), in their order. */
  function Common(s: seq<string>, a: map<string, string>, b: map<string, string>, same: bool): (r: seq<string>)
    ensures |r| <= |s|
    ensures forall x :: x in r <==> x in s && x in a && x in b && (a[x] == b[x] <==> same)
    ensures IsSubsequence(r, s)
  {
    if s == [] then []
    else
      var rest := Common(s[1..], a, b, same);
      SubsequenceCons(s[0], rest, s[1..]);
      assert [s[0]] + s[1..] == s;
      if s[0] in a && s[0] in b && (a[s[0]] == b[s[0]] <==> same) then [s[0]] + rest else rest
  }

  lemma DistinctTail(s: seq<string>)
    requires Distinct(s) && s != []
    ensures Distinct(s[1..]) && s[0] !in s[1..]
  {
    assert forall i :: 0 <= i < |s| - 1 ==> s[1..][i] == s[i + 1];
  }

  /** Selecting from a list without repeats gives a list without repeats. */
  lemma {:induction false} SelectionsDistinct(s: seq<string>, a: map<string, string>, b: map<string, string>)
    requires Distinct(s)
    ensures Distinct(Absent(s, b)) && Distinct(Common(s, a, b, true)) && Distinct(Common(s, a, b, false))
  {
    if s != [] {
      DistinctTail(s);
      SelectionsDistinct(s[1..], a, b);
    }
  }

  /** When every path of `s` is a key of `a`, the three selections share out `s`: each path lands in exactly one. */
  lemma {:induction false} SelectionsCount(s: seq<string>, a: map<string, string>, b: map<string, string>)
    requires forall x :: x in s ==> x in a
    ensures |Absent(s, b)| + |Common(s, a, b, false)| + |Common(s, a, b, true)| == |s|
  {
    if s != [] {
      SelectionsCount(s[1..], a, b);
    }
  }

  /** Comparing a dictionary with itself: nothing is absent or different, and everything is common and the same. */
  lemma {:induction false} SelectionsSelf(s: seq<string>, m: map<string, string>)
    requires forall x :: x in s ==> x in m
    ensures Absent(s, m) == [] && Common(s, m, m, false) == [] && Common(s, m, m, true) == s
  {
    if s != [] {
      SelectionsSelf(s[1..], m);
      assert s == [s[0]] + s[1..];
    }
  }

  // ---------------------------------------------------------------------------
  // The diff

  datatype VersionDiff = VersionDiff(
    versionFrom: string,
    versionTo: string,
    addedFiles: seq<string>,
    removedFiles: seq<string>,
    modifiedFiles: seq<string>,
    unchangedFiles: seq<string>)
  {
    /** `has_changes`: something was added, removed or modified. */
    predicate HasChanges() {
      |addedFiles| > 0 || |removedFiles| > 0 || |modifiedFiles| > 0
    }

    /** `get_changed_files`: added, then removed, then modified paths. */
    function ChangedFiles(): (r: seq<string>)
      ensures |r| == |addedFiles| + |removedFiles| + |modifiedFiles|
      ensures forall p :: p in r <==> p in addedFiles || p in removedFiles || p in modifiedFiles
      ensures r[..|addedFiles|] == addedFiles
      ensures r[|addedFiles|..|addedFiles| + |removedFiles|] == removedFiles
      ensures r[|addedFiles| + |removedFiles|..] == modifiedFiles
    {
      addedFiles + removedFiles + modifiedFiles
    }
  }

  /** A diff reports changes exactly when it lists some changed file. */
  lemma HasChangesIffChangedFiles(d: VersionDiff)
    ensures d.HasChanges() <==> d.ChangedFiles() != []
  {
    if d.HasChanges() {
      assert |d.ChangedFiles()| > 0;
    }
  }

  /**
   * `compute_diff`: added paths are those of `to` unknown to `from`, in `to`'s
   * order; removed, modified and unchanged paths follow `from`'s order, the last
   * two split by whether the two hashes agree.
   */
  function ComputeDiff(from: DatasetVersion, to: DatasetVersion): (d: VersionDiff)
    ensures d.versionFrom == from.version && d.versionTo == to.version
    ensures forall p :: p in d.addedFiles <==> p in HashMap(to.files) && p !in HashMap(from.files)
    ensures forall p :: p in d.removedFiles <==> p in HashMap(from.files) && p !in HashMap(to.files)
    ensures forall p :: p in d.modifiedFiles <==>
              p in HashMap(from.files) && p in HashMap(to.files) && HashMap(from.files)[p] != HashMap(to.files)[p]
    ensures forall p :: p in d.unchangedFiles <==>
              p in HashMap(from.files) && p in HashMap(to.files) && HashMap(from.files)[p] == HashMap(to.files)[p]
    ensures IsSubsequence(d.addedFiles, Paths(to.files))
    ensures IsSubsequence(d.removedFiles, Paths(from.files))
    ensures IsSubsequence(d.modifiedFiles, Paths(from.files))
    ensures IsSubsequence(d.unchangedFiles, Paths(from.files))
  {
    var mf := HashMap(from.files);
    var mt := HashMap(to.files);
    VersionDiff(
      from.version,
      to.version,
      Absent(Paths(to.files), mf),
      Absent(Paths(from.files), mt),
      Common(Paths(from.files), mf, mt, false),
      Common(Paths(from.files), mf, mt, true))
  }

  /**
   * No category repeats a path, and removed, modified and unchanged together
   * account for every path of `from` exactly once.
   */
  lemma DiffPartitionsFrom(from: DatasetVersion, to: DatasetVersion)
    ensures var d := ComputeDiff(from, to);
            && Distinct(d.addedFiles) && Distinct(d.removedFiles)
            && Distinct(d.modifiedFiles) && Distinct(d.unchangedFiles)
            && |d.removedFiles| + |d.modifiedFiles| + |d.unchangedFiles| == |Paths(from.files)|
  {
    var mf := HashMap(from.files);
    var mt := HashMap(to.files);
    SelectionsDistinct(Paths(to.files), mt, mf);
    SelectionsDistinct(Paths(from.files), mf, mt);
    SelectionsCount(Paths(from.files), mf, mt);
  }

  /** A version compared with itself shows no change, and every path of it as unchanged. */
  lemma DiffSelf(v: DatasetVersion)
    ensures var d := ComputeDiff(v, v);
            && d.addedFiles == [] && d.removedFiles == [] && d.modifiedFiles == []
            && d.unchangedFiles == Paths(v.files) && !d.HasChanges()
  {
    SelectionsSelf(Paths(v.files), HashMap(v.files));
  }
}

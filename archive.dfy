/** What `extract_zip` decides from an archive's member list: whether the
    archive has a single top-level directory, where it is unpacked, and the
    totals it reports. An archive is its list of members in archive order;
    a member whose name ends with `/` is a directory. */
module Archive {
  import opened Wrappers
  import opened Text
  import opened Paths

  datatype Entry = Entry(name: string, size: nat)

  /** `ZipInfo.is_dir()`. */
  predicate IsDir(e: Entry)
  {
    EndsWith(e.name, "/")
  }

  /** `namelist()`. */
  function Names(entries: seq<Entry>): (r: seq<string>)
    ensures |r| == |entries|
    ensures forall i :: 0 <= i < |r| ==> r[i] == entries[i].name
  {
    if entries == [] then [] else [entries[0].name] + Names(entries[1..])
  }

  /** `name.split('/')[0]`. */
  function TopLevel(name: string): (r: string)
  {
    BeforeFirst(name, '/')
  }

  /** `top_level_items`. */
  function TopLevelItems(names: seq<string>): set<string>
  {
    set i | 0 <= i < |names| :: TopLevel(names[i])
  }

  /** `single_top_dir`: the one top-level item, when there is exactly one
      and some member lies beneath it. */
  function SingleTopDir(names: seq<string>): (r: Option<string>)
    ensures r.Some? ==> TopLevelItems(names) == {r.value}
    ensures r.Some? ==> exists i :: 0 <= i < |names| && StartsWith(names[i], r.value + "/")
  {
    var tops := TopLevelItems(names);
    if |tops| == 1 then
      var t := TopLevel(names[0]);
      assert t in tops;
      SingletonIs(tops, t);
      if exists i :: 0 <= i < |names| && StartsWith(names[i], t + "/") then Some(t) else None
    else None
  }

  lemma SingletonIs<T>(s: set<T>, x: T)
    requires |s| == 1 && x in s
    ensures s == {x}
  {
    var rest := s - {x};
    assert s == rest + {x};
    assert |rest| == 0;
  }

  /** `if single_top_dir:`: the item must also be a non-empty string. */
  predicate IsSingleRooted(names: seq<string>)
  {
    SingleTopDir(names).Some? && SingleTopDir(names).value != ""
  }

  /** The extraction directory: the download directory itself for a single
      rooted archive, else a directory named after the archive's stem. */
  function ExtractDir(zipPath: Path, downloadDir: Path, names: seq<string>): Path
  {
    if IsSingleRooted(names) then downloadDir else Join(downloadDir, Stem(zipPath))
  }

  /** A name starts with its own top-level item and a separator exactly when it has one. */
  lemma TopLevelPrefix(name: string)
    ensures '/' in name <==> StartsWith(name, TopLevel(name) + "/")
  {
    var t := TopLevel(name);
    if '/' in name {
      assert name[|t|] == '/';
      assert name[..|t| + 1] == t + "/";
    }
    if StartsWith(name, t + "/") {
      assert name[|t|] == '/';
    }
  }

  /** The archive has a single top directory exactly when all members share
      one top-level item and at least one member has a separator. */
  lemma SingleTopDirIff(names: seq<string>)
    ensures SingleTopDir(names).Some? <==>
            |TopLevelItems(names)| == 1 && exists i :: 0 <= i < |names| && '/' in names[i]
  {
    var tops := TopLevelItems(names);
    if |tops| == 1 {
      var t := TopLevel(names[0]);
      assert t in tops;
      SingletonIs(tops, t);
      if i :| 0 <= i < |names| && '/' in names[i] {
        TopLevelPrefix(names[i]);
        assert TopLevel(names[i]) in tops;
      }
      if i :| 0 <= i < |names| && StartsWith(names[i], t + "/") {
        assert names[i][|t|] == '/';
      }
    }
  }

  /** Members that all lie under one named directory unpack into the download directory. */
  lemma CommonRootUnpacksInPlace(zipPath: Path, downloadDir: Path, t: string, names: seq<string>)
    requires t != "" && '/' !in t && |names| >= 1
    requires forall i :: 0 <= i < |names| ==> StartsWith(names[i], t + "/")
    ensures SingleTopDir(names) == Some(t)
    ensures ExtractDir(zipPath, downloadDir, names) == downloadDir
  {
    forall i | 0 <= i < |names|
      ensures TopLevel(names[i]) == t
    {
      assert names[i][..|t| + 1] == t + "/";
      assert names[i][|t|] == '/';
      IndexOfAfter(t, '/', names[i][|t| + 1..]);
      assert names[i] == t + "/" + names[i][|t| + 1..];
    }
    assert TopLevelItems(names) == {t} by {
      assert TopLevel(names[0]) in TopLevelItems(names);
    }
  }

  /** Members with two different top-level items unpack into a directory
      named after the archive. */
  lemma TwoRootsUnpackAside(zipPath: Path, downloadDir: Path, names: seq<string>, i: nat, j: nat)
    requires i < |names| && j < |names| && TopLevel(names[i]) != TopLevel(names[j])
    ensures SingleTopDir(names).None?
    ensures ExtractDir(zipPath, downloadDir, names) == Join(downloadDir, Stem(zipPath))
  {
    var tops := TopLevelItems(names);
    var a, b := TopLevel(names[i]), TopLevel(names[j]);
    assert a in tops && b in tops;
    if |tops| == 1 {
      SingletonIs(tops, a);
    }
  }

  /** An archive holding one plain file is not single rooted. */
  lemma LoneFileUnpacksAside(zipPath: Path, downloadDir: Path, f: string)
    requires '/' !in f
    ensures SingleTopDir([f]).None?
    ensures ExtractDir(zipPath, downloadDir, [f]) == Join(downloadDir, Stem(zipPath))
  {
    SingleTopDirIff([f]);
  }

  /** The number of members that are files. */
  function FileCount(entries: seq<Entry>): (n: nat)
    ensures n <= |entries|
  {
    if entries == [] then 0
    else FileCount(entries[..|entries| - 1]) + (if IsDir(entries[|entries| - 1]) then 0 else 1)
  }

  /** The bytes of the members that are files. */
  function FileBytes(entries: seq<Entry>): nat
  {
    if entries == [] then 0
    else FileBytes(entries[..|entries| - 1]) + (if IsDir(entries[|entries| - 1]) then 0 else entries[|entries| - 1].size)
  }

  /** The names of the members that are files, in archive order. */
  function FileNames(entries: seq<Entry>): (r: seq<string>)
    ensures |r| == FileCount(entries)
  {
    if entries == [] then []
    else FileNames(entries[..|entries| - 1]) + (if IsDir(entries[|entries| - 1]) then [] else [entries[|entries| - 1].name])
  }

  /** Totals never shrink as the archive goes on. */
  lemma {:induction false} TotalsMonotone(entries: seq<Entry>, k: nat)
    requires k <= |entries|
    ensures FileCount(entries[..k]) <= FileCount(entries)
    ensures FileBytes(entries[..k]) <= FileBytes(entries)
    decreases |entries|
  {
    if k < |entries| {
      var init := entries[..|entries| - 1];
      assert entries[..k] == init[..k];
      TotalsMonotone(init, k);
    } else {
      assert entries[..k] == entries;
    }
  }

  /** The key of an extraction in `active_downloads`. */
  function ExtractKey(zipPath: Path): (k: string)
    ensures StartsWith(k, "extract_")
  {
    "extract_" + PathToString(zipPath)
  }

  /** Two different archives have different extraction keys. */
  lemma ExtractKeyInjective(a: Path, b: Path)
    requires WellFormed(a) && WellFormed(b) && ExtractKey(a) == ExtractKey(b)
    ensures a == b
  {
    assert PathToString(a) == ExtractKey(a)[8..];
    assert PathToString(b) == ExtractKey(b)[8..];
    ParsePathToString(a);
    ParsePathToString(b);
  }

  /** What the archive holds, when it can be read; `failAt` is the member
      whose extraction raises, if any. */
  datatype ArchiveWorld = Unreadable | Readable(entries: seq<Entry>, failAt: Option<nat>)

  /** What an extraction did: where it unpacked, the totals it reported, how
      far it came, and whether it deleted the archive. */
  datatype Extraction = Extraction(
    target: Option<Path>,
    totalFiles: nat,
    totalSize: nat,
    extractedFiles: nat,
    extractedSize: nat,
    written: seq<string>,
    zipDeleted: bool)

  /** The member at which extraction stops: the failing file, or the end. */
  function StopIndex(entries: seq<Entry>, failAt: Option<nat>): (k: nat)
    ensures k <= |entries|
    ensures k < |entries| ==> !IsDir(entries[k])
  {
    if failAt.Some? && failAt.value < |entries| && !IsDir(entries[failAt.value]) then failAt.value
    else |entries|
  }

  /** The effect of `extract_zip` on a given archive. */
  function ExtractSpec(zipPath: Path, downloadDir: Path, w: ArchiveWorld): Extraction
  {
    match w
    case Unreadable => Extraction(None, 0, 0, 0, 0, [], false)
    case Readable(entries, failAt) =>
      var done := entries[..StopIndex(entries, failAt)];
      Extraction(Some(ExtractDir(zipPath, downloadDir, Names(entries))),
                 FileCount(entries), FileBytes(entries),
                 FileCount(done), FileBytes(done), FileNames(done),
                 StopIndex(entries, failAt) == |entries|)
  }

  /** The archive is deleted exactly when every file was extracted, and then
      the counters equal the totals and every file was written, in order. */
  lemma DeletedOnlyWhenComplete(zipPath: Path, downloadDir: Path, w: ArchiveWorld)
    ensures var x := ExtractSpec(zipPath, downloadDir, w);
            && (x.zipDeleted <==> w.Readable? && StopIndex(w.entries, w.failAt) == |w.entries|)
            && (x.zipDeleted ==> x.extractedFiles == x.totalFiles && x.extractedSize == x.totalSize
                                 && x.written == FileNames(w.entries))
            && x.extractedFiles <= x.totalFiles && x.extractedSize <= x.totalSize
  {
    if w.Readable? {
      var k := StopIndex(w.entries, w.failAt);
      TotalsMonotone(w.entries, k);
      if k == |w.entries| {
        assert w.entries[..k] == w.entries;
      }
    }
  }

  /** A failing file leaves the archive in place, with the files before it extracted. */
  lemma FailureKeepsArchive(zipPath: Path, downloadDir: Path, entries: seq<Entry>, i: nat)
    requires i < |entries| && !IsDir(entries[i])
    ensures var x := ExtractSpec(zipPath, downloadDir, Readable(entries, Some(i)));
            && !x.zipDeleted
            && x.written == FileNames(entries[..i])
            && x.extractedFiles < x.totalFiles
  {
    var init := entries[..i + 1];
    assert init[..i] == entries[..i];
    assert FileCount(init) == FileCount(entries[..i]) + 1;
    TotalsMonotone(entries, i + 1);
  }
}

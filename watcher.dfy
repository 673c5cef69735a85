/** `TorBoxWatcherApp`: the orchestration between the watch directories, the
    TorBox API, the job table and the file processor. API responses, the
    files found in a watch directory and everything a download meets are
    inputs; the decisions taken on them are modelled. */
module Watcher {
  import opened Wrappers
  import opened Text
  import opened Paths
  import opened PyValues
  import opened Config
  import opened Tracker
  import opened Stats
  import opened Transfer
  import opened Processor
  import opened ApiClient

  /** `d.get(key, default)` on a dictionary of scalars. */
  function DictGet(fields: map<string, Scalar>, key: string, default: Scalar): (v: Scalar)
    ensures key in fields ==> v == fields[key]
    ensures key !in fields ==> v == default
  {
    if key in fields then fields[key] else default
  }

  // ---------------------------------------------------------------------
  // Submission
  // ---------------------------------------------------------------------

  /** The `data` member of a submission response: missing, present but not a
      dictionary, or a dictionary of scalars. */
  datatype SubmitData = NoData | NotObject | Fields(fields: map<string, Scalar>)

  /** The triple `(identifier, download_id, download_hash)`. */
  datatype Identifiers = Identifiers(identifier: Scalar, downloadId: Scalar, downloadHash: Scalar)

  /** `_extract_identifier_from_response`. */
  function ExtractIdentifier(data: SubmitData, kind: string): (r: Identifiers)
    ensures Truthy(r.identifier) <==> Truthy(r.downloadId) || Truthy(r.downloadHash)
    ensures !data.Fields? ==> r == Identifiers(PyNone, PyNone, PyNone)
  {
    match data
    case Fields(f) =>
      var id :=
        if kind == "torrent" then DictGet(f, "torrent_id", PyNone)
        else if "usenetdownload_id" in f then f["usenetdownload_id"]
        else DictGet(f, "id", PyNone);
      var hash := DictGet(f, "hash", PyNone);
      Identifiers(Or(id, hash), id, hash)
    case _ => Identifiers(PyNone, PyNone, PyNone)
  }

  /** A torrent whose `torrent_id` is missing or falsy (such as `0`) is
      identified by its hash; its `id` member plays no part. */
  lemma TorrentFallsBackToHash(f: map<string, Scalar>)
    requires "torrent_id" !in f || !Truthy(f["torrent_id"])
    ensures ExtractIdentifier(Fields(f), "torrent").identifier == DictGet(f, "hash", PyNone)
    ensures "id" in f ==> ExtractIdentifier(Fields(f), "torrent") == ExtractIdentifier(Fields(f - {"id"}), "torrent")
  {
    if "id" in f {
      var g := f - {"id"};
      assert ("torrent_id" in g <==> "torrent_id" in f) && ("hash" in g <==> "hash" in f);
    }
  }

  /** For usenet, a present `usenetdownload_id` shadows `id`, even when it is
      falsy: then the hash is the identifier, whatever `id` holds. */
  lemma UsenetIdPrecedence(f: map<string, Scalar>)
    requires "usenetdownload_id" in f
    ensures ExtractIdentifier(Fields(f), "usenet").downloadId == f["usenetdownload_id"]
    ensures !Truthy(f["usenetdownload_id"]) ==> ExtractIdentifier(Fields(f), "usenet").identifier == DictGet(f, "hash", PyNone)
  {
  }

  /** Without `usenetdownload_id`, a usenet job falls back to `id`. */
  lemma UsenetFallsBackToId(f: map<string, Scalar>)
    requires "usenetdownload_id" !in f && "id" in f && Truthy(f["id"])
    ensures ExtractIdentifier(Fields(f), "usenet").identifier == f["id"]
  {
  }

  /** What `process_torrent_file` and `process_nzb_file` return. */
  datatype Submission = Submission(success: bool, path: Path, identifier: Scalar)

  datatype Submitted = Submitted(result: Submission, tracking: map<string, TrackingInfo>)

  /** The submit-and-track branches for the file at `path`, given the parsed
      response (`None` when the submission or reading the file raised). */
  function Submit(tracking: map<string, TrackingInfo>, path: Path, downloadDir: Path, kind: string,
                  reply: Option<SubmitData>, now: string): Submitted
  {
    match reply
    case None => Submitted(Submission(false, path, PyNone), tracking)
    case Some(data) =>
      var ids := ExtractIdentifier(data, kind);
      if !Truthy(ids.identifier) then Submitted(Submission(false, path, PyNone), tracking)
      else
        var key := Str(ids.identifier);
        if key in tracking then Submitted(Submission(false, path, ids.identifier), tracking)
        else Submitted(Submission(true, path, ids.identifier),
                       tracking[key := NewEntry(kind, Stem(path), Some(path), ids.downloadId, ids.downloadHash, Some(downloadDir), now)])
  }

  /** A submission succeeds exactly when it yields a truthy identifier not yet
      tracked; then that one key is added, pointing back at the file, and no
      existing record changes. A failure leaves the table as it was, and
      reports `None` unless the identifier was already tracked. */
  lemma SubmitTracks(tracking: map<string, TrackingInfo>, path: Path, downloadDir: Path, kind: string,
                     reply: Option<SubmitData>, now: string)
    ensures var s := Submit(tracking, path, downloadDir, kind, reply, now);
            && s.result.path == path
            && (s.result.success <==>
                  reply.Some? && Truthy(ExtractIdentifier(reply.value, kind).identifier)
                  && Str(ExtractIdentifier(reply.value, kind).identifier) !in tracking)
            && (!s.result.success ==> s.tracking == tracking)
            && (!s.result.success && s.result.identifier != PyNone ==> Str(s.result.identifier) in tracking)
            && (s.result.success ==>
                  var key := Str(s.result.identifier);
                  && s.tracking.Keys == tracking.Keys + {key}
                  && (forall k :: k in tracking ==> s.tracking[k] == tracking[k])
                  && s.tracking[key].kind == kind && s.tracking[key].name == Stem(path)
                  && s.tracking[key].originalFile == Some(PathToString(path)))
  {
    var s := Submit(tracking, path, downloadDir, kind, reply, now);
    if !s.result.success && s.result.identifier != PyNone {
      assert Truthy(s.result.identifier);
    }
  }

  /** A job submitted from a watch directory is recorded with that
      directory, which the download request reads back as it was. */
  lemma SubmittedJobDownloadsWhereAsked(tracking: map<string, TrackingInfo>, path: Path, downloadDir: Path,
                                        kind: string, reply: Option<SubmitData>, now: string)
    requires WellFormed(downloadDir)
    requires Submit(tracking, path, downloadDir, kind, reply, now).result.success
    ensures var s := Submit(tracking, path, downloadDir, kind, reply, now);
            Str(s.result.identifier) in s.tracking
            && StoredDirectory(s.tracking[Str(s.result.identifier)]) == Some(downloadDir)
  {
    var ids := ExtractIdentifier(reply.value, kind);
    StoredDirectoryRoundTrip(kind, Stem(path), Some(path), ids.downloadId, ids.downloadHash, downloadDir, now);
  }

  // ---------------------------------------------------------------------
  // Directory scan
  // ---------------------------------------------------------------------

  /** The kind of job a watch file is submitted as, by its suffix compared
      case-insensitively; `None` for a file the scan ignores. */
  function Dispatch(p: Path): (kind: Option<string>)
    ensures kind.Some? ==> kind.value == "torrent" || kind.value == "usenet"
  {
    var ext := Lower(Suffix(p));
    if ext in ExtensionKinds then Some(ExtensionKinds[ext]) else None
  }
  const ExtensionKinds: map<string, string> := map[".torrent" := "torrent", ".magnet" := "torrent", ".nzb" := "usenet"]

  /** The last dot of a name whose only dot after position `i` is at `i`. */
  lemma LastDotAt(name: string, i: nat)
    requires i < |name| && name[i] == '.'
    requires forall j :: i < j < |name| ==> name[j] != '.'
    ensures LastDot(name) == Some(i)
  {
    assert '.' in name;
  }

  /** The suffix of a file named `stem + ext`, for an extension with a single dot. */
  lemma SuffixOfName(stem: string, ext: string)
    requires stem != "" && |ext| >= 2 && ext[0] == '.' && '.' !in ext[1..]
    ensures Suffix(Path(false, [stem + ext])) == ext
  {
    var name := stem + ext;
    forall j | |stem| < j < |name|
      ensures name[j] != '.'
    {
      assert name[j] == ext[1..][j - |stem| - 1];
    }
    LastDotAt(name, |stem|);
    assert name[|stem|..] == ext;
  }

  /** Names that are the same once lower-cased have suffixes that are the
      same once lower-cased. */
  lemma LowerSuffix(p: Path, q: Path)
    requires Lower(Name(p)) == Lower(Name(q))
    ensures Lower(Suffix(p)) == Lower(Suffix(q))
  {
    var a, b := Name(p), Name(q);
    LowerKeepsDots(a, b);
    LastDotSameDots(a, b);
    assert SuffixStart(a) == SuffixStart(b);
    if SuffixStart(a).Some? {
      var k := SuffixStart(a).value;
      assert Suffix(p) == a[k..] && Suffix(q) == b[k..];
      LowerDrop(a, b, k);
    } else {
      assert Suffix(p) == [] && Suffix(q) == [];
    }
  }

  /** Names that are the same once lower-cased are dispatched alike: the
      suffix is compared whatever its case. */
  lemma DispatchIgnoresCase(p: Path, q: Path)
    requires Lower(Name(p)) == Lower(Name(q))
    ensures Dispatch(p) == Dispatch(q)
  {
    LowerSuffix(p, q);
  }

  /** A lower-case string is its own lower-case form. */
  lemma LowerOfLower(s: string)
    requires forall i :: 0 <= i < |s| ==> !('A' <= s[i] <= 'Z')
    ensures Lower(s) == s
  {
  }

  /** A file named `stem + ext`, for a lower-case extension with a single
      dot, is dispatched by the table of extensions. */
  lemma DispatchExtension(stem: string, ext: string)
    requires stem != "" && |ext| >= 2 && ext[0] == '.' && '.' !in ext[1..]
    requires forall i :: 0 <= i < |ext| ==> !('A' <= ext[i] <= 'Z')
    ensures Dispatch(Path(false, [stem + ext])) ==
            if ext in ExtensionKinds then Some(ExtensionKinds[ext]) else None
  {
    SuffixOfName(stem, ext);
    LowerOfLower(ext);
  }

  datatype ScanState = ScanState(results: seq<Submission>, tracking: map<string, TrackingInfo>)

  /** The first loop of `_scan_directory` over the files of a watch directory,
      each with the response its submission gets. */
  function Scan(tracking: map<string, TrackingInfo>, files: seq<Path>, replies: seq<Option<SubmitData>>,
                downloadDir: Path, now: string): ScanState
    requires |replies| == |files|
    decreases |files|
  {
    if files == [] then ScanState([], tracking)
    else
      var n := |files| - 1;
      var s := Scan(tracking, files[..n], replies[..n], downloadDir, now);
      match Dispatch(files[n])
      case None => s
      case Some(kind) =>
        var t := Submit(s.tracking, files[n], downloadDir, kind, replies[n], now);
        ScanState(s.results + [t.result], t.tracking)
  }

  /** The files the scan submits, in order. */
  function Submittable(files: seq<Path>): (r: seq<Path>)
    ensures forall p :: p in r ==> p in files && Dispatch(p).Some?
  {
    if files == [] then []
    else
      var n := |files| - 1;
      Submittable(files[..n]) + (if Dispatch(files[n]).Some? then [files[n]] else [])
  }

  function ResultPaths(results: seq<Submission>): (r: seq<Path>)
    ensures |r| == |results|
  {
    if results == [] then [] else ResultPaths(results[..|results| - 1]) + [results[|results| - 1].path]
  }

  /** The paths of the successful results, in order: the files the second loop deletes. */
  function SuccessfulPaths(results: seq<Submission>): seq<Path>
  {
    if results == [] then []
    else
      var n := |results| - 1;
      SuccessfulPaths(results[..n]) + (if results[n].success then [results[n].path] else [])
  }

  /** The keys the successful results add to the table, in order. */
  function TrackedKeys(results: seq<Submission>): seq<string>
  {
    if results == [] then []
    else
      var n := |results| - 1;
      TrackedKeys(results[..n]) + (if results[n].success then [Str(results[n].identifier)] else [])
  }

  lemma ResultPathsSnoc(results: seq<Submission>, r: Submission)
    ensures ResultPaths(results + [r]) == ResultPaths(results) + [r.path]
  {
    assert (results + [r])[..|results|] == results;
  }

  lemma TrackedKeysSnoc(results: seq<Submission>, r: Submission)
    ensures TrackedKeys(results + [r]) == TrackedKeys(results) + (if r.success then [Str(r.identifier)] else [])
  {
    assert (results + [r])[..|results|] == results;
  }

  /** One result per file with a recognised extension, in directory order;
      every other file is ignored. */
  lemma {:induction false} ScanVisitsSubmittable(tracking: map<string, TrackingInfo>, files: seq<Path>,
                                                 replies: seq<Option<SubmitData>>, downloadDir: Path, now: string)
    requires |replies| == |files|
    ensures ResultPaths(Scan(tracking, files, replies, downloadDir, now).results) == Submittable(files)
    decreases |files|
  {
    if files != [] {
      var n := |files| - 1;
      var s := Scan(tracking, files[..n], replies[..n], downloadDir, now);
      ScanVisitsSubmittable(tracking, files[..n], replies[..n], downloadDir, now);
      match Dispatch(files[n])
      case None =>
      case Some(kind) =>
        var t := Submit(s.tracking, files[n], downloadDir, kind, replies[n], now);
        ResultPathsSnoc(s.results, t.result);
    }
  }

  /** The scan's effect on one file, from the state before it. */
  function ScanNext(s: ScanState, file: Path, reply: Option<SubmitData>, downloadDir: Path, now: string): ScanState
  {
    match Dispatch(file)
    case None => s
    case Some(kind) =>
      var t := Submit(s.tracking, file, downloadDir, kind, reply, now);
      ScanState(s.results + [t.result], t.tracking)
  }

  /** The scan of one file more. */
  lemma ScanSnoc(tracking: map<string, TrackingInfo>, files: seq<Path>, replies: seq<Option<SubmitData>>,
                 downloadDir: Path, now: string, i: nat)
    requires |replies| == |files| && i < |files|
    ensures Scan(tracking, files[..i + 1], replies[..i + 1], downloadDir, now) ==
            ScanNext(Scan(tracking, files[..i], replies[..i], downloadDir, now), files[i], replies[i], downloadDir, now)
  {
    assert files[..i + 1][..i] == files[..i] && replies[..i + 1][..i] == replies[..i];
  }

  /** The scan only adds records: every record present before is still there, unchanged. */
  lemma {:induction false} ScanKeepsRecords(tracking: map<string, TrackingInfo>, files: seq<Path>,
                                            replies: seq<Option<SubmitData>>, downloadDir: Path, now: string)
    requires |replies| == |files|
    ensures var s := Scan(tracking, files, replies, downloadDir, now);
            forall k :: k in tracking ==> k in s.tracking && s.tracking[k] == tracking[k]
    decreases |files|
  {
    if files != [] {
      var n := |files| - 1;
      var s := Scan(tracking, files[..n], replies[..n], downloadDir, now);
      ScanKeepsRecords(tracking, files[..n], replies[..n], downloadDir, now);
      match Dispatch(files[n])
      case None =>
      case Some(kind) =>
        SubmitTracks(s.tracking, files[n], downloadDir, kind, replies[n], now);
    }
  }

  /** The facts about one successful result. */
  predicate TrackedFrom(tracking: map<string, TrackingInfo>, after: map<string, TrackingInfo>,
                        r: Submission, downloadDir: Path)
  {
    var key := Str(r.identifier);
    && key !in tracking && key in after
    && after[key].originalFile == Some(PathToString(r.path))
    && StoredDirectory(after[key]) == Some(downloadDir)
  }

  /** The successful results of a state all have their jobs newly tracked in it. */
  predicate AllTracked(tracking: map<string, TrackingInfo>, s: ScanState, downloadDir: Path)
  {
    forall j :: 0 <= j < |s.results| && s.results[j].success ==> TrackedFrom(tracking, s.tracking, s.results[j], downloadDir)
  }

  /** One submission more keeps every successful result tracked. */
  lemma SubmitKeepsTracked(tracking: map<string, TrackingInfo>, s: ScanState, path: Path, downloadDir: Path,
                           kind: string, reply: Option<SubmitData>, now: string)
    requires WellFormed(downloadDir) && AllTracked(tracking, s, downloadDir)
    requires tracking.Keys <= s.tracking.Keys
    ensures var t := Submit(s.tracking, path, downloadDir, kind, reply, now);
            AllTracked(tracking, ScanState(s.results + [t.result], t.tracking), downloadDir)
  {
    var t := Submit(s.tracking, path, downloadDir, kind, reply, now);
    SubmitTracks(s.tracking, path, downloadDir, kind, reply, now);
    var rs := s.results + [t.result];
    forall j | 0 <= j < |rs| && rs[j].success
      ensures TrackedFrom(tracking, t.tracking, rs[j], downloadDir)
    {
      if j < |s.results| {
        assert rs[j] == s.results[j];
        assert TrackedFrom(tracking, s.tracking, s.results[j], downloadDir);
      } else {
        SubmittedJobDownloadsWhereAsked(s.tracking, path, downloadDir, kind, reply, now);
      }
    }
  }

  /** Every file that is deleted had its job newly tracked by this scan, with
      the record pointing back at that file and at the download directory. */
  lemma {:induction false} DeletedAreTracked(tracking: map<string, TrackingInfo>, files: seq<Path>,
                                             replies: seq<Option<SubmitData>>, downloadDir: Path, now: string)
    requires |replies| == |files| && WellFormed(downloadDir)
    ensures AllTracked(tracking, Scan(tracking, files, replies, downloadDir, now), downloadDir)
    decreases |files|
  {
    if files != [] {
      var n := |files| - 1;
      var s := Scan(tracking, files[..n], replies[..n], downloadDir, now);
      DeletedAreTracked(tracking, files[..n], replies[..n], downloadDir, now);
      match Dispatch(files[n])
      case None =>
      case Some(kind) =>
        ScanKeepsRecords(tracking, files[..n], replies[..n], downloadDir, now);
        SubmitKeepsTracked(tracking, s, files[n], downloadDir, kind, replies[n], now);
    }
  }

  /** Scanning one watch directory after another keeps every record that was
      tracked before the first scan. */
  lemma TwoScansKeepRecords(tracking: map<string, TrackingInfo>,
                            firstFiles: seq<Path>, firstReplies: seq<Option<SubmitData>>, firstDir: Path,
                            secondFiles: seq<Path>, secondReplies: seq<Option<SubmitData>>, secondDir: Path, now: string)
    requires |firstReplies| == |firstFiles| && |secondReplies| == |secondFiles|
    ensures var first := Scan(tracking, firstFiles, firstReplies, firstDir, now);
            var second := Scan(first.tracking, secondFiles, secondReplies, secondDir, now);
            forall k :: k in tracking ==> k in second.tracking && second.tracking[k] == tracking[k]
  {
    var first := Scan(tracking, firstFiles, firstReplies, firstDir, now);
    ScanKeepsRecords(tracking, firstFiles, firstReplies, firstDir, now);
    ScanKeepsRecords(first.tracking, secondFiles, secondReplies, secondDir, now);
  }

  // ---------------------------------------------------------------------
  // Status checks
  // ---------------------------------------------------------------------

  /** A dictionary of a status response. `progressConverts` says whether its
      `progress` value survives `float()`, which the status log line applies. */
  datatype Item = Item(fields: map<string, Scalar>, progressConverts: bool)

  /** An element of a status list: a dictionary, or any other JSON value. */
  datatype Element = ObjectElement(item: Item) | OtherElement

  /** The `data` member of a status response. */
  datatype StatusData = NoStatusData | ObjectData(item: Item) | ListData(elements: seq<Element>) | OtherData

  /** The status response, or `StatusFailed` when the request raised. */
  datatype StatusReply = StatusFailed | StatusReply(data: StatusData)

  /** The download-link response, or `LinkFailed` when the request raised;
      `url` is the `data` member, when present. */
  datatype LinkReply = LinkFailed | LinkReply(success: Option<Scalar>, url: Option<string>)

  /** What the API answers about one tracked job during a status check, and
      what its download then meets. */
  datatype Poll = Poll(status: StatusReply, link: LinkReply, transfer: TransferWorld)

  /** The three ways an item of a status list is recognised as the job. */
  predicate Matches(info: TrackingInfo, identifier: string, item: Item)
  {
    || (Truthy(info.id) && Str(DictGet(item.fields, "id", PyStr(""))) == Str(info.id))
    || (Truthy(info.hash) && PyEq(DictGet(item.fields, "hash", PyNone), info.hash))
    || (!Truthy(info.id) && PyEq(DictGet(item.fields, "hash", PyNone), PyStr(identifier)))
  }

  /** An empty dictionary never matches. */
  lemma EmptyItemNeverMatches(info: TrackingInfo, identifier: string, progressConverts: bool)
    ensures !Matches(info, identifier, Item(map[], progressConverts))
  {
    TruthyStrNonEmpty(info.id);
  }

  /** Ids are compared by their text, so an id the API reports as a string
      matches one stored as an integer. */
  lemma IdsComparedAsText(hash: Scalar, identifier: string)
    ensures Matches(TrackingInfo("torrent", "n", "t", None, PyInt(42), hash, None, 0), identifier,
                    Item(map["id" := PyStr("42")], true))
  {
    assert NatToString(4) == "4";
    assert DigitChar(2) == '2';
    assert Str(PyInt(42)) == "42";
  }

  /** The element at `l` is a dictionary that does not match. */
  predicate MissAt(info: TrackingInfo, identifier: string, elements: seq<Element>, l: nat)
    requires l < |elements|
  {
    elements[l].ObjectElement? && !Matches(info, identifier, elements[l].item)
  }

  datatype Search = Found(item: Item) | NotFound | Raised

  /** The search of the list from position `i`: the first matching
      dictionary, or the first non-dictionary, on which `.get` raises. */
  function SearchFrom(info: TrackingInfo, identifier: string, elements: seq<Element>, i: nat): (r: Search)
    requires i <= |elements|
    ensures r.Found? ==> Matches(info, identifier, r.item)
    ensures r.Found? ==> exists j :: i <= j < |elements| && elements[j] == ObjectElement(r.item)
                                     && forall l :: i <= l < j ==> MissAt(info, identifier, elements, l)
    ensures r.Raised? ==> exists j :: i <= j < |elements| && elements[j].OtherElement?
                                      && forall l :: i <= l < j ==> MissAt(info, identifier, elements, l)
    ensures r.NotFound? ==> forall l :: i <= l < |elements| ==> MissAt(info, identifier, elements, l)
    decreases |elements| - i
  {
    if i == |elements| then NotFound
    else match elements[i]
      case OtherElement => Raised
      case ObjectElement(item) =>
        if Matches(info, identifier, item) then Found(item) else SearchFrom(info, identifier, elements, i + 1)
  }

  /** The item the status check settles on, or why there is none. */
  function DownloadData(info: TrackingInfo, identifier: string, data: StatusData): Search
  {
    match data
    case ObjectData(item) => Found(item)
    case ListData(elements) => if |elements| > 0 then SearchFrom(info, identifier, elements, 0) else NotFound
    case _ => NotFound
  }

  /** The log line evaluates `download_state.upper()` and `float(progress)`. */
  predicate Loggable(item: Item)
  {
    DictGet(item.fields, "download_state", PyStr("")).PyStr? && item.progressConverts
  }

  /** The status check finds the job ready to download. */
  predicate StatusReady(info: TrackingInfo, identifier: string, reply: StatusReply)
  {
    && reply.StatusReply?
    && var d := DownloadData(info, identifier, reply.data);
       && d.Found? && d.item.fields != map[] && Loggable(d.item)
       && Truthy(DictGet(d.item.fields, "download_present", PyBool(false)))
  }

  /** In a list response, a ready job is the first matching dictionary of the
      list and it reports `download_present`; the elements before it are
      dictionaries that do not match. */
  lemma ReadyItemIsFirstMatch(info: TrackingInfo, identifier: string, elements: seq<Element>)
    requires StatusReady(info, identifier, StatusReply(ListData(elements)))
    ensures exists j :: 0 <= j < |elements| && elements[j].ObjectElement?
                        && Matches(info, identifier, elements[j].item)
                        && Truthy(DictGet(elements[j].item.fields, "download_present", PyBool(false)))
                        && forall l :: 0 <= l < j ==> MissAt(info, identifier, elements, l)
  {
    var d := SearchFrom(info, identifier, elements, 0);
    var j :| 0 <= j < |elements| && elements[j] == ObjectElement(d.item)
             && forall l :: 0 <= l < j ==> MissAt(info, identifier, elements, l);
    assert elements[j].item == d.item;
  }

  /** A list element that is not a dictionary, reached before any match,
      makes the check fail. */
  lemma NonObjectBeforeMatchFails(info: TrackingInfo, identifier: string, before: seq<Item>, rest: seq<Element>)
    requires forall l :: 0 <= l < |before| ==> !Matches(info, identifier, before[l])
    ensures var elements := seq(|before|, l requires 0 <= l < |before| => ObjectElement(before[l])) + [OtherElement] + rest;
            !StatusReady(info, identifier, StatusReply(ListData(elements)))
  {
    var elements := seq(|before|, l requires 0 <= l < |before| => ObjectElement(before[l])) + [OtherElement] + rest;
    var k := |before|;
    while k > 0
      invariant 0 <= k <= |before|
      invariant SearchFrom(info, identifier, elements, k) == Raised
    {
      k := k - 1;
      assert elements[k] == ObjectElement(before[k]);
    }
  }

  /** The query string of the status request: the stored id, else the identifier. */
  function QueryParam(info: TrackingInfo, identifier: string): (q: string)
    ensures Truthy(info.id) ==> q == "id=" + Str(info.id)
    ensures !Truthy(info.id) ==> q == "id=" + identifier
  {
    "id=" + Str(Or(info.id, PyStr(identifier)))
  }

  /** The query string reaches the list request as the one parameter `id`. */
  lemma QueryParamParses(info: TrackingInfo, identifier: string)
    requires '&' !in Str(Or(info.id, PyStr(identifier)))
    ensures ParsedQuery(Some(QueryParam(info, identifier))) == Some(map["id" := Str(Or(info.id, PyStr(identifier)))])
  {
    var v := Str(Or(info.id, PyStr(identifier)));
    SingleParameter("id", v);
    assert QueryParam(info, identifier) == "id" + "=" + v;
  }

  /** `Path(download_dir) if download_dir else None`: the stored directory, if
      it is a non-empty string (a `Path` itself is always truthy). */
  function StoredDirectory(info: TrackingInfo): (d: Option<Path>)
    ensures d.Some? <==> info.downloadDir.Some? && info.downloadDir.value != ""
  {
    if info.downloadDir.Some? && info.downloadDir.value != "" then Some(ParsePath(info.downloadDir.value)) else None
  }

  /** The download URL, when the link response has a truthy `success` and a `data` member. */
  function LinkUrl(link: LinkReply): (url: Option<string>)
    ensures url.Some? ==> link.LinkReply? && link.url == url
  {
    match link
    case LinkFailed => None
    case LinkReply(success, url) => if Truthy(success.GetOr(PyBool(false))) && url.Some? then url else None
  }

  /** A link response without `success` starts nothing. */
  lemma MissingSuccessStartsNothing(url: Option<string>)
    ensures LinkUrl(LinkReply(None, url)).None?
  {
  }

  /** The parameter naming the job in the download-link request. */
  function IdKey(kind: string): (k: string)
    ensures k == "torrent_id" || k == "usenet_id"
  {
    if kind == "torrent" then "torrent_id" else "usenet_id"
  }

  /** A download is started for the job. */
  predicate Starts(info: TrackingInfo, link: LinkReply)
  {
    StoredDirectory(info).Some? && LinkUrl(link).Some?
  }

  /** A job the status loop checks, when it is not active locally. */
  predicate Eligible(tracking: map<string, TrackingInfo>, sessions: map<string, Session>, k: string)
  {
    k in tracking && tracking[k].kind in {"torrent", "usenet"} && k !in sessions
  }

  /** A job the status loop may check: one of a known type that is not
      active locally, unless its key looks like an extraction's, which an
      earlier download of the same pass may have ended. */
  predicate Checkable(tracking: map<string, TrackingInfo>, sessions: map<string, Session>, k: string)
  {
    k in tracking && tracking[k].kind in {"torrent", "usenet"} && (k !in sessions || StartsWith(k, "extract_"))
  }

  /** The table after a status pass: entries are only removed, and only
      those whose download was started. */
  predicate TableAfter(before: map<string, TrackingInfo>, after: map<string, TrackingInfo>, started: set<string>)
  {
    && (forall k :: k in after ==> k in before && after[k] == before[k])
    && (forall k :: k in before && k !in started ==> k in after)
  }

  /** The key of `active_downloads` whose statistics the download started
      for job `identifier` may stop (see `StopKey`). */
  function StartedStopKey(info: TrackingInfo, identifier: string, link: LinkReply, w: TransferWorld): string
    requires Starts(info, link)
  {
    var dir := StoredDirectory(info).value;
    StopKey(LinkUrl(link).value, Join(dir, info.name), info.name, identifier, w)
  }

  /** The keys whose statistics the downloads started for the jobs of `started` may stop. */
  ghost function StartedStopKeys(tracking: map<string, TrackingInfo>, polls: map<string, Poll>, started: set<string>): set<string>
  {
    set k | k in started && k in tracking && k in polls && Starts(tracking[k], polls[k].link)
      :: StartedStopKey(tracking[k], k, polls[k].link, polls[k].transfer)
  }

  /** The keys whose statistics one more started download may stop hold,
      in `active`, either what they held when the loop began or what the
      downloads started before registered. */
  lemma StartedStopKeysStep(tracking: map<string, TrackingInfo>, polls: map<string, Poll>,
                            sessions: map<string, Session>, active: map<string, Session>,
                            before: set<string>, started: set<string>, id: string)
    requires SessionsAfter(sessions, active, before)
    requires before <= started && started - before <= {id}
    ensures ObjectsUnder(sessions, StartedStopKeys(tracking, polls, before))
            <= ObjectsUnder(sessions, StartedStopKeys(tracking, polls, started))
    ensures id in started - before && id in tracking && id in polls && Starts(tracking[id], polls[id].link) ==>
              ObjectAt(active, StartedStopKey(tracking[id], id, polls[id].link, polls[id].transfer))
              <= ObjectsUnder(sessions, StartedStopKeys(tracking, polls, started)) + ObjectsUnder(active, before)
  {
    if id in started - before && id in tracking && id in polls && Starts(tracking[id], polls[id].link) {
      var key := StartedStopKey(tracking[id], id, polls[id].link, polls[id].transfer);
      assert key in StartedStopKeys(tracking, polls, started);
      if key in active && key !in before {
        assert active[key].Obj() in ObjectsUnder(sessions, StartedStopKeys(tracking, polls, started));
      }
    }
  }

  /** Job `k` was checked as it should be: it is checkable, it is ready
      exactly when its status says so, and its download was started exactly
      when it was ready and the link request gave a URL for a stored directory. */
  predicate CheckedRight(tracking: map<string, TrackingInfo>, sessions: map<string, Session>, polls: map<string, Poll>,
                         ready: set<string>, started: set<string>, k: string)
  {
    && Checkable(tracking, sessions, k) && k in polls
    && (k in ready <==> StatusReady(tracking[k], k, polls[k].status))
    && (k in started <==> k in ready && Starts(tracking[k], polls[k].link))
  }

  /** What the loop of `check_download_status` has done after the first `i`
      identifiers of `ids`, the keys of the table `tracking` as it was when
      the loop began, with `sessions` then active; `table` and `active` are
      the table and the sessions now. */
  predicate LoopSoFar(tracking: map<string, TrackingInfo>, sessions: map<string, Session>, ids: seq<string>,
                      i: nat, polls: map<string, Poll>, checked: seq<string>, ready: set<string>, started: set<string>,
                      table: map<string, TrackingInfo>, active: map<string, Session>)
  {
    && i <= |ids|
    && TableAfter(tracking, table, started)
    && SessionsAfter(sessions, active, started)
    && (forall j :: i <= j < |ids| ==> ids[j] !in checked)
    && started <= ready
    && (forall k :: k in ready ==> k in checked)
    && (forall k :: k in checked ==> CheckedRight(tracking, sessions, polls, ready, started, k))
    && (forall j :: 0 <= j < i && Eligible(tracking, sessions, ids[j]) ==> ids[j] in checked)
  }

  lemma TableAfterStep(tracking: map<string, TrackingInfo>, table: map<string, TrackingInfo>,
                       table': map<string, TrackingInfo>, started: set<string>, id: string, st: bool)
    requires TableAfter(tracking, table, started)
    requires !st ==> table' == table
    requires st ==> table' == table - {id}
    ensures TableAfter(tracking, table', if st then started + {id} else started)
  {
  }

  lemma SessionsAfterStep(sessions: map<string, Session>, active: map<string, Session>,
                          active': map<string, Session>, started: set<string>, id: string, st: bool)
    requires SessionsAfter(sessions, active, started)
    requires SessionsAfter(active, active', if st then {id} else {})
    ensures SessionsAfter(sessions, active', if st then started + {id} else started)
  {
  }

  /** The account of the checked jobs, with one job more. */
  lemma CheckedRightStep(tracking: map<string, TrackingInfo>, sessions: map<string, Session>, polls: map<string, Poll>,
                         checked: seq<string>, ready: set<string>, started: set<string>, id: string, c: bool, r: bool, st: bool,
                         checked': seq<string>, ready': set<string>, started': set<string>)
    requires forall k :: k in checked ==> CheckedRight(tracking, sessions, polls, ready, started, k)
    requires id !in checked && started <= ready && (forall k :: k in ready ==> k in checked)
    requires c ==> Checkable(tracking, sessions, id) && id in polls
                   && (r <==> StatusReady(tracking[id], id, polls[id].status))
                   && (st <==> r && Starts(tracking[id], polls[id].link))
    requires !c ==> !r && !st
    requires checked' == (if c then checked + [id] else checked)
    requires ready' == (if r then ready + {id} else ready)
    requires started' == (if st then started + {id} else started)
    ensures forall k :: k in checked' ==> CheckedRight(tracking, sessions, polls, ready', started', k)
  {
    forall k | k in checked'
      ensures CheckedRight(tracking, sessions, polls, ready', started', k)
    {
      if k != id {
        assert CheckedRight(tracking, sessions, polls, ready, started, k);
      }
    }
  }

  /** The identifiers still to come are not checked yet. */
  lemma PendingStep(ids: seq<string>, i: nat, checked: seq<string>, c: bool, checked': seq<string>)
    requires i < |ids| && NoDuplicates(ids)
    requires forall j :: i <= j < |ids| ==> ids[j] !in checked
    requires checked' == (if c then checked + [ids[i]] else checked)
    ensures forall j :: i + 1 <= j < |ids| ==> ids[j] !in checked'
  {
    forall j | i + 1 <= j < |ids|
      ensures ids[j] !in checked'
    {
      assert ids[j] != ids[i];
    }
  }

  /** Every eligible identifier seen so far is checked. */
  lemma EligibleStep(tracking: map<string, TrackingInfo>, sessions: map<string, Session>, ids: seq<string>, i: nat,
                     checked: seq<string>, c: bool, checked': seq<string>)
    requires i < |ids|
    requires forall j :: 0 <= j < i && Eligible(tracking, sessions, ids[j]) ==> ids[j] in checked
    requires Eligible(tracking, sessions, ids[i]) ==> c
    requires checked' == (if c then checked + [ids[i]] else checked)
    ensures forall j :: 0 <= j < i + 1 && Eligible(tracking, sessions, ids[j]) ==> ids[j] in checked'
  {
  }

  /** One identifier more, with the effect `CheckTracked` promises, keeps
      the loop's account. */
  lemma CheckStepKeeps(tracking: map<string, TrackingInfo>, sessions: map<string, Session>, ids: seq<string>,
                       i: nat, polls: map<string, Poll>, checked: seq<string>, ready: set<string>, started: set<string>,
                       table: map<string, TrackingInfo>, active: map<string, Session>,
                       table': map<string, TrackingInfo>, active': map<string, Session>,
                       c: bool, r: bool, st: bool, checked': seq<string>, ready': set<string>, started': set<string>)
    requires i < |ids| && NoDuplicates(ids) && (forall k :: k in tracking <==> k in ids)
    requires ids[i] in polls
    requires LoopSoFar(tracking, sessions, ids, i, polls, checked, ready, started, table, active)
    requires c <==> ids[i] !in active && ids[i] in table && table[ids[i]].kind in {"torrent", "usenet"}
    requires r <==> c && StatusReady(table[ids[i]], ids[i], polls[ids[i]].status)
    requires st <==> r && Starts(table[ids[i]], polls[ids[i]].link)
    requires !st ==> table' == table && active' == active
    requires st ==> table' == table - {ids[i]}
    requires SessionsAfter(active, active', if st then {ids[i]} else {})
    requires checked' == (if c then checked + [ids[i]] else checked)
    requires ready' == (if r then ready + {ids[i]} else ready)
    requires started' == (if st then started + {ids[i]} else started)
    ensures LoopSoFar(tracking, sessions, ids, i + 1, polls, checked', ready', started', table', active')
  {
    var id := ids[i];
    assert id !in started;
    TableAfterStep(tracking, table, table', started, id, st);
    SessionsAfterStep(sessions, active, active', started, id, st);
    PendingStep(ids, i, checked, c, checked');
    if c {
      assert table[id] == tracking[id];
      assert id in sessions ==> StartsWith(id, "extract_");
    }
    CheckedRightStep(tracking, sessions, polls, checked, ready, started, id, c, r, st, checked', ready', started');
    if Eligible(tracking, sessions, id) {
      assert id in table && id !in active;
    }
    EligibleStep(tracking, sessions, ids, i, checked, c, checked');
  }

  // ---------------------------------------------------------------------
  // Dashboard-added items
  // ---------------------------------------------------------------------

  /** `str(item_id) if item_id else str(item_hash)`. */
  function ItemIdentifier(itemId: Scalar, itemHash: Scalar): (r: string)
    ensures Truthy(itemId) ==> r == Str(itemId)
    ensures !Truthy(itemId) ==> r == Str(itemHash)
  {
    if Truthy(itemId) then Str(itemId) else Str(itemHash)
  }

  /** The empty-identifier guard fires only when the id is falsy and the hash
      is the empty string: a missing hash prints as `"None"`. */
  lemma EmptyIdentifierGuard(itemId: Scalar, itemHash: Scalar)
    ensures ItemIdentifier(itemId, itemHash) == "" <==> !Truthy(itemId) && itemHash == PyStr("")
    ensures !Truthy(itemId) ==> ItemIdentifier(itemId, PyNone) == "None"
  {
    TruthyStrNonEmpty(itemId);
    StrEmpty(itemHash);
  }

  /** The record `add_item_to_track` creates. */
  function AddedEntry(config: Settings, itemId: Scalar, itemType: string, itemName: string, itemHash: Scalar,
                      downloadDir: Option<Path>, now: string): TrackingInfo
  {
    NewEntry(itemType, itemName, None, itemId, itemHash, Some(downloadDir.GetOr(config.radarrDownloadDir)), now)
  }

  /** A dashboard-added job has no original file, starts with no failures,
      and is downloaded into the given directory, else the Radarr one. */
  lemma AddedItemDownloadsWhereAsked(config: Settings, itemId: Scalar, itemType: string, itemName: string,
                                     itemHash: Scalar, downloadDir: Option<Path>, now: string)
    requires WellFormed(downloadDir.GetOr(config.radarrDownloadDir))
    ensures var e := AddedEntry(config, itemId, itemType, itemName, itemHash, downloadDir, now);
            && e.originalFile == None && e.failureCount == 0 && e.kind == itemType && e.name == itemName
            && StoredDirectory(e) == Some(if downloadDir.Some? then downloadDir.value else config.radarrDownloadDir)
  {
    StoredDirectoryRoundTrip(itemType, itemName, None, itemId, itemHash, downloadDir.GetOr(config.radarrDownloadDir), now);
  }

  class TorBoxWatcherApp {
    const config: Settings
    const apiClient: TorBoxAPIClient
    const fileProcessor: FileProcessor
    const tracker: DownloadTracker
    /** `active_downloads`, shared with the file processor. */
    const registry: SessionRegistry

    ghost predicate Valid()
      reads tracker
    {
      tracker.Valid()
    }

    constructor (config: Settings)
      ensures this.config == config
      ensures apiClient.apiBase == config.apiBase + "/" + config.apiVersion + "/api"
      ensures apiClient.apiKey == config.apiKey && apiClient.maxRetries == config.maxRetries
      ensures fileProcessor.progressInterval == config.progressInterval
      ensures fresh(tracker) && fresh(registry)
      ensures Valid() && tracker.tracking == map[] && registry.sessions == map[]
    {
      this.config := config;
      apiClient := new TorBoxAPIClient(config.apiBase, config.apiVersion, config.apiKey, config.maxRetries);
      fileProcessor := new FileProcessor(config.progressInterval);
      tracker := new DownloadTracker();
      registry := new SessionRegistry();
    }

    /** The submit-and-track part of `process_torrent_file` (`kind` is
        `"torrent"`) and `process_nzb_file` (`"usenet"`). */
    method SubmitAndTrack(path: Path, downloadDir: Path, kind: string, reply: Option<SubmitData>, now: string)
      returns (r: Submission)
      requires Valid()
      modifies tracker
      ensures Valid()
      ensures r == Submit(old(tracker.tracking), path, downloadDir, kind, reply, now).result
      ensures tracker.tracking == Submit(old(tracker.tracking), path, downloadDir, kind, reply, now).tracking
      ensures tracker.order == old(tracker.order) + (if r.success then [Str(r.identifier)] else [])
    {
      if reply.None? {
        return Submission(false, path, PyNone);
      }
      var ids := ExtractIdentifier(reply.value, kind);
      if !Truthy(ids.identifier) {
        return Submission(false, path, PyNone);
      }
      var success := tracker.TrackDownload(ids.identifier, kind, Stem(path), Some(path),
                                           ids.downloadId, ids.downloadHash, Some(downloadDir), now);
      r := Submission(success, path, ids.identifier);
    }

    /** `_scan_directory`: every file with a recognised extension is
        submitted, in order, and then the files whose submission succeeded
        are deleted. `replies[i]` is the response the submission of
        `files[i]` gets. */
    method ScanDirectory(files: seq<Path>, downloadDir: Path, replies: seq<Option<SubmitData>>, now: string)
      returns (results: seq<Submission>, deleted: seq<Path>)
      requires Valid() && |replies| == |files|
      modifies tracker
      ensures Valid()
      ensures results == Scan(old(tracker.tracking), files, replies, downloadDir, now).results
      ensures tracker.tracking == Scan(old(tracker.tracking), files, replies, downloadDir, now).tracking
      ensures tracker.order == old(tracker.order) + TrackedKeys(results)
      ensures deleted == SuccessfulPaths(results)
    {
      results := [];
      for i := 0 to |files|
        invariant Valid()
        invariant ScanState(results, tracker.tracking) == Scan(old(tracker.tracking), files[..i], replies[..i], downloadDir, now)
        invariant tracker.order == old(tracker.order) + TrackedKeys(results)
      {
        ScanSnoc(old(tracker.tracking), files, replies, downloadDir, now, i);
        results := ScanFile(old(tracker.order), files[i], replies[i], downloadDir, now, results);
      }
      assert files[..|files|] == files && replies[..|replies|] == replies;
      deleted := DeleteSubmitted(results);
    }

    /** One pass of the first loop of `_scan_directory`: the file is
        submitted when its extension is recognised. */
    method ScanFile(ghost order: seq<string>, file: Path, reply: Option<SubmitData>, downloadDir: Path, now: string,
                    results: seq<Submission>)
      returns (after: seq<Submission>)
      requires Valid()
      requires tracker.order == order + TrackedKeys(results)
      modifies tracker
      ensures Valid()
      ensures ScanState(after, tracker.tracking) == ScanNext(ScanState(results, old(tracker.tracking)), file, reply, downloadDir, now)
      ensures tracker.order == order + TrackedKeys(after)
    {
      var kind := Dispatch(file);
      after := results;
      if kind.Some? {
        var r := SubmitAndTrack(file, downloadDir, kind.value, reply, now);
        TrackedKeysSnoc(results, r);
        after := results + [r];
      }
    }

    /** `scan_watch_directory`: in dual-directory mode the Radarr watch
        directory is scanned into the Radarr download directory and then the
        Sonarr one into the Sonarr download directory; in single mode only the
        Radarr pair is scanned, and the Sonarr listing plays no part. Each
        listing comes with the responses its submissions get. */
    method ScanWatchDirectory(radarrFiles: seq<Path>, radarrReplies: seq<Option<SubmitData>>,
                              sonarrFiles: seq<Path>, sonarrReplies: seq<Option<SubmitData>>, now: string)
      returns (deleted: seq<Path>)
      requires Valid() && |radarrReplies| == |radarrFiles| && |sonarrReplies| == |sonarrFiles|
      modifies tracker
      ensures Valid()
      ensures var first := Scan(old(tracker.tracking), radarrFiles, radarrReplies, config.radarrDownloadDir, now);
              if config.dualDirectoryMode then
                var second := Scan(first.tracking, sonarrFiles, sonarrReplies, config.sonarrDownloadDir, now);
                && tracker.tracking == second.tracking
                && tracker.order == old(tracker.order) + TrackedKeys(first.results) + TrackedKeys(second.results)
                && deleted == SuccessfulPaths(first.results) + SuccessfulPaths(second.results)
              else
                && tracker.tracking == first.tracking
                && tracker.order == old(tracker.order) + TrackedKeys(first.results)
                && deleted == SuccessfulPaths(first.results)
    {
      var results, gone := ScanDirectory(radarrFiles, config.radarrDownloadDir, radarrReplies, now);
      deleted := gone;
      if config.dualDirectoryMode {
        results, gone := ScanDirectory(sonarrFiles, config.sonarrDownloadDir, sonarrReplies, now);
        deleted := deleted + gone;
      }
    }

    /** The second loop of `_scan_directory`: the paths it removes. */
    method DeleteSubmitted(results: seq<Submission>) returns (deleted: seq<Path>)
      ensures deleted == SuccessfulPaths(results)
    {
      deleted := [];
      for i := 0 to |results|
        invariant deleted == SuccessfulPaths(results[..i])
      {
        assert results[..i + 1][..i] == results[..i];
        if results[i].success {
          deleted := deleted + [results[i].path];
        }
      }
      assert results[..|results|] == results;
    }

    /** The list search of `_check_download_status_common`, with its `break`. */
    method FindItem(info: TrackingInfo, identifier: string, elements: seq<Element>) returns (r: Search)
      ensures r == SearchFrom(info, identifier, elements, 0)
    {
      var i := 0;
      while i < |elements|
        invariant 0 <= i <= |elements|
        invariant SearchFrom(info, identifier, elements, i) == SearchFrom(info, identifier, elements, 0)
      {
        match elements[i]
        case OtherElement =>
          return Raised;
        case ObjectElement(item) =>
          if Matches(info, identifier, item) {
            return Found(item);
          }
        i := i + 1;
      }
      return NotFound;
    }

    /** `_request_download_common`: with a stored directory, the download
        link is requested with the stored id (else the identifier), and with a
        URL in the answer the file is downloaded to `directory / name`. */
    method RequestDownloadCommon(identifier: string, kind: string, link: LinkReply, transfer: TransferWorld)
      returns (linkParams: Option<map<string, Scalar>>, download: Option<DownloadResult>)
      requires Valid() && |transfer.attempts| >= MaxRetries
      modifies tracker, registry, registry.Objects()
      ensures Valid()
      ensures linkParams.Some? <==> (identifier in old(tracker.tracking)
                                    && StoredDirectory(old(tracker.tracking)[identifier]).Some?)
      ensures linkParams.Some? ==>
                var info := old(tracker.tracking)[identifier];
                linkParams.value == apiClient.DownloadLinkParams(IdKey(kind), Or(info.id, PyStr(identifier)), false)
      ensures download.Some? <==> (identifier in old(tracker.tracking) && Starts(old(tracker.tracking)[identifier], link))
      ensures download.Some? ==>
                var info := old(tracker.tracking)[identifier];
                var dir := StoredDirectory(info).value;
                download.value == DownloadSpec(LinkUrl(link).value, Join(dir, info.name), info.name, dir, transfer)
      ensures download.None? ==> tracker.tracking == old(tracker.tracking) && tracker.order == old(tracker.order)
                                 && registry.sessions == old(registry.sessions)
      ensures download.Some? ==> tracker.tracking == old(tracker.tracking) - {identifier}
                                 && tracker.order == Without(old(tracker.order), identifier)
                                 && (identifier in registry.sessions ==> registry.sessions[identifier].Stopped())
      ensures SessionsAfter(old(registry.sessions), registry.sessions, {identifier})
      ensures forall o :: o in registry.Objects() ==> o in old(registry.Objects()) || fresh(o)
      ensures OldOrFresh(registry)
      ensures forall t: Session {:trigger t.Counters()} :: old(allocated(t)) ==> t.Counters() == old(t.Counters())
      ensures forall t: Session {:trigger t.Stopped()} :: old(allocated(t)) ==>
                (old(t.Stopped()) ==> t.Stopped()) && (t.Obj() !in (if download.Some? then ObjectAt(old(registry.sessions), StartedStopKey(old(tracker.tracking)[identifier], identifier, link, transfer)) else {}) ==> t.Stopped() == old(t.Stopped()))
    {
      linkParams, download := None, None;
      var info := tracker.GetDownloadInfo(PyStr(identifier));
      if info.None? {
        return;
      }
      var dir := StoredDirectory(info.value);
      if dir.None? {
        return;
      }
      var requestId := Or(info.value.id, PyStr(identifier));
      linkParams := Some(apiClient.DownloadLinkParams(IdKey(kind), requestId, false));
      var url := LinkUrl(link);
      if url.None? {
        return;
      }
      var name := info.value.name;
      var r, stats := fileProcessor.DownloadFile(url.value, Join(dir.value, name), name, identifier,
                                                 tracker, registry, dir.value, transfer);
      download := Some(r);
    }
      /** `_check_download_status_common`: the status of a tracked job is
        queried by its stored id (else the identifier); when the item found
        reports `download_present`, the download is requested and the check
        succeeds. `statusQuery` is the query string of the status request. */
    method CheckStatusCommon(identifier: string, kind: string, poll: Poll)
      returns (ready: bool, statusQuery: Option<string>, download: Option<DownloadResult>)
      requires Valid() && |poll.transfer.attempts| >= MaxRetries
      modifies tracker, registry, registry.Objects()
      ensures Valid()
      ensures statusQuery.Some? <==> identifier in old(tracker.tracking)
      ensures statusQuery.Some? ==> statusQuery.value == QueryParam(old(tracker.tracking)[identifier], identifier)
      ensures ready <==> (identifier in old(tracker.tracking)
                          && StatusReady(old(tracker.tracking)[identifier], identifier, poll.status))
      ensures download.Some? <==> ready && Starts(old(tracker.tracking)[identifier], poll.link)
      ensures download.Some? ==>
                var info := old(tracker.tracking)[identifier];
                var dir := StoredDirectory(info).value;
                download.value == DownloadSpec(LinkUrl(poll.link).value, Join(dir, info.name), info.name, dir, poll.transfer)
      ensures download.None? ==> tracker.tracking == old(tracker.tracking) && tracker.order == old(tracker.order)
                                 && registry.sessions == old(registry.sessions)
      ensures download.Some? ==> tracker.tracking == old(tracker.tracking) - {identifier}
                                 && tracker.order == Without(old(tracker.order), identifier)
      ensures SessionsAfter(old(registry.sessions), registry.sessions, {identifier})
      ensures forall o :: o in registry.Objects() ==> o in old(registry.Objects()) || fresh(o)
      ensures OldOrFresh(registry)
      ensures forall t: Session {:trigger t.Counters()} :: old(allocated(t)) ==> t.Counters() == old(t.Counters())
      ensures forall t: Session {:trigger t.Stopped()} :: old(allocated(t)) ==>
                (old(t.Stopped()) ==> t.Stopped()) && (t.Obj() !in (if download.Some? then ObjectAt(old(registry.sessions), StartedStopKey(old(tracker.tracking)[identifier], identifier, poll.link, poll.transfer)) else {}) ==> t.Stopped() == old(t.Stopped()))
    {
      ready, statusQuery, download := false, None, None;
      var info := tracker.GetDownloadInfo(PyStr(identifier));
      if info.None? {
        return;
      }
      statusQuery := Some(QueryParam(info.value, identifier));
      var isReady := ReadStatus(info.value, identifier, poll.status);
      if !isReady {
        return;
      }
      var linkParams;
      linkParams, download := RequestDownloadCommon(identifier, kind, poll.link, poll.transfer);
      ready := true;
    }

    /** The reading of the status reply in `_check_download_status_common`:
        the item is the dictionary answered, or the first matching one of a
        non-empty list, and it must be non-empty, loggable and report
        `download_present`. */
    method ReadStatus(info: TrackingInfo, identifier: string, status: StatusReply) returns (ready: bool)
      ensures ready == StatusReady(info, identifier, status)
    {
      if status.StatusFailed? {
        return false;
      }
      var found: Search := NotFound;
      match status.data {
        case ObjectData(item) =>
          found := Found(item);
        case ListData(elements) =>
          if |elements| > 0 {
            found := FindItem(info, identifier, elements);
          }
        case _ =>
      }
      if !found.Found? || found.item.fields == map[] || !Loggable(found.item) {
        return false;
      }
      ready := Truthy(DictGet(found.item.fields, "download_present", PyBool(false)));
    }

    /** One identifier of the loop of `check_download_status`: a job that is
        not already active locally, and whose type is known, has its status
        checked. */
    method CheckTracked(identifier: string, polls: map<string, Poll>)
      returns (checked: bool, ready: bool, started: bool)
      requires Valid()
      requires identifier in tracker.tracking ==> identifier in polls && |polls[identifier].transfer.attempts| >= MaxRetries
      modifies tracker, registry, registry.Objects()
      ensures Valid()
      ensures checked <==> (identifier !in old(registry.sessions) && identifier in old(tracker.tracking)
                            && old(tracker.tracking)[identifier].kind in {"torrent", "usenet"})
      ensures ready <==> checked && StatusReady(old(tracker.tracking)[identifier], identifier, polls[identifier].status)
      ensures started <==> ready && Starts(old(tracker.tracking)[identifier], polls[identifier].link)
      ensures !started ==> tracker.tracking == old(tracker.tracking) && tracker.order == old(tracker.order)
                           && registry.sessions == old(registry.sessions)
      ensures started ==> tracker.tracking == old(tracker.tracking) - {identifier}
                          && tracker.order == Without(old(tracker.order), identifier)
      ensures SessionsAfter(old(registry.sessions), registry.sessions, if started then {identifier} else {})
      ensures forall o :: o in registry.Objects() ==> o in old(registry.Objects()) || fresh(o)
      ensures OldOrFresh(registry)
      ensures forall t: Session {:trigger t.Counters()} :: old(allocated(t)) ==> t.Counters() == old(t.Counters())
      ensures forall t: Session {:trigger t.Stopped()} :: old(allocated(t)) ==>
                (old(t.Stopped()) ==> t.Stopped()) && (t.Obj() !in (if started then ObjectAt(old(registry.sessions), StartedStopKey(old(tracker.tracking)[identifier], identifier, polls[identifier].link, polls[identifier].transfer)) else {}) ==> t.Stopped() == old(t.Stopped()))
    {
      checked, ready, started := false, false, false;
      if identifier in registry.sessions {
        return;
      }
      var tracked := tracker.TrackedDownloads();
      if identifier !in tracked {
        return;
      }
      var kind := tracked[identifier].kind;
      if kind != "torrent" && kind != "usenet" {
        return;
      }
      checked := true;
      var statusQuery, download;
      ready, statusQuery, download := CheckStatusCommon(identifier, kind, polls[identifier]);
      started := download.Some?;
    }
      /** `check_download_status`: every tracked job that is not already active
        locally and whose type is known has its status checked, in the
        table's order; `ready` are the jobs found ready and `started` those
        whose download was started (and which are therefore no longer
        tracked). `polls[k]` is what the API answers about job `k`. */
    method CheckDownloadStatus(polls: map<string, Poll>)
      returns (checked: seq<string>, ready: set<string>, started: set<string>)
      requires Valid()
      requires forall k :: k in tracker.tracking ==> k in polls && |polls[k].transfer.attempts| >= MaxRetries
      modifies tracker, registry, registry.Objects()
      ensures Valid()
      ensures TableAfter(old(tracker.tracking), tracker.tracking, started)
      ensures SessionsAfter(old(registry.sessions), registry.sessions, started)
      ensures started <= ready && forall k :: k in ready ==> k in checked
      ensures forall k :: k in checked ==> CheckedRight(old(tracker.tracking), old(registry.sessions), polls, ready, started, k)
      ensures forall k :: Eligible(old(tracker.tracking), old(registry.sessions), k) ==> k in checked
      ensures tracker.order == WithoutAll(old(tracker.order), started)
      ensures forall o :: o in registry.Objects() ==> o in old(registry.Objects()) || fresh(o)
      ensures forall k :: k in registry.sessions && k in started ==> fresh(registry.sessions[k].Obj())
      ensures forall t: Session {:trigger t.Counters()} :: old(allocated(t)) ==> t.Counters() == old(t.Counters())
      ensures forall t: Session {:trigger t.Stopped()} :: old(allocated(t)) ==>
                (old(t.Stopped()) ==> t.Stopped()) && (t.Obj() !in ObjectsUnder(old(registry.sessions), StartedStopKeys(old(tracker.tracking), polls, started)) ==> t.Stopped() == old(t.Stopped()))
    {
      checked, ready, started := [], {}, {};
      var ids := tracker.order;
      WithoutNothing(ids);
      for i := 0 to |ids|
        invariant Valid()
        invariant LoopSoFar(old(tracker.tracking), old(registry.sessions), ids, i, polls, checked, ready, started,
                          tracker.tracking, registry.sessions)
        invariant tracker.order == WithoutAll(ids, started)
        invariant forall k :: k in registry.sessions && k in started ==> fresh(registry.sessions[k].Obj())
        invariant forall o :: o in registry.Objects() ==> o in old(registry.Objects()) || fresh(o)
        invariant forall t: Session {:trigger t.Counters()} :: old(allocated(t)) ==> t.Counters() == old(t.Counters())
        invariant forall t: Session {:trigger t.Stopped()} :: old(allocated(t)) ==>
                    (old(t.Stopped()) ==> t.Stopped())
                    && (t.Obj() !in ObjectsUnder(old(registry.sessions), StartedStopKeys(old(tracker.tracking), polls, started))
                        ==> t.Stopped() == old(t.Stopped()))
      {
        ghost var prior, active := started, registry.sessions;
        checked, ready, started := CheckStep(old(tracker.tracking), old(registry.sessions), ids, i, polls,
                                             checked, ready, started);
        forall k | k in registry.sessions && k in started
          ensures fresh(registry.sessions[k].Obj())
        {
          if k in active && registry.sessions[k] == active[k] {
            assert k in prior;
          }
        }
        forall t: Session | old(allocated(t))
          ensures (old(t.Stopped()) ==> t.Stopped())
                  && (t.Obj() !in ObjectsUnder(old(registry.sessions), StartedStopKeys(old(tracker.tracking), polls, started))
                      ==> t.Stopped() == old(t.Stopped()))
        {
          match t
          case Download(d) =>
            assert t.Obj() !in ObjectsUnder(active, prior);
          case Extract(e) =>
            assert t.Obj() !in ObjectsUnder(active, prior);
        }
      }
    }

    /** One pass of the loop of `check_download_status`. */
    method CheckStep(ghost tracking: map<string, TrackingInfo>, ghost sessions: map<string, Session>,
                     ids: seq<string>, i: nat, polls: map<string, Poll>,
                     checked: seq<string>, ready: set<string>, started: set<string>)
      returns (checked': seq<string>, ready': set<string>, started': set<string>)
      requires Valid() && i < |ids| && NoDuplicates(ids) && (forall k :: k in tracking <==> k in ids)
      requires forall k :: k in tracking ==> k in polls && |polls[k].transfer.attempts| >= MaxRetries
      requires LoopSoFar(tracking, sessions, ids, i, polls, checked, ready, started, tracker.tracking, registry.sessions)
      requires tracker.order == WithoutAll(ids, started)
      modifies tracker, registry, registry.Objects()
      ensures Valid()
      ensures LoopSoFar(tracking, sessions, ids, i + 1, polls, checked', ready', started', tracker.tracking, registry.sessions)
      ensures tracker.order == WithoutAll(ids, started')
      ensures OldOrFresh(registry)
      ensures started' == started || (started' == started + {ids[i]} && ids[i] !in old(registry.sessions))
      ensures ObjectsUnder(sessions, StartedStopKeys(tracking, polls, started))
              <= ObjectsUnder(sessions, StartedStopKeys(tracking, polls, started'))
      ensures forall o :: o in registry.Objects() ==> o in old(registry.Objects()) || fresh(o)
      ensures forall t: Session {:trigger t.Counters()} :: old(allocated(t)) ==> t.Counters() == old(t.Counters())
      ensures forall t: Session {:trigger t.Stopped()} :: old(allocated(t)) ==>
                (old(t.Stopped()) ==> t.Stopped())
                && (t.Obj() !in ObjectsUnder(sessions, StartedStopKeys(tracking, polls, started'))
                                + ObjectsUnder(old(registry.sessions), started)
                    ==> t.Stopped() == old(t.Stopped()))
    {
      var id := ids[i];
      ghost var table, active := tracker.tracking, registry.sessions;
      var c, r, st := CheckTracked(id, polls);
      checked' := if c then checked + [id] else checked;
      ready' := if r then ready + {id} else ready;
      started' := if st then started + {id} else started;
      CheckStepKeeps(tracking, sessions, ids, i, polls, checked, ready, started, table, active,
                     tracker.tracking, registry.sessions, c, r, st, checked', ready', started');
      if st {
        assert id !in active;
        WithoutAllThen(ids, started, id);
        assert table[id] == tracking[id];
      }
      StartedStopKeysStep(tracking, polls, sessions, active, started, started', id);
    }
      /** `add_item_to_track`: a job added from the dashboard is tracked under
        its id, else its hash, without an original file and with the given
        directory, else the Radarr download directory. */
    method AddItemToTrack(itemId: Scalar, itemType: string, itemName: string, itemHash: Scalar,
                          downloadDir: Option<Path>, now: string)
      returns (success: bool)
      requires Valid()
      modifies tracker
      ensures Valid()
      ensures success <==> ItemIdentifier(itemId, itemHash) != "" && ItemIdentifier(itemId, itemHash) !in old(tracker.tracking)
      ensures success ==>
                var key := ItemIdentifier(itemId, itemHash);
                && tracker.tracking == old(tracker.tracking)[key := AddedEntry(config, itemId, itemType, itemName, itemHash, downloadDir, now)]
                && tracker.order == old(tracker.order) + [key]
      ensures !success ==> tracker.tracking == old(tracker.tracking) && tracker.order == old(tracker.order)
    {
      var identifier := ItemIdentifier(itemId, itemHash);
      if identifier == "" {
        return false;
      }
      var dir := if downloadDir.Some? then downloadDir.value else config.radarrDownloadDir;
      success := tracker.TrackDownload(PyStr(identifier), itemType, itemName, None, itemId, itemHash, Some(dir), now);
    }
  }
}

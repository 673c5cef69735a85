/** `FileProcessor`: one download with resume and retries, followed by the
    extraction of a `.zip` result, with the bookkeeping of both in the shared
    tracker and `active_downloads` dictionaries. HTTP replies, the file on disk
    and the archive's contents are inputs (`TransferWorld`, `ArchiveWorld`). */
module Processor {
  import opened Wrappers
  import opened Text
  import opened Paths
  import opened PyValues
  import opened Tracker
  import opened Stats
  import opened Filenames
  import opened Transfer
  import opened Archive

  /** The reply to the HEAD request: none, when it raised a `RequestException`. */
  datatype Head = HeadFailed | HeadReply(contentLength: Option<string>, disposition: string, contentType: string)

  /** Everything the world answers during one download. `existing` is the size
      of the file at the resolved path when it already exists. */
  datatype TransferWorld = TransferWorld(head: Head, existing: Option<nat>, attempts: seq<Attempt>, archive: ArchiveWorld)

  /** `int(headers.get("content-length", 0))`; `None` when `int()` raises. */
  function ContentLength(h: Option<string>): (r: Option<int>)
    ensures h.None? ==> r == Some(0)
  {
    match h
    case None => Some(0)
    case Some(s) => ParseInt(s)
  }

  /** The download gets past the HEAD request and registers its statistics. */
  predicate Registered(w: TransferWorld)
  {
    w.head.HeadReply? && ContentLength(w.head.contentLength).Some?
  }

  /** `download_path.suffix.lower() == ".zip"`. */
  predicate IsZip(p: Path)
  {
    Lower(Suffix(p)) == ".zip"
  }

  /** The file the transfer writes: the resolved filename beside the requested path. */
  function TargetPath(url: string, downloadPath: Path, name: string, h: Head): Path
    requires h.HeadReply?
  {
    Join(Parent(downloadPath), ResolveFilename(h.disposition, h.contentType, url, name))
  }

  /** A disposition filename is used as it is, so it can leave the requested
      directory: one starting with `/` replaces that directory outright, and a
      relative one containing `/` goes below it. */
  lemma DispositionFilenameAsPath(url: string, downloadPath: Path, name: string, h: Head)
    requires h.HeadReply? && DispositionFilename(h.disposition).Some?
    ensures var f := DispositionFilename(h.disposition).value;
            var target := TargetPath(url, downloadPath, name, h);
            && (StartsWith(f, "/") ==> target == ParsePath(f))
            && (!StartsWith(f, "/") ==>
                  target.absolute == downloadPath.absolute && target.parts == Parent(downloadPath).parts + ParsePath(f).parts)
  {
  }

  datatype DownloadResult = DownloadResult(
    outcome: Outcome,
    target: Option<Path>,
    run: Option<Run>,
    extraction: Option<Extraction>)

  /** The effect of `download_file`. */
  function DownloadSpec(url: string, downloadPath: Path, name: string, downloadDir: Path, w: TransferWorld): (r: DownloadResult)
    requires |w.attempts| >= MaxRetries
    ensures r.target.Some? <==> Registered(w)
    ensures r.run.Some? <==> Registered(w)
    ensures r.extraction.Some? ==> r.outcome == Completed && r.target.Some? && IsZip(r.target.value)
  {
    if w.head.HeadFailed? then DownloadResult(RequestFailed, None, None, None)
    else if ContentLength(w.head.contentLength).None? then DownloadResult(UnexpectedFailed, None, None, None)
    else
      var target := TargetPath(url, downloadPath, name, w.head);
      var run := RunFrom(SizeOf(w.existing), w.existing, 0, w.attempts);
      DownloadResult(run.outcome, Some(target), Some(run),
                     if run.outcome == Completed && IsZip(target) then Some(ExtractSpec(target, downloadDir, w.archive)) else None)
  }

  class FileProcessor {
    const progressInterval: int

    constructor (progressInterval: int)
      ensures this.progressInterval == progressInterval
    {
      this.progressInterval := progressInterval;
    }

    /** The first pass of `extract_zip`: the set of first path segments, then
        whether its one element is a directory with members beneath it. */
    method AnalyzeLayout(names: seq<string>) returns (single: Option<string>)
      ensures single == SingleTopDir(names)
    {
      var tops: set<string> := {};
      for i := 0 to |names|
        invariant tops == TopLevelItems(names[..i])
      {
        TopLevelItemsSnoc(names, i);
        tops := tops + {TopLevel(names[i])};
      }
      assert names[..|names|] == names;
      single := None;
      if |tops| == 1 {
        var t :| t in tops;
        assert TopLevel(names[0]) in tops;
        SingletonIs(tops, t);
        var found := false;
        for i := 0 to |names|
          invariant found <==> exists j :: 0 <= j < i && StartsWith(names[j], t + "/")
        {
          if StartsWith(names[i], t + "/") {
            found := true;
          }
        }
        if found {
          single := Some(t);
        }
      }
    }

    /** The second pass: the number and the bytes of the members that are files. */
    method CountTotals(entries: seq<Entry>) returns (totalFiles: nat, totalSize: nat)
      ensures totalFiles == FileCount(entries) && totalSize == FileBytes(entries)
    {
      totalFiles, totalSize := 0, 0;
      for i := 0 to |entries|
        invariant totalFiles == FileCount(entries[..i]) && totalSize == FileBytes(entries[..i])
      {
        assert entries[..i + 1][..i] == entries[..i];
        if !IsDir(entries[i]) {
          totalSize := totalSize + entries[i].size;
          totalFiles := totalFiles + 1;
        }
      }
      assert entries[..|entries|] == entries;
    }

    /** `extract_zip`. Every error is caught inside it; the extraction key is
        removed from `active_downloads` in every outcome. */
    method ExtractZip(zipPath: Path, registry: SessionRegistry, downloadDir: Path, w: ArchiveWorld)
      returns (x: Extraction, stats: Option<ExtractStats>)
      modifies registry
      modifies if ExtractKey(zipPath) in registry.sessions then {registry.sessions[ExtractKey(zipPath)].Obj()} else {}
      ensures x == ExtractSpec(zipPath, downloadDir, w)
      ensures registry.sessions == old(registry.sessions) - {ExtractKey(zipPath)}
      ensures stats.Some? <==> w.Readable?
      ensures stats.Some? ==> fresh(stats.value) && stats.value.shouldStop
                              && stats.value.totalFiles == x.totalFiles && stats.value.totalSize == x.totalSize
                              && stats.value.extractedFiles == x.extractedFiles && stats.value.extractedSize == x.extractedSize
      ensures forall t: Session {:trigger t.Counters()} :: old(allocated(t)) ==> t.Counters() == old(t.Counters())
      ensures forall t: Session {:trigger t.Stopped()} :: old(allocated(t)) ==>
                (old(t.Stopped()) ==> t.Stopped()) && (t.Obj() !in ObjectAt(old(registry.sessions), ExtractKey(zipPath)) ==> t.Stopped() == old(t.Stopped()))
      ensures w.Unreadable? && ExtractKey(zipPath) in old(registry.sessions) ==>
                old(registry.sessions)[ExtractKey(zipPath)].Stopped()
    {
      if w.Unreadable? {
        ExtractUnreadable(zipPath, registry);
        x, stats := Extraction(None, 0, 0, 0, 0, [], false), None;
      } else {
        var s;
        x, s := ExtractReadable(zipPath, registry, downloadDir, w.entries, w.failAt);
        forall t: Session | old(allocated(t))
          ensures t.Counters() == old(t.Counters()) && t.Stopped() == old(t.Stopped())
        {
          NotRegistry(t, registry);
          match t
          case Download(d) => assert unchanged(d);
          case Extract(e) => assert unchanged(e);
        }
        stats := Some(s);
      }
    }

    /** `extract_zip` on an archive that cannot be opened: the handler stops
        whatever is registered under the extraction key, and the key is removed. */
    method ExtractUnreadable(zipPath: Path, registry: SessionRegistry)
      modifies registry
      modifies if ExtractKey(zipPath) in registry.sessions then {registry.sessions[ExtractKey(zipPath)].Obj()} else {}
      ensures registry.sessions == old(registry.sessions) - {ExtractKey(zipPath)}
      ensures ExtractKey(zipPath) in old(registry.sessions) ==> old(registry.sessions)[ExtractKey(zipPath)].Stopped()
      ensures forall t: Session {:trigger t.Counters()} :: old(allocated(t)) ==> t.Counters() == old(t.Counters())
      ensures forall t: Session {:trigger t.Stopped()} :: old(allocated(t)) ==>
                (old(t.Stopped()) ==> t.Stopped()) && (t.Obj() !in ObjectAt(old(registry.sessions), ExtractKey(zipPath)) ==> t.Stopped() == old(t.Stopped()))
    {
      var key := ExtractKey(zipPath);
      registry.StopIfPresent(key);
      registry.RemoveIfPresent(key);
    }

    /** `extract_zip` on an archive that opens. */
    method ExtractReadable(zipPath: Path, registry: SessionRegistry, downloadDir: Path, entries: seq<Entry>, failAt: Option<nat>)
      returns (x: Extraction, stats: ExtractStats)
      modifies registry
      ensures x == ExtractSpec(zipPath, downloadDir, Readable(entries, failAt))
      ensures registry.sessions == old(registry.sessions) - {ExtractKey(zipPath)}
      ensures fresh(stats) && stats.shouldStop
      ensures stats.totalFiles == x.totalFiles && stats.totalSize == x.totalSize
      ensures stats.extractedFiles == x.extractedFiles && stats.extractedSize == x.extractedSize
    {
      var key := ExtractKey(zipPath);
      var dir, totalFiles, totalSize := PlanExtraction(zipPath, downloadDir, entries);
      var s := new ExtractStats(zipPath, totalFiles, totalSize);
      registry.Register(key, Extract(s));
      var written, i := ExtractMembers(s, entries, failAt);
      var failed := i < |entries|;
      // after the last member, and in the handler of a failing one, where
      // `active_downloads[key]` is still `s`, the statistics are stopped
      s.shouldStop := true;
      registry.RemoveIfPresent(key);
      RegisterThenRemove(old(registry.sessions), key, Extract(s));
      x := Extraction(Some(dir), totalFiles, totalSize, s.extractedFiles, s.extractedSize, written, !failed);
      ReadableSpec(zipPath, downloadDir, entries, failAt, x);
      stats := s;
    }

    /** The first two passes of `extract_zip`: where the archive is unpacked,
        and its totals. */
    method PlanExtraction(zipPath: Path, downloadDir: Path, entries: seq<Entry>)
      returns (dir: Path, totalFiles: nat, totalSize: nat)
      ensures dir == ExtractDir(zipPath, downloadDir, Names(entries))
      ensures totalFiles == FileCount(entries) && totalSize == FileBytes(entries)
    {
      var single := AnalyzeLayout(Names(entries));
      dir := if single.Some? && single.value != "" then downloadDir else Join(downloadDir, Stem(zipPath));
      totalFiles, totalSize := CountTotals(entries);
    }

    /** The third pass of `extract_zip`: every member that is a file is
        extracted in order, until one raises. Returns the names written and the
        index where extraction stopped. */
    method ExtractMembers(s: ExtractStats, entries: seq<Entry>, failAt: Option<nat>)
      returns (written: seq<string>, i: nat)
      requires s.extractedFiles == 0 && s.extractedSize == 0
      modifies s
      ensures i == StopIndex(entries, failAt)
      ensures written == FileNames(entries[..i])
      ensures s.extractedFiles == FileCount(entries[..i]) && s.extractedSize == FileBytes(entries[..i])
      ensures s.zipPath == old(s.zipPath) && s.totalFiles == old(s.totalFiles) && s.totalSize == old(s.totalSize)
      ensures s.shouldStop == old(s.shouldStop)
    {
      written, i := [], 0;
      var failed := false;
      while i < |entries| && !failed
        invariant 0 <= i <= StopIndex(entries, failAt)
        invariant failed ==> i == StopIndex(entries, failAt) < |entries|
        invariant s.extractedFiles == FileCount(entries[..i]) && s.extractedSize == FileBytes(entries[..i])
        invariant written == FileNames(entries[..i])
        invariant s.zipPath == old(s.zipPath) && s.totalFiles == old(s.totalFiles) && s.totalSize == old(s.totalSize)
        invariant s.shouldStop == old(s.shouldStop)
        decreases |entries| - i, !failed
      {
        var e := entries[i];
        assert entries[..i + 1][..i] == entries[..i];
        if IsDir(e) {
          i := i + 1;
        } else if failAt == Some(i) {
          // `zip_ref.extract` raises for this member
          failed := true;
        } else {
          written := written + [e.name];
          s.Update(e.size);
          i := i + 1;
        }
      }
    }

    /** One pass of the retry loop's body up to the point where it breaks
        out or raises: the request, the mode, and the chunk loop. */
    method Pass(stats: DownloadStats, downloaded: nat, file: Option<nat>, a: Attempt) returns (st: Step)
      requires stats.downloaded == downloaded
      modifies stats
      ensures st == StepFrom(downloaded, file, a)
      ensures stats.downloaded == st.downloaded
      ensures stats.filename == old(stats.filename) && stats.totalSize == old(stats.totalSize)
      ensures stats.shouldStop == old(stats.shouldStop) && stats.downloadComplete == old(stats.downloadComplete)
    {
      var events := [Get(RangeFor(downloaded))];
      match a
      case NoResponse(e) =>
        return Step(KindOf(e), downloaded, file, events);
      case Response(status, chunks, end) =>
        if Rejected(status) {
          return Step(Fail(RequestFailed), downloaded, file, events);
        }
        var d := downloaded;
        var mode;
        if Restarts(downloaded, status) {
          d := 0;
          stats.downloaded := 0;
          mode := Truncate;
        } else {
          mode := if d > 0 then Append else Truncate;
        }
        var size := if mode == Truncate then 0 else SizeOf(file);
        var written, writes := WriteChunks(stats, chunks);
        st := Step(if end.Complete? then Done else KindOf(end.error), d + written, Some(size + written),
                   events + [Open(mode)] + writes);
        PassSpec(downloaded, file, a, st);
    }

    /** The chunk loop: every non-empty chunk is written and counted. */
    method WriteChunks(stats: DownloadStats, chunks: seq<nat>) returns (written: nat, writes: seq<Event>)
      modifies stats
      ensures written == Sum(chunks) && writes == WriteEvents(chunks)
      ensures stats.downloaded == old(stats.downloaded) + written
      ensures stats.filename == old(stats.filename) && stats.totalSize == old(stats.totalSize)
      ensures stats.shouldStop == old(stats.shouldStop) && stats.downloadComplete == old(stats.downloadComplete)
    {
      written, writes := 0, [];
      for i := 0 to |chunks|
        invariant written == Sum(chunks[..i]) && writes == WriteEvents(chunks[..i])
        invariant stats.downloaded == old(stats.downloaded) + written
        invariant stats.filename == old(stats.filename) && stats.totalSize == old(stats.totalSize)
        invariant stats.shouldStop == old(stats.shouldStop) && stats.downloadComplete == old(stats.downloadComplete)
      {
        assert chunks[..i + 1][..i] == chunks[..i];
        if chunks[i] > 0 {
          writes := writes + [Write(chunks[i])];
          stats.Update(chunks[i]);
          written := written + chunks[i];
        }
      }
      assert chunks[..|chunks|] == chunks;
    }

    /** The `while retry_count < max_retries` loop, from the resume offset. */
    method RetryLoop(stats: DownloadStats, downloaded0: nat, file0: Option<nat>, attempts: seq<Attempt>)
      returns (run: Run)
      requires MaxRetries <= |attempts|
      requires stats.downloaded == downloaded0
      modifies stats
      ensures run == RunFrom(downloaded0, file0, 0, attempts)
      ensures stats.downloaded == run.downloaded
      ensures stats.filename == old(stats.filename) && stats.totalSize == old(stats.totalSize)
      ensures stats.shouldStop == old(stats.shouldStop) && stats.downloadComplete == old(stats.downloadComplete)
    {
      ghost var goal := RunFrom(downloaded0, file0, 0, attempts);
      var downloaded: nat, file: Option<nat> := downloaded0, file0;
      var retries: nat := 0;
      var trace: seq<Event> := [];
      var done := false;
      var outcome := Completed;
      assert goal == Prepend(trace, goal);
      while retries < MaxRetries && !done
        invariant 0 <= retries <= MaxRetries
        invariant !done ==> retries < MaxRetries && goal == Prepend(trace, RunFrom(downloaded, file, retries, attempts))
        invariant done ==> goal == Run(outcome, downloaded, file, trace, retries)
        invariant stats.downloaded == downloaded
        invariant stats.filename == old(stats.filename) && stats.totalSize == old(stats.totalSize)
        invariant stats.shouldStop == old(stats.shouldStop) && stats.downloadComplete == old(stats.downloadComplete)
        decreases 2 * (MaxRetries - retries) + (if done then 0 else 1)
      {
        outcome, downloaded, file, trace, retries, done := RetryPass(stats, goal, downloaded, file, trace, retries, attempts);
      }
      run := Run(outcome, downloaded, file, trace, retries);
    }

    /** One iteration of the retry loop: a pass, then either the pause before
        the next one or the way out of the loop. */
    method RetryPass(stats: DownloadStats, ghost goal: Run, downloaded: nat, file: Option<nat>, trace: seq<Event>,
                     retries: nat, attempts: seq<Attempt>)
      returns (outcome: Outcome, downloaded': nat, file': Option<nat>, trace': seq<Event>, retries': nat, done: bool)
      requires retries < MaxRetries <= |attempts|
      requires goal == Prepend(trace, RunFrom(downloaded, file, retries, attempts))
      requires stats.downloaded == downloaded
      modifies stats
      ensures retries <= retries' <= MaxRetries
      ensures !done ==> retries' == retries + 1 < MaxRetries && goal == Prepend(trace', RunFrom(downloaded', file', retries', attempts))
      ensures done ==> goal == Run(outcome, downloaded', file', trace', retries')
      ensures stats.downloaded == downloaded'
      ensures stats.filename == old(stats.filename) && stats.totalSize == old(stats.totalSize)
      ensures stats.shouldStop == old(stats.shouldStop) && stats.downloadComplete == old(stats.downloadComplete)
    {
      var st := Pass(stats, downloaded, file, attempts[retries]);
      if st.kind == Retry && retries + 1 < MaxRetries {
        RetryThenContinue(goal, trace, downloaded, file, retries, attempts, st);
        retries' := retries + 1;
        trace' := trace + (st.events + [Sleep(Backoff(retries'))]);
        file' := st.file;
        // after the pause the counter is re-read from the file, when it exists
        downloaded' := st.downloaded;
        if file'.Some? {
          downloaded' := file'.value;
          stats.downloaded := downloaded';
        }
        outcome, done := Completed, false;
      } else {
        StopHere(goal, trace, downloaded, file, retries, attempts, st);
        // a completed transfer breaks out; the tenth retryable error is
        // re-raised and caught as a request failure
        outcome := match st.kind
          case Done => Completed
          case Fail(o) => o
          case Retry => RequestFailed;
        retries' := if st.kind == Retry then retries + 1 else retries;
        downloaded', file', trace', done := st.downloaded, st.file, trace + st.events, true;
      }
    }

    /** `download_file` past its HEAD request: the statistics are registered
        under `id`, the retry loop runs from the size of any partial file, and a
        completed `.zip` is extracted. */
    method Fetch(url: string, downloadPath: Path, name: string, id: string,
                 registry: SessionRegistry, downloadDir: Path, w: TransferWorld)
      returns (r: DownloadResult, stats: DownloadStats)
      requires |w.attempts| >= MaxRetries && Registered(w)
      modifies registry, registry.Objects()
      ensures r == DownloadSpec(url, downloadPath, name, downloadDir, w)
      ensures fresh(stats)
      ensures stats.filename == ResolveFilename(w.head.disposition, w.head.contentType, url, name)
      ensures stats.totalSize == ContentLength(w.head.contentLength).value
      ensures stats.downloaded == r.run.value.downloaded
      ensures stats.downloadComplete <==> r.outcome == Completed
      ensures r.extraction.Some? ==> stats.shouldStop
      ensures registry.sessions == old(registry.sessions)[id := Download(stats)]
                                   - (if r.extraction.Some? then {ExtractKey(r.target.value)} else {})
      ensures forall t: Session {:trigger t.Counters()} :: old(allocated(t)) ==> t.Counters() == old(t.Counters())
      ensures forall t: Session {:trigger t.Stopped()} :: old(allocated(t)) ==>
                (old(t.Stopped()) ==> t.Stopped()) && (t.Obj() !in ObjectAt(old(registry.sessions), ExtractKey(r.target.value)) ==> t.Stopped() == old(t.Stopped()))
    {
      var target := TargetPath(url, downloadPath, name, w.head);
      var run, s := StartTransfer(ResolveFilename(w.head.disposition, w.head.contentType, url, name),
                                  ContentLength(w.head.contentLength).value, w.existing, w.attempts, id, registry);
      assert ObjectAt(registry.sessions, id) + ObjectAt(registry.sessions, ExtractKey(target))
             <= ObjectAt(old(registry.sessions), ExtractKey(target)) + {s};
      var extraction := ExtractDownloaded(target, run.outcome == Completed, registry, downloadDir, w.archive, id, s);
      forall t: Session | old(allocated(t))
        ensures t.Counters() == old(t.Counters())
        ensures old(t.Stopped()) ==> t.Stopped()
        ensures t.Obj() !in ObjectAt(old(registry.sessions), ExtractKey(target)) ==> t.Stopped() == old(t.Stopped())
      {
        match t
        case Download(d) =>
          assert d != s;
        case Extract(e) =>
      }
      r, stats := DownloadResult(run.outcome, Some(target), Some(run), extraction), s;
      RegisteredSpec(url, downloadPath, name, downloadDir, w, run, extraction);
    }

    /** The statistics object is created and registered under `id`, and the
        retry loop runs from the size of the partial file `existing`; a
        completed transfer is marked complete. */
    method StartTransfer(filename: string, total: int, existing: Option<nat>, attempts: seq<Attempt>,
                         id: string, registry: SessionRegistry)
      returns (run: Run, stats: DownloadStats)
      requires |attempts| >= MaxRetries
      modifies registry
      ensures run == RunFrom(SizeOf(existing), existing, 0, attempts)
      ensures fresh(stats) && !stats.shouldStop
      ensures stats.filename == filename && stats.totalSize == total
      ensures stats.downloaded == run.downloaded
      ensures stats.downloadComplete <==> run.outcome == Completed
      ensures registry.sessions == old(registry.sessions)[id := Download(stats)]
      ensures forall k :: k in registry.sessions && k != id ==> registry.sessions[k].Obj() != stats
      ensures registry.Objects() <= old(registry.Objects()) + {stats}
      ensures forall t: Session {:trigger t.Counters()} :: old(allocated(t)) ==> t.Counters() == old(t.Counters())
      ensures forall t: Session {:trigger t.Stopped()} :: old(allocated(t)) ==>
                (old(t.Stopped()) ==> t.Stopped()) && (t.Obj() !in {} ==> t.Stopped() == old(t.Stopped()))
    {
      var s := new DownloadStats(filename, total);
      s.downloaded := SizeOf(existing);
      assert forall k :: k in registry.sessions ==> registry.sessions[k].Obj() != s;
      registry.Register(id, Download(s));
      ObjectsOfUpdate(old(registry.sessions), id, Download(s), {});
      assert registry.sessions - {} == registry.sessions;
      run := RetryLoop(s, SizeOf(existing), existing, attempts);
      if run.outcome == Completed {
        s.downloadComplete := true;
      }
      stats := s;
      forall t: Session | old(allocated(t))
        ensures t.Counters() == old(t.Counters()) && t.Stopped() == old(t.Stopped())
      {
        match t
        case Download(d) => assert unchanged(d);
        case Extract(e) => assert unchanged(e);
      }
    }

    /** The end of a transfer whose statistics `s` are registered under `id`:
        when it completed and the file is a `.zip`, `s` is stopped and
        `extract_zip` is called. The counters of `s` are kept. */
    method ExtractDownloaded(zipPath: Path, completed: bool, registry: SessionRegistry, downloadDir: Path,
                             w: ArchiveWorld, id: string, s: DownloadStats)
      returns (x: Option<Extraction>)
      requires id in registry.sessions && registry.sessions[id] == Download(s)
      requires forall k :: k in registry.sessions && k != id ==> registry.sessions[k].Obj() != s
      modifies registry, registry.Objects()
      ensures x == if completed && IsZip(zipPath) then Some(ExtractSpec(zipPath, downloadDir, w)) else None
      ensures registry.sessions == old(registry.sessions) - (if x.Some? then {ExtractKey(zipPath)} else {})
      ensures s.filename == old(s.filename) && s.totalSize == old(s.totalSize)
      ensures s.downloaded == old(s.downloaded) && s.downloadComplete == old(s.downloadComplete)
      ensures x.Some? ==> s.shouldStop
      ensures forall t: Session {:trigger t.Counters()} :: old(allocated(t)) ==> t.Counters() == old(t.Counters())
      ensures forall t: Session {:trigger t.Stopped()} :: old(allocated(t)) ==>
                (old(t.Stopped()) ==> t.Stopped()) && (t.Obj() !in ObjectAt(old(registry.sessions), id) + ObjectAt(old(registry.sessions), ExtractKey(zipPath)) ==> t.Stopped() == old(t.Stopped()))
    {
      x := None;
      if completed && IsZip(zipPath) {
        s.shouldStop := true;
        forall t: Session | old(allocated(t))
          ensures t.Counters() == old(t.Counters())
          ensures t.Obj() != s ==> t.Stopped() == old(t.Stopped())
          ensures old(t.Stopped()) ==> t.Stopped()
        {
          match t
          case Download(d) => if d != s { assert unchanged(d); }
          case Extract(e) => assert unchanged(e);
        }
        assert s in ObjectAt(old(registry.sessions), id) + ObjectAt(old(registry.sessions), ExtractKey(zipPath));
        var e, extractStats := ExtractZip(zipPath, registry, downloadDir, w);
        assert Download(s).Counters() == old(Download(s).Counters()) && Download(s).Stopped();
        x := Some(e);
      } else {
        assert registry.sessions - {} == registry.sessions;
      }
    }

    /** `download_file` past its HEAD request, with the `finally` clause's
        stop of the statistics registered under `id`. */
    method FetchAndStop(url: string, downloadPath: Path, name: string, id: string,
                        registry: SessionRegistry, downloadDir: Path, w: TransferWorld)
      returns (r: DownloadResult, stats: DownloadStats)
      requires |w.attempts| >= MaxRetries && Registered(w)
      modifies registry, registry.Objects()
      ensures r == DownloadSpec(url, downloadPath, name, downloadDir, w)
      ensures fresh(stats)
      ensures stats.filename == ResolveFilename(w.head.disposition, w.head.contentType, url, name)
      ensures stats.totalSize == ContentLength(w.head.contentLength).value
      ensures stats.downloaded == r.run.value.downloaded
      ensures stats.downloadComplete <==> r.outcome == Completed
      ensures stats.shouldStop
      ensures registry.sessions == old(registry.sessions)[id := Download(stats)]
                                   - (if r.extraction.Some? then {ExtractKey(r.target.value)} else {})
      ensures registry.Objects() <= old(registry.Objects()) + {stats}
      ensures forall t: Session {:trigger t.Counters()} :: old(allocated(t)) ==> t.Counters() == old(t.Counters())
      ensures forall t: Session {:trigger t.Stopped()} :: old(allocated(t)) ==>
                (old(t.Stopped()) ==> t.Stopped()) && (t.Obj() !in ObjectAt(old(registry.sessions), ExtractKey(r.target.value)) ==> t.Stopped() == old(t.Stopped()))
    {
      r, stats := Fetch(url, downloadPath, name, id, registry, downloadDir, w);
      // `active_downloads[id]`, when still present, is `stats` itself
      label fetched:
      if id in registry.sessions {
        stats.shouldStop := true;
      }
      forall t: Session | old(allocated(t))
        ensures t.Counters() == old@fetched(t.Counters()) && t.Stopped() == old@fetched(t.Stopped())
      {
        match t
        case Download(d) => assert d != stats && unchanged@fetched(d);
        case Extract(e) => assert unchanged@fetched(e);
      }
      ObjectsOfUpdate(old(registry.sessions), id, Download(stats),
                      if r.extraction.Some? then {ExtractKey(r.target.value)} else {});
    }

    /** `download_file`. Whatever happens, the statistics registered under
        `id` end up stopped and `id` is no longer tracked. */
    method DownloadFile(url: string, downloadPath: Path, name: string, id: string,
                        tracker: DownloadTracker, registry: SessionRegistry, downloadDir: Path, w: TransferWorld)
      returns (r: DownloadResult, stats: Option<DownloadStats>)
      requires |w.attempts| >= MaxRetries
      requires tracker.Valid()
      modifies tracker, registry, registry.Objects()
      ensures r == DownloadSpec(url, downloadPath, name, downloadDir, w)
      ensures tracker.Valid()
      ensures tracker.tracking == old(tracker.tracking) - {id} && tracker.order == Without(old(tracker.order), id)
      ensures stats.Some? <==> Registered(w)
      ensures stats.None? ==> registry.sessions == old(registry.sessions)
      ensures stats.Some? ==> registry.sessions == old(registry.sessions)[id := Download(stats.value)]
                                                   - (if r.extraction.Some? then {ExtractKey(r.target.value)} else {})
      ensures id in registry.sessions ==> registry.sessions[id].Stopped()
      ensures SessionsAfter(old(registry.sessions), registry.sessions, {id})
      ensures stats.Some? ==> fresh(stats.value) && Reports(stats.value, url, name, w, r) && stats.value.shouldStop
      ensures forall o :: o in registry.Objects() ==> o in old(registry.Objects()) || fresh(o)
      ensures forall t: Session {:trigger t.Counters()} :: old(allocated(t)) ==> t.Counters() == old(t.Counters())
      ensures forall t: Session {:trigger t.Stopped()} :: old(allocated(t)) ==>
                (old(t.Stopped()) ==> t.Stopped()) && (t.Obj() !in ObjectAt(old(registry.sessions), StopKey(url, downloadPath, name, id, w)) ==> t.Stopped() == old(t.Stopped()))
    {
      assert tracker !in registry.Objects();
      r, stats := DownloadAndStop(url, downloadPath, name, id, registry, downloadDir, w);
      assert tracker !in registry.Objects();
      label stopped:
      tracker.RemoveTrackedDownload(PyStr(id));
      forall t: Session | old(allocated(t))
        ensures t.Counters() == old@stopped(t.Counters()) && t.Stopped() == old@stopped(t.Stopped())
      {
        match t
        case Download(d) => assert unchanged@stopped(d);
        case Extract(e) => assert unchanged@stopped(e);
      }
    }

    /** `download_file` up to its `finally` clause's removal of `id` from the
        tracking table: the transfer, when the HEAD request succeeds, and the
        stop of the statistics registered under `id` in every case. */
    method DownloadAndStop(url: string, downloadPath: Path, name: string, id: string,
                           registry: SessionRegistry, downloadDir: Path, w: TransferWorld)
      returns (r: DownloadResult, stats: Option<DownloadStats>)
      requires |w.attempts| >= MaxRetries
      modifies registry, registry.Objects()
      ensures r == DownloadSpec(url, downloadPath, name, downloadDir, w)
      ensures stats.Some? <==> Registered(w)
      ensures stats.None? ==> registry.sessions == old(registry.sessions)
      ensures stats.Some? ==> registry.sessions == old(registry.sessions)[id := Download(stats.value)]
                                                   - (if r.extraction.Some? then {ExtractKey(r.target.value)} else {})
      ensures id in registry.sessions ==> registry.sessions[id].Stopped()
      ensures SessionsAfter(old(registry.sessions), registry.sessions, {id})
      ensures stats.Some? ==> fresh(stats.value) && Reports(stats.value, url, name, w, r) && stats.value.shouldStop
      ensures forall o :: o in registry.Objects() ==> o in old(registry.Objects()) || fresh(o)
      ensures forall t: Session {:trigger t.Counters()} :: old(allocated(t)) ==> t.Counters() == old(t.Counters())
      ensures forall t: Session {:trigger t.Stopped()} :: old(allocated(t)) ==>
                (old(t.Stopped()) ==> t.Stopped()) && (t.Obj() !in ObjectAt(old(registry.sessions), StopKey(url, downloadPath, name, id, w)) ==> t.Stopped() == old(t.Stopped()))
    {
      if !Registered(w) {
        // a raising HEAD request, or an unparsable length (`UnexpectedFailed`)
        r, stats := DownloadSpec(url, downloadPath, name, downloadDir, w), None;
        StopUnregistered(id, registry);
      } else {
        var s;
        r, s := FetchAndStop(url, downloadPath, name, id, registry, downloadDir, w);
        DownloadSessions(old(registry.sessions), id, Download(s), if r.extraction.Some? then {ExtractKey(r.target.value)} else {});
        stats := Some(s);
      }
    }
    /** The `finally` clause of a `download_file` whose HEAD request failed:
        whatever is registered under `id` is stopped, and nothing else changes. */
    method StopUnregistered(id: string, registry: SessionRegistry)
      modifies registry.Objects()
      ensures registry.sessions == old(registry.sessions)
      ensures id in registry.sessions ==> registry.sessions[id].Stopped()
      ensures SessionsAfter(old(registry.sessions), registry.sessions, {id})
      ensures registry.Objects() == old(registry.Objects())
      ensures forall t: Session {:trigger t.Counters()} :: old(allocated(t)) ==> t.Counters() == old(t.Counters())
      ensures forall t: Session {:trigger t.Stopped()} :: old(allocated(t)) ==>
                (old(t.Stopped()) ==> t.Stopped()) && (t.Obj() !in ObjectAt(old(registry.sessions), id) ==> t.Stopped() == old(t.Stopped()))
    {
      registry.StopIfPresent(id);
    }
  }

  /** The key of `active_downloads` whose statistics `download_file` may stop
      besides its own: the extraction key of the file it writes, or `id`
      itself when it never gets past its HEAD request. */
  function StopKey(url: string, downloadPath: Path, name: string, id: string, w: TransferWorld): string
  {
    if Registered(w) then ExtractKey(TargetPath(url, downloadPath, name, w.head)) else id
  }

  /** What `download_file` leaves in the statistics object of a transfer that
      got past its HEAD request: the resolved filename, the size the header
      announced, the bytes of the run, and whether it completed. */
  predicate Reports(stats: DownloadStats, url: string, name: string, w: TransferWorld, r: DownloadResult)
    reads stats
  {
    && w.head.HeadReply? && ContentLength(w.head.contentLength).Some? && r.run.Some?
    && stats.filename == ResolveFilename(w.head.disposition, w.head.contentType, url, name)
    && stats.totalSize == ContentLength(w.head.contentLength).value
    && stats.downloaded == r.run.value.downloaded
    && (stats.downloadComplete <==> r.outcome == Completed)
  }

  /** A download adds its own key and removes at most extraction keys. */
  lemma DownloadSessions(before: map<string, Session>, id: string, s: Session, gone: set<string>)
    requires forall k :: k in gone ==> StartsWith(k, "extract_")
    ensures SessionsAfter(before, before[id := s] - gone, {id})
  {
  }

  /** One pass that reaches the chunk loop. */
  lemma PassSpec(downloaded: nat, file: Option<nat>, a: Attempt, st: Step)
    requires a.Response? && !Rejected(a.status)
    requires var mode := ModeFor(downloaded, a.status);
             var start := if Restarts(downloaded, a.status) then 0 else downloaded;
             var base := if mode == Truncate then 0 else SizeOf(file);
             st == Step(if a.end.Complete? then Done else KindOf(a.end.error), start + Sum(a.chunks),
                        Some(base + Sum(a.chunks)), [Get(RangeFor(downloaded))] + [Open(mode)] + WriteEvents(a.chunks))
    ensures st == StepFrom(downloaded, file, a)
  {
  }

  /** `extract_zip` on an archive that opens, from its layout and its counters. */
  lemma ReadableSpec(zipPath: Path, downloadDir: Path, entries: seq<Entry>, failAt: Option<nat>, x: Extraction)
    requires var k := StopIndex(entries, failAt);
             x == Extraction(Some(ExtractDir(zipPath, downloadDir, Names(entries))),
                             FileCount(entries), FileBytes(entries), FileCount(entries[..k]), FileBytes(entries[..k]),
                             FileNames(entries[..k]), k == |entries|)
    ensures x == ExtractSpec(zipPath, downloadDir, Readable(entries, failAt))
  {
  }

  /** `download_file` once its statistics are registered: the run from the
      partial file, and the extraction of a completed `.zip`. */
  lemma RegisteredSpec(url: string, downloadPath: Path, name: string, downloadDir: Path, w: TransferWorld,
                       run: Run, extraction: Option<Extraction>)
    requires |w.attempts| >= MaxRetries && Registered(w)
    requires run == RunFrom(SizeOf(w.existing), w.existing, 0, w.attempts)
    requires var target := TargetPath(url, downloadPath, name, w.head);
             extraction == if run.outcome == Completed && IsZip(target) then Some(ExtractSpec(target, downloadDir, w.archive)) else None
    ensures DownloadSpec(url, downloadPath, name, downloadDir, w) ==
            DownloadResult(run.outcome, Some(TargetPath(url, downloadPath, name, w.head)), Some(run), extraction)
  {
  }

  lemma {:induction false} TopLevelItemsSnoc(names: seq<string>, i: nat)
    requires i < |names|
    ensures TopLevelItems(names[..i + 1]) == TopLevelItems(names[..i]) + {TopLevel(names[i])}
  {
    var a, b := names[..i + 1], names[..i];
    assert forall j :: 0 <= j < i ==> a[j] == b[j];
    assert a[i] == names[i];
  }
}

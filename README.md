# TorBox auto-downloader: a verified model of its decision logic

The TorBox auto-downloader watches directories for `.torrent`, `.magnet` and
`.nzb` files and submits them to the TorBox service. It tracks each submitted
job, polls the service until the job is ready, and then downloads the result.
The download can resume, and a `.zip` result is unpacked into the directory
the job was meant for.

This project models, in Dafny, the sequential logic behind that pipeline:

- **The file processor** (`file_processor.py`):
  - the `MM:SS` time formatter;
  - the download and extraction statistics objects;
  - filename resolution;
  - the resumable retry loop of `download_file`, together with its cleanup of the shared registries;
  - the layout, totals and cleanup rules of `extract_zip`.
- **The download tracker** (`download_tracker.py`): a class holding the job table, which its methods update in place.
- **The watcher** (`watcher.py`):
  - identifier extraction from submit responses;
  - the directory scan and its extension dispatch;
  - the status check, with the list search and the readiness rule;
  - the download request;
  - the status loop over all tracked jobs;
  - dashboard-added jobs.
- **The API client** (`api_client.py`): the query-string parser and the parameters of the download-link requests.
- **The configuration** (`config.py`): loading an environment into directories and settings, and `validate`.

Everything the program receives from the outside world is a parameter of the model:

- the HTTP replies to each request;
- the size of a partial file;
- the members of an archive;
- the environment;
- the clock reading stored as `submitted_at`.

Objects that the source mutates are Dafny classes, with `modifies` frames:

- the statistics objects;
- `active_downloads`, modelled as `Stats.SessionRegistry`;
- the tracker;
- the watcher application.

Each imperative method is proved against a pure specification function. The
properties the source promises are then proved as lemmas about that function.
For example:

- the retry loop equals `Transfer.RunFrom`, and `RunCounts`, `RunInSync` and
  `AllTransientFails` state the bounds, offsets and failure rules;
- `extract_zip` equals `Archive.ExtractSpec`;
- `_scan_directory` equals `Watcher.Scan`.

Python semantics are written out where the source depends on them:

- truthiness (`0`, `""`, `None` and `False` are false);
- `str(None) == "None"`;
- `dict.get` with a default, and `a or b`;
- floor division and modulo by 60 for negative numbers;
- `str.split` with a bound of 1;
- `int(s)` on a string: surrounding whitespace (every character `str.isspace()` accepts) is stripped, then an optional sign and digits with single underscores between them are read;
- pathlib's rules for `Path(s)`, `/`, `.parent`, `.name`, `.suffix` and `.stem`.

`str.lower()` is modelled on ASCII letters only. The source compares lowered text only with
the ASCII literals `.torrent`, `.magnet`, `.nzb`, `.zip` and `"true"`. Outside ASCII, only two
characters lower to text holding an ASCII letter: the Kelvin sign U+212A becomes `k`, and U+0130
becomes `i` followed by the combining dot U+0307. None of the literals holds a `k` or that dot, so
every comparison gives the same answer under either lowering.

Three behaviours of the code worth knowing:

- **Statuses other than 200 and 206.** A reply with such a status is only
  rejected when `raise_for_status` raises, which happens for statuses 400–599.
  Any other status (a 3xx, say) is streamed like a 206. See
  `file_processor.py:343-344` and `Transfer.Rejected`.
- **Removal from the tracker.** `download_file` removes the job from the
  tracking table in every outcome, success included, not only on a terminal
  failure (`file_processor.py:399-403`).
- **Path-like disposition filenames.** The filename taken from a
  `Content-Disposition` header (`file_processor.py:284`) may hold `/`. Joined to
  the requested directory (`file_processor.py:312-314`), one that starts with
  `/` replaces that directory, and a relative one writes below it. See
  `Processor.DispositionFilenameAsPath`.

## Model

| member | source | states |
|---|---|---|
| Stats.FormatTime | file_processor.py:15-28 | the result ends in `:SS`, two digits whose value is below 60, after at least two characters of minutes; read back through `ReadTime` (minutes as `str()` writes them, then two seconds digits) it gives the truncated number of seconds, for negative inputs too (floor `//` and `%`); minutes are not capped at 99 |
| Stats.MinutesSeconds | file_processor.py:26-28 | `s // 60` and `s % 60`, padded and joined by `:`, read back as `60*minutes + seconds == s` for every integer `s` |
| Stats.Truncate | file_processor.py:25 | `int()` on a float truncates toward zero: the result is the integer nearest zero within 1 of the input |
| Stats.Pad2 | file_processor.py:28 | `{n:02d}`: a non-negative number gets at least two digits with value `n`, a number ≥ 10 is written as-is, a negative number is written with its sign |
| Stats.Pad2Parses | file_processor.py:28 | each padded part holds no `:` and reads back as the number written |
| Stats.ReadTimeOf | file_processor.py:28 | a text `mm:ss` built from a minutes numeral and two seconds digits below 60 reads back as `60*m + ss` |
| Stats.DownloadStats.constructor | file_processor.py:36-51 | a new statistics object has nothing downloaded, is not stopped and is not complete |
| Stats.DownloadStats.Update | file_processor.py:53-60 | the byte count grows by the chunk size and nothing else changes |
| Stats.DownloadStats.Progress | file_processor.py:79-88 | `None` exactly when the total size is 0; otherwise `progress * total == downloaded * 100`, within 0–100 while the count is within the total, and 100 at the total |
| Stats.Percent | file_processor.py:87 | `part / whole * 100` scaled back by `whole` is `part * 100`; within 0–100 for a part within the whole; 100 for the whole |
| Stats.PercentBounds | file_processor.py:87 | the same two facts for the real-number expression the source computes |
| Stats.ExtractStats.constructor | file_processor.py:145-161 | a new extraction object keeps the archive and the totals, has extracted nothing and is not stopped |
| Stats.ExtractStats.Update | file_processor.py:163-171 | one file more and `file_size` bytes more; totals and the stop flag unchanged |
| Stats.ExtractStats.Progress | file_processor.py:173-184 | by file count when the count is non-zero, else by size when that is non-zero, else `None`; 100 once every file is extracted |
| Stats.SessionRegistry.constructor | watcher.py:45-47 | `active_downloads` starts empty |
| Stats.SessionRegistry.Register | file_processor.py:324 | the key now maps to the given statistics and nothing else changes |
| Stats.SessionRegistry.StopIfPresent | file_processor.py:393-394 | a registered session is stopped and its counters are kept; no other statistics object changes; an absent key changes nothing |
| Stats.SessionRegistry.RemoveIfPresent | file_processor.py:518-520 | the dictionary loses exactly that key |
| Filenames.DispositionFilename | file_processor.py:283-286 | there is a filename exactly when the pattern `filename="?([^"]+)"?` matches somewhere; the group is non-empty and holds no quote |
| Filenames.FirstMatch | file_processor.py:284 | `re.search` finds the leftmost match position: it matches, and no earlier position does |
| Filenames.GroupAt | file_processor.py:284 | the captured group is the longest run of non-quote characters from the group start |
| Filenames.GroupStart | file_processor.py:284 | the group starts right after `filename=`, or one character later when an optional quote follows |
| Filenames.ResolveFilename | file_processor.py:283-311 | Content-Disposition wins; otherwise a URL suffix of 1–5 characters is appended unless already there; otherwise `name + ".zip"` when the content type says zip; otherwise `name` |
| Filenames.UrlExtensionAppendedOnce | file_processor.py:295-300 | with a usable URL extension, a name already ending with it is kept, and any other name gets it appended |
| Filenames.NoKeyNoFilename | file_processor.py:284-285 | a header without `filename=` never names the file |
| Filenames.QuotedFilename | file_processor.py:284-286 | `filename="f"` yields `f` without its quotes |
| Filenames.TargetInRequestedDirectory | file_processor.py:312-314 | the real path is the resolved filename in the directory of the requested path |
| Processor.DispositionFilenameAsPath | file_processor.py:284-314 | a disposition filename starting with `/` replaces the requested directory outright, and a relative one is appended below it component by component |
| Transfer.Backoff | file_processor.py:377 | `min(30, 5*k)`: never above 30, `5*k` up to `k = 6`, 30 from then on |
| Transfer.RangeFor | file_processor.py:337-339 | a `Range: bytes=N-` header exactly when the offset `N` is positive |
| Transfer.WriteEvents | file_processor.py:355-358 | only non-empty chunks are written, never more writes than chunks |
| Transfer.StepFrom | file_processor.py:337-360 | every pass starts with one request carrying the range header for the current offset |
| Transfer.RunFrom | file_processor.py:335-389 | the loop never exceeds 10 passes, and reaching `max_retries` means the run failed as a request error |
| Transfer.RunUnfold | file_processor.py:335-389 | a run is one pass followed by: the end on completion or a non-transient error, failure at the 10th transient error, or else the pause `min(30, 5*k)` and a run from the size of the file on disk |
| Transfer.RetryThenContinue | file_processor.py:372-386 | after a transient error below the limit, the run so far plus the pause and the rest from the on-disk size is the whole run |
| Transfer.StopHere | file_processor.py:362-389 | completion, a failure, or the 10th transient error ends the whole run at this pass |
| Transfer.StepCounts | file_processor.py:341 | one pass issues exactly one request and no pause |
| Transfer.RunCounts | file_processor.py:335-382 | a run makes one request per pass, at most 10 in all, and the pauses between them are `min(30, 5*k)` for `k = 1, 2, ...` |
| Transfer.ScheduleBounded | file_processor.py:377 | the pauses never exceed 30 seconds and never decrease |
| Transfer.FullSchedule | file_processor.py:375-382 | a run that fails every time pauses 5, 10, 15, 20, 25, 30, 30, 30, 30 seconds |
| Transfer.StepInSync | file_processor.py:346-360 | through one pass, the byte counter keeps agreeing with the size of the file on disk |
| Transfer.RunInSync | file_processor.py:335-389 | through the whole loop, including the re-read after each transient error, the counter agrees with the file |
| Transfer.RequestFromDisk | file_processor.py:316-339 | a pass asks for the bytes after those on disk, and for the whole file when there are none |
| Transfer.AllTransientFails | file_processor.py:372-391 | when every attempt is a transient error, the run gives up after 10 requests as a request failure, and the offset and file are left unchanged |
| Transfer.ResumeAppends | file_processor.py:337-360 | a 206 reply to a resumed request opens the file in append mode and adds the chunks to the offset |
| Transfer.FullReplyRestarts | file_processor.py:346-351 | a 200 reply to a ranged request truncates the file and counts from zero |
| Transfer.FromDisk | file_processor.py:316-364 | starting from a partial file, the first request resumes after its bytes, and a completed transfer leaves a file of exactly the bytes counted |
| Transfer.RunStartsWithRequest | file_processor.py:337-341 | every run starts with a request carrying the range of its offset |
| Transfer.RunCompletedWrites | file_processor.py:355-364 | a completed run has opened the file, so the file exists |
| Archive.Names | file_processor.py:438 | `namelist()`: one name per member, in order |
| Archive.SingleTopDir | file_processor.py:441-454 | when a single top directory is found, it is the only top-level item and some member lies beneath it |
| Archive.SingleTopDirIff | file_processor.py:441-454 | single-rooted exactly when there is one top-level item and some member name has a `/` |
| Archive.CommonRootUnpacksInPlace | file_processor.py:456-459 | members all under one named directory unpack into the download directory |
| Archive.TwoRootsUnpackAside | file_processor.py:461-464 | two different top-level items unpack into `download_dir / stem` |
| Archive.LoneFileUnpacksAside | file_processor.py:449-464 | an archive holding one plain file is not single-rooted and unpacks into `download_dir / stem` |
| Archive.FileCount | file_processor.py:467-473 | the file count never exceeds the member count |
| Archive.FileNames | file_processor.py:494-497 | one name per file member |
| Archive.TotalsMonotone | file_processor.py:467-498 | the counts of a prefix never exceed the totals |
| Archive.ExtractKey | file_processor.py:479 | the extraction key starts with `extract_` |
| Archive.ExtractKeyInjective | file_processor.py:479 | two different archives never share an extraction key |
| Archive.StopIndex | file_processor.py:494-512 | extraction stops at the failing file member, or at the end |
| Archive.DeletedOnlyWhenComplete | file_processor.py:494-509 | the archive is deleted exactly when every file was extracted; then the counters equal the totals and every file was written in order; the counters never exceed the totals |
| Archive.FailureKeepsArchive | file_processor.py:494-516 | a failing file leaves the archive in place, with the files before it extracted and fewer files extracted than the total |
| Processor.ContentLength | file_processor.py:281 | a missing `content-length` reads as 0; a present one is read as `int()` reads it (`Text.ParseInt`), so surrounding whitespace is allowed |
| Processor.DownloadSpec | file_processor.py:252-403 | a target and a run exist exactly when the HEAD request succeeds; an extraction happens only for a completed transfer to a `.zip` path |
| Processor.FileProcessor.constructor | file_processor.py:241-248 | keeps the progress interval |
| Processor.FileProcessor.AnalyzeLayout | file_processor.py:437-454 | the loops building `top_level_items` and `single_top_dir` compute `Archive.SingleTopDir` |
| Processor.FileProcessor.CountTotals | file_processor.py:467-473 | the accumulators end as the number and bytes of the file members |
| Processor.FileProcessor.ExtractZip | file_processor.py:422-520 | the result is `ExtractSpec`; the extraction key is removed in every outcome; a readable archive's statistics end stopped and equal to the reported counters; an unreadable one stops whatever was registered under the key; every statistics object registered before keeps its counters, and only the one under the extraction key can become stopped |
| Processor.FileProcessor.ExtractUnreadable | file_processor.py:512-520 | an archive that cannot be opened: the registered session is stopped, the key is removed, every registered statistics object keeps its counters, and only the one under the key can become stopped |
| Processor.FileProcessor.ExtractReadable | file_processor.py:437-520 | an archive that opens: the result is `ExtractSpec`, the key is removed, and the fresh statistics end stopped and agree with the result |
| Processor.FileProcessor.PlanExtraction | file_processor.py:437-473 | the extraction directory and the totals of the first two passes |
| Processor.FileProcessor.ExtractMembers | file_processor.py:494-498 | members are extracted in order up to the failing one; the counters are the count and bytes of the files before it |
| Processor.FileProcessor.Pass | file_processor.py:337-360 | one pass of the loop body is `StepFrom`, and the statistics count the run's bytes, reset to 0 on a restart |
| Processor.FileProcessor.WriteChunks | file_processor.py:355-360 | the chunk loop adds every chunk to the counter and writes the non-empty ones |
| Processor.FileProcessor.RetryLoop | file_processor.py:335-389 | the `while retry_count < max_retries` loop is `RunFrom` from the resume offset, and the statistics end with its byte count |
| Processor.FileProcessor.RetryPass | file_processor.py:336-389 | one iteration either ends the run or increases `retry_count` and leaves the rest of the run to come |
| Processor.FileProcessor.StartTransfer | file_processor.py:316-364 | the statistics are created, registered under the download id, start from the partial file's size, and are complete exactly when the run completed; every statistics object registered before keeps its counters and its stop flag |
| Processor.FileProcessor.ExtractDownloaded | file_processor.py:366-368 | only a completed `.zip` is extracted, after its statistics are stopped; the registry then loses the extraction key; every statistics object registered before keeps its counters, and only the ones under the id and the extraction key can become stopped |
| Processor.FileProcessor.Fetch | file_processor.py:280-370 | the result is `DownloadSpec`; the statistics have the resolved name, the header's size, the run's bytes and completion; the registry holds them under the id, less any extraction key; every statistics object registered before keeps its counters, and only the one under the extraction key of the target can become stopped |
| Processor.FileProcessor.FetchAndStop | file_processor.py:280-401 | the same, with the `finally` clause's stop: the new statistics end stopped, and of the objects registered before only the one under the extraction key can become stopped |
| Processor.FileProcessor.DownloadAndStop | file_processor.py:279-401 | whatever the outcome, a session registered under the id ends stopped; a failed HEAD request registers nothing; every statistics object registered before keeps its counters, and only the one under `StopKey` (the target's extraction key, or the id when the HEAD request failed) can become stopped |
| Processor.FileProcessor.StopUnregistered | file_processor.py:393-394 | with no statistics created, only the object under the id can become stopped; the dictionary and every counter stay as they were |
| Processor.FileProcessor.DownloadFile | file_processor.py:252-403 | `download_file`: the result is `DownloadSpec`; the id is removed from the tracking table in every outcome; the registered statistics end stopped; only the id is added to `active_downloads` and only extraction keys leave it; every statistics object registered before keeps its counters, and only the one under `StopKey` can become stopped |
| Tracker.NewEntry | download_tracker.py:48-57 | the new record has failure count 0, the given type, name, id, hash and time, and a path string exactly when a path was given |
| Tracker.StoredDirectoryRoundTrip | download_tracker.py:55 | the stored `str(download_dir)` reads back through `Path(...)` as the same directory |
| Tracker.Without | download_tracker.py:104-105 | removing a key from the iteration order keeps every other key and no duplicates, and changes nothing when the key is absent |
| Tracker.WithoutAll | download_tracker.py:104-105 | the order without a set of keys holds exactly the other keys |
| Tracker.WithoutAllThen | download_tracker.py:104-105 | removing a set of keys and then one more key from the order removes the union, in the same order |
| Tracker.DownloadTracker.constructor | download_tracker.py:12-16 | the table starts empty |
| Tracker.DownloadTracker.TrackDownload | download_tracker.py:44-61 | inserts exactly `str(identifier)` with the new record, and returns True, exactly when that key was absent; otherwise returns False and changes nothing |
| Tracker.DownloadTracker.IncrementFailureCount | download_tracker.py:73-76 | a tracked job's count goes up by one and is returned; for an untracked job, returns `None` and changes nothing |
| Tracker.DownloadTracker.ResetFailureCount | download_tracker.py:85-86 | a tracked job's count becomes 0; otherwise nothing changes |
| Tracker.DownloadTracker.TrackedDownloads | download_tracker.py:88-95 | the live table: its keys are those of the iteration order, and its values are the stored records |
| Tracker.DownloadTracker.RemoveTrackedDownload | download_tracker.py:104-106 | a string key is deleted when present; any other value, with no `str()` applied, changes nothing |
| Tracker.DownloadTracker.GetDownloadInfo | download_tracker.py:118 | the record under `str(identifier)` exactly when one exists |
| Tracker.TrackTwice | download_tracker.py:44-57 | tracking an identifier twice: the first call inserts, the second refuses, and the first record stays |
| Tracker.RemoveIsIdempotent | download_tracker.py:104-118 | removing an absent key changes nothing, and removing an integer never removes the key of its decimal text |
| Watcher.DictGet | watcher.py:245-247 | `d.get(key, default)`: the stored value when present, else the default |
| Watcher.ExtractIdentifier | watcher.py:118-147 | the identifier is truthy exactly when the id or the hash is; a missing or non-dict `data` gives three `None`s |
| Watcher.TorrentFallsBackToHash | watcher.py:133-146 | a missing or falsy `torrent_id` (such as 0) makes the hash the identifier, and a plain `id` plays no part |
| Watcher.UsenetIdPrecedence | watcher.py:139-146 | a present `usenetdownload_id` is the download id even when falsy, and then the hash is the identifier |
| Watcher.UsenetFallsBackToId | watcher.py:139-146 | without `usenetdownload_id`, a truthy `id` is the identifier |
| Watcher.SubmitTracks | watcher.py:180-204 | submission succeeds exactly when a truthy identifier not yet tracked comes back; then exactly that key is added, pointing at the file, and no existing record changes; a failure leaves the table as it was |
| Watcher.SubmittedJobDownloadsWhereAsked | watcher.py:186-194 | a submitted job's stored directory reads back as the watch directory's download directory |
| Watcher.Dispatch | watcher.py:102-108 | only `torrent` or `usenet` jobs are submitted |
| Watcher.DispatchIgnoresCase | watcher.py:102 | names equal once lower-cased are dispatched alike |
| Watcher.DispatchExtension | watcher.py:102-108 | `.torrent` and `.magnet` go to torrent processing, `.nzb` to usenet, any other extension is ignored |
| Watcher.LowerSuffix | watcher.py:102 | the suffixes of two names that are equal once lower-cased are also equal once lower-cased |
| Watcher.Submittable | watcher.py:100-108 | the files the scan submits all come from the listing and have a recognised extension |
| Watcher.ResultPaths | watcher.py:104-108 | one path per result |
| Watcher.ScanVisitsSubmittable | watcher.py:100-108 | one result per file with a recognised extension, in directory order; every other file is ignored |
| Watcher.ScanKeepsRecords | watcher.py:100-108 | a scan only adds records: every record tracked before is still there, unchanged |
| Watcher.DeletedAreTracked | watcher.py:104-116 | every file deleted had its job newly tracked by this scan, pointing back at that file and at the download directory |
| Watcher.TwoScansKeepRecords | watcher.py:79-85 | scanning both watch directories keeps every record tracked before |
| Watcher.EmptyItemNeverMatches | watcher.py:245-249 | an empty dictionary never matches a job |
| Watcher.IdsComparedAsText | watcher.py:245 | ids are compared as text, so an id reported as `"42"` matches one stored as `42` |
| Watcher.SearchFrom | watcher.py:244-251 | the first matching dictionary of the list; a non-dictionary reached before any match raises; otherwise not found |
| Watcher.ReadyItemIsFirstMatch | watcher.py:238-270 | a ready job in a list reply is the first matching dictionary, reports `download_present`, and follows only non-matching dictionaries |
| Watcher.NonObjectBeforeMatchFails | watcher.py:244-279 | a non-dictionary before any match makes the check fail |
| Watcher.QueryParam | watcher.py:223-224 | the query is `id=` with the stored id when it is truthy, else with the identifier |
| Watcher.QueryParamParses | api_client.py:144-150 | the status query reaches the list request as the one parameter `id` |
| Watcher.StoredDirectory | watcher.py:309 | there is a directory exactly when a non-empty directory string is stored |
| Watcher.LinkUrl | watcher.py:321-322 | a URL comes only from a reply with truthy `success` and a `data` member |
| Watcher.MissingSuccessStartsNothing | watcher.py:321 | a link reply without `success` starts no download |
| Watcher.IdKey | watcher.py:316-319 | the link request names the job by `torrent_id` or `usenet_id` |
| Watcher.ItemIdentifier | watcher.py:469-470 | `str(item_id)` when the id is truthy, else `str(item_hash)` |
| Watcher.EmptyIdentifierGuard | watcher.py:469-472 | the empty-identifier guard fires only for a falsy id with `""` as hash; a missing hash gives `"None"` |
| Watcher.AddedItemDownloadsWhereAsked | watcher.py:475-492 | a dashboard job has no original file, no failures, the given type and name, and downloads into the given directory, else the Radarr one |
| Watcher.TorBoxWatcherApp.constructor | watcher.py:27-47 | the client, processor, tracker and an empty `active_downloads` are built from the configuration |
| Watcher.TorBoxWatcherApp.SubmitAndTrack | watcher.py:180-204 | the result and the new table are those of `Submit`, and the key order gains exactly the tracked key |
| Watcher.TorBoxWatcherApp.ScanDirectory | watcher.py:91-116 | the results and the table are those of `Scan`, and the deleted files are exactly the successful ones, in order |
| Watcher.TorBoxWatcherApp.ScanFile | watcher.py:101-108 | one file of the first loop is `ScanNext` |
| Watcher.TorBoxWatcherApp.DeleteSubmitted | watcher.py:110-116 | the second loop removes exactly the files of the successful results |
| Watcher.TorBoxWatcherApp.ScanWatchDirectory | watcher.py:73-89 | in dual mode the Radarr pair is scanned and then the Sonarr pair, and the iteration order gains the Radarr keys and then the Sonarr keys; in single mode only the Radarr pair |
| Watcher.TorBoxWatcherApp.FindItem | watcher.py:244-251 | the list loop with its `break` computes `SearchFrom` |
| Watcher.TorBoxWatcherApp.ReadStatus | watcher.py:226-279 | ready exactly when `StatusReady` holds for the reply |
| Watcher.TorBoxWatcherApp.RequestDownloadCommon | watcher.py:290-343 | a link is requested exactly when the job is tracked with a stored directory, with the stored id, else the identifier; a download starts exactly when the link gives a URL, at `directory / name`, and then the job is untracked; every statistics object registered before keeps its counters, and only the one under the started download's `StopKey` can become stopped |
| Watcher.TorBoxWatcherApp.CheckStatusCommon | watcher.py:206-279 | no query without tracking info; ready exactly when the reply says so; a download starts only for a ready job; otherwise nothing changes; every statistics object registered before keeps its counters, and only the one under the started download's `StopKey` can become stopped |
| Watcher.TorBoxWatcherApp.CheckTracked | watcher.py:432-451 | an identifier active locally, untracked, or of unknown type is skipped; otherwise its status is checked; a started job leaves the table and the iteration order, the rest of the order kept; every statistics object registered before keeps its counters, and only the one under the started download's `StopKey` can become stopped |
| Watcher.TorBoxWatcherApp.CheckDownloadStatus | watcher.py:421-451 | every eligible job is checked, each correctly; entries leave the table only for started downloads, and the iteration order is the old one without them; `active_downloads` gains only started ids, and every other surviving key keeps its session; every statistics object registered before keeps its counters, and only those under the started downloads' `StopKey`s can become stopped |
| Watcher.TorBoxWatcherApp.CheckStep | watcher.py:432-451 | one identifier more keeps the loop's account, including the iteration order without the jobs started so far; statistics objects keep their counters, and only those under a started download's `StopKey` or under a job started earlier in the pass can become stopped |
| Watcher.TorBoxWatcherApp.AddItemToTrack | watcher.py:453-492 | succeeds exactly when the identifier is non-empty and untracked; then inserts exactly that key with the dashboard record; otherwise nothing changes |
| Watcher.CheckStepKeeps | watcher.py:432-451 | one identifier more, with the effect `CheckTracked` promises, keeps the loop's account |
| ApiClient.SegmentPair | api_client.py:147-148 | a segment holding `=` splits at its first `=`, so the key has none and the value may; without `=` there is no pair |
| ApiClient.KeysAssigned | api_client.py:146-149 | a key is in the parsed dictionary exactly when some segment assigns it |
| ApiClient.LastValueWins | api_client.py:149 | a repeated key keeps the value of its last segment |
| ApiClient.NoPairsNone | api_client.py:147-150 | with no `key=value` segment the result is `None`, not an empty dictionary |
| ApiClient.SingleParameter | api_client.py:146-150 | `key=value` parses to that one pair, with the value whole even if it holds `=` |
| ApiClient.RepeatedKey | api_client.py:149 | `k=a&k=b` parses to `{k: b}` |
| ApiClient.TorBoxAPIClient.constructor | api_client.py:24-27 | the base URL is `base/version/api`, and the bearer header carries the key, `None` for an unset one |
| ApiClient.TorBoxAPIClient.Token | api_client.py:178 | the `token` parameter is the API key, and `None` when it is unset |
| ApiClient.TorBoxAPIClient.ParseQueryString | api_client.py:134-150 | the loop over the `&`-segments computes `ParsedQuery`: `None` for a missing or empty query |
| ApiClient.TorBoxAPIClient.DownloadLinkParams | api_client.py:178 | exactly the id, `zip_link` and `token` keys; `zip_link` is `"true"` or `"false"` |
| ApiClient.DownloadLinkFlag | api_client.py:178 | `zip_link` reads back as the flag, and the token is the same whatever the job |
| Config.SubdirOr | config.py:29-32 | `subdir or default`: the variable when set and non-empty, else the default |
| Config.Load | config.py:10-48 | a loaded configuration is in dual mode exactly when the environment asks for it |
| Config.IntSetting | config.py:40 | `int(os.getenv(key, default))`: the default when unset, and an error exactly when the variable is set to text `int()` rejects |
| Config.LoadFailsIff | config.py:40-48 | loading raises exactly when one of the seven integer settings is set to text `int()` rejects |
| Config.LoadFailsOnSetting | config.py:40-48 | loading raises exactly when one of its seven `int()` readings raises |
| Config.SettingFailsIff | config.py:40-48 | one of the seven readings raises exactly when one of the seven variables is set to text `int()` rejects |
| Config.SpacedSettingLoads | config.py:40 | a setting written as a numeral with whitespace around it, such as `"60 "`, loads as that number |
| Config.Validate | config.py:58-61 | raises exactly when the API key is unset or empty |
| Config.DualModeIff | config.py:25 | dual mode exactly when one of the four subdirectory variables is set and non-empty |
| Config.DualModeDirectories | config.py:27-32 | in dual mode each directory is `base / (subdir or "radarr"/"sonarr")` |
| Config.DualModeDefaultsApart | config.py:30-32 | without overrides, Radarr's and Sonarr's download directories are apart |
| Config.ChildrenApart | config.py:29-32 | two different subdirectory names give different directories |
| Config.SingleModeShared | config.py:33-38 | in single mode both applications share the base watch and download paths |
| Config.EmptyEnvironment | config.py:10-61 | with nothing set: single mode at `/app/watch` and `/app/downloads`, the default intervals and counts (progress 15), both flags off, and validation fails |
| Config.EmptyDirectories | config.py:15-38 | with nothing set, both applications use `/app/watch` and `/app/downloads` |
| PyValues.Or | watcher.py:223 | `a or b`: the left operand when truthy, else the right |
| PyValues.StrEmpty | watcher.py:469-470 | `str(v)` is empty only for the empty string |
| PyValues.TruthyStrNonEmpty | watcher.py:469-470 | a truthy value never prints as `""` |
| Text.Split | api_client.py:146 | `str.split(c)`: at least one piece, none holding the separator |
| Text.SplitJoin | api_client.py:146 | splitting a join gives the pieces back |
| Text.BeforeFirst | file_processor.py:444 | `name.split('/')[0]`: the prefix before the first separator, the whole name when there is none |
| Text.Lower | watcher.py:102 | `str.lower()` on ASCII, one character for one; the comparisons the source makes cannot tell it from Unicode lowering |
| Text.NatToString | file_processor.py:28 | the decimal numeral: digits only, no leading zero |
| Text.IntToString | file_processor.py:28 | `str(i)`: a sign exactly for a negative number |
| Text.ParseInt | config.py:40-48 | `int(s)` succeeds exactly when the stripped text is a sign and digits with single underscores between them, and gives those digits' value, negated after a minus |
| Text.StripLeftDrops | config.py:40 | `lstrip()` drops exactly the leading run of whitespace |
| Text.StripRightDrops | config.py:40 | `rstrip()` drops exactly the trailing run of whitespace |
| Text.ScanDigitsValue | config.py:40-48 | the left-to-right digit scan succeeds exactly on digits separated by single underscores, and its value is that of the digits with the underscores dropped |
| Text.ParseIntStrips | config.py:40-48 | whitespace around the text never changes what `int()` reads |
| Text.ParseIntUnderscore | config.py:40-48 | `a_b` reads as the number `ab` for runs of digits `a` and `b` |
| Text.ParseIntRejects | config.py:40-48 | `int()` raises on `1__0`, `_1`, `1_`, `- 5`, the empty text and a lone space |
| Text.NumeralParses | config.py:40-48 | a numeral as `str()` writes one reads the same through `int()` |
| Text.NumeralRoundTrip | file_processor.py:28 | a numeral written by `str()` reads back as the integer written |
| Text.IntToStringRoundTrip | download_tracker.py:44 | `int(str(i)) == i`, with any whitespace around the numeral |
| Paths.ParsePath | config.py:29-38 | `Path(s)` is in normal form and absolute exactly when `s` starts with `/` |
| Paths.JoinPath | config.py:29-32 | `p / q`: an absolute right side replaces the left, otherwise the components are appended |
| Paths.Parent | file_processor.py:313 | `p.parent` keeps whether the path is absolute |
| Paths.Suffix | file_processor.py:293 | `p.suffix`: empty or a dot with no other dot, ending the name |
| Paths.Stem | file_processor.py:463 | `p.stem` followed by the suffix is the name |
| Paths.ParsePathToString | watcher.py:309 | `Path(str(p)) == p` |
| Paths.JoinComponent | file_processor.py:313 | a child's name is the component added, and its parent is where it was added |

## Left out

- HTTP: the HEAD, GET and POST calls, `iter_content`, `raise_for_status` and timeouts. Each reply is an input, namely `Transfer.Attempt` and the watcher's `Poll` and `LinkReply`.
- The `tenacity` retry decorator of the API client. Its behaviour belongs to a library the model does not see.
- The API requests other than the download-link parameters: creating torrents and usenet jobs, the list endpoints, and the request payloads and headers. A submit reply arrives as `SubmitData` or as `None` when the call raised.
- File-system effects: `open`, `write`, `stat`, `mkdir`, `unlink`, `os.remove`, `glob` and `is_file`. File sizes and the directory listing are inputs, and reading a `.magnet` file is folded into its submit reply.
- zipfile's own work. An archive is its member list, and the member whose extraction raises is an input.
- `_stats_update_thread` and the daemon threads. The thread deletes its registry key once the stats stop; the model leaves stopped entries in `active_downloads`, so the model says nothing about when the thread removes them.
- Time and floating point: speed, ETA, elapsed time, `print_stats`, `humanize` output and logging. The clock reading stored as `submitted_at` is a parameter.
- Progress percentages are modelled as real numbers, not as IEEE floats.
- A status item's `progress` and `download_state` are not modelled as values. The log line can raise on them, and the model keeps only that outcome, as a flag on the item.
- JSON values that are lists or objects in places where the code expects scalars. Identifier and match fields are scalars in this model.
- A download URL that is not a string.
- `web_server.py`, `main.py` and the `run` loop with its sleeps.
- Reading the environment at import time. The environment is a parameter of `Config.Load`.
- Processor.FileProcessor.DownloadFile: the `finally` clause sets `should_stop` on the statistics object it created directly, rather than looking it up through `active_downloads[download_id]`. The two agree because the key still maps to that object unless an extraction under the same key removed it, and in that case the object was already stopped at `file_processor.py:367`.
- Watcher.TorBoxWatcherApp.CheckDownloadStatus: a checked job is only shown to be `Checkable`, which is weaker than `Eligible`. A key that looks like an extraction key might have been removed from `active_downloads` by an earlier download in the same pass, and the contract allows for that.
- Watcher.TorBoxWatcherApp.CheckStatusCommon: the exception handler at `watcher.py:276-277` is modelled only for a failed status request, a non-dictionary list element and an unloggable item. Exceptions raised inside the download request are caught inside it.
- Text.ParseInt: decimal digits outside ASCII (Arabic-Indic digits, say), which `int()` also accepts, are not modelled; such a value makes `Config.Load` and `Processor.ContentLength` fail where the source reads a number.
- Stats.DownloadStats.Progress: assumes `total_size` is an integer. `None`, which the constructor allows, never occurs on the path `download_file` takes.

/** The job table: `DownloadTracker` keeps one record per tracked identifier,
    keyed by `str(identifier)`, in a dictionary that remembers insertion order. */
module Tracker {
  import opened Wrappers
  import opened PyValues
  import opened Paths

  /** One tracked job, as the source stores it in its dictionary. */
  datatype TrackingInfo = TrackingInfo(
    kind: string,
    name: string,
    submittedAt: string,
    originalFile: Option<string>,
    id: Scalar,
    hash: Scalar,
    downloadDir: Option<string>,
    failureCount: int)

  /** The record `track_download` stores for a new job: paths as strings, a zero
      failure count, and the clock reading `now` as the submission time. */
  function NewEntry(kind: string, fileStem: string, originalFile: Option<Path>, downloadId: Scalar,
                    downloadHash: Scalar, downloadDir: Option<Path>, now: string): (e: TrackingInfo)
    ensures e.failureCount == 0 && e.kind == kind && e.name == fileStem
    ensures e.id == downloadId && e.hash == downloadHash && e.submittedAt == now
    ensures e.originalFile.Some? <==> originalFile.Some?
    ensures e.downloadDir.Some? <==> downloadDir.Some?
  {
    TrackingInfo(kind, fileStem, now,
                 if originalFile.Some? then Some(PathToString(originalFile.value)) else None,
                 downloadId, downloadHash,
                 if downloadDir.Some? then Some(PathToString(downloadDir.value)) else None,
                 0)
  }

  /** The stored destination reads back, through `Path(...)`, as the directory given. */
  lemma StoredDirectoryRoundTrip(kind: string, fileStem: string, originalFile: Option<Path>, downloadId: Scalar,
                                 downloadHash: Scalar, dir: Path, now: string)
    requires WellFormed(dir)
    ensures var e := NewEntry(kind, fileStem, originalFile, downloadId, downloadHash, Some(dir), now);
            e.downloadDir.Some? && e.downloadDir.value != "" && ParsePath(e.downloadDir.value) == dir
  {
    ParsePathToString(dir);
  }

  predicate NoDuplicates(s: seq<string>)
  {
    forall i, j :: 0 <= i < j < |s| ==> s[i] != s[j]
  }

  /** `s` without the element `k`. */
  function Without(s: seq<string>, k: string): (r: seq<string>)
    ensures forall x :: x in r <==> x in s && x != k
    ensures NoDuplicates(s) ==> NoDuplicates(r)
    ensures k !in s ==> r == s
  {
    if s == [] then []
    else if s[0] == k then Without(s[1..], k)
    else
      var rest := Without(s[1..], k);
      assert NoDuplicates(s) ==> s[0] !in s[1..];
      [s[0]] + rest
  }

  /** `s` without the elements of `gone`, in the order of `s`. */
  function WithoutAll(s: seq<string>, gone: set<string>): (r: seq<string>)
    ensures forall x :: x in r <==> x in s && x !in gone
  {
    if s == [] then [] else (if s[0] in gone then [] else [s[0]]) + WithoutAll(s[1..], gone)
  }

  /** Removing the elements of `gone` and then `k` removes those of `gone + {k}`. */
  lemma {:induction false} WithoutAllThen(s: seq<string>, gone: set<string>, k: string)
    ensures Without(WithoutAll(s, gone), k) == WithoutAll(s, gone + {k})
  {
    if s != [] {
      WithoutAllThen(s[1..], gone, k);
      var rest := WithoutAll(s[1..], gone);
      var rest' := WithoutAll(s[1..], gone + {k});
      assert Without(rest, k) == rest';
      if s[0] in gone {
        assert WithoutAll(s, gone) == [] + rest == rest;
        assert WithoutAll(s, gone + {k}) == [] + rest' == rest';
      } else {
        var w := [s[0]] + rest;
        assert WithoutAll(s, gone) == w && w[0] == s[0] && w[1..] == rest;
        if s[0] == k {
          assert Without(w, k) == Without(rest, k);
          assert WithoutAll(s, gone + {k}) == [] + rest' == rest';
        } else {
          assert Without(w, k) == [s[0]] + Without(rest, k);
          assert WithoutAll(s, gone + {k}) == [s[0]] + rest';
        }
      }
    }
  }

  lemma {:induction false} WithoutNothing(s: seq<string>)
    ensures WithoutAll(s, {}) == s
  {
    if s != [] {
      WithoutNothing(s[1..]);
      assert [s[0]] + s[1..] == s;
    }
  }

  class DownloadTracker {
    /** `download_tracking`: identifier -> record. */
    var tracking: map<string, TrackingInfo>
    /** The dictionary's insertion order, which iteration over its keys follows. */
    var order: seq<string>

    ghost predicate Valid()
      reads this
    {
      NoDuplicates(order) && (forall k :: k in tracking <==> k in order)
    }

    constructor ()
      ensures Valid() && tracking == map[] && order == []
    {
      tracking := map[];
      order := [];
    }

    /** `track_download`: inserts a record under `str(identifier)` unless that
        key is already tracked; reports whether it inserted. */
    method TrackDownload(identifier: Scalar, kind: string, fileStem: string, originalFile: Option<Path>,
                         downloadId: Scalar, downloadHash: Scalar, downloadDir: Option<Path>, now: string)
      returns (tracked: bool)
      requires Valid()
      modifies this
      ensures Valid()
      ensures tracked <==> Str(identifier) !in old(tracking)
      ensures tracked ==> tracking == old(tracking)[Str(identifier) := NewEntry(kind, fileStem, originalFile, downloadId, downloadHash, downloadDir, now)]
                          && order == old(order) + [Str(identifier)]
      ensures !tracked ==> tracking == old(tracking) && order == old(order)
    {
      var key := Str(identifier);
      if key in tracking {
        return false;
      }
      tracking := tracking[key := NewEntry(kind, fileStem, originalFile, downloadId, downloadHash, downloadDir, now)];
      order := order + [key];
      return true;
    }

    /** `increment_failure_count`: the new count for a tracked job, `None` otherwise. */
    method IncrementFailureCount(identifier: Scalar) returns (count: Option<int>)
      requires Valid()
      modifies this
      ensures Valid() && order == old(order)
      ensures Str(identifier) in old(tracking) ==>
                count == Some(old(tracking)[Str(identifier)].failureCount + 1)
                && tracking == old(tracking)[Str(identifier) := old(tracking)[Str(identifier)].(failureCount := count.value)]
      ensures Str(identifier) !in old(tracking) ==> count == None && tracking == old(tracking)
    {
      var key := Str(identifier);
      if key in tracking {
        var info := tracking[key];
        tracking := tracking[key := info.(failureCount := info.failureCount + 1)];
        return Some(info.failureCount + 1);
      }
      return None;
    }

    /** `reset_failure_count`: zero the count of a tracked job; nothing otherwise. */
    method ResetFailureCount(identifier: Scalar)
      requires Valid()
      modifies this
      ensures Valid() && order == old(order)
      ensures Str(identifier) in old(tracking) ==>
                tracking == old(tracking)[Str(identifier) := old(tracking)[Str(identifier)].(failureCount := 0)]
      ensures Str(identifier) !in old(tracking) ==> tracking == old(tracking)
    {
      var key := Str(identifier);
      if key in tracking {
        tracking := tracking[key := tracking[key].(failureCount := 0)];
      }
    }

    /** `get_tracked_downloads`: the live table; its keys, in iteration order, are `order`. */
    function TrackedDownloads(): (m: map<string, TrackingInfo>)
      reads this
      requires Valid()
      ensures forall k :: k in m <==> k in order
      ensures forall k :: k in m ==> m[k] == tracking[k]
    {
      tracking
    }

    /** `remove_tracked_download`: deletes the key when present. The argument is
        not passed through `str()`, so only a string can match a key. */
    method RemoveTrackedDownload(key: Scalar)
      requires Valid()
      modifies this
      ensures Valid()
      ensures key.PyStr? ==> tracking == old(tracking) - {key.s} && order == Without(old(order), key.s)
      ensures !key.PyStr? ==> tracking == old(tracking) && order == old(order)
    {
      if key.PyStr? && key.s in tracking {
        tracking := tracking - {key.s};
        order := Without(order, key.s);
      } else if key.PyStr? {
        assert tracking - {key.s} == tracking;
      }
    }

    /** `get_download_info`: the record under `str(identifier)`, if any. */
    function GetDownloadInfo(identifier: Scalar): (r: Option<TrackingInfo>)
      reads this
      ensures r.Some? <==> Str(identifier) in tracking
      ensures r.Some? ==> r.value == tracking[Str(identifier)]
    {
      if Str(identifier) in tracking then Some(tracking[Str(identifier)]) else None
    }
  }

  /** Tracking the same identifier twice: the first call inserts, the second
      refuses and leaves the first record as it was. */
  method TrackTwice(identifier: Scalar, name: string, otherName: string, dir: Path, now: string)
    returns (first: bool, second: bool, info: Option<TrackingInfo>)
    ensures first && !second
    ensures info == Some(NewEntry("torrent", name, None, identifier, PyNone, Some(dir), now))
  {
    var t := new DownloadTracker();
    first := t.TrackDownload(identifier, "torrent", name, None, identifier, PyNone, Some(dir), now);
    second := t.TrackDownload(identifier, "usenet", otherName, None, PyNone, identifier, None, now);
    info := t.GetDownloadInfo(identifier);
  }

  /** Removing an identifier that is not there changes nothing, and neither
      does removing an integer whose decimal form is a key. */
  method RemoveIsIdempotent(identifier: string, now: string)
    returns (before: bool, afterFirst: bool, afterSecond: bool, afterInt: bool)
    ensures before && !afterFirst && !afterSecond
    ensures afterInt
  {
    var t := new DownloadTracker();
    var _ := t.TrackDownload(PyStr(identifier), "torrent", "n", None, PyNone, PyNone, None, now);
    before := t.GetDownloadInfo(PyStr(identifier)).Some?;
    t.RemoveTrackedDownload(PyStr(identifier));
    afterFirst := t.GetDownloadInfo(PyStr(identifier)).Some?;
    t.RemoveTrackedDownload(PyStr(identifier));
    afterSecond := t.GetDownloadInfo(PyStr(identifier)).Some?;
    var _ := t.TrackDownload(PyInt(42), "torrent", "n", None, PyNone, PyNone, None, now);
    assert Str(PyInt(42)) == "42" by {
      assert Text.NatToString(4) == "4";
      assert Text.DigitChar(2) == '2';
    }
    t.RemoveTrackedDownload(PyInt(42));
    afterInt := t.GetDownloadInfo(PyStr("42")).Some?;
  }
}

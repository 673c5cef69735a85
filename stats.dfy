/** Progress bookkeeping of the processor: the `MM:SS` formatter, the two
    statistics objects a transfer and an extraction update in place, and the
    shared `active_downloads` dictionary that maps a job key to its object. */
module Stats {
  import opened Wrappers
  import opened Text
  import opened Paths

  /** `int(x)` on a float: truncation toward zero. */
  function Truncate(x: real): (r: int)
    ensures x >= 0.0 ==> r >= 0 && r as real <= x < r as real + 1.0
    ensures x < 0.0 ==> r <= 0 && r as real - 1.0 < x <= r as real
  {
    if x >= 0.0 then x.Floor else -((-x).Floor)
  }

  /** `f"{n:02d}"`: at least two digits, zero-padded; a negative number is
      written with its sign and no padding beyond width two. */
  function Pad2(n: int): (r: string)
    ensures n >= 0 ==> |r| >= 2 && AllDigits(r) && DigitsValue(r) == n
    ensures n >= 10 ==> r == NatToString(n)
    ensures n < 0 ==> r == IntToString(n)
  {
    if n < 0 then IntToString(n)
    else if n < 10 then
      assert DigitsValue([DigitChar(n)]) == n;
      "0" + NatToString(n)
    else
      DigitsValueOfNatToString(n);
      NatToString(n)
  }

  /** `_format_time`: whole seconds as minutes and seconds, minutes uncapped.
      The text reads back as the truncated number of seconds, for negative
      inputs too (Python's floor division and modulo by 60). */
  function FormatTime(seconds: real): (r: string)
    ensures |r| >= 5 && r[|r| - 3] == ':'
    ensures var ss := r[|r| - 2..]; AllDigits(ss) && DigitsValue(ss) < 60
    ensures ReadTime(r) == Some(Truncate(seconds))
  {
    var s := Truncate(seconds);
    MinutesSeconds(s);
    Pad2(s / 60) + ":" + Pad2(s % 60)
  }

  /** The minutes and seconds of `s`, padded and joined, read back as `s`. */
  lemma MinutesSeconds(s: int)
    ensures var t := Pad2(s / 60) + ":" + Pad2(s % 60);
            && |t| >= 5 && t[|t| - 3] == ':'
            && AllDigits(t[|t| - 2..]) && DigitsValue(t[|t| - 2..]) < 60
            && ReadTime(t) == Some(s)
  {
    var mm := Pad2(s / 60);
    var ss := Pad2(s % 60);
    assert |ss| == 2 by {
      if s % 60 >= 10 { assert s % 60 < 100; NatToStringTwoDigits(s % 60); }
    }
    var t := mm + ":" + ss;
    assert t[|t| - 2..] == ss;
    Pad2Parses(s / 60);
    ReadTimeOf(mm, ss, s / 60);
  }

  lemma NatToStringTwoDigits(n: nat)
    requires 10 <= n < 100
    ensures |NatToString(n)| == 2
  {
  }

  /** Reads an `M:SS` reading back into seconds: the minutes are a numeral as
      `str()` writes one, the seconds exactly two digits below 60. */
  function ReadTime(t: string): (r: Option<int>)
  {
    var i := IndexOf(t, ':');
    if i == |t| then None
    else
      var mm := t[..i];
      var ss := t[i + 1..];
      if |ss| == 2 && AllDigits(ss) && DigitsValue(ss) < 60 then
        match ReadNumeral(mm)
        case Some(m) => Some(60 * m + DigitsValue(ss))
        case None => None
      else None
  }

  lemma Pad2Parses(n: int)
    ensures ':' !in Pad2(n)
    ensures ReadNumeral(Pad2(n)) == Some(n)
  {
    if n < 0 {
      NumeralRoundTrip(n);
      var r := IntToString(n);
      assert r[1..] == NatToString(-n);
      assert forall i :: 1 <= i < |r| ==> IsDigit(r[i]);
    }
  }

  /** A reading `mm:ss` is read back as its minutes and seconds. */
  lemma ReadTimeOf(mm: string, ss: string, m: int)
    requires ':' !in mm && ReadNumeral(mm) == Some(m)
    requires |ss| == 2 && AllDigits(ss) && DigitsValue(ss) < 60
    ensures ReadTime(mm + ":" + ss) == Some(60 * m + DigitsValue(ss))
  {
    var t := mm + ":" + ss;
    IndexOfAfter(mm, ':', ss);
    assert t[..|mm|] == mm && t[|mm| + 1..] == ss;
  }

  /** `DownloadStats`: the counters of one transfer. Timing fields, which only
      feed the speed and ETA readings, are not modelled. */
  class DownloadStats {
    var filename: string
    var totalSize: int
    var downloaded: int
    var shouldStop: bool
    var downloadComplete: bool

    constructor (filename: string, totalSize: int)
      ensures this.filename == filename && this.totalSize == totalSize
      ensures downloaded == 0 && !shouldStop && !downloadComplete
    {
      this.filename := filename;
      this.totalSize := totalSize;
      downloaded := 0;
      shouldStop := false;
      downloadComplete := false;
    }

    /** `update`: adds a chunk to the byte count. */
    method Update(chunkSize: int)
      modifies this
      ensures downloaded == old(downloaded) + chunkSize
      ensures filename == old(filename) && totalSize == old(totalSize)
      ensures shouldStop == old(shouldStop) && downloadComplete == old(downloadComplete)
    {
      downloaded := downloaded + chunkSize;
    }

    /** `get_progress`: a percentage, or `None` when the total size is 0. */
    function Progress(): (r: Option<real>)
      reads this
      ensures r.None? <==> totalSize == 0
      ensures r.Some? ==> r.value * totalSize as real == downloaded as real * 100.0
      ensures r.Some? && 0 <= downloaded <= totalSize ==> 0.0 <= r.value <= 100.0
      ensures r.Some? && downloaded == totalSize ==> r.value == 100.0
    {
      if totalSize != 0 then Some(Percent(downloaded, totalSize)) else None
    }
  }

  /** `part / whole * 100` as a real number. */
  function Percent(part: int, whole: int): (r: real)
    requires whole != 0
    ensures r * whole as real == part as real * 100.0
    ensures 0 <= part <= whole ==> 0.0 <= r <= 100.0
    ensures part == whole ==> r == 100.0
  {
    PercentBounds(part, whole);
    part as real / whole as real * 100.0
  }

  lemma PercentBounds(part: int, whole: int)
    requires whole != 0
    ensures var r := part as real / whole as real * 100.0;
            && r * whole as real == part as real * 100.0
            && (0 <= part <= whole ==> 0.0 <= r <= 100.0)
  {
    var q := part as real / whole as real;
    assert q * whole as real == part as real;
    if 0 <= part <= whole {
      assert whole as real > 0.0;
      assert q <= 1.0;
    }
  }

  /** `ExtractStats`: the counters of one archive extraction. */
  class ExtractStats {
    var zipPath: Path
    var totalFiles: int
    var totalSize: int
    var extractedFiles: int
    var extractedSize: int
    var shouldStop: bool

    constructor (zipPath: Path, totalFiles: int, totalSize: int)
      ensures this.zipPath == zipPath && this.totalFiles == totalFiles && this.totalSize == totalSize
      ensures extractedFiles == 0 && extractedSize == 0 && !shouldStop
    {
      this.zipPath := zipPath;
      this.totalFiles := totalFiles;
      this.totalSize := totalSize;
      extractedFiles := 0;
      extractedSize := 0;
      shouldStop := false;
    }

    /** `update`: one more file, of `fileSize` bytes. */
    method Update(fileSize: int)
      modifies this
      ensures extractedFiles == old(extractedFiles) + 1
      ensures extractedSize == old(extractedSize) + fileSize
      ensures zipPath == old(zipPath) && totalFiles == old(totalFiles) && totalSize == old(totalSize)
      ensures shouldStop == old(shouldStop)
    {
      extractedFiles := extractedFiles + 1;
      extractedSize := extractedSize + fileSize;
    }

    /** `get_progress`: by file count when the count is non-zero, else by size
        when that is non-zero, else `None`. */
    function Progress(): (r: Option<real>)
      reads this
      ensures r.None? <==> totalFiles == 0 && totalSize == 0
      ensures totalFiles != 0 ==> r.Some? && r.value * totalFiles as real == extractedFiles as real * 100.0
      ensures totalFiles == 0 && totalSize != 0 ==> r.Some? && r.value * totalSize as real == extractedSize as real * 100.0
      ensures r.Some? && totalFiles != 0 && extractedFiles == totalFiles ==> r.value == 100.0
    {
      if totalFiles != 0 then Some(Percent(extractedFiles, totalFiles))
      else if totalSize != 0 then Some(Percent(extractedSize, totalSize))
      else None
    }
  }

  datatype Counters =
    | DownloadCounters(filename: string, totalSize: int, downloaded: int, complete: bool)
    | ExtractCounters(zipPath: Path, totalFiles: int, totalSize: int, extractedFiles: int, extractedSize: int)

  /** A value of the `active_downloads` dictionary: a reference to the
      statistics object of a transfer or of an extraction. */
  datatype Session = Download(d: DownloadStats) | Extract(x: ExtractStats)
  {
    function Obj(): object
    {
      if Download? then d else x
    }

    /** Every field of the object except `should_stop`. */
    function Counters(): Counters
      reads Obj()
    {
      match this
      case Download(d) => DownloadCounters(d.filename, d.totalSize, d.downloaded, d.downloadComplete)
      case Extract(x) => ExtractCounters(x.zipPath, x.totalFiles, x.totalSize, x.extractedFiles, x.extractedSize)
    }

    /** The object's `should_stop` flag. */
    predicate Stopped()
      reads Obj()
    {
      if Download? then d.shouldStop else x.shouldStop
    }
  }

  /** A statistics object is never the dictionary that holds it. */
  lemma NotRegistry(t: Session, r: SessionRegistry)
    ensures t.Obj() != r
  {
    match t
    case Download(d) =>
    case Extract(x) =>
  }

  /** The statistics objects a dictionary value refers to. */
  ghost function ObjectsOf(m: map<string, Session>): set<object>
  {
    set k | k in m :: m[k].Obj()
  }

  /** The statistics objects registered under one of `keys`. */
  ghost function ObjectsUnder(m: map<string, Session>, keys: set<string>): set<object>
  {
    set k | k in m && k in keys :: m[k].Obj()
  }

  /** The statistics object registered under `key`, if any. */
  ghost function ObjectAt(m: map<string, Session>, key: string): set<object>
  {
    if key in m then {m[key].Obj()} else {}
  }

  /** Registering a session and deleting keys adds at most that session's object. */
  lemma ObjectsOfUpdate(m: map<string, Session>, key: string, s: Session, gone: set<string>)
    ensures ObjectsOf(m[key := s] - gone) <= ObjectsOf(m) + {s.Obj()}
  {
    var n := m[key := s] - gone;
    forall o | o in ObjectsOf(n)
      ensures o in ObjectsOf(m) + {s.Obj()}
    {
      var k :| k in n && n[k].Obj() == o;
      if k != key {
        assert k in m && m[k] == n[k];
      }
    }
  }

  /** `active_downloads`: job key -> statistics object, shared by the
      processor and the watcher. */
  class SessionRegistry {
    var sessions: map<string, Session>

    /** The statistics objects the dictionary refers to. */
    ghost function Objects(): set<object>
      reads this
    {
      ObjectsOf(sessions)
    }

    constructor ()
      ensures sessions == map[]
    {
      sessions := map[];
    }

    /** `active_downloads[key] = stats`. */
    method Register(key: string, s: Session)
      modifies this
      ensures sessions == old(sessions)[key := s]
      ensures forall t: Session {:trigger t.Counters()} :: old(allocated(t)) ==> t.Counters() == old(t.Counters())
      ensures forall t: Session {:trigger t.Stopped()} :: old(allocated(t)) ==>
                (old(t.Stopped()) ==> t.Stopped()) && (t.Obj() !in {} ==> t.Stopped() == old(t.Stopped()))
    {
      sessions := sessions[key := s];
    }

    /** `if key in active_downloads: active_downloads[key].should_stop = True`. */
    method StopIfPresent(key: string)
      modifies if key in sessions then {sessions[key].Obj()} else {}
      ensures key in sessions ==> sessions[key].Stopped()
      ensures key in sessions ==> sessions[key].Counters() == old(sessions[key].Counters())
      ensures forall t: Session {:trigger t.Counters()} :: old(allocated(t)) ==> t.Counters() == old(t.Counters())
      ensures forall t: Session {:trigger t.Stopped()} :: old(allocated(t)) ==>
                (old(t.Stopped()) ==> t.Stopped()) && (t.Obj() !in old(ObjectAt(sessions, key)) ==> t.Stopped() == old(t.Stopped()))
    {
      if key in sessions {
        var s := sessions[key];
        if s.Download? {
          s.d.shouldStop := true;
        } else {
          s.x.shouldStop := true;
        }
      }
    }

    /** `if key in active_downloads: del active_downloads[key]`. */
    method RemoveIfPresent(key: string)
      modifies this
      ensures sessions == old(sessions) - {key}
      ensures forall t: Session {:trigger t.Counters()} :: old(allocated(t)) ==> t.Counters() == old(t.Counters())
      ensures forall t: Session {:trigger t.Stopped()} :: old(allocated(t)) ==>
                (old(t.Stopped()) ==> t.Stopped()) && (t.Obj() !in {} ==> t.Stopped() == old(t.Stopped()))
    {
      sessions := sessions - {key};
    }
  }

  /** Since the previous state, every key of `active_downloads` holds the
      session it held then, or a new statistics object. */
  twostate predicate OldOrFresh(r: SessionRegistry)
    reads r
  {
    forall k :: k in r.sessions ==> (k in old(r.sessions) && r.sessions[k] == old(r.sessions)[k]) || fresh(r.sessions[k].Obj())
  }

  /** The active sessions after some jobs were started: new keys are only
      those of `started`, every other key keeps its session, and only
      extraction-like keys can go. */
  predicate SessionsAfter(before: map<string, Session>, after: map<string, Session>, started: set<string>)
  {
    && (forall k :: k in after && k !in started ==> k in before && after[k] == before[k])
    && (forall k :: k in before && !StartsWith(k, "extract_") ==> k in after)
  }

  /** Registering a key and then deleting it leaves the rest of the dictionary as it was. */
  lemma RegisterThenRemove(m: map<string, Session>, key: string, s: Session)
    ensures m[key := s] - {key} == m - {key}
  {
    var a, b := m[key := s] - {key}, m - {key};
    assert forall k :: k in a <==> k in b;
    assert forall k :: k in a ==> a[k] == b[k];
  }
}

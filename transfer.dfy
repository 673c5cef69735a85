/** The resumable transfer of `download_file`, as a function of what the world
    answers. Each GET attempt is described by an `Attempt` value: the status
    and body chunks of the response and how the stream ended, or the error
    raised before any response. The file on disk is its size, `None` when the
    file does not exist; nothing but the transfer writes it. */
module Transfer {
  import opened Wrappers

  /** `max_retries`. */
  const MaxRetries := 10

  /** `min(30, 5 * retry_count)`: the pause before the next attempt. */
  function Backoff(retry: nat): (t: nat)
    ensures t <= 30
    ensures retry <= 6 ==> t == 5 * retry
    ensures retry >= 6 ==> t == 30
  {
    if 5 * retry < 30 then 5 * retry else 30
  }

  /** What an exception means to the retry loop: `ConnectionError`,
      `ChunkedEncodingError` and `Timeout` are retried; any other
      `RequestException` (such as the `HTTPError` of `raise_for_status`)
      ends the transfer as a request failure; anything else as an
      unexpected failure. */
  datatype ErrorKind = Transient | RequestError | Unexpected

  datatype StreamEnd = Complete | Interrupted(error: ErrorKind)

  datatype Attempt =
    | Response(status: int, chunks: seq<nat>, end: StreamEnd)
    | NoResponse(error: ErrorKind)

  /** `"wb"` and `"ab"`. */
  datatype Mode = Truncate | Append

  /** What the transfer does to the outside world, in order. */
  datatype Event = Get(range: Option<nat>) | Open(mode: Mode) | Write(size: nat) | Sleep(seconds: nat)

  datatype Outcome = Completed | RequestFailed | UnexpectedFailed

  /** The size of the file, 0 when it does not exist. */
  function SizeOf(file: Option<nat>): nat
  {
    if file.Some? then file.value else 0
  }

  /** The byte counter agrees with the file on disk. */
  predicate InSync(downloaded: nat, file: Option<nat>)
  {
    downloaded == SizeOf(file)
  }

  /** The `Range` header: `bytes=N-` when some bytes are already there. */
  function RangeFor(downloaded: nat): (r: Option<nat>)
    ensures r.Some? ==> r.value == downloaded > 0
    ensures r.None? <==> downloaded == 0
  {
    if downloaded > 0 then Some(downloaded) else None
  }

  /** `raise_for_status()` for a status the loop does not accept: it raises
      only for a client or server error. */
  predicate Rejected(status: int)
  {
    status != 200 && status != 206 && 400 <= status < 600
  }

  /** The bytes of a list of chunks. */
  function Sum(chunks: seq<nat>): nat
  {
    if chunks == [] then 0 else Sum(chunks[..|chunks| - 1]) + chunks[|chunks| - 1]
  }

  /** The writes of `for chunk in ...: if chunk: f.write(chunk)`: empty chunks are skipped. */
  function WriteEvents(chunks: seq<nat>): (r: seq<Event>)
    ensures forall i :: 0 <= i < |r| ==> r[i].Write? && r[i].size > 0
    ensures |r| <= |chunks|
  {
    if chunks == [] then []
    else
      var last := chunks[|chunks| - 1];
      WriteEvents(chunks[..|chunks| - 1]) + (if last > 0 then [Write(last)] else [])
  }

  datatype StepKind = Done | Retry | Fail(outcome: Outcome)

  /** The result of one pass of the retry loop's body. */
  datatype Step = Step(kind: StepKind, downloaded: nat, file: Option<nat>, events: seq<Event>)

  function KindOf(e: ErrorKind): StepKind
  {
    match e
    case Transient => Retry
    case RequestError => Fail(RequestFailed)
    case Unexpected => Fail(UnexpectedFailed)
  }

  /** A 200 reply to a request that asked for a range: the server ignored the
      range, so the transfer starts again from the first byte. */
  predicate Restarts(downloaded: nat, status: int)
  {
    downloaded > 0 && status == 200
  }

  /** The mode the file is opened in. */
  function ModeFor(downloaded: nat, status: int): Mode
  {
    if Restarts(downloaded, status) || downloaded == 0 then Truncate else Append
  }

  /** One attempt from the byte counter `downloaded` and the file `file`. */
  function StepFrom(downloaded: nat, file: Option<nat>, a: Attempt): (st: Step)
    ensures |st.events| >= 1 && st.events[0] == Get(RangeFor(downloaded))
  {
    var get := [Get(RangeFor(downloaded))];
    match a
    case NoResponse(e) => Step(KindOf(e), downloaded, file, get)
    case Response(status, chunks, end) =>
      if Rejected(status) then Step(Fail(RequestFailed), downloaded, file, get)
      else
        var mode := ModeFor(downloaded, status);
        var start := if Restarts(downloaded, status) then 0 else downloaded;
        var base := if mode == Truncate then 0 else SizeOf(file);
        var kind := if end.Complete? then Done else KindOf(end.error);
        Step(kind, start + Sum(chunks), Some(base + Sum(chunks)), get + [Open(mode)] + WriteEvents(chunks))
  }

  /** The whole retry loop from pass `retries` on. */
  datatype Run = Run(outcome: Outcome, downloaded: nat, file: Option<nat>, trace: seq<Event>, retries: nat)

  /** The loop `while retry_count < max_retries`, entered with `retries`
      transient failures behind it; `attempts[i]` is what the world answers to
      the request of pass `i`. After a transient failure the counter is
      re-read from the file, when it exists, after the pause. */
  function RunFrom(downloaded: nat, file: Option<nat>, retries: nat, attempts: seq<Attempt>): (r: Run)
    requires retries < MaxRetries <= |attempts|
    ensures retries <= r.retries <= MaxRetries
    ensures r.retries == MaxRetries ==> r.outcome == RequestFailed
    decreases MaxRetries - retries
  {
    var st := StepFrom(downloaded, file, attempts[retries]);
    match st.kind
    case Done => Run(Completed, st.downloaded, st.file, st.events, retries)
    case Fail(o) => Run(o, st.downloaded, st.file, st.events, retries)
    case Retry =>
      if retries + 1 < MaxRetries then
        var d := if st.file.Some? then st.file.value else st.downloaded;
        var rest := RunFrom(d, st.file, retries + 1, attempts);
        Run(rest.outcome, rest.downloaded, rest.file, st.events + [Sleep(Backoff(retries + 1))] + rest.trace, rest.retries)
      else Run(RequestFailed, st.downloaded, st.file, st.events, retries + 1)
  }

  /** A run with `prefix` in front of its trace. */
  function Prepend(prefix: seq<Event>, r: Run): Run
  {
    r.(trace := prefix + r.trace)
  }

  lemma PrependTwice(a: seq<Event>, b: seq<Event>, r: Run)
    ensures Prepend(a, Prepend(b, r)) == Prepend(a + b, r)
  {
    assert a + (b + r.trace) == (a + b) + r.trace;
  }

  /** One pass of the loop, then the rest of the run. */
  lemma RunUnfold(downloaded: nat, file: Option<nat>, retries: nat, attempts: seq<Attempt>, st: Step)
    requires retries < MaxRetries <= |attempts|
    requires st == StepFrom(downloaded, file, attempts[retries])
    ensures var r := RunFrom(downloaded, file, retries, attempts);
            && (st.kind == Done ==> r == Run(Completed, st.downloaded, st.file, st.events, retries))
            && (st.kind.Fail? ==> r == Run(st.kind.outcome, st.downloaded, st.file, st.events, retries))
            && (st.kind == Retry && retries + 1 == MaxRetries ==>
                  r == Run(RequestFailed, st.downloaded, st.file, st.events, retries + 1))
            && (st.kind == Retry && retries + 1 < MaxRetries ==>
                  r == Prepend(st.events + [Sleep(Backoff(retries + 1))],
                               RunFrom(if st.file.Some? then st.file.value else st.downloaded, st.file, retries + 1, attempts)))
  {
  }

  /** The step of the retry loop where a retryable error is followed by a pause
      and the next attempt: the run so far plus the rest is still the whole run. */
  lemma RetryThenContinue(goal: Run, trace: seq<Event>, downloaded: nat, file: Option<nat>, retries: nat,
                          attempts: seq<Attempt>, st: Step)
    requires retries + 1 < MaxRetries <= |attempts|
    requires st == StepFrom(downloaded, file, attempts[retries]) && st.kind == Retry
    requires goal == Prepend(trace, RunFrom(downloaded, file, retries, attempts))
    ensures goal == Prepend(trace + (st.events + [Sleep(Backoff(retries + 1))]),
                            RunFrom(if st.file.Some? then st.file.value else st.downloaded, st.file, retries + 1, attempts))
  {
    RunUnfold(downloaded, file, retries, attempts, st);
    PrependTwice(trace, st.events + [Sleep(Backoff(retries + 1))],
                 RunFrom(if st.file.Some? then st.file.value else st.downloaded, st.file, retries + 1, attempts));
  }

  /** The step of the retry loop that leaves it: the whole run ends here. */
  lemma StopHere(goal: Run, trace: seq<Event>, downloaded: nat, file: Option<nat>, retries: nat,
                 attempts: seq<Attempt>, st: Step)
    requires retries < MaxRetries <= |attempts|
    requires st == StepFrom(downloaded, file, attempts[retries])
    requires goal == Prepend(trace, RunFrom(downloaded, file, retries, attempts))
    ensures st.kind == Done ==> goal == Run(Completed, st.downloaded, st.file, trace + st.events, retries)
    ensures st.kind.Fail? ==> goal == Run(st.kind.outcome, st.downloaded, st.file, trace + st.events, retries)
    ensures st.kind == Retry && retries + 1 == MaxRetries ==>
              goal == Run(RequestFailed, st.downloaded, st.file, trace + st.events, retries + 1)
  {
    RunUnfold(downloaded, file, retries, attempts, st);
  }

  function CountGets(trace: seq<Event>): nat
  {
    if trace == [] then 0 else (if trace[0].Get? then 1 else 0) + CountGets(trace[1..])
  }

  /** The pauses of a trace, in order. */
  function Sleeps(trace: seq<Event>): seq<nat>
  {
    if trace == [] then [] else (if trace[0].Sleep? then [trace[0].seconds] else []) + Sleeps(trace[1..])
  }

  /** `Backoff(from), Backoff(from + 1), ...`, `n` of them. */
  function Schedule(from: nat, n: nat): seq<nat>
    decreases n
  {
    if n == 0 then [] else [Backoff(from)] + Schedule(from + 1, n - 1)
  }

  lemma {:induction false} CountGetsAppend(a: seq<Event>, b: seq<Event>)
    ensures CountGets(a + b) == CountGets(a) + CountGets(b)
  {
    if a == [] {
      assert a + b == b;
    } else {
      var c := a + b;
      assert c[0] == a[0] && c[1..] == a[1..] + b;
      CountGetsAppend(a[1..], b);
      assert CountGets(c) == (if a[0].Get? then 1 else 0) + CountGets(c[1..]);
      assert CountGets(a) == (if a[0].Get? then 1 else 0) + CountGets(a[1..]);
    }
  }

  lemma {:induction false} SleepsAppend(a: seq<Event>, b: seq<Event>)
    ensures Sleeps(a + b) == Sleeps(a) + Sleeps(b)
  {
    if a == [] {
      assert a + b == b;
    } else {
      var c := a + b;
      assert c[0] == a[0] && c[1..] == a[1..] + b;
      SleepsAppend(a[1..], b);
      assert Sleeps(c) == (if a[0].Sleep? then [a[0].seconds] else []) + Sleeps(c[1..]);
      assert Sleeps(a) == (if a[0].Sleep? then [a[0].seconds] else []) + Sleeps(a[1..]);
    }
  }

  lemma {:induction false} OnlyWrites(ws: seq<Event>)
    requires forall i :: 0 <= i < |ws| ==> ws[i].Write?
    ensures CountGets(ws) == 0 && Sleeps(ws) == []
  {
    if ws != [] {
      OnlyWrites(ws[1..]);
    }
  }

  /** One pass issues exactly one request and no pause. */
  lemma StepCounts(downloaded: nat, file: Option<nat>, a: Attempt)
    ensures CountGets(StepFrom(downloaded, file, a).events) == 1
    ensures Sleeps(StepFrom(downloaded, file, a).events) == []
  {
    var st := StepFrom(downloaded, file, a);
    var get := [Get(RangeFor(downloaded))];
    if st.events != get {
      var ws := st.events[2..];
      assert st.events == get + [st.events[1]] + ws;
      OnlyWrites(ws);
      CountGetsAppend(get + [st.events[1]], ws);
      SleepsAppend(get + [st.events[1]], ws);
      CountGetsAppend(get, [st.events[1]]);
      SleepsAppend(get, [st.events[1]]);
    }
  }

  /** A trace of a run from pass `retries` that ended after `endRetries`
      failures: one request per pass made, and the back-off schedule from
      `retry_count = retries + 1` on between them. */
  predicate CountsFit(trace: seq<Event>, retries: nat, endRetries: nat)
  {
    var n := CountGets(trace);
    && 1 <= n <= MaxRetries - retries
    && n == (if endRetries == MaxRetries then MaxRetries - retries else endRetries - retries + 1)
    && Sleeps(trace) == Schedule(retries + 1, n - 1)
  }

  /** Every pass stops at `max_retries` requests: a run from pass `retries`
      issues one request per pass it makes, and the pauses between them are
      the back-off schedule from `retry_count = retries + 1` on. */
  lemma {:induction false} RunCounts(downloaded: nat, file: Option<nat>, retries: nat, attempts: seq<Attempt>)
    requires retries < MaxRetries <= |attempts|
    ensures var r := RunFrom(downloaded, file, retries, attempts); CountsFit(r.trace, retries, r.retries)
    decreases MaxRetries - retries
  {
    var r := RunFrom(downloaded, file, retries, attempts);
    var st := StepFrom(downloaded, file, attempts[retries]);
    StepCounts(downloaded, file, attempts[retries]);
    RunUnfold(downloaded, file, retries, attempts, st);
    if st.kind == Retry && retries + 1 < MaxRetries {
      var d := if st.file.Some? then st.file.value else st.downloaded;
      var rest := RunFrom(d, st.file, retries + 1, attempts);
      assert r.trace == st.events + [Sleep(Backoff(retries + 1))] + rest.trace && r.retries == rest.retries;
      RunCounts(d, st.file, retries + 1, attempts);
      RetryCounts(st.events, retries, rest.trace, rest.retries);
    } else {
      assert r.trace == st.events;
      LastPassCounts(st.events, retries, r.retries);
    }
  }

  /** The counting step of `RunCounts` for the pass that ends the run. */
  lemma LastPassCounts(events: seq<Event>, retries: nat, endRetries: nat)
    requires retries < MaxRetries
    requires CountGets(events) == 1 && Sleeps(events) == []
    requires endRetries == retries || (endRetries == MaxRetries && retries + 1 == MaxRetries)
    ensures CountsFit(events, retries, endRetries)
  {
    assert Schedule(retries + 1, 0) == [];
  }

  /** The counting step of `RunCounts` for a pass that is retried. */
  lemma RetryCounts(events: seq<Event>, retries: nat, rest: seq<Event>, restRetries: nat)
    requires CountGets(events) == 1 && Sleeps(events) == []
    requires CountsFit(rest, retries + 1, restRetries)
    ensures CountsFit(events + [Sleep(Backoff(retries + 1))] + rest, retries, restRetries)
  {
    var t := events + [Sleep(Backoff(retries + 1))] + rest;
    var n := CountGets(rest);
    PauseBetween(events, Backoff(retries + 1), rest);
    assert CountGets(t) == n + 1;
    assert Sleeps(t) == [Backoff(retries + 1)] + Sleeps(rest);
    assert Schedule(retries + 1, n) == [Backoff(retries + 1)] + Schedule(retries + 2, n - 1);
  }

  lemma PauseBetween(before: seq<Event>, t: nat, after: seq<Event>)
    ensures CountGets(before + [Sleep(t)] + after) == CountGets(before) + CountGets(after)
    ensures Sleeps(before + [Sleep(t)] + after) == Sleeps(before) + [t] + Sleeps(after)
  {
    var pause := [Sleep(t)];
    CountGetsAppend(before + pause, after);
    CountGetsAppend(before, pause);
    SleepsAppend(before + pause, after);
    SleepsAppend(before, pause);
    assert CountGets(pause) == 0 && Sleeps(pause) == [t];
  }

  /** The back-off schedule never waits more than 30 seconds and never shortens. */
  lemma {:induction false} ScheduleBounded(from: nat, n: nat)
    ensures |Schedule(from, n)| == n
    ensures forall i :: 0 <= i < n ==> Schedule(from, n)[i] == Backoff(from + i) <= 30
    ensures forall i, j :: 0 <= i <= j < n ==> Schedule(from, n)[i] <= Schedule(from, n)[j]
    decreases n
  {
    if n > 0 {
      ScheduleBounded(from + 1, n - 1);
      assert forall i :: 0 < i < n ==> Schedule(from, n)[i] == Schedule(from + 1, n - 1)[i - 1];
    }
  }

  /** The pauses of a run that fails every time: 5, 10, ..., 30, then 30. */
  lemma FullSchedule()
    ensures Schedule(1, MaxRetries - 1) == [5, 10, 15, 20, 25, 30, 30, 30, 30]
  {
    ScheduleBounded(1, MaxRetries - 1);
  }

  /** The byte counter and the file stay in agreement through one pass. */
  lemma StepInSync(downloaded: nat, file: Option<nat>, a: Attempt)
    requires InSync(downloaded, file)
    ensures var st := StepFrom(downloaded, file, a); InSync(st.downloaded, st.file)
  {
  }

  /** The byte counter and the file stay in agreement through the whole loop,
      so the range header always asks for exactly the bytes after those on
      disk, and a completed transfer leaves a file of `downloaded` bytes. */
  lemma {:induction false} RunInSync(downloaded: nat, file: Option<nat>, retries: nat, attempts: seq<Attempt>)
    requires retries < MaxRetries <= |attempts|
    requires InSync(downloaded, file)
    ensures var r := RunFrom(downloaded, file, retries, attempts); InSync(r.downloaded, r.file)
    decreases MaxRetries - retries
  {
    var r := RunFrom(downloaded, file, retries, attempts);
    var st := StepFrom(downloaded, file, attempts[retries]);
    StepInSync(downloaded, file, attempts[retries]);
    RunUnfold(downloaded, file, retries, attempts, st);
    if st.kind == Retry && retries + 1 < MaxRetries {
      var d := if st.file.Some? then st.file.value else st.downloaded;
      var rest := RunFrom(d, st.file, retries + 1, attempts);
      assert r.downloaded == rest.downloaded && r.file == rest.file;
      RunInSync(d, st.file, retries + 1, attempts);
    } else {
      assert r.downloaded == st.downloaded && r.file == st.file;
    }
  }

  /** The request of a pass asks for the bytes after those on disk, and for
      the whole file when there are none. */
  lemma RequestFromDisk(downloaded: nat, file: Option<nat>, a: Attempt)
    requires InSync(downloaded, file)
    ensures StepFrom(downloaded, file, a).events[0] ==
            Get(if file.Some? && file.value > 0 then Some(file.value) else None)
  {
  }

  /** A run whose every attempt ends in a transient error gives up after ten
      requests, as a request failure. */
  lemma {:induction false} AllTransientFails(downloaded: nat, file: Option<nat>, retries: nat, attempts: seq<Attempt>)
    requires retries < MaxRetries <= |attempts|
    requires forall i :: retries <= i < MaxRetries ==> attempts[i] == NoResponse(Transient)
    requires InSync(downloaded, file)
    ensures var r := RunFrom(downloaded, file, retries, attempts);
            r.outcome == RequestFailed && r.retries == MaxRetries && r.downloaded == downloaded && r.file == file
    decreases MaxRetries - retries
  {
    if retries + 1 < MaxRetries {
      var d := if file.Some? then file.value else downloaded;
      AllTransientFails(d, file, retries + 1, attempts);
    }
  }

  /** A 206 reply to a resumed request appends to the file. */
  lemma ResumeAppends(downloaded: nat, file: Option<nat>, chunks: seq<nat>, attempts: seq<Attempt>)
    requires MaxRetries <= |attempts|
    requires InSync(downloaded, file) && downloaded > 0
    requires attempts[0] == Response(206, chunks, Complete)
    ensures var r := RunFrom(downloaded, file, 0, attempts);
            && r.outcome == Completed
            && r.trace[..2] == [Get(Some(downloaded)), Open(Append)]
            && r.downloaded == downloaded + Sum(chunks)
            && r.file == Some(downloaded + Sum(chunks))
  {
  }

  /** A 200 reply to a resumed request truncates the file and starts over. */
  lemma FullReplyRestarts(downloaded: nat, file: Option<nat>, chunks: seq<nat>, attempts: seq<Attempt>)
    requires MaxRetries <= |attempts|
    requires downloaded > 0
    requires attempts[0] == Response(200, chunks, Complete)
    ensures var r := RunFrom(downloaded, file, 0, attempts);
            && r.outcome == Completed
            && r.trace[..2] == [Get(Some(downloaded)), Open(Truncate)]
            && r.downloaded == Sum(chunks)
            && r.file == Some(Sum(chunks))
  {
  }

  /** A transfer that starts from the file found on disk first asks for the
      bytes after those already there, and when it completes, the file holds
      exactly the bytes counted. */
  lemma FromDisk(existing: Option<nat>, attempts: seq<Attempt>)
    requires MaxRetries <= |attempts|
    ensures var r := RunFrom(SizeOf(existing), existing, 0, attempts);
            && r.trace[0] == Get(if existing.Some? && existing.value > 0 then Some(existing.value) else None)
            && (r.outcome == Completed ==> r.file == Some(r.downloaded))
  {
    var r := RunFrom(SizeOf(existing), existing, 0, attempts);
    RunInSync(SizeOf(existing), existing, 0, attempts);
    RunStartsWithRequest(SizeOf(existing), existing, 0, attempts);
    if r.outcome == Completed {
      RunCompletedWrites(SizeOf(existing), existing, 0, attempts);
    }
  }

  lemma RunStartsWithRequest(downloaded: nat, file: Option<nat>, retries: nat, attempts: seq<Attempt>)
    requires retries < MaxRetries <= |attempts|
    ensures var r := RunFrom(downloaded, file, retries, attempts);
            |r.trace| >= 1 && r.trace[0] == Get(RangeFor(downloaded))
  {
  }

  /** A completed run ends with the file open, so the file exists. */
  lemma {:induction false} RunCompletedWrites(downloaded: nat, file: Option<nat>, retries: nat, attempts: seq<Attempt>)
    requires retries < MaxRetries <= |attempts|
    ensures var r := RunFrom(downloaded, file, retries, attempts); r.outcome == Completed ==> r.file.Some?
    decreases MaxRetries - retries
  {
    var st := StepFrom(downloaded, file, attempts[retries]);
    RunUnfold(downloaded, file, retries, attempts, st);
    if st.kind == Retry && retries + 1 < MaxRetries {
      var d := if st.file.Some? then st.file.value else st.downloaded;
      RunCompletedWrites(d, st.file, retries + 1, attempts);
    }
  }
}

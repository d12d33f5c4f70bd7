/** The relay's shared state and the background worker that keeps it current.

    The server object holds the set of segment numbers it advertises; the worker
    restarts the transcoder until `MaxRetries` attempts have failed, and at each
    poll of a running transcoder replaces that set with the numbers read from the
    segment directory. After every attempt the directory is cleaned.

    The transcoder and the page scrape are not modelled: an attempt is given as an
    outcome, either a failure before any poll, or a run whose polls each see the
    directory as the transcoder has left it. */
module Relay {
  import opened Wrappers
  import opened Text
  import opened Naming
  import opened Http

  const MaxRetries: nat := 3

  /** The temporary directory: file name to contents. */
  type Dir = map<string, seq<byte>>

  /** The name filter of `cleanup`. */
  predicate Removable(name: string)
  {
    StartsWith(name, "segment") || EndsWith(name, ".m3u8")
  }

  /** The directory after `cleanup`: every removable file gone, every other file kept
      with its contents, nothing added. */
  function Cleaned(dir: Dir): (d: Dir)
    ensures forall f :: f in d ==> f in dir && !Removable(f) && d[f] == dir[f]
    ensures forall f :: f in dir && !Removable(f) ==> f in d
  {
    map f | f in dir && !Removable(f) :: dir[f]
  }

  /** Cleaning twice is cleaning once. */
  lemma CleanedIdempotent(dir: Dir)
    ensures Cleaned(Cleaned(dir)) == Cleaned(dir)
  {
  }

  lemma CleanedExactly(before: Dir, after: Dir)
    requires forall f :: f in after <==> f in before && !Removable(f)
    requires forall f :: f in after ==> after[f] == before[f]
    ensures after == Cleaned(before)
  {
  }

  /** Partway through the cleanup loop: the files of `before` not removed so far, among the
      names already visited, are there with their contents, and nothing else is. */
  ghost predicate Swept(before: Dir, dir: Dir, done: seq<string>)
  {
    && (forall f :: f in dir <==> f in before && !(Removable(f) && f in done))
    && (forall f :: f in dir ==> dir[f] == before[f])
  }

  /** One turn of the cleanup loop extends the visited names by one. */
  lemma RemoveStep(before: Dir, dir: Dir, done: seq<string>, name: string, next: Dir)
    requires Swept(before, dir, done)
    requires next == if Removable(name) then dir - {name} else dir
    ensures Swept(before, next, done + [name])
  {
  }

  /** Once every name of `before` has been visited, the directory is `before` cleaned. */
  lemma SweptAll(before: Dir, after: Dir, names: seq<string>)
    requires Swept(before, after, names)
    requires forall f :: f in before ==> f in names
    ensures after == Cleaned(before)
  {
    CleanedExactly(before, after);
  }

  /** `os.listdir`: every name of the directory once, in an order the model leaves open. */
  method ListDir(dir: Dir) returns (names: seq<string>)
    ensures forall f :: f in names <==> f in dir
    ensures forall i, j :: 0 <= i < j < |names| ==> names[i] != names[j]
  {
    names := [];
    var rest := dir.Keys;
    while rest != {}
      invariant forall f :: f in dir <==> f in rest || f in names
      invariant forall f :: f in rest ==> f !in names
      invariant forall i, j :: 0 <= i < j < |names| ==> names[i] != names[j]
      decreases rest
    {
      var f :| f in rest;
      names := names + [f];
      rest := rest - {f};
    }
  }

  /** The list comprehension of one poll: the number in every `segment`-prefixed name,
      in listing order; None when one of them does not match the pattern (the
      `.group(1)` of a failed search raises). */
  function Reconcile(listing: seq<string>): (r: Option<set<nat>>)
    ensures r.None? <==> exists f :: f in listing && Unparsable(f)
    ensures r.Some? ==> forall n :: n in r.value <==>
      exists f :: f in listing && StartsWith(f, "segment") && ParseSegment(f) == Some(n)
    decreases |listing|
  {
    if listing == [] then Some({})
    else
      var f, tail := listing[0], listing[1..];
      assert forall g :: g in listing <==> g == f || g in tail;
      if !StartsWith(f, "segment") then Reconcile(tail)
      else
        match ParseSegment(f)
        case None => assert f in listing && Unparsable(f); None
        case Some(n) =>
          match Reconcile(tail)
          case None => None
          case Some(rest) => Some({n} + rest)
  }

  /** A `segment`-prefixed name of the listing in which the pattern does not occur. */
  ghost predicate Unparsable(f: string)
  {
    StartsWith(f, "segment") && ParseSegment(f).None?
  }

  /** Reference meaning of one poll, on the set of names: None when a `segment`-prefixed
      name does not parse, otherwise the set of parsed numbers. */
  ghost function DirScan(dir: Dir): Option<set<nat>>
  {
    if exists f :: f in dir && Unparsable(f) then None
    else Some(set f | f in dir && StartsWith(f, "segment") :: ParseSegment(f).value)
  }

  /** The poll's result does not depend on the order `os.listdir` returns names in. */
  lemma ReconcileMatchesScan(listing: seq<string>, dir: Dir)
    requires forall f :: f in listing <==> f in dir
    ensures Reconcile(listing) == DirScan(dir)
  {
    if Reconcile(listing).Some? {
      var s := Reconcile(listing).value;
      var t := set f | f in dir && StartsWith(f, "segment") :: ParseSegment(f).value;
      forall n ensures n in s <==> n in t {
        if n in t {
          var f :| f in dir && StartsWith(f, "segment") && ParseSegment(f).value == n;
          assert f in listing;
        }
      }
      assert s == t;
    }
  }

  /** The attempt outcomes that stand in for the page scrape and the transcoder. */
  datatype Attempt =
    | Failed                  // no playlist URL found, or the transcoder did not start
    | Ran(polls: seq<Dir>)    // the directory at each poll while the transcoder runs; then it exits

  /** The worker's view of the shared state between attempts. */
  datatype WorkerState = WorkerState(retry: nat, available: set<nat>, dir: Dir)

  /** The polls of one run: each replaces the set of numbers wholesale; a poll whose
      listing does not parse raises, leaving the set as it was. Returns whether the
      run raised, the set, and the directory as last seen. */
  ghost function RunPolls(available: set<nat>, dir: Dir, polls: seq<Dir>): (bool, set<nat>, Dir)
    decreases |polls|
  {
    if polls == [] then (false, available, dir)
    else
      match DirScan(polls[0])
      case None => (true, available, polls[0])
      case Some(s) => RunPolls(s, polls[0], polls[1..])
  }

  /** Whether an attempt ends in an exception. */
  ghost predicate Fails(a: Attempt)
  {
    a.Failed? || exists i :: 0 <= i < |a.polls| && DirScan(a.polls[i]).None?
  }

  /** One pass of the retry loop: the attempt, the retry count raised on an exception,
      then `cleanup` in the `finally` block. */
  ghost function Step(st: WorkerState, a: Attempt): (next: WorkerState)
    ensures next.retry == st.retry + (if Fails(a) then 1 else 0)
    ensures forall f :: f in next.dir ==> !Removable(f)
    ensures a.Failed? ==> next.available == st.available && next.dir == Cleaned(st.dir)
    ensures a.Ran? && a.polls == [] ==> next == WorkerState(st.retry, st.available, Cleaned(st.dir))
    ensures a.Ran? && a.polls != [] && !Fails(a) ==>
              next.available == DirScan(a.polls[|a.polls| - 1]).value
              && next.dir == Cleaned(a.polls[|a.polls| - 1])
  {
    match a
    case Failed => WorkerState(st.retry + 1, st.available, Cleaned(st.dir))
    case Ran(polls) =>
      RunPollsRaises(st.available, st.dir, polls);
      var (raised, available, dir) := RunPolls(st.available, st.dir, polls);
      assert polls != [] && !raised ==>
               available == DirScan(polls[|polls| - 1]).value && dir == polls[|polls| - 1] by {
        if polls != [] && !raised {
          RunPollsLast(st.available, st.dir, polls);
        }
      }
      WorkerState(if raised then st.retry + 1 else st.retry, available, Cleaned(dir))
  }

  /** The state when the worker returns: it loops while `retry < MaxRetries` and,
      in the model, while outcomes remain. */
  ghost function Run(st: WorkerState, outcomes: seq<Attempt>): (final: WorkerState)
    ensures st.retry <= final.retry
    ensures st.retry <= MaxRetries ==> final.retry <= MaxRetries
    ensures final.retry < MaxRetries ==> final.retry == st.retry + Failures(outcomes)
    decreases |outcomes|
  {
    if st.retry >= MaxRetries || outcomes == [] then st
    else Run(Step(st, outcomes[0]), outcomes[1..])
  }

  /** How many attempts the worker makes. */
  ghost function Consumed(st: WorkerState, outcomes: seq<Attempt>): nat
    decreases |outcomes|
  {
    if st.retry >= MaxRetries || outcomes == [] then 0
    else 1 + Consumed(Step(st, outcomes[0]), outcomes[1..])
  }

  /** While `retry` is below 3, the worker's course is one step followed by the rest. */
  lemma RunUnfold(st: WorkerState, outcomes: seq<Attempt>)
    requires st.retry < MaxRetries && outcomes != []
    ensures Run(st, outcomes) == Run(Step(st, outcomes[0]), outcomes[1..])
    ensures Consumed(st, outcomes) == 1 + Consumed(Step(st, outcomes[0]), outcomes[1..])
  {
  }

  /** The number of attempts in `outcomes` that raise. */
  ghost function Failures(outcomes: seq<Attempt>): nat
  {
    if outcomes == [] then 0
    else (if Fails(outcomes[0]) then 1 else 0) + Failures(outcomes[1..])
  }

  lemma {:induction false} RunPollsRaises(available: set<nat>, dir: Dir, polls: seq<Dir>)
    ensures RunPolls(available, dir, polls).0 <==> exists i :: 0 <= i < |polls| && DirScan(polls[i]).None?
    decreases |polls|
  {
    if polls != [] && DirScan(polls[0]).Some? {
      var s := DirScan(polls[0]).value;
      RunPollsRaises(s, polls[0], polls[1..]);
      if exists i :: 0 <= i < |polls| && DirScan(polls[i]).None? {
        var i :| 0 <= i < |polls| && DirScan(polls[i]).None?;
        assert polls[1..][i - 1] == polls[i];
      }
    }
  }

  /** A run that raises at its first unparseable poll i counts one failure, keeps the
      numbers of poll i - 1 (or those it started with when i is 0) and leaves poll i's
      directory, cleaned. */
  lemma RunRaisesAt(st: WorkerState, polls: seq<Dir>, i: nat)
    requires i < |polls| && DirScan(polls[i]).None?
    requires forall j :: 0 <= j < i ==> DirScan(polls[j]).Some?
    ensures Step(st, Ran(polls)) ==
              WorkerState(st.retry + 1, if i == 0 then st.available else DirScan(polls[i - 1]).value,
                          Cleaned(polls[i]))
  {
    RunPollsRaiseAt(st.available, st.dir, polls, i);
  }

  lemma {:induction false} RunPollsRaiseAt(available: set<nat>, dir: Dir, polls: seq<Dir>, i: nat)
    requires i < |polls| && DirScan(polls[i]).None?
    requires forall j :: 0 <= j < i ==> DirScan(polls[j]).Some?
    ensures RunPolls(available, dir, polls) ==
              (true, if i == 0 then available else DirScan(polls[i - 1]).value, polls[i])
    decreases i
  {
    if i > 0 {
      assert DirScan(polls[0]).Some?;
      var tail := polls[1..];
      assert forall j :: 0 <= j < |tail| ==> tail[j] == polls[j + 1];
      RunPollsRaiseAt(DirScan(polls[0]).value, polls[0], tail, i - 1);
      if i == 1 { assert polls[i - 1] == polls[0]; }
    }
  }

  lemma {:induction false} RunPollsLast(available: set<nat>, dir: Dir, polls: seq<Dir>)
    requires polls != []
    requires forall i :: 0 <= i < |polls| ==> DirScan(polls[i]).Some?
    ensures RunPolls(available, dir, polls) ==
              (false, DirScan(polls[|polls| - 1]).value, polls[|polls| - 1])
    decreases |polls|
  {
    assert DirScan(polls[0]).Some?;
    if |polls| > 1 {
      var tail := polls[1..];
      assert forall i :: 0 <= i < |tail| ==> tail[i] == polls[i + 1];
      RunPollsLast(DirScan(polls[0]).value, polls[0], tail);
    }
  }

  /** `retry` never passes `MaxRetries`, and counts exactly the attempts that raised. */
  lemma {:induction false} RunRetry(st: WorkerState, outcomes: seq<Attempt>)
    requires st.retry <= MaxRetries
    ensures Consumed(st, outcomes) <= |outcomes|
    ensures Run(st, outcomes).retry == st.retry + Failures(outcomes[..Consumed(st, outcomes)])
    decreases |outcomes|
  {
    if st.retry < MaxRetries && outcomes != [] {
      var next := Step(st, outcomes[0]);
      RunRetry(next, outcomes[1..]);
      var k := Consumed(next, outcomes[1..]);
      assert outcomes[..k + 1][0] == outcomes[0];
      assert outcomes[..k + 1][1..] == outcomes[1..][..k];
    } else {
      assert outcomes[..0] == [];
    }
  }

  /** The worker ends exactly when `retry` reaches `MaxRetries`, unless the outcomes run
      out first; before its last attempt `retry` was still below the limit. */
  lemma {:induction false} RunStops(st: WorkerState, outcomes: seq<Attempt>)
    requires st.retry <= MaxRetries
    ensures Consumed(st, outcomes) <= |outcomes|
    ensures Consumed(st, outcomes) < |outcomes| ==> Run(st, outcomes).retry == MaxRetries
    ensures Run(st, outcomes).retry < MaxRetries ==> Consumed(st, outcomes) == |outcomes|
    ensures Consumed(st, outcomes) > 0 ==>
      st.retry + Failures(outcomes[..Consumed(st, outcomes) - 1]) < MaxRetries
    decreases |outcomes|
  {
    if st.retry < MaxRetries && outcomes != [] {
      var next := Step(st, outcomes[0]);
      RunStops(next, outcomes[1..]);
      var k := Consumed(next, outcomes[1..]);
      if k > 0 {
        assert outcomes[..k][0] == outcomes[0];
        assert outcomes[..k][1..] == outcomes[1..][..k - 1];
      } else {
        assert outcomes[..0] == [];
      }
    }
  }

  /** After an attempt every segment file is gone, so a number still advertised is
      answered 404: the set is only replaced at the next successful poll, and never
      again once the worker has given up. */
  lemma AdvertisedButGone(st: WorkerState, a: Attempt, n: nat, disconnects: nat -> bool, resp: Response)
    requires SegmentResponse("/" + SegmentName(n), Step(st, a).dir, disconnects, resp)
    ensures SegmentName(n) !in Step(st, a).dir
    ensures resp == NotFound
  {
    assert StartsWith(SegmentName(n), "segment") by {
      assert SegmentName(n)[..PrefixLength] == SegmentPrefix;
    }
    PlaylistUriServed(n, Step(st, a).dir, disconnects, resp);
  }

  /** The server object's shared state: the advertised numbers and the directory. */
  class Server {
    var availableSegments: set<nat>
    var tmpDir: Dir

    /** `main`: `cleanup()`, then a server advertising nothing. */
    constructor (initial: Dir)
      ensures availableSegments == {}
      ensures tmpDir == Cleaned(initial)
    {
      availableSegments := {};
      tmpDir := initial;
      new;
      Cleanup();
    }

    /** `cleanup`: remove every listed file that the filter selects; a file already
        gone is skipped. The advertised set is not touched. */
    method Cleanup()
      modifies this
      ensures tmpDir == Cleaned(old(tmpDir))
      ensures availableSegments == old(availableSegments)
    {
      var names := ListDir(tmpDir);
      ghost var before := tmpDir;
      for i := 0 to |names|
        invariant Swept(before, tmpDir, names[..i])
        invariant availableSegments == old(availableSegments)
      {
        ghost var dir := tmpDir;
        if Removable(names[i]) {
          tmpDir := tmpDir - {names[i]};
        }
        assert names[..i + 1] == names[..i] + [names[i]];
        RemoveStep(before, dir, names[..i], names[i], tmpDir);
      }
      assert names[..|names|] == names;
      SweptAll(before, tmpDir, names);
    }

    /** One poll of a running transcoder: the directory as it now is, listed, and the
        advertised set replaced by what the listing yields. Returns false when the
        listing raises, leaving the set as it was. */
    method Poll(snapshot: Dir) returns (ok: bool)
      modifies this
      ensures tmpDir == snapshot
      ensures ok <==> DirScan(snapshot).Some?
      ensures ok ==> availableSegments == DirScan(snapshot).value
      ensures !ok ==> availableSegments == old(availableSegments)
    {
      tmpDir := snapshot;
      var names := ListDir(tmpDir);
      ReconcileMatchesScan(names, tmpDir);
      var segs := Reconcile(names);
      ok := segs.Some?;
      if ok {
        availableSegments := segs.value;
      }
    }

    /** `stream_worker`: returns the final retry count and the number of attempts made. */
    /** The `while proc.poll() is None` loop: one poll per snapshot while the transcoder
        runs, stopping at the first listing that raises. */
    method WatchTranscoder(polls: seq<Dir>) returns (raised: bool)
      modifies this
      ensures (raised, availableSegments, tmpDir) == RunPolls(old(availableSegments), old(tmpDir), polls)
    {
      raised := false;
      var t := 0;
      while t < |polls| && !raised
        invariant t <= |polls|
        invariant RunPolls(old(availableSegments), old(tmpDir), polls)
          == if raised then (true, availableSegments, tmpDir)
             else RunPolls(availableSegments, tmpDir, polls[t..])
        decreases |polls| - t, !raised
      {
        assert polls[t..][1..] == polls[t + 1..];
        var ok := Poll(polls[t]);
        if ok {
          t := t + 1;
        } else {
          raised := true;
        }
      }
      assert !raised ==> polls[t..] == [];
    }

    method StreamWorker(outcomes: seq<Attempt>) returns (retry: nat, attempts: nat)
      modifies this
      ensures var final := Run(WorkerState(0, old(availableSegments), old(tmpDir)), outcomes);
        && retry == final.retry
        && availableSegments == final.available
        && tmpDir == final.dir
      ensures attempts == Consumed(WorkerState(0, old(availableSegments), old(tmpDir)), outcomes)
    {
      ghost var start := WorkerState(0, availableSegments, tmpDir);
      retry, attempts := 0, 0;
      while retry < MaxRetries && attempts < |outcomes|
        invariant attempts <= |outcomes|
        invariant Run(WorkerState(retry, availableSegments, tmpDir), outcomes[attempts..]) == Run(start, outcomes)
        invariant attempts + Consumed(WorkerState(retry, availableSegments, tmpDir), outcomes[attempts..])
          == Consumed(start, outcomes)
        decreases |outcomes| - attempts
      {
        ghost var st := WorkerState(retry, availableSegments, tmpDir);
        assert outcomes[attempts..][1..] == outcomes[attempts + 1..];
        RunUnfold(st, outcomes[attempts..]);
        var raised := false;
        match outcomes[attempts] {
          case Failed =>
            raised := true;
          case Ran(polls) =>
            raised := WatchTranscoder(polls);
        }
        if raised {
          retry := retry + 1;
        }
        Cleanup();
        assert WorkerState(retry, availableSegments, tmpDir) == Step(st, outcomes[attempts]);
        attempts := attempts + 1;
      }
    }
  }
}

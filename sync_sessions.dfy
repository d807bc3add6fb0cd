/**
 * Session-level synchronisation (version3A and version3B of
 * ibllib/ephys/sync_probes.py): choosing the event channel and the reference
 * probe, truncating the front streams to a common length, synchronising every
 * probe against the reference and persisting one pair of tables per probe.
 *
 * File loading is abstracted: each recording arrives as an `EphysFile`
 * holding its loaded `_spikeglx_sync` events, its label-to-channel sync map,
 * its sampling rate and whether it is the nidq unit. Persisting is recorded
 * as the sequence of `Persisted` writes, in the order they happen.
 */
module SyncSessions {
  import opened Wrappers
  import opened Interp1d
  import opened SyncProbes

  /** A `_spikeglx_sync` object: event times and the channel of each event. */
  datatype SyncEvents = SyncEvents(times: seq<real>, channels: seq<int>)

  predicate WellFormed(ev: SyncEvents)
  {
    |ev.times| == |ev.channels|
  }

  /** One recording as the synchronisation sees it. */
  datatype EphysFile = EphysFile(sync: SyncEvents, syncMap: map<string, int>, sr: real, nidq: bool)

  predicate AllWellFormed(files: seq<EphysFile>)
  {
    forall i :: 0 <= i < |files| ==> WellFormed(files[i].sync)
  }

  /** Default tolerances, in samples, of version3A and version3B. */
  const Tolerance3A: real := 2.1
  const Tolerance3B: real := 2.5
  /** Fronts of the first camera must come strictly after this time (seconds). */
  const CameraStartSecs: real := 0.2

  // ----------------------------------------------------------- fronts

  /**
   * The indices at or after `from` where `mask` holds, in increasing order:
   * the positions numpy's boolean indexing `a[mask]` reads.
   */
  function Where(mask: seq<bool>, from: nat): (idx: seq<nat>)
    requires from <= |mask|
    ensures |idx| <= |mask| - from
    ensures forall j :: 0 <= j < |idx| ==> from <= idx[j] < |mask| && mask[idx[j]]
    ensures forall j, j' :: 0 <= j < j' < |idx| ==> idx[j] < idx[j']
    ensures forall k :: from <= k < |mask| && mask[k] ==> k in idx
    decreases |mask| - from
  {
    if from == |mask| then []
    else
      var rest := Where(mask, from + 1);
      if mask[from] then [from] + rest else rest
  }

  /** `s[idx]`: the entries of `s` at the indices `idx`, in that order. */
  function Pick<T>(s: seq<T>, idx: seq<nat>): (r: seq<T>)
    requires forall j :: 0 <= j < |idx| ==> idx[j] < |s|
    ensures |r| == |idx| && forall j :: 0 <= j < |idx| ==> r[j] == s[idx[j]]
  {
    seq(|idx|, j requires 0 <= j < |idx| => s[idx[j]])
  }

  /** Picking the masked entries keeps exactly the entries the mask selects. */
  lemma PickWhere<T>(s: seq<T>, mask: seq<bool>)
    requires |mask| == |s|
    ensures forall k :: 0 <= k < |s| && mask[k] ==> s[k] in Pick(s, Where(mask, 0))
    ensures forall x :: x in Pick(s, Where(mask, 0)) ==> exists k :: 0 <= k < |s| && mask[k] && s[k] == x
  {
    var idx := Where(mask, 0);
    var r := Pick(s, idx);
    forall k | 0 <= k < |s| && mask[k] ensures s[k] in r {
      assert k in idx;
      var j :| 0 <= j < |idx| && idx[j] == k;
      assert r[j] == s[k];
    }
  }

  /** A mask selects no index iff it holds nowhere. */
  lemma WhereEmpty(mask: seq<bool>)
    ensures Where(mask, 0) == [] <==> forall k :: 0 <= k < |mask| ==> !mask[k]
  {
    var idx := Where(mask, 0);
    if exists k :: 0 <= k < |mask| && mask[k] {
      var k :| 0 <= k < |mask| && mask[k];
      assert k in idx;
    }
    if idx != [] {
      assert mask[idx[0]];
    }
  }

  /** `np.in1d(channels, [ch])`: which events are on channel `ch`. */
  function OnChannel(ev: SyncEvents, ch: int): (mask: seq<bool>)
    ensures |mask| == |ev.channels|
    ensures forall k :: 0 <= k < |mask| ==> (mask[k] <==> ev.channels[k] == ch)
  {
    seq(|ev.channels|, k requires 0 <= k < |ev.channels| => ev.channels[k] == ch)
  }

  /**
   * The times of the events on channel `ch` (`times[np.in1d(channels, [ch])]`):
   * every event on `ch` and no other, in recording order.
   */
  function FrontTimes(ev: SyncEvents, ch: int): (r: seq<real>)
    requires WellFormed(ev)
    ensures |r| <= |ev.times|
    ensures |r| == 0 <==> ch !in ev.channels
  {
    var mask := OnChannel(ev, ch);
    WhereEmpty(mask);
    assert ch in ev.channels <==> exists k :: 0 <= k < |mask| && mask[k];
    Pick(ev.times, Where(mask, 0))
  }

  /**
   * The fronts on `ch` are the events at the increasing indices `idx` of the
   * events on `ch`, and every such event has its index in `idx`: all of them,
   * each once, in recording order, and nothing from another channel.
   */
  lemma FrontTimesInOrder(ev: SyncEvents, ch: int)
    requires WellFormed(ev)
    ensures var r, idx := FrontTimes(ev, ch), Where(OnChannel(ev, ch), 0);
      && |r| == |idx|
      && (forall j :: 0 <= j < |r| ==> ev.channels[idx[j]] == ch && r[j] == ev.times[idx[j]])
      && (forall j, j' :: 0 <= j < j' < |r| ==> idx[j] < idx[j'])
      && (forall k :: 0 <= k < |ev.channels| && ev.channels[k] == ch ==> k in idx)
  {
    var mask := OnChannel(ev, ch);
    assert FrontTimes(ev, ch) == Pick(ev.times, Where(mask, 0));
  }

  /** The fronts gathered by get_sync_fronts: per-probe times and event counts. */
  datatype Fronts = Fronts(times: seq<seq<real>>, nsync: seq<nat>)

  /** The probe's sync map has the label `auxName` and the probe has at least one front on it. */
  predicate HasFronts(f: EphysFile, auxName: string)
    requires WellFormed(f.sync)
  {
    auxName in f.syncMap && FrontTimes(f.sync, f.syncMap[auxName]) != []
  }

  /**
   * What get_sync_fronts returns: nothing when some probe lacks the label or
   * has no front on it; otherwise each probe's fronts on that label and, as
   * its count, the number of ALL its sync events.
   */
  function SyncFrontsOf(files: seq<EphysFile>, auxName: string): (r: Option<Fronts>)
    requires AllWellFormed(files)
    ensures r.None? <==> exists i :: 0 <= i < |files| && !HasFronts(files[i], auxName)
    ensures r.Some? ==> |r.value.times| == |r.value.nsync| == |files|
    ensures r.Some? ==> forall i :: 0 <= i < |files| ==>
      r.value.times[i] == FrontTimes(files[i].sync, files[i].syncMap[auxName]) && r.value.times[i] != [] &&
      r.value.nsync[i] == |files[i].sync.channels|
  {
    if forall i :: 0 <= i < |files| ==> HasFronts(files[i], auxName) then
      Some(Fronts(seq(|files|, i requires 0 <= i < |files| => FrontTimes(files[i].sync, files[i].syncMap[auxName])),
                  seq(|files|, i requires 0 <= i < |files| => |files[i].sync.channels|)))
    else None
  }

  /** A probe without usable fronts on the label makes get_sync_fronts return nothing. */
  lemma NoFronts(files: seq<EphysFile>, auxName: string, i: nat)
    requires AllWellFormed(files) && i < |files| && !HasFronts(files[i], auxName)
    ensures SyncFrontsOf(files, auxName) == None
  {
  }

  /** Gathered fronts and counts that agree with every probe are what get_sync_fronts returns. */
  lemma AllFronts(files: seq<EphysFile>, auxName: string, times: seq<seq<real>>, nsync: seq<nat>)
    requires AllWellFormed(files) && |times| == |nsync| == |files|
    requires forall i :: 0 <= i < |files| ==>
      && HasFronts(files[i], auxName)
      && times[i] == FrontTimes(files[i].sync, files[i].syncMap[auxName])
      && nsync[i] == |files[i].sync.channels|
    ensures SyncFrontsOf(files, auxName) == Some(Fronts(times, nsync))
  {
    var r := SyncFrontsOf(files, auxName).value;
    assert r.times == times;
    assert r.nsync == nsync;
  }

  /** Appending the next probe's fronts keeps the gathered fronts in step with the probes. */
  lemma GatherNext(files: seq<EphysFile>, auxName: string, times: seq<seq<real>>, ind: nat)
    requires AllWellFormed(files) && ind < |files| && |times| == ind
    requires forall i :: 0 <= i <= ind ==> auxName in files[i].syncMap
    requires forall i :: 0 <= i < ind ==> times[i] == FrontTimes(files[i].sync, files[i].syncMap[auxName])
    ensures var next := times + [FrontTimes(files[ind].sync, files[ind].syncMap[auxName])];
      forall i :: 0 <= i < ind + 1 ==> next[i] == FrontTimes(files[i].sync, files[i].syncMap[auxName])
  {
  }

  /**
   * get_sync_fronts: walks the probes, filling the count array in place and
   * appending each probe's fronts, and gives up at the first probe without
   * the auxName or without fronts.
   */
  method GetSyncFronts(files: seq<EphysFile>, auxName: string) returns (d: Option<Fronts>)
    requires AllWellFormed(files)
    ensures d == SyncFrontsOf(files, auxName)
  {
    var nsync := new nat[|files|];
    var times: seq<seq<real>> := [];
    for ind := 0 to |files|
      invariant |times| == ind
      invariant forall i :: 0 <= i < ind ==> HasFronts(files[i], auxName)
      invariant forall i :: 0 <= i < ind ==> times[i] == FrontTimes(files[i].sync, files[i].syncMap[auxName])
      invariant forall i :: 0 <= i < ind ==> nsync[i] == |files[i].sync.channels|
    {
      var f := files[ind];
      if auxName !in f.syncMap {
        NoFronts(files, auxName, ind);
        return None;
      }
      if !HasFronts(f, auxName) {
        NoFronts(files, auxName, ind);
        return None;
      }
      nsync[ind] := |f.sync.channels|;
      GatherNext(files, auxName, times, ind);
      times := times + [FrontTimes(f.sync, f.syncMap[auxName])];
    }
    AllFronts(files, auxName, times, nsync[..]);
    d := Some(Fronts(times, nsync[..]));
  }

  function MinFirst(times: seq<seq<real>>): (m: real)
    requires |times| > 0 && forall i :: 0 <= i < |times| ==> times[i] != []
    ensures forall i :: 0 <= i < |times| ==> m <= times[i][0]
    ensures exists i :: 0 <= i < |times| && m == times[i][0]
  {
    if |times| == 1 then times[0][0]
    else
      var rest := MinFirst(times[1..]);
      assert forall i :: 1 <= i < |times| ==> times[1..][i - 1] == times[i];
      if times[0][0] <= rest then times[0][0] else rest
  }

  /** The probe's first right_camera front comes after 0.2 s. */
  predicate CameraStartsLate(f: EphysFile)
    requires WellFormed(f.sync) && HasFronts(f, "right_camera")
  {
    FrontTimes(f.sync, f.syncMap["right_camera"])[0] > CameraStartSecs
  }

  /**
   * The channel choice of version3A: frame2ttl when every probe has fronts
   * on it, otherwise right_camera, which fails when some probe lacks it and
   * when some probe's first camera front is not after 0.2 s.
   */
  function SelectFronts(files: seq<EphysFile>): (r: Result<Fronts, SyncError>)
    requires |files| > 0 && AllWellFormed(files)
    ensures r.Ok? ==> |r.value.times| == |r.value.nsync| == |files|
    ensures r.Ok? ==> forall i :: 0 <= i < |files| ==> r.value.times[i] != []
    ensures (forall i :: 0 <= i < |files| ==> HasFronts(files[i], "frame2ttl")) ==>
      r == Ok(SyncFrontsOf(files, "frame2ttl").value)
    ensures (exists i :: 0 <= i < |files| && !HasFronts(files[i], "frame2ttl")) ==>
      if exists i :: 0 <= i < |files| && !HasFronts(files[i], "right_camera") then r == Err(NoCameraFronts)
      else if exists i :: 0 <= i < |files| && !CameraStartsLate(files[i])
        then r == Err(CamerasStartedBeforeEphys)
      else r == Ok(SyncFrontsOf(files, "right_camera").value)
  {
    var d := SyncFrontsOf(files, "frame2ttl");
    if d.Some? then Ok(d.value)
    else
      var c := SyncFrontsOf(files, "right_camera");
      if c.None? then Err(NoCameraFronts)
      else
        LateCameras(files, c.value);
        if !(MinFirst(c.value.times) > CameraStartSecs) then Err(CamerasStartedBeforeEphys)
        else Ok(c.value)
  }

  /** The earliest first camera front is after 0.2 s exactly when every probe's is. */
  lemma LateCameras(files: seq<EphysFile>, c: Fronts)
    requires |files| > 0 && AllWellFormed(files) && SyncFrontsOf(files, "right_camera") == Some(c)
    ensures forall i :: 0 <= i < |files| ==> HasFronts(files[i], "right_camera")
    ensures MinFirst(c.times) > CameraStartSecs <==> forall i :: 0 <= i < |files| ==> CameraStartsLate(files[i])
  {
    assert forall i :: 0 <= i < |files| ==> c.times[i] == FrontTimes(files[i].sync, files[i].syncMap["right_camera"]);
  }

  // ------------------------------------------------------- truncation

  function MinLength(times: seq<seq<real>>): (n: nat)
    requires |times| > 0
    ensures forall i :: 0 <= i < |times| ==> n <= |times[i]|
    ensures exists i :: 0 <= i < |times| && n == |times[i]|
  {
    if |times| == 1 then |times[0]|
    else
      var rest := MinLength(times[1..]);
      assert forall i :: 1 <= i < |times| ==> times[1..][i - 1] == times[i];
      if |times[0]| <= rest then |times[0]| else rest
  }

  /** Column `c` of a rows-by-probes matrix. */
  function Column(m: seq<seq<real>>, c: nat): (col: seq<real>)
    requires forall r :: 0 <= r < |m| ==> c < |m[r]|
    ensures |col| == |m|
    ensures forall r :: 0 <= r < |m| ==> col[r] == m[r][c]
  {
    seq(|m|, r requires 0 <= r < |m| => m[r][c])
  }

  /**
   * The truncation of version3A: every stream cut to the shortest length and
   * arranged as a matrix of `min(nsyncs)` rows and one column per probe,
   * whose column `c` is the prefix of stream `c`.
   */
  function Truncate(times: seq<seq<real>>): (m: seq<seq<real>>)
    requires |times| > 0
    ensures |m| == MinLength(times)
    ensures forall r :: 0 <= r < |m| ==> |m[r]| == |times|
    ensures forall c :: 0 <= c < |times| ==> Column(m, c) == times[c][..|m|]
  {
    var n := MinLength(times);
    var m := seq(n, r requires 0 <= r < n => seq(|times|, c requires 0 <= c < |times| => times[c][r]));
    assert forall c :: 0 <= c < |times| ==> Column(m, c) == times[c][..n] by {
      forall c | 0 <= c < |times| ensures Column(m, c) == times[c][..n] {
        assert forall r :: 0 <= r < n ==> Column(m, c)[r] == times[c][r];
      }
    }
    m
  }

  // -------------------------------------------------------- reference

  /** np.argmax: the first index of the largest count. */
  function ArgMax(s: seq<nat>): (i: nat)
    requires |s| > 0
    ensures i < |s|
    ensures forall j :: 0 <= j < |s| ==> s[j] <= s[i]
    ensures forall j :: 0 <= j < i ==> s[j] < s[i]
  {
    if |s| == 1 then 0
    else
      var j := ArgMax(s[..|s| - 1]);
      if s[|s| - 1] > s[j] then |s| - 1 else j
  }

  /** The table the reference probe persists. */
  const Identity: seq<Point> := [Point(0.0, 0.0), Point(1.0, 1.0)]

  // ----------------------------------------------------- persisting

  /** Outcome of a session: the verdict or the error, and the writes done before it. */
  datatype Run = Run(outcome: Result<bool, SyncError>, written: seq<Persisted>)

  function Record(probe: nat, ps: ProbeSync, sr: real): (w: Persisted)
  {
    Persisted(probe, ps.points, Stamps(ps.points, sr))
  }

  /**
   * The session after handling the first `k` probes in order: each success
   * is persisted and ANDed into the verdict; the first error stops the run,
   * leaving earlier files in place.
   */
  function RunUpTo(fits: seq<Result<ProbeSync, SyncError>>, srs: seq<real>, k: nat): (run: Run)
    requires k <= |fits| == |srs|
    ensures |run.written| <= k
    ensures run.outcome.Ok? ==> |run.written| == k
  {
    if k == 0 then Run(Ok(true), [])
    else
      var prev := RunUpTo(fits, srs, k - 1);
      if prev.outcome.Err? then prev
      else match fits[k - 1]
        case Err(e) => Run(Err(e), prev.written)
        case Ok(ps) => Run(Ok(prev.outcome.value && ps.qc), prev.written + [Record(k - 1, ps, srs[k - 1])])
  }

  lemma {:induction false} RunStaysFailed(fits: seq<Result<ProbeSync, SyncError>>, srs: seq<real>, j: nat, k: nat)
    requires j <= k <= |fits| == |srs|
    requires RunUpTo(fits, srs, j).outcome.Err?
    ensures RunUpTo(fits, srs, k) == RunUpTo(fits, srs, j)
    decreases k - j
  {
    if j < k {
      RunStaysFailed(fits, srs, j, k - 1);
    }
  }

  /**
   * A run succeeds exactly when every probe succeeds; then one pair of tables
   * per probe is written, in order, and the verdict is the AND of the
   * per-probe verdicts.
   */
  lemma {:induction false} RunSucceeds(fits: seq<Result<ProbeSync, SyncError>>, srs: seq<real>, k: nat)
    requires k <= |fits| == |srs|
    ensures RunUpTo(fits, srs, k).outcome.Ok? <==> forall i :: 0 <= i < k ==> fits[i].Ok?
    ensures RunUpTo(fits, srs, k).outcome.Ok? ==>
      && RunUpTo(fits, srs, k).outcome.value == (forall i :: 0 <= i < k ==> fits[i].value.qc)
      && |RunUpTo(fits, srs, k).written| == k
      && forall i :: 0 <= i < k ==> RunUpTo(fits, srs, k).written[i] == Record(i, fits[i].value, srs[i])
  {
    if k > 0 {
      RunSucceeds(fits, srs, k - 1);
      var prev := RunUpTo(fits, srs, k - 1);
      if prev.outcome.Err? {
        var i :| 0 <= i < k - 1 && !fits[i].Ok?;
      }
    }
  }

  /**
   * When probe `j` is the first to fail, the run reports its error and the
   * tables of exactly the probes before it have been written.
   */
  lemma {:induction false} RunFails(fits: seq<Result<ProbeSync, SyncError>>, srs: seq<real>, j: nat, k: nat)
    requires j < k <= |fits| == |srs|
    requires fits[j].Err? && forall i :: 0 <= i < j ==> fits[i].Ok?
    ensures RunUpTo(fits, srs, k).outcome == Err(fits[j].error)
    ensures |RunUpTo(fits, srs, k).written| == j
    ensures forall i :: 0 <= i < j ==> RunUpTo(fits, srs, k).written[i] == Record(i, fits[i].value, srs[i])
  {
    RunSucceeds(fits, srs, j);
    RunStaysFailed(fits, srs, j + 1, k);
  }

  /**
   * The loop shared by version3A and version3B: synchronise each probe in
   * turn, accumulate `qc_all &= qc` and save its tables; an error aborts the
   * loop with the earlier files already saved.
   */
  method WriteTables(fits: seq<Result<ProbeSync, SyncError>>, srs: seq<real>) returns (run: Run)
    requires |fits| == |srs|
    ensures run == RunUpTo(fits, srs, |fits|)
  {
    var qcAll := true;
    var written: seq<Persisted> := [];
    for ind := 0 to |fits|
      invariant RunUpTo(fits, srs, ind) == Run(Ok(qcAll), written)
    {
      match fits[ind]
      case Err(e) =>
        RunStaysFailed(fits, srs, ind + 1, |fits|);
        return Run(Err(e), written);
      case Ok(ps) =>
        qcAll := qcAll && ps.qc;
        var w := SaveTimestamps(ind, ps.points, srs[ind]);
        written := written + [w];
    }
    run := Run(Ok(qcAll), written);
  }

  // ------------------------------------------------------- version3A

  /**
   * The per-probe results of version3A: the reference probe gets the
   * identity table; every other probe is synchronised from its column of
   * the truncated matrix against the reference column, at the reference
   * probe's sampling rate.
   */
  function Fits3A(m: seq<seq<real>>, nprobes: nat, iref: nat, sr: real, linear: bool, tol: real,
                  num: Numerics): (fits: seq<Result<ProbeSync, SyncError>>)
    requires iref < nprobes && forall r :: 0 <= r < |m| ==> |m[r]| == nprobes
    ensures |fits| == nprobes
  {
    seq(nprobes, ind requires 0 <= ind < nprobes =>
      if ind == iref then Ok(ProbeSync(Identity, true))
      else SyncProbeFrontTimes(Column(m, ind), Column(m, iref), sr, linear, tol, num))
  }

  /** The session of version3A once the fronts `d` have been chosen. */
  function Session3A(files: seq<EphysFile>, d: Fronts, linear: bool, tol: real, num: Numerics): (run: Run)
    requires |files| > 0 && |d.times| == |d.nsync| == |files|
    ensures |run.written| <= |files|
  {
    var m := Truncate(d.times);
    var iref := ArgMax(d.nsync);
    var sr := files[iref].sr;
    RunUpTo(Fits3A(m, |files|, iref, sr, linear, tol, num), seq(|files|, _ => sr), |files|)
  }

  /** version3A as a function of the loaded recordings. */
  function Version3ASpec(files: seq<EphysFile>, linear: bool, tol: real, num: Numerics): (run: Run)
    requires AllWellFormed(files)
    ensures |files| <= 1 ==> run == Run(Ok(true), [])
    ensures |files| >= 2 && SelectFronts(files).Err? ==> run == Run(Err(SelectFronts(files).error), [])
    ensures |run.written| <= |files|
  {
    if |files| <= 1 then Run(Ok(true), [])
    else match SelectFronts(files)
      case Err(e) => Run(Err(e), [])
      case Ok(d) => Session3A(files, d, linear, tol, num)
  }

  /**
   * version3A: one probe or none needs no synchronisation; otherwise choose
   * the fronts, truncate them, take the probe with most sync events as the
   * reference and write one pair of tables per probe.
   */
  method Version3A(files: seq<EphysFile>, linear: bool, tol: real, num: Numerics) returns (run: Run)
    requires AllWellFormed(files)
    ensures |files| <= 1 ==> run == Run(Ok(true), [])
    ensures run == Version3ASpec(files, linear, tol, num)
  {
    var nprobes := |files|;
    if nprobes <= 1 {
      return Run(Ok(true), []);
    }
    var d := GetSyncFronts(files, "frame2ttl");
    if d.None? {
      d := GetSyncFronts(files, "right_camera");
      if d.None? {
        assert SelectFronts(files) == Err(NoCameraFronts);
        return Run(Err(NoCameraFronts), []);
      }
      if !(MinFirst(d.value.times) > CameraStartSecs) {
        assert SelectFronts(files) == Err(CamerasStartedBeforeEphys);
        return Run(Err(CamerasStartedBeforeEphys), []);
      }
    }
    assert SelectFronts(files) == Ok(d.value);
    Version3AIsSession(files, d.value, linear, tol, num);
    var m := Truncate(d.value.times);
    var iref := ArgMax(d.value.nsync);
    var sr := files[iref].sr;
    run := WriteTables(Fits3A(m, nprobes, iref, sr, linear, tol, num), seq(nprobes, _ => sr));
  }

  /**
   * Past the one-probe shortcut and the choice of fronts, version3A is the
   * session run on the chosen fronts.
   */
  lemma Version3AIsSession(files: seq<EphysFile>, d: Fronts, linear: bool, tol: real, num: Numerics)
    requires |files| >= 2 && AllWellFormed(files)
    requires SelectFronts(files) == Ok(d)
    ensures |d.times| == |d.nsync| == |files| && forall i :: 0 <= i < |files| ==> d.times[i] != []
    ensures Version3ASpec(files, linear, tol, num) == Session3A(files, d, linear, tol, num)
  {
  }

  /**
   * A successful version3A session writes one pair of tables per probe: the
   * identity for the reference probe (the first with most sync events) and
   * the control points fitted against the reference column for every other
   * probe, with as timestamps each table with column 0 scaled by the
   * reference sampling rate.
   */
  lemma Session3ATables(files: seq<EphysFile>, d: Fronts, linear: bool, tol: real, num: Numerics)
    requires |files| >= 2 && |d.times| == |d.nsync| == |files|
    requires forall i :: 0 <= i < |files| ==> d.times[i] != []
    requires Session3A(files, d, linear, tol, num).outcome.Ok?
    ensures var m := Truncate(d.times);
      var iref := ArgMax(d.nsync);
      var sr := files[iref].sr;
      var run := Session3A(files, d, linear, tol, num);
      && |run.written| == |files|
      && (forall i :: 0 <= i < |files| ==>
            run.written[i].probe == i && run.written[i].stamps == Stamps(run.written[i].sync, sr))
      && run.written[iref].sync == Identity
      && (forall i :: 0 <= i < |files| && i != iref ==>
            run.written[i].sync == ControlPoints(Column(m, i), Column(m, iref), linear, num))
  {
    var m := Truncate(d.times);
    var iref := ArgMax(d.nsync);
    var sr := files[iref].sr;
    var fits := Fits3A(m, |files|, iref, sr, linear, tol, num);
    var srs := seq(|files|, _ => sr);
    var run := RunUpTo(fits, srs, |files|);
    RunSucceeds(fits, srs, |files|);
    forall i | 0 <= i < |files|
      ensures run.written[i].probe == i && run.written[i].stamps == Stamps(run.written[i].sync, sr)
      ensures i == iref ==> run.written[i].sync == Identity
      ensures i != iref ==> run.written[i].sync == ControlPoints(Column(m, i), Column(m, iref), linear, num)
    {
      assert run.written[i] == Record(i, fits[i].value, srs[i]);
    }
  }

  /** A successful non-reference fit of version3A and its verdict. */
  lemma Fits3AAt(m: seq<seq<real>>, n: nat, iref: nat, sr: real, linear: bool, tol: real, num: Numerics, i: nat)
    requires iref < n && forall r :: 0 <= r < |m| ==> |m[r]| == n
    requires i < n && i != iref && Fits3A(m, n, iref, sr, linear, tol, num)[i].Ok?
    ensures var ps := Fits3A(m, n, iref, sr, linear, tol, num)[i].value;
      && |ps.points| >= 2 && Ascending(ps.points)
      && (ps.qc <==> WithinTolerance(ps.points, Column(m, i), Column(m, iref), sr, tol))
  {
    var r := SyncProbeFrontTimes(Column(m, i), Column(m, iref), sr, linear, tol, num);
    assert Fits3A(m, n, iref, sr, linear, tol, num)[i] == r;
  }

  /**
   * The verdict of a completed version3A loop over the matrix `m` holds
   * exactly when every non-reference column's fit is within tolerance.
   */
  lemma Fits3AVerdict(m: seq<seq<real>>, n: nat, iref: nat, sr: real, linear: bool, tol: real, num: Numerics)
    requires iref < n && forall r :: 0 <= r < |m| ==> |m[r]| == n
    requires RunUpTo(Fits3A(m, n, iref, sr, linear, tol, num), seq(n, _ => sr), n).outcome.Ok?
    ensures var run := RunUpTo(Fits3A(m, n, iref, sr, linear, tol, num), seq(n, _ => sr), n);
      && |run.written| == n
      && (run.outcome.value <==>
            forall i :: 0 <= i < n && i != iref ==>
              |run.written[i].sync| >= 2 && Ascending(run.written[i].sync) &&
              WithinTolerance(run.written[i].sync, Column(m, i), Column(m, iref), sr, tol))
  {
    var fits := Fits3A(m, n, iref, sr, linear, tol, num);
    var srs := seq(n, _ => sr);
    assert fits[iref] == Ok(ProbeSync(Identity, true));
    VerdictSkipsReference(fits, srs, iref);
    Fits3AAll(m, n, iref, sr, linear, tol, num);
  }

  /** Every successful non-reference fit of version3A and its verdict. */
  lemma Fits3AAll(m: seq<seq<real>>, n: nat, iref: nat, sr: real, linear: bool, tol: real, num: Numerics)
    requires iref < n && forall r :: 0 <= r < |m| ==> |m[r]| == n
    ensures var fits := Fits3A(m, n, iref, sr, linear, tol, num);
      forall i :: 0 <= i < n && i != iref && fits[i].Ok? ==>
        && |fits[i].value.points| >= 2 && Ascending(fits[i].value.points)
        && (fits[i].value.qc <==> WithinTolerance(fits[i].value.points, Column(m, i), Column(m, iref), sr, tol))
  {
    forall i | 0 <= i < n && i != iref && Fits3A(m, n, iref, sr, linear, tol, num)[i].Ok? {
      Fits3AAt(m, n, iref, sr, linear, tol, num, i);
    }
  }

  /**
   * A completed run whose probe `iref` passes by construction: its verdict is
   * the AND over the other probes, and each written sync table is that
   * probe's points.
   */
  lemma VerdictSkipsReference(fits: seq<Result<ProbeSync, SyncError>>, srs: seq<real>, iref: nat)
    requires |fits| == |srs| && iref < |fits|
    requires fits[iref].Ok? && fits[iref].value.qc
    requires RunUpTo(fits, srs, |fits|).outcome.Ok?
    ensures var run := RunUpTo(fits, srs, |fits|);
      && |run.written| == |fits|
      && (forall i :: 0 <= i < |fits| ==> fits[i].Ok? && run.written[i].sync == fits[i].value.points)
      && (run.outcome.value <==> forall i :: 0 <= i < |fits| && i != iref ==> fits[i].value.qc)
  {
    RunSucceeds(fits, srs, |fits|);
    var run := RunUpTo(fits, srs, |fits|);
    forall i | 0 <= i < |fits| ensures fits[i].Ok? && run.written[i].sync == fits[i].value.points {
      assert run.written[i] == Record(i, fits[i].value, srs[i]);
    }
  }

  /**
   * The verdict of a successful version3A session holds exactly when every
   * non-reference probe's fit is within tolerance of its fronts, measured at
   * the reference sampling rate.
   */
  lemma Session3AVerdict(files: seq<EphysFile>, d: Fronts, linear: bool, tol: real, num: Numerics)
    requires |files| >= 2 && |d.times| == |d.nsync| == |files|
    requires forall i :: 0 <= i < |files| ==> d.times[i] != []
    requires Session3A(files, d, linear, tol, num).outcome.Ok?
    ensures var m := Truncate(d.times);
      var iref := ArgMax(d.nsync);
      var sr := files[iref].sr;
      var run := Session3A(files, d, linear, tol, num);
      && |run.written| == |files|
      && (run.outcome.value <==>
            forall i :: 0 <= i < |files| && i != iref ==>
              |run.written[i].sync| >= 2 && Ascending(run.written[i].sync) &&
              WithinTolerance(run.written[i].sync, Column(m, i), Column(m, iref), sr, tol))
  {
    Fits3AVerdict(Truncate(d.times), |files|, ArgMax(d.nsync), files[ArgMax(d.nsync)].sr, linear, tol, num);
  }

  /**
   * In smoothed mode a reference column whose upsampling is empty (its last
   * front not after its first) or that never exceeds 0 s (fewer than two
   * grid points) makes the first non-reference probe abort the session,
   * with the reference probe's identity table already written when it
   * comes first.
   */
  lemma Session3AAbortsSmoothed(files: seq<EphysFile>, d: Fronts, tol: real, num: Numerics)
    requires |files| >= 2 && |d.times| == |d.nsync| == |files|
    requires forall i :: 0 <= i < |files| ==> d.times[i] != []
    requires var tref := Column(Truncate(d.times), ArgMax(d.nsync));
      |tref| > 0 && (UpsampledSize(tref) == 0 || Max(tref) <= 0.0)
    ensures var iref := ArgMax(d.nsync);
      var tref := Column(Truncate(d.times), iref);
      var run := Session3A(files, d, false, tol, num);
      && run.outcome == Err(if UpsampledSize(tref) == 0 then EmptyUpsampling else TooFewControlPoints)
      && run.written == if iref == 0 then [Record(0, ProbeSync(Identity, true), files[iref].sr)] else []
  {
    var m := Truncate(d.times);
    var iref := ArgMax(d.nsync);
    var sr := files[iref].sr;
    var fits := Fits3A(m, |files|, iref, sr, false, tol, num);
    var srs := seq(|files|, _ => sr);
    var j := if iref == 0 then 1 else 0;
    var tref := Column(m, iref);
    assert fits[j] == SyncProbeFrontTimes(Column(m, j), tref, sr, false, tol, num);
    assert fits[j] == Err(if UpsampledSize(tref) == 0 then EmptyUpsampling else TooFewControlPoints);
    RunFails(fits, srs, j, |files|);
  }

  /** In linear mode a version3A session on chosen fronts never aborts. */
  lemma Session3ALinearCompletes(files: seq<EphysFile>, d: Fronts, tol: real, num: Numerics)
    requires |files| >= 2 && |d.times| == |d.nsync| == |files|
    requires forall i :: 0 <= i < |files| ==> d.times[i] != []
    ensures Session3A(files, d, true, tol, num).outcome.Ok?
  {
    var m := Truncate(d.times);
    var iref := ArgMax(d.nsync);
    var sr := files[iref].sr;
    var fits := Fits3A(m, |files|, iref, sr, true, tol, num);
    assert |m| > 0;
    forall i | 0 <= i < |files| ensures fits[i].Ok? {
    }
    RunSucceeds(fits, seq(|files|, _ => sr), |files|);
  }

  // ------------------------------------------------------- version3B

  /** Which recordings have nidq flag `nidq`. */
  function Flagged(files: seq<EphysFile>, nidq: bool): (mask: seq<bool>)
    ensures |mask| == |files|
    ensures forall k :: 0 <= k < |files| ==> (mask[k] <==> files[k].nidq == nidq)
  {
    seq(|files|, k requires 0 <= k < |files| => files[k].nidq == nidq)
  }

  /**
   * The recordings whose nidq flag is `nidq` (`[ef for ef in files if ...]`):
   * each such recording once per occurrence, in their original order.
   */
  function Select(files: seq<EphysFile>, nidq: bool): (r: seq<EphysFile>)
    ensures |r| <= |files|
    ensures var idx := Where(Flagged(files, nidq), 0);
      && |r| == |idx|
      && (forall j :: 0 <= j < |r| ==> files[idx[j]].nidq == nidq && r[j] == files[idx[j]])
      && (forall j, j' :: 0 <= j < j' < |r| ==> idx[j] < idx[j'])
      && (forall k :: 0 <= k < |files| && files[k].nidq == nidq ==> k in idx)
    ensures forall f :: f in r ==> f in files && f.nidq == nidq
    ensures forall f :: f in files && f.nidq == nidq ==> f in r
    ensures AllWellFormed(files) ==> AllWellFormed(r)
  {
    var mask := Flagged(files, nidq);
    PickWhere(files, mask);
    Pick(files, Where(mask, 0))
  }

  /**
   * One probe of version3B: its fronts on `imec_sync` against the nidq's,
   * which must be as many, at the probe's own sampling rate.
   */
  function ProbeFit3B(f: EphysFile, tnidq: seq<real>, linear: bool, tol: real, num: Numerics): (r: Result<ProbeSync, SyncError>)
    requires WellFormed(f.sync)
    ensures "imec_sync" !in f.syncMap ==> r == Err(MissingSyncLabel)
    ensures "imec_sync" in f.syncMap && |FrontTimes(f.sync, f.syncMap["imec_sync"])| != |tnidq| ==>
      r == Err(FrontCountMismatch)
  {
    if "imec_sync" !in f.syncMap then Err(MissingSyncLabel)
    else
      var tp := FrontTimes(f.sync, f.syncMap["imec_sync"]);
      if |tnidq| != |tp| then Err(FrontCountMismatch)
      else SyncProbeFrontTimes(tp, tnidq, f.sr, linear, tol, num)
  }

  function Fits3B(probes: seq<EphysFile>, tnidq: seq<real>, linear: bool, tol: real, num: Numerics): (fits: seq<Result<ProbeSync, SyncError>>)
    requires AllWellFormed(probes)
    ensures |fits| == |probes|
  {
    seq(|probes|, i requires 0 <= i < |probes| => ProbeFit3B(probes[i], tnidq, linear, tol, num))
  }

  /** The session of version3B once the nidq's imec_sync fronts are known. */
  function Session3B(probes: seq<EphysFile>, tnidq: seq<real>, linear: bool, tol: real, num: Numerics): (run: Run)
    requires AllWellFormed(probes)
    ensures |run.written| <= |probes|
  {
    RunUpTo(Fits3B(probes, tnidq, linear, tol, num),
            seq(|probes|, i requires 0 <= i < |probes| => probes[i].sr), |probes|)
  }

  /** version3B as a function of the loaded recordings. */
  function Version3BSpec(files: seq<EphysFile>, linear: bool, tol: real, num: Numerics): (run: Run)
    requires AllWellFormed(files)
    ensures |Select(files, false)| <= 1 ==> run == Run(Ok(true), [])
    ensures |Select(files, false)| >= 2 && |Select(files, true)| != 1 ==> run == Run(Err(NidqCount), [])
    ensures |run.written| <= |Select(files, false)|
  {
    var nidqs := Select(files, true);
    var probes := Select(files, false);
    if |probes| <= 1 then Run(Ok(true), [])
    else if |nidqs| != 1 then Run(Err(NidqCount), [])
    else if "imec_sync" !in nidqs[0].syncMap then Run(Err(MissingSyncLabel), [])
    else Session3B(probes, FrontTimes(nidqs[0].sync, nidqs[0].syncMap["imec_sync"]), linear, tol, num)
  }

  /**
   * version3B: the nidq unit is taken out of the probe list; with one probe
   * or none nothing is written; otherwise there must be exactly one nidq
   * unit, carrying imec_sync, and every probe is synchronised against its
   * imec_sync fronts.
   */
  method Version3B(files: seq<EphysFile>, linear: bool, tol: real, num: Numerics) returns (run: Run)
    requires AllWellFormed(files)
    ensures |Select(files, false)| <= 1 ==> run == Run(Ok(true), [])
    ensures |Select(files, false)| >= 2 && |Select(files, true)| != 1 ==> run == Run(Err(NidqCount), [])
    ensures (|Select(files, false)| >= 2 && |Select(files, true)| == 1 &&
             "imec_sync" !in Select(files, true)[0].syncMap) ==> run == Run(Err(MissingSyncLabel), [])
    ensures run == Version3BSpec(files, linear, tol, num)
  {
    var nidqFile := Select(files, true);
    var probes := Select(files, false);
    var nprobes := |probes|;
    if nprobes <= 1 {
      return Run(Ok(true), []);
    }
    if |nidqFile| != 1 {
      return Run(Err(NidqCount), []);
    }
    var nidq := nidqFile[0];
    if "imec_sync" !in nidq.syncMap {
      return Run(Err(MissingSyncLabel), []);
    }
    var syncNidq := FrontTimes(nidq.sync, nidq.syncMap["imec_sync"]);
    run := WriteTables(Fits3B(probes, syncNidq, linear, tol, num),
                       seq(nprobes, i requires 0 <= i < nprobes => probes[i].sr));
  }

  /**
   * A successful version3B session writes, for every probe, the control
   * points fitted from its imec_sync fronts against the nidq's (equal in
   * number) and as timestamps that table scaled by the probe's own sampling
   * rate.
   */
  lemma Session3BTables(probes: seq<EphysFile>, tnidq: seq<real>, linear: bool, tol: real, num: Numerics)
    requires AllWellFormed(probes)
    requires Session3B(probes, tnidq, linear, tol, num).outcome.Ok?
    ensures var run := Session3B(probes, tnidq, linear, tol, num);
      && |run.written| == |probes|
      && (forall i :: 0 <= i < |probes| ==>
            && "imec_sync" in probes[i].syncMap
            && var tp := FrontTimes(probes[i].sync, probes[i].syncMap["imec_sync"]);
            && |tp| == |tnidq|
            && run.written[i].probe == i
            && run.written[i].sync == ControlPoints(tp, tnidq, linear, num)
            && run.written[i].stamps == Stamps(run.written[i].sync, probes[i].sr))
  {
    var fits := Fits3B(probes, tnidq, linear, tol, num);
    var srs := seq(|probes|, i requires 0 <= i < |probes| => probes[i].sr);
    var run := RunUpTo(fits, srs, |probes|);
    RunSucceeds(fits, srs, |probes|);
    forall i | 0 <= i < |probes|
      ensures "imec_sync" in probes[i].syncMap
      ensures var tp := FrontTimes(probes[i].sync, probes[i].syncMap["imec_sync"]);
        && |tp| == |tnidq|
        && run.written[i].probe == i
        && run.written[i].sync == ControlPoints(tp, tnidq, linear, num)
        && run.written[i].stamps == Stamps(run.written[i].sync, probes[i].sr)
    {
      assert fits[i].Ok?;
      assert run.written[i] == Record(i, fits[i].value, srs[i]);
    }
  }

  /**
   * The verdict of a successful version3B session holds exactly when every
   * probe's fit is within tolerance of its fronts, measured at the probe's
   * own sampling rate.
   */
  lemma Session3BVerdict(probes: seq<EphysFile>, tnidq: seq<real>, linear: bool, tol: real, num: Numerics)
    requires AllWellFormed(probes)
    requires Session3B(probes, tnidq, linear, tol, num).outcome.Ok?
    ensures var run := Session3B(probes, tnidq, linear, tol, num);
      && |run.written| == |probes|
      && (forall i :: 0 <= i < |probes| ==> "imec_sync" in probes[i].syncMap)
      && (run.outcome.value <==> forall i :: 0 <= i < |probes| ==>
            var tp := FrontTimes(probes[i].sync, probes[i].syncMap["imec_sync"]);
            && |tp| == |tnidq| && |run.written[i].sync| >= 2 && Ascending(run.written[i].sync)
            && WithinTolerance(run.written[i].sync, tp, tnidq, probes[i].sr, tol))
  {
    var fits := Fits3B(probes, tnidq, linear, tol, num);
    var srs := seq(|probes|, i requires 0 <= i < |probes| => probes[i].sr);
    var run := RunUpTo(fits, srs, |probes|);
    RunSucceeds(fits, srs, |probes|);
    forall i | 0 <= i < |probes|
      ensures "imec_sync" in probes[i].syncMap
      ensures var tp := FrontTimes(probes[i].sync, probes[i].syncMap["imec_sync"]);
        && |tp| == |tnidq| && |run.written[i].sync| >= 2 && Ascending(run.written[i].sync)
        && (fits[i].value.qc <==> WithinTolerance(run.written[i].sync, tp, tnidq, probes[i].sr, tol))
    {
      assert fits[i].Ok?;
      assert run.written[i] == Record(i, fits[i].value, srs[i]);
    }
  }

  /**
   * A probe without imec_sync, or with a different number of fronts than
   * the nidq, aborts version3B when every probe before it succeeded: its
   * error is reported and only the earlier probes' tables are written.
   */
  lemma Session3BAborts(probes: seq<EphysFile>, tnidq: seq<real>, linear: bool, tol: real, num: Numerics, j: nat)
    requires AllWellFormed(probes) && j < |probes|
    requires forall i :: 0 <= i < j ==> ProbeFit3B(probes[i], tnidq, linear, tol, num).Ok?
    requires "imec_sync" !in probes[j].syncMap ||
      |FrontTimes(probes[j].sync, probes[j].syncMap["imec_sync"])| != |tnidq|
    ensures var run := Session3B(probes, tnidq, linear, tol, num);
      && run.outcome == Err(if "imec_sync" !in probes[j].syncMap then MissingSyncLabel else FrontCountMismatch)
      && |run.written| == j
      && forall i :: 0 <= i < j ==>
           run.written[i] == Record(i, ProbeFit3B(probes[i], tnidq, linear, tol, num).value, probes[i].sr)
  {
    var fits := Fits3B(probes, tnidq, linear, tol, num);
    var srs := seq(|probes|, i requires 0 <= i < |probes| => probes[i].sr);
    assert fits[j].Err?;
    RunFails(fits, srs, j, |probes|);
  }

  /**
   * In smoothed mode, nidq fronts whose last time is not after their first
   * (a single front, say) leave nothing to upsample: the first probe aborts
   * the session, if not for its label or count then at the median padding,
   * and no table is written.
   */
  lemma Session3BAbortsSmoothed(probes: seq<EphysFile>, tnidq: seq<real>, tol: real, num: Numerics)
    requires AllWellFormed(probes) && |probes| > 0 && |tnidq| > 0 && UpsampledSize(tnidq) == 0
    ensures var run := Session3B(probes, tnidq, false, tol, num);
      && run.outcome == Err(
           if "imec_sync" !in probes[0].syncMap then MissingSyncLabel
           else if |FrontTimes(probes[0].sync, probes[0].syncMap["imec_sync"])| != |tnidq| then FrontCountMismatch
           else EmptyUpsampling)
      && run.written == []
  {
    var fits := Fits3B(probes, tnidq, false, tol, num);
    var srs := seq(|probes|, i requires 0 <= i < |probes| => probes[i].sr);
    assert fits[0] == ProbeFit3B(probes[0], tnidq, false, tol, num);
    RunFails(fits, srs, 0, |probes|);
  }
}

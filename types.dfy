/** The job aggregator of `src/types.rs`: the per-tick snapshot, the per-process
    records, the running `JobState`, and its conversion into the final
    `JobProfile` with the optional include/exclude filter.

    Timestamps are abstract ordered values; the floating-point
    `elapsed_seconds` and `duration_seconds` fields are not modelled. */
module Types {
  import opened Wrappers
  import Text

  type Timestamp = int

  function Max(a: nat, b: nat): nat { if a >= b then a else b }

  /** Which patterns a profile was filtered with. */
  datatype FilterConfig = FilterConfig(excludePattern: Option<string>, includePattern: Option<string>)
  {
    /** One display line per given pattern, exclude first. */
    function DisplayPatterns(): (lines: seq<string>)
      ensures |lines| == (if excludePattern.Some? then 1 else 0) + (if includePattern.Some? then 1 else 0)
      ensures excludePattern.Some? ==> lines[0] == "Exclude pattern: '" + excludePattern.value + "'"
      ensures includePattern.Some? ==> lines[|lines| - 1] == "Include pattern: '" + includePattern.value + "'"
    {
      (if excludePattern.Some? then ["Exclude pattern: '" + excludePattern.value + "'"] else [])
      + (if includePattern.Some? then ["Include pattern: '" + includePattern.value + "'"] else [])
    }

    /** The patterns as `exclude='..'` / `include='..'`, joined by one space. */
    function ToCsvComment(): (r: string)
      ensures r == Text.Join(Parts(), " ")
      ensures r == [] <==> excludePattern.None? && includePattern.None?
    {
      if excludePattern.Some? && includePattern.Some? then ExcludePart() + " " + IncludePart()
      else if excludePattern.Some? then ExcludePart()
      else if includePattern.Some? then IncludePart()
      else []
    }

    /** The `exclude='..'` and `include='..'` parts, exclude first. */
    function Parts(): seq<string> {
      (if excludePattern.Some? then [ExcludePart()] else []) + (if includePattern.Some? then [IncludePart()] else [])
    }

    function ExcludePart(): string
      requires excludePattern.Some?
    {
      "exclude='" + excludePattern.value + "'"
    }

    function IncludePart(): string
      requires includePattern.Some?
    {
      "include='" + includePattern.value + "'"
    }
  }

  /** One process as seen by one snapshot. */
  datatype ProcessSample = ProcessSample(pid: int, ppid: int, rssKib: nat, command: string)

  /** The record the aggregator keeps per pid. */
  datatype ProcessStats = ProcessStats(
    pid: int, ppid: int, command: string, maxRssKib: nat,
    firstSeen: Timestamp, lastSeen: Timestamp, peakTime: Timestamp)

  /** One timeline point (its `elapsed_seconds` is not modelled). */
  datatype TimelinePoint = TimelinePoint(timestamp: Timestamp, totalRssKib: nat, processCount: nat)

  /** The job's processes at one instant, as `sample_job_tree` hands them over. */
  datatype JobSnapshot = JobSnapshot(timestamp: Timestamp, totalRssKib: nat, processes: seq<ProcessSample>)

  /** The frozen report (its `duration_seconds` is not modelled). */
  datatype JobProfile = JobProfile(
    command: seq<string>,
    startTime: Timestamp,
    endTime: Timestamp,
    intervalMs: nat,
    maxTotalRssKib: nat,
    samples: nat,
    processes: seq<ProcessStats>,
    timeline: Option<seq<TimelinePoint>>,
    exitCode: Option<int>,
    filter: Option<FilterConfig>,
    filteredProcessCount: Option<nat>,
    filteredTotalRssKib: Option<nat>)

  // ---------------------------------------------------------------------------
  // What one update does to the record map

  /** `or_insert_with`: the record of a pid seen for the first time. */
  function NewRecord(p: ProcessSample, ts: Timestamp): ProcessStats {
    ProcessStats(p.pid, p.ppid, p.command, p.rssKib, ts, ts, ts)
  }

  /** `and_modify`: raise the peak (and its time) only on a strictly larger
      sample; always move `last_seen`. */
  function Refresh(s: ProcessStats, rss: nat, ts: Timestamp): ProcessStats {
    var raised := if rss > s.maxRssKib then s.(maxRssKib := rss, peakTime := ts) else s;
    raised.(lastSeen := ts)
  }

  function ApplySample(stats: map<int, ProcessStats>, p: ProcessSample, ts: Timestamp): map<int, ProcessStats> {
    if p.pid in stats then stats[p.pid := Refresh(stats[p.pid], p.rssKib, ts)]
    else stats[p.pid := NewRecord(p, ts)]
  }

  /** The record map after the samples `ps`, in order, all stamped `ts`. */
  function ApplySamples(stats: map<int, ProcessStats>, ps: seq<ProcessSample>, ts: Timestamp): map<int, ProcessStats> {
    if ps == [] then stats
    else ApplySample(ApplySamples(stats, ps[..|ps| - 1], ts), ps[|ps| - 1], ts)
  }

  /** The record map built from nothing by the snapshots of `h`, in order. */
  function Replay(h: seq<JobSnapshot>): map<int, ProcessStats> {
    if h == [] then map[]
    else ApplySamples(Replay(h[..|h| - 1]), h[|h| - 1].processes, h[|h| - 1].timestamp)
  }

  /** The running maximum of the snapshot totals, 0 before any snapshot. */
  function MaxTotal(h: seq<JobSnapshot>): nat {
    if h == [] then 0 else Max(MaxTotal(h[..|h| - 1]), h[|h| - 1].totalRssKib)
  }

  function PointOf(s: JobSnapshot): TimelinePoint {
    TimelinePoint(s.timestamp, s.totalRssKib, |s.processes|)
  }

  /** The timeline the snapshots of `h` produce: one point per snapshot. */
  function TimelineOf(h: seq<JobSnapshot>): seq<TimelinePoint> {
    if h == [] then [] else TimelineOf(h[..|h| - 1]) + [PointOf(h[|h| - 1])]
  }

  predicate DistinctPids(ps: seq<ProcessSample>) {
    forall i, j :: 0 <= i < j < |ps| ==> ps[i].pid != ps[j].pid
  }

  /** Every record is filed under its own pid. */
  predicate Keyed(stats: map<int, ProcessStats>) {
    forall pid :: pid in stats ==> stats[pid].pid == pid
  }

  /** Some snapshot of `h` held a sample for `pid`. */
  ghost predicate Seen(h: seq<JobSnapshot>, pid: int) {
    exists i, j :: 0 <= i < |h| && 0 <= j < |h[i].processes| && h[i].processes[j].pid == pid
  }

  /** Snapshots come in non-decreasing time order. */
  predicate Chronological(h: seq<JobSnapshot>) {
    forall i, j :: 0 <= i < j < |h| ==> h[i].timestamp <= h[j].timestamp
  }

  // ---------------------------------------------------------------------------
  // Lemmas about one update

  /** Records are never removed; a pid absent from the samples keeps its record. */
  lemma {:induction false} ApplySamplesFrame(stats: map<int, ProcessStats>, ps: seq<ProcessSample>, ts: Timestamp, pid: int)
    ensures pid in ApplySamples(stats, ps, ts) <==> pid in stats || exists j :: 0 <= j < |ps| && ps[j].pid == pid
    ensures (forall j :: 0 <= j < |ps| ==> ps[j].pid != pid) && pid in stats ==> ApplySamples(stats, ps, ts)[pid] == stats[pid]
  {
    if ps != [] {
      var pre := ps[..|ps| - 1];
      ApplySamplesFrame(stats, pre, ts, pid);
      assert forall j :: 0 <= j < |pre| ==> pre[j] == ps[j];
      if pid in ApplySamples(stats, ps, ts) && pid !in stats && ps[|ps| - 1].pid != pid {
        var j :| 0 <= j < |pre| && pre[j].pid == pid;
        assert ps[j].pid == pid;
      }
    }
  }

  /** With distinct pids (as `sample_job_tree` produces), the record of each
      sampled pid is the refreshed old record, or a new one. */
  lemma {:induction false} ApplySamplesPresent(stats: map<int, ProcessStats>, ps: seq<ProcessSample>, ts: Timestamp, j: nat)
    requires DistinctPids(ps)
    requires j < |ps|
    ensures ps[j].pid in ApplySamples(stats, ps, ts)
    ensures ApplySamples(stats, ps, ts)[ps[j].pid]
         == if ps[j].pid in stats then Refresh(stats[ps[j].pid], ps[j].rssKib, ts) else NewRecord(ps[j], ts)
  {
    var pre := ps[..|ps| - 1];
    var pid := ps[j].pid;
    if j == |ps| - 1 {
      ApplySamplesFrame(stats, pre, ts, pid);
    } else {
      assert pre[j] == ps[j];
      ApplySamplesPresent(stats, pre, ts, j);
    }
  }

  /** One update as seen by a single pid: the peak is the max of the old peak
      and every new sample of that pid, and it is one of those values. */
  lemma {:induction false} ApplySamplesPeak(stats: map<int, ProcessStats>, ps: seq<ProcessSample>, ts: Timestamp, pid: int)
    requires Keyed(stats)
    requires pid in ApplySamples(stats, ps, ts)
    ensures Keyed(ApplySamples(stats, ps, ts))
    ensures pid in stats ==> ApplySamples(stats, ps, ts)[pid].maxRssKib >= stats[pid].maxRssKib
    ensures forall j :: 0 <= j < |ps| && ps[j].pid == pid ==> ps[j].rssKib <= ApplySamples(stats, ps, ts)[pid].maxRssKib
    ensures || (pid in stats && ApplySamples(stats, ps, ts)[pid].maxRssKib == stats[pid].maxRssKib)
            || (exists j :: 0 <= j < |ps| && ps[j].pid == pid && ps[j].rssKib == ApplySamples(stats, ps, ts)[pid].maxRssKib)
  {
    if ps != [] {
      var pre := ps[..|ps| - 1];
      var last := ps[|ps| - 1];
      var mid := ApplySamples(stats, pre, ts);
      var r := ApplySamples(stats, ps, ts);
      assert forall j :: 0 <= j < |pre| ==> pre[j] == ps[j];
      if pid in mid {
        ApplySamplesPeak(stats, pre, ts, pid);
      } else {
        ApplySamplesFrame(stats, pre, ts, pid);
        assert pid == last.pid;
        ApplySamplesKeyed(stats, pre, ts);
      }
      ApplySamplesKeyed(stats, ps, ts);
    }
  }

  lemma {:induction false} ApplySamplesKeyed(stats: map<int, ProcessStats>, ps: seq<ProcessSample>, ts: Timestamp)
    requires Keyed(stats)
    ensures Keyed(ApplySamples(stats, ps, ts))
  {
    if ps != [] {
      ApplySamplesKeyed(stats, ps[..|ps| - 1], ts);
    }
  }

  /** One update as seen by a single pid's timestamps. */
  lemma {:induction false} ApplySamplesTimes(stats: map<int, ProcessStats>, ps: seq<ProcessSample>, ts: Timestamp, pid: int)
    requires pid in ApplySamples(stats, ps, ts)
    requires exists j :: 0 <= j < |ps| && ps[j].pid == pid
    ensures var r := ApplySamples(stats, ps, ts)[pid];
      && r.firstSeen == (if pid in stats then stats[pid].firstSeen else ts)
      && (r.peakTime == ts || (pid in stats && r.peakTime == stats[pid].peakTime))
      && r.lastSeen == ts
  {
    var pre := ps[..|ps| - 1];
    var last := ps[|ps| - 1];
    assert forall j :: 0 <= j < |pre| ==> pre[j] == ps[j];
    if last.pid != pid {
      ApplySamplesTimes(stats, pre, ts, pid);
    } else if pid in ApplySamples(stats, pre, ts) && exists j :: 0 <= j < |pre| && pre[j].pid == pid {
      ApplySamplesTimes(stats, pre, ts, pid);
    } else {
      ApplySamplesFrame(stats, pre, ts, pid);
    }
  }

  // ---------------------------------------------------------------------------
  // Lemmas about a whole run of updates

  /** Every record is filed under its own pid. */
  lemma {:induction false} ReplayKeyed(h: seq<JobSnapshot>)
    ensures Keyed(Replay(h))
  {
    if h != [] {
      ReplayKeyed(h[..|h| - 1]);
      ApplySamplesKeyed(Replay(h[..|h| - 1]), h[|h| - 1].processes, h[|h| - 1].timestamp);
    }
  }

  /** The peak total is the largest snapshot total (0 before any snapshot). */
  lemma {:induction false} MaxTotalIsPeak(h: seq<JobSnapshot>)
    ensures forall i :: 0 <= i < |h| ==> h[i].totalRssKib <= MaxTotal(h)
    ensures h == [] ==> MaxTotal(h) == 0
    ensures h != [] ==> exists i :: 0 <= i < |h| && h[i].totalRssKib == MaxTotal(h)
  {
    if h != [] {
      var pre := h[..|h| - 1];
      MaxTotalIsPeak(pre);
      assert forall i :: 0 <= i < |pre| ==> pre[i] == h[i];
    }
  }

  /** A record exists exactly for the pids some snapshot held; its peak is the
      largest RSS ever sampled for that pid. */
  lemma {:induction false} ReplayPeakIsMaxObserved(h: seq<JobSnapshot>, pid: int)
    ensures Keyed(Replay(h))
    ensures pid in Replay(h) <==> Seen(h, pid)
    ensures pid in Replay(h) ==>
      forall i, j :: 0 <= i < |h| && 0 <= j < |h[i].processes| && h[i].processes[j].pid == pid
        ==> h[i].processes[j].rssKib <= Replay(h)[pid].maxRssKib
    ensures pid in Replay(h) ==>
      exists i, j :: 0 <= i < |h| && 0 <= j < |h[i].processes| && h[i].processes[j].pid == pid
        && h[i].processes[j].rssKib == Replay(h)[pid].maxRssKib
  {
    if h != [] {
      var pre := h[..|h| - 1];
      var s := h[|h| - 1];
      var before := Replay(pre);
      var after := Replay(h);
      ReplayPeakIsMaxObserved(pre, pid);
      assert forall i :: 0 <= i < |pre| ==> pre[i] == h[i];
      ApplySamplesKeyed(before, s.processes, s.timestamp);
      ApplySamplesFrame(before, s.processes, s.timestamp, pid);
      if pid in after {
        ApplySamplesPeak(before, s.processes, s.timestamp, pid);
        if pid in before && after[pid].maxRssKib == before[pid].maxRssKib {
          var i, j :| 0 <= i < |pre| && 0 <= j < |pre[i].processes| && pre[i].processes[j].pid == pid
            && pre[i].processes[j].rssKib == before[pid].maxRssKib;
          assert h[i] == pre[i];
        } else {
          var j :| 0 <= j < |s.processes| && s.processes[j].pid == pid && s.processes[j].rssKib == after[pid].maxRssKib;
          assert h[|h| - 1].processes[j] == s.processes[j];
        }
      }
      if Seen(h, pid) && !Seen(pre, pid) {
        var i, j :| 0 <= i < |h| && 0 <= j < |h[i].processes| && h[i].processes[j].pid == pid;
        assert i == |h| - 1;
      }
    }
  }

  /** Per-pid peaks never decrease and records are never removed. */
  lemma PeaksNeverDecrease(h: seq<JobSnapshot>, s: JobSnapshot, pid: int)
    requires pid in Replay(h)
    ensures pid in Replay(h + [s])
    ensures Replay(h + [s])[pid].maxRssKib >= Replay(h)[pid].maxRssKib
  {
    assert (h + [s])[..|h|] == h;
    ReplayPeakIsMaxObserved(h, pid);
    ApplySamplesFrame(Replay(h), s.processes, s.timestamp, pid);
    ApplySamplesPeak(Replay(h), s.processes, s.timestamp, pid);
  }

  /** When ticks come in time order, every record has
      `first_seen <= peak_time <= last_seen`, none later than the last tick. */
  lemma {:induction false} ReplayTimesOrdered(h: seq<JobSnapshot>, pid: int)
    requires Chronological(h)
    requires pid in Replay(h)
    ensures h != []
    ensures Replay(h)[pid].firstSeen <= Replay(h)[pid].peakTime <= Replay(h)[pid].lastSeen <= h[|h| - 1].timestamp
  {
    var pre := h[..|h| - 1];
    var s := h[|h| - 1];
    var before := Replay(pre);
    assert Chronological(pre);
    if pid in before {
      ReplayTimesOrdered(pre, pid);
      assert pre[|pre| - 1] == h[|h| - 2];
    }
    if exists j :: 0 <= j < |s.processes| && s.processes[j].pid == pid {
      ApplySamplesTimes(before, s.processes, s.timestamp, pid);
    } else {
      ApplySamplesFrame(before, s.processes, s.timestamp, pid);
    }
  }

  // ---------------------------------------------------------------------------
  // The aggregator

  /** `ApplySamples` on one more sample. */
  lemma ApplySamplesStep(stats: map<int, ProcessStats>, ps: seq<ProcessSample>, i: nat, ts: Timestamp)
    requires i < |ps|
    ensures ApplySamples(stats, ps[..i + 1], ts) == ApplySample(ApplySamples(stats, ps[..i], ts), ps[i], ts)
  {
    assert ps[..i + 1][..i] == ps[..i];
  }

  /** The figures of a history with one more snapshot. */
  lemma HistoryStep(h: seq<JobSnapshot>, s: JobSnapshot)
    ensures Replay(h + [s]) == ApplySamples(Replay(h), s.processes, s.timestamp)
    ensures MaxTotal(h + [s]) == Max(MaxTotal(h), s.totalRssKib)
    ensures TimelineOf(h + [s]) == TimelineOf(h) + [PointOf(s)]
    ensures |h + [s]| == |h| + 1
  {
    assert (h + [s])[..|h|] == h;
  }

  class JobState {
    /** Set once, when the state is created. */
    const startTime: Timestamp
    /** Whether the state was created with a timeline; the timeline never
        appears or disappears afterwards. */
    ghost const tracksTimeline: bool
    var maxTotalRssKib: nat
    var samples: nat
    var processStats: map<int, ProcessStats>
    var timeline: Option<seq<TimelinePoint>>
    /** The snapshots applied so far, oldest first. */
    ghost var history: seq<JobSnapshot>

    /** The fields are exactly what the applied snapshots determine. */
    ghost predicate Valid()
      reads this
    {
      && samples == |history|
      && timeline.Some? == tracksTimeline
      && maxTotalRssKib == MaxTotal(history)
      && processStats == Replay(history)
      && (timeline.Some? ==> timeline.value == TimelineOf(history))
    }

    /** `JobState::new`; `now` stands for the clock read. */
    constructor (trackTimeline: bool, now: Timestamp)
      ensures Valid() && history == []
      ensures startTime == now && maxTotalRssKib == 0 && samples == 0 && processStats == map[]
      ensures timeline == if trackTimeline then Some([]) else None
    {
      startTime := now;
      maxTotalRssKib := 0;
      samples := 0;
      processStats := map[];
      timeline := if trackTimeline then Some([]) else None;
      tracksTimeline := trackTimeline;
      history := [];
    }

    /** `JobState::update`: apply one snapshot as one batch. */
    method Update(snapshot: JobSnapshot)
      requires Valid()
      modifies this
      ensures Valid() && history == old(history) + [snapshot]
      ensures samples == old(samples) + 1
      ensures maxTotalRssKib == Max(old(maxTotalRssKib), snapshot.totalRssKib)
      ensures timeline == if old(timeline).Some? then Some(old(timeline).value + [PointOf(snapshot)]) else None
      ensures processStats == ApplySamples(old(processStats), snapshot.processes, snapshot.timestamp)
    {
      samples := samples + 1;
      maxTotalRssKib := Max(maxTotalRssKib, snapshot.totalRssKib);
      if timeline.Some? {
        timeline := Some(timeline.value + [TimelinePoint(snapshot.timestamp, snapshot.totalRssKib, |snapshot.processes|)]);
      }
      var ps, ts := snapshot.processes, snapshot.timestamp;
      var i := 0;
      while i < |ps|
        invariant 0 <= i <= |ps|
        invariant processStats == ApplySamples(old(processStats), ps[..i], ts)
        invariant samples == old(samples) + 1 && maxTotalRssKib == Max(old(maxTotalRssKib), snapshot.totalRssKib)
        invariant timeline == if old(timeline).Some? then Some(old(timeline).value + [PointOf(snapshot)]) else None
        invariant history == old(history)
      {
        var p := ps[i];
        if p.pid in processStats {
          var stats := processStats[p.pid];
          if p.rssKib > stats.maxRssKib {
            stats := stats.(maxRssKib := p.rssKib, peakTime := ts);
          }
          stats := stats.(lastSeen := ts);
          processStats := processStats[p.pid := stats];
        } else {
          processStats := processStats[p.pid := ProcessStats(p.pid, p.ppid, p.command, p.rssKib, ts, ts, ts)];
        }
        ApplySamplesStep(old(processStats), ps, i, ts);
        i := i + 1;
      }
      assert ps[..i] == ps;
      ghost var h := old(history);
      HistoryStep(h, snapshot);
      history := h + [snapshot];
    }

    /** The records as a list, in the unspecified order of `into_values`. */
    method Records() returns (all: seq<ProcessStats>)
      requires Valid()
      ensures multiset(all) == multiset(processStats.Values)
    {
      ReplayKeyed(history);
      var remaining := processStats.Keys;
      all := [];
      while remaining != {}
        invariant remaining <= processStats.Keys
        invariant multiset(all) == multiset(ValuesOf(processStats, processStats.Keys - remaining))
        decreases remaining
      {
        HasMember(remaining);
        var pid :| pid in remaining;
        var done := processStats.Keys - remaining;
        assert processStats[pid] !in ValuesOf(processStats, done);
        assert ValuesOf(processStats, done + {pid}) == ValuesOf(processStats, done) + {processStats[pid]};
        assert processStats.Keys - (remaining - {pid}) == done + {pid};
        all := all + [processStats[pid]];
        remaining := remaining - {pid};
      }
      forall v | v in processStats.Values ensures v in ValuesOf(processStats, processStats.Keys) {
        HasKey(processStats, v);
        var k :| k in processStats && processStats[k] == v;
      }
    }

    /** `JobState::into_profile` (the five-argument form): sort the records by
        peak, largest first, and apply the filter when a pattern is given.
        `endTime` stands for the clock read; `all` is the sorted record list
        before filtering. */
    method IntoProfile(command: seq<string>, intervalMs: nat, exitCode: Option<int>,
                       excludeRegex: Option<Regex>, includeRegex: Option<Regex>, endTime: Timestamp)
      returns (r: Result<JobProfile>, ghost all: seq<ProcessStats>)
      requires Valid()
      ensures SortedByPeak(all) && multiset(all) == multiset(processStats.Values)
      ensures excludeRegex.None? && includeRegex.None? ==>
        r == Ok(JobProfile(command, startTime, endTime, intervalMs, maxTotalRssKib, samples, all,
                           timeline, exitCode, None, None, None))
      ensures (excludeRegex.Some? || includeRegex.Some?) && !PatternsCompile(excludeRegex, includeRegex) ==>
        r == Err(FirstPatternError(excludeRegex, includeRegex))
      ensures (excludeRegex.Some? || includeRegex.Some?) && PatternsCompile(excludeRegex, includeRegex) ==>
        r == Ok(JobProfile(command, startTime, endTime, intervalMs, maxTotalRssKib, samples,
                           Kept(all, excludeRegex, includeRegex), timeline, exitCode,
                           Some(FilterConfig(PatternOf(excludeRegex), PatternOf(includeRegex))),
                           Some(|Dropped(all, excludeRegex, includeRegex)|),
                           Some(SumPeaks(Dropped(all, excludeRegex, includeRegex)))))
    {
      var unsorted := Records();
      var sorted := SortByPeak(unsorted);
      SortByPeakCorrect(unsorted);
      all := sorted;
      if excludeRegex.Some? || includeRegex.Some? {
        var f := ApplyFilter(sorted, excludeRegex, includeRegex);
        if f.Err? {
          return Err(f.msg), all;
        }
        var (kept, info) := f.value;
        r := Ok(JobProfile(command, startTime, endTime, intervalMs, maxTotalRssKib, samples, kept,
                           timeline, exitCode,
                           Some(FilterConfig(PatternOf(excludeRegex), PatternOf(includeRegex))),
                           Some(info.value.0), Some(info.value.1)));
      } else {
        r := Ok(JobProfile(command, startTime, endTime, intervalMs, maxTotalRssKib, samples, sorted,
                           timeline, exitCode, None, None, None));
      }
    }
  }

  /** A non-empty set has a member. */
  lemma HasMember(r: set<int>)
    requires r != {}
    ensures exists x :: x in r
  {
    if forall x :: x !in r { assert false; }
  }

  /** Every value of a map is stored under some key. */
  lemma HasKey(m: map<int, ProcessStats>, v: ProcessStats)
    requires v in m.Values
    ensures exists k :: k in m && m[k] == v
  {
    if forall k :: k in m ==> m[k] != v { assert false; }
  }

  ghost function ValuesOf(m: map<int, ProcessStats>, keys: set<int>): set<ProcessStats> {
    set k | k in keys && k in m :: m[k]
  }

  // ---------------------------------------------------------------------------
  // The processes the exports and the summary show

  /** The processes that are reported (a CSV row, a summary line): those with
      a non-zero peak, in order. */
  function Resident(ps: seq<ProcessStats>): seq<ProcessStats> {
    if ps == [] then []
    else Resident(ps[..|ps| - 1]) + (if ps[|ps| - 1].maxRssKib > 0 then [ps[|ps| - 1]] else [])
  }

  /** Exactly the processes with a non-zero peak are reported, in profile order. */
  lemma {:induction false} ResidentSelects(ps: seq<ProcessStats>)
    ensures forall s :: s in Resident(ps) <==> s in ps && s.maxRssKib > 0
    ensures |Resident(ps)| <= |ps|
    ensures |Resident(ps)| == |ps| <==> forall i :: 0 <= i < |ps| ==> ps[i].maxRssKib > 0
  {
    if ps != [] {
      var init := ps[..|ps| - 1];
      ResidentSelects(init);
      assert ps == init + [ps[|ps| - 1]];
      if |Resident(ps)| == |ps| {
        assert |Resident(init)| == |init|;
      }
    }
  }

  /** Selection keeps order: the rows of a concatenation are the rows of its
      parts, one after the other. */
  lemma {:induction false} ResidentAppend(a: seq<ProcessStats>, b: seq<ProcessStats>)
    ensures Resident(a + b) == Resident(a) + Resident(b)
  {
    if b == [] {
      assert a + b == a;
    } else {
      var c := b[..|b| - 1];
      assert (a + b)[..|a + b| - 1] == a + c;
      ResidentAppend(a, c);
    }
  }

  // ---------------------------------------------------------------------------
  // Sorting by peak, largest first (`sort_by_key(Reverse(max_rss_kib))`)

  predicate SortedByPeak(ps: seq<ProcessStats>) {
    forall i, j :: 0 <= i < j < |ps| ==> ps[i].maxRssKib >= ps[j].maxRssKib
  }

  /** Insert `p` before the first record whose peak is not larger than its
      own, so that equal peaks keep their input order. */
  function InsertByPeak(p: ProcessStats, ps: seq<ProcessStats>): seq<ProcessStats> {
    if ps == [] then [p]
    else if ps[0].maxRssKib > p.maxRssKib then [ps[0]] + InsertByPeak(p, ps[1..])
    else [p] + ps
  }

  /** A stable insertion sort on the peak, descending. */
  function SortByPeak(ps: seq<ProcessStats>): seq<ProcessStats> {
    if ps == [] then [] else InsertByPeak(ps[0], SortByPeak(ps[1..]))
  }

  lemma {:induction false} InsertByPeakPermutes(p: ProcessStats, ps: seq<ProcessStats>)
    ensures multiset(InsertByPeak(p, ps)) == multiset(ps) + multiset{p}
  {
    if ps != [] && ps[0].maxRssKib > p.maxRssKib {
      InsertByPeakPermutes(p, ps[1..]);
      assert ps == [ps[0]] + ps[1..];
    }
  }

  lemma {:induction false} InsertByPeakSorted(p: ProcessStats, ps: seq<ProcessStats>)
    requires SortedByPeak(ps)
    ensures SortedByPeak(InsertByPeak(p, ps))
  {
    if ps != [] && ps[0].maxRssKib > p.maxRssKib {
      var rest := InsertByPeak(p, ps[1..]);
      InsertByPeakSorted(p, ps[1..]);
      InsertByPeakPermutes(p, ps[1..]);
      forall x | x in rest ensures x.maxRssKib <= ps[0].maxRssKib {
        assert x in multiset(rest);
        if x != p {
          assert x in multiset(ps[1..]);
        }
      }
    }
  }

  /** The sort yields a permutation of its input ordered by peak, descending. */
  lemma {:induction false} SortByPeakCorrect(ps: seq<ProcessStats>)
    ensures SortedByPeak(SortByPeak(ps))
    ensures multiset(SortByPeak(ps)) == multiset(ps)
  {
    if ps != [] {
      SortByPeakCorrect(ps[1..]);
      InsertByPeakSorted(ps[0], SortByPeak(ps[1..]));
      InsertByPeakPermutes(ps[0], SortByPeak(ps[1..]));
      assert ps == [ps[0]] + ps[1..];
    }
  }

  // ---------------------------------------------------------------------------
  // The include/exclude filter (`apply_filter`)

  /** A regular expression as the filter sees it: its source text, whether it
      compiles, and the match it performs. */
  datatype Regex = Regex(pattern: string, compiles: bool, isMatch: string -> bool)

  function PatternOf(r: Option<Regex>): Option<string> {
    if r.Some? then Some(r.value.pattern) else None
  }

  predicate PatternsCompile(excludeRegex: Option<Regex>, includeRegex: Option<Regex>) {
    (excludeRegex.None? || excludeRegex.value.compiles) && (includeRegex.None? || includeRegex.value.compiles)
  }

  /** The error `apply_filter` reports: the exclude pattern is compiled first. */
  function FirstPatternError(excludeRegex: Option<Regex>, includeRegex: Option<Regex>): string
    requires !PatternsCompile(excludeRegex, includeRegex)
  {
    if excludeRegex.Some? && !excludeRegex.value.compiles then
      "Invalid exclude pattern '" + excludeRegex.value.pattern + "': must be valid regex"
    else
      "Invalid include pattern '" + includeRegex.value.pattern + "': must be valid regex"
  }

  /** A process is kept when it matches the include pattern (if any) and does
      not match the exclude pattern (if any). */
  predicate Keeps(excludeRegex: Option<Regex>, includeRegex: Option<Regex>, command: string) {
    (includeRegex.None? || includeRegex.value.isMatch(command)) && (excludeRegex.None? || !excludeRegex.value.isMatch(command))
  }

  function Kept(ps: seq<ProcessStats>, excludeRegex: Option<Regex>, includeRegex: Option<Regex>): seq<ProcessStats> {
    if ps == [] then []
    else
      Kept(ps[..|ps| - 1], excludeRegex, includeRegex)
      + (if Keeps(excludeRegex, includeRegex, ps[|ps| - 1].command) then [ps[|ps| - 1]] else [])
  }

  function Dropped(ps: seq<ProcessStats>, excludeRegex: Option<Regex>, includeRegex: Option<Regex>): seq<ProcessStats> {
    if ps == [] then []
    else
      Dropped(ps[..|ps| - 1], excludeRegex, includeRegex)
      + (if Keeps(excludeRegex, includeRegex, ps[|ps| - 1].command) then [] else [ps[|ps| - 1]])
  }

  function SumPeaks(ps: seq<ProcessStats>): nat {
    if ps == [] then 0 else SumPeaks(ps[..|ps| - 1]) + ps[|ps| - 1].maxRssKib
  }

  lemma {:induction false} SumPeaksAppend(a: seq<ProcessStats>, b: seq<ProcessStats>)
    ensures SumPeaks(a + b) == SumPeaks(a) + SumPeaks(b)
    decreases |b|
  {
    if b == [] {
      assert a + b == a;
    } else {
      assert (a + b)[..|a + b| - 1] == a + b[..|b| - 1];
      assert (a + b)[|a + b| - 1] == b[|b| - 1];
      SumPeaksAppend(a, b[..|b| - 1]);
    }
  }

  /** One more process either joins the kept list or the dropped one. */
  lemma FilterStep(ps: seq<ProcessStats>, i: nat, excludeRegex: Option<Regex>, includeRegex: Option<Regex>)
    requires i < |ps|
    ensures Keeps(excludeRegex, includeRegex, ps[i].command) ==>
      && Kept(ps[..i + 1], excludeRegex, includeRegex) == Kept(ps[..i], excludeRegex, includeRegex) + [ps[i]]
      && Dropped(ps[..i + 1], excludeRegex, includeRegex) == Dropped(ps[..i], excludeRegex, includeRegex)
    ensures !Keeps(excludeRegex, includeRegex, ps[i].command) ==>
      && Kept(ps[..i + 1], excludeRegex, includeRegex) == Kept(ps[..i], excludeRegex, includeRegex)
      && Dropped(ps[..i + 1], excludeRegex, includeRegex) == Dropped(ps[..i], excludeRegex, includeRegex) + [ps[i]]
      && SumPeaks(Dropped(ps[..i + 1], excludeRegex, includeRegex))
         == SumPeaks(Dropped(ps[..i], excludeRegex, includeRegex)) + ps[i].maxRssKib
  {
    assert ps[..i + 1][..i] == ps[..i];
    var d := Dropped(ps[..i], excludeRegex, includeRegex);
    if !Keeps(excludeRegex, includeRegex, ps[i].command) {
      assert Dropped(ps[..i + 1], excludeRegex, includeRegex) == d + [ps[i]];
      assert (d + [ps[i]])[..|d|] == d;
      assert SumPeaks(d + [ps[i]]) == SumPeaks(d) + ps[i].maxRssKib;
    } else {
      assert Dropped(ps[..i + 1], excludeRegex, includeRegex) == d;
    }
  }

  /** Kept and dropped processes partition the input: counts and multisets add up. */
  lemma {:induction false} FilterPartitions(ps: seq<ProcessStats>, excludeRegex: Option<Regex>, includeRegex: Option<Regex>)
    ensures |Kept(ps, excludeRegex, includeRegex)| + |Dropped(ps, excludeRegex, includeRegex)| == |ps|
    ensures multiset(Kept(ps, excludeRegex, includeRegex)) + multiset(Dropped(ps, excludeRegex, includeRegex)) == multiset(ps)
  {
    if ps != [] {
      var pre := ps[..|ps| - 1];
      var last := ps[|ps| - 1];
      FilterPartitions(pre, excludeRegex, includeRegex);
      PartitionSnoc(Kept(pre, excludeRegex, includeRegex), Dropped(pre, excludeRegex, includeRegex),
                    pre, last, Keeps(excludeRegex, includeRegex, last.command));
      assert ps == pre + [last];
    }
  }

  /** Adding one element to exactly one side of a partition keeps it a partition. */
  lemma PartitionSnoc<T>(k: seq<T>, d: seq<T>, pre: seq<T>, last: T, keep: bool)
    requires |k| + |d| == |pre| && multiset(k) + multiset(d) == multiset(pre)
    ensures |k + (if keep then [last] else [])| + |d + (if keep then [] else [last])| == |pre + [last]|
    ensures multiset(k + (if keep then [last] else [])) + multiset(d + (if keep then [] else [last])) == multiset(pre + [last])
  {
  }

  /** The filtered total plus the kept total is the total of all peaks: the
      filtered figures account for everything removed. */
  lemma {:induction false} FilterConservesPeaks(ps: seq<ProcessStats>, excludeRegex: Option<Regex>, includeRegex: Option<Regex>)
    ensures SumPeaks(Kept(ps, excludeRegex, includeRegex)) + SumPeaks(Dropped(ps, excludeRegex, includeRegex)) == SumPeaks(ps)
  {
    if ps != [] {
      var pre := ps[..|ps| - 1];
      var last := ps[|ps| - 1];
      FilterConservesPeaks(pre, excludeRegex, includeRegex);
      var keep := Keeps(excludeRegex, includeRegex, last.command);
      SumPeaksAppend(Kept(pre, excludeRegex, includeRegex), if keep then [last] else []);
      SumPeaksAppend(Dropped(pre, excludeRegex, includeRegex), if keep then [] else [last]);
      SumPeaksAppend([], [last]);
    }
  }

  /** A process survives the filter iff it was in the input and passes `Keeps`. */
  lemma {:induction false} KeptIffKeeps(ps: seq<ProcessStats>, excludeRegex: Option<Regex>, includeRegex: Option<Regex>, p: ProcessStats)
    ensures p in Kept(ps, excludeRegex, includeRegex) <==> p in ps && Keeps(excludeRegex, includeRegex, p.command)
    ensures p in Dropped(ps, excludeRegex, includeRegex) <==> p in ps && !Keeps(excludeRegex, includeRegex, p.command)
  {
    if ps != [] {
      var pre := ps[..|ps| - 1];
      KeptIffKeeps(pre, excludeRegex, includeRegex, p);
      assert ps == pre + [ps[|ps| - 1]];
    }
  }

  /** The filter keeps relative order: filtering a sorted list leaves it sorted. */
  lemma {:induction false} KeptStaysSorted(ps: seq<ProcessStats>, excludeRegex: Option<Regex>, includeRegex: Option<Regex>)
    requires SortedByPeak(ps)
    ensures SortedByPeak(Kept(ps, excludeRegex, includeRegex))
  {
    if ps != [] {
      var pre := ps[..|ps| - 1];
      var last := ps[|ps| - 1];
      assert SortedByPeak(pre);
      KeptStaysSorted(pre, excludeRegex, includeRegex);
      var k := Kept(pre, excludeRegex, includeRegex);
      forall q | q in k ensures q.maxRssKib >= last.maxRssKib {
        KeptIffKeeps(pre, excludeRegex, includeRegex, q);
      }
    }
  }

  /** The `(filtered_count, filtered_rss)` pair: present whenever a pattern is given. */
  function FilterInfo(ps: seq<ProcessStats>, excludeRegex: Option<Regex>, includeRegex: Option<Regex>): Option<(nat, nat)> {
    if excludeRegex.Some? || includeRegex.Some? then
      Some((|Dropped(ps, excludeRegex, includeRegex)|, SumPeaks(Dropped(ps, excludeRegex, includeRegex))))
    else None
  }

  /** The decision `apply_filter` makes for one process: the include
      pattern first, then the exclude pattern. */
  method ShouldInclude(excludeRegex: Option<Regex>, includeRegex: Option<Regex>, command: string) returns (b: bool)
    ensures b == Keeps(excludeRegex, includeRegex, command)
  {
    b := true;
    if includeRegex.Some? {
      b := includeRegex.value.isMatch(command);
    }
    if b && excludeRegex.Some? && excludeRegex.value.isMatch(command) {
      b := false;
    }
  }

  /** `apply_filter`: one pass that keeps or counts each process. */
  method ApplyFilter(processes: seq<ProcessStats>, excludeRegex: Option<Regex>, includeRegex: Option<Regex>)
    returns (r: Result<(seq<ProcessStats>, Option<(nat, nat)>)>)
    ensures !PatternsCompile(excludeRegex, includeRegex) ==> r == Err(FirstPatternError(excludeRegex, includeRegex))
    ensures PatternsCompile(excludeRegex, includeRegex) ==> r.Ok?
    ensures r.Ok? ==> r.value.0 == Kept(processes, excludeRegex, includeRegex)
    ensures r.Ok? ==> r.value.1 == FilterInfo(processes, excludeRegex, includeRegex)
  {
    if excludeRegex.Some? && !excludeRegex.value.compiles {
      return Err("Invalid exclude pattern '" + excludeRegex.value.pattern + "': must be valid regex");
    }
    if includeRegex.Some? && !includeRegex.value.compiles {
      return Err("Invalid include pattern '" + includeRegex.value.pattern + "': must be valid regex");
    }
    var filtered: seq<ProcessStats> := [];
    var filteredCount: nat := 0;
    var filteredRss: nat := 0;
    var i := 0;
    while i < |processes|
      invariant 0 <= i <= |processes|
      invariant filtered == Kept(processes[..i], excludeRegex, includeRegex)
      invariant filteredCount == |Dropped(processes[..i], excludeRegex, includeRegex)|
      invariant filteredRss == SumPeaks(Dropped(processes[..i], excludeRegex, includeRegex))
    {
      var p := processes[i];
      var shouldInclude := ShouldInclude(excludeRegex, includeRegex, p.command);
      FilterStep(processes, i, excludeRegex, includeRegex);
      if shouldInclude {
        filtered := filtered + [p];
      } else {
        filteredCount := filteredCount + 1;
        filteredRss := filteredRss + p.maxRssKib;
      }
      i := i + 1;
    }
    assert processes[..i] == processes;
    var info := if excludeRegex.Some? || includeRegex.Some? then Some((filteredCount, filteredRss)) else None;
    r := Ok((filtered, info));
  }
}

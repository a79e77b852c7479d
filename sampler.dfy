/** The sampler of `src/sampler.rs`: the process-tree resolver, the per-tick
    job snapshot, and the profiling loop driven by abstract outcomes of the
    operating system (spawn, try-wait and the process listing). */
module Sampler {
  import opened Wrappers
  import opened Types

  // ---------------------------------------------------------------------------
  // The job tree

  /** `c` follows parent links: each pid after the first is a key of `parents`
      whose parent is the pid before it. */
  ghost predicate IsChain(parents: map<int, int>, c: seq<int>) {
    forall k :: 1 <= k < |c| ==> c[k] in parents && parents[c[k]] == c[k - 1]
  }

  /** `pid` is `root` itself or reaches `root` through the parent links. */
  ghost predicate Descends(parents: map<int, int>, root: int, pid: int) {
    exists c :: |c| >= 1 && c[0] == root && c[|c| - 1] == pid && IsChain(parents, c)
  }

  /** The job tree rooted at `root`: the pids `find_job_pids` must return. */
  ghost function JobTree(parents: map<int, int>, root: int): set<int> {
    set pid | pid in parents.Keys + {root} && Descends(parents, root, pid)
  }

  /** No key of `parents` whose parent is in `s` is missing from `s`. */
  ghost predicate Closed(parents: map<int, int>, s: set<int>) {
    forall pid :: pid in parents && parents[pid] in s ==> pid in s
  }

  lemma RootDescends(parents: map<int, int>, root: int)
    ensures Descends(parents, root, root)
  {
    assert IsChain(parents, [root]);
  }

  /** A child of a member of the tree is a member. */
  lemma ChainExtend(parents: map<int, int>, root: int, ppid: int, pid: int)
    requires Descends(parents, root, ppid)
    requires pid in parents && parents[pid] == ppid
    ensures Descends(parents, root, pid)
  {
    var c :| |c| >= 1 && c[0] == root && c[|c| - 1] == ppid && IsChain(parents, c);
    var d := c + [pid];
    assert forall k :: 0 <= k < |c| ==> d[k] == c[k];
    assert IsChain(parents, d);
  }

  /** A chain that starts in a closed set stays in it. */
  lemma {:induction false} ChainStaysIn(parents: map<int, int>, s: set<int>, c: seq<int>)
    requires |c| >= 1 && c[0] in s
    requires IsChain(parents, c) && Closed(parents, s)
    ensures c[|c| - 1] in s
  {
    if |c| > 1 {
      var pre := c[..|c| - 1];
      assert forall k :: 0 <= k < |pre| ==> pre[k] == c[k];
      assert IsChain(parents, pre);
      ChainStaysIn(parents, s, pre);
      var last := c[|c| - 1];
      assert last in parents && parents[last] == pre[|pre| - 1];
      assert parents[last] in s;
    }
  }

  /** Every closed set holding the root holds the whole tree. */
  lemma ClosedContainsTree(parents: map<int, int>, root: int, s: set<int>)
    requires root in s && Closed(parents, s)
    ensures JobTree(parents, root) <= s
  {
    forall pid | pid in JobTree(parents, root) ensures pid in s {
      var c :| |c| >= 1 && c[0] == root && c[|c| - 1] == pid && IsChain(parents, c);
      ChainStaysIn(parents, s, c);
    }
  }

  /** Every pid of `s` is in the tree. */
  ghost predicate InTree(parents: map<int, int>, root: int, s: set<int>) {
    forall pid :: pid in s ==> Descends(parents, root, pid)
  }

  /** One pass of the `for` loop over the map: each pid whose parent is
      already a member joins, and later entries see earlier additions. */
  method AddChildren(root: int, parents: map<int, int>, job: set<int>) returns (next: set<int>, changed: bool)
    requires root in job && job <= parents.Keys + {root} && InTree(parents, root, job)
    ensures job <= next <= parents.Keys + {root} && InTree(parents, root, next)
    ensures changed ==> |parents.Keys - next| < |parents.Keys - job|
    ensures !changed ==> next == job && Closed(parents, job)
  {
    next := job;
    changed := false;
    var remaining := parents.Keys;
    while remaining != {}
      invariant remaining <= parents.Keys
      invariant job <= next <= parents.Keys + {root} && InTree(parents, root, next)
      invariant changed ==> |parents.Keys - next| < |parents.Keys - job|
      invariant !changed ==> next == job
      invariant !changed ==> forall p :: p in parents && p !in remaining && parents[p] in job ==> p in job
      decreases remaining
    {
      HasMember(remaining);
      var pid :| pid in remaining;
      var ppid := parents[pid];
      if pid !in next && ppid in next {
        ChainExtend(parents, root, ppid, pid);
        assert parents.Keys - (next + {pid}) == (parents.Keys - next) - {pid};
        next := next + {pid};
        changed := true;
      }
      remaining := remaining - {pid};
    }
  }

  /** `find_job_pids`: repeat passes over the map until a pass adds nothing.
      The map's iteration order is left open. A pass that adds something adds
      a key not yet in the set, so the loop ends on any map, cyclic ones included. */
  method FindJobPids(root: int, parents: map<int, int>) returns (job: set<int>)
    ensures job == JobTree(parents, root)
    ensures root in job && job <= parents.Keys + {root}
  {
    job := {root};
    RootDescends(parents, root);
    var changed := true;
    while changed
      invariant root in job && job <= parents.Keys + {root} && InTree(parents, root, job)
      invariant !changed ==> Closed(parents, job)
      decreases |parents.Keys - job| + (if changed then 1 else 0)
    {
      job, changed := AddChildren(root, parents, job);
    }
    ClosedContainsTree(parents, root, job);
  }

  /** The two resolver examples of `src/sampler.rs`: children and grandchildren
      join, an unrelated pid does not, and neither does the root's parent. */
  lemma JobTreeExamples()
    ensures JobTree(map[100 := 1, 200 := 100, 300 := 100, 400 := 200, 500 := 50], 100) == {100, 200, 300, 400}
    ensures JobTree(map[1 := 0, 10 := 1, 20 := 10, 30 := 20, 40 := 30], 10) == {10, 20, 30, 40}
  {
    var m1 := map[100 := 1, 200 := 100, 300 := 100, 400 := 200, 500 := 50];
    RootDescends(m1, 100);
    ChainExtend(m1, 100, 100, 200);
    ChainExtend(m1, 100, 100, 300);
    ChainExtend(m1, 100, 200, 400);
    ClosedContainsTree(m1, 100, {100, 200, 300, 400});
    var m2 := map[1 := 0, 10 := 1, 20 := 10, 30 := 20, 40 := 30];
    RootDescends(m2, 10);
    ChainExtend(m2, 10, 10, 20);
    ChainExtend(m2, 10, 20, 30);
    ChainExtend(m2, 10, 30, 40);
    ClosedContainsTree(m2, 10, {10, 20, 30, 40});
  }

  // ---------------------------------------------------------------------------
  // One snapshot of the job

  /** The pid map built from a listing: a later sample of a pid replaces an earlier one. */
  function LastWins(ps: seq<ProcessSample>): map<int, ProcessSample> {
    if ps == [] then map[] else LastWins(ps[..|ps| - 1])[ps[|ps| - 1].pid := ps[|ps| - 1]]
  }

  /** The pid to ppid map built from a listing, with the same overwriting. */
  function ParentsOf(ps: seq<ProcessSample>): map<int, int> {
    if ps == [] then map[] else ParentsOf(ps[..|ps| - 1])[ps[|ps| - 1].pid := ps[|ps| - 1].ppid]
  }

  /** The two maps agree: same keys, and each ppid is that of the kept sample. */
  lemma {:induction false} ParentsOfLastWins(ps: seq<ProcessSample>)
    ensures ParentsOf(ps).Keys == LastWins(ps).Keys
    ensures forall pid :: pid in LastWins(ps) ==> LastWins(ps)[pid].pid == pid && ParentsOf(ps)[pid] == LastWins(ps)[pid].ppid
  {
    if ps != [] {
      ParentsOfLastWins(ps[..|ps| - 1]);
    }
  }

  /** The sample kept for a pid is its last one in the listing. */
  lemma {:induction false} LastWinsIsLast(ps: seq<ProcessSample>, i: nat)
    requires i < |ps|
    requires forall j :: i < j < |ps| ==> ps[j].pid != ps[i].pid
    ensures ps[i].pid in LastWins(ps) && LastWins(ps)[ps[i].pid] == ps[i]
  {
    if i < |ps| - 1 {
      var pre := ps[..|ps| - 1];
      assert forall j :: i < j < |pre| ==> pre[j] == ps[j];
      LastWinsIsLast(pre, i);
    }
  }

  function PidsOf(ps: seq<ProcessSample>): set<int> {
    if ps == [] then {} else PidsOf(ps[..|ps| - 1]) + {ps[|ps| - 1].pid}
  }

  lemma {:induction false} PidsOfHasEach(ps: seq<ProcessSample>)
    ensures forall i :: 0 <= i < |ps| ==> ps[i].pid in PidsOf(ps)
  {
    if ps != [] {
      var pre := ps[..|ps| - 1];
      PidsOfHasEach(pre);
      assert forall i :: 0 <= i < |pre| ==> pre[i] == ps[i];
    }
  }

  function SumRss(ps: seq<ProcessSample>): nat {
    if ps == [] then 0 else SumRss(ps[..|ps| - 1]) + ps[|ps| - 1].rssKib
  }

  /** `snap` is what `sample_job_tree` may return for `listing` at time `now`:
      one sample per member of the job tree present in the listing (the one
      kept by the pid map), in some order, and their total RSS. */
  ghost predicate IsTreeSnapshot(listing: seq<ProcessSample>, root: int, now: Timestamp, snap: JobSnapshot) {
    var known := LastWins(listing);
    && snap.timestamp == now
    && DistinctPids(snap.processes)
    && PidsOf(snap.processes) == JobTree(ParentsOf(listing), root) * known.Keys
    && (forall i :: 0 <= i < |snap.processes| ==>
          snap.processes[i].pid in known && snap.processes[i] == known[snap.processes[i].pid])
    && snap.totalRssKib == SumRss(snap.processes)
  }

  /** The first loop of `sample_job_tree`: fill the pid map and the ppid map. */
  method BuildMaps(all: seq<ProcessSample>) returns (pidMap: map<int, ProcessSample>, parents: map<int, int>)
    ensures pidMap == LastWins(all) && parents == ParentsOf(all)
  {
    pidMap := map[];
    parents := map[];
    var i := 0;
    while i < |all|
      invariant 0 <= i <= |all|
      invariant pidMap == LastWins(all[..i]) && parents == ParentsOf(all[..i])
    {
      assert all[..i + 1][..i] == all[..i];
      parents := parents[all[i].pid := all[i].ppid];
      pidMap := pidMap[all[i].pid := all[i]];
      i := i + 1;
    }
    assert all[..i] == all;
  }

  /** The second loop of `sample_job_tree`: visit the members in an
      unspecified order, keep those the pid map has, and sum their RSS. */
  method CollectMembers(jobPids: set<int>, pidMap: map<int, ProcessSample>) returns (processes: seq<ProcessSample>, total: nat)
    requires forall pid :: pid in pidMap ==> pidMap[pid].pid == pid
    ensures DistinctPids(processes)
    ensures PidsOf(processes) == jobPids * pidMap.Keys
    ensures forall k :: 0 <= k < |processes| ==> processes[k].pid in pidMap && processes[k] == pidMap[processes[k].pid]
    ensures total == SumRss(processes)
  {
    processes := [];
    total := 0;
    var remaining := jobPids;
    while remaining != {}
      invariant remaining <= jobPids
      invariant DistinctPids(processes)
      invariant PidsOf(processes) == (jobPids - remaining) * pidMap.Keys
      invariant forall k :: 0 <= k < |processes| ==> processes[k].pid in pidMap && processes[k] == pidMap[processes[k].pid]
      invariant total == SumRss(processes)
      decreases remaining
    {
      HasMember(remaining);
      var pid :| pid in remaining;
      ghost var done := jobPids - remaining;
      assert jobPids - (remaining - {pid}) == done + {pid};
      if pid in pidMap {
        var p := pidMap[pid];
        AppendMember(processes, p, done, pidMap);
        total := total + p.rssKib;
        processes := processes + [p];
      } else {
        assert (done + {pid}) * pidMap.Keys == done * pidMap.Keys;
      }
      remaining := remaining - {pid};
    }
  }

  /** One step of `CollectMembers`: appending the pid map's sample of a
      member not visited yet. */
  lemma AppendMember(processes: seq<ProcessSample>, p: ProcessSample, done: set<int>, pidMap: map<int, ProcessSample>)
    requires DistinctPids(processes) && PidsOf(processes) == done * pidMap.Keys
    requires forall k :: 0 <= k < |processes| ==> processes[k].pid in pidMap && processes[k] == pidMap[processes[k].pid]
    requires p.pid in pidMap && pidMap[p.pid] == p && p.pid !in done
    ensures DistinctPids(processes + [p])
    ensures PidsOf(processes + [p]) == (done + {p.pid}) * pidMap.Keys
    ensures forall k :: 0 <= k < |processes + [p]| ==> (processes + [p])[k].pid in pidMap && (processes + [p])[k] == pidMap[(processes + [p])[k].pid]
    ensures SumRss(processes + [p]) == SumRss(processes) + p.rssKib
  {
    var next := processes + [p];
    PidsOfHasEach(processes);
    assert next[..|processes|] == processes;
    assert forall k :: 0 <= k < |processes| ==> next[k] == processes[k];
  }

  /** `sample_job_tree`: take a listing (or pass on its error), resolve the
      job tree, and collect the members the listing has. */
  method SampleJobTree(listing: Result<seq<ProcessSample>>, root: int, now: Timestamp)
    returns (r: Result<JobSnapshot>)
    ensures listing.Err? ==> r == Err(listing.msg)
    ensures listing.Ok? ==> r.Ok? && IsTreeSnapshot(listing.value, root, now, r.value)
  {
    if listing.Err? {
      return Err(listing.msg);
    }
    var pidMap, parents := BuildMaps(listing.value);
    ParentsOfLastWins(listing.value);
    var jobPids := FindJobPids(root, parents);
    var processes, total := CollectMembers(jobPids, pidMap);
    r := Ok(JobSnapshot(now, total, processes));
  }

  // ---------------------------------------------------------------------------
  // The profiling loop

  /** What `child.try_wait` reports on one pass. */
  datatype WaitStatus = Running | Exited | WaitFailed

  /** One call of the snapshot source: the clock read that stamps it and the
      listing or the error it produced. */
  datatype Observation = Observation(time: Timestamp, listing: Result<seq<ProcessSample>>)

  /** The pass on which the loop stops: the first wait outcome other than `Running`. */
  function FirstStop(waits: seq<WaitStatus>): (k: nat)
    ensures k <= |waits|
    ensures forall j :: 0 <= j < k ==> waits[j] == Running
    ensures k < |waits| ==> waits[k] != Running
  {
    if waits == [] || waits[0] != Running then 0 else 1 + FirstStop(waits[1..])
  }

  /** How many snapshots the run asks for: the immediate one, one per pass
      that found the child running, and a final one when it exited. */
  function SamplesTaken(waits: seq<WaitStatus>): nat
    requires FirstStop(waits) < |waits|
  {
    1 + FirstStop(waits) + (if waits[FirstStop(waits)] == Exited then 1 else 0)
  }

  /** The observations whose listing succeeded, in order. */
  function OkObservations(obs: seq<Observation>): (r: seq<Observation>)
    ensures |r| <= |obs|
    ensures forall i :: 0 <= i < |r| ==> r[i].listing.Ok?
  {
    if obs == [] then []
    else OkObservations(obs[..|obs| - 1]) + (if obs[|obs| - 1].listing.Ok? then [obs[|obs| - 1]] else [])
  }

  /** The applied snapshots are one job snapshot per successful observation,
      in order; failed observations leave no trace. */
  ghost predicate IsRunHistory(h: seq<JobSnapshot>, obs: seq<Observation>, root: int) {
    var ok := OkObservations(obs);
    && |h| == |ok|
    && forall i :: 0 <= i < |h| ==> IsTreeSnapshot(ok[i].listing.value, root, ok[i].time, h[i])
  }

  lemma RunHistoryStep(h: seq<JobSnapshot>, obs: seq<Observation>, n: nat, root: int, r: Result<JobSnapshot>)
    requires n < |obs| && IsRunHistory(h, obs[..n], root)
    requires obs[n].listing.Ok? <==> r.Ok?
    requires r.Ok? ==> IsTreeSnapshot(obs[n].listing.value, root, obs[n].time, r.value)
    ensures IsRunHistory(h + (if r.Ok? then [r.value] else []), obs[..n + 1], root)
  {
    assert obs[..n + 1][..n] == obs[..n];
    var h' := h + (if r.Ok? then [r.value] else []);
    assert forall i :: 0 <= i < |h| ==> h'[i] == h[i];
  }

  /** One `sample_job_tree` call followed, when it succeeds, by `update`. */
  method SampleInto(state: JobState, root: int, obs: seq<Observation>, n: nat)
    requires n < |obs|
    requires state.Valid() && IsRunHistory(state.history, obs[..n], root)
    modifies state
    ensures state.Valid() && IsRunHistory(state.history, obs[..n + 1], root)
  {
    var snap := SampleJobTree(obs[n].listing, root, obs[n].time);
    RunHistoryStep(state.history, obs, n, root, snap);
    if snap.Ok? {
      state.Update(snap.value);
    }
  }

  /** The sampling part of `run_and_profile`: sample once at once, then on
      each pass ask whether the child has exited: if it has, sample a last time
      and stop; if asking fails, stop; otherwise sample and go on. A failed
      sample is skipped. `waits` and `obs` are the outcomes the operating
      system hands out, in order. */
  method SamplingLoop(state: JobState, root: int, waits: seq<WaitStatus>, obs: seq<Observation>)
    requires FirstStop(waits) < |waits|
    requires SamplesTaken(waits) <= |obs|
    requires state.Valid() && state.history == []
    modifies state
    ensures state.Valid()
    ensures IsRunHistory(state.history, obs[..SamplesTaken(waits)], root)
  {
    assert obs[..0] == [];
    SampleInto(state, root, obs, 0);
    var k := SampleWhileRunning(state, root, waits, obs);
    if waits[k] == Exited {
      SampleInto(state, root, obs, k + 1);
      assert k + 2 == SamplesTaken(waits);
    } else {
      assert k + 1 == SamplesTaken(waits);
    }
  }

  /** The passes that find the child still running: each samples once more.
      Returns the pass on which the loop stops. */
  method SampleWhileRunning(state: JobState, root: int, waits: seq<WaitStatus>, obs: seq<Observation>)
    returns (k: nat)
    requires FirstStop(waits) < |waits| && 1 + FirstStop(waits) <= |obs|
    requires state.Valid() && IsRunHistory(state.history, obs[..1], root)
    modifies state
    ensures k == FirstStop(waits)
    ensures state.Valid()
    ensures IsRunHistory(state.history, obs[..k + 1], root)
  {
    k := 0;
    while waits[k] == Running
      invariant 0 <= k <= FirstStop(waits)
      invariant state.Valid()
      invariant IsRunHistory(state.history, obs[..k + 1], root)
      decreases FirstStop(waits) - k
    {
      assert k < FirstStop(waits);
      SampleInto(state, root, obs, k + 1);
      k := k + 1;
    }
  }

  /** `run_and_profile` up to the final conversion: refuse an empty command,
      spawn the child (its pid or failure is `spawned`), then sample it until
      it is reaped. The returned state is the one the source converts into
      the profile. */
  method RunAndProfile(command: seq<string>, trackTimeline: bool, spawned: Result<int>, start: Timestamp,
                       waits: seq<WaitStatus>, obs: seq<Observation>)
    returns (r: Result<JobState>)
    requires FirstStop(waits) < |waits|
    requires SamplesTaken(waits) <= |obs|
    ensures command == [] ==> r == Err("Command cannot be empty")
    ensures command != [] && spawned.Err? ==> r == Err("Failed to start command")
    ensures command != [] && spawned.Ok? ==> r.Ok?
    ensures r.Ok? ==> fresh(r.value) && r.value.Valid() && r.value.startTime == start
    ensures r.Ok? ==> (r.value.timeline.Some? <==> trackTimeline)
    ensures r.Ok? ==> IsRunHistory(r.value.history, obs[..SamplesTaken(waits)], spawned.value)
  {
    if command == [] {
      return Err("Command cannot be empty");
    }
    if spawned.Err? {
      return Err("Failed to start command");
    }
    var state := new JobState(trackTimeline, start);
    SamplingLoop(state, spawned.value, waits, obs);
    r := Ok(state);
  }
}

/** `QueryJobRegistry` of src/server.rs. The registry's own lock is held through each method, but the
    jobs in it go on: `snapshots(handle, t)` is what a job shows at instant `t`, and every look at a
    job takes one instant. Looks come in an arbitrary order, as a hash map gives them. */
module JobRegistry {
  import opened Text
  import QueryJob
  import QueryJobSafety

  // ---- Ids ----

  function HexDigit(d: nat): char
    requires d < 16
  {
    if d < 10 then (d + '0' as int) as char else (d - 10 + 'a' as int) as char
  }

  function HexValue(c: char): int {
    if IsDigit(c) then c as int - '0' as int else c as int - 'a' as int + 10
  }

  /** The last `width` hexadecimal digits of a number. */
  function HexPadded(n: nat, width: nat): (s: string)
    ensures |s| == width
  {
    if width == 0 then "" else HexPadded(n / 16, width - 1) + [HexDigit(n % 16)]
  }

  function Pow16(width: nat): nat {
    if width == 0 then 1 else 16 * Pow16(width - 1)
  }

  lemma {:induction false} HexPaddedInjective(m: nat, n: nat, width: nat)
    requires m < Pow16(width) && n < Pow16(width) && HexPadded(m, width) == HexPadded(n, width)
    ensures m == n
  {
    if width > 0 {
      var a, b := HexPadded(m, width), HexPadded(n, width);
      assert HexValue(a[width - 1]) == m % 16 && HexValue(b[width - 1]) == n % 16;
      assert a[..width - 1] == HexPadded(m / 16, width - 1) && b[..width - 1] == HexPadded(n / 16, width - 1);
      HexPaddedInjective(m / 16, n / 16, width - 1);
    }
  }

  function JobId(kind: string, raw: nat): string {
    (if kind == "query" then "qj" else if kind == "export" then "xj" else "jb") + "_" + HexPadded(raw, 16)
  }

  /** The kind shows in front of the number, which has sixteen hexadecimal digits. */
  lemma JobIdText(kind: string, raw: nat)
    ensures var mark := if kind == "query" then "qj_" else if kind == "export" then "xj_" else "jb_";
            mark <= JobId(kind, raw) && |JobId(kind, raw)| == 19
  {
  }

  /** Two jobs have the same id only if they were given the same number, whatever their kinds. */
  lemma JobIdInjective(kind: string, raw: nat, kind': string, raw': nat)
    requires raw < U64_BOUND && raw' < U64_BOUND && JobId(kind, raw) == JobId(kind', raw')
    ensures raw == raw'
  {
    hide HexPadded, Pow16;
    assert JobId(kind, raw)[3..] == HexPadded(raw, 16) && JobId(kind', raw')[3..] == HexPadded(raw', 16);
    Pow16Is();
    HexPaddedInjective(raw, raw', 16);
  }

  lemma Pow16Is()
    ensures Pow16(16) == U64_BOUND
  {
    assert Pow16(4) == 0x1_0000;
    assert Pow16(8) == 0x1_0000_0000;
    assert Pow16(12) == 0x1_0000_0000_0000;
  }

  // ---- Jobs that go on while they are looked at ----

  datatype JobHandle = JobHandle(jobId: string, kind: string, queryHash: string, taskManaged: bool, createdAt: nat)

  type Snapshots = (JobHandle, nat) -> QueryJob.Snapshot

  predicate Finished(snapshot: QueryJob.Snapshot) {
    QueryJob.IsTerminal(snapshot.state)
  }

  /** A job that has finished shows the same snapshot ever after. */
  ghost predicate Steady(snapshots: Snapshots) {
    forall handle, t, u :: t <= u && Finished(snapshots(handle, t)) ==> snapshots(handle, u) == snapshots(handle, t)
  }

  /** Whatever calls run on a handle and however they interleave, its snapshots are steady. */
  lemma RunsAreSteady(tasks: map<QueryJob.Tid, QueryJob.Task>, schedule: seq<QueryJob.Turn>, t: nat, u: nat)
    requires QueryJob.Calls(tasks) && t <= u <= |schedule|
    requires Finished(QueryJob.Exec(QueryJob.InitialWorld(tasks), schedule[..t]).shared.snapshot)
    ensures QueryJob.Exec(QueryJob.InitialWorld(tasks), schedule[..u]).shared.snapshot
         == QueryJob.Exec(QueryJob.InitialWorld(tasks), schedule[..t]).shared.snapshot
  {
    assert schedule[..u] == schedule[..t] + schedule[t..u];
    QueryJobSafety.FirstTerminalStateIsFinal(tasks, schedule[..t], schedule[t..u]);
  }

  /** What pruning drops: a job that finished more than the time to live ago. */
  predicate Stale(snapshot: QueryJob.Snapshot, now: nat, ttl: nat) {
    && Finished(snapshot) && snapshot.finishedAt.Some?
    && (if now >= snapshot.finishedAt.value then now - snapshot.finishedAt.value else 0) > ttl
  }

  function FinishTime(handle: JobHandle, snapshot: QueryJob.Snapshot): nat {
    match snapshot.finishedAt
    case Some(at) => at
    case None => handle.createdAt
  }

  // ---- The registry ----

  datatype CreateError = CapacityReached

  ghost predicate AllIssued(jobs: map<string, JobHandle>, issued: set<string>) {
    forall id :: id in jobs ==> id in issued && jobs[id].jobId == id
  }

  lemma FewerIssued(jobs: map<string, JobHandle>, fewer: map<string, JobHandle>, issued: set<string>)
    requires AllIssued(jobs, issued)
    requires fewer.Keys <= jobs.Keys && forall id :: id in fewer ==> fewer[id] == jobs[id]
    ensures AllIssued(fewer, issued) && forall id :: id !in issued ==> id !in jobs
  {
  }

  lemma InsertIssued(jobs: map<string, JobHandle>, issued: set<string>, handle: JobHandle)
    requires AllIssued(jobs, issued) && handle.jobId !in issued
    ensures AllIssued(jobs[handle.jobId := handle], issued + {handle.jobId})
    ensures |jobs[handle.jobId := handle]| == |jobs| + 1 && handle.jobId !in jobs
  {
  }

  class QueryJobRegistry {
    var jobs: map<string, JobHandle>
    var nextId: nat
    const terminalTtlMs: nat
    const maxEntries: nat
    ghost var issued: set<string>

    ghost predicate Valid()
      reads this
    {
      && |jobs| <= maxEntries && maxEntries >= 1
      && AllIssued(jobs, issued) && AllIssuedBelow(issued, nextId)
    }

    constructor (limit: nat, ttlMs: nat)
      ensures Valid() && jobs == map[] && issued == {}
      ensures maxEntries == (if limit == 0 then 1 else limit) && terminalTtlMs == if ttlMs < 1000 then 1000 else ttlMs
    {
      jobs, nextId, issued := map[], 1, {};
      maxEntries := if limit == 0 then 1 else limit;
      terminalTtlMs := if ttlMs < 1000 then 1000 else ttlMs;
    }

    /** Drops stale jobs and nothing else: what was stale when the scan began is gone, and what is
        gone is stale when it ends. */
    method PruneTerminalJobs(now: nat, snapshots: Snapshots, clock: nat) returns (end: nat)
      requires Steady(snapshots)
      modifies this`jobs
      ensures end >= clock
      ensures jobs.Keys <= old(jobs.Keys) && forall id :: id in jobs ==> jobs[id] == old(jobs)[id]
      ensures forall id :: id in old(jobs) && id !in jobs ==> Stale(snapshots(old(jobs)[id], end), now, terminalTtlMs)
      ensures forall id :: id in jobs ==> !Stale(snapshots(jobs[id], clock), now, terminalTtlMs)
      ensures forall id :: id in old(jobs) && id !in jobs ==>
                var s := snapshots(old(jobs)[id], end);
                && s.state in {QueryJob.Succeeded, QueryJob.Failed, QueryJob.Canceled}
                && s.finishedAt.Some? && now > s.finishedAt.value + terminalTtlMs
      ensures forall id :: id in jobs ==>
                var s := snapshots(jobs[id], clock);
                s.state in {QueryJob.Pending, QueryJob.Running} || s.finishedAt.None?
                || now <= s.finishedAt.value + terminalTtlMs
    {
      end := clock;
      var todo := jobs.Keys;
      while todo != {}
        invariant end >= clock && todo <= jobs.Keys <= old(jobs.Keys)
        invariant forall id :: id in jobs ==> jobs[id] == old(jobs)[id]
        invariant forall id :: id in old(jobs) && id !in jobs ==>
            Stale(snapshots(old(jobs)[id], end), now, terminalTtlMs)
        invariant forall id :: id in jobs && id !in todo ==> !Stale(snapshots(jobs[id], clock), now, terminalTtlMs)
        decreases todo
      {
        var id :| id in todo;
        todo := todo - {id};
        var snapshot := snapshots(jobs[id], end);
        end := end + 1;
        if Stale(snapshot, now, terminalTtlMs) {
          jobs := jobs - {id};
        }
      }
    }

    /** Takes out a job that had finished no later than any job that was finished when the scan
        began; finds none only if none was finished then. */
    method EvictOldestTerminalJob(snapshots: Snapshots, clock: nat) returns (evicted: Option<string>, end: nat)
      requires Steady(snapshots)
      modifies this`jobs
      ensures end >= clock
      ensures evicted.None? ==> jobs == old(jobs) && forall id :: id in jobs ==> !Finished(snapshots(jobs[id], clock))
      ensures evicted.Some? ==>
                var before := old(jobs);
                && evicted.value in before && jobs == before - {evicted.value}
                && var last := snapshots(before[evicted.value], end);
                   && Finished(last)
                   && forall id :: id in before && Finished(snapshots(before[id], clock)) ==>
                        var s := snapshots(before[id], clock);
                        (if last.finishedAt.Some? then last.finishedAt.value else before[evicted.value].createdAt)
                        <= (if s.finishedAt.Some? then s.finishedAt.value else before[id].createdAt)
    {
      end := clock;
      var oldest: Option<(string, nat)> := None;
      var todo := jobs.Keys;
      while todo != {}
        invariant end >= clock && todo <= jobs.Keys
        invariant oldest.Some? ==>
                    && oldest.value.0 in jobs && Finished(snapshots(jobs[oldest.value.0], end))
                    && oldest.value.1 == FinishTime(jobs[oldest.value.0], snapshots(jobs[oldest.value.0], end))
        invariant forall id :: id in jobs && id !in todo && Finished(snapshots(jobs[id], clock)) ==>
                    oldest.Some? && oldest.value.1 <= FinishTime(jobs[id], snapshots(jobs[id], clock))
        decreases todo
      {
        var id :| id in todo;
        todo := todo - {id};
        var snapshot := snapshots(jobs[id], end);
        end := end + 1;
        if Finished(snapshot) {
          var finishedAt := FinishTime(jobs[id], snapshot);
          if oldest.None? || finishedAt < oldest.value.1 {
            oldest := Some((id, finishedAt));
          }
        }
      }
      if oldest.Some? {
        jobs := jobs - {oldest.value.0};
        return Some(oldest.value.0), end;
      }
      return None, end;
    }

    /** A job that went though its time to live was not over. */
    ghost predicate IsEvicted(before: map<string, JobHandle>, after: map<string, JobHandle>, id: string,
                              now: nat, snapshots: Snapshots, end: nat)
    {
      id in before && id !in after && !Stale(snapshots(before[id], end), now, terminalTtlMs)
    }

    /** A job that was evicted had finished no later than one that stayed. */
    ghost predicate NoLater(evicted: JobHandle, other: JobHandle, snapshots: Snapshots, scan: nat, end: nat) {
      var mine, others := snapshots(evicted, end), snapshots(other, scan);
      others.state in {QueryJob.Succeeded, QueryJob.Failed, QueryJob.Canceled} ==>
        (if mine.finishedAt.Some? then mine.finishedAt.value else evicted.createdAt)
        <= (if others.finishedAt.Some? then others.finishedAt.value else other.createdAt)
    }

    ghost predicate AnyEvicted(before: map<string, JobHandle>, after: map<string, JobHandle>, now: nat,
                               snapshots: Snapshots, end: nat) {
      exists id :: IsEvicted(before, after, id, now, snapshots, end)
    }

    ghost predicate FairlyEvicted(before: map<string, JobHandle>, after: map<string, JobHandle>,
                                  now: nat, snapshots: Snapshots, scan: nat, end: nat)
    {
      forall id, other :: IsEvicted(before, after, id, now, snapshots, end) && other in before && other in after ==>
        NoLater(before[id], before[other], snapshots, scan, end)
    }

    /** The first half of `create_internal`. */
    method MakeRoom(now: nat, snapshots: Snapshots, clock: nat) returns (ok: bool, end: nat, ghost scan: nat)
      requires |jobs| <= maxEntries && Steady(snapshots)
      modifies this`jobs
      ensures clock <= scan <= end
      ensures jobs.Keys <= old(jobs.Keys) && forall id :: id in jobs ==> jobs[id] == old(jobs)[id]
      ensures forall id :: id in old(jobs) && id !in jobs ==> Finished(snapshots(old(jobs)[id], end))
      ensures FairlyEvicted(old(jobs), jobs, now, snapshots, scan, end)
      ensures AnyEvicted(old(jobs), jobs, now, snapshots, end) ==> |jobs| == maxEntries - 1
      ensures if ok then |jobs| < maxEntries
              else |jobs| == maxEntries && forall id :: id in jobs ==> !Finished(snapshots(jobs[id], scan))
    {
      hide FinishTime;
      end := PruneTerminalJobs(now, snapshots, clock);
      scan := end;
      SubsetIsSmaller(jobs.Keys, old(jobs.Keys));
      ok := true;
      if |jobs| >= maxEntries {
        ghost var pruned := jobs;
        var evicted;
        evicted, end := EvictOldestTerminalJob(snapshots, end);
        ok := evicted.Some?;
        if ok {
          assert pruned.Keys == jobs.Keys + {evicted.value};
        }
      }
    }

    /** The second half: a new job under an id that was never issued before. */
    method Issue(kind: string, queryHash: string, taskManaged: bool, now: nat) returns (handle: JobHandle)
      requires Valid() && |jobs| < maxEntries && nextId < U64_BOUND
      modifies this
      ensures Valid() && handle.jobId !in old(issued) && issued == old(issued) + {handle.jobId}
      ensures jobs == old(jobs)[handle.jobId := handle] && |jobs| == |old(jobs)| + 1
      ensures handle.kind == kind && handle.queryHash == queryHash && handle.taskManaged == taskManaged
      ensures handle.createdAt == now
    {
      hide JobId, AllIssuedBelow, AllIssued;
      var rawId := nextId;
      nextId := nextId + 1;
      var jobId := JobId(kind, rawId);
      IdsAfter(kind, rawId, issued);
      handle := JobHandle(jobId, kind, queryHash, taskManaged, now);
      InsertIssued(jobs, issued, handle);
      issued := issued + {jobId};
      jobs := jobs[jobId := handle];
    }

    /** A new id that was never issued before; only finished jobs make room for it; and it is refused
        only if the table was full when at instant `scan` none of its jobs had finished. */
    method CreateInternal(kind: string, queryHash: string, taskManaged: bool, now: nat, snapshots: Snapshots,
                          clock: nat)
      returns (r: Result<JobHandle, CreateError>, end: nat, ghost scan: nat)
      requires Valid() && Steady(snapshots) && nextId < U64_BOUND
      modifies this
      ensures Valid() && clock <= scan <= end
      ensures forall id :: id in old(jobs) && id !in jobs ==> Finished(snapshots(old(jobs)[id], end))
      ensures forall id :: id in old(jobs) && id in jobs ==> jobs[id] == old(jobs)[id]
      ensures FairlyEvicted(old(jobs), jobs, now, snapshots, scan, end)
      ensures AnyEvicted(old(jobs), jobs, now, snapshots, end) ==> |jobs| == maxEntries
      ensures match r
              case Ok(handle) =>
                && handle.jobId !in old(issued) && issued == old(issued) + {handle.jobId}
                && handle.jobId in jobs && jobs[handle.jobId] == handle && jobs.Keys <= old(jobs.Keys) + {handle.jobId}
                && handle.kind == kind && handle.queryHash == queryHash && handle.taskManaged == taskManaged
                && handle.createdAt == now
              case Err(CapacityReached) =>
                && issued == old(issued) && jobs.Keys <= old(jobs.Keys) && |jobs| == maxEntries
                && forall id :: id in jobs ==> !Finished(snapshots(jobs[id], scan))
    {
      hide JobId, Finished, FairlyEvicted, IsEvicted, AnyEvicted, Steady, AllIssuedBelow, AllIssued;
      var ok;
      ok, end, scan := MakeRoom(now, snapshots, clock);
      FewerIssued(old(jobs), jobs, issued);
      ghost var kept := jobs;
      if !ok {
        return Err(CapacityReached), end, scan;
      }
      var handle := Issue(kind, queryHash, taskManaged, now);
      StillFair(old(jobs), kept, handle.jobId, handle, now, snapshots, scan, end);
      return Ok(handle), end, scan;
    }

    lemma StillFair(before: map<string, JobHandle>, kept: map<string, JobHandle>, jobId: string, handle: JobHandle,
                    now: nat, snapshots: Snapshots, scan: nat, end: nat)
      requires jobId !in before && FairlyEvicted(before, kept, now, snapshots, scan, end)
      ensures FairlyEvicted(before, kept[jobId := handle], now, snapshots, scan, end)
      ensures AnyEvicted(before, kept[jobId := handle], now, snapshots, end) ==>
          AnyEvicted(before, kept, now, snapshots, end)
    {
      hide NoLater, Stale;
      if AnyEvicted(before, kept[jobId := handle], now, snapshots, end) {
        var id :| IsEvicted(before, kept[jobId := handle], id, now, snapshots, end);
        assert IsEvicted(before, kept, id, now, snapshots, end);
      }
    }

    /** A job is not found once it is stale, and is found until then. */
    method Get(jobId: string, now: nat, snapshots: Snapshots, clock: nat) returns (r: Option<JobHandle>, end: nat)
      requires Valid() && Steady(snapshots)
      modifies this`jobs
      ensures Valid() && end >= clock
      ensures jobs.Keys <= old(jobs.Keys) && forall id :: id in jobs ==> jobs[id] == old(jobs)[id]
      ensures forall id :: id in old(jobs) && id !in jobs ==> Stale(snapshots(old(jobs)[id], end), now, terminalTtlMs)
      ensures r == if jobId in jobs then Some(old(jobs)[jobId]) else None
      ensures jobId in old(jobs) && !Stale(snapshots(old(jobs)[jobId], end), now, terminalTtlMs) ==>
          r == Some(old(jobs)[jobId])
      ensures jobId in old(jobs) && Stale(snapshots(old(jobs)[jobId], clock), now, terminalTtlMs) ==> r == None
    {
      end := PruneTerminalJobs(now, snapshots, clock);
      SubsetIsSmaller(jobs.Keys, old(jobs.Keys));
      r := if jobId in jobs then Some(jobs[jobId]) else None;
    }
  }

  ghost predicate AllIssuedBelow(issued: set<string>, bound: nat) {
    forall id :: id in issued ==> exists kind, raw :: 0 <= raw < bound && id == JobId(kind, raw)
  }

  lemma IdsAfter(kind: string, raw: nat, issued: set<string>)
    requires raw < U64_BOUND && AllIssuedBelow(issued, raw)
    ensures JobId(kind, raw) !in issued && AllIssuedBelow(issued + {JobId(kind, raw)}, raw + 1)
  {
    hide JobId;
    if JobId(kind, raw) in issued {
      var kind', raw' :| 0 <= raw' < raw && JobId(kind, raw) == JobId(kind', raw');
      JobIdInjective(kind, raw, kind', raw');
    }
    forall id | id in issued + {JobId(kind, raw)}
      ensures exists kind', raw' :: 0 <= raw' < raw + 1 && id == JobId(kind', raw')
    {
      if id in issued {
        var kind', raw' :| 0 <= raw' < raw && id == JobId(kind', raw');
      }
    }
  }
}

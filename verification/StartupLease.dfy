/** The startup lease of src/startup_coordination.rs: one lease row and an append-only journal,
    the SQL statements on them, and the code of the coordinator and of the guard that runs them.
    Times are milliseconds of the database clock. */
module StartupLease {
  import opened Text

  type Owner = nat
  type Time = int

  datatype Lease = Lease(owner: Owner, fence: nat, expiresAt: Time)

  datatype EventKind = Started | Completed | Failed | Skipped

  datatype Event = Event(owner: Owner, fence: nat, phase: string, kind: EventKind)

  datatype Db = Db(now: Time, row: Option<Lease>, journal: seq<Event>)

  // ---- The SQL statements, each of them atomic ----

  predicate MayTake(db: Db, owner: Owner) {
    db.row.None? || db.row.value.expiresAt <= db.now || db.row.value.owner == owner
  }

  /** INSERT ... ON CONFLICT DO UPDATE ... RETURNING fence_token. */
  function AcquireStatement(db: Db, owner: Owner, ttl: nat): (Db, Option<nat>) {
    if !MayTake(db, owner) then (db, None)
    else
      var fence := if db.row.None? then 1 else db.row.value.fence + 1;
      (db.(row := Some(Lease(owner, fence, db.now + ttl))), Some(fence))
  }

  predicate Matches(db: Db, owner: Owner, fence: nat) {
    db.row.Some? && db.row.value.owner == owner && db.row.value.fence == fence
  }

  /** UPDATE ... WHERE owner and fence match RETURNING fence_token; expiry plays no part. */
  function HeartbeatStatement(db: Db, owner: Owner, fence: nat, ttl: nat): (Db, bool) {
    if Matches(db, owner, fence) then (db.(row := Some(Lease(owner, fence, db.now + ttl))), true) else (db, false)
  }

  /** DELETE ... WHERE owner and fence match. */
  function ReleaseStatement(db: Db, owner: Owner, fence: nat): Db {
    if Matches(db, owner, fence) then db.(row := None) else db
  }

  /** SELECT 1 ... WHERE owner and fence match and the lease has not expired. */
  predicate HeldStatement(db: Db, owner: Owner, fence: nat) {
    Matches(db, owner, fence) && db.row.value.expiresAt > db.now
  }

  function InsertStatement(db: Db, event: Event): Db {
    db.(journal := db.journal + [event])
  }

  /** SELECT event ... WHERE phase matches ORDER BY id DESC LIMIT 1. */
  function LatestEvent(journal: seq<Event>, phase: string): Option<EventKind> {
    if journal == [] then None
    else
      var last := journal[|journal| - 1];
      if last.phase == phase then Some(last.kind) else LatestEvent(journal[..|journal| - 1], phase)
  }

  /** The latest event of a phase is that of its last entry in the journal. */
  lemma {:induction false} LatestEventIsTheLast(journal: seq<Event>, phase: string)
    ensures LatestEvent(journal, phase).None? <==> forall i :: 0 <= i < |journal| ==> journal[i].phase != phase
    ensures forall i :: 0 <= i < |journal| && journal[i].phase == phase
                        && (forall j :: i < j < |journal| ==> journal[j].phase != phase) ==>
              LatestEvent(journal, phase) == Some(journal[i].kind)
  {
    if journal != [] {
      LatestEventIsTheLast(journal[..|journal| - 1], phase);
    }
  }

  // ---- The database as the guard sees it ----

  class LeaseDatabase {
    var state: Db

    constructor (now: Time)
      ensures state == Db(now, None, [])
    {
      state := Db(now, None, []);
    }

    method TryAcquireLease(owner: Owner, ttl: nat) returns (fence: Option<nat>)
      modifies this
      ensures (state, fence) == AcquireStatement(old(state), owner, ttl)
      ensures state.now == old(state).now && state.journal == old(state).journal
      ensures var row := old(state).row;
              && (row.None? ==> fence == Some(1))
              && (row.Some? && (row.value.expiresAt <= state.now || row.value.owner == owner) ==>
                    fence == Some(row.value.fence + 1))
              && (row.Some? && row.value.expiresAt > state.now && row.value.owner != owner ==> fence == None)
      ensures fence.Some? ==> state.row == Some(Lease(owner, fence.value, state.now + ttl))
      ensures fence.None? ==> state.row == old(state).row
    {
      if state.row.None? {
        state := state.(row := Some(Lease(owner, 1, state.now + ttl)));
        return Some(1);
      }
      var row := state.row.value;
      if row.expiresAt <= state.now || row.owner == owner {
        state := state.(row := Some(Lease(owner, row.fence + 1, state.now + ttl)));
        return Some(row.fence + 1);
      }
      return None;
    }

    method HeartbeatOnce(owner: Owner, fence: nat, ttl: nat) returns (held: bool)
      modifies this
      ensures (state, held) == HeartbeatStatement(old(state), owner, fence, ttl)
      ensures state.now == old(state).now && state.journal == old(state).journal
      ensures var row := old(state).row;
              held <==> row.Some? && row.value.owner == owner && row.value.fence == fence
      ensures state.row == if held then Some(Lease(owner, fence, state.now + ttl)) else old(state).row
    {
      held := Matches(state, owner, fence);
      if held {
        state := state.(row := Some(state.row.value.(expiresAt := state.now + ttl)));
      }
    }

    method Release(owner: Owner, fence: nat)
      modifies this
      ensures state == ReleaseStatement(old(state), owner, fence)
      ensures state.now == old(state).now && state.journal == old(state).journal
      ensures var row := old(state).row;
              state.row == if row.Some? && row.value.owner == owner && row.value.fence == fence then None else row
    {
      if Matches(state, owner, fence) {
        state := state.(row := None);
      }
    }

    method Insert(event: Event)
      modifies this
      ensures state == InsertStatement(old(state), event)
      ensures state.journal == old(state).journal + [event]
      ensures state.row == old(state).row && state.now == old(state).now
    {
      state := state.(journal := state.journal + [event]);
    }
  }

  // ---- The guard ----

  /** Whether `validate_phase_name` accepts the name; the length limit is in bytes, and only ASCII
      characters pass. */
  predicate ValidPhaseName(phase: string) {
    var name := Trim(phase);
    1 <= |name| <= 80 && forall i :: 0 <= i < |name| ==> IsAsciiAlphanumeric(name[i]) || name[i] in "_-.:"
  }

  lemma PhaseNameIs(phase: string)
    ensures !ValidPhaseName(phase) <==>
              || Trim(phase) == "" || |Trim(phase)| > 80
              || exists c :: c in Trim(phase) && !('0' <= c <= '9' || 'a' <= c <= 'z' || 'A' <= c <= 'Z')
                             && c !in {'_', '-', '.', ':'}
  {
    hide Trim;
    var name := Trim(phase);
    assert forall i :: 0 <= i < |name| ==> name[i] in name;
    assert forall c: char :: c in "_-.:" <==> c in {'_', '-', '.', ':'};
  }

  datatype Outcome = Done | FenceLost | InvalidPhase | PhaseFailed

  /** What a phase's work does to the database, and whether it succeeds. */
  type Work = Db -> (Db, bool)

  class StartupLeaseGuard {
    const owner: Owner
    const fence: nat
    var fenceLost: bool

    constructor (owner: Owner, fence: nat)
      ensures this.owner == owner && this.fence == fence && !fenceLost
    {
      this.owner, this.fence, this.fenceLost := owner, fence, false;
    }

    method AssertFence(db: LeaseDatabase) returns (held: bool)
      modifies this
      ensures held == (!old(fenceLost) && HeldStatement(db.state, owner, fence))
      ensures held <==>
                && !old(fenceLost) && db.state.row.Some?
                && db.state.row.value.owner == owner && db.state.row.value.fence == fence
                && db.state.now < db.state.row.value.expiresAt
      ensures fenceLost == !held
    {
      if fenceLost {
        return false;
      }
      held := HeldStatement(db.state, owner, fence);
      if !held {
        fenceLost := true;
      }
    }

    method RecordPhaseEvent(db: LeaseDatabase, phase: string, kind: EventKind) returns (r: Outcome)
      requires ValidPhaseName(phase)
      modifies this, db
      ensures r.Done? || r.FenceLost?
      ensures r.Done? <==> !old(fenceLost) && HeldStatement(old(db.state), owner, fence)
      ensures fenceLost == r.FenceLost?
      ensures db.state == if r.Done? then InsertStatement(old(db.state), Event(owner, fence, phase, kind))
          else old(db.state)
    {
      var held := AssertFence(db);
      if !held {
        return FenceLost;
      }
      db.Insert(Event(owner, fence, phase, kind));
      return Done;
    }

    method RunPhase(db: LeaseDatabase, phase: string, skipIfCompleted: bool, work: Work)
      returns (r: Outcome, worked: bool)
      modifies this, db
      ensures RunPhaseEffect(old(db.state), old(fenceLost), owner, fence, phase, skipIfCompleted, work)
           == (db.state, fenceLost, r, worked)
      ensures worked <==>
                && ValidPhaseName(phase) && !old(fenceLost) && HeldStatement(old(db.state), owner, fence)
                && !(skipIfCompleted && LatestEvent(old(db.state.journal), phase) == Some(Completed))
      ensures worked ==>
                var (ran, ok) := work(InsertStatement(old(db.state), Event(owner, fence, phase, Started)));
                var held := HeldStatement(ran, owner, fence);
                && r == (if !ok then PhaseFailed else if held then Done else FenceLost) && fenceLost == !held
                && db.state == if !held then ran
                               else InsertStatement(ran, Event(owner, fence, phase, if ok then Completed else Failed))
      ensures !worked && r.Done? ==>
                && LatestEvent(old(db.state.journal), phase) == Some(Completed)
                && HeldStatement(old(db.state), owner, fence)
                && db.state == InsertStatement(old(db.state), Event(owner, fence, phase, Skipped))
      ensures !worked && !r.Done? ==> db.state == old(db.state) && (r.InvalidPhase? || r.FenceLost?)
      ensures r.InvalidPhase? <==> !ValidPhaseName(phase)
      ensures r.InvalidPhase? <==>
                || Trim(phase) == "" || |Trim(phase)| > 80
                || exists c :: c in Trim(phase) && !('0' <= c <= '9' || 'a' <= c <= 'z' || 'A' <= c <= 'Z')
                               && c !in {'_', '-', '.', ':'}
      ensures old(fenceLost) ==> fenceLost
      ensures r.FenceLost? ==> fenceLost
    {
      worked := false;
      PhaseNameIs(phase);
      if !ValidPhaseName(phase) {
        return InvalidPhase, false;
      }
      if skipIfCompleted {
        var latest := LatestEvent(db.state.journal, phase);
        if latest == Some(Completed) {
          r := RecordPhaseEvent(db, phase, Skipped);
          return;
        }
      }
      r := RecordPhaseEvent(db, phase, Started);
      if !r.Done? {
        return;
      }
      worked := true;
      var (after, ok) := work(db.state);
      db.state := after;
      if ok {
        r := RecordPhaseEvent(db, phase, Completed);
      } else {
        var _ := RecordPhaseEvent(db, phase, Failed);
        r := PhaseFailed;
      }
    }
  }

  /** Recording one event: the journal grows exactly if the fence holds. */
  function RecordEffect(db: Db, lost: bool, event: Event): (Db, bool) {
    if !lost && HeldStatement(db, event.owner, event.fence) then (InsertStatement(db, event), false) else (db, true)
  }

  /** One run of a phase: the database, the sticky fence flag, the outcome, and whether the work
      was executed. */
  function RunPhaseEffect(db: Db, lost: bool, owner: Owner, fence: nat, phase: string, skip: bool, work: Work)
    : (Db, bool, Outcome, bool)
  {
    if !ValidPhaseName(phase) then (db, lost, InvalidPhase, false)
    else if skip && LatestEvent(db.journal, phase) == Some(Completed) then
      var (db1, lost1) := RecordEffect(db, lost, Event(owner, fence, phase, Skipped));
      (db1, lost1, if lost1 then FenceLost else Done, false)
    else
      var (db1, lost1) := RecordEffect(db, lost, Event(owner, fence, phase, Started));
      if lost1 then (db1, true, FenceLost, false)
      else
        var (db2, ok) := work(db1);
        var (db3, lost3) := RecordEffect(db2, false, Event(owner, fence, phase, if ok then Completed else Failed));
        (db3, lost3, if !ok then PhaseFailed else if lost3 then FenceLost else Done, true)
  }

  // ---- Acquiring ----

  const RETRY_SLEEP_MS: nat := 300

  datatype AcquireResult = Acquired(fence: nat) | Busy | DbFailed

  /** The loop of `acquire`. `attempt(k)` is what attempt `k` returned, and `clock(k)` is the clock
      read after it; sleeping between two attempts takes at least 300 ms. */
  method Acquire(attempt: nat -> Result<Option<nat>, ()>, clock: nat -> Time, start: Time, timeoutMs: nat)
    returns (r: AcquireResult, attempts: nat)
    requires start <= clock(0) && forall k: nat :: clock(k) + RETRY_SLEEP_MS <= clock(k + 1)
    ensures 1 <= attempts <= (timeoutMs + RETRY_SLEEP_MS - 1) / RETRY_SLEEP_MS + 1
    ensures forall k: nat :: k < attempts - 1 ==> attempt(k) == Ok(None) && clock(k) < start + timeoutMs
    ensures match attempt(attempts - 1)
            case Ok(Some(fence)) => r == Acquired(fence)
            case Ok(None) => r == Busy && clock(attempts - 1) >= start + timeoutMs
            case Err(_) => r == DbFailed
  {
    var deadline := start + timeoutMs;
    attempts := 0;
    while true
      invariant forall k: nat :: k < attempts ==> attempt(k) == Ok(None) && clock(k) < deadline
      invariant clock(attempts) >= start + RETRY_SLEEP_MS * attempts
      invariant attempts > 0 ==> start + RETRY_SLEEP_MS * (attempts - 1) < deadline
      decreases deadline - start - RETRY_SLEEP_MS * attempts + RETRY_SLEEP_MS
    {
      match attempt(attempts)
      case Err(_) => return DbFailed, attempts + 1;
      case Ok(Some(fence)) => return Acquired(fence), attempts + 1;
      case Ok(None) =>
        if clock(attempts) >= deadline {
          return Busy, attempts + 1;
        }
        attempts := attempts + 1;
    }
  }
}

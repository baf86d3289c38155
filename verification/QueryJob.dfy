/** `QueryJobHandle` of src/server.rs: the lock regions and atomic operations of its methods, the
    methods as they run undisturbed, and a machine that interleaves any number of callers one
    region at a time. Module QueryJobSafety proves what every interleaving keeps. */
module QueryJob {
  import opened Text

  datatype JobState = Pending | Running | Succeeded | Failed | Canceled

  predicate IsTerminal(state: JobState) {
    state.Succeeded? || state.Failed? || state.Canceled?
  }

  /** The two payloads that a finished job carries. */
  datatype Payloads = Payloads(response: string, toolResult: string)

  datatype Snapshot = Snapshot(
    state: JobState, startedAt: Option<nat>, finishedAt: Option<nat>, cancelRequested: bool, payloads: Option<Payloads>)

  /** The fields of the handle, with `notifications` counting the calls of `notify_waiters` and
      `aborts` those of the task's `abort`. */
  datatype Shared = Shared(snapshot: Snapshot, slot: bool, revision: nat, notifications: nat, aborts: nat)

  const NEW_SNAPSHOT := Snapshot(Pending, None, None, false, None)
  const NEW_JOB := Shared(NEW_SNAPSHOT, false, 0, 0, 0)

  // ---- Lock regions and atomic operations ----

  /** The snapshot lock region of `mark_running`. */
  function MarkRegion(s: Snapshot, now: nat): Snapshot {
    if s.state.Pending? then s.(state := Running, startedAt := Some(now)) else s
  }

  /** The snapshot lock region of `complete_payloads`. */
  function CompleteRegion(s: Snapshot, state: JobState, payloads: Payloads, now: nat): Snapshot {
    if IsTerminal(s.state) then s
    else s.(state := state, finishedAt := Some(now), payloads := Some(payloads))
  }

  /** The snapshot lock region of `cancel`. */
  function CancelRegion(s: Snapshot, payloads: Payloads, now: nat): Snapshot {
    if IsTerminal(s.state) then s
    else s.(state := Canceled, finishedAt := Some(now), cancelRequested := true, payloads := Some(payloads))
  }

  function TakeSlot(s: Shared): Shared {
    s.(slot := false)
  }

  function TakeSlotAndAbort(s: Shared): Shared {
    if s.slot then s.(slot := false, aborts := s.aborts + 1) else s
  }

  function Bump(s: Shared): Shared {
    s.(revision := s.revision + 1)
  }

  function Notify(s: Shared): Shared {
    s.(notifications := s.notifications + 1)
  }

  predicate WantsAbort(s: Snapshot) {
    s.cancelRequested || s.state.Canceled?
  }

  /** The last region of `register_abort_handle`: abort the handle in the slot, or the one that
      was just registered if somebody took it out. */
  function AbortRegistered(s: Shared): Shared {
    s.(slot := false, aborts := s.aborts + 1)
  }

  // ---- Whole calls, undisturbed ----

  function MarkEffect(s: Shared, now: nat): Shared {
    if s.snapshot.state.Pending? then Notify(Bump(s.(snapshot := MarkRegion(s.snapshot, now)))) else s
  }

  function CompleteEffect(s: Shared, state: JobState, payloads: Payloads, now: nat): Shared {
    if IsTerminal(s.snapshot.state) then s
    else Notify(Bump(TakeSlot(s.(snapshot := CompleteRegion(s.snapshot, state, payloads, now)))))
  }

  function CancelEffect(s: Shared, payloads: Payloads, now: nat): Shared {
    if IsTerminal(s.snapshot.state) then s
    else Notify(Bump(TakeSlotAndAbort(s.(snapshot := CancelRegion(s.snapshot, payloads, now)))))
  }

  function RegisterEffect(s: Shared): Shared {
    if WantsAbort(s.snapshot) then AbortRegistered(s) else s.(slot := true)
  }

  class QueryJobHandle {
    var snapshot: Snapshot
    var slot: bool
    var revision: nat
    var notifications: nat
    var aborts: nat

    function Abs(): Shared
      reads this
    {
      Shared(snapshot, slot, revision, notifications, aborts)
    }

    constructor ()
      ensures Abs() == NEW_JOB
    {
      snapshot, slot, revision, notifications, aborts := NEW_SNAPSHOT, false, 0, 0, 0;
    }

    method MarkRunning(now: nat) returns (r: Snapshot)
      modifies this
      ensures r == snapshot && Abs() == MarkEffect(old(Abs()), now)
      ensures old(snapshot).state == Pending ==>
                && snapshot.state == Running && snapshot.startedAt == Some(now)
                && snapshot.finishedAt == old(snapshot).finishedAt && snapshot.payloads == old(snapshot).payloads
                && snapshot.cancelRequested == old(snapshot).cancelRequested
                && revision == old(revision) + 1 && notifications == old(notifications) + 1
      ensures old(snapshot).state != Pending ==>
          snapshot == old(snapshot) && revision == old(revision) && notifications == old(notifications)
      ensures slot == old(slot) && aborts == old(aborts)
    {
      var changed := false;
      if snapshot.state == Pending {
        snapshot := snapshot.(state := Running, startedAt := Some(now));
        changed := true;
      }
      r := snapshot;
      if changed {
        revision := revision + 1;
        notifications := notifications + 1;
      }
    }

    method CompletePayloads(state: JobState, payloads: Payloads, now: nat) returns (r: Snapshot)
      modifies this
      ensures r == snapshot && Abs() == CompleteEffect(old(Abs()), state, payloads, now)
      ensures old(snapshot).state in {Pending, Running} ==>
                && snapshot.state == state && snapshot.payloads == Some(payloads) && snapshot.finishedAt == Some(now)
                && snapshot.startedAt == old(snapshot).startedAt
                && snapshot.cancelRequested == old(snapshot).cancelRequested && !slot
                && revision == old(revision) + 1 && notifications == old(notifications) + 1
      ensures old(snapshot).state in {Succeeded, Failed, Canceled} ==> Abs() == old(Abs())
      ensures aborts == old(aborts)
    {
      var changed := false;
      if !IsTerminal(snapshot.state) {
        snapshot := snapshot.(state := state, finishedAt := Some(now), payloads := Some(payloads));
        changed := true;
      }
      r := snapshot;
      if changed {
        slot := false;
        revision := revision + 1;
        notifications := notifications + 1;
      }
    }

    method Cancel(payloads: Payloads, now: nat) returns (r: Snapshot)
      modifies this
      ensures r == snapshot && Abs() == CancelEffect(old(Abs()), payloads, now)
      ensures old(snapshot).state in {Pending, Running} ==>
                && snapshot.state == Canceled && snapshot.payloads == Some(payloads)
                && snapshot.finishedAt == Some(now) && snapshot.cancelRequested
                && snapshot.startedAt == old(snapshot).startedAt && !slot
                && aborts == (if old(slot) then old(aborts) + 1 else old(aborts))
                && revision == old(revision) + 1 && notifications == old(notifications) + 1
      ensures old(snapshot).state in {Succeeded, Failed, Canceled} ==> Abs() == old(Abs())
    {
      var changed := false;
      if !IsTerminal(snapshot.state) {
        snapshot := snapshot.(cancelRequested := true, state := Canceled, finishedAt := Some(now), payloads :=
            Some(payloads));
        changed := true;
      }
      r := snapshot;
      if changed {
        if slot {
          slot := false;
          aborts := aborts + 1;
        }
        revision := revision + 1;
        notifications := notifications + 1;
      }
    }

    method RegisterAbortHandle()
      modifies this
      ensures snapshot == old(snapshot) && Abs() == RegisterEffect(old(Abs()))
      ensures revision == old(revision) && notifications == old(notifications)
      ensures snapshot.cancelRequested || snapshot.state == Canceled ==> !slot && aborts == old(aborts) + 1
      ensures !snapshot.cancelRequested && snapshot.state != Canceled ==> slot && aborts == old(aborts)
    {
      var shouldAbort := snapshot.cancelRequested || snapshot.state == Canceled;
      slot := true;
      if !shouldAbort {
        shouldAbort := snapshot.cancelRequested || snapshot.state == Canceled;
      }
      if shouldAbort {
        slot := false;
        aborts := aborts + 1;
      }
    }
  }

  // ---- The interleaving machine ----

  type Tid = nat

  datatype Changer = ByMark | ByComplete | ByCancel

  /** Where a caller stands, by the next region or atomic operation it will perform. A waiter that
      is `careful` obtained its revision from `snapshot_with_revision`; one that is not read the
      snapshot first and the revision afterwards, as `job_status` does. */
  datatype Task =
    | MarkStart
    | CompleteStart(state: JobState, payloads: Payloads)
    | CompleteTake
    | CancelStart(payloads: Payloads)
    | CancelAbort
    | Bumping(who: Changer)
    | Notifying(who: Changer)
    | PollBefore(retries: nat)
    | PollSnapshot(retries: nat, before: nat)
    | PollAfter(retries: nat, before: nat, seen: Snapshot)
    | StatusSnapshot
    | StatusRevision
    | WaitFirst(careful: bool, observed: nat)
    | WaitCreate(careful: bool, observed: nat)
    | WaitSecond(careful: bool, observed: nat, created: nat)
    | Awaiting(careful: bool, observed: nat, created: nat)
    | Returned

  datatype Registrar = RegStart | RegInstall(should: bool) | RegRecheck | RegAbort | RegDone

  /** How far a change has got: made under the lock by `tid`, counted in the revision, announced. */
  datatype Stage = NotYet | Changed(tid: Tid) | Bumped(tid: Tid) | Announced

  /** `mark` and `finish` record the progress of the change to Running and of the change to the
      first terminal state; the code does not store them. */
  datatype World = World(shared: Shared, mark: Stage, finish: Stage, registrar: Registrar, tasks: map<Tid, Task>)

  datatype Turn = TaskTurn(tid: Tid, now: nat) | RegistrarTurn

  function SetTask(w: World, t: Tid, task: Task): World {
    w.(tasks := w.tasks[t := task])
  }

  predicate IsChanger(task: Task) {
    || task.MarkStart? || task.CompleteStart? || task.CompleteTake? || task.CancelStart? || task.CancelAbort?
    || task.Bumping? || task.Notifying?
  }

  function SetSnapshot(w: World, s: Snapshot): World {
    w.(shared := w.shared.(snapshot := s))
  }

  function Retry(careful: bool): Task {
    if careful then PollBefore(0) else StatusSnapshot
  }

  /** One read of a waiter, which changes nothing but its own position; a waiter that nothing woke
      stays where it is. */
  function NextWait(s: Shared, task: Task): Task {
    match task
    case PollBefore(retries) => PollSnapshot(retries, s.revision)
    case PollSnapshot(retries, before) => PollAfter(retries, before, s.snapshot)
    case PollAfter(retries, before, seen) =>
      if s.revision != before then PollBefore(retries + 1)
      else if IsTerminal(seen.state) then Returned
      else WaitFirst(true, before)
    case StatusSnapshot => if IsTerminal(s.snapshot.state) then Returned else StatusRevision
    case StatusRevision => WaitFirst(false, s.revision)
    case WaitFirst(careful, observed) =>
      if s.revision != observed then Retry(careful) else WaitCreate(careful, observed)
    case WaitCreate(careful, observed) => WaitSecond(careful, observed, s.notifications)
    case WaitSecond(careful, observed, created) =>
      if s.revision != observed then Retry(careful) else Awaiting(careful, observed, created)
    case Awaiting(careful, observed, created) => if s.notifications > created then Retry(careful) else task
    case _ => task
  }

  /** One region or atomic operation of task `t`. */
  function StepTask(w: World, t: Tid, now: nat): World
    requires t in w.tasks
  {
    var s := w.shared;
    match w.tasks[t]
    case MarkStart =>
      if s.snapshot.state.Pending? then
        SetTask(SetSnapshot(w, MarkRegion(s.snapshot, now)), t, Bumping(ByMark)).(mark := Changed(t))
      else SetTask(w, t, Returned)
    case CompleteStart(state, payloads) =>
      if IsTerminal(s.snapshot.state) then SetTask(w, t, Returned)
      else SetTask(SetSnapshot(w, CompleteRegion(s.snapshot, state, payloads, now)), t, CompleteTake).(finish :=
          Changed(t))
    case CompleteTake => SetTask(w.(shared := TakeSlot(s)), t, Bumping(ByComplete))
    case CancelStart(payloads) =>
      if IsTerminal(s.snapshot.state) then SetTask(w, t, Returned)
      else SetTask(SetSnapshot(w, CancelRegion(s.snapshot, payloads, now)), t, CancelAbort).(finish := Changed(t))
    case CancelAbort => SetTask(w.(shared := TakeSlotAndAbort(s)), t, Bumping(ByCancel))
    case Bumping(who) =>
      var bumped := SetTask(w.(shared := Bump(s)), t, Notifying(who));
      if who.ByMark? then bumped.(mark := Bumped(t)) else bumped.(finish := Bumped(t))
    case Notifying(who) =>
      var notified := SetTask(w.(shared := Notify(s)), t, Returned);
      if who.ByMark? then notified.(mark := Announced) else notified.(finish := Announced)
    case task => SetTask(w, t, NextWait(s, task))
  }

  /** One region of `register_abort_handle`, which is called once for a job. */
  function StepRegistrar(w: World): World {
    var s := w.shared;
    match w.registrar
    case RegStart => w.(registrar := RegInstall(WantsAbort(s.snapshot)))
    case RegInstall(should) => w.(shared := s.(slot := true), registrar := if should then RegAbort else RegRecheck)
    case RegRecheck => w.(registrar := if WantsAbort(s.snapshot) then RegAbort else RegDone)
    case RegAbort => w.(shared := AbortRegistered(s), registrar := RegDone)
    case RegDone => w
  }

  function Step(w: World, turn: Turn): World {
    match turn
    case RegistrarTurn => StepRegistrar(w)
    case TaskTurn(t, now) => if t in w.tasks then StepTask(w, t, now) else w
  }

  function Exec(w: World, schedule: seq<Turn>): World {
    if schedule == [] then w else Step(Exec(w, schedule[..|schedule| - 1]), schedule[|schedule| - 1])
  }

  /** A call that has not begun. Every caller in the source completes a job with a terminal state. */
  predicate AtStart(task: Task) {
    || task.MarkStart? || (task.CompleteStart? && IsTerminal(task.state)) || task.CancelStart?
    || task == PollBefore(0) || task == StatusSnapshot
  }

  function InitialWorld(tasks: map<Tid, Task>): World {
    World(NEW_JOB, NotYet, NotYet, RegStart, tasks)
  }

  ghost predicate Calls(tasks: map<Tid, Task>) {
    forall t :: t in tasks ==> AtStart(tasks[t])
  }
}

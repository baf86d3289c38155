/** What every interleaving of the job handle's callers keeps. */
module QueryJobSafety {
  import opened Text
  import opened QueryJob

  function Counted(stage: Stage): nat {
    if stage.Bumped? || stage.Announced? then 1 else 0
  }

  function Told(stage: Stage): nat {
    if stage.Announced? then 1 else 0
  }

  predicate Installed(r: Registrar) {
    r.RegRecheck? || r.RegAbort? || r.RegDone?
  }

  /** What the fields say about each other. */
  ghost predicate SharedInv(w: World) {
    var s := w.shared;
    && s.revision == Counted(w.mark) + Counted(w.finish)
    && s.notifications == Told(w.mark) + Told(w.finish)
    && (w.mark == NotYet <==> s.snapshot.startedAt == None)
    && (s.snapshot.state.Pending? ==> w.mark == NotYet)
    && (s.snapshot.state.Running? ==> w.mark != NotYet)
    && (w.finish == NotYet <==> !IsTerminal(s.snapshot.state))
    && (IsTerminal(s.snapshot.state) <==> s.snapshot.payloads.Some?)
    && (s.snapshot.cancelRequested ==> s.snapshot.state.Canceled?)
    && (s.aborts > 0 ==> WantsAbort(s.snapshot))
  }

  /** Which call is making a change, and how far it has got. */
  ghost predicate ChangerInv(w: World, t: Tid)
    requires t in w.tasks
  {
    var task := w.tasks[t];
    && (task == Bumping(ByMark) <==> w.mark == Changed(t))
    && (task == Notifying(ByMark) <==> w.mark == Bumped(t))
    && ((task.CompleteTake? || task.CancelAbort? || task == Bumping(ByComplete) || task == Bumping(ByCancel)) <==>
        w.finish == Changed(t))
    && ((task == Notifying(ByComplete) || task == Notifying(ByCancel)) <==> w.finish == Bumped(t))
    && (task.CompleteTake? ==> !w.shared.snapshot.cancelRequested)
    && (task.CancelAbort? ==> w.shared.snapshot.cancelRequested)
    && (task.CompleteStart? ==> IsTerminal(task.state))
  }

  /** What a waiter has observed. A careful observation of an unfinished job never counts the
      change that finished it. */
  ghost predicate WaiterInv(w: World, task: Task) {
    match task
    case PollBefore(retries) => retries <= w.shared.revision
    case PollSnapshot(retries, before) => retries <= before <= w.shared.revision
    case PollAfter(retries, before, seen) =>
      && retries <= before <= w.shared.revision
      && (IsTerminal(seen.state) ==> seen == w.shared.snapshot)
      && (!IsTerminal(seen.state) ==> before <= Counted(w.mark))
    case WaitFirst(careful, observed) =>
      observed <= w.shared.revision && (careful ==> observed <= Counted(w.mark))
    case WaitCreate(careful, observed) =>
      observed <= w.shared.revision && (careful ==> observed <= Counted(w.mark))
    case WaitSecond(careful, observed, created) =>
      && observed <= w.shared.revision && (careful ==> observed <= Counted(w.mark))
      && created <= w.shared.notifications
    case Awaiting(careful, observed, created) =>
      && (careful ==> observed <= Counted(w.mark) && created <= Told(w.mark))
      && created <= w.shared.notifications
    case _ => true
  }

  /** Whoever wants the task aborted has done it, or somebody is still on the way to do it. */
  ghost predicate AbortInv(w: World) {
    var s, r := w.shared, w.registrar;
    && (!Installed(r) ==> !s.slot)
    && (r.RegInstall? && r.should ==> WantsAbort(s.snapshot))
    && (r.RegAbort? ==> WantsAbort(s.snapshot))
    && ((r.RegRecheck? || r.RegDone?) && !IsTerminal(s.snapshot.state) ==> s.slot)
    && (s.snapshot.cancelRequested && Installed(r) && s.aborts == 0 ==>
          || r.RegRecheck? || r.RegAbort?
          || (s.slot && exists t :: t in w.tasks && w.tasks[t].CancelAbort?))
  }

  ghost predicate Inv(w: World) {
    && SharedInv(w)
    && AbortInv(w)
    && (w.mark.Changed? || w.mark.Bumped? ==> w.mark.tid in w.tasks)
    && (w.finish.Changed? || w.finish.Bumped? ==> w.finish.tid in w.tasks)
    && (forall t :: t in w.tasks ==> ChangerInv(w, t))
    && (forall t :: t in w.tasks ==> WaiterInv(w, w.tasks[t]))
  }

  lemma InitialInv(tasks: map<Tid, Task>)
    requires Calls(tasks)
    ensures Inv(InitialWorld(tasks))
  {
    forall t | t in tasks
      ensures ChangerInv(InitialWorld(tasks), t) && WaiterInv(InitialWorld(tasks), tasks[t])
    {
      assert AtStart(tasks[t]);
    }
  }

  // ---- Every step keeps the invariant ----

  /** What never goes back. */
  ghost predicate Grows(w: World, w': World) {
    && w.shared.revision <= w'.shared.revision
    && w.shared.notifications <= w'.shared.notifications
    && Counted(w.mark) <= Counted(w'.mark) && Told(w.mark) <= Told(w'.mark)
    && (IsTerminal(w.shared.snapshot.state) ==> w'.shared.snapshot == w.shared.snapshot)
    && w'.tasks.Keys == w.tasks.Keys
  }

  /** A step of task `t` moves no change that another task is making. */
  ghost predicate LeavesOthers(w: World, w': World, t: Tid) {
    && (forall u :: u in w.tasks && u != t ==> u in w'.tasks && w'.tasks[u] == w.tasks[u])
    && (w'.mark == w.mark || (w.mark in {NotYet, Changed(t), Bumped(t)}
        && w'.mark in {Changed(t), Bumped(t), Announced}))
    && (w'.finish == w.finish || (w.finish in {NotYet, Changed(t), Bumped(t)}
        && w'.finish in {Changed(t), Bumped(t), Announced}))
  }

  lemma WaiterStep(w: World, t: Tid, now: nat)
    requires t in w.tasks && !IsChanger(w.tasks[t])
    requires SharedInv(w) && WaiterInv(w, w.tasks[t])
    ensures var w' := StepTask(w, t, now);
            && w' == SetTask(w, t, w'.tasks[t]) && !IsChanger(w'.tasks[t]) && WaiterInv(w, w'.tasks[t])
  {
    assert NextWait(w.shared, w.tasks[t]) == StepTask(w, t, now).tasks[t];
  }

  lemma ChangerStepIsLocal(w: World, t: Tid, now: nat)
    requires SharedInv(w) && t in w.tasks && ChangerInv(w, t) && IsChanger(w.tasks[t])
    ensures var w' := StepTask(w, t, now); SharedInv(w') && Grows(w, w') && LeavesOthers(w, w', t)
  {
  }

  lemma ChangerStepOwn(w: World, t: Tid, now: nat)
    requires SharedInv(w) && t in w.tasks && ChangerInv(w, t) && IsChanger(w.tasks[t])
    ensures var w' := StepTask(w, t, now); ChangerInv(w', t) && (IsChanger(w'.tasks[t]) || w'.tasks[t].Returned?)
  {
  }

  lemma TaskStepIsLocal(w: World, t: Tid, now: nat)
    requires SharedInv(w) && t in w.tasks && ChangerInv(w, t) && WaiterInv(w, w.tasks[t])
    ensures var w' := StepTask(w, t, now); SharedInv(w') && Grows(w, w') && LeavesOthers(w, w', t)
  {
    hide StepTask;
    if IsChanger(w.tasks[t]) {
      ChangerStepIsLocal(w, t, now);
    } else {
      WaiterStep(w, t, now);
    }
  }

  lemma TaskStepOwn(w: World, t: Tid, now: nat)
    requires SharedInv(w) && t in w.tasks && ChangerInv(w, t) && WaiterInv(w, w.tasks[t])
    ensures var w' := StepTask(w, t, now); ChangerInv(w', t) && WaiterInv(w', w'.tasks[t])
  {
    hide StepTask, SharedInv;
    if IsChanger(w.tasks[t]) {
      ChangerStepOwn(w, t, now);
    } else {
      WaiterStep(w, t, now);
    }
  }

  lemma TaskStepOther(w: World, t: Tid, u: Tid, w': World)
    requires SharedInv(w) && u in w.tasks && u != t && ChangerInv(w, u) && WaiterInv(w, w.tasks[u])
    requires Grows(w, w') && LeavesOthers(w, w', t)
    ensures ChangerInv(w', u) && WaiterInv(w', w'.tasks[u])
  {
  }

  lemma TaskStepAbort(w: World, t: Tid, now: nat)
    requires SharedInv(w) && AbortInv(w) && t in w.tasks && ChangerInv(w, t)
    ensures AbortInv(StepTask(w, t, now))
  {
    var w', task := StepTask(w, t, now), w.tasks[t];
    assert w'.registrar == w.registrar && t in w'.tasks;
    if exists u :: u in w.tasks && w.tasks[u].CancelAbort? {
      var u :| u in w.tasks && w.tasks[u].CancelAbort?;
      assert u in w'.tasks && (u != t ==> w'.tasks[u].CancelAbort?);
    }
  }

  lemma TaskKeepsInv(w: World, t: Tid, now: nat)
    requires Inv(w) && t in w.tasks
    ensures Inv(StepTask(w, t, now))
  {
    hide StepTask, WaiterInv, ChangerInv, SharedInv, AbortInv;
    var w' := StepTask(w, t, now);
    TaskStepIsLocal(w, t, now);
    TaskStepAbort(w, t, now);
    forall u | u in w'.tasks
      ensures ChangerInv(w', u) && WaiterInv(w', w'.tasks[u])
    {
      if u == t {
        TaskStepOwn(w, t, now);
      } else {
        TaskStepOther(w, t, u, w');
      }
    }
  }

  lemma RegistrarKeepsInv(w: World)
    requires Inv(w)
    ensures Inv(StepRegistrar(w))
  {
    var w' := StepRegistrar(w);
    assert Grows(w, w') && w'.mark == w.mark && w'.finish == w.finish && w'.tasks == w.tasks;
    forall u | u in w'.tasks
      ensures ChangerInv(w', u) && WaiterInv(w', w'.tasks[u])
    {
      assert ChangerInv(w, u) && WaiterInv(w, w.tasks[u]);
    }
  }

  lemma StepKeepsInv(w: World, turn: Turn)
    requires Inv(w)
    ensures Inv(Step(w, turn))
  {
    hide Inv, StepTask, StepRegistrar;
    if turn.RegistrarTurn? {
      RegistrarKeepsInv(w);
    } else if turn.tid in w.tasks {
      TaskKeepsInv(w, turn.tid, turn.now);
    }
  }

  lemma {:induction false} ReachableInv(tasks: map<Tid, Task>, schedule: seq<Turn>)
    requires Calls(tasks)
    ensures Inv(Exec(InitialWorld(tasks), schedule))
  {
    hide Inv, Step;
    if schedule == [] {
      InitialInv(tasks);
    } else {
      var n := |schedule| - 1;
      ReachableInv(tasks, schedule[..n]);
      StepKeepsInv(Exec(InitialWorld(tasks), schedule[..n]), schedule[n]);
    }
  }

  lemma {:induction false} ExecConcat(w: World, first: seq<Turn>, second: seq<Turn>)
    ensures Exec(w, first + second) == Exec(Exec(w, first), second)
  {
    hide Step;
    if second == [] {
      assert first + second == first;
    } else {
      var n := |second| - 1;
      assert (first + second)[..|first + second| - 1] == first + second[..n];
      ExecConcat(w, first, second[..n]);
    }
  }

  // ---- The first terminal state is final ----

  lemma TerminalSnapshotStays(w: World, turn: Turn)
    requires Inv(w) && IsTerminal(w.shared.snapshot.state)
    ensures Step(w, turn).shared.snapshot == w.shared.snapshot
  {
    if turn.TaskTurn? && turn.tid in w.tasks {
      TaskStepIsLocal(w, turn.tid, turn.now);
    }
  }

  /** Once a job is finished, its state, times and payloads never change, whoever calls what. */
  lemma {:induction false} FirstTerminalStateIsFinal(tasks: map<Tid, Task>, before: seq<Turn>, after: seq<Turn>)
    requires Calls(tasks)
    requires IsTerminal(Exec(InitialWorld(tasks), before).shared.snapshot.state)
    ensures Exec(InitialWorld(tasks), before + after).shared.snapshot
         == Exec(InitialWorld(tasks), before).shared.snapshot
    decreases |after|
  {
    hide Inv, Step;
    if after == [] {
      assert before + after == before;
    } else {
      var n := |after| - 1;
      FirstTerminalStateIsFinal(tasks, before, after[..n]);
      assert (before + after)[..|before + after| - 1] == before + after[..n];
      ReachableInv(tasks, before + after[..n]);
      TerminalSnapshotStays(Exec(InitialWorld(tasks), before + after[..n]), after[n]);
    }
  }

  // ---- Cancellation reaches the task, completion does not abort it ----

  /** The registration has returned, and no call of `cancel` is still on its way to the handle. */
  ghost predicate AbortsSettled(w: World) {
    w.registrar.RegDone? && forall t :: t in w.tasks ==> !w.tasks[t].CancelAbort?
  }

  /** If a cancellation won, the task has been aborted as soon as cancel and registration are
      through; and nothing but a canceled job ever has its task aborted. */
  lemma CancelAbortsTheTask(tasks: map<Tid, Task>, schedule: seq<Turn>)
    requires Calls(tasks)
    ensures var w := Exec(InitialWorld(tasks), schedule);
            && (AbortsSettled(w) && w.shared.snapshot.cancelRequested ==> w.shared.aborts > 0)
            && (w.shared.aborts > 0 ==> w.shared.snapshot.state.Canceled?)
  {
    ReachableInv(tasks, schedule);
  }

  /** The jobs of the source are completed as succeeded or failed only. */
  ghost predicate NoCompletionAsCanceled(w: World) {
    && (w.shared.snapshot.state.Canceled? ==> w.shared.snapshot.cancelRequested)
    && (forall t :: t in w.tasks && w.tasks[t].CompleteStart? ==> !w.tasks[t].state.Canceled?)
  }

  lemma StepKeepsNoCompletionAsCanceled(w: World, turn: Turn)
    requires NoCompletionAsCanceled(w)
    ensures NoCompletionAsCanceled(Step(w, turn))
  {
    if turn.TaskTurn? && turn.tid in w.tasks {
      var t, w' := turn.tid, StepTask(w, turn.tid, turn.now);
      forall u | u in w'.tasks && w'.tasks[u].CompleteStart?
        ensures !w'.tasks[u].state.Canceled?
      {
        assert w'.tasks[u] == w.tasks[u];
      }
    }
  }

  lemma {:induction false} ReachableNoCompletionAsCanceled(tasks: map<Tid, Task>, schedule: seq<Turn>)
    requires NoCompletionAsCanceled(InitialWorld(tasks))
    ensures NoCompletionAsCanceled(Exec(InitialWorld(tasks), schedule))
  {
    hide NoCompletionAsCanceled, Step;
    if schedule != [] {
      var n := |schedule| - 1;
      ReachableNoCompletionAsCanceled(tasks, schedule[..n]);
      StepKeepsNoCompletionAsCanceled(Exec(InitialWorld(tasks), schedule[..n]), schedule[n]);
    }
  }

  /** When everything has settled, the task was aborted exactly if a cancellation won. */
  lemma AbortedExactlyIfCanceled(tasks: map<Tid, Task>, schedule: seq<Turn>)
    requires Calls(tasks) && NoCompletionAsCanceled(InitialWorld(tasks))
    requires AbortsSettled(Exec(InitialWorld(tasks), schedule))
    ensures var w := Exec(InitialWorld(tasks), schedule);
            w.shared.aborts > 0 <==> w.shared.snapshot.cancelRequested
  {
    CancelAbortsTheTask(tasks, schedule);
    ReachableNoCompletionAsCanceled(tasks, schedule);
  }

  // ---- Revisions and waiting ----

  /** At most two changes are ever counted, so `snapshot_with_revision` always succeeds by its
      third turn. */
  lemma SnapshotLoopIsBounded(tasks: map<Tid, Task>, schedule: seq<Turn>, t: Tid)
    requires Calls(tasks)
    ensures var w := Exec(InitialWorld(tasks), schedule);
            && w.shared.revision <= 2
            && (t in w.tasks && w.tasks[t].PollBefore? ==> w.tasks[t].retries <= 2)
            && (t in w.tasks && w.tasks[t].PollAfter? && w.tasks[t].retries == 2 ==>
                w.tasks[t].before == w.shared.revision)
  {
    ReachableInv(tasks, schedule);
    var w := Exec(InitialWorld(tasks), schedule);
    if t in w.tasks {
      assert WaiterInv(w, w.tasks[t]);
    }
  }

  /** No lost wake-up: a waiter that holds a revision from `snapshot_with_revision` is not left
      waiting for a job that is finished. Either it has been notified, or the call that finished
      the job still has to count and announce that, and nothing keeps it from doing so. */
  lemma NoLostWakeup(tasks: map<Tid, Task>, schedule: seq<Turn>, t: Tid)
    requires Calls(tasks)
    requires var w := Exec(InitialWorld(tasks), schedule);
             t in w.tasks && w.tasks[t].Awaiting? && w.tasks[t].careful && IsTerminal(w.shared.snapshot.state)
    ensures var w := Exec(InitialWorld(tasks), schedule);
            || w.shared.notifications > w.tasks[t].created
            || (exists u :: u in w.tasks && w.finish in {Changed(u), Bumped(u)} &&
                  (w.tasks[u] in {CompleteTake, CancelAbort} || w.tasks[u].Bumping? || w.tasks[u].Notifying?))
  {
    ReachableInv(tasks, schedule);
    var w := Exec(InitialWorld(tasks), schedule);
    assert WaiterInv(w, w.tasks[t]);
    if w.finish != Announced {
      var u := w.finish.tid;
      assert ChangerInv(w, u);
    }
  }

  ghost predicate IsCarefulWaiter(task: Task) {
    match task
    case PollBefore(_) => true
    case PollSnapshot(_, _) => true
    case PollAfter(_, _, _) => true
    case WaitFirst(careful, _) => careful
    case WaitCreate(careful, _) => careful
    case WaitSecond(careful, _, _) => careful
    case Awaiting(careful, _, _) => careful
    case Returned => true
    case _ => false
  }

  /** The steps a careful waiter has left once the end of the job is announced. */
  function StepsLeft(w: World, task: Task): nat {
    (if Counted(w.mark) == 0 then 6 else 0) +
    match task
    case PollAfter(_, before, _) => if before == w.shared.revision then 1 else 4
    case PollSnapshot(_, before) => if before == w.shared.revision then 2 else 5
    case PollBefore(_) => 3
    case Awaiting(_, _, _) => 4
    case WaitSecond(_, _, _) => 4
    case WaitCreate(_, _) => 5
    case WaitFirst(_, _) => 4
    case _ => 0
  }

  const MAX_STEPS_LEFT: nat := 11

  ghost predicate WaitsForAnnounced(w: World, t: Tid) {
    w.finish == Announced && t in w.tasks && IsCarefulWaiter(w.tasks[t])
  }

  lemma WaiterProgress(w: World, t: Tid, turn: Turn)
    requires Inv(w) && WaitsForAnnounced(w, t)
    ensures var w' := Step(w, turn);
            && WaitsForAnnounced(w', t)
            && (w.tasks[t].Returned? ==> w'.tasks[t].Returned?)
            && (!w.tasks[t].Returned? && turn.TaskTurn? && turn.tid == t ==>
                  w'.tasks[t].Returned? || StepsLeft(w', w'.tasks[t]) < StepsLeft(w, w.tasks[t]))
            && StepsLeft(w', w'.tasks[t]) <= StepsLeft(w, w.tasks[t])
  {
    if turn.TaskTurn? && turn.tid in w.tasks {
      if turn.tid == t {
        assert WaiterInv(w, w.tasks[t]);
        assert StepTask(w, t, turn.now) == SetTask(w, t, NextWait(w.shared, w.tasks[t]));
      } else {
        TaskStepIsLocal(w, turn.tid, turn.now);
        OthersAdvanceRevision(w, turn.tid, turn.now);
      }
    }
  }

  lemma OthersAdvanceRevision(w: World, u: Tid, now: nat)
    requires Inv(w) && u in w.tasks && w.finish == Announced
    ensures var w' := StepTask(w, u, now);
            && w'.finish == Announced
            && (w'.shared.revision == w.shared.revision || (Counted(w.mark) == 0 && Counted(w'.mark) == 1))
  {
  }

  function TurnsOf(schedule: seq<Turn>, t: Tid): nat {
    if schedule == [] then 0
    else
      var n := |schedule| - 1;
      TurnsOf(schedule[..n], t) + if schedule[n].TaskTurn? && schedule[n].tid == t then 1 else 0
  }

  lemma {:induction false} WaiterReturnsFrom(tasks: map<Tid, Task>, before: seq<Turn>, after: seq<Turn>, t: Tid)
    requires Calls(tasks) && WaitsForAnnounced(Exec(InitialWorld(tasks), before), t)
    ensures var w, w' := Exec(InitialWorld(tasks), before), Exec(InitialWorld(tasks), before + after);
            && WaitsForAnnounced(w', t)
            && (w'.tasks[t].Returned? || StepsLeft(w', w'.tasks[t]) + TurnsOf(after, t) <= StepsLeft(w, w.tasks[t]))
    decreases |after|
  {
    hide Inv, Step, StepsLeft, WaitsForAnnounced;
    if after == [] {
      assert before + after == before;
    } else {
      var n := |after| - 1;
      WaiterReturnsFrom(tasks, before, after[..n], t);
      assert (before + after)[..|before + after| - 1] == before + after[..n];
      ReachableInv(tasks, before + after[..n]);
      WaiterProgress(Exec(InitialWorld(tasks), before + after[..n]), t, after[n]);
    }
  }

  /** Hence every such waiter returns: after the announcement, eleven turns of its own suffice,
      however the other callers are scheduled in between. */
  lemma WaiterReturns(tasks: map<Tid, Task>, before: seq<Turn>, after: seq<Turn>, t: Tid)
    requires Calls(tasks)
    requires WaitsForAnnounced(Exec(InitialWorld(tasks), before), t)
    requires TurnsOf(after, t) >= MAX_STEPS_LEFT
    ensures var w := Exec(InitialWorld(tasks), before + after); t in w.tasks && w.tasks[t].Returned?
  {
    WaiterReturnsFrom(tasks, before, after, t);
  }

  // ---- From the finishing call to the waiter ----

  /** The steps that the call which finished the job still has to its announcement. */
  function AnnouncementSteps(w: World, u: Tid): nat {
    if w.finish == Changed(u) then (if u in w.tasks && w.tasks[u].Bumping? then 2 else 3)
    else if w.finish == Bumped(u) then 1
    else 0
  }

  lemma FinisherAdvances(w: World, u: Tid, turn: Turn)
    requires Inv(w) && w.finish in {Changed(u), Bumped(u), Announced}
    ensures var w' := Step(w, turn);
            && w'.finish in {Changed(u), Bumped(u), Announced}
            && AnnouncementSteps(w', u) <= AnnouncementSteps(w, u)
            && (turn.TaskTurn? && turn.tid == u && w.finish != Announced ==>
                  AnnouncementSteps(w', u) < AnnouncementSteps(w, u))
            && (w.finish == Announced || AnnouncementSteps(w', u) == 0 ==> w'.finish == Announced)
  {
    if w.finish != Announced {
      assert u in w.tasks && ChangerInv(w, u);
    }
    if turn.TaskTurn? && turn.tid in w.tasks && turn.tid != u {
      assert ChangerInv(w, turn.tid);
      TaskStepIsLocal(w, turn.tid, turn.now);
    }
  }

  lemma {:induction false} FinisherAnnounces(tasks: map<Tid, Task>, before: seq<Turn>, after: seq<Turn>, u: Tid)
    requires Calls(tasks) && Exec(InitialWorld(tasks), before).finish in {Changed(u), Bumped(u), Announced}
    ensures var w, w' := Exec(InitialWorld(tasks), before), Exec(InitialWorld(tasks), before + after);
            && w'.finish in {Changed(u), Bumped(u), Announced}
            && (w'.finish == Announced || AnnouncementSteps(w', u) + TurnsOf(after, u) <= AnnouncementSteps(w, u))
    decreases |after|
  {
    hide Inv, Step, AnnouncementSteps;
    if after == [] {
      assert before + after == before;
    } else {
      var n := |after| - 1;
      FinisherAnnounces(tasks, before, after[..n], u);
      assert (before + after)[..|before + after| - 1] == before + after[..n];
      ReachableInv(tasks, before + after[..n]);
      FinisherAdvances(Exec(InitialWorld(tasks), before + after[..n]), u, after[n]);
    }
  }

  lemma FinisherIs(w: World)
    requires Inv(w) && IsTerminal(w.shared.snapshot.state)
    ensures w.finish == Announced || exists u :: w.finish in {Changed(u), Bumped(u)}
  {
    if w.finish != Announced {
      assert w.finish in {Changed(w.finish.tid), Bumped(w.finish.tid)};
    }
  }

  lemma OtherTurnsLeave(w: World, t: Tid, turn: Turn)
    requires t in w.tasks && !(turn.TaskTurn? && turn.tid == t)
    ensures t in Step(w, turn).tasks && Step(w, turn).tasks[t] == w.tasks[t]
  {
  }

  lemma WaiterTurn(w: World, t: Tid, now: nat)
    requires t in w.tasks && !IsChanger(w.tasks[t])
    ensures Step(w, TaskTurn(t, now)) == SetTask(w, t, NextWait(w.shared, w.tasks[t]))
  {
  }

  lemma CarefulWaiterStays(w: World, t: Tid, turn: Turn)
    requires t in w.tasks && IsCarefulWaiter(w.tasks[t])
    ensures t in Step(w, turn).tasks && IsCarefulWaiter(Step(w, turn).tasks[t])
  {
    hide Step;
    if turn.TaskTurn? && turn.tid == t {
      WaiterTurn(w, t, turn.now);
    } else {
      OtherTurnsLeave(w, t, turn);
    }
  }

  lemma {:induction false} CarefulWaiterStaysFor(tasks: map<Tid, Task>, before: seq<Turn>, after: seq<Turn>, t: Tid)
    requires t in Exec(InitialWorld(tasks), before).tasks && IsCarefulWaiter(Exec(InitialWorld(tasks), before).tasks[t])
    ensures var w := Exec(InitialWorld(tasks), before + after); t in w.tasks && IsCarefulWaiter(w.tasks[t])
    decreases |after|
  {
    hide Step, IsCarefulWaiter;
    if after == [] {
      assert before + after == before;
    } else {
      var n := |after| - 1;
      CarefulWaiterStaysFor(tasks, before, after[..n], t);
      assert (before + after)[..|before + after| - 1] == before + after[..n];
      CarefulWaiterStays(Exec(InitialWorld(tasks), before + after[..n]), t, after[n]);
    }
  }

  /** Liveness, in every schedule: if the job is finished, three turns of the call that finished it and
      after these eleven turns of a waiter that reads with `snapshot_with_revision` let the waiter
      return, whatever else happens in between. */
  lemma FinishedJobReleasesWaiter(tasks: map<Tid, Task>, before: seq<Turn>, first: seq<Turn>, second: seq<Turn>, t: Tid)
    requires Calls(tasks)
    requires var w := Exec(InitialWorld(tasks), before);
             && IsTerminal(w.shared.snapshot.state) && t in w.tasks && IsCarefulWaiter(w.tasks[t])
             && (w.finish.Changed? || w.finish.Bumped? ==> TurnsOf(first, w.finish.tid) >= 3)
    requires TurnsOf(second, t) >= MAX_STEPS_LEFT
    ensures var w := Exec(InitialWorld(tasks), before + first + second); t in w.tasks && w.tasks[t].Returned?
  {
    ReachableInv(tasks, before);
    var w := Exec(InitialWorld(tasks), before);
    FinisherIs(w);
    var u := if w.finish.Changed? || w.finish.Bumped? then w.finish.tid else 0;
    FinisherAnnounces(tasks, before, first, u);
    ReachableInv(tasks, before + first);
    CarefulWaiterStaysFor(tasks, before, first, t);
    hide Inv, Exec, Step;
    WaiterReturns(tasks, before + first, second, t);
  }
}

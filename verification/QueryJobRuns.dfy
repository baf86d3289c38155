/** What a run of the job handle makes of a job, said from the calls and the schedule alone: the first
    turn of a call that finishes the job decides its end, and the first turn of `mark_running` before
    that its start. */
module QueryJobRuns {
  import opened Text
  import opened QueryJob
  import opened QueryJobSafety

  /** The first turn of the schedule that is taken by a call of the given kind. */
  function FirstTurn(tasks: map<Tid, Task>, schedule: seq<Turn>, kind: Task -> bool): (r: Option<nat>)
    ensures r.Some? ==> r.value < |schedule| && IsTurnOf(tasks, schedule[r.value], kind)
    ensures forall k :: 0 <= k < (if r.Some? then r.value else |schedule|) ==> !IsTurnOf(tasks, schedule[k], kind)
  {
    if schedule == [] then None
    else
      var n := |schedule| - 1;
      var before := FirstTurn(tasks, schedule[..n], kind);
      if before.Some? then before else if IsTurnOf(tasks, schedule[n], kind) then Some(n) else None
  }

  predicate IsTurnOf(tasks: map<Tid, Task>, turn: Turn, kind: Task -> bool) {
    turn.TaskTurn? && turn.tid in tasks && kind(tasks[turn.tid])
  }

  const FINISHES := (task: Task) => task.CompleteStart? || task.CancelStart?
  const MARKS := (task: Task) => task.MarkStart?

  /** A task that has had no turn is where it was, and one that has had a turn has begun. */
  ghost predicate Begun(tasks: map<Tid, Task>, schedule: seq<Turn>, w: World) {
    && w.tasks.Keys == tasks.Keys
    && (forall t :: t in tasks && TurnsOf(schedule, t) == 0 ==> w.tasks[t] == tasks[t])
    && (forall t :: t in tasks && TurnsOf(schedule, t) > 0 ==>
          !w.tasks[t].MarkStart? && !w.tasks[t].CompleteStart? && !w.tasks[t].CancelStart?)
  }

  /** The end of the job as the call of `task` gives it in a turn at time `now`. */
  ghost predicate EndsAs(s: Snapshot, task: Task, now: nat) {
    && s.finishedAt == Some(now)
    && (task.CompleteStart? ==> s.state == task.state && s.payloads == Some(task.payloads) && !s.cancelRequested)
    && (task.CancelStart? ==> s.state == Canceled && s.payloads == Some(task.payloads) && s.cancelRequested)
  }

  /** What the job is after a schedule. */
  ghost predicate IsDecided(tasks: map<Tid, Task>, schedule: seq<Turn>, s: Snapshot) {
    var finish, mark := FirstTurn(tasks, schedule, FINISHES), FirstTurn(tasks, schedule, MARKS);
    var started := mark.Some? && (finish.None? || mark.value < finish.value);
    && s.startedAt == (if started then Some(schedule[mark.value].now) else None)
    && (finish.None? ==>
          && s.state == (if started then Running else Pending)
          && s.finishedAt == None && s.payloads == None && !s.cancelRequested)
    && (finish.Some? ==> EndsAs(s, tasks[schedule[finish.value].tid], schedule[finish.value].now))
  }

  lemma FirstTurnAfter(tasks: map<Tid, Task>, schedule: seq<Turn>, turn: Turn, kind: Task -> bool)
    ensures FirstTurn(tasks, schedule + [turn], kind)
         == if FirstTurn(tasks, schedule, kind).Some? then FirstTurn(tasks, schedule, kind)
            else if IsTurnOf(tasks, turn, kind) then Some(|schedule|) else None
  {
    assert (schedule + [turn])[..|schedule|] == schedule;
  }

  lemma {:induction false} HadItsTurn(tasks: map<Tid, Task>, schedule: seq<Turn>, t: Tid, kind: Task -> bool)
    requires t in tasks && kind(tasks[t]) && TurnsOf(schedule, t) > 0
    ensures FirstTurn(tasks, schedule, kind).Some?
  {
    var n := |schedule| - 1;
    if TurnsOf(schedule[..n], t) > 0 {
      HadItsTurn(tasks, schedule[..n], t, kind);
    }
  }

  /** A step changes the snapshot only at the beginning of a call. */
  lemma StepOfTask(w: World, t: Tid, now: nat)
    requires t in w.tasks
    ensures var s, s', task := w.shared.snapshot, StepTask(w, t, now).shared.snapshot, w.tasks[t];
            && (s' == s || task.MarkStart? || task.CompleteStart? || task.CancelStart?)
            && (task.MarkStart? ==>
                  if s.state == Pending then s' == s.(state := Running, startedAt := Some(now)) else s' == s)
            && (task.CompleteStart? || task.CancelStart? ==>
                  if IsTerminal(s.state) then s' == s
                  else EndsAs(s', task, now) || (task.CompleteStart? && s.cancelRequested))
            && (task.CompleteStart? || task.CancelStart? ==> s'.startedAt == s.startedAt)
    ensures var task' := StepTask(w, t, now).tasks;
            && task'.Keys == w.tasks.Keys
            && !task'[t].MarkStart? && !task'[t].CompleteStart? && !task'[t].CancelStart?
            && forall u :: u in w.tasks && u != t ==> task'[u] == w.tasks[u]
  {
  }

  lemma StepOfRegistrar(w: World)
    ensures StepRegistrar(w).shared.snapshot == w.shared.snapshot && StepRegistrar(w).tasks == w.tasks
  {
  }

  lemma TurnBegins(tasks: map<Tid, Task>, schedule: seq<Turn>, w: World, turn: Turn)
    requires Begun(tasks, schedule, w)
    ensures Begun(tasks, schedule + [turn], Step(w, turn))
  {
    hide StepTask, StepRegistrar;
    assert (schedule + [turn])[..|schedule|] == schedule;
    assert forall t :: TurnsOf(schedule + [turn], t) ==
                       TurnsOf(schedule, t) + if turn.TaskTurn? && turn.tid == t then 1 else 0;
    if turn.RegistrarTurn? {
      StepOfRegistrar(w);
    } else if turn.tid in w.tasks {
      StepOfTask(w, turn.tid, turn.now);
    }
  }

  lemma TurnDecides(tasks: map<Tid, Task>, schedule: seq<Turn>, w: World, turn: Turn)
    requires Begun(tasks, schedule, w) && IsDecided(tasks, schedule, w.shared.snapshot) && SharedInv(w)
    requires Calls(tasks)
    ensures IsDecided(tasks, schedule + [turn], Step(w, turn).shared.snapshot)
  {
    hide StepTask, StepRegistrar;
    FirstTurnAfter(tasks, schedule, turn, FINISHES);
    FirstTurnAfter(tasks, schedule, turn, MARKS);
    if turn.RegistrarTurn? {
      StepOfRegistrar(w);
    } else if turn.tid in w.tasks {
      var t := turn.tid;
      StepOfTask(w, t, turn.now);
      assert AtStart(tasks[t]);
      if TurnsOf(schedule, t) > 0 {
        if FINISHES(tasks[t]) {
          HadItsTurn(tasks, schedule, t, FINISHES);
        }
        if MARKS(tasks[t]) {
          HadItsTurn(tasks, schedule, t, MARKS);
        }
      }
    }
  }

  /** In every interleaving: the job is finished exactly if some call that finishes it has had a turn,
      and then it carries the state, the payloads and the time of the first such turn; it has been
      started exactly if `mark_running` had a turn before that, and at the time of the first one. */
  lemma {:induction false} FirstTurnsDecide(tasks: map<Tid, Task>, schedule: seq<Turn>)
    requires Calls(tasks)
    ensures Begun(tasks, schedule, Exec(InitialWorld(tasks), schedule))
    ensures IsDecided(tasks, schedule, Exec(InitialWorld(tasks), schedule).shared.snapshot)
  {
    if schedule == [] {
      NothingDecided(tasks);
    } else {
      var n := |schedule| - 1;
      var front, turn := schedule[..n], schedule[n];
      FirstTurnsDecide(tasks, front);
      ReachableInv(tasks, front);
      var w := Exec(InitialWorld(tasks), front);
      assert schedule == front + [turn] && SharedInv(w);
      assert Exec(InitialWorld(tasks), schedule) == Step(w, turn);
      hide *;
      TurnBegins(tasks, front, w, turn);
      TurnDecides(tasks, front, w, turn);
    }
  }

  lemma NothingDecided(tasks: map<Tid, Task>)
    requires Calls(tasks)
    ensures Begun(tasks, [], Exec(InitialWorld(tasks), []))
    ensures IsDecided(tasks, [], Exec(InitialWorld(tasks), []).shared.snapshot)
  {
  }
}

/** The waiting loop of `job_status` in src/tools/query_surface.rs, which reads the snapshot before the
    revision: when it returns, and when it waits for ever. And each call of the handle, run alone. */
module QueryJobStatus {
  import opened Text
  import opened QueryJob
  import opened QueryJobSafety

  // ---- A revision that was loaded before the end was counted ----

  /** A waiter of `job_status` whose revision does not count the change that finished the job. */
  ghost predicate IsEarlyWaiter(w: World, task: Task) {
    match task
    case StatusSnapshot => true
    case Returned => true
    case WaitFirst(careful, observed) => !careful && observed <= Counted(w.mark)
    case WaitCreate(careful, observed) => !careful && observed <= Counted(w.mark)
    case WaitSecond(careful, observed, created) =>
      !careful && observed <= Counted(w.mark) && created <= w.shared.notifications
    case Awaiting(careful, observed, created) => !careful && observed <= Counted(w.mark) && created <= Told(w.mark)
    case _ => false
  }

  /** Loading the revision is early exactly if the end has not been counted by then. */
  lemma LoadIsEarlyExactly(w: World, t: Tid, now: nat)
    requires Inv(w) && t in w.tasks && w.tasks[t] == StatusRevision
    ensures var w' := Step(w, TaskTurn(t, now));
            t in w'.tasks && (IsEarlyWaiter(w', w'.tasks[t]) <==> Counted(w.finish) == 0)
  {
    WaiterTurn(w, t, now);
  }

  /** An early waiter stays early, whoever moves, until it returns or loads the revision again, which
      it does only while the job is not finished. */
  lemma EarlyWaiterStays(w: World, t: Tid, turn: Turn)
    requires Inv(w) && t in w.tasks && IsEarlyWaiter(w, w.tasks[t])
    ensures var w' := Step(w, turn);
            && t in w'.tasks
            && (IsEarlyWaiter(w', w'.tasks[t])
                || (w'.tasks[t] == StatusRevision && !IsTerminal(w.shared.snapshot.state)))
  {
    if turn.TaskTurn? && turn.tid == t {
      WaiterTurn(w, t, turn.now);
    } else {
      OtherTurnsGrow(w, t, turn);
    }
  }

  lemma OtherTurnsGrow(w: World, t: Tid, turn: Turn)
    requires Inv(w) && t in w.tasks && !(turn.TaskTurn? && turn.tid == t)
    ensures var w' := Step(w, turn);
            && t in w'.tasks && w'.tasks[t] == w.tasks[t]
            && Counted(w.mark) <= Counted(w'.mark) && Told(w.mark) <= Told(w'.mark)
            && w.shared.notifications <= w'.shared.notifications
  {
    OtherTurnsLeave(w, t, turn);
    if turn.TaskTurn? && turn.tid in w.tasks {
      TaskStepIsLocal(w, turn.tid, turn.now);
    }
  }

  function EarlyStepsLeft(task: Task): nat {
    match task
    case StatusSnapshot => 1
    case WaitFirst(_, _) => 2
    case WaitCreate(_, _) => 3
    case WaitSecond(_, _, _) => 2
    case Awaiting(_, _, _) => 2
    case _ => 0
  }

  const MAX_EARLY_STEPS: nat := 3

  lemma EarlyWaiterProgress(w: World, t: Tid, turn: Turn)
    requires Inv(w) && t in w.tasks && IsEarlyWaiter(w, w.tasks[t]) && w.finish == Announced
    ensures var w' := Step(w, turn);
            && t in w'.tasks && IsEarlyWaiter(w', w'.tasks[t]) && w'.finish == Announced
            && EarlyStepsLeft(w'.tasks[t]) + (if turn.TaskTurn? && turn.tid == t && !w.tasks[t].Returned? then 1 else 0)
               <= EarlyStepsLeft(w.tasks[t])
  {
    EarlyWaiterStays(w, t, turn);
    if turn.TaskTurn? && turn.tid == t {
      WaiterTurn(w, t, turn.now);
    } else {
      OtherTurnsLeave(w, t, turn);
      EndStaysAnnounced(w, turn);
    }
  }

  lemma EndStaysAnnounced(w: World, turn: Turn)
    requires Inv(w) && w.finish == Announced
    ensures Step(w, turn).finish == Announced
  {
    if turn.TaskTurn? && turn.tid in w.tasks {
      OthersAdvanceRevision(w, turn.tid, turn.now);
    }
  }

  /** The first half, in every schedule: once the end is announced, a waiter whose revision does not
      count it returns after at most three turns of its own. */
  lemma {:induction false} EarlyWaiterReturns(tasks: map<Tid, Task>, before: seq<Turn>, after: seq<Turn>, t: Tid)
    requires Calls(tasks)
    requires var w := Exec(InitialWorld(tasks), before);
             t in w.tasks && IsEarlyWaiter(w, w.tasks[t]) && w.finish == Announced
    ensures var w, w' := Exec(InitialWorld(tasks), before), Exec(InitialWorld(tasks), before + after);
            && t in w'.tasks && IsEarlyWaiter(w', w'.tasks[t]) && w'.finish == Announced
            && (w'.tasks[t].Returned? || EarlyStepsLeft(w'.tasks[t]) + TurnsOf(after, t) <= EarlyStepsLeft(w.tasks[t]))
            && (TurnsOf(after, t) >= MAX_EARLY_STEPS ==> w'.tasks[t].Returned?)
    decreases |after|
  {
    hide Inv, Step;
    if after == [] {
      assert before + after == before;
    } else {
      var n := |after| - 1;
      EarlyWaiterReturns(tasks, before, after[..n], t);
      assert (before + after)[..|before + after| - 1] == before + after[..n];
      ReachableInv(tasks, before + after[..n]);
      EarlyWaiterProgress(Exec(InitialWorld(tasks), before + after[..n]), t, after[n]);
    }
  }

  // ---- The exact condition ----

  /** Nothing will be counted or announced any more. */
  ghost predicate IsSettled(w: World) {
    w.finish == Announced && (w.mark == NotYet || w.mark == Announced)
  }

  /** The call is somewhere in the loop of `job_status`. */
  predicate IsStatusTask(task: Task) {
    match task
    case StatusSnapshot => true
    case StatusRevision => true
    case WaitFirst(careful, _) => !careful
    case WaitCreate(careful, _) => !careful
    case WaitSecond(careful, _, _) => !careful
    case Awaiting(careful, _, _) => !careful
    case _ => false
  }

  /** What the waiter holds does not count everything: it is about to read the snapshot, its revision
      is an old one, or a notification has come since it created its future. */
  predicate IsBehind(s: Shared, task: Task) {
    match task
    case StatusSnapshot => true
    case WaitFirst(_, observed) => observed != s.revision
    case WaitCreate(_, observed) => observed != s.revision
    case WaitSecond(_, observed, created) => observed != s.revision || created < s.notifications
    case Awaiting(_, _, created) => created < s.notifications
    case Returned => true
    case _ => false
  }

  lemma SettledStays(w: World, turn: Turn)
    requires Inv(w) && IsSettled(w)
    ensures var w' := Step(w, turn);
            && IsSettled(w') && w'.shared.snapshot == w.shared.snapshot
            && w'.shared.revision == w.shared.revision && w'.shared.notifications == w.shared.notifications
  {
    if turn.TaskTurn? && turn.tid in w.tasks {
      assert ChangerInv(w, turn.tid);
    }
  }

  /** In a settled world a waiter that is behind stays behind and gets on, and one that is not never
      returns. */
  lemma SettledProgress(w: World, t: Tid, turn: Turn)
    requires Inv(w) && IsSettled(w) && t in w.tasks && (IsStatusTask(w.tasks[t]) || w.tasks[t].Returned?)
    ensures var w' := Step(w, turn);
            && IsSettled(w') && t in w'.tasks && (IsStatusTask(w'.tasks[t]) || w'.tasks[t].Returned?)
            && (w.tasks[t].Returned? ==> w'.tasks[t].Returned?)
            && (IsBehind(w.shared, w.tasks[t]) <==> IsBehind(w'.shared, w'.tasks[t]))
            && (IsBehind(w.shared, w.tasks[t]) ==>
                  BehindStepsLeft(w'.tasks[t])
                  + (if turn.TaskTurn? && turn.tid == t && !w.tasks[t].Returned? then 1 else 0)
                  <= BehindStepsLeft(w.tasks[t]))
  {
    SettledStays(w, turn);
    assert WaiterInv(w, w.tasks[t]);
    if turn.TaskTurn? && turn.tid == t {
      hide Inv;
      SettledTurn(w, t, turn.now);
    } else {
      OtherTurnsLeave(w, t, turn);
    }
  }

  lemma SettledTurn(w: World, t: Tid, now: nat)
    requires SharedInv(w) && t in w.tasks && WaiterInv(w, w.tasks[t]) && IsSettled(w)
    requires IsStatusTask(w.tasks[t]) || w.tasks[t].Returned?
    ensures var w' := Step(w, TaskTurn(t, now));
            && t in w'.tasks && (IsStatusTask(w'.tasks[t]) || w'.tasks[t].Returned?)
            && (w.tasks[t].Returned? ==> w'.tasks[t].Returned?)
            && (IsBehind(w.shared, w.tasks[t]) <==> IsBehind(w'.shared, w'.tasks[t]))
            && (IsBehind(w.shared, w.tasks[t]) ==>
                  BehindStepsLeft(w'.tasks[t]) + (if w.tasks[t].Returned? then 0 else 1)
                  <= BehindStepsLeft(w.tasks[t]))
  {
    WaiterTurn(w, t, now);
  }

  function BehindStepsLeft(task: Task): nat {
    match task
    case StatusSnapshot => 1
    case WaitFirst(_, _) => 4
    case WaitCreate(_, _) => 4
    case WaitSecond(_, _, _) => 3
    case Awaiting(_, _, _) => 2
    case _ => 0
  }

  const MAX_BEHIND_STEPS: nat := 4

  lemma {:induction false} SettledRun(tasks: map<Tid, Task>, before: seq<Turn>, after: seq<Turn>, t: Tid)
    requires Calls(tasks)
    requires var w := Exec(InitialWorld(tasks), before);
             IsSettled(w) && t in w.tasks && (IsStatusTask(w.tasks[t]) || w.tasks[t].Returned?)
    ensures var w, w' := Exec(InitialWorld(tasks), before), Exec(InitialWorld(tasks), before + after);
            && IsSettled(w') && t in w'.tasks && (IsStatusTask(w'.tasks[t]) || w'.tasks[t].Returned?)
            && (w.tasks[t].Returned? ==> w'.tasks[t].Returned?)
            && (IsBehind(w.shared, w.tasks[t]) <==> IsBehind(w'.shared, w'.tasks[t]))
            && (IsBehind(w.shared, w.tasks[t]) && !w'.tasks[t].Returned? ==>
                  BehindStepsLeft(w'.tasks[t]) + TurnsOf(after, t) <= BehindStepsLeft(w.tasks[t]))
    decreases |after|
  {
    hide Inv, Step, IsSettled, IsStatusTask, IsBehind;
    if after == [] {
      assert before + after == before;
    } else {
      var n := |after| - 1;
      SettledRun(tasks, before, after[..n], t);
      assert (before + after)[..|before + after| - 1] == before + after[..n];
      ReachableInv(tasks, before + after[..n]);
      SettledProgress(Exec(InitialWorld(tasks), before + after[..n]), t, after[n]);
    }
  }

  lemma BehindIsBounded(s: Shared, task: Task)
    requires IsStatusTask(task)
    ensures BehindStepsLeft(task) <= MAX_BEHIND_STEPS
    ensures IsBehind(s, task) ==> BehindStepsLeft(task) >= 1
    ensures !IsBehind(s, task) ==> !task.Returned?
  {
  }

  ghost predicate Returns(tasks: map<Tid, Task>, schedule: seq<Turn>, t: Tid) {
    var w := Exec(InitialWorld(tasks), schedule); t in w.tasks && w.tasks[t].Returned?
  }

  /** The exact condition, in every schedule: when the end is announced and nothing else is on its way,
      a call of `job_status` that is behind returns after at most four turns of its own, and one that
      is not behind returns in no continuation. */
  lemma StatusReturnsExactlyIfBehind(tasks: map<Tid, Task>, before: seq<Turn>, t: Tid)
    requires Calls(tasks)
    requires var w := Exec(InitialWorld(tasks), before);
             IsSettled(w) && t in w.tasks && IsStatusTask(w.tasks[t])
    ensures var w := Exec(InitialWorld(tasks), before);
            && (IsBehind(w.shared, w.tasks[t])
                <==> forall after :: TurnsOf(after, t) >= MAX_BEHIND_STEPS ==> Returns(tasks, before + after, t))
            && (!IsBehind(w.shared, w.tasks[t]) <==> forall after :: !Returns(tasks, before + after, t))
  {
    var w := Exec(InitialWorld(tasks), before);
    var alone := seq(MAX_BEHIND_STEPS, _ => TaskTurn(t, 0));
    OwnTurns(t, MAX_BEHIND_STEPS);
    forall after
      ensures Returns(tasks, before + after, t) ==> IsBehind(w.shared, w.tasks[t])
      ensures IsBehind(w.shared, w.tasks[t]) && TurnsOf(after, t) >= MAX_BEHIND_STEPS ==>
          Returns(tasks, before + after, t)
    {
      SettledRun(tasks, before, after, t);
      BehindIsBounded(w.shared, w.tasks[t]);
      var w' := Exec(InitialWorld(tasks), before + after);
      if IsStatusTask(w'.tasks[t]) {
        BehindIsBounded(w'.shared, w'.tasks[t]);
      }
    }
    assert TurnsOf(alone, t) >= MAX_BEHIND_STEPS;
    assert IsBehind(w.shared, w.tasks[t]) ==> Returns(tasks, before + alone, t);
  }

  lemma {:induction false} OwnTurns(t: Tid, n: nat)
    ensures TurnsOf(seq(n, _ => TaskTurn(t, 0)), t) == n
  {
    if n > 0 {
      var turns := seq(n, _ => TaskTurn(t, 0));
      OwnTurns(t, n - 1);
      assert turns[..n - 1] == seq(n - 1, _ => TaskTurn(t, 0));
    }
  }

  /** A revision that is loaded in a settled world counts everything, so the call never returns. */
  lemma LateLoadIsNotBehind(w: World, t: Tid, now: nat)
    requires IsSettled(w) && t in w.tasks && w.tasks[t] == StatusRevision
    ensures var w' := Step(w, TaskTurn(t, now)); t in w'.tasks && !IsBehind(w'.shared, w'.tasks[t])
  {
    WaiterTurn(w, t, now);
  }

  // ---- While changes are still to be counted or announced ----

  /** A stage and one that it can lead to in one step. */
  predicate LeadsTo(a: Stage, b: Stage) {
    b == a || (a.NotYet? && b.Changed?) || (a.Changed? && b == Bumped(a.tid)) || (a.Bumped? && b.Announced?)
  }

  lemma StagesAdvance(w: World, turn: Turn)
    requires Inv(w)
    ensures var w' := Step(w, turn);
            && LeadsTo(w.mark, w'.mark) && LeadsTo(w.finish, w'.finish)
            && (IsTerminal(w.shared.snapshot.state) ==>
                  IsTerminal(w'.shared.snapshot.state) && (w.mark.NotYet? ==> w'.mark.NotYet?))
  {
    if turn.TaskTurn? && turn.tid in w.tasks {
      assert ChangerInv(w, turn.tid);
    }
  }

  predicate CountAhead(w: World) {
    w.mark.Changed? || w.finish.Changed?
  }

  predicate NoticeAhead(w: World) {
    CountAhead(w) || w.mark.Bumped? || w.finish.Bumped?
  }

  /** What the waiter holds will not count everything once all is counted and announced. */
  predicate WillBeBehind(w: World, task: Task) {
    match task
    case StatusSnapshot => true
    case WaitFirst(_, observed) => observed != w.shared.revision || CountAhead(w)
    case WaitCreate(_, observed) => observed != w.shared.revision || CountAhead(w)
    case WaitSecond(_, observed, created) =>
      observed != w.shared.revision || created < w.shared.notifications || NoticeAhead(w)
    case Awaiting(_, _, created) => created < w.shared.notifications || NoticeAhead(w)
    case Returned => true
    case _ => false
  }

  predicate IsStatusCall(task: Task) {
    IsStatusTask(task) || task.Returned?
  }

  lemma WillBeBehindStays(w: World, t: Tid, turn: Turn)
    requires Inv(w) && IsTerminal(w.shared.snapshot.state) && t in w.tasks && IsStatusCall(w.tasks[t])
    requires WillBeBehind(w, w.tasks[t])
    ensures var w' := Step(w, turn);
            && IsTerminal(w'.shared.snapshot.state) && t in w'.tasks && IsStatusCall(w'.tasks[t])
            && WillBeBehind(w', w'.tasks[t])
  {
    if turn.TaskTurn? && turn.tid == t {
      hide Inv, Step;
      WaiterTurn(w, t, turn.now);
    } else {
      StepKeepsInv(w, turn);
      StagesAdvance(w, turn);
      OtherTurnsLeave(w, t, turn);
      assert SharedInv(w) && SharedInv(Step(w, turn)) && WaiterInv(w, w.tasks[t]);
      hide Inv, Step, SharedInv, WillBeBehind, LeadsTo;
      LaterIsBehind(w, Step(w, turn), w.tasks[t]);
    }
  }

  lemma LaterIsBehind(w: World, w': World, task: Task)
    requires SharedInv(w) && SharedInv(w') && LeadsTo(w.mark, w'.mark) && LeadsTo(w.finish, w'.finish)
    requires WaiterInv(w, task) && WillBeBehind(w, task)
    ensures WillBeBehind(w', task)
  {
  }

  lemma {:induction false} WillBeBehindRun(tasks: map<Tid, Task>, before: seq<Turn>, first: seq<Turn>, t: Tid)
    requires Calls(tasks)
    requires var w := Exec(InitialWorld(tasks), before);
             && IsTerminal(w.shared.snapshot.state) && t in w.tasks && IsStatusCall(w.tasks[t])
             && WillBeBehind(w, w.tasks[t])
    ensures var w := Exec(InitialWorld(tasks), before + first);
            && IsTerminal(w.shared.snapshot.state) && t in w.tasks && IsStatusCall(w.tasks[t])
            && WillBeBehind(w, w.tasks[t])
    decreases |first|
  {
    hide Inv, Step, IsStatusCall, WillBeBehind;
    if first == [] {
      assert before + first == before;
    } else {
      var n := |first| - 1;
      WillBeBehindRun(tasks, before, first[..n], t);
      assert (before + first)[..|before + first| - 1] == before + first[..n];
      ReachableInv(tasks, before + first[..n]);
      WillBeBehindStays(Exec(InitialWorld(tasks), before + first[..n]), t, first[n]);
    }
  }

  /** The turns of the calls alone that still have to count or announce something. */
  lemma SettlingTurn(w: World, t: Tid) returns (turn: Turn)
    requires Inv(w) && IsTerminal(w.shared.snapshot.state) && !IsSettled(w)
    requires t in w.tasks && IsStatusCall(w.tasks[t]) && !WillBeBehind(w, w.tasks[t])
    ensures var w' := Step(w, turn);
            && IsTerminal(w'.shared.snapshot.state) && t in w'.tasks && w'.tasks[t] == w.tasks[t]
            && !WillBeBehind(w', w'.tasks[t]) && StagesLeft(w') < StagesLeft(w)
  {
    var u := if w.mark.Changed? || w.mark.Bumped? then w.mark.tid else w.finish.tid;
    turn := TaskTurn(u, 0);
    assert ChangerInv(w, u) && SharedInv(w);
    assert IsChanger(w.tasks[u]) && u != t;
    hide Inv, WillBeBehind;
    ChangerTurn(w, u);
    OtherTurnsLeave(w, t, turn);
    hide Step, SharedInv, StagesLeft;
    NotBehindStays(w, Step(w, turn), w.tasks[t]);
  }

  lemma ChangerTurn(w: World, u: Tid)
    requires SharedInv(w) && IsTerminal(w.shared.snapshot.state) && u in w.tasks && ChangerInv(w, u)
    requires w.mark in {Changed(u), Bumped(u)} || w.finish in {Changed(u), Bumped(u)}
    ensures var w' := Step(w, TaskTurn(u, 0));
            && IsTerminal(w'.shared.snapshot.state) && StagesLeft(w') < StagesLeft(w)
            && (!CountAhead(w) ==> w'.shared.revision == w.shared.revision && !CountAhead(w'))
            && NoticeAhead(w)
  {
  }

  lemma NotBehindStays(w: World, w': World, task: Task)
    requires IsStatusCall(task) && !WillBeBehind(w, task) && NoticeAhead(w)
    requires !CountAhead(w) ==> w'.shared.revision == w.shared.revision && !CountAhead(w')
    ensures !WillBeBehind(w', task)
  {
  }

  function StageLeft(stage: Stage): nat {
    match stage
    case NotYet => 0
    case Changed(_) => 2
    case Bumped(_) => 1
    case Announced => 0
  }

  /** What is left to be done, the taking of the abort handle included. */
  function StagesLeft(w: World): nat {
    2 * (StageLeft(w.mark) + StageLeft(w.finish))
    + if w.finish.Changed? && w.finish.tid in w.tasks && !w.tasks[w.finish.tid].Bumping? then 1 else 0
  }

  lemma {:induction false} CanSettle(tasks: map<Tid, Task>, before: seq<Turn>, t: Tid) returns (first: seq<Turn>)
    requires Calls(tasks)
    requires var w := Exec(InitialWorld(tasks), before);
             && IsTerminal(w.shared.snapshot.state) && t in w.tasks && IsStatusCall(w.tasks[t])
             && !WillBeBehind(w, w.tasks[t])
    ensures var w := Exec(InitialWorld(tasks), before + first);
            && IsSettled(w) && t in w.tasks && IsStatusCall(w.tasks[t]) && !WillBeBehind(w, w.tasks[t])
    decreases StagesLeft(Exec(InitialWorld(tasks), before))
  {
    var w := Exec(InitialWorld(tasks), before);
    if IsSettled(w) {
      first := [];
      assert before + first == before;
    } else {
      ReachableInv(tasks, before);
      hide Inv, IsSettled, IsStatusCall, WillBeBehind, StagesLeft;
      var turn := SettlingTurn(w, t);
      assert (before + [turn])[..|before + [turn]| - 1] == before;
      var rest := CanSettle(tasks, before + [turn], t);
      first := [turn] + rest;
      Associative(before, [turn], rest);
    }
  }

  lemma BehindWhenSettled(w: World, task: Task)
    requires IsSettled(w) && IsStatusCall(task)
    ensures WillBeBehind(w, task) <==> IsBehind(w.shared, task)
    ensures !IsBehind(w.shared, task) ==> IsStatusTask(task)
  {
  }

  /** The schedule `first` leads to a settled world from which the call returns in no continuation. */
  ghost predicate LeadsToStuck(tasks: map<Tid, Task>, before: seq<Turn>, first: seq<Turn>, t: Tid) {
    && IsSettled(Exec(InitialWorld(tasks), before + first))
    && forall after :: !Returns(tasks, before + first + after, t)
  }

  /** The exact condition at any point of any schedule from which on the job is finished, whatever is
      still to be counted or announced. If the call will be behind, then however all others are
      scheduled it returns after at most four turns of its own once everything is announced; if not,
      some schedule of the others leads to its waiting for ever. */
  lemma FinishedJobReleasesStatusExactlyIfBehind(tasks: map<Tid, Task>, before: seq<Turn>, t: Tid)
    requires Calls(tasks)
    requires var w := Exec(InitialWorld(tasks), before);
             IsTerminal(w.shared.snapshot.state) && t in w.tasks && IsStatusCall(w.tasks[t])
    ensures var w := Exec(InitialWorld(tasks), before);
            && (WillBeBehind(w, w.tasks[t]) ==>
                  forall first, second ::
                    IsSettled(Exec(InitialWorld(tasks), before + first)) && TurnsOf(second, t) >= MAX_BEHIND_STEPS ==>
                      Returns(tasks, before + first + second, t))
            && (!WillBeBehind(w, w.tasks[t]) <==> exists first :: LeadsToStuck(tasks, before, first, t))
  {
    var w := Exec(InitialWorld(tasks), before);
    hide Inv, Step, Exec, IsSettled, IsStatusCall, IsStatusTask, WillBeBehind, IsBehind, TurnsOf;
    if WillBeBehind(w, w.tasks[t]) {
      forall first, second
        | IsSettled(Exec(InitialWorld(tasks), before + first)) && TurnsOf(second, t) >= MAX_BEHIND_STEPS
        ensures Returns(tasks, before + first + second, t)
      {
        WillBeBehindRun(tasks, before, first, t);
        SettledReturns(tasks, before + first, second, t);
      }
      forall first ensures !LeadsToStuck(tasks, before, first, t) {
        if IsSettled(Exec(InitialWorld(tasks), before + first)) {
          var alone := seq(MAX_BEHIND_STEPS, _ => TaskTurn(t, 0));
          OwnTurns(t, MAX_BEHIND_STEPS);
          assert Returns(tasks, before + first + alone, t);
        }
      }
    } else {
      var first := CanSettle(tasks, before, t);
      var v := Exec(InitialWorld(tasks), before + first);
      BehindWhenSettled(v, v.tasks[t]);
      StatusReturnsExactlyIfBehind(tasks, before + first, t);
      assert LeadsToStuck(tasks, before, first, t);
    }
  }

  lemma SettledReturns(tasks: map<Tid, Task>, before: seq<Turn>, after: seq<Turn>, t: Tid)
    requires Calls(tasks) && TurnsOf(after, t) >= MAX_BEHIND_STEPS
    requires var w := Exec(InitialWorld(tasks), before);
             IsSettled(w) && t in w.tasks && IsStatusCall(w.tasks[t]) && WillBeBehind(w, w.tasks[t])
    ensures Returns(tasks, before + after, t)
  {
    var w := Exec(InitialWorld(tasks), before);
    BehindWhenSettled(w, w.tasks[t]);
    hide Inv, Step, Exec, IsSettled, WillBeBehind, IsBehind;
    if w.tasks[t].Returned? {
      SettledRun(tasks, before, after, t);
    } else {
      StatusReturnsExactlyIfBehind(tasks, before, t);
    }
  }

  // ---- The order in which job_status reads ----

  ghost predicate NobodyElse(w: World, t: Tid) {
    forall u :: u in w.tasks && u != t ==> w.tasks[u].Returned?
  }

  lemma {:induction false} StuckForever(w: World, t: Tid, schedule: seq<Turn>)
    requires t in w.tasks && w.tasks[t].Awaiting? && w.tasks[t].created == w.shared.notifications
    requires NobodyElse(w, t)
    ensures var w' := Exec(w, schedule);
            && t in w'.tasks && w'.tasks[t] == w.tasks[t] && NobodyElse(w', t)
            && w'.shared.snapshot == w.shared.snapshot && w'.shared.notifications == w.shared.notifications
            && w'.finish == w.finish
  {
    if schedule != [] {
      StuckForever(w, t, schedule[..|schedule| - 1]);
    }
  }

  function StatusCalls(payloads: Payloads): map<Tid, Task> {
    map[0 := StatusSnapshot, 1 := CompleteStart(Succeeded, payloads)]
  }

  const STATUS_SCHEDULE: seq<Turn> :=
    [TaskTurn(0, 0)] + Times4(TaskTurn(1, 0)) + Times4(TaskTurn(0, 0))

  function Times4(turn: Turn): seq<Turn> {
    [turn, turn, turn, turn]
  }

  lemma OneTurn(w: World, turn: Turn)
    ensures Exec(w, [turn]) == Step(w, turn)
  {
  }

  lemma FourTurns(w: World, turn: Turn)
    ensures Exec(w, Times4(turn)) == Step(Step(Step(Step(w, turn), turn), turn), turn)
  {
    hide Step;
    assert Times4(turn)[..3] == [turn, turn, turn] && [turn, turn, turn][..2] == [turn, turn];
    assert [turn, turn][..1] == [turn] && [turn][..0] == [];
    assert Exec(w, [turn]) == Step(w, turn);
    assert Exec(w, [turn, turn]) == Step(Step(w, turn), turn);
    assert Exec(w, [turn, turn, turn]) == Step(Step(Step(w, turn), turn), turn);
  }

  // ---- Each call, run alone ----

  /** What the contract of the call's method says. */
  function CallEffect(s: Shared, call: Task, now: nat): Shared
    requires call.MarkStart? || call.CompleteStart? || call.CancelStart?
  {
    if call.MarkStart? then MarkEffect(s, now)
    else if call.CompleteStart? then CompleteEffect(s, call.state, call.payloads, now)
    else CancelEffect(s, call.payloads, now)
  }

  /** A call that runs alone in the machine has the effect of its method. */
  lemma CallRunsAlone(w: World, t: Tid, now: nat)
    requires t in w.tasks && (w.tasks[t].MarkStart? || w.tasks[t].CompleteStart? || w.tasks[t].CancelStart?)
    ensures var w' := Exec(w, Times4(TaskTurn(t, now)));
            w'.shared == CallEffect(w.shared, w.tasks[t], now) && w'.tasks == w.tasks[t := Returned]
  {
    hide Exec, Step, MarkEffect, CompleteEffect, CancelEffect;
    FourTurns(w, TaskTurn(t, now));
    if w.tasks[t].MarkStart? {
      MarkRunsAlone(w, t, now);
    } else if w.tasks[t].CompleteStart? {
      CompleteRunsAlone(w, t, now);
    } else {
      CancelRunsAlone(w, t, now);
    }
  }

  function FourSteps(w: World, t: Tid, now: nat): World {
    var turn := TaskTurn(t, now);
    Step(Step(Step(Step(w, turn), turn), turn), turn)
  }

  lemma MarkRunsAlone(w: World, t: Tid, now: nat)
    requires t in w.tasks && w.tasks[t] == MarkStart
    ensures FourSteps(w, t, now).shared == MarkEffect(w.shared, now)
    ensures FourSteps(w, t, now).tasks == w.tasks[t := Returned]
  {
    var turn := TaskTurn(t, now);
    var w1 := Step(w, turn);
    if w.shared.snapshot.state.Pending? {
      assert w1.tasks == w.tasks[t := Bumping(ByMark)];
      var w2 := Step(w1, turn);
      assert w2.tasks == w.tasks[t := Notifying(ByMark)];
      var w3 := Step(w2, turn);
      assert w3.tasks == w.tasks[t := Returned] && Step(w3, turn) == w3;
    } else {
      assert w1.tasks == w.tasks[t := Returned] && Step(w1, turn) == w1;
    }
  }

  lemma CompleteRunsAlone(w: World, t: Tid, now: nat)
    requires t in w.tasks && w.tasks[t].CompleteStart?
    ensures FourSteps(w, t, now).shared == CompleteEffect(w.shared, w.tasks[t].state, w.tasks[t].payloads, now)
    ensures FourSteps(w, t, now).tasks == w.tasks[t := Returned]
  {
    var turn := TaskTurn(t, now);
    var w1 := Step(w, turn);
    if IsTerminal(w.shared.snapshot.state) {
      assert w1.tasks == w.tasks[t := Returned] && Step(w1, turn) == w1;
    } else {
      assert w1.tasks == w.tasks[t := CompleteTake];
      var w2 := Step(w1, turn);
      assert w2.tasks == w.tasks[t := Bumping(ByComplete)];
      var w3 := Step(w2, turn);
      assert w3.tasks == w.tasks[t := Notifying(ByComplete)];
    }
  }

  lemma CancelRunsAlone(w: World, t: Tid, now: nat)
    requires t in w.tasks && w.tasks[t].CancelStart?
    ensures FourSteps(w, t, now).shared == CancelEffect(w.shared, w.tasks[t].payloads, now)
    ensures FourSteps(w, t, now).tasks == w.tasks[t := Returned]
  {
    var turn := TaskTurn(t, now);
    var w1 := Step(w, turn);
    if IsTerminal(w.shared.snapshot.state) {
      assert w1.tasks == w.tasks[t := Returned] && Step(w1, turn) == w1;
    } else {
      assert w1.tasks == w.tasks[t := CancelAbort];
      var w2 := Step(w1, turn);
      assert w2.tasks == w.tasks[t := Bumping(ByCancel)];
      var w3 := Step(w2, turn);
      assert w3.tasks == w.tasks[t := Notifying(ByCancel)];
    }
  }

  /** So does a registration. */
  lemma RegistrationRunsAlone(w: World)
    requires w.registrar.RegStart?
    ensures var w' := Exec(w, Times4(RegistrarTurn));
            w'.shared == RegisterEffect(w.shared) && w'.registrar.RegDone? && w'.tasks == w.tasks
  {
    hide Exec;
    FourTurns(w, RegistrarTurn);
  }

  // ---- The run that never ends ----

  lemma CompletionRuns(w: World, payloads: Payloads)
    requires w == World(NEW_JOB, NotYet, NotYet, RegStart,
        map[0 := StatusRevision, 1 := CompleteStart(Succeeded, payloads)])
    ensures Exec(w, Times4(TaskTurn(1, 0)))
         == World(Shared(Snapshot(Succeeded, None, Some(0), false, Some(payloads)), false, 1, 1, 0),
                  NotYet, Announced, RegStart, map[0 := StatusRevision, 1 := Returned])
  {
    var turn := TaskTurn(1, 0);
    FourTurns(w, turn);
    var w1 := Step(w, turn);
    assert w1.tasks == map[0 := StatusRevision, 1 := CompleteTake];
    var w2 := Step(w1, turn);
    assert w2.tasks == map[0 := StatusRevision, 1 := Bumping(ByComplete)];
    var w3 := Step(w2, turn);
    assert w3.tasks == map[0 := StatusRevision, 1 := Notifying(ByComplete)];
  }

  /** The waiter's steps while the other task is done. */
  lemma StatusStep(w: World, task: Task, next: Task)
    requires w.tasks == map[0 := task, 1 := Returned] && !IsChanger(task) && NextWait(w.shared, task) == next
    ensures Step(w, TaskTurn(0, 0)) == w.(tasks := map[0 := next, 1 := Returned])
  {
  }

  lemma StatusWaits(w: World)
    requires w.shared.revision == w.shared.notifications == 1 && w.tasks == map[0 := StatusRevision, 1 := Returned]
    ensures Exec(w, Times4(TaskTurn(0, 0))) == w.(tasks := map[0 := Awaiting(false, 1, 1), 1 := Returned])
  {
    hide Step;
    FourTurns(w, TaskTurn(0, 0));
    hide Exec;
    StatusStep(w, StatusRevision, WaitFirst(false, 1));
    var w1 := w.(tasks := map[0 := WaitFirst(false, 1), 1 := Returned]);
    StatusStep(w1, WaitFirst(false, 1), WaitCreate(false, 1));
    var w2 := w.(tasks := map[0 := WaitCreate(false, 1), 1 := Returned]);
    assert Step(w1, TaskTurn(0, 0)) == w2;
    StatusStep(w2, WaitCreate(false, 1), WaitSecond(false, 1, 1));
    var w3 := w.(tasks := map[0 := WaitSecond(false, 1, 1), 1 := Returned]);
    assert Step(w2, TaskTurn(0, 0)) == w3;
    StatusStep(w3, WaitSecond(false, 1, 1), Awaiting(false, 1, 1));
  }

  /** `job_status` reads the snapshot before the revision. If the job finishes in between, the
      revision already counts that, and the wait for the next change never ends. */
  lemma StatusOrderLosesAWakeup(payloads: Payloads, more: seq<Turn>)
    ensures Calls(StatusCalls(payloads))
    ensures var w := Exec(InitialWorld(StatusCalls(payloads)), STATUS_SCHEDULE + more);
            && IsTerminal(w.shared.snapshot.state) && w.finish == Announced
            && 0 in w.tasks && w.tasks[0] == Awaiting(false, 1, 1) && w.shared.notifications == 1
  {
    var w0, me, other := InitialWorld(StatusCalls(payloads)), TaskTurn(0, 0), TaskTurn(1, 0);
    var w1 := Exec(w0, [me]);
    OneTurn(w0, me);
    assert w1.tasks == map[0 := StatusRevision, 1 := CompleteStart(Succeeded, payloads)];
    CompletionRuns(w1, payloads);
    var w2 := Exec(w1, Times4(other));
    StatusWaits(w2);
    var w3 := Exec(w2, Times4(me));
    StuckForever(w3, 0, more);
    ExecConcat(w0, [me], Times4(other));
    ExecConcat(w0, [me] + Times4(other), Times4(me));
    ExecConcat(w0, STATUS_SCHEDULE, more);
  }
}

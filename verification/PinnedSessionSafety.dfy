/** What every interleaving of opens, touches, closes and expiries keeps: no registered session is
    ever without something that will expire it, and every session that is taken out is closed once. */
module PinnedSessionSafety {
  import opened Text
  import opened PinnedSessions

  // ---- The invariant ----

  /** A touch that will still raise the generation. */
  predicate IsDirtyTouch(task: Task, session: nat) {
    match task
    case TouchFound(s) => s == session
    case TouchTimed(s, _) => s == session
    case TouchUsed(s, _) => s == session
    case TouchStored(s) => s == session
    case _ => false
  }

  ghost predicate Dirty(w: World, session: nat) {
    exists i :: 0 <= i < |w.tasks| && IsDirtyTouch(w.tasks[i], session)
  }

  /** A task that will expire the session or see to it that another one does. */
  predicate Covers(task: Task, session: nat, entry: Entry) {
    || IsDirtyTouch(task, session)
    || (task.OpenInserted? && task.session == session && entry.generation == 0)
    || (task.TouchRaised? && task.session == session)
    || (task.TouchRead? && task.session == session && task.generation == entry.generation)
    || (task.Expiring? && task.alarm.session == session
        && (task.alarm.generation == entry.generation || task.stage.Passed?))
  }

  ghost predicate Covered(w: World, session: nat)
    requires session in w.entries
  {
    exists i :: 0 <= i < |w.tasks| && Covers(w.tasks[i], session, w.entries[session])
  }

  ghost predicate TaskOk(w: World, task: Task) {
    match task
    case OpenNumbered(session, _) => session < w.nextId && session !in w.entries
    case OpenTimed(session, _, at) => session < w.nextId && session !in w.entries && at <= w.now
    case OpenInserted(session) => session in w.entries
    case TouchFound(session) => session in w.entries
    case TouchTimed(session, at) => session in w.entries && at <= w.now
    case TouchUsed(session, at) => session in w.entries && at <= w.now
    case TouchStored(session) => session in w.entries
    case TouchRaised(session) => session in w.entries
    case TouchRead(session, generation) => session in w.entries && generation <= w.entries[session].generation
    case TakenOut(session) => session in w.entries && session !in w.registered && session !in w.closed
    case Expiring(alarm, stage) =>
      && alarm.session in w.entries && alarm.generation <= w.entries[alarm.session].generation
      && (stage.Sleeping? || alarm.due <= w.now)
      && (stage.Timed? ==> alarm.due <= stage.at <= w.now)
    case _ => true
  }

  /** An open that has fetched its id and not inserted its entry. */
  predicate HasNewId(task: Task) {
    task.OpenNumbered? || task.OpenTimed?
  }

  /** Two opens never have the same id, and nobody closes what another is closing. */
  predicate Compatible(a: Task, b: Task) {
    && (HasNewId(a) && HasNewId(b) ==> a.session != b.session)
    && (a.TakenOut? && b.TakenOut? ==> a.session != b.session)
  }

  ghost predicate TasksInv(w: World) {
    && (forall i :: 0 <= i < |w.tasks| ==> TaskOk(w, w.tasks[i]))
    && (forall i, j :: 0 <= i < j < |w.tasks| ==> Compatible(w.tasks[i], w.tasks[j]))
  }

  ghost predicate EntriesInv(w: World) {
    && w.registered <= w.entries.Keys && w.closed <= w.entries.Keys && w.registered !! w.closed
    && forall session :: session in w.entries ==>
         session < w.nextId && w.entries[session].lastUsed <= w.now
             && w.entries[session].expiresAt <= w.now + w.entries[session].ttl
  }

  /** An alarm of the current generation is due no earlier than the session expires, unless a touch
      is about to make it out of date. */
  ghost predicate AlarmInv(w: World, alarm: Alarm)
    requires alarm.session in w.entries
  {
    var entry := w.entries[alarm.session];
    alarm.generation == entry.generation ==>
      || (alarm.due >= entry.expiresAt && alarm.due >= entry.lastUsed + entry.ttl)
      || Dirty(w, alarm.session)
  }

  ghost predicate AlarmsInv(w: World) {
    forall i :: 0 <= i < |w.tasks| && w.tasks[i].Expiring? ==>
      var alarm := w.tasks[i].alarm;
      alarm.session in w.entries && alarm.generation <= w.entries[alarm.session].generation && AlarmInv(w, alarm)
  }

  ghost predicate CoverInv(w: World)
    requires EntriesInv(w)
  {
    forall session :: session in w.registered ==> Covered(w, session)
  }

  ghost predicate TakenOutBy(w: World, session: nat) {
    exists i :: 0 <= i < |w.tasks| && w.tasks[i] == TakenOut(session)
  }

  /** A session that was inserted is registered, closed, or being closed. */
  ghost predicate NoneLost(w: World) {
    forall session :: session in w.entries ==> session in w.registered || session in w.closed || TakenOutBy(w, session)
  }

  ghost predicate Inv(w: World) {
    TasksInv(w) && EntriesInv(w) && AlarmsInv(w) && CoverInv(w) && NoneLost(w)
  }

  // ---- What a step does to the rest ----

  /** What any step leaves true for the tasks that do not take it. */
  ghost predicate Grows(w: World, w': World) {
    && w.now <= w'.now && w.nextId <= w'.nextId
    && w.entries.Keys <= w'.entries.Keys && w.closed <= w'.closed
    && forall session :: session in w.entries ==>
         w'.entries[session].generation >= w.entries[session].generation
             && w'.entries[session].ttl == w.entries[session].ttl
  }

  ghost predicate LeavesOthers(w: World, w': World, i: nat) {
    && i < |w.tasks| <= |w'.tasks|
    && forall j :: 0 <= j < |w.tasks| && j != i ==> w'.tasks[j] == w.tasks[j]
  }

  lemma ClockKeepsInv(w: World, now: nat)
    requires Inv(w) && now >= w.now
    ensures Inv(w.(now := now))
  {
    var w' := w.(now := now);
    assert forall session :: Dirty(w', session) == Dirty(w, session);
    assert forall session :: session in w.entries ==> Covered(w', session) == Covered(w, session);
    assert forall session :: TakenOutBy(w', session) == TakenOutBy(w, session);
    assert forall i :: 0 <= i < |w.tasks| ==> TaskOk(w, w.tasks[i]);
    assert forall i :: 0 <= i < |w.tasks| ==> TaskOk(w', w.tasks[i]);
  }

  ghost predicate IsNewAlarm(w: World, task: Task) {
    task.Expiring? && TaskOk(w, task) && task.alarm.due == w.now + w.entries[task.alarm.session].ttl
  }

  /** What a step of task `i` does to the registry, and that the steps before and after it are in order. */
  ghost predicate StepFacts(w: World, w': World, i: nat)
    requires i < |w.tasks|
  {
    var task := w.tasks[i];
    && Grows(w, w') && LeavesOthers(w, w', i) && w'.now == w.now && |w'.tasks| <= |w.tasks| + 1
    && (forall s :: s in w'.entries && s !in w.entries ==> task.OpenTimed? && task.session == s)
    && (forall s :: s in w'.registered && s !in w.registered ==> task.OpenTimed? && task.session == s)
    && (forall s :: s in w'.closed && s !in w.closed ==> task == TakenOut(s))
    && (forall s :: s in w.registered && s !in w'.registered ==> w'.tasks[i] == TakenOut(s))
    && (task.OpenTimed? ==> task.session in w'.registered)
    && (task.TakenOut? ==> task.session in w'.closed)
    && EntriesInv(w') && TaskOk(w', w'.tasks[i])
    && (forall s :: w'.tasks[i] == TakenOut(s) ==> s in w.registered)
    && (w'.tasks[i].OpenNumbered? ==> task.OpenCalled? && w'.tasks[i].session == w.nextId)
    && (w'.tasks[i].OpenTimed? ==> task.OpenNumbered? && w'.tasks[i].session == task.session)
    && (w'.tasks[i].Expiring? ==> task.Expiring? && task.alarm == w'.tasks[i].alarm)
    && (|w'.tasks| > |w.tasks| ==> IsNewAlarm(w', w'.tasks[|w.tasks|]))
  }

  predicate IsOpen(task: Task) {
    task.OpenCalled? || task.OpenNumbered? || task.OpenTimed? || task.OpenInserted?
  }

  lemma OpenFacts(w: World, i: nat)
    requires EntriesInv(w) && i < |w.tasks| && TaskOk(w, w.tasks[i])
    requires IsOpen(w.tasks[i])
    ensures StepFacts(w, StepOpen(w, i), i)
  {
  }

  predicate IsTouch(task: Task) {
    || task.TouchCalled? || task.TouchFound? || task.TouchTimed? || task.TouchUsed? || task.TouchStored?
    || task.TouchRaised? || task.TouchRead?
  }

  lemma TouchStoreFacts(w: World, i: nat)
    requires EntriesInv(w) && i < |w.tasks| && TaskOk(w, w.tasks[i])
    requires w.tasks[i].TouchTimed? || w.tasks[i].TouchUsed? || w.tasks[i].TouchStored?
    ensures StepFacts(w, StepTouch(w, i), i)
  {
  }

  lemma TouchFacts(w: World, i: nat)
    requires EntriesInv(w) && i < |w.tasks| && TaskOk(w, w.tasks[i]) && IsTouch(w.tasks[i])
    ensures StepFacts(w, StepTouch(w, i), i)
  {
    hide SetEntry;
    if w.tasks[i].TouchTimed? || w.tasks[i].TouchUsed? || w.tasks[i].TouchStored? {
      TouchStoreFacts(w, i);
    }
  }

  lemma TakeOutFacts(w: World, i: nat, session: nat)
    requires EntriesInv(w) && i < |w.tasks| && session in w.entries
    requires !w.tasks[i].OpenTimed? && !w.tasks[i].TakenOut?
    ensures StepFacts(w, TakeOut(w, i, session), i)
  {
  }

  lemma CloseFacts(w: World, i: nat)
    requires EntriesInv(w) && i < |w.tasks| && TaskOk(w, w.tasks[i])
    requires w.tasks[i].CloseCalled? || w.tasks[i].TakenOut?
    ensures StepFacts(w, StepClose(w, i), i)
  {
    if w.tasks[i].CloseCalled? && w.tasks[i].session in w.registered {
      TakeOutFacts(w, i, w.tasks[i].session);
    }
  }

  lemma ExpiryFacts(w: World, i: nat)
    requires EntriesInv(w) && i < |w.tasks| && TaskOk(w, w.tasks[i]) && w.tasks[i].Expiring?
    ensures StepFacts(w, StepExpiry(w, i, w.tasks[i].alarm, w.tasks[i].stage), i)
  {
    hide TakeOut;
    if w.tasks[i].stage.Passed? {
      TakeOutFacts(w, i, w.tasks[i].alarm.session);
    }
  }

  lemma StepHasFacts(w: World, i: nat)
    requires EntriesInv(w) && i < |w.tasks| && TaskOk(w, w.tasks[i])
    ensures StepFacts(w, StepTask(w, i), i)
  {
    hide StepOpen, StepTouch, StepClose, StepExpiry, EntriesInv, TaskOk, StepFacts;
    match w.tasks[i] {
      case OpenCalled(_) | OpenNumbered(_, _) | OpenTimed(_, _, _) | OpenInserted(_) => OpenFacts(w, i);
      case CloseCalled(_) | TakenOut(_) => CloseFacts(w, i);
      case Expiring(_, _) => ExpiryFacts(w, i);
      case Returned => NothingHappens(w, i);
      case _ => TouchFacts(w, i);
    }
  }

  lemma NothingHappens(w: World, i: nat)
    requires EntriesInv(w) && i < |w.tasks| && TaskOk(w, w.tasks[i]) && w.tasks[i].Returned?
    ensures StepFacts(w, w, i)
  {
  }

  // ---- Tasks ----

  lemma OtherTaskOk(w: World, w': World, i: nat, task: Task)
    requires i < |w.tasks| && StepFacts(w, w', i) && EntriesInv(w)
    requires TaskOk(w, w.tasks[i]) && TaskOk(w, task)
    requires Compatible(task, w.tasks[i])
    ensures TaskOk(w', task)
  {
  }

  lemma OwnIsCompatible(w: World, w': World, i: nat, task: Task)
    requires i < |w.tasks| && StepFacts(w, w', i) && TaskOk(w, w.tasks[i]) && TaskOk(w, task)
    requires Compatible(w.tasks[i], task)
    ensures Compatible(w'.tasks[i], task) && Compatible(task, w'.tasks[i])
  {
  }

  lemma StepKeepsTasksInv(w: World, w': World, i: nat)
    requires Inv(w) && i < |w.tasks| && StepFacts(w, w', i)
    ensures TasksInv(w')
  {
    forall j, k | 0 <= j < |w.tasks| && 0 <= k < |w.tasks| && j != k
      ensures TaskOk(w, w.tasks[j]) && Compatible(w.tasks[j], w.tasks[k])
    {
      assert j < k || k < j;
    }
    assert TaskOk(w, w.tasks[i]);
    hide Inv, TaskOk, Compatible;
    forall j | 0 <= j < |w'.tasks| ensures TaskOk(w', w'.tasks[j]) {
      if j < |w.tasks| && j != i {
        OtherTaskOk(w, w', i, w.tasks[j]);
      }
    }
    forall j, k | 0 <= j < k < |w'.tasks| ensures Compatible(w'.tasks[j], w'.tasks[k]) {
      if k == |w.tasks| {
        AlarmIsCompatible(w'.tasks[j], w'.tasks[k]);
      } else if j == i || k == i {
        OwnIsCompatible(w, w', i, w.tasks[if j == i then k else j]);
      }
    }
  }

  lemma AlarmIsCompatible(task: Task, alarm: Task)
    requires alarm.Expiring?
    ensures Compatible(task, alarm)
  {
  }

  lemma StepKeepsNoneLost(w: World, w': World, i: nat)
    requires NoneLost(w) && i < |w.tasks| && StepFacts(w, w', i)
    ensures NoneLost(w')
  {
  }

  // ---- Alarms ----

  /** How a step changes the entry of a session: a dirty touch does, and stays dirty unless it
      raises the generation. */
  ghost predicate EntryFacts(w: World, w': World, i: nat, session: nat)
    requires i < |w.tasks| && i < |w'.tasks| && session in w.entries && session in w'.entries
  {
    var entry, entry' := w.entries[session], w'.entries[session];
    && (entry' == entry || IsDirtyTouch(w.tasks[i], session))
    && (IsDirtyTouch(w.tasks[i], session) ==>
        IsDirtyTouch(w'.tasks[i], session) || entry'.generation > entry.generation)
  }

  lemma StepHasEntryFacts(w: World, i: nat, session: nat)
    requires EntriesInv(w) && i < |w.tasks| && TaskOk(w, w.tasks[i]) && session in w.entries
    ensures i < |StepTask(w, i).tasks| && session in StepTask(w, i).entries && EntryFacts(w, StepTask(w, i), i, session)
  {
  }

  lemma AlarmKeepsInv(w: World, w': World, i: nat, alarm: Alarm)
    requires i < |w.tasks| && StepFacts(w, w', i)
    requires alarm.session in w.entries && alarm.generation <= w.entries[alarm.session].generation && AlarmInv(w, alarm)
    requires alarm.session in w'.entries && EntryFacts(w, w', i, alarm.session)
    ensures AlarmInv(w', alarm)
  {
  }

  lemma NewAlarmInv(w: World, task: Task)
    requires EntriesInv(w) && IsNewAlarm(w, task)
    ensures task.Expiring? && task.alarm.session in w.entries && AlarmInv(w, task.alarm)
    ensures task.alarm.generation <= w.entries[task.alarm.session].generation
  {
  }

  lemma StepKeepsAlarmsInv(w: World, i: nat)
    requires Inv(w) && i < |w.tasks| && StepFacts(w, StepTask(w, i), i)
    ensures AlarmsInv(StepTask(w, i))
  {
    var w' := StepTask(w, i);
    assert AlarmsInv(w) && TaskOk(w, w.tasks[i]);
    hide Inv, TaskOk, AlarmInv, StepTask, IsNewAlarm, EntryFacts, EntriesInv;
    forall j | 0 <= j < |w'.tasks| && w'.tasks[j].Expiring?
      ensures var alarm := w'.tasks[j].alarm;
              alarm.session in w'.entries && alarm.generation <= w'.entries[alarm.session].generation
                  && AlarmInv(w', alarm)
    {
      if j == |w.tasks| {
        NewAlarmInv(w', w'.tasks[j]);
      } else {
        var alarm := w.tasks[j].alarm;
        assert alarm == w'.tasks[j].alarm;
        StepHasEntryFacts(w, i, alarm.session);
        AlarmKeepsInv(w, w', i, alarm);
      }
    }
  }

  // ---- Cover ----

  lemma OpenCovers(w: World, i: nat, session: nat)
    requires EntriesInv(w) && i < |w.tasks| && TaskOk(w, w.tasks[i])
    requires IsOpen(w.tasks[i])
    requires session in StepOpen(w, i).entries
    requires session in w.entries ==> Covers(w.tasks[i], session, w.entries[session])
    requires session !in w.entries ==> w.tasks[i].OpenTimed? && w.tasks[i].session == session
    ensures Covered(StepOpen(w, i), session)
  {
    var w' := StepOpen(w, i);
    if w.tasks[i].OpenInserted? {
      assert Covers(w'.tasks[|w.tasks|], session, w'.entries[session]);
    } else {
      assert Covers(w'.tasks[i], session, w'.entries[session]);
    }
  }

  lemma TouchCovers(w: World, i: nat, session: nat)
    requires EntriesInv(w) && i < |w.tasks| && TaskOk(w, w.tasks[i]) && session in w.entries
    requires Covers(w.tasks[i], session, w.entries[session])
    requires !w.tasks[i].OpenInserted? && !w.tasks[i].Expiring?
    ensures session in StepTouch(w, i).entries && Covered(StepTouch(w, i), session)
  {
    var w' := StepTouch(w, i);
    if w.tasks[i].TouchRead? {
      assert Covers(w'.tasks[|w.tasks|], session, w'.entries[session]);
    } else {
      assert Covers(w'.tasks[i], session, w'.entries[session]);
    }
  }

  /** An expiry that gives up leaves the session to a touch. */
  lemma ExpiryCovers(w: World, i: nat, session: nat)
    requires EntriesInv(w) && i < |w.tasks| && TaskOk(w, w.tasks[i]) && session in w.registered
    requires w.tasks[i].Expiring? && Covers(w.tasks[i], session, w.entries[session]) && AlarmInv(w, w.tasks[i].alarm)
    ensures var w' := StepExpiry(w, i, w.tasks[i].alarm, w.tasks[i].stage);
            session in w'.entries && (session in w'.registered ==> Covered(w', session))
  {
    var w' := StepExpiry(w, i, w.tasks[i].alarm, w.tasks[i].stage);
    if session in w'.registered {
      if w'.tasks[i].Returned? {
        var d :| 0 <= d < |w.tasks| && IsDirtyTouch(w.tasks[d], session);
        assert Covers(w'.tasks[d], session, w'.entries[session]);
      } else {
        assert Covers(w'.tasks[i], session, w'.entries[session]);
      }
    }
  }

  lemma OwnCovers(w: World, i: nat, session: nat)
    requires EntriesInv(w) && i < |w.tasks| && TaskOk(w, w.tasks[i]) && session in w.registered
    requires w.tasks[i].Expiring? ==> AlarmInv(w, w.tasks[i].alarm)
    requires Covers(w.tasks[i], session, w.entries[session])
    ensures session in StepTask(w, i).entries
        && (session in StepTask(w, i).registered ==> Covered(StepTask(w, i), session))
  {
    assert session in w.entries;
    hide StepOpen, StepTouch, StepExpiry, Covered, TaskOk, EntriesInv, AlarmInv;
    match w.tasks[i] {
      case OpenInserted(_) => OpenCovers(w, i, session);
      case Expiring(_, _) => ExpiryCovers(w, i, session);
      case _ => TouchCovers(w, i, session);
    }
  }

  /** Another task goes on covering a session, unless the step raises its generation. */
  lemma OtherCovers(w: World, w': World, i: nat, j: nat, session: nat)
    requires i < |w.tasks| && LeavesOthers(w, w', i) && j < |w.tasks| && j != i
    requires session in w.entries && session in w'.entries
    requires Covers(w.tasks[j], session, w.entries[session])
    requires w'.entries[session].generation
        == w.entries[session].generation || Covers(w'.tasks[i], session, w'.entries[session])
    ensures Covered(w', session)
  {
  }

  lemma RaiserCovers(w: World, i: nat, session: nat)
    requires EntriesInv(w) && i < |w.tasks| && TaskOk(w, w.tasks[i]) && session in w.entries
    ensures session in StepTask(w, i).entries && i < |StepTask(w, i).tasks|
    ensures StepTask(w, i).entries[session].generation == w.entries[session].generation
         || Covers(StepTask(w, i).tasks[i], session, StepTask(w, i).entries[session])
  {
  }

  lemma StepKeepsCoverInv(w: World, i: nat)
    requires Inv(w) && i < |w.tasks| && StepFacts(w, StepTask(w, i), i)
    ensures EntriesInv(StepTask(w, i)) && CoverInv(StepTask(w, i))
  {
    var w' := StepTask(w, i);
    assert TaskOk(w, w.tasks[i]) && EntriesInv(w) && AlarmsInv(w) && CoverInv(w);
    assert w.registered <= w.entries.Keys && w'.registered <= w'.entries.Keys;
    hide Inv, TaskOk, AlarmInv, EntriesInv, StepTask, IsNewAlarm, Covers;
    forall session | session in w'.registered ensures Covered(w', session) {
      if session in w.registered {
        var j :| 0 <= j < |w.tasks| && Covers(w.tasks[j], session, w.entries[session]);
        if j == i {
          OwnCovers(w, i, session);
        } else {
          RaiserCovers(w, i, session);
          OtherCovers(w, w', i, j, session);
        }
      } else {
        OpenedCovers(w, i, session);
      }
    }
  }

  lemma OpenedCovers(w: World, i: nat, session: nat)
    requires EntriesInv(w) && i < |w.tasks| && TaskOk(w, w.tasks[i])
    requires w.tasks[i].OpenTimed? && w.tasks[i].session == session
    ensures session in StepTask(w, i).entries && Covered(StepTask(w, i), session)
  {
    OpenCovers(w, i, session);
  }

  // ---- Every run ----

  lemma StepTaskKeepsInv(w: World, i: nat)
    requires Inv(w) && i < |w.tasks|
    ensures Inv(StepTask(w, i))
  {
    assert TaskOk(w, w.tasks[i]);
    StepHasFacts(w, i);
    StepKeepsTasksInv(w, StepTask(w, i), i);
    StepKeepsNoneLost(w, StepTask(w, i), i);
    StepKeepsAlarmsInv(w, i);
    StepKeepsCoverInv(w, i);
    hide StepTask, TasksInv, AlarmsInv, CoverInv, NoneLost, EntriesInv;
  }

  lemma StepKeepsInv(w: World, turn: Turn)
    requires Inv(w)
    ensures Inv(Step(w, turn))
  {
    hide Inv, StepTask;
    if turn.task < |w.tasks| && turn.at >= w.now {
      ClockKeepsInv(w, turn.at);
      StepTaskKeepsInv(w.(now := turn.at), turn.task);
    }
  }

  lemma {:induction false} ReachableInv(tasks: seq<Task>, schedule: seq<Turn>)
    requires AreCalls(tasks)
    ensures Inv(Exec(InitialWorld(tasks), schedule))
  {
    if schedule == [] {
      var w := InitialWorld(tasks);
      forall i | 0 <= i < |tasks| ensures TaskOk(w, tasks[i]) {
      }
    } else {
      hide Inv;
      ReachableInv(tasks, schedule[..|schedule| - 1]);
      StepKeepsInv(Exec(InitialWorld(tasks), schedule[..|schedule| - 1]), schedule[|schedule| - 1]);
    }
  }
}

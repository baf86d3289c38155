/** When a session in use is closed before its time. A touch that has raised the generation before
    an expiry's generation check is honoured; one that has not can be lost. */
module PinnedSessionRaces {
  import opened PinnedSessions
  import opened PinnedSessionSafety
  import opened PinnedSessionExpiry

  // ---- Turns of a schedule ----

  ghost function At(tasks: seq<Task>, schedule: seq<Turn>, k: nat): World
    requires k <= |schedule|
  {
    Exec(InitialWorld(tasks), schedule[..k])
  }

  /** Turn `k` is a step of task `i`, which stands at `task`. */
  ghost predicate Takes(tasks: seq<Task>, schedule: seq<Turn>, k: nat, i: nat, task: Task) {
    && k < |schedule| && schedule[k].task == i
    && var w := At(tasks, schedule, k);
       i < |w.tasks| && w.tasks[i] == task && schedule[k].at >= w.now
  }

  /** In turn `p` a touch stores the time `at`, which it read from the clock, as the last use. */
  ghost predicate StoresUse(tasks: seq<Task>, schedule: seq<Turn>, p: nat, j: nat, session: nat, at: nat) {
    Takes(tasks, schedule, p, j, TouchTimed(session, at))
  }

  /** In turn `g` an expiry finds that its session still has the generation of its alarm. */
  ghost predicate ChecksGeneration(tasks: seq<Task>, schedule: seq<Turn>, g: nat, i: nat, alarm: Alarm) {
    && Takes(tasks, schedule, g, i, Expiring(alarm, Found))
    && var w := At(tasks, schedule, g);
       alarm.session in w.entries && w.entries[alarm.session].generation == alarm.generation
  }

  predicate HasNotRaised(task: Task, session: nat) {
    task == TouchCalled(session) || IsDirtyTouch(task, session)
  }

  lemma AtNext(tasks: seq<Task>, schedule: seq<Turn>, k: nat)
    requires k < |schedule|
    ensures At(tasks, schedule, k + 1) == Step(At(tasks, schedule, k), schedule[k])
  {
    assert schedule[..k + 1][..k] == schedule[..k];
  }

  lemma AtKeepsInv(tasks: seq<Task>, schedule: seq<Turn>, k: nat)
    requires AreCalls(tasks) && k <= |schedule|
    ensures Inv(At(tasks, schedule, k))
  {
    ReachableInv(tasks, schedule[..k]);
  }

  // ---- One step ----

  /** How the position of a task changes in a step of its own, as far as `session` is concerned. */
  predicate Moves(task: Task, task': Task, session: nat, raised: bool) {
    && (task' == TouchCalled(session) ==> task == task')
    && (task' == TouchFound(session) ==> task == TouchCalled(session) || task == task')
    && (task'.TouchTimed? && task'.session == session ==> task == TouchFound(session) || task == task')
    && (task.TouchUsed? && task.session == session ==> task' == task || task' == TouchStored(session))
    && (task == TouchStored(session) && task' != task ==> task' == TouchRaised(session) && raised)
    && (task'.Expiring? ==> task.Expiring? && task.alarm == task'.alarm)
  }

  predicate IsAlarmFor(task: Task, session: nat) {
    task.Expiring? && task.alarm.session == session
  }

  /** What a step of task `i` leaves true of a session and of the tasks that deal with it. */
  ghost predicate Follows(w: World, i: nat, w': World, session: nat)
    requires session in w.entries
  {
    && session in w'.entries && w'.now >= w.now && |w'.tasks| >= |w.tasks|
    && var entry, entry' := w.entries[session], w'.entries[session];
       && entry'.ttl == entry.ttl && entry'.generation >= entry.generation
       && (entry'.lastUsed == entry.lastUsed || (i < |w.tasks| && w.tasks[i] == TouchTimed(session, entry'.lastUsed)))
       && (forall j :: 0 <= j < |w.tasks| && j != i ==> w'.tasks[j] == w.tasks[j])
       && (i < |w.tasks| ==> Moves(w.tasks[i], w'.tasks[i], session, entry'.generation > entry.generation))
       && forall j :: |w.tasks| <= j < |w'.tasks| ==>
            && w'.tasks[j].Expiring?
            && (IsAlarmFor(w'.tasks[j], session) ==> w'.tasks[j].alarm.due == w'.now + entry'.ttl)
  }

  lemma TouchMoves(w: World, i: nat, session: nat)
    requires EntriesInv(w) && i < |w.tasks| && TaskOk(w, w.tasks[i]) && IsTouch(w.tasks[i]) && session in w.entries
    requires session in StepTouch(w, i).entries
    ensures var w' := StepTouch(w, i);
            && i < |w'.tasks|
            && (w'.entries[session].lastUsed == w.entries[session].lastUsed
                || w.tasks[i] == TouchTimed(session, w'.entries[session].lastUsed))
            && Moves(w.tasks[i], w'.tasks[i], session, w'.entries[session].generation > w.entries[session].generation)
  {
  }

  lemma OthersMove(w: World, i: nat, session: nat)
    requires EntriesInv(w) && i < |w.tasks| && TaskOk(w, w.tasks[i]) && !IsTouch(w.tasks[i]) && session in w.entries
    requires session in StepTask(w, i).entries
    ensures var w' := StepTask(w, i);
            && i < |w'.tasks| && w'.entries[session] == w.entries[session]
            && Moves(w.tasks[i], w'.tasks[i], session, false)
  {
    hide StepTouch;
  }

  lemma TaskStepFollows(w: World, i: nat, session: nat)
    requires EntriesInv(w) && i < |w.tasks| && TaskOk(w, w.tasks[i]) && session in w.entries
    ensures Follows(w, i, StepTask(w, i), session)
  {
    StepHasFacts(w, i);
    if IsTouch(w.tasks[i]) {
      assert StepTask(w, i) == StepTouch(w, i);
      hide StepTask, StepTouch;
      TouchMoves(w, i, session);
    } else {
      hide StepTask;
      OthersMove(w, i, session);
    }
  }

  lemma StepFollows(w: World, turn: Turn, session: nat)
    requires Inv(w) && session in w.entries && turn.task < |w.tasks| && turn.at >= w.now
    ensures Follows(w, turn.task, Step(w, turn), session)
  {
    ClockKeepsInv(w, turn.at);
    var w1 := w.(now := turn.at);
    assert EntriesInv(w1) && TaskOk(w1, w1.tasks[turn.task]);
    hide Inv, EntriesInv, TaskOk, StepTask;
    TaskStepFollows(w1, turn.task, session);
  }

  /** One turn of a schedule, or the lack of one. */
  lemma TurnFollows(tasks: seq<Task>, schedule: seq<Turn>, k: nat, session: nat)
    requires AreCalls(tasks) && k < |schedule| && session in At(tasks, schedule, k).entries
    ensures var w, w', turn := At(tasks, schedule, k), At(tasks, schedule, k + 1), schedule[k];
            if turn.task < |w.tasks| && turn.at >= w.now then Follows(w, turn.task, w', session) else w' == w
  {
    AtNext(tasks, schedule, k);
    AtKeepsInv(tasks, schedule, k);
    var w, turn := At(tasks, schedule, k), schedule[k];
    if turn.task < |w.tasks| && turn.at >= w.now {
      hide Inv, Follows, Step, Exec, At;
      StepFollows(w, turn, session);
    }
  }

  // ---- A touch that has raised the generation is honoured ----

  /** In turn `r` a touch raises the generation. */
  ghost predicate Raises(tasks: seq<Task>, schedule: seq<Turn>, r: nat, j: nat, session: nat) {
    && Takes(tasks, schedule, r, j, TouchStored(session))
    && var w, w' := At(tasks, schedule, r), At(tasks, schedule, r + 1);
       session in w.entries && session in w'.entries && w.entries[session].generation < w'.entries[session].generation
  }

  /** A touch that has stored its use goes on to raise the generation, and does nothing else before. */
  lemma {:induction false} StoredUseIsRaised(tasks: seq<Task>, schedule: seq<Turn>, p: nat, j: nat, session: nat,
                                             at: nat, k: nat)
    requires AreCalls(tasks) && StoresUse(tasks, schedule, p, j, session, at) && p < k <= |schedule|
    ensures var w := At(tasks, schedule, k);
            && session in w.entries && j < |w.tasks|
            && (w.tasks[j] in {TouchUsed(session, at), TouchStored(session)}
                || exists r :: p < r < k && Raises(tasks, schedule, r, j, session))
    decreases k
  {
    hide Exec, Step, Inv;
    if k == p + 1 {
      UseIsStored(tasks, schedule, p, j, session, at);
    } else {
      StoredUseIsRaised(tasks, schedule, p, j, session, at, k - 1);
      TurnFollows(tasks, schedule, k - 1, session);
      var w, w', turn := At(tasks, schedule, k - 1), At(tasks, schedule, k), schedule[k - 1];
      if w.tasks[j] == TouchStored(session) && turn.task == j && w' != w {
        assert Takes(tasks, schedule, k - 1, j, TouchStored(session));
        assert w'.tasks[j] == TouchStored(session) || Raises(tasks, schedule, k - 1, j, session);
      }
    }
  }

  lemma UseIsStored(tasks: seq<Task>, schedule: seq<Turn>, p: nat, j: nat, session: nat, at: nat)
    requires AreCalls(tasks) && StoresUse(tasks, schedule, p, j, session, at)
    ensures var w, w' := At(tasks, schedule, p), At(tasks, schedule, p + 1);
            && session in w.entries && at <= w.now && session in w'.entries
            && w'.entries[session].lastUsed == at && j < |w'.tasks| && w'.tasks[j] == TouchUsed(session, at)
  {
    AtNext(tasks, schedule, p);
    AtKeepsInv(tasks, schedule, p);
    assert TaskOk(At(tasks, schedule, p), TouchTimed(session, at));
    hide Exec;
  }

  /** Alarms that are set from a time on are due a full time to live after it. */
  lemma {:induction false} LaterAlarms(tasks: seq<Task>, schedule: seq<Turn>, r: nat, k: nat, session: nat)
    requires AreCalls(tasks) && r <= k <= |schedule| && session in At(tasks, schedule, r).entries
    ensures var w, v := At(tasks, schedule, r), At(tasks, schedule, k);
            && session in v.entries && v.now >= w.now && v.entries[session].ttl == w.entries[session].ttl
            && v.entries[session].generation >= w.entries[session].generation && |v.tasks| >= |w.tasks|
            && forall i :: 0 <= i < |v.tasks| && IsAlarmFor(v.tasks[i], session) ==>
                 || v.tasks[i].alarm.generation <= w.entries[session].generation
                 || v.tasks[i].alarm.due >= w.now + w.entries[session].ttl
    decreases k
  {
    hide Exec, Step;
    if k == r {
      AtKeepsInv(tasks, schedule, r);
      var w := At(tasks, schedule, r);
      assert forall i :: 0 <= i < |w.tasks| ==> TaskOk(w, w.tasks[i]);
    } else {
      hide Inv;
      LaterAlarms(tasks, schedule, r, k - 1, session);
      TurnFollows(tasks, schedule, k - 1, session);
    }
  }

  /** In every schedule: a touch that has raised the generation before an expiry's generation check
      is honoured, since the alarm is due no earlier than a time to live after that use. */
  lemma RaisedTouchIsHonoured(tasks: seq<Task>, schedule: seq<Turn>, p: nat, j: nat, session: nat, at: nat,
                              g: nat, i: nat, alarm: Alarm)
    requires AreCalls(tasks) && StoresUse(tasks, schedule, p, j, session, at) && p < g
    requires ChecksGeneration(tasks, schedule, g, i, alarm) && alarm.session == session
    requires var w := At(tasks, schedule, g); j < |w.tasks| ==> !HasNotRaised(w.tasks[j], session)
    ensures at + At(tasks, schedule, g).entries[session].ttl <= alarm.due
  {
    hide Exec, Inv;
    StoredUseIsRaised(tasks, schedule, p, j, session, at, g);
    var r :| p < r < g && Raises(tasks, schedule, r, j, session);
    UseIsStored(tasks, schedule, p, j, session, at);
    LaterAlarms(tasks, schedule, p, r, session);
    LaterAlarms(tasks, schedule, r + 1, g, session);
    LaterAlarms(tasks, schedule, r, g, session);
  }

  // ---- Where the last use comes from ----

  /** The last use is that of turn `g`, or a touch has stored it since. */
  lemma {:induction false} UseSince(tasks: seq<Task>, schedule: seq<Turn>, g: nat, k: nat, session: nat)
    requires AreCalls(tasks) && g <= k <= |schedule| && session in At(tasks, schedule, g).entries
    ensures var w, v := At(tasks, schedule, g), At(tasks, schedule, k);
            && session in v.entries && v.entries[session].ttl == w.entries[session].ttl
            && (v.entries[session].lastUsed == w.entries[session].lastUsed
                || exists p, j :: g <= p < k && StoresUse(tasks, schedule, p, j, session, v.entries[session].lastUsed))
    decreases k
  {
    hide Exec, Step, Inv;
    if k > g {
      UseSince(tasks, schedule, g, k - 1, session);
      TurnFollows(tasks, schedule, k - 1, session);
      var v, v' := At(tasks, schedule, k - 1), At(tasks, schedule, k);
      if v'.entries[session].lastUsed != v.entries[session].lastUsed {
        assert StoresUse(tasks, schedule, k - 1, schedule[k - 1].task, session, v'.entries[session].lastUsed);
      }
    }
  }

  /** The last use was stored by a touch, or it is that of the opening, and then every alarm is due
      a time to live after it. */
  ghost predicate UseIsAccounted(tasks: seq<Task>, schedule: seq<Turn>, k: nat, session: nat)
    requires k <= |schedule| && session in At(tasks, schedule, k).entries
  {
    var w := At(tasks, schedule, k);
    var entry := w.entries[session];
    || (exists p, j :: 0 <= p < k && StoresUse(tasks, schedule, p, j, session, entry.lastUsed))
    || (forall i :: 0 <= i < |w.tasks| && IsAlarmFor(w.tasks[i], session) ==>
          w.tasks[i].alarm.due >= entry.lastUsed + entry.ttl)
  }

  lemma {:induction false} EveryUseIsAccounted(tasks: seq<Task>, schedule: seq<Turn>, k: nat, session: nat)
    requires AreCalls(tasks) && k <= |schedule| && session in At(tasks, schedule, k).entries
    ensures UseIsAccounted(tasks, schedule, k, session)
    decreases k
  {
    hide Exec, Step, Inv, StoresUse;
    if k == 0 {
      AtStart(tasks, schedule);
    } else if session in At(tasks, schedule, k - 1).entries {
      EveryUseIsAccounted(tasks, schedule, k - 1, session);
      UseStaysAccounted(tasks, schedule, k - 1, session);
    } else {
      NewSessionHasNoAlarm(tasks, schedule, k - 1, session);
    }
  }

  lemma AtStart(tasks: seq<Task>, schedule: seq<Turn>)
    ensures At(tasks, schedule, 0) == InitialWorld(tasks)
  {
  }

  lemma UseStaysAccounted(tasks: seq<Task>, schedule: seq<Turn>, k: nat, session: nat)
    requires AreCalls(tasks) && k < |schedule| && session in At(tasks, schedule, k).entries
    requires UseIsAccounted(tasks, schedule, k, session)
    ensures session in At(tasks, schedule, k + 1).entries && UseIsAccounted(tasks, schedule, k + 1, session)
  {
    AtKeepsInv(tasks, schedule, k + 1);
    var w, w' := At(tasks, schedule, k), At(tasks, schedule, k + 1);
    assert EntriesInv(w');
    hide Exec, Step, Inv;
    TurnFollows(tasks, schedule, k, session);
    if w'.entries[session].lastUsed != w.entries[session].lastUsed {
      assert StoresUse(tasks, schedule, k, schedule[k].task, session, w'.entries[session].lastUsed);
    }
  }

  lemma NewSessionHasNoAlarm(tasks: seq<Task>, schedule: seq<Turn>, k: nat, session: nat)
    requires AreCalls(tasks) && k < |schedule|
    requires session !in At(tasks, schedule, k).entries && session in At(tasks, schedule, k + 1).entries
    ensures var w := At(tasks, schedule, k + 1); forall i :: 0 <= i < |w.tasks| ==> !IsAlarmFor(w.tasks[i], session)
  {
    AtKeepsInv(tasks, schedule, k);
    AtNext(tasks, schedule, k);
    var w, turn := At(tasks, schedule, k), schedule[k];
    hide Exec;
    assert forall i :: 0 <= i < |w.tasks| ==> TaskOk(w, w.tasks[i]);
  }

  /** In every schedule, from an expiry's generation check on: the last use is a time to live before
      the alarm was due, or it was stored, before or after the check, by a touch that had not raised
      the generation at the check. */
  lemma IdleOrNotRaised(tasks: seq<Task>, schedule: seq<Turn>, g: nat, i: nat, alarm: Alarm, k: nat)
    requires AreCalls(tasks) && ChecksGeneration(tasks, schedule, g, i, alarm) && g < k <= |schedule|
    ensures var v := At(tasks, schedule, k);
            && alarm.session in v.entries
            && var entry := v.entries[alarm.session];
               || entry.lastUsed + entry.ttl <= alarm.due
               || UsedByLateTouch(tasks, schedule, g, k, alarm.session, entry.lastUsed)
  {
    var session := alarm.session;
    hide Exec, Inv, Step;
    UseSince(tasks, schedule, g, k, session);
    var used := At(tasks, schedule, k).entries[session].lastUsed;
    if p: nat, j: nat :| g <= p < k && StoresUse(tasks, schedule, p, j, session, used) {
      StoringTouchHadNotRaised(tasks, schedule, g, p, j, session, used);
      assert IsLateTouch(tasks, schedule, g, p, j, session, used);
    } else {
      EveryUseIsAccounted(tasks, schedule, g, session);
      if p: nat, j: nat :| 0 <= p < g && StoresUse(tasks, schedule, p, j, session, used) {
        StoredUseIsRaised(tasks, schedule, p, j, session, used, g);
        if HasNotRaised(At(tasks, schedule, g).tasks[j], session) {
          assert IsLateTouch(tasks, schedule, g, p, j, session, used);
        } else {
          RaisedTouchIsHonoured(tasks, schedule, p, j, session, used, g, i, alarm);
        }
      }
    }
  }

  /** Touch `j`, which stores its use in turn `p`, has not raised the generation by turn `g`. */
  ghost predicate IsLateTouch(tasks: seq<Task>, schedule: seq<Turn>, g: nat, p: nat, j: nat, session: nat, at: nat) {
    && g <= |schedule| && StoresUse(tasks, schedule, p, j, session, at)
    && var w := At(tasks, schedule, g); j < |w.tasks| && HasNotRaised(w.tasks[j], session)
  }

  ghost predicate UsedByLateTouch(tasks: seq<Task>, schedule: seq<Turn>, g: nat, k: nat, session: nat, at: nat) {
    exists p, j :: 0 <= p < k && IsLateTouch(tasks, schedule, g, p, j, session, at)
  }

  /** A touch that stores its use later has not raised the generation now. */
  lemma {:induction false} StoringTouchHadNotRaised(tasks: seq<Task>, schedule: seq<Turn>, g: nat, p: nat, j: nat,
                                                    session: nat, at: nat)
    requires AreCalls(tasks) && g <= p && StoresUse(tasks, schedule, p, j, session, at)
    requires session in At(tasks, schedule, g).entries
    ensures var w := At(tasks, schedule, g); j < |w.tasks| && HasNotRaised(w.tasks[j], session)
  {
    var k := p;
    hide Exec, Step, Inv;
    while k > g
      invariant g <= k <= p
      invariant var w := At(tasks, schedule, k);
                && j < |w.tasks|
                && (w.tasks[j] in {TouchCalled(session), TouchFound(session)} || w.tasks[j] == TouchTimed(session, at))
    {
      k := k - 1;
      LaterAlarms(tasks, schedule, g, k, session);
      TurnFollows(tasks, schedule, k, session);
    }
  }

  /** In turn `m` an expiry takes its session out, at time `at`. */
  ghost predicate TakesOut(tasks: seq<Task>, schedule: seq<Turn>, m: nat, i: nat, alarm: Alarm, at: nat) {
    && Takes(tasks, schedule, m, i, Expiring(alarm, Passed)) && schedule[m].at == at
    && alarm.session in At(tasks, schedule, m).registered
  }

  /** A touch stores a use less than a time to live before `at`, or after it. */
  ghost predicate IsUsedLate(tasks: seq<Task>, schedule: seq<Turn>, session: nat, ttl: nat, at: nat) {
    exists p: nat, j: nat, used: nat :: StoresUse(tasks, schedule, p, j, session, used) && used + ttl > at
  }

  /** And it is a touch that has not raised the generation by turn `g`. */
  ghost predicate IsUsedLateByLateTouch(tasks: seq<Task>, schedule: seq<Turn>, g: nat, session: nat, ttl: nat,
                                        at: nat) {
    exists p: nat, j: nat, used: nat :: IsLateTouch(tasks, schedule, g, p, j, session, used) && used + ttl > at
  }

  /** In every schedule in which an expiry takes a session out: some touch uses the session less than a
      time to live before that, or later, if and only if one does that had not raised the generation
      at the expiry's generation check. If the stored last use is that recent, there is one. */
  lemma TakenOutEarlyExactlyByLateTouch(tasks: seq<Task>, schedule: seq<Turn>, g: nat, m: nat, i: nat, alarm: Alarm,
                                        at: nat)
    requires AreCalls(tasks) && g < m
    requires ChecksGeneration(tasks, schedule, g, i, alarm) && TakesOut(tasks, schedule, m, i, alarm, at)
    ensures var session, ttl := alarm.session, At(tasks, schedule, g).entries[alarm.session].ttl;
            && alarm.due <= at
            && (IsUsedLate(tasks, schedule, session, ttl, at)
                <==> IsUsedLateByLateTouch(tasks, schedule, g, session, ttl, at))
            && var v := At(tasks, schedule, |schedule|);
               session in v.entries
               && (v.entries[session].lastUsed + ttl > at ==>
                   IsUsedLateByLateTouch(tasks, schedule, g, session, ttl, at))
  {
    var session, ttl := alarm.session, At(tasks, schedule, g).entries[alarm.session].ttl;
    TakenOutWhenDue(tasks, schedule, m, i, alarm, at);
    hide Exec, Inv, Step, TakesOut;
    if p: nat, j: nat, used: nat :| StoresUse(tasks, schedule, p, j, session, used) && used + ttl > at {
      LateUseIsByLateTouch(tasks, schedule, g, i, alarm, p, j, used);
    }
    LastUseIsByLateTouch(tasks, schedule, g, i, alarm, at);
  }

  lemma TakenOutWhenDue(tasks: seq<Task>, schedule: seq<Turn>, m: nat, i: nat, alarm: Alarm, at: nat)
    requires AreCalls(tasks) && TakesOut(tasks, schedule, m, i, alarm, at)
    ensures alarm.due <= at
  {
    AtKeepsInv(tasks, schedule, m);
    assert TaskOk(At(tasks, schedule, m), Expiring(alarm, Passed));
  }

  lemma LastUseIsByLateTouch(tasks: seq<Task>, schedule: seq<Turn>, g: nat, i: nat, alarm: Alarm, at: nat)
    requires AreCalls(tasks) && ChecksGeneration(tasks, schedule, g, i, alarm) && alarm.due <= at
    ensures var session, v := alarm.session, At(tasks, schedule, |schedule|);
            var ttl := At(tasks, schedule, g).entries[session].ttl;
            && session in v.entries
            && (v.entries[session].lastUsed + ttl > at ==> IsUsedLateByLateTouch(tasks, schedule, g, session, ttl, at))
  {
    hide Exec, Inv, Step, IsLateTouch;
    IdleOrNotRaised(tasks, schedule, g, i, alarm, |schedule|);
    UseSince(tasks, schedule, g, |schedule|, alarm.session);
    var used := At(tasks, schedule, |schedule|).entries[alarm.session].lastUsed;
    if p: nat, j: nat :| p < |schedule| && IsLateTouch(tasks, schedule, g, p, j, alarm.session, used) {
    }
  }

  lemma LateUseIsByLateTouch(tasks: seq<Task>, schedule: seq<Turn>, g: nat, i: nat, alarm: Alarm, p: nat, j: nat,
                             used: nat)
    requires AreCalls(tasks) && ChecksGeneration(tasks, schedule, g, i, alarm)
    requires StoresUse(tasks, schedule, p, j, alarm.session, used)
    requires used + At(tasks, schedule, g).entries[alarm.session].ttl > alarm.due
    ensures IsLateTouch(tasks, schedule, g, p, j, alarm.session, used)
  {
    hide Exec, Inv, Step;
    if p >= g {
      StoringTouchHadNotRaised(tasks, schedule, g, p, j, alarm.session, used);
    } else {
      StoredUseIsRaised(tasks, schedule, p, j, alarm.session, used, g);
      if !HasNotRaised(At(tasks, schedule, g).tasks[j], alarm.session) {
        RaisedTouchIsHonoured(tasks, schedule, p, j, alarm.session, used, g, i, alarm);
      }
    }
  }

  // ---- Whether an expiry can still close a session early ----

  /** Run from `w`, the schedule has task `i` take the session out in turn `m`, and in the end the
      session has been used less than a time to live before that. */
  ghost predicate ClosesEarly(w: World, i: nat, session: nat, after: seq<Turn>, m: nat) {
    && m < |after|
    && var v, end := Exec(w, after[..m]), Exec(w, after);
       && i < |v.tasks| && IsAlarmFor(v.tasks[i], session) && v.tasks[i].stage.Passed?
       && after[m].task == i && after[m].at >= v.now && session in v.registered
       && session in end.entries && end.entries[session].lastUsed + end.entries[session].ttl > after[m].at
  }

  /** The touch can still store a use that is less than a time to live ago. */
  predicate CanStoreLateUse(task: Task, session: nat, ttl: nat, now: nat) {
    || task == TouchCalled(session) || task == TouchFound(session)
    || (task.TouchTimed? && task.session == session && task.at + ttl > now)
  }

  /** The last use of the end is that of the beginning, or a touch that had not stored it then stores it. */
  ghost predicate UseComesFrom(w: World, session: nat, used: nat)
    requires session in w.entries
  {
    || used == w.entries[session].lastUsed
    || exists j :: 0 <= j < |w.tasks| && MayStore(w.tasks[j], session, used)
  }

  predicate MayStore(task: Task, session: nat, used: nat) {
    task == TouchCalled(session) || task == TouchFound(session) || task == TouchTimed(session, used)
  }

  ghost predicate MayStoreLater(w: World, v: World, session: nat)
  {
    forall j, used :: 0 <= j < |v.tasks| && MayStore(v.tasks[j], session, used) ==>
      j < |w.tasks| && MayStore(w.tasks[j], session, used)
  }

  lemma {:induction false} LaterUseComesFrom(w: World, after: seq<Turn>, session: nat)
    requires Inv(w) && session in w.entries
    ensures var v := Exec(w, after);
            && Inv(v) && v.now >= w.now && session in v.entries && v.entries[session].ttl == w.entries[session].ttl
            && MayStoreLater(w, v, session) && UseComesFrom(w, session, v.entries[session].lastUsed)
  {
    if after != [] {
      var n := |after| - 1;
      LaterUseComesFrom(w, after[..n], session);
      var v, turn := Exec(w, after[..n]), after[n];
      StepKeepsInv(v, turn);
      if turn.task < |v.tasks| && turn.at >= v.now {
        hide Inv, Exec, Step;
        StepFollows(v, turn, session);
        OneStepComesFrom(w, v, turn.task, Step(v, turn), session);
      }
    }
  }

  lemma OneStepComesFrom(w: World, v: World, i: nat, v': World, session: nat)
    requires session in w.entries && session in v.entries && Follows(v, i, v', session)
    requires MayStoreLater(w, v, session) && UseComesFrom(w, session, v.entries[session].lastUsed)
    ensures MayStoreLater(w, v', session) && UseComesFrom(w, session, v'.entries[session].lastUsed)
  {
    var used := v'.entries[session].lastUsed;
    if used != v.entries[session].lastUsed {
      assert MayStore(v.tasks[i], session, used);
    }
    forall j, used | 0 <= j < |v'.tasks| && MayStore(v'.tasks[j], session, used)
      ensures j < |w.tasks| && MayStore(w.tasks[j], session, used)
    {
      assert j < |v.tasks| && MayStore(v.tasks[j], session, used);
    }
  }

  lemma EarlyCloseNeedsLateUse(w: World, i: nat, session: nat, after: seq<Turn>, m: nat)
    requires Inv(w) && session in w.entries && ClosesEarly(w, i, session, after, m)
    ensures var entry := w.entries[session];
            entry.lastUsed + entry.ttl > w.now
            || exists j :: 0 <= j < |w.tasks| && CanStoreLateUse(w.tasks[j], session, entry.ttl, w.now)
  {
    LaterUseComesFrom(w, after, session);
    LaterUseComesFrom(w, after[..m], session);
    hide Inv, Exec;
    var entry, used := w.entries[session], Exec(w, after).entries[session].lastUsed;
    if used != entry.lastUsed {
      var j :| 0 <= j < |w.tasks| && MayStore(w.tasks[j], session, used);
      assert CanStoreLateUse(w.tasks[j], session, entry.ttl, w.now);
    }
  }

  ghost predicate IsAboutToRemove(w: World, v: World, i: nat, session: nat) {
    && i < |v.tasks| && IsAlarmFor(v.tasks[i], session) && v.tasks[i].stage.Passed?
    && session in v.registered && v.now == w.now && v.entries == w.entries && |v.tasks| == |w.tasks|
    && forall j :: 0 <= j < |w.tasks| && j != i ==> v.tasks[j] == w.tasks[j]
  }

  /** An expiry that runs alone up to the removal. */
  lemma {:induction false} ChecksPass(w: World, i: nat, session: nat) returns (v: World)
    requires WillClose(w, i, session, w.now) && w.tasks[i].Expiring?
    ensures v == RunAlone(w, i, w.now, TurnsLeft(w.tasks[i]) - 2) && IsAboutToRemove(w, v, i, session)
    decreases TurnsLeft(w.tasks[i])
  {
    if w.tasks[i].stage.Passed? {
      v := w;
    } else {
      ExpiryAdvances(w, i, session, w.now);
      var w' := Step(w, Turn(i, w.now));
      assert |w'.tasks| == |w.tasks| && forall j :: 0 <= j < |w.tasks| && j != i ==> w'.tasks[j] == w.tasks[j];
      v := ChecksPass(w', i, session);
    }
  }

  /** The expiry runs up to the removal, and then, if need be, touch `j` stores its use. */
  lemma StoredUseIsTooLate(w: World, i: nat, session: nat, j: nat)
    requires WillClose(w, i, session, w.now) && w.tasks[i].Expiring?
    requires j < |w.tasks| && w.tasks[j].TouchTimed? && w.tasks[j].session == session
    requires w.tasks[j].at + w.entries[session].ttl > w.now
    ensures var k := TurnsLeft(w.tasks[i]) - 2;
            ClosesEarly(w, i, session, Alone(i, w.now, k) + [Turn(i, w.now)] + [Turn(j, w.now)], k)
  {
    var k := TurnsLeft(w.tasks[i]) - 2;
    var first := Alone(i, w.now, k);
    var after := first + [Turn(i, w.now)] + [Turn(j, w.now)];
    var v := ChecksPass(w, i, session);
    ExecAlone(w, i, w.now, k);
    OneTurn(v, Turn(i, w.now));
    var v1 := Step(v, Turn(i, w.now));
    OneTurn(v1, Turn(j, w.now));
    var end := Step(v1, Turn(j, w.now));
    ExecConcat(w, first, [Turn(i, w.now)]);
    ExecConcat(w, first + [Turn(i, w.now)], [Turn(j, w.now)]);
    RemovalKeepsEntries(v, i, session);
    TouchStoresUse(v1, j, session);
    hide Exec, RunAlone, WillClose, Alone, Step;
    assert after[..k] == first;
  }

  lemma TouchStoresUse(w: World, j: nat, session: nat)
    requires j < |w.tasks| && w.tasks[j].TouchTimed? && w.tasks[j].session == session && session in w.entries
    ensures var w' := Step(w, Turn(j, w.now));
            && session in w'.entries && w'.entries[session].lastUsed == w.tasks[j].at
            && w'.entries[session].ttl == w.entries[session].ttl
  {
  }

  lemma OneTurn(w: World, turn: Turn)
    ensures Exec(w, [turn]) == Step(w, turn)
  {
    assert [turn][..0] == [];
  }

  lemma RemovalKeepsEntries(v: World, i: nat, session: nat)
    requires i < |v.tasks| && IsAlarmFor(v.tasks[i], session) && v.tasks[i].stage.Passed?
    ensures var v' := Step(v, Turn(i, v.now));
            && v'.entries == v.entries && v'.now == v.now && |v'.tasks| == |v.tasks|
            && forall j :: 0 <= j < |v.tasks| && j != i ==> v'.tasks[j] == v.tasks[j]
  {
  }

  lemma RecentUseIsTooLate(w: World, i: nat, session: nat)
    requires WillClose(w, i, session, w.now) && w.tasks[i].Expiring?
    requires w.entries[session].lastUsed + w.entries[session].ttl > w.now
    ensures var k := TurnsLeft(w.tasks[i]) - 2;
            ClosesEarly(w, i, session, Alone(i, w.now, k) + [Turn(i, w.now)], k)
  {
    var k := TurnsLeft(w.tasks[i]) - 2;
    var first := Alone(i, w.now, k);
    var after := first + [Turn(i, w.now)];
    var v := ChecksPass(w, i, session);
    ExecAlone(w, i, w.now, k);
    OneTurn(v, Turn(i, w.now));
    ExecConcat(w, first, [Turn(i, w.now)]);
    RemovalKeepsEntries(v, i, session);
    hide Exec, RunAlone, WillClose, Alone, Step;
    assert after[..k] == first;
  }

  /** A turn of another task before. */
  lemma ClosesEarlyAfter(w: World, turn: Turn, i: nat, session: nat, after: seq<Turn>, m: nat)
    requires ClosesEarly(Step(w, turn), i, session, after, m)
    ensures ClosesEarly(w, i, session, [turn] + after, m + 1)
  {
    OneTurn(w, turn);
    ExecConcat(w, [turn], after);
    ExecConcat(w, [turn], after[..m]);
    hide Exec, Step;
    assert ([turn] + after)[..m + 1] == [turn] + after[..m];
  }

  lemma FoundTouchIsTooLate(w: World, i: nat, session: nat, j: nat)
    requires WillClose(w, i, session, w.now) && w.tasks[i].Expiring? && w.entries[session].ttl > 0
    requires j < |w.tasks| && w.tasks[j] == TouchFound(session)
    ensures exists after, m :: ClosesEarly(w, i, session, after, m)
  {
    var turn := Turn(j, w.now);
    var w' := Step(w, turn);
    assert w'.tasks[j] == TouchTimed(session, w.now) && w'.entries == w.entries && w'.tasks[i] == w.tasks[i];
    assert WillClose(w', i, session, w'.now);
    hide Step, WillClose, ClosesEarly;
    StoredUseIsTooLate(w', i, session, j);
    var k := TurnsLeft(w'.tasks[i]) - 2;
    ClosesEarlyAfter(w, turn, i, session, Alone(i, w'.now, k) + [Turn(i, w'.now)] + [Turn(j, w'.now)], k);
  }

  lemma CalledTouchIsTooLate(w: World, i: nat, session: nat, j: nat)
    requires WillClose(w, i, session, w.now) && w.tasks[i].Expiring? && w.entries[session].ttl > 0
    requires j < |w.tasks| && w.tasks[j] == TouchCalled(session)
    ensures exists after, m :: ClosesEarly(w, i, session, after, m)
  {
    var turn := Turn(j, w.now);
    var w' := Step(w, turn);
    assert w'.tasks[j] == TouchFound(session) && w'.entries == w.entries && w'.tasks[i] == w.tasks[i];
    assert WillClose(w', i, session, w'.now);
    hide Step, WillClose, ClosesEarly;
    FoundTouchIsTooLate(w', i, session, j);
    var after, m :| ClosesEarly(w', i, session, after, m);
    ClosesEarlyAfter(w, turn, i, session, after, m);
  }

  /** An expiry that would close its session now can come to close it less than a time to live after
      a use if and only if the last use is that recent, or a touch can still store one that is. */
  lemma CanCloseEarlyExactly(w: World, i: nat, session: nat)
    requires Inv(w) && WillClose(w, i, session, w.now) && w.tasks[i].Expiring? && w.entries[session].ttl > 0
    ensures var entry := w.entries[session];
            (exists after, m :: ClosesEarly(w, i, session, after, m))
            <==> entry.lastUsed + entry.ttl > w.now
                 || exists j :: 0 <= j < |w.tasks| && CanStoreLateUse(w.tasks[j], session, entry.ttl, w.now)
  {
    var entry := w.entries[session];
    hide ClosesEarly, Inv, WillClose;
    if after, m: nat :| ClosesEarly(w, i, session, after, m) {
      EarlyCloseNeedsLateUse(w, i, session, after, m);
    }
    if entry.lastUsed + entry.ttl > w.now {
      RecentUseIsTooLate(w, i, session);
    }
    if j: nat :| j < |w.tasks| && CanStoreLateUse(w.tasks[j], session, entry.ttl, w.now) {
      match w.tasks[j] {
        case TouchCalled(_) => CalledTouchIsTooLate(w, i, session, j);
        case TouchFound(_) => FoundTouchIsTooLate(w, i, session, j);
        case TouchTimed(_, _) => StoredUseIsTooLate(w, i, session, j);
      }
    }
  }

  // ---- Runs in which a session in use is closed ----

  /** A touch that runs undisturbed. */
  lemma TouchRuns(w: World, j: nat, session: nat, at: nat)
    requires j < |w.tasks| && w.tasks[j] == TouchCalled(session) && w.now <= at
    requires session in w.registered && session in w.entries
    ensures var w' := RunAlone(w, j, at, 7);
            && w'.registered == w.registered && w'.now == at && session in w'.entries
            && w'.entries[session].lastUsed == at && w'.entries[session].ttl == w.entries[session].ttl
            && |w'.tasks| == |w.tasks| + 1 && w'.tasks[j] == Returned && w'.tasks[|w.tasks|].Expiring?
            && forall k :: 0 <= k < |w.tasks| && k != j ==> w'.tasks[k] == w.tasks[k]
  {
    var turn := Turn(j, at);
    var w3 := Step(Step(Step(w, turn), turn), turn);
    assert w3 == w.(now := at, entries := w3.entries, tasks := w.tasks[j := TouchUsed(session, at)]);
    TouchRunsOn(w3, j, session, at, at);
    assert RunAlone(w, j, at, 7) == RunAlone(w3, j, at, 4);
  }

  lemma TouchRunsOn(w: World, j: nat, session: nat, used: nat, at: nat)
    requires j < |w.tasks| && w.tasks[j] == TouchUsed(session, used) && w.now == at && session in w.entries
    ensures var w' := RunAlone(w, j, at, 4);
            && w'.registered == w.registered && w'.closed == w.closed && w'.now == at && session in w'.entries
            && w'.entries[session].lastUsed == w.entries[session].lastUsed
            && w'.entries[session].ttl == w.entries[session].ttl
            && |w'.tasks| == |w.tasks| + 1 && w'.tasks[j] == Returned && w'.tasks[|w.tasks|].Expiring?
            && forall k :: 0 <= k < |w.tasks| && k != j ==> w'.tasks[k] == w.tasks[k]
  {
    var turn := Turn(j, at);
    var w3 := Step(Step(Step(w, turn), turn), turn);
    assert w3 == w.(entries := w3.entries, tasks := w.tasks[j := TouchRead(session, w3.entries[session].generation)]);
    assert RunAlone(w, j, at, 4) == RunAlone(w3, j, at, 1) == Step(w3, turn);
  }

  /** A touch after the checks: once an expiry has passed them it takes the session out even if a
      touch has come in between and has returned the session as live. */
  lemma TouchInTheWindowIsLost(w: World, i: nat, j: nat, session: nat, at: nat)
    requires i < |w.tasks| && w.tasks[i].Expiring? && w.tasks[i].stage.Passed? && w.tasks[i].alarm.session == session
    requires j < |w.tasks| && w.tasks[j] == TouchCalled(session) && at >= w.now && at >= w.tasks[i].alarm.due
    requires session in w.registered && session in w.entries && w.entries[session].ttl > 0
    ensures var touched := RunAlone(w, j, at, 7);
            var after := RunAlone(touched, i, at, 2);
            && j < |touched.tasks| && touched.tasks[j] == Returned && session in touched.registered
            && session in after.closed && session in after.entries
            && at < after.entries[session].lastUsed + after.entries[session].ttl
  {
    hide Step, RunAlone;
    TouchRuns(w, j, session, at);
    ExpiryCloses(RunAlone(w, j, at, 7), i, session, at);
  }

  const CALLS: seq<Task> := [OpenCalled(10), TouchCalled(1)]
  const SLEEPING_ALARM: World :=
    World(0, 2, map[1 := NewEntry(10, 0)], {1}, {}, [Returned, TouchCalled(1), Expiring(Alarm(1, 0, 10), Sleeping)])
  const CHECKED_ALARM: World :=
    SLEEPING_ALARM.(now := 10, tasks := [Returned, TouchCalled(1), Expiring(Alarm(1, 0, 10), Passed)])

  lemma OpenRuns()
    ensures RunAlone(InitialWorld(CALLS), 0, 0, 4) == SLEEPING_ALARM
  {
  }

  lemma ChecksRun()
    ensures RunAlone(SLEEPING_ALARM, 2, 10, 4) == CHECKED_ALARM
  {
    var w, turn := SLEEPING_ALARM, Turn(2, 10);
    var w1 := Step(w, turn);
    var w2 := Step(w1, turn);
    var w3 := Step(w2, turn);
    var w4 := Step(w3, turn);
    assert w2 == w.(now := 10, tasks := [Returned, TouchCalled(1), Expiring(Alarm(1, 0, 10), Matched)]);
    assert w4 == CHECKED_ALARM;
    assert RunAlone(w, 2, 10, 4) == RunAlone(w2, 2, 10, 2) == w4;
  }

  /** The window between the checks and the removal can be reached. */
  lemma WindowIsReachable()
    ensures AreCalls(CALLS) && Exec(InitialWorld(CALLS), Alone(0, 0, 4) + Alone(2, 10, 4)) == CHECKED_ALARM
  {
    hide Exec, RunAlone, Step;
    ExecConcat(InitialWorld(CALLS), Alone(0, 0, 4), Alone(2, 10, 4));
    ExecAlone(InitialWorld(CALLS), 0, 0, 4);
    OpenRuns();
    ExecAlone(SLEEPING_ALARM, 2, 10, 4);
    ChecksRun();
  }

  const TIMED_TOUCH: World :=
    SLEEPING_ALARM.(now := 9, tasks := [Returned, TouchTimed(1, 9), Expiring(Alarm(1, 0, 10), Sleeping)])
  const TOO_LATE: World :=
    World(10, 2, map[1 := NewEntry(10, 0)], {}, {1}, [Returned, TouchTimed(1, 9), Returned])

  lemma TouchReadsTheClock()
    ensures RunAlone(SLEEPING_ALARM, 1, 9, 2) == TIMED_TOUCH
  {
    var w1 := Step(SLEEPING_ALARM, Turn(1, 9));
    assert w1 == SLEEPING_ALARM.(now := 9, tasks := [Returned, TouchFound(1), Expiring(Alarm(1, 0, 10), Sleeping)]);
    assert RunAlone(SLEEPING_ALARM, 1, 9, 2) == RunAlone(w1, 1, 9, 1) == Step(w1, Turn(1, 9)) == TIMED_TOUCH;
  }

  lemma ExpiryRunsThrough()
    ensures RunAlone(TIMED_TOUCH, 2, 10, 6) == TOO_LATE
  {
    var w, turn, alarm := TIMED_TOUCH, Turn(2, 10), Alarm(1, 0, 10);
    var w3 := Step(Step(Step(w, turn), turn), turn);
    assert w3 == w.(now := 10, tasks := [Returned, TouchTimed(1, 9), Expiring(alarm, Timed(10))]);
    var w5 := Step(Step(w3, turn), turn);
    assert w5 == w.(now := 10, registered := {}, tasks := [Returned, TouchTimed(1, 9), TakenOut(1)]);
    assert RunAlone(w, 2, 10, 6) == RunAlone(w3, 2, 10, 3) == RunAlone(w5, 2, 10, 1) == Step(w5, turn) == TOO_LATE;
  }

  lemma LateTouchReturns()
    ensures var w := RunAlone(TOO_LATE, 1, 10, 5);
            && 1 < |w.tasks| && w.tasks[1] == Returned && 1 in w.closed
            && 1 in w.entries && w.entries[1].lastUsed == 9 && w.entries[1].ttl == 10
  {
    var entries := map[1 := NewEntry(10, 0).(lastUsed := 9)];
    var used := TOO_LATE.(entries := entries, tasks := [Returned, TouchUsed(1, 9), Returned]);
    assert Step(TOO_LATE, Turn(1, 10)) == used;
    TouchRunsOn(used, 1, 1, 9, 10);
    assert RunAlone(TOO_LATE, 1, 10, 5) == RunAlone(used, 1, 10, 4);
  }

  /** A touch that began before the checks: it has read the clock when the expiry begins and stores
      its use after the session is closed, so no step of it lies between the checks and the removal. */
  lemma TouchBegunBeforeTheChecksIsLost()
    ensures var w := Exec(InitialWorld(CALLS), Alone(0, 0, 4) + Alone(1, 9, 2) + Alone(2, 10, 6) + Alone(1, 10, 5));
            && 1 < |w.tasks| && w.tasks[1] == Returned && 1 in w.closed
            && 1 in w.entries && w.entries[1].lastUsed == 9 && w.entries[1].ttl == 10
  {
    hide Step, Exec, Alone, RunAlone;
    var w0, s1, s2, s3, s4 := InitialWorld(CALLS), Alone(0, 0, 4), Alone(1, 9, 2), Alone(2, 10, 6), Alone(1, 10, 5);
    OpenRuns();
    TouchReadsTheClock();
    ExpiryRunsThrough();
    LateTouchReturns();
    ExecConcat(w0, s1 + s2 + s3, s4);
    ExecConcat(w0, s1 + s2, s3);
    ExecConcat(w0, s1, s2);
    ExecAlone(w0, 0, 0, 4);
    ExecAlone(SLEEPING_ALARM, 1, 9, 2);
    ExecAlone(TIMED_TOUCH, 2, 10, 6);
    ExecAlone(TOO_LATE, 1, 10, 5);
  }

  const STORED_TOUCH: World := SLEEPING_ALARM.(now := 9, entries := map[1 := NewEntry(10, 0).(lastUsed := 9)],
                                               tasks := [Returned, TouchUsed(1, 9),
                                                   Expiring(Alarm(1, 0, 10), Sleeping)])
  const PASSED_OVER_IT: World :=
    STORED_TOUCH.(now := 10, tasks := [Returned, TouchUsed(1, 9), Expiring(Alarm(1, 0, 10), Passed)])
  const RAISED_TOO_LATE: World :=
    PASSED_OVER_IT.(entries := map[1 := NewEntry(10, 0).(lastUsed := 9, expiresAt := 19, generation := 1)],
                    tasks := [Returned, TouchRaised(1), Expiring(Alarm(1, 0, 10), Passed)])

  lemma TouchStoresItsUse()
    ensures RunAlone(SLEEPING_ALARM, 1, 9, 3) == STORED_TOUCH
  {
    TouchReadsTheClock();
    var w1 := Step(SLEEPING_ALARM, Turn(1, 9));
    var w2 := Step(w1, Turn(1, 9));
    assert RunAlone(SLEEPING_ALARM, 1, 9, 2) == RunAlone(w1, 1, 9, 1) == RunAlone(w2, 1, 9, 0) == w2;
    assert RunAlone(SLEEPING_ALARM, 1, 9, 3) == RunAlone(w1, 1, 9, 2) == RunAlone(w2, 1, 9, 1) == Step(w2, Turn(1, 9));
  }

  lemma ExpiryPassesOverIt()
    ensures RunAlone(STORED_TOUCH, 2, 10, 4) == PASSED_OVER_IT
  {
    var w, turn := STORED_TOUCH, Turn(2, 10);
    var w2 := Step(Step(w, turn), turn);
    assert w2 == w.(now := 10, tasks := [Returned, TouchUsed(1, 9), Expiring(Alarm(1, 0, 10), Matched)]);
    assert RunAlone(w, 2, 10, 4) == RunAlone(w2, 2, 10, 2) == Step(Step(w2, turn), turn) == PASSED_OVER_IT;
  }

  lemma TouchRaisesTooLate()
    ensures RunAlone(PASSED_OVER_IT, 1, 10, 2) == RAISED_TOO_LATE
  {
    var w1 := Step(PASSED_OVER_IT, Turn(1, 10));
    assert RunAlone(PASSED_OVER_IT, 1, 10, 2) == RunAlone(w1, 1, 10, 1) == Step(w1, Turn(1, 10)) == RAISED_TOO_LATE;
  }

  /** A touch that stored its use before the checks and has raised the generation before the removal:
      the session is about to be taken out one unit after its last use, although no touch that is in
      progress has yet to raise the generation and none has stored a use since the checks began. */
  lemma UseBeforeTheChecksIsLost()
    ensures Exec(InitialWorld(CALLS), Alone(0, 0, 4) + Alone(1, 9, 3) + Alone(2, 10, 4) + Alone(1, 10, 2))
        == RAISED_TOO_LATE
    ensures forall j :: 0 <= j < |RAISED_TOO_LATE.tasks| ==> !HasNotRaised(RAISED_TOO_LATE.tasks[j], 1)
    ensures 1 in RAISED_TOO_LATE.registered && 1 in RAISED_TOO_LATE.entries
    ensures RAISED_TOO_LATE.now < RAISED_TOO_LATE.entries[1].lastUsed + RAISED_TOO_LATE.entries[1].ttl
  {
    hide Step, Exec, Alone, RunAlone;
    var w0, s1, s2, s3, s4 := InitialWorld(CALLS), Alone(0, 0, 4), Alone(1, 9, 3), Alone(2, 10, 4), Alone(1, 10, 2);
    OpenRuns();
    TouchStoresItsUse();
    ExpiryPassesOverIt();
    TouchRaisesTooLate();
    ExecConcat(w0, s1 + s2 + s3, s4);
    ExecConcat(w0, s1 + s2, s3);
    ExecConcat(w0, s1, s2);
    ExecAlone(w0, 0, 0, 4);
    ExecAlone(SLEEPING_ALARM, 1, 9, 3);
    ExecAlone(STORED_TOUCH, 2, 10, 4);
    ExecAlone(PASSED_OVER_IT, 1, 10, 2);
  }
}

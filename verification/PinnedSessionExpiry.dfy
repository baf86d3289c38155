/** When pinned sessions end: no session leaks, each is closed once, and an idle one is closed.
    Module PinnedSessionRaces says when one in use is closed. */
module PinnedSessionExpiry {
  import opened PinnedSessions
  import opened PinnedSessionSafety

  // ---- Safety ----

  /** An open or a touch of the session has begun and has not scheduled its alarm. */
  predicate IsInProgress(task: Task, session: nat) {
    || IsDirtyTouch(task, session)
    || (task.OpenInserted? && task.session == session)
    || (task.TouchRaised? && task.session == session)
    || (task.TouchRead? && task.session == session)
  }

  /** An expiry that will close the session as it is now: past its checks, or of the current
      generation and due no earlier than the session expires. */
  predicate WillExpire(task: Task, session: nat, entry: Entry) {
    && task.Expiring? && task.alarm.session == session
    && (task.stage.Passed?
        || (task.alarm.generation == entry.generation
            && task.alarm.due >= entry.expiresAt && task.alarm.due >= entry.lastUsed + entry.ttl))
  }

  /** No leak: a registered session always has an open or a touch in progress, or an expiry. */
  lemma NoSessionLeaks(tasks: seq<Task>, schedule: seq<Turn>, session: nat)
    requires AreCalls(tasks)
    requires session in Exec(InitialWorld(tasks), schedule).registered
    ensures var w := Exec(InitialWorld(tasks), schedule);
            && session in w.entries
            && exists i :: 0 <= i < |w.tasks|
                && (IsInProgress(w.tasks[i], session) || WillExpire(w.tasks[i], session, w.entries[session]))
  {
    ReachableInv(tasks, schedule);
    var w := Exec(InitialWorld(tasks), schedule);
    hide Exec;
    var i :| 0 <= i < |w.tasks| && Covers(w.tasks[i], session, w.entries[session]);
    if w.tasks[i].Expiring? && !w.tasks[i].stage.Passed? && Dirty(w, session) {
      var d :| 0 <= d < |w.tasks| && IsDirtyTouch(w.tasks[d], session);
      assert IsInProgress(w.tasks[d], session);
    } else {
      assert IsInProgress(w.tasks[i], session) || WillExpire(w.tasks[i], session, w.entries[session]);
    }
  }

  ghost predicate AtMostOneClosing(w: World, session: nat) {
    forall i, j :: 0 <= i < j < |w.tasks| ==> w.tasks[i] != TakenOut(session) || w.tasks[j] != TakenOut(session)
  }

  /** No connection is lost or closed twice: a session that was opened is registered, or closed, or
      taken out by exactly one task, which has yet to close it. */
  lemma EverySessionIsClosedOnce(tasks: seq<Task>, schedule: seq<Turn>, session: nat)
    requires AreCalls(tasks)
    requires session in Exec(InitialWorld(tasks), schedule).entries
    ensures var w := Exec(InitialWorld(tasks), schedule);
            && (session in w.registered || session in w.closed || TakenOutBy(w, session))
            && !(session in w.registered && session in w.closed)
            && (TakenOutBy(w, session) ==> session !in w.registered && session !in w.closed)
            && AtMostOneClosing(w, session)
  {
    ReachableInv(tasks, schedule);
    var w := Exec(InitialWorld(tasks), schedule);
    hide Exec;
    if TakenOutBy(w, session) {
      var i :| 0 <= i < |w.tasks| && w.tasks[i] == TakenOut(session);
      assert TaskOk(w, w.tasks[i]);
    }
    TakenOutOnce(w, session);
  }

  lemma TakenOutOnce(w: World, session: nat)
    requires TasksInv(w)
    ensures AtMostOneClosing(w, session)
  {
  }

  // ---- A task that runs alone ----

  function Alone(task: nat, at: nat, turns: nat): (r: seq<Turn>)
    ensures |r| == turns && forall i :: 0 <= i < turns ==> r[i] == Turn(task, at)
  {
    seq(turns, _ => Turn(task, at))
  }

  function RunAlone(w: World, task: nat, at: nat, turns: nat): World
    decreases turns
  {
    if turns == 0 then w else RunAlone(Step(w, Turn(task, at)), task, at, turns - 1)
  }

  lemma {:induction false} ExecConcat(w: World, first: seq<Turn>, second: seq<Turn>)
    ensures Exec(w, first + second) == Exec(Exec(w, first), second)
  {
    hide Step;
    if second == [] {
      assert first + second == first;
    } else {
      var n := |second| - 1;
      assert (first + second)[..|first| + n] == first + second[..n];
      ExecConcat(w, first, second[..n]);
    }
  }

  lemma {:induction false} ExecAlone(w: World, task: nat, at: nat, turns: nat)
    ensures Exec(w, Alone(task, at, turns)) == RunAlone(w, task, at, turns)
    decreases turns
  {
    hide Step;
    if turns > 0 {
      var turn := Turn(task, at);
      ExecAlone(Step(w, turn), task, at, turns - 1);
      assert Alone(task, at, turns) == [turn] + Alone(task, at, turns - 1);
      ExecConcat(w, [turn], Alone(task, at, turns - 1));
      assert [turn][..0] == [];
      assert Exec(w, [turn]) == Step(Exec(w, []), turn);
    }
  }

  // ---- Expiry ----

  /** How many turns an expiry needs from its stage on. */
  function TurnsLeft(task: Task): nat {
    if task.TakenOut? then 1
    else if !task.Expiring? then 0
    else
      match task.stage
      case Sleeping => 6
      case Found => 5
      case Matched => 4
      case Timed(_) => 3
      case Passed => 2
  }

  /** An expiry that passes the checks it still has to make, if nothing happens to its session. */
  predicate PassesChecks(task: Task, session: nat, entry: Entry, at: nat) {
    && task.Expiring? && task.alarm.session == session
    && (task.stage.Passed?
        || (task.alarm.due <= at && entry.expiresAt <= at
            && (task.stage.Timed? ==> entry.expiresAt <= task.stage.at)
            && (task.stage.Sleeping? || task.stage.Found? ==> task.alarm.generation == entry.generation)))
  }

  /** Task `i` closes the session if it runs alone from now on. */
  ghost predicate WillClose(w: World, i: nat, session: nat, at: nat) {
    && i < |w.tasks| && w.now <= at
    && (w.tasks[i] == TakenOut(session)
        || (session in w.entries && session in w.registered
            && PassesChecks(w.tasks[i], session, w.entries[session], at)))
  }

  lemma ExpiryAdvances(w: World, i: nat, session: nat, at: nat)
    requires WillClose(w, i, session, at) && w.tasks[i].Expiring? && !w.tasks[i].stage.Passed?
    ensures var w' := Step(w, Turn(i, at));
            && WillClose(w', i, session, at) && TurnsLeft(w'.tasks[i]) == TurnsLeft(w.tasks[i]) - 1
            && w'.entries == w.entries && w'.now == at
  {
  }

  lemma {:induction false} ExpiryCloses(w: World, i: nat, session: nat, at: nat)
    requires WillClose(w, i, session, at)
    ensures session in RunAlone(w, i, at, TurnsLeft(w.tasks[i])).closed
    ensures RunAlone(w, i, at, TurnsLeft(w.tasks[i])).entries == w.entries
    decreases TurnsLeft(w.tasks[i])
  {
    var w' := Step(w, Turn(i, at));
    if w.tasks[i].TakenOut? {
      assert session in w'.closed && RunAlone(w, i, at, 1) == RunAlone(w', i, at, 0);
    } else if w.tasks[i].stage.Passed? {
      assert w'.tasks[i] == TakenOut(session) && w'.entries == w.entries;
      ExpiryCloses(w', i, session, at);
    } else {
      ExpiryAdvances(w, i, session, at);
      ExpiryCloses(w', i, session, at);
    }
  }

  /** An idle session is closed: if no open or touch of it is in progress, some expiry closes it in
      at most six turns of its own from when it is due on. */
  lemma IdleSessionIsClosed(tasks: seq<Task>, schedule: seq<Turn>, session: nat) returns (i: nat, turns: nat)
    requires AreCalls(tasks)
    requires var w := Exec(InitialWorld(tasks), schedule);
             session in w.registered && forall j :: 0 <= j < |w.tasks| ==> !IsInProgress(w.tasks[j], session)
    ensures var w := Exec(InitialWorld(tasks), schedule);
            && i < |w.tasks| && w.tasks[i].Expiring? && turns <= 6
            && forall at :: at >= w.now && at >= w.tasks[i].alarm.due ==>
                 session in Exec(InitialWorld(tasks), schedule + Alone(i, at, turns)).closed
  {
    NoSessionLeaks(tasks, schedule, session);
    ReachableInv(tasks, schedule);
    var w := Exec(InitialWorld(tasks), schedule);
    i :| 0 <= i < |w.tasks| && WillExpire(w.tasks[i], session, w.entries[session]);
    turns := TurnsLeft(w.tasks[i]);
    assert TaskOk(w, w.tasks[i]);
    hide Exec, Inv, TaskOk, WillExpire;
    forall at | at >= w.now && at >= w.tasks[i].alarm.due
      ensures session in Exec(InitialWorld(tasks), schedule + Alone(i, at, turns)).closed
    {
      ExecConcat(InitialWorld(tasks), schedule, Alone(i, at, turns));
      ExecAlone(w, i, at, turns);
      ExpiryCloses(w, i, session, at);
    }
  }

  /** An expiry that runs undisturbed while no touch is in progress closes its session exactly if
      that was not used since the alarm was set, and then it has been idle for its time to live. */
  lemma ExpiryClosesOnlyIdleSessions(tasks: seq<Task>, schedule: seq<Turn>, i: nat, alarm: Alarm, at: nat)
    requires AreCalls(tasks)
    requires var w := Exec(InitialWorld(tasks), schedule);
             && i < |w.tasks| && w.tasks[i] == Expiring(alarm, Sleeping) && at >= w.now && at >= alarm.due
             && alarm.session in w.registered && forall j :: 0 <= j < |w.tasks| ==>
                 !IsDirtyTouch(w.tasks[j], alarm.session)
    ensures var w := Exec(InitialWorld(tasks), schedule);
            var w' := Exec(InitialWorld(tasks), schedule + Alone(i, at, 6));
            && alarm.session in w.entries
            && (alarm.session in w'.closed <==> alarm.generation == w.entries[alarm.session].generation)
            && (alarm.session in w'.closed ==> at >= w.entries[alarm.session].lastUsed + w.entries[alarm.session].ttl)
            && (alarm.session !in w'.closed ==> alarm.session in w'.registered)
  {
    ReachableInv(tasks, schedule);
    var w := Exec(InitialWorld(tasks), schedule);
    assert EntriesInv(w) && TaskOk(w, w.tasks[i]) && AlarmInv(w, alarm) && !Dirty(w, alarm.session);
    assert alarm.session in w.entries && alarm.session !in w.closed;
    ExecConcat(InitialWorld(tasks), schedule, Alone(i, at, 6));
    ExecAlone(w, i, at, 6);
    hide Exec, Inv;
    if alarm.generation == w.entries[alarm.session].generation {
      ExpiryCloses(w, i, alarm.session, at);
    } else {
      OutdatedExpiryGivesUp(w, i, alarm, at);
    }
  }

  lemma OutdatedExpiryGivesUp(w: World, i: nat, alarm: Alarm, at: nat)
    requires i < |w.tasks| && w.tasks[i] == Expiring(alarm, Sleeping) && at >= w.now && at >= alarm.due
    requires alarm.session in w.registered && alarm.session in w.entries
    requires w.entries[alarm.session].generation != alarm.generation
    ensures RunAlone(w, i, at, 6).registered == w.registered && RunAlone(w, i, at, 6).closed == w.closed
  {
    var w1 := Step(w, Turn(i, at));
    var w2 := Step(w1, Turn(i, at));
    assert RunAlone(w, i, at, 6) == RunAlone(w1, i, at, 5) == RunAlone(w2, i, at, 4);
    ReturnedStays(w2, i, at, 4);
  }

  lemma {:induction false} ReturnedStays(w: World, i: nat, at: nat, turns: nat)
    requires i < |w.tasks| && w.tasks[i].Returned? && w.now == at
    ensures RunAlone(w, i, at, turns) == w
    decreases turns
  {
    if turns > 0 {
      assert Step(w, Turn(i, at)) == w;
      ReturnedStays(w, i, at, turns - 1);
    }
  }
}

/** Pinned sessions of src/server.rs: the registry with its calls run undisturbed, and a machine that
    interleaves any number of calls and expiry timers one lock region or atomic operation at a time.
    Module PinnedSessionSafety proves what every interleaving keeps. */
module PinnedSessions {
  import opened Text

  datatype Entry = Entry(
    ttl: nat, lastUsed: nat, expiresAt: nat, generation: nat, transactionOpen: bool, lastKeyword: Option<string>)

  function NewEntry(ttl: nat, now: nat): Entry {
    Entry(ttl, now, now + ttl, 0, false, None)
  }

  /** `schedule_pinned_session_expiry`: fires at `due` or later, for one generation of one session. */
  datatype Alarm = Alarm(session: nat, generation: nat, due: nat)

  // ---- The registry, undisturbed ----

  function TransactionAfter(open: bool, keyword: Option<string>): bool {
    match keyword
    case Some(word) => if word in {"begin", "start"} then true else if word in {"commit", "rollback"} then false
        else open
    case None => open
  }

  ghost predicate IsAlarmOf(alarm: Alarm, id: nat, entry: Entry) {
    alarm.session == id && alarm.generation == entry.generation
  }

  /** The registered sessions, the next id, and the sessions that were closed. */
  datatype Registry = Registry(entries: map<nat, Entry>, nextId: nat, closed: set<nat>)

  function OpenEffect(r: Registry, ttl: nat, now: nat): Registry {
    r.(entries := r.entries[r.nextId := NewEntry(ttl, now)], nextId := r.nextId + 1)
  }

  function Touched(entry: Entry, keyword: Option<string>, now: nat): Entry {
    Entry(entry.ttl, now, now + entry.ttl, entry.generation + 1, TransactionAfter(entry.transactionOpen, keyword),
          if keyword.Some? then Some(ToAsciiUppercase(keyword.value)) else entry.lastKeyword)
  }

  function TouchEffect(r: Registry, id: nat, keyword: Option<string>, now: nat): Registry {
    if id in r.entries then r.(entries := r.entries[id := Touched(r.entries[id], keyword, now)]) else r
  }

  function CloseEffect(r: Registry, id: nat): Registry {
    if id in r.entries then r.(entries := r.entries - {id}, closed := r.closed + {id}) else r
  }

  /** An alarm that goes off at `now`. */
  function ExpireEffect(r: Registry, alarm: Alarm, now: nat): Registry {
    if alarm.session in r.entries && r.entries[alarm.session].generation == alarm.generation
       && r.entries[alarm.session].expiresAt <= now
    then CloseEffect(r, alarm.session) else r
  }

  /** `PinnedSessionEntry::touch`. */
  method Touch(before: Entry, keyword: Option<string>, now: nat) returns (entry: Entry)
    ensures entry == Touched(before, keyword, now)
    ensures entry.ttl == before.ttl && entry.lastUsed == now && entry.expiresAt == now + before.ttl
    ensures entry.generation == before.generation + 1
    ensures keyword == Some("begin") || keyword == Some("start") ==> entry.transactionOpen
    ensures keyword == Some("commit") || keyword == Some("rollback") ==> !entry.transactionOpen
    ensures keyword.None? || keyword.value !in {"begin", "start", "commit", "rollback"} ==>
        entry.transactionOpen == before.transactionOpen
  {
    hide ToAsciiUppercase;
    entry := before.(lastUsed := now);
    entry := entry.(expiresAt := now + entry.ttl);
    entry := entry.(generation := entry.generation + 1);
    if keyword.Some? {
      if keyword.value in {"begin", "start"} {
        entry := entry.(transactionOpen := true);
      } else if keyword.value in {"commit", "rollback"} {
        entry := entry.(transactionOpen := false);
      }
      entry := entry.(lastKeyword := Some(ToAsciiUppercase(keyword.value)));
    }
  }

  class PinnedSessionRegistry {
    var entries: map<nat, Entry>
    var nextId: nat
    var closed: set<nat>
    /** The alarms that were scheduled and have not fired. */
    var alarms: set<Alarm>

    /** Every registered session has an alarm, which is due when it will have been idle for its time
        to live; alarms of earlier uses are out of date. */
    ghost predicate Valid()
      reads this
    {
      && (forall id :: id in entries ==>
            && id < nextId && id !in closed && entries[id].expiresAt == entries[id].lastUsed + entries[id].ttl
            && Alarm(id, entries[id].generation, entries[id].expiresAt) in alarms)
      && (forall id :: id in closed ==> id < nextId)
      && (forall alarm :: alarm in alarms ==> alarm.session < nextId)
      && (forall alarm :: alarm in alarms && alarm.session in entries ==>
            && alarm.generation <= entries[alarm.session].generation
            && (IsAlarmOf(alarm, alarm.session, entries[alarm.session]) ==>
                alarm.due == entries[alarm.session].expiresAt))
    }

    ghost function View(): Registry
      reads this
    {
      Registry(entries, nextId, closed)
    }

    constructor ()
      ensures Valid() && entries == map[] && closed == {}
    {
      entries, nextId, closed, alarms := map[], 1, {}, {};
    }

    method OpenPinnedSession(ttl: nat, now: nat) returns (id: nat)
      requires Valid()
      modifies this
      ensures Valid() && id == old(nextId) && entries == old(entries)[id := Entry(ttl, now, now + ttl, 0, false, None)]
      ensures closed == old(closed) && id !in old(entries) && id !in closed
      ensures View() == OpenEffect(old(View()), ttl, now) && alarms == old(alarms) + {Alarm(id, 0, now + ttl)}
    {
      id := nextId;
      nextId := nextId + 1;
      entries := entries[id := NewEntry(ttl, now)];
      alarms := alarms + {Alarm(id, 0, now + ttl)};
    }

    method TouchPinnedSession(id: nat, keyword: Option<string>, now: nat) returns (r: Option<Entry>)
      requires Valid()
      modifies this
      ensures Valid() && closed == old(closed)
      ensures id !in old(entries) ==> r == None && entries == old(entries)
      ensures id in old(entries) ==>
                var before := old(entries)[id];
                && r.Some? && entries == old(entries)[id := r.value]
                && r.value.ttl == before.ttl && r.value.lastUsed == now && r.value.generation == before.generation + 1
                && r.value.expiresAt == now + before.ttl
                && r.value.transactionOpen == TransactionAfter(before.transactionOpen, keyword)
                && r.value.lastKeyword == if keyword.Some? then Some(ToAsciiUppercase(keyword.value))
                    else before.lastKeyword
      ensures View() == TouchEffect(old(View()), id, keyword, now)
      ensures alarms == if r.Some? then old(alarms) + {Alarm(id, r.value.generation, now + r.value.ttl)}
          else old(alarms)
    {
      hide ToAsciiUppercase, TransactionAfter;
      if id !in entries {
        return None;
      }
      var entry := Touch(entries[id], keyword, now);
      entries := entries[id := entry];
      alarms := alarms + {Alarm(id, entry.generation, now + entry.ttl)};
      return Some(entry);
    }

    method ClosePinnedSession(id: nat) returns (r: Option<Entry>)
      requires Valid()
      modifies this`entries, this`closed
      ensures Valid()
      ensures r == if id in old(entries) then Some(old(entries)[id]) else None
      ensures View() == CloseEffect(old(View()), id)
      ensures entries == old(entries) - {id} && closed == if r.Some? then old(closed) + {id} else old(closed)
    {
      if id !in entries {
        return None;
      }
      r := Some(entries[id]);
      entries := entries - {id};
      closed := closed + {id};
    }

    /** An alarm closes its session exactly if the session is registered and was not used since the
        alarm was set, and then the session has been idle for its full time to live. */
    method ExpireIfGenerationMatches(alarm: Alarm, now: nat) returns (r: Option<Entry>)
      requires Valid() && alarm in alarms && now >= alarm.due
      modifies this`entries, this`closed, this`alarms
      ensures Valid() && alarms == old(alarms) - {alarm}
      ensures r.Some? <==> alarm.session in old(entries) && IsAlarmOf(alarm, alarm.session, old(entries)[alarm.session])
      ensures r.Some? ==> r.value == old(entries)[alarm.session] && now >= r.value.lastUsed + r.value.ttl
      ensures entries == (if r.Some? then old(entries) - {alarm.session} else old(entries))
      ensures closed == if r.Some? then old(closed) + {alarm.session} else old(closed)
      ensures View() == ExpireEffect(old(View()), alarm, now)
    {
      alarms := alarms - {alarm};
      if alarm.session !in entries {
        return None;
      }
      var entry := entries[alarm.session];
      if entry.generation != alarm.generation {
        return None;
      }
      if now < entry.expiresAt {
        return None;
      }
      entries := entries - {alarm.session};
      closed := closed + {alarm.session};
      return Some(entry);
    }
  }

  function ToAsciiUpper(c: char): char {
    if 'a' <= c <= 'z' then (c as int - 32) as char else c
  }

  function ToAsciiUppercase(s: string): (r: string)
    ensures |r| == |s| && forall i :: 0 <= i < |s| ==> r[i] == ToAsciiUpper(s[i])
  {
    seq(|s|, i requires 0 <= i < |s| => ToAsciiUpper(s[i]))
  }

  /** Upper case differs from the text in the case of ASCII letters only, and has no lower-case ones. */
  lemma UppercaseIs(s: string)
    ensures ToAsciiLowercase(ToAsciiUppercase(s)) == ToAsciiLowercase(s)
    ensures forall c :: c in ToAsciiUppercase(s) ==> !('a' <= c <= 'z')
    ensures forall c :: c in ToAsciiLowercase(s) ==> !('A' <= c <= 'Z')
  {
  }

  // ---- The machine ----

  /** Where an expiry task stands: asleep, holding the entry, past the generation check, with the
      clock read, or past the expiry check. */
  datatype AlarmStage = Sleeping | Found | Matched | Timed(at: nat) | Passed

  /** Where a call stands. The stages of an open: called, with its id, with the clock read, and with
      the entry inserted. Those of a touch: called, holding the entry, with the clock read,
      after storing the last use, after storing the expiry, after raising the generation, and with
      the generation read back. A session that was taken out is closed in a step of its own. */
  datatype Task =
    | OpenCalled(ttl: nat)
    | OpenNumbered(session: nat, ttl: nat)
    | OpenTimed(session: nat, ttl: nat, at: nat)
    | OpenInserted(session: nat)
    | TouchCalled(session: nat)
    | TouchFound(session: nat)
    | TouchTimed(session: nat, at: nat)
    | TouchUsed(session: nat, at: nat)
    | TouchStored(session: nat)
    | TouchRaised(session: nat)
    | TouchRead(session: nat, generation: nat)
    | CloseCalled(session: nat)
    | TakenOut(session: nat)
    | Expiring(alarm: Alarm, stage: AlarmStage)
    | Returned

  datatype World = World(
    now: nat, nextId: nat, entries: map<nat, Entry>, registered: set<nat>, closed: set<nat>, tasks: seq<Task>)

  /** Task `task` takes its next step at time `at`. */
  datatype Turn = Turn(task: nat, at: nat)

  function SetTask(w: World, i: nat, task: Task): World
    requires i < |w.tasks|
  {
    w.(tasks := w.tasks[i := task])
  }

  /** The entry stays reachable for the tasks that hold it after it has left the registry. */
  function SetEntry(w: World, session: nat, entry: Entry): World {
    w.(entries := w.entries[session := entry])
  }

  function Schedule(w: World, i: nat, session: nat, generation: nat): World
    requires i < |w.tasks| && session in w.entries
  {
    w.(tasks := w.tasks[i := Returned]
        + [Expiring(Alarm(session, generation, w.now + w.entries[session].ttl), Sleeping)])
  }

  function StepOpen(w: World, i: nat): World
    requires i < |w.tasks|
  {
    match w.tasks[i]
    case OpenCalled(ttl) => SetTask(w.(nextId := w.nextId + 1), i, OpenNumbered(w.nextId, ttl))
    case OpenNumbered(session, ttl) => SetTask(w, i, OpenTimed(session, ttl, w.now))
    case OpenTimed(session, ttl, at) =>
      SetTask(SetEntry(w, session, NewEntry(ttl, at)).(registered := w.registered + {session}), i,
          OpenInserted(session))
    case OpenInserted(session) => if session in w.entries then Schedule(w, i, session, 0) else w
    case _ => w
  }

  function StepTouch(w: World, i: nat): World
    requires i < |w.tasks|
  {
    match w.tasks[i]
    case TouchCalled(session) => SetTask(w, i, if session in w.registered then TouchFound(session) else Returned)
    case TouchFound(session) => SetTask(w, i, TouchTimed(session, w.now))
    case TouchTimed(session, at) =>
      if session in w.entries then SetTask(SetEntry(w, session, w.entries[session].(lastUsed := at)), i,
          TouchUsed(session, at)) else w
    case TouchUsed(session, at) =>
      if session in w.entries then
        SetTask(SetEntry(w, session, w.entries[session].(expiresAt := at + w.entries[session].ttl)), i,
            TouchStored(session))
      else w
    case TouchStored(session) =>
      if session in w.entries then
        SetTask(SetEntry(w, session, w.entries[session].(generation := w.entries[session].generation + 1)), i,
            TouchRaised(session))
      else w
    case TouchRaised(session) =>
      if session in w.entries then SetTask(w, i, TouchRead(session, w.entries[session].generation)) else w
    case TouchRead(session, generation) => if session in w.entries then Schedule(w, i, session, generation) else w
    case _ => w
  }

  /** `remove`, and what is left to do after it. */
  function TakeOut(w: World, i: nat, session: nat): World
    requires i < |w.tasks|
  {
    if session in w.registered then SetTask(w.(registered := w.registered - {session}), i, TakenOut(session))
    else SetTask(w, i, Returned)
  }

  function StepClose(w: World, i: nat): World
    requires i < |w.tasks|
  {
    match w.tasks[i]
    case CloseCalled(session) => TakeOut(w, i, session)
    case TakenOut(session) => SetTask(w.(closed := w.closed + {session}), i, Returned)
    case _ => w
  }

  function StepExpiry(w: World, i: nat, alarm: Alarm, stage: AlarmStage): World
    requires i < |w.tasks|
  {
    match stage
    case Sleeping =>
      if w.now < alarm.due then w
      else SetTask(w, i, if alarm.session in w.registered then Expiring(alarm, Found) else Returned)
    case Found =>
      if alarm.session in w.entries then
        SetTask(w, i, if w.entries[alarm.session].generation == alarm.generation then Expiring(alarm, Matched)
            else Returned)
      else w
    case Matched => SetTask(w, i, Expiring(alarm, Timed(w.now)))
    case Timed(at) =>
      if alarm.session in w.entries then
        SetTask(w, i, if at < w.entries[alarm.session].expiresAt then Returned else Expiring(alarm, Passed))
      else w
    case Passed => TakeOut(w, i, alarm.session)
  }

  function StepTask(w: World, i: nat): World
    requires i < |w.tasks|
  {
    match w.tasks[i]
    case OpenCalled(_) | OpenNumbered(_, _) | OpenTimed(_, _, _) | OpenInserted(_) => StepOpen(w, i)
    case CloseCalled(_) | TakenOut(_) => StepClose(w, i)
    case Expiring(alarm, stage) => StepExpiry(w, i, alarm, stage)
    case Returned => w
    case _ => StepTouch(w, i)
  }

  /** Time never goes back. */
  function Step(w: World, turn: Turn): World {
    if turn.task >= |w.tasks| || turn.at < w.now then w else StepTask(w.(now := turn.at), turn.task)
  }

  function Exec(w: World, schedule: seq<Turn>): World {
    if schedule == [] then w else Step(Exec(w, schedule[..|schedule| - 1]), schedule[|schedule| - 1])
  }

  /** Any calls, none of which has begun. */
  predicate AreCalls(tasks: seq<Task>) {
    forall i :: 0 <= i < |tasks| ==> tasks[i].OpenCalled? || tasks[i].TouchCalled? || tasks[i].CloseCalled?
  }

  function InitialWorld(tasks: seq<Task>): World {
    World(0, 1, map[], {}, {}, tasks)
  }
}

/** Any number of processes competing for the startup lease. Every SQL statement is one step, and
    so is the passing of time; a statement's answer may get lost after it took effect. Owner ids
    are fresh for every acquire call, there is one clock, and each guard is used by one task. */
module LeaseProtocol {
  import opened Text
  import opened StartupLease

  /** The heartbeat task of a guard: asleep since a time, woken at a time with its statement still
      to take effect, or waiting since a time for the answer that the lease is or is not held. */
  datatype Beat = Sleeping(since: Time) | InFlight(wake: Time) | Replying(since: Time, held: bool) | Stopped

  /** `pending` is an event whose fence check has passed and whose INSERT is still to come; `alive`
      is false once the guard was dropped, when only its heartbeat task may still be running. */
  datatype Guard =
    | Acquiring
    | Holding(fence: nat, lost: bool, pending: Option<Event>, beat: Beat, alive: bool)
    | Gone

  /** `stale` counts, for each owner, the events it inserted while the row was not its own; the code
      does not store it. */
  datatype Sys = Sys(db: Db, guards: map<Owner, Guard>, stale: multiset<Owner>)

  datatype Config = Config(ttl: nat, heartbeat: nat)

  datatype Turn =
    | Tick(ms: nat)
    | Begin(o: Owner)
    | TryAcquire(o: Owner, answered: bool)
    | GiveUp(o: Owner)
    | WakeUp(o: Owner)
    | Heartbeat(o: Owner, executed: bool, answered: bool)
    | Reply(o: Owner)
    | CheckFence(o: Owner, phase: string, kind: EventKind)
    | Insert(o: Owner, executed: bool)
    | StopHeartbeat(o: Owner)
    | Release(o: Owner, executed: bool)
    | Drop(o: Owner)

  function Set(s: Sys, o: Owner, g: Guard): Sys {
    s.(guards := s.guards[o := g])
  }

  function StepTryAcquire(c: Config, s: Sys, o: Owner, answered: bool): Sys {
    var (db, fence) := AcquireStatement(s.db, o, c.ttl);
    var s1 := s.(db := db);
    if !answered then Set(s1, o, Gone)
    else match fence
      case None => s1
      case Some(f) => Set(s1, o, Holding(f, false, None, Replying(db.now, true), true))
  }

  function StepHeartbeat(c: Config, s: Sys, o: Owner, g: Guard, executed: bool, answered: bool): Sys
    requires g.Holding?
  {
    if !executed then Set(s, o, g.(beat := Sleeping(s.db.now)))
    else
      var (db, held) := HeartbeatStatement(s.db, o, g.fence, c.ttl);
      Set(s.(db := db), o, g.(beat := if answered then Replying(db.now, held) else Sleeping(db.now)))
  }

  function StepInsert(s: Sys, o: Owner, g: Guard, executed: bool): Sys
    requires g.Holding? && g.pending.Some?
  {
    var s1 := Set(s, o, g.(pending := None));
    if !executed then s1
    else s1.(db := InsertStatement(s.db, g.pending.value),
             stale := if Matches(s.db, o, g.fence) then s.stale else s.stale[o := s.stale[o] + 1])
  }

  function StepHolding(c: Config, s: Sys, o: Owner, g: Guard, turn: Turn): Sys
    requires g.Holding?
  {
    match turn
    case WakeUp(_) =>
      if g.beat.Sleeping? && s.db.now >= g.beat.since + c.heartbeat then Set(s, o, g.(beat := InFlight(s.db.now)))
          else s
    case Heartbeat(_, executed, answered) => if g.beat.InFlight? then StepHeartbeat(c, s, o, g, executed, answered)
        else s
    case Reply(_) =>
      if !g.beat.Replying? then s
      else if g.beat.held then Set(s, o, g.(beat := Sleeping(s.db.now)))
      else Set(s, o, g.(beat := Stopped, lost := true))
    case CheckFence(_, phase, kind) =>
      if !g.alive || g.pending.Some? || g.lost then s
      else if HeldStatement(s.db, o, g.fence) then Set(s, o, g.(pending := Some(Event(o, g.fence, phase, kind))))
      else Set(s, o, g.(lost := true))
    case Insert(_, executed) => if g.pending.Some? then StepInsert(s, o, g, executed) else s
    case StopHeartbeat(_) => if g.beat.Sleeping? then Set(s, o, g.(beat := Stopped)) else s
    case Release(_, executed) =>
      if !g.alive || g.pending.Some? || g.beat != Stopped then s
      else Set(if executed then s.(db := ReleaseStatement(s.db, o, g.fence)) else s, o, Gone)
    case Drop(_) => if g.pending.None? then Set(s, o, g.(alive := false)) else s
    case _ => s
  }

  function Step(c: Config, s: Sys, turn: Turn): Sys {
    match turn
    case Tick(ms) => s.(db := s.db.(now := s.db.now + ms))
    case Begin(o) => if o in s.guards then s else Set(s, o, Acquiring)
    case TryAcquire(o, answered) =>
      if o in s.guards && s.guards[o].Acquiring? then StepTryAcquire(c, s, o, answered) else s
    case GiveUp(o) => if o in s.guards && s.guards[o].Acquiring? then Set(s, o, Gone) else s
    case _ => if turn.o in s.guards && s.guards[turn.o].Holding? then StepHolding(c, s, turn.o, s.guards[turn.o], turn)
        else s
  }

  function Exec(c: Config, s: Sys, schedule: seq<Turn>): Sys {
    if schedule == [] then s else Step(c, Exec(c, s, schedule[..|schedule| - 1]), schedule[|schedule| - 1])
  }

  function InitialSys(now: Time): Sys {
    Sys(Db(now, None, []), map[], multiset{})
  }

  function Events(journal: seq<Event>, o: Owner): nat {
    if journal == [] then 0
    else Events(journal[..|journal| - 1], o) + if journal[|journal| - 1].owner == o then 1 else 0
  }

  /** The owner once held the lease and the row is no longer its own. */
  ghost predicate Lost(s: Sys, o: Owner) {
    o in s.guards && (s.guards[o].Gone? || (s.guards[o].Holding? && !Matches(s.db, o, s.guards[o].fence)))
  }

  function PendingInserts(s: Sys, o: Owner): nat {
    if o in s.guards && s.guards[o].Holding? && s.guards[o].pending.Some? then 1 else 0
  }

  predicate Owns(s: Sys, o: Owner) {
    s.db.row.Some? && s.db.row.value.owner == o
  }

  ghost predicate GuardInv(s: Sys, o: Owner)
    requires o in s.guards
  {
    match s.guards[o]
    case Acquiring => !Owns(s, o)
    case Holding(fence, _, pending, _, _) =>
      && (Owns(s, o) ==> s.db.row.value.fence == fence)
      && (pending.Some? ==> pending.value.owner == o && pending.value.fence == fence)
    case Gone => true
  }

  ghost predicate EventInv(s: Sys, e: Event) {
    && e.owner in s.guards && !s.guards[e.owner].Acquiring?
    && (s.guards[e.owner].Holding? ==> s.guards[e.owner].fence == e.fence)
  }

  ghost predicate StaleInv(s: Sys, o: Owner) {
    s.stale[o] == 0 || (s.stale[o] == 1 && Lost(s, o) && PendingInserts(s, o) == 0)
  }

  ghost predicate Inv(s: Sys) {
    && (s.db.row.Some? ==> s.db.row.value.owner in s.guards)
    && (forall o :: o in s.guards ==> GuardInv(s, o))
    && (forall e :: e in s.db.journal ==> EventInv(s, e))
    && (forall e, f :: e in s.db.journal && f in s.db.journal && e.owner == f.owner ==> e.fence == f.fence)
    && (forall o :: StaleInv(s, o))
  }

  // ---- Every step keeps the invariant ----

  /** A turn of one process leaves every other guard alone, and takes the row from another owner
      only by a successful acquire. */
  ghost predicate Touches(s: Sys, s': Sys, o: Owner) {
    && (forall p :: p in s.guards && p != o ==> p in s'.guards && s'.guards[p] == s.guards[p])
    && (forall p :: p in s'.guards && p != o ==> p in s.guards)
    && (s'.db.row == s.db.row || s'.db.row.None? || s'.db.row.value.owner == o)
    && (s'.db.journal == s.db.journal || (o in s.guards && s.guards[o].Holding? && s.guards[o].pending.Some?
                                          && s'.db.journal == s.db.journal + [s.guards[o].pending.value]))
    && (forall p :: p != o ==> s'.stale[p] == s.stale[p])
  }

  /** What a turn does to the process that takes it. */
  ghost predicate Moves(s: Sys, s': Sys, o: Owner) {
    && o in s'.guards
    && (o !in s.guards ==> s'.guards[o].Acquiring? && s' == Set(s, o, Acquiring))
    && (o in s.guards && s.guards[o].Gone? ==> s' == s)
    && (o in s.guards && s.guards[o].Holding? ==>
          !s'.guards[o].Acquiring? && (s'.guards[o].Holding? ==> s'.guards[o].fence == s.guards[o].fence))
  }

  lemma HoldingStep(c: Config, s: Sys, o: Owner, turn: Turn)
    requires o in s.guards && s.guards[o].Holding? && GuardInv(s, o)
    ensures var s' := StepHolding(c, s, o, s.guards[o], turn);
            && Touches(s, s', o) && Moves(s, s', o) && o in s'.guards && GuardInv(s', o)
            && (Lost(s, o) ==> Lost(s', o) && s'.db.row == s.db.row && PendingInserts(s', o) <= PendingInserts(s, o))
  {
  }

  lemma HoldingStepStale(c: Config, s: Sys, o: Owner, turn: Turn)
    requires o in s.guards && s.guards[o].Holding? && StaleInv(s, o)
    ensures StaleInv(StepHolding(c, s, o, s.guards[o], turn), o)
  {
  }

  lemma AcquireStep(c: Config, s: Sys, o: Owner, answered: bool)
    requires o in s.guards && s.guards[o].Acquiring? && GuardInv(s, o) && StaleInv(s, o)
    ensures var s' := StepTryAcquire(c, s, o, answered);
            Touches(s, s', o) && Moves(s, s', o) && GuardInv(s', o) && StaleInv(s', o)
  {
  }

  lemma OwnStep(c: Config, s: Sys, turn: Turn)
    requires Inv(s) && !turn.Tick?
    ensures var o, s' := turn.o, Step(c, s, turn);
            Touches(s, s', o) && (s' == s || Moves(s, s', o)) && (o in s'.guards ==> GuardInv(s', o)) && StaleInv(s', o)
  {
    var o := turn.o;
    assert StaleInv(s, o);
    if o in s.guards {
      assert GuardInv(s, o);
      if s.guards[o].Holding? {
        HoldingStep(c, s, o, turn);
        HoldingStepStale(c, s, o, turn);
      } else if s.guards[o].Acquiring? && turn.TryAcquire? {
        AcquireStep(c, s, o, turn.answered);
      }
    }
  }

  lemma TouchedKeepsInv(s: Sys, s': Sys, o: Owner)
    requires Inv(s) && Touches(s, s', o) && Moves(s, s', o) && GuardInv(s', o) && StaleInv(s', o)
    ensures Inv(s')
  {
    forall p | p in s'.guards && p != o
      ensures GuardInv(s', p)
    {
      assert GuardInv(s, p);
    }
    forall p | p != o
      ensures StaleInv(s', p)
    {
      assert StaleInv(s, p);
    }
    forall e | e in s'.db.journal
      ensures EventInv(s', e)
    {
      if e in s.db.journal {
        assert EventInv(s, e);
      } else {
        assert GuardInv(s, o);
      }
    }
    forall e, f | e in s'.db.journal && f in s'.db.journal && e.owner == f.owner
      ensures e.fence == f.fence
    {
      if o in s.guards {
        assert GuardInv(s, o);
      }
      assert e in s.db.journal ==> EventInv(s, e);
      assert f in s.db.journal ==> EventInv(s, f);
    }
  }

  lemma StepKeepsInv(c: Config, s: Sys, turn: Turn)
    requires Inv(s)
    ensures Inv(Step(c, s, turn))
  {
    var s' := Step(c, s, turn);
    if turn.Tick? {
      forall o | o in s'.guards
        ensures GuardInv(s', o)
      {
        assert GuardInv(s, o);
      }
      forall o
        ensures StaleInv(s', o)
      {
        assert StaleInv(s, o);
      }
      forall e | e in s'.db.journal
        ensures EventInv(s', e)
      {
        assert EventInv(s, e);
      }
    } else if s' != s {
      OwnStep(c, s, turn);
      TouchedKeepsInv(s, s', turn.o);
    }
  }

  lemma {:induction false} ReachableInv(c: Config, now: Time, schedule: seq<Turn>)
    ensures Inv(Exec(c, InitialSys(now), schedule))
  {
    hide Inv, Step;
    if schedule == [] {
      InitialInv(now);
    } else {
      var n := |schedule| - 1;
      ReachableInv(c, now, schedule[..n]);
      StepKeepsInv(c, Exec(c, InitialSys(now), schedule[..n]), schedule[n]);
    }
  }

  lemma InitialInv(now: Time)
    ensures Inv(InitialSys(now))
  {
  }
}

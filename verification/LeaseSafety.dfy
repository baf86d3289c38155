/** What holds along every run of the startup lease: a lost lease stays lost, a prompt heartbeat
    keeps it, and what the phase journal does and does not remember. */
module LeaseSafety {
  import opened Text
  import opened StartupLease
  import opened LeaseProtocol

  lemma {:induction false} ExecConcat(c: Config, s: Sys, first: seq<Turn>, second: seq<Turn>)
    ensures Exec(c, s, first + second) == Exec(c, Exec(c, s, first), second)
  {
    hide Step;
    if second == [] {
      assert first + second == first;
    } else {
      var n := |second| - 1;
      assert (first + second)[..|first + second| - 1] == first + second[..n];
      ExecConcat(c, s, first, second[..n]);
    }
  }

  // ---- Fencing ----

  lemma EventsOfAppended(journal: seq<Event>, e: Event, o: Owner)
    ensures Events(journal + [e], o) == Events(journal, o) + if e.owner == o then 1 else 0
  {
  }

  /** A guard that lost the lease cannot extend, release or regain it, cannot pass a fence check,
      and can insert only an event whose check had passed before. */
  lemma LostGuardIsHarmless(c: Config, s: Sys, turn: Turn, o: Owner)
    requires Inv(s) && Lost(s, o)
    ensures var s' := Step(c, s, turn);
            && Lost(s', o)
            && Events(s'.db.journal, o) + PendingInserts(s', o) <= Events(s.db.journal, o) + PendingInserts(s, o)
            && (!turn.Tick? && turn.o == o ==> s'.db.row == s.db.row)
  {
    hide StepHolding;
    var s' := Step(c, s, turn);
    if !turn.Tick? {
      OwnStep(c, s, turn);
      if turn.o == o {
        if s.guards[o].Holding? {
          assert GuardInv(s, o);
          HoldingStep(c, s, o, turn);
          HoldingStepCounts(c, s, o, turn);
        }
      } else if s'.db.journal != s.db.journal {
        assert GuardInv(s, turn.o);
        EventsOfAppended(s.db.journal, s.guards[turn.o].pending.value, o);
      }
    }
  }

  lemma HoldingStepCounts(c: Config, s: Sys, o: Owner, turn: Turn)
    requires o in s.guards && s.guards[o].Holding? && GuardInv(s, o) && Lost(s, o)
    ensures var s' := StepHolding(c, s, o, s.guards[o], turn);
            Events(s'.db.journal, o) + PendingInserts(s', o) <= Events(s.db.journal, o) + PendingInserts(s, o)
  {
  }

  /** Once another process has the row, or nobody, the loss is final in every continuation of the
      run, and at most one more event of the old guard reaches the journal. */
  lemma {:induction false} LossIsFinal(c: Config, now: Time, before: seq<Turn>, after: seq<Turn>, o: Owner)
    requires Lost(Exec(c, InitialSys(now), before), o)
    ensures var s, s' := Exec(c, InitialSys(now), before), Exec(c, InitialSys(now), before + after);
            && Lost(s', o)
            && Events(s'.db.journal, o) + PendingInserts(s', o) <= Events(s.db.journal, o) + PendingInserts(s, o)
            && Events(s'.db.journal, o) <= Events(s.db.journal, o) + 1
    decreases |after|
  {
    hide Inv, Step, Lost, Events;
    if after == [] {
      assert before + after == before;
    } else {
      var n := |after| - 1;
      LossIsFinal(c, now, before, after[..n], o);
      assert (before + after)[..|before + after| - 1] == before + after[..n];
      ReachableInv(c, now, before + after[..n]);
      LostGuardIsHarmless(c, Exec(c, InitialSys(now), before + after[..n]), after[n], o);
    }
  }

  /** In every run each process writes at most one event while the lease is not its own, all events
      of one process carry one token, and a lease is only ever taken when it is free or expired:
      the branch for a lease that is already the owner's is never used. */
  lemma JournalIsFenced(c: Config, now: Time, schedule: seq<Turn>, o: Owner)
    ensures var s := Exec(c, InitialSys(now), schedule);
            && s.stale[o] <= 1
            && (forall e, f :: e in s.db.journal && f in s.db.journal && e.owner == f.owner ==> e.fence == f.fence)
            && (o in s.guards && s.guards[o].Acquiring? && MayTake(s.db, o) ==>
                  s.db.row.None? || s.db.row.value.expiresAt <= s.db.now)
  {
    ReachableInv(c, now, schedule);
    var s := Exec(c, InitialSys(now), schedule);
    assert StaleInv(s, o);
    if o in s.guards {
      assert GuardInv(s, o);
    }
  }

  function TokenSchedule(): seq<Turn> {
    [Begin(0), TryAcquire(0, true), Reply(0), StopHeartbeat(0), Release(0, true), Begin(1), TryAcquire(1, true)]
  }

  /** The token alone identifies nobody: a release deletes the row, and the next owner starts at
      token 1 again. Only the pair of owner and token is never shared. */
  lemma TokenAloneIsReused(c: Config, now: Time)
    ensures var s2, s7 := Exec(c, InitialSys(now), TokenSchedule()[..2]), Exec(c, InitialSys(now), TokenSchedule());
            && Matches(s2.db, 0, 1) && Matches(s7.db, 1, 1)
  {
    var s, t := InitialSys(now), TokenSchedule();
    var s1 := Step(c, s, t[0]);
    var s2 := Step(c, s1, t[1]);
    assert s2.db.row == Some(Lease(0, 1, now + c.ttl));
    var s3 := Step(c, s2, t[2]);
    var s4 := Step(c, s3, t[3]);
    var s5 := Step(c, s4, t[4]);
    assert s5.db.row == None;
    var s6 := Step(c, s5, t[5]);
    var s7 := Step(c, s6, t[6]);
    assert s7.db.row == Some(Lease(1, 1, now + c.ttl));
    ExecPrefixes(c, s, t, 0);
    ExecPrefixes(c, s, t, 1);
    ExecPrefixes(c, s, t, 2);
    ExecPrefixes(c, s, t, 3);
    ExecPrefixes(c, s, t, 4);
    ExecPrefixes(c, s, t, 5);
    ExecPrefixes(c, s, t, 6);
    assert t[..7] == t && t[..0] == [];
  }

  lemma ExecPrefixes(c: Config, s: Sys, t: seq<Turn>, k: nat)
    requires k < |t|
    ensures Exec(c, s, t[..k + 1]) == Step(c, Exec(c, s, t[..k]), t[k])
  {
    assert t[..k + 1][..k] == t[..k];
  }

  // ---- When the token identifies the holder ----

  /** The turn is an acquire that succeeds, answered or not. */
  predicate Acquires(s: Sys, turn: Turn) {
    turn.TryAcquire? && turn.o in s.guards && s.guards[turn.o].Acquiring? && MayTake(s.db, turn.o)
  }

  /** The tokens that a run issues, in order. */
  function Issued(c: Config, now: Time, schedule: seq<Turn>): seq<nat> {
    if schedule == [] then []
    else
      var n := |schedule| - 1;
      var s := Exec(c, InitialSys(now), schedule[..n]);
      Issued(c, now, schedule[..n])
      + if Acquires(s, schedule[n]) then [AcquireStatement(s.db, schedule[n].o, c.ttl).1.value] else []
  }

  /** How many of the acquires found no row. */
  function FreshStarts(c: Config, now: Time, schedule: seq<Turn>): nat {
    if schedule == [] then 0
    else
      var n := |schedule| - 1;
      var s := Exec(c, InitialSys(now), schedule[..n]);
      FreshStarts(c, now, schedule[..n]) + if Acquires(s, schedule[n]) && s.db.row.None? then 1 else 0
  }

  /** A turn that does not acquire leaves the token of the row alone or is a release that deletes
      the row, and makes nobody a holder. */
  lemma OtherTurnsIssueNothing(c: Config, s: Sys, turn: Turn)
    requires Inv(s) && !Acquires(s, turn)
    ensures var s' := Step(c, s, turn);
            && (s'.db.row.Some? ==> s.db.row.Some? && s'.db.row.value.fence == s.db.row.value.fence)
            && (s'.db.row.None? && s.db.row.Some? ==> turn.Release? && turn.executed)
            && forall o :: o in s'.guards && s'.guards[o].Holding? ==>
                 o in s.guards && s.guards[o].Holding? && s.guards[o].fence == s'.guards[o].fence
  {
    hide StepHolding;
    if !turn.Tick? && turn.o in s.guards && s.guards[turn.o].Holding? {
      assert GuardInv(s, turn.o);
      HolderIssuesNothing(c, s, turn.o, turn);
    }
  }

  lemma HolderIssuesNothing(c: Config, s: Sys, o: Owner, turn: Turn)
    requires o in s.guards && s.guards[o].Holding?
    ensures var s' := StepHolding(c, s, o, s.guards[o], turn);
            && (s'.db.row.Some? ==> s.db.row.Some? && s'.db.row.value.fence == s.db.row.value.fence)
            && (s'.db.row.None? && s.db.row.Some? ==> turn.Release? && turn.executed)
            && o in s'.guards && s'.guards == s.guards[o := s'.guards[o]]
            && (s'.guards[o].Holding? ==> s'.guards[o].fence == s.guards[o].fence)
  {
  }

  /** As long as at most one acquire has found no row, the tokens count up, the row has the last one,
      and no two guards hold the same. */
  ghost predicate TokensCount(s: Sys, issued: seq<nat>) {
    && (forall k :: 0 <= k < |issued| ==> issued[k] == k + 1)
    && (s.db.row.Some? ==> s.db.row.value.fence == |issued|)
    && (forall o :: o in s.guards && s.guards[o].Holding? ==> s.guards[o].fence <= |issued|)
    && (forall o, p :: HaveSameToken(s, o, p) ==> o == p)
  }

  ghost predicate HaveSameToken(s: Sys, o: Owner, p: Owner) {
    && o in s.guards && p in s.guards && s.guards[o].Holding? && s.guards[p].Holding?
    && s.guards[o].fence == s.guards[p].fence
  }

  lemma OtherTurnsKeepCount(c: Config, s: Sys, turn: Turn, issued: seq<nat>)
    requires Inv(s) && !Acquires(s, turn) && TokensCount(s, issued)
    ensures TokensCount(Step(c, s, turn), issued)
  {
    OtherTurnsIssueNothing(c, s, turn);
    hide Inv, Step;
    var s' := Step(c, s, turn);
    forall o, p | HaveSameToken(s', o, p) ensures o == p {
      assert HaveSameToken(s, o, p);
    }
  }

  ghost predicate TokenFacts(s: Sys, issued: seq<nat>, starts: nat) {
    && (starts <= 1 ==> TokensCount(s, issued))
    && (s.db.row.Some? ==> issued != []) && (issued != [] <==> starts >= 1)
    && (starts >= 2 ==> !Distinct(issued)) && (issued != [] ==> issued[0] == 1)
  }

  lemma {:induction false} TokensOfRun(c: Config, now: Time, schedule: seq<Turn>)
    ensures TokenFacts(Exec(c, InitialSys(now), schedule), Issued(c, now, schedule), FreshStarts(c, now, schedule))
  {
    if schedule != [] {
      var n := |schedule| - 1;
      var front, turn := schedule[..n], schedule[n];
      TokensOfRun(c, now, front);
      ReachableInv(c, now, front);
      var s := Exec(c, InitialSys(now), front);
      var before, starts := Issued(c, now, front), FreshStarts(c, now, front);
      if Acquires(s, turn) {
        AcquireKeepsFacts(c, s, turn, before, starts);
      } else {
        OtherTurnsKeepFacts(c, s, turn, before, starts);
        assert Issued(c, now, schedule) == before;
      }
    }
  }

  lemma OtherTurnsKeepFacts(c: Config, s: Sys, turn: Turn, issued: seq<nat>, starts: nat)
    requires Inv(s) && !Acquires(s, turn) && TokenFacts(s, issued, starts)
    ensures TokenFacts(Step(c, s, turn), issued, starts)
  {
    OtherTurnsIssueNothing(c, s, turn);
    hide Inv, Step, TokensCount;
    if starts <= 1 {
      OtherTurnsKeepCount(c, s, turn, issued);
    }
  }

  lemma AcquireKeepsFacts(c: Config, s: Sys, turn: Turn, before: seq<nat>, starts: nat)
    requires Acquires(s, turn) && TokenFacts(s, before, starts)
    ensures TokenFacts(Step(c, s, turn), before + [AcquireStatement(s.db, turn.o, c.ttl).1.value],
                       starts + if s.db.row.None? then 1 else 0)
  {
    AcquireIssues(c, s, turn, before);
    RepeatedToken(before, AcquireStatement(s.db, turn.o, c.ttl).1.value);
    hide Step, Distinct;
  }

  lemma AcquireIssues(c: Config, s: Sys, turn: Turn, before: seq<nat>)
    requires Acquires(s, turn)
    ensures var fence := AcquireStatement(s.db, turn.o, c.ttl).1;
            && fence.Some? && fence.value == (if s.db.row.None? then 1 else s.db.row.value.fence + 1)
            && Step(c, s, turn).db.row.Some?
            && (TokensCount(s, before) && fence.value == |before| + 1 ==>
                  TokensCount(Step(c, s, turn), before + [fence.value]))
  {
    var s', fence := Step(c, s, turn), AcquireStatement(s.db, turn.o, c.ttl).1.value;
    assert s'.guards == s.guards[turn.o := s'.guards[turn.o]];
    if TokensCount(s, before) && fence == |before| + 1 {
      forall o, p | HaveSameToken(s', o, p) ensures o == p {
        if o != turn.o && p != turn.o {
          assert HaveSameToken(s, o, p);
        }
      }
    }
  }

  lemma RepeatedToken(before: seq<nat>, fence: nat)
    ensures before != [] && before[0] == 1 && fence == 1 ==> !Distinct(before + [fence])
    ensures !Distinct(before) ==> !Distinct(before + [fence])
  {
    var all := before + [fence];
    if before != [] && before[0] == 1 && fence == 1 {
      assert all[0] == all[|before|];
    }
    if !Distinct(before) {
      var i, j :| 0 <= i < j < |before| && before[i] == before[j];
      assert all[i] == all[j];
    }
  }

  /** The tokens of a run are distinct exactly if at most one of its acquires found no row. Then each
      token is greater than all before it, and the token alone identifies the guard that holds it. */
  lemma TokensAreDistinctExactly(c: Config, now: Time, schedule: seq<Turn>)
    ensures var s, issued := Exec(c, InitialSys(now), schedule), Issued(c, now, schedule);
            && (Distinct(issued) <==> FreshStarts(c, now, schedule) <= 1)
            && (Distinct(issued) ==> TokensCount(s, issued))
  {
    TokensOfRun(c, now, schedule);
  }

  // ---- The heartbeat task and the end of a guard ----

  /** The heartbeat task sends its statement a full interval after it went to sleep, and not earlier. */
  lemma WakesUpExactly(c: Config, s: Sys, o: Owner)
    requires o in s.guards && s.guards[o].Holding?
    ensures var s', g := Step(c, s, WakeUp(o)), s.guards[o];
            s' == if g.beat.Sleeping? && s.db.now >= g.beat.since + c.heartbeat
                  then s.(guards := s.guards[o := g.(beat := InFlight(s.db.now))]) else s
  {
  }

  /** The statement in flight extends the lease exactly if the row is the guard's, with its token; if it
      fails or its answer gets lost, the task sleeps for another interval. */
  lemma HeartbeatsExactly(c: Config, s: Sys, o: Owner, executed: bool, answered: bool)
    requires o in s.guards && s.guards[o].Holding? && s.guards[o].beat.InFlight?
    ensures var s', g := Step(c, s, Heartbeat(o, executed, answered)), s.guards[o];
            var held := s.db.row.Some? && s.db.row.value.owner == o && s.db.row.value.fence == g.fence;
            && s'.db.row == (if executed && held then Some(Lease(o, g.fence, s.db.now + c.ttl)) else s.db.row)
            && s'.db.now == s.db.now && s'.db.journal == s.db.journal
            && s'.guards == s.guards[o := g.(beat := if executed && answered then Replying(s.db.now, held)
                                                     else Sleeping(s.db.now))]
  {
  }

  /** The answer that the lease is not held ends the task and is remembered; any other lets it sleep
      for another interval. */
  lemma RepliesExactly(c: Config, s: Sys, o: Owner)
    requires o in s.guards && s.guards[o].Holding? && s.guards[o].beat.Replying?
    ensures var s', g := Step(c, s, Reply(o)), s.guards[o];
            s' == s.(guards := s.guards[o := if g.beat.held then g.(beat := Sleeping(s.db.now))
                                             else g.(beat := Stopped, lost := true)])
  {
  }

  /** Stopping waits for a statement in flight; the row is released only after that, by a guard that is
      alive and has nothing to write; a guard that is dropped leaves its heartbeat running. */
  lemma EndsExactly(c: Config, s: Sys, o: Owner)
    requires o in s.guards && s.guards[o].Holding?
    ensures var g := s.guards[o];
            && Step(c, s, StopHeartbeat(o))
               == (if g.beat.Sleeping? then s.(guards := s.guards[o := g.(beat := Stopped)]) else s)
            && Step(c, s, Drop(o)) == (if g.pending.None? then s.(guards := s.guards[o := g.(alive := false)]) else s)
            && forall executed :: (Step(c, s, Release(o, executed)) == s <==>
                 !(g.alive && g.pending.None? && g.beat.Stopped?))
  {
    forall executed ensures Step(c, s, Release(o, executed)) == s <==>
        !(s.guards[o].alive && s.guards[o].pending.None? && s.guards[o].beat.Stopped?)
    {
      assert Step(c, s, Release(o, executed)) != s ==> Step(c, s, Release(o, executed)).guards[o] == Gone;
    }
  }

  /** Once a guard has been told that it lost the lease, it makes no event pending in any continuation. */
  lemma {:induction false} ToldIsFinal(c: Config, s: Sys, o: Owner, after: seq<Turn>)
    requires o in s.guards && s.guards[o].Holding? && s.guards[o].lost && s.guards[o].pending.None?
    ensures var s' := Exec(c, s, after);
            o in s'.guards && (s'.guards[o].Gone?
                               || (s'.guards[o].Holding? && s'.guards[o].lost && s'.guards[o].pending.None?))
  {
    if after != [] {
      var n := |after| - 1;
      ToldIsFinal(c, s, o, after[..n]);
      var v := Exec(c, s, after[..n]);
      hide Step;
      if v.guards[o].Holding? {
        ToldStays(c, v, o, after[n]);
      } else {
        GoneStays(c, v, o, after[n]);
      }
    }
  }

  lemma ToldStays(c: Config, s: Sys, o: Owner, turn: Turn)
    requires o in s.guards && s.guards[o].Holding? && s.guards[o].lost && s.guards[o].pending.None?
    ensures var s' := Step(c, s, turn);
            o in s'.guards && (s'.guards[o].Gone?
                               || (s'.guards[o].Holding? && s'.guards[o].lost && s'.guards[o].pending.None?))
  {
  }

  lemma GoneStays(c: Config, s: Sys, o: Owner, turn: Turn)
    requires o in s.guards && s.guards[o].Gone?
    ensures o in Step(c, s, turn).guards && Step(c, s, turn).guards[o].Gone?
  {
  }

  // ---- Fence checks along a run ----

  /** In turn `k` a guard checks the fence for this event, and at that moment the row is its own, with
      its token, and has not expired. */
  ghost predicate PassedCheck(c: Config, now: Time, schedule: seq<Turn>, k: nat, e: Event) {
    && k < |schedule| && schedule[k] == CheckFence(e.owner, e.phase, e.kind)
    && var db := Exec(c, InitialSys(now), schedule[..k]).db;
       && db.row.Some? && db.row.value.owner == e.owner && db.row.value.fence == e.fence
       && db.row.value.expiresAt > db.now
  }

  ghost predicate HasPassed(c: Config, now: Time, schedule: seq<Turn>, e: Event) {
    exists k :: 0 <= k < |schedule| && PassedCheck(c, now, schedule, k, e)
  }

  ghost predicate IsPending(s: Sys, e: Event) {
    e.owner in s.guards && s.guards[e.owner].Holding? && s.guards[e.owner].pending == Some(e)
  }

  lemma CheckStaysPassed(c: Config, now: Time, schedule: seq<Turn>, turn: Turn, e: Event)
    requires HasPassed(c, now, schedule, e)
    ensures HasPassed(c, now, schedule + [turn], e)
  {
    hide Exec;
    var k :| 0 <= k < |schedule| && PassedCheck(c, now, schedule, k, e);
    assert (schedule + [turn])[..k] == schedule[..k];
    assert PassedCheck(c, now, schedule + [turn], k, e);
  }

  /** What a turn adds to the journal was pending, and what it makes pending has just been checked. */
  lemma EventsOfTurn(c: Config, s: Sys, turn: Turn, e: Event)
    requires Inv(s)
    ensures var s' := Step(c, s, turn);
            && (e in s'.db.journal ==> e in s.db.journal || IsPending(s, e))
            && (IsPending(s', e) && !IsPending(s, e) ==>
                  && turn == CheckFence(e.owner, e.phase, e.kind)
                  && s.db.row.Some? && s.db.row.value.owner == e.owner && s.db.row.value.fence == e.fence
                  && s.db.row.value.expiresAt > s.db.now)
  {
    if !turn.Tick? && turn.o in s.guards {
      assert GuardInv(s, turn.o);
    }
    hide Inv;
  }

  /** Along every run each event in the journal, and each that is about to be written, had its fence
      check pass in some turn, when the row was the guard's, with its token, and unexpired. */
  lemma {:induction false} EveryEventWasChecked(c: Config, now: Time, schedule: seq<Turn>, e: Event)
    requires var s := Exec(c, InitialSys(now), schedule); e in s.db.journal || IsPending(s, e)
    ensures HasPassed(c, now, schedule, e)
  {
    if schedule != [] {
      var n := |schedule| - 1;
      var front, turn := schedule[..n], schedule[n];
      var s := Exec(c, InitialSys(now), front);
      ReachableInv(c, now, front);
      hide Inv, Step, HasPassed, IsPending;
      assert schedule == front + [turn];
      EventsOfTurn(c, s, turn, e);
      if e in s.db.journal || IsPending(s, e) {
        EveryEventWasChecked(c, now, front, e);
        CheckStaysPassed(c, now, front, turn, e);
      } else {
        CheckedNow(c, now, front, turn, e);
      }
    }
  }

  lemma CheckedNow(c: Config, now: Time, front: seq<Turn>, turn: Turn, e: Event)
    requires var s := Exec(c, InitialSys(now), front);
             && turn == CheckFence(e.owner, e.phase, e.kind) && s.db.row.Some? && s.db.row.value.owner == e.owner
             && s.db.row.value.fence == e.fence && s.db.row.value.expiresAt > s.db.now
    ensures HasPassed(c, now, front + [turn], e)
  {
    hide Exec;
    assert (front + [turn])[..|front|] == front;
    assert PassedCheck(c, now, front + [turn], |front|, e);
  }

  /** A fence check by a guard that is alive, has not lost the lease and has nothing to write makes the
      event pending exactly if the row is its own, with its token, and unexpired, and otherwise the
      guard has lost the lease for good; any other guard checks nothing. The database stays as it is. */
  lemma FenceCheckExactly(c: Config, s: Sys, o: Owner, phase: string, kind: EventKind)
    requires o in s.guards && s.guards[o].Holding?
    ensures var s', g := Step(c, s, CheckFence(o, phase, kind)), s.guards[o];
            && s'.db == s.db && o in s'.guards && s'.guards[o].Holding?
            && (!g.alive || g.lost || g.pending.Some? ==> s' == s)
            && (g.alive && !g.lost && g.pending.None? ==>
                  if s.db.row.Some? && s.db.row.value.owner == o && s.db.row.value.fence == g.fence
                     && s.db.row.value.expiresAt > s.db.now
                  then s'.guards[o] == g.(pending := Some(Event(o, g.fence, phase, kind)))
                  else s'.guards[o] == g.(lost := true))
  {
  }

  ghost predicate Deletes(c: Config, s: Sys, turn: Turn) {
    s.db.row.Some? && Step(c, s, turn).db.row.None?
  }

  /** Only a release that is executed deletes the row. */
  lemma OnlyReleasesDelete(c: Config, s: Sys, turn: Turn)
    requires Inv(s) && Deletes(c, s, turn)
    ensures turn.Release? && turn.executed
  {
    if Acquires(s, turn) {
      AcquireIssues(c, s, turn, []);
    } else {
      OtherTurnsIssueNothing(c, s, turn);
    }
  }

  /** Along every run in which no release has deleted the row, each acquire issues a token greater
      than all before it, and the token identifies its holder. */
  lemma {:induction false} WithoutDeletionTokensCount(c: Config, now: Time, schedule: seq<Turn>)
    requires forall k :: 0 <= k < |schedule| ==> !Deletes(c, Exec(c, InitialSys(now), schedule[..k]), schedule[k])
    ensures FreshStarts(c, now, schedule) <= 1
    ensures TokensCount(Exec(c, InitialSys(now), schedule), Issued(c, now, schedule))
    ensures Exec(c, InitialSys(now), schedule).db.row.None? ==> Issued(c, now, schedule) == []
  {
    if schedule != [] {
      var n := |schedule| - 1;
      var front, turn := schedule[..n], schedule[n];
      assert forall k :: 0 <= k < n ==> front[..k] == schedule[..k] && front[k] == schedule[k];
      WithoutDeletionTokensCount(c, now, front);
      ReachableInv(c, now, front);
      TokensOfRun(c, now, front);
      hide Inv, Exec, Step, TokensCount;
      if !Acquires(Exec(c, InitialSys(now), front), turn) {
        OtherTurnsIssueNothing(c, Exec(c, InitialSys(now), front), turn);
      }
    }
    TokensOfRun(c, now, schedule);
  }

  // ---- Prompt heartbeats ----

  /** How long, at most, an answer takes to come back, and a woken task to have its statement take
      effect. */
  datatype Latency = Latency(reply: nat, effect: nat)

  ghost predicate Prompt(c: Config, l: Latency) {
    l.reply + c.heartbeat + l.effect < c.ttl
  }

  /** Time does not pass beyond what the latencies allow the heartbeat task of `o`. */
  ghost predicate InTime(c: Config, l: Latency, now: Time, beat: Beat) {
    match beat
    case Replying(since, _) => now <= since + l.reply
    case Sleeping(since) => now <= since + c.heartbeat
    case InFlight(wake) => now <= wake + l.effect
    case Stopped => true
  }

  /** A turn in a run where the guard of `o` is kept and its heartbeats work and are in time. */
  ghost predicate TimelyTurn(c: Config, l: Latency, s: Sys, turn: Turn, o: Owner)
    requires o in s.guards && s.guards[o].Holding?
  {
    match turn
    case Tick(ms) => InTime(c, l, s.db.now + ms, s.guards[o].beat)
    case StopHeartbeat(p) => p != o
    case Release(p, _) => p != o
    case Drop(p) => p != o
    case Heartbeat(p, executed, _) => p == o ==> executed
    case _ => true
  }

  ghost predicate Timely(c: Config, l: Latency, s: Sys, schedule: seq<Turn>, o: Owner)
    requires o in s.guards && s.guards[o].Holding?
    decreases |schedule|
  {
    schedule == [] ||
    (TimelyTurn(c, l, s, schedule[0], o)
     && var s' := Step(c, s, schedule[0]);
        o in s'.guards && s'.guards[o].Holding? && Timely(c, l, s', schedule[1..], o))
  }

  /** The lease of `o` outlasts the time its heartbeat task may still take. */
  ghost predicate KeptInv(c: Config, l: Latency, s: Sys, o: Owner) {
    && o in s.guards && s.guards[o].Holding? && Matches(s.db, o, s.guards[o].fence)
    && var g, expires := s.guards[o], s.db.row.value.expiresAt;
       && InTime(c, l, s.db.now, g.beat)
       && match g.beat
          case Replying(since, held) => held && since + c.ttl <= expires
          case Sleeping(since) => since - l.reply + c.ttl <= expires
          case InFlight(wake) => wake - c.heartbeat - l.reply + c.ttl <= expires
          case Stopped => false
  }

  lemma KeptStep(c: Config, l: Latency, s: Sys, turn: Turn, o: Owner)
    requires Inv(s) && Prompt(c, l) && KeptInv(c, l, s, o) && TimelyTurn(c, l, s, turn, o)
    ensures KeptInv(c, l, Step(c, s, turn), o)
    ensures turn.TryAcquire? ==> Step(c, s, turn).db.row == s.db.row
  {
    hide StepHolding;
    if !turn.Tick? && turn.o in s.guards {
      assert GuardInv(s, turn.o);
      if s.guards[turn.o].Holding? {
        if turn.o == o {
          KeptOwnStep(c, l, s, turn, o);
        } else {
          HoldingStep(c, s, turn.o, turn);
          OthersKeepRow(c, s, turn, o);
        }
      }
    }
  }

  lemma KeptOwnStep(c: Config, l: Latency, s: Sys, turn: Turn, o: Owner)
    requires Prompt(c, l) && KeptInv(c, l, s, o) && TimelyTurn(c, l, s, turn, o)
    requires !turn.Tick? && turn.o == o
    ensures KeptInv(c, l, StepHolding(c, s, o, s.guards[o], turn), o)
  {
  }

  lemma OthersKeepRow(c: Config, s: Sys, turn: Turn, o: Owner)
    requires !turn.Tick? && turn.o != o && turn.o in s.guards && s.guards[turn.o].Holding?
    requires Owns(s, o)
    ensures var s' := StepHolding(c, s, turn.o, s.guards[turn.o], turn); s'.db.row == s.db.row && s'.db.now == s.db.now
  {
  }

  /** The state right after a successful and answered acquire. */
  lemma AcquireStartsKept(c: Config, l: Latency, s: Sys, o: Owner)
    requires Inv(s) && o in s.guards && s.guards[o].Acquiring? && MayTake(s.db, o)
    ensures KeptInv(c, l, Step(c, s, TryAcquire(o, true)), o)
  {
  }

  lemma {:induction false} KeptRun(c: Config, l: Latency, s: Sys, schedule: seq<Turn>, o: Owner)
    requires Inv(s) && Prompt(c, l) && KeptInv(c, l, s, o) && Timely(c, l, s, schedule, o)
    ensures var s' := Exec(c, s, schedule); Inv(s') && KeptInv(c, l, s', o)
    decreases |schedule|
  {
    hide Inv, Step, KeptInv;
    if schedule != [] {
      StepKeepsInv(c, s, schedule[0]);
      KeptStep(c, l, s, schedule[0], o);
      KeptRun(c, l, Step(c, s, schedule[0]), schedule[1..], o);
      assert schedule == schedule[..1] + schedule[1..];
      ExecConcat(c, s, schedule[..1], schedule[1..]);
      assert schedule[..1][..0] == [] && Exec(c, s, []) == s;
    }
  }

  /** If answers and statements are prompt enough for the configured interval, the lease is never
      expired from the acquire until the guard gives it up: every fence check passes, and every
      attempt of another process to acquire fails. */
  lemma PromptHeartbeatsKeepTheLease(c: Config, l: Latency, now: Time, before: seq<Turn>, o: Owner, after: seq<Turn>,
                                     p: Owner)
    requires Prompt(c, l)
    requires var s := Exec(c, InitialSys(now), before); o in s.guards && s.guards[o].Acquiring? && MayTake(s.db, o)
    requires var s1 := Step(c, Exec(c, InitialSys(now), before), TryAcquire(o, true));
             o in s1.guards && s1.guards[o].Holding? && Timely(c, l, s1, after, o)
    ensures var s1 := Step(c, Exec(c, InitialSys(now), before), TryAcquire(o, true));
            var s' := Exec(c, s1, after);
            && o in s'.guards && s'.guards[o].Holding? && HeldStatement(s'.db, o, s'.guards[o].fence)
            && (p != o ==> !MayTake(s'.db, p))
  {
    hide Inv, Step, Timely, KeptInv;
    var s := Exec(c, InitialSys(now), before);
    ReachableInv(c, now, before);
    AcquireStartsKept(c, l, s, o);
    var s1 := Step(c, s, TryAcquire(o, true));
    StepKeepsInv(c, s, TryAcquire(o, true));
    KeptRun(c, l, s1, after, o);
    KeptFacts(c, l, Exec(c, s1, after), o, p);
  }

  lemma KeptFacts(c: Config, l: Latency, s: Sys, o: Owner, p: Owner)
    requires Prompt(c, l) && KeptInv(c, l, s, o)
    ensures o in s.guards && s.guards[o].Holding? && HeldStatement(s.db, o, s.guards[o].fence)
    ensures p != o ==> !MayTake(s.db, p)
  {
  }

  /** Every lease that is acquired and answered is held at the end of every timely run after it. */
  ghost predicate KeepsEveryLease(c: Config, l: Latency) {
    forall now: Time, before: seq<Turn>, o: Owner, after: seq<Turn> ::
      IsTimelyRun(c, l, now, before, o, after) ==> EndsHeld(c, now, before, o, after)
  }

  ghost predicate IsTimelyRun(c: Config, l: Latency, now: Time, before: seq<Turn>, o: Owner, after: seq<Turn>) {
    var s := Exec(c, InitialSys(now), before);
    && o in s.guards && s.guards[o].Acquiring? && MayTake(s.db, o)
    && var s1 := Step(c, s, TryAcquire(o, true));
       o in s1.guards && s1.guards[o].Holding? && Timely(c, l, s1, after, o)
  }

  ghost predicate EndsHeld(c: Config, now: Time, before: seq<Turn>, o: Owner, after: seq<Turn>) {
    var s := Exec(c, Step(c, Exec(c, InitialSys(now), before), TryAcquire(o, true)), after);
    o in s.guards && s.guards[o].Holding? && HeldStatement(s.db, o, s.guards[o].fence)
  }

  /** The latencies are used up to the last: the answer comes late, the task sleeps its full interval,
      and its statement has not taken effect yet when a second process tries to acquire. */
  function SlowSchedule(c: Config, l: Latency): (r: seq<Turn>)
    ensures |r| == 7
  {
    [Tick(l.reply), Reply(0), Begin(1), Tick(c.heartbeat), WakeUp(0), Tick(l.effect), TryAcquire(1, true)]
  }

  /** A lease lasts exactly if reply time, interval and effect time add up to less than the lease
      time: with any other latencies there is a timely run in which a second process takes it. */
  lemma PromptIsExactlyWhatKeepsLeases(c: Config, l: Latency)
    ensures Prompt(c, l) <==> KeepsEveryLease(c, l)
  {
    hide Exec, Step, Timely;
    if Prompt(c, l) {
      forall now: Time, before: seq<Turn>, o: Owner, after: seq<Turn> | IsTimelyRun(c, l, now, before, o, after)
        ensures EndsHeld(c, now, before, o, after)
      {
        PromptHeartbeatsKeepTheLease(c, l, now, before, o, after, o);
      }
    } else {
      SlowRunIsTimely(c, l, 0);
      SlowRunLoses(c, l, 0);
    }
  }

  /** The configuration check is exactly right: an interval below the lease time leaves room for
      some latency, and any other interval for none. */
  lemma IntervalMustBeBelowTtl(c: Config)
    ensures (exists l :: KeepsEveryLease(c, l)) <==> c.heartbeat < c.ttl
  {
    hide KeepsEveryLease;
    if c.heartbeat < c.ttl {
      PromptIsExactlyWhatKeepsLeases(c, Latency(0, 0));
    }
    if l :| KeepsEveryLease(c, l) {
      PromptIsExactlyWhatKeepsLeases(c, l);
    }
  }

  function HeldFrom(c: Config, now: Time, at: Time, guards: map<Owner, Guard>): Sys {
    Sys(Db(at, Some(Lease(0, 1, now + c.ttl)), []), guards, multiset{})
  }

  function SlowHolder(beat: Beat): Guard {
    Holding(1, false, None, beat, true)
  }

  lemma FirstHolder(c: Config, now: Time)
    ensures var s := Exec(c, InitialSys(now), [Begin(0)]);
            && 0 in s.guards && s.guards[0].Acquiring? && MayTake(s.db, 0)
            && Step(c, s, TryAcquire(0, true)) == HeldFrom(c, now, now, map[0 := SlowHolder(Replying(now, true))])
  {
    assert [Begin(0)][..0] == [] && Exec(c, InitialSys(now), []) == InitialSys(now);
    var s := Step(c, InitialSys(now), Begin(0));
    assert s.guards == map[0 := Acquiring];
  }

  /** The states of the slow run before its last turn. */
  function SlowState(c: Config, l: Latency, now: Time, k: nat): Sys {
    var asleep, woken := now + l.reply, now + l.reply + c.heartbeat;
    if k == 0 then HeldFrom(c, now, now, map[0 := SlowHolder(Replying(now, true))])
    else if k == 1 then HeldFrom(c, now, asleep, map[0 := SlowHolder(Replying(now, true))])
    else if k == 2 then HeldFrom(c, now, asleep, map[0 := SlowHolder(Sleeping(asleep))])
    else if k == 3 then HeldFrom(c, now, asleep, map[0 := SlowHolder(Sleeping(asleep)), 1 := Acquiring])
    else if k == 4 then HeldFrom(c, now, woken, map[0 := SlowHolder(Sleeping(asleep)), 1 := Acquiring])
    else if k == 5 then HeldFrom(c, now, woken, map[0 := SlowHolder(InFlight(woken)), 1 := Acquiring])
    else HeldFrom(c, now, woken + l.effect, map[0 := SlowHolder(InFlight(woken)), 1 := Acquiring])
  }

  lemma SlowStep(c: Config, l: Latency, now: Time, k: nat)
    requires k < 6
    ensures Step(c, SlowState(c, l, now, k), SlowSchedule(c, l)[k]) == SlowState(c, l, now, k + 1)
    ensures TimelyTurn(c, l, SlowState(c, l, now, k), SlowSchedule(c, l)[k], 0)
  {
  }

  lemma SlowLastStep(c: Config, l: Latency, now: Time)
    requires !Prompt(c, l)
    ensures var s := Step(c, SlowState(c, l, now, 6), SlowSchedule(c, l)[6]);
            0 in s.guards && s.guards[0].Holding? && !Matches(s.db, 0, s.guards[0].fence)
    ensures TimelyTurn(c, l, SlowState(c, l, now, 6), SlowSchedule(c, l)[6], 0)
  {
  }

  lemma {:induction false} SlowRunFrom(c: Config, l: Latency, now: Time, k: nat)
    requires !Prompt(c, l) && k <= 6
    ensures var s, rest := SlowState(c, l, now, k), SlowSchedule(c, l)[k..];
            && Timely(c, l, s, rest, 0)
            && var end := Exec(c, s, rest);
               0 in end.guards && end.guards[0].Holding? && !Matches(end.db, 0, end.guards[0].fence)
    decreases 6 - k
  {
    var all := SlowSchedule(c, l);
    var s := SlowState(c, l, now, k);
    hide Step, Exec, SlowSchedule, TimelyTurn;
    assert all[k..] == [all[k]] + all[k + 1..];
    ExecOne(c, s, all[k]);
    ExecConcat(c, s, [all[k]], all[k + 1..]);
    if k == 6 {
      SlowLastStep(c, l, now);
      assert all[7..] == [] && all[6..] == [all[6]];
    } else {
      SlowStep(c, l, now, k);
      SlowRunFrom(c, l, now, k + 1);
    }
  }

  lemma ExecOne(c: Config, s: Sys, turn: Turn)
    ensures Exec(c, s, [turn]) == Step(c, s, turn)
  {
    assert [turn][..0] == [] && Exec(c, s, []) == s;
  }

  lemma SlowRunIsTimely(c: Config, l: Latency, now: Time)
    requires !Prompt(c, l)
    ensures IsTimelyRun(c, l, now, [Begin(0)], 0, SlowSchedule(c, l))
  {
    FirstHolder(c, now);
    SlowRunFrom(c, l, now, 0);
    hide Step, Exec, Timely, SlowSchedule;
    assert SlowSchedule(c, l)[0..] == SlowSchedule(c, l);
  }

  lemma SlowRunLoses(c: Config, l: Latency, now: Time)
    requires !Prompt(c, l)
    ensures !EndsHeld(c, now, [Begin(0)], 0, SlowSchedule(c, l))
  {
    FirstHolder(c, now);
    SlowRunFrom(c, l, now, 0);
    hide Step, Exec, Timely, SlowSchedule;
    assert SlowSchedule(c, l)[0..] == SlowSchedule(c, l);
  }

  // ---- What the journal remembers of a phase ----

  /** Work that succeeds and leaves the lease held. */
  ghost predicate Succeeds(work: Work, owner: Owner, fence: nat) {
    forall db {:trigger work(db)} :: HeldStatement(db, owner, fence) ==>
        work(db).1 && HeldStatement(work(db).0, owner, fence)
  }

  /** `n` runs of the same phase one after the other, each asked to skip a completed phase: the
      database afterwards, and which of the runs executed the work. */
  function RunPhaseTimes(db: Db, owner: Owner, fence: nat, phase: string, work: Work, n: nat): (Db, seq<bool>) {
    if n == 0 then (db, [])
    else
      var (db1, worked) := RunPhaseTimes(db, owner, fence, phase, work, n - 1);
      var (db2, _, _, again) := RunPhaseEffect(db1, false, owner, fence, phase, true, work);
      (db2, worked + [again])
  }

  lemma OneMoreRun(db: Db, owner: Owner, fence: nat, phase: string, work: Work)
    requires ValidPhaseName(phase) && Succeeds(work, owner, fence) && HeldStatement(db, owner, fence)
    ensures var (db', lost, outcome, worked) := RunPhaseEffect(db, false, owner, fence, phase, true, work);
            && !lost && outcome.Done? && HeldStatement(db', owner, fence)
            && (worked <==> LatestEvent(db.journal, phase) != Some(Completed))
            && LatestEvent(db'.journal, phase) == Some(if worked then Completed else Skipped)
  {
  }

  /** Skipping a completed phase records the event `skipped`, and only a latest event `completed`
      makes a run skip. So a phase that completed is executed again by every second run: of the
      runs of a phase that has not just completed, exactly those with an even index execute it. */
  lemma {:induction false} CompletedPhaseRunsAgain(db: Db, owner: Owner, fence: nat, phase: string, work: Work, n: nat)
    requires ValidPhaseName(phase) && Succeeds(work, owner, fence) && HeldStatement(db, owner, fence)
    requires LatestEvent(db.journal, phase) != Some(Completed)
    ensures var (db', worked) := RunPhaseTimes(db, owner, fence, phase, work, n);
            && HeldStatement(db', owner, fence) && |worked| == n
            && (forall k :: 0 <= k < n ==> (worked[k] <==> k % 2 == 0))
            && (LatestEvent(db'.journal, phase) == Some(Completed) <==> n % 2 == 1)
  {
    hide RunPhaseEffect, LatestEvent, HeldStatement, ValidPhaseName, Succeeds;
    if n > 0 {
      CompletedPhaseRunsAgain(db, owner, fence, phase, work, n - 1);
      OneMoreRun(RunPhaseTimes(db, owner, fence, phase, work, n - 1).0, owner, fence, phase, work);
    }
  }
}

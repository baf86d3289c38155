/** Each call of the registry, taking its steps in the machine without others in between, has the effect
    that the contract of its method states. The machine has no keywords. */
module PinnedSessionCalls {
  import opened Text
  import opened PinnedSessions
  import opened PinnedSessionSafety
  import opened PinnedSessionExpiry

  /** What the machine has for the fields of the registry. */
  function ViewOf(w: World): Registry {
    Registry(map session | session in w.registered && session in w.entries :: w.entries[session], w.nextId, w.closed)
  }

  lemma OpenRunsAlone(w: World, i: nat, at: nat)
    requires EntriesInv(w) && i < |w.tasks| && w.tasks[i].OpenCalled? && w.now <= at
    ensures var w', ttl := RunAlone(w, i, at, 4), w.tasks[i].ttl;
            && ViewOf(w') == OpenEffect(ViewOf(w), ttl, at)
            && w'.tasks == w.tasks[i := Returned] + [Expiring(Alarm(w.nextId, 0, at + ttl), Sleeping)]
  {
    var turn, id, ttl := Turn(i, at), w.nextId, w.tasks[i].ttl;
    var w2 := Step(Step(w, turn), turn);
    assert w2 == w.(now := at, nextId := id + 1, tasks := w.tasks[i := OpenTimed(id, ttl, at)]);
    var w3 := Step(w2, turn);
    assert w3 == w2.(entries := w.entries[id := NewEntry(ttl, at)], registered := w.registered + {id},
                     tasks := w.tasks[i := OpenInserted(id)]);
    assert RunAlone(w, i, at, 4) == RunAlone(w2, i, at, 2) == Step(w3, turn);
  }

  lemma TouchRunsAlone(w: World, i: nat, at: nat)
    requires EntriesInv(w) && i < |w.tasks| && w.tasks[i].TouchCalled? && w.now <= at
    ensures var w', id := RunAlone(w, i, at, 7), w.tasks[i].session;
            && ViewOf(w') == TouchEffect(ViewOf(w), id, None, at)
            && w'.tasks == w.tasks[i := Returned] + if id !in w.registered then [] else
                 [Expiring(Alarm(id, w.entries[id].generation + 1, at + w.entries[id].ttl), Sleeping)]
  {
    hide Step, RunAlone;
    var id := w.tasks[i].session;
    if id in w.registered {
      var w3 := FirstOfTouch(w, i, at);
      RestOfTouch(w3, i, at);
      ViewWithEntry(w, RunAlone(w, i, at, 7), id, Touched(w.entries[id], None, at));
      hide *;
      assert w3.tasks[i := Returned] == w.tasks[i := Returned];
    } else {
      MissedTouchReturns(w, i, at);
      assert w.tasks[i := Returned] + [] == w.tasks[i := Returned];
    }
  }

  lemma MissedTouchReturns(w: World, i: nat, at: nat)
    requires i < |w.tasks| && w.tasks[i].TouchCalled? && w.now <= at && w.tasks[i].session !in w.registered
    ensures RunAlone(w, i, at, 7) == w.(now := at, tasks := w.tasks[i := Returned])
  {
    var w1 := Step(w, Turn(i, at));
    assert w1 == w.(now := at, tasks := w.tasks[i := Returned]);
    ReturnedStays(w1, i, at, 6);
  }

  lemma ViewWithEntry(w: World, w': World, id: nat, entry: Entry)
    requires id in w.registered && w'.registered == w.registered && w'.entries == w.entries[id := entry]
    requires w'.nextId == w.nextId && w'.closed == w.closed
    ensures ViewOf(w') == ViewOf(w).(entries := ViewOf(w).entries[id := entry])
  {
  }

  lemma FirstOfTouch(w: World, i: nat, at: nat) returns (w3: World)
    requires EntriesInv(w) && i < |w.tasks| && w.tasks[i].TouchCalled? && w.now <= at
    requires w.tasks[i].session in w.registered
    ensures var id := w.tasks[i].session;
            w3 == w.(now := at, entries := w.entries[id := w.entries[id].(lastUsed := at)],
                     tasks := w.tasks[i := TouchUsed(id, at)])
    ensures RunAlone(w, i, at, 7) == RunAlone(w3, i, at, 4)
  {
    var turn := Turn(i, at);
    w3 := Step(Step(Step(w, turn), turn), turn);
  }

  lemma RestOfTouch(w: World, i: nat, at: nat)
    requires i < |w.tasks| && w.tasks[i].TouchUsed? && w.tasks[i].at == at == w.now && w.tasks[i].session in w.entries
    ensures var id := w.tasks[i].session;
            var entry := w.entries[id].(expiresAt := at + w.entries[id].ttl, generation := w.entries[id].generation
                + 1);
            RunAlone(w, i, at, 4)
            == w.(entries := w.entries[id := entry], tasks := w.tasks[i := Returned]
                + [Expiring(Alarm(id, entry.generation, at + entry.ttl), Sleeping)])
  {
    var turn, id := Turn(i, at), w.tasks[i].session;
    var entry := w.entries[id].(expiresAt := at + w.entries[id].ttl, generation := w.entries[id].generation + 1);
    var w3 := Step(Step(Step(w, turn), turn), turn);
    assert w3 == w.(entries := w.entries[id := entry], tasks := w.tasks[i := TouchRead(id, entry.generation)]);
    assert RunAlone(w, i, at, 4) == RunAlone(w3, i, at, 1) == Step(w3, turn);
  }

  lemma CloseRunsAlone(w: World, i: nat, at: nat)
    requires EntriesInv(w) && i < |w.tasks| && w.tasks[i].CloseCalled? && w.now <= at
    ensures var w' := RunAlone(w, i, at, 2);
            ViewOf(w') == CloseEffect(ViewOf(w), w.tasks[i].session) && w'.tasks == w.tasks[i := Returned]
  {
    var turn, id := Turn(i, at), w.tasks[i].session;
    var w1 := Step(w, turn);
    assert RunAlone(w, i, at, 2) == Step(w1, turn);
  }

  lemma ExpiryRunsAlone(w: World, i: nat, alarm: Alarm, at: nat)
    requires EntriesInv(w) && i < |w.tasks| && w.tasks[i] == Expiring(alarm, Sleeping) && TaskOk(w, w.tasks[i])
    requires w.now <= at && alarm.due <= at
    ensures var w' := RunAlone(w, i, at, 6);
            ViewOf(w') == ExpireEffect(ViewOf(w), alarm, at) && w'.tasks == w.tasks[i := Returned]
  {
    var turn, id := Turn(i, at), alarm.session;
    var w1 := Step(w, turn);
    if id !in w.registered {
      ReturnedStays(w1, i, at, 5);
    } else if w.entries[id].generation != alarm.generation {
      ReturnedStays(Step(w1, turn), i, at, 4);
      assert RunAlone(w, i, at, 6) == RunAlone(w1, i, at, 5) == RunAlone(Step(w1, turn), i, at, 4);
    } else {
      var w3 := Step(Step(w1, turn), turn);
      assert w3 == w.(now := at, tasks := w.tasks[i := Expiring(alarm, Timed(at))]);
      assert RunAlone(w, i, at, 6) == RunAlone(w3, i, at, 3);
      RestOfExpiry(w3, i, alarm, at);
    }
  }

  lemma RestOfExpiry(w: World, i: nat, alarm: Alarm, at: nat)
    requires EntriesInv(w) && i < |w.tasks| && w.tasks[i] == Expiring(alarm, Timed(at)) && w.now == at
    requires alarm.session in w.registered && w.entries[alarm.session].generation == alarm.generation
    ensures var w' := RunAlone(w, i, at, 3);
            ViewOf(w') == ExpireEffect(ViewOf(w), alarm, at) && w'.tasks == w.tasks[i := Returned]
  {
    var turn, id := Turn(i, at), alarm.session;
    var w1 := Step(w, turn);
    if at < w.entries[id].expiresAt {
      ReturnedStays(w1, i, at, 2);
    } else {
      var w2 := Step(w1, turn);
      assert w2 == w.(registered := w.registered - {id}, tasks := w.tasks[i := TakenOut(id)]);
      assert RunAlone(w, i, at, 3) == RunAlone(w1, i, at, 2) == RunAlone(w2, i, at, 1) == Step(w2, turn);
    }
  }
}

/** The circuit breaker of the tool calls, src/server.rs. Instants are counted in nanoseconds. */
module CircuitBreaker {
  import opened Text

  const U32_MAX: nat := 0xFFFF_FFFF
  const NANOS_PER_MILLI: nat := 1_000_000

  datatype Config = Config(enabled: bool, failureThreshold: nat, cooldown: nat) {
    /** What `from_env` makes of the settings. */
    predicate Valid() {
      1 <= failureThreshold <= U32_MAX && cooldown >= 1
    }
  }

  datatype Outcome = Success | RetryableFailure | NonRetryableFailure

  datatype CircuitState = CircuitState(failures: nat, openUntil: Option<nat>)

  const CLOSED: CircuitState := CircuitState(0, None)

  function GroupKey(tool: string): string {
    if tool in {"query_sql", "query_tuples", "render_sql", "describe_sql", "admin_sql", "query_job_start",
        "export_job_start"}
    then "sql_surface" else tool
  }

  /** The tools that run SQL share one circuit; every other tool has its own, but for one that would
      be called like that circuit. */
  lemma WhoSharesACircuit(a: string, b: string)
    ensures var shared := {"query_sql", "query_tuples", "render_sql", "describe_sql", "admin_sql", "query_job_start",
                           "export_job_start", "sql_surface"};
            GroupKey(a) == GroupKey(b) <==> a == b || (a in shared && b in shared)
  {
  }

  // ---- The history a breaker has seen ----

  datatype Event = Asked(key: string, at: nat) | Ended(key: string, at: nat, outcome: Outcome)

  ghost predicate InOrder(history: seq<Event>) {
    forall i, j :: 0 <= i < j < |history| ==> history[i].at <= history[j].at
  }

  ghost predicate NotBefore(history: seq<Event>, now: nat) {
    forall i :: 0 <= i < |history| ==> history[i].at <= now
  }

  /** The calls of one group that have ended. */
  function EndedOf(history: seq<Event>, key: string): (r: seq<Event>)
    ensures forall i :: 0 <= i < |r| ==> r[i] in history && r[i].Ended?
  {
    if history == [] then []
    else
      var n := |history| - 1;
      EndedOf(history[..n], key) + if history[n].Ended? && history[n].key == key then [history[n]] else []
  }

  // ---- When the circuit opens ----

  /** Call `i` is the last of `failureThreshold` retryable failures in a row, counted since the last
      trip and, once that trip has cooled down, since then. */
  ghost predicate Trips(config: Config, ended: seq<Event>, i: nat)
    requires config.Valid() && i < |ended| && forall j :: 0 <= j < |ended| ==> ended[j].Ended?
    decreases i, 1
  {
    var first := i + 1 - config.failureThreshold;
    var trip := LastTrip(config, ended, i);
    && first >= 0
    && (forall j :: first <= j <= i ==> ended[j].outcome.RetryableFailure?)
    && trip < first
    && (trip >= 0 ==> !CooledDownBetween(ended[trip].at + config.cooldown, ended[first].at, ended[i].at))
  }

  predicate CooledDownBetween(openUntil: nat, earlier: nat, later: nat) {
    earlier < openUntil <= later
  }

  /** The last of the first `n` calls that tripped the circuit, -1 if none did. */
  ghost function LastTrip(config: Config, ended: seq<Event>, n: nat): (trip: int)
    requires config.Valid() && n <= |ended| && forall j :: 0 <= j < |ended| ==> ended[j].Ended?
    ensures -1 <= trip < n
    decreases n, 0
  {
    if n == 0 then -1 else if Trips(config, ended, n - 1) then n - 1 else LastTrip(config, ended, n - 1)
  }

  ghost function OpenUntil(config: Config, ended: seq<Event>, now: nat): Option<nat>
    requires config.Valid() && forall j :: 0 <= j < |ended| ==> ended[j].Ended?
  {
    var trip := LastTrip(config, ended, |ended|);
    if trip >= 0 && ended[trip].at + config.cooldown > now then Some(ended[trip].at + config.cooldown) else None
  }

  /** The answer to a query: the time left until the last trip has cooled down. */
  ghost function RetryAfterMs(config: Config, history: seq<Event>, key: string, now: nat): Option<nat>
    requires config.Valid()
  {
    if !config.enabled then None
    else
      match OpenUntil(config, EndedOf(history, key), now)
      case Some(until) => Some((until - now) / NANOS_PER_MILLI)
      case None => None
  }

  /** It is the number of whole milliseconds until the circuit is no longer open. */
  lemma RetryAfterIsWhatIsLeft(config: Config, history: seq<Event>, key: string, now: nat)
    requires config.Valid()
    ensures var until, ms := OpenUntil(config, EndedOf(history, key), now), RetryAfterMs(config, history, key, now);
            && (ms.Some? <==> config.enabled && until.Some?)
            && (ms.Some? ==> until.value > now && now + 1_000_000 * ms.value <= until.value
                             < now + 1_000_000 * (ms.value + 1))
  {
    hide EndedOf, LastTrip;
  }

  // ---- The breaker ----

  /** What every call does first with the state it finds. */
  function Expired(state: CircuitState, now: nat): CircuitState {
    if state.openUntil.Some? && state.openUntil.value <= now then CLOSED else state
  }

  function SaturatingIncrement(n: nat): nat {
    if n >= U32_MAX then U32_MAX else n + 1
  }

  function Counted(config: Config, state: CircuitState, now: nat, outcome: Outcome): CircuitState {
    if !outcome.RetryableFailure? then state.(failures := 0)
    else if SaturatingIncrement(state.failures) >= config.failureThreshold
        then CircuitState(0, Some(now + config.cooldown))
    else state.(failures := SaturatingIncrement(state.failures))
  }

  function StateOf(states: map<string, CircuitState>, key: string): CircuitState {
    if key in states then states[key] else CLOSED
  }

  /** The state of one group after its calls, if nobody had asked in between. */
  function After(config: Config, ended: seq<Event>): CircuitState
    requires forall j :: 0 <= j < |ended| ==> ended[j].Ended?
  {
    if ended == [] then CLOSED
    else
      var n := |ended| - 1;
      Counted(config, Expired(After(config, ended[..n]), ended[n].at), ended[n].at, ended[n].outcome)
  }

  /** From the end of the history on, the states cannot be told from those that the ended calls
      alone lead to. */
  ghost predicate Tracks(config: Config, states: map<string, CircuitState>, history: seq<Event>) {
    forall key, now :: NotBefore(history, now) ==>
      Expired(StateOf(states, key), now) == Expired(After(config, EndedOf(history, key)), now)
  }

  class CircuitBreaker {
    const config: Config
    var states: map<string, CircuitState>
    ghost var history: seq<Event>

    ghost predicate Valid()
      reads this
    {
      config.Valid() && InOrder(history) && (config.enabled ==> Tracks(config, states, history))
    }

    constructor (config: Config)
      requires config.Valid()
      ensures Valid() && history == [] && this.config == config
    {
      this.config := config;
      states, history := map[], [];
    }

    method CircuitOpenRetryAfterMs(tool: string, now: nat) returns (r: Option<nat>)
      requires Valid() && NotBefore(history, now)
      modifies this
      ensures Valid() && history == old(history) + [Asked(GroupKey(tool), now)]
      ensures r == RetryAfterMs(config, old(history), GroupKey(tool), now)
    {
      hide GroupKey, After, EndedOf, OpenUntil, Tracks, InOrder, NotBefore;
      ghost var before := states;
      var key := GroupKey(tool);
      InOrderAfter(history, Asked(key, now));
      history := history + [Asked(key, now)];
      if !config.enabled {
        return None;
      }
      StateIsOpenAfterTrip(config, before, old(history), key, now);
      r := None;
      if key in states {
        var state := states[key];
        if state.openUntil.Some? {
          if state.openUntil.value > now {
            r := Some((state.openUntil.value - now) / NANOS_PER_MILLI);
          } else {
            states := states[key := CircuitState(0, None)];
          }
        }
      }
      AskingKeepsTrack(config, before, states, old(history), key, now);
    }

    method RecordToolOutcome(tool: string, outcome: Outcome, now: nat)
      requires Valid() && NotBefore(history, now)
      modifies this
      ensures Valid() && history == old(history) + [Ended(GroupKey(tool), now, outcome)]
    {
      hide GroupKey, After, EndedOf, Tracks, InOrder, NotBefore;
      var key := GroupKey(tool);
      InOrderAfter(history, Ended(key, now, outcome));
      history := history + [Ended(key, now, outcome)];
      if !config.enabled {
        return;
      }
      var state := StateOf(states, key);
      if state.openUntil.Some? && state.openUntil.value <= now {
        state := CircuitState(0, None);
      }
      match outcome {
        case Success | NonRetryableFailure =>
          state := state.(failures := 0);
        case RetryableFailure =>
          state := state.(failures := SaturatingIncrement(state.failures));
          if state.failures >= config.failureThreshold {
            state := CircuitState(0, Some(now + config.cooldown));
          }
      }
      EndingKeepsTrack(config, states, old(history), key, now, outcome, state);
      states := states[key := state];
    }
  }

  lemma InOrderAfter(history: seq<Event>, event: Event)
    requires InOrder(history) && NotBefore(history, event.at)
    ensures InOrder(history + [event])
  {
  }

  lemma EndedOfAfter(history: seq<Event>, event: Event, key: string)
    ensures EndedOf(history + [event], key)
         == if event.Ended? && event.key == key then EndedOf(history, key) + [event] else EndedOf(history, key)
  {
  }

  lemma NotBeforeAfter(history: seq<Event>, event: Event, now: nat)
    requires NotBefore(history + [event], now)
    ensures NotBefore(history, now) && event.at <= now
  {
    assert forall i :: 0 <= i < |history| ==> (history + [event])[i] == history[i];
    assert (history + [event])[|history|] == event;
  }

  /** Asking leaves every later answer as it was. */
  lemma AskingKeepsTrack(config: Config, before: map<string, CircuitState>, states: map<string, CircuitState>,
                         history: seq<Event>, key: string, now: nat)
    requires Tracks(config, before, history)
    requires states == before || states == before[key := Expired(StateOf(before, key), now)]
    ensures Tracks(config, states, history + [Asked(key, now)])
  {
    hide After, NotBefore;
    forall k, later | NotBefore(history + [Asked(key, now)], later)
      ensures Expired(StateOf(states, k), later)
          == Expired(After(config, EndedOf(history + [Asked(key, now)], k)), later)
    {
      NotBeforeAfter(history, Asked(key, now), later);
      EndedOfAfter(history, Asked(key, now), k);
    }
  }

  lemma EndingKeepsTrack(config: Config, states: map<string, CircuitState>, history: seq<Event>,
                         key: string, now: nat, outcome: Outcome, state: CircuitState)
    requires config.Valid() && Tracks(config, states, history) && NotBefore(history, now)
    requires state == Counted(config, Expired(StateOf(states, key), now), now, outcome)
    ensures Tracks(config, states[key := state], history + [Ended(key, now, outcome)])
  {
    hide NotBefore, EndedOf, Counted;
    var event := Ended(key, now, outcome);
    forall k, later | NotBefore(history + [event], later)
      ensures Expired(StateOf(states[key := state], k), later)
          == Expired(After(config, EndedOf(history + [event], k)), later)
    {
      NotBeforeAfter(history, event, later);
      EndedOfAfter(history, event, k);
      if k == key {
        var ended := EndedOf(history, k);
        assert (ended + [event])[..|ended|] == ended;
      }
    }
  }

  // ---- The states and the trips ----

  predicate AllEnded(ended: seq<Event>) {
    forall j :: 0 <= j < |ended| ==> ended[j].Ended?
  }

  /** The last `run` of the first `n` calls are the retryable failures that still count at `now`. */
  ghost predicate IsRun(config: Config, ended: seq<Event>, n: nat, run: nat, now: nat)
    requires config.Valid() && n <= |ended| && AllEnded(ended)
  {
    var trip := LastTrip(config, ended, n);
    && run <= n && run < config.failureThreshold && trip < n - run
    && (forall j :: n - run <= j < n ==> ended[j].outcome.RetryableFailure?)
    && (trip >= 0 && run > 0 ==> !CooledDownBetween(ended[trip].at + config.cooldown, ended[n - run].at, now))
    && (run == n || !ended[n - run - 1].outcome.RetryableFailure? || trip == n - run - 1
        || (trip >= 0 && CooledDownBetween(ended[trip].at + config.cooldown, ended[n - run - 1].at, now)))
  }

  ghost predicate IsOpen(config: Config, ended: seq<Event>, n: nat, openUntil: Option<nat>, now: nat)
    requires config.Valid() && n <= |ended| && AllEnded(ended)
  {
    var trip := LastTrip(config, ended, n);
    openUntil == if trip >= 0 && ended[trip].at + config.cooldown > now then Some(ended[trip].at + config.cooldown)
        else None
  }

  lemma ExpiredIs(config: Config, ended: seq<Event>, n: nat, state: CircuitState, now: nat, later: nat)
    requires config.Valid() && n <= |ended| && AllEnded(ended) && now <= later
    requires n > 0 ==> ended[n - 1].at == now
    requires InOrder(ended)
    requires IsRun(config, ended, n, state.failures, now) && IsOpen(config, ended, n, state.openUntil, now)
    ensures IsRun(config, ended, n, Expired(state, later).failures, later)
    ensures IsOpen(config, ended, n, Expired(state, later).openUntil, later)
  {
    hide LastTrip;
  }

  /** The next call trips the circuit exactly if it makes the run long enough. */
  lemma TripsExactlyAtThreshold(config: Config, ended: seq<Event>, n: nat, run: nat)
    requires config.Valid() && n < |ended| && AllEnded(ended) && InOrder(ended)
    requires IsRun(config, ended, n, run, ended[n].at)
    ensures Trips(config, ended, n) <==> ended[n].outcome.RetryableFailure? && run + 1 >= config.failureThreshold
  {
  }

  lemma CountedIs(config: Config, ended: seq<Event>, n: nat, state: CircuitState)
    requires config.Valid() && n < |ended| && AllEnded(ended) && InOrder(ended)
    requires IsRun(config, ended, n, state.failures, ended[n].at)
        && IsOpen(config, ended, n, state.openUntil, ended[n].at)
    ensures var next := Counted(config, state, ended[n].at, ended[n].outcome);
            && IsRun(config, ended, n + 1, next.failures, ended[n].at)
            && IsOpen(config, ended, n + 1, next.openUntil, ended[n].at)
  {
    TripsExactlyAtThreshold(config, ended, n, state.failures);
    assert LastTrip(config, ended, n + 1) == if Trips(config, ended, n) then n else LastTrip(config, ended, n);
    hide LastTrip, Trips;
  }

  /** The state of a group says which of its calls tripped the circuit last and how many retryable
      failures count since; the count stays below the threshold. */
  lemma {:induction false} AfterIs(config: Config, ended: seq<Event>, n: nat, now: nat)
    requires config.Valid() && n <= |ended| && AllEnded(ended) && InOrder(ended)
    requires n > 0 ==> ended[n - 1].at <= now
    ensures IsRun(config, ended, n, Expired(After(config, ended[..n]), now).failures, now)
    ensures IsOpen(config, ended, n, Expired(After(config, ended[..n]), now).openUntil, now)
  {
    if n > 0 {
      var m := n - 1;
      assert ended[..n][..m] == ended[..m];
      AfterIs(config, ended, m, ended[m].at);
      CountedIs(config, ended, m, Expired(After(config, ended[..m]), ended[m].at));
      ExpiredIs(config, ended, n, After(config, ended[..n]), ended[m].at, now);
    }
  }

  lemma {:induction false} EndedOfIsInOrder(history: seq<Event>, key: string)
    requires InOrder(history)
    ensures InOrder(EndedOf(history, key))
  {
    if history != [] {
      var n := |history| - 1;
      EndedOfIsInOrder(history[..n], key);
      var front := EndedOf(history[..n], key);
      forall i | 0 <= i < |front| ensures front[i].at <= history[n].at {
        assert front[i] in history[..n];
      }
    }
  }

  /** A breaker that has tracked its history answers by the last trip. */
  lemma StateIsOpenAfterTrip(config: Config, states: map<string, CircuitState>, history: seq<Event>, key: string,
                             now: nat)
    requires config.Valid() && InOrder(history) && Tracks(config, states, history) && NotBefore(history, now)
    ensures Expired(StateOf(states, key), now).openUntil == OpenUntil(config, EndedOf(history, key), now)
    ensures Expired(StateOf(states, key), now).failures < config.failureThreshold
  {
    hide LastTrip, After, EndedOf;
    var ended := EndedOf(history, key);
    EndedOfIsInOrder(history, key);
    assert ended[..|ended|] == ended;
    AfterIs(config, ended, |ended|, now);
  }

  /** An outcome sets the stored state of its group to open exactly if it trips the circuit in the
      history of that group, which is said without any counter. */
  lemma OutcomeTripsExactly(config: Config, states: map<string, CircuitState>, history: seq<Event>, key: string,
                            now: nat, outcome: Outcome)
    requires config.Valid() && InOrder(history) && Tracks(config, states, history) && NotBefore(history, now)
    ensures var ended := EndedOf(history, key);
            Trips(config, ended + [Ended(key, now, outcome)], |ended|)
            <==> outcome.RetryableFailure?
                 && Counted(config, Expired(StateOf(states, key), now), now, outcome)
                    == CircuitState(0, Some(now + config.cooldown))
  {
    hide LastTrip, After, EndedOf, Trips;
    var ended, event := EndedOf(history, key), Ended(key, now, outcome);
    var all := ended + [event];
    EndedOfIsInOrder(history, key);
    EndedOfIsEarlier(history, key, now);
    assert all[..|ended|] == ended;
    AfterIs(config, all, |ended|, now);
    TripsExactlyAtThreshold(config, all, |ended|, Expired(StateOf(states, key), now).failures);
  }

  lemma {:induction false} EndedOfIsEarlier(history: seq<Event>, key: string, now: nat)
    requires NotBefore(history, now)
    ensures NotBefore(EndedOf(history, key), now)
  {
    if history != [] {
      EndedOfIsEarlier(history[..|history| - 1], key, now);
    }
  }

  /** Two breakers that have tracked the same history, but for questions and for calls of other groups,
      hold states that no later call can tell apart. */
  lemma StatesIgnoreQuestions(config: Config, states: map<string, CircuitState>, others: map<string, CircuitState>,
                              history: seq<Event>, event: Event, rest: seq<Event>, key: string, now: nat)
    requires event.Asked? || event.key != key
    requires Tracks(config, states, history + [event] + rest) && NotBefore(history + [event] + rest, now)
    requires Tracks(config, others, history + rest) && NotBefore(history + rest, now)
    ensures Expired(StateOf(states, key), now) == Expired(StateOf(others, key), now)
  {
    EndedOfWithout(history, event, rest, key);
  }

  /** Asking any number of times changes no later answer, and neither does another group. */
  lemma AnswersIgnoreQuestions(config: Config, history: seq<Event>, event: Event, rest: seq<Event>, key: string,
                               now: nat)
    requires config.Valid() && (event.Asked? || event.key != key)
    ensures RetryAfterMs(config, history + [event] + rest, key, now) == RetryAfterMs(config, history + rest, key, now)
  {
    EndedOfWithout(history, event, rest, key);
  }

  lemma {:induction false} EndedOfWithout(history: seq<Event>, event: Event, rest: seq<Event>, key: string)
    requires event.Asked? || event.key != key
    ensures EndedOf(history + [event] + rest, key) == EndedOf(history + rest, key)
  {
    if rest == [] {
      assert history + [event] + rest == history + [event] && history + rest == history;
      EndedOfAfter(history, event, key);
    } else {
      var n := |rest| - 1;
      EndedOfWithout(history, event, rest[..n], key);
      assert history + [event] + rest == (history + [event] + rest[..n]) + [rest[n]];
      assert history + rest == (history + rest[..n]) + [rest[n]];
      EndedOfAfter(history + [event] + rest[..n], rest[n], key);
      EndedOfAfter(history + rest[..n], rest[n], key);
    }
  }

  lemma {:induction false} LastTripIs(config: Config, ended: seq<Event>, n: nat)
    requires config.Valid() && n <= |ended| && AllEnded(ended)
    ensures LastTrip(config, ended, n) >= 0 ==> Trips(config, ended, LastTrip(config, ended, n))
    ensures forall i :: LastTrip(config, ended, n) < i < n ==> !Trips(config, ended, i)
  {
    hide Trips;
    if n > 0 {
      LastTripIs(config, ended, n - 1);
    }
  }

  /** The circuit of a group is open exactly if one of its calls tripped it less than a cooldown ago. */
  lemma BlockedExactlyAfterATrip(config: Config, ended: seq<Event>, now: nat)
    requires config.Valid() && AllEnded(ended) && InOrder(ended)
    ensures OpenUntil(config, ended, now).Some? <==>
            exists i :: 0 <= i < |ended| && Trips(config, ended, i) && ended[i].at + config.cooldown > now
  {
    var trip := LastTrip(config, ended, |ended|);
    LastTripIs(config, ended, |ended|);
    hide LastTrip, Trips;
    forall i | 0 <= i < |ended| && Trips(config, ended, i) ensures i <= trip && ended[i].at <= ended[trip].at {
    }
  }
}

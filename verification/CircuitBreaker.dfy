/** The circuit breaker, and the specification it refines: a verdict computed from the history of calls
    alone. The failure counter is 32 bits wide; the clock is an input. */
module CircuitBreakers {

  import opened Numbers

  datatype State = Closed | Open | HalfOpen

  datatype Config = Config(enabled: bool, failureThreshold: nat, halfOpenAfterMs: int)

  datatype Breaker = Breaker(config: Config, state: State, consecutiveFailures: nat, openedAtMs: int)

  function Configured(c: Config): Breaker { Breaker(c, Closed, 0, 0) }

  predicate Allows(b: Breaker, now: int) {
    !b.config.enabled || b.state != Open || now - b.openedAtMs >= b.config.halfOpenAfterMs
  }

  /** Asking is not free of effects: an open breaker whose time has come turns half-open. */
  function Asked(b: Breaker, now: int): Breaker {
    if b.config.enabled && b.state == Open && now - b.openedAtMs >= b.config.halfOpenAfterMs then b.(state := HalfOpen)
    else b
  }

  function Succeeded(b: Breaker): Breaker { b.(consecutiveFailures := 0, state := Closed, openedAtMs := 0) }

  function FailedAt(b: Breaker, now: int): Breaker {
    if !b.config.enabled then b
    else
      var count := (b.consecutiveFailures + 1) % U32;
      if count >= b.config.failureThreshold then b.(consecutiveFailures := count, state := Open, openedAtMs := now)
      else b.(consecutiveFailures := count)
  }

  class CircuitBreaker {
    var enabled: bool
    var failureThreshold: nat
    var halfOpenAfterMs: int
    var state: State
    var consecutiveFailures: nat
    var openedAtMs: int

    function Value(): Breaker
      reads this
    {
      Breaker(Config(enabled, failureThreshold, halfOpenAfterMs), state, consecutiveFailures, openedAtMs)
    }

    constructor (enabled: bool, failureThreshold: nat, halfOpenAfterMs: int)
      ensures Value() == Configured(Config(enabled, failureThreshold, halfOpenAfterMs))
    {
      this.enabled, this.failureThreshold, this.halfOpenAfterMs := enabled, failureThreshold, halfOpenAfterMs;
      state, consecutiveFailures, openedAtMs := Closed, 0, 0;
    }

    method AllowRequest(now: int) returns (ok: bool)
      modifies this`state
      ensures Value() == Asked(old(Value()), now) && ok == Allows(old(Value()), now)
    {
      if !enabled {
        return true;
      }
      if state == Closed {
        return true;
      }
      if state == Open && now - openedAtMs >= halfOpenAfterMs {
        state := HalfOpen;
        return true;
      }
      return state == HalfOpen;
    }

    method RecordSuccess()
      modifies this`consecutiveFailures, this`state, this`openedAtMs
      ensures Value() == Succeeded(old(Value()))
    {
      consecutiveFailures := 0;
      state := Closed;
      openedAtMs := 0;
    }

    method RecordFailure(now: int)
      modifies this`consecutiveFailures, this`state, this`openedAtMs
      ensures Value() == FailedAt(old(Value()), now)
    {
      if !enabled {
        return;
      }
      consecutiveFailures := (consecutiveFailures + 1) % U32;
      if consecutiveFailures >= failureThreshold {
        state := Open;
        openedAtMs := now;
      }
    }

    method Configure(enabled: bool, failureThreshold: nat, halfOpenAfterMs: int)
      modifies this
      ensures Value() == Configured(Config(enabled, failureThreshold, halfOpenAfterMs))
    {
      this.enabled, this.failureThreshold, this.halfOpenAfterMs := enabled, failureThreshold, halfOpenAfterMs;
      state, consecutiveFailures, openedAtMs := Closed, 0, 0;
    }
  }

  // ---------------------------------------------------------------- histories

  datatype Event = Ask(at: int) | Success | Failure(at: int) | Configure(config: Config)

  function Next(b: Breaker, e: Event): Breaker {
    match e
    case Ask(at) => Asked(b, at)
    case Success => Succeeded(b)
    case Failure(at) => FailedAt(b, at)
    case Configure(config) => Configured(config)
  }

  /** The breaker after a history, latest event last. */
  function After(c: Config, history: seq<Event>): Breaker {
    if history == [] then Configured(c) else Next(After(c, history[..|history| - 1]), history[|history| - 1])
  }

  /** The configuration in force. */
  function ConfigOf(c: Config, history: seq<Event>): Config {
    if history == [] then c
    else
      var last := history[|history| - 1];
      if last.Configure? then last.config else ConfigOf(c, history[..|history| - 1])
  }

  /** The events since the last success or configuration. */
  function Since(history: seq<Event>): seq<Event> {
    if history == [] then []
    else
      var last := history[|history| - 1];
      if last.Success? || last.Configure? then [] else Since(history[..|history| - 1]) + [last]
  }

  function Failures(events: seq<Event>): nat {
    if events == [] then 0 else Failures(events[..|events| - 1]) + if events[|events| - 1].Failure? then 1 else 0
  }

  /** Failure number `Failures(events[..i + 1])` found the counter at or past the threshold. */
  predicate Opens(c: Config, events: seq<Event>, i: nat)
    requires i < |events|
  {
    events[i].Failure? && Failures(events[..i + 1]) % U32 >= c.failureThreshold
  }

  /** The last failure that opened the breaker, or -1. */
  function LastOpening(c: Config, events: seq<Event>): (i: int)
    ensures -1 <= i < |events|
    ensures i >= 0 ==> events[i].Failure?
  {
    if events == [] then -1
    else if Opens(c, events, |events| - 1) then |events| - 1
    else LastOpening(c, events[..|events| - 1])
  }

  /** A request was made after event `i`, at least halfOpenAfterMs later: the breaker let it probe. */
  predicate Probed(c: Config, events: seq<Event>, i: nat)
    requires i < |events| && events[i].Failure?
  {
    exists j :: i < j < |events| && events[j].Ask? && events[j].at - events[i].at >= c.halfOpenAfterMs
  }

  /** The verdict from the history alone: refuse iff enabled, opened since the last success or
      configuration, not probed since it was last opened, and not yet due for a probe. */
  predicate Refuses(c: Config, events: seq<Event>, now: int) {
    var i := LastOpening(c, events);
    c.enabled && i >= 0 && !Probed(c, events, i) && now - events[i].at < c.halfOpenAfterMs
  }

  // ---------------------------------------------------------------- refinement

  ghost predicate Tracks(b: Breaker, c: Config, events: seq<Event>) {
    var i := LastOpening(c, events);
    && b.config == c
    && (c.enabled ==> b.consecutiveFailures == Failures(events) % U32)
    && (c.enabled && i < 0 ==> b.state == Closed)
    && (c.enabled && i >= 0 ==>
          b.openedAtMs == events[i].at && b.state == if Probed(c, events, i) then HalfOpen else Open)
  }

  /** One more event without a success or a configuration. */
  lemma Extend(c: Config, events: seq<Event>, e: Event)
    ensures Failures(events + [e]) == Failures(events) + if e.Failure? then 1 else 0
    ensures LastOpening(c, events + [e]) ==
            if e.Failure? && (Failures(events) + 1) % U32 >= c.failureThreshold then |events|
            else LastOpening(c, events)
  {
    var longer := events + [e];
    var k := |longer| - 1;
    assert longer[..k] == events && longer[k] == e;
    assert Failures(longer) == Failures(events) + if e.Failure? then 1 else 0;
    hide Failures;
    assert longer[..k + 1] == longer;
    assert Opens(c, longer, k) <==> e.Failure? && (Failures(events) + 1) % U32 >= c.failureThreshold;
  }

  lemma ExtendProbed(c: Config, events: seq<Event>, e: Event, i: nat)
    requires i < |events| && events[i].Failure?
    ensures Probed(c, events + [e], i) <==> Probed(c, events, i) || (e.Ask? && e.at - events[i].at >= c.halfOpenAfterMs)
  {
    var longer := events + [e];
    if j :| i < j < |events| && events[j].Ask? && events[j].at - events[i].at >= c.halfOpenAfterMs {
      assert longer[j] == events[j];
    }
    assert longer[|events|] == e && longer[i] == events[i];
    if j :| i < j < |longer| && longer[j].Ask? && longer[j].at - longer[i].at >= c.halfOpenAfterMs {
      assert j < |events| ==> longer[j] == events[j];
    }
  }

  lemma StepTracks(b: Breaker, c: Config, events: seq<Event>, e: Event)
    requires Tracks(b, c, events) && (e.Ask? || e.Failure?)
    ensures Tracks(Next(b, e), c, events + [e])
  {
    hide LastOpening, Failures, Probed;
    Extend(c, events, e);
    var i := LastOpening(c, events);
    if i >= 0 {
      ExtendProbed(c, events, e, i);
    }
    assert (Failures(events) % U32 + 1) % U32 == (Failures(events) + 1) % U32;
    if LastOpening(c, events + [e]) == |events| {
      NotYetProbed(c, events, e);
    }
  }

  lemma NotYetProbed(c: Config, events: seq<Event>, e: Event)
    requires e.Failure?
    ensures !Probed(c, events + [e], |events|)
  {
  }

  lemma {:induction false} RunTracks(c: Config, history: seq<Event>)
    ensures Tracks(After(c, history), ConfigOf(c, history), Since(history))
  {
    hide Tracks, Next;
    if history == [] {
      FreshTracks(Configured(c), c);
    } else {
      var front, last := history[..|history| - 1], history[|history| - 1];
      RunTracks(c, front);
      match last {
        case Success => SuccessTracks(After(c, front), ConfigOf(c, front), Since(front));
        case Configure(config) => FreshTracks(After(c, front), config);
        case _ => StepTracks(After(c, front), ConfigOf(c, front), Since(front), last);
      }
    }
  }

  lemma FreshTracks(b: Breaker, config: Config)
    ensures Tracks(Configured(config), config, []) && Next(b, Configure(config)) == Configured(config)
  {
  }

  lemma SuccessTracks(b: Breaker, c: Config, events: seq<Event>)
    requires Tracks(b, c, events)
    ensures Tracks(Next(b, Success), c, [])
  {
  }

  /** For every history, with any clock, threshold and number of failures, the breaker's verdict is the one
      the history gives. */
  lemma VerdictFromHistory(c: Config, history: seq<Event>, now: int)
    ensures Allows(After(c, history), now) <==> !Refuses(ConfigOf(c, history), Since(history), now)
  {
    RunTracks(c, history);
  }

  // ---------------------------------------------------------------- the law under ordinary conditions

  /** The last failure, or -1. */
  function LastFailure(events: seq<Event>): (i: int)
    ensures -1 <= i < |events|
    ensures i >= 0 ==> events[i].Failure?
  {
    if events == [] then -1
    else if events[|events| - 1].Failure? then |events| - 1
    else LastFailure(events[..|events| - 1])
  }

  lemma {:induction false} OpensFromThreshold(c: Config, events: seq<Event>)
    requires Failures(events) < U32
    ensures LastOpening(c, events) == if Failures(events) >= c.failureThreshold then LastFailure(events) else -1
    ensures LastFailure(events) >= 0 <==> Failures(events) >= 1
  {
    if events != [] {
      OpensFromThreshold(c, events[..|events| - 1]);
      assert events[..|events| - 1 + 1] == events;
    }
  }

  /** The clock does not run backwards and has reached `now`. */
  ghost predicate InClockOrder(events: seq<Event>, now: int) {
    && (forall i :: 0 <= i < |events| && Timed(events[i]) ==> events[i].at <= now)
    && (forall i, j :: 0 <= i < j < |events| && Timed(events[i]) && Timed(events[j]) ==> events[i].at <= events[j].at)
  }

  predicate Timed(e: Event) { e.Ask? || e.Failure? }

  /** With fewer than 2^32 failures in a row and a clock that never runs backwards: a request is refused
      iff the breaker is enabled, at least `failureThreshold` failures, and at least one, were recorded
      since the last success or configuration, and the last failure is less than `halfOpenAfterMs` ago. */
  lemma RefusesExactlyIf(c: Config, history: seq<Event>, now: int)
    requires Failures(Since(history)) < U32 && InClockOrder(Since(history), now)
    ensures var config, events := ConfigOf(c, history), Since(history);
            !Allows(After(c, history), now) <==>
            && config.enabled && Failures(events) >= config.failureThreshold && LastFailure(events) >= 0
            && now - events[LastFailure(events)].at < config.halfOpenAfterMs
  {
    var config, events := ConfigOf(c, history), Since(history);
    VerdictFromHistory(c, history, now);
    OpensFromThreshold(config, events);
  }

  /** The clock condition is needed: a clock set back after a probe finds the breaker half-open. */
  lemma ShortFormNeedsClock(at: int, after: int)
    requires after > 0
    ensures var c := Config(true, 1, after);
            var history := [Failure(at), Ask(at + after)];
            && Failures(Since(history)) >= 1 && LastFailure(Since(history)) == 0 && Since(history)[0] == Failure(at)
            && Allows(After(c, history), at)
  {
    var c := Config(true, 1, after);
    var history := [Failure(at), Ask(at + after)];
    assert history[..1] == [Failure(at)] && [Failure(at)][..0] == [];
    assert Since([Failure(at)]) == [] + [Failure(at)];
    assert Since(history) == [Failure(at)] + [Ask(at + after)] == history;
    Extend(c, [], Failure(at));
    Extend(c, [] + [Failure(at)], Ask(at + after));
    assert [] + [Failure(at)] == [Failure(at)];
    assert After(c, [Failure(at)]) == FailedAt(Configured(c), at);
    assert After(c, history) == Asked(FailedAt(Configured(c), at), at + after);
  }
}

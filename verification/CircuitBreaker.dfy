/**
 The circuit breaker. `Breaker` is its state as a value and `Next` one locked operation on it;
 the class updates the same fields in place. Time is a parameter of the operations that read the
 clock, and the failure rate is a real number.
 */
module CircuitBreaking {
  import opened Wrappers

  datatype Mode = Closed | Open | HalfOpen

  datatype Config = Config(failureThreshold: int, successThreshold: int, timeout: int,
                           maxHalfOpenReqs: int, failureRate: real)

  const DEFAULTS := Config(5, 3, 30000, 1, 0.5)

  /** A zero setting means its default. */
  function Normalized(c: Config): (n: Config)
    ensures c.failureThreshold in {0, n.failureThreshold} && (c.failureThreshold == 0 ==> n.failureThreshold == 5)
    ensures c.successThreshold in {0, n.successThreshold} && (c.successThreshold == 0 ==> n.successThreshold == 3)
    ensures c.timeout in {0, n.timeout} && (c.timeout == 0 ==> n.timeout == 30000)
    ensures c.maxHalfOpenReqs in {0, n.maxHalfOpenReqs} && (c.maxHalfOpenReqs == 0 ==> n.maxHalfOpenReqs == 1)
    ensures c.failureRate in {0.0, n.failureRate} && (c.failureRate == 0.0 ==> n.failureRate == 0.5)
  {
    Config(
      if c.failureThreshold == 0 then DEFAULTS.failureThreshold else c.failureThreshold,
      if c.successThreshold == 0 then DEFAULTS.successThreshold else c.successThreshold,
      if c.timeout == 0 then DEFAULTS.timeout else c.timeout,
      if c.maxHalfOpenReqs == 0 then DEFAULTS.maxHalfOpenReqs else c.maxHalfOpenReqs,
      if c.failureRate == 0.0 then DEFAULTS.failureRate else c.failureRate)
  }

  datatype Breaker = Breaker(mode: Mode, failures: int, successes: int, requests: int,
                             lastFailTime: int, halfOpenReqs: int)

  const NEW_BREAKER := Breaker(Closed, 0, 0, 0, 0, 0)

  datatype Event = Allow(now: int) | Success | Failure(now: int) | Reset

  // ---------------------------------------------------------------- the operations

  predicate Allows(c: Config, b: Breaker, now: int) {
    match b.mode
    case Closed => true
    case Open => now - b.lastFailTime > c.timeout
    case HalfOpen => b.halfOpenReqs < c.maxHalfOpenReqs
  }

  /** Only half-open admissions are counted, and not the one that ends the open state. */
  function AfterAllow(c: Config, b: Breaker, now: int): Breaker {
    if !Allows(c, b, now) then b else
    match b.mode
    case Closed => b
    case Open => b.(mode := HalfOpen, halfOpenReqs := 0, successes := 0)
    case HalfOpen => b.(halfOpenReqs := b.halfOpenReqs + 1)
  }

  function AfterSuccess(c: Config, b: Breaker): Breaker {
    match b.mode
    case Closed => b.(successes := b.successes + 1, failures := 0, requests := 0)
    case Open => b
    case HalfOpen =>
      if b.successes + 1 >= c.successThreshold then b.(mode := Closed, failures := 0, successes := 0, requests := 0)
      else b.(successes := b.successes + 1)
  }

  /** The second condition of a closed breaker: enough requests, and a high enough share of failures. Each failure
      has just been counted as a request too, so `requests` is never 0 where this is asked. */
  predicate RateTrips(c: Config, failures: int, requests: int) {
    requests >= c.failureThreshold && requests != 0 && failures as real / requests as real >= c.failureRate
  }

  function AfterFailure(c: Config, b: Breaker, now: int): Breaker {
    match b.mode
    case Closed =>
      var f := b.(lastFailTime := now, failures := b.failures + 1, requests := b.requests + 1);
      if f.failures >= c.failureThreshold || RateTrips(c, f.failures, f.requests) then f.(mode := Open) else f
    case Open => b.(lastFailTime := now)
    case HalfOpen => b.(lastFailTime := now, failures := b.failures + 1, mode := Open, halfOpenReqs := 0)
  }

  function AfterReset(b: Breaker): Breaker {
    Breaker(Closed, 0, 0, 0, b.lastFailTime, 0)
  }

  function Next(c: Config, b: Breaker, e: Event): Breaker {
    match e
    case Allow(now) => AfterAllow(c, b, now)
    case Success => AfterSuccess(c, b)
    case Failure(now) => AfterFailure(c, b, now)
    case Reset => AfterReset(b)
  }

  function Run(c: Config, b: Breaker, es: seq<Event>): Breaker
    decreases |es|
  {
    if es == [] then b else Run(c, Next(c, b, es[0]), es[1..])
  }

  /** The answers to the Allow events of a run, in order. */
  function Answers(c: Config, b: Breaker, es: seq<Event>): seq<bool>
    decreases |es|
  {
    if es == [] then []
    else (if es[0].Allow? then [Allows(c, b, es[0].now)] else []) + Answers(c, Next(c, b, es[0]), es[1..])
  }

  // ---------------------------------------------------------------- the class

  datatype CallError = CircuitOpen | Failed

  class CircuitBreaker {
    const config: Config
    var mode: Mode
    var failures: int
    var successes: int
    var requests: int
    var lastFailTime: int
    var halfOpenReqs: int

    function Value(): Breaker
      reads this
    {
      Breaker(mode, failures, successes, requests, lastFailTime, halfOpenReqs)
    }

    constructor (config: Config)
      ensures this.config == Normalized(config)
      ensures Value() == NEW_BREAKER
    {
      this.config := Normalized(config);
      mode, failures, successes, requests, lastFailTime, halfOpenReqs := Closed, 0, 0, 0, 0, 0;
    }

    method Allow(now: int) returns (allowed: bool)
      modifies this
      ensures allowed == Allows(config, old(Value()), now)
      ensures Value() == Next(config, old(Value()), Event.Allow(now))
      ensures mode == if allowed && old(mode).Open? then HalfOpen else old(mode)
      ensures halfOpenReqs == if !allowed || old(mode).Closed? then old(halfOpenReqs)
                              else if old(mode).Open? then 0 else old(halfOpenReqs) + 1
    {
      match mode {
        case Closed =>
          return true;
        case Open =>
          if now - lastFailTime > config.timeout {
            mode, halfOpenReqs, successes := HalfOpen, 0, 0;
            return true;
          }
          return false;
        case HalfOpen =>
          if halfOpenReqs < config.maxHalfOpenReqs {
            halfOpenReqs := halfOpenReqs + 1;
            return true;
          }
          return false;
      }
    }

    method RecordSuccess()
      modifies this
      ensures Value() == Next(config, old(Value()), Success)
      ensures mode.HalfOpen? <==> old(mode).HalfOpen? && old(successes) + 1 < config.successThreshold
      ensures mode.Open? <==> old(mode).Open?
      ensures !mode.Open? ==> successes == if mode == old(mode) then old(successes) + 1 else 0
      ensures mode.Closed? ==> failures == 0 && requests == 0
      ensures mode.Open? ==> Value() == old(Value())
    {
      match mode {
        case Closed =>
          successes, failures, requests := successes + 1, 0, 0;
        case HalfOpen =>
          successes := successes + 1;
          if successes >= config.successThreshold {
            mode, failures, successes, requests := Closed, 0, 0, 0;
          }
        case Open =>
      }
    }

    method RecordFailure(now: int)
      modifies this
      ensures Value() == Next(config, old(Value()), Failure(now))
      ensures lastFailTime == now
      ensures failures == old(failures) + if old(mode).Open? then 0 else 1
      ensures old(mode).Closed? ==>
                && requests == old(requests) + 1
                && (mode.Closed? <==>
                      && failures < config.failureThreshold
                      && (requests < config.failureThreshold || requests == 0
                          || failures as real / requests as real < config.failureRate))
      ensures !old(mode).Closed? ==> mode.Open?
      ensures old(mode).HalfOpen? ==> halfOpenReqs == 0
    {
      lastFailTime := now;
      match mode {
        case Closed =>
          failures, requests := failures + 1, requests + 1;
          if failures >= config.failureThreshold {
            mode := Open;
            return;
          }
          if requests >= config.failureThreshold && requests != 0
             && failures as real / requests as real >= config.failureRate {
            mode := Open;
          }
        case HalfOpen =>
          failures, mode, halfOpenReqs := failures + 1, Open, 0;
        case Open =>
      }
    }

    /** Runs a call whose outcome is `succeeds`, asked for at `now` and over at `done`. */
    method Call(now: int, succeeds: bool, done: int) returns (r: Option<CallError>)
      modifies this
      ensures var allowed := Allows(config, old(Value()), now);
              && r == (if !allowed then Some(CircuitOpen) else if succeeds then None else Some(Failed))
              && Value() == Run(config, old(Value()),
                                if !allowed then [] else [Event.Allow(now), if succeeds then Success else Failure(done)])
    {
      var es := [Event.Allow(now), if succeeds then Success else Failure(done)];
      ghost var b1 := Next(config, Value(), es[0]);
      assert Run(config, Value(), es) == Run(config, b1, es[1..]) == Next(config, b1, es[1]);
      var allowed := Allow(now);
      if !allowed {
        return Some(CircuitOpen);
      }
      if !succeeds {
        RecordFailure(done);
        return Some(Failed);
      }
      RecordSuccess();
      return None;
    }

    method ResetBreaker()
      modifies this
      ensures Value() == Next(config, old(Value()), Reset)
      ensures mode.Closed? && failures == successes == requests == halfOpenReqs == 0 && lastFailTime == old(lastFailTime)
    {
      mode, failures, successes, requests, halfOpenReqs := Closed, 0, 0, 0, 0;
    }
  }
}

/** The circuit breaker (internal/circuitbreaker/breaker.go).

    `Call` is two critical sections with the backend call between them: `Enter`
    and `Finish`. Any number of calls may be between the two, so results can
    arrive in a different state from the one that admitted the call. */
module CircuitBreakers {
  import opened Redis

  datatype State = Closed | Open | HalfOpen

  datatype Config = Config(maxFailures: int, timeout: int, halfOpenSuccess: int)

  /** The zero `time.Time`, in nanoseconds from the Unix epoch. */
  const ZERO_TIME: int := -62135596800 * SECOND

  datatype Breaker = Breaker(
    state: State,
    failureCount: int,
    successCount: int,
    lastFailureTime: int,
    lastStateChange: int)

  function WithDefaults(cfg: Config): Config {
    Config(
      if cfg.maxFailures <= 0 then 5 else cfg.maxFailures,
      if cfg.timeout <= 0 then 30 * SECOND else cfg.timeout,
      if cfg.halfOpenSuccess <= 0 then 1 else cfg.halfOpenSuccess)
  }

  /** Every configuration that `New` stores. */
  ghost predicate Sound(cfg: Config) {
    cfg.maxFailures > 0 && cfg.timeout > 0 && cfg.halfOpenSuccess > 0
  }

  function Fresh(now: int): Breaker {
    Breaker(Closed, 0, 0, ZERO_TIME, now)
  }

  function SetState(b: Breaker, s: State, now: int): Breaker {
    if b.state != s then b.(state := s, lastStateChange := now) else b
  }

  predicate Admits(cfg: Config, b: Breaker, now: int) {
    b.state == Open ==> now - b.lastFailureTime > cfg.timeout
  }

  /** The first critical section of `Call`. */
  function EnterStep(cfg: Config, b: Breaker, now: int): Breaker {
    if b.state == Open && Admits(cfg, b, now) then SetState(b, HalfOpen, now).(successCount := 0) else b
  }

  function OnFailure(cfg: Config, b: Breaker, now: int): Breaker {
    var counted := b.(failureCount := b.failureCount + 1, lastFailureTime := now);
    if b.state == HalfOpen then SetState(counted, Open, now).(successCount := 0)
    else if counted.failureCount >= cfg.maxFailures then SetState(counted, Open, now)
    else counted
  }

  function OnSuccess(cfg: Config, b: Breaker, now: int): Breaker {
    match b.state
    case HalfOpen =>
      var counted := b.(successCount := b.successCount + 1);
      if counted.successCount >= cfg.halfOpenSuccess then SetState(counted, Closed, now).(failureCount := 0)
      else counted
    case Closed => b.(failureCount := 0)
    case Open => b
  }

  /** The second critical section of `Call`. */
  function FinishStep(cfg: Config, b: Breaker, ok: bool, now: int): Breaker {
    if ok then OnSuccess(cfg, b, now) else OnFailure(cfg, b, now)
  }

  function ResetStep(b: Breaker, now: int): Breaker {
    b.(state := Closed, failureCount := 0, successCount := 0, lastStateChange := now)
  }

  datatype CallResult = Succeeded | Failed | CircuitOpen

  class CircuitBreaker {
    var state: State
    var failureCount: int
    var successCount: int
    var lastFailureTime: int
    var lastStateChange: int
    const maxFailures: int
    const timeout: int
    const halfOpenSuccess: int

    ghost function Cfg(): Config {
      Config(maxFailures, timeout, halfOpenSuccess)
    }

    ghost function Snapshot(): Breaker
      reads this
    {
      Breaker(state, failureCount, successCount, lastFailureTime, lastStateChange)
    }

    constructor (cfg: Config, now: int)
      ensures Cfg() == WithDefaults(cfg) && Sound(Cfg())
      ensures cfg.maxFailures > 0 ==> maxFailures == cfg.maxFailures
      ensures cfg.timeout > 0 ==> timeout == cfg.timeout
      ensures cfg.halfOpenSuccess > 0 ==> halfOpenSuccess == cfg.halfOpenSuccess
      ensures cfg.maxFailures <= 0 ==> maxFailures == 5
      ensures cfg.timeout <= 0 ==> timeout == 30_000_000_000
      ensures cfg.halfOpenSuccess <= 0 ==> halfOpenSuccess == 1
      ensures Snapshot() == Fresh(now)
    {
      maxFailures := if cfg.maxFailures <= 0 then 5 else cfg.maxFailures;
      timeout := if cfg.timeout <= 0 then 30 * SECOND else cfg.timeout;
      halfOpenSuccess := if cfg.halfOpenSuccess <= 0 then 1 else cfg.halfOpenSuccess;
      state, failureCount, successCount := Closed, 0, 0;
      lastFailureTime, lastStateChange := ZERO_TIME, now;
    }

    method ChangeState(s: State, now: int)
      modifies this
      ensures Snapshot() == SetState(old(Snapshot()), s, now)
    {
      if state != s {
        state := s;
        lastStateChange := now;
      }
    }

    method Enter(now: int) returns (admitted: bool)
      modifies this
      ensures admitted == old(Admits(Cfg(), Snapshot(), now))
      ensures Snapshot() == EnterStep(Cfg(), old(Snapshot()), now)
    {
      if state == Open {
        if now - lastFailureTime > timeout {
          ChangeState(HalfOpen, now);
          successCount := 0;
        } else {
          return false;
        }
      }
      return true;
    }

    method RecordFailure(now: int)
      modifies this
      ensures Snapshot() == OnFailure(Cfg(), old(Snapshot()), now)
    {
      failureCount := failureCount + 1;
      lastFailureTime := now;
      if state == HalfOpen {
        ChangeState(Open, now);
        successCount := 0;
      } else if failureCount >= maxFailures {
        ChangeState(Open, now);
      }
    }

    method RecordSuccess(now: int)
      modifies this
      ensures Snapshot() == OnSuccess(Cfg(), old(Snapshot()), now)
    {
      match state
      case HalfOpen =>
        successCount := successCount + 1;
        if successCount >= halfOpenSuccess {
          ChangeState(Closed, now);
          failureCount := 0;
        }
      case Closed =>
        failureCount := 0;
      case Open =>
    }

    /** A whole `Call` with nothing else in between: the function's own outcome is a parameter. */
    method Call(ok: bool, enteredAt: int, finishedAt: int) returns (result: CallResult)
      modifies this
      ensures result == CircuitOpen <==> !old(Admits(Cfg(), Snapshot(), enteredAt))
      ensures result == CircuitOpen ==> Snapshot() == old(Snapshot())
      ensures result != CircuitOpen ==>
                && result == (if ok then Succeeded else Failed)
                && Snapshot() == FinishStep(Cfg(), EnterStep(Cfg(), old(Snapshot()), enteredAt), ok, finishedAt)
    {
      var admitted := Enter(enteredAt);
      if !admitted {
        return CircuitOpen;
      }
      if !ok {
        RecordFailure(finishedAt);
        return Failed;
      }
      RecordSuccess(finishedAt);
      return Succeeded;
    }

    method Reset(now: int)
      modifies this
      ensures Snapshot() == ResetStep(old(Snapshot()), now)
    {
      state := Closed;
      failureCount := 0;
      successCount := 0;
      lastStateChange := now;
    }
  }
}

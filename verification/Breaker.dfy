/**
  The circuit breaker: the state behind its mutex, the effect of each locked section as a function
  on values, and the breaker and permit objects, whose methods are proved to have those effects.

  Every locked section reads the clock at most once; that reading is the parameter `now`.
 */
module Breaker {
  import opened Wrappers

  /** Generations are `u64` and wrap here. */
  const WRAP: nat := U64_MAX + 1

  datatype CircuitState = Closed | Open | HalfOpen

  datatype ConfigError = ZeroFailureThreshold | ZeroOpenTimeout | ZeroHalfOpenSuccessThreshold

  datatype Config = Config(failureThreshold: U32, openTimeout: nat, halfOpenSuccessThreshold: U32)
  {
    predicate Valid() {
      failureThreshold > 0 && openTimeout > 0 && halfOpenSuccessThreshold > 0
    }

    static function New(failureThreshold: U32, openTimeout: nat, halfOpenSuccessThreshold: U32)
      : (r: Result<Config, ConfigError>)
      ensures r.Ok? <==> failureThreshold > 0 && openTimeout > 0 && halfOpenSuccessThreshold > 0
      ensures r.Ok? ==> r.value.Valid() && r.value == Config(failureThreshold, openTimeout, halfOpenSuccessThreshold)
      ensures r.Err? ==> (r.error == ZeroFailureThreshold <==> failureThreshold == 0)
      ensures r.Err? ==> (r.error == ZeroHalfOpenSuccessThreshold <==> failureThreshold > 0 && openTimeout > 0)
    {
      if failureThreshold == 0 then Err(ZeroFailureThreshold)
      else if openTimeout == 0 then Err(ZeroOpenTimeout)
      else if halfOpenSuccessThreshold == 0 then Err(ZeroHalfOpenSuccessThreshold)
      else Ok(Config(failureThreshold, openTimeout, halfOpenSuccessThreshold))
    }
  }

  datatype PermitKind = ClosedKind | HalfOpenKind

  datatype Mode =
    | ClosedMode(consecutiveFailures: U32)
    | OpenMode(until: nat)
    | HalfOpenMode(inFlight: U32, successes: U32)
  {
    function Visible(): CircuitState {
      match this
      case ClosedMode(_) => Closed
      case OpenMode(_) => Open
      case HalfOpenMode(_, _) => HalfOpen
    }
  }

  datatype Shared = Shared(generation: nat, mode: Mode)

  /** What a permit carries: the generation that issued it and the mode it was issued in. */
  datatype Ticket = Ticket(generation: nat, kind: PermitKind)

  // ----- The effect of each locked section -----
  //
  // `modulus` is WRAP for the breaker itself. With `modulus == 0` the same functions describe a
  // breaker whose generation never wraps, the reference the wrapping one is compared with.

  function Bump(generation: nat, modulus: nat): nat {
    if modulus == 0 then generation + 1 else (generation + 1) % modulus
  }

  function TransitionClosed(s: Shared, modulus: nat): Shared {
    Shared(Bump(s.generation, modulus), ClosedMode(0))
  }

  function TransitionOpen(s: Shared, timeout: nat, now: nat, modulus: nat): Shared {
    Shared(Bump(s.generation, modulus), OpenMode(now + timeout))
  }

  function TransitionHalfOpen(s: Shared, modulus: nat): Shared {
    Shared(Bump(s.generation, modulus), HalfOpenMode(0, 0))
  }

  function Refresh(s: Shared, now: nat, modulus: nat): Shared {
    if s.mode.OpenMode? && now >= s.mode.until then TransitionHalfOpen(s, modulus) else s
  }

  function Acquire(c: Config, s: Shared, now: nat, modulus: nat): (Shared, Option<Ticket>) {
    var s := Refresh(s, now, modulus);
    match s.mode
    case ClosedMode(_) => (s, Some(Ticket(s.generation, ClosedKind)))
    case OpenMode(_) => (s, None)
    case HalfOpenMode(inFlight, successes) =>
      if inFlight >= c.halfOpenSuccessThreshold then (s, None)
      else (s.(mode := HalfOpenMode(inFlight + 1, successes)), Some(Ticket(s.generation, HalfOpenKind)))
  }

  function RecordSuccess(c: Config, s: Shared, t: Ticket, modulus: nat): Shared {
    if s.generation != t.generation then s
    else
      match (s.mode, t.kind)
      case (ClosedMode(_), ClosedKind) => s.(mode := ClosedMode(0))
      case (HalfOpenMode(inFlight, successes), HalfOpenKind) =>
        var counted := HalfOpenMode(SaturatingSub32(inFlight, 1), SaturatingAdd32(successes, 1));
        if counted.successes >= c.halfOpenSuccessThreshold
        then TransitionClosed(s, modulus)
        else s.(mode := counted)
      case _ => s
  }

  function RecordFailure(c: Config, s: Shared, t: Ticket, now: nat, modulus: nat): Shared {
    if s.generation != t.generation then s
    else
      match (s.mode, t.kind)
      case (ClosedMode(failures), ClosedKind) =>
        var counted := SaturatingAdd32(failures, 1);
        if counted >= c.failureThreshold
        then TransitionOpen(s, c.openTimeout, now, modulus)
        else s.(mode := ClosedMode(counted))
      case (HalfOpenMode(_, _), HalfOpenKind) => TransitionOpen(s, c.openTimeout, now, modulus)
      case _ => s
  }

  function RecordAbandon(s: Shared, t: Ticket): Shared {
    if t.kind.HalfOpenKind? && s.generation == t.generation && s.mode.HalfOpenMode?
    then s.(mode := HalfOpenMode(SaturatingSub32(s.mode.inFlight, 1), s.mode.successes))
    else s
  }

  // ----- The objects -----

  class CircuitBreaker {
    const config: Config
    var generation: U64
    var mode: Mode

    function Contents(): Shared
      reads this
    {
      Shared(generation, mode)
    }

    constructor (config: Config)
      ensures this.config == config
      ensures Contents() == Shared(0, ClosedMode(0))
    {
      this.config := config;
      generation := 0;
      mode := ClosedMode(0);
    }

    method BumpGeneration()
      modifies this`generation
      ensures generation == Bump(old(generation), WRAP)
    {
      if generation == U64_MAX {
        generation := 0;
      } else {
        generation := generation + 1;
      }
    }

    method EnterClosed()
      modifies this
      ensures Contents() == TransitionClosed(old(Contents()), WRAP)
    {
      BumpGeneration();
      mode := ClosedMode(0);
    }

    method EnterOpen(now: nat)
      modifies this
      ensures Contents() == TransitionOpen(old(Contents()), config.openTimeout, now, WRAP)
    {
      BumpGeneration();
      mode := OpenMode(now + config.openTimeout);
    }

    method EnterHalfOpen()
      modifies this
      ensures Contents() == TransitionHalfOpen(old(Contents()), WRAP)
    {
      BumpGeneration();
      mode := HalfOpenMode(0, 0);
    }

    method RefreshOpenState(now: nat)
      modifies this
      ensures Contents() == Refresh(old(Contents()), now, WRAP)
    {
      if mode.OpenMode? && now >= mode.until {
        EnterHalfOpen();
      }
    }

    method State(now: nat) returns (state: CircuitState)
      modifies this
      ensures Contents() == Refresh(old(Contents()), now, WRAP)
      ensures state == Contents().mode.Visible()
    {
      RefreshOpenState(now);
      state := mode.Visible();
    }

    method TryAcquire(now: nat) returns (r: Option<CircuitBreakerPermit>)
      modifies this
      ensures Contents() == Acquire(config, old(Contents()), now, WRAP).0
      ensures match Acquire(config, old(Contents()), now, WRAP).1
              case None => r.None?
              case Some(ticket) =>
                r.Some? && fresh(r.value) && r.value.breaker == this && r.value.ticket == ticket
                && !r.value.completed
    {
      RefreshOpenState(now);
      var kind;
      match mode {
        case ClosedMode(_) =>
          kind := ClosedKind;
        case OpenMode(_) =>
          return None;
        case HalfOpenMode(inFlight, successes) =>
          if inFlight >= config.halfOpenSuccessThreshold {
            return None;
          }
          mode := HalfOpenMode(inFlight + 1, successes);
          kind := HalfOpenKind;
      }
      var permit := new CircuitBreakerPermit(this, Ticket(generation, kind));
      r := Some(permit);
    }

    method OnSuccess(ticket: Ticket)
      modifies this
      ensures Contents() == RecordSuccess(config, old(Contents()), ticket, WRAP)
    {
      if generation != ticket.generation {
        return;
      }
      var shouldClose := false;
      match (mode, ticket.kind) {
        case (ClosedMode(_), ClosedKind) =>
          mode := ClosedMode(0);
        case (HalfOpenMode(inFlight, successes), HalfOpenKind) =>
          mode := HalfOpenMode(SaturatingSub32(inFlight, 1), SaturatingAdd32(successes, 1));
          shouldClose := mode.successes >= config.halfOpenSuccessThreshold;
        case _ =>
      }
      if shouldClose {
        EnterClosed();
      }
    }

    method OnFailure(ticket: Ticket, now: nat)
      modifies this
      ensures Contents() == RecordFailure(config, old(Contents()), ticket, now, WRAP)
    {
      if generation != ticket.generation {
        return;
      }
      var shouldOpen := false;
      match (mode, ticket.kind) {
        case (ClosedMode(failures), ClosedKind) =>
          mode := ClosedMode(SaturatingAdd32(failures, 1));
          shouldOpen := mode.consecutiveFailures >= config.failureThreshold;
        case (HalfOpenMode(inFlight, successes), HalfOpenKind) =>
          mode := HalfOpenMode(SaturatingSub32(inFlight, 1), successes);
          shouldOpen := true;
        case _ =>
      }
      if shouldOpen {
        EnterOpen(now);
      }
    }

    method OnAbandon(ticket: Ticket)
      modifies this
      ensures Contents() == RecordAbandon(old(Contents()), ticket)
    {
      if !ticket.kind.HalfOpenKind? {
        return;
      }
      if generation != ticket.generation {
        return;
      }
      if mode.HalfOpenMode? {
        mode := HalfOpenMode(SaturatingSub32(mode.inFlight, 1), mode.successes);
      }
    }
  }

  /**
    A permit. `Success` and `Failure` consume their receiver in the source, so they run at most once
    and the drop that follows them finds `completed` set; a permit that was never completed is
    abandoned by its drop.
   */
  class CircuitBreakerPermit {
    const breaker: CircuitBreaker
    const ticket: Ticket
    var completed: bool

    constructor (breaker: CircuitBreaker, ticket: Ticket)
      ensures this.breaker == breaker && this.ticket == ticket && !completed
    {
      this.breaker := breaker;
      this.ticket := ticket;
      completed := false;
    }

    method Success()
      requires !completed
      modifies this, breaker
      ensures completed
      ensures breaker.Contents() == RecordSuccess(breaker.config, old(breaker.Contents()), ticket, WRAP)
    {
      breaker.OnSuccess(ticket);
      completed := true;
      Drop();
    }

    method Failure(now: nat)
      requires !completed
      modifies this, breaker
      ensures completed
      ensures breaker.Contents() == RecordFailure(breaker.config, old(breaker.Contents()), ticket, now, WRAP)
    {
      breaker.OnFailure(ticket, now);
      completed := true;
      Drop();
    }

    method Drop()
      modifies breaker
      ensures breaker.Contents()
           == if completed then old(breaker.Contents()) else RecordAbandon(old(breaker.Contents()), ticket)
    {
      if !completed {
        breaker.OnAbandon(ticket);
      }
    }
  }
}

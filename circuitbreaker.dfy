/**
 The circuit breaker: its states, its configuration, the step function that
 says what one call of Execute and one firing of the recovery timer do to the
 breaker's fields, and the class whose methods perform those steps in place.
 */
module Breaker {
  import opened Errors

  /** Go's uint32. */
  newtype u32 = x: int | 0 <= x < 0x1_0000_0000

  /** Go's `failures++` on a uint32: wraps around at 2^32. */
  function Inc32(f: u32): (r: u32)
    ensures f as int < 0xFFFF_FFFF ==> r as int == f as int + 1
    ensures f as int == 0xFFFF_FFFF ==> r == 0
  {
    ((f as int + 1) % 0x1_0000_0000) as u32
  }

  datatype State = Closed | Open | HalfOpen

  /** The classifier an outcome's error is passed to; None is Go's nil error. */
  type ErrorPredicate = Option<Error> -> bool

  /**
   The configuration. Name, Interval and Timeout are not modelled: the name is
   descriptive, the interval only parameterises the real timer and the timeout
   is never read.
   */
  datatype Config = Config(maxRequests: u32, isError: Option<ErrorPredicate>)

  /** The predicate installed when the configuration gives none: err != nil. */
  function DefaultIsError(err: Option<Error>): bool
  {
    err.Some?
  }

  /** The configuration NewCircuitBreaker stores: a nil IsError is replaced by the default. */
  function WithDefaults(cfg: Config): (c: Config)
    ensures c.maxRequests == cfg.maxRequests
    ensures c.isError.Some?
    ensures cfg.isError.Some? ==> c == cfg
    ensures cfg.isError.None? ==> forall err :: c.isError.value(err) <==> err.Some?
  {
    if cfg.isError.None? then Config(cfg.maxRequests, Some(DefaultIsError)) else cfg
  }

  /** The Go `(string, error)` pair, both as the callable's outcome and as Execute's reply. */
  datatype Outcome = Outcome(value: string, err: Option<Error>)

  /** The reply to a rejected call: an empty result and an error wrapping ErrCircuitBreakerOpen. */
  function Rejection(): Outcome
  {
    Outcome("", Some(Wrapped(ErrCircuitBreakerOpen)))
  }

  /**
   The `timer` field. NoTimer is nil; Handle(pending) is a timer made by
   time.AfterFunc, pending until it fires or is stopped.
   */
  datatype TimerHandle = NoTimer | Handle(pending: bool)

  /** Timer.Stop on a non-nil handle: the timer will not fire any more. */
  function Stop(t: TimerHandle): TimerHandle
  {
    if t.NoTimer? then NoTimer else Handle(false)
  }

  /** The mutable fields of a breaker. */
  datatype Snapshot = Snapshot(state: State, failures: u32, timer: TimerHandle)

  /** What one call of Execute does: the new fields, the reply, and whether fn was invoked. */
  datatype StepResult = StepResult(next: Snapshot, reply: Outcome, invoked: bool)

  /** An outcome counts against the breaker when its error is non-nil and IsError accepts it. */
  predicate Critical(isError: ErrorPredicate, err: Option<Error>)
  {
    err.Some? && isError(err)
  }

  /**
   Execute on a breaker whose fields are `s`, where fn, if invoked, returns `call`.
   */
  function Step(maxRequests: u32, isError: ErrorPredicate, s: Snapshot, call: Outcome): StepResult
  {
    if s.state == Open then
      StepResult(s, Rejection(), false)
    else
      // admission in HalfOpen clears the counter before the trial runs
      var f := if s.state == HalfOpen then 0 else s.failures;
      if Critical(isError, call.err) then
        var f' := Inc32(f);
        if f' >= maxRequests then
          StepResult(Snapshot(Open, f', Handle(true)), Outcome("", call.err), true)
        else
          StepResult(Snapshot(s.state, f', s.timer), Outcome("", call.err), true)
      else if s.state == HalfOpen then
        StepResult(Snapshot(Closed, 0, Stop(s.timer)), Outcome(call.value, None), true)
      else
        StepResult(Snapshot(s.state, 0, s.timer), Outcome(call.value, None), true)
  }

  /** The AfterFunc callback: HalfOpen with a cleared counter, whatever the state was. */
  function Fire(s: Snapshot): Snapshot
  {
    Snapshot(HalfOpen, 0, if s.timer.NoTimer? then NoTimer else Handle(false))
  }

  /** The number of critical failures that trips the breaker (MaxRequests 0 trips at the first). */
  function Threshold(maxRequests: u32): nat
  {
    if maxRequests == 0 then 1 else maxRequests as nat
  }

  /**
   What holds of the fields between steps: a timer is pending exactly while
   the breaker is Open, Open holds exactly the threshold count, Closed and
   HalfOpen hold fewer, and HalfOpen holds at most the one failed trial.
   */
  ghost predicate Inv(maxRequests: u32, s: Snapshot)
  {
    && (s.state == Open <==> s.timer == Handle(true))
    && (s.state == Open ==> s.failures as nat == Threshold(maxRequests))
    && (s.state != Open ==> s.failures as nat < Threshold(maxRequests))
    && (s.state == HalfOpen ==> s.failures <= 1)
  }

  class CircuitBreaker {
    const cfg: Config
    var state: State
    var failures: u32
    var timer: TimerHandle

    function Fields(): Snapshot
      reads this
    {
      Snapshot(state, failures, timer)
    }

    ghost predicate Valid()
      reads this
    {
      cfg.isError.Some? && Inv(cfg.maxRequests, Fields())
    }

    /** NewCircuitBreaker: Closed, no failures, no timer, IsError defaulted. */
    constructor (config: Config)
      ensures Valid()
      ensures cfg == WithDefaults(config)
      ensures state == Closed && failures == 0 && timer == NoTimer
    {
      cfg := WithDefaults(config);
      state := Closed;
      failures := 0;
      timer := NoTimer;
    }

    /**
     Execute(fn). `call` is what fn returns if it is invoked; `invoked` records
     whether it was.
     */
    method Execute(call: Outcome) returns (reply: Outcome, ghost invoked: bool)
      requires Valid()
      modifies this
      ensures Valid()
      ensures Fields() == Step(cfg.maxRequests, cfg.isError.value, old(Fields()), call).next
      ensures reply == Step(cfg.maxRequests, cfg.isError.value, old(Fields()), call).reply
      ensures invoked == Step(cfg.maxRequests, cfg.isError.value, old(Fields()), call).invoked
      // rejected while Open: fn not run, nothing changes
      ensures old(state) == Open ==>
        !invoked && reply == Rejection() && unchanged(this)
      // a critical failure counts, and trips with a fresh timer at MaxRequests
      ensures old(state) != Open && Critical(cfg.isError.value, call.err) ==>
        && invoked
        && reply == Outcome("", call.err)
        && failures as int == (if old(state) == HalfOpen then 0 else old(failures) as int) + 1
        && (state == Open <==> failures >= cfg.maxRequests)
        && (state == Open ==> timer == Handle(true))
        && (state != Open ==> state == old(state) && timer == old(timer))
      // anything else is a success: counter cleared, breaker Closed, error dropped
      ensures old(state) != Open && !Critical(cfg.isError.value, call.err) ==>
        && invoked
        && reply == Outcome(call.value, None)
        && state == Closed && failures == 0
        && timer == (if old(state) == HalfOpen then Stop(old(timer)) else old(timer))
    {
      if state == Open {
        reply := Rejection();
        invoked := false;
        return;
      }
      if state == HalfOpen {
        failures := 0;
      }
      invoked := true;
      var result, err := call.value, call.err;
      if Critical(cfg.isError.value, err) {
        // the u32 range check on this sum is the proof that the counter never wraps
        failures := failures + 1;
        if failures >= cfg.maxRequests {
          state := Open;
          timer := Handle(true);
        }
        reply := Outcome("", err);
        return;
      }
      failures := 0;
      if state == HalfOpen {
        state := Closed;
        if timer != NoTimer {
          timer := Stop(timer);
        }
      }
      reply := Outcome(result, None);
    }

    /** The recovery timer fires: the AfterFunc callback runs. */
    method TimerFires()
      requires Valid()
      requires timer == Handle(true)
      modifies this
      ensures Valid()
      ensures Fields() == Fire(old(Fields()))
      ensures old(state) == Open && state == HalfOpen && failures == 0 && timer == Handle(false)
    {
      state := HalfOpen;
      failures := 0;
      timer := Handle(false);
    }
  }
}

# Circuit breaker model

A Dafny model of an in-process circuit breaker written in Go. The breaker
guards a single operation. It has three states: Closed, Open and HalfOpen.
It counts critical failures in a `uint32` counter and trips to Open once
the count reaches `MaxRequests`. Tripping arms a recovery timer. When the
timer fires, the breaker moves to HalfOpen and clears the counter. The next
admitted call is the trial, and its outcome decides what happens next.

- `errors.dfy` (module `Errors`): an error datatype. It has the package's
  two sentinel errors, opaque errors returned by the protected operation,
  and `%w` wrapping. It also defines `Option`, which models a nil-able Go
  `error`, and Go's `errors.Is` over single `%w` chains.
- `circuitbreaker.dfy` (module `Breaker`): `State`, `Config`, the default
  `IsError` predicate, and the fields of a breaker as a `Snapshot` value.
  `Step` says what one `Execute` does. `Fire` says what the timer callback
  does. `Inv` is the invariant that holds between steps. The class
  `CircuitBreaker` has the mutable fields `state`, `failures` and `timer`.
  Its constructor is `NewCircuitBreaker`. `Execute` and `TimerFires` update
  the fields in place and are proved against `Step` and `Fire`.
- `properties.dfy` (module `BreakerProperties`): lemmas about single steps.
  It also defines runs of calls (`Calls`) and interleavings of calls and
  timer firings (`Replay`), with inductive lemmas about both.

How the pieces are modelled:

- **The protected callable.** `fn` becomes a parameter: the `(string,
  error)` pair it would return. The ghost out-parameter `invoked` of
  `Execute` records whether `fn` ran.
- **`IsError`.** It is a total function of type `Option<Error> -> bool`;
  `None` is nil.
- **The counter.** `failures` is the newtype `u32`. `Step` increments it
  with an explicit wrap at 2^32, as Go's `++` would. The invariant rules out
  the wrap. In `Execute`, the range check on `failures + 1` is the proof
  that it never happens.
- **The timer.** `timer` is either `NoTimer` (nil) or `Handle(pending)`.
  `time.AfterFunc` yields `Handle(true)`. Firing or `Stop` makes it
  `Handle(false)`.

Where the code differs from the usual circuit-breaker design (one trial
call in HalfOpen, errors passed through unchanged), the model follows the code:

- A non-critical error (non-nil, but rejected by `IsError`) reaches the
  caller as `(result, nil)`. The error is dropped, not passed through
  (circuitbreaker.go:65, 92).
- A failed HalfOpen trial reopens the breaker only when `MaxRequests <= 1`.
  Admission in HalfOpen clears the counter, so the trial failure only brings
  it to 1. With `MaxRequests >= 2`, a HalfOpen breaker admits every call and
  never reopens under any run of failures (`HalfOpenNeverReopens`).
- The timer callback sets HalfOpen without checking that the breaker is
  still Open.
- With `MaxRequests >= 2`, a failed trial does not end the trial period:
  every later call is admitted as a new trial, one after another, each
  clearing the counter at admission (circuitbreaker.go:59-62).
- `MaxRequests` may be 0. The breaker then trips at the first critical
  failure, so the effective threshold is `max(MaxRequests, 1)`
  (`Threshold`).

## Model

| member | source | states |
|---|---|---|
| Breaker.WithDefaults | circuitbreaker.go:37-42 | the stored config keeps MaxRequests and always has a predicate; a given IsError is kept; a nil one becomes exactly `err != nil` |
| Breaker.Inc32 | circuitbreaker.go:66 | uint32 increment: adds one below 2^32-1, wraps to 0 at 2^32-1 |
| Breaker.CircuitBreaker.constructor | circuitbreaker.go:37-48 | a new breaker is Closed with failures 0 and no timer, its config is the defaulted one, and the invariant holds |
| Breaker.CircuitBreaker.Execute | circuitbreaker.go:51-93 | the new fields, the reply and whether fn ran equal `Step` of the old fields; Open rejects and changes nothing; a critical failure adds one (from 0 in HalfOpen) and trips, with a fresh timer, exactly at MaxRequests; any other outcome yields Closed, failures 0, `(result, nil)` and stops the timer from HalfOpen; the invariant is kept |
| Breaker.CircuitBreaker.TimerFires | circuitbreaker.go:70-75 | firing the pending timer gives HalfOpen, failures 0 and a spent timer, and keeps the invariant |
| BreakerProperties.NewBreakerIsClosed | circuitbreaker.go:44-47 | the initial fields Closed/0/nil satisfy the invariant |
| BreakerProperties.RejectionWrapsOpen | circuitbreaker.go:56 | a rejection is an empty result with an error that wraps ErrCircuitBreakerOpen: `errors.Is` finds that sentinel, but the error is not the sentinel itself |
| BreakerProperties.OpenRejects | circuitbreaker.go:55-57 | while Open, Execute does not invoke fn, returns the rejection and leaves state, failures and timer unchanged |
| BreakerProperties.CriticalFailureCounts | circuitbreaker.go:59-78 | a critical failure invokes fn and returns `("", err)`; the counter becomes its admitted value plus one; the state is Open, with a newly armed timer, iff the new count is >= MaxRequests; otherwise state and timer are unchanged |
| BreakerProperties.NonCriticalResets | circuitbreaker.go:65-92 | a nil error or a non-critical one returns `(result, nil)`, clears failures and leaves the breaker Closed; from HalfOpen the timer is stopped; from Closed nothing else changes |
| BreakerProperties.HalfOpenTrialFails | circuitbreaker.go:59-68 | a failed HalfOpen trial reopens the breaker iff MaxRequests <= 1; otherwise the breaker stays HalfOpen with failures 1 |
| BreakerProperties.StepKeepsInv | circuitbreaker.go:65-92 | Execute preserves the invariant; with MaxRequests >= 1 a Closed breaker holds fewer than MaxRequests failures, and a call that trips it leaves at least MaxRequests |
| BreakerProperties.FireResets | circuitbreaker.go:70-75 | the callback sets HalfOpen and failures 0 from any state, without checking it |
| BreakerProperties.FireKeepsInv | circuitbreaker.go:70-75 | a pending timer exists only while Open, and firing it preserves the invariant |
| BreakerProperties.CallsAppend | circuitbreaker.go:51-93 | running calls `a` and then calls `b` gives the same final fields, replies and invocation count as running `a + b` |
| BreakerProperties.OpenRejectsAll | circuitbreaker.go:55-57 | any run of calls while Open invokes fn zero times, rejects every call and leaves the fields as they were |
| BreakerProperties.FailuresCountUp | circuitbreaker.go:65-78 | consecutive critical failures from Closed raise the count one per call; the breaker is Closed below the threshold and Open once it is reached; each call runs fn and returns its own error |
| BreakerProperties.TripsOnceAtThreshold | circuitbreaker.go:55-78 | from a new breaker, a run of at least Threshold critical failures trips it exactly once, at the Threshold-th call (Open, count Threshold, timer armed); fn runs exactly Threshold times; every later call is rejected |
| BreakerProperties.NonCriticalKeepClosed | circuitbreaker.go:81-92 | any run of non-critical outcomes keeps a Closed breaker Closed with failures 0 and the timer untouched, and returns every result with a nil error |
| BreakerProperties.HalfOpenNeverReopens | circuitbreaker.go:59-68 | with MaxRequests >= 2, any run of critical failures in HalfOpen admits every call, leaves the breaker HalfOpen with failures 1, and returns each error |
| BreakerProperties.ReplayKeepsInv | circuitbreaker.go:51-93 | every interleaving of calls and timer firings preserves the invariant: a timer is pending iff Open, Open holds exactly Threshold failures, and otherwise fewer |
| BreakerProperties.ScenarioThresholdThree | circuitbreaker.go:55-78 | MaxRequests 3: three failures trip the breaker and the fourth call is rejected; after the timer fires, two failed calls both run and the breaker stays HalfOpen |
| BreakerProperties.ScenarioThresholdOne | circuitbreaker.go:59-78 | MaxRequests 1: one failure trips the breaker; after the timer fires, a failed trial reopens it and the next call is rejected |
| BreakerProperties.ScenarioCustomPredicate | circuitbreaker.go:65-92 | with a predicate that counts only ErrExecutionTimeout, other errors are answered with a nil error and never move a new breaker from Closed/0 |

## Left out

- Locking with `sync.Mutex` (circuitbreaker.go:52-53, 69, 71, 74, 76) is not modelled as such. `Execute` holds the lock for the whole call, including `fn` (circuitbreaker.go:52-53, 64), so calls never overlap in the source either; each `Execute` and each timer firing is one atomic step here, which is what the lock gives.
- The window in which `Execute` drops the lock around `time.AfterFunc` (circuitbreaker.go:69-76) is not modelled. It opens after `fn` has returned, so at most the timer callback or another call could slip in there.
- Only breakers built by `NewCircuitBreaker` are modelled (`Valid` requires a non-nil `IsError`). A zero-value `CircuitBreaker{}` is allowed by Go but panics at circuitbreaker.go:65 on its first non-nil error, because it calls a nil `IsError`.
- `Errors.Is` follows only single `%w` chains. Go's `Unwrap() []error` and custom `Is` methods are not modelled, and an `Opaque` error wraps nothing.
- Real time is not modelled. `Config.Interval` only parameterises the real timer. The timer is an event (`TimerFires`, `TimerGoesOff`) that the environment triggers.
- `Config.Timeout` is never read by the code, and `Config.Name` is descriptive only. Neither is part of `Config` here.
- Breaker.CircuitBreaker.TimerFires: requires a pending timer. Only a scheduled timer can run its callback. In the atomic model a timer is pending exactly while the breaker is Open, so a stale timer firing into another state cannot arise. The callback's missing state check is stated about `Fire` (`FireResets`).
- The text that `fmt.Errorf` builds for a rejection is not modelled. A rejection is `Wrapped(ErrCircuitBreakerOpen)`.
- `ErrExecutionTimeout` is a constructor of `Error`. The code never produces it.
- `IsError` is a pure total function. A Go predicate that panics or has side effects is not modelled.
- The protected callable's own side effects, panics and blocking are not modelled.

/**
 Error values of the circuit breaker package.

 Go's `error` interface is modelled by the datatype `Error`; a variable of type
 `error` that may be nil is an `Option<Error>` (None stands for nil). The two
 sentinel errors of the package are constructors; errors produced by the
 protected operation are opaque values; `fmt.Errorf("...: %w", e)` produces a
 `Wrapped(e)` whose message text is not modelled.
 */
module Errors {

  /** A possibly-nil value. */
  datatype Option<+T> = None | Some(value: T)

  datatype Error =
    | ErrCircuitBreakerOpen        // the breaker rejected the call
    | ErrExecutionTimeout          // declared by the package, produced nowhere
    | Opaque(id: nat)              // an error returned by the protected operation
    | Wrapped(cause: Error)        // an error wrapping `cause` with %w

  /**
   Go's errors.Is restricted to the errors of this model: `err` is `target`, or
   wraps it somewhere along its chain of single `%w` wraps. Multi-error
   `Unwrap() []error` and custom `Is` methods do not arise here.
   */
  function Is(err: Error, target: Error): bool
  {
    err == target || (err.Wrapped? && Is(err.cause, target))
  }
}

/**
 What the breaker promises, stated about the step functions of module Breaker:
 first of one call of Execute or one firing of the timer, then of whole runs.
 */
module BreakerProperties {
  import opened Errors
  import opened Breaker

  // ---------------------------------------------------------------------------
  // One step. OpenRejects, CriticalFailureCounts and NonCriticalResets state
  // about Step what Execute's per-branch postconditions state about the class,
  // for reasoning about runs of Step without an object.
  // ---------------------------------------------------------------------------

  /** A new breaker is Closed with no failures and no timer, and keeps the invariant. */
  lemma NewBreakerIsClosed(maxRequests: u32)
    ensures Inv(maxRequests, Snapshot(Closed, 0, NoTimer))
    ensures Threshold(maxRequests) >= 1
  {
  }

  /** The rejection is an empty result with an error that is ErrCircuitBreakerOpen by errors.Is. */
  lemma RejectionWrapsOpen()
    ensures Rejection().value == ""
    ensures Rejection().err.Some? && Rejection().err.value != ErrCircuitBreakerOpen
    ensures Is(Rejection().err.value, ErrCircuitBreakerOpen)
    ensures !Is(Rejection().err.value, ErrExecutionTimeout)
  {
  }

  /** While Open, Execute rejects without invoking fn and changes nothing. */
  lemma OpenRejects(maxRequests: u32, isError: ErrorPredicate, s: Snapshot, call: Outcome)
    requires s.state == Open
    ensures var r := Step(maxRequests, isError, s, call);
      !r.invoked && r.reply == Rejection() && r.next == s
  {
  }

  /**
   A critical failure outside Open: fn is invoked, the caller gets "" and the
   original error, the counter goes up by one (from 0 in HalfOpen), and the
   breaker trips, arming a new timer, exactly when the new count reaches
   MaxRequests; otherwise state and timer stay as they were.
   */
  lemma CriticalFailureCounts(maxRequests: u32, isError: ErrorPredicate, s: Snapshot, call: Outcome)
    requires Inv(maxRequests, s)
    requires s.state != Open && Critical(isError, call.err)
    ensures var r := Step(maxRequests, isError, s, call);
      var before := if s.state == HalfOpen then 0 else s.failures as int;
      && r.invoked
      && r.reply == Outcome("", call.err)
      && r.next.failures as int == before + 1
      && (r.next.state == Open <==> before + 1 >= maxRequests as int)
      && (r.next.state == Open ==> r.next.timer == Handle(true))
      && (r.next.state != Open ==> r.next.state == s.state && r.next.timer == s.timer)
  {
  }

  /**
   Any other outcome outside Open, a nil error or one IsError rejects: fn is
   invoked, the caller gets the result and a nil error (a non-critical error
   is swallowed), the counter is cleared and the breaker ends Closed; from
   HalfOpen the timer is stopped, from Closed nothing else changes.
   */
  lemma NonCriticalResets(maxRequests: u32, isError: ErrorPredicate, s: Snapshot, call: Outcome)
    requires s.state != Open && !Critical(isError, call.err)
    ensures var r := Step(maxRequests, isError, s, call);
      && r.invoked
      && r.reply == Outcome(call.value, None)
      && r.next.state == Closed && r.next.failures == 0
      && (s.state == HalfOpen ==> r.next.timer == Stop(s.timer) && r.next.timer != Handle(true))
      && (s.state == Closed ==> r.next == Snapshot(Closed, 0, s.timer))
  {
  }

  /**
   The HalfOpen trial: a failed trial reopens the breaker only when
   MaxRequests <= 1; otherwise the breaker stays HalfOpen holding one failure.
   */
  lemma HalfOpenTrialFails(maxRequests: u32, isError: ErrorPredicate, s: Snapshot, call: Outcome)
    requires s.state == HalfOpen && Critical(isError, call.err)
    ensures var r := Step(maxRequests, isError, s, call);
      && (r.next.state == Open <==> maxRequests <= 1)
      && (maxRequests > 1 ==> r.next == Snapshot(HalfOpen, 1, s.timer))
  {
  }

  /**
   Execute keeps the invariant; in particular the counter never wraps, a
   Closed breaker holds fewer than MaxRequests failures, and a call that trips
   the breaker leaves at least MaxRequests.
   */
  lemma StepKeepsInv(maxRequests: u32, isError: ErrorPredicate, s: Snapshot, call: Outcome)
    requires Inv(maxRequests, s)
    ensures var r := Step(maxRequests, isError, s, call);
      && Inv(maxRequests, r.next)
      && (r.next.state == Closed && maxRequests >= 1 ==> r.next.failures < maxRequests)
      && (s.state != Open && r.next.state == Open ==> r.next.failures >= maxRequests)
  {
  }

  /** The timer callback sets HalfOpen and clears the counter without looking at the state. */
  lemma FireResets(s: Snapshot)
    ensures Fire(s).state == HalfOpen && Fire(s).failures == 0
    ensures Fire(s).timer != Handle(true)
  {
  }

  /** Firing the one pending timer keeps the invariant. */
  lemma FireKeepsInv(maxRequests: u32, s: Snapshot)
    requires Inv(maxRequests, s) && s.timer == Handle(true)
    ensures s.state == Open
    ensures Inv(maxRequests, Fire(s))
  {
  }

  // ---------------------------------------------------------------------------
  // Runs of calls
  // ---------------------------------------------------------------------------

  /** The end of a run: the last fields, every reply in order, and how many calls invoked fn. */
  datatype History = History(last: Snapshot, replies: seq<Outcome>, invocations: nat)

  /** Execute called once for each outcome of `calls`, in order, with no timer firing in between. */
  function Calls(maxRequests: u32, isError: ErrorPredicate, s: Snapshot, calls: seq<Outcome>): (h: History)
    ensures |h.replies| == |calls|
    ensures h.invocations <= |calls|
    decreases |calls|
  {
    if calls == [] then History(s, [], 0)
    else
      var r := Step(maxRequests, isError, s, calls[0]);
      var rest := Calls(maxRequests, isError, r.next, calls[1..]);
      History(rest.last, [r.reply] + rest.replies, rest.invocations + (if r.invoked then 1 else 0))
  }

  /** A run of `a` followed by a run of `b` is the run of `a + b`. */
  lemma {:induction false} CallsAppend(maxRequests: u32, isError: ErrorPredicate, s: Snapshot, a: seq<Outcome>, b: seq<Outcome>)
    ensures var ha := Calls(maxRequests, isError, s, a);
      var hb := Calls(maxRequests, isError, ha.last, b);
      Calls(maxRequests, isError, s, a + b)
        == History(hb.last, ha.replies + hb.replies, ha.invocations + hb.invocations)
    decreases |a|
  {
    if a == [] {
      assert a + b == b;
    } else {
      assert (a + b)[0] == a[0] && (a + b)[1..] == a[1..] + b;
      var r := Step(maxRequests, isError, s, a[0]);
      CallsAppend(maxRequests, isError, r.next, a[1..], b);
      var tail := Calls(maxRequests, isError, r.next, a[1..]);
      var hb := Calls(maxRequests, isError, tail.last, b);
      assert [r.reply] + (tail.replies + hb.replies) == ([r.reply] + tail.replies) + hb.replies;
    }
  }

  /** However many calls arrive while Open, each is rejected, fn never runs and nothing changes. */
  lemma {:induction false} OpenRejectsAll(maxRequests: u32, isError: ErrorPredicate, s: Snapshot, calls: seq<Outcome>)
    requires s.state == Open
    ensures var h := Calls(maxRequests, isError, s, calls);
      && h.last == s
      && h.invocations == 0
      && forall i :: 0 <= i < |h.replies| ==> h.replies[i] == Rejection()
    decreases |calls|
  {
    if calls != [] {
      OpenRejectsAll(maxRequests, isError, s, calls[1..]);
    }
  }

  /**
   Consecutive critical failures from Closed: every call runs fn and returns
   its error, and the breaker stays Closed until the count reaches the
   threshold, at which point it is Open.
   */
  lemma {:induction false} FailuresCountUp(maxRequests: u32, isError: ErrorPredicate, s: Snapshot, calls: seq<Outcome>)
    requires s.state == Closed && Inv(maxRequests, s)
    requires forall i :: 0 <= i < |calls| ==> Critical(isError, calls[i].err)
    requires s.failures as nat + |calls| <= Threshold(maxRequests)
    ensures var h := Calls(maxRequests, isError, s, calls);
      && h.last.failures as nat == s.failures as nat + |calls|
      && h.last.state == (if h.last.failures as nat == Threshold(maxRequests) then Open else Closed)
      && Inv(maxRequests, h.last)
      && h.invocations == |calls|
      && forall i :: 0 <= i < |calls| ==> h.replies[i] == Outcome("", calls[i].err)
    decreases |calls|
  {
    if calls != [] {
      var r := Step(maxRequests, isError, s, calls[0]);
      if |calls| == 1 {
        assert Calls(maxRequests, isError, r.next, calls[1..]) == History(r.next, [], 0);
      } else {
        assert r.next.state == Closed;
        FailuresCountUp(maxRequests, isError, r.next, calls[1..]);
      }
    }
  }

  /**
   From a fresh Closed breaker, a run of critical failures trips it exactly
   once, at the Threshold-th call: fn runs that many times, those calls return
   their own errors, and every later call is rejected.
   */
  lemma TripsOnceAtThreshold(maxRequests: u32, isError: ErrorPredicate, calls: seq<Outcome>)
    requires forall i :: 0 <= i < |calls| ==> Critical(isError, calls[i].err)
    requires |calls| >= Threshold(maxRequests)
    ensures var h := Calls(maxRequests, isError, Snapshot(Closed, 0, NoTimer), calls);
      var t := Threshold(maxRequests);
      && h.last == Snapshot(Open, t as u32, Handle(true))
      && h.invocations == t
      && (forall i :: 0 <= i < t ==> h.replies[i] == Outcome("", calls[i].err))
      && (forall i :: t <= i < |calls| ==> h.replies[i] == Rejection())
  {
    var s := Snapshot(Closed, 0, NoTimer);
    var t := Threshold(maxRequests);
    var a, b := calls[..t], calls[t..];
    assert calls == a + b;
    FailuresCountUp(maxRequests, isError, s, a);
    var ha := Calls(maxRequests, isError, s, a);
    OpenRejectsAll(maxRequests, isError, ha.last, b);
    CallsAppend(maxRequests, isError, s, a, b);
  }

  /**
   Outcomes that do not count (successes, or errors IsError rejects) leave a
   Closed breaker Closed with no failures, each returning its result with a
   nil error: repeated successes are idempotent, and unrelated errors never
   trip the breaker.
   */
  lemma {:induction false} NonCriticalKeepClosed(maxRequests: u32, isError: ErrorPredicate, s: Snapshot, calls: seq<Outcome>)
    requires s.state == Closed
    requires forall i :: 0 <= i < |calls| ==> !Critical(isError, calls[i].err)
    ensures var h := Calls(maxRequests, isError, s, calls);
      && h.last.state == Closed
      && h.last.timer == s.timer
      && (calls != [] ==> h.last.failures == 0)
      && h.invocations == |calls|
      && forall i :: 0 <= i < |calls| ==> h.replies[i] == Outcome(calls[i].value, None)
    decreases |calls|
  {
    if calls != [] {
      var r := Step(maxRequests, isError, s, calls[0]);
      NonCriticalKeepClosed(maxRequests, isError, r.next, calls[1..]);
    }
  }

  /**
   As written, a HalfOpen breaker with MaxRequests >= 2 never reopens: each
   call clears the counter at admission, so every failed trial leaves one
   failure and the breaker HalfOpen, and every call is admitted.
   */
  lemma {:induction false} HalfOpenNeverReopens(maxRequests: u32, isError: ErrorPredicate, s: Snapshot, calls: seq<Outcome>)
    requires maxRequests >= 2 && s.state == HalfOpen
    requires forall i :: 0 <= i < |calls| ==> Critical(isError, calls[i].err)
    ensures var h := Calls(maxRequests, isError, s, calls);
      && h.last.state == HalfOpen
      && h.last.timer == s.timer
      && (calls != [] ==> h.last.failures == 1)
      && h.invocations == |calls|
      && forall i :: 0 <= i < |calls| ==> h.replies[i] == Outcome("", calls[i].err)
    decreases |calls|
  {
    if calls != [] {
      var r := Step(maxRequests, isError, s, calls[0]);
      HalfOpenNeverReopens(maxRequests, isError, r.next, calls[1..]);
    }
  }

  // ---------------------------------------------------------------------------
  // Runs of calls and timer firings
  // ---------------------------------------------------------------------------

  /** What the environment can do: call Execute, or let the recovery timer go off. */
  datatype Event = Call(outcome: Outcome) | TimerGoesOff

  /** One event: a timer that is not pending has nothing to fire. */
  function Apply(maxRequests: u32, isError: ErrorPredicate, s: Snapshot, e: Event): Snapshot
  {
    match e
    case Call(o) => Step(maxRequests, isError, s, o).next
    case TimerGoesOff => if s.timer == Handle(true) then Fire(s) else s
  }

  /** The fields after every event of `events`, in order. */
  function Replay(maxRequests: u32, isError: ErrorPredicate, s: Snapshot, events: seq<Event>): Snapshot
    decreases |events|
  {
    if events == [] then s
    else Replay(maxRequests, isError, Apply(maxRequests, isError, s, events[0]), events[1..])
  }

  /**
   Every state a breaker reaches through any interleaving of calls and timer
   firings satisfies the invariant: fewer than the threshold failures unless
   Open, and a pending timer exactly while Open.
   */
  lemma {:induction false} ReplayKeepsInv(maxRequests: u32, isError: ErrorPredicate, s: Snapshot, events: seq<Event>)
    requires Inv(maxRequests, s)
    ensures Inv(maxRequests, Replay(maxRequests, isError, s, events))
    decreases |events|
  {
    if events != [] {
      var next := Apply(maxRequests, isError, s, events[0]);
      match events[0] {
        case Call(o) => StepKeepsInv(maxRequests, isError, s, o);
        case TimerGoesOff =>
          if s.timer == Handle(true) {
            FireKeepsInv(maxRequests, s);
          }
      }
      ReplayKeepsInv(maxRequests, isError, next, events[1..]);
    }
  }

  /**
   MaxRequests 3, default predicate: three failures trip the breaker and the
   fourth call is rejected without running fn. After the timer fires, a failed
   trial does not reopen it: the breaker stays HalfOpen and the next call runs.
   */
  lemma ScenarioThresholdThree(e: Error)
    ensures var fail := Outcome("x", Some(e));
      var h := Calls(3, DefaultIsError, Snapshot(Closed, 0, NoTimer), [fail, fail, fail, fail]);
      && h.last == Snapshot(Open, 3, Handle(true))
      && h.invocations == 3
      && h.replies[3] == Rejection()
      && var trial := Calls(3, DefaultIsError, Fire(h.last), [fail, fail]);
      && trial.last == Snapshot(HalfOpen, 1, Handle(false))
      && trial.invocations == 2
      && trial.replies == [Outcome("", Some(e)), Outcome("", Some(e))]
  {
    var fail := Outcome("x", Some(e));
    TripsOnceAtThreshold(3, DefaultIsError, [fail, fail, fail, fail]);
    HalfOpenNeverReopens(3, DefaultIsError, Fire(Snapshot(Open, 3, Handle(true))), [fail, fail]);
  }

  /**
   MaxRequests 1: one failure trips the breaker; after the timer fires a failed
   trial reopens it, and the next call is rejected at once.
   */
  lemma ScenarioThresholdOne(e: Error)
    ensures var fail := Outcome("x", Some(e));
      var h := Calls(1, DefaultIsError, Snapshot(Closed, 0, NoTimer), [fail]);
      && h.last == Snapshot(Open, 1, Handle(true))
      && var trial := Calls(1, DefaultIsError, Fire(h.last), [fail, fail]);
      && trial.last == Snapshot(Open, 1, Handle(true))
      && trial.invocations == 1
      && trial.replies == [Outcome("", Some(e)), Rejection()]
  {
    var fail := Outcome("x", Some(e));
    var s1 := Step(1, DefaultIsError, Snapshot(HalfOpen, 0, Handle(false)), fail).next;
    assert Calls(1, DefaultIsError, s1, [fail]) == History(s1, [Rejection()], 0);
  }

  /**
   A predicate that counts only ErrExecutionTimeout: any other error, however
   often, is answered as a success and never moves a Closed breaker.
   */
  lemma ScenarioCustomPredicate(maxRequests: u32, calls: seq<Outcome>)
    requires forall i :: 0 <= i < |calls| ==> calls[i].err != Some(ErrExecutionTimeout)
    ensures var onlyTimeouts := (err: Option<Error>) => err == Some(ErrExecutionTimeout);
      var h := Calls(maxRequests, onlyTimeouts, Snapshot(Closed, 0, NoTimer), calls);
      && h.last == Snapshot(Closed, 0, NoTimer)
      && forall i :: 0 <= i < |calls| ==> h.replies[i].err == None
  {
    var onlyTimeouts := (err: Option<Error>) => err == Some(ErrExecutionTimeout);
    NonCriticalKeepClosed(maxRequests, onlyTimeouts, Snapshot(Closed, 0, NoTimer), calls);
  }
}

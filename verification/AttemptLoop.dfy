/** `attemptLoop` as the code has it: an object whose fields thread one `RoundTrip` through its attempts. */
module AttemptLoop {
  import opened Wrappers
  import opened RetryAfter
  import opened RetryTransport
  import Retry

  class AttemptLoop {
    const rt: Transport
    const req: Request
    const env: Env
    const retryable: bool

    var resp: Option<Response>
    var prev: Option<Response>
    var prevCancel: Option<nat>
    var attempt: nat
    var log: Log

    constructor (rt: Transport, req: Request, env: Env, retryable: bool)
      ensures this.rt == rt && this.req == req && this.env == env && this.retryable == retryable
      ensures prev.None? && prevCancel.None? && resp.None? && attempt == 0 && log == Start
    {
      this.rt, this.req, this.env, this.retryable := rt, req, env, retryable;
      resp, prev, prevCancel, attempt, log := None, None, None, 0, Start;
    }

    ghost predicate Valid()
      reads this
    {
      retryable == Retryable(rt, req) && (prev.Some? <==> prevCancel.Some?)
    }

    ghost function Holds(): Option<Held>
      requires Valid()
      reads this
    {
      if prev.None? then None else Some(Held(prev.value, prevCancel.value))
    }

    /** The loop's state, with the error of the step that led to it. */
    ghost function State(err: Option<Error>): State
      requires Valid()
      reads this
    {
      RetryTransport.State(log, err, Holds(), resp)
    }

    /** Lines 271-275. */
    method DrainClose(r: Response, cancel: nat)
      modifies this`log
      ensures log == DrainClosed(old(log), r, cancel)
    {
      log := Then(log, Drained(r.id));
      log := Then(log, Closed(r.id));
      log := Then(log, Cancelled(cancel));
    }

    /** Lines 109-115. */
    method DrainPrev()
      requires Valid()
      modifies this`prev, this`prevCancel, this`log
      ensures Valid() && Holds() == None && log == DrainedPrev(old(log), old(Holds()))
    {
      if prev.None? {
        return;
      }
      DrainClose(prev.value, prevCancel.value);
      prev, prevCancel := None, None;
    }

    /** Lines 93-104. */
    method Once() returns (err: Option<Error>)
      requires Valid() && resp.None?
      modifies this
      ensures Valid() && attempt == old(attempt) + 1
      ensures State(err) == OnceState(rt, req, env, attempt, old(Holds()), old(log))
    {
      attempt := attempt + 1;
      DrainPrev();
      if attempt > 1 {
        if !env.allow(attempt) {
          log := Then(log, Allowed(attempt, false));
          log := Then(log, Recorded(false));
          return Some(BudgetExhausted);
        }
        log := Then(log, Allowed(attempt, true));
        log := Then(log, Recorded(true));
      }
      err := Send();
    }

    /** Lines 118-146. */
    method Send() returns (err: Option<Error>)
      requires Valid() && resp.None? && prev.None? && attempt > 0
      modifies this`resp, this`prev, this`prevCancel, this`log
      ensures Valid() && State(err) == SendState(rt, req, env, attempt, old(log))
    {
      log := Then(log, ContextMade(attempt));
      var rewound := false;
      if attempt > 1 && req.hasGetBody {
        err := env.getBody(attempt);
        log := Then(log, BodyRewound(attempt, err.None?));
        if err.Some? {
          log := Then(log, Cancelled(attempt));
          return;
        }
        rewound := true;
      }
      log := Then(log, Sent(attempt, rewound));
      match env.base(attempt) {
        case Fails(e) =>
          log := Then(log, Cancelled(attempt));
          var normal := Normalise(e);
          return Some(normal);
        case Answers(status, header, date) =>
          log := Then(log, Received(attempt));
          err := Classify(Response(attempt, status), header, date, attempt);
      }
    }

    /** Lines 204-212. */
    method Normalise(e: Below) returns (err: Error)
      requires attempt > 0
      modifies this`log
      ensures RetryTransport.State(log, Some(err), None, None) == Normalised(env, attempt, e, old(log))
    {
      if env.dead(3 * attempt - 2) {
        log := Then(log, SawDead);
        return CallerDead;
      }
      if env.timedOut(attempt) || Has(log, Cancelled(attempt)) {
        return AttemptTimeout;
      }
      return e;
    }

    /** Lines 151-165. */
    method Classify(r: Response, header: string, date: int, cancel: nat) returns (err: Option<Error>)
      requires Valid() && resp.None? && prev.None? && r.id == cancel
      modifies this`resp, this`prev, this`prevCancel, this`log
      ensures Valid() && State(err) == Classified(rt, req, r.id, Answers(r.status, header, date), old(log))
    {
      if r.status in RETRYABLE_STATUSES && retryable {
        var delay := Delay(rt.cap, r.status, header, date);
        if delay.Some? {
          prev, prevCancel := Some(r), Some(cancel);
          return Some(RetryableStatus(r.status, delay.value));
        }
      }
      log := Then(log, Wrapped(r.id, cancel));
      resp := Some(r);
      return None;
    }

    /** Lines 140-151 of retry/retry.go: after an attempt, whether the retrier returns, and with what. */
    method Decide(err: Option<Error>) returns (done: bool, err': Option<Error>)
      requires Valid() && attempt > 0 && (resp.Some? <==> err.None?)
      modifies this`log
      ensures NextAfter(rt, env, attempt, old(State(err))) == if done then Return(State(err')) else GoOn(Holds(), log)
      ensures !done ==> attempt != Retry.Attempts(rt.retry) && resp.None?
    {
      if err.None? || !env.retryIf(attempt, err.value) || attempt == Retry.Attempts(rt.retry) {
        return true, err;
      }
      log := Then(log, Slept(Wait(rt, env, attempt, err.value)));
      if env.interrupted(attempt) {
        log := Then(log, SawDead);
        return true, Some(CallerDead);
      }
      return false, err;
    }

    /** One pass of the retrier's loop: lines 137-151 of retry/retry.go. */
    method Pass() returns (done: bool, err: Option<Error>)
      requires Valid() && resp.None? && attempt < Retry.Attempts(rt.retry)
      modifies this
      ensures Valid() && (!done ==> attempt == old(attempt) + 1 < Retry.Attempts(rt.retry) && resp.None?)
      ensures LoopState(rt, req, env, old(attempt) + 1, old(Holds()), old(log)) ==
        if done then State(err) else LoopState(rt, req, env, attempt + 1, Holds(), log)
    {
      if env.dead(3 * attempt) {
        log := Then(log, SawDead);
        return true, Some(CallerDead);
      }
      ghost var held, before := Holds(), log;
      OnceHasResult(rt, req, env, attempt + 1, held, before);
      err := Once();
      ghost var s := State(err);
      done, err := Decide(err);
      LoopUnfolds(rt, req, env, attempt, held, before, s, if done then Return(State(err)) else GoOn(Holds(), log));
    }

    /** The retrier's loop over `Once`: lines 133-153 of retry/retry.go. */
    method DoCtx() returns (err: Option<Error>)
      requires Valid() && resp.None? && prev.None? && attempt == 0
      modifies this
      ensures Valid() && State(err) == LoopState(rt, req, env, 1, None, old(log))
    {
      ghost var whole := LoopState(rt, req, env, 1, None, log);
      for i := 0 to Retry.Attempts(rt.retry)
        invariant Valid() && attempt == i && resp.None?
        invariant i < Retry.Attempts(rt.retry) && whole == LoopState(rt, req, env, i + 1, Holds(), log)
      {
        var done;
        done, err := Pass();
        if done {
          return;
        }
      }
    }

    /** Lines 170-183. */
    method Result(err: Option<Error>) returns (r: Result<Response, Error>)
      requires Valid() && (resp.Some? || err.Some?)
      modifies this`log
      ensures Outcome(r, log) == Resulting(old(State(err)))
    {
      if resp.Some? {
        return Ok(resp.value);
      }
      if err.value.RetryableStatus? && prev.Some? {
        log := Then(log, Wrapped(prev.value.id, prevCancel.value));
        return Ok(prev.value);
      }
      if prev.Some? {
        DrainClose(prev.value, prevCancel.value);
      }
      return Err(err.value);
    }
  }

  /** Lines 72-90. */
  method RoundTrip(rt: Transport, req: Request, env: Env) returns (out: Outcome)
    ensures out == RoundTripped(rt, req, env)
  {
    var retryable := rt.nonIdem || req.verb in IDEMPOTENT_METHODS;
    if retryable && req.hasBody && !req.hasGetBody {
      return Outcome(Err(NonReplayableBody), Start);
    }
    OnceHasResult(rt, req, env, 1, None, Start);
    RunHasResult(rt, req, env, 1, None, Start);
    var loop := new AttemptLoop(rt, req, env, retryable);
    var err;
    if !retryable {
      err := loop.Once();
    } else {
      err := loop.DoCtx();
    }
    var r := loop.Result(err);
    return Outcome(r, loop.log);
  }
}

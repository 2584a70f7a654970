/**
 The retrying transport of httpclient/retry_transport.go.  Base, budget, context, clock and random source are
 parameters, indexed by the number of the attempt; everything done to a response, a context or the budget is
 an event of a log.

 Attempt `a` (from 1) makes the context with cancel function `a` and at most one response, `a`.
 */
module RetryTransport {
  import opened Wrappers
  import opened RetryAfter
  import Retry

  datatype Request = Request(verb: string, hasBody: bool, hasGetBody: bool)

  datatype Transport = Transport(retry: Retry.Config, nonIdem: bool, cap: int)

  datatype Response = Response(id: nat, status: int)

  /** An error from below the transport: of base or of the request's `GetBody`. */
  type Below = e: Error | e.Other? witness Other(false, false, false, 0)

  datatype Base = Fails(error: Below) | Answers(status: int, retryAfter: string, date: int)

  /** `dead(k)` is whether the caller's context is dead at the k-th look at it: attempt `a` looks at 3a - 3
      before it starts, at 3a - 2 when base fails, and its sleep is over by 3a - 1. */
  datatype Env = Env(
    base: nat -> Base,
    timedOut: nat -> bool,
    allow: nat -> bool,
    getBody: nat -> Option<Below>,
    dead: nat -> bool,
    interrupted: nat -> bool,
    retryIf: (nat, Error) -> bool,
    roll: (nat, int) -> int)

  /** A dead context stays dead, and only a dead one interrupts a sleep. */
  ghost predicate Sane(env: Env) {
    && (forall j, k :: j <= k && env.dead(j) ==> env.dead(k))
    && (forall a: nat :: a > 0 && env.interrupted(a) ==> env.dead(3 * a - 1))
  }

  datatype Event =
    | SawDead
    | ContextMade(id: nat)
    | BodyRewound(id: nat, ok: bool)
    | Sent(id: nat, rewound: bool)
    | Received(id: nat)
    | Drained(id: nat)
    | Closed(id: nat)
    | Cancelled(id: nat)
    | Wrapped(body: nat, cancel: nat)
    | Allowed(id: nat, yes: bool)
    | Recorded(yes: bool)
    | Slept(delay: int)

  /** A log, by its last event. */
  datatype Log = Start | Then(before: Log, last: Event)

  predicate Has(log: Log, e: Event) {
    log.Then? && (log.last == e || Has(log.before, e))
  }

  /** A response held for the next attempt to drain, and its cancel. */
  datatype Held = Held(response: Response, cancel: nat)

  predicate Retryable(rt: Transport, req: Request) {
    rt.nonIdem || req.verb in IDEMPOTENT_METHODS
  }

  predicate Replayable(rt: Transport, req: Request) {
    !(Retryable(rt, req) && req.hasBody && !req.hasGetBody)
  }

  // ----- what one attempt does: lines 93-165

  /** The state after a step: the log so far, the error (None for nil), what is held and what is final. */
  datatype State = State(log: Log, err: Option<Error>, held: Option<Held>, resp: Option<Response>)

  function DrainClosed(log: Log, r: Response, cancel: nat): Log {
    Then(Then(Then(log, Drained(r.id)), Closed(r.id)), Cancelled(cancel))
  }

  function DrainedPrev(log: Log, held: Option<Held>): Log {
    if held.None? then log else DrainClosed(log, held.value.response, held.value.cancel)
  }

  /** The attempt's context has an error once its deadline has passed or its cancel has been called. */
  predicate AttemptDead(env: Env, a: nat, log: Log) {
    env.timedOut(a) || Has(log, Cancelled(a))
  }

  /** `normalizeErr`. */
  function Normalised(env: Env, a: nat, e: Below, log: Log): State
    requires a > 0
  {
    if env.dead(3 * a - 2) then State(Then(log, SawDead), Some(CallerDead), None, None)
    else State(log, Some(if AttemptDead(env, a, log) then AttemptTimeout else e), None, None)
  }

  function Classified(rt: Transport, req: Request, a: nat, b: Base, log: Log): State
    requires b.Answers?
  {
    var r := Response(a, b.status);
    var delay := Delay(rt.cap, b.status, b.retryAfter, b.date);
    if Retryable(rt, req) && b.status in RETRYABLE_STATUSES && delay.Some? then
      State(log, Some(RetryableStatus(b.status, delay.value)), Some(Held(r, a)), None)
    else State(Then(log, Wrapped(a, a)), None, None, Some(r))
  }

  /** Base is called, its result handled. */
  function Tried(rt: Transport, req: Request, env: Env, a: nat, rewound: bool, log: Log): State
    requires a > 0
  {
    var log := Then(log, Sent(a, rewound));
    match env.base(a)
    case Fails(e) => Normalised(env, a, e, Then(log, Cancelled(a)))
    case Answers(_, _, _) => Classified(rt, req, a, env.base(a), Then(log, Received(a)))
  }

  function SendState(rt: Transport, req: Request, env: Env, a: nat, log: Log): State
    requires a > 0
  {
    var log := Then(log, ContextMade(a));
    if a > 1 && req.hasGetBody then
      if env.getBody(a).Some? then
        State(Then(Then(log, BodyRewound(a, false)), Cancelled(a)), env.getBody(a), None, None)
      else Tried(rt, req, env, a, true, Then(log, BodyRewound(a, true)))
    else Tried(rt, req, env, a, false, log)
  }

  function OnceState(rt: Transport, req: Request, env: Env, a: nat, held: Option<Held>, log: Log): State
    requires a > 0
  {
    var log := DrainedPrev(log, held);
    if a == 1 then SendState(rt, req, env, a, log)
    else if !env.allow(a) then
      State(Then(Then(log, Allowed(a, false)), Recorded(false)), Some(BudgetExhausted), None, None)
    else SendState(rt, req, env, a, Then(Then(log, Allowed(a, true)), Recorded(true)))
  }

  // ----- the whole run

  function Wait(rt: Transport, env: Env, a: nat, e: Error): int
    requires a > 0
  {
    Retry.NextDelay(rt.retry, a - 1, HintOf(e), (n: int) => env.roll(a, n))
  }

  /** What the retrier does after an attempt: it returns, or goes on to the next one. */
  datatype Next = Return(state: State) | GoOn(held: Option<Held>, log: Log)

  /** Lines 140-151 of retry/retry.go, after attempt `a` has led to `s`. */
  function NextAfter(rt: Transport, env: Env, a: nat, s: State): Next
    requires a > 0
  {
    if s.err.None? || !env.retryIf(a, s.err.value) || a == Retry.Attempts(rt.retry) then Return(s)
    else
      var log := Then(s.log, Slept(Wait(rt, env, a, s.err.value)));
      if env.interrupted(a) then Return(State(Then(log, SawDead), Some(CallerDead), s.held, None))
      else GoOn(s.held, log)
  }

  /** The retrier's loop from attempt `a` on. */
  function LoopState(rt: Transport, req: Request, env: Env, a: nat, held: Option<Held>, log: Log): State
    requires 0 < a <= Retry.Attempts(rt.retry)
    decreases Retry.Attempts(rt.retry) - a
  {
    if env.dead(3 * a - 3) then State(Then(log, SawDead), Some(CallerDead), held, None)
    else
      match NextAfter(rt, env, a, OnceState(rt, req, env, a, held, log))
      case Return(s) => s
      case GoOn(nextHeld, nextLog) =>
        LoopState(rt, req, env, a + 1, nextHeld, nextLog)
  }

  /** One pass of the loop. */
  lemma LoopUnfolds(
    rt: Transport, req: Request, env: Env, a: nat, held: Option<Held>, log: Log, s: State, next: Next)
    requires 0 < a <= Retry.Attempts(rt.retry) && !env.dead(3 * a - 3)
    requires s == OnceState(rt, req, env, a, held, log) && next == NextAfter(rt, env, a, s)
    ensures next.Return? ==> LoopState(rt, req, env, a, held, log) == next.state
    ensures next.GoOn? ==> a < Retry.Attempts(rt.retry)
    ensures next.GoOn? ==> LoopState(rt, req, env, a, held, log) == LoopState(rt, req, env, a + 1, next.held, next.log)
  {
  }

  /** From a point of the loop where `inv` holds, a pass keeps it or ends where `post` holds. */
  ghost predicate PassKeeps(
    rt: Transport, req: Request, env: Env, inv: (nat, Option<Held>, Log) -> bool, post: State -> bool,
    a: nat, held: Option<Held>, log: Log)
    requires a > 0
  {
    if env.dead(3 * a - 3) then post(State(Then(log, SawDead), Some(CallerDead), held, None))
    else
      match NextAfter(rt, env, a, OnceState(rt, req, env, a, held, log))
      case Return(s) => post(s)
      case GoOn(nextHeld, nextLog) => inv(a + 1, nextHeld, nextLog)
  }

  /** What every pass keeps holds at the end. */
  lemma {:induction false} LoopRule(
    rt: Transport, req: Request, env: Env, inv: (nat, Option<Held>, Log) -> bool, post: State -> bool,
    a: nat, held: Option<Held>, log: Log)
    requires 0 < a <= Retry.Attempts(rt.retry) && inv(a, held, log)
    requires forall b: nat, h, l ::
      0 < b <= Retry.Attempts(rt.retry) && inv(b, h, l) ==> PassKeeps(rt, req, env, inv, post, b, h, l)
    ensures post(LoopState(rt, req, env, a, held, log))
    decreases Retry.Attempts(rt.retry) - a
  {
    assert PassKeeps(rt, req, env, inv, post, a, held, log);
    if !env.dead(3 * a - 3) {
      var s := OnceState(rt, req, env, a, held, log);
      var next := NextAfter(rt, env, a, s);
      LoopUnfolds(rt, req, env, a, held, log, s, next);
      if next.GoOn? {
        LoopRule(rt, req, env, inv, post, a + 1, next.held, next.log);
      }
    }
  }

  datatype Outcome = Outcome(result: Result<Response, Error>, log: Log)

  /** Lines 170-183. */
  function Resulting(s: State): Outcome
    requires s.resp.Some? || s.err.Some?
  {
    if s.resp.Some? then Outcome(Ok(s.resp.value), s.log)
    else if s.err.value.RetryableStatus? && s.held.Some? then
      Outcome(Ok(s.held.value.response), Then(s.log, Wrapped(s.held.value.response.id, s.held.value.cancel)))
    else Outcome(Err(s.err.value), DrainedPrev(s.log, s.held))
  }

  lemma OnceHasResult(rt: Transport, req: Request, env: Env, a: nat, held: Option<Held>, log: Log)
    requires a > 0
    ensures var s := OnceState(rt, req, env, a, held, log); s.resp.Some? <==> s.err.None?
  {
  }

  lemma {:induction false} RunHasResult(
    rt: Transport, req: Request, env: Env, a: nat, held: Option<Held>, log: Log)
    requires 0 < a <= Retry.Attempts(rt.retry)
    ensures var s := LoopState(rt, req, env, a, held, log); s.resp.Some? <==> s.err.None?
    decreases Retry.Attempts(rt.retry) - a
  {
    if !env.dead(3 * a - 3) {
      var s := OnceState(rt, req, env, a, held, log);
      OnceHasResult(rt, req, env, a, held, log);
      match NextAfter(rt, env, a, s) {
        case Return(_) =>
        case GoOn(nextHeld, nextLog) => RunHasResult(rt, req, env, a + 1, nextHeld, nextLog);
      }
    }
  }

  function RunState(rt: Transport, req: Request, env: Env): State {
    if Retryable(rt, req) then LoopState(rt, req, env, 1, None, Start) else OnceState(rt, req, env, 1, None, Start)
  }

  function RoundTripped(rt: Transport, req: Request, env: Env): Outcome {
    if !Replayable(rt, req) then Outcome(Err(NonReplayableBody), Start)
    else
      RunHasResult(rt, req, env, 1, None, Start);
      Resulting(RunState(rt, req, env))
  }
}

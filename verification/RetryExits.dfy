/**
 How one `RoundTrip` ends, from the answers of base, budget, `GetBody`, contexts and classifier alone: with which
 attempt, with which result, and with which events in the log.
 */
module RetryExits {
  import opened Wrappers
  import opened RetryAfter
  import opened RetryFailures
  import opened RetryLoop
  import opened RetryRuns
  import opened RetryTransport
  import Retry

  // ----- one attempt

  /** What attempt `a` gives the retrier: the budget is asked first, then the body, then base. */
  function AttemptError(rt: Transport, req: Request, env: Env, a: nat): (e: Option<Error>)
    requires a > 0
    ensures e.None? ==> env.base(a).Answers?
    ensures e.Some? && e.value.RetryableStatus? ==> env.base(a).Answers?
  {
    if a > 1 && !env.allow(a) then Some(BudgetExhausted)
    else if a > 1 && req.hasGetBody && env.getBody(a).Some? then env.getBody(a)
    else
      match env.base(a)
      case Fails(_) => Some(if env.dead(3 * a - 2) then CallerDead else AttemptTimeout)
      case Answers(_, _, _) =>
        if WorthRetrying(rt, req, env.base(a)) then Some(StatusError(rt, req, env.base(a))) else None
  }

  /** `s` is what attempt `a` leads to. */
  predicate LedTo(rt: Transport, req: Request, env: Env, a: nat, s: State)
    requires a > 0
  {
    var e := AttemptError(rt, req, env, a);
    && s.err == e
    && (e.None? ==> s.resp == Some(Response(a, env.base(a).status)) && s.held.None?)
    && (e.Some? ==> s.resp.None?)
    && (e.Some? && e.value.RetryableStatus? ==>
          s.held.Some? && s.held.value.response == Response(a, env.base(a).status))
  }

  /** What an attempt leads to, whatever is held when it begins. */
  lemma OnceIs(rt: Transport, req: Request, env: Env, a: nat, held: Option<Held>, log: Log)
    requires a > 0
    ensures LedTo(rt, req, env, a, OnceState(rt, req, env, a, held, log))
  {
    ErrorAlone(rt, req, env, a, held, log);
    AnswerOf(rt, req, env, a, held, log);
    if a > 1 && !env.allow(a) { return; }
    if CallsBase(req, env, a) && env.base(a).Fails? { FailureAsDocumentedIff(rt, req, env, a); }
  }

  // ----- the last attempt

  /** Attempt `a` is made, fails, and leads to another. */
  predicate LeadsOn(rt: Transport, req: Request, env: Env, a: nat)
    requires a > 0
  {
    var e := AttemptError(rt, req, env, a);
    && a < Retry.Attempts(rt.retry) && !env.dead(3 * a - 3)
    && e.Some? && env.retryIf(a, e.value) && !env.interrupted(a)
  }

  /** `n` is the first attempt that does not lead to another. */
  ghost predicate IsLast(rt: Transport, req: Request, env: Env, n: nat) {
    && 0 < n <= Retry.Attempts(rt.retry)
    && (forall b :: 0 < b < n ==> LeadsOn(rt, req, env, b))
    && !LeadsOn(rt, req, env, n)
  }

  /** What the caller gets when attempt `n` is the last: the caller's death before it or in the sleep after it, its
      response, kept or not worth keeping on for, or its error. */
  function ResultAt(rt: Transport, req: Request, env: Env, n: nat): Result<Response, Error>
    requires n > 0
  {
    if env.dead(3 * n - 3) then Err(CallerDead)
    else
      match AttemptError(rt, req, env, n)
      case None => Ok(Response(n, env.base(n).status))
      case Some(e) =>
        if n < Retry.Attempts(rt.retry) && env.retryIf(n, e) then Err(CallerDead)
        else if e.RetryableStatus? then Ok(Response(n, env.base(n).status))
        else Err(e)
  }

  /** The loop's state has what the result needs. */
  predicate Yields(s: State, r: Result<Response, Error>) {
    match r
    case Ok(response) =>
      || s.resp == Some(response)
      || (s.resp.None? && s.err.Some? && s.err.value.RetryableStatus?
          && s.held.Some? && s.held.value.response == response)
    case Err(e) => s.resp.None? && s.err == Some(e) && !e.RetryableStatus?
  }

  lemma YieldsResult(s: State, r: Result<Response, Error>)
    requires Yields(s, r)
    ensures s.resp.Some? || s.err.Some?
    ensures Resulting(s).result == r
  {
  }

  lemma ReturnYields(rt: Transport, req: Request, env: Env, a: nat, s: State)
    requires 0 < a <= Retry.Attempts(rt.retry) && !env.dead(3 * a - 3)
    ensures var next := NextAfter(rt, env, a, s);
      LedTo(rt, req, env, a, s) ==>
        && (next.GoOn? <==> LeadsOn(rt, req, env, a))
        && (next.Return? ==> Yields(next.state, ResultAt(rt, req, env, a)))
  {
  }

  lemma {:induction false} LastFrom(rt: Transport, req: Request, env: Env, a: nat) returns (n: nat)
    requires 0 < a <= Retry.Attempts(rt.retry) && forall b :: 0 < b < a ==> LeadsOn(rt, req, env, b)
    ensures IsLast(rt, req, env, n)
    decreases Retry.Attempts(rt.retry) - a
  {
    n := a;
    if LeadsOn(rt, req, env, a) { n := LastFrom(rt, req, env, a + 1); }
  }

  /** `calls` attempts in all when `n` is the last: it is not made if the caller is dead before it. */
  predicate MadeWhen(env: Env, n: nat, calls: int)
    requires n > 0
  {
    calls == if env.dead(3 * n - 3) then n - 1 else n
  }

  function EndInv(rt: Transport, req: Request, env: Env, n: nat, calls: int): (nat, Option<Held>, Log) -> bool {
    (a: nat, held: Option<Held>, log: Log) => 0 < a <= n && a - 1 + RunFrom(rt, req, env, a).calls == calls
  }

  function EndPost(rt: Transport, req: Request, env: Env, n: nat, calls: int): State -> bool
    requires n > 0
  {
    (s: State) => Yields(s, ResultAt(rt, req, env, n)) && MadeWhen(env, n, calls)
  }

  lemma PassEnds(
    rt: Transport, req: Request, env: Env, n: nat, calls: int, a: nat, held: Option<Held>, log: Log)
    requires IsLast(rt, req, env, n) && 0 < a <= n && a - 1 + RunFrom(rt, req, env, a).calls == calls
    ensures PassKeeps(rt, req, env, EndInv(rt, req, env, n, calls), EndPost(rt, req, env, n, calls), a, held, log)
  {
    assert a < n ==> LeadsOn(rt, req, env, a);
    if env.dead(3 * a - 3) {
      NoCalls(rt, req, env, a);
      DeadYields(log, held);
    } else {
      LivePassEnds(rt, req, env, n, calls, a, held, log);
    }
  }

  lemma DeadYields(log: Log, held: Option<Held>)
    ensures Yields(State(Then(log, SawDead), Some(CallerDead), held, None), Err(CallerDead))
  {
  }

  lemma LivePassEnds(
    rt: Transport, req: Request, env: Env, n: nat, calls: int, a: nat, held: Option<Held>, log: Log)
    requires IsLast(rt, req, env, n) && 0 < a <= n && a - 1 + RunFrom(rt, req, env, a).calls == calls
    requires !env.dead(3 * a - 3) && (a < n ==> LeadsOn(rt, req, env, a))
    ensures PassKeeps(rt, req, env, EndInv(rt, req, env, n, calls), EndPost(rt, req, env, n, calls), a, held, log)
  {
    var s := OnceState(rt, req, env, a, held, log);
    var next := NextAfter(rt, env, a, s);
    OnceIs(rt, req, env, a, held, log);
    ReturnYields(rt, req, env, a, s);
    CallsUnfold(rt, req, env, a, held, log, s, next);
  }

  lemma LoopEnds(rt: Transport, req: Request, env: Env, n: nat)
    requires IsLast(rt, req, env, n)
    ensures Yields(LoopState(rt, req, env, 1, None, Start), ResultAt(rt, req, env, n))
    ensures MadeWhen(env, n, RunFrom(rt, req, env, 1).calls)
  {
    var calls := RunFrom(rt, req, env, 1).calls;
    var inv, post := EndInv(rt, req, env, n, calls), EndPost(rt, req, env, n, calls);
    forall a: nat, held, log | 0 < a <= Retry.Attempts(rt.retry) && inv(a, held, log)
      ensures PassKeeps(rt, req, env, inv, post, a, held, log)
    {
      PassEnds(rt, req, env, n, calls, a, held, log);
    }
    LoopRule(rt, req, env, inv, post, 1, None, Start);
  }

  /** A retryable request ends with the first attempt that does not lead to another, and the caller gets what that
      attempt decides. */
  lemma RoundTripEnds(rt: Transport, req: Request, env: Env) returns (n: nat)
    requires Retryable(rt, req) && Replayable(rt, req)
    ensures IsLast(rt, req, env, n)
    ensures RoundTripped(rt, req, env).result == ResultAt(rt, req, env, n)
    ensures MadeWhen(env, n, AttemptsMade(rt, req, env))
  {
    n := LastFrom(rt, req, env, 1);
    LoopEnds(rt, req, env, n);
    YieldsResult(RunState(rt, req, env), ResultAt(rt, req, env, n));
  }

  /** Any other request has one attempt, and the caller gets its response or its error. */
  lemma OneAttemptEnds(rt: Transport, req: Request, env: Env)
    requires !Retryable(rt, req)
    ensures RoundTripped(rt, req, env).result ==
      match AttemptError(rt, req, env, 1) case None => Ok(Response(1, env.base(1).status)) case Some(e) => Err(e)
    ensures AttemptsMade(rt, req, env) == 1
  {
    OnceIs(rt, req, env, 1, None, Start);
    RunHasResult(rt, req, env, 1, None, Start);
  }

  /** The transport refuses a request exactly when it might have to replay a body that it cannot, and then nothing
      happens at all. */
  lemma RefusedIff(rt: Transport, req: Request, env: Env)
    ensures RoundTripped(rt, req, env).result == Err(NonReplayableBody)
       <==> (rt.nonIdem || req.verb in IDEMPOTENT_METHODS) && req.hasBody && !req.hasGetBody
    ensures RoundTripped(rt, req, env).result == Err(NonReplayableBody) ==> RoundTripped(rt, req, env).log == Start
  {
    if Replayable(rt, req) {
      if Retryable(rt, req) { var n := RoundTripEnds(rt, req, env); } else { OneAttemptEnds(rt, req, env); }
    }
  }

  // ----- the waits

  /** The delay that attempt `a` asks for: that of its status, or of the error of `GetBody`, or none. */
  function HintAt(rt: Transport, req: Request, env: Env, a: nat): int
    requires a > 0
  {
    if a > 1 && !env.allow(a) then 0
    else if a > 1 && req.hasGetBody && env.getBody(a).Some? then env.getBody(a).value.hint
    else if env.base(a).Answers? && WorthRetrying(rt, req, env.base(a)) then
      StatusError(rt, req, env.base(a)).delay
    else 0
  }

  /** The sleeps of a run whose last attempt is `n`: one after each attempt before it, and one after it when that is
      where the caller died. */
  function SleepsBy(rt: Transport, req: Request, env: Env, n: nat): nat
    requires n > 0
  {
    var e := AttemptError(rt, req, env, n);
    if !env.dead(3 * n - 3) && n < Retry.Attempts(rt.retry) && e.Some? && env.retryIf(n, e.value) then n else n - 1
  }

  lemma LeadsOnIs(rt: Transport, req: Request, env: Env, a: nat)
    requires 0 < a <= Retry.Attempts(rt.retry)
    ensures ErrorOf(rt, req, env, a) == AttemptError(rt, req, env, a)
    ensures LeadsOn(rt, req, env, a)
       <==> a < Retry.Attempts(rt.retry) && Retry.RetriedAt(AsRetrier(rt, req, env), a - 1)
  {
    OnceIs(rt, req, env, a, None, Start);
  }

  /** A retryable request sleeps so often, and after attempt `a` for the wait due to what it asks for. */
  lemma RoundTripWaits(rt: Transport, req: Request, env: Env, n: nat)
    requires Retryable(rt, req) && Replayable(rt, req) && IsLast(rt, req, env, n)
    ensures var sleeps := Sleeps(RoundTripped(rt, req, env).log);
      && |sleeps| == SleepsBy(rt, req, env, n)
      && forall a :: 0 < a <= |sleeps| ==>
           sleeps[a - 1] ==
             Retry.NextDelay(rt.retry, a - 1, HintAt(rt, req, env, a), (m: int) => env.roll(a, m))
  {
    RoundTripIsDoCtx(rt, req, env);
    var sleeps := Sleeps(RoundTripped(rt, req, env).log);
    RunSleeps(rt, req, env, n);
    forall a | 0 < a <= |sleeps|
      ensures sleeps[a - 1] ==
        Retry.NextDelay(rt.retry, a - 1, HintAt(rt, req, env, a), (m: int) => env.roll(a, m))
    {
      OnceIs(rt, req, env, a, None, Start);
      SleepIs(rt, req, env, sleeps, a);
      HintIs(rt, req, env, a);
      DelayIs(rt, req, env, a, ErrorOf(rt, req, env, a).value);
    }
  }

  lemma RunSleeps(rt: Transport, req: Request, env: Env, n: nat)
    requires IsLast(rt, req, env, n)
    ensures var sleeps := Retry.DoFrom(rt.retry, AsRetrier(rt, req, env), 0).sleeps;
      |sleeps| == SleepsBy(rt, req, env, n) && Retry.Waits(rt.retry, AsRetrier(rt, req, env), 0, sleeps)
  {
    var k, end := Retry.DoMeaning(rt.retry, AsRetrier(rt, req, env));
    LastIs(rt, req, env, n, k, end, Retry.DoFrom(rt.retry, AsRetrier(rt, req, env), 0));
    LeadsOnIs(rt, req, env, n);
  }

  lemma SleepIs(rt: Transport, req: Request, env: Env, sleeps: seq<int>, a: nat)
    requires Retry.Waits(rt.retry, AsRetrier(rt, req, env), 0, sleeps) && 0 < a <= |sleeps|
    ensures ErrorOf(rt, req, env, a).Some?
    ensures sleeps[a - 1] == Retry.Delay(rt.retry, AsRetrier(rt, req, env), a - 1, ErrorOf(rt, req, env, a).value)
  {
    var i := a - 1;
    assert 0 <= i < 0 + |sleeps| && sleeps[i - 0] == sleeps[i];
    assert AsRetrier(rt, req, env).fn(i) == ErrorOf(rt, req, env, a);
  }

  lemma LastIs(
    rt: Transport, req: Request, env: Env, n: nat, k: nat, end: Retry.Ending, run: Retry.Run<Error>)
    requires IsLast(rt, req, env, n)
    requires Retry.Retried(rt.retry, AsRetrier(rt, req, env), k)
    requires Retry.Ends(rt.retry, AsRetrier(rt, req, env), 0, k, end, run)
    ensures n == k + 1
  {
    LeadsOnIs(rt, req, env, n);
    LeadsOnIs(rt, req, env, k + 1);
  }

  lemma HintIs(rt: Transport, req: Request, env: Env, a: nat)
    requires a > 0 && AttemptError(rt, req, env, a).Some?
    ensures HintOf(AttemptError(rt, req, env, a).value) == HintAt(rt, req, env, a)
  {
  }

  lemma DelayIs(rt: Transport, req: Request, env: Env, a: nat, e: Error)
    requires a > 0
    ensures Retry.Delay(rt.retry, AsRetrier(rt, req, env), a - 1, e) ==
      Retry.NextDelay(rt.retry, a - 1, HintOf(e), (m: int) => env.roll(a, m))
  {
    WaitIsDelay(rt, req, env, a, e);
  }

  // ----- the events of a run

  /** The attempt that an event is of, 0 for none. */
  function Number(e: Event): nat {
    match e
    case ContextMade(id) => id
    case BodyRewound(id, _) => id
    case Sent(id, _) => id
    case Received(id) => id
    case Drained(id) => id
    case Closed(id) => id
    case Cancelled(id) => id
    case Wrapped(body, cancel) => Retry.Max(body, cancel)
    case Allowed(id, _) => id
    case _ => 0
  }

  /** Whether an event of asking, sending or receiving is in a run of `n` attempts. */
  predicate Happens(req: Request, env: Env, n: nat, e: Event) {
    var a := Number(e);
    0 < a <= n
    && match e
       case Allowed(_, yes) => a > 1 && yes == env.allow(a)
       case ContextMade(_) => a > 1 ==> env.allow(a)
       case BodyRewound(_, ok) => a > 1 && env.allow(a) && req.hasGetBody && ok == env.getBody(a).None?
       case Sent(_, rewound) => CallsBase(req, env, a) && rewound == (a > 1 && req.hasGetBody)
       case Received(_) => CallsBase(req, env, a) && env.base(a).Answers?
       case _ => false
  }

  predicate IsProgress(e: Event) {
    e.Allowed? || e.ContextMade? || e.BodyRewound? || e.Sent? || e.Received?
  }

  lemma Has3(log: Log, e: Event, f: Event, g: Event, x: Event)
    ensures Has(Then(log, e), x) <==> Has(log, x) || x == e
    ensures Has(Then(Then(log, e), f), x) <==> Has(log, x) || x == e || x == f
    ensures Has(Then(Then(Then(log, e), f), g), x) <==> Has(log, x) || x == e || x == f || x == g
  {
    var two := Then(Then(log, e), f);
    assert Has(two, x) <==> Has(Then(log, e), x) || x == f;
    assert Has(Then(two, g), x) <==> Has(two, x) || x == g;
  }

  /** What one call of base adds. */
  lemma TriedHas(rt: Transport, req: Request, env: Env, a: nat, rewound: bool, log: Log, x: Event)
    requires a > 0 && IsProgress(x)
    ensures Has(Tried(rt, req, env, a, rewound, log).log, x) <==>
      Has(log, x) || x == Sent(a, rewound) || (x == Received(a) && env.base(a).Answers?)
  {
    Has3(log, Sent(a, rewound), Cancelled(a), SawDead, x);
    Has3(log, Sent(a, rewound), Received(a), Wrapped(a, a), x);
  }

  lemma SendHas(rt: Transport, req: Request, env: Env, a: nat, log: Log, x: Event)
    requires a > 0 && IsProgress(x)
    ensures var rewinds, fails := a > 1 && req.hasGetBody, a > 1 && req.hasGetBody && env.getBody(a).Some?;
      Has(SendState(rt, req, env, a, log).log, x) <==>
        || Has(log, x) || x == ContextMade(a)
        || (rewinds && x == BodyRewound(a, !fails))
        || (!fails && (x == Sent(a, rewinds) || (x == Received(a) && env.base(a).Answers?)))
  {
    var made := Then(log, ContextMade(a));
    Has3(log, ContextMade(a), BodyRewound(a, false), Cancelled(a), x);
    Has3(log, ContextMade(a), BodyRewound(a, true), Cancelled(a), x);
    if a > 1 && req.hasGetBody {
      if env.getBody(a).None? { TriedHas(rt, req, env, a, true, Then(made, BodyRewound(a, true)), x); }
    } else {
      TriedHas(rt, req, env, a, false, made, x);
    }
  }

  lemma DrainHas(log: Log, held: Option<Held>, x: Event)
    requires IsProgress(x)
    ensures Has(DrainedPrev(log, held), x) <==> Has(log, x)
  {
    if held.Some? {
      var id := held.value.response.id;
      Has3(log, Drained(id), Closed(id), Cancelled(held.value.cancel), x);
    }
  }

  lemma OnceHas(rt: Transport, req: Request, env: Env, a: nat, held: Option<Held>, log: Log, x: Event)
    requires a > 0 && IsProgress(x)
    ensures Has(OnceState(rt, req, env, a, held, log).log, x)
       <==> Has(log, x) || (Number(x) == a && Happens(req, env, a, x))
  {
    var drained := DrainedPrev(log, held);
    DrainHas(log, held, x);
    if a == 1 {
      SendHas(rt, req, env, a, drained, x);
    } else {
      var yes := env.allow(a);
      Has3(drained, Allowed(a, yes), Recorded(yes), SawDead, x);
      if yes { SendHas(rt, req, env, a, Then(Then(drained, Allowed(a, true)), Recorded(true)), x); }
    }
  }

  lemma NextHas(rt: Transport, env: Env, a: nat, s: State, x: Event)
    requires a > 0 && IsProgress(x)
    ensures var next := NextAfter(rt, env, a, s);
      Has(if next.Return? then next.state.log else next.log, x) <==> Has(s.log, x)
  {
    if s.err.Some? {
      var slept := Slept(Wait(rt, env, a, s.err.value));
      Has3(s.log, slept, SawDead, SawDead, x);
    }
  }

  lemma AttemptHas(
    rt: Transport, req: Request, env: Env, a: nat, held: Option<Held>, log: Log, next: Next, x: Event)
    requires a > 0 && IsProgress(x) && (Has(log, x) <==> Happens(req, env, a - 1, x))
    requires next == NextAfter(rt, env, a, OnceState(rt, req, env, a, held, log))
    ensures Has(if next.Return? then next.state.log else next.log, x) <==> Happens(req, env, a, x)
  {
    OnceHas(rt, req, env, a, held, log, x);
    NextHas(rt, env, a, OnceState(rt, req, env, a, held, log), x);
  }

  /** `n` attempts in all, and of those before attempt `a` what happens is in the log. */
  predicate HasUpTo(
    rt: Transport, req: Request, env: Env, n: nat, x: Event, happens: nat -> bool, a: nat, log: Log)
  {
    a > 0 && a - 1 + RunFrom(rt, req, env, a).calls == n && (Has(log, x) <==> happens(a - 1))
  }

  function HasInv(rt: Transport, req: Request, env: Env, n: nat, x: Event, happens: nat -> bool)
    : (nat, Option<Held>, Log) -> bool
  {
    (a: nat, held: Option<Held>, log: Log) => HasUpTo(rt, req, env, n, x, happens, a, log)
  }

  function HasPost(n: nat, x: Event, happens: nat -> bool): State -> bool {
    (s: State) => Has(s.log, x) <==> happens(n)
  }

  lemma PassHas(
    rt: Transport, req: Request, env: Env, n: nat, x: Event, happens: nat -> bool, a: nat, held: Option<Held>, log: Log)
    requires 0 < a <= Retry.Attempts(rt.retry) && HasUpTo(rt, req, env, n, x, happens, a, log) && x != SawDead
    requires var next := NextAfter(rt, env, a, OnceState(rt, req, env, a, held, log));
      Has(if next.Return? then next.state.log else next.log, x) <==> happens(a)
    ensures PassKeeps(rt, req, env, HasInv(rt, req, env, n, x, happens), HasPost(n, x, happens), a, held, log)
  {
    if env.dead(3 * a - 3) {
      NoCalls(rt, req, env, a);
      DeadHas(log, held, n, x, happens);
    } else {
      LivePassHas(rt, req, env, n, x, happens, a, held, log);
    }
  }

  lemma DeadHas(log: Log, held: Option<Held>, n: nat, x: Event, happens: nat -> bool)
    requires x != SawDead && (Has(log, x) <==> happens(n))
    ensures HasPost(n, x, happens)(State(Then(log, SawDead), Some(CallerDead), held, None))
  {
  }

  lemma LivePassHas(
    rt: Transport, req: Request, env: Env, n: nat, x: Event, happens: nat -> bool, a: nat, held: Option<Held>, log: Log)
    requires 0 < a <= Retry.Attempts(rt.retry) && HasUpTo(rt, req, env, n, x, happens, a, log)
    requires !env.dead(3 * a - 3)
    requires var next := NextAfter(rt, env, a, OnceState(rt, req, env, a, held, log));
      Has(if next.Return? then next.state.log else next.log, x) <==> happens(a)
    ensures PassKeeps(rt, req, env, HasInv(rt, req, env, n, x, happens), HasPost(n, x, happens), a, held, log)
  {
    var s := OnceState(rt, req, env, a, held, log);
    CallsUnfold(rt, req, env, a, held, log, s, NextAfter(rt, env, a, s));
  }

  lemma NoCalls(rt: Transport, req: Request, env: Env, a: nat)
    requires 0 < a <= Retry.Attempts(rt.retry) && env.dead(3 * a - 3)
    ensures RunFrom(rt, req, env, a).calls == 0
  {
  }

  lemma LoopHas(rt: Transport, req: Request, env: Env, x: Event)
    requires IsProgress(x)
    ensures Has(LoopState(rt, req, env, 1, None, Start).log, x)
       <==> Happens(req, env, RunFrom(rt, req, env, 1).calls, x)
  {
    var n := RunFrom(rt, req, env, 1).calls;
    var happens := (k: nat) => Happens(req, env, k, x);
    var inv, post := HasInv(rt, req, env, n, x, happens), HasPost(n, x, happens);
    forall a: nat, held, log | 0 < a <= Retry.Attempts(rt.retry) && inv(a, held, log)
      ensures PassKeeps(rt, req, env, inv, post, a, held, log)
    {
      AttemptHas(rt, req, env, a, held, log, NextAfter(rt, env, a, OnceState(rt, req, env, a, held, log)), x);
      PassHas(rt, req, env, n, x, happens, a, held, log);
    }
    LoopRule(rt, req, env, inv, post, 1, None, Start);
  }

  lemma ResultHas(s: State, x: Event)
    requires (s.resp.Some? || s.err.Some?) && IsProgress(x)
    ensures Has(Resulting(s).log, x) <==> Has(s.log, x)
  {
    DrainHas(s.log, s.held, x);
  }

  /** Which attempts asked the budget and got which answer, made a context, rewound the body, called base and with
      which body, and got a response: exactly those that the answers call for, up to the last one made. */
  lemma EventsAre(rt: Transport, req: Request, env: Env, x: Event)
    requires IsProgress(x)
    ensures Has(RoundTripped(rt, req, env).log, x) <==> Happens(req, env, AttemptsMade(rt, req, env), x)
  {
    if Replayable(rt, req) {
      RunHasResult(rt, req, env, 1, None, Start);
      ResultHas(RunState(rt, req, env), x);
      if Retryable(rt, req) { LoopHas(rt, req, env, x); } else { OnceHas(rt, req, env, 1, None, Start, x); }
    }
  }

  // ----- what comes before what

  ghost predicate AllSettled(log: Log) {
    forall x: nat :: Settled(LifeOf(log, x))
  }

  predicate EndsWith(log: Log, e: Event) { log.Then? && log.last == e }

  /** `e` comes where it may: the budget is asked and a context made only when nothing of an earlier attempt is
      open; an answer of the budget is recorded at once, and followed by a new context only if it was yes; the
      body is rewound next, if at all; and then base is called. */
  ghost predicate Follows(before: Log, e: Event) {
    match e
    case Allowed(_, _) => AllSettled(before)
    case Recorded(yes) => before.Then? && before.last.Allowed? && before.last.yes == yes
    case ContextMade(a) =>
      AllSettled(before)
      && (a > 1 ==> EndsWith(before, Recorded(true)) && EndsWith(before.before, Allowed(a, true)))
    case BodyRewound(a, _) => EndsWith(before, ContextMade(a))
    case Sent(a, rewound) => EndsWith(before, if rewound then BodyRewound(a, true) else ContextMade(a))
    case _ => true
  }

  ghost predicate InStep(log: Log) {
    log.Then? ==> InStep(log.before) && Follows(log.before, log.last)
  }

  /** An event that may come anywhere. */
  predicate IsFree(e: Event) {
    !e.Allowed? && !e.Recorded? && !e.ContextMade? && !e.BodyRewound? && !e.Sent?
  }

  lemma InStep3(log: Log, e: Event, f: Event, g: Event)
    requires InStep(log) && Follows(log, e) && IsFree(f) && IsFree(g)
    ensures InStep(Then(log, e)) && InStep(Then(Then(log, e), f)) && InStep(Then(Then(Then(log, e), f), g))
  {
    assert InStep(Then(log, e));
    assert InStep(Then(Then(log, e), f));
  }

  lemma TriedInStep(rt: Transport, req: Request, env: Env, a: nat, rewound: bool, log: Log)
    requires a > 0 && InStep(log) && Follows(log, Sent(a, rewound))
    ensures InStep(Tried(rt, req, env, a, rewound, log).log)
  {
    InStep3(log, Sent(a, rewound), Cancelled(a), SawDead);
    InStep3(log, Sent(a, rewound), Received(a), Wrapped(a, a));
  }

  lemma SendInStep(rt: Transport, req: Request, env: Env, a: nat, log: Log)
    requires a > 0 && InStep(log) && Follows(log, ContextMade(a))
    ensures InStep(SendState(rt, req, env, a, log).log)
  {
    var made := Then(log, ContextMade(a));
    InStep3(log, ContextMade(a), SawDead, SawDead);
    InStep3(made, BodyRewound(a, false), Cancelled(a), SawDead);
    InStep3(made, BodyRewound(a, true), Cancelled(a), SawDead);
    if a > 1 && req.hasGetBody {
      if env.getBody(a).None? { TriedInStep(rt, req, env, a, true, Then(made, BodyRewound(a, true))); }
    } else {
      TriedInStep(rt, req, env, a, false, made);
    }
  }

  lemma DrainInStep(log: Log, held: Option<Held>, n: nat)
    requires InStep(log) && Owned(log, held, None, n)
    ensures InStep(DrainedPrev(log, held)) && AllSettled(DrainedPrev(log, held))
  {
    DrainOwned(log, held, n);
    if held.Some? {
      var id := held.value.response.id;
      InStep3(log, Drained(id), Closed(id), Cancelled(held.value.cancel));
    }
    forall x: nat ensures Settled(LifeOf(DrainedPrev(log, held), x)) {
      assert OwnedAt(DrainedPrev(log, held), None, None, n, x);
    }
  }

  lemma OnceInStep(rt: Transport, req: Request, env: Env, a: nat, held: Option<Held>, log: Log)
    requires a > 0 && InStep(log) && Owned(log, held, None, a - 1)
    ensures InStep(OnceState(rt, req, env, a, held, log).log)
  {
    var drained := DrainedPrev(log, held);
    DrainInStep(log, held, a - 1);
    if a == 1 {
      SendInStep(rt, req, env, a, drained);
    } else {
      var yes := env.allow(a);
      var asked := Then(drained, Allowed(a, yes));
      var told := Then(asked, Recorded(yes));
      assert InStep(asked);
      assert InStep(told);
      if yes {
        forall x: nat ensures Settled(LifeOf(told, x)) {
          Unrolled(drained, Allowed(a, yes), Recorded(yes), SawDead, x);
        }
        SendInStep(rt, req, env, a, told);
      }
    }
  }

  lemma NextInStep(rt: Transport, env: Env, a: nat, s: State)
    requires a > 0 && InStep(s.log)
    ensures var next := NextAfter(rt, env, a, s); InStep(if next.Return? then next.state.log else next.log)
  {
    if s.err.Some? {
      InStep3(s.log, Slept(Wait(rt, env, a, s.err.value)), SawDead, SawDead);
    }
  }

  lemma {:induction false} LoopInStep(rt: Transport, req: Request, env: Env, a: nat, held: Option<Held>, log: Log)
    requires 0 < a <= Retry.Attempts(rt.retry) && InStep(log) && Owned(log, held, None, a - 1)
    ensures InStep(LoopState(rt, req, env, a, held, log).log)
    decreases Retry.Attempts(rt.retry) - a
  {
    if env.dead(3 * a - 3) {
      InStep3(log, SawDead, SawDead, SawDead);
    } else {
      var s := OnceState(rt, req, env, a, held, log);
      var next := NextAfter(rt, env, a, s);
      LoopUnfolds(rt, req, env, a, held, log, s, next);
      OnceInStep(rt, req, env, a, held, log);
      NextInStep(rt, env, a, s);
      if next.GoOn? {
        NextOwned(rt, req, env, a, held, log);
        LoopInStep(rt, req, env, a + 1, next.held, next.log);
      }
    }
  }

  lemma NextOwned(rt: Transport, req: Request, env: Env, a: nat, held: Option<Held>, log: Log)
    requires a > 0 && Owned(log, held, None, a - 1)
    requires NextAfter(rt, env, a, OnceState(rt, req, env, a, held, log)).GoOn?
    ensures var next := NextAfter(rt, env, a, OnceState(rt, req, env, a, held, log));
      Owned(next.log, next.held, None, a)
  {
    var s := OnceState(rt, req, env, a, held, log);
    OnceOwned(rt, req, env, a, held, log);
    OnceHasResult(rt, req, env, a, held, log);
    SettledEvent(s.log, s.held, s.resp, a, Slept(Wait(rt, env, a, s.err.value)));
  }

  /** In every run the steps come in their order: nothing of an earlier attempt is open when the budget is asked or a
      context made, every answer of the budget is recorded at once, a further attempt is begun only with its
      permission, and base is called with a body rewound just before or none. */
  lemma StepsInOrder(rt: Transport, req: Request, env: Env)
    ensures InStep(RoundTripped(rt, req, env).log)
  {
    if Replayable(rt, req) {
      var s := RunState(rt, req, env);
      RunHasResult(rt, req, env, 1, None, Start);
      forall x: nat ensures OwnedAt(Start, None, None, 0, x) { }
      if Retryable(rt, req) {
        LoopInStep(rt, req, env, 1, None, Start);
      } else {
        OnceInStep(rt, req, env, 1, None, Start);
      }
      if s.held.Some? {
        var id := s.held.value.response.id;
        InStep3(s.log, Drained(id), Closed(id), Cancelled(s.held.value.cancel));
        InStep3(s.log, Wrapped(id, s.held.value.cancel), SawDead, SawDead);
      }
    }
  }

  // ----- errors that end a run

  /** No event is of an attempt after `n`. */
  ghost predicate NoneLater(log: Log, n: nat) {
    forall x :: Number(x) > n ==> !Has(log, x)
  }

  /** To an attempt without a context nothing else can happen in order. */
  lemma {:induction false} NothingWithoutContext(log: Log, b: nat, x: Event)
    requires b > 0 && Number(x) == b && !x.Allowed? && !Has(log, ContextMade(b))
    ensures LifeOf(log, b).Unborn? || LifeOf(log, b).Broken?
    ensures Has(log, x) ==> LifeOf(log, b).Broken?
  {
    if log.Then? { NothingWithoutContext(log.before, b, x); }
  }

  lemma NothingAfterLast(rt: Transport, req: Request, env: Env)
    ensures NoneLater(RoundTripped(rt, req, env).log, AttemptsMade(rt, req, env))
  {
    var log, n := RoundTripped(rt, req, env).log, AttemptsMade(rt, req, env);
    forall x | Number(x) > n ensures !Has(log, x) {
      EventsAre(rt, req, env, ContextMade(Number(x)));
      if x.Allowed? {
        EventsAre(rt, req, env, x);
      } else {
        NothingWithoutContext(log, Number(x), x);
        var last := Ownership(rt, req, env);
      }
    }
  }

  /** An error that the classifier refuses, or that comes when the attempts are used up, ends the run: the caller gets
      that error, and the log has nothing of a further attempt. */
  lemma ErrorEnds(rt: Transport, req: Request, env: Env, a: nat, e: Error)
    requires 0 < a <= AttemptsMade(rt, req, env)
    requires AttemptError(rt, req, env, a) == Some(e) && !e.RetryableStatus?
    requires !env.retryIf(a, e) || a == Retry.Attempts(rt.retry)
    ensures RoundTripped(rt, req, env).result == Err(e)
    ensures AttemptsMade(rt, req, env) == a && NoneLater(RoundTripped(rt, req, env).log, a)
  {
    if Retryable(rt, req) {
      var n := RoundTripEnds(rt, req, env);
      assert !LeadsOn(rt, req, env, a);
    } else {
      OneAttemptEnds(rt, req, env);
    }
    NothingAfterLast(rt, req, env);
  }

  /** A denial of the budget. */
  lemma DenialEnds(rt: Transport, req: Request, env: Env, a: nat)
    requires 1 < a <= AttemptsMade(rt, req, env) && !env.allow(a)
    requires !env.retryIf(a, BudgetExhausted) || a == Retry.Attempts(rt.retry)
    ensures RoundTripped(rt, req, env).result == Err(BudgetExhausted)
    ensures AttemptsMade(rt, req, env) == a && NoneLater(RoundTripped(rt, req, env).log, a)
    ensures !Has(RoundTripped(rt, req, env).log, ContextMade(a))
  {
    ErrorEnds(rt, req, env, a, BudgetExhausted);
    EventsAre(rt, req, env, ContextMade(a));
  }

  /** A body that cannot be had again. */
  lemma FailedBodyEnds(rt: Transport, req: Request, env: Env, a: nat)
    requires 1 < a <= AttemptsMade(rt, req, env) && env.allow(a) && req.hasGetBody && env.getBody(a).Some?
    requires !env.retryIf(a, env.getBody(a).value) || a == Retry.Attempts(rt.retry)
    ensures RoundTripped(rt, req, env).result == Err(env.getBody(a).value)
    ensures AttemptsMade(rt, req, env) == a && NoneLater(RoundTripped(rt, req, env).log, a)
    ensures forall rewound :: !Has(RoundTripped(rt, req, env).log, Sent(a, rewound))
  {
    ErrorEnds(rt, req, env, a, env.getBody(a).value);
    forall rewound ensures !Has(RoundTripped(rt, req, env).log, Sent(a, rewound)) {
      EventsAre(rt, req, env, Sent(a, rewound));
    }
  }

  ghost predicate IsDefault(env: Env) {
    forall a, e :: env.retryIf(a, e) == DefaultRetryIf(e)
  }

  /** With the default classifier: every denial of the budget ends the run with its error; a failing `GetBody` does
      unless its error is a timeout or a refused connection and no context's; and a response worth retrying is
      returned only when the attempts are used up. */
  lemma DefaultEndings(rt: Transport, req: Request, env: Env, a: nat)
    requires IsDefault(env) && 0 < a <= AttemptsMade(rt, req, env)
    ensures var r := RoundTripped(rt, req, env).result;
      && (a > 1 && !env.allow(a) ==> r == Err(BudgetExhausted) && AttemptsMade(rt, req, env) == a)
      && (a > 1 && env.allow(a) && req.hasGetBody && env.getBody(a).Some? ==>
            var e := env.getBody(a).value;
            e.isContext || !(e.timeout || e.refused) ==> r == Err(e) && AttemptsMade(rt, req, env) == a)
      && (r.Ok? ==> IsAnswered(req, env, r.value.id) && (WorthRetrying(rt, req, env.base(r.value.id)) ==>
            r.value.id == Retry.Attempts(rt.retry)))
  {
    if a > 1 && !env.allow(a) {
      DenialEnds(rt, req, env, a);
    } else if a > 1 && req.hasGetBody && env.getBody(a).Some? && !DefaultRetryIf(env.getBody(a).value) {
      FailedBodyEnds(rt, req, env, a);
    }
    FirstFinalResponse(rt, req, env);
  }
}

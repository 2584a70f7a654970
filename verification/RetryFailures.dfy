/** What the caller of the retrying transport gets, and what the classifier is shown of failures of base. */
module RetryFailures {
  import opened GoText
  import opened Wrappers
  import opened RetryAfter
  import opened RetryLoop
  import opened RetryRuns
  import opened RetryTransport
  import Retry

  // ----- what the caller gets

  lemma {:induction false} StatusIsHeld(rt: Transport, req: Request, env: Env, a: nat, held: Option<Held>, log: Log)
    requires 0 < a <= Retry.Attempts(rt.retry)
    ensures var s := LoopState(rt, req, env, a, held, log); s.err.Some? && s.err.value.RetryableStatus? ==> s.held.Some?
    decreases Retry.Attempts(rt.retry) - a
  {
    if !env.dead(3 * a - 3) {
      var s := OnceState(rt, req, env, a, held, log);
      OnceStatusIsHeld(rt, req, env, a, held, log);
      var next := NextAfter(rt, env, a, s);
      LoopUnfolds(rt, req, env, a, held, log, s, next);
      if next.GoOn? {
        StatusIsHeld(rt, req, env, a + 1, next.held, next.log);
      }
    }
  }

  lemma OnceStatusIsHeld(rt: Transport, req: Request, env: Env, a: nat, held: Option<Held>, log: Log)
    requires a > 0
    ensures var s := OnceState(rt, req, env, a, held, log);
      s.err.Some? && s.err.value.RetryableStatus? ==> s.held.Some? && Retryable(rt, req)
  {
  }

  /** A retryable request is one run of the retrier: its waits are the retrier's, its error is the retrier's,
      except that success and a retryable status as the last error give the response instead. */
  lemma RoundTripIsDoCtx(rt: Transport, req: Request, env: Env)
    requires Retryable(rt, req) && Replayable(rt, req)
    ensures var run := Retry.DoFrom(rt.retry, AsRetrier(rt, req, env), 0);
      var out := RoundTripped(rt, req, env);
      && Sleeps(out.log) == run.sleeps
      && (out.result.Ok? <==> run.err.None? || run.err.value.RetryableStatus?)
      && (out.result.Err? ==> out.result.error == run.err.value)
  {
    var s := RunState(rt, req, env);
    LoopIsDoCtx(rt, req, env, 1, None, Start);
    RunHasResult(rt, req, env, 1, None, Start);
    StatusIsHeld(rt, req, env, 1, None, Start);
    assert Sleeps(Start) + Retry.DoFrom(rt.retry, AsRetrier(rt, req, env), 0).sleeps
        == Retry.DoFrom(rt.retry, AsRetrier(rt, req, env), 0).sleeps;
    DrainSleeps(s.log, s.held);
  }

  /** The status sentinel never leaves the transport. */
  lemma NoSentinel(rt: Transport, req: Request, env: Env)
    ensures var out := RoundTripped(rt, req, env); out.result.Err? ==> !out.result.error.RetryableStatus?
  {
    if Replayable(rt, req) {
      if Retryable(rt, req) {
        RoundTripIsDoCtx(rt, req, env);
      } else {
        RunHasResult(rt, req, env, 1, None, Start);
        OnceStatusIsHeld(rt, req, env, 1, None, Start);
      }
    }
  }

  // ----- failures of base

  /** What the comment on `normalizeErr` promises the classifier: the caller's death, a timeout of the
      attempt, and everything else as it came. */
  function Documented(env: Env, a: nat, e: Below): Error
    requires a > 0
  {
    if env.dead(3 * a - 2) then CallerDead else if env.timedOut(a) then AttemptTimeout else e
  }

  /** Attempt `a` gets as far as calling base. */
  predicate CallsBase(req: Request, env: Env, a: nat) {
    a == 1 || (env.allow(a) && (req.hasGetBody ==> env.getBody(a).None?))
  }

  /** The attempt's own cancel runs before its context is looked at, so a failure of base with the caller alive
      always counts as a timeout of the attempt: the promise is kept exactly when the caller is dead or the
      deadline of the attempt had passed, and the default classifier retries every failure with the caller
      alive. */
  lemma FailureAsDocumentedIff(rt: Transport, req: Request, env: Env, a: nat)
    requires a > 0 && CallsBase(req, env, a) && env.base(a).Fails?
    ensures ErrorOf(rt, req, env, a) == Some(Documented(env, a, env.base(a).error))
       <==> env.dead(3 * a - 2) || env.timedOut(a)
    ensures ErrorOf(rt, req, env, a) == Some(if env.dead(3 * a - 2) then CallerDead else AttemptTimeout)
    ensures DefaultRetryIf(ErrorOf(rt, req, env, a).value) <==> !env.dead(3 * a - 2)
  {
  }

  /** So a base that always fails, even for good, is called as often as the retrier allows, and the caller gets
      the timeout error. */
  lemma PermanentFailureRetried(rt: Transport, req: Request, env: Env)
    requires Retryable(rt, req) && Replayable(rt, req)
    requires forall a: nat :: 0 < a <= Retry.Attempts(rt.retry) ==> FailsAt(rt, req, env, a)
    ensures var out := RoundTripped(rt, req, env);
      out.result == Err(AttemptTimeout) && TallyOf(out.log).sends == Retry.Max(rt.retry.maxRetries, 1)
  {
    FailingLoop(rt, req, env, 1, Start);
    var s := RunState(rt, req, env);
    RunHasResult(rt, req, env, 1, None, Start);
    ResultTally(s);
  }

  /** Attempt `a` calls base, which fails with the caller alive; unless it is the last one, the timeout error is
      one to retry, and the sleep is undisturbed. */
  predicate FailsAt(rt: Transport, req: Request, env: Env, a: nat)
    requires a > 0
  {
    && CallsBase(req, env, a) && env.base(a).Fails?
    && !env.dead(3 * a - 3) && !env.dead(3 * a - 2)
    && (a < Retry.Attempts(rt.retry) ==> env.retryIf(a, AttemptTimeout) && !env.interrupted(a))
  }

  lemma FailingOnce(rt: Transport, req: Request, env: Env, a: nat, log: Log)
    requires a > 0 && FailsAt(rt, req, env, a)
    ensures var s := OnceState(rt, req, env, a, None, log);
      && s.err == Some(AttemptTimeout) && s.held.None?
      && TallyOf(s.log).sends == TallyOf(log).sends + 1
  {
    ErrorAlone(rt, req, env, a, None, log);
    FailureAsDocumentedIff(rt, req, env, a);
    var yes := env.allow(a);
    if a == 1 {
      SendTally(rt, req, env, a, log);
    } else {
      Tallied(log, Allowed(a, yes), Recorded(yes), SawDead);
      SendTally(rt, req, env, a, Then(Then(log, Allowed(a, true)), Recorded(true)));
    }
  }

  lemma {:induction false} FailingLoop(rt: Transport, req: Request, env: Env, a: nat, log: Log)
    requires 0 < a <= Retry.Attempts(rt.retry)
    requires forall b: nat :: 0 < b <= Retry.Attempts(rt.retry) ==> FailsAt(rt, req, env, b)
    ensures var s := LoopState(rt, req, env, a, None, log);
      && s.err == Some(AttemptTimeout) && s.held.None?
      && TallyOf(s.log).sends == TallyOf(log).sends + Retry.Attempts(rt.retry) - a + 1
    decreases Retry.Attempts(rt.retry) - a
  {
    assert FailsAt(rt, req, env, a);
    var s := OnceState(rt, req, env, a, None, log);
    FailingOnce(rt, req, env, a, log);
    NextTally(rt, env, a, s);
    var next := NextAfter(rt, env, a, s);
    LoopUnfolds(rt, req, env, a, None, log, s, next);
    if next.GoOn? {
      FailingLoop(rt, req, env, a + 1, next.log);
    }
  }

  // ----- Retry-After

  /** A number of seconds within the cap is waited out in full, with up to a tenth on top, as long as a tenth on
      top of the cap still fits in 64 bits. */
  lemma RetryAfterHonoured(
    c: Retry.Config, i: nat, cap: int, status: int, header: string, secs: int, date: int, roll: int -> int)
    requires IsInt64(cap) && cap + cap / 10 <= MAX_INT64 && (status == 429 || status == 503)
    requires Seconds(header, secs) && secs * SECOND <= cap && Retry.Fair(roll)
    ensures Delay(cap, status, header, date) == Some(secs * SECOND)
    ensures var hint := HintOf(RetryableStatus(status, secs * SECOND));
      Retry.HintHonoured(secs * SECOND, Retry.NextDelay(c, i, hint, roll))
  {
    PromiseKeptIff(cap, status, date);
    assert KeepsPromise(cap, status, secs, Delay(cap, status, header, date));
    Retry.HintHonouredIff(c, i, secs * SECOND);
  }

  // ----- which response is returned

  /** Base answers attempt `a`. */
  predicate IsAnswered(req: Request, env: Env, a: nat) {
    CallsBase(req, env, a) && env.base(a).Answers?
  }

  /** The answer is worth another attempt: a retryable request, a retryable status, no wait past the cap. */
  predicate WorthRetrying(rt: Transport, req: Request, b: Base)
    requires b.Answers?
  {
    Retryable(rt, req) && b.status in RETRYABLE_STATUSES && Delay(rt.cap, b.status, b.retryAfter, b.date).Some?
  }

  /** The error that such an answer is for the retrier, with the wait that it asks for. */
  function StatusError(rt: Transport, req: Request, b: Base): Error
    requires b.Answers? && WorthRetrying(rt, req, b)
  {
    RetryableStatus(b.status, Delay(rt.cap, b.status, b.retryAfter, b.date).value)
  }

  lemma AnswerOf(rt: Transport, req: Request, env: Env, a: nat, held: Option<Held>, log: Log)
    requires a > 0
    ensures var s := OnceState(rt, req, env, a, held, log);
      && (s.resp.Some? <==> IsAnswered(req, env, a) && !WorthRetrying(rt, req, env.base(a)))
      && (s.held.Some? <==> IsAnswered(req, env, a) && WorthRetrying(rt, req, env.base(a)))
      && (s.resp.Some? ==> s.resp.value == Response(a, env.base(a).status))
      && (s.held.Some? ==> s.held.value.response == Response(a, env.base(a).status)
                           && s.err == Some(StatusError(rt, req, env.base(a))))
      && (s.held.None? ==> s.err.None? || !s.err.value.RetryableStatus?)
  {
  }

  /** `r` answered attempt `n`, and every answer from attempt `a` up to it was worth retrying; its own was not,
      or the retrier made no further attempt. */
  ghost predicate FirstToKeep(rt: Transport, req: Request, env: Env, a: nat, n: nat, r: Response) {
    && a <= n && IsAnswered(req, env, n) && r == Response(n, env.base(n).status)
    && (forall b :: a <= b < n && IsAnswered(req, env, b) ==> WorthRetrying(rt, req, env.base(b)))
    && (WorthRetrying(rt, req, env.base(n)) ==>
          n == Retry.Attempts(rt.retry) || !env.retryIf(n, StatusError(rt, req, env.base(n))))
  }

  /** The response that a state of the run would have the caller get. */
  function Kept(s: State): Option<Response> {
    if s.resp.Some? then s.resp
    else if s.err.Some? && s.err.value.RetryableStatus? && s.held.Some? then Some(s.held.value.response)
    else None
  }

  lemma {:induction false} LoopKeepsFirst(rt: Transport, req: Request, env: Env, a: nat, held: Option<Held>, log: Log)
    requires 0 < a <= Retry.Attempts(rt.retry)
    ensures var kept := Kept(LoopState(rt, req, env, a, held, log));
      kept.Some? ==> FirstToKeep(rt, req, env, a, kept.value.id, kept.value)
    decreases Retry.Attempts(rt.retry) - a
  {
    if !env.dead(3 * a - 3) {
      var s := OnceState(rt, req, env, a, held, log);
      AnswerOf(rt, req, env, a, held, log);
      OnceHasResult(rt, req, env, a, held, log);
      var next := NextAfter(rt, env, a, s);
      LoopUnfolds(rt, req, env, a, held, log, s, next);
      if next.GoOn? {
        LoopKeepsFirst(rt, req, env, a + 1, next.held, next.log);
        GoesOnAfterFailure(rt, env, a, s);
      } else {
        ReturnsKept(rt, env, a, s);
      }
    }
  }

  lemma GoesOnAfterFailure(rt: Transport, env: Env, a: nat, s: State)
    requires a > 0 && NextAfter(rt, env, a, s).GoOn?
    ensures s.err.Some?
  {
  }

  lemma ReturnsKept(rt: Transport, env: Env, a: nat, s: State)
    requires a > 0 && NextAfter(rt, env, a, s).Return? && (s.resp.Some? <==> s.err.None?)
    ensures var t := NextAfter(rt, env, a, s).state;
      && (Kept(t).Some? ==> Kept(t) == Kept(s))
      && (Kept(t).Some? && s.err.Some? ==> !env.retryIf(a, s.err.value) || a == Retry.Attempts(rt.retry))
  {
  }

  /** The response returned is the first that is not worth retrying, or the last one when the retrier makes no
      further attempt. */
  lemma FirstFinalResponse(rt: Transport, req: Request, env: Env)
    ensures var out := RoundTripped(rt, req, env);
      out.result.Ok? ==> FirstToKeep(rt, req, env, 1, out.result.value.id, out.result.value)
  {
    if Replayable(rt, req) {
      if Retryable(rt, req) {
        LoopKeepsFirst(rt, req, env, 1, None, Start);
        RunHasResult(rt, req, env, 1, None, Start);
      } else {
        AnswerOf(rt, req, env, 1, None, Start);
        RunHasResult(rt, req, env, 1, None, Start);
      }
    }
  }
}

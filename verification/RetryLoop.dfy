/** The transport's loop as a run of the retrier: `DoCtx` of retry/retry.go over `once`. */
module RetryLoop {
  import opened Wrappers
  import opened RetryAfter
  import opened RetryTransport
  import Retry

  /** The error of attempt `a`, which depends on the attempt alone. */
  function ErrorOf(rt: Transport, req: Request, env: Env, a: nat): Option<Error>
    requires a > 0
  {
    OnceState(rt, req, env, a, None, Start).err
  }

  lemma ErrorAlone(rt: Transport, req: Request, env: Env, a: nat, held: Option<Held>, log: Log)
    requires a > 0
    ensures OnceState(rt, req, env, a, held, log).err == ErrorOf(rt, req, env, a)
  {
  }

  /** The transport as `DoCtx` sees it: `once` for `fn`, the caller's context, the random source. */
  function AsRetrier(rt: Transport, req: Request, env: Env): Retry.Env<Error> {
    Retry.Env(
      (i: nat) => ErrorOf(rt, req, env, i + 1),
      (i: nat, e: Error) => env.retryIf(i + 1, e),
      (i: nat) => if env.dead(3 * i) then Some(CallerDead) else None,
      (i: nat) => if env.interrupted(i + 1) then Some(CallerDead) else None,
      HintOf,
      (i: nat, n: int) => env.roll(i + 1, n))
  }

  /** The waits of a log, in order. */
  function Sleeps(log: Log): seq<int> {
    match log
    case Start => []
    case Then(before, e) => if e.Slept? then Sleeps(before) + [e.delay] else Sleeps(before)
  }

  lemma Slept3(log: Log, e: Event, f: Event, g: Event)
    requires !e.Slept? && !f.Slept? && !g.Slept?
    ensures Sleeps(Then(log, e)) == Sleeps(Then(Then(log, e), f)) == Sleeps(log)
    ensures Sleeps(Then(Then(Then(log, e), f), g)) == Sleeps(log)
  {
    var two := Then(Then(log, e), f);
    assert Sleeps(two) == Sleeps(Then(log, e));
    assert Sleeps(Then(two, g)) == Sleeps(two);
  }

  lemma DrainSleeps(log: Log, held: Option<Held>)
    ensures Sleeps(DrainedPrev(log, held)) == Sleeps(log)
  {
    if held.Some? {
      var id := held.value.response.id;
      Slept3(log, Drained(id), Closed(id), Cancelled(held.value.cancel));
    }
  }

  lemma SendSleeps(rt: Transport, req: Request, env: Env, a: nat, log: Log)
    requires a > 0
    ensures Sleeps(SendState(rt, req, env, a, log).log) == Sleeps(log)
  {
    var made := Then(log, ContextMade(a));
    var ok := Then(made, BodyRewound(a, true));
    Slept3(log, ContextMade(a), BodyRewound(a, false), Cancelled(a));
    Slept3(log, ContextMade(a), BodyRewound(a, true), Sent(a, true));
    Slept3(ok, Sent(a, true), Cancelled(a), SawDead);
    Slept3(ok, Sent(a, true), Received(a), Wrapped(a, a));
    Slept3(made, Sent(a, false), Cancelled(a), SawDead);
    Slept3(made, Sent(a, false), Received(a), Wrapped(a, a));
  }

  lemma OnceSleeps(rt: Transport, req: Request, env: Env, a: nat, held: Option<Held>, log: Log)
    requires a > 0
    ensures Sleeps(OnceState(rt, req, env, a, held, log).log) == Sleeps(log)
  {
    var drained := DrainedPrev(log, held);
    DrainSleeps(log, held);
    Slept3(drained, Allowed(a, env.allow(a)), Recorded(env.allow(a)), SawDead);
    if a == 1 {
      SendSleeps(rt, req, env, a, drained);
    } else {
      SendSleeps(rt, req, env, a, Then(Then(drained, Allowed(a, true)), Recorded(true)));
    }
  }

  /** The retrier's run from attempt `a` on when that ends with `err` and `rest` is the run from the next. */
  function WithAttempt(rt: Transport, env: Env, a: nat, err: Option<Error>, rest: Retry.Run<Error>): Retry.Run<Error>
    requires a > 0
  {
    if err.None? || !env.retryIf(a, err.value) || a == Retry.Attempts(rt.retry) then Retry.Run(err, 1, [])
    else if env.interrupted(a) then Retry.Run(Some(CallerDead), 1, [Wait(rt, env, a, err.value)])
    else Retry.Run(rest.err, 1 + rest.calls, [Wait(rt, env, a, err.value)] + rest.sleeps)
  }

  function RunFrom(rt: Transport, req: Request, env: Env, a: nat): Retry.Run<Error>
    requires a > 0
  {
    if a > Retry.Attempts(rt.retry) then Retry.Run(None, 0, [])
    else Retry.DoFrom(rt.retry, AsRetrier(rt, req, env), a - 1)
  }

  lemma RunUnfolds(rt: Transport, req: Request, env: Env, a: nat)
    requires 0 < a <= Retry.Attempts(rt.retry) && !env.dead(3 * a - 3)
    ensures RunFrom(rt, req, env, a) == WithAttempt(rt, env, a, ErrorOf(rt, req, env, a), RunFrom(rt, req, env, a + 1))
  {
    var e := ErrorOf(rt, req, env, a);
    if e.Some? { WaitIsDelay(rt, req, env, a, e.value); }
  }

  lemma NextSleeps(rt: Transport, env: Env, a: nat, s: State)
    requires a > 0 && s.err.Some? && env.retryIf(a, s.err.value) && a != Retry.Attempts(rt.retry)
    ensures match NextAfter(rt, env, a, s)
      case Return(t) => t.err == Some(CallerDead) && Sleeps(t.log) == Sleeps(s.log) + [Wait(rt, env, a, s.err.value)]
      case GoOn(_, log) => Sleeps(log) == Sleeps(s.log) + [Wait(rt, env, a, s.err.value)]
  {
    var slept := Then(s.log, Slept(Wait(rt, env, a, s.err.value)));
    assert Sleeps(Then(slept, SawDead)) == Sleeps(slept);
  }

  /** Same error as the retrier's run, and its waits after `sleeps`. */
  predicate Agrees(s: State, sleeps: seq<int>, run: Retry.Run<Error>) {
    s.err == run.err && Sleeps(s.log) == sleeps + run.sleeps
  }

  lemma OneMore(rt: Transport, env: Env, a: nat, s: State, rest: Retry.Run<Error>)
    requires a > 0
    ensures var whole := WithAttempt(rt, env, a, s.err, rest);
      match NextAfter(rt, env, a, s)
      case Return(t) => Agrees(t, Sleeps(s.log), whole)
      case GoOn(_, log) => rest.err == whole.err && Sleeps(log) + rest.sleeps == Sleeps(s.log) + whole.sleeps
  {
    var sleeps := Sleeps(s.log);
    assert sleeps + [] == sleeps;
    if s.err.Some? && env.retryIf(a, s.err.value) && a != Retry.Attempts(rt.retry) {
      NextSleeps(rt, env, a, s);
      var wait := [Wait(rt, env, a, s.err.value)];
      assert sleeps + wait + rest.sleeps == sleeps + (wait + rest.sleeps);
    }
  }

  /** The run is to end with `err`, and its waits are `sleeps` in all; `runs` are the retrier's runs, by the
      attempt that they begin with. */
  function AgreeInv(runs: nat -> Retry.Run<Error>, err: Option<Error>, sleeps: seq<int>)
    : (nat, Option<Held>, Log) -> bool
  {
    (a: nat, held: Option<Held>, log: Log) => runs(a).err == err && Sleeps(log) + runs(a).sleeps == sleeps
  }

  function AgreePost(err: Option<Error>, sleeps: seq<int>): State -> bool {
    (s: State) => s.err == err && Sleeps(s.log) == sleeps
  }

  /** `runs(a)` is what the retrier does when attempt `a` ends with `attempt`. */
  predicate Unfolds(rt: Transport, env: Env, runs: nat -> Retry.Run<Error>, a: nat, attempt: Option<Error>)
    requires a > 0
  {
    runs(a) ==
      if env.dead(3 * a - 3) then Retry.Run(Some(CallerDead), 0, []) else WithAttempt(rt, env, a, attempt, runs(a + 1))
  }

  lemma PassAgrees(
    rt: Transport, req: Request, env: Env, runs: nat -> Retry.Run<Error>, err: Option<Error>, sleeps: seq<int>,
    a: nat, held: Option<Held>, log: Log)
    requires 0 < a <= Retry.Attempts(rt.retry) && AgreeInv(runs, err, sleeps)(a, held, log)
    requires var s := OnceState(rt, req, env, a, held, log);
      Sleeps(s.log) == Sleeps(log) && Unfolds(rt, env, runs, a, s.err)
    ensures PassKeeps(rt, req, env, AgreeInv(runs, err, sleeps), AgreePost(err, sleeps), a, held, log)
  {
    if env.dead(3 * a - 3) {
      assert Sleeps(Then(log, SawDead)) == Sleeps(log) == Sleeps(log) + [];
    } else {
      OneMore(rt, env, a, OnceState(rt, req, env, a, held, log), runs(a + 1));
    }
  }

  function RunsOf(rt: Transport, req: Request, env: Env): nat -> Retry.Run<Error> {
    (a: nat) => if a == 0 then Retry.Run(None, 0, []) else RunFrom(rt, req, env, a)
  }

  lemma AttemptUnfolds(rt: Transport, req: Request, env: Env, a: nat, held: Option<Held>, log: Log)
    requires 0 < a <= Retry.Attempts(rt.retry)
    ensures var s := OnceState(rt, req, env, a, held, log);
      Sleeps(s.log) == Sleeps(log) && Unfolds(rt, env, RunsOf(rt, req, env), a, s.err)
  {
    ErrorAlone(rt, req, env, a, held, log);
    OnceSleeps(rt, req, env, a, held, log);
    RunsUnfold(rt, req, env, a);
  }

  lemma RunsUnfold(rt: Transport, req: Request, env: Env, a: nat)
    requires 0 < a <= Retry.Attempts(rt.retry)
    ensures Unfolds(rt, env, RunsOf(rt, req, env), a, ErrorOf(rt, req, env, a))
  {
    if !env.dead(3 * a - 3) { RunUnfolds(rt, req, env, a); }
  }

  /** The transport's loop is the retrier's: same error, same waits. */
  lemma LoopIsDoCtx(rt: Transport, req: Request, env: Env, a: nat, held: Option<Held>, log: Log)
    requires 0 < a <= Retry.Attempts(rt.retry)
    ensures Agrees(LoopState(rt, req, env, a, held, log), Sleeps(log), RunFrom(rt, req, env, a))
  {
    var runs := RunsOf(rt, req, env);
    var err, sleeps := runs(a).err, Sleeps(log) + runs(a).sleeps;
    var inv, post := AgreeInv(runs, err, sleeps), AgreePost(err, sleeps);
    forall b: nat, h, l | 0 < b <= Retry.Attempts(rt.retry) && inv(b, h, l)
      ensures PassKeeps(rt, req, env, inv, post, b, h, l)
    {
      AttemptUnfolds(rt, req, env, b, h, l);
      PassAgrees(rt, req, env, runs, err, sleeps, b, h, l);
    }
    LoopRule(rt, req, env, inv, post, a, held, log);
  }

  lemma WaitIsDelay(rt: Transport, req: Request, env: Env, a: nat, e: Error)
    requires a > 0
    ensures Wait(rt, env, a, e) == Retry.Delay(rt.retry, AsRetrier(rt, req, env), a - 1, e)
  {
  }
}

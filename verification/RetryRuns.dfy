/** What holds of every run of the retrying transport. */
module RetryRuns {
  import opened Wrappers
  import opened RetryAfter
  import opened RetryLoop
  import opened RetryTransport
  import Retry

  // ----- ownership: what becomes of each attempt's context and response

  /** The life of attempt `x`: its context made, its request in flight, its response open; at the end the
      response has been drained and closed and the context cancelled, in this order (Done), or the context
      cancelled for want of a response (Aborted), or the response has been handed out with the cancel in its
      body (Live).  Any other order of events is Broken for good. */
  datatype Life = Unborn | Made | InFlight | Open | Emptied | Shut | Done | Aborted | Live | Broken

  function Move(now: Life, from: Life, to: Life): Life { if now == from then to else Broken }

  function After(now: Life, e: Event, x: nat): Life {
    match e
    case ContextMade(id) => if id == x then Move(now, Unborn, Made) else now
    case BodyRewound(id, _) => if id == x then Move(now, Made, Made) else now
    case Sent(id, _) => if id == x then Move(now, Made, InFlight) else now
    case Received(id) => if id == x then Move(now, InFlight, Open) else now
    case Drained(id) => if id == x then Move(now, Open, Emptied) else now
    case Closed(id) => if id == x then (if now.Live? then Shut else Move(now, Emptied, Shut)) else now
    case Cancelled(id) =>
      if id != x then now
      else if now.Shut? then Done
      else if now.Made? || now.InFlight? then Aborted
      else Broken
    case Wrapped(body, cancel) =>
      if body == x && cancel == x then Move(now, Open, Live) else if body == x || cancel == x then Broken else now
    case _ => now
  }

  function LifeOf(log: Log, x: nat): Life {
    match log
    case Start => Unborn
    case Then(before, e) => After(LifeOf(before, x), e, x)
  }

  predicate Settled(l: Life) { l.Unborn? || l.Done? || l.Aborted? }

  predicate OwnedAt(log: Log, held: Option<Held>, resp: Option<Response>, n: nat, x: nat) {
    if held.Some? && x == n then LifeOf(log, x).Open?
    else if resp.Some? && x == n then LifeOf(log, x).Live?
    else Settled(LifeOf(log, x)) && (x > n ==> LifeOf(log, x).Unborn?)
  }

  /** After `n` attempts everything is settled but for the last response, which is held with its own cancel or
      final. */
  ghost predicate Owned(log: Log, held: Option<Held>, resp: Option<Response>, n: nat) {
    && (held.Some? ==> held.value.response.id == held.value.cancel == n && resp.None?)
    && (resp.Some? ==> resp.value.id == n)
    && forall x: nat :: OwnedAt(log, held, resp, n, x)
  }

  lemma Unrolled(log: Log, e: Event, f: Event, g: Event, x: nat)
    ensures LifeOf(Then(log, e), x) == After(LifeOf(log, x), e, x)
    ensures LifeOf(Then(Then(log, e), f), x) == After(After(LifeOf(log, x), e, x), f, x)
    ensures LifeOf(Then(Then(Then(log, e), f), g), x) == After(After(After(LifeOf(log, x), e, x), f, x), g, x)
  {
    var one := Then(log, e);
    var two := Then(one, f);
    assert LifeOf(two, x) == After(LifeOf(one, x), f, x);
    assert LifeOf(Then(two, g), x) == After(LifeOf(two, x), g, x);
  }

  lemma DrainOwned(log: Log, held: Option<Held>, n: nat)
    requires Owned(log, held, None, n)
    ensures Owned(DrainedPrev(log, held), None, None, n)
  {
    forall x: nat ensures OwnedAt(DrainedPrev(log, held), None, None, n, x) {
      assert OwnedAt(log, held, None, n, x);
      Unrolled(log, Drained(n), Closed(n), Cancelled(n), x);
    }
  }

  /** The life of `x` through one call of base, for attempt `a`. */
  lemma TriedLife(rt: Transport, req: Request, env: Env, a: nat, rewound: bool, log: Log, x: nat)
    requires a > 0 && LifeOf(log, a).Made?
    ensures var s := Tried(rt, req, env, a, rewound, log);
      LifeOf(s.log, x) ==
        if x != a then LifeOf(log, x) else if s.held.Some? then Open else if s.resp.Some? then Live else Aborted
  {
    var sent := Sent(a, rewound);
    Unrolled(log, sent, Cancelled(a), SawDead, x);
    Unrolled(log, sent, Received(a), Wrapped(a, a), x);
    Unrolled(log, sent, Cancelled(a), SawDead, a);
    Unrolled(log, sent, Received(a), Wrapped(a, a), a);
  }

  lemma SendLife(rt: Transport, req: Request, env: Env, a: nat, log: Log, x: nat)
    requires a > 0 && LifeOf(log, a).Unborn?
    ensures var s := SendState(rt, req, env, a, log);
      LifeOf(s.log, x) ==
        if x != a then LifeOf(log, x) else if s.held.Some? then Open else if s.resp.Some? then Live else Aborted
  {
    var made := ContextMade(a);
    Unrolled(log, made, BodyRewound(a, false), Cancelled(a), x);
    Unrolled(log, made, BodyRewound(a, true), Cancelled(a), x);
    Unrolled(log, made, BodyRewound(a, true), Cancelled(a), a);
    if a > 1 && req.hasGetBody {
      if env.getBody(a).None? {
        TriedLife(rt, req, env, a, true, Then(Then(log, made), BodyRewound(a, true)), x);
      }
    } else {
      TriedLife(rt, req, env, a, false, Then(log, made), x);
    }
  }

  lemma SendOwned(rt: Transport, req: Request, env: Env, a: nat, log: Log)
    requires a > 0 && Owned(log, None, None, a - 1)
    ensures var s := SendState(rt, req, env, a, log); Owned(s.log, s.held, s.resp, a)
  {
    var s := SendState(rt, req, env, a, log);
    assert OwnedAt(log, None, None, a - 1, a);
    forall x: nat ensures OwnedAt(s.log, s.held, s.resp, a, x) {
      assert OwnedAt(log, None, None, a - 1, x);
      SendLife(rt, req, env, a, log, x);
    }
  }

  lemma OnceOwned(rt: Transport, req: Request, env: Env, a: nat, held: Option<Held>, log: Log)
    requires a > 0 && Owned(log, held, None, a - 1)
    ensures var s := OnceState(rt, req, env, a, held, log); Owned(s.log, s.held, s.resp, a)
  {
    var drained := DrainedPrev(log, held);
    DrainOwned(log, held, a - 1);
    if a == 1 {
      SendOwned(rt, req, env, a, drained);
    } else {
      var yes := env.allow(a);
      SettledEvent(drained, None, None, a - 1, Allowed(a, yes));
      SettledEvent(Then(drained, Allowed(a, yes)), None, None, a - 1, Recorded(yes));
      if yes {
        SendOwned(rt, req, env, a, Then(Then(drained, Allowed(a, true)), Recorded(true)));
      } else {
        var s := OnceState(rt, req, env, a, held, log);
        forall x: nat ensures OwnedAt(s.log, None, None, a, x) {
          assert OwnedAt(s.log, None, None, a - 1, x);
        }
      }
    }
  }

  lemma {:induction false} LoopOwned(
    rt: Transport, req: Request, env: Env, a: nat, held: Option<Held>, log: Log) returns (n: nat)
    requires 0 < a <= Retry.Attempts(rt.retry) && Owned(log, held, None, a - 1)
    ensures var s := LoopState(rt, req, env, a, held, log); Owned(s.log, s.held, s.resp, n)
    ensures a - 1 <= n <= Retry.Attempts(rt.retry)
    decreases Retry.Attempts(rt.retry) - a
  {
    n := a - 1;
    if env.dead(3 * a - 3) {
      SettledEvent(log, held, None, n, SawDead);
    } else {
      var s := OnceState(rt, req, env, a, held, log);
      OnceOwned(rt, req, env, a, held, log);
      OnceHasResult(rt, req, env, a, held, log);
      n := a;
      match NextAfter(rt, env, a, s) {
        case Return(_) =>
          if s.err.Some? {
            var slept := Slept(Wait(rt, env, a, s.err.value));
            SettledEvent(s.log, s.held, s.resp, a, slept);
            SettledEvent(Then(s.log, slept), s.held, s.resp, a, SawDead);
          }
        case GoOn(nextHeld, nextLog) =>
          SettledEvent(s.log, s.held, s.resp, a, nextLog.last);
          n := LoopOwned(rt, req, env, a + 1, nextHeld, nextLog);
      }
    }
  }

  /** Events that concern no attempt's context or response change nothing. */
  lemma SettledEvent(log: Log, held: Option<Held>, resp: Option<Response>, n: nat, e: Event)
    requires Owned(log, held, resp, n) && (e.SawDead? || e.Slept? || e.Allowed? || e.Recorded?)
    ensures Owned(Then(log, e), held, resp, n)
  {
    forall x: nat ensures OwnedAt(Then(log, e), held, resp, n, x) {
      assert OwnedAt(log, held, resp, n, x);
    }
  }

  /** In every run each response is drained, closed and its context cancelled, once and in this order, or it is
      returned live with its own cancel in the body; a context without a response is cancelled once.  A
      response returned is the one of the last attempt made. */
  lemma Ownership(rt: Transport, req: Request, env: Env) returns (n: nat)
    ensures var out := RoundTripped(rt, req, env);
      && (forall x: nat :: if out.result.Ok? && x == out.result.value.id then LifeOf(out.log, x).Live?
                      else Settled(LifeOf(out.log, x)))
      && (out.result.Ok? ==> out.result.value.id == n)
      && (forall x: nat :: x > n ==> LifeOf(out.log, x).Unborn?)
  {
    var out := RoundTripped(rt, req, env);
    n := 0;
    if Replayable(rt, req) {
      var s := RunState(rt, req, env);
      RunHasResult(rt, req, env, 1, None, Start);
      forall x: nat ensures OwnedAt(Start, None, None, 0, x) { }
      if Retryable(rt, req) {
        n := LoopOwned(rt, req, env, 1, None, Start);
      } else {
        OnceOwned(rt, req, env, 1, None, Start);
        n := 1;
      }
      ResultOwned(s, n);
    }
  }

  lemma ResultOwned(s: State, n: nat)
    requires (s.resp.Some? || s.err.Some?) && Owned(s.log, s.held, s.resp, n)
    ensures var out := Resulting(s);
      && (forall x: nat :: if out.result.Ok? && x == out.result.value.id then LifeOf(out.log, x).Live?
                      else Settled(LifeOf(out.log, x)))
      && (out.result.Ok? ==> out.result.value.id == n)
      && (forall x: nat :: x > n ==> LifeOf(out.log, x).Unborn?)
  {
    var out := Resulting(s);
    forall x: nat
      ensures if out.result.Ok? && x == out.result.value.id then LifeOf(out.log, x).Live?
              else Settled(LifeOf(out.log, x))
             ensures x > n ==> LifeOf(out.log, x).Unborn? {
      assert OwnedAt(s.log, s.held, s.resp, n, x);
      Unrolled(s.log, Drained(n), Closed(n), Cancelled(n), x);
    }
  }

  /** The caller's Close on the returned body: lines 64-68. */
  function CallerCloses(out: Outcome): Log {
    if out.result.Err? then out.log
    else Then(Then(out.log, Closed(out.result.value.id)), Cancelled(out.result.value.id))
  }

  /** Once the caller has closed the body, nothing at all is left open. */
  lemma NothingLeaks(rt: Transport, req: Request, env: Env)
    ensures forall x: nat :: Settled(LifeOf(CallerCloses(RoundTripped(rt, req, env)), x))
  {
    var n := Ownership(rt, req, env);
    var out := RoundTripped(rt, req, env);
    forall x: nat ensures Settled(LifeOf(CallerCloses(out), x)) {
      Unrolled(out.log, Closed(n), Cancelled(n), SawDead, x);
    }
  }

  // ----- the budget: what is counted

  datatype Tally = Tally(sends: nat, allows: nat, granted: nat, records: nat, recordedYes: nat, notRewound: nat)

  function Counted(t: Tally, e: Event): Tally {
    match e
    case Sent(_, _) => t.(sends := t.sends + 1)
    case Allowed(_, yes) => t.(allows := t.allows + 1, granted := t.granted + if yes then 1 else 0)
    case Recorded(yes) => t.(records := t.records + 1, recordedYes := t.recordedYes + if yes then 1 else 0)
    case BodyRewound(_, ok) => if ok then t else t.(notRewound := t.notRewound + 1)
    case _ => t
  }

  function TallyOf(log: Log): Tally {
    match log
    case Start => Tally(0, 0, 0, 0, 0, 0)
    case Then(before, e) => Counted(TallyOf(before), e)
  }

  lemma Uncounted(log: Log, e: Event)
    requires e.SawDead? || e.Slept? || e.Wrapped?
    ensures TallyOf(Then(log, e)) == TallyOf(log)
  {
  }

  lemma Tallied(log: Log, e: Event, f: Event, g: Event)
    ensures TallyOf(Then(log, e)) == Counted(TallyOf(log), e)
    ensures TallyOf(Then(Then(log, e), f)) == Counted(Counted(TallyOf(log), e), f)
    ensures TallyOf(Then(Then(Then(log, e), f), g)) == Counted(Counted(Counted(TallyOf(log), e), f), g)
  {
    var one := Then(log, e);
    var two := Then(one, f);
    assert TallyOf(two) == Counted(TallyOf(one), f);
    assert TallyOf(Then(two, g)) == Counted(TallyOf(two), g);
  }

  /** After `n` attempts: each but the first asked the budget once and recorded the answer, and base was called
      for the first and for every one granted whose body could be rewound. */
  predicate Balanced(t: Tally, n: nat) {
    if n == 0 then t == Tally(0, 0, 0, 0, 0, 0)
    else
      && t.allows == t.records == n - 1 && t.granted == t.recordedYes <= n - 1
      && t.sends == 1 + t.recordedYes - t.notRewound
  }

  lemma TriedTally(rt: Transport, req: Request, env: Env, a: nat, rewound: bool, log: Log)
    requires a > 0
    ensures var t := TallyOf(log); TallyOf(Tried(rt, req, env, a, rewound, log).log) == t.(sends := t.sends + 1)
  {
    var sent := Sent(a, rewound);
    Tallied(log, sent, Cancelled(a), SawDead);
    Tallied(log, sent, Received(a), Wrapped(a, a));
  }

  lemma SendTally(rt: Transport, req: Request, env: Env, a: nat, log: Log)
    requires a > 0
    ensures var t := TallyOf(log);
      TallyOf(SendState(rt, req, env, a, log).log) ==
        if a > 1 && req.hasGetBody && env.getBody(a).Some? then t.(notRewound := t.notRewound + 1)
        else t.(sends := t.sends + 1)
  {
    var made := ContextMade(a);
    Tallied(log, made, BodyRewound(a, false), Cancelled(a));
    Tallied(log, made, BodyRewound(a, true), Cancelled(a));
    if a > 1 && req.hasGetBody {
      if env.getBody(a).None? {
        TriedTally(rt, req, env, a, true, Then(Then(log, made), BodyRewound(a, true)));
      }
    } else {
      TriedTally(rt, req, env, a, false, Then(log, made));
    }
  }

  lemma DrainTally(log: Log, held: Option<Held>)
    ensures TallyOf(DrainedPrev(log, held)) == TallyOf(log)
  {
    if held.Some? {
      var id := held.value.response.id;
      Tallied(log, Drained(id), Closed(id), Cancelled(held.value.cancel));
    }
  }

  lemma OnceTally(rt: Transport, req: Request, env: Env, a: nat, held: Option<Held>, log: Log)
    requires a > 0 && Balanced(TallyOf(log), a - 1)
    ensures Balanced(TallyOf(OnceState(rt, req, env, a, held, log).log), a)
  {
    var drained := DrainedPrev(log, held);
    DrainTally(log, held);
    if a == 1 {
      SendTally(rt, req, env, a, drained);
    } else {
      var yes := env.allow(a);
      Tallied(drained, Allowed(a, yes), Recorded(yes), SawDead);
      SendTally(rt, req, env, a, Then(Then(drained, Allowed(a, true)), Recorded(true)));
    }
  }

  lemma NextTally(rt: Transport, env: Env, a: nat, s: State)
    requires a > 0
    ensures var next := NextAfter(rt, env, a, s);
      TallyOf(if next.Return? then next.state.log else next.log) == TallyOf(s.log)
  {
    if s.err.Some? {
      var slept := Slept(Wait(rt, env, a, s.err.value));
      Uncounted(s.log, slept);
      Uncounted(Then(s.log, slept), SawDead);
    }
  }

  /** `n` attempts in all, of which those before attempt `a` are in the log. */
  predicate TalliedUpTo(rt: Transport, req: Request, env: Env, n: nat, a: nat, log: Log) {
    a > 0 && Balanced(TallyOf(log), a - 1) && a - 1 + RunFrom(rt, req, env, a).calls == n
  }

  function TallyInv(rt: Transport, req: Request, env: Env, n: nat): (nat, Option<Held>, Log) -> bool {
    (a: nat, held: Option<Held>, log: Log) => TalliedUpTo(rt, req, env, n, a, log)
  }

  function TallyPost(n: nat): State -> bool {
    (s: State) => Balanced(TallyOf(s.log), n)
  }

  lemma PassTally(rt: Transport, req: Request, env: Env, n: nat, a: nat, held: Option<Held>, log: Log)
    requires 0 < a <= Retry.Attempts(rt.retry) && TalliedUpTo(rt, req, env, n, a, log)
    ensures PassKeeps(rt, req, env, TallyInv(rt, req, env, n), TallyPost(n), a, held, log)
  {
    if env.dead(3 * a - 3) {
      Uncounted(log, SawDead);
    } else {
      var s := OnceState(rt, req, env, a, held, log);
      var next := NextAfter(rt, env, a, s);
      AttemptTally(rt, req, env, a, held, log, next);
      CallsUnfold(rt, req, env, a, held, log, s, next);
    }
  }

  /** The attempts of a run are the calls that the retrier makes to `once`. */
  lemma LoopTally(rt: Transport, req: Request, env: Env)
    ensures Balanced(TallyOf(LoopState(rt, req, env, 1, None, Start).log), RunFrom(rt, req, env, 1).calls)
  {
    var n := RunFrom(rt, req, env, 1).calls;
    var inv, post := TallyInv(rt, req, env, n), TallyPost(n);
    forall a: nat, held, log | 0 < a <= Retry.Attempts(rt.retry) && inv(a, held, log)
      ensures PassKeeps(rt, req, env, inv, post, a, held, log)
    {
      PassTally(rt, req, env, n, a, held, log);
    }
    LoopRule(rt, req, env, inv, post, 1, None, Start);
  }

  lemma AttemptTally(
    rt: Transport, req: Request, env: Env, a: nat, held: Option<Held>, log: Log, next: Next)
    requires a > 0 && Balanced(TallyOf(log), a - 1)
    requires next == NextAfter(rt, env, a, OnceState(rt, req, env, a, held, log))
    ensures Balanced(TallyOf(if next.Return? then next.state.log else next.log), a)
  {
    OnceTally(rt, req, env, a, held, log);
    NextTally(rt, env, a, OnceState(rt, req, env, a, held, log));
  }

  lemma CallsUnfold(
    rt: Transport, req: Request, env: Env, a: nat, held: Option<Held>, log: Log, s: State, next: Next)
    requires 0 < a <= Retry.Attempts(rt.retry) && !env.dead(3 * a - 3)
    requires s == OnceState(rt, req, env, a, held, log) && next == NextAfter(rt, env, a, s)
    ensures RunFrom(rt, req, env, a).calls == 1 + if next.GoOn? then RunFrom(rt, req, env, a + 1).calls else 0
  {
    ErrorAlone(rt, req, env, a, held, log);
    RunUnfolds(rt, req, env, a);
  }

  /** The number of attempts of a request. */
  function AttemptsMade(rt: Transport, req: Request, env: Env): nat {
    if !Replayable(rt, req) then 0
    else if !Retryable(rt, req) then 1
    else Retry.DoFrom(rt.retry, AsRetrier(rt, req, env), 0).calls
  }

  /** How often base and the budget are called: of the attempts made, each but the first asks the budget once and
      records the answer; base is called 1 + Record(true) - `GetBody` failures times, at most max(maxRetries, 1),
      and at most once when the method is not retryable. */
  lemma BudgetBalance(rt: Transport, req: Request, env: Env)
    ensures var t, n := TallyOf(RoundTripped(rt, req, env).log), AttemptsMade(rt, req, env);
      && Balanced(t, n) && t.sends <= n <= Retry.Max(rt.retry.maxRetries, 1)
      && (!Retryable(rt, req) ==> n <= 1)
      && (n > 0 <==> Replayable(rt, req) && !(Retryable(rt, req) && env.dead(0)))
  {
    if Replayable(rt, req) {
      var s := RunState(rt, req, env);
      RunHasResult(rt, req, env, 1, None, Start);
      if Retryable(rt, req) {
        LoopTally(rt, req, env);
        var k, e := Retry.DoMeaning(rt.retry, AsRetrier(rt, req, env));
      } else {
        OnceTally(rt, req, env, 1, None, Start);
      }
      ResultTally(s);
    }
  }

  lemma ResultTally(s: State)
    requires s.resp.Some? || s.err.Some?
    ensures TallyOf(Resulting(s).log) == TallyOf(s.log)
  {
    DrainTally(s.log, s.held);
    if s.held.Some? { Uncounted(s.log, Wrapped(s.held.value.response.id, s.held.value.cancel)); }
  }

  // ----- what is never sent

  /** No attempt but the first sends the original body, unless there is none. */
  predicate FreshBodies(log: Log, req: Request) {
    log.Then? ==>
      && FreshBodies(log.before, req)
      && (log.last.Sent? && !log.last.rewound ==> log.last.id == 1 || !req.hasBody)
  }

  /** Nothing is begun once the caller's context has been seen dead. */
  predicate QuietAfterDeath(log: Log) {
    log.Then? ==>
      && QuietAfterDeath(log.before)
      && (log.last.ContextMade? || log.last.Sent? || log.last.Allowed? ==> !Has(log.before, SawDead))
  }

  /** A log that is in order, and in which the death of the caller is seen only if it is dead at look `k`. */
  predicate InOrder(log: Log, req: Request, env: Env, k: nat) {
    FreshBodies(log, req) && QuietAfterDeath(log) && (Has(log, SawDead) ==> env.dead(k))
  }

  /** An event that may follow whatever has happened. */
  predicate Harmless(e: Event) {
    !(e.ContextMade? || e.Sent? || e.Allowed? || e.SawDead?)
  }

  lemma HarmlessInOrder(log: Log, e: Event, f: Event, g: Event, req: Request, env: Env, k: nat)
    requires InOrder(log, req, env, k) && Harmless(e) && Harmless(f) && Harmless(g)
    ensures InOrder(Then(log, e), req, env, k)
    ensures InOrder(Then(Then(log, e), f), req, env, k)
    ensures InOrder(Then(Then(Then(log, e), f), g), req, env, k)
  {
    var one := Then(log, e);
    var two := Then(one, f);
    assert InOrder(one, req, env, k);
    assert InOrder(two, req, env, k);
  }

  lemma DrainInOrder(log: Log, held: Option<Held>, req: Request, env: Env, k: nat)
    requires InOrder(log, req, env, k)
    ensures InOrder(DrainedPrev(log, held), req, env, k)
  {
    if held.Some? {
      var id := held.value.response.id;
      HarmlessInOrder(log, Drained(id), Closed(id), Cancelled(held.value.cancel), req, env, k);
    }
  }

  lemma TriedInOrder(rt: Transport, req: Request, env: Env, a: nat, rewound: bool, log: Log)
    requires a > 0 && FreshBodies(log, req) && QuietAfterDeath(log) && !Has(log, SawDead)
    requires rewound || a == 1 || !req.hasBody
    ensures InOrder(Tried(rt, req, env, a, rewound, log).log, req, env, 3 * a - 2)
  {
    var sent := Then(log, Sent(a, rewound));
    assert InOrder(sent, req, env, 3 * a - 2) && !Has(sent, SawDead);
    HarmlessInOrder(sent, Cancelled(a), Cancelled(a), Cancelled(a), req, env, 3 * a - 2);
    HarmlessInOrder(sent, Received(a), Wrapped(a, a), Wrapped(a, a), req, env, 3 * a - 2);
  }

  lemma SendInOrder(rt: Transport, req: Request, env: Env, a: nat, log: Log)
    requires a > 0 && FreshBodies(log, req) && QuietAfterDeath(log) && !Has(log, SawDead)
    requires a == 1 || !req.hasBody || req.hasGetBody
    ensures InOrder(SendState(rt, req, env, a, log).log, req, env, 3 * a - 2)
  {
    var made := Then(log, ContextMade(a));
    assert InOrder(made, req, env, 3 * a - 2) && !Has(made, SawDead);
    HarmlessInOrder(made, BodyRewound(a, false), Cancelled(a), Cancelled(a), req, env, 3 * a - 2);
    HarmlessInOrder(made, BodyRewound(a, true), Cancelled(a), Cancelled(a), req, env, 3 * a - 2);
    assert !Has(Then(made, BodyRewound(a, true)), SawDead);
    if a > 1 && req.hasGetBody {
      if env.getBody(a).None? {
        TriedInOrder(rt, req, env, a, true, Then(made, BodyRewound(a, true)));
      }
    } else {
      TriedInOrder(rt, req, env, a, false, made);
    }
  }

  lemma OnceInOrder(rt: Transport, req: Request, env: Env, a: nat, held: Option<Held>, log: Log)
    requires a > 0 && FreshBodies(log, req) && QuietAfterDeath(log) && !Has(log, SawDead)
    requires a == 1 || !req.hasBody || req.hasGetBody
    ensures InOrder(OnceState(rt, req, env, a, held, log).log, req, env, 3 * a - 2)
  {
    var drained := DrainedPrev(log, held);
    var nobody := env.(dead := (_: nat) => false);
    DrainInOrder(log, held, req, nobody, 0);
    if a == 1 {
      SendInOrder(rt, req, env, a, drained);
    } else {
      var asked := Then(drained, Allowed(a, env.allow(a)));
      var told := Then(asked, Recorded(env.allow(a)));
      assert InOrder(asked, req, nobody, 0);
      assert InOrder(told, req, nobody, 0);
      if env.allow(a) { SendInOrder(rt, req, env, a, told); }
    }
  }

  lemma {:induction false} LoopInOrder(
    rt: Transport, req: Request, env: Env, a: nat, held: Option<Held>, log: Log) returns (k: nat)
    requires Sane(env) && 0 < a <= Retry.Attempts(rt.retry)
    requires a == 1 || !req.hasBody || req.hasGetBody
    requires !req.hasBody || req.hasGetBody
    requires InOrder(log, req, env, 3 * a - 3)
    ensures InOrder(LoopState(rt, req, env, a, held, log).log, req, env, k)
    decreases Retry.Attempts(rt.retry) - a
  {
    k := 3 * a - 3;
    if !env.dead(k) {
      var s := OnceState(rt, req, env, a, held, log);
      OnceInOrder(rt, req, env, a, held, log);
      var next := NextAfter(rt, env, a, s);
      LoopUnfolds(rt, req, env, a, held, log, s, next);
      NextInOrder(rt, req, env, a, s);
      k := 3 * a - 1;
      if next.GoOn? {
        k := LoopInOrder(rt, req, env, a + 1, next.held, next.log);
      }
    }
  }

  lemma NextInOrder(rt: Transport, req: Request, env: Env, a: nat, s: State)
    requires Sane(env) && a > 0 && InOrder(s.log, req, env, 3 * a - 2)
    ensures match NextAfter(rt, env, a, s)
      case Return(t) => InOrder(t.log, req, env, 3 * a - 1)
      case GoOn(_, log) => InOrder(log, req, env, 3 * a)
  {
    if s.err.Some? {
      var slept := Slept(Wait(rt, env, a, s.err.value));
      HarmlessInOrder(s.log, slept, slept, slept, req, env, 3 * a - 2);
      assert Has(Then(Then(s.log, slept), SawDead), SawDead);
    }
  }

  /** In no run does an attempt but the first send the original body, or is anything begun after the caller's
      death has been seen. */
  lemma NothingStaleSent(rt: Transport, req: Request, env: Env)
    requires Sane(env)
    ensures var log := RoundTripped(rt, req, env).log; FreshBodies(log, req) && QuietAfterDeath(log)
  {
    if Replayable(rt, req) {
      var s := RunState(rt, req, env);
      RunHasResult(rt, req, env, 1, None, Start);
      var k := 1;
      if Retryable(rt, req) {
        k := LoopInOrder(rt, req, env, 1, None, Start);
      } else {
        OnceInOrder(rt, req, env, 1, None, Start);
      }
      DrainInOrder(s.log, s.held, req, env, k);
      if s.held.Some? {
        var wrapped := Wrapped(s.held.value.response.id, s.held.value.cancel);
        HarmlessInOrder(s.log, wrapped, wrapped, wrapped, req, env, k);
      }
    }
  }
}
